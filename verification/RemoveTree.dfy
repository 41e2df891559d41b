/** Deleting a quarantined tree, bottom-up, entry by entry. */
module RemoveTree {
  import opened Base
  import opened Trees
  import opened Inventory
  import opened ScanTree
  import opened Lifecycle

  predicate Inside(d: Path, p: Path) {
    |d| < |p| && d <= p
  }

  ghost function Under(t: Tree, d: Path): set<Path> {
    set p | p in t && d <= p
  }

  ghost function Without(t: Tree, d: Path): Tree {
    map p | p in t && !(d <= p) :: t[p]
  }

  /** The tree without the entries of `d` named in `gone` and all that is below them. */
  ghost function Pruned(t: Tree, d: Path, gone: set<Name>): Tree {
    map p | p in t && !(Inside(d, p) && p[|d|] in gone) :: t[p]
  }

  lemma UnderShrinks(t: Tree, d: Path, gone: set<Name>, n: Name)
    requires d in t
    ensures |Under(Pruned(t, d, gone), d + [n])| < |Under(t, d)|
  {
    var a, b := Under(Pruned(t, d, gone), d + [n]), Under(t, d) - {d};
    forall q | q in a ensures q in b {
      assert d <= d + [n] <= q;
    }
    SubsetSize(a, b);
  }

  lemma PrunedIsTree(t: Tree, d: Path, gone: set<Name>)
    requires WellFormed(t) && d in t
    ensures Leftover(t, Pruned(t, d, gone)) && d in Pruned(t, d, gone)
  {
    var rest := Pruned(t, d, gone);
    assert [] in rest;
    forall p | p in rest && p != [] ensures Parent(p) in rest && rest[Parent(p)].Directory? {
      assert Inside(d, Parent(p)) ==> Inside(d, p) && p[|d|] == Parent(p)[|d|];
    }
  }

  lemma PrunedChild(t: Tree, d: Path, gone: set<Name>, n: Name)
    requires d + [n] in t && n !in gone
    ensures d + [n] in Pruned(t, d, gone)
    ensures forall p <- t :: d + [n] <= p ==> p in Pruned(t, d, gone)
  {
    forall p | p in t && d + [n] <= p ensures p[|d|] == n {
      assert (d + [n])[|d|] == n;
    }
  }

  lemma PruneMore(t: Tree, d: Path, gone: set<Name>, n: Name)
    ensures Without(Pruned(t, d, gone), d + [n]) == Pruned(t, d, gone + {n})
  {
    forall p: Path ensures d + [n] <= p <==> Inside(d, p) && p[|d|] == n {
      assert d + [n] <= p ==> (d + [n])[|d|] == n;
      if Inside(d, p) {
        assert p[..|d| + 1] == d + [p[|d|]];
      }
    }
  }

  lemma PrunedAll(t: Tree, d: Path, gone: set<Name>)
    requires WellFormed(t) && d in t && forall n: Name :: d + [n] in t ==> n in gone
    ensures Pruned(t, d, gone) - {d} == Without(t, d)
    ensures forall p <- t :: Inside(d, p) ==> p[|d|] in gone
  {
    hide WellFormed;
    forall p | p in t && Inside(d, p) ensures p[|d|] in gone {
      assert p[..|d| + 1] == d + [p[|d|]];
      PrefixesExist(t, p, d + [p[|d|]]);
    }
    assert forall p: Path :: d <= p <==> Inside(d, p) || p == d;
  }

  /** Below a file there is nothing. */
  lemma FileAlone(t: Tree, p: Path)
    requires WellFormed(t) && p in t && !t[p].Directory?
    ensures forall q <- t :: p <= q ==> q == p
    ensures t - {p} == Without(t, p)
  {
    forall q | q in t && p <= q ensures q == p {
      PrefixesExist(t, q, p);
    }
  }

  lemma RemovedOne(t: Tree, d: Path)
    requires d in t
    ensures |t - {d}| == |t| - 1
  {
    assert (t - {d}).Keys == t.Keys - {d};
    assert |t.Keys| == |t| && |(t - {d}).Keys| == |t - {d}|;
  }

  /** Part of a child deleted is part of the directory deleted. */
  lemma PartOfChild(t: Tree, d: Path, gone: set<Name>, n: Name, rest: Tree)
    requires Leftover(t, Pruned(t, d, gone)) && Leftover(Pruned(t, d, gone), rest)
    requires d in Pruned(t, d, gone) && forall p <- Pruned(t, d, gone) :: !(d + [n] <= p) ==> p in rest
    ensures Leftover(t, rest) && d in rest && forall p <- t :: !(d <= p) ==> p in rest
  {
    assert !(d + [n] <= d);
    forall p | p in t && !(d <= p) ensures p in rest {
      assert p in Pruned(t, d, gone);
      assert d + [n] <= p ==> d <= p;
    }
  }

  ghost predicate RemovableIn(t: Tree, d: Path, gone: set<Name>) {
    forall p <- t :: Inside(d, p) && p[|d|] in gone ==> t[p].Removable()
  }

  lemma RemovableMore(t: Tree, d: Path, gone: set<Name>, n: Name)
    requires RemovableIn(t, d, gone) && n !in gone && d + [n] in t
    requires forall p <- Pruned(t, d, gone) :: d + [n] <= p ==> Pruned(t, d, gone)[p].Removable()
    ensures RemovableIn(t, d, gone + {n})
  {
    PrunedChild(t, d, gone, n);
    forall p | p in t && Inside(d, p) && p[|d|] == n ensures t[p].Removable() {
      assert p[..|d| + 1] == d + [n];
      assert p in Pruned(t, d, gone);
    }
  }

  /** What is known of a directory once the entries in `gone` have been deleted. */
  lemma StepFacts(t: Tree, d: Path, gone: set<Name>, n: Name)
    requires WellFormed(t) && d in t && d + [n] in t && n !in gone
    ensures var rest := Pruned(t, d, gone);
            && WellFormed(rest) && d + [n] in rest && rest[d + [n]] == t[d + [n]]
            && Leftover(t, rest) && d in rest && (forall p <- t :: !(d <= p) ==> p in rest)
            && |Under(rest, d + [n])| < |Under(t, d)|
            && Without(rest, d + [n]) == Pruned(t, d, gone + {n})
  {
    PrunedIsTree(t, d, gone);
    PrunedChild(t, d, gone, n);
    UnderShrinks(t, d, gone, n);
    PruneMore(t, d, gone, n);
  }

  lemma BadInChild(t: Tree, d: Path, gone: set<Name>, n: Name)
    requires exists p :: p in Pruned(t, d, gone) && d + [n] <= p && !Pruned(t, d, gone)[p].Removable()
    ensures exists p :: p in t && d <= p && !t[p].Removable()
  {
    var p :| p in Pruned(t, d, gone) && d + [n] <= p && !Pruned(t, d, gone)[p].Removable();
    assert p in t && d <= p && !t[p].Removable();
  }

  lemma DirectoryDone(t: Tree, d: Path, names: seq<Name>, gone: set<Name>)
    requires WellFormed(t) && d in t && t[d].Directory? && RemovableIn(t, d, gone)
    requires Listing(t, d, names) && forall i :: 0 <= i < |names| ==> names[i] in gone
    ensures Pruned(t, d, gone) - {d} == Without(t, d) && d in Pruned(t, d, gone)
    ensures |Pruned(t, d, gone) - {d}| == |Pruned(t, d, gone)| - 1
    ensures forall p <- t :: d <= p ==> t[p].Removable()
  {
    PrunedAll(t, d, gone);
    RemovedOne(Pruned(t, d, gone), d);
    assert forall p: Path :: d <= p <==> Inside(d, p) || p == d;
  }

  /** Deletes directory `d` and everything below it, at most `budget` entries. It stops early when the
      budget is used up or it meets something that is neither file nor directory; names do not matter to it. */
  method RemoveDirectory(t: Tree, d: Path, budget: nat) returns (rest: Tree, left: nat, done: bool)
    requires WellFormed(t) && d in t && t[d].Directory?
    ensures done ==> rest == Without(t, d) && forall p <- t :: d <= p ==> t[p].Removable()
    ensures !done ==> Leftover(t, rest) && d in rest && forall p <- t :: !(d <= p) ==> p in rest
    ensures !done ==> left == 0 || exists p :: p in t && d <= p && !t[p].Removable()
    ensures left == budget - (|t| - |rest|)
    decreases |Under(t, d)|
  {
    hide WellFormed, Leftover, Without, Under, Pruned, RemovableIn, Inside, Listing;
    var names := ReadDir(t, d);
    rest, left := t, budget;
    ghost var gone: set<Name> := {};
    NothingYet(t, d);
    var k := 0;
    while k < |names|
      invariant k <= |names| && rest == Pruned(t, d, gone) && RemovableIn(t, d, gone)
      invariant forall i :: 0 <= i < |names| ==> (names[i] in gone <==> i < k)
      invariant left == budget - (|t| - |rest|)
    {
      var n := names[k];
      var p := d + [n];
      ListedName(t, d, names, k);
      StepFacts(t, d, gone, n);
      if t[p].Directory? {
        var more;
        rest, left, more := RemoveDirectory(rest, p, left);
        if !more {
          PartOfChild(t, d, gone, n, rest);
          if left > 0 {
            BadInChild(t, d, gone, n);
          }
          return rest, left, false;
        }
      } else if t[p].File? {
        if left == 0 {
          return rest, left, false;
        }
        FileAlone(rest, p);
        RemovedOne(rest, p);
        rest := rest - {p};
        left := left - 1;
      } else {
        assert p in t && d <= p && !t[p].Removable();
        return rest, left, false;
      }
      RemovableMore(t, d, gone, n);
      gone := gone + {n};
      k := k + 1;
    }
    DirectoryDone(t, d, names, gone);
    if left == 0 {
      PrunedIsTree(t, d, gone);
      OutsideStays(t, d, gone);
      return rest, left, false;
    }
    rest := rest - {d};
    left := left - 1;
    done := true;
  }

  lemma NothingYet(t: Tree, d: Path)
    ensures Pruned(t, d, {}) == t && RemovableIn(t, d, {})
  {
  }

  lemma OutsideStays(t: Tree, d: Path, gone: set<Name>)
    ensures forall p <- t :: !(d <= p) ==> p in Pruned(t, d, gone)
  {
  }

  lemma LeftoverFacts(t: Tree, rest: Tree)
    requires Leftover(t, rest)
    ensures WellFormed(rest) && forall p <- rest :: p in t && rest[p] == t[p]
  {
  }

  /** Deleting a whole tree: with `stop == 0` it is interrupted before its end. */
  method DestroyTree(t: Tree, stop: nat, budget: nat) returns (gone: bool, rest: Tree)
    requires WellFormed(t) && budget < |t|
    ensures gone <==> stop > 0 && Deletable(t)
    ensures !gone ==> Leftover(t, rest)
  {
    hide WellFormed, Leftover;
    HasRoot(t);
    if !t[[]].Directory? {
      AllOfIt(t);
      return false, t;
    }
    var left;
    rest, left, gone := RemoveDirectory(t, [], if stop == 0 then budget else |t|);
    assert gone ==> rest == map[];
    if !gone {
      RootIsLeft(rest);
    }
  }

  lemma AllOfIt(t: Tree)
    requires WellFormed(t)
    ensures Leftover(t, t)
  {
  }

  lemma RootIsLeft(rest: Tree)
    requires [] in rest
    ensures |rest| > 0
  {
    RemovedOne(rest, []);
  }
}
