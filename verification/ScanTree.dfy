/** The traversal that takes the inventory, with an explicit stack and directories listed in
    whatever order the operating system returns them. */
module ScanTree {
  import opened Base
  import opened Trees
  import opened Inventory

  /** A directory whose entries have been recorded. */
  ghost predicate Listed(stack: seq<Path>, order: seq<Path>, d: Path) {
    (d == [] || d in order) && d !in stack
  }

  /** `order` holds what was recorded so far and `stack` the directories still to be listed. */
  ghost predicate Frontier(t: Tree, stack: seq<Path>, order: seq<Path>) {
    && Lists(t, order) && Distinct(stack)
    && (forall d <- stack :: d in t && t[d].Directory? && (d == [] || d in order))
    && (forall p <- t :: p != [] ==> (p in order <==> Listed(stack, order, Parent(p))))
  }

  /** `kids` are the entries of `d`, each once. */
  ghost predicate EntriesOf(t: Tree, d: Path, kids: seq<Path>) {
    Distinct(kids) && forall p :: p in kids <==> p in t && p != [] && Parent(p) == d
  }

  lemma DistinctConcat(a: seq<Path>, b: seq<Path>)
    requires Distinct(a) && Distinct(b) && forall p <- b :: p !in a
    ensures Distinct(a + b)
  {
    forall i, j | 0 <= i < j < |a + b| ensures (a + b)[i] != (a + b)[j] {
      if i < |a| <= j {
        assert b[j - |a|] in b;
      }
    }
  }

  /** The entries of a directory that is still on the stack have not been recorded. */
  lemma EntriesAreNew(t: Tree, stack: seq<Path>, d: Path, order: seq<Path>, kids: seq<Path>)
    requires Frontier(t, stack, order) && d in stack && EntriesOf(t, d, kids)
    ensures forall p <- kids :: p !in order
  {
    forall p | p in kids ensures p !in order {
      assert !Listed(stack, order, Parent(p));
    }
  }

  lemma FrontierListsOnce(t: Tree, stack: seq<Path>, d: Path, order: seq<Path>, kids: seq<Path>)
    requires Frontier(t, stack + [d], order) && EntriesOf(t, d, kids)
    ensures Lists(t, order + kids)
  {
    assert d in stack + [d];
    EntriesAreNew(t, stack + [d], d, order, kids);
    hide Frontier, EntriesOf;
    DistinctConcat(order, kids);
  }

  lemma PoppedIsGone(stack: seq<Path>, d: Path)
    requires Distinct(stack + [d])
    ensures Distinct(stack) && d !in stack
  {
    var all := stack + [d];
    forall i, j | 0 <= i < j < |stack| ensures stack[i] != stack[j] {
      assert all[i] != all[j];
    }
    forall i | 0 <= i < |stack| ensures stack[i] != d {
      assert all[i] != all[|stack|];
    }
  }

  lemma StackStaysDistinct(t: Tree, stack: seq<Path>, d: Path, order: seq<Path>, kids: seq<Path>, dirs: seq<Path>)
    requires Frontier(t, stack + [d], order) && EntriesOf(t, d, kids)
    requires Distinct(dirs) && forall q :: q in dirs <==> q in kids && t[q].Directory?
    ensures Distinct(stack + dirs) && d !in stack + dirs
  {
    assert d in stack + [d];
    EntriesAreNew(t, stack + [d], d, order, kids);
    PoppedIsGone(stack, d);
    forall q | q in dirs ensures q !in stack && q != d {
      assert q !in order && Parent(q) == d;
      assert q in stack ==> q in stack + [d];
    }
    DistinctConcat(stack, dirs);
  }

  lemma FrontierCovers(t: Tree, stack: seq<Path>, d: Path, order: seq<Path>, kids: seq<Path>, dirs: seq<Path>, p: Path)
    requires WellFormed(t) && Frontier(t, stack + [d], order) && EntriesOf(t, d, kids)
    requires Distinct(dirs) && forall q :: q in dirs <==> q in kids && t[q].Directory?
    requires p in t && p != []
    ensures p in order + kids <==> Listed(stack + dirs, order + kids, Parent(p))
  {
    var e := Parent(p);
    StackStaysDistinct(t, stack, d, order, kids, dirs);
    assert d in stack + [d];
    assert p in order <==> Listed(stack + [d], order, e);
    if e in kids {
      assert Parent(e) == d && !Listed(stack + [d], order, d);
      assert e !in order && e in dirs;
    }
    assert e in stack + [d] <==> e in stack || e == d;
  }

  /** Listing one directory moves the frontier. */
  lemma FrontierStep(t: Tree, stack: seq<Path>, d: Path, order: seq<Path>, kids: seq<Path>, dirs: seq<Path>)
    requires Frontier(t, stack + [d], order) && EntriesOf(t, d, kids) && WellFormed(t)
    requires Distinct(dirs) && forall q :: q in dirs <==> q in kids && t[q].Directory?
    ensures Frontier(t, stack + dirs, order + kids)
  {
    hide Listed, WellFormed;
    FrontierListsOnce(t, stack, d, order, kids);
    StackStaysDistinct(t, stack, d, order, kids, dirs);
    forall q | q in stack + dirs ensures q in t && t[q].Directory? && (q == [] || q in order + kids) {
      assert q in stack ==> q in stack + [d];
    }
    forall p | p in t && p != [] ensures p in order + kids <==> Listed(stack + dirs, order + kids, Parent(p)) {
      FrontierCovers(t, stack, d, order, kids, dirs, p);
    }
  }

  lemma {:induction false} EmptyStackMeansAll(t: Tree, order: seq<Path>, p: Path)
    requires WellFormed(t) && Frontier(t, [], order) && p in t && p != []
    ensures p in order
    decreases |p|
  {
    if Parent(p) != [] {
      EmptyStackMeansAll(t, order, Parent(p));
    }
    assert Listed([], order, Parent(p));
  }

  lemma {:induction false} DistinctFits(keys: set<Path>, order: seq<Path>)
    requires Distinct(order) && forall p <- order :: p in keys
    ensures |order| <= |keys|
  {
    if order != [] {
      var init, last := order[..|order| - 1], order[|order| - 1];
      assert forall p <- init :: p in order;
      DistinctFits(keys - {last}, init);
    }
  }

  /** The names of a directory's entries, each once. */
  ghost predicate Listing(t: Tree, d: Path, names: seq<Name>) {
    && (forall i, j :: 0 <= i < j < |names| ==> names[i] != names[j])
    && (forall n: Name :: n in names <==> d + [n] in t)
  }

  lemma ListedName(t: Tree, d: Path, names: seq<Name>, k: nat)
    requires Listing(t, d, names) && k < |names|
    ensures d + [names[k]] in t && forall i :: 0 <= i < |names| && i != k ==> names[i] != names[k]
  {
    assert names[k] in names;
  }

  /** The entries of one directory, in some order. */
  method ReadDir(t: Tree, d: Path) returns (names: seq<Name>)
    ensures Listing(t, d, names)
  {
    var rest := set p | p in t && p != [] && Parent(p) == d :: p[|p| - 1];
    forall n: Name ensures n in rest <==> d + [n] in t {
      var p := d + [n];
      assert Parent(p) == d && p[|p| - 1] == n;
      if n in rest {
        var q :| q in t && q != [] && Parent(q) == d && q[|q| - 1] == n;
        assert q == Parent(q) + [q[|q| - 1]];
      }
    }
    names := [];
    while rest != {}
      invariant forall i, j :: 0 <= i < j < |names| ==> names[i] != names[j]
      invariant forall n <- names :: n !in rest
      invariant forall n: Name :: n in names || n in rest <==> d + [n] in t
      decreases |rest|
    {
      var n :| n in rest;
      rest := rest - {n};
      names := names + [n];
    }
  }

  function KidsOf(d: Path, names: seq<Name>): seq<Path> {
    seq(|names|, i requires 0 <= i < |names| => d + [names[i]])
  }

  lemma KidsAreEntries(t: Tree, d: Path, names: seq<Name>)
    requires Listing(t, d, names)
    ensures EntriesOf(t, d, KidsOf(d, names))
  {
    var kids := KidsOf(d, names);
    forall i, j | 0 <= i < j < |kids| ensures kids[i] != kids[j] {
      assert kids[i][|d|] == names[i] && kids[j][|d|] == names[j];
    }
    forall p: Path ensures p in kids <==> p in t && p != [] && Parent(p) == d {
      if p in kids {
        var i :| 0 <= i < |kids| && kids[i] == p;
        assert names[i] in names;
      }
      if p in t && p != [] && Parent(p) == d {
        assert p == d + [p[|p| - 1]];
        var i :| 0 <= i < |names| && names[i] == p[|p| - 1];
        assert kids[i] == p;
      }
    }
  }

  function DirsOf(t: Tree, paths: seq<Path>): seq<Path>
    requires forall p <- paths :: p in t
  {
    if paths == [] then []
    else DirsOf(t, paths[..|paths| - 1]) + if t[paths[|paths| - 1]].Directory? then [paths[|paths| - 1]] else []
  }

  lemma {:induction false} DirsOfFilters(t: Tree, paths: seq<Path>)
    requires Distinct(paths) && forall p <- paths :: p in t
    ensures Distinct(DirsOf(t, paths)) && forall q :: q in DirsOf(t, paths) <==> q in paths && t[q].Directory?
  {
    if paths != [] {
      var init, last := paths[..|paths| - 1], paths[|paths| - 1];
      DirsOfFilters(t, init);
      assert paths == init + [last];
      assert last !in init;
    }
  }

  lemma ItemsOfAppend(t: Tree, order: seq<Path>, p: Path)
    requires p in t && forall q <- order :: q in t
    ensures ItemsOf(t, order + [p]) == ItemsOf(t, order) + [ItemOf(t, p)]
    ensures Files(ItemsOf(t, order + [p])) == Files(ItemsOf(t, order)) + if t[p].Directory? then 0 else 1
    ensures TotalSize(ItemsOf(t, order + [p])) == TotalSize(ItemsOf(t, order)) + t[p].Size()
  {
    assert ItemsOf(t, order + [p])[..|order|] == ItemsOf(t, order);
  }

  lemma RecordOne(t: Tree, order: seq<Path>, kids: seq<Path>, k: nat)
    requires Lists(t, order + kids) && k < |kids|
    ensures kids[k] in t && (forall p <- order + kids[..k + 1] :: p in t) && (forall p <- order + kids[..k] :: p in t)
    ensures ItemsOf(t, order + kids[..k + 1]) == ItemsOf(t, order + kids[..k]) + [ItemOf(t, kids[k])]
    ensures Files(ItemsOf(t, order + kids[..k + 1])) ==
            Files(ItemsOf(t, order + kids[..k])) + if t[kids[k]].Directory? then 0 else 1
    ensures TotalSize(ItemsOf(t, order + kids[..k + 1])) == TotalSize(ItemsOf(t, order + kids[..k])) + t[kids[k]].Size()
    ensures Files(ItemsOf(t, order + kids[..k + 1])) <= Files(InventoryOf(t))
    ensures TotalSize(ItemsOf(t, order + kids[..k + 1])) <= TotalSize(InventoryOf(t))
  {
    hide InventoryOf, ItemsOf, Files, TotalSize, ItemOf;
    assert kids[k] == (order + kids)[|order| + k];
    PrefixTotals(t, order + kids, |order| + k + 1);
    assert (order + kids)[..|order| + k + 1] == order + kids[..k + 1];
    assert order + kids[..k + 1] == order + kids[..k] + [kids[k]];
    forall p | p in order + kids[..k] ensures p in t {
      assert p in order + kids[..k + 1];
    }
    ItemsOfAppend(t, order + kids[..k], kids[k]);
  }

  lemma DirsOfOne(t: Tree, kids: seq<Path>, k: nat)
    requires k < |kids| && forall p <- kids :: p in t
    ensures DirsOf(t, kids[..k + 1]) == DirsOf(t, kids[..k]) + if t[kids[k]].Directory? then [kids[k]] else []
  {
    assert kids[..k + 1][..k] == kids[..k];
  }

  /** Records the entries of one directory; fails on the first thing an inventory refuses. */
  method RecordEntries(t: Tree, d: Path, names: seq<Name>, files0: nat, bytes0: nat, ghost order: seq<Path>)
      returns (ok: bool, items: seq<Item>, dirs: seq<Path>, files: nat, bytes: nat)
    requires EntriesOf(t, d, KidsOf(d, names)) && Lists(t, order + KidsOf(d, names))
    requires (forall p <- order :: p in t) && files0 == Files(ItemsOf(t, order)) <= U64_MAX
             && bytes0 == TotalSize(ItemsOf(t, order)) <= U64_MAX
    ensures ok ==> dirs == DirsOf(t, KidsOf(d, names)) && (forall p <- KidsOf(d, names) :: t[p].Plain())
    ensures ok ==> ItemsOf(t, order) + items == ItemsOf(t, order + KidsOf(d, names))
    ensures ok ==> files == Files(ItemsOf(t, order + KidsOf(d, names))) <= U64_MAX
    ensures ok ==> bytes == TotalSize(ItemsOf(t, order + KidsOf(d, names))) <= U64_MAX
    ensures !ok ==> !Scannable(t) || Files(InventoryOf(t)) > U64_MAX || TotalSize(InventoryOf(t)) > U64_MAX
  {
    hide Files, TotalSize, InventoryOf, ItemsOf, DirsOf, KidsOf, Lists, EntriesOf;
    ghost var kids := KidsOf(d, names);
    AllInTree(t, order + kids);
    RecordNone(t, order, d, names);
    items, dirs, files, bytes := [], [], files0, bytes0;
    var k := 0;
    while k < |names|
      invariant k <= |names| == |kids|
      invariant forall p <- order + kids[..k] :: p in t
      invariant dirs == DirsOf(t, kids[..k])
      invariant forall i :: 0 <= i < k ==> t[kids[i]].Plain()
      invariant ItemsOf(t, order) + items == ItemsOf(t, order + kids[..k])
      invariant files == Files(ItemsOf(t, order + kids[..k])) <= U64_MAX
      invariant bytes == TotalSize(ItemsOf(t, order + kids[..k])) <= U64_MAX
    {
      var p := d + [names[k]];
      RecordOne(t, order, kids, k);
      DirsOfOne(t, kids, k);
      if !t[p].Plain() {
        return false, items, dirs, files, bytes;
      }
      if t[p].Directory? {
        dirs := dirs + [p];
      } else {
        if files + 1 > U64_MAX || bytes + t[p].Size() > U64_MAX {
          return false, items, dirs, files, bytes;
        }
        files := files + 1;
        bytes := bytes + t[p].Size();
      }
      items := items + [ItemOf(t, p)];
      k := k + 1;
    }
    assert kids[..k] == kids;
    ok := true;
  }

  lemma RecordNone(t: Tree, order: seq<Path>, d: Path, names: seq<Name>)
    requires forall p <- order :: p in t
    requires Lists(t, order + KidsOf(d, names))
    ensures var kids := KidsOf(d, names);
            && |kids| == |names| && (forall i :: 0 <= i < |kids| ==> kids[i] == d + [names[i]])
            && (forall p <- kids :: p in t)
            && order + kids[..0] == order && DirsOf(t, kids[..0]) == [] && ItemsOf(t, order) + [] == ItemsOf(t, order)
  {
    forall p | p in KidsOf(d, names) ensures p in t {
      assert p in order + KidsOf(d, names);
    }
  }

  lemma AllInTree(t: Tree, order: seq<Path>)
    requires Lists(t, order)
    ensures forall p <- order :: p in t
  {
  }

  lemma PrefixTotals(t: Tree, order: seq<Path>, n: nat)
    requires Lists(t, order) && n <= |order|
    ensures forall p <- order[..n] :: p in t
    ensures Files(ItemsOf(t, order[..n])) <= Files(InventoryOf(t))
            && TotalSize(ItemsOf(t, order[..n])) <= TotalSize(InventoryOf(t))
  {
    forall p | p in order[..n] ensures p in t && p != [] {
      assert p in order;
    }
    PartialTotals(t, order[..n]);
  }

  /** The whole scan. Its result does not depend on the order in which directories list their
      entries: it is the inventory of the tree, or nothing if that inventory is refused. */
  method ScanDirectory(t: Tree, root: Bytes) returns (r: Option<Evidence>)
    requires WellFormed(t)
    ensures r == Scan(t, root)
  {
    hide WellFormed, Frontier, EntriesOf, Listing, DirsOf, ItemsOf, Sort, Files, TotalSize, InventoryOf,
        InventoryBytes, Hash;
    HasRoot(t);
    if !t[[]].Directory? {
      return None;
    }
    var stack: seq<Path> := [[]];
    var items: seq<Item>, files: nat, bytes: nat := [], 0, 0;
    ghost var order: seq<Path> := [];
    FrontierStart(t);
    while stack != []
      invariant Frontier(t, stack, order) && Lists(t, order)
      invariant forall p <- order :: p in t && t[p].Plain()
      invariant items == ItemsOf(t, order)
      invariant files == Files(items) <= U64_MAX && bytes == TotalSize(items) <= U64_MAX
      invariant |order| <= |t.Keys|
      decreases |t.Keys| - |order|, |stack|
    {
      var d := stack[|stack| - 1];
      assert stack == stack[..|stack| - 1] + [d];
      stack := stack[..|stack| - 1];
      var names := ReadDir(t, d);
      ghost var kids := KidsOf(d, names);
      KidsAreEntries(t, d, names);
      FrontierListsOnce(t, stack, d, order, kids);
      var ok, more, dirs;
      ok, more, dirs, files, bytes := RecordEntries(t, d, names, files, bytes, order);
      if !ok {
        return None;
      }
      DirsOfEntries(t, d, kids);
      FrontierStep(t, stack, d, order, kids, dirs);
      Fits(t, order + kids);
      order := order + kids;
      items := items + more;
      stack := stack + dirs;
    }
    forall p | p in t && p != [] ensures p in order {
      EmptyStackMeansAll(t, order, p);
    }
    AnyOrderSortsToInventory(t, order);
    InventoryIsUnique(t, Sort(items), InventoryOf(t));
    SortTotals(items);
    var inventory := Sort(items);
    r := Some(Evidence(files, if CountsAsObjects(root) then files else 0, bytes,
                       Hash(InventoryBytes(root, inventory))));
  }

  lemma HasRoot(t: Tree)
    requires WellFormed(t)
    ensures [] in t
  {
  }

  lemma FrontierStart(t: Tree)
    requires WellFormed(t) && t[[]].Directory?
    ensures Frontier(t, [[]], []) && Lists(t, []) && ItemsOf(t, []) == [] && Files(ItemsOf(t, [])) == 0
            && TotalSize(ItemsOf(t, [])) == 0
  {
    var top: Path := [];
    assert top in [top];
  }

  lemma DirsOfEntries(t: Tree, d: Path, kids: seq<Path>)
    requires EntriesOf(t, d, kids)
    ensures (forall p <- kids :: p in t) && (kids == [] ==> DirsOf(t, kids) == [])
    ensures Distinct(DirsOf(t, kids)) && forall q :: q in DirsOf(t, kids) <==> q in kids && t[q].Directory?
  {
    DirsOfFilters(t, kids);
  }

  lemma Fits(t: Tree, order: seq<Path>)
    requires Lists(t, order)
    ensures |order| <= |t.Keys|
  {
    DistinctFits(t.Keys, order);
  }
}
