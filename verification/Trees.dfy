/** Directory trees as flat maps, and the order and text of their paths. */
module Trees {
  import opened Base

  const SLASH: Byte := 47

  /** A file name as the operating system allows it: not empty and without a separator. */
  type Name = n: Bytes | n != [] && SLASH !in n witness [0]

  type Path = seq<Name>

  /** What is found at a path. `named` says whether the entry's own name is UTF-8 and follows the
      portable path rules. */
  datatype Entry = Directory(named: bool) | File(content: Bytes, named: bool) | Symlink | Special {
    function Size(): nat {
      if File? then |content| else 0
    }

    /** What an inventory accepts. */
    predicate Plain() {
      Removable() && named
    }

    /** What can be deleted. */
    predicate Removable() {
      Directory? || File?
    }
  }

  /** Everything below one root, the root itself at the empty path. */
  type Tree = map<Path, Entry>

  function Parent(p: Path): Path
    requires p != []
  {
    p[..|p| - 1]
  }

  /** What every filesystem guarantees, with lengths that fit the operating system's counters. */
  ghost predicate WellFormed(t: Tree) {
    && [] in t && (t[[]].Directory? ==> t[[]].named)
    && (forall p <- t :: p != [] ==> Parent(p) in t && t[Parent(p)].Directory?)
    && (forall p <- t :: |Join(p)| <= U64_MAX && t[p].Size() <= U64_MAX)
  }

  lemma {:induction false} PrefixesExist(t: Tree, p: Path, q: Path)
    requires WellFormed(t) && p in t && q <= p
    ensures q in t && (q != p ==> t[q].Directory?)
    decreases |p|
  {
    if q != p {
      assert q <= Parent(p);
      PrefixesExist(t, Parent(p), q);
    }
  }

  /** The relative path text: components separated by slashes. */
  function Join(p: Path): Bytes {
    if p == [] then []
    else if |p| == 1 then p[0]
    else Join(Parent(p)) + [SLASH] + p[|p| - 1]
  }

  lemma LastSlash(a: Bytes, u: Bytes, b: Bytes, v: Bytes)
    requires a + [SLASH] + u == b + [SLASH] + v && SLASH !in u && SLASH !in v
    ensures a == b && u == v
  {
    var text := a + [SLASH] + u;
    assert text[|a|] == SLASH && text[|b|] == SLASH;
    assert forall i :: |a| < i < |text| ==> text[i] == u[i - |a| - 1] && text[i] in u;
    assert forall i :: |b| < i < |text| ==> text[i] == v[i - |b| - 1] && text[i] in v;
    assert a == text[..|a|] && b == text[..|b|];
    assert u == text[|a| + 1..] && v == text[|b| + 1..];
  }

  lemma JoinShape(p: Path)
    requires p != []
    ensures Join(p) != [] && (SLASH in Join(p) <==> |p| > 1)
  {
    if |p| > 1 {
      assert Join(p)[|Join(Parent(p))|] == SLASH;
    }
  }

  /** Different paths have different texts. */
  lemma {:induction false} JoinInjective(p: Path, q: Path)
    requires Join(p) == Join(q)
    ensures p == q
    decreases |p|
  {
    if p != [] {
      JoinShape(p);
    }
    if q != [] {
      JoinShape(q);
    }
    if |p| > 1 {
      LastSlash(Join(Parent(p)), p[|p| - 1], Join(Parent(q)), q[|q| - 1]);
      JoinInjective(Parent(p), Parent(q));
      assert p == Parent(p) + [p[|p| - 1]] && q == Parent(q) + [q[|q| - 1]];
    }
  }

  lemma {:induction false} JoinOfPrefix(p: Path, q: Path)
    requires q <= p
    ensures |Join(q)| <= |Join(p)|
    decreases |p|
  {
    if q != p {
      assert q <= Parent(p);
      JoinOfPrefix(Parent(p), q);
    }
  }

  // ---- Byte order on texts ----

  predicate Less(a: Bytes, b: Bytes) {
    b != [] && (a == [] || a[0] < b[0] || (a[0] == b[0] && Less(a[1..], b[1..])))
  }

  lemma {:induction false} LessTotal(a: Bytes, b: Bytes)
    ensures Less(a, b) || a == b || Less(b, a)
  {
    if a != [] && b != [] {
      LessTotal(a[1..], b[1..]);
      assert a == [a[0]] + a[1..] && b == [b[0]] + b[1..];
    }
  }

  lemma {:induction false} LessTrans(a: Bytes, b: Bytes, c: Bytes)
    requires Less(a, b) && Less(b, c)
    ensures Less(a, c)
  {
    if a != [] && a[0] == b[0] == c[0] {
      LessTrans(a[1..], b[1..], c[1..]);
    }
  }

  lemma {:induction false} LessIrreflexive(a: Bytes)
    ensures !Less(a, a)
  {
    if a != [] {
      LessIrreflexive(a[1..]);
    }
  }
}
