/** The tree writer and the tree verifier of Workspace materialization. */
module WorkspaceTree {
  import opened Base
  import opened Trees
  import opened Inventory
  import opened ScanTree
  import opened Snapshot
  import opened Workspace

  // ---- Writing ----

  /** No file's path runs through another file. */
  ghost predicate NoConflict(files: seq<FrozenFile>) {
    forall f <- files, g <- files :: !ProperPrefix(f.path, g.path)
  }

  /** Whether the staging tree of these files can be written from these objects. */
  ghost predicate Buildable(files: seq<FrozenFile>, objects: Objects) {
    NoConflict(files) && forall f <- files :: AllVerified(f, objects)
  }

  /** `t1` is `t` with the first `n` ancestors of `path` made directories where they were missing. */
  ghost predicate WithParents(t: Tree, path: Path, n: nat, t1: Tree)
    requires n <= |path|
  {
    && (forall p: Path :: p in t1 <==> p in t || (ProperPrefix(p, path) && |p| <= n))
    && (forall p <- t1 :: t1[p] == if p in t then t[p] else Directory(true))
  }

  method MakeParents(t: Tree, path: Path) returns (r: Option<Tree>)
    requires path != []
    ensures r.None? ==> exists p :: ProperPrefix(p, path) && p in t && !t[p].Directory?
    ensures r.Some? ==>
            WithParents(t, path, |path|, r.value) && forall p <- t :: ProperPrefix(p, path) ==> t[p].Directory?
  {
    var t1 := t;
    var n := 0;
    while n + 1 < |path|
      invariant n < |path| && WithParents(t, path, n, t1)
      invariant forall p <- t :: ProperPrefix(p, path) && |p| <= n ==> t[p].Directory?
    {
      n := n + 1;
      var p := path[..n];
      assert forall q: Path :: ProperPrefix(q, path) && |q| == n <==> q == p;
      if p in t1 {
        if !t1[p].Directory? {
          assert ProperPrefix(p, path);
          return None;
        }
      } else {
        t1 := t1[p := Directory(true)];
      }
    }
    r := Some(t1);
  }

  lemma AddedFileIsExact(t: Tree, files: seq<FrozenFile>, f: FrozenFile, t1: Tree, content: Bytes)
    requires Exact(t, files) && WithParents(t, f.path, |f.path|, t1) && f.path !in t && f.path != []
             && Describes(f.manifest, content)
    ensures Exact(t1[f.path := File(content, true)], files + [f])
  {
    hide Describes;
    var t2 := t1[f.path := File(content, true)];
    assert f in files + [f];
    assert forall g <- files :: g in files + [f];
    forall p | p in t2 && p != [] ensures EntryExpected(t2[p], p, files + [f]) {
      if p == f.path {
      } else if p in t {
        assert EntryExpected(t[p], p, files);
      } else {
        assert ProperPrefix(p, f.path);
      }
    }
    forall g, n: nat | g in files + [f] && 0 < n < |g.path| ensures g.path[..n] in t2 {
      if g in files {
        assert g.path[..n] in t;
      } else {
        assert ProperPrefix(f.path[..n], f.path);
      }
    }
  }

  lemma AddedFileIsTree(t: Tree, f: FrozenFile, t1: Tree, content: Bytes)
    requires WellFormed(t) && t[[]].Directory? && WithParents(t, f.path, |f.path|, t1) && f.path !in t && f.path != []
    requires forall p <- t :: ProperPrefix(p, f.path) ==> t[p].Directory?
    requires |Join(f.path)| <= U64_MAX && |content| <= U64_MAX
    ensures WellFormed(t1[f.path := File(content, true)])
  {
    hide Join;
    var t2 := t1[f.path := File(content, true)];
    forall p | p in t2 && p != [] ensures Parent(p) in t2 && t2[Parent(p)].Directory? {
      if p == f.path || p !in t {
        assert p <= f.path;
        assert Parent(p) == [] || ProperPrefix(Parent(p), f.path);
      }
    }
    forall p | p in t2 ensures |Join(p)| <= U64_MAX && t2[p].Size() <= U64_MAX {
      if p !in t && p != f.path {
        JoinOfPrefix(f.path, p);
      }
    }
  }

  /** The first `n` files have been written, and nothing else. */
  ghost predicate Written(t: Tree, files: seq<FrozenFile>, n: nat)
    requires n <= |files|
  {
    WellFormed(t) && Exact(t, files[..n])
  }

  lemma WriteOne(t: Tree, files: seq<FrozenFile>, n: nat, t1: Tree, content: Bytes)
    requires n < |files| && ValidSnapshot(files) && Written(t, files, n) && files[n].path !in t
    requires WithParents(t, files[n].path, |files[n].path|, t1) && Describes(files[n].manifest, content)
    requires forall p <- t :: ProperPrefix(p, files[n].path) ==> t[p].Directory?
    ensures Written(t1[files[n].path := File(content, true)], files, n + 1)
  {
    hide WithParents, WellFormed, Exact, CoveredBy;
    assert files[n] in files;
    assert files[..n + 1] == files[..n] + [files[n]];
    ExactRoot(t, files[..n]);
    SizeFits(files[n], content);
    AddedFileIsExact(t, files[..n], files[n], t1, content);
    AddedFileIsTree(t, files[n], t1, content);
  }

  lemma ExactRoot(t: Tree, files: seq<FrozenFile>)
    requires Exact(t, files)
    ensures [] in t && t[[]].Directory?
  {
  }

  lemma SizeFits(f: FrozenFile, content: Bytes)
    requires Sound(f) && Describes(f.manifest, content)
    ensures |content| <= U64_MAX
  {
    if |f.manifest.chunks| > 0 {
      ChunksAreContiguous(f.manifest.chunks, |f.manifest.chunks|, |f.manifest.chunks| - 1);
    }
  }

  /** A file can be put in place unless its path runs through, or ends at, something already written. */
  lemma BlockedMeansConflict(t: Tree, files: seq<FrozenFile>, n: nat, p: Path)
    requires n < |files| && ValidSnapshot(files) && Written(t, files, n) && p in t
    requires (ProperPrefix(p, files[n].path) && !t[p].Directory?) || p == files[n].path
    ensures !NoConflict(files)
  {
    hide Describes, WellFormed, Sound;
    assert EntryExpected(t[p], p, files[..n]);
    var g :| g in files[..n] && (g.path == p || ProperPrefix(p, g.path));
    var i :| 0 <= i < n && files[i] == g;
    assert files[i].path != files[n].path;
    assert g in files && files[n] in files;
  }

  lemma StartsEmpty(files: seq<FrozenFile>)
    ensures Written(map[[] := Directory(true)], files, 0)
  {
    assert files[..0] == [];
    assert Join([]) == [];
  }

  /** Writes the staging tree file by file. */
  method WriteTree(files: seq<FrozenFile>, objects: Objects) returns (r: Option<Tree>)
    requires ValidSnapshot(files)
    ensures r.Some? <==> Buildable(files, objects)
    ensures r.Some? ==> WellFormed(r.value) && Exact(r.value, files)
  {
    hide Written, WithParents, Sound, Describes, AllVerified, WellFormed, Exact;
    var t: Tree := map[[] := Directory(true)];
    StartsEmpty(files);
    var i := 0;
    while i < |files|
      invariant i <= |files| && Written(t, files, i)
      invariant forall k :: 0 <= k < i ==> AllVerified(files[k], objects)
    {
      var f := files[i];
      assert f in files;
      var parents := MakeParents(t, f.path);
      if parents.None? {
        ghost var p :| ProperPrefix(p, f.path) && p in t && !t[p].Directory?;
        BlockedMeansConflict(t, files, i, p);
        return None;
      }
      if f.path in parents.value {
        InParents(t, f.path, parents.value);
        BlockedMeansConflict(t, files, i, f.path);
        return None;
      }
      var content := WriteFile(f, objects);
      if content.None? {
        return None;
      }
      InParents(t, f.path, parents.value);
      WriteOne(t, files, i, parents.value, content.value);
      t := parents.value[f.path := File(content.value, true)];
      i := i + 1;
    }
    WrittenAll(t, files);
    r := Some(t);
  }

  lemma InParents(t: Tree, path: Path, t1: Tree)
    requires WithParents(t, path, |path|, t1)
    ensures path in t1 <==> path in t
  {
  }

  lemma WrittenAll(t: Tree, files: seq<FrozenFile>)
    requires Written(t, files, |files|)
    ensures WellFormed(t) && Exact(t, files) && NoConflict(files)
  {
    assert files[..|files|] == files;
    forall f, g | f in files && g in files ensures !ProperPrefix(f.path, g.path) {
      if ProperPrefix(f.path, g.path) {
        PrefixesExist(t, g.path, f.path);
      }
    }
  }

  // ---- Verifying ----

  method ExpectedDirectories(files: seq<FrozenFile>) returns (dirs: set<Path>)
    ensures forall p :: p in dirs <==> exists f :: f in files && ProperPrefix(p, f.path)
  {
    dirs := {};
    var i := 0;
    while i < |files|
      invariant i <= |files|
      invariant forall p :: p in dirs <==> exists f :: f in files[..i] && ProperPrefix(p, f.path)
    {
      var path := files[i].path;
      ghost var before := dirs;
      var n := 1;
      while n < |path|
        invariant 1 <= n
        invariant forall p :: p in dirs <==> p in before || (ProperPrefix(p, path) && |p| < n)
      {
        assert forall q: Path :: ProperPrefix(q, path) && |q| == n <==> q == path[..n];
        dirs := dirs + {path[..n]};
        n := n + 1;
      }
      assert files[..i + 1] == files[..i] + [files[i]];
      i := i + 1;
    }
    assert files[..i] == files;
  }

  method IndexByPath(files: seq<FrozenFile>) returns (index: map<Path, FrozenFile>)
    requires ValidSnapshot(files)
    ensures forall f <- files :: f.path in index && index[f.path] == f
    ensures forall p <- index :: index[p] in files && index[p].path == p
  {
    hide Sound;
    index := map[];
    var i := 0;
    while i < |files|
      invariant i <= |files|
      invariant forall k :: 0 <= k < i ==> files[k].path in index && index[files[k].path] == files[k]
      invariant forall p <- index :: index[p] in files && index[p].path == p
    {
      index := index[files[i].path := files[i]];
      i := i + 1;
    }
  }

  /** Checks one directory's entries against the snapshot. */
  method VerifyEntries(t: Tree, files: seq<FrozenFile>, dirs: set<Path>, index: map<Path, FrozenFile>, d: Path,
                       names: seq<Name>)
      returns (ok: bool, subdirs: seq<Path>, observed: set<Path>)
    requires ValidSnapshot(files) && EntriesOf(t, d, KidsOf(d, names)) && forall p <- KidsOf(d, names) :: p in t
    requires forall p :: p in dirs <==> exists f :: f in files && ProperPrefix(p, f.path)
    requires forall f <- files :: f.path in index && index[f.path] == f
    requires forall p <- index :: index[p] in files && index[p].path == p
    ensures ok ==>
            subdirs == DirsOf(t, KidsOf(d, names)) && forall p <- KidsOf(d, names) :: EntryExpected(t[p], p, files)
    ensures ok ==> forall p: Path :: p in observed <==> p in KidsOf(d, names) && t[p].File?
    ensures !ok ==> exists p :: p in t && p != [] && !EntryExpected(t[p], p, files)
  {
    hide Describes, Sound, DirsOf, EntriesOf;
    ghost var kids := KidsOf(d, names);
    subdirs, observed := [], {};
    var k := 0;
    assert kids[..0] == [];
    DirsOfNone(t);
    while k < |names|
      invariant k <= |names| == |kids|
      invariant forall p <- kids :: p in t
      invariant subdirs == DirsOf(t, kids[..k])
      invariant forall i :: 0 <= i < k ==> EntryExpected(t[kids[i]], kids[i], files)
      invariant forall p: Path :: p in observed <==> p in kids[..k] && t[p].File?
    {
      var p := d + [names[k]];
      assert p == kids[k] && p in kids;
      DirsOfOne(t, kids, k);
      assert kids[..k + 1] == kids[..k] + [p];
      match t[p] {
        case Directory(named) =>
          if !named || p !in dirs {
            return false, subdirs, observed;
          }
          subdirs := subdirs + [p];
        case File(content, named) =>
          if !named || p !in index {
            return false, subdirs, observed;
          }
          var same := VerifyFile(content, index[p]);
          if !same {
            WrongContent(files, index, p, content);
            return false, subdirs, observed;
          }
          observed := observed + {p};
        case _ =>
          return false, subdirs, observed;
      }
      k := k + 1;
    }
    assert kids[..k] == kids;
    ok := true;
  }

  lemma DirsOfNone(t: Tree)
    ensures DirsOf(t, []) == []
  {
  }

  lemma WrongContent(files: seq<FrozenFile>, index: map<Path, FrozenFile>, p: Path, content: Bytes)
    requires ValidSnapshot(files) && p in index && index[p] in files && index[p].path == p
             && !Describes(index[p].manifest, content)
    ensures !EntryExpected(File(content, true), p, files)
  {
    hide Describes, Sound;
    forall f | f in files && f.path == p ensures f == index[p] {
      SamePathSameFile(files, f, index[p]);
    }
  }

  lemma SameSizeSubset(a: set<Path>, b: set<Path>)
    requires a <= b && |a| == |b|
    ensures a == b
  {
    if a != b {
      var x :| x in b && x !in a;
      SubsetSize(a, b - {x});
    }
  }

  /** Walks an existing tree with an explicit stack, in whatever order directories are listed, and
      accepts it if and only if it is exactly what the snapshot describes. */
  method VerifyTree(t: Tree, files: seq<FrozenFile>) returns (ok: bool)
    requires WellFormed(t) && ValidSnapshot(files)
    ensures ok <==> Exact(t, files)
  {
    hide WellFormed, Frontier, EntriesOf, Listing, ValidSnapshot, EntryExpected;
    HasRoot(t);
    if !t[[]].Directory? {
      return false;
    }
    var dirs := ExpectedDirectories(files);
    var index := IndexByPath(files);
    var observed: set<Path> := {};
    var stack: seq<Path> := [[]];
    ghost var order: seq<Path> := [];
    FrontierStart(t);
    while stack != []
      invariant Frontier(t, stack, order) && Lists(t, order) && |order| <= |t.Keys|
      invariant forall p <- order :: p in t && p != [] && EntryExpected(t[p], p, files)
      invariant forall p: Path :: p in observed <==> p in order && t[p].File?
      decreases |t.Keys| - |order|, |stack|
    {
      var d := stack[|stack| - 1];
      assert stack == stack[..|stack| - 1] + [d];
      stack := stack[..|stack| - 1];
      var names := ReadDir(t, d);
      ghost var kids := KidsOf(d, names);
      KidsAreEntries(t, d, names);
      FrontierListsOnce(t, stack, d, order, kids);
      DirsOfEntries(t, d, kids);
      var fine, subdirs, seen := VerifyEntries(t, files, dirs, index, d, names);
      if !fine {
        return false;
      }
      FrontierStep(t, stack, d, order, kids, subdirs);
      Fits(t, order + kids);
      order := order + kids;
      observed := observed + seen;
      stack := stack + subdirs;
    }
    forall p | p in t && p != [] ensures p in order {
      EmptyStackMeansAll(t, order, p);
    }
    ok := |observed| == |index.Keys|;
    AllFilesSeen(t, files, index, observed);
  }

  /** `observed` are the tree's files, each one expected. */
  ghost predicate Observes(t: Tree, files: seq<FrozenFile>, index: map<Path, FrozenFile>, observed: set<Path>) {
    && (forall f <- files :: f.path in index && index[f.path] == f)
    && (forall p <- index :: index[p] in files && index[p].path == p)
    && (forall p: Path :: p in observed <==> p in t && p != [] && t[p].File?)
    && observed <= index.Keys
  }

  lemma ObservedAreExpected(t: Tree, files: seq<FrozenFile>, index: map<Path, FrozenFile>, observed: set<Path>)
    requires forall f <- files :: f.path in index
    requires forall p <- t :: p != [] ==> EntryExpected(t[p], p, files)
    requires forall p <- observed :: p in t && p != [] && t[p].File?
    ensures observed <= index.Keys
  {
    forall p | p in observed ensures p in index.Keys {
      assert EntryExpected(t[p], p, files);
    }
  }

  lemma AllSeenIsExact(t: Tree, files: seq<FrozenFile>, index: map<Path, FrozenFile>, observed: set<Path>)
    requires WellFormed(t) && t[[]].Directory? && Observes(t, files, index, observed) && observed == index.Keys
    requires forall p <- t :: p != [] ==> EntryExpected(t[p], p, files)
    ensures Exact(t, files)
  {
    hide EntryExpected;
    forall f | f in files ensures f.path in t && t[f.path].File? {
      assert f.path in observed;
    }
    forall f, n: nat | f in files && 0 < n < |f.path| ensures f.path[..n] in t {
      PrefixesExist(t, f.path, f.path[..n]);
    }
  }

  lemma ExactIsAllSeen(t: Tree, files: seq<FrozenFile>, index: map<Path, FrozenFile>, observed: set<Path>)
    requires Observes(t, files, index, observed) && Exact(t, files) && forall f <- files :: f.path != []
    ensures observed == index.Keys
  {
    hide EntryExpected;
    forall p | p in index.Keys ensures p in observed {
      assert index[p] in files;
    }
  }

  lemma AllFilesSeen(t: Tree, files: seq<FrozenFile>, index: map<Path, FrozenFile>, observed: set<Path>)
    requires WellFormed(t) && ValidSnapshot(files) && t[[]].Directory?
    requires forall f <- files :: f.path in index && index[f.path] == f
    requires forall p <- index :: index[p] in files && index[p].path == p
    requires forall p <- t :: p != [] ==> EntryExpected(t[p], p, files)
    requires forall p: Path :: p in observed <==> p in t && p != [] && t[p].File?
    ensures |observed| == |index.Keys| <==> Exact(t, files)
  {
    hide Describes, Sound, WellFormed, Exact, EntryExpected;
    ObservedAreExpected(t, files, index, observed);
    if |observed| == |index.Keys| {
      SameSizeSubset(observed, index.Keys);
      AllSeenIsExact(t, files, index, observed);
    }
    if Exact(t, files) {
      ExactIsAllSeen(t, files, index, observed);
    }
  }
}
