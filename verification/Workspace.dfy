/** Checking out a snapshot into a Workspace directory and recognising one that is already there. */
module Workspace {
  import opened Base
  import opened Trees
  import opened Inventory
  import opened ScanTree
  import opened Snapshot

  /** What the snapshot's constructor guarantees: records agree with their Manifests and paths are
      not empty and all different. */
  ghost predicate ValidSnapshot(files: seq<FrozenFile>) {
    && (forall f <- files :: Sound(f) && f.path != [] && |Join(f.path)| <= U64_MAX)
    && (forall i, j :: 0 <= i < j < |files| ==> files[i].path != files[j].path)
  }

  predicate ProperPrefix(p: Path, q: Path) {
    p != [] && |p| < |q| && p <= q
  }

  /** The tree's files and directories are exactly those the snapshot describes, byte for byte. */
  ghost predicate Exact(t: Tree, files: seq<FrozenFile>) {
    && [] in t && t[[]] == Directory(true)
    && (forall p <- t :: p != [] ==> EntryExpected(t[p], p, files))
    && (forall f <- files :: f.path in t && t[f.path].File?)
    && (forall f <- files, n: nat :: 0 < n < |f.path| ==> f.path[..n] in t)
  }

  ghost predicate EntryExpected(e: Entry, p: Path, files: seq<FrozenFile>) {
    || (e.Directory? && e.named && exists f :: f in files && ProperPrefix(p, f.path))
    || (e.File? && e.named && exists f :: f in files && f.path == p && Describes(f.manifest, e.content))
  }

  // ---- One file ----

  lemma SameSlice(c: ChunkRef, a: Bytes, b: Bytes)
    requires ChunkMatches(c, a) && ChunkMatches(c, b) && a[..c.offset] == b[..c.offset]
    ensures a[..c.End()] == b[..c.End()]
  {
    hide Hash;
    HashInjective(a[c.offset..c.End()], b[c.offset..c.End()]);
    assert a[..c.End()] == a[..c.offset] + a[c.offset..c.End()];
    assert b[..c.End()] == b[..c.offset] + b[c.offset..c.End()];
  }

  lemma {:induction false} ChunksDetermine(m: Manifest, a: Bytes, b: Bytes, n: nat)
    requires Describes(m, a) && Describes(m, b) && n <= |m.chunks| && CoveredBy(m.chunks, n).Some?
    ensures CoveredBy(m.chunks, n).value <= |a|
            && a[..CoveredBy(m.chunks, n).value] == b[..CoveredBy(m.chunks, n).value]
  {
    hide Hash, ValidManifest;
    if n > 0 {
      var c := m.chunks[n - 1];
      ChunksAreContiguous(m.chunks, n, n - 1);
      ChunksDetermine(m, a, b, n - 1);
      SameSlice(c, a, b);
    }
  }

  /** A Manifest describes one content only. */
  lemma ContentIsUnique(m: Manifest, a: Bytes, b: Bytes)
    requires Describes(m, a) && Describes(m, b)
    ensures a == b
  {
    ChunksDetermine(m, a, b, |m.chunks|);
    assert a[..|a|] == a && b[..|b|] == b;
  }

  /** Reads a file once, chunk by chunk, comparing hashes. */
  method VerifyFile(content: Bytes, f: FrozenFile) returns (ok: bool)
    requires Sound(f)
    ensures ok <==> Describes(f.manifest, content)
  {
    hide Hash, CoveredBy;
    if |content| != f.recordSize {
      return false;
    }
    var chunks := f.manifest.chunks;
    var at: nat, i := 0, 0;
    NothingCovered(chunks);
    while i < |chunks|
      invariant i <= |chunks| && CoveredBy(chunks, i) == Some(at)
      invariant forall k :: 0 <= k < i ==> ChunkMatches(chunks[k], content)
    {
      var c := chunks[i];
      ChunksAreContiguous(chunks, |chunks|, i);
      if Hash(content[at..at + c.size]) != c.id {
        assert !ChunkMatches(chunks[i], content);
        return false;
      }
      at := at + c.size;
      i := i + 1;
    }
    ok := true;
  }

  /** The bytes of the first `n` chunks, taken from the Volume. */
  function Gather(chunks: seq<ChunkRef>, objects: Objects, n: nat): Bytes
    requires n <= |chunks|
  {
    if n == 0 then []
    else Gather(chunks, objects, n - 1) + if chunks[n - 1].id in objects then objects[chunks[n - 1].id] else []
  }

  ghost predicate AllVerified(f: FrozenFile, objects: Objects) {
    forall i :: 0 <= i < |f.manifest.chunks| ==> Verified(objects, f.manifest.chunks[i].id, f.manifest.chunks[i].size)
  }

  lemma MatchSurvives(c: ChunkRef, before: Bytes, last: Bytes)
    requires ChunkMatches(c, before)
    ensures ChunkMatches(c, before + last)
  {
    hide Hash;
    assert (before + last)[c.offset..c.End()] == before[c.offset..c.End()];
  }

  lemma LastMatches(c: ChunkRef, before: Bytes, objects: Objects)
    requires Verified(objects, c.id, c.size) && |before| == c.offset
    ensures c.id in objects && |objects[c.id]| == c.size && ChunkMatches(c, before + objects[c.id])
  {
    hide Hash;
    assert (before + objects[c.id])[c.offset..c.End()] == objects[c.id];
  }

  lemma {:induction false} GatherMatches(chunks: seq<ChunkRef>, objects: Objects, n: nat)
    requires n <= |chunks| && CoveredBy(chunks, n).Some?
    requires forall i :: 0 <= i < n ==> Verified(objects, chunks[i].id, chunks[i].size)
    ensures CoveredBy(chunks, n) == Some(|Gather(chunks, objects, n)|)
    ensures forall i :: 0 <= i < n ==> ChunkMatches(chunks[i], Gather(chunks, objects, n))
  {
    hide ChunkMatches, Verified;
    if n > 0 {
      ChunksAreContiguous(chunks, n, n - 1);
      GatherMatches(chunks, objects, n - 1);
      var before := Gather(chunks, objects, n - 1);
      LastMatches(chunks[n - 1], before, objects);
      forall i | 0 <= i < n - 1 ensures ChunkMatches(chunks[i], before + objects[chunks[n - 1].id]) {
        MatchSurvives(chunks[i], before, objects[chunks[n - 1].id]);
      }
    }
  }

  lemma GatherDescribes(f: FrozenFile, objects: Objects)
    requires Sound(f) && AllVerified(f, objects)
    ensures Describes(f.manifest, Gather(f.manifest.chunks, objects, |f.manifest.chunks|))
  {
    hide ChunkMatches, Verified;
    GatherMatches(f.manifest.chunks, objects, |f.manifest.chunks|);
  }

  /** Every file of a snapshot that was accepted stands for some bytes, those of its chunks in a row. */
  lemma ReadableHasContent(files: seq<FrozenFile>, objects: Objects, f: FrozenFile)
    requires Readable(files, objects) && f in files
    ensures Sound(f) && Describes(f.manifest, Gather(f.manifest.chunks, objects, |f.manifest.chunks|))
  {
    hide Verified;
    forall i | 0 <= i < |f.manifest.chunks|
        ensures Verified(objects, f.manifest.chunks[i].id, f.manifest.chunks[i].size) {
      assert f.manifest.chunks[i] in f.manifest.chunks;
    }
    GatherDescribes(f, objects);
  }

  /** Writes one staged file; fails on a missing or corrupt object. */
  method WriteFile(f: FrozenFile, objects: Objects) returns (r: Option<Bytes>)
    requires Sound(f)
    ensures r.Some? <==> AllVerified(f, objects)
    ensures r.Some? ==> Describes(f.manifest, r.value)
  {
    hide Hash, Verified;
    var chunks := f.manifest.chunks;
    var output: Bytes := [];
    var i := 0;
    while i < |chunks|
      invariant i <= |chunks| && output == Gather(chunks, objects, i)
      invariant forall k :: 0 <= k < i ==> Verified(objects, chunks[k].id, chunks[k].size)
    {
      if !Verified(objects, chunks[i].id, chunks[i].size) {
        return None;
      }
      output := output + Get(objects, chunks[i]);
      i := i + 1;
    }
    GatherDescribes(f, objects);
    r := Some(output);
  }

  // ---- Whole trees ----

  lemma ExactEntry(t: Tree, u: Tree, files: seq<FrozenFile>, p: Path)
    requires ValidSnapshot(files) && Exact(t, files) && Exact(u, files) && p in t
    ensures p in u && u[p] == t[p]
  {
    hide Describes, Sound, Join;
    if p != [] {
      assert EntryExpected(t[p], p, files);
      if t[p].Directory? {
        var f :| f in files && ProperPrefix(p, f.path);
        assert p == f.path[..|p|];
        assert p in u;
        assert EntryExpected(u[p], p, files);
        assert forall g <- files :: g.path != p;
      } else {
        var f :| f in files && f.path == p && Describes(f.manifest, t[p].content);
        assert EntryExpected(u[p], p, files);
        var g :| g in files && g.path == p && Describes(g.manifest, u[p].content);
        SamePathSameFile(files, f, g);
        ContentIsUnique(f.manifest, t[p].content, u[p].content);
      }
    }
  }

  lemma SamePathSameFile(files: seq<FrozenFile>, f: FrozenFile, g: FrozenFile)
    requires ValidSnapshot(files) && f in files && g in files && f.path == g.path
    ensures f == g
  {
    var i :| 0 <= i < |files| && files[i] == f;
    var j :| 0 <= j < |files| && files[j] == g;
    assert i == j;
  }

  /** A snapshot describes one tree only. */
  lemma ExactTreeIsUnique(t: Tree, u: Tree, files: seq<FrozenFile>)
    requires ValidSnapshot(files) && Exact(t, files) && Exact(u, files)
    ensures t == u
  {
    hide Exact, ValidSnapshot;
    forall p: Path ensures p in t <==> p in u {
      if p in t {
        ExactEntry(t, u, files, p);
      } else if p in u {
        ExactEntry(u, t, files, p);
      }
    }
    forall p: Path | p in t ensures t[p] == u[p] {
      ExactEntry(t, u, files, p);
    }
  }
}
