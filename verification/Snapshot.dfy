/** Reading byte ranges of frozen files out of content-addressed chunks. */
module Snapshot {
  import opened Base
  import opened Trees

  /** 256 KiB: no read and no data frame is larger. */
  const FRAME_MAX := 262144

  datatype ChunkRef = ChunkRef(offset: nat, size: nat, id: ObjectId) {
    function End(): nat {
      offset + size
    }
  }

  datatype Manifest = Manifest(totalSize: nat, wholeFile: bool, chunks: seq<ChunkRef>)

  /** An Index record with the Manifest it is said to belong to. The Manifest's canonical identity is
      modelled by the Manifest itself. */
  datatype FrozenFile = FrozenFile(path: Path, recordSize: nat, recordChunks: nat, recordManifest: Manifest,
                                   manifest: Manifest)

  /** The sealed objects of a Volume. */
  type Objects = map<ObjectId, Bytes>

  /** What a verified read of an object demands. */
  predicate Verified(objects: Objects, id: ObjectId, size: nat) {
    id in objects && |objects[id]| == size && Hash(objects[id]) == id
  }

  // ---- Manifests ----

  /** Chunks are not empty and follow each other without gap up to `chunks[..n]`'s end. */
  function CoveredBy(chunks: seq<ChunkRef>, n: nat): Option<nat>
    requires n <= |chunks|
  {
    if n == 0 then Some(0) else
    var before := CoveredBy(chunks, n - 1);
    if before.None? || chunks[n - 1].offset != before.value || chunks[n - 1].size == 0 || chunks[n - 1].End() > U64_MAX
    then None else Some(chunks[n - 1].End())
  }

  predicate ValidManifest(m: Manifest) {
    && CoveredBy(m.chunks, |m.chunks|) == Some(m.totalSize)
    && (m.wholeFile ==> |m.chunks| == if m.totalSize == 0 then 0 else 1)
  }

  predicate Sound(f: FrozenFile) {
    && ValidManifest(f.manifest) && f.recordManifest == f.manifest
    && f.recordSize == f.manifest.totalSize && f.recordChunks == |f.manifest.chunks|
  }

  lemma {:induction false} ChunksAreContiguous(chunks: seq<ChunkRef>, n: nat, i: nat)
    requires i < n <= |chunks| && CoveredBy(chunks, n).Some?
    ensures CoveredBy(chunks, i) == Some(chunks[i].offset) && CoveredBy(chunks, i + 1) == Some(chunks[i].End())
    ensures chunks[i].size > 0 && chunks[i].End() <= CoveredBy(chunks, n).value <= U64_MAX
  {
    if i < n - 1 {
      ChunksAreContiguous(chunks, n - 1, i);
    }
  }

  /** The bytes a file stands for: those whose chunks have the Manifest's identities. */
  ghost predicate Describes(m: Manifest, content: Bytes) {
    && ValidManifest(m) && |content| == m.totalSize
    && forall i :: 0 <= i < |m.chunks| ==> ChunkMatches(m.chunks[i], content)
  }

  ghost predicate ChunkMatches(c: ChunkRef, content: Bytes) {
    c.End() <= |content| && Hash(content[c.offset..c.End()]) == c.id
  }

  // ---- Opening a snapshot ----

  /** A snapshot is readable exactly when every record agrees with its Manifest and every chunk is an
      intact object of the Volume. */
  ghost predicate Readable(files: seq<FrozenFile>, objects: Objects) {
    forall f <- files :: Sound(f) && forall c <- f.manifest.chunks :: Verified(objects, c.id, c.size)
  }

  /** Collects one file's object sizes; fails when an object already has another size. */
  method CollectSizes(f: FrozenFile, specs: map<ObjectId, nat>) returns (r: Option<map<ObjectId, nat>>)
    ensures r.Some? ==> forall id <- specs :: id in r.value && r.value[id] == specs[id]
    ensures r.Some? ==> forall c <- f.manifest.chunks :: c.id in r.value && r.value[c.id] == c.size
    ensures r.Some? ==>
            forall id <- r.value :: id in specs
                || exists c :: c in f.manifest.chunks && c.id == id && c.size == r.value[id]
    ensures r.None? ==> exists c :: c in f.manifest.chunks && Conflicts(f, specs, c)
  {
    var sizes := specs;
    var chunks := f.manifest.chunks;
    var i := 0;
    while i < |chunks|
      invariant i <= |chunks|
      invariant forall id <- specs :: id in sizes && sizes[id] == specs[id]
      invariant forall k :: 0 <= k < i ==> chunks[k].id in sizes && sizes[chunks[k].id] == chunks[k].size
      invariant forall id <- sizes :: id in specs || exists c :: c in chunks && c.id == id && c.size == sizes[id]
    {
      var c := chunks[i];
      assert c in chunks;
      if c.id in sizes && sizes[c.id] != c.size {
        assert Conflicts(f, specs, c);
        return None;
      }
      sizes := sizes[c.id := c.size];
      i := i + 1;
    }
    r := Some(sizes);
  }

  /** The chunk's object is recorded with another size, before or in the same file. */
  ghost predicate Conflicts(f: FrozenFile, specs: map<ObjectId, nat>, c: ChunkRef) {
    (c.id in specs && specs[c.id] != c.size) || exists e :: e in f.manifest.chunks && e.id == c.id && e.size != c.size
  }

  method ValidateFiles(files: seq<FrozenFile>, objects: Objects) returns (ok: bool)
    ensures ok <==> Readable(files, objects)
  {
    var specs: map<ObjectId, nat> := map[];
    var i := 0;
    while i < |files|
      invariant i <= |files|
      invariant forall k :: 0 <= k < i ==>
                Sound(files[k]) && forall c <- files[k].manifest.chunks :: c.id in specs && specs[c.id] == c.size
      invariant forall id <- specs :: Mentioned(files, id, specs[id])
    {
      var f := files[i];
      assert f in files;
      if !Sound(f) {
        return false;
      }
      var more := CollectSizes(f, specs);
      if more.None? {
        ghost var c :| c in f.manifest.chunks && Conflicts(f, specs, c);
        ConflictMeansUnreadable(files, objects, f, specs, c);
        return false;
      }
      forall id | id in more.value ensures Mentioned(files, id, more.value[id]) {
        if id !in specs {
          var c :| c in f.manifest.chunks && c.id == id && c.size == more.value[id];
        }
      }
      specs := more.value;
      i := i + 1;
    }
    ok := forall id <- specs :: Verified(objects, id, specs[id]);
    if !ok {
      var id :| id in specs && !Verified(objects, id, specs[id]);
      var f, c :| f in files && c in f.manifest.chunks && c.id == id && c.size == specs[id];
    }
  }

  ghost predicate Mentioned(files: seq<FrozenFile>, id: ObjectId, size: nat) {
    exists f, c :: f in files && c in f.manifest.chunks && c.id == id && c.size == size
  }

  lemma ConflictMeansUnreadable(files: seq<FrozenFile>, objects: Objects, f: FrozenFile, specs: map<ObjectId, nat>,
                                c: ChunkRef)
    requires f in files && c in f.manifest.chunks && Conflicts(f, specs, c)
    requires forall id <- specs :: Mentioned(files, id, specs[id])
    ensures !Readable(files, objects)
  {
    if c.id in specs && specs[c.id] != c.size {
      var g, e :| g in files && e in g.manifest.chunks && e.id == c.id && e.size == specs[c.id];
      assert !Verified(objects, e.id, e.size) || !Verified(objects, c.id, c.size);
    } else {
      var e :| e in f.manifest.chunks && e.id == c.id && e.size != c.size;
      assert !Verified(objects, e.id, e.size) || !Verified(objects, c.id, c.size);
    }
  }

  // ---- Ranges ----

  datatype Range = Range(start: nat, end: nat)

  function NewRange(start: nat, end: nat): Option<Range> {
    if end < start || end - start > FRAME_MAX then None else Some(Range(start, end))
  }

  predicate Overlaps(c: ChunkRef, range: Range) {
    c.offset < range.end && range.start < c.End()
  }

  /** A range can be read when it lies in the file and the objects it touches are intact. */
  ghost predicate CanRead(f: FrozenFile, objects: Objects, range: Range) {
    && range.end <= f.recordSize
    && forall i :: 0 <= i < |f.manifest.chunks| && Overlaps(f.manifest.chunks[i], range) ==>
         Verified(objects, f.manifest.chunks[i].id, f.manifest.chunks[i].size)
  }

  /** A verified object is the part of the file its chunk stands for. */
  lemma VerifiedIsSlice(objects: Objects, c: ChunkRef, content: Bytes)
    requires ChunkMatches(c, content) && Verified(objects, c.id, c.size)
    ensures objects[c.id] == content[c.offset..c.End()]
  {
    HashInjective(objects[c.id], content[c.offset..c.End()]);
  }

  /** The part of the range that the chunks before `at` provide. */
  ghost function Provided(content: Bytes, range: Range, at: nat): Bytes
    requires range.start <= range.end <= |content|
  {
    if at <= range.start then [] else content[range.start..Min(range.end, at)]
  }

  lemma ProvidedGrows(content: Bytes, range: Range, c: ChunkRef)
    requires range.start <= range.end <= |content| && c.End() <= |content| && Overlaps(c, range)
    ensures var from, to := Max(range.start, c.offset) - c.offset, Min(range.end, c.End()) - c.offset;
            && 0 <= from <= to <= c.size
            && Provided(content, range, c.offset) + content[c.offset..c.End()][from..to] ==
                 Provided(content, range, c.End())
  {
    var from, to := Max(range.start, c.offset) - c.offset, Min(range.end, c.End()) - c.offset;
    SliceOfSlice(content, c.offset, c.End(), from, to);
    if c.offset > range.start {
      assert content[range.start..c.offset] + content[c.offset..c.offset + to] == content[range.start..c.offset + to];
    }
  }

  lemma SliceOfSlice(s: Bytes, a: nat, b: nat, from: nat, to: nat)
    requires a <= b <= |s| && from <= to <= b - a
    ensures s[a..b][from..to] == s[a + from..a + to]
  {
    var part := s[a..b][from..to];
    assert |part| == to - from;
    assert forall i :: 0 <= i < |part| ==> part[i] == s[a..b][from + i] == s[a + from + i];
  }

  lemma ProvidedEdges(content: Bytes, range: Range, at: nat)
    requires range.start <= range.end <= |content|
    ensures at <= range.start ==> Provided(content, range, at) == []
    ensures at >= range.end ==> Provided(content, range, at) == content[range.start..range.end]
  {
  }

  /** Reads a range chunk by chunk. It succeeds exactly when the range can be read, and then returns
      that slice of the file's bytes. */
  method ReadRange(f: FrozenFile, objects: Objects, range: Range, ghost content: Bytes) returns (r: Option<Bytes>)
    requires Sound(f) && Describes(f.manifest, content) && range.start <= range.end
    ensures r.Some? <==> range.start == range.end <= f.recordSize || CanRead(f, objects, range)
    ensures r.Some? ==> r.value == content[range.start..range.end]
  {
    hide Hash, Verified, ChunkMatches, CoveredBy, Provided;
    if range.end > f.recordSize {
      return None;
    }
    if range.start == range.end {
      return Some([]);
    }
    var output: Bytes := [];
    var chunks := f.manifest.chunks;
    var i, stopped := 0, false;
    ghost var at: nat := 0;
    NothingCovered(chunks);
    ProvidedEdges(content, range, 0);
    while i < |chunks| && !stopped
      invariant i <= |chunks|
      invariant !stopped ==>
                CoveredBy(chunks, i) == Some(at) && at <= |content| && output == Provided(content, range, at)
      invariant stopped ==> output == content[range.start..range.end]
      invariant forall k :: 0 <= k < i && Overlaps(chunks[k], range) ==> Verified(objects, chunks[k].id, chunks[k].size)
      invariant stopped ==> forall k :: i <= k < |chunks| ==> !Overlaps(chunks[k], range)
      decreases |chunks| - i, !stopped
    {
      var c := chunks[i];
      ChunksAreContiguous(chunks, |chunks|, i);
      ProvidedEdges(content, range, at);
      ProvidedEdges(content, range, c.End());
      if c.End() <= range.start {
        i := i + 1;
        at := c.End();
      } else if c.offset >= range.end {
        stopped := true;
        LaterChunksAreBeyond(chunks, i);
      } else {
        if !Verified(objects, c.id, c.size) {
          return None;
        }
        VerifiedIsSlice(objects, c, content);
        ProvidedGrows(content, range, c);
        var bytes := Get(objects, c);
        var from, to := Max(range.start, c.offset) - c.offset, Min(range.end, c.End()) - c.offset;
        output := output + bytes[from..to];
        i := i + 1;
        at := c.End();
      }
    }
    ProvidedEdges(content, range, at);
    if |output| != range.end - range.start {
      return None;
    }
    r := Some(output);
  }

  lemma NothingCovered(chunks: seq<ChunkRef>)
    ensures CoveredBy(chunks, 0) == Some(0)
  {
  }

  function Get(objects: Objects, c: ChunkRef): Bytes
    requires Verified(objects, c.id, c.size)
    ensures |Get(objects, c)| == c.size && c.id in objects && Get(objects, c) == objects[c.id]
  {
    objects[c.id]
  }

  lemma {:induction false} LaterChunksAreBeyond(chunks: seq<ChunkRef>, i: nat)
    requires i < |chunks| && CoveredBy(chunks, |chunks|).Some?
    ensures forall k :: i <= k < |chunks| ==> chunks[k].offset >= chunks[i].offset
  {
    forall k | i <= k < |chunks| ensures chunks[k].offset >= chunks[i].offset {
      ChunksAreContiguous(chunks, |chunks|, i);
      ChunksAreContiguous(chunks, |chunks|, k);
      if i < k {
        ChunksAreContiguous(chunks, k, i);
      }
    }
  }
}
