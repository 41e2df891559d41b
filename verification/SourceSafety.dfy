/** What the source guarantees against an arbitrary peer. */
module SourceSafety {
  import opened Base
  import opened Cas
  import opened Source

  datatype Range = Range(id: ObjectId, offset: nat, length: nat)

  /** The data frames among those sent, in order. */
  function Chunks(out: seq<Frame>): seq<Frame> {
    if out == [] then []
    else Chunks(out[..|out| - 1]) + (if out[|out| - 1].Chunk? then [out[|out| - 1]] else [])
  }

  ghost predicate AllChunks(c: seq<Frame>) {
    forall f <- c :: f.Chunk?
  }

  lemma {:induction false} ChunksAreChunks(out: seq<Frame>)
    ensures AllChunks(Chunks(out))
  {
    if out != [] {
      ChunksAreChunks(out[..|out| - 1]);
    }
  }

  lemma {:induction false} ChunksAppend(out: seq<Frame>, more: seq<Frame>)
    ensures Chunks(out + more) == Chunks(out) + Chunks(more)
  {
    if more == [] {
      assert out + more == out;
    } else {
      var init, last := more[..|more| - 1], more[|more| - 1];
      ChunksAppend(out, init);
      assert (out + more)[..|out + more| - 1] == out + init;
    }
  }

  function TotalBytes(c: seq<Frame>): nat
    requires AllChunks(c)
  {
    if c == [] then 0 else TotalBytes(c[..|c| - 1]) + |c[|c| - 1].bytes|
  }

  function RangesOf(c: seq<Frame>): seq<Range>
    requires AllChunks(c)
  {
    if c == [] then [] else RangesOf(c[..|c| - 1]) + [Range(c[|c| - 1].id, c[|c| - 1].offset, |c[|c| - 1].bytes|)]
  }

  /** The non-empty ranges the peer acknowledged, in the order of its frames. */
  function AckedRanges(trace: seq<Frame>): seq<Range> {
    if trace == [] then [] else
    var f := trace[|trace| - 1];
    AckedRanges(trace[..|trace| - 1]) + (if f.Ack? && f.accepted && f.length > 0
      then [Range(f.id, f.offset, f.length)] else [])
  }

  /** All bytes of one object the peer received, in order. */
  function Payload(c: seq<Frame>, id: ObjectId): Bytes
    requires AllChunks(c)
  {
    if c == [] then [] else Payload(c[..|c| - 1], id) + (if c[|c| - 1].id == id then c[|c| - 1].bytes else [])
  }

  datatype Window = Window(first: nat, end: nat)

  /** First and one-past-last offset served for one object. */
  function WindowOf(c: seq<Frame>, id: ObjectId): Option<Window>
    requires AllChunks(c)
  {
    if c == [] then None else
    var before, f := WindowOf(c[..|c| - 1], id), c[|c| - 1];
    if f.id != id then before
    else Some(Window(if before.Some? then before.value.first else f.offset, f.offset + |f.bytes|))
  }

  ghost predicate Gapless(c: seq<Frame>)
    requires AllChunks(c)
  {
    c == [] || (
      var before, f := WindowOf(c[..|c| - 1], c[|c| - 1].id), c[|c| - 1];
      Gapless(c[..|c| - 1]) && (before.Some? ==> f.offset == before.value.end))
  }

  /** A data frame carries exactly the requested bytes of a manifest object, within its bounds. */
  ghost predicate Genuine(b: Batch, f: Frame) {
    && f.Chunk? && 0 < |f.bytes| <= MAX_CHUNK
    && exists size: nat :: ObjectSpec(f.id, size) in b.objects && GenuineSlice(b, f, size)
  }

  ghost predicate GenuineSlice(b: Batch, f: Frame, size: nat)
    requires f.Chunk?
  {
    var key := ObjectKey(b.tenant, f.id);
    && f.offset + |f.bytes| <= size
    && key in b.src.published && |b.src.published[key]| == size
    && f.bytes == b.src.published[key][f.offset..f.offset + |f.bytes|]
  }

  /** The peer itself declared the object complete, by an accepted acknowledgement ending at its
      size: the last of its data, or a zero-length resume marker. */
  ghost predicate DeclaredDone(b: Batch, trace: seq<Frame>, id: ObjectId) {
    exists f <- trace :: f.Ack? && f.accepted && f.id == id && ObjectSpec(id, f.offset + f.length) in b.objects
  }

  ghost predicate Tracked(c: seq<Frame>, s: State, id: ObjectId)
    requires AllChunks(c)
  {
    WindowOf(c, id).None? || id in s.completed
    || (id in s.next && s.next[id] == WindowOf(c, id).value.end && !(s.pending.Unacked? && s.pending.id == id))
    || (s.pending.Unacked? && s.pending.id == id && s.pending.offset + s.pending.length == WindowOf(c, id).value.end)
  }

  function Outstanding(p: Pending): seq<Range> {
    if p.Unacked? then [Range(p.id, p.offset, p.length)] else []
  }

  ghost predicate Inv(b: Batch, trace: seq<Frame>, c: seq<Frame>, s: State)
  {
    && AllChunks(c)
    && TotalBytes(c) == s.served <= b.maxBytes
    && (forall f <- c :: Genuine(b, f))
    && Gapless(c)
    && (forall id :: Tracked(c, s, id))
    && (s.verdict != Refused ==> RangesOf(c) == AckedRanges(trace) + Outstanding(s.pending))
    && (forall id <- s.completed :: DeclaredDone(b, trace, id))
    && (s.pending.Unacked? ==> s.pending.length > 0)
    && (s.pending.UnackedEmpty? ==> ObjectSpec(s.pending.id, 0) in b.objects)
    && (s.verdict == Succeeded ==> |s.completed| == |b.objects| && s.pending.Idle?)
  }

  lemma DoneMonotone(b: Batch, trace: seq<Frame>, f: Frame, ids: set<ObjectId>)
    requires forall id <- ids :: DeclaredDone(b, trace, id)
    ensures forall id <- ids :: DeclaredDone(b, trace + [f], id)
  {
    forall id <- ids ensures DeclaredDone(b, trace + [f], id) {
      var g :| g in trace && g.Ack? && g.accepted && g.id == id && ObjectSpec(id, g.offset + g.length) in b.objects;
      assert g in trace + [f];
    }
  }

  lemma ChunksOfOne(g: Frame)
    ensures Chunks([g]) == if g.Chunk? then [g] else []
  {
    assert [g][..0] == [];
  }

  lemma ChunksOfShortOutput(g: Frame, h: Frame)
    ensures Chunks([g]) == if g.Chunk? then [g] else []
    ensures !h.Chunk? ==> Chunks([g, h]) == Chunks([g])
  {
    hide Chunks;
    ChunksOfOne(g);
    ChunksOfOne(h);
    ChunksAppend([g], [h]);
    assert [g] + [h] == [g, h];
    assert Chunks([g]) + [] == Chunks([g]);
  }

  lemma ChunksOfNothing()
    ensures Chunks([]) == []
  {
  }

  /** Everything a request can lead to. */
  datatype Effect = Refusal | EmptyProof | Data(g: Frame)

  lemma RequestEffect(b: Batch, s: State, f: Frame) returns (e: Effect)
    requires f.Request? && s.verdict == Waiting && s.pending.Idle?
    ensures var (s', sent) := Step(b, s, f);
            match e
            case Refusal => Chunks(sent) == [] && s' == s.(verdict := Refused)
            case EmptyProof => Chunks(sent) == [] && s' == s.(pending := UnackedEmpty(f.id))
              && ObjectSpec(f.id, 0) in b.objects
            case Data(g) =>
              && Chunks(sent) == [g] && Genuine(b, g)
              && g.id == f.id && g.offset == f.offset && |g.bytes| == f.length
              && f.id !in s.completed && (f.id in s.next ==> s.next[f.id] == f.offset)
              && s.served + f.length <= b.maxBytes
              && s' == s.(pending := Unacked(f.id, f.offset, f.length), served := s.served + f.length)
  {
    hide Find, Chunks, ReadRange, Genuine;
    var (s', sent) := Step(b, s, f);
    FindIsMembership(b.objects, f.id);
    ChunksOfNothing();
    if sent == [] {
      e := Refusal;
    } else {
      var spec := Find(b.objects, f.id).value;
      ChunksOfShortOutput(sent[0], Proof(spec.id, spec.id, spec.size));
      if sent[0].Chunk? {
        assert sent == [sent[0]] || sent == [sent[0], Proof(spec.id, spec.id, spec.size)];
        ReadIsGenuine(b, spec, f.offset, f.length);
        e := Data(sent[0]);
      } else {
        e := EmptyProof;
      }
    }
  }

  lemma ReadIsGenuine(b: Batch, spec: ObjectSpec, offset: nat, length: nat)
    requires spec in b.objects && ReadRange(b.src, b.tenant, spec, offset, length).Read?
    ensures Genuine(b, Chunk(spec.id, offset, ReadRange(b.src, b.tenant, spec, offset, length).bytes))
  {
    var g := Chunk(spec.id, offset, ReadRange(b.src, b.tenant, spec, offset, length).bytes);
    assert ObjectSpec(g.id, spec.size) in b.objects && GenuineSlice(b, g, spec.size);
  }

  lemma DataKeepsInv(b: Batch, trace: seq<Frame>, c: seq<Frame>, s: State, f: Frame, g: Frame, s': State)
    requires Inv(b, trace, c, s) && s.verdict == Waiting && s.pending.Idle? && f.Request?
    requires Genuine(b, g) && g.id == f.id && g.offset == f.offset && |g.bytes| == f.length
    requires f.id !in s.completed && (f.id in s.next ==> s.next[f.id] == f.offset)
    requires s.served + f.length <= b.maxBytes
    requires s' == s.(pending := Unacked(f.id, f.offset, f.length), served := s.served + f.length)
    ensures Inv(b, trace + [f], c + [g], s')
  {
    hide Gapless, WindowOf, TotalBytes, RangesOf, AckedRanges, DeclaredDone, GenuineSlice;
    OneMoreChunk(c, g);
    OneMoreFrame(trace, f);
    DoneMonotone(b, trace, f, s.completed);
    assert Tracked(c, s, f.id);
    forall id ensures Tracked(c + [g], s', id) {
      OneMoreWindow(c, g, id);
      assert Tracked(c, s, id);
    }
  }

  lemma OneMoreChunk(c: seq<Frame>, g: Frame)
    requires AllChunks(c) && g.Chunk?
    ensures TotalBytes(c + [g]) == TotalBytes(c) + |g.bytes|
    ensures RangesOf(c + [g]) == RangesOf(c) + [Range(g.id, g.offset, |g.bytes|)]
    ensures Gapless(c + [g]) <==> Gapless(c) && (WindowOf(c, g.id).Some? ==> g.offset == WindowOf(c, g.id).value.end)
  {
    assert (c + [g])[..|c|] == c;
  }

  lemma OneMoreWindow(c: seq<Frame>, g: Frame, id: ObjectId)
    requires AllChunks(c) && g.Chunk?
    ensures WindowOf(c + [g], id) ==
            if g.id != id then WindowOf(c, id)
            else Some(Window(if WindowOf(c, id).Some? then WindowOf(c, id).value.first else g.offset,
                             g.offset + |g.bytes|))
  {
    assert (c + [g])[..|c|] == c;
  }

  lemma OneMoreFrame(trace: seq<Frame>, f: Frame)
    ensures AckedRanges(trace + [f]) ==
            AckedRanges(trace)
            + (if f.Ack? && f.accepted && f.length > 0 then [Range(f.id, f.offset, f.length)] else [])
  {
    assert (trace + [f])[..|trace|] == trace;
  }

  lemma RequestKeepsInv(b: Batch, trace: seq<Frame>, c: seq<Frame>, s: State, f: Frame)
    requires Inv(b, trace, c, s) && s.verdict == Waiting && f.Request? && s.pending.Idle?
    ensures var (s', sent) := Step(b, s, f);
            Inv(b, trace + [f], c + Chunks(sent), s')
  {
    hide Step, Chunks, Genuine, Gapless, WindowOf, TotalBytes, RangesOf;
    var e := RequestEffect(b, s, f);
    var s' := Step(b, s, f).0;
    if e.Data? {
      DataKeepsInv(b, trace, c, s, f, e.g, s');
    } else {
      assert AckedRanges(trace + [f]) == AckedRanges(trace) by {
        assert (trace + [f])[..|trace|] == trace;
      }
      DoneMonotone(b, trace, f, s.completed);
      assert c + [] == c;
      forall id ensures Tracked(c, s', id) {
        assert Tracked(c, s, id);
      }
    }
  }

  lemma AckKeepsInv(b: Batch, trace: seq<Frame>, c: seq<Frame>, s: State, f: Frame)
    requires Inv(b, trace, c, s) && s.verdict == Waiting && f.Ack?
    ensures Inv(b, trace + [f], c, Step(b, s, f).0) && Step(b, s, f).1 == []
  {
    var s' := Step(b, s, f).0;
    DoneMonotone(b, trace, f, s.completed);
    assert f in trace + [f];
    assert (trace + [f])[..|trace|] == trace;
    hide Genuine, Gapless, WindowOf, TotalBytes, RangesOf;
    if s'.verdict != Refused {
      assert s.pending.Idle? ==> f.length == 0;
    }
    forall id ensures Tracked(c, s', id) {
      assert Tracked(c, s, id);
    }
  }

  lemma OtherKeepsInv(b: Batch, trace: seq<Frame>, c: seq<Frame>, s: State, f: Frame)
    requires Inv(b, trace, c, s) && s.verdict == Waiting && !f.Ack? && !(f.Request? && s.pending.Idle?)
    ensures Inv(b, trace + [f], c, Step(b, s, f).0) && Step(b, s, f).1 == []
  {
    hide Genuine, Gapless, WindowOf, TotalBytes, RangesOf, Find, OnAck, OnRequest;
    var s' := Step(b, s, f).0;
    assert (trace + [f])[..|trace|] == trace;
    DoneMonotone(b, trace, f, s.completed);
    forall id ensures Tracked(c, s', id) {
      assert Tracked(c, s, id);
    }
  }

  lemma StepKeepsInv(b: Batch, trace: seq<Frame>, c: seq<Frame>, s: State, f: Frame)
    requires Inv(b, trace, c, s) && s.verdict == Waiting
    ensures var (s', sent) := Step(b, s, f);
            Inv(b, trace + [f], c + Chunks(sent), s')
  {
    assert Chunks([]) == [] && c + [] == c;
    hide Inv, Step, Chunks;
    if f.Ack? {
      AckKeepsInv(b, trace, c, s, f);
    } else if f.Request? && s.pending.Idle? {
      RequestKeepsInv(b, trace, c, s, f);
    } else {
      OtherKeepsInv(b, trace, c, s, f);
    }
  }

  lemma StartInv(b: Batch)
    ensures Inv(b, [], Chunks([]), START)
  {
  }

  lemma {:induction false} FeedKeepsInv(b: Batch, trace: seq<Frame>)
    requires trace == [] || Feed(b, START, trace[..|trace| - 1]).0.verdict == Waiting
    ensures var (s, out) := Feed(b, START, trace);
            Inv(b, trace, Chunks(out), s)
  {
    hide Inv, Step, Chunks;
    if trace == [] {
      StartInv(b);
    } else {
      var init, f := trace[..|trace| - 1], trace[|trace| - 1];
      StaysWaiting(b, init);
      FeedKeepsInv(b, init);
      var (s, out) := Feed(b, START, init);
      StepKeepsInv(b, init, Chunks(out), s, f);
      ChunksAppend(out, Step(b, s, f).1);
      assert trace == init + [f];
    }
  }

  lemma StaysWaiting(b: Batch, trace: seq<Frame>)
    requires Feed(b, START, trace).0.verdict == Waiting
    ensures trace == [] || Feed(b, START, trace[..|trace| - 1]).0.verdict == Waiting
  {
  }

  lemma {:induction false} GaplessIsSlice(b: Batch, c: seq<Frame>, id: ObjectId)
    requires AllChunks(c) && Gapless(c) && (forall f <- c :: Genuine(b, f))
    ensures WindowOf(c, id).None? ==> Payload(c, id) == []
    ensures WindowOf(c, id).Some? ==>
              var key, w := ObjectKey(b.tenant, id), WindowOf(c, id).value;
              && key in b.src.published && w.first < w.end <= |b.src.published[key]|
              && Payload(c, id) == b.src.published[key][w.first..w.end]
  {
    if c != [] {
      var init, f := c[..|c| - 1], c[|c| - 1];
      assert f in c && Genuine(b, f);
      assert forall g <- init :: g in c;
      GaplessIsSlice(b, init, id);
      if f.id == id {
        var size :| ObjectSpec(f.id, size) in b.objects && GenuineSlice(b, f, size);
        var data := b.src.published[ObjectKey(b.tenant, id)];
        if WindowOf(init, id).Some? {
          var w := WindowOf(init, id).value;
          assert data[w.first..w.end] + data[f.offset..f.offset + |f.bytes|] == data[w.first..f.offset + |f.bytes|];
        }
      }
    }
  }

  /** The first frame on which the loop returned is the last it read. */
  ghost predicate ReadTo(b: Batch, trace: seq<Frame>) {
    trace == [] || Feed(b, START, trace[..|trace| - 1]).0.verdict == Waiting
  }

  /** Against any peer whatsoever: the bytes sent stay within the signed limit; every data frame
      carries the genuine bytes of a manifest object; for each object the peer receives one
      contiguous slice of it; and the ranges sent are, in order, exactly those the peer
      acknowledged, plus at most one outstanding. */
  lemma ArbitraryPeer(b: Batch, trace: seq<Frame>, id: ObjectId)
    requires ReadTo(b, trace)
    ensures var (s, out) := Feed(b, START, trace);
            var c := Chunks(out);
            && AllChunks(c)
            && TotalBytes(c) <= b.maxBytes
            && (forall f <- c :: Genuine(b, f))
            && (Payload(c, id) != [] ==>
                  var key, w := ObjectKey(b.tenant, id), WindowOf(c, id);
                  && w.Some? && key in b.src.published && w.value.first < w.value.end <= |b.src.published[key]|
                  && Payload(c, id) == b.src.published[key][w.value.first..w.value.end])
            && (s.verdict != Refused ==>
                  || RangesOf(c) == AckedRanges(trace)
                  || exists r :: RangesOf(c) == AckedRanges(trace) + [r])
            && (s.verdict == Succeeded ==> RangesOf(c) == AckedRanges(trace))
  {
    FeedKeepsInv(b, trace);
    var (s, out) := Feed(b, START, trace);
    GaplessIsSlice(b, Chunks(out), id);
    assert AckedRanges(trace) + [] == AckedRanges(trace);
  }

  function Ids(objects: seq<ObjectSpec>): set<ObjectId> {
    set o <- objects :: o.id
  }

  lemma {:induction false} IdsCount(objects: seq<ObjectSpec>)
    requires forall i, j :: 0 <= i < j < |objects| ==> objects[i].id != objects[j].id
    ensures |Ids(objects)| == |objects|
  {
    if objects != [] {
      var init, last := objects[..|objects| - 1], objects[|objects| - 1];
      IdsCount(init);
      assert Ids(objects) == Ids(init) + {last.id};
      assert last.id !in Ids(init);
    }
  }

  /** The source reports success only when the peer declared every single manifest object done. */
  lemma SuccessMeansEveryObjectDone(b: Batch, trace: seq<Frame>)
    requires b.Distinct() && ReadTo(b, trace)
    requires PendingRun(b, trace).verdict == Succeeded
    ensures forall o <- b.objects :: DeclaredDone(b, trace, o.id)
    ensures Feed(b, START, trace).0.completed == Ids(b.objects)
  {
    FeedKeepsInv(b, trace);
    var s := Feed(b, START, trace).0;
    IdsCount(b.objects);
    forall id <- s.completed ensures id in Ids(b.objects) {
      assert DeclaredDone(b, trace, id);
    }
    SubsetOfSameSize(s.completed, Ids(b.objects));
  }

  lemma {:induction false} SubsetOfSameSize(a: set<ObjectId>, b: set<ObjectId>)
    requires a <= b && |a| == |b|
    ensures a == b
  {
    if a != {} {
      var x :| x in a;
      SubsetOfSameSize(a - {x}, b - {x});
    }
  }

  lemma SentIsForIncomplete(b: Batch, s: State, f: Frame)
    requires s.verdict == Waiting
    ensures var sent := Chunks(Step(b, s, f).1);
            sent == [] || (|sent| == 1 && sent[0].Chunk? && sent[0].id !in s.completed)
    ensures s.completed <= Step(b, s, f).0.completed
  {
    if f.Request? && s.pending.Idle? {
      var _ := RequestEffect(b, s, f);
    }
  }

  lemma {:induction false} PayloadOfOther(c: seq<Frame>, more: seq<Frame>, id: ObjectId)
    requires AllChunks(c) && AllChunks(more) && |more| <= 1 && forall f <- more :: f.id != id
    ensures AllChunks(c + more) && Payload(c + more, id) == Payload(c, id)
  {
    if more == [] {
      assert c + more == c;
    } else {
      assert (c + more)[..|c|] == c;
    }
  }

  /** Once an object is complete the source never sends another byte of it, whatever follows. */
  lemma {:induction false} NeverServesCompleted(b: Batch, trace: seq<Frame>, more: seq<Frame>, id: ObjectId)
    requires id in Feed(b, START, trace).0.completed
    ensures id in Feed(b, START, trace + more).0.completed
    ensures AllChunks(Chunks(Feed(b, START, trace).1)) && AllChunks(Chunks(Feed(b, START, trace + more).1))
    ensures Payload(Chunks(Feed(b, START, trace + more).1), id) == Payload(Chunks(Feed(b, START, trace).1), id)
  {
    hide Step, Payload, Chunks;
    ChunksAreChunks(Feed(b, START, trace).1);
    ChunksAreChunks(Feed(b, START, trace + more).1);
    if more == [] {
      assert trace + more == trace;
    } else {
      var init, f := more[..|more| - 1], more[|more| - 1];
      NeverServesCompleted(b, trace, init, id);
      assert (trace + more)[..|trace + more| - 1] == trace + init;
      var (s, out) := Feed(b, START, trace + init);
      if s.verdict == Waiting {
        var sent := Step(b, s, f).1;
        ChunksAppend(out, sent);
        SentIsForIncomplete(b, s, f);
        PayloadOfOther(Chunks(out), Chunks(sent), id);
      }
    }
  }
}
