/** The target's loop as the Agent runs it, over the frames a peer happens to send. When the input
    runs out the loop is still waiting for its next frame, which is also where a lost connection
    leaves the Volume. */
module TargetLoop {
  import opened Base
  import opened Cas
  import opened Source
  import opened Transfer

  function After(sent: seq<Frame>, rest: (Target, seq<Frame>)): (Target, seq<Frame>) {
    (rest.0, sent + rest.1)
  }

  /** The target's steps until it returns or has nothing left to read. */
  function Drive(c: Session, t: Target, input: seq<Frame>): (Target, seq<Frame>)
    requires WellPlaced(c, t)
    decreases |input|, |c.b.objects| - t.i, if t.phase.Begin? then 2 else if t.phase.Fetch? then 1 else 0
  {
    if t.phase.Begin? || t.phase.Fetch? then
      var (t', sent) := Local(c, t);
      After(sent, Drive(c, t', input))
    else if Awaits(t) && input != [] then
      var (t', sent) := Receive(c, t, input[0]);
      After(sent, Drive(c, t', input[1..]))
    else (t, [])
  }

  /** `t` is where a target that started as `t0` stands after sending `sent` and reading up to `pos`. */
  ghost predicate Reached(c: Session, t0: Target, input: seq<Frame>, from: nat, t: Target, sent: seq<Frame>, pos: nat)
    requires WellPlaced(c, t0) && from <= |input|
  {
    from <= pos <= |input| && WellPlaced(c, t) && Drive(c, t0, input[from..]) == After(sent, Drive(c, t, input[pos..]))
  }

  lemma ReachedNow(c: Session, t: Target, input: seq<Frame>, from: nat)
    requires WellPlaced(c, t) && from <= |input|
    ensures Reached(c, t, input, from, t, [], from)
  {
    hide Drive;
    var rest := Drive(c, t, input[from..]);
    assert [] + rest.1 == rest.1;
  }

  lemma ReachedTrans(c: Session, t0: Target, input: seq<Frame>, from: nat, t1: Target, sent1: seq<Frame>, mid: nat,
                     t2: Target, sent2: seq<Frame>, pos: nat)
    requires WellPlaced(c, t0) && from <= |input| && Reached(c, t0, input, from, t1, sent1, mid)
    requires Reached(c, t1, input, mid, t2, sent2, pos)
    ensures Reached(c, t0, input, from, t2, sent1 + sent2, pos)
  {
    hide Drive;
    var rest := Drive(c, t2, input[pos..]);
    assert sent1 + (sent2 + rest.1) == sent1 + sent2 + rest.1;
  }

  lemma ReachedLocal(c: Session, t0: Target, input: seq<Frame>, from: nat, t: Target, sent: seq<Frame>, pos: nat)
    requires WellPlaced(c, t0) && from <= |input| && Reached(c, t0, input, from, t, sent, pos)
    requires t.phase.Begin? || t.phase.Fetch?
    ensures var (t', more) := Local(c, t);
            Reached(c, t0, input, from, t', sent + more, pos)
  {
    hide Local;
    var (t', more) := Local(c, t);
    LocalStaysPlaced(c, t);
    assert Drive(c, t, input[pos..]) == After(more, Drive(c, t', input[pos..]));
    var rest := Drive(c, t', input[pos..]);
    assert sent + (more + rest.1) == sent + more + rest.1;
  }

  lemma LocalStaysPlaced(c: Session, t: Target)
    requires WellPlaced(c, t) && (t.phase.Begin? || t.phase.Fetch?)
    ensures WellPlaced(c, Local(c, t).0)
  {
    hide VerifyAndPublish;
  }

  lemma ReceiveStaysPlaced(c: Session, t: Target, f: Frame)
    requires WellPlaced(c, t) && Awaits(t)
    ensures WellPlaced(c, Receive(c, t, f).0)
  {
    hide VerifyAndPublish;
  }

  lemma ReachedReceive(c: Session, t0: Target, input: seq<Frame>, from: nat, t: Target, sent: seq<Frame>, pos: nat)
    requires WellPlaced(c, t0) && from <= |input| && Reached(c, t0, input, from, t, sent, pos)
    requires Awaits(t) && pos < |input|
    ensures var (t', more) := Receive(c, t, input[pos]);
            Reached(c, t0, input, from, t', sent + more, pos + 1)
  {
    hide Receive;
    var (t', more) := Receive(c, t, input[pos]);
    ReceiveStaysPlaced(c, t, input[pos]);
    assert input[pos..][1..] == input[pos + 1..] && input[pos..][0] == input[pos];
    var rest := Drive(c, t', input[pos + 1..]);
    assert Drive(c, t, input[pos..]) == After(more, rest);
    assert sent + (more + rest.1) == sent + more + rest.1;
  }

  /** Receives the rest of one object, range by range. */
  method FetchRest(c: Session, volume: VolumeCas, i: nat, start: nat, used: nat, receipts: seq<ObjectSpec>,
                   input: seq<Frame>, from: nat)
      returns (ghost t: Target, phase: Phase, sent: seq<Frame>, transferred: nat, pos: nat)
    requires i < |c.b.objects| && start < c.b.objects[i].size && from <= |input| && 0 < c.chunk
    modifies volume
    ensures Reached(c, Target(i, Fetch, start, used, old(volume.View()), receipts), input, from, t, sent, pos)
    ensures t.cas == volume.View() && t.phase == phase && t.transferred == transferred
    ensures phase.Begin? || phase.Failed? || (Awaits(t) && pos == |input|)
    ensures from <= pos <= |input|
    ensures if phase.Begin? then
              t.offset == c.b.objects[i].size && t.i == i + 1 && t.receipts == receipts + [c.b.objects[i]]
            else t.i == i && t.receipts == receipts
  {
    hide Drive, Reached, StageWrite, VerifyAndPublish;
    var o := c.b.objects[i];
    var offset := start;
    sent, transferred, pos, phase := [], used, from, Fetch;
    ghost var t0 := Target(i, Fetch, start, used, volume.View(), receipts);
    t := t0;
    ReachedNow(c, t, input, from);
    while offset < o.size
      invariant offset <= o.size && from <= pos <= |input| && WellPlaced(c, t0)
      invariant t == Target(i, phase, offset, transferred, volume.View(), receipts)
      invariant phase == if offset == o.size then AwaitProof else Fetch
      invariant Reached(c, t0, input, from, t, sent, pos)
    {
      var length := Min(o.size - offset, c.chunk);
      ReachedLocal(c, t0, input, from, t, sent, pos);
      if transferred + length > U64_MAX || transferred + length > c.b.maxBytes {
        t := t.(phase := Failed);
        assert sent + [] == sent;
        return t, Failed, sent, transferred, pos;
      }
      transferred := transferred + length;
      sent := sent + [Request(o.id, offset, length)];
      t := t.(phase := AwaitChunk(length), transferred := transferred);
      if pos == |input| {
        return t, AwaitChunk(length), sent, transferred, pos;
      }
      var frame := input[pos];
      ReachedReceive(c, t0, input, from, t, sent, pos);
      pos := pos + 1;
      if !frame.Chunk? || frame.id != o.id || frame.offset != offset || |frame.bytes| != length {
        t := t.(phase := Failed);
        assert sent + [] == sent;
        return t, Failed, sent, transferred, pos;
      }
      var r := volume.WriteChunk(c.Key(o), o, offset, frame.bytes);
      if !r.Accepted? || r.stagedSize != offset + length {
        t := t.(phase := Failed, cas := volume.View());
        assert sent + [] == sent;
        return t, Failed, sent, transferred, pos;
      }
      sent := sent + [Ack(o.id, offset, length, true)];
      offset := offset + length;
      phase := if offset == o.size then AwaitProof else Fetch;
      t := t.(phase := phase, offset := offset, cas := volume.View());
    }
    if pos == |input| {
      return t, AwaitProof, sent, transferred, pos;
    }
    ReachedReceive(c, t0, input, from, t, sent, pos);
    assert sent + [] == sent;
    var frame := input[pos];
    pos := pos + 1;
    if frame != Proof(o.id, o.id, o.size) {
      t := t.(phase := Failed);
      return t, Failed, sent, transferred, pos;
    }
    var r := volume.Publish(c.Key(o), o);
    if !r.Created? && !r.AlreadyPresent? {
      t := t.(phase := Failed, cas := volume.View());
      return t, Failed, sent, transferred, pos;
    }
    phase := Begin;
    t := t.(i := i + 1, phase := Begin, cas := volume.View(), receipts := receipts + [o]);
  }

  /** Deals with one object up to the point where ranges must be fetched: publishes what is already
      there, obtains an empty object, or reports where to resume. */
  method BeginNext(c: Session, volume: VolumeCas, i: nat, stale: nat, used: nat, receipts: seq<ObjectSpec>,
                   input: seq<Frame>, from: nat)
      returns (ghost t: Target, phase: Phase, offset: nat, sent: seq<Frame>, pos: nat)
    requires i < |c.b.objects| && from <= |input|
    modifies volume
    ensures Reached(c, Target(i, Begin, stale, used, old(volume.View()), receipts), input, from, t, sent, pos)
    ensures t.cas == volume.View() && t.phase == phase && t.offset == offset && t.transferred == used
    ensures from <= pos <= |input|
    ensures phase.Begin? || phase.Fetch? || phase.Failed? || (Awaits(t) && pos == |input|)
    ensures if phase.Begin? then t.i == i + 1 && t.receipts == receipts + [c.b.objects[i]]
            else t.i == i && t.receipts == receipts
  {
    hide Drive, Reached, VerifyAndPublish;
    var o := c.b.objects[i];
    var obj := c.Key(o).Object();
    offset, sent, pos := stale, [], from;
    ghost var t0 := Target(i, Begin, stale, used, volume.View(), receipts);
    t := t0;
    ReachedNow(c, t, input, from);
    ReachedLocal(c, t0, input, from, t, sent, pos);
    assert sent + Local(c, t0).1 == Local(c, t0).1;
    var finishWith := [];
    if obj in volume.published {
      if |volume.published[obj]| != o.size {
        t := t.(phase := Failed);
        return t, Failed, offset, sent, pos;
      }
      finishWith := [Ack(o.id, o.size, 0, true)];
    } else {
      var staged := volume.StagedSize(c.Key(o));
      var at := if staged.Some? then staged.value else 0;
      if at > o.size {
        t := t.(phase := Failed);
        return t, Failed, offset, sent, pos;
      }
      if o.size == 0 {
        offset := 0;
        sent := [Request(o.id, 0, 0)];
        t := t.(phase := AwaitEmptyProof, offset := 0);
        if from == |input| {
          return t, AwaitEmptyProof, offset, sent, pos;
        }
        ReachedReceive(c, t0, input, from, t, sent, pos);
        pos := pos + 1;
        if input[from] != Proof(o.id, o.id, 0) {
          t := t.(phase := Failed);
          assert sent + [] == sent;
          return t, Failed, offset, sent, pos;
        }
        finishWith := [Ack(o.id, 0, 0, true)];
      } else if at < o.size {
        t := t.(phase := Fetch, offset := at);
        return t, Fetch, at, sent, pos;
      } else {
        finishWith := [Ack(o.id, at, 0, true)];
      }
    }
    var r := volume.Publish(c.Key(o), o);
    if !r.Created? && !r.AlreadyPresent? {
      t := t.(phase := Failed, cas := volume.View());
      assert sent + [] == sent;
      return t, Failed, offset, sent, pos;
    }
    sent := sent + finishWith;
    phase := Begin;
    t := t.(i := i + 1, phase := Begin, cas := volume.View(), receipts := receipts + [o]);
  }

  /** The whole batch, object by object in page order. */
  method MaterializeBatch(c: Session, volume: VolumeCas, input: seq<Frame>)
    returns (phase: Phase, sent: seq<Frame>, receipts: seq<ObjectSpec>)
    requires 0 < c.chunk
    modifies volume
    ensures var (t, out) := Drive(c, Start(old(volume.View())), input);
            volume.View() == t.cas && sent == out && receipts == t.receipts && phase == t.phase
    ensures phase.Done? || phase.Failed? || phase.AwaitChunk? || phase.AwaitProof? || phase.AwaitEmptyProof?
  {
    hide Reached, Local, Receive;
    ghost var t0 := Start(volume.View());
    ghost var t := t0;
    var i: nat, stale: nat, transferred: nat, pos: nat := 0, 0, 0, 0;
    phase, sent, receipts := Begin, [], [];
    ReachedNow(c, t0, input, 0);
    while i < |c.b.objects|
      invariant i <= |c.b.objects| && pos <= |input|
      invariant t == Target(i, Begin, stale, transferred, volume.View(), receipts)
      invariant Reached(c, t0, input, 0, t, sent, pos)
    {
      ghost var t1, t2;
      var more: seq<Frame>, offset: nat, pos1: nat;
      t1, phase, offset, more, pos1 := BeginNext(c, volume, i, stale, transferred, receipts, input, pos);
      ReachedTrans(c, t0, input, 0, t, sent, pos, t1, more, pos1);
      t, sent, pos, stale := t1, sent + more, pos1, offset;
      if phase.Fetch? {
        ReachedPlaced(c, t0, input, 0, t, sent, pos);
        t2, phase, more, transferred, pos1 := FetchRest(c, volume, i, offset, transferred, receipts, input, pos);
        ReachedTrans(c, t0, input, 0, t, sent, pos, t2, more, pos1);
        t, sent, pos := t2, sent + more, pos1;
        stale := c.b.objects[i].size;
      }
      if !phase.Begin? {
        Returned(c, t0, input, t, sent, pos);
        return;
      }
      i := i + 1;
      receipts := receipts + [c.b.objects[i - 1]];
    }
    ReachedLocal(c, t0, input, 0, t, sent, pos);
    CloseIsLocal(c, t);
    phase := Done;
    sent := sent + [Close(true)];
    t := t.(phase := Done);
    Returned(c, t0, input, t, sent, pos);
  }

  lemma CloseIsLocal(c: Session, t: Target)
    requires t.phase.Begin? && t.i == |c.b.objects|
    ensures Local(c, t) == (t.(phase := Done), [Close(true)])
  {
  }

  lemma ReachedPlaced(c: Session, t0: Target, input: seq<Frame>, from: nat, t: Target, sent: seq<Frame>, pos: nat)
    requires WellPlaced(c, t0) && from <= |input| && Reached(c, t0, input, from, t, sent, pos)
    ensures WellPlaced(c, t) && from <= pos <= |input|
  {
  }

  lemma Returned(c: Session, t0: Target, input: seq<Frame>, t: Target, sent: seq<Frame>, pos: nat)
    requires WellPlaced(c, t0) && Reached(c, t0, input, 0, t, sent, pos)
    requires t.phase.Done? || t.phase.Failed? || (Awaits(t) && pos == |input|)
    ensures Drive(c, t0, input) == (t, sent)
  {
    assert input[0..] == input;
    assert Drive(c, t, input[pos..]) == (t, []);
    assert sent + [] == sent;
  }
}
