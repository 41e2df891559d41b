/** Deadlock freedom, termination and delivery of the composed transfer. */
module TransferProof {
  import opened Base
  import opened Cas
  import opened Source
  import opened Transfer

  // ---- Bookkeeping over the manifest ----

  lemma {:induction false} IdsCount(b: Batch, n: nat)
    requires b.Distinct() && n <= |b.objects|
    ensures |IdsFirst(b.objects, n)| == n
    ensures forall j :: n <= j < |b.objects| ==> b.objects[j].id !in IdsFirst(b.objects, n)
  {
    if n > 0 {
      IdsCount(b, n - 1);
    }
  }

  lemma {:induction false} NeedFrame(c: Session, cas: Store, cas': Store, i: nat)
    requires i <= |c.b.objects|
    requires forall j :: i <= j < |c.b.objects| ==> NeedOf(c, cas', c.b.objects[j]) == NeedOf(c, cas, c.b.objects[j])
    ensures NeedFrom(c, cas', i) == NeedFrom(c, cas, i)
    decreases |c.b.objects| - i
  {
    if i < |c.b.objects| {
      NeedFrame(c, cas, cas', i + 1);
    }
  }

  /** `cas'` differs from `cas` at most in what it knows of one object. */
  ghost predicate ChangesOnly(c: Session, cas: Store, cas': Store, o: ObjectSpec) {
    && cas'.published - {c.Key(o).Object()} == cas.published - {c.Key(o).Object()}
    && cas'.staged - {c.Key(o)} == cas.staged - {c.Key(o)}
  }

  lemma OthersUnchanged(c: Session, cas: Store, cas': Store, o: ObjectSpec, p: ObjectSpec)
    requires ChangesOnly(c, cas, cas', o) && p.id != o.id
    ensures NeedOf(c, cas', p) == NeedOf(c, cas, p)
    ensures Holds(c, p) ==>
            ObjectReady(c, cas', p) == ObjectReady(c, cas, p) && Published(c, cas', p) == Published(c, cas, p)
  {
    var k, op := c.Key(p), c.Key(p).Object();
    assert k in cas'.staged - {c.Key(o)} <==> k in cas.staged - {c.Key(o)};
    assert op in cas'.published - {c.Key(o).Object()} <==> op in cas.published - {c.Key(o).Object()};
    assert k in cas.staged ==> (cas.staged - {c.Key(o)})[k] == (cas'.staged - {c.Key(o)})[k];
    assert op in cas.published ==>
        (cas.published - {c.Key(o).Object()})[op] == (cas'.published - {c.Key(o).Object()})[op];
  }

  /** A change to object `i` alone keeps everything else ready and needed as before. */
  lemma ReadyFrame(c: Session, cas: Store, cas': Store, i: nat)
    requires SourceReady(c) && c.b.Distinct() && i < |c.b.objects|
    requires TargetReady(c, cas) && ChangesOnly(c, cas, cas', c.b.objects[i])
    requires Holds(c, c.b.objects[i]) && ObjectReady(c, cas', c.b.objects[i])
    ensures TargetReady(c, cas')
    ensures NeedFrom(c, cas', i + 1) == NeedFrom(c, cas, i + 1)
    ensures forall j :: 0 <= j < i && Holds(c, c.b.objects[j]) && Published(c, cas, c.b.objects[j]) ==>
            Published(c, cas', c.b.objects[j])
  {
    hide NeedOf, ObjectReady, Published, ChangesOnly, NeedFrom, Holds;
    forall j | 0 <= j < |c.b.objects| && j != i
      ensures NeedOf(c, cas', c.b.objects[j]) == NeedOf(c, cas, c.b.objects[j])
      ensures Holds(c, c.b.objects[j]) && ObjectReady(c, cas', c.b.objects[j])
      ensures Published(c, cas', c.b.objects[j]) == Published(c, cas, c.b.objects[j])
    {
      assert c.b.objects[j] in c.b.objects;
      OthersUnchanged(c, cas, cas', c.b.objects[i], c.b.objects[j]);
    }
    NeedFrame(c, cas, cas', i + 1);
  }

  // ---- One object at a time, both parties in step ----

  /** Target and source in step, with `frames` on their way to the target. */
  ghost predicate InStep(c: Session, t: Target, s: State, frames: seq<Frame>)
    requires SourceReady(c)
  {
    TargetOk(c, t) && Matches(c, t, s) && frames == Expected(c, t)
  }

  /** The source reads what was sent, if anything. */
  function Reads(c: Session, s: State, sent: seq<Frame>): (State, seq<Frame>) {
    if sent == [] then (s, []) else Step(c.b, s, sent[0])
  }

  /** Publishing the current object succeeds once all of it is on the target. */
  lemma FinishDelivers(c: Session, t: Target, sent: seq<Frame>)
    requires SourceReady(c) && c.b.Distinct() && c.Valid() && t.i < |c.b.objects|
    requires TargetReady(c, t.cas)
    requires var o := c.b.objects[t.i];
             c.Key(o).Object() in t.cas.published || t.cas.ResumeOffset(c.Key(o)) == o.size
    ensures var o := c.b.objects[t.i];
            var (t', sent') := Finish(c, t, sent);
            && sent' == sent
            && t' == t.(i := t.i + 1, phase := Begin, cas := t'.cas, receipts := t.receipts + [o])
            && Holds(c, o) && Published(c, t'.cas, o) && ObjectReady(c, t'.cas, o)
            && ChangesOnly(c, t.cas, t'.cas, o)
  {
    var o := c.b.objects[t.i];
    assert o in c.b.objects;
    assert Holds(c, o) && ObjectReady(c, t.cas, o);
    var key, content := c.Key(o), Content(c, o);
    PublishesExactlyVerifiedBytes(t.cas, key, o);
    var staged := if key in t.cas.staged then t.cas.staged[key] else [];
    if key.Object() !in t.cas.published {
      assert staged == content;
    }
    hide VerifyAndPublish, Hash;
    var cas' := VerifyAndPublish(t.cas, key, o).0;
    assert cas' == Store(t.cas.published[key.Object() := content], t.cas.staged - {key});
    assert cas'.published - {key.Object()} == t.cas.published - {key.Object()};
    assert cas'.staged - {key} == t.cas.staged - {key};
  }

  lemma FinishKeepsTargetOk(c: Session, t: Target, sent: seq<Frame>)
    requires SourceReady(c) && c.b.Distinct() && c.Valid() && TargetOk(c, t) && t.i < |c.b.objects|
             && !t.phase.AwaitChunk? && !t.phase.Done?
    requires var o := c.b.objects[t.i];
             c.Key(o).Object() in t.cas.published || t.cas.ResumeOffset(c.Key(o)) == o.size
    ensures TargetOk(c, Finish(c, t, sent).0)
  {
    FinishDelivers(c, t, sent);
    var t' := Finish(c, t, sent).0;
    ReadyFrame(c, t.cas, t'.cas, t.i);
    assert c.b.objects[..t.i + 1] == c.b.objects[..t.i] + [c.b.objects[t.i]];
    assert NeedFrom(c, t.cas, t.i) >= NeedFrom(c, t.cas, t.i + 1);
  }

  /** Distinct IDs make an object known by its ID. */
  lemma OneObjectPerId(b: Batch, i: nat, o: ObjectSpec)
    requires b.Distinct() && i < |b.objects| && o in b.objects && o.id == b.objects[i].id
    ensures o == b.objects[i]
  {
    var j :| 0 <= j < |b.objects| && b.objects[j] == o;
    assert j == i;
  }

  lemma FindsObject(b: Batch, i: nat)
    requires b.Distinct() && i < |b.objects|
    ensures Find(b.objects, b.objects[i].id) == Some(b.objects[i])
    ensures b.objects[i].id !in IdsFirst(b.objects, i)
    ensures forall n: nat :: ObjectSpec(b.objects[i].id, n) in b.objects <==> n == b.objects[i].size
  {
    hide Find, IdsFirst;
    var o := b.objects[i];
    assert o in b.objects;
    FindIsMembership(b.objects, o.id);
    IdsCount(b, i);
    OneObjectPerId(b, i, Find(b.objects, o.id).value);
    forall n: nat ensures ObjectSpec(o.id, n) in b.objects <==> n == o.size {
      if ObjectSpec(o.id, n) in b.objects {
        OneObjectPerId(b, i, ObjectSpec(o.id, n));
      }
    }
  }

  lemma SourceTakesMarker(c: Session, s: State, i: nat)
    requires c.b.Distinct() && i < |c.b.objects| && s.pending.Idle?
    ensures var o := c.b.objects[i];
            Step(c.b, s, Ack(o.id, o.size, 0, true)) ==
            (s.(completed := s.completed + {o.id}, next := s.next[o.id := o.size]), [])
  {
    FindsObject(c.b, i);
  }

  lemma BeginsByFinishing(c: Session, t: Target)
    requires SourceReady(c) && c.b.Distinct() && c.Valid() && TargetOk(c, t) && t.phase.Begin? && t.i < |c.b.objects|
    requires var o := c.b.objects[t.i];
             c.Key(o).Object() in t.cas.published || (o.size > 0 && t.cas.ResumeOffset(c.Key(o)) == o.size)
    ensures var o := c.b.objects[t.i];
            var (t', sent) := Local(c, t);
            && sent == [Ack(o.id, o.size, 0, true)] && TargetOk(c, t')
            && t'.i == t.i + 1 && t'.phase.Begin? && t'.transferred == t.transferred
  {
    hide TargetReady, NeedFrom, Published, ChangesOnly, Finish;
    var o := c.b.objects[t.i];
    ReadyAt(c, t.cas, t.i);
    FinishDelivers(c, t, [Ack(o.id, o.size, 0, true)]);
    FinishKeepsTargetOk(c, t, [Ack(o.id, o.size, 0, true)]);
  }

  lemma ReadyAt(c: Session, cas: Store, i: nat)
    requires SourceReady(c) && TargetReady(c, cas) && i < |c.b.objects|
    ensures Holds(c, c.b.objects[i]) && ObjectReady(c, cas, c.b.objects[i])
  {
    assert c.b.objects[i] in c.b.objects;
  }

  lemma BeginResumed(c: Session, t: Target, s: State)
    requires SourceReady(c) && c.b.Distinct() && c.Valid() && WellPlaced(c, t) && InStep(c, t, s, [])
             && t.phase.Begin? && t.i < |c.b.objects|
    requires var o := c.b.objects[t.i];
             c.Key(o).Object() in t.cas.published || (o.size > 0 && t.cas.ResumeOffset(c.Key(o)) == o.size)
    ensures var (t', sent) := Local(c, t);
            var (s', out) := Reads(c, s, sent);
            InStep(c, t', s', out)
  {
    hide Local, Step, Holds, TargetOk, FinalProof;
    BeginsByFinishing(c, t);
    SourceTakesMarker(c, s, t.i);
  }

  lemma BeginEmpty(c: Session, t: Target, s: State)
    requires SourceReady(c) && c.b.Distinct() && c.Valid() && InStep(c, t, s, []) && t.phase.Begin?
             && t.i < |c.b.objects|
    requires var o := c.b.objects[t.i];
             c.Key(o).Object() !in t.cas.published && o.size == 0
    ensures var (t', sent) := Local(c, t);
            var (s', out) := Reads(c, s, sent);
            InStep(c, t', s', out)
  {
    var o := c.b.objects[t.i];
    assert o in c.b.objects && Holds(c, o) && ObjectReady(c, t.cas, o);
    FindsObject(c.b, t.i);
  }

  lemma BeginFetch(c: Session, t: Target, s: State)
    requires SourceReady(c) && c.b.Distinct() && c.Valid() && InStep(c, t, s, []) && t.phase.Begin?
             && t.i < |c.b.objects|
    requires var o := c.b.objects[t.i];
             c.Key(o).Object() !in t.cas.published && t.cas.ResumeOffset(c.Key(o)) != o.size
    ensures var (t', sent) := Local(c, t);
            var (s', out) := Reads(c, s, sent);
            InStep(c, t', s', out)
  {
    var o := c.b.objects[t.i];
    assert o in c.b.objects && Holds(c, o) && ObjectReady(c, t.cas, o);
  }

  lemma BeginClose(c: Session, t: Target, s: State)
    requires SourceReady(c) && c.b.Distinct() && InStep(c, t, s, []) && t.phase.Begin? && t.i == |c.b.objects|
    ensures var (t', sent) := Local(c, t);
            var (s', out) := Reads(c, s, sent);
            InStep(c, t', s', out)
  {
    IdsCount(c.b, t.i);
  }

  lemma SourceServes(c: Session, s: State, i: nat, offset: nat, length: nat)
    requires c.b.Distinct() && c.Valid() && i < |c.b.objects| && Holds(c, c.b.objects[i])
    requires s.verdict == Waiting && s.pending.Idle? && c.b.objects[i].id !in s.completed
    requires c.b.objects[i].id in s.next ==> s.next[c.b.objects[i].id] == offset
    requires 0 < length <= MAX_CHUNK && offset + length <= c.b.objects[i].size && s.served + length <= c.b.maxBytes
    ensures var o := c.b.objects[i];
            Step(c.b, s, Request(o.id, offset, length)) ==
            (s.(pending := Unacked(o.id, offset, length), served := s.served + length),
             [Chunk(o.id, offset, Content(c, o)[offset..offset + length])] + FinalProof(o, offset + length))
  {
    assert c.b.objects[i] in c.b.objects;
    FindsObject(c.b, i);
    assert ReadRange(c.b.src, c.b.tenant, c.b.objects[i], offset, length) ==
        Read(Content(c, c.b.objects[i])[offset..offset + length]);
  }

  lemma FetchKeepsTargetOk(c: Session, t: Target)
    requires SourceReady(c) && c.Valid() && TargetOk(c, t) && t.phase.Fetch?
    ensures var o := c.b.objects[t.i];
            var length := Min(o.size - t.offset, c.chunk);
            && t.transferred + length <= c.b.maxBytes
            && Local(c, t) == (t.(phase := AwaitChunk(length), transferred := t.transferred + length),
                               [Request(o.id, t.offset, length)])
            && TargetOk(c, Local(c, t).0)
  {
    var o := c.b.objects[t.i];
    assert NeedFrom(c, t.cas, t.i) >= NeedOf(c, t.cas, o) == o.size - t.offset;
  }

  lemma FetchRequest(c: Session, t: Target, s: State)
    requires SourceReady(c) && c.b.Distinct() && c.Valid() && WellPlaced(c, t) && InStep(c, t, s, []) && t.phase.Fetch?
    ensures var (t', sent) := Local(c, t);
            var (s', out) := Reads(c, s, sent);
            InStep(c, t', s', out)
  {
    hide Local, Step, Holds, TargetOk, IdsFirst, FinalProof;
    var o := c.b.objects[t.i];
    assert o in c.b.objects && Holds(c, o);
    IdsCount(c.b, t.i);
    FetchKeepsTargetOk(c, t);
    SourceServes(c, s, t.i, t.offset, Min(o.size - t.offset, c.chunk));
  }

  lemma LocalKeepsStep(c: Session, t: Target, s: State)
    requires SourceReady(c) && c.b.Distinct() && c.Valid() && InStep(c, t, s, []) && (t.phase.Begin? || t.phase.Fetch?)
    ensures var (t', sent) := Local(c, t);
            var (s', out) := Reads(c, s, sent);
            |sent| <= 1 && InStep(c, t', s', out)
  {
    if t.phase.Fetch? {
      FetchRequest(c, t, s);
    } else if t.i == |c.b.objects| {
      BeginClose(c, t, s);
    } else {
      var o := c.b.objects[t.i];
      if c.Key(o).Object() in t.cas.published || (o.size > 0 && t.cas.ResumeOffset(c.Key(o)) == o.size) {
        BeginResumed(c, t, s);
      } else if o.size == 0 {
        BeginEmpty(c, t, s);
      } else {
        BeginFetch(c, t, s);
      }
    }
  }

  lemma EmptyProofFinishes(c: Session, t: Target)
    requires SourceReady(c) && c.b.Distinct() && c.Valid() && TargetOk(c, t) && t.phase.AwaitEmptyProof?
    ensures var o := c.b.objects[t.i];
            var (t', sent) := Receive(c, t, Proof(o.id, o.id, 0));
            && sent == [Ack(o.id, 0, 0, true)] && TargetOk(c, t')
            && t'.i == t.i + 1 && t'.phase.Begin? && t'.transferred == t.transferred
  {
    hide TargetReady, NeedFrom, Published, ChangesOnly, Finish;
    var o := c.b.objects[t.i];
    ReadyAt(c, t.cas, t.i);
    FinishDelivers(c, t, [Ack(o.id, 0, 0, true)]);
    FinishKeepsTargetOk(c, t, [Ack(o.id, 0, 0, true)]);
  }

  lemma ReceiveEmptyProof(c: Session, t: Target, s: State)
    requires SourceReady(c) && c.b.Distinct() && c.Valid() && WellPlaced(c, t) && InStep(c, t, s, Expected(c, t))
             && t.phase.AwaitEmptyProof?
    ensures var (t', sent) := Receive(c, t, Expected(c, t)[0]);
            var (s', out) := Reads(c, s, sent);
            |sent| <= 1 && InStep(c, t', s', Expected(c, t)[1..] + out)
  {
    hide Receive, TargetOk, Holds, FinalProof;
    EmptyProofFinishes(c, t);
  }

  lemma ReceiveProof(c: Session, t: Target, s: State)
    requires SourceReady(c) && c.b.Distinct() && c.Valid() && WellPlaced(c, t) && InStep(c, t, s, Expected(c, t))
             && t.phase.AwaitProof?
    ensures var (t', sent) := Receive(c, t, Expected(c, t)[0]);
            var (s', out) := Reads(c, s, sent);
            |sent| <= 1 && InStep(c, t', s', Expected(c, t)[1..] + out)
  {
    assert Receive(c, t, Expected(c, t)[0]) == Finish(c, t, []);
    FinishDelivers(c, t, []);
    FinishKeepsTargetOk(c, t, []);
  }

  /** Staging the awaited chunk extends the prefix and pays for what was requested. */
  lemma ChunkKeepsTargetOk(c: Session, t: Target, bytes: Bytes)
    requires SourceReady(c) && c.b.Distinct() && c.Valid() && TargetOk(c, t) && t.phase.AwaitChunk?
    requires var o := c.b.objects[t.i];
             Holds(c, o) && bytes == Content(c, o)[t.offset..t.offset + t.phase.length]
    ensures var o := c.b.objects[t.i];
            var end := t.offset + t.phase.length;
            var (t', sent) := Receive(c, t, Chunk(o.id, t.offset, bytes));
            && sent == [Ack(o.id, t.offset, t.phase.length, true)]
            && t' == t.(phase := if end == o.size then AwaitProof else Fetch, offset := end, cas := t'.cas)
            && TargetOk(c, t')
  {
    hide Receive, Append, TargetReady, Published, SourceReady, ChangesOnly;
    var o := c.b.objects[t.i];
    ReadyAt(c, t.cas, t.i);
    ChunkIsStaged(c, t, bytes);
    var end := t.offset + t.phase.length;
    var t' := Receive(c, t, Chunk(o.id, t.offset, bytes)).0;
    AppendExtends(c, t.cas, o, t.offset, t.phase.length);
    ReadyFrame(c, t.cas, t'.cas, t.i);
    assert NeedFrom(c, t'.cas, t.i) == o.size - end + NeedFrom(c, t'.cas, t.i + 1);
    assert NeedFrom(c, t.cas, t.i) == o.size - t.offset + NeedFrom(c, t.cas, t.i + 1);
  }

  /** The awaited chunk is accepted at the staged end. */
  lemma ChunkIsStaged(c: Session, t: Target, bytes: Bytes)
    requires SourceReady(c) && c.Valid() && TargetOk(c, t) && t.phase.AwaitChunk? && |bytes| == t.phase.length
    ensures var o := c.b.objects[t.i];
            var end := t.offset + t.phase.length;
            Receive(c, t, Chunk(o.id, t.offset, bytes)) ==
            (t.(phase := if end == o.size then AwaitProof else Fetch, offset := end,
                cas := Append(t.cas, c.Key(o), bytes)),
             [Ack(o.id, t.offset, t.phase.length, true)])
  {
    hide Append, TargetReady, Published, SourceReady, NeedFrom;
    assert c.b.objects[t.i] in c.b.objects;
  }

  lemma AppendExtends(c: Session, cas: Store, o: ObjectSpec, offset: nat, length: nat)
    requires Holds(c, o) && ObjectReady(c, cas, o) && offset == cas.ResumeOffset(c.Key(o)) && offset + length <= o.size
    requires c.Key(o).Object() !in cas.published
    ensures var cas' := Append(cas, c.Key(o), Content(c, o)[offset..offset + length]);
            && ObjectReady(c, cas', o) && ChangesOnly(c, cas, cas', o)
            && cas'.ResumeOffset(c.Key(o)) == offset + length && c.Key(o).Object() !in cas'.published
  {
    var key, content := c.Key(o), Content(c, o);
    var had := if key in cas.staged then cas.staged[key] else [];
    assert had == content[..offset];
    assert had + content[offset..offset + length] == content[..offset + length];
    var cas' := Append(cas, key, content[offset..offset + length]);
    assert cas'.staged - {key} == cas.staged - {key};
  }

  lemma SourceTakesAck(c: Session, s: State, i: nat, offset: nat, length: nat)
    requires c.b.Distinct() && i < |c.b.objects| && s.pending == Unacked(c.b.objects[i].id, offset, length)
    ensures var o := c.b.objects[i];
            Step(c.b, s, Ack(o.id, offset, length, true)) ==
            (s.(pending := Idle, completed := if offset + length == o.size then s.completed + {o.id} else s.completed,
                next := s.next[o.id := offset + length]), [])
  {
    FindsObject(c.b, i);
  }

  lemma ReceiveChunk(c: Session, t: Target, s: State)
    requires SourceReady(c) && c.b.Distinct() && c.Valid() && WellPlaced(c, t) && InStep(c, t, s, Expected(c, t))
             && t.phase.AwaitChunk?
    ensures Expected(c, t) != []
    ensures var (t', sent) := Receive(c, t, Expected(c, t)[0]);
            var (s', out) := Reads(c, s, sent);
            |sent| <= 1 && InStep(c, t', s', Expected(c, t)[1..] + out)
  {
    hide Receive, Step, TargetOk, Holds, Content, Find;
    var o, length := c.b.objects[t.i], t.phase.length;
    assert o in c.b.objects && Holds(c, o);
    ChunkInRange(c, t);
    var bytes := Content(c, o)[t.offset..t.offset + length];
    ChunkKeepsTargetOk(c, t, bytes);
    SourceTakesAck(c, s, t.i, t.offset, length);
    assert Expected(c, t)[1..] == FinalProof(o, t.offset + length);
  }

  lemma ChunkInRange(c: Session, t: Target)
    requires SourceReady(c) && TargetOk(c, t) && t.phase.AwaitChunk?
    ensures t.offset + t.phase.length <= c.b.objects[t.i].size
    ensures Holds(c, c.b.objects[t.i]) && |Content(c, c.b.objects[t.i])| == c.b.objects[t.i].size
  {
    assert c.b.objects[t.i] in c.b.objects;
  }

  lemma ReceiveKeepsStep(c: Session, t: Target, s: State)
    requires SourceReady(c) && c.b.Distinct() && c.Valid() && WellPlaced(c, t) && InStep(c, t, s, Expected(c, t))
             && Awaits(t)
    ensures Expected(c, t) != []
    ensures var (t', sent) := Receive(c, t, Expected(c, t)[0]);
            var (s', out) := Reads(c, s, sent);
            |sent| <= 1 && InStep(c, t', s', Expected(c, t)[1..] + out)
  {
    if t.phase.AwaitChunk? {
      ReceiveChunk(c, t, s);
    } else if t.phase.AwaitProof? {
      ReceiveProof(c, t, s);
    } else {
      ReceiveEmptyProof(c, t, s);
    }
  }
}
