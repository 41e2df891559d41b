/** The target side of the v2 stream, and the two sides composed over FIFO channels. */
module Transfer {
  import opened Base
  import opened Cas
  import opened Source

  datatype Phase = Begin | Fetch | AwaitEmptyProof | AwaitChunk(length: nat) | AwaitProof | Done | Failed

  /** `i` is the object being worked on, in page order; `cas` is the target's Volume. */
  datatype Target = Target(i: nat, phase: Phase, offset: nat, transferred: nat, cas: Store, receipts: seq<ObjectSpec>)

  datatype Session = Session(b: Batch, transfer: TransferId, chunk: nat) {
    function Key(o: ObjectSpec): StageKey {
      StageKey(b.tenant, transfer, o.id)
    }

    predicate Valid() {
      && 0 < chunk <= MAX_CHUNK
      && b.maxBytes <= U64_MAX
      && (forall o <- b.objects :: o.size <= U64_MAX)
    }
  }

  function Start(cas: Store): Target {
    Target(0, Begin, 0, 0, cas, [])
  }

  function Fail(t: Target): (Target, seq<Frame>) {
    (t.(phase := Failed), [])
  }

  /** Re-verifies and publishes the current object, then hands out its receipt. */
  function Finish(c: Session, t: Target, sent: seq<Frame>): (Target, seq<Frame>)
    requires t.i < |c.b.objects|
  {
    var o := c.b.objects[t.i];
    var (cas, r) := VerifyAndPublish(t.cas, c.Key(o), o);
    if r.Created? || r.AlreadyPresent?
    then (t.(i := t.i + 1, phase := Begin, cas := cas, receipts := t.receipts + [o]), sent)
    else (t.(phase := Failed, cas := cas), [])
  }

  function BeginObject(c: Session, t: Target): (Target, seq<Frame>)
    requires t.i < |c.b.objects|
  {
    var o := c.b.objects[t.i];
    var obj := c.Key(o).Object();
    if obj in t.cas.published then
      if |t.cas.published[obj]| != o.size then Fail(t)
      else Finish(c, t, [Ack(o.id, o.size, 0, true)])
    else
      var offset := t.cas.ResumeOffset(c.Key(o));
      if offset > o.size then Fail(t)
      else if o.size == 0 then (t.(phase := AwaitEmptyProof, offset := 0), [Request(o.id, 0, 0)])
      else if offset == o.size then Finish(c, t, [Ack(o.id, offset, 0, true)])
      else (t.(phase := Fetch, offset := offset), [])
  }

  /** What the target does on its own, without reading a frame. */
  function Local(c: Session, t: Target): (Target, seq<Frame>)
    requires t.i <= |c.b.objects|
    requires t.phase.Begin?
             || (t.phase.Fetch? && t.i < |c.b.objects| && t.offset < c.b.objects[t.i].size)
  {
    if t.phase.Begin? then
      if t.i == |c.b.objects| then (t.(phase := Done), [Close(true)]) else BeginObject(c, t)
    else
      var o := c.b.objects[t.i];
      var length := Min(o.size - t.offset, c.chunk);
      if t.transferred + length > U64_MAX || t.transferred + length > c.b.maxBytes then Fail(t)
      else (t.(phase := AwaitChunk(length), transferred := t.transferred + length), [Request(o.id, t.offset, length)])
  }

  predicate Awaits(t: Target) {
    t.phase.AwaitEmptyProof? || t.phase.AwaitChunk? || t.phase.AwaitProof?
  }

  /** What the target does with the frame it was waiting for. */
  function Receive(c: Session, t: Target, f: Frame): (Target, seq<Frame>)
    requires t.i < |c.b.objects| && Awaits(t)
  {
    var o := c.b.objects[t.i];
    match t.phase
    case AwaitEmptyProof =>
      if f == Proof(o.id, o.id, 0) then Finish(c, t, [Ack(o.id, 0, 0, true)]) else Fail(t)
    case AwaitProof =>
      if f == Proof(o.id, o.id, o.size) then Finish(c, t, []) else Fail(t)
    case AwaitChunk(length) =>
      if !f.Chunk? || f.id != o.id || f.offset != t.offset || |f.bytes| != length then Fail(t) else
      var (cas, r) := StageWrite(t.cas, c.Key(o), o, t.offset, f.bytes);
      if !r.Accepted? || r.stagedSize != t.offset + length then (t.(phase := Failed, cas := cas), [])
      else
        var end := t.offset + length;
        (t.(phase := if end == o.size then AwaitProof else Fetch, offset := end, cas := cas),
         [Ack(o.id, t.offset, length, true)])
  }

  // ---- The composed system ----

  /** Both parties and the frames in flight in each direction. */
  datatype Sys = Sys(t: Target, s: State, toSource: seq<Frame>, toTarget: seq<Frame>)

  predicate WellPlaced(c: Session, t: Target) {
    && t.i <= |c.b.objects|
    && (t.phase.Fetch? || Awaits(t) ==> t.i < |c.b.objects|)
    && (t.phase.Fetch? ==> t.offset < c.b.objects[t.i].size)
  }

  predicate TargetEnabled(c: Session, y: Sys) {
    WellPlaced(c, y.t) && (y.t.phase.Begin? || y.t.phase.Fetch? || (Awaits(y.t) && y.toTarget != []))
  }

  function TargetStep(c: Session, y: Sys): Sys
    requires TargetEnabled(c, y)
  {
    if Awaits(y.t) then
      var (t, sent) := Receive(c, y.t, y.toTarget[0]);
      y.(t := t, toSource := y.toSource + sent, toTarget := y.toTarget[1..])
    else
      var (t, sent) := Local(c, y.t);
      y.(t := t, toSource := y.toSource + sent)
  }

  predicate SourceEnabled(y: Sys) {
    y.s.verdict == Waiting && y.toSource != []
  }

  function SourceStep(c: Session, y: Sys): Sys
    requires SourceEnabled(y)
  {
    var (s, sent) := Step(c.b, y.s, y.toSource[0]);
    y.(s := s, toSource := y.toSource[1..], toTarget := y.toTarget + sent)
  }

  /** One step of either party; which one moves is up to the scheduler. */
  predicate Next(c: Session, y: Sys, y': Sys) {
    || (TargetEnabled(c, y) && y' == TargetStep(c, y))
    || (SourceEnabled(y) && y' == SourceStep(c, y))
  }

  predicate Enabled(c: Session, y: Sys) {
    TargetEnabled(c, y) || SourceEnabled(y)
  }

  function Open(cas: Store): Sys {
    Sys(Start(cas), START, [], [])
  }

  ghost predicate IsRun(c: Session, cas: Store, run: seq<Sys>) {
    && run != [] && run[0] == Open(cas)
    && forall k :: 0 <= k < |run| - 1 ==> Next(c, run[k], run[k + 1])
  }

  // ---- What both parties start from ----

  /** The source holds every manifest object; this is what the listener verifies before serving. */
  ghost predicate SourceReady(c: Session) {
    forall o <- c.b.objects :: Holds(c, o)
  }

  ghost predicate Holds(c: Session, o: ObjectSpec) {
    var key := ObjectKey(c.b.tenant, o.id);
    key in c.b.src.published && |c.b.src.published[key]| == o.size && Hash(c.b.src.published[key]) == o.id
  }

  ghost function Content(c: Session, o: ObjectSpec): Bytes
    requires Holds(c, o)
  {
    c.b.src.published[ObjectKey(c.b.tenant, o.id)]
  }

  /** An object's state on the target: published authentically, staged as a correct prefix (which
      may be everything), or not there at all. */
  ghost predicate ObjectReady(c: Session, cas: Store, o: ObjectSpec)
    requires Holds(c, o)
  {
    && (c.Key(o).Object() in cas.published ==> cas.published[c.Key(o).Object()] == Content(c, o))
    && (c.Key(o) in cas.staged ==> cas.staged[c.Key(o)] <= Content(c, o))
  }

  ghost predicate TargetReady(c: Session, cas: Store)
    requires SourceReady(c)
  {
    forall o <- c.b.objects :: Holds(c, o) && ObjectReady(c, cas, o)
  }

  /** Bytes still to transfer for one object. */
  function NeedOf(c: Session, cas: Store, o: ObjectSpec): nat {
    if c.Key(o).Object() in cas.published || cas.ResumeOffset(c.Key(o)) > o.size then 0
    else o.size - cas.ResumeOffset(c.Key(o))
  }

  function NeedFrom(c: Session, cas: Store, i: nat): nat
    requires i <= |c.b.objects|
    decreases |c.b.objects| - i
  {
    if i == |c.b.objects| then 0 else NeedOf(c, cas, c.b.objects[i]) + NeedFrom(c, cas, i + 1)
  }

  ghost predicate Ready(c: Session, cas: Store) {
    && c.Valid() && c.b.Distinct() && SourceReady(c) && TargetReady(c, cas)
    && NeedFrom(c, cas, 0) <= c.b.maxBytes
  }

  /** The whole batch arrived. */
  ghost predicate Delivered(c: Session, y: Sys)
    requires SourceReady(c)
  {
    && y.t.phase.Done? && y.s.verdict == Succeeded
    && y.t.receipts == c.b.objects
    && (forall o <- c.b.objects :: Holds(c, o) && Published(c, y.t.cas, o))
  }

  ghost predicate Published(c: Session, cas: Store, o: ObjectSpec)
    requires Holds(c, o)
  {
    var obj := c.Key(o).Object();
    obj in cas.published && cas.published[obj] == Content(c, o)
  }

  // ---- The invariant: where the source would be once it has read everything in flight ----

  /** The identities of the first `n` manifest objects. */
  function IdsFirst(objects: seq<ObjectSpec>, n: nat): set<ObjectId>
    requires n <= |objects|
  {
    if n == 0 then {} else IdsFirst(objects, n - 1) + {objects[n - 1].id}
  }

  /** The frames the target still has coming. */
  ghost function Expected(c: Session, t: Target): seq<Frame>
    requires SourceReady(c) && WellPlaced(c, t)
  {
    if !Awaits(t) then [] else
    var o := c.b.objects[t.i];
    match t.phase
    case AwaitEmptyProof => [Proof(o.id, o.id, 0)]
    case AwaitProof => [Proof(o.id, o.id, o.size)]
    case AwaitChunk(length) =>
      if Holds(c, o) && t.offset + length <= o.size
      then [Chunk(o.id, t.offset, Content(c, o)[t.offset..t.offset + length])] + FinalProof(o, t.offset + length)
      else []
  }

  ghost function ExpectedPending(c: Session, t: Target): Pending
    requires WellPlaced(c, t)
  {
    match t.phase
    case AwaitEmptyProof => UnackedEmpty(c.b.objects[t.i].id)
    case AwaitChunk(length) => Unacked(c.b.objects[t.i].id, t.offset, length)
    case _ => Idle
  }

  /** The source's bookkeeping after reading everything in flight. */
  ghost predicate Matches(c: Session, t: Target, s: State)
    requires WellPlaced(c, t)
  {
    && s.verdict == (if t.phase.Done? then Succeeded else Waiting)
    && s.served == t.transferred
    && s.pending == ExpectedPending(c, t)
    && s.completed == IdsFirst(c.b.objects, if t.phase.AwaitProof? then t.i + 1 else t.i)
    && (forall j :: t.i < j < |c.b.objects| ==> c.b.objects[j].id !in s.next)
    && (t.i < |c.b.objects| && c.b.objects[t.i].id in s.next ==>
          !t.phase.Begin? && !t.phase.AwaitEmptyProof?
            && (t.phase.Fetch? || t.phase.AwaitChunk? ==> s.next[c.b.objects[t.i].id] == t.offset))
  }

  ghost predicate TargetOk(c: Session, t: Target)
    requires SourceReady(c)
  {
    && WellPlaced(c, t) && !t.phase.Failed?
    && TargetReady(c, t.cas)
    && t.receipts == c.b.objects[..t.i]
    && (forall j :: 0 <= j < t.i ==> Holds(c, c.b.objects[j]) && Published(c, t.cas, c.b.objects[j]))
    && (t.phase.Done? ==> t.i == |c.b.objects|)
    && t.transferred + NeedFrom(c, t.cas, t.i) <= c.b.maxBytes + (if t.phase.AwaitChunk? then t.phase.length else 0)
    && (t.phase.Fetch? || Awaits(t) ==>
          var o := c.b.objects[t.i];
          && c.Key(o).Object() !in t.cas.published
          && (t.phase.AwaitEmptyProof? ==> o.size == 0)
          && (!t.phase.AwaitEmptyProof? ==> t.offset == t.cas.ResumeOffset(c.Key(o)))
          && (t.phase.AwaitProof? ==> t.offset == o.size)
          && (t.phase.AwaitChunk? ==>
               t.offset < o.size && t.phase.length == Min(o.size - t.offset, c.chunk)
                 && t.phase.length <= t.transferred))
  }

  ghost predicate Inv(c: Session, y: Sys)
    requires SourceReady(c)
  {
    && TargetOk(c, y.t)
    && var (s, out) := Feed(c.b, y.s, y.toSource);
       Matches(c, y.t, s) && y.toTarget + out == Expected(c, y.t)
  }
}
