/** The durable report outbox and the channel that empties it, over any number of connections. */
module Outbox {
  import opened Base

  /** Reports keep their durable ID on the wire; heartbeats and closes get fresh ones. */
  datatype MsgId = Durable(n: nat) | Fresh(n: nat)

  datatype Pending = Heartbeat(seqNo: nat) | Report(seqNo: nat, id: nat) | Close(seqNo: nat)

  /** Where the channel loop stands. The states after `Running` are the shutdown sequence. */
  datatype Mode = Offline | Running | Flushing | Checking | Draining | Drained | Closing | Shutdown

  /** What went onto the wire, reports with their position in the order of enqueueing. */
  datatype Sent = ReportSent(index: nat, id: nat) | HeartbeatSent | CloseSent

  /** `queue` is durable; `pending`, `up` and `down` belong to one connection. `log`, `removed` and
      `wire` record history: every accepted enqueue, how many reports have left, and all sends. */
  datatype State = State(queue: seq<nat>, pending: map<MsgId, Pending>, up: nat, down: nat, minted: nat, mode: Mode,
                         log: seq<nat>, removed: nat, wire: seq<Sent>)

  const START := State([], map[], 1, 1, 0, Offline, [], 0, [])

  datatype Message =
    | Ack(correlation: Option<MsgId>, ackSeq: nat)
    | Error(correlation: Option<MsgId>, actionRejected: bool, retryable: bool)
    | Command
    | Opened

  datatype Frame = Frame(seqNo: nat, sameGeneration: bool, message: Message)

  datatype Event =
    | Enqueue(id: nat)
    | Connect
    | Disconnect
    | HeartbeatTick(ok: bool)
    | ReportTick(ok: bool)
    | Deliver(frame: Frame)
    | ShutdownSignal
    | FlushSend(ok: bool)
    | FlushCheck
    | DrainDone
    | SendClose(ok: bool)

  /** What belongs to the connection goes with it. */
  function GoOffline(s: State): State {
    s.(mode := Offline, pending := map[], up := 1, down := 1)
  }

  /** Numbers and writes one frame. A failed write may or may not have reached the other side. */
  function SendSigned(s: State, id: MsgId, p: Pending, sent: Sent, ok: bool): State {
    if s.up + 1 > U64_MAX then GoOffline(s)
    else if !ok then GoOffline(s.(up := s.up + 1, wire := s.wire + [sent]))
    else s.(up := s.up + 1, wire := s.wire + [sent], pending := s.pending[id := p])
  }

  /** Sends the oldest report unless it is waiting for its answer; a flush looks at one only. */
  function SendQueued(s: State, ok: bool): State {
    if s.queue == [] || Durable(s.queue[0]) in s.pending then s
    else SendSigned(s, Durable(s.queue[0]), Report(s.up + 1, s.queue[0]), ReportSent(s.removed, s.queue[0]), ok)
  }

  predicate HeartbeatPending(s: State) {
    exists m <- s.pending :: s.pending[m].Heartbeat?
  }

  function SendHeartbeat(s: State, ok: bool): State {
    if HeartbeatPending(s) then s
    else SendSigned(s.(minted := s.minted + 1), Fresh(s.minted), Heartbeat(s.up + 1), HeartbeatSent, ok)
  }

  function RemoveId(queue: seq<nat>, id: nat): seq<nat> {
    if queue == [] then [] else if queue[0] == id then queue[1..] else [queue[0]] + RemoveId(queue[1..], id)
  }

  /** Removes an answered message, and its report from the queue. */
  function Settle(s: State, m: MsgId): Option<State>
    requires m in s.pending
  {
    var rest := s.(pending := s.pending - {m});
    match s.pending[m]
    case Report(_, id) =>
      if id in s.queue then Some(rest.(queue := RemoveId(s.queue, id), removed := s.removed + 1)) else None
    case _ => Some(rest)
  }

  /** Nothing when the frame is a protocol error, which ends the connection. */
  function HandleDownstream(s: State, f: Frame): Option<State> {
    if f.seqNo != s.down + 1 || f.seqNo > U64_MAX || !f.sameGeneration then None else
    var s := s.(down := f.seqNo);
    match f.message
    case Opened => None
    case Command => Some(s)
    case Ack(correlation, ackSeq) =>
      if correlation.None? || correlation.value !in s.pending then None
      else if s.pending[correlation.value].seqNo != ackSeq then None
      else Settle(s, correlation.value)
    case Error(correlation, actionRejected, retryable) =>
      if actionRejected && !retryable && correlation.Some? && correlation.value in s.pending
        && s.pending[correlation.value].Report?
      then Settle(s, correlation.value)
      else None
  }

  predicate IsCloseAck(s: State, f: Frame) {
    f.message.Ack? && f.message.correlation.Some? && f.message.correlation.value in s.pending
    && s.pending[f.message.correlation.value].Close?
  }

  function OnFrame(s: State, f: Frame): State {
    var r := HandleDownstream(s, f);
    if r.None? then GoOffline(s)
    else if s.mode == Closing && IsCloseAck(s, f) then r.value.(mode := Shutdown)
    else r.value
  }

  /** One step; an event that does not apply in the current mode changes nothing. */
  function Step(s: State, e: Event): State {
    match e
    case Enqueue(id) => if id in s.queue then s else s.(queue := s.queue + [id], log := s.log + [id])
    case Connect => if s.mode == Offline || s.mode == Shutdown
      then s.(mode := Running, pending := map[], up := 1, down := 1) else s
    case Disconnect => GoOffline(s)
    case HeartbeatTick(ok) => if s.mode == Running then SendHeartbeat(s, ok) else s
    case ReportTick(ok) => if s.mode == Running then SendQueued(s, ok) else s
    case Deliver(f) => if s.mode in {Running, Draining, Closing} then OnFrame(s, f) else s
    case ShutdownSignal => if s.mode == Running then s.(mode := Flushing) else s
    case FlushSend(ok) =>
      if s.mode != Flushing then s else
      var s1 := SendQueued(s, ok);
      if s1.mode == Flushing then s1.(mode := Checking) else s1
    case FlushCheck =>
      if s.mode != Checking then s
      else if s.pending == map[] && s.queue == [] then s.(mode := Drained)
      else s.(mode := Draining)
    case DrainDone => if s.mode == Draining && s.pending == map[] then s.(mode := Flushing) else s
    case SendClose(ok) =>
      if s.mode != Drained then s else
      var s1 := SendSigned(s.(minted := s.minted + 1), Fresh(s.minted), Close(s.up + 1), CloseSent, ok);
      if s1.mode == Drained then s1.(mode := Closing) else s1
  }

  function Run(s: State, events: seq<Event>): State {
    if events == [] then s else Step(Run(s, events[..|events| - 1]), events[|events| - 1])
  }

  // ---- What every step keeps ----

  ghost predicate DistinctIds(ids: seq<nat>) {
    forall i, j :: 0 <= i < j < |ids| ==> ids[i] != ids[j]
  }

  /** Only the oldest report can be waiting for an answer. */
  ghost predicate OldestInFlight(s: State) {
    forall m <- s.pending ::
      && (m.Fresh? ==> m.n < s.minted && !s.pending[m].Report?)
      && (m.Durable? ==> s.pending[m].Report? && s.pending[m].id == m.n && s.queue != [] && s.queue[0] == m.n)
  }

  /** The positions of the reports sent so far. */
  function Positions(wire: seq<Sent>): seq<nat> {
    if wire == [] then [] else
    var last := wire[|wire| - 1];
    Positions(wire[..|wire| - 1]) + if last.ReportSent? then [last.index] else []
  }

  /** Reports go out in order of enqueueing, each any number of times in a row, none skipped. */
  ghost predicate Stutters(positions: seq<nat>) {
    && (positions != [] ==> positions[0] == 0)
    && (forall j :: 0 < j < |positions| ==> positions[j - 1] <= positions[j] <= positions[j - 1] + 1)
  }

  ghost predicate History(s: State) {
    && s.removed <= |s.log| && s.queue == s.log[s.removed..]
    && (forall x <- s.wire :: x.ReportSent? ==> x.index < |s.log| && s.log[x.index] == x.id)
    && var positions := Positions(s.wire);
       && Stutters(positions)
       && (positions == [] ==> s.removed == 0)
       && (positions != [] ==> positions[|positions| - 1] == s.removed || positions[|positions| - 1] + 1 == s.removed)
       && ((exists m <- s.pending :: s.pending[m].Report?) ==>
            positions != [] && positions[|positions| - 1] == s.removed)
  }

  /** At most one heartbeat is waiting for its answer. */
  ghost predicate OneHeartbeat(s: State) {
    forall m, n :: m in s.pending && n in s.pending && s.pending[m].Heartbeat? && s.pending[n].Heartbeat? ==> m == n
  }

  ghost predicate Inv(s: State) {
    && DistinctIds(s.queue) && OldestInFlight(s) && OneHeartbeat(s) && History(s)
    && (s.mode == Drained ==> s.pending == map[])
  }
}
