/** Ordering and exactly-answered removal, over every run of the outbox. */
module OutboxProof {
  import opened Base
  import opened Outbox

  lemma PositionsAppend(wire: seq<Sent>, x: Sent)
    ensures Positions(wire + [x]) == Positions(wire) + if x.ReportSent? then [x.index] else []
  {
    assert (wire + [x])[..|wire|] == wire;
  }

  lemma OfflineKeepsInv(s: State)
    requires Inv(s)
    ensures Inv(GoOffline(s))
  {
  }

  lemma SendOtherKeepsHistory(s: State, x: Sent)
    requires History(s) && !x.ReportSent?
    ensures History(s.(wire := s.wire + [x]))
  {
    PositionsAppend(s.wire, x);
    assert Positions(s.wire) + [] == Positions(s.wire);
  }

  lemma SendReportKeepsHistory(s: State)
    requires History(s) && s.queue != []
    ensures History(s.(wire := s.wire + [ReportSent(s.removed, s.queue[0])]))
    ensures var p := Positions(s.wire + [ReportSent(s.removed, s.queue[0])]);
            p != [] && p[|p| - 1] == s.removed
  {
    var x := ReportSent(s.removed, s.queue[0]);
    PositionsAppend(s.wire, x);
    assert s.log[s.removed] == s.queue[0];
  }

  lemma SendQueuedKeepsInv(s: State, ok: bool)
    requires Inv(s) && s.mode != Drained
    ensures Inv(SendQueued(s, ok))
  {
    hide Positions, Stutters;
    if s.queue != [] && Durable(s.queue[0]) !in s.pending && s.up + 1 <= U64_MAX {
      SendReportKeepsHistory(s);
    }
  }

  lemma SendFreshKeepsInv(s: State, p: Pending, x: Sent, ok: bool)
    requires Inv(s) && s.mode != Drained && !p.Report? && !x.ReportSent?
    requires p.Heartbeat? ==> !HeartbeatPending(s)
    ensures Inv(SendSigned(s.(minted := s.minted + 1), Fresh(s.minted), p, x, ok))
  {
    hide Positions, Stutters;
    SendOtherKeepsHistory(s, x);
  }

  lemma EnqueueKeepsInv(s: State, id: nat)
    requires Inv(s)
    ensures Inv(Step(s, Enqueue(id)))
  {
    hide Positions, Stutters;
    if id !in s.queue {
      assert (s.log + [id])[s.removed..] == s.queue + [id];
    }
  }

  lemma FrontRemoval(s: State, m: MsgId)
    requires Inv(s) && m in s.pending && s.pending[m].Report?
    ensures s.queue != [] && s.pending[m].id == s.queue[0] && m == Durable(s.queue[0])
    ensures Settle(s, m) == Some(s.(pending := s.pending - {m}, queue := s.queue[1..], removed := s.removed + 1))
    ensures forall k <- s.pending - {m} :: !s.pending[k].Report?
  {
    hide History;
  }

  lemma SettleKeepsInv(s: State, m: MsgId)
    requires Inv(s) && m in s.pending
    ensures Settle(s, m).Some? && Inv(Settle(s, m).value)
  {
    hide Positions, Stutters, RemoveId;
    if s.pending[m].Report? {
      FrontRemoval(s, m);
      assert s.log[s.removed + 1..] == s.queue[1..];
      assert forall k <- s.pending - {m} :: k.Durable? ==> k == m;
    }
  }

  /** The queue always still holds what an answer asks to remove. */
  lemma AnsweredReportIsQueued(s: State, f: Frame)
    requires Inv(s)
    ensures HandleDownstream(s, f).Some? ==> Inv(HandleDownstream(s, f).value)
    ensures HandleDownstream(s, f).None? <==>
              || f.seqNo != s.down + 1 || f.seqNo > U64_MAX || !f.sameGeneration || f.message.Opened?
              || (f.message.Ack? && (f.message.correlation.None? || f.message.correlation.value !in s.pending
                                     || s.pending[f.message.correlation.value].seqNo != f.message.ackSeq))
              || (f.message.Error? && !(f.message.actionRejected && !f.message.retryable && f.message.correlation.Some?
                                        && f.message.correlation.value in s.pending
                                        && s.pending[f.message.correlation.value].Report?))
  {
    hide Settle, History;
    var s1 := s.(down := f.seqNo);
    DownKeepsInv(s, f.seqNo);
    if f.message.Ack? || f.message.Error? {
      if f.message.correlation.Some? && f.message.correlation.value in s.pending {
        SettleKeepsInv(s1, f.message.correlation.value);
      }
    }
  }

  lemma DownKeepsInv(s: State, down: nat)
    requires Inv(s)
    ensures Inv(s.(down := down))
  {
  }

  lemma DeliverKeepsInv(s: State, f: Frame)
    requires Inv(s) && s.mode != Drained
    ensures Inv(OnFrame(s, f))
  {
    hide HandleDownstream, History, OldestInFlight;
    AnsweredReportIsQueued(s, f);
    OfflineKeepsInv(s);
    if HandleDownstream(s, f).Some? {
      ModeKeepsInv(HandleDownstream(s, f).value, Shutdown);
    }
  }

  lemma ModeKeepsInv(s: State, mode: Mode)
    requires Inv(s) && (mode == Drained ==> s.pending == map[])
    ensures Inv(s.(mode := mode))
  {
  }

  lemma ConnectKeepsInv(s: State)
    requires Inv(s)
    ensures Inv(Step(s, Connect))
  {
  }

  lemma StepKeepsInv(s: State, e: Event)
    requires Inv(s)
    ensures Inv(Step(s, e))
  {
    hide Inv, OnFrame, SendQueued, SendSigned, GoOffline;
    PendingWhenDrained(s);
    match e {
      case Enqueue(id) => EnqueueKeepsInv(s, id);
      case Connect => ConnectKeepsInv(s);
      case Disconnect => OfflineKeepsInv(s);
      case HeartbeatTick(ok) =>
        if s.mode == Running && !HeartbeatPending(s) {
          SendFreshKeepsInv(s, Heartbeat(s.up + 1), HeartbeatSent, ok);
        }
      case ReportTick(ok) =>
        if s.mode == Running {
          SendQueuedKeepsInv(s, ok);
        }
      case Deliver(f) =>
        if s.mode in {Running, Draining, Closing} {
          DeliverKeepsInv(s, f);
        }
      case ShutdownSignal => ModeKeepsInv(s, Flushing);
      case FlushSend(ok) =>
        if s.mode == Flushing {
          SendQueuedKeepsInv(s, ok);
          ModeKeepsInv(SendQueued(s, ok), Checking);
        }
      case FlushCheck =>
        ModeKeepsInv(s, Draining);
        if s.pending == map[] {
          ModeKeepsInv(s, Drained);
        }
      case DrainDone => ModeKeepsInv(s, Flushing);
      case SendClose(ok) =>
        if s.mode == Drained {
          CloseKeepsInv(s, ok);
        }
    }
  }

  lemma PendingWhenDrained(s: State)
    requires Inv(s)
    ensures s.mode == Drained ==> s.pending == map[]
  {
  }

  lemma CloseKeepsInv(s: State, ok: bool)
    requires Inv(s) && s.mode == Drained
    ensures Inv(Step(s, SendClose(ok)))
  {
    hide Positions, Stutters;
    SendOtherKeepsHistory(s, CloseSent);
  }

  lemma {:induction false} RunKeepsInv(events: seq<Event>)
    ensures Inv(Run(START, events))
  {
    hide Step;
    if events != [] {
      RunKeepsInv(events[..|events| - 1]);
      StepKeepsInv(Run(START, events[..|events| - 1]), events[|events| - 1]);
    }
  }

  // ---- The promises ----

  /** Over any run with any disconnects, what went onto the wire is a stuttering of the order of
      enqueueing, and the queue holds exactly the reports that have not left. */
  lemma WireStuttersInOrder(events: seq<Event>)
    ensures var s := Run(START, events);
            && Stutters(Positions(s.wire))
            && (forall x <- s.wire :: x.ReportSent? ==> x.index < |s.log| && s.log[x.index] == x.id)
            && s.removed <= |s.log| && s.queue == s.log[s.removed..]
            && (forall p <- Positions(s.wire) :: p <= s.removed)
  {
    RunKeepsInv(events);
    var s := Run(START, events);
    hide Run, OldestInFlight, DistinctIds;
    assert History(s);
    LastIsLargest(Positions(s.wire));
  }

  lemma {:induction false} LastIsLargest(positions: seq<nat>)
    requires Stutters(positions)
    ensures forall p <- positions :: p <= positions[|positions| - 1]
  {
    if |positions| > 1 {
      var init := positions[..|positions| - 1];
      assert positions == init + [positions[|positions| - 1]];
      LastIsLargest(init);
    }
  }

  /** At most one report is waiting for its answer, and it is the oldest one; at most one heartbeat is. */
  lemma AtMostOneInFlight(events: seq<Event>, m: MsgId, n: MsgId)
    requires var s := Run(START, events);
             m in s.pending && n in s.pending
    ensures var s := Run(START, events);
            && (s.pending[m].Report? && s.pending[n].Report? ==> m == n && s.queue != [] && m == Durable(s.queue[0]))
            && (s.pending[m].Heartbeat? && s.pending[n].Heartbeat? ==> m == n)
  {
    RunKeepsInv(events);
  }

  /** A report is sent only while none is waiting. */
  lemma SendsOnlyWhenNoneInFlight(events: seq<Event>, e: Event)
    requires Positions(Step(Run(START, events), e).wire) != Positions(Run(START, events).wire)
    ensures var s := Run(START, events);
            s.mode in {Running, Flushing} && forall m <- s.pending :: !s.pending[m].Report?
  {
    hide Run, Positions;
    RunKeepsInv(events);
    var s := Run(START, events);
    forall x: Sent | !x.ReportSent? ensures Positions(s.wire + [x]) == Positions(s.wire) {
      PositionsAppend(s.wire, x);
      assert Positions(s.wire) + [] == Positions(s.wire);
    }
    if e.Deliver? {
      HandlingSendsNothing(s, e.frame);
    } else {
      QuietSteps(s, e);
    }
  }

  lemma QuietSteps(s: State, e: Event)
    requires !e.Deliver?
    ensures Step(s, e).wire == s.wire || (exists x: Sent :: !x.ReportSent? && Step(s, e).wire == s.wire + [x])
            || (s.mode in {Running, Flushing} && s.queue != [] && Durable(s.queue[0]) !in s.pending)
  {
    hide HeartbeatPending;
    if e.HeartbeatTick? {
      assert SendHeartbeat(s, e.ok).wire == s.wire || SendHeartbeat(s, e.ok).wire == s.wire + [HeartbeatSent];
    } else if e.SendClose? {
      assert Step(s, e).wire == s.wire || Step(s, e).wire == s.wire + [CloseSent];
    }
  }

  ghost predicate Increasing(positions: seq<nat>) {
    forall i, j :: 0 <= i < j < |positions| ==> positions[i] < positions[j]
  }

  /** `sent` are the positions sent since some moment without a new connection: increasing, and the last
      one has left the queue, is waiting for its answer, or cannot be followed by another. */
  ghost predicate OncePerConnection(s: State, sent: seq<nat>) {
    && Increasing(sent)
    && (sent != [] ==>
          || sent[|sent| - 1] < s.removed
          || (sent[|sent| - 1] == s.removed &&
              (s.mode in {Offline, Shutdown} || (s.queue != [] && Durable(s.queue[0]) in s.pending))))
  }

  /** What a step adds to the positions sent. */
  function NewPosition(s: State, e: Event): seq<nat> {
    if (e.ReportTick? && s.mode == Running) || (e.FlushSend? && s.mode == Flushing) then
      if s.queue == [] || Durable(s.queue[0]) in s.pending || s.up + 1 > U64_MAX then [] else [s.removed]
    else []
  }

  lemma StepPositions(s: State, e: Event)
    ensures Positions(Step(s, e).wire) == Positions(s.wire) + NewPosition(s, e)
  {
    hide Positions, HeartbeatPending, HandleDownstream;
    assert Positions(s.wire) + [] == Positions(s.wire);
    forall x: Sent ensures Positions(s.wire + [x]) == Positions(s.wire) + if x.ReportSent? then [x.index] else [] {
      PositionsAppend(s.wire, x);
    }
    if e.Deliver? {
      HandlingSendsNothing(s, e.frame);
    }
  }

  lemma StepOncePerConnection(s: State, e: Event, sent: seq<nat>)
    requires Inv(s) && OncePerConnection(s, sent) && !e.Connect?
    ensures OncePerConnection(Step(s, e), sent + NewPosition(s, e))
  {
    hide Inv, HeartbeatPending, OnFrame;
    assert sent + [] == sent;
    if NewPosition(s, e) != [] {
      SendOncePerConnection(s, e, sent);
    } else if e.Deliver? {
      if s.mode in {Running, Draining, Closing} {
        DeliverOncePerConnection(s, e.frame, sent);
      }
    }
  }

  lemma SendOncePerConnection(s: State, e: Event, sent: seq<nat>)
    requires OncePerConnection(s, sent) && NewPosition(s, e) != []
    ensures OncePerConnection(Step(s, e), sent + NewPosition(s, e))
  {
    hide HeartbeatPending, OnFrame;
    assert sent != [] ==> sent[|sent| - 1] < s.removed;
    assert Increasing(sent + [s.removed]);
  }

  lemma DeliverOncePerConnection(s: State, f: Frame, sent: seq<nat>)
    requires Inv(s) && OncePerConnection(s, sent) && s.mode in {Running, Draining, Closing}
    ensures OncePerConnection(OnFrame(s, f), sent)
  {
    hide History;
    AnsweredReportIsQueued(s, f);
    if HandleDownstream(s, f).Some? && (f.message.Ack? || f.message.Error?) {
      DownKeepsInv(s, f.seqNo);
      var m := f.message.correlation.value;
      if s.pending[m].Report? {
        FrontRemoval(s.(down := f.seqNo), m);
      }
    }
  }

  lemma {:induction false} SegmentOncePerConnection(events: seq<Event>, n: nat) returns (sent: seq<nat>)
    requires n <= |events| && forall i :: n <= i < |events| ==> !events[i].Connect?
    ensures Positions(Run(START, events).wire) == Positions(Run(START, events[..n]).wire) + sent
    ensures OncePerConnection(Run(START, events), sent)
  {
    hide Step, Positions;
    if n == |events| {
      sent := [];
      assert events[..n] == events;
      assert Positions(Run(START, events).wire) + [] == Positions(Run(START, events).wire);
    } else {
      var init, e := events[..|events| - 1], events[|events| - 1];
      var s := Run(START, init);
      var before := SegmentOncePerConnection(init, n);
      assert init[..n] == events[..n];
      RunKeepsInv(init);
      StepPositions(s, e);
      StepOncePerConnection(s, e, before);
      sent := before + NewPosition(s, e);
      var start := Positions(Run(START, events[..n]).wire);
      assert start + before + NewPosition(s, e) == start + sent;
    }
  }

  /** Between two connects the positions of the reports sent are strictly increasing: a connection carries
      each report at most once, and repeats come only from reconnecting. */
  lemma OneConnectionCarriesEachReportOnce(events: seq<Event>, n: nat) returns (sent: seq<nat>)
    requires n <= |events| && forall i :: n <= i < |events| ==> !events[i].Connect?
    ensures Positions(Run(START, events).wire) == Positions(Run(START, events[..n]).wire) + sent && Increasing(sent)
  {
    sent := SegmentOncePerConnection(events, n);
  }

  /** A report leaves the queue only from the front, and only when the connection that sent it
      delivers, in sequence, an acknowledgement carrying its own ID and sequence number or a final
      rejection carrying its ID. */
  lemma LeavesOnlyWhenAnswered(events: seq<Event>, e: Event)
    ensures var s := Run(START, events);
            var s' := Step(s, e);
            || s'.queue == s.queue
            || (e.Enqueue? && s'.queue == s.queue + [e.id])
            || (&& s.queue != [] && s'.queue == s.queue[1..] && e.Deliver? && Answers(s, e.frame))
  {
    RunKeepsInv(events);
    QueueChange(Run(START, events), e);
  }

  /** A valid answer on this connection to the report at the front. */
  ghost predicate Answers(s: State, f: Frame)
    requires s.queue != []
  {
    var m := Durable(s.queue[0]);
    && s.mode in {Running, Draining, Closing} && f.seqNo == s.down + 1 && f.sameGeneration
    && m in s.pending && s.pending[m].Report? && s.pending[m].id == s.queue[0]
    && (f.message == Ack(Some(m), s.pending[m].seqNo)
        || (f.message.Error? && f.message.correlation == Some(m) && f.message.actionRejected && !f.message.retryable))
  }

  lemma QueueChange(s: State, e: Event)
    requires Inv(s)
    ensures var s' := Step(s, e);
            || s'.queue == s.queue
            || (e.Enqueue? && s'.queue == s.queue + [e.id])
            || (&& s.queue != [] && s'.queue == s.queue[1..] && e.Deliver? && Answers(s, e.frame))
  {
    if e.Deliver? && s.mode in {Running, Draining, Closing} && HandleDownstream(s, e.frame).Some?
       && (e.frame.message.Ack? || e.frame.message.Error?) {
      AnsweredChangesFront(s, e.frame);
    }
  }

  lemma AnsweredChangesFront(s: State, f: Frame)
    requires Inv(s) && HandleDownstream(s, f).Some? && (f.message.Ack? || f.message.Error?)
             && s.mode in {Running, Draining, Closing}
    ensures var s' := HandleDownstream(s, f).value;
            s'.queue == s.queue || (s.queue != [] && s'.queue == s.queue[1..] && Answers(s, f))
  {
    hide History;
    AnsweredReportIsQueued(s, f);
    var m := f.message.correlation.value;
    DownKeepsInv(s, f.seqNo);
    if s.pending[m].Report? {
      FrontRemoval(s.(down := f.seqNo), m);
    }
  }

  // ---- Close ----

  function Closes(wire: seq<Sent>): nat {
    if wire == [] then 0 else Closes(wire[..|wire| - 1]) + if wire[|wire| - 1].CloseSent? then 1 else 0
  }

  lemma ClosesAppend(wire: seq<Sent>, x: Sent)
    ensures Closes(wire + [x]) == Closes(wire) + if x.CloseSent? then 1 else 0
  {
    assert (wire + [x])[..|wire|] == wire;
  }

  lemma CloseNeedsDrained(s: State, e: Event)
    requires Closes(Step(s, e).wire) != Closes(s.wire)
    ensures e.SendClose? && s.mode == Drained
  {
    forall x: Sent ensures Closes(s.wire + [x]) == Closes(s.wire) + if x.CloseSent? then 1 else 0 {
      ClosesAppend(s.wire, x);
    }
    assert Step(s, e).wire == s.wire
        || exists x: Sent :: Step(s, e).wire == s.wire + [x]
             && (x.CloseSent? ==> e.SendClose? && s.mode == Drained) by {
      WireGrowsByOne(s, e);
    }
  }

  lemma WireGrowsByOne(s: State, e: Event)
    ensures Step(s, e).wire == s.wire
            || exists x: Sent :: Step(s, e).wire == s.wire + [x] && (x.CloseSent? ==> e.SendClose? && s.mode == Drained)
  {
    hide HandleDownstream, HeartbeatPending;
    if e.Deliver? {
      HandlingSendsNothing(s, e.frame);
    } else if e.ReportTick? || e.FlushSend? {
      if s.queue != [] {
        assert SendQueued(s, e.ok).wire == s.wire
            || SendQueued(s, e.ok).wire == s.wire + [ReportSent(s.removed, s.queue[0])];
      }
    } else if e.HeartbeatTick? {
      assert SendHeartbeat(s, e.ok).wire == s.wire || SendHeartbeat(s, e.ok).wire == s.wire + [HeartbeatSent];
    } else if e.SendClose? {
      assert Step(s, e).wire == s.wire || Step(s, e).wire == s.wire + [CloseSent];
    }
  }

  lemma HandlingSendsNothing(s: State, f: Frame)
    ensures HandleDownstream(s, f).Some? ==>
            HandleDownstream(s, f).value.wire == s.wire && HandleDownstream(s, f).value.mode == s.mode
  {
  }

  /** Nothing but new reports being queued happens between the check that found everything settled and
      the close it allows. */
  ghost predicate SawEmpty(events: seq<Event>, j: nat)
    requires j < |events|
  {
    var s := Run(START, events[..j]);
    && events[j].FlushCheck? && s.mode == Checking && s.pending == map[] && s.queue == []
    && forall i :: j < i < |events| ==> events[i].Enqueue? || Run(START, events[..i + 1]) == Run(START, events[..i])
  }

  lemma {:induction false} DrainedSawEmpty(events: seq<Event>) returns (j: nat)
    requires Run(START, events).mode == Drained
    ensures j < |events| && SawEmpty(events, j)
  {
    hide Step;
    var init, last := events[..|events| - 1], events[|events| - 1];
    var s := Run(START, init);
    DrainedStep(s, last);
    if s.mode == Drained {
      j := DrainedSawEmpty(init);
      assert events[..j] == init[..j];
      forall i | j < i < |events| ensures events[i].Enqueue? || Run(START, events[..i + 1]) == Run(START, events[..i]) {
        if i < |events| - 1 {
          assert events[..i + 1] == init[..i + 1] && events[..i] == init[..i];
        } else {
          assert events[..i + 1] == events && events[..i] == init;
        }
      }
    } else {
      j := |events| - 1;
    }
  }

  lemma DrainedStep(s: State, e: Event)
    requires Step(s, e).mode == Drained
    ensures (s.mode == Drained && (e.Enqueue? || Step(s, e) == s))
            || (e.FlushCheck? && s.mode == Checking && s.pending == map[] && s.queue == [])
  {
    hide HeartbeatPending;
    if e.Deliver? {
      HandlingSendsNothing(s, e.frame);
    }
  }

  /** Close goes out only after a flush that saw both the queue and the pending answers empty. */
  lemma CloseOnlyAfterEmptyFlush(events: seq<Event>, e: Event) returns (j: nat)
    requires Closes(Step(Run(START, events), e).wire) != Closes(Run(START, events).wire)
    ensures j < |events| && SawEmpty(events, j)
  {
    CloseNeedsDrained(Run(START, events), e);
    j := DrainedSawEmpty(events);
  }
}
