/** The channel loop's operations, in place on the queue and the pending answers. */
module OutboxChannel {
  import opened Base
  import opened Outbox

  lemma RunMore(s: State, events: seq<Event>, e: Event)
    ensures Run(s, events + [e]) == Step(Run(s, events), e)
  {
    assert (events + [e])[..|events|] == events;
  }

  class Channel {
    var queue: seq<nat>
    var pending: map<MsgId, Pending>
    var up: nat
    var down: nat
    var minted: nat
    var mode: Mode
    ghost var log: seq<nat>
    ghost var removed: nat
    ghost var wire: seq<Sent>

    ghost function View(): State
      reads this
    {
      State(queue, pending, up, down, minted, mode, log, removed, wire)
    }

    constructor ()
      ensures View() == START
    {
      queue, pending, up, down, minted, mode := [], map[], 1, 1, 0, Offline;
      log, removed, wire := [], 0, [];
    }

    /** Idempotent by ID. */
    method EnqueueReport(id: nat)
      modifies this
      ensures View() == Step(old(View()), Enqueue(id))
    {
      if id !in queue {
        queue := queue + [id];
        log := log + [id];
      }
    }

    method Drop()
      modifies this
      ensures View() == GoOffline(old(View()))
    {
      mode, pending, up, down := Offline, map[], 1, 1;
    }

    method Open()
      modifies this
      ensures View() == Step(old(View()), Connect)
    {
      if mode == Offline || mode == Shutdown {
        mode, pending, up, down := Running, map[], 1, 1;
      }
    }

    method Send(id: MsgId, p: Pending, ghost sent: Sent, ok: bool)
      modifies this
      ensures View() == SendSigned(old(View()), id, p, sent, ok)
    {
      if up + 1 > U64_MAX {
        Drop();
        return;
      }
      up := up + 1;
      wire := wire + [sent];
      if !ok {
        Drop();
        return;
      }
      pending := pending[id := p];
    }

    method SendQueuedReports(ok: bool)
      modifies this
      ensures View() == SendQueued(old(View()), ok)
    {
      if queue == [] {
        return;
      }
      var oldest := queue[0];
      if Durable(oldest) in pending {
        return;
      }
      Send(Durable(oldest), Report(up + 1, oldest), ReportSent(removed, oldest), ok);
    }

    method Beat(ok: bool)
      modifies this
      ensures View() == SendHeartbeat(old(View()), ok)
    {
      if HeartbeatPending(State(queue, pending, up, down, minted, mode, [], 0, [])) {
        return;
      }
      var id := Fresh(minted);
      minted := minted + 1;
      Send(id, Heartbeat(up + 1), HeartbeatSent, ok);
    }

    /** Removes the answered message and, for a report, its queue entry. */
    method SettleAnswer(m: MsgId) returns (ok: bool)
      requires m in pending
      modifies this
      ensures ok <==> Settle(old(View()), m).Some?
      ensures View() == if ok then Settle(old(View()), m).value else old(View())
    {
      var answered := pending[m];
      match answered {
        case Report(_, id) =>
          if id !in queue {
            return false;
          }
          queue := RemoveId(queue, id);
          removed := removed + 1;
        case _ =>
      }
      pending := pending - {m};
      ok := true;
    }

    method Handle(f: Frame) returns (ok: bool)
      modifies this
      ensures ok <==> HandleDownstream(old(View()), f).Some?
      ensures ok ==> View() == HandleDownstream(old(View()), f).value
      ensures !ok ==> GoOffline(View()) == GoOffline(old(View()))
    {
      if f.seqNo != down + 1 || f.seqNo > U64_MAX || !f.sameGeneration {
        return false;
      }
      down := f.seqNo;
      match f.message {
        case Opened =>
          ok := false;
        case Command =>
          ok := true;
        case Ack(correlation, ackSeq) =>
          if correlation.None? || correlation.value !in pending || pending[correlation.value].seqNo != ackSeq {
            return false;
          }
          ok := SettleAnswer(correlation.value);
        case Error(correlation, actionRejected, retryable) =>
          if actionRejected && !retryable && correlation.Some? && correlation.value in pending
            && pending[correlation.value].Report? {
            ok := SettleAnswer(correlation.value);
          } else {
            ok := false;
          }
      }
    }

    /** Takes one frame off the channel; a protocol error ends the connection. */
    method Receive(f: Frame)
      modifies this
      ensures View() == OnFrame(old(View()), f)
    {
      var closeAck := f.message.Ack? && f.message.correlation.Some? && f.message.correlation.value in pending
                      && pending[f.message.correlation.value].Close?;
      var closing := mode == Closing;
      var ok := Handle(f);
      if !ok {
        Drop();
      } else if closing && closeAck {
        mode := Shutdown;
      }
    }

    /** Receives until nothing is pending; a channel that ends first is lost. */
    method DrainPendingAcks(input: seq<Frame>, from: nat) returns (pos: nat, ghost events: seq<Event>)
      requires mode == Draining && from <= |input|
      modifies this
      ensures View() == Run(old(View()), events) && from <= pos <= |input|
      ensures mode == Flushing || mode == Offline
      ensures old(pending) != map[] && mode == Flushing ==> from < pos
    {
      hide OnFrame;
      pos, events := from, [];
      ghost var start := View();
      while pending != map[] && mode == Draining
        invariant View() == Run(start, events) && from <= pos <= |input|
        invariant mode == Draining || mode == Offline
        invariant pos == from && mode == Draining ==> pending == start.pending
        decreases |input| - pos, mode == Draining
      {
        if pos == |input| {
          RunMore(start, events, Disconnect);
          events := events + [Disconnect];
          Drop();
        } else {
          RunMore(start, events, Deliver(input[pos]));
          events := events + [Deliver(input[pos])];
          FrameModes(View(), input[pos]);
          Receive(input[pos]);
          pos := pos + 1;
        }
      }
      if mode == Draining {
        RunMore(start, events, DrainDone);
        events := events + [DrainDone];
        mode := Flushing;
      }
    }

    /** Sends and drains in turn until both the queue and the pending answers are empty. */
    method FlushOutboundReports(input: seq<Frame>, from: nat, writes: seq<bool>)
      returns (pos: nat, ghost events: seq<Event>)
      requires mode == Flushing && from <= |input|
      modifies this
      ensures View() == Run(old(View()), events) && from <= pos <= |input|
      ensures mode == Drained || mode == Offline
      ensures mode == Drained ==> queue == [] && pending == map[]
    {
      hide SendQueued, Step;
      pos, events := from, [];
      ghost var start := View();
      while mode == Flushing
        invariant View() == Run(start, events) && from <= pos <= |input|
        invariant mode == Flushing || mode == Drained || mode == Offline
        invariant mode == Drained ==> queue == [] && pending == map[]
        decreases |input| - pos, mode == Flushing
      {
        var ok := pos >= |writes| || writes[pos];
        RunMore(start, events, FlushSend(ok));
        events := events + [FlushSend(ok)];
        AfterSend(View(), ok);
        SendQueuedReports(ok);
        if mode == Flushing {
          mode := Checking;
          RunMore(start, events, FlushCheck);
          events := events + [FlushCheck];
          AfterCheck(View());
          if pending == map[] && queue == [] {
            mode := Drained;
          } else {
            mode := Draining;
            ghost var before, more := events, [];
            pos, more := DrainPendingAcks(input, pos);
            RunAppend(start, before, more);
            events := before + more;
          }
        }
      }
    }
  }

  lemma FrameModes(s: State, f: Frame)
    requires s.mode == Draining
    ensures Step(s, Deliver(f)) == OnFrame(s, f) && (OnFrame(s, f).mode == Draining || OnFrame(s, f).mode == Offline)
  {
  }

  lemma AfterSend(s: State, ok: bool)
    requires s.mode == Flushing
    ensures var s1 := SendQueued(s, ok);
            && (s1.mode == Flushing || s1.mode == Offline)
            && (s1.mode == Flushing && s1.queue != [] ==> s1.pending != map[])
            && Step(s, FlushSend(ok)) == if s1.mode == Flushing then s1.(mode := Checking) else s1
  {
    if s.queue != [] {
      assert SendQueued(s, ok).mode == Flushing ==> Durable(s.queue[0]) in SendQueued(s, ok).pending;
    }
  }

  lemma AfterCheck(s: State)
    requires s.mode == Checking
    ensures Step(s, FlushCheck) == s.(mode := if s.pending == map[] && s.queue == [] then Drained else Draining)
  {
  }

  lemma {:induction false} RunAppend(s: State, a: seq<Event>, b: seq<Event>)
    ensures Run(s, a + b) == Run(Run(s, a), b)
  {
    hide Step;
    if b == [] {
      assert a + b == a;
    } else {
      RunAppend(s, a, b[..|b| - 1]);
      assert (a + b)[..|a + b| - 1] == a + b[..|b| - 1];
    }
  }
}
