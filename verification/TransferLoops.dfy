/** The composed steps are the two loops: whatever interleaving a run takes, each party has behaved
    as its own loop does on exactly the frames the other one sent. */
module TransferLoops {
  import opened Base
  import opened Cas
  import opened Source
  import opened Transfer
  import opened TargetLoop
  import opened TransferTheorem

  /** Reading `read` takes a target from `t0` to `t`, sending `sent`, whatever comes afterwards. */
  ghost predicate Follows(c: Session, t0: Target, read: seq<Frame>, t: Target, sent: seq<Frame>)
    requires WellPlaced(c, t0) && WellPlaced(c, t)
  {
    forall w, z: seq<Frame> {:trigger Drive(c, t0, w), Drive(c, t, z)} ::
      w == read + z ==> Drive(c, t0, w) == After(sent, Drive(c, t, z))
  }

  lemma FollowsNow(c: Session, t: Target)
    requires WellPlaced(c, t)
    ensures Follows(c, t, [], t, [])
  {
    hide Drive;
    forall w, z: seq<Frame> | w == [] + z ensures Drive(c, t, w) == After([], Drive(c, t, z)) {
      assert w == z;
      assert [] + Drive(c, t, z).1 == Drive(c, t, z).1;
    }
  }

  lemma FollowsLocal(c: Session, t0: Target, read: seq<Frame>, t: Target, sent: seq<Frame>)
    requires WellPlaced(c, t0) && WellPlaced(c, t) && Follows(c, t0, read, t, sent)
    requires t.phase.Begin? || t.phase.Fetch?
    ensures var (t', more) := Local(c, t);
            WellPlaced(c, t') && Follows(c, t0, read, t', sent + more)
  {
    hide Local;
    LocalStaysPlaced(c, t);
    var (t', more) := Local(c, t);
    forall w, z: seq<Frame> | w == read + z ensures Drive(c, t0, w) == After(sent + more, Drive(c, t', z)) {
      assert Drive(c, t0, w) == After(sent, Drive(c, t, z));
      assert sent + (more + Drive(c, t', z).1) == sent + more + Drive(c, t', z).1;
    }
  }

  lemma FollowsReceive(c: Session, t0: Target, read: seq<Frame>, t: Target, sent: seq<Frame>, f: Frame)
    requires WellPlaced(c, t0) && WellPlaced(c, t) && Follows(c, t0, read, t, sent) && Awaits(t)
    ensures var (t', more) := Receive(c, t, f);
            WellPlaced(c, t') && Follows(c, t0, read + [f], t', sent + more)
  {
    hide Receive;
    ReceiveStaysPlaced(c, t, f);
    var (t', more) := Receive(c, t, f);
    forall w, z: seq<Frame> | w == read + [f] + z ensures Drive(c, t0, w) == After(sent + more, Drive(c, t', z)) {
      assert w == read + ([f] + z);
      assert Drive(c, t0, w) == After(sent, Drive(c, t, [f] + z));
      assert ([f] + z)[1..] == z;
      assert sent + (more + Drive(c, t', z).1) == sent + more + Drive(c, t', z).1;
    }
  }

  /** The target has read `read` and sent `done + y.toSource`, and the source, having read `done`, has
      sent `read + y.toTarget`. */
  ghost predicate Explains(c: Session, cas: Store, y: Sys, read: seq<Frame>, done: seq<Frame>) {
    && WellPlaced(c, y.t) && Follows(c, Start(cas), read, y.t, done + y.toSource)
    && Feed(c.b, START, done) == (y.s, read + y.toTarget)
  }

  lemma TargetStepExplained(c: Session, cas: Store, y: Sys, read: seq<Frame>, done: seq<Frame>)
    returns (read': seq<Frame>)
    requires Explains(c, cas, y, read, done) && TargetEnabled(c, y)
    ensures Explains(c, cas, TargetStep(c, y), read', done)
  {
    hide Follows, Local, Receive, Feed;
    var sent := done + y.toSource;
    if Awaits(y.t) {
      var more := Receive(c, y.t, y.toTarget[0]).1;
      FollowsReceive(c, Start(cas), read, y.t, sent, y.toTarget[0]);
      read' := read + [y.toTarget[0]];
      assert sent + more == done + (y.toSource + more);
      assert read + y.toTarget == read' + y.toTarget[1..];
    } else {
      var more := Local(c, y.t).1;
      FollowsLocal(c, Start(cas), read, y.t, sent);
      read' := read;
      assert sent + more == done + (y.toSource + more);
    }
  }

  lemma SourceStepExplained(c: Session, cas: Store, y: Sys, read: seq<Frame>, done: seq<Frame>)
    requires Explains(c, cas, y, read, done) && SourceEnabled(y)
    ensures Explains(c, cas, SourceStep(c, y), read, done + [y.toSource[0]])
  {
    hide Follows, Step;
    var f := y.toSource[0];
    var sent := Step(c.b, y.s, f).1;
    assert (done + [f])[..|done|] == done;
    assert read + y.toTarget + sent == read + (y.toTarget + sent);
    assert done + y.toSource == done + [f] + y.toSource[1..];
  }

  lemma {:induction false} RunExplained(c: Session, cas: Store, run: seq<Sys>)
    returns (read: seq<Frame>, done: seq<Frame>)
    requires IsRun(c, cas, run)
    ensures Explains(c, cas, run[|run| - 1], read, done)
  {
    hide Follows, TargetStep, SourceStep;
    if |run| == 1 {
      read, done := [], [];
      FollowsNow(c, Start(cas));
      FeedEmpty(c.b, START);
      var none: seq<Frame> := [];
      assert none + none == none;
    } else {
      var prefix := run[..|run| - 1];
      read, done := RunExplained(c, cas, prefix);
      var y := prefix[|prefix| - 1];
      assert Next(c, run[|run| - 2], run[|run| - 1]);
      if TargetEnabled(c, y) && run[|run| - 1] == TargetStep(c, y) {
        read := TargetStepExplained(c, cas, y, read, done);
      } else {
        SourceStepExplained(c, cas, y, read, done);
        done := done + [y.toSource[0]];
      }
    }
  }

  /** A run that has come to its end is a conversation of the two loops: on what the source sent, the
      target's loop closes with one receipt per object, and on what the target sent, either source
      loop answers just that and returns success. */
  lemma FinishedRunIsBothLoops(c: Session, cas: Store, run: seq<Sys>)
    returns (toTarget: seq<Frame>, toSource: seq<Frame>)
    requires Ready(c, cas) && IsRun(c, cas, run) && !Enabled(c, run[|run| - 1])
    ensures PendingRun(c.b, toSource) == AwaitRun(c.b, toSource) == Served(toTarget, Succeeded)
    ensures Drive(c, Start(cas), toTarget) == (run[|run| - 1].t, toSource)
    ensures run[|run| - 1].t.phase.Done? && run[|run| - 1].t.receipts == c.b.objects
  {
    hide Enabled, Inv, Feed, TargetReady, NeedFrom, Published, IsRun;
    RunShape(c, cas, run);
    var y := run[|run| - 1];
    EveryRunDelivers(c, cas, run);
    var done;
    toTarget, done := RunExplained(c, cas, run);
    FinishedIsDrained(c, cas, run);
    assert toTarget + y.toTarget == toTarget && toTarget + [] == toTarget;
    toSource := done + y.toSource;
    FeedAppend(c.b, START, done, y.toSource);
    FeedStopped(c.b, y.s, y.toSource);
    SourcesAgree(c.b, toSource);
    assert Drive(c, Start(cas), toTarget + []) == After(toSource, Drive(c, y.t, []));
    assert toTarget + [] == toTarget && toSource + [] == toSource;
  }

  lemma FinishedIsDrained(c: Session, cas: Store, run: seq<Sys>)
    requires Ready(c, cas) && IsRun(c, cas, run) && !Enabled(c, run[|run| - 1])
    ensures run[|run| - 1].toTarget == []
  {
    hide Next, TargetReady, NeedFrom, Published;
    EveryRunDelivers(c, cas, run);
    RunKeepsInv(c, cas, run);
  }
}
