/** What holds of every interleaving of the two parties, over whole sessions and across crashes. */
module TransferTheorem {
  import opened Base
  import opened Cas
  import opened Source
  import opened Transfer
  import TransferProof

  /** What the parties agreed on before the first frame. */
  ghost predicate Setup(c: Session) {
    c.Valid() && c.b.Distinct() && SourceReady(c)
  }

  // ---- Every step keeps the invariant ----

  lemma ReadsIsFeed(c: Session, s: State, sent: seq<Frame>)
    requires |sent| <= 1 && s.verdict == Waiting
    ensures Feed(c.b, s, sent) == TransferProof.Reads(c, s, sent)
  {
    hide Step, Feed;
    FeedEmpty(c.b, s);
    if sent != [] {
      FeedHead(c.b, s, sent);
      var (s1, o1) := Step(c.b, s, sent[0]);
      FeedEmpty(c.b, s1);
      assert sent[1..] == [] && o1 + [] == o1;
    }
  }

  lemma TargetStepKeepsInv(c: Session, y: Sys)
    requires Setup(c) && Inv(c, y) && TargetEnabled(c, y)
    ensures Inv(c, TargetStep(c, y))
  {
    hide TargetOk, Expected, Local, Receive, Step, Feed, SourceReady;
    var (s, out) := Feed(c.b, y.s, y.toSource);
    var frames := Expected(c, y.t);
    assert y.toTarget + out == frames;
    WaitingUnlessDone(c, y.t, s);
    if Awaits(y.t) {
      TransferProof.ReceiveKeepsStep(c, y.t, s);
      assert y.toTarget[0] == frames[0];
      var (t', sent) := Receive(c, y.t, frames[0]);
      ReadsIsFeed(c, s, sent);
      FeedAppend(c.b, y.s, y.toSource, sent);
      var o2 := TransferProof.Reads(c, s, sent).1;
      assert y.toTarget[1..] + (out + o2) == frames[1..] + o2;
    } else {
      NothingExpected(c, y.t);
      TransferProof.LocalKeepsStep(c, y.t, s);
      var (t', sent) := Local(c, y.t);
      ReadsIsFeed(c, s, sent);
      FeedAppend(c.b, y.s, y.toSource, sent);
      var o2 := TransferProof.Reads(c, s, sent).1;
      assert y.toTarget + (out + o2) == o2;
    }
  }

  lemma WaitingUnlessDone(c: Session, t: Target, s: State)
    requires WellPlaced(c, t) && Matches(c, t, s) && !t.phase.Done?
    ensures s.verdict == Waiting
  {
  }

  lemma NothingExpected(c: Session, t: Target)
    requires SourceReady(c) && WellPlaced(c, t) && !Awaits(t)
    ensures Expected(c, t) == []
  {
  }

  lemma SourceStepKeepsInv(c: Session, y: Sys)
    requires SourceReady(c) && Inv(c, y) && SourceEnabled(y)
    ensures Inv(c, SourceStep(c, y))
  {
    hide TargetOk, Matches, Expected, Step, Feed;
    FeedHead(c.b, y.s, y.toSource);
    var (s1, o1) := Step(c.b, y.s, y.toSource[0]);
    var (s2, o2) := Feed(c.b, s1, y.toSource[1..]);
    assert y.toTarget + (o1 + o2) == y.toTarget + o1 + o2;
  }

  lemma OpenSatisfiesInv(c: Session, cas: Store)
    requires Ready(c, cas)
    ensures Inv(c, Open(cas))
  {
    FeedEmpty(c.b, START);
    assert c.b.objects[..0] == [];
  }

  // ---- No deadlock ----

  lemma StoppedMeansDelivered(c: Session, y: Sys)
    requires Setup(c) && Inv(c, y)
    ensures Enabled(c, y) <==> !Delivered(c, y)
    ensures !y.t.phase.Failed? && y.s.verdict != Refused
  {
    hide Step, Feed, Find, Holds, Published, TargetReady, NeedFrom;
    FeedEmpty(c.b, y.s);
    if y.s.verdict != Waiting {
      FeedStopped(c.b, y.s, y.toSource);
    }
    assert y.toTarget + Feed(c.b, y.s, y.toSource).1 == Expected(c, y.t);
    if Awaits(y.t) {
      var s := Feed(c.b, y.s, y.toSource).0;
      TransferProof.ReceiveKeepsStep(c, y.t, s);
    }
    if y.t.phase.Done? {
      assert c.b.objects[..|c.b.objects|] == c.b.objects;
      forall o | o in c.b.objects ensures Holds(c, o) && Published(c, y.t.cas, o) {
        var j :| 0 <= j < |c.b.objects| && c.b.objects[j] == o;
      }
    }
  }

  // ---- Termination ----

  function RankFrom(c: Session, i: nat): nat
    requires i <= |c.b.objects|
    decreases |c.b.objects| - i
  {
    if i == |c.b.objects| then 0 else 2 * c.b.objects[i].size + 4 + RankFrom(c, i + 1)
  }

  ghost function TargetRank(c: Session, t: Target): int
    requires WellPlaced(c, t)
  {
    match t.phase
    case Begin => RankFrom(c, t.i) + 1
    case Fetch => RankFrom(c, t.i + 1) + 3 + 2 * (c.b.objects[t.i].size - t.offset)
    case AwaitChunk(_) => RankFrom(c, t.i + 1) + 2 + 2 * (c.b.objects[t.i].size - t.offset)
    case AwaitEmptyProof => RankFrom(c, t.i + 1) + 2
    case AwaitProof => RankFrom(c, t.i + 1) + 2
    case _ => 0
  }

  ghost function Rank(c: Session, y: Sys): int
    requires WellPlaced(c, y.t)
  {
    2 * TargetRank(c, y.t) + |y.toSource|
  }

  lemma LocalLowersRank(c: Session, t: Target)
    requires SourceReady(c) && TargetOk(c, t) && (t.phase.Begin? || t.phase.Fetch?)
    ensures var (t', sent) := Local(c, t);
            |sent| <= 1 && (WellPlaced(c, t') ==> TargetRank(c, t') < TargetRank(c, t))
  {
    hide TargetReady, NeedFrom, Holds, Published, VerifyAndPublish;
  }

  lemma ReceiveLowersRank(c: Session, t: Target, f: Frame)
    requires SourceReady(c) && c.Valid() && TargetOk(c, t) && Awaits(t)
    ensures var (t', sent) := Receive(c, t, f);
            |sent| <= 1 && (WellPlaced(c, t') ==> TargetRank(c, t') < TargetRank(c, t))
  {
    hide TargetReady, NeedFrom, Holds, Published, VerifyAndPublish, StageWrite;
  }

  lemma StepLowersRank(c: Session, y: Sys, y': Sys)
    requires Setup(c) && Inv(c, y) && Next(c, y, y')
    ensures Inv(c, y') && WellPlaced(c, y'.t) && 0 <= Rank(c, y') < Rank(c, y)
  {
    hide TargetOk, Matches, Expected, Step, Feed, TargetRank, Local, Receive;
    if TargetEnabled(c, y) && y' == TargetStep(c, y) {
      TargetStepKeepsInv(c, y);
      if Awaits(y.t) {
        ReceiveLowersRank(c, y.t, y.toTarget[0]);
      } else {
        LocalLowersRank(c, y.t);
      }
    } else {
      SourceStepKeepsInv(c, y);
    }
    RankIsNatural(c, y'.t);
  }

  lemma RankIsNatural(c: Session, t: Target)
    requires SourceReady(c) && TargetOk(c, t)
    ensures WellPlaced(c, t) && TargetRank(c, t) >= 0
  {
    hide TargetReady, NeedFrom, Holds, Published;
  }

  // ---- Whole runs ----

  lemma {:induction false} RunKeepsInv(c: Session, cas: Store, run: seq<Sys>)
    requires Ready(c, cas) && IsRun(c, cas, run)
    ensures forall k :: 0 <= k < |run| ==> Inv(c, run[k])
    ensures WellPlaced(c, run[|run| - 1].t) && 0 <= Rank(c, run[|run| - 1])
    ensures |run| - 1 + Rank(c, run[|run| - 1]) <= 2 * RankFrom(c, 0) + 2
  {
    hide Inv, Next, Rank, SourceReady, TargetReady, NeedFrom;
    if |run| == 1 {
      OpenSatisfiesInv(c, cas);
      OpenRank(c, cas);
    } else {
      var prefix := run[..|run| - 1];
      RunKeepsInv(c, cas, prefix);
      var y, y' := prefix[|prefix| - 1], run[|run| - 1];
      assert Next(c, run[|run| - 2], run[|run| - 1]);
      StepLowersRank(c, y, y');
      forall k | 0 <= k < |run| ensures Inv(c, run[k]) {
        assert k < |run| - 1 ==> prefix[k] == run[k];
      }
    }
  }

  lemma OpenRank(c: Session, cas: Store)
    ensures WellPlaced(c, Open(cas).t) && Rank(c, Open(cas)) == 2 * RankFrom(c, 0) + 2
  {
  }

  /** No interleaving of target and source deadlocks or hits a protocol error, every run ends after
      a bounded number of steps, and it can only end with the batch delivered: the source returned
      success, every manifest object is published on the target with the source's bytes, and there
      is one receipt per object in page order. */
  lemma EveryRunDelivers(c: Session, cas: Store, run: seq<Sys>)
    requires Ready(c, cas) && IsRun(c, cas, run)
    ensures forall y <- run :: !y.t.phase.Failed? && y.s.verdict != Refused
    ensures |run| <= 2 * RankFrom(c, 0) + 3
    ensures Delivered(c, run[|run| - 1]) <==> !Enabled(c, run[|run| - 1])
  {
    hide Inv, Next, Rank, TargetReady, NeedFrom, Enabled, Delivered;
    RunKeepsInv(c, cas, run);
    forall y | y in run
      ensures !y.t.phase.Failed? && y.s.verdict != Refused && (Delivered(c, y) <==> !Enabled(c, y))
    {
      var k :| 0 <= k < |run| && run[k] == y;
      StoppedMeansDelivered(c, y);
    }
  }

  // ---- Crashes ----

  /** What a target that dies at this point may leave on its Volume: what it had, a torn append of
      the chunk it just received, or a half-finished publication of the current object. */
  ghost predicate Residue(c: Session, y: Sys, cas: Store) {
    || cas == y.t.cas
    || (y.t.i < |c.b.objects| &&
        var o := c.b.objects[y.t.i];
        || cas == Apply(y.t.cas, EmptyFileOp(c.Key(o), o))
        || cas == Apply(y.t.cas, LinkedOnlyOp(c.Key(o), o))
        || (y.t.phase.AwaitChunk? && y.toTarget != [] && y.toTarget[0].Chunk? &&
            exists kept: nat | kept <= |y.toTarget[0].bytes| ::
              cas == TornStage(y.t.cas, c.Key(o), o, y.t.offset, y.toTarget[0].bytes, kept)))
  }

  /** A change to the current object that keeps it ready and needs no more bytes than before. */
  lemma ResidueStaysReady(c: Session, t: Target, cas': Store)
    requires Setup(c) && TargetOk(c, t)
    requires cas' == t.cas ||
             (t.i < |c.b.objects| &&
              var o := c.b.objects[t.i];
              && TransferProof.ChangesOnly(c, t.cas, cas', o) && Holds(c, o) && ObjectReady(c, cas', o)
              && NeedOf(c, cas', o) <= NeedOf(c, t.cas, o))
    ensures Ready(c, cas')
  {
    hide NeedOf, Published, ObjectReady, TargetReady, NeedFrom, TransferProof.ChangesOnly, Holds, SourceReady;
    NeedBounded(c, t);
    if cas' != t.cas {
      TransferProof.ReadyFrame(c, t.cas, cas', t.i);
      NeedUnfold(c, t.cas, t.i);
      NeedUnfold(c, cas', t.i);
    }
    PublishedNeedsNothing(c, cas', t.i, 0);
  }

  lemma NeedUnfold(c: Session, cas: Store, i: nat)
    requires i < |c.b.objects|
    ensures NeedFrom(c, cas, i) == NeedOf(c, cas, c.b.objects[i]) + NeedFrom(c, cas, i + 1)
  {
  }

  lemma NeedBounded(c: Session, t: Target)
    requires SourceReady(c) && TargetOk(c, t)
    ensures t.i <= |c.b.objects| && NeedFrom(c, t.cas, t.i) <= c.b.maxBytes && TargetReady(c, t.cas)
    ensures forall j :: 0 <= j < t.i ==> Holds(c, c.b.objects[j]) && Published(c, t.cas, c.b.objects[j])
  {
    hide NeedFrom, Published, TargetReady, Holds;
  }

  lemma {:induction false} PublishedNeedsNothing(c: Session, cas: Store, i: nat, j: nat)
    requires j <= i <= |c.b.objects|
    requires forall k :: j <= k < i ==> Holds(c, c.b.objects[k]) && Published(c, cas, c.b.objects[k])
    ensures NeedFrom(c, cas, j) == NeedFrom(c, cas, i)
    decreases i - j
  {
    if j < i {
      PublishedNeedsNothing(c, cas, i, j + 1);
    }
  }

  lemma TornStageStaysReady(c: Session, t: Target, bytes: Bytes, kept: nat)
    requires Setup(c) && TargetOk(c, t) && t.phase.AwaitChunk? && kept <= |bytes|
    requires var o := c.b.objects[t.i];
             Holds(c, o) && t.offset + t.phase.length <= o.size
               && bytes == Content(c, o)[t.offset..t.offset + t.phase.length]
    ensures Ready(c, TornStage(t.cas, c.Key(c.b.objects[t.i]), c.b.objects[t.i], t.offset, bytes, kept))
  {
    hide TargetReady, NeedFrom, Published, Append, Ready, TransferProof.ChangesOnly;
    var o := c.b.objects[t.i];
    TransferProof.ReadyAt(c, t.cas, t.i);
    TransferProof.AppendExtends(c, t.cas, o, t.offset, kept);
    assert bytes[..kept] == Content(c, o)[t.offset..t.offset + kept];
    ResidueStaysReady(c, t, t.cas);
    ResidueStaysReady(c, t, Append(t.cas, c.Key(o), bytes[..kept]));
  }

  lemma HalfPublishedStaysReady(c: Session, t: Target, op: Op)
    requires Setup(c) && TargetOk(c, t) && t.i < |c.b.objects|
    requires var o := c.b.objects[t.i];
             op == EmptyFileOp(c.Key(o), o) || op == LinkedOnlyOp(c.Key(o), o)
    ensures Ready(c, Apply(t.cas, op))
  {
    hide TargetReady, NeedFrom, Published, Ready;
    var o := c.b.objects[t.i];
    var cas' := Apply(t.cas, op);
    TransferProof.ReadyAt(c, t.cas, t.i);
    assert cas'.published - {c.Key(o).Object()} == t.cas.published - {c.Key(o).Object()};
    assert cas'.staged - {c.Key(o)} == t.cas.staged - {c.Key(o)};
    ResidueStaysReady(c, t, cas');
  }

  /** Wherever a session dies, even inside an append or a publication, the next session starts from
      a state the theorem above applies to again, within the same byte limit. */
  lemma CrashLeavesReady(c: Session, cas: Store, run: seq<Sys>, cas': Store)
    requires Ready(c, cas) && IsRun(c, cas, run) && Residue(c, run[|run| - 1], cas')
    ensures Ready(c, cas')
  {
    hide Next, Rank, TargetReady, NeedFrom, Ready, Matches, TargetOk, Feed, Apply, TornStage;
    RunKeepsInv(c, cas, run);
    ReadyIsSetup(c, cas);
    var y := run[|run| - 1];
    ResidueStaysReady(c, y.t, y.t.cas);
    if y.t.i < |c.b.objects| {
      var o := c.b.objects[y.t.i];
      HalfPublishedStaysReady(c, y.t, EmptyFileOp(c.Key(o), o));
      HalfPublishedStaysReady(c, y.t, LinkedOnlyOp(c.Key(o), o));
      if y.t.phase.AwaitChunk? && y.toTarget != [] && y.toTarget[0].Chunk? {
        TransferProof.ChunkInRange(c, y.t);
        assert y.toTarget[0] == Expected(c, y.t)[0];
        forall kept: nat | kept <= |y.toTarget[0].bytes|
          ensures Ready(c, TornStage(y.t.cas, c.Key(o), o, y.t.offset, y.toTarget[0].bytes, kept))
        {
          TornStageStaysReady(c, y.t, y.toTarget[0].bytes, kept);
        }
      }
    }
  }

  lemma ReadyIsSetup(c: Session, cas: Store)
    requires Ready(c, cas)
    ensures Setup(c)
  {
  }

  /** `stores[k]` is the Volume session `k` starts from; each session but the last dies somewhere. */
  ghost predicate IsHistory(c: Session, stores: seq<Store>, runs: seq<seq<Sys>>) {
    && |stores| == |runs| > 0
    && (forall k :: 0 <= k < |runs| ==> IsRun(c, stores[k], runs[k]))
    && (forall k :: 0 <= k < |runs| - 1 ==> Residue(c, runs[k][|runs[k]| - 1], stores[k + 1]))
  }

  /** After any number of crashed sessions, a session that cannot move any more has delivered the
      whole batch, and none of them met a protocol error on the way. */
  lemma {:induction false} ReconnectsDeliver(c: Session, stores: seq<Store>, runs: seq<seq<Sys>>)
    requires IsHistory(c, stores, runs) && Ready(c, stores[0])
    ensures Ready(c, stores[|stores| - 1])
    ensures forall k :: 0 <= k < |runs| ==> forall y <- runs[k] :: !y.t.phase.Failed? && y.s.verdict != Refused
    ensures var last := runs[|runs| - 1];
            SourceReady(c) && (Delivered(c, last[|last| - 1]) <==> !Enabled(c, last[|last| - 1]))
  {
    hide Ready, IsRun, Residue, Delivered, Enabled;
    var n := |runs| - 1;
    RunShape(c, stores[n], runs[n]);
    if n > 0 {
      RunShape(c, stores[n - 1], runs[n - 1]);
      assert Residue(c, runs[n - 1][|runs[n - 1]| - 1], stores[n]);
      ReconnectsDeliver(c, stores[..n], runs[..n]);
      CrashLeavesReady(c, stores[n - 1], runs[n - 1], stores[n]);
    }
    ReadyIsSetup(c, stores[n]);
    EveryRunDelivers(c, stores[n], runs[n]);
    forall k | 0 <= k < |runs|
      ensures forall y <- runs[k] :: !y.t.phase.Failed? && y.s.verdict != Refused
    {
      assert k < n ==> runs[..n][k] == runs[k];
    }
  }

  lemma RunShape(c: Session, cas: Store, run: seq<Sys>)
    requires IsRun(c, cas, run)
    ensures run != []
  {
  }

  /** A Volume whose published objects are authentic and whose staging files hold prefixes of the
      source's objects is ready, given the byte limit covers what is missing. */
  lemma AuthenticVolumeIsReady(c: Session, cas: Store)
    requires Setup(c) && cas.Authentic() && NeedFrom(c, cas, 0) <= c.b.maxBytes
    requires forall o <- c.b.objects ::
               && Holds(c, o)
               && (c.Key(o) in cas.staged ==> cas.staged[c.Key(o)] <= Content(c, o))
    ensures Ready(c, cas)
  {
    forall o | o in c.b.objects ensures Holds(c, o) && ObjectReady(c, cas, o) {
      assert Holds(c, o);
      var obj := c.Key(o).Object();
      if obj in cas.published {
        HashInjective(cas.published[obj], Content(c, o));
      }
    }
  }
}
