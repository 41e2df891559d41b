/** The other target implementation. It takes its objects in its own order, compares staging with the
    checkpoints Central knows, counts bytes as they arrive instead of as it asks for them, and would
    take a requested range in several pieces. Against the same source it is as good as the first. */
module SecondTarget {
  import opened Base
  import opened Cas
  import opened Source
  import opened Transfer
  import TransferProof
  import TransferTheorem

  /** `c.b.objects` are the objects in the order they are worked on, `confirmed` the offset Central has
      recorded for each, and `manifest` what the source serves: the same objects in page order. */
  datatype Plan = Plan(c: Session, confirmed: seq<nat>, manifest: Batch)

  ghost predicate ValidPlan(p: Plan) {
    && |p.confirmed| == |p.c.b.objects|
    && p.manifest == p.c.b.(objects := p.manifest.objects) && p.manifest.Distinct()
    && |p.manifest.objects| == |p.c.b.objects| && forall o :: o in p.manifest.objects <==> o in p.c.b.objects
  }

  /** In `AwaitChunk` the length is what is still missing of the requested range. */
  function Local(p: Plan, t: Target): (Target, seq<Frame>)
    requires WellPlaced(p.c, t) && |p.confirmed| == |p.c.b.objects| && (t.phase.Begin? || t.phase.Fetch?)
  {
    var c := p.c;
    if t.phase.Begin? then
      if t.i == |c.b.objects| then (t.(phase := Done), [Close(true)]) else
      var o := c.b.objects[t.i];
      if c.Key(o).Object() !in t.cas.published && t.cas.ResumeOffset(c.Key(o)) < p.confirmed[t.i] then Fail(t)
      else BeginObject(c, t)
    else
      var o := c.b.objects[t.i];
      var length := Min(o.size - t.offset, c.chunk);
      (t.(phase := AwaitChunk(length)), [Request(o.id, t.offset, length)])
  }

  function Receive(p: Plan, t: Target, f: Frame): (Target, seq<Frame>)
    requires t.i < |p.c.b.objects| && Awaits(t)
  {
    var c, o := p.c, p.c.b.objects[t.i];
    match t.phase
    case AwaitEmptyProof =>
      // The acknowledgement goes out before the object is published.
      if f == Proof(o.id, o.id, 0) then (Finish(c, t, []).0, [Ack(o.id, 0, 0, true)]) else Fail(t)
    case AwaitProof =>
      if f == Proof(o.id, o.id, o.size) then Finish(c, t, []) else Fail(t)
    case AwaitChunk(missing) =>
      if !f.Chunk? || f.id != o.id || f.offset != t.offset || |f.bytes| == 0 || |f.bytes| > missing then Fail(t)
      else if t.transferred + |f.bytes| > U64_MAX || t.transferred + |f.bytes| > c.b.maxBytes then Fail(t)
      else
        var (cas, r) := StageWrite(t.cas, c.Key(o), o, t.offset, f.bytes);
        var next := t.offset + |f.bytes|;
        if !r.Accepted? || r.accepted != |f.bytes| || r.stagedSize != next then (t.(phase := Failed, cas := cas), [])
        else
          var phase :=
            if |f.bytes| < missing then AwaitChunk(missing - |f.bytes|)
            else if next == o.size then AwaitProof else Fetch;
          (t.(phase := phase, offset := next, cas := cas, transferred := t.transferred + |f.bytes|),
           [Ack(o.id, t.offset, |f.bytes|, true)])
  }

  // ---- Composed with the source ----

  function TargetStep(p: Plan, y: Sys): Sys
    requires TargetEnabled(p.c, y) && |p.confirmed| == |p.c.b.objects|
  {
    if Awaits(y.t) then
      var (t, sent) := Receive(p, y.t, y.toTarget[0]);
      y.(t := t, toSource := y.toSource + sent, toTarget := y.toTarget[1..])
    else
      var (t, sent) := Local(p, y.t);
      y.(t := t, toSource := y.toSource + sent)
  }

  function SourceStep(p: Plan, y: Sys): Sys
    requires SourceEnabled(y)
  {
    var (s, sent) := Step(p.manifest, y.s, y.toSource[0]);
    y.(s := s, toSource := y.toSource[1..], toTarget := y.toTarget + sent)
  }

  predicate Next(p: Plan, y: Sys, y': Sys)
    requires |p.confirmed| == |p.c.b.objects|
  {
    || (TargetEnabled(p.c, y) && y' == TargetStep(p, y))
    || (SourceEnabled(y) && y' == SourceStep(p, y))
  }

  ghost predicate IsRun(p: Plan, cas: Store, run: seq<Sys>)
    requires |p.confirmed| == |p.c.b.objects|
  {
    && run != [] && run[0] == Open(cas)
    && forall k :: 0 <= k < |run| - 1 ==> Next(p, run[k], run[k + 1])
  }

  /** Central never confirmed more than the target has. */
  ghost predicate NotRegressed(p: Plan, cas: Store, from: nat) {
    forall j :: from <= j < |p.c.b.objects| && j < |p.confirmed| ==>
      var key := p.c.Key(p.c.b.objects[j]);
      key.Object() in cas.published || p.confirmed[j] <= cas.ResumeOffset(key)
  }

  // ---- The order of the manifest does not matter to the source ----

  lemma SourceIgnoresOrder(p: Plan, s: State, f: Frame)
    requires ValidPlan(p) && p.c.b.Distinct()
    ensures Step(p.manifest, s, f) == Step(p.c.b, s, f)
  {
    var a, b := p.manifest, p.c.b;
    if f.Request? {
      SameFind(a, b, f.id);
    }
  }

  lemma SameFind(a: Batch, b: Batch, id: ObjectId)
    requires a.Distinct() && b.Distinct() && forall o :: o in a.objects <==> o in b.objects
    ensures Find(a.objects, id) == Find(b.objects, id)
  {
    FindIsMembership(a.objects, id);
    FindIsMembership(b.objects, id);
    if Find(a.objects, id).Some? && Find(b.objects, id).Some? {
      var x, y := Find(a.objects, id).value, Find(b.objects, id).value;
      var i :| 0 <= i < |a.objects| && a.objects[i] == x;
      var j :| 0 <= j < |a.objects| && a.objects[j] == y;
      assert i == j;
    }
  }

  // ---- Step by step the first target ----

  /** The first target counts a requested range at once. */
  function Abs(t: Target): Target {
    if t.phase.AwaitChunk? then t.(transferred := t.transferred + t.phase.length) else t
  }

  function AbsSys(y: Sys): Sys {
    y.(t := Abs(y.t))
  }

  lemma LocalAgrees(p: Plan, t: Target)
    requires ValidPlan(p) && TransferTheorem.Setup(p.c) && TargetOk(p.c, t) && (t.phase.Begin? || t.phase.Fetch?)
    requires t.phase.Begin? ==> NotRegressed(p, t.cas, t.i)
    ensures WellPlaced(p.c, t)
    ensures var (t', sent) := Local(p, t);
            (Abs(t'), sent) == Transfer.Local(p.c, t)
  {
    hide TargetReady, NeedFrom, Holds, Published, VerifyAndPublish;
    if t.phase.Fetch? {
      TransferProof.FetchKeepsTargetOk(p.c, t);
    }
  }

  lemma ReceiveAgrees(p: Plan, t: Target)
    requires TransferTheorem.Setup(p.c) && TargetOk(p.c, Abs(t)) && Awaits(t)
    requires Expected(p.c, Abs(t)) != []
    ensures var f := Expected(p.c, Abs(t))[0];
            var (t', sent) := Receive(p, t, f);
            (Abs(t'), sent) == Transfer.Receive(p.c, Abs(t), f)
  {
    if t.phase.AwaitChunk? {
      ChunkAgrees(p, t);
    } else if t.phase.AwaitEmptyProof? {
      TransferProof.EmptyProofFinishes(p.c, t);
      EmptyAgrees(p, t);
    }
  }

  lemma EmptyAgrees(p: Plan, t: Target)
    requires t.i < |p.c.b.objects| && t.phase.AwaitEmptyProof?
    requires var o := p.c.b.objects[t.i];
             Transfer.Receive(p.c, t, Proof(o.id, o.id, 0)).0.phase.Begin?
    ensures var f := Proof(p.c.b.objects[t.i].id, p.c.b.objects[t.i].id, 0);
            Receive(p, t, f) == Transfer.Receive(p.c, t, f)
  {
    hide VerifyAndPublish;
  }

  lemma ChunkAgrees(p: Plan, t: Target)
    requires TransferTheorem.Setup(p.c) && TargetOk(p.c, Abs(t)) && t.phase.AwaitChunk?
    requires Expected(p.c, Abs(t)) != []
    ensures var f := Expected(p.c, Abs(t))[0];
            var (t', sent) := Receive(p, t, f);
            (Abs(t'), sent) == Transfer.Receive(p.c, Abs(t), f)
  {
    hide TargetReady, NeedFrom, Published, FinalProof;
    var c, o := p.c, p.c.b.objects[t.i];
    TransferProof.ChunkInRange(c, Abs(t));
    var bytes := Content(c, o)[t.offset..t.offset + t.phase.length];
    assert Expected(c, Abs(t))[0] == Chunk(o.id, t.offset, bytes);
    RequestedFits(c, Abs(t));
  }

  /** What was requested had been checked against the byte limit. */
  lemma RequestedFits(c: Session, t: Target)
    requires SourceReady(c) && c.Valid() && TargetOk(c, t) && t.phase.AwaitChunk?
    ensures t.transferred <= c.b.maxBytes && t.phase.length > 0
  {
    assert NeedFrom(c, t.cas, t.i) >= NeedOf(c, t.cas, c.b.objects[t.i]);
  }

  // ---- Staging never falls behind ----

  lemma FirstTargetKeepsStaging(c: Session, t: Target, f: Frame, o: ObjectSpec)
    requires Awaits(t) && t.i < |c.b.objects| && o in c.b.objects && c.b.Distinct() && o.id != c.b.objects[t.i].id
    ensures var cas' := Transfer.Receive(c, t, f).0.cas;
            && (c.Key(o).Object() in t.cas.published <==> c.Key(o).Object() in cas'.published)
            && cas'.ResumeOffset(c.Key(o)) == t.cas.ResumeOffset(c.Key(o))
  {
    hide Hash;
  }

  lemma FirstTargetKeepsOthers(c: Session, t: Target, o: ObjectSpec)
    requires t.phase.Begin? && t.i < |c.b.objects| && o in c.b.objects && c.b.Distinct() && o.id != c.b.objects[t.i].id
    ensures var cas' := Transfer.Local(c, t).0.cas;
            && (c.Key(o).Object() in t.cas.published <==> c.Key(o).Object() in cas'.published)
            && cas'.ResumeOffset(c.Key(o)) == t.cas.ResumeOffset(c.Key(o))
  {
    hide Hash;
  }

  /** The objects not yet begun. */
  function Todo(t: Target): nat {
    if t.phase.Begin? then t.i else t.i + 1
  }

  ghost predicate Simulates(p: Plan, y: Sys)
    requires SourceReady(p.c)
  {
    Inv(p.c, AbsSys(y)) && NotRegressed(p, y.t.cas, Todo(y.t))
  }

  lemma LocalKeepsStaging(p: Plan, t: Target)
    requires ValidPlan(p) && TransferTheorem.Setup(p.c) && TargetOk(p.c, t) && (t.phase.Begin? || t.phase.Fetch?)
    requires NotRegressed(p, t.cas, Todo(t))
    ensures NotRegressed(p, Transfer.Local(p.c, t).0.cas, Todo(Transfer.Local(p.c, t).0))
  {
    hide TargetOk, VerifyAndPublish, NotRegressed, SourceReady;
    TransferTheorem.RankIsNatural(p.c, t);
    var t' := Transfer.Local(p.c, t).0;
    TodoGrows(p.c, t);
    FewerToCheck(p, t.cas, Todo(t), Todo(t'));
    if t.phase.Begin? && t.i < |p.c.b.objects| {
      forall j | Todo(t') <= j < |p.c.b.objects| ensures StaysPut(p.c, t.cas, t'.cas, p.c.b.objects[j]) {
        FirstTargetKeepsOthers(p.c, t, p.c.b.objects[j]);
      }
      AllStayPut(p, t.cas, t'.cas, Todo(t'));
    } else {
      SameCas(p.c, t);
    }
  }

  lemma SameCas(c: Session, t: Target)
    requires WellPlaced(c, t) && (t.phase.Fetch? || (t.phase.Begin? && t.i == |c.b.objects|))
    ensures Transfer.Local(c, t).0.cas == t.cas
  {
  }

  ghost predicate StaysPut(c: Session, cas: Store, cas': Store, o: ObjectSpec) {
    && (c.Key(o).Object() in cas.published <==> c.Key(o).Object() in cas'.published)
    && cas'.ResumeOffset(c.Key(o)) == cas.ResumeOffset(c.Key(o))
  }

  lemma AllStayPut(p: Plan, cas: Store, cas': Store, from: nat)
    requires NotRegressed(p, cas, from)
    requires forall j :: from <= j < |p.c.b.objects| ==> StaysPut(p.c, cas, cas', p.c.b.objects[j])
    ensures NotRegressed(p, cas', from)
  {
    forall j | from <= j < |p.c.b.objects| && j < |p.confirmed|
      ensures var key := p.c.Key(p.c.b.objects[j]);
              key.Object() in cas'.published || p.confirmed[j] <= cas'.ResumeOffset(key)
    {
      assert StaysPut(p.c, cas, cas', p.c.b.objects[j]);
    }
  }

  lemma FewerToCheck(p: Plan, cas: Store, from: nat, to: nat)
    requires from <= to && NotRegressed(p, cas, from)
    ensures NotRegressed(p, cas, to)
  {
  }

  lemma TodoGrows(c: Session, t: Target)
    requires WellPlaced(c, t) && (t.phase.Begin? || t.phase.Fetch?)
    ensures Todo(t) <= Todo(Transfer.Local(c, t).0)
    ensures t.phase.Begin? && t.i < |c.b.objects| ==>
            t.i < Todo(Transfer.Local(c, t).0) || Transfer.Local(c, t).0.phase.Failed?
  {
    hide VerifyAndPublish;
  }

  lemma ReceiveKeepsStaging(p: Plan, t: Target, f: Frame)
    requires ValidPlan(p) && p.c.b.Distinct() && WellPlaced(p.c, t) && Awaits(t) && NotRegressed(p, t.cas, Todo(t))
    ensures NotRegressed(p, Transfer.Receive(p.c, t, f).0.cas, Todo(Transfer.Receive(p.c, t, f).0))
  {
    hide VerifyAndPublish, NotRegressed, StageWrite;
    var t' := Transfer.Receive(p.c, t, f).0;
    assert Todo(t') == t.i + 1;
    forall j | t.i + 1 <= j < |p.c.b.objects| ensures StaysPut(p.c, t.cas, t'.cas, p.c.b.objects[j]) {
      FirstTargetKeepsStaging(p.c, t, f, p.c.b.objects[j]);
    }
    AllStayPut(p, t.cas, t'.cas, t.i + 1);
  }

  /** Every step of the second target's system is a step of the first one's. */
  lemma StepSimulates(p: Plan, y: Sys, y': Sys)
    requires ValidPlan(p) && TransferTheorem.Setup(p.c) && Simulates(p, y) && Next(p, y, y')
    ensures Transfer.Next(p.c, AbsSys(y), AbsSys(y')) && Simulates(p, y')
  {
    hide Inv, NotRegressed, Local, Receive, Transfer.Local, Transfer.Receive, Step;
    if TargetEnabled(p.c, y) && y' == TargetStep(p, y) {
      TargetSimulates(p, y);
    } else {
      SourceIgnoresOrder(p, y.s, y.toSource[0]);
      assert AbsSys(y') == Transfer.SourceStep(p.c, AbsSys(y));
      TransferTheorem.SourceStepKeepsInv(p.c, AbsSys(y));
    }
  }

  lemma TargetSimulates(p: Plan, y: Sys)
    requires ValidPlan(p) && TransferTheorem.Setup(p.c) && Simulates(p, y) && TargetEnabled(p.c, y)
    ensures var y' := TargetStep(p, y);
            && TargetEnabled(p.c, AbsSys(y)) && AbsSys(y') == Transfer.TargetStep(p.c, AbsSys(y)) && Simulates(p, y')
  {
    hide Inv, NotRegressed, Local, Receive, Transfer.Local, Transfer.Receive, Step, SourceReady, TargetOk;
    var z := AbsSys(y);
    InvParts(p.c, z);
    TransferTheorem.TargetStepKeepsInv(p.c, z);
    if Awaits(y.t) {
      ReceiveAgrees(p, y.t);
      ReceiveKeepsStaging(p, z.t, y.toTarget[0]);
    } else {
      LocalAgrees(p, y.t);
      LocalKeepsStaging(p, y.t);
    }
  }

  lemma InvParts(c: Session, z: Sys)
    requires SourceReady(c) && Inv(c, z)
    ensures TargetOk(c, z.t) && WellPlaced(c, z.t)
    ensures Awaits(z.t) && z.toTarget != [] ==> Expected(c, z.t) != [] && z.toTarget[0] == Expected(c, z.t)[0]
  {
    hide TargetReady, NeedFrom, Published, Holds, Matches, Feed;
    if z.toTarget != [] {
      assert z.toTarget + Feed(c.b, z.s, z.toSource).1 == Expected(c, z.t);
    }
  }

  function AbsRun(run: seq<Sys>): seq<Sys> {
    seq(|run|, k requires 0 <= k < |run| => AbsSys(run[k]))
  }

  lemma {:induction false} RunSimulates(p: Plan, cas: Store, run: seq<Sys>)
    requires ValidPlan(p) && Ready(p.c, cas) && NotRegressed(p, cas, 0) && IsRun(p, cas, run)
    ensures Transfer.IsRun(p.c, cas, AbsRun(run)) && Simulates(p, run[|run| - 1])
  {
    hide Simulates, Next, Transfer.Next, Ready, NotRegressed, ValidPlan;
    PlanShape(p);
    TransferTheorem.ReadyIsSetup(p.c, cas);
    if |run| == 1 {
      OpenSimulates(p, cas);
    } else {
      var prefix := run[..|run| - 1];
      RunSimulates(p, cas, prefix);
      var n := |run| - 2;
      assert Next(p, run[n], run[n + 1]);
      assert prefix[|prefix| - 1] == run[n];
      StepSimulates(p, run[n], run[n + 1]);
      var a := AbsRun(run);
      forall k | 0 <= k < |a| - 1 ensures Transfer.Next(p.c, a[k], a[k + 1]) {
        if k < n {
          assert AbsRun(prefix)[k] == a[k] && AbsRun(prefix)[k + 1] == a[k + 1];
        }
      }
    }
  }

  lemma PlanShape(p: Plan)
    requires ValidPlan(p)
    ensures |p.confirmed| == |p.c.b.objects|
  {
  }

  lemma OpenSimulates(p: Plan, cas: Store)
    requires Ready(p.c, cas) && NotRegressed(p, cas, 0)
    ensures Simulates(p, Open(cas)) && AbsSys(Open(cas)) == Open(cas)
  {
    hide Inv;
    TransferTheorem.OpenSatisfiesInv(p.c, cas);
  }

  /** The second target with the source: no interleaving deadlocks or meets a protocol error, every run
      is bounded, and it ends only with everything delivered, one receipt per object in working order. */
  lemma SecondTargetDelivers(p: Plan, cas: Store, run: seq<Sys>)
    requires ValidPlan(p) && Ready(p.c, cas) && NotRegressed(p, cas, 0) && IsRun(p, cas, run)
    ensures forall y <- run :: !y.t.phase.Failed? && y.s.verdict != Refused
    ensures |run| <= 2 * TransferTheorem.RankFrom(p.c, 0) + 3
    ensures Delivered(p.c, run[|run| - 1]) <==> !Enabled(p.c, run[|run| - 1])
  {
    hide Ready, ValidPlan, NotRegressed, Simulates, IsRun, Transfer.IsRun;
    PlanShape(p);
    TransferTheorem.ReadyIsSetup(p.c, cas);
    RunSimulates(p, cas, run);
    var a := AbsRun(run);
    TransferTheorem.EveryRunDelivers(p.c, cas, a);
    forall y | y in run ensures !y.t.phase.Failed? && y.s.verdict != Refused {
      var k :| 0 <= k < |run| && run[k] == y;
      assert a[k] in a;
    }
    RunNotEmpty(p, cas, run);
    SameStanding(p.c, run[|run| - 1]);
  }

  lemma RunNotEmpty(p: Plan, cas: Store, run: seq<Sys>)
    requires |p.confirmed| == |p.c.b.objects| && IsRun(p, cas, run)
    ensures run != []
  {
  }

  lemma SameStanding(c: Session, y: Sys)
    requires SourceReady(c)
    ensures Enabled(c, AbsSys(y)) == Enabled(c, y) && Delivered(c, AbsSys(y)) == Delivered(c, y)
  {
  }
}
