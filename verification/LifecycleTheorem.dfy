/** What holds of one deletion over every schedule of calls and interruptions. */
module LifecycleTheorem {
  import opened Base
  import opened Trees
  import opened Inventory
  import opened Lifecycle
  import opened LifecycleProof

  function Init<T>(s: seq<T>): seq<T>
    requires s != []
  {
    s[..|s| - 1]
  }

  function Last<T>(s: seq<T>): T
    requires s != []
  {
    s[|s| - 1]
  }

  lemma CallKeepsShape(roots: seq<Bytes>, d: Disk, e: Event)
    requires d.Shaped(|roots|)
    ensures Call(roots, d, e).0.Shaped(|roots|)
  {
    hide QuarantineFrom, RestoreFrom, PurgeFrom;
    match e {
      case FenceCall(_) =>
      case QuarantineCall(_) =>
        var d1 := Fence(roots, d, 1).SetPhase(Quarantining);
        forall n: nat ensures QuarantineFrom(roots, d1, 0, n).0.Shaped(|roots|) {
          QuarantineShape(roots, d1, 0, n);
        }
      case RestoreCall(_) =>
        if d.journal.Some? {
          forall n: nat ensures RestoreFrom(roots, d.SetPhase(Restoring), 0, n).0.Shaped(|roots|) {
            RestoreShape(roots, d.SetPhase(Restoring), 0, n);
          }
        }
      case PurgeCall(_, rest) =>
        if d.journal.Some? {
          forall n: nat ensures PurgeFrom(roots, d.SetPhase(Purging), 0, n, rest).0.Shaped(|roots|) {
            PurgeShape(roots, d.SetPhase(Purging), 0, n, rest);
          }
        }
    }
  }

  /** A call that ran to its end reports from the journal it closed. */
  ghost predicate Closed(roots: seq<Bytes>, r: (Disk, Outcome), phase: Phase) {
    && r.0.Journaled(|roots|)
    && (r.1.Completed? ==> r.0.journal.value.phase == phase && r.1 == Report(roots, r.0.journal.value, phase == Purged))
  }

  lemma {:induction false} QuarantineShape(roots: seq<Bytes>, d: Disk, i: nat, stop: nat)
    requires d.Journaled(|roots|) && i <= |roots|
    ensures Closed(roots, QuarantineFrom(roots, d, i, stop), Quarantined)
    decreases |roots| - i
  {
    hide PlanQuarantine, Report;
    if i < |roots| {
      var plan := PlanQuarantine(roots[i], d.journal.value.roots[i], d.active[i], d.isolated[i]);
      if plan.Skip? {
        QuarantineShape(roots, d, i + 1, stop);
      } else if plan.Record? && stop > 0 {
        QuarantineShape(roots, d.PutRoot(i, plan.e), i + 1, stop - 1);
      } else if plan.Move? && stop > 1 {
        QuarantineShape(roots, d.Isolate(i).PutRoot(i, plan.e), i + 1, stop - 2);
      }
    }
  }

  lemma {:induction false} RestoreShape(roots: seq<Bytes>, d: Disk, i: nat, stop: nat)
    requires d.Journaled(|roots|) && i <= |roots|
    ensures Closed(roots, RestoreFrom(roots, d, i, stop), Restored)
    decreases |roots| - i
  {
    hide PlanRestore, Report;
    if i < |roots| {
      var plan := PlanRestore(roots[i], d.journal.value.roots[i], d.active[i], d.isolated[i]);
      if plan.Skip? {
        RestoreShape(roots, d, i + 1, stop);
      } else if plan.Record? && stop > 0 {
        RestoreShape(roots, d.PutRoot(i, plan.e), i + 1, stop - 1);
      } else if plan.Move? && stop > 1 {
        RestoreShape(roots, d.Return(i).PutRoot(i, plan.e), i + 1, stop - 2);
      }
    }
  }

  /** A purge deletes nothing outside the quarantine path, whatever state it is called in. */
  lemma {:induction false} PurgeShape(roots: seq<Bytes>, d: Disk, i: nat, stop: nat, rest: Tree)
    requires d.Journaled(|roots|) && i <= |roots|
    ensures Closed(roots, PurgeFrom(roots, d, i, stop, rest), Purged)
    ensures PurgeFrom(roots, d, i, stop, rest).0.active == d.active
    decreases |roots| - i, 1
  {
    hide Report, Scan, Leftover, Deletable;
    if i < |roots| {
      var e := d.journal.value.roots[i];
      if e.wasPresent == Some(false) || (d.isolated[i].None? && e.purged.Some?) {
        PurgeShape(roots, d, i + 1, stop, rest);
      } else if d.isolated[i].Some? {
        if e.purged.Some? {
          DestroyShape(roots, d, i, stop, rest);
        } else if stop > 0 {
          DestroyShape(roots, d.PutRoot(i, e.(purged := Scan(d.isolated[i].value, roots[i]))), i, stop - 1, rest);
        }
      }
    }
  }

  lemma {:induction false} DestroyShape(roots: seq<Bytes>, d: Disk, i: nat, stop: nat, rest: Tree)
    requires d.Journaled(|roots|) && i < |roots| && d.isolated[i].Some?
    ensures Closed(roots, DestroyThenPurge(roots, d, i, stop, rest), Purged)
    ensures DestroyThenPurge(roots, d, i, stop, rest).0.active == d.active
    decreases |roots| - i, 0
  {
    hide Report, Scan, Leftover, Deletable;
    if stop > 0 {
      PurgeShape(roots, d.SetIsolated(i, None), i + 1, stop - 1, rest);
    }
  }

  // ---- Schedules ----

  ghost function Run(roots: seq<Bytes>, d: Disk, events: seq<Event>): (r: Disk)
    requires d.Shaped(|roots|)
    ensures r.Shaped(|roots|)
  {
    if events == [] then d else
    var before := Run(roots, d, Init(events));
    CallKeepsShape(roots, before, Last(events));
    Call(roots, before, Last(events)).0
  }

  lemma {:induction false} EveryScheduleKeepsInv(roots: seq<Bytes>, orig: seq<Option<Tree>>, d: Disk,
                                                 events: seq<Event>)
    requires Initial(roots, orig, d)
    ensures Inv(roots, orig, Run(roots, d, events))
  {
    hide Call;
    if events != [] {
      EveryScheduleKeepsInv(roots, orig, d, Init(events));
      CallKeepsInv(roots, orig, Run(roots, d, Init(events)), Last(events));
    }
  }

  /** A tree that was there and is no longer whole anywhere. */
  ghost predicate Destroyed(orig: seq<Option<Tree>>, d: Disk, i: nat)
    requires |d.active| == |d.isolated| == |orig| && i < |orig|
  {
    orig[i].Some? && d.active[i].None? && d.isolated[i] != orig[i]
  }

  lemma OneBackMeansAllWhole(roots: seq<Bytes>, orig: seq<Option<Tree>>, d: Disk, back: nat, i: nat)
    requires Inv(roots, orig, d) && back < |roots| && d.active[back].Some? && i < |roots|
    ensures !Destroyed(orig, d, i) && (d.active[i].None? || d.isolated[i].None?)
  {
    hide Truthful, Leftover, WholeTrees, NothingPurged, Complete, NothingKnown, GoneUpTo;
    assert d.journal.Some? ==> !AllDoomed(orig, d) by {
      assert d.journal.Some? ==> !Doomed(orig[back], d.journal.value.roots[back], d.active[back], d.isolated[back]);
    }
  }

  /** The trees that are back are a prefix of those that were there. */
  lemma BackIsPrefix(roots: seq<Bytes>, orig: seq<Option<Tree>>, d: Disk, i: nat, k: nat)
    requires Inv(roots, orig, d) && i < k < |roots| && d.active[k].Some?
    requires d.InPhase(Restoring) || d.InPhase(Restored) || d.InPhase(Purging) || d.InPhase(Purged)
    ensures d.active[i] == orig[i]
  {
    hide Truthful, Leftover, WholeTrees, NothingPurged, Complete, NothingKnown, GoneUpTo;
    assert !AllDoomed(orig, d) by {
      assert !Doomed(orig[k], d.journal.value.roots[k], d.active[k], d.isolated[k]);
    }
  }

  /** One deletion never is partly restored and partly purged. As long as any tree is at its managed
      path, every tree is whole, in exactly one of its two places. Once a restore has begun, the
      trees that are back are a prefix of those that were there. */
  lemma AllOrNothing(roots: seq<Bytes>, orig: seq<Option<Tree>>, d0: Disk, events: seq<Event>)
    requires Initial(roots, orig, d0)
    ensures var d := Run(roots, d0, events);
            forall back, i :: 0 <= back < |roots| && 0 <= i < |roots| && d.active[back].Some? ==>
              && !Destroyed(orig, d, i) && (d.active[i].None? || d.isolated[i].None?)
              && (i < back && !d.InPhase(Quarantining) && !d.InPhase(Quarantined) && d.journal.Some? ==>
                   d.active[i] == orig[i])
  {
    hide Run, Inv, Destroyed;
    EveryScheduleKeepsInv(roots, orig, d0, events);
    var d := Run(roots, d0, events);
    forall back, i | 0 <= back < |roots| && 0 <= i < |roots| && d.active[back].Some?
      ensures && !Destroyed(orig, d, i) && (d.active[i].None? || d.isolated[i].None?)
              && (i < back && !d.InPhase(Quarantining) && !d.InPhase(Quarantined) && d.journal.Some? ==>
                   d.active[i] == orig[i])
    {
      OneBackMeansAllWhole(roots, orig, d, back, i);
      if i < back && d.journal.Some? && !d.InPhase(Quarantining) && !d.InPhase(Quarantined) {
        if d.InPhase(Fenced) {
          FencedIsHome(roots, orig, d, i);
        } else {
          BackIsPrefix(roots, orig, d, i, back);
        }
      }
    }
  }

  lemma FencedIsHome(roots: seq<Bytes>, orig: seq<Option<Tree>>, d: Disk, i: nat)
    requires Inv(roots, orig, d) && d.InPhase(Fenced) && i < |roots|
    ensures d.active[i] == orig[i]
  {
    assert Home(orig[i], d.active[i], d.isolated[i]);
  }

  /** Nothing is destroyed before the complete inventory of its tree is durable, and never by
      anything but a purge. */
  lemma EvidenceBeforeDeletion(roots: seq<Bytes>, orig: seq<Option<Tree>>, d0: Disk, events: seq<Event>, i: nat)
    requires Initial(roots, orig, d0) && i < |roots| && Destroyed(orig, Run(roots, d0, events), i)
    ensures var d := Run(roots, d0, events);
            && d.journal.Some? && d.journal.value.phase in {Purging, Purged}
            && Scan(orig[i].value, roots[i]).Some? && d.journal.value.roots[i].purged == Scan(orig[i].value, roots[i])
  {
    EveryScheduleKeepsInv(roots, orig, d0, events);
    InvMeansEvidence(roots, orig, Run(roots, d0, events), i);
  }

  lemma InvMeansEvidence(roots: seq<Bytes>, orig: seq<Option<Tree>>, d: Disk, i: nat)
    requires Inv(roots, orig, d) && i < |roots| && Destroyed(orig, d, i)
    ensures d.journal.Some? && d.journal.value.phase in {Purging, Purged}
    ensures Scan(orig[i].value, roots[i]).Some? && d.journal.value.roots[i].purged == Scan(orig[i].value, roots[i])
  {
    hide Scan, Leftover, WholeTrees;
    if d.journal.Some? {
      assert Truthful(roots[i], orig[i], d.journal.value.roots[i]);
    }
  }

  /** Restored and Purged are final: no call, however it goes, changes anything any more. */
  lemma FinalPhasesAbsorb(roots: seq<Bytes>, d: Disk, e: Event)
    requires d.Journaled(|roots|) && d.journal.value.phase in {Restored, Purged}
    ensures Call(roots, d, e).0 == d
  {
  }

  lemma {:induction false} FinalForever(roots: seq<Bytes>, d: Disk, events: seq<Event>)
    requires d.Journaled(|roots|) && d.journal.value.phase in {Restored, Purged}
    ensures Run(roots, d, events) == d
  {
    hide Call;
    if events != [] {
      FinalForever(roots, d, Init(events));
      FinalPhasesAbsorb(roots, d, Last(events));
    }
  }

  // ---- Deletion proofs ----

  /** The proof computed from the trees themselves, before anything was touched. */
  ghost function TrueProof(roots: seq<Bytes>, orig: seq<Option<Tree>>, n: nat): Option<Proof>
    requires n <= |roots| == |orig|
  {
    if n == 0 then Some(Proof(0, 0, 0, [])) else
    var p := TrueProof(roots, orig, n - 1);
    if p.None? then None
    else if orig[n - 1].None? then AddLine(p.value, Absent(roots[n - 1]))
    else
      var evidence := Scan(orig[n - 1].value, roots[n - 1]);
      if evidence.None? then None else AddLine(p.value, Present(roots[n - 1], evidence.value))
  }

  lemma {:induction false} AggregateIsTrue(roots: seq<Bytes>, orig: seq<Option<Tree>>, d: Disk, purge: bool, n: nat)
    requires n <= |roots| == |orig| && d.Journaled(|roots|) && AllTruthful(roots, orig, d) && Complete(d.journal.value)
    requires purge ==> GoneUpTo(orig, d, |orig|)
    ensures Aggregate(roots, d.journal.value, purge, n) == TrueProof(roots, orig, n)
  {
    hide Scan, AddLine;
    if n > 0 {
      AggregateIsTrue(roots, orig, d, purge, n - 1);
      var e := d.journal.value.roots[n - 1];
      assert e in d.journal.value.roots && Truthful(roots[n - 1], orig[n - 1], e);
      ThreeCases(e.wasPresent);
    }
  }

  lemma ClosedPhaseIsTrue(roots: seq<Bytes>, orig: seq<Option<Tree>>, d: Disk)
    requires Inv(roots, orig, d) && d.journal.Some? && d.journal.value.phase in {Quarantined, Restored, Purged}
    ensures Aggregate(roots, d.journal.value, d.journal.value.phase == Purged, |roots|) ==
            TrueProof(roots, orig, |roots|)
  {
    hide Truthful, Doomed, BackUpTo;
    AggregateIsTrue(roots, orig, d, d.journal.value.phase == Purged, |roots|);
  }

  lemma CallReportsWhatItClosed(roots: seq<Bytes>, d: Disk, e: Event)
    requires d.Shaped(|roots|) && Call(roots, d, e).1.Completed?
    ensures var (d', outcome) := Call(roots, d, e);
            && d'.Journaled(|roots|) && d'.journal.value.phase in {Quarantined, Restored, Purged}
            && outcome == Report(roots, d'.journal.value, d'.journal.value.phase == Purged)
  {
    hide QuarantineFrom, RestoreFrom, PurgeFrom, Report;
    match e {
      case FenceCall(_) =>
      case QuarantineCall(_) =>
        var d1 := Fence(roots, d, 1).SetPhase(Quarantining);
        forall n: nat ensures Closed(roots, QuarantineFrom(roots, d1, 0, n), Quarantined) {
          QuarantineShape(roots, d1, 0, n);
        }
      case RestoreCall(_) =>
        forall n: nat ensures Closed(roots, RestoreFrom(roots, d.SetPhase(Restoring), 0, n), Restored) {
          RestoreShape(roots, d.SetPhase(Restoring), 0, n);
        }
      case PurgeCall(_, rest) =>
        forall n: nat ensures Closed(roots, PurgeFrom(roots, d.SetPhase(Purging), 0, n, rest), Purged) {
          PurgeShape(roots, d.SetPhase(Purging), 0, n, rest);
        }
    }
  }

  /** Whatever was interrupted before, every proof that any call ever reports is the inventory of the
      complete original trees. In particular the proof reported at the end of a purge equals the one
      reported at quarantine. */
  lemma EveryReportedProofIsTrue(roots: seq<Bytes>, orig: seq<Option<Tree>>, d0: Disk, events: seq<Event>, e: Event)
    requires Initial(roots, orig, d0)
    ensures var outcome := Call(roots, Run(roots, d0, events), e).1;
            outcome.Completed? ==> TrueProof(roots, orig, |roots|) == Some(outcome.proof)
  {
    hide Call, Run, Inv, Aggregate;
    var d := Run(roots, d0, events);
    if Call(roots, d, e).1.Completed? {
      EveryScheduleKeepsInv(roots, orig, d0, events);
      CallKeepsInv(roots, orig, d, e);
      CallReportsWhatItClosed(roots, d, e);
      ClosedPhaseIsTrue(roots, orig, Call(roots, d, e).0);
    }
  }

  // ---- Calls that are not interrupted ----

  ghost predicate AllScan(roots: seq<Bytes>, orig: seq<Option<Tree>>, i: nat)
    requires |roots| == |orig|
  {
    forall k :: i <= k < |orig| && orig[k].Some? ==> Scan(orig[k].value, roots[k]).Some?
  }

  lemma {:induction false} QuarantineFinishes(roots: seq<Bytes>, orig: seq<Option<Tree>>, d: Disk, i: nat, stop: nat)
    requires Quarantines(roots, orig, d, i) && stop > 2 * (|roots| - i) && |orig| == |roots|
    ensures AllScan(roots, orig, i) ==> QuarantineFrom(roots, d, i, stop).0.InPhase(Quarantined)
    ensures QuarantineFrom(roots, d, i, stop).1 != Stopped
    ensures !AllScan(roots, orig, i) ==> QuarantineFrom(roots, d, i, stop).1 == Rejected
    decreases |roots| - i
  {
    hide Inv, KnownUpTo, Scan, PlanQuarantine;
    InvShape(roots, orig, d);
    if i < |roots| {
      var e := d.journal.value.roots[i];
      var plan := PlanQuarantine(roots[i], e, d.active[i], d.isolated[i]);
      QuarantineNeverSkips(roots, orig, d, i);
      if !plan.Refuse? {
        ScansWhenPlanned(roots, orig, d, i);
      }
      if plan.Record? {
        RecordQuarantine(roots, orig, d, i, plan.e);
        QuarantineFinishes(roots, orig, d.PutRoot(i, plan.e), i + 1, stop - 1);
      } else if plan.Move? {
        MoveQuarantine(roots, orig, d, i, plan.e);
        QuarantineFinishes(roots, orig, d.Isolate(i).PutRoot(i, plan.e), i + 1, stop - 2);
      }
    }
  }

  lemma ScansWhenPlanned(roots: seq<Bytes>, orig: seq<Option<Tree>>, d: Disk, i: nat)
    requires Quarantines(roots, orig, d, i) && i < |roots| == |orig|
    requires var plan := PlanQuarantine(roots[i], d.journal.value.roots[i], d.active[i], d.isolated[i]);
             plan.Record? || plan.Move?
    ensures orig[i].Some? ==> Scan(orig[i].value, roots[i]).Some?
  {
    hide Scan, WholeTrees;
    assert Truthful(roots[i], orig[i], d.journal.value.roots[i]);
  }

  lemma {:induction false} TrueProofScans(roots: seq<Bytes>, orig: seq<Option<Tree>>, n: nat, k: nat)
    requires k < n <= |roots| == |orig| && TrueProof(roots, orig, n).Some? && orig[k].Some?
    ensures Scan(orig[k].value, roots[k]).Some?
  {
    hide Scan, AddLine;
    if k < n - 1 {
      TrueProofScans(roots, orig, n - 1, k);
    }
  }

  /** A deletion for which a quarantine can still be asked: nothing was restored or purged yet. */
  predicate MayQuarantine(d: Disk) {
    d.journal.Some? ==> d.journal.value.phase in {Fenced, Quarantining, Quarantined}
  }

  /** A quarantine that is let run, whatever was interrupted before it, isolates everything exactly when
      every original tree has an inventory and nothing was restored or purged yet, and reports success
      exactly when those inventories also add up. After a restore or purge has begun it changes nothing. */
  lemma RetriedQuarantineSucceeds(roots: seq<Bytes>, orig: seq<Option<Tree>>, d: Disk, stop: nat)
    requires Inv(roots, orig, d) && stop > 2 * |roots| + 2
    ensures var (d', outcome) := Quarantine(roots, d, stop);
            && (d'.InPhase(Quarantined) <==> MayQuarantine(d) && AllScan(roots, orig, 0))
            && (outcome.Completed? <==> MayQuarantine(d) && TrueProof(roots, orig, |roots|).Some?)
            && (!MayQuarantine(d) ==> d' == d && outcome == Rejected)
  {
    hide Inv, Aggregate, QuarantineFrom, Quarantines, TrueProof, Scan;
    InvShape(roots, orig, d);
    if MayQuarantine(d) {
      FenceKeepsInv(roots, orig, d, 1);
      var d1 := Fence(roots, d, 1);
      InvShape(roots, orig, d1);
      var r := Quarantine(roots, d, stop);
      CallKeepsInv(roots, orig, d, QuarantineCall(stop));
      ProofNeedsInventories(roots, orig);
      if d1.journal.value.phase == Quarantined {
        ClosedPhaseIsTrue(roots, orig, d1);
        QuarantinedAllScan(roots, orig, d1);
      } else {
        StartsQuarantine(roots, orig, d1);
        var left := if d.journal.None? then stop - 2 else stop - 1;
        QuarantineFinishes(roots, orig, d1.SetPhase(Quarantining), 0, left);
        QuarantineClosesReported(roots, d1.SetPhase(Quarantining), 0, left);
        if r.0.InPhase(Quarantined) {
          ClosedPhaseIsTrue(roots, orig, r.0);
          QuarantinedAllScan(roots, orig, r.0);
        }
      }
    }
  }

  lemma ProofNeedsInventories(roots: seq<Bytes>, orig: seq<Option<Tree>>)
    requires |roots| == |orig|
    ensures TrueProof(roots, orig, |roots|).Some? ==> AllScan(roots, orig, 0)
  {
    hide TrueProof, Scan;
    if TrueProof(roots, orig, |roots|).Some? {
      forall k | 0 <= k < |orig| && orig[k].Some? ensures Scan(orig[k].value, roots[k]).Some? {
        TrueProofScans(roots, orig, |roots|, k);
      }
    }
  }

  lemma QuarantinedAllScan(roots: seq<Bytes>, orig: seq<Option<Tree>>, d: Disk)
    requires Inv(roots, orig, d) && d.InPhase(Quarantined)
    ensures |orig| == |roots| && AllScan(roots, orig, 0)
  {
    hide Scan, WholeTrees, BackUpTo;
    forall k | 0 <= k < |orig| && orig[k].Some? ensures Scan(orig[k].value, roots[k]).Some? {
      var e := d.journal.value.roots[k];
      assert e in d.journal.value.roots && Truthful(roots[k], orig[k], e);
      ThreeCases(e.wasPresent);
    }
  }

  lemma {:induction false} QuarantineClosesReported(roots: seq<Bytes>, d: Disk, i: nat, stop: nat)
    requires d.Journaled(|roots|) && i <= |roots| && d.journal.value.phase == Quarantining
    ensures var r := QuarantineFrom(roots, d, i, stop);
            r.0.Journaled(|roots|)
            && (r.0.journal.value.phase == Quarantined ==> r.1 == Report(roots, r.0.journal.value, false))
    decreases |roots| - i
  {
    hide PlanQuarantine, Report;
    if i < |roots| {
      var plan := PlanQuarantine(roots[i], d.journal.value.roots[i], d.active[i], d.isolated[i]);
      if plan.Skip? {
        QuarantineClosesReported(roots, d, i + 1, stop);
      } else if plan.Record? && stop > 0 {
        QuarantineClosesReported(roots, d.PutRoot(i, plan.e), i + 1, stop - 1);
      } else if plan.Move? && stop > 1 {
        QuarantineClosesReported(roots, d.Isolate(i).PutRoot(i, plan.e), i + 1, stop - 2);
      }
    }
  }

  lemma {:induction false} RestoreFinishes(roots: seq<Bytes>, orig: seq<Option<Tree>>, d: Disk, i: nat, k: nat,
                                           stop: nat)
    requires Restores(roots, orig, d, i, k) && stop > 2 * (|roots| - i) && |orig| == |roots|
    ensures var r := RestoreFrom(roots, d, i, stop);
            r.0.Journaled(|roots|) && r.0.InPhase(Restored) && r.1 == Report(roots, r.0.journal.value, false)
    decreases |roots| - i
  {
    hide Inv, Scan, PlanRestore, BackUpTo, Report;
    InvShape(roots, orig, d);
    if i < |roots| {
      var plan := PlanRestore(roots[i], d.journal.value.roots[i], d.active[i], d.isolated[i]);
      RestoreOne(roots, orig, d, i, k);
      KnownRootScans(roots, orig, d, i);
      if plan.Skip? {
        RestoreFinishes(roots, orig, d, i + 1, Max(k, i + 1), stop);
      } else if plan.Record? {
        RestoreFinishes(roots, orig, d, i + 1, k, stop - 1);
      } else {
        RestoreFinishes(roots, orig, d.Return(i), i + 1, i + 1, stop - 2);
      }
    }
  }

  lemma KnownRootScans(roots: seq<Bytes>, orig: seq<Option<Tree>>, d: Disk, i: nat)
    requires Inv(roots, orig, d) && d.journal.Some? && i < |roots| && d.journal.value.phase == Restoring
    ensures orig[i].Some? ==> Scan(orig[i].value, roots[i]).Some?
  {
    hide Scan, WholeTrees, Doomed, BackUpTo;
    var e := d.journal.value.roots[i];
    assert e in d.journal.value.roots && Truthful(roots[i], orig[i], e);
    ThreeCases(e.wasPresent);
  }

  /** What restore looks at before it does anything: a journal that knows every root, and no purge. */
  predicate MayRestore(d: Disk) {
    d.journal.Some? && d.journal.value.phase !in {Purging, Purged} && !Incomplete(d.journal.value)
  }

  /** A restore that is let run puts every tree back where it was exactly when the quarantine inventory is
      complete and no purge was asked for. Otherwise, a quarantine that stopped halfway included, it is
      refused and changes nothing. */
  lemma RetriedRestoreReturnsEverything(roots: seq<Bytes>, orig: seq<Option<Tree>>, d: Disk, stop: nat)
    requires Inv(roots, orig, d) && stop > 2 * |roots| + 1
    ensures var (d', outcome) := Restore(roots, d, stop);
            && (d'.InPhase(Restored) <==> MayRestore(d))
            && (MayRestore(d) ==> d'.active == orig && d'.isolated == seq(|roots|, _ => None))
            && (MayRestore(d) ==> (outcome.Completed? <==> TrueProof(roots, orig, |roots|).Some?))
            && (!MayRestore(d) ==> d' == d && outcome == Rejected)
  {
    hide Inv, RestoreFrom, Aggregate, Incomplete, Restores, TrueProof;
    InvShape(roots, orig, d);
    if MayRestore(d) {
      CallKeepsInv(roots, orig, d, RestoreCall(stop));
      if d.journal.value.phase != Restored {
        var k := StartsRestore(roots, orig, d);
        RestoreFinishes(roots, orig, d.SetPhase(Restoring), 0, k, stop - 1);
      }
      RestoredIsHome(roots, orig, Restore(roots, d, stop).0);
      ClosedPhaseIsTrue(roots, orig, Restore(roots, d, stop).0);
    } else if d.journal.Some? {
      RestoredIsKnown(roots, orig, d);
    }
  }

  lemma RestoredIsKnown(roots: seq<Bytes>, orig: seq<Option<Tree>>, d: Disk)
    requires Inv(roots, orig, d) && d.journal.Some?
    ensures d.journal.value.phase !in {Fenced, Quarantining} ==> !Incomplete(d.journal.value)
    ensures d.InPhase(Purged) ==> forall i :: 0 <= i < |roots| ==> d.active[i].None? && d.isolated[i].None?
  {
    hide Truthful, WholeTrees, Leftover, BackUpTo, NothingPurged;
    CompleteIffNotIncomplete(d.journal.value);
    if d.InPhase(Purged) {
      PurgedIsEmpty(roots, orig, d);
    }
  }

  lemma RestoredIsHome(roots: seq<Bytes>, orig: seq<Option<Tree>>, d: Disk)
    requires Inv(roots, orig, d) && d.InPhase(Restored)
    ensures d.active == orig && d.isolated == seq(|roots|, _ => None)
  {
    hide Truthful, WholeTrees;
    var none := seq(|roots|, _ => None);
    assert forall i :: 0 <= i < |orig| ==> Home(orig[i], d.active[i], d.isolated[i]);
    assert forall i :: 0 <= i < |orig| ==> d.isolated[i] == none[i];
  }

  lemma LeftoverDeletable(t: Tree, rest: Tree)
    requires Leftover(t, rest) && Scannable(t)
    ensures Deletable(rest)
  {
  }

  /** A purge under way with nothing back, having destroyed what it passed. */
  ghost predicate Destroys(roots: seq<Bytes>, orig: seq<Option<Tree>>, d: Disk, i: nat) {
    Purges(roots, orig, d, i) && AllDoomed(orig, d) && GoneUpTo(orig, d, i)
  }

  lemma {:induction false} PurgeFinishes(roots: seq<Bytes>, orig: seq<Option<Tree>>, d: Disk, i: nat, stop: nat,
                                         rest: Tree)
    requires Destroys(roots, orig, d, i) && stop > 2 * (|roots| - i)
    ensures var r := PurgeFrom(roots, d, i, stop, rest);
            r.0.Journaled(|roots|) && r.0.InPhase(Purged) && r.1 == Report(roots, r.0.journal.value, true)
    decreases |roots| - i, 1
  {
    hide Inv, AllDoomed, GoneUpTo, PartlyBack, NothingPurged, Scan, Deletable, Leftover, Report;
    InvShape(roots, orig, d);
    if i < |roots| {
      var e := d.journal.value.roots[i];
      DoomedRoot(roots, orig, d, i);
      if e.wasPresent == Some(false) || (d.isolated[i].None? && e.purged.Some?) {
        AbsentRoot(roots, orig, d, i);
        GoneOn(roots, orig, d, i);
        PurgeFinishes(roots, orig, d, i + 1, stop, rest);
      } else if e.purged.Some? {
        DestroyFinishes(roots, orig, d, i, stop, rest);
      } else {
        RecordPurge(roots, orig, d, i);
        RecordKeepsGone(roots, orig, d, i, e.(purged := Scan(d.isolated[i].value, roots[i])));
        DestroyFinishes(roots, orig, d.PutRoot(i, e.(purged := Scan(d.isolated[i].value, roots[i]))), i, stop - 1,
                        rest);
      }
    }
  }

  lemma {:induction false} DestroyFinishes(roots: seq<Bytes>, orig: seq<Option<Tree>>, d: Disk, i: nat, stop: nat,
                                           rest: Tree)
    requires Destroys(roots, orig, d, i) && stop > 2 * (|roots| - i) - 1
    requires i < |roots| && d.isolated[i].Some? && d.journal.value.roots[i].purged.Some?
    ensures var r := DestroyThenPurge(roots, d, i, stop, rest);
            r.0.Journaled(|roots|) && r.0.InPhase(Purged) && r.1 == Report(roots, r.0.journal.value, true)
    decreases |roots| - i, 0
  {
    hide Inv, AllDoomed, GoneUpTo, PartlyBack, NothingPurged, Scan, Deletable, Leftover, Report;
    InvShape(roots, orig, d);
    DoomedDeletable(roots, orig, d, i);
    DestroyPart(roots, orig, d, i, None);
    var d' := d.SetIsolated(i, None);
    AfterDestroying(roots, orig, d, i);
    PurgeFinishes(roots, orig, d', i + 1, stop - 1, rest);
  }

  lemma RecordKeepsGone(roots: seq<Bytes>, orig: seq<Option<Tree>>, d: Disk, i: nat, e: RootEntry)
    requires Purges(roots, orig, d, i) && GoneUpTo(orig, d, i) && i < |roots|
    ensures GoneUpTo(orig, d.PutRoot(i, e), i)
  {
  }

  lemma AfterDestroying(roots: seq<Bytes>, orig: seq<Option<Tree>>, d: Disk, i: nat)
    requires Purges(roots, orig, d, i) && AllDoomed(orig, d)
    requires i < |roots| && d.isolated[i].Some? && d.journal.value.roots[i].purged.Some?
    ensures AllDoomed(orig, d.SetIsolated(i, None)) && GoneUpTo(orig, d.SetIsolated(i, None), i + 1)
  {
    hide Truthful, WholeTrees, Leftover;
    PastTheReturned(roots, orig, d, i);
  }

  lemma DoomedDeletable(roots: seq<Bytes>, orig: seq<Option<Tree>>, d: Disk, i: nat)
    requires Purges(roots, orig, d, i) && AllDoomed(orig, d)
    requires i < |roots| && d.isolated[i].Some? && d.journal.value.roots[i].purged.Some?
    ensures Deletable(d.isolated[i].value)
  {
    hide Leftover, WholeTrees, Deletable;
    assert Doomed(orig[i], d.journal.value.roots[i], d.active[i], d.isolated[i]);
    assert Truthful(roots[i], orig[i], d.journal.value.roots[i]);
    LeftoverDeletable(orig[i].value, d.isolated[i].value);
  }

  lemma DoomedRoot(roots: seq<Bytes>, orig: seq<Option<Tree>>, d: Disk, i: nat)
    requires Purges(roots, orig, d, i) && AllDoomed(orig, d) && i < |roots|
    ensures var e := d.journal.value.roots[i];
            && (e.wasPresent != Some(false) && e.purged.None? ==>
                 d.isolated[i].Some? && Scan(d.isolated[i].value, roots[i]).Some?)
  {
    hide Scan, Leftover, WholeTrees;
    var e := d.journal.value.roots[i];
    assert e in d.journal.value.roots;
    assert Doomed(orig[i], e, d.active[i], d.isolated[i]);
    assert Truthful(roots[i], orig[i], e);
    ThreeCases(e.wasPresent);
  }

  lemma GoneOn(roots: seq<Bytes>, orig: seq<Option<Tree>>, d: Disk, i: nat)
    requires Purges(roots, orig, d, i) && AllDoomed(orig, d) && GoneUpTo(orig, d, i) && i < |roots|
    requires d.journal.value.roots[i].wasPresent == Some(false)
             || (d.isolated[i].None? && d.journal.value.roots[i].purged.Some?)
    ensures GoneUpTo(orig, d, i + 1)
  {
    hide Scan, Leftover, WholeTrees;
    assert Doomed(orig[i], d.journal.value.roots[i], d.active[i], d.isolated[i]);
    assert Truthful(roots[i], orig[i], d.journal.value.roots[i]);
  }

  /** What purge looks at before it does anything: a journal that knows every root, and nothing restored. */
  predicate MayPurge(d: Disk) {
    d.journal.Some? && d.journal.value.phase != Restored && !Incomplete(d.journal.value)
  }

  predicate NothingBack(d: Disk) {
    forall i :: 0 <= i < |d.active| ==> d.active[i].None?
  }

  /** A purge that is let run destroys everything exactly when the quarantine inventory is complete, the
      deletion was not restored, and no tree is back at its managed path. If a tree is back, which takes
      a restore that was interrupted, it destroys nothing and fails, leaving only its phase behind. In all
      other cases, a quarantine that stopped halfway included, it is refused and changes nothing. */
  lemma RetriedPurgeFinishesUnlessReturned(roots: seq<Bytes>, orig: seq<Option<Tree>>, d: Disk, stop: nat, rest: Tree)
    requires Inv(roots, orig, d) && stop > 2 * |roots| + 1
    ensures var (d', outcome) := Purge(roots, d, stop, rest);
            && (d'.InPhase(Purged) <==> MayPurge(d) && NothingBack(d))
            && (d'.InPhase(Purged) ==> d'.active == d'.isolated == seq(|roots|, _ => None))
            && (d'.InPhase(Purged) ==> (outcome.Completed? <==> TrueProof(roots, orig, |roots|).Some?))
            && (MayPurge(d) && !NothingBack(d) ==> d' == d.SetPhase(Purging) && outcome == Rejected)
            && (!MayPurge(d) ==> d' == d && outcome == Rejected)
  {
    hide Inv, PurgeFrom, Aggregate, Incomplete, Purges, Scan, TrueProof;
    InvShape(roots, orig, d);
    if d.journal.Some? {
      RestoredIsKnown(roots, orig, d);
    }
    if MayPurge(d) {
      var r := Purge(roots, d, stop, rest);
      if NothingBack(d) {
        if d.journal.value.phase != Purged {
          StartsPurge(roots, orig, d);
          var d1 := d.SetPhase(Purging);
          NothingBackMeansDoomed(roots, orig, d1);
          PurgeFinishes(roots, orig, d1, 0, stop - 1, rest);
        }
        CallKeepsInv(roots, orig, d, PurgeCall(stop, rest));
        InvShape(roots, orig, r.0);
        PurgedIsEmpty(roots, orig, r.0);
        ClosedPhaseIsTrue(roots, orig, r.0);
        var none := seq(|roots|, _ => None);
        assert r.0.active == none && r.0.isolated == none;
      } else {
        StartsPurge(roots, orig, d);
        var i :| 0 <= i < |roots| && d.active[i].Some?;
        ReturnedBlocksPurge(roots, orig, d.SetPhase(Purging), 0, stop - 1, rest, i);
      }
    }
  }

  lemma NothingBackMeansDoomed(roots: seq<Bytes>, orig: seq<Option<Tree>>, d: Disk)
    requires Purges(roots, orig, d, 0) && forall i :: 0 <= i < |roots| ==> d.active[i].None?
    ensures AllDoomed(orig, d) && GoneUpTo(orig, d, 0)
  {
    hide Truthful, WholeTrees, Leftover;
    if PartlyBack(orig, d) && NothingPurged(d) {
      var k: nat :| BackUpTo(orig, d, k);
      forall i | 0 <= i < |orig| ensures Doomed(orig[i], d.journal.value.roots[i], d.active[i], d.isolated[i]) {
        assert d.journal.value.roots[i] in d.journal.value.roots;
      }
    }
  }

  lemma PurgedIsEmpty(roots: seq<Bytes>, orig: seq<Option<Tree>>, d: Disk)
    requires Inv(roots, orig, d) && d.journal.Some? && d.journal.value.phase == Purged
    ensures forall i :: 0 <= i < |roots| ==> d.active[i].None? && d.isolated[i].None?
  {
    hide Truthful, WholeTrees, Leftover;
    assert forall i :: 0 <= i < |orig| ==> Doomed(orig[i], d.journal.value.roots[i], d.active[i], d.isolated[i]);
  }

  lemma {:induction false} ReturnedBlocksPurge(roots: seq<Bytes>, orig: seq<Option<Tree>>, d: Disk, i: nat, stop: nat,
                                               rest: Tree, back: nat)
    requires Purges(roots, orig, d, i) && i <= back < |roots| && d.active[back].Some?
    ensures PurgeFrom(roots, d, i, stop, rest) == (d, Rejected)
    decreases |roots| - i
  {
    hide Inv, Scan, Leftover, DestroyThenPurge, AllDoomed, PartlyBack, NothingPurged;
    InvShape(roots, orig, d);
    BackRootBlocks(roots, orig, d, i, back);
    if d.journal.value.roots[i].wasPresent == Some(false) {
      AbsentRoot(roots, orig, d, i);
      ReturnedBlocksPurge(roots, orig, d, i + 1, stop, rest, back);
    }
  }

  lemma BackRootBlocks(roots: seq<Bytes>, orig: seq<Option<Tree>>, d: Disk, i: nat, back: nat)
    requires Purges(roots, orig, d, i) && i <= back < |roots| == |orig| && d.active[back].Some?
    ensures d.journal.value.roots[i].purged.None? && d.isolated[i].None?
    ensures d.journal.value.roots[i].wasPresent == Some(false) ==> i < back
  {
    hide WholeTrees, Leftover, Scan;
    var j := d.journal.value;
    assert j.roots[i] in j.roots;
    assert Truthful(roots[i], orig[i], j.roots[i]);
    assert !AllDoomed(orig, d) by {
      assert !Doomed(orig[back], j.roots[back], d.active[back], d.isolated[back]);
    }
    var k: nat :| BackUpTo(orig, d, k);
    assert k > back by {
      assert !Away(orig[back], d.active[back], d.isolated[back]);
    }
    assert Home(orig[i], d.active[i], d.isolated[i]);
  }

  /** Once a purge has been asked for while a tree was back, nothing moves any more: every call fails
      or is refused and leaves the disk as it is, for good. */
  lemma ReturnedDuringPurgeIsStuck(roots: seq<Bytes>, orig: seq<Option<Tree>>, d: Disk, e: Event, back: nat)
    requires Inv(roots, orig, d) && d.journal.Some? && d.journal.value.phase == Purging
    requires back < |roots| && d.active[back].Some?
    ensures Call(roots, d, e).0 == d && !Call(roots, d, e).1.Completed?
  {
    hide Inv, PurgeFrom, Incomplete, QuarantineFrom, RestoreFrom, Purges;
    InvShape(roots, orig, d);
    assert d.SetPhase(Purging) == d;
    if e.PurgeCall? && !Incomplete(d.journal.value) && e.stop > 0 {
      StartsPurge(roots, orig, d);
      ReturnedBlocksPurge(roots, orig, d, 0, e.stop - 1, e.rest, back);
    }
  }

  /** Such a state can be reached, with any tree at all: quarantine it, lose the restore right after the
      tree moved back, and ask for a purge. */
  lemma StuckIsReachable(root: Bytes, t: Tree, rest: Tree)
    requires WellFormed(t) && Scan(t, root).Some?
    ensures var d0 := Disk(None, [Some(t)], [None]);
            var d := Run([root], d0, [QuarantineCall(5), RestoreCall(2), PurgeCall(1, rest)]);
            Initial([root], [Some(t)], d0) && d.InPhase(Purging) && d.active[0] == Some(t)
  {
    hide Scan, Call, Run;
    var roots := [root];
    var d0 := Disk(None, [Some(t)], [None]);
    assert d0.isolated == seq(1, _ => None);
    var q, r, p := QuarantineCall(5), RestoreCall(2), PurgeCall(1, rest);
    AfterQuarantine(root, t);
    AfterReturn(root, t);
    AfterPurge(root, t, rest);
    RunNothing(roots, d0);
    RunStep(roots, d0, [], q);
    assert [] + [q] == [q];
    RunStep(roots, d0, [q], r);
    assert [q] + [r] == [q, r];
    RunStep(roots, d0, [q, r], p);
    assert [q, r] + [p] == [q, r, p];
  }

  lemma AfterPurge(root: Bytes, t: Tree, rest: Tree)
    ensures var e := RootEntry(Some(true), Scan(t, root), None);
            Call([root], Disk(Some(Journal(Restoring, [e])), [Some(t)], [None]), PurgeCall(1, rest)) ==
            (Disk(Some(Journal(Purging, [e])), [Some(t)], [None]), Rejected)
  {
    hide Scan;
  }

  lemma RunNothing(roots: seq<Bytes>, d: Disk)
    requires d.Shaped(|roots|)
    ensures Run(roots, d, []) == d
  {
  }

  lemma RunStep(roots: seq<Bytes>, d: Disk, events: seq<Event>, e: Event)
    requires d.Shaped(|roots|)
    ensures Run(roots, d, events + [e]) == Call(roots, Run(roots, d, events), e).0
  {
    assert Init(events + [e]) == events;
  }

  lemma AfterQuarantine(root: Bytes, t: Tree)
    requires Scan(t, root).Some?
    ensures Call([root], Disk(None, [Some(t)], [None]), QuarantineCall(5)).0 ==
            Disk(Some(Journal(Quarantined, [RootEntry(Some(true), Scan(t, root), None)])), [None], [Some(t)])
  {
    hide Scan, Report;
    var blank := RootEntry(None, None, None);
    var e := RootEntry(Some(true), Scan(t, root), None);
    assert FreshJournal(1) == Journal(Fenced, [blank]);
    var d := Disk(Some(Journal(Quarantining, [blank])), [Some(t)], [None]);
    assert PlanQuarantine(root, blank, Some(t), None) == Move(e);
    assert d.active[0 := None] == [None] && d.isolated[0 := Some(t)] == [Some(t)] && [blank][0 := e] == [e];
    assert d.Isolate(0).PutRoot(0, e) == Disk(Some(Journal(Quarantining, [e])), [None], [Some(t)]);
    assert QuarantineFrom([root], d, 0, 3).0 == Disk(Some(Journal(Quarantined, [e])), [None], [Some(t)]);
  }

  /** A quarantine lost right after its rename leaves the tree away and the journal without it, whatever
      the tree: neither restore nor purge will have it until the quarantine is asked for again. */
  lemma HalfwayIsRefused(root: Bytes, t: Tree)
    requires WellFormed(t) && Scan(t, root).Some?
    ensures var d := Run([root], Disk(None, [Some(t)], [None]), [QuarantineCall(3)]);
            d.active == [None] && d.isolated == [Some(t)] && NothingBack(d) && !MayRestore(d) && !MayPurge(d)
  {
    hide Scan, Run;
    var d0 := Disk(None, [Some(t)], [None]);
    var blank := RootEntry(None, None, None);
    assert FreshJournal(1) == Journal(Fenced, [blank]);
    var d := Disk(Some(Journal(Quarantining, [blank])), [Some(t)], [None]);
    assert PlanQuarantine(root, blank, Some(t), None).Move?;
    assert d.active[0 := None] == [None] && d.isolated[0 := Some(t)] == [Some(t)];
    assert QuarantineFrom([root], d, 0, 1).0 == d.Isolate(0);
    assert blank in d.Isolate(0).journal.value.roots;
    RunNothing([root], d0);
    RunStep([root], d0, [], QuarantineCall(3));
    assert [] + [QuarantineCall(3)] == [QuarantineCall(3)];
  }

  lemma AfterReturn(root: Bytes, t: Tree)
    requires Scan(t, root).Some?
    ensures var e := RootEntry(Some(true), Scan(t, root), None);
            Call([root], Disk(Some(Journal(Quarantined, [e])), [None], [Some(t)]), RestoreCall(2)).0 ==
            Disk(Some(Journal(Restoring, [e])), [Some(t)], [None])
  {
    hide Scan, Report;
    var e := RootEntry(Some(true), Scan(t, root), None);
    var d := Disk(Some(Journal(Restoring, [e])), [None], [Some(t)]);
    assert PlanRestore(root, e, None, Some(t)) == Move(e);
    assert d.isolated[0 := None] == [None] && d.active[0 := Some(t)] == [Some(t)];
    assert d.Return(0) == Disk(Some(Journal(Restoring, [e])), [Some(t)], [None]);
    assert RestoreFrom([root], d, 0, 1).0 == d.Return(0);
  }
}
