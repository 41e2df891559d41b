/** Every call keeps the lifecycle invariant, wherever it stops. */
module LifecycleProof {
  import opened Base
  import opened Trees
  import opened Inventory
  import opened Lifecycle

  // ---- One root ----

  lemma ThreeCases(known: Option<bool>)
    ensures known == None || known == Some(true) || known == Some(false)
  {
    if known.Some? {
      if known.value {
        assert known == Some(true);
      } else {
        assert known == Some(false);
      }
    }
  }

  lemma PlanQuarantineSound(root: Bytes, orig: Option<Tree>, e: RootEntry, active: Option<Tree>, isolated: Option<Tree>)
    requires Truthful(root, orig, e) && e.purged.None?
    requires Away(orig, active, isolated) || (Home(orig, active, isolated) && e.wasPresent.None?)
    ensures var plan := PlanQuarantine(root, e, active, isolated);
            && !plan.Skip?
            && (plan.Record? ==>
                 Truthful(root, orig, plan.e) && plan.e.wasPresent.Some? && plan.e.purged.None?
                   && Away(orig, active, isolated))
            && (plan.Move? ==>
                 Truthful(root, orig, plan.e) && plan.e.wasPresent.Some? && plan.e.purged.None?
                   && Home(orig, active, isolated))
            && (plan.Refuse? ==> orig.Some? && Scan(orig.value, root).None?)
  {
    hide Scan;
    ThreeCases(e.wasPresent);
  }

  lemma PlanRestoreSound(root: Bytes, orig: Option<Tree>, e: RootEntry, active: Option<Tree>, isolated: Option<Tree>)
    requires Truthful(root, orig, e) && e.purged.None? && e.wasPresent.Some?
    requires Away(orig, active, isolated) || Home(orig, active, isolated)
    ensures var plan := PlanRestore(root, e, active, isolated);
            && (plan.Skip? ==> orig.None?)
            && (plan.Record? ==> plan.e == e && Home(orig, active, isolated) && orig.Some?)
            && (plan.Move? ==> plan.e == e && Away(orig, active, isolated) && orig.Some?)
            && (plan.Refuse? ==> orig.Some? && Scan(orig.value, root).None?)
  {
    hide Scan;
    ThreeCases(e.wasPresent);
  }

  // ---- Quarantine ----

  /** The loop's own invariant: what it has passed is in the journal. */
  ghost predicate KnownUpTo(j: Journal, i: nat) {
    forall k :: 0 <= k < |j.roots| && k < i ==> j.roots[k].wasPresent.Some?
  }

  ghost predicate Quarantines(roots: seq<Bytes>, orig: seq<Option<Tree>>, d: Disk, i: nat) {
    && Inv(roots, orig, d) && d.journal.Some? && d.journal.value.phase == Quarantining
    && i <= |roots| && KnownUpTo(d.journal.value, i)
  }

  lemma RecordQuarantine(roots: seq<Bytes>, orig: seq<Option<Tree>>, d: Disk, i: nat, e: RootEntry)
    requires Quarantines(roots, orig, d, i) && i < |roots|
    requires PlanQuarantine(roots[i], d.journal.value.roots[i], d.active[i], d.isolated[i]) == Record(e)
    ensures Quarantines(roots, orig, d.PutRoot(i, e), i + 1)
  {
    hide PlanQuarantine, Truthful;
    PlanQuarantineSound(roots[i], orig[i], d.journal.value.roots[i], d.active[i], d.isolated[i]);
  }

  lemma MoveQuarantine(roots: seq<Bytes>, orig: seq<Option<Tree>>, d: Disk, i: nat, e: RootEntry)
    requires Quarantines(roots, orig, d, i) && i < |roots|
    requires PlanQuarantine(roots[i], d.journal.value.roots[i], d.active[i], d.isolated[i]) == Move(e)
    ensures Inv(roots, orig, d.Isolate(i))
    ensures Quarantines(roots, orig, d.Isolate(i).PutRoot(i, e), i + 1)
  {
    hide PlanQuarantine, Truthful;
    PlanQuarantineSound(roots[i], orig[i], d.journal.value.roots[i], d.active[i], d.isolated[i]);
  }

  lemma {:induction false} QuarantineKeepsInv(roots: seq<Bytes>, orig: seq<Option<Tree>>, d: Disk, i: nat, stop: nat)
    requires Quarantines(roots, orig, d, i)
    ensures Inv(roots, orig, QuarantineFrom(roots, d, i, stop).0)
    decreases |roots| - i
  {
    hide Inv, PlanQuarantine, KnownUpTo;
    InvShape(roots, orig, d);
    if i == |roots| {
      ClosesQuarantine(roots, orig, d);
    } else {
      var plan := PlanQuarantine(roots[i], d.journal.value.roots[i], d.active[i], d.isolated[i]);
      QuarantineNeverSkips(roots, orig, d, i);
      if plan.Record? {
        RecordQuarantine(roots, orig, d, i, plan.e);
        if stop > 0 {
          QuarantineKeepsInv(roots, orig, d.PutRoot(i, plan.e), i + 1, stop - 1);
        }
      } else if plan.Move? {
        MoveQuarantine(roots, orig, d, i, plan.e);
        if stop > 1 {
          QuarantineKeepsInv(roots, orig, d.Isolate(i).PutRoot(i, plan.e), i + 1, stop - 2);
        }
      }
    }
  }

  lemma QuarantineNeverSkips(roots: seq<Bytes>, orig: seq<Option<Tree>>, d: Disk, i: nat)
    requires Quarantines(roots, orig, d, i) && i < |roots|
    ensures var plan := PlanQuarantine(roots[i], d.journal.value.roots[i], d.active[i], d.isolated[i]);
            !plan.Skip? && (plan.Refuse? ==> orig[i].Some? && Scan(orig[i].value, roots[i]).None?)
  {
    hide PlanQuarantine, Truthful;
    PlanQuarantineSound(roots[i], orig[i], d.journal.value.roots[i], d.active[i], d.isolated[i]);
  }

  lemma InvShape(roots: seq<Bytes>, orig: seq<Option<Tree>>, d: Disk)
    requires Inv(roots, orig, d)
    ensures |orig| == |roots| && d.Shaped(|roots|)
  {
  }

  lemma ClosesQuarantine(roots: seq<Bytes>, orig: seq<Option<Tree>>, d: Disk)
    requires Quarantines(roots, orig, d, |roots|)
    ensures Inv(roots, orig, d.SetPhase(Quarantined)) && Complete(d.journal.value)
  {
    hide Truthful;
  }

  // ---- Restore ----

  /** The loop's own invariant: everything it has passed is back. */
  ghost predicate Restores(roots: seq<Bytes>, orig: seq<Option<Tree>>, d: Disk, i: nat, k: nat) {
    && Inv(roots, orig, d) && d.journal.Some? && d.journal.value.phase == Restoring
    && i <= |roots| && i <= k && BackUpTo(orig, d, k)
  }

  lemma RestoreOne(roots: seq<Bytes>, orig: seq<Option<Tree>>, d: Disk, i: nat, k: nat)
    requires Restores(roots, orig, d, i, k) && i < |roots|
    ensures var plan := PlanRestore(roots[i], d.journal.value.roots[i], d.active[i], d.isolated[i]);
            && (plan.Skip? ==> Restores(roots, orig, d, i + 1, Max(k, i + 1)))
            && (plan.Record? ==> d.PutRoot(i, plan.e) == d && Restores(roots, orig, d, i + 1, k))
            && (plan.Move? ==>
                 d.Return(i).PutRoot(i, plan.e) == d.Return(i) && Restores(roots, orig, d.Return(i), i + 1, i + 1))
            && (plan.Refuse? ==> orig[i].Some? && Scan(orig[i].value, roots[i]).None?)
  {
    hide PlanRestore, Truthful;
    var j := d.journal.value;
    assert j.roots[i] in j.roots;
    PlanRestoreSound(roots[i], orig[i], j.roots[i], d.active[i], d.isolated[i]);
    var plan := PlanRestore(roots[i], j.roots[i], d.active[i], d.isolated[i]);
    assert j.roots[i := j.roots[i]] == j.roots;
    if plan.Move? {
      assert BackUpTo(orig, d.Return(i), i + 1);
    } else if plan.Skip? {
      assert BackUpTo(orig, d, Max(k, i + 1));
    } else if plan.Record? {
      assert k > i;
    }
  }

  lemma {:induction false} RestoreKeepsInv(roots: seq<Bytes>, orig: seq<Option<Tree>>, d: Disk, i: nat, k: nat,
                                           stop: nat)
    requires Restores(roots, orig, d, i, k)
    ensures Inv(roots, orig, RestoreFrom(roots, d, i, stop).0)
    decreases |roots| - i
  {
    hide Inv, PlanRestore, BackUpTo;
    InvShape(roots, orig, d);
    if i == |roots| {
      ClosesRestore(roots, orig, d, k);
    } else {
      var plan := PlanRestore(roots[i], d.journal.value.roots[i], d.active[i], d.isolated[i]);
      RestoreOne(roots, orig, d, i, k);
      if plan.Skip? {
        RestoreKeepsInv(roots, orig, d, i + 1, Max(k, i + 1), stop);
      } else if plan.Record? && stop > 0 {
        RestoreKeepsInv(roots, orig, d, i + 1, k, stop - 1);
      } else if plan.Move? && stop > 1 {
        RestoreKeepsInv(roots, orig, d.Return(i), i + 1, i + 1, stop - 2);
      }
    }
  }

  lemma ClosesRestore(roots: seq<Bytes>, orig: seq<Option<Tree>>, d: Disk, k: nat)
    requires Restores(roots, orig, d, |roots|, k)
    ensures Inv(roots, orig, d.SetPhase(Restored))
  {
    hide Truthful;
  }

  // ---- Purge ----

  /** The loop's own invariant: what it has passed is destroyed, or some root is back and it has
      passed only roots that were never there. */
  ghost predicate Purges(roots: seq<Bytes>, orig: seq<Option<Tree>>, d: Disk, i: nat) {
    && Inv(roots, orig, d) && d.journal.Some? && d.journal.value.phase == Purging && i <= |roots|
    && ((AllDoomed(orig, d) && GoneUpTo(orig, d, i)) ||
        (PartlyBack(orig, d) && NothingPurged(d) && forall k :: 0 <= k < |orig| && k < i ==> orig[k].None?))
  }

  /** If the purge gets past the roots that are back, there are none. */
  lemma PastTheReturned(roots: seq<Bytes>, orig: seq<Option<Tree>>, d: Disk, i: nat)
    requires Purges(roots, orig, d, i)
    requires i < |roots| ==> d.isolated[i].Some? || d.journal.value.roots[i].purged.Some?
    ensures AllDoomed(orig, d) && GoneUpTo(orig, d, i)
  {
    hide Truthful, Leftover, WellFormed;
    if !(AllDoomed(orig, d) && GoneUpTo(orig, d, i)) {
      var k: nat :| BackUpTo(orig, d, k);
      var j := d.journal.value;
      assert i < |orig| ==> j.roots[i] in j.roots && k <= i;
      forall m | 0 <= m < |orig| ensures Away(orig[m], d.active[m], d.isolated[m]) && j.roots[m].purged.None? {
        assert j.roots[m] in j.roots;
      }
    }
  }

  lemma AbsentRoot(roots: seq<Bytes>, orig: seq<Option<Tree>>, d: Disk, i: nat)
    requires Purges(roots, orig, d, i) && i < |roots|
    requires d.journal.value.roots[i].wasPresent == Some(false)
             || (d.isolated[i].None? && d.journal.value.roots[i].purged.Some?)
    ensures Purges(roots, orig, d, i + 1)
  {
    hide WellFormed, Leftover;
    assert Truthful(roots[i], orig[i], d.journal.value.roots[i]);
    if d.journal.value.roots[i].purged.Some? {
      PastTheReturned(roots, orig, d, i);
    }
  }

  lemma RecordPurge(roots: seq<Bytes>, orig: seq<Option<Tree>>, d: Disk, i: nat)
    requires Purges(roots, orig, d, i) && i < |roots| && d.isolated[i].Some? && d.journal.value.roots[i].purged.None?
    requires d.journal.value.roots[i].wasPresent != Some(false) && Scan(d.isolated[i].value, roots[i]).Some?
    ensures var d' := d.PutRoot(i, d.journal.value.roots[i].(purged := Scan(d.isolated[i].value, roots[i])));
            Purges(roots, orig, d', i) && d'.isolated[i] == d.isolated[i] && AllDoomed(orig, d')
  {
    hide WellFormed, Scan;
    PastTheReturned(roots, orig, d, i);
    var j := d.journal.value;
    assert j.roots[i] in j.roots && orig[i] in orig;
    assert Truthful(roots[i], orig[i], j.roots[i]);
    ThreeCases(j.roots[i].wasPresent);
    var d' := d.PutRoot(i, j.roots[i].(purged := Scan(d.isolated[i].value, roots[i])));
    assert Truthful(roots[i], orig[i], d'.journal.value.roots[i]);
    forall m | 0 <= m < |orig| ensures Doomed(orig[m], d'.journal.value.roots[m], d'.active[m], d'.isolated[m]) {
      assert Doomed(orig[m], j.roots[m], d.active[m], d.isolated[m]);
      if m == i {
        SelfLeftover(orig[i].value);
      }
    }
    assert Complete(d'.journal.value);
  }

  lemma SelfLeftover(t: Tree)
    requires WellFormed(t)
    ensures Leftover(t, t)
  {
  }

  lemma DestroyPart(roots: seq<Bytes>, orig: seq<Option<Tree>>, d: Disk, i: nat, rest: Option<Tree>)
    requires Purges(roots, orig, d, i) && i < |roots| && d.isolated[i].Some? && d.journal.value.roots[i].purged.Some?
    requires rest.Some? ==> Leftover(d.isolated[i].value, rest.value)
    ensures Inv(roots, orig, d.SetIsolated(i, rest))
    ensures rest.None? ==> Purges(roots, orig, d.SetIsolated(i, rest), i + 1)
  {
    hide WellFormed, Truthful, Scan;
    PastTheReturned(roots, orig, d, i);
    var d', j := d.SetIsolated(i, rest), d.journal.value;
    forall m | 0 <= m < |orig| ensures Doomed(orig[m], j.roots[m], d'.active[m], d'.isolated[m]) {
      assert Doomed(orig[m], j.roots[m], d.active[m], d.isolated[m]);
    }
    assert AllDoomed(orig, d');
  }

  lemma {:induction false} PurgeKeepsInv(roots: seq<Bytes>, orig: seq<Option<Tree>>, d: Disk, i: nat, stop: nat,
                                         rest: Tree)
    requires Purges(roots, orig, d, i)
    ensures Inv(roots, orig, PurgeFrom(roots, d, i, stop, rest).0)
    decreases |roots| - i, 1
  {
    hide Inv, AllDoomed, GoneUpTo, PartlyBack, NothingPurged, Scan;
    InvShape(roots, orig, d);
    if i == |roots| {
      ClosesPurge(roots, orig, d);
    } else {
      var e := d.journal.value.roots[i];
      if e.wasPresent == Some(false) || (d.isolated[i].None? && e.purged.Some?) {
        AbsentRoot(roots, orig, d, i);
        PurgeKeepsInv(roots, orig, d, i + 1, stop, rest);
      } else if d.isolated[i].Some? {
        if e.purged.Some? {
          DestroyKeepsInv(roots, orig, d, i, stop, rest);
        } else if Scan(d.isolated[i].value, roots[i]).Some? && stop > 0 {
          RecordPurge(roots, orig, d, i);
          DestroyKeepsInv(roots, orig, d.PutRoot(i, e.(purged := Scan(d.isolated[i].value, roots[i]))), i, stop - 1,
                          rest);
        }
      }
    }
  }

  lemma {:induction false} DestroyKeepsInv(roots: seq<Bytes>, orig: seq<Option<Tree>>, d: Disk, i: nat, stop: nat,
                                           rest: Tree)
    requires Purges(roots, orig, d, i) && i < |roots| && d.isolated[i].Some? && d.journal.value.roots[i].purged.Some?
    ensures Inv(roots, orig, DestroyThenPurge(roots, d, i, stop, rest).0)
    decreases |roots| - i, 0
  {
    hide Inv, AllDoomed, GoneUpTo, PartlyBack, NothingPurged, Scan, Deletable, Leftover;
    InvShape(roots, orig, d);
    if Leftover(d.isolated[i].value, rest) {
      DestroyPart(roots, orig, d, i, Some(rest));
    }
    if stop > 0 {
      DestroyPart(roots, orig, d, i, None);
      PurgeKeepsInv(roots, orig, d.SetIsolated(i, None), i + 1, stop - 1, rest);
    }
  }

  lemma ClosesPurge(roots: seq<Bytes>, orig: seq<Option<Tree>>, d: Disk)
    requires Purges(roots, orig, d, |roots|)
    ensures Inv(roots, orig, d.SetPhase(Purged))
  {
    hide Truthful, Leftover;
    PastTheReturned(roots, orig, d, |roots|);
  }

  // ---- Every call ----

  lemma FenceKeepsInv(roots: seq<Bytes>, orig: seq<Option<Tree>>, d: Disk, stop: nat)
    requires Inv(roots, orig, d)
    ensures Inv(roots, orig, Fence(roots, d, stop))
  {
  }

  lemma StartsQuarantine(roots: seq<Bytes>, orig: seq<Option<Tree>>, d: Disk)
    requires Inv(roots, orig, d) && d.journal.Some?
             && (d.journal.value.phase == Fenced || d.journal.value.phase == Quarantining)
    ensures Quarantines(roots, orig, d.SetPhase(Quarantining), 0)
  {
    hide Truthful;
    var j := d.journal.value;
    forall i | 0 <= i < |orig|
      ensures || Away(orig[i], d.active[i], d.isolated[i])
              || (Home(orig[i], d.active[i], d.isolated[i]) && j.roots[i].wasPresent.None?)
    {
      assert j.roots[i] in j.roots;
    }
    assert Collecting(orig, d.SetPhase(Quarantining));
  }

  lemma CompleteIffNotIncomplete(j: Journal)
    ensures Complete(j) <==> !Incomplete(j)
  {
  }

  /** A complete journal before any restore or purge means that everything is in quarantine. */
  lemma CompleteMeansAway(roots: seq<Bytes>, orig: seq<Option<Tree>>, d: Disk)
    requires Inv(roots, orig, d) && d.journal.Some? && !Incomplete(d.journal.value)
    requires d.journal.value.phase == Fenced || d.journal.value.phase == Quarantining
             || d.journal.value.phase == Quarantined
    ensures BackUpTo(orig, d, 0) && NothingPurged(d)
  {
    hide Truthful;
    var j := d.journal.value;
    CompleteIffNotIncomplete(j);
    forall i | 0 <= i < |orig| ensures Away(orig[i], d.active[i], d.isolated[i]) {
      assert j.roots[i] in j.roots;
    }
  }

  lemma StartsRestore(roots: seq<Bytes>, orig: seq<Option<Tree>>, d: Disk) returns (k: nat)
    requires Inv(roots, orig, d) && d.journal.Some? && !Incomplete(d.journal.value)
    requires d.journal.value.phase != Purging && d.journal.value.phase != Purged && d.journal.value.phase != Restored
    ensures Restores(roots, orig, d.SetPhase(Restoring), 0, k)
  {
    hide Truthful;
    CompleteIffNotIncomplete(d.journal.value);
    if d.journal.value.phase == Restoring {
      k :| BackUpTo(orig, d, k);
    } else {
      CompleteMeansAway(roots, orig, d);
      k := 0;
    }
    assert BackUpTo(orig, d.SetPhase(Restoring), k);
  }

  lemma SamePlaces(orig: seq<Option<Tree>>, d: Disk, d': Disk, k: nat)
    requires |d.active| == |d.isolated| == |orig| && BackUpTo(orig, d, k)
    requires d'.active == d.active && d'.isolated == d.isolated
    ensures BackUpTo(orig, d', k)
  {
  }

  lemma StartsPurge(roots: seq<Bytes>, orig: seq<Option<Tree>>, d: Disk)
    requires Inv(roots, orig, d) && d.journal.Some? && !Incomplete(d.journal.value)
    requires d.journal.value.phase != Restored && d.journal.value.phase != Purged
    ensures Purges(roots, orig, d.SetPhase(Purging), 0)
  {
    hide Truthful, Doomed;
    CompleteIffNotIncomplete(d.journal.value);
    var d' := d.SetPhase(Purging);
    if d.journal.value.phase == Purging {
      assert d' == d;
    } else {
      if d.journal.value.phase != Restoring {
        CompleteMeansAway(roots, orig, d);
      }
      var k: nat :| BackUpTo(orig, d, k);
      SamePlaces(orig, d, d', k);
    }
  }

  lemma CallKeepsInv(roots: seq<Bytes>, orig: seq<Option<Tree>>, d: Disk, e: Event)
    requires Inv(roots, orig, d)
    ensures Inv(roots, orig, Call(roots, d, e).0)
  {
    hide Inv, QuarantineFrom, RestoreFrom, PurgeFrom, Aggregate, Incomplete, Quarantines, Restores, Purges;
    InvShape(roots, orig, d);
    match e {
      case FenceCall(stop) =>
        FenceKeepsInv(roots, orig, d, stop);
      case QuarantineCall(stop) =>
        FenceKeepsInv(roots, orig, d, 1);
        var d1 := Fence(roots, d, 1);
        InvShape(roots, orig, d1);
        if d1.journal.value.phase == Fenced || d1.journal.value.phase == Quarantining {
          StartsQuarantine(roots, orig, d1);
          forall n: nat ensures Inv(roots, orig, QuarantineFrom(roots, d1.SetPhase(Quarantining), 0, n).0) {
            QuarantineKeepsInv(roots, orig, d1.SetPhase(Quarantining), 0, n);
          }
        }
      case RestoreCall(stop) =>
        if stop > 0 && d.journal.Some? && !Incomplete(d.journal.value)
           && d.journal.value.phase !in {Purging, Purged, Restored} {
          var k := StartsRestore(roots, orig, d);
          RestoreKeepsInv(roots, orig, d.SetPhase(Restoring), 0, k, stop - 1);
        }
      case PurgeCall(stop, rest) =>
        if stop > 0 && d.journal.Some? && !Incomplete(d.journal.value) && d.journal.value.phase !in {Purged, Restored} {
          StartsPurge(roots, orig, d);
          PurgeKeepsInv(roots, orig, d.SetPhase(Purging), 0, stop - 1, rest);
        }
    }
  }
}
