/** Deletions of which one tree has no inventory: a symlink, a special or badly named entry in it, or too
    much to count. Quarantine isolates the roots before it and is refused there, and nothing leads back. */
module LifecycleStuck {
  import opened Base
  import opened Trees
  import opened Inventory
  import opened Lifecycle
  import opened LifecycleProof
  import opened LifecycleTheorem

  /** Root `k` was there and cannot be inventoried. */
  ghost predicate Uncountable(roots: seq<Bytes>, orig: seq<Option<Tree>>, k: nat) {
    k < |roots| && k < |orig| && orig[k].Some? && Scan(orig[k].value, roots[k]).None?
  }

  /** Such trees exist: a directory with a symlink in it is one. */
  lemma UncountableTreesExist(root: Bytes) returns (t: Tree)
    ensures WellFormed(t) && Scan(t, root).None?
  {
    var name: Name := [120];
    t := map[[] := Directory(true), [name] := Symlink];
    assert Parent([name]) == [] && Join([]) == [] && Join([name]) == name;
    assert [name] in t && [name] != [] && !t[[name]].Plain();
  }

  /** The journal never gets to know that root, so restore and purge stay refused for good. */
  lemma NeverKnown(roots: seq<Bytes>, orig: seq<Option<Tree>>, d: Disk, k: nat)
    requires Inv(roots, orig, d) && Uncountable(roots, orig, k)
    ensures d.journal.Some? ==> d.journal.value.roots[k].wasPresent.None? && Incomplete(d.journal.value)
    ensures d.journal.Some? ==> d.InPhase(Fenced) || d.InPhase(Quarantining)
  {
    hide Scan, WholeTrees, BackUpTo, NothingPurged, AllDoomed, GoneUpTo, PartlyBack, Collecting;
    if d.journal.Some? {
      var e := d.journal.value.roots[k];
      assert e in d.journal.value.roots && Truthful(roots[k], orig[k], e);
      ThreeCases(e.wasPresent);
      CompleteIffNotIncomplete(d.journal.value);
    }
  }

  // ---- Nothing leads back ----

  /** What is not at its managed path stays away, as it is. */
  ghost predicate StaysAway(d: Disk, d': Disk, n: nat)
    requires d.Shaped(n) && d'.Shaped(n)
  {
    forall i :: 0 <= i < n && d.active[i].None? && d.isolated[i].Some? ==>
      d'.active[i].None? && d'.isolated[i] == d.isolated[i]
  }

  lemma {:induction false} QuarantineNeverReturns(roots: seq<Bytes>, d: Disk, i: nat, stop: nat)
    requires d.Journaled(|roots|) && i <= |roots|
    ensures var d' := QuarantineFrom(roots, d, i, stop).0;
            d'.Shaped(|roots|) && StaysAway(d, d', |roots|)
    decreases |roots| - i
  {
    hide Scan, Report;
    if i < |roots| {
      var plan := PlanQuarantine(roots[i], d.journal.value.roots[i], d.active[i], d.isolated[i]);
      if plan.Record? && stop > 0 {
        QuarantineNeverReturns(roots, d.PutRoot(i, plan.e), i + 1, stop - 1);
      } else if plan.Move? && stop > 1 {
        QuarantineNeverReturns(roots, d.Isolate(i).PutRoot(i, plan.e), i + 1, stop - 2);
      }
    }
  }

  lemma UncountableCall(roots: seq<Bytes>, orig: seq<Option<Tree>>, d: Disk, e: Event, k: nat)
    requires Inv(roots, orig, d) && Uncountable(roots, orig, k)
    ensures var (d', outcome) := Call(roots, d, e);
            && Inv(roots, orig, d') && d.Shaped(|roots|) && d'.Shaped(|roots|) && StaysAway(d, d', |roots|)
            && !outcome.Completed?
  {
    hide Inv, Scan, QuarantineFrom, RestoreFrom, PurgeFrom, Report, Incomplete;
    InvShape(roots, orig, d);
    NeverKnown(roots, orig, d, k);
    CallKeepsInv(roots, orig, d, e);
    InvShape(roots, orig, Call(roots, d, e).0);
    if Call(roots, d, e).1.Completed? {
      CallReportsWhatItClosed(roots, d, e);
      NeverKnown(roots, orig, Call(roots, d, e).0, k);
    }
    if e.QuarantineCall? {
      var d1 := Fence(roots, d, 1).SetPhase(Quarantining);
      forall n: nat ensures QuarantineFrom(roots, d1, 0, n).0.Shaped(|roots|)
                            && StaysAway(d1, QuarantineFrom(roots, d1, 0, n).0, |roots|) {
        QuarantineNeverReturns(roots, d1, 0, n);
      }
    }
  }

  /** While one tree has no inventory, no schedule of calls ever completes, and a tree that was isolated
      stays isolated for good. */
  lemma {:induction false} IsolatedForGood(roots: seq<Bytes>, orig: seq<Option<Tree>>, d: Disk, events: seq<Event>,
                                           e: Event, k: nat)
    requires Inv(roots, orig, d) && Uncountable(roots, orig, k) && d.Shaped(|roots|)
    ensures var d' := Run(roots, d, events);
            && Inv(roots, orig, d') && StaysAway(d, d', |roots|)
            && !Call(roots, d', e).1.Completed?
  {
    hide Inv, Call, Scan;
    if events == [] {
      UncountableCall(roots, orig, d, e, k);
    } else {
      var before := Run(roots, d, Init(events));
      IsolatedForGood(roots, orig, d, Init(events), e, k);
      UncountableCall(roots, orig, before, Last(events), k);
      UncountableCall(roots, orig, Run(roots, d, events), e, k);
    }
  }

  // ---- Where it settles ----

  /** The first root without an inventory. */
  ghost predicate FirstUncountable(roots: seq<Bytes>, orig: seq<Option<Tree>>, k: nat) {
    Uncountable(roots, orig, k) && forall i :: 0 <= i < k ==> !Uncountable(roots, orig, i)
  }

  /** Quarantine has done all it can: every root before `k` is known, and so away if it was there. */
  ghost predicate Settled(roots: seq<Bytes>, orig: seq<Option<Tree>>, d: Disk, k: nat) {
    Inv(roots, orig, d) && d.InPhase(Quarantining) && Uncountable(roots, orig, k) && KnownUpTo(d.journal.value, k)
  }

  lemma RefusedAt(roots: seq<Bytes>, orig: seq<Option<Tree>>, d: Disk, k: nat)
    requires Quarantines(roots, orig, d, k) && Uncountable(roots, orig, k)
    ensures PlanQuarantine(roots[k], d.journal.value.roots[k], d.active[k], d.isolated[k]) == Refuse
  {
    hide Scan, WholeTrees, NothingPurged, Inv;
    NeverKnown(roots, orig, d, k);
    OnePlace(roots, orig, d, k);
  }

  lemma OnePlace(roots: seq<Bytes>, orig: seq<Option<Tree>>, d: Disk, i: nat)
    requires Inv(roots, orig, d) && d.InPhase(Quarantining) && i < |roots|
    ensures Away(orig[i], d.active[i], d.isolated[i]) || Home(orig[i], d.active[i], d.isolated[i])
    ensures d.journal.value.roots[i].wasPresent.Some? ==> Away(orig[i], d.active[i], d.isolated[i])
    ensures Truthful(roots[i], orig[i], d.journal.value.roots[i])
  {
    hide Truthful, WholeTrees;
  }

  lemma {:induction false} QuarantineSettles(roots: seq<Bytes>, orig: seq<Option<Tree>>, d: Disk, i: nat, k: nat,
                                             stop: nat)
    requires Quarantines(roots, orig, d, i) && i <= k && FirstUncountable(roots, orig, k) && stop >= 2 * (k - i)
    ensures var (d', outcome) := QuarantineFrom(roots, d, i, stop);
            Settled(roots, orig, d', k) && outcome == Rejected
    decreases k - i
  {
    hide Inv, PlanQuarantine, KnownUpTo, Scan;
    InvShape(roots, orig, d);
    if i == k {
      RefusedAt(roots, orig, d, k);
    } else {
      var plan := PlanQuarantine(roots[i], d.journal.value.roots[i], d.active[i], d.isolated[i]);
      QuarantineNeverSkips(roots, orig, d, i);
      assert !Uncountable(roots, orig, i);
      if plan.Record? {
        RecordQuarantine(roots, orig, d, i, plan.e);
        QuarantineSettles(roots, orig, d.PutRoot(i, plan.e), i + 1, k, stop - 1);
      } else {
        MoveQuarantine(roots, orig, d, i, plan.e);
        QuarantineSettles(roots, orig, d.Isolate(i).PutRoot(i, plan.e), i + 1, k, stop - 2);
      }
    }
  }

  lemma KnownRootIsRecorded(roots: seq<Bytes>, orig: seq<Option<Tree>>, d: Disk, k: nat, i: nat)
    requires Settled(roots, orig, d, k) && i < k
    ensures PlanQuarantine(roots[i], d.journal.value.roots[i], d.active[i], d.isolated[i]) ==
            Record(d.journal.value.roots[i])
  {
    hide Scan, Inv;
    InvShape(roots, orig, d);
    OnePlace(roots, orig, d, i);
    ThreeCases(d.journal.value.roots[i].wasPresent);
  }

  lemma {:induction false} QuarantineIdles(roots: seq<Bytes>, orig: seq<Option<Tree>>, d: Disk, i: nat, k: nat,
                                           stop: nat)
    requires Settled(roots, orig, d, k) && i <= k
    ensures d.Journaled(|roots|) && QuarantineFrom(roots, d, i, stop).0 == d
    decreases k - i
  {
    hide Inv, PlanQuarantine, Scan;
    InvShape(roots, orig, d);
    if i == k {
      RefusedAt(roots, orig, d, k);
    } else {
      KnownRootIsRecorded(roots, orig, d, k, i);
      var j := d.journal.value;
      assert j.roots[i := j.roots[i]] == j.roots;
      assert d.PutRoot(i, j.roots[i]) == d;
      if stop > 0 {
        QuarantineIdles(roots, orig, d, i + 1, k, stop - 1);
      }
    }
  }

  /** Once settled, every call leaves the disk as it is and none completes. */
  lemma SettledIsStuck(roots: seq<Bytes>, orig: seq<Option<Tree>>, d: Disk, e: Event, k: nat)
    requires Settled(roots, orig, d, k) && d.Shaped(|roots|)
    ensures Call(roots, d, e).0 == d && !Call(roots, d, e).1.Completed?
  {
    hide Inv, QuarantineFrom, RestoreFrom, PurgeFrom, Incomplete, Scan, Report;
    NeverKnown(roots, orig, d, k);
    UncountableCall(roots, orig, d, e, k);
    assert d.SetPhase(Quarantining) == d;
    forall n: nat ensures d.Journaled(|roots|) && QuarantineFrom(roots, d, 0, n).0 == d {
      QuarantineIdles(roots, orig, d, 0, k, n);
    }
  }

  /** It is reached from every start with such a tree, by one quarantine that is let run: the roots before
      the first one without an inventory are isolated, and no schedule whatsoever moves anything again. */
  lemma HalfQuarantineIsReached(roots: seq<Bytes>, orig: seq<Option<Tree>>, d0: Disk, stop: nat, k: nat)
    requires Initial(roots, orig, d0) && FirstUncountable(roots, orig, k) && stop >= 2 * k + 2
    ensures var (d, outcome) := Quarantine(roots, d0, stop);
            && outcome == Rejected && Settled(roots, orig, d, k) && d.Shaped(|roots|)
            && (forall i :: 0 <= i < k ==> d.active[i].None? && d.isolated[i] == orig[i])
  {
    hide Inv, QuarantineFrom, Scan, Report;
    EveryScheduleKeepsInv(roots, orig, d0, []);
    RunNothing(roots, d0);
    FenceKeepsInv(roots, orig, d0, 1);
    var d1 := Fence(roots, d0, 1);
    StartsQuarantine(roots, orig, d1);
    QuarantineSettles(roots, orig, d1.SetPhase(Quarantining), 0, k, stop - 2);
    var d := Quarantine(roots, d0, stop).0;
    InvShape(roots, orig, d);
    forall i | 0 <= i < k ensures d.active[i].None? && d.isolated[i] == orig[i] {
      OnePlace(roots, orig, d, i);
    }
  }

  lemma {:induction false} StuckForever(roots: seq<Bytes>, orig: seq<Option<Tree>>, d: Disk, events: seq<Event>, k: nat)
    requires Settled(roots, orig, d, k) && d.Shaped(|roots|)
    ensures Run(roots, d, events) == d
  {
    hide Settled, Call;
    if events != [] {
      StuckForever(roots, orig, d, Init(events), k);
      SettledIsStuck(roots, orig, d, Last(events), k);
    }
  }
}
