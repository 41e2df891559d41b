/** The executor itself, working on the journal and the trees in place. `stop` is how many durable
    effects the environment lets a call have. */
module LifecycleExecutor {
  import opened Base
  import opened Trees
  import opened Inventory
  import opened ScanTree
  import opened RemoveTree
  import opened Lifecycle

  /** Sums up the journal's inventories, failing on a gap or an overflow. */
  method AggregateEvidence(roots: seq<Bytes>, j: Journal, purge: bool) returns (outcome: Outcome)
    requires |j.roots| == |roots|
    ensures outcome == Report(roots, j, purge)
  {
    hide AddLine;
    var proof := Proof(0, 0, 0, []);
    var i := 0;
    while i < |roots|
      invariant i <= |roots| && Aggregate(roots, j, purge, i) == Some(proof)
    {
      var line := LineOf(roots[i], j.roots[i], purge);
      if line.None? {
        MissingLine(roots, j, purge, i + 1, |roots|);
        return Rejected;
      }
      var next := AddLine(proof, line.value);
      if next.None? {
        MissingLine(roots, j, purge, i + 1, |roots|);
        return Rejected;
      }
      proof := next.value;
      i := i + 1;
    }
    outcome := Completed(proof);
  }

  lemma {:induction false} MissingLine(roots: seq<Bytes>, j: Journal, purge: bool, i: nat, n: nat)
    requires |j.roots| == |roots| && i <= n <= |roots| && Aggregate(roots, j, purge, i).None?
    ensures Aggregate(roots, j, purge, n).None?
  {
    if i < n {
      MissingLine(roots, j, purge, i, n - 1);
    }
  }

  method Observe(root: Bytes, e: RootEntry, t: Tree, move: bool) returns (plan: Plan)
    requires WellFormed(t)
    ensures plan == Observed(root, e, t, move)
  {
    var evidence := ScanDirectory(t, root);
    if evidence.None? {
      return Refuse;
    }
    var seen := e.(wasPresent := Some(true), quarantined := evidence);
    plan := if move then Move(seen) else Record(seen);
  }

  lemma TreeAt(trees: seq<Option<Tree>>, i: nat)
    requires WholeTrees(trees) && i < |trees| && trees[i].Some?
    ensures WellFormed(trees[i].value) && |trees[i].value| > 0
  {
    assert trees[i] in trees;
    RootIsLeft(trees[i].value);
  }

  lemma WholeUpdate(trees: seq<Option<Tree>>, i: nat, t: Option<Tree>)
    requires WholeTrees(trees) && i < |trees| && (t.Some? ==> WellFormed(t.value))
    ensures WholeTrees(trees[i := t])
  {
  }

  class FilesystemExecutor {
    const roots: seq<Bytes>
    var journal: Option<Journal>
    var active: seq<Option<Tree>>
    var isolated: seq<Option<Tree>>

    ghost function View(): Disk
      reads this
    {
      Disk(journal, active, isolated)
    }

    ghost predicate Valid()
      reads this
    {
      View().Shaped(|roots|) && WholeTrees(active) && WholeTrees(isolated)
    }

    constructor (roots: seq<Bytes>, trees: seq<Option<Tree>>)
      requires |trees| == |roots| && WholeTrees(trees)
      ensures Valid() && this.roots == roots && Initial(roots, trees, View())
    {
      this.roots := roots;
      journal, active, isolated := None, trees, seq(|roots|, _ => None);
    }

    method Fence(stop: nat)
      requires Valid()
      modifies this
      ensures Valid() && View() == Lifecycle.Fence(roots, old(View()), stop)
    {
      if journal.None? && stop > 0 {
        journal := Some(FreshJournal(|roots|));
      }
    }

    method PutRoot(i: nat, e: RootEntry)
      requires Valid() && journal.Some? && i < |roots|
      modifies this`journal
      ensures Valid() && View() == old(View()).PutRoot(i, e)
    {
      journal := Some(journal.value.(roots := journal.value.roots[i := e]));
    }

    method PutPhase(phase: Phase)
      requires Valid() && journal.Some?
      modifies this`journal
      ensures Valid() && View() == old(View()).SetPhase(phase)
    {
      journal := Some(journal.value.(phase := phase));
    }

    method Isolate(i: nat)
      requires Valid() && i < |roots|
      modifies this`active, this`isolated
      ensures Valid() && View() == old(View()).Isolate(i)
    {
      var t := active[i];
      active, isolated := active[i := None], isolated[i := t];
    }

    method Return(i: nat)
      requires Valid() && i < |roots|
      modifies this`active, this`isolated
      ensures Valid() && View() == old(View()).Return(i)
    {
      var t := isolated[i];
      active, isolated := active[i := t], isolated[i := None];
    }

    method Finish(phase: Phase, purge: bool, stop: nat) returns (outcome: Outcome)
      requires Valid() && journal.Some?
      modifies this
      ensures Valid() && (View(), outcome) == Close(roots, old(View()), phase, purge, stop)
    {
      if stop == 0 {
        return Stopped;
      }
      PutPhase(phase);
      outcome := AggregateEvidence(roots, journal.value, purge);
    }

    method DecideQuarantine(i: nat) returns (plan: Plan)
      requires Valid() && journal.Some? && i < |roots|
      ensures plan == PlanQuarantine(roots[i], journal.value.roots[i], active[i], isolated[i])
    {
      var e := journal.value.roots[i];
      if e.wasPresent == Some(false) {
        return if active[i].Some? || isolated[i].Some? then Refuse else Record(e);
      }
      if active[i].Some? {
        if isolated[i].Some? {
          return Refuse;
        }
        plan := Observe(roots[i], e, active[i].value, true);
      } else if isolated[i].Some? {
        plan := Observe(roots[i], e, isolated[i].value, false);
      } else {
        plan := if e.wasPresent.None? then Record(e.(wasPresent := Some(false))) else Refuse;
      }
    }

    method DecideRestore(i: nat) returns (plan: Plan)
      requires Valid() && journal.Some? && i < |roots|
      ensures plan == PlanRestore(roots[i], journal.value.roots[i], active[i], isolated[i])
    {
      var e := journal.value.roots[i];
      if e.wasPresent == Some(false) {
        return if active[i].Some? || isolated[i].Some? then Refuse else Skip;
      }
      if active[i].Some? {
        if isolated[i].Some? {
          return Refuse;
        }
        plan := Observe(roots[i], e, active[i].value, false);
      } else if isolated[i].Some? {
        plan := Observe(roots[i], e, isolated[i].value, true);
      } else {
        plan := Refuse;
      }
    }

    method Quarantine(stop: nat) returns (outcome: Outcome)
      requires Valid()
      modifies this
      ensures Valid() && (View(), outcome) == Lifecycle.Quarantine(roots, old(View()), stop)
    {
      hide WholeTrees, Report, QuarantineFrom;
      var left := stop;
      if journal.None? {
        if left == 0 {
          return Stopped;
        }
        Fence(1);
        left := left - 1;
      }
      if journal.value.phase == Quarantined {
        outcome := AggregateEvidence(roots, journal.value, false);
        return;
      }
      if journal.value.phase != Fenced && journal.value.phase != Quarantining {
        return Rejected;
      }
      if left == 0 {
        return Stopped;
      }
      PutPhase(Quarantining);
      outcome := QuarantineRoots(left - 1);
    }

    method QuarantineRoots(stop: nat) returns (outcome: Outcome)
      requires Valid() && journal.Some?
      modifies this
      ensures Valid() && (View(), outcome) == QuarantineFrom(roots, old(View()), 0, stop)
    {
      hide PlanQuarantine, WholeTrees, Report, Close;
      var left := stop;
      ghost var result := QuarantineFrom(roots, View(), 0, left);
      var i := 0;
      while i < |roots|
        invariant Valid() && journal.Some? && i <= |roots|
        invariant QuarantineFrom(roots, View(), i, left) == result
      {
        var plan := DecideQuarantine(i);
        match plan {
          case Refuse => return Rejected;
          case Skip =>
          case Record(e) =>
            if left == 0 {
              return Stopped;
            }
            PutRoot(i, e);
            left := left - 1;
          case Move(e) =>
            if left == 0 {
              return Stopped;
            }
            Isolate(i);
            if left == 1 {
              return Stopped;
            }
            PutRoot(i, e);
            left := left - 2;
        }
        i := i + 1;
      }
      outcome := Finish(Quarantined, false, left);
    }

    method Restore(stop: nat) returns (outcome: Outcome)
      requires Valid()
      modifies this
      ensures Valid() && (View(), outcome) == Lifecycle.Restore(roots, old(View()), stop)
    {
      hide WholeTrees, Report, RestoreFrom, Incomplete;
      if journal.None? {
        return Rejected;
      }
      if journal.value.phase == Restored {
        outcome := AggregateEvidence(roots, journal.value, false);
        return;
      }
      if journal.value.phase == Purging || journal.value.phase == Purged || Incomplete(journal.value) {
        return Rejected;
      }
      if stop == 0 {
        return Stopped;
      }
      PutPhase(Restoring);
      outcome := RestoreRoots(stop - 1);
    }

    method RestoreRoots(stop: nat) returns (outcome: Outcome)
      requires Valid() && journal.Some?
      modifies this
      ensures Valid() && (View(), outcome) == RestoreFrom(roots, old(View()), 0, stop)
    {
      hide PlanRestore, WholeTrees, Report, Close;
      var left := stop;
      ghost var result := RestoreFrom(roots, View(), 0, left);
      var i := 0;
      while i < |roots|
        invariant Valid() && journal.Some? && i <= |roots|
        invariant RestoreFrom(roots, View(), i, left) == result
      {
        var plan := DecideRestore(i);
        match plan {
          case Refuse => return Rejected;
          case Skip =>
          case Record(e) =>
            if left == 0 {
              return Stopped;
            }
            PutRoot(i, e);
            left := left - 1;
          case Move(e) =>
            if left == 0 {
              return Stopped;
            }
            Return(i);
            if left == 1 {
              return Stopped;
            }
            PutRoot(i, e);
            left := left - 2;
        }
        i := i + 1;
      }
      outcome := Finish(Restored, false, left);
    }

    /** `budget` is how many entries an interrupted deletion still removes. */
    method Purge(stop: nat, budget: nat) returns (outcome: Outcome, ghost rest: Tree)
      requires Valid()
      modifies this
      ensures Valid() && (View(), outcome) == Lifecycle.Purge(roots, old(View()), stop, rest)
    {
      hide WholeTrees, Report, PurgeFrom, Incomplete;
      rest := map[];
      if journal.None? {
        return Rejected, rest;
      }
      if journal.value.phase == Purged {
        outcome := AggregateEvidence(roots, journal.value, true);
        return;
      }
      if journal.value.phase == Restored || Incomplete(journal.value) {
        return Rejected, rest;
      }
      if stop == 0 {
        return Stopped, rest;
      }
      PutPhase(Purging);
      outcome, rest := PurgeRoots(stop - 1, budget);
    }

    method PurgeRoots(stop: nat, budget: nat) returns (outcome: Outcome, ghost rest: Tree)
      requires Valid() && journal.Some?
      modifies this
      ensures Valid() && (View(), outcome) == PurgeFrom(roots, old(View()), 0, stop, rest)
    {
      hide WholeTrees, Report, Close, Scan, Leftover, WellFormed, Deletable;
      var left := stop;
      ghost var start := View();
      var i := 0;
      while i < |roots|
        invariant Valid() && journal.Some? && i <= |roots|
        invariant forall r: Tree :: PurgeFrom(roots, View(), i, left, r) == PurgeFrom(roots, start, 0, stop, r)
      {
        var e := journal.value.roots[i];
        if e.wasPresent == Some(false) {
        } else if isolated[i].None? {
          if e.purged.None? {
            return Rejected, map[];
          }
        } else {
          assert isolated[i] in isolated;
          var t := isolated[i].value;
          TreeAt(isolated, i);
          if e.purged.None? {
            var evidence := ScanDirectory(t, roots[i]);
            if evidence.None? {
              return Rejected, map[];
            }
            if left == 0 {
              return Stopped, map[];
            }
            PutRoot(i, e.(purged := evidence));
            left := left - 1;
          }
          var gone, part := DestroyTree(t, left, Min(budget, |t| - 1));
          if !gone {
            LeftoverFacts(t, part);
            WholeUpdate(isolated, i, Some(part));
            isolated := isolated[i := Some(part)];
            return Stopped, part;
          }
          WholeUpdate(isolated, i, None);
          isolated := isolated[i := None];
          left := left - 1;
        }
        i := i + 1;
      }
      rest := map[];
      outcome := Finish(Purged, true, left);
    }
  }
}
