/** One deletion on one Volume: the journal and the two places each managed root can be in. A call
    may end anywhere between two durable effects, by a crash or by an I/O error. */
module Lifecycle {
  import opened Base
  import opened Trees
  import opened Inventory

  datatype Phase = Fenced | Quarantining | Quarantined | Restoring | Restored | Purging | Purged

  datatype RootEntry = RootEntry(wasPresent: Option<bool>, quarantined: Option<Evidence>, purged: Option<Evidence>)

  datatype Journal = Journal(phase: Phase, roots: seq<RootEntry>)

  /** What is durable. `active[i]` is the tree at the managed path of root `i`, `isolated[i]` the one
      under the deletion's own quarantine path. */
  datatype Disk = Disk(journal: Option<Journal>, active: seq<Option<Tree>>, isolated: seq<Option<Tree>>) {

    /** A journal that names exactly the roots of the command, which every load verifies. */
    predicate Journaled(n: nat) {
      journal.Some? && |journal.value.roots| == n && |active| == n && |isolated| == n
    }

    predicate Shaped(n: nat) {
      |active| == n && |isolated| == n && (journal.Some? ==> |journal.value.roots| == n)
    }

    predicate InPhase(phase: Phase) {
      journal.Some? && journal.value.phase == phase
    }

    function SetPhase(phase: Phase): Disk
      requires journal.Some?
    {
      this.(journal := Some(journal.value.(phase := phase)))
    }

    function PutRoot(i: nat, e: RootEntry): Disk
      requires journal.Some? && i < |journal.value.roots|
    {
      this.(journal := Some(journal.value.(roots := journal.value.roots[i := e])))
    }

    function Isolate(i: nat): Disk
      requires i < |active| == |isolated|
    {
      this.(active := active[i := None], isolated := isolated[i := active[i]])
    }

    function Return(i: nat): Disk
      requires i < |active| == |isolated|
    {
      this.(active := active[i := isolated[i]], isolated := isolated[i := None])
    }

    function SetIsolated(i: nat, t: Option<Tree>): Disk
      requires i < |isolated|
    {
      this.(isolated := isolated[i := t])
    }
  }

  /** One line of the deletion proof per root. Together they are what the proof's digest hashes. */
  datatype Line = Absent(root: Bytes) | Present(root: Bytes, evidence: Evidence)

  datatype Proof = Proof(files: nat, objects: nat, bytes: nat, lines: seq<Line>)

  datatype Outcome = Completed(proof: Proof) | Rejected | Stopped

  // ---- The deletion proof ----

  function LineOf(root: Bytes, e: RootEntry, purge: bool): Option<Line> {
    var evidence := if purge then e.purged else e.quarantined;
    if evidence.Some? then Some(Present(root, evidence.value))
    else if e.wasPresent == Some(false) then Some(Absent(root))
    else None
  }

  function AddLine(p: Proof, line: Line): Option<Proof> {
    match line
    case Absent(_) => Some(p.(lines := p.lines + [line]))
    case Present(_, e) =>
      if p.files + e.files > U64_MAX || p.objects + e.objects > U64_MAX || p.bytes + e.bytes > U64_MAX then None
      else Some(Proof(p.files + e.files, p.objects + e.objects, p.bytes + e.bytes, p.lines + [line]))
  }

  /** The proof over the first `n` roots. */
  function Aggregate(roots: seq<Bytes>, j: Journal, purge: bool, n: nat): Option<Proof>
    requires |j.roots| == |roots| && n <= |roots|
  {
    if n == 0 then Some(Proof(0, 0, 0, [])) else
    var p := Aggregate(roots, j, purge, n - 1);
    if p.None? then None else
    var line := LineOf(roots[n - 1], j.roots[n - 1], purge);
    if line.None? then None else AddLine(p.value, line.value)
  }

  function Report(roots: seq<Bytes>, j: Journal, purge: bool): Outcome
    requires |j.roots| == |roots|
  {
    var p := Aggregate(roots, j, purge, |roots|);
    if p.Some? then Completed(p.value) else Rejected
  }

  // ---- Moving trees ----

  /** What a call does about one root: nothing, a journal update, or a rename and a journal update. */
  datatype Plan = Refuse | Skip | Record(e: RootEntry) | Move(e: RootEntry)

  /** Records the tree's inventory, if it has one. */
  ghost function Observed(root: Bytes, e: RootEntry, t: Tree, move: bool): Plan {
    var evidence := Scan(t, root);
    if evidence.None? then Refuse
    else if move then Move(e.(wasPresent := Some(true), quarantined := evidence))
    else Record(e.(wasPresent := Some(true), quarantined := evidence))
  }

  ghost function PlanQuarantine(root: Bytes, e: RootEntry, active: Option<Tree>, isolated: Option<Tree>): Plan {
    if e.wasPresent == Some(false) then
      if active.Some? || isolated.Some? then Refuse else Record(e)
    else if active.Some? && isolated.Some? then Refuse
    else if active.Some? then Observed(root, e, active.value, true)
    else if isolated.Some? then Observed(root, e, isolated.value, false)
    else if e.wasPresent.None? then Record(e.(wasPresent := Some(false)))
    else Refuse
  }

  ghost function PlanRestore(root: Bytes, e: RootEntry, active: Option<Tree>, isolated: Option<Tree>): Plan {
    if e.wasPresent == Some(false) then
      if active.Some? || isolated.Some? then Refuse else Skip
    else if active.Some? && isolated.Some? then Refuse
    else if active.Some? then Observed(root, e, active.value, false)
    else if isolated.Some? then Observed(root, e, isolated.value, true)
    else Refuse
  }

  /** Marks the end of a call in the journal and reports. */
  function Close(roots: seq<Bytes>, d: Disk, phase: Phase, purge: bool, stop: nat): (Disk, Outcome)
    requires d.Journaled(|roots|)
  {
    if stop == 0 then (d, Stopped)
    else (d.SetPhase(phase), Report(roots, d.SetPhase(phase).journal.value, purge))
  }

  /** Takes the roots from `i` on in order. `stop` is how many more durable effects will happen. */
  ghost function QuarantineFrom(roots: seq<Bytes>, d: Disk, i: nat, stop: nat): (Disk, Outcome)
    requires d.Journaled(|roots|) && i <= |roots|
    decreases |roots| - i
  {
    if i == |roots| then Close(roots, d, Quarantined, false, stop) else
    match PlanQuarantine(roots[i], d.journal.value.roots[i], d.active[i], d.isolated[i])
    case Refuse => (d, Rejected)
    case Skip => QuarantineFrom(roots, d, i + 1, stop)
    case Record(e) =>
      if stop == 0 then (d, Stopped) else QuarantineFrom(roots, d.PutRoot(i, e), i + 1, stop - 1)
    case Move(e) =>
      if stop == 0 then (d, Stopped)
      else if stop == 1 then (d.Isolate(i), Stopped)
      else QuarantineFrom(roots, d.Isolate(i).PutRoot(i, e), i + 1, stop - 2)
  }

  ghost function RestoreFrom(roots: seq<Bytes>, d: Disk, i: nat, stop: nat): (Disk, Outcome)
    requires d.Journaled(|roots|) && i <= |roots|
    decreases |roots| - i
  {
    if i == |roots| then Close(roots, d, Restored, false, stop) else
    match PlanRestore(roots[i], d.journal.value.roots[i], d.active[i], d.isolated[i])
    case Refuse => (d, Rejected)
    case Skip => RestoreFrom(roots, d, i + 1, stop)
    case Record(e) =>
      if stop == 0 then (d, Stopped) else RestoreFrom(roots, d.PutRoot(i, e), i + 1, stop - 1)
    case Move(e) =>
      if stop == 0 then (d, Stopped)
      else if stop == 1 then (d.Return(i), Stopped)
      else RestoreFrom(roots, d.Return(i).PutRoot(i, e), i + 1, stop - 2)
  }

  // ---- Destroying trees ----

  /** What can be left of a tree whose deletion was interrupted: deletion goes bottom-up, so the rest
      is still a tree. */
  ghost predicate Leftover(t: Tree, rest: Tree) {
    WellFormed(rest) && forall p <- rest :: p in t && t[p] == rest[p]
  }

  /** Deletion goes by kind alone. */
  ghost predicate Deletable(t: Tree) {
    [] in t && t[[]].Directory? && forall p <- t :: t[p].Removable()
  }

  ghost function PurgeFrom(roots: seq<Bytes>, d: Disk, i: nat, stop: nat, rest: Tree): (Disk, Outcome)
    requires d.Journaled(|roots|) && i <= |roots|
    decreases |roots| - i
  {
    if i == |roots| then Close(roots, d, Purged, true, stop) else
    var e := d.journal.value.roots[i];
    if e.wasPresent == Some(false) then PurgeFrom(roots, d, i + 1, stop, rest)
    else if d.isolated[i].None? then
      if e.purged.Some? then PurgeFrom(roots, d, i + 1, stop, rest) else (d, Rejected)
    else
      var t := d.isolated[i].value;
      if e.purged.Some? then DestroyThenPurge(roots, d, i, stop, rest)
      else if Scan(t, roots[i]).None? then (d, Rejected)
      else if stop == 0 then (d, Stopped)
      else DestroyThenPurge(roots, d.PutRoot(i, e.(purged := Scan(t, roots[i]))), i, stop - 1, rest)
  }

  /** Deletes the isolated tree of root `i`, or stops with `rest` of it left. */
  ghost function DestroyThenPurge(roots: seq<Bytes>, d: Disk, i: nat, stop: nat, rest: Tree): (Disk, Outcome)
    requires d.Journaled(|roots|) && i < |roots| && d.isolated[i].Some?
    decreases |roots| - i, 0
  {
    var t := d.isolated[i].value;
    if stop == 0 || !Deletable(t) then (if Leftover(t, rest) then d.SetIsolated(i, Some(rest)) else d, Stopped)
    else PurgeFrom(roots, d.SetIsolated(i, None), i + 1, stop - 1, rest)
  }

  // ---- The calls ----

  function FreshJournal(n: nat): Journal {
    Journal(Fenced, seq(n, _ => RootEntry(None, None, None)))
  }

  predicate Incomplete(j: Journal) {
    exists e <- j.roots :: e.wasPresent.None?
  }

  function Fence(roots: seq<Bytes>, d: Disk, stop: nat): Disk {
    if d.journal.None? && stop > 0 then d.(journal := Some(FreshJournal(|roots|))) else d
  }

  ghost function Quarantine(roots: seq<Bytes>, d: Disk, stop: nat): (Disk, Outcome)
    requires d.Shaped(|roots|)
  {
    if d.journal.None? && stop == 0 then (d, Stopped) else
    var stop := if d.journal.None? then stop - 1 else stop;
    var d := Fence(roots, d, 1);
    var phase := d.journal.value.phase;
    if phase == Quarantined then (d, Report(roots, d.journal.value, false))
    else if phase != Fenced && phase != Quarantining then (d, Rejected)
    else if stop == 0 then (d, Stopped)
    else QuarantineFrom(roots, d.SetPhase(Quarantining), 0, stop - 1)
  }

  ghost function Restore(roots: seq<Bytes>, d: Disk, stop: nat): (Disk, Outcome)
    requires d.Shaped(|roots|)
  {
    if d.journal.None? then (d, Rejected) else
    var j := d.journal.value;
    if j.phase == Restored then (d, Report(roots, j, false))
    else if j.phase == Purging || j.phase == Purged || Incomplete(j) then (d, Rejected)
    else if stop == 0 then (d, Stopped)
    else RestoreFrom(roots, d.SetPhase(Restoring), 0, stop - 1)
  }

  ghost function Purge(roots: seq<Bytes>, d: Disk, stop: nat, rest: Tree): (Disk, Outcome)
    requires d.Shaped(|roots|)
  {
    if d.journal.None? then (d, Rejected) else
    var j := d.journal.value;
    if j.phase == Purged then (d, Report(roots, j, true))
    else if j.phase == Restored || Incomplete(j) then (d, Rejected)
    else if stop == 0 then (d, Stopped)
    else PurgeFrom(roots, d.SetPhase(Purging), 0, stop - 1, rest)
  }

  /** One call of the executor and how far it gets. */
  datatype Event =
    | FenceCall(stop: nat)
    | QuarantineCall(stop: nat)
    | RestoreCall(stop: nat)
    | PurgeCall(stop: nat, rest: Tree)

  ghost function Call(roots: seq<Bytes>, d: Disk, e: Event): (Disk, Outcome)
    requires d.Shaped(|roots|)
  {
    match e
    case FenceCall(stop) => (Fence(roots, d, stop), Stopped)
    case QuarantineCall(stop) => Quarantine(roots, d, stop)
    case RestoreCall(stop) => Restore(roots, d, stop)
    case PurgeCall(stop, rest) => Purge(roots, d, stop, rest)
  }

  // ---- What holds between any two durable effects ----

  /** The tree is where it was. */
  ghost predicate Home(orig: Option<Tree>, active: Option<Tree>, isolated: Option<Tree>) {
    active == orig && isolated.None?
  }

  /** The tree is whole, in quarantine. */
  ghost predicate Away(orig: Option<Tree>, active: Option<Tree>, isolated: Option<Tree>) {
    active.None? && isolated == orig
  }

  /** Nothing is left at the managed path, and nothing is missing in quarantine unless the complete
      inventory is in the journal. */
  ghost predicate Doomed(orig: Option<Tree>, e: RootEntry, active: Option<Tree>, isolated: Option<Tree>) {
    && active.None?
    && (e.purged.None? ==> isolated == orig)
    && (e.purged.Some? && isolated.Some? ==> orig.Some? && Leftover(orig.value, isolated.value))
  }

  /** The journal never says anything untrue about a root. */
  ghost predicate Truthful(root: Bytes, orig: Option<Tree>, e: RootEntry) {
    && (e.wasPresent == Some(false) ==> orig.None?)
    && (e.wasPresent == Some(true) ==> orig.Some?)
    && (e.quarantined.Some? <==> e.wasPresent == Some(true))
    && (e.quarantined.Some? ==> orig.Some? && e.quarantined == Scan(orig.value, root))
    && (e.purged.Some? ==> orig.Some? && e.purged == Scan(orig.value, root) && e.wasPresent == Some(true))
  }

  ghost predicate AllTruthful(roots: seq<Bytes>, orig: seq<Option<Tree>>, d: Disk)
    requires d.Journaled(|roots|) && |orig| == |roots|
  {
    forall i :: 0 <= i < |roots| ==> Truthful(roots[i], orig[i], d.journal.value.roots[i])
  }

  /** The roots before `k` are back, the others still in quarantine. */
  ghost predicate BackUpTo(orig: seq<Option<Tree>>, d: Disk, k: nat)
    requires |d.active| == |d.isolated| == |orig|
  {
    forall i :: 0 <= i < |orig| ==>
        if i < k then Home(orig[i], d.active[i], d.isolated[i]) else Away(orig[i], d.active[i], d.isolated[i])
  }

  ghost predicate NothingPurged(d: Disk)
    requires d.journal.Some?
  {
    forall e <- d.journal.value.roots :: e.purged.None?
  }

  ghost predicate AllDoomed(orig: seq<Option<Tree>>, d: Disk)
    requires d.Journaled(|orig|)
  {
    forall i :: 0 <= i < |orig| ==> Doomed(orig[i], d.journal.value.roots[i], d.active[i], d.isolated[i])
  }

  /** Each root is still at home, or away with or without the journal knowing. */
  ghost predicate Collecting(orig: seq<Option<Tree>>, d: Disk)
    requires d.Journaled(|orig|)
  {
    forall i :: 0 <= i < |orig| ==>
      || Away(orig[i], d.active[i], d.isolated[i])
      || (Home(orig[i], d.active[i], d.isolated[i]) && d.journal.value.roots[i].wasPresent.None?)
  }

  ghost predicate WholeTrees(orig: seq<Option<Tree>>) {
    forall t <- orig :: t.Some? ==> WellFormed(t.value)
  }

  /** The invariant, phase by phase. In `Purging` the roots that went back before the purge was asked
      for, if any, are still a prefix, and then nothing has been destroyed. */
  ghost predicate Inv(roots: seq<Bytes>, orig: seq<Option<Tree>>, d: Disk) {
    && |orig| == |roots| && d.Shaped(|roots|) && WholeTrees(orig)
    && (d.journal.None? ==> BackUpTo(orig, d, |orig|))
    && (d.journal.Some? ==> AllTruthful(roots, orig, d) && PhaseOk(orig, d))
  }

  ghost predicate PhaseOk(orig: seq<Option<Tree>>, d: Disk)
    requires d.Journaled(|orig|)
  {
    var j := d.journal.value;
    match j.phase
    case Fenced => BackUpTo(orig, d, |orig|) && NothingPurged(d) && NothingKnown(j)
    case Quarantining => Collecting(orig, d) && NothingPurged(d)
    case Quarantined => Complete(j) && BackUpTo(orig, d, 0) && NothingPurged(d)
    case Restoring => Complete(j) && PartlyBack(orig, d) && NothingPurged(d)
    case Restored => Complete(j) && BackUpTo(orig, d, |orig|) && NothingPurged(d)
    case Purging => Complete(j) && (AllDoomed(orig, d) || (PartlyBack(orig, d) && NothingPurged(d)))
    case Purged => Complete(j) && AllDoomed(orig, d) && GoneUpTo(orig, d, |orig|)
  }

  ghost predicate Complete(j: Journal) {
    forall e <- j.roots :: e.wasPresent.Some?
  }

  ghost predicate NothingKnown(j: Journal) {
    forall e <- j.roots :: e.wasPresent.None?
  }

  ghost predicate PartlyBack(orig: seq<Option<Tree>>, d: Disk)
    requires |d.active| == |d.isolated| == |orig|
  {
    exists k: nat :: BackUpTo(orig, d, k)
  }

  /** The roots before `i` have been destroyed, with their inventories in the journal. */
  ghost predicate GoneUpTo(orig: seq<Option<Tree>>, d: Disk, i: nat)
    requires d.Journaled(|orig|)
  {
    forall k :: 0 <= k < |orig| && k < i ==>
        d.isolated[k].None? && (orig[k].Some? ==> d.journal.value.roots[k].purged.Some?)
  }

  /** Before the deletion: everything in its place and no journal. */
  ghost predicate Initial(roots: seq<Bytes>, orig: seq<Option<Tree>>, d: Disk) {
    d == Disk(None, orig, seq(|roots|, _ => None)) && |orig| == |roots| && WholeTrees(orig)
  }
}
