/** The gate that keeps Jobs out of resources under a lifecycle operation. */
module JobGate {
  import opened Base

  type Id = nat

  datatype JobScope = JobScope(project: Id, artifact: Id, workspace: Option<Id>, snapshot: Option<Id>, volume: Id) {

    /** Whether a lifecycle operation on `scope` concerns this Job. */
    predicate Matches(scope: Scope) {
      match scope
      case StorageVolume(v) => v == volume
      case Artifact(p, a, v, _) => p == project && a == artifact && v == volume
      case Workspace(p, a, w, v, _) => p == project && a == artifact && workspace == Some(w) && v == volume
      case Snapshot(p, a, s, v, _) => p == project && a == artifact && snapshot == Some(s) && v == volume
    }
  }

  /** Jobs that add to or check out a Workspace, and Jobs that deliver a Snapshot. */
  function WorkspaceJob(project: Id, artifact: Id, workspace: Id, volume: Id): JobScope {
    JobScope(project, artifact, Some(workspace), None, volume)
  }

  function SnapshotJob(project: Id, artifact: Id, snapshot: Id, volume: Id): JobScope {
    JobScope(project, artifact, None, Some(snapshot), volume)
  }

  /** Scopes nest: whatever a Workspace or Snapshot scope concerns, the scope of its Artifact does, and
      whatever that concerns, the scope of its Volume does. Across Volumes nothing is shared, and
      Workspaces do not concern deliveries nor Snapshots checkouts. */
  lemma ScopesNest(p: Id, a: Id, w: Id, v: Id, x: Id, job: JobScope)
    ensures job.Matches(Workspace(p, a, w, v, x)) || job.Matches(Snapshot(p, a, w, v, x)) ==>
            job.Matches(Artifact(p, a, v, x))
    ensures job.Matches(Artifact(p, a, v, x)) ==> job.Matches(StorageVolume(v))
    ensures job.Matches(StorageVolume(v)) <==> job.volume == v
    ensures WorkspaceJob(p, a, w, v).Matches(Workspace(p, a, w, v, x))
            && SnapshotJob(p, a, w, v).Matches(Snapshot(p, a, w, v, x))
    ensures forall s: Id ::
              && !WorkspaceJob(p, a, w, v).Matches(Snapshot(p, a, s, v, x))
              && !SnapshotJob(p, a, w, v).Matches(Workspace(p, a, s, v, x))
  {
  }

  /** `extra` stands for the fields that identify a scope without deciding which Jobs it concerns. */
  datatype Scope =
    | StorageVolume(volume: Id)
    | Artifact(project: Id, artifact: Id, volume: Id, extra: Id)
    | Workspace(project: Id, artifact: Id, workspace: Id, volume: Id, extra: Id)
    | Snapshot(project: Id, artifact: Id, snapshot: Id, volume: Id, extra: Id)

  datatype Active = Active(scope: JobScope, count: nat)

  datatype Gate = Gate(fences: seq<Scope>, active: map<Id, Active>)

  /** A guard handed out and not yet dropped. */
  datatype Guard = Guard(job: Id, scope: JobScope)

  /** The gate and, as history, the guards that are alive. */
  datatype State = State(gate: Gate, live: seq<Guard>)

  const START := State(Gate([], map[]), [])

  datatype Event = Begin(job: Id, scope: JobScope) | Drop(index: nat) | Fence(fenced: Scope) | Restore(restored: Scope)

  predicate Fenced(g: Gate, job: JobScope) {
    exists f <- g.fences :: job.Matches(f)
  }

  function Admits(g: Gate, job: Id, scope: JobScope): bool {
    !Fenced(g, scope) && (job in g.active ==> g.active[job].scope == scope)
  }

  /** Counts saturate at the machine's word size. */
  function Admit(g: Gate, job: Id, scope: JobScope): Gate
    requires Admits(g, job, scope)
  {
    var count := if job in g.active then Min(g.active[job].count + 1, U64_MAX) else 1;
    g.(active := g.active[job := Active(scope, count)])
  }

  function Release(g: Gate, job: Id): Gate {
    if job !in g.active then g
    else if g.active[job].count <= 1 then g.(active := g.active - {job})
    else g.(active := g.active[job := g.active[job].(count := g.active[job].count - 1)])
  }

  function AddFence(g: Gate, scope: Scope): Gate {
    if scope in g.fences then g else g.(fences := g.fences + [scope])
  }

  function Retain(fences: seq<Scope>, scope: Scope): seq<Scope> {
    if fences == [] then [] else (if fences[0] == scope then [] else [fences[0]]) + Retain(fences[1..], scope)
  }

  function RemoveAt(live: seq<Guard>, i: nat): seq<Guard>
    requires i < |live|
  {
    live[..i] + live[i + 1..]
  }

  function Step(s: State, e: Event): State {
    match e
    case Begin(job, scope) => if Admits(s.gate, job, scope)
      then State(Admit(s.gate, job, scope), s.live + [Guard(job, scope)]) else s
    case Drop(i) => if i < |s.live| then State(Release(s.gate, s.live[i].job), RemoveAt(s.live, i)) else s
    case Fence(scope) => s.(gate := AddFence(s.gate, scope))
    case Restore(scope) => s.(gate := s.gate.(fences := Retain(s.gate.fences, scope)))
  }

  function Run(events: seq<Event>): State {
    if events == [] then START else Step(Run(events[..|events| - 1]), events[|events| - 1])
  }

  // ---- Counting guards ----

  function Count(live: seq<Guard>, job: Id): nat {
    if live == [] then 0 else Count(live[1..], job) + if live[0].job == job then 1 else 0
  }

  /** Guards a lifecycle operation on `scope` has to wait for. */
  function CountMatching(live: seq<Guard>, scope: Scope): nat {
    if live == [] then 0 else CountMatching(live[1..], scope) + if live[0].scope.Matches(scope) then 1 else 0
  }

  lemma {:induction false} CountConcat(a: seq<Guard>, b: seq<Guard>, job: Id, scope: Scope)
    ensures Count(a + b, job) == Count(a, job) + Count(b, job)
    ensures CountMatching(a + b, scope) == CountMatching(a, scope) + CountMatching(b, scope)
  {
    if a == [] {
      assert a + b == b;
    } else {
      CountConcat(a[1..], b, job, scope);
      assert (a + b)[1..] == a[1..] + b;
    }
  }

  lemma CountRemoved(live: seq<Guard>, i: nat, job: Id, scope: Scope)
    requires i < |live|
    ensures Count(RemoveAt(live, i), job) == Count(live, job) - if live[i].job == job then 1 else 0
    ensures CountMatching(RemoveAt(live, i), scope) ==
            CountMatching(live, scope) - if live[i].scope.Matches(scope) then 1 else 0
  {
    var g := live[i];
    CountConcat(live[..i], live[i + 1..], job, scope);
    CountConcat(live[..i], [g] + live[i + 1..], job, scope);
    CountConcat([g], live[i + 1..], job, scope);
    assert live == live[..i] + ([g] + live[i + 1..]);
  }

  lemma CountAdded(live: seq<Guard>, g: Guard, job: Id, scope: Scope)
    ensures Count(live + [g], job) == Count(live, job) + if g.job == job then 1 else 0
    ensures CountMatching(live + [g], scope) == CountMatching(live, scope) + if g.scope.Matches(scope) then 1 else 0
  {
    CountConcat(live, [g], job, scope);
  }

  lemma {:induction false} CountBounded(live: seq<Guard>, job: Id)
    ensures Count(live, job) <= |live|
    ensures (forall g <- live :: g.job != job) ==> Count(live, job) == 0
    ensures (exists g <- live :: g.job == job) ==> Count(live, job) > 0
  {
    if live != [] {
      CountBounded(live[1..], job);
      assert forall g :: g in live <==> g == live[0] || g in live[1..];
    }
  }

  // ---- Every active count is the number of live guards ----

  ghost predicate Exact(s: State) {
    && (forall job: Id :: job in s.gate.active <==> Count(s.live, job) > 0)
    && (forall job <- s.gate.active :: s.gate.active[job].count == Count(s.live, job))
    && (forall g <- s.live :: g.job in s.gate.active && s.gate.active[g.job].scope == g.scope)
  }

  lemma BeginKeepsExact(s: State, job: Id, scope: JobScope)
    requires Exact(s) && |s.live| < U64_MAX && Admits(s.gate, job, scope)
    ensures Exact(Step(s, Begin(job, scope)))
  {
    var g := Guard(job, scope);
    forall j: Id ensures Count(s.live + [g], j) == Count(s.live, j) + if job == j then 1 else 0 {
      CountAdded(s.live, g, j, StorageVolume(0));
    }
    CountBounded(s.live, job);
  }

  lemma DropKeepsExact(s: State, i: nat)
    requires Exact(s) && i < |s.live|
    ensures Exact(Step(s, Drop(i)))
  {
    var g := s.live[i];
    var live := RemoveAt(s.live, i);
    assert g in s.live;
    forall j: Id ensures Count(live, j) == Count(s.live, j) - if g.job == j then 1 else 0 {
      CountRemoved(s.live, i, j, StorageVolume(0));
    }
    forall h | h in live ensures h.job in Release(s.gate, g.job).active {
      assert h in s.live;
      CountBounded(live, h.job);
    }
  }

  lemma StepKeepsExact(s: State, e: Event)
    requires Exact(s) && |s.live| < U64_MAX
    ensures Exact(Step(s, e)) && |Step(s, e).live| <= |s.live| + 1
  {
    hide Exact;
    match e {
      case Begin(job, scope) =>
        if Admits(s.gate, job, scope) {
          BeginKeepsExact(s, job, scope);
        }
      case Drop(i) =>
        if i < |s.live| {
          DropKeepsExact(s, i);
        }
      case _ =>
        FencesDoNotCount(s, Step(s, e));
    }
  }

  lemma FencesDoNotCount(s: State, s': State)
    requires Exact(s) && s'.live == s.live && s'.gate.active == s.gate.active
    ensures Exact(s')
  {
  }

  /** In every interleaving, each active count is the number of live guards of that Job, and a Job is
      active exactly while it has one. */
  lemma {:induction false} CountsAreExact(events: seq<Event>)
    requires |events| <= U64_MAX
    ensures Exact(Run(events)) && |Run(events).live| <= |events|
  {
    hide Exact, Step;
    if events == [] {
      NoGuards();
    } else {
      CountsAreExact(events[..|events| - 1]);
      StepKeepsExact(Run(events[..|events| - 1]), events[|events| - 1]);
    }
  }

  lemma NoGuards()
    ensures Exact(START)
  {
  }

  // ---- What a fence reports ----

  function CountIn(live: seq<Guard>, jobs: set<Id>, scope: Scope): nat {
    if live == [] then 0
    else CountIn(live[1..], jobs, scope) + if live[0].job in jobs && live[0].scope.Matches(scope) then 1 else 0
  }

  lemma {:induction false} CountInSplits(live: seq<Guard>, jobs: set<Id>, scope: Scope, job: Id, jobScope: JobScope)
    requires job in jobs && forall g <- live :: g.job == job ==> g.scope == jobScope
    ensures CountIn(live, jobs, scope) ==
            CountIn(live, jobs - {job}, scope) + if jobScope.Matches(scope) then Count(live, job) else 0
  {
    if live != [] {
      assert live[0] in live && forall g <- live[1..] :: g in live;
      CountInSplits(live[1..], jobs, scope, job, jobScope);
    }
  }

  lemma {:induction false} CountInNone(live: seq<Guard>, scope: Scope)
    ensures CountIn(live, {}, scope) == 0
  {
    if live != [] {
      CountInNone(live[1..], scope);
    }
  }

  lemma {:induction false} CountInAll(live: seq<Guard>, jobs: set<Id>, scope: Scope)
    requires forall g <- live :: g.job in jobs
    ensures CountIn(live, jobs, scope) == CountMatching(live, scope)
  {
    if live != [] {
      assert live[0] in live && forall g <- live[1..] :: g in live;
      CountInAll(live[1..], jobs, scope);
    }
  }

  method CountFenced(active: map<Id, Active>, scope: Scope, ghost live: seq<Guard>) returns (total: nat)
    requires Exact(State(Gate([], active), live))
    ensures total == CountMatching(live, scope)
  {
    total := 0;
    var rest := active.Keys;
    CountInAll(live, active.Keys, scope);
    while rest != {}
      invariant rest <= active.Keys && total + CountIn(live, rest, scope) == CountMatching(live, scope)
      decreases |rest|
    {
      var job :| job in rest;
      CountInSplits(live, rest, scope, job, active[job].scope);
      if active[job].scope.Matches(scope) {
        total := total + active[job].count;
      }
      rest := rest - {job};
    }
    CountInNone(live, scope);
  }

  // ---- A fence holds until it is lifted ----

  lemma {:induction false} RetainOthers(fences: seq<Scope>, scope: Scope, other: Scope)
    ensures other in Retain(fences, scope) <==> other in fences && other != scope
  {
    if fences != [] {
      RetainOthers(fences[1..], scope, other);
    }
  }

  lemma FencedStep(s: State, e: Event, scope: Scope)
    requires scope in s.gate.fences && e != Restore(scope)
    ensures scope in Step(s, e).gate.fences
    ensures CountMatching(Step(s, e).live, scope) <= CountMatching(s.live, scope)
  {
    match e {
      case Begin(job, jobScope) =>
        CountAdded(s.live, Guard(job, jobScope), job, scope);
      case Drop(i) =>
        if i < |s.live| {
          CountRemoved(s.live, i, 0, scope);
        }
      case Fence(_) =>
      case Restore(other) =>
        RetainOthers(s.gate.fences, other, scope);
    }
  }

  function Continue(s: State, events: seq<Event>): State {
    if events == [] then s else Step(Continue(s, events[..|events| - 1]), events[|events| - 1])
  }

  /** From a fence until exactly that scope is restored, the number of live guards it concerns never
      grows, whatever begins, ends, is fenced or restored in between. */
  lemma {:induction false} FencedGuardsOnlyLeave(s: State, scope: Scope, events: seq<Event>)
    requires scope in s.gate.fences && Restore(scope) !in events
    ensures scope in Continue(s, events).gate.fences
    ensures CountMatching(Continue(s, events).live, scope) <= CountMatching(s.live, scope)
  {
    hide Step;
    if events != [] {
      FencedGuardsOnlyLeave(s, scope, events[..|events| - 1]);
      assert events[|events| - 1] in events;
      FencedStep(Continue(s, events[..|events| - 1]), events[|events| - 1], scope);
    }
  }

  // ---- The gate in place ----

  class LifecycleJobGate {
    var fences: seq<Scope>
    var active: map<Id, Active>
    ghost var live: seq<Guard>

    ghost function View(): State
      reads this
    {
      State(Gate(fences, active), live)
    }

    constructor ()
      ensures View() == START
    {
      fences, active, live := [], map[], [];
    }

    method BeginJob(job: Id, scope: JobScope) returns (ok: bool)
      modifies this
      ensures View() == Step(old(View()), Begin(job, scope))
      ensures ok <==> Admits(old(View()).gate, job, scope)
    {
      if exists f <- fences :: scope.Matches(f) {
        return false;
      }
      if job in active {
        if active[job].scope != scope {
          return false;
        }
        active := active[job := Active(scope, Min(active[job].count + 1, U64_MAX))];
      } else {
        active := active[job := Active(scope, 1)];
      }
      live := live + [Guard(job, scope)];
      ok := true;
    }

    /** Runs when a guard is dropped. */
    method DropGuard(job: Id, ghost index: nat)
      requires index < |live| && live[index].job == job
      modifies this
      ensures View() == Step(old(View()), Drop(index))
    {
      if job in active {
        var count := if active[job].count == 0 then 0 else active[job].count - 1;
        active := active[job := active[job].(count := count)];
        if count == 0 {
          active := active - {job};
        }
      }
      live := RemoveAt(live, index);
    }

    /** Sets the fence and reports how many live guards it has to wait for. */
    method FenceScope(scope: Scope) returns (waiting: nat)
      requires Exact(View())
      modifies this
      ensures View() == Step(old(View()), Fence(scope))
      ensures waiting == CountMatching(live, scope)
    {
      if scope !in fences {
        fences := fences + [scope];
      }
      waiting := CountFenced(active, scope, live);
    }

    method RestoreScope(scope: Scope)
      modifies this
      ensures View() == Step(old(View()), Restore(scope))
    {
      fences := Retain(fences, scope);
    }
  }
}
