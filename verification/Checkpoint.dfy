/** Checkpoints and source switches of one materialization object. Both calls change the object in
    place, and some of their checks come after the first change. */
module Checkpoint {
  import opened Base

  const MAX_SOURCES := 256

  datatype Status = Missing | Reserved | Transferring | Verified | Published | AlreadyPresent | Failed

  predicate CanTransition(from: Status, to: Status) {
    || from == to
    || (from == Missing && to in {Reserved, AlreadyPresent, Failed})
    || (from == Reserved && to in {Transferring, Verified, Missing, Failed})
    || (from == Transferring && to in {Verified, Failed})
    || (from == Verified && to == Published)
    || (from == Failed && to in {Reserved, Missing})
  }

  /** Which object of which materialization plan a task or a checkpoint is about. */
  datatype Identity = Identity(materialization: nat, id: ObjectId, planRevision: nat)

  /** `sealed` stands for everything validation checks about fields neither call touches. */
  datatype Task = Task(identity: Identity, size: nat, status: Status, offset: nat, primary: Option<nat>,
                       fallbacks: seq<nat>, batch: Option<nat>, attempt: nat, sealed: bool) {

    predicate Complete() {
      status in {Verified, Published, AlreadyPresent}
    }

    /** All placements the object may come from. */
    ghost function Sources(): set<nat> {
      (set s | s in fallbacks) + if primary.Some? then {primary.value} else {}
    }
  }

  predicate Distinct(s: seq<nat>) {
    forall i, j :: 0 <= i < j < |s| ==> s[i] != s[j]
  }

  predicate Valid(o: Task) {
    && o.sealed && 0 < o.attempt <= U64_MAX && o.offset <= o.size <= U64_MAX
    && (o.Complete() ==> o.offset == o.size)
    && |o.fallbacks| <= MAX_SOURCES && Distinct(o.fallbacks)
    && (o.primary.Some? ==> o.primary.value !in o.fallbacks)
  }

  datatype Checkpoint = Checkpoint(identity: Identity, batch: nat, attempt: nat, offset: nat)

  // ---- Checkpoints ----

  /** The status an accepted checkpoint at this offset starts from. */
  function Resumed(o: Task, offset: nat): Status {
    if offset == 0 && o.size == 0 && o.status == Missing then AlreadyPresent
    else if offset > 0 && o.status in {Missing, Failed} then Transferring
    else if offset > 0 && o.status == Reserved then Transferring
    else o.status
  }

  function Apply(o: Task, c: Checkpoint): (Task, bool) {
    if !Valid(o) || o.identity != c.identity || o.attempt != c.attempt then (o, false)
    else if o.batch.Some? && o.batch.value != c.batch then (o, false)
    else
      // From here on the object is bound to the batch, whatever the remaining checks say.
      var bound := o.(batch := Some(c.batch));
      if c.offset < o.offset || c.offset > o.size then (bound, false)
      else
        var moved := bound.(status := Resumed(o, c.offset), offset := c.offset);
        if c.offset == o.size && !moved.Complete() then
          if !CanTransition(moved.status, Verified) then (moved, false)
          else (moved.(status := Verified), Valid(moved.(status := Verified)))
        else (moved, Valid(moved))
  }

  // ---- Switching sources ----

  function Without(s: seq<nat>, x: nat): seq<nat> {
    if s == [] then [] else (if s[0] == x then [] else [s[0]]) + Without(s[1..], x)
  }

  function Swapped(o: Task, fallback: nat): Task {
    var rest := Without(o.fallbacks, fallback);
    var back :=
      if o.primary.Some? && o.primary.value != fallback && o.primary.value !in rest then [o.primary.value] else [];
    o.(primary := Some(fallback), fallbacks := rest + back)
  }

  function Switch(o: Task, fallback: nat): (Task, bool) {
    if !Valid(o) || fallback !in o.fallbacks || o.status !in {Failed, Reserved} then (o, false)
    else
      // The sources are swapped before the attempt counter is checked.
      var swapped := Swapped(o, fallback);
      if o.attempt + 1 > U64_MAX then (swapped, false)
      else
        var next := swapped.(attempt := o.attempt + 1, batch := None,
                             status := if o.status == Failed then Reserved else o.status);
        (next, Valid(next))
  }

  // ---- Rejected calls ----

  /** What a checkpoint must look like to be accepted. The one surprise is an empty object that failed:
      no checkpoint can complete it. */
  lemma AcceptedExactlyWhen(o: Task, c: Checkpoint)
    ensures Apply(o, c).1 <==>
              && Valid(o) && o.identity == c.identity && o.attempt == c.attempt
              && (o.batch.None? || o.batch.value == c.batch)
              && o.offset <= c.offset <= o.size && !(o.status == Failed && o.size == 0)
  {
    hide Distinct;
    var moved := o.(batch := Some(c.batch), status := Resumed(o, c.offset), offset := c.offset);
    assert Distinct(moved.fallbacks) == Distinct(o.fallbacks);
  }

  /** An accepted checkpoint says where the object is: complete at its size, in transfer before it, and
      at zero of a non-empty object where it was. Its status got there by the transitions allowed. */
  lemma AcceptedStatus(o: Task, c: Checkpoint)
    requires Apply(o, c).1
    ensures var next := Apply(o, c).0;
            && (c.offset == o.size ==> next.Complete())
            && (0 < c.offset < o.size ==> next.status == Transferring)
            && (c.offset == 0 < o.size ==> next.status == o.status)
            && exists a, b :: CanTransition(o.status, a) && CanTransition(a, b) && CanTransition(b, next.status)
  {
    var next := Apply(o, c).0;
    var a := if o.status in {Missing, Failed} && c.offset > 0 then Reserved else o.status;
    var b := if a == Reserved && c.offset > 0 then Transferring else a;
    assert CanTransition(o.status, a) && CanTransition(a, b) && CanTransition(b, next.status);
  }

  /** A rejected checkpoint leaves the object alone, except exactly when an object without a batch got
      past the identity checks and failed a later one: then it has been bound to the batch. */
  lemma RejectedCheckpointBindsExactlyWhen(o: Task, c: Checkpoint)
    ensures !Apply(o, c).1 && Apply(o, c).0 != o <==>
              && Valid(o) && o.identity == c.identity && o.attempt == c.attempt && o.batch.None?
              && (c.offset < o.offset || c.offset > o.size || (o.status == Failed && o.size == 0))
    ensures !Apply(o, c).1 && Apply(o, c).0 != o ==> Apply(o, c).0 == o.(batch := Some(c.batch))
  {
    AcceptedExactlyWhen(o, c);
  }

  /** For instance, a checkpoint beyond the object's size is refused and still claims the object, so
      that the batch that really owns it is refused from then on. */
  lemma RejectedCheckpointCanLockOut()
    ensures exists o: Task, bad: Checkpoint, good: Checkpoint ::
              && !Apply(o, bad).1 && Apply(o, good).1
              && !Apply(Apply(o, bad).0, good).1
  {
    var who := Identity(1, 1, 1);
    var o := Task(who, 10, Reserved, 0, None, [], None, 1, true);
    var bad, good := Checkpoint(who, 7, 1, 11), Checkpoint(who, 8, 1, 5);
    assert !Apply(o, bad).1 && Apply(o, good).1 && !Apply(Apply(o, bad).0, good).1;
  }

  lemma {:induction false} WithoutMembers(s: seq<nat>, x: nat)
    ensures forall y :: y in Without(s, x) <==> y in s && y != x
    ensures |Without(s, x)| <= |s| && (x in s ==> |Without(s, x)| < |s|)
  {
    if s != [] {
      WithoutMembers(s[1..], x);
      assert forall y :: y in s <==> y == s[0] || y in s[1..];
    }
  }

  lemma {:induction false} WithoutDistinct(s: seq<nat>, x: nat)
    requires Distinct(s)
    ensures Distinct(Without(s, x))
  {
    if s != [] {
      var rest := Without(s[1..], x);
      WithoutDistinct(s[1..], x);
      WithoutMembers(s[1..], x);
      forall i | 0 <= i < |rest| ensures rest[i] != s[0] {
        assert rest[i] in rest;
        var k :| 0 <= k < |s[1..]| && s[1..][k] == rest[i];
        assert s[0] != s[k + 1];
      }
    }
  }

  lemma SwappedFacts(o: Task, fallback: nat)
    requires Valid(o) && fallback in o.fallbacks
    ensures Valid(Swapped(o, fallback)) && Swapped(o, fallback).Sources() == o.Sources()
  {
    WithoutMembers(o.fallbacks, fallback);
    WithoutDistinct(o.fallbacks, fallback);
    var next := Swapped(o, fallback);
    forall s: nat ensures s in next.Sources() <==> s in o.Sources() {
    }
  }

  lemma SwitchFacts(o: Task, fallback: nat)
    ensures Valid(o) ==> Valid(Switch(o, fallback).0)
    ensures Switch(o, fallback).0.Sources() == o.Sources()
    ensures Switch(o, fallback).1 <==>
            Valid(o) && fallback in o.fallbacks && o.status in {Failed, Reserved} && o.attempt < U64_MAX
    ensures Switch(o, fallback).1 ==> Switch(o, fallback).0.primary == Some(fallback)
  {
    if Valid(o) && fallback in o.fallbacks && o.status in {Failed, Reserved} {
      SwappedFacts(o, fallback);
    }
  }

  /** A rejected switch leaves the object alone, except exactly when the attempt counter is used up: then
      the sources have been swapped and nothing else. */
  lemma RejectedSwitchSwapsExactlyWhen(o: Task, fallback: nat)
    ensures !Switch(o, fallback).1 && Switch(o, fallback).0 != o <==>
              Valid(o) && fallback in o.fallbacks && o.status in {Failed, Reserved} && o.attempt == U64_MAX
    ensures !Switch(o, fallback).1 && Switch(o, fallback).0 != o ==> Switch(o, fallback).0 == Swapped(o, fallback)
  {
    SwitchFacts(o, fallback);
  }

  /** For instance, with one fallback and the last attempt used up the switch is refused, and the two
      sources have changed places. */
  lemma RejectedSwitchCanSwap()
    ensures exists o: Task :: Valid(o) && !Switch(o, 2).1 && Switch(o, 2).0 == o.(primary := Some(2), fallbacks := [1])
                              && o.primary == Some(1) && o.fallbacks == [2]
  {
    var o := Task(Identity(1, 1, 1), 10, Failed, 0, Some(1), [2], None, U64_MAX, true);
    assert Without([2], 2) == [] by {
      assert [2][1..] == [];
    }
    assert Swapped(o, 2) == o.(primary := Some(2), fallbacks := [1]);
    assert Valid(o) && !Switch(o, 2).1 && Switch(o, 2).0 == o.(primary := Some(2), fallbacks := [1]);
  }

  // ---- Every sequence of calls ----

  datatype Call = Check(c: Checkpoint) | SwitchTo(fallback: nat)

  function Do(o: Task, call: Call): (Task, bool) {
    match call
    case Check(c) => Apply(o, c)
    case SwitchTo(f) => Switch(o, f)
  }

  function After(o: Task, calls: seq<Call>): Task {
    if calls == [] then o else Do(After(o, calls[..|calls| - 1]), calls[|calls| - 1]).0
  }

  function Accepts(o: Task, calls: seq<Call>, i: nat): bool
    requires i < |calls|
  {
    Do(After(o, calls[..i]), calls[i]).1
  }

  /** The accepted switches among the first `n` calls. */
  function AcceptedSwitches(o: Task, calls: seq<Call>, n: nat): nat
    requires n <= |calls|
  {
    if n == 0 then 0
    else AcceptedSwitches(o, calls, n - 1) + if calls[n - 1].SwitchTo? && Accepts(o, calls, n - 1) then 1 else 0
  }

  lemma OneCall(o: Task, call: Call)
    requires Valid(o)
    ensures var (next, ok) := Do(o, call);
            && Valid(next) && next.Sources() == o.Sources() && next.size == o.size && next.identity == o.identity
            && o.offset <= next.offset <= next.size
            && next.attempt == o.attempt + (if ok && call.SwitchTo? then 1 else 0)
            && (o.Complete() ==> next.status == o.status && next.offset == o.offset)
            && (call.Check? && ok ==> next.batch == Some(call.c.batch) && next.offset == call.c.offset)
            && (o.batch.Some? && !(ok && call.SwitchTo?) ==> next.batch == o.batch)
  {
    if call.SwitchTo? {
      SwitchFacts(o, call.fallback);
    }
  }

  /** Over every sequence of calls, rejected ones included: the confirmed offset never goes back and
      never passes the size, the attempt counts the accepted switches, no source is lost or invented,
      and an object that is complete stays as it is. */
  lemma {:induction false} EverySequenceIsMonotone(o: Task, calls: seq<Call>, n: nat)
    requires Valid(o) && n <= |calls|
    ensures var now := After(o, calls[..n]);
            && Valid(now) && o.offset <= now.offset <= now.size == o.size
            && now.Sources() == o.Sources()
            && now.attempt == o.attempt + AcceptedSwitches(o, calls, n)
            && (o.Complete() ==> now.status == o.status && now.offset == o.offset)
  {
    hide Do, Valid;
    if n == 0 {
      assert calls[..0] == [];
      ValidOffset(o);
    } else {
      EverySequenceIsMonotone(o, calls, n - 1);
      assert calls[..n][..n - 1] == calls[..n - 1];
      OneCall(After(o, calls[..n - 1]), calls[n - 1]);
    }
  }

  lemma ValidOffset(o: Task)
    requires Valid(o)
    ensures o.offset <= o.size
  {
  }

  lemma {:induction false} BatchStays(o: Task, calls: seq<Call>, i: nat, k: nat, batch: nat)
    requires Valid(o) && i <= k <= |calls| && After(o, calls[..i]).batch == Some(batch)
    requires forall m :: i <= m < k && calls[m].SwitchTo? ==> !Accepts(o, calls, m)
    ensures After(o, calls[..k]).batch == Some(batch)
  {
    hide Do, Valid;
    if i < k {
      BatchStays(o, calls, i, k - 1, batch);
      EverySequenceIsMonotone(o, calls, k - 1);
      assert calls[..k][..k - 1] == calls[..k - 1];
      OneCall(After(o, calls[..k - 1]), calls[k - 1]);
    }
  }

  /** Between two accepted switches all accepted checkpoints carry one batch ID. */
  lemma OneBatchBetweenSwitches(o: Task, calls: seq<Call>, i: nat, k: nat)
    requires Valid(o) && i < k < |calls| && calls[i].Check? && calls[k].Check? && Accepts(o, calls, i)
             && Accepts(o, calls, k)
    requires forall m :: i < m < k && calls[m].SwitchTo? ==> !Accepts(o, calls, m)
    ensures calls[i].c.batch == calls[k].c.batch
  {
    hide Do, Valid;
    EverySequenceIsMonotone(o, calls, i);
    OneCall(After(o, calls[..i]), calls[i]);
    assert calls[..i + 1][..i] == calls[..i];
    BatchStays(o, calls, i + 1, k, calls[i].c.batch);
    EverySequenceIsMonotone(o, calls, k);
    OneCall(After(o, calls[..k]), calls[k]);
  }

  // ---- In place ----

  class MaterializationObject {
    const identity: Identity
    const size: nat
    const sealed: bool
    var status: Status
    var offset: nat
    var primary: Option<nat>
    var fallbacks: seq<nat>
    var batch: Option<nat>
    var attempt: nat

    function View(): Task
      reads this
    {
      Task(identity, size, status, offset, primary, fallbacks, batch, attempt, sealed)
    }

    constructor (identity: Identity, size: nat)
      ensures View() == Task(identity, size, Missing, 0, None, [], None, 1, true)
    {
      this.identity, this.size, sealed := identity, size, true;
      status, offset, primary, fallbacks, batch, attempt := Missing, 0, None, [], None, 1;
    }

    method ApplyCheckpoint(c: Checkpoint) returns (ok: bool)
      modifies this
      ensures (View(), ok) == Apply(old(View()), c)
    {
      if !Valid(View()) || identity != c.identity || attempt != c.attempt {
        return false;
      }
      if batch.Some? {
        if batch.value != c.batch {
          return false;
        }
      } else {
        batch := Some(c.batch);
      }
      if c.offset < offset || c.offset > size {
        return false;
      }
      if c.offset == 0 && size == 0 && status == Missing {
        status := AlreadyPresent;
      } else if c.offset > 0 && status in {Missing, Failed} {
        status := Reserved;
        status := Transferring;
      } else if c.offset > 0 && status == Reserved {
        status := Transferring;
      }
      offset := c.offset;
      if c.offset == size && !View().Complete() {
        if !CanTransition(status, Verified) {
          return false;
        }
        status := Verified;
      }
      ok := Valid(View());
    }

    method SwitchSource(fallback: nat) returns (ok: bool)
      modifies this
      ensures (View(), ok) == Switch(old(View()), fallback)
    {
      hide Distinct;
      if !Valid(View()) || fallback !in fallbacks || status !in {Failed, Reserved} {
        return false;
      }
      var oldPrimary := primary;
      primary := Some(fallback);
      fallbacks := Without(fallbacks, fallback);
      if oldPrimary.Some? && oldPrimary.value != fallback && oldPrimary.value !in fallbacks {
        fallbacks := fallbacks + [oldPrimary.value];
      }
      assert Without(old(fallbacks), fallback) + [] == Without(old(fallbacks), fallback);
      assert View() == Swapped(old(View()), fallback);
      if attempt + 1 > U64_MAX {
        return false;
      }
      attempt := attempt + 1;
      batch := None;
      if status == Failed {
        status := Reserved;
      }
      ok := Valid(View());
    }
  }
}
