/** The durable progress reports of one replication, in the order a worker produces them. */
module Progress {
  import opened Base
  import opened Cas
  import opened CopyKernel

  datatype Phase = Planning | Transferring | Verifying | Published

  /** An aggregate state report, a verified object, or the publication of the whole set. */
  datatype Report = StateReport(phase: Phase, objects: nat, bytes: nat) | Verified(id: ObjectId, offset: nat)
      | Publication

  function TotalSize(objects: seq<ObjectSpec>): nat {
    if objects == [] then 0 else TotalSize(objects[..|objects| - 1]) + objects[|objects| - 1].size
  }

  ghost predicate DistinctIds(objects: seq<ObjectSpec>) {
    forall i, j :: 0 <= i < j < |objects| ==> objects[i].id != objects[j].id
  }

  // ---- Counters over a map ----

  ghost function SumOf(m: map<ObjectId, nat>): nat {
    if m == map[] then 0 else
    var k :| k in m;
    m[k] + SumOf(m - {k})
  }

  lemma {:induction false} SumWithout(m: map<ObjectId, nat>, k: ObjectId)
    requires k in m
    ensures SumOf(m) == m[k] + SumOf(m - {k})
    decreases |m|
  {
    var j :| j in m && SumOf(m) == m[j] + SumOf(m - {j});
    if j != k {
      Smaller(m, j);
      Smaller(m, k);
      SumWithout(m - {j}, k);
      SumWithout(m - {k}, j);
      assert m - {j} - {k} == m - {k} - {j};
    }
  }

  lemma Smaller(m: map<ObjectId, nat>, k: ObjectId)
    requires k in m
    ensures |m - {k}| == |m| - 1
  {
    assert (m - {k}).Keys == m.Keys - {k};
    assert |m.Keys| == |m| && |(m - {k}).Keys| == |m - {k}|;
  }

  lemma SumWith(m: map<ObjectId, nat>, k: ObjectId, v: nat)
    requires k !in m
    ensures SumOf(m[k := v]) == SumOf(m) + v && |m[k := v]| == |m| + 1
  {
    var m' := m[k := v];
    SumWithout(m', k);
    Smaller(m', k);
    assert m' - {k} == m;
  }

  method SumValues(m: map<ObjectId, nat>) returns (total: nat)
    ensures total == SumOf(m)
  {
    total := 0;
    var rest := m;
    while rest != map[]
      invariant total + SumOf(rest) == SumOf(m)
      decreases |rest|
    {
      var k :| k in rest;
      SumWithout(rest, k);
      Smaller(rest, k);
      total := total + rest[k];
      rest := rest - {k};
    }
  }

  // ---- The script ----

  function VerifiedReports(objects: seq<ObjectSpec>): seq<Report> {
    seq(|objects|, i requires 0 <= i < |objects| => Verified(objects[i].id, objects[i].size))
  }

  /** All reports of a replication that succeeds. */
  function Script(objects: seq<ObjectSpec>): seq<Report> {
    var n, total := |objects|, TotalSize(objects);
    [StateReport(Planning, 0, 0), StateReport(Transferring, 0, 0), StateReport(Verifying, 0, 0)]
    + VerifiedReports(objects)
    + [StateReport(Verifying, n, total), Publication, StateReport(Published, n, total)]
  }

  /** A publication comes right after a report of the exact totals of the whole set, and after a
      verified report at full size for every object in it. */
  ghost predicate PublishedInOrder(reports: seq<Report>, objects: seq<ObjectSpec>) {
    forall k :: 0 <= k < |reports| && reports[k].Publication? ==>
      && k > 0 && reports[k - 1] == StateReport(Verifying, |objects|, TotalSize(objects))
      && forall o <- objects :: Verified(o.id, o.size) in reports[..k - 1]
  }

  /** However early a replication stops, its reports are in order. */
  lemma EveryPrefixIsInOrder(reports: seq<Report>, objects: seq<ObjectSpec>)
    requires reports <= Script(objects)
    ensures PublishedInOrder(reports, objects)
  {
    var script := Script(objects);
    var n := |objects|;
    forall k | 0 <= k < |reports| && reports[k].Publication?
      ensures && k > 0 && reports[k - 1] == StateReport(Verifying, |objects|, TotalSize(objects))
              && forall o <- objects :: Verified(o.id, o.size) in reports[..k - 1]
    {
      assert script[k] == Publication;
      assert k == n + 4;
      forall o | o in objects ensures Verified(o.id, o.size) in reports[..k - 1] {
        var i :| 0 <= i < n && objects[i] == o;
        assert script[3 + i] == Verified(o.id, o.size);
        assert reports[..k - 1][3 + i] == script[3 + i];
      }
    }
  }

  // ---- The sink and the worker ----

  function SizeOf(members: seq<ObjectSpec>, id: ObjectId): Option<nat> {
    if members == [] then None else if members[0].id == id then Some(members[0].size) else SizeOf(members[1..], id)
  }

  class DurableProgress {
    const members: seq<ObjectSpec>
    var offsets: map<ObjectId, nat>
    var reports: seq<Report>

    constructor (members: seq<ObjectSpec>)
      ensures this.members == members && offsets == map[] && reports == []
    {
      this.members := members;
      offsets, reports := map[], [];
    }

    /** Appends to the outbox, which can fail. */
    method Enqueue(report: Report, works: bool) returns (ok: bool)
      modifies this`reports
      ensures ok == works && reports == if ok then old(reports) + [report] else old(reports)
    {
      if works {
        reports := reports + [report];
      }
      ok := works;
    }

    method ReportState(phase: Phase, works: bool) returns (ok: bool)
      modifies this`reports
      ensures reports == if ok then old(reports) + [StateReport(phase, |offsets|, SumOf(offsets))] else old(reports)
    {
      var bytes := SumValues(offsets);
      ok := Enqueue(StateReport(phase, |offsets|, bytes), works);
    }

    method ReportObject(id: ObjectId, offset: nat, works: bool) returns (ok: bool)
      modifies this
      ensures ok <==> works && SizeOf(members, id).Some? && offset <= SizeOf(members, id).value
      ensures reports == if ok then old(reports) + [Verified(id, offset)] else old(reports)
      ensures ok ==> offsets == old(offsets)[id := offset]
    {
      var size := SizeOf(members, id);
      if size.None? || offset > size.value {
        return false;
      }
      offsets := offsets[id := offset];
      ok := Enqueue(Verified(id, offset), works);
    }

    /** The aggregate is refreshed right before the publication. */
    method ReportPublication(works: seq<bool>) returns (ok: bool)
      requires |works| == 2
      modifies this`reports
      ensures var aggregate := StateReport(Verifying, |offsets|, SumOf(offsets));
              || (ok && reports == old(reports) + [aggregate, Publication])
              || (!ok && (reports == old(reports) || reports == old(reports) + [aggregate]))
    {
      ok := ReportState(Verifying, works[0]);
      if !ok {
        return;
      }
      ok := Enqueue(Publication, works[1]);
    }
  }

  /** The counters after the first `n` objects have been reported. */
  ghost predicate Counted(offsets: map<ObjectId, nat>, objects: seq<ObjectSpec>, n: nat)
    requires n <= |objects|
  {
    && |offsets| == n && SumOf(offsets) == TotalSize(objects[..n])
    && forall id <- offsets :: exists i :: 0 <= i < n && objects[i].id == id
  }

  lemma CountOne(offsets: map<ObjectId, nat>, objects: seq<ObjectSpec>, n: nat)
    requires n < |objects| && DistinctIds(objects) && Counted(offsets, objects, n)
    ensures Counted(offsets[objects[n].id := objects[n].size], objects, n + 1)
  {
    hide SumOf;
    var o := objects[n];
    assert o.id !in offsets;
    SumWith(offsets, o.id, o.size);
    assert objects[..n + 1][..n] == objects[..n];
    var next := offsets[o.id := o.size];
    forall id | id in next ensures exists i :: 0 <= i < n + 1 && objects[i].id == id {
      if id == o.id {
        assert objects[n].id == id;
      } else {
        var i :| 0 <= i < n && objects[i].id == id;
        assert 0 <= i < n + 1;
      }
    }
  }

  lemma NothingCounted(objects: seq<ObjectSpec>)
    ensures Counted(map[], objects, 0) && |VerifiedReports(objects)| == |objects|
  {
    assert objects[..0] == [];
  }

  lemma NextVerified(objects: seq<ObjectSpec>, i: nat)
    requires i < |objects|
    ensures |VerifiedReports(objects)| == |objects|
    ensures VerifiedReports(objects)[..i + 1] ==
            VerifiedReports(objects)[..i] + [Verified(objects[i].id, objects[i].size)]
  {
  }

  method ReportOutcomes(progress: DurableProgress, objects: seq<ObjectSpec>, outcomes: seq<Outcome>, works: seq<bool>)
    returns (ok: bool)
    requires |outcomes| == |objects| == |works| && DistinctIds(objects) && progress.offsets == map[]
    requires forall i :: 0 <= i < |objects| ==>
             outcomes[i].id == objects[i].id && outcomes[i].resumedFrom + outcomes[i].transferred == objects[i].size
    requires Sized(objects)
    modifies progress
    ensures old(progress.reports) <= progress.reports <= old(progress.reports) + VerifiedReports(objects)
    ensures ok ==>
              && progress.reports == old(progress.reports) + VerifiedReports(objects)
              && Counted(progress.offsets, objects, |objects|)
  {
    hide Sized, Counted, VerifiedReports, DistinctIds;
    var i := 0;
    ghost var before, all := progress.reports, VerifiedReports(objects);
    NothingCounted(objects);
    assert before + all[..0] == before;
    while i < |objects|
      invariant i <= |objects| && progress.reports == before + all[..i] && Counted(progress.offsets, objects, i)
    {
      var offset := outcomes[i].resumedFrom + outcomes[i].transferred;
      if offset > U64_MAX {
        return false;
      }
      NextVerified(objects, i);
      assert before + all[..i + 1] == before + all[..i] + [Verified(objects[i].id, objects[i].size)];
      CountOne(progress.offsets, objects, i);
      ok := progress.ReportObject(outcomes[i].id, offset, works[i]);
      if !ok {
        return;
      }
      i := i + 1;
    }
    assert all[..i] == all;
    ok := true;
  }

  /** What follows a successful copy. */
  method ReportSuccess(progress: DurableProgress, objects: seq<ObjectSpec>, outcomes: seq<Outcome>, states: seq<bool>,
                       works: seq<bool>)
      returns (ok: bool)
    requires |outcomes| == |objects| == |works| && DistinctIds(objects) && Sized(objects) && |states| == 4
    requires forall i :: 0 <= i < |objects| ==>
             outcomes[i].id == objects[i].id && outcomes[i].resumedFrom + outcomes[i].transferred == objects[i].size
    requires progress.offsets == map[] && |Script(objects)| >= 2 && progress.reports == Script(objects)[..2]
    modifies progress
    ensures progress.reports <= Script(objects)
    ensures ok ==> progress.reports == Script(objects)
  {
    hide Script, TotalSize, SumOf, VerifiedReports, Sized;
    ghost var script, n := Script(objects), |objects|;
    ScriptShape(objects);
    NoTotals();
    ok := progress.ReportState(Verifying, states[0]);
    if !ok {
      return;
    }
    assert progress.reports == script[..3];
    ok := ReportOutcomes(progress, objects, outcomes, works);
    if !ok {
      PrefixOfPrefix(progress.reports, script, n + 3);
      return;
    }
    assert objects[..n] == objects;
    ok := progress.ReportPublication([states[1], states[2]]);
    if !ok {
      return;
    }
    assert progress.reports == script[..n + 5];
    ok := progress.ReportState(Published, states[3]);
  }

  lemma PrefixOfPrefix(reports: seq<Report>, script: seq<Report>, n: nat)
    requires n <= |script| && reports <= script[..n]
    ensures reports <= script
  {
  }

  /** The whole worker: announce, copy the set, report every object, publish. `states` and `works` say
      which outbox writes succeed. */
  method RunReplication(j: SetJob, sink: VolumeCas, objects: seq<ObjectSpec>, scheds: seq<Schedule>,
                        progress: DurableProgress, routed: bool, states: seq<bool>, works: seq<bool>)
    returns (ok: bool)
    requires j.Valid() && Sized(objects) && DistinctIds(objects) && |scheds| == |objects| == |works| && |states| == 6
    requires progress.offsets == map[] && progress.reports == []
    modifies sink, progress
    ensures progress.reports <= Script(objects)
    ensures ok ==> progress.reports == Script(objects)
    ensures Publication in progress.reports ==> forall o <- objects :: PublishedAs(sink.View(), j.tenant, o)
  {
    hide CopyObjectSet, TotalSize, Sized, Script, VerifiedReports, SetOk, SumOf, PublishedAs;
    ScriptShape(objects);
    NoTotals();
    if !routed {
      return false;
    }
    ok := progress.ReportState(Planning, states[0]);
    if !ok {
      return;
    }
    ok := progress.ReportState(Transferring, states[1]);
    if !ok {
      return;
    }
    ghost var before := sink.View();
    var outcomes, error, written := CopyObjects(j, sink, objects, scheds);
    SetStaysWithinTicket(j, before, objects, scheds);
    if error.Some? {
      return false;
    }
    PublishedSet(j, objects, CopyObjectSet(j, before, objects, scheds));
    ok := ReportSuccess(progress, objects, outcomes, states[2..], works);
  }

  ghost predicate PublishedAs(s: Store, tenant: TenantId, o: ObjectSpec) {
    var key := ObjectKey(tenant, o.id);
    key in s.published && Hash(s.published[key]) == o.id && |s.published[key]| == o.size
  }

  lemma PublishedSet(j: SetJob, objects: seq<ObjectSpec>, run: SetRun)
    requires SetOk(j, objects, |objects|, run)
    ensures forall o <- objects :: PublishedAs(run.store, j.tenant, o)
    ensures |run.results| == |objects|
    ensures forall i :: 0 <= i < |objects| ==>
            run.results[i].id == objects[i].id
              && run.results[i].resumedFrom + run.results[i].transferred == objects[i].size
  {
    forall o | o in objects ensures PublishedAs(run.store, j.tenant, o) {
      var i :| 0 <= i < |objects| && objects[i] == o;
    }
  }

  lemma NoTotals()
    ensures SumOf(map[]) == 0
  {
  }

  lemma ScriptShape(objects: seq<ObjectSpec>)
    ensures var n, total := |objects|, TotalSize(objects);
            var s := Script(objects);
            var head := [StateReport(Planning, 0, 0), StateReport(Transferring, 0, 0), StateReport(Verifying, 0, 0)];
            && |s| == n + 6
            && s[..0] == [] && s[..1] == [StateReport(Planning, 0, 0)]
            && s[..2] == s[..1] + [StateReport(Transferring, 0, 0)]
            && s[..3] == s[..2] + [StateReport(Verifying, 0, 0)]
            && s[..n + 3] == s[..3] + VerifiedReports(objects)
            && s[..n + 4] == s[..n + 3] + [StateReport(Verifying, n, total)]
            && s[..n + 5] == s[..n + 3] + [StateReport(Verifying, n, total), Publication]
            && s == s[..n + 5] + [StateReport(Published, n, total)]
            && Publication !in s[..n + 4]
  {
  }
}
