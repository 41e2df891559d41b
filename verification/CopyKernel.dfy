/** The object-copy kernel: one resumable object copy, and a set of them under a byte limit. */
module CopyKernel {
  import opened Base
  import opened Cas

  /** What the environment does to one chunk: the source may fail, the append may be torn, or the
      process may stop right after the append became durable. */
  datatype Fate = Healthy | SourceFails | Torn(kept: nat) | StopsAfterWrite

  /** What the environment does to the final publication. */
  datatype PublishFate = Completes | StopsBefore | EmptyFileOnly | LinkedOnly

  /** One attempt's environment; chunks beyond `chunks` are healthy. `authorized` is the outcome
      of the ticket checks (validity, deadline, tenant, transfer, allowed object). */
  datatype Schedule = Schedule(authorized: bool, chunks: seq<Fate>, publish: PublishFate)

  datatype CopyError = NotAuthorized | OffsetBeyondSize | SourceError | SinkError | UnexpectedAck | Stopped
      | PublishError

  datatype Outcome = Outcome(id: ObjectId, transferred: nat, resumedFrom: nat, published: PublishResult)

  datatype CopyResult = Copied(outcome: Outcome) | Failed(error: CopyError)

  /** `written` counts every byte made durable, torn ones included. */
  datatype Attempt = Attempt(store: Store, result: CopyResult, written: nat)

  datatype Job = Job(chunk: nat, src: Store, key: StageKey, size: nat) {
    predicate Valid() {
      0 < chunk <= MAX_CHUNK && size <= U64_MAX
    }

    function Spec(): ObjectSpec {
      ObjectSpec(key.id, size)
    }

    /** The selected source placement holds exactly the object the job names. */
    ghost predicate HasSource() {
      && key.Object() in src.published
      && |src.published[key.Object()]| == size
      && Hash(src.published[key.Object()]) == key.id
    }

    ghost function Content(): Bytes
      requires HasSource()
    {
      src.published[key.Object()]
    }

    /** A sink this job may resume on: staged bytes are a prefix of the source object, and the
        object, if already published, is authentic. */
    ghost predicate Resumable(s: Store)
      requires HasSource()
    {
      && (key in s.staged ==> s.staged[key] <= Content())
      && (key.Object() in s.published ==> Hash(s.published[key.Object()]) == key.id)
    }

    /** An uninterrupted copy, in one step: the object is published, its staging file gone. */
    ghost function OneShot(s: Store): Store
      requires HasSource()
    {
      Store(s.published[key.Object() := Content()], s.staged - {key})
    }
  }

  function FateOf(fates: seq<Fate>): Fate {
    if fates == [] then Healthy else fates[0]
  }

  function Rest(fates: seq<Fate>): seq<Fate> {
    if fates == [] then [] else fates[1..]
  }

  /** One turn of the chunk loop: `Some(error)` leaves the loop. */
  datatype Turn = Turn(store: Store, error: Option<CopyError>, written: nat)

  function ChunkTurn(j: Job, s: Store, offset: nat, fate: Fate): (t: Turn)
    requires j.Valid() && offset < j.size
    ensures t.written <= j.size - offset
    ensures t.error.None? ==> t.written == Min(j.size - offset, j.chunk)
    ensures t.store.published == s.published
  {
    var length := Min(j.size - offset, j.chunk);
    var read := ReadRange(j.src, j.key.tenant, j.Spec(), offset, length);
    if read.ReadFailed? || fate.SourceFails? then Turn(s, Some(SourceError), 0)
    else if fate.Torn? then
      var n := Min(fate.kept, |read.bytes|);
      Turn(TornStage(s, j.key, j.Spec(), offset, read.bytes, n), Some(Stopped), n)
    else
      var (s1, r) := StageWrite(s, j.key, j.Spec(), offset, read.bytes);
      if !r.Accepted? then Turn(s1, Some(SinkError), 0)
      else if r.accepted != length || r.stagedSize != offset + length then Turn(s1, Some(UnexpectedAck), 0)
      else Turn(s1, if fate.StopsAfterWrite? then Some(Stopped) else None, length)
  }

  function CopyChunks(j: Job, s: Store, offset: nat, fates: seq<Fate>, written: nat): Turn
    requires j.Valid() && offset <= j.size
    decreases j.size - offset
  {
    if offset == j.size then Turn(s, None, written) else
    var t := ChunkTurn(j, s, offset, FateOf(fates));
    if t.error.Some? then Turn(t.store, t.error, written + t.written)
    else CopyChunks(j, t.store, offset + t.written, Rest(fates), written + t.written)
  }

  function Commit(j: Job, s: Store, fate: PublishFate): (Store, Option<PublishResult>) {
    match fate
    case Completes => var (s', r) := VerifyAndPublish(s, j.key, j.Spec()); (s', Some(r))
    case StopsBefore => (s, None)
    case EmptyFileOnly => (Apply(s, EmptyFileOp(j.key, j.Spec())), None)
    case LinkedOnly => (Apply(s, LinkedOnlyOp(j.key, j.Spec())), None)
  }

  function CopyAttempt(j: Job, s: Store, sched: Schedule): Attempt
    requires j.Valid()
  {
    if !sched.authorized then Attempt(s, Failed(NotAuthorized), 0) else
    var offset := s.ResumeOffset(j.key);
    if offset > j.size then Attempt(s, Failed(OffsetBeyondSize), 0) else
    var end := CopyChunks(j, s, offset, sched.chunks, 0);
    if end.error.Some? then Attempt(end.store, Failed(end.error.value), end.written) else
    var (s', published) := Commit(j, end.store, sched.publish);
    match published
    case None => Attempt(s', Failed(Stopped), end.written)
    case Some(r) =>
      if r.Created? || r.AlreadyPresent?
      then Attempt(s', Copied(Outcome(j.key.id, end.written, offset, r)), end.written)
      else Attempt(s', Failed(PublishError), end.written)
  }

  lemma AppendExtendsPrefix(s: Store, key: StageKey, content: Bytes, offset: nat, n: nat)
    requires offset == s.ResumeOffset(key) && offset + n <= |content|
    requires key in s.staged ==> s.staged[key] <= content
    ensures var s' := Append(s, key, content[offset..offset + n]);
            && s'.published == s.published
            && s'.staged - {key} == s.staged - {key}
            && s'.staged[key] == content[..offset + n]
            && s'.ResumeOffset(key) == offset + n
  {
    var had := if key in s.staged then s.staged[key] else [];
    assert had == content[..offset];
    assert had + content[offset..offset + n] == content[..offset + n];
  }

  lemma TurnExtendsPrefix(j: Job, s: Store, offset: nat, fate: Fate)
    requires j.Valid() && j.HasSource() && j.Resumable(s)
    requires offset == s.ResumeOffset(j.key) < j.size
    ensures var t := ChunkTurn(j, s, offset, fate);
            && j.Resumable(t.store)
            && t.store.staged - {j.key} == s.staged - {j.key}
            && t.store.ResumeOffset(j.key) == offset + t.written
            && (fate.Healthy? ==> t.error.None?)
  {
    hide Append;
    var content := j.Content();
    var length := Min(j.size - offset, j.chunk);
    var bytes := content[offset..offset + length];
    assert ReadRange(j.src, j.key.tenant, j.Spec(), offset, length) == Read(bytes);
    assert ValidChunk(j.Spec(), offset, bytes);
    var n := if fate.Torn? then Min(fate.kept, length) else length;
    assert bytes[..n] == content[offset..offset + n];
    AppendExtendsPrefix(s, j.key, content, offset, n);
  }

  /** Wherever the chunk loop ends, only this job's staging file changed, it holds a prefix of the
      source object, and its length is the old offset plus the bytes written. */
  lemma {:induction false} ChunksExtendPrefix(j: Job, s: Store, offset: nat, fates: seq<Fate>, written: nat)
    requires j.Valid() && j.HasSource() && j.Resumable(s)
    requires offset == s.ResumeOffset(j.key) <= j.size
    ensures var end := CopyChunks(j, s, offset, fates, written);
            && j.Resumable(end.store)
            && end.store.published == s.published
            && end.store.staged - {j.key} == s.staged - {j.key}
            && written <= end.written
            && end.store.ResumeOffset(j.key) == offset + (end.written - written) <= j.size
            && (end.error.None? ==> end.store.ResumeOffset(j.key) == j.size)
            && (fates == [] ==> end.error.None?)
    decreases j.size - offset
  {
    hide ChunkTurn;
    if offset < j.size {
      TurnExtendsPrefix(j, s, offset, FateOf(fates));
      var t := ChunkTurn(j, s, offset, FateOf(fates));
      if t.error.None? {
        ChunksExtendPrefix(j, t.store, offset + t.written, Rest(fates), written + t.written);
      }
    }
  }

  /** Every attempt, however it ends, leaves a sink the next attempt can resume on and touches
      nothing but this object; a successful one has done precisely a one-shot copy. */
  lemma AttemptRefinesOneShot(j: Job, s: Store, sched: Schedule)
    requires j.Valid() && j.HasSource() && j.Resumable(s)
    ensures var a := CopyAttempt(j, s, sched);
            && j.Resumable(a.store)
            && j.OneShot(a.store) == j.OneShot(s)
            && (a.result.Copied? ==>
                  && a.store == j.OneShot(s)
                  && a.result.outcome.resumedFrom == s.ResumeOffset(j.key)
                  && a.result.outcome.resumedFrom + a.result.outcome.transferred == j.size)
            && (sched == Schedule(true, [], Completes) ==> a.result.Copied?)
  {
    if sched.authorized {
      var offset := s.ResumeOffset(j.key);
      assert offset <= j.size;
      ChunksExtendPrefix(j, s, offset, sched.chunks, 0);
      var end := CopyChunks(j, s, offset, sched.chunks, 0);
      assert j.OneShot(end.store) == j.OneShot(s);
      if end.error.None? {
        CommitRefinesOneShot(j, end.store, sched.publish);
      }
    }
  }

  lemma CommitRefinesOneShot(j: Job, s: Store, fate: PublishFate)
    requires j.Valid() && j.HasSource() && j.Resumable(s)
    requires s.ResumeOffset(j.key) == j.size
    ensures var (s', r) := Commit(j, s, fate);
            && j.Resumable(s')
            && j.OneShot(s') == j.OneShot(s)
            && (fate.Completes? ==> r.Some? && (r.value.Created? || r.value.AlreadyPresent?) && s' == j.OneShot(s))
  {
    var obj := j.key.Object();
    var content := j.Content();
    PublishesExactlyVerifiedBytes(s, j.key, j.Spec());
    if obj in s.published {
      HashInjective(s.published[obj], content);
      assert s.published[obj := content] == s.published;
    } else if j.key !in s.staged {
      assert content == [];
      assert s.staged[j.key := []] - {j.key} == s.staged - {j.key};
    } else {
      assert s.staged[j.key] == content;
    }
    assert s.published[obj := content][obj := content] == s.published[obj := content];
  }

  /** The sink after a whole history of attempts, each under its own environment. */
  function Retry(j: Job, s: Store, history: seq<Schedule>): Store
    requires j.Valid()
  {
    if history == [] then s
    else CopyAttempt(j, Retry(j, s, history[..|history| - 1]), history[|history| - 1]).store
  }

  lemma {:induction false} RetryStaysResumable(j: Job, s: Store, history: seq<Schedule>)
    requires j.Valid() && j.HasSource() && j.Resumable(s)
    ensures j.Resumable(Retry(j, s, history)) && j.OneShot(Retry(j, s, history)) == j.OneShot(s)
  {
    if history != [] {
      RetryStaysResumable(j, s, history[..|history| - 1]);
      AttemptRefinesOneShot(j, Retry(j, s, history[..|history| - 1]), history[|history| - 1]);
    }
  }

  /** Crash-and-resume refines a single copy: after any history of interrupted attempts the staged
      bytes are a prefix of the source, and an attempt that succeeds leaves exactly the store one
      uninterrupted copy of the initial sink would have left. An undisturbed attempt succeeds. */
  lemma CrashAndResumeRefinesOneCopy(j: Job, s: Store, history: seq<Schedule>, last: Schedule)
    requires j.Valid() && j.HasSource() && j.Resumable(s)
    ensures var before := Retry(j, s, history);
            var a := CopyAttempt(j, before, last);
            && (j.key in before.staged ==> before.staged[j.key] <= j.Content())
            && (a.result.Copied? ==>
                  && a.store == j.OneShot(s)
                  && a.result.outcome.resumedFrom + a.result.outcome.transferred == j.size)
            && (last == Schedule(true, [], Completes) ==> a.result.Copied?)
  {
    RetryStaysResumable(j, s, history);
    AttemptRefinesOneShot(j, Retry(j, s, history), last);
  }

  // ---- A set of objects under one byte limit ----

  datatype SetError = BeyondSize | LimitAlreadyExceeded | WouldExceedLimit | ObjectFailed(error: CopyError)
      | CountOverflow | ExceededAfterCopy

  datatype SetRun = SetRun(store: Store, results: seq<Outcome>, error: Option<SetError>, written: nat)

  datatype SetJob = SetJob(chunk: nat, src: Store, tenant: TenantId, transfer: TransferId, maxBytes: nat) {
    predicate Valid() {
      0 < chunk <= MAX_CHUNK && maxBytes <= U64_MAX
    }

    function For(spec: ObjectSpec): Job {
      Job(chunk, src, StageKey(tenant, transfer, spec.id), spec.size)
    }
  }

  predicate Sized(objects: seq<ObjectSpec>) {
    forall o <- objects :: o.size <= U64_MAX
  }

  /** One turn of the set loop; `total` is the loop's own counter. */
  function SetTurn(j: SetJob, spec: ObjectSpec, sched: Schedule, total: nat, run: SetRun): SetRun
    requires j.Valid() && spec.size <= U64_MAX
  {
    var job := j.For(spec);
    var resumed := run.store.ResumeOffset(job.key);
    if resumed > job.size then run.(error := Some(BeyondSize))
    else if total > j.maxBytes then run.(error := Some(LimitAlreadyExceeded))
    else if job.size - resumed > j.maxBytes - total then run.(error := Some(WouldExceedLimit))
    else
      var a := CopyAttempt(job, run.store, sched);
      var run' := run.(store := a.store, written := run.written + a.written);
      if a.result.Failed? then run'.(error := Some(ObjectFailed(a.result.error)))
      else if total + a.result.outcome.transferred > U64_MAX then run'.(error := Some(CountOverflow))
      else if total + a.result.outcome.transferred > j.maxBytes then run'.(error := Some(ExceededAfterCopy))
      else run'.(results := run'.results + [a.result.outcome])
  }

  function TotalTransferred(results: seq<Outcome>): nat {
    if results == [] then 0 else TotalTransferred(results[..|results| - 1]) + results[|results| - 1].transferred
  }

  /** The loop over the first `n` objects; `scheds[i]` is the environment of object `i`. */
  function CopySet(j: SetJob, s: Store, objects: seq<ObjectSpec>, scheds: seq<Schedule>, n: nat): SetRun
    requires j.Valid() && Sized(objects) && |scheds| == |objects| && n <= |objects|
  {
    if n == 0 then SetRun(s, [], None, 0) else
    var run := CopySet(j, s, objects, scheds, n - 1);
    if run.error.Some? then run
    else SetTurn(j, objects[n - 1], scheds[n - 1], TotalTransferred(run.results), run)
  }

  lemma {:induction false} ChunksWriteAtMostRemaining(j: Job, s: Store, offset: nat, fates: seq<Fate>, written: nat)
    requires j.Valid() && offset <= j.size
    ensures var end := CopyChunks(j, s, offset, fates, written);
            && written <= end.written <= written + (j.size - offset)
            && (end.error.None? ==> end.written == written + (j.size - offset))
            && end.store.published == s.published
    decreases j.size - offset
  {
    hide ChunkTurn;
    if offset < j.size {
      var t := ChunkTurn(j, s, offset, FateOf(fates));
      if t.error.None? {
        ChunksWriteAtMostRemaining(j, t.store, offset + t.written, Rest(fates), written + t.written);
      }
    }
  }

  /** Whatever the source, the sink and the environment do, one attempt writes no more than what
      was missing, never unpublishes, and on success accounts for every byte of the object. */
  lemma AttemptAccounting(j: Job, s: Store, sched: Schedule)
    requires j.Valid()
    ensures var a := CopyAttempt(j, s, sched);
            && (s.ResumeOffset(j.key) <= j.size ==> a.written <= j.size - s.ResumeOffset(j.key))
            && (forall k <- s.published :: k in a.store.published && a.store.published[k] == s.published[k])
            && (a.result.Copied? ==>
                  && a.result.outcome.resumedFrom + a.result.outcome.transferred == j.size
                  && a.result.outcome.transferred == a.written
                  && a.result.outcome.id == j.key.id
                  && j.key.Object() in a.store.published
                  && Hash(a.store.published[j.key.Object()]) == j.key.id
                  && |a.store.published[j.key.Object()]| == j.size)
  {
    hide CopyChunks;
    var offset := s.ResumeOffset(j.key);
    if sched.authorized && offset <= j.size {
      ChunksWriteAtMostRemaining(j, s, offset, sched.chunks, 0);
      var end := CopyChunks(j, s, offset, sched.chunks, 0);
      PublishesExactlyVerifiedBytes(end.store, j.key, j.Spec());
    }
  }

  /** The first `n` objects are all published under their identity, each accounted for. */
  ghost predicate SetOk(j: SetJob, objects: seq<ObjectSpec>, n: nat, run: SetRun)
    requires n <= |objects|
  {
    && |run.results| == n
    && forall i :: 0 <= i < n ==>
      var key := ObjectKey(j.tenant, objects[i].id);
      && run.results[i].id == objects[i].id
      && run.results[i].resumedFrom + run.results[i].transferred == objects[i].size
      && key in run.store.published
      && Hash(run.store.published[key]) == objects[i].id
      && |run.store.published[key]| == objects[i].size
  }

  lemma TurnKeepsAccounting(j: SetJob, objects: seq<ObjectSpec>, n: nat, sched: Schedule, run: SetRun)
    requires j.Valid() && Sized(objects) && n < |objects|
    requires run.error.None? && SetOk(j, objects, n, run) && run.written == TotalTransferred(run.results) <= j.maxBytes
    ensures var r := SetTurn(j, objects[n], sched, TotalTransferred(run.results), run);
            && r.written <= j.maxBytes
            && (r.error.Some? ==> r.error.value !in {LimitAlreadyExceeded, CountOverflow, ExceededAfterCopy})
            && (r.error.None? ==> SetOk(j, objects, n + 1, r) && r.written == TotalTransferred(r.results))
  {
    hide CopyAttempt;
    AttemptAccounting(j.For(objects[n]), run.store, sched);
    var r := SetTurn(j, objects[n], sched, TotalTransferred(run.results), run);
    if r.error.None? {
      assert r.results[..n] == run.results;
      assert ObjectKey(j.tenant, objects[n].id) in r.store.published;
    }
  }

  lemma {:induction false} SetAccounting(j: SetJob, s: Store, objects: seq<ObjectSpec>, scheds: seq<Schedule>, n: nat)
    requires j.Valid() && Sized(objects) && |scheds| == |objects| && n <= |objects|
    ensures var r := CopySet(j, s, objects, scheds, n);
            && r.written <= j.maxBytes
            && (r.error.Some? ==> r.error.value !in {LimitAlreadyExceeded, CountOverflow, ExceededAfterCopy})
            && (r.error.None? ==> SetOk(j, objects, n, r) && r.written == TotalTransferred(r.results))
  {
    hide SetTurn;
    if n > 0 {
      SetAccounting(j, s, objects, scheds, n - 1);
      var run := CopySet(j, s, objects, scheds, n - 1);
      if run.error.None? {
        TurnKeepsAccounting(j, objects, n - 1, scheds[n - 1], run);
      }
    }
  }

  function CopyObjectSet(j: SetJob, s: Store, objects: seq<ObjectSpec>, scheds: seq<Schedule>): SetRun
    requires j.Valid() && Sized(objects) && |scheds| == |objects|
  {
    CopySet(j, s, objects, scheds, |objects|)
  }

  /** On every exit, success or error, the bytes made durable stay within the ticket limit; the
      three late limit checks can never fire; on success each object is published under its
      identity and accounted for to the byte. */
  lemma SetStaysWithinTicket(j: SetJob, s: Store, objects: seq<ObjectSpec>, scheds: seq<Schedule>)
    requires j.Valid() && Sized(objects) && |scheds| == |objects|
    ensures var r := CopyObjectSet(j, s, objects, scheds);
            && r.written <= j.maxBytes
            && (r.error.Some? ==> r.error.value !in {LimitAlreadyExceeded, CountOverflow, ExceededAfterCopy})
            && (r.error.None? ==> SetOk(j, objects, |objects|, r))
  {
    SetAccounting(j, s, objects, scheds, |objects|);
  }

  // ---- The loops as the executor runs them ----

  method CopyChunk(j: Job, sink: VolumeCas, offset: nat, fate: Fate) returns (error: Option<CopyError>, written: nat)
    requires j.Valid() && offset < j.size
    modifies sink
    ensures Turn(sink.View(), error, written) == ChunkTurn(j, old(sink.View()), offset, fate)
  {
    hide Append;
    var length := Min(j.size - offset, j.chunk);
    var read := ReadRange(j.src, j.key.tenant, j.Spec(), offset, length);
    if read.ReadFailed? || fate.SourceFails? {
      return Some(SourceError), 0;
    }
    if fate.Torn? {
      var n := Min(fate.kept, |read.bytes|);
      var staged := sink.StagedSize(j.key);
      if ValidChunk(j.Spec(), offset, read.bytes) && offset == (if staged.Some? then staged.value else 0) {
        sink.AppendChunk(j.key, read.bytes[..n]);
      }
      return Some(Stopped), n;
    }
    var ack := sink.WriteChunk(j.key, j.Spec(), offset, read.bytes);
    if !ack.Accepted? {
      return Some(SinkError), 0;
    }
    if ack.accepted != length || ack.stagedSize != offset + length {
      return Some(UnexpectedAck), 0;
    }
    return if fate.StopsAfterWrite? then Some(Stopped) else None, length;
  }

  method CommitObject(j: Job, sink: VolumeCas, fate: PublishFate) returns (published: Option<PublishResult>)
    modifies sink
    ensures Commit(j, old(sink.View()), fate) == (sink.View(), published)
  {
    match fate {
      case Completes =>
        var r := sink.Publish(j.key, j.Spec());
        return Some(r);
      case StopsBefore =>
      case EmptyFileOnly =>
        if j.key.Object() !in sink.published && j.size == 0 && j.key !in sink.staged {
          sink.AppendChunk(j.key, []);
        }
      case LinkedOnly =>
        var (s', r) := VerifyAndPublish(Store(sink.published, sink.staged), j.key, j.Spec());
        if r == Created {
          sink.published := s'.published;
        }
    }
    published := None;
  }

  method CopyObject(j: Job, sink: VolumeCas, sched: Schedule) returns (result: CopyResult, written: nat)
    requires j.Valid()
    modifies sink
    ensures CopyAttempt(j, old(sink.View()), sched) == Attempt(sink.View(), result, written)
  {
    hide ChunkTurn, Commit;
    if !sched.authorized {
      return Failed(NotAuthorized), 0;
    }
    var size := sink.StagedSize(j.key);
    var offset := if size.Some? then size.value else 0;
    if offset > j.size {
      return Failed(OffsetBeyondSize), 0;
    }
    var resumedFrom, fates := offset, sched.chunks;
    written := 0;
    ghost var end := CopyChunks(j, sink.View(), offset, fates, 0);
    while offset < j.size
      invariant offset <= j.size
      invariant end == CopyChunks(j, sink.View(), offset, fates, written)
    {
      var error, n := CopyChunk(j, sink, offset, FateOf(fates));
      written := written + n;
      if error.Some? {
        return Failed(error.value), written;
      }
      offset, fates := offset + n, Rest(fates);
    }
    var published := CommitObject(j, sink, sched.publish);
    if published.None? {
      return Failed(Stopped), written;
    }
    if published.value.Created? || published.value.AlreadyPresent? {
      return Copied(Outcome(j.key.id, written, resumedFrom, published.value)), written;
    }
    result := Failed(PublishError);
  }

  method CopyNext(j: SetJob, sink: VolumeCas, spec: ObjectSpec, sched: Schedule, total: nat, ghost run: SetRun)
    returns (outcome: Option<Outcome>, error: Option<SetError>, written: nat)
    requires j.Valid() && spec.size <= U64_MAX && run.store == sink.View() && run.error.None?
    modifies sink
    ensures SetTurn(j, spec, sched, total, run) ==
            SetRun(sink.View(), if outcome.Some? then run.results + [outcome.value] else run.results,
                   error, run.written + written)
    ensures outcome.Some? <==> error.None?
  {
    hide CopyAttempt;
    outcome, error, written := None, None, 0;
    var job := j.For(spec);
    var size := sink.StagedSize(job.key);
    var resumed := if size.Some? then size.value else 0;
    if resumed > job.size {
      error := Some(BeyondSize);
    } else if total > j.maxBytes {
      error := Some(LimitAlreadyExceeded);
    } else if job.size - resumed > j.maxBytes - total {
      error := Some(WouldExceedLimit);
    } else {
      var result;
      result, written := CopyObject(job, sink, sched);
      if result.Failed? {
        error := Some(ObjectFailed(result.error));
      } else if total + result.outcome.transferred > U64_MAX {
        error := Some(CountOverflow);
      } else if total + result.outcome.transferred > j.maxBytes {
        error := Some(ExceededAfterCopy);
      } else {
        outcome := Some(result.outcome);
      }
    }
  }

  method CopyObjects(j: SetJob, sink: VolumeCas, objects: seq<ObjectSpec>, scheds: seq<Schedule>)
    returns (results: seq<Outcome>, error: Option<SetError>, written: nat)
    requires j.Valid() && Sized(objects) && |scheds| == |objects|
    modifies sink
    ensures CopyObjectSet(j, old(sink.View()), objects, scheds) == SetRun(sink.View(), results, error, written)
  {
    hide SetTurn;
    results, error, written := [], None, 0;
    var total: nat := 0;
    ghost var s := sink.View();
    for i := 0 to |objects|
      invariant error.None? && total == TotalTransferred(results)
      invariant CopySet(j, s, objects, scheds, i) == SetRun(sink.View(), results, None, written)
    {
      var outcome, e, n := CopyNext(j, sink, objects[i], scheds[i], total, SetRun(sink.View(), results, None, written));
      written := written + n;
      if e.Some? {
        error := e;
        ErrorEndsSet(j, s, objects, scheds, i + 1, |objects|);
        return;
      }
      total := total + outcome.value.transferred;
      ghost var before := results;
      results := results + [outcome.value];
      assert results[..|results| - 1] == before;
    }
  }

  lemma {:induction false} ErrorEndsSet(j: SetJob, s: Store, objects: seq<ObjectSpec>, scheds: seq<Schedule>, n: nat,
                                        m: nat)
    requires j.Valid() && Sized(objects) && |scheds| == |objects| && n <= m <= |objects|
    requires CopySet(j, s, objects, scheds, n).error.Some?
    ensures CopySet(j, s, objects, scheds, m) == CopySet(j, s, objects, scheds, n)
  {
    hide SetTurn;
    if n < m {
      ErrorEndsSet(j, s, objects, scheds, n, m - 1);
    }
  }
}
