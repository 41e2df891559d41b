/** The tenant-scoped CAS of one mounted Volume: published objects, per-transfer staging files,
    and the operations that move bytes between them. */
module Cas {
  import opened Base

  datatype ObjectKey = ObjectKey(tenant: TenantId, id: ObjectId)

  /** `staging/<tenant>/<transfer>/<object>.partial` */
  datatype StageKey = StageKey(tenant: TenantId, transfer: TransferId, id: ObjectId) {
    function Object(): ObjectKey {
      ObjectKey(tenant, id)
    }
  }

  /** What survives a crash. */
  datatype Store = Store(published: map<ObjectKey, Bytes>, staged: map<StageKey, Bytes>) {

    /** The durable resume offset a sink reports: the staged length, or zero without a file. */
    function ResumeOffset(key: StageKey): nat {
      if key in staged then |staged[key]| else 0
    }

    /** Every published object hashes to the identity that names it. */
    ghost predicate Authentic() {
      forall k <- published :: Hash(published[k]) == k.id
    }
  }

  datatype StageResult =
    | Accepted(accepted: nat, stagedSize: nat, complete: bool)
    | InvalidChunk
    | WrongOffset

  datatype PublishResult = Created | AlreadyPresent | Missing | Corrupt

  datatype ReadResult = Read(bytes: Bytes) | ReadFailed

  predicate ValidRange(offset: nat, length: nat) {
    0 < length <= MAX_CHUNK && offset + length <= U64_MAX
  }

  function ReadRange(s: Store, tenant: TenantId, spec: ObjectSpec, offset: nat, length: nat): ReadResult {
    var key := ObjectKey(tenant, spec.id);
    if !ValidRange(offset, length) || offset + length > spec.size then ReadFailed
    else if key !in s.published || |s.published[key]| != spec.size then ReadFailed
    else Read(s.published[key][offset..offset + length])
  }

  predicate ValidChunk(spec: ObjectSpec, offset: nat, bytes: Bytes) {
    0 < |bytes| <= MAX_CHUNK && offset + |bytes| <= U64_MAX && offset + |bytes| <= spec.size
  }

  /** Appends `bytes` to a staging file, creating the file when it does not exist. */
  function Append(s: Store, key: StageKey, bytes: Bytes): Store {
    s.(staged := s.staged[key := (if key in s.staged then s.staged[key] else []) + bytes])
  }

  function StageWrite(s: Store, key: StageKey, spec: ObjectSpec, offset: nat, bytes: Bytes): (Store, StageResult) {
    if !ValidChunk(spec, offset, bytes) then (s, InvalidChunk)
    else if offset != s.ResumeOffset(key) then
      // An out-of-order first write still leaves an empty staging file behind.
      (if key in s.staged then s else Append(s, key, []), WrongOffset)
    else
      var size := offset + |bytes|;
      (Append(s, key, bytes), Accepted(|bytes|, size, size == spec.size))
  }

  function Discard(s: Store, key: StageKey): Store {
    s.(staged := s.staged - {key})
  }

  function VerifyAndPublish(s: Store, key: StageKey, spec: ObjectSpec): (Store, PublishResult) {
    var obj := key.Object();
    if obj in s.published then
      if |s.published[obj]| == spec.size && Hash(s.published[obj]) == spec.id
      then (Discard(s, key), AlreadyPresent)
      else (s, Corrupt)
    else
      var s1 := if spec.size == 0 && key !in s.staged then Append(s, key, []) else s;
      if key !in s1.staged then (s1, Missing)
      else if |s1.staged[key]| != spec.size || Hash(s1.staged[key]) != spec.id then (s1, Corrupt)
      else (Store(s1.published[obj := s1.staged[key]], s1.staged - {key}), Created)
  }

  /** Everything that can happen to a Volume, as one atomic durable change each. The last four are
      interrupted calls: a torn append keeps the first `kept` bytes, a publication may stop after
      the empty staging file was made or after the object was linked but before its staging file
      was removed. */
  datatype Op =
    | StageOp(key: StageKey, spec: ObjectSpec, offset: nat, bytes: Bytes)
    | PublishOp(key: StageKey, spec: ObjectSpec)
    | DiscardOp(key: StageKey)
    | DeleteOp(obj: ObjectKey)
    | TornStageOp(key: StageKey, spec: ObjectSpec, offset: nat, bytes: Bytes, kept: nat)
    | EmptyFileOp(key: StageKey, spec: ObjectSpec)
    | LinkedOnlyOp(key: StageKey, spec: ObjectSpec)
  {
    predicate Valid() {
      match this
      case StageOp(k, spec, _, _) => k.id == spec.id
      case PublishOp(k, spec) => k.id == spec.id
      case TornStageOp(k, spec, _, bytes, kept) => k.id == spec.id && kept <= |bytes|
      case EmptyFileOp(k, spec) => k.id == spec.id
      case LinkedOnlyOp(k, spec) => k.id == spec.id
      case _ => true
    }

    /** Whether the operation is performed on behalf of `(tenant, transfer)`. */
    predicate By(tenant: TenantId, transfer: TransferId) {
      !DeleteOp? && key.tenant == tenant && key.transfer == transfer
    }
  }

  function TornStage(s: Store, key: StageKey, spec: ObjectSpec, offset: nat, bytes: Bytes, kept: nat): Store
    requires kept <= |bytes|
  {
    if ValidChunk(spec, offset, bytes) && offset == s.ResumeOffset(key) then Append(s, key, bytes[..kept]) else s
  }

  function Apply(s: Store, op: Op): Store
    requires op.Valid()
  {
    match op
    case StageOp(key, spec, offset, bytes) => StageWrite(s, key, spec, offset, bytes).0
    case PublishOp(key, spec) => VerifyAndPublish(s, key, spec).0
    case DiscardOp(key) => Discard(s, key)
    case DeleteOp(obj) => s.(published := s.published - {obj})
    case TornStageOp(key, spec, offset, bytes, kept) => TornStage(s, key, spec, offset, bytes, kept)
    case EmptyFileOp(key, spec) =>
      if key.Object() !in s.published && spec.size == 0 && key !in s.staged then Append(s, key, []) else s
    case LinkedOnlyOp(key, spec) =>
      var (s1, r) := VerifyAndPublish(s, key, spec);
      if r == Created then s.(published := s1.published) else s
  }

  /** Any interleaving of any number of transfers. */
  function Run(s: Store, ops: seq<Op>): Store
    requires forall op <- ops :: op.Valid()
  {
    if ops == [] then s else Apply(Run(s, ops[..|ops| - 1]), ops[|ops| - 1])
  }

  /** Over every interleaving, published objects stay authentic. */
  lemma {:induction false} PublishedStaysAuthentic(s: Store, ops: seq<Op>)
    requires s.Authentic()
    requires forall op <- ops :: op.Valid()
    ensures Run(s, ops).Authentic()
  {
    if ops != [] {
      var last := ops[|ops| - 1];
      PublishedStaysAuthentic(s, ops[..|ops| - 1]);
      assert last in ops && last.Valid();
    }
  }

  /** Publication never replaces: an object nobody deletes keeps its bytes over every interleaving. */
  lemma {:induction false} PublicationNeverReplaces(s: Store, ops: seq<Op>, obj: ObjectKey)
    requires forall op <- ops :: op.Valid()
    requires obj in s.published && DeleteOp(obj) !in ops
    ensures obj in Run(s, ops).published && Run(s, ops).published[obj] == s.published[obj]
  {
    if ops != [] {
      var last := ops[|ops| - 1];
      PublicationNeverReplaces(s, ops[..|ops| - 1], obj);
      assert last in ops;
    }
  }

  /** However other transfers are interleaved, even over the same objects, a transfer's own
      staging files are exactly as it left them. */
  lemma {:induction false} OtherTransfersNeverTouchStaging(s: Store, ops: seq<Op>, key: StageKey)
    requires forall op <- ops :: op.Valid() && !op.By(key.tenant, key.transfer)
    ensures key in Run(s, ops).staged <==> key in s.staged
    ensures key in s.staged ==> Run(s, ops).staged[key] == s.staged[key]
  {
    if ops != [] {
      var last := ops[|ops| - 1];
      assert last in ops;
      OtherTransfersNeverTouchStaging(s, ops[..|ops| - 1], key);
    }
  }

  /** A refused write publishes nothing and moves no resume offset of any transfer. What it can leave
      behind is an empty staging file, exactly when the chunk itself was valid, came at the wrong
      offset, and there was no staging file yet. */
  lemma RefusedWriteKeepsOffsets(s: Store, key: StageKey, spec: ObjectSpec, offset: nat, bytes: Bytes, other: StageKey)
    requires !StageWrite(s, key, spec, offset, bytes).1.Accepted?
    ensures var s' := StageWrite(s, key, spec, offset, bytes).0;
            && s'.published == s.published
            && s'.ResumeOffset(other) == s.ResumeOffset(other)
            && (other in s.staged ==> other in s'.staged && s'.staged[other] == s.staged[other])
            && (s' != s <==> ValidChunk(spec, offset, bytes) && key !in s.staged && offset > 0)
            && (s' != s ==> s' == Append(s, key, []))
  {
    if ValidChunk(spec, offset, bytes) && key !in s.staged {
      assert key in Append(s, key, []).staged;
    }
  }

  /** For instance, the second byte of a two-byte object offered to an empty Volume is refused, and
      afterwards the Volume holds an empty staging file. */
  lemma RefusedWriteCanLeaveAFile()
    ensures exists key: StageKey, spec: ObjectSpec, bytes: Bytes ::
              var (s', r) := StageWrite(Store(map[], map[]), key, spec, 1, bytes);
              !r.Accepted? && s'.staged == map[key := []]
  {
    var key, spec, bytes: Bytes := StageKey("tenant", "transfer", 7), ObjectSpec(7, 2), [1];
    var (s', r) := StageWrite(Store(map[], map[]), key, spec, 1, bytes);
    assert !r.Accepted? && s'.staged == map[key := []];
  }

  /** Publication succeeds exactly when authentic bytes of the right size are at hand, either
      published already or staged by this transfer; afterwards they are published and this
      transfer's staging file is gone. */
  lemma PublishesExactlyVerifiedBytes(s: Store, key: StageKey, spec: ObjectSpec)
    requires key.id == spec.id
    ensures var obj := key.Object();
            var staged := if key in s.staged then s.staged[key] else [];
            var candidate := if obj in s.published then s.published[obj] else staged;
            var present := obj in s.published || key in s.staged || spec.size == 0;
            var (s', r) := VerifyAndPublish(s, key, spec);
            && ((r.Created? || r.AlreadyPresent?) <==>
                 (present && |candidate| == spec.size && Hash(candidate) == spec.id))
            && (r.AlreadyPresent? ==> obj in s.published)
            && (r.Created? ==> obj !in s.published)
            && (r.Created? || r.AlreadyPresent? ==> s' == Store(s.published[obj := candidate], s.staged - {key}))
            && (!(r.Created? || r.AlreadyPresent?) ==>
                 s'.published == s.published && s'.ResumeOffset(key) == s.ResumeOffset(key))
  {
  }

  /** The mounted Volume itself: its directories are updated in place. */
  class VolumeCas {
    var published: map<ObjectKey, Bytes>
    var staged: map<StageKey, Bytes>

    ghost function View(): Store
      reads this
    {
      Store(published, staged)
    }

    constructor ()
      ensures View() == Store(map[], map[])
    {
      published, staged := map[], map[];
    }

    method StagedSize(key: StageKey) returns (size: Option<nat>)
      ensures size.Some? <==> key in staged
      ensures View().ResumeOffset(key) == if size.Some? then size.value else 0
    {
      size := if key in staged then Some(|staged[key]|) else None;
    }

    method AppendChunk(key: StageKey, bytes: Bytes)
      modifies this
      ensures View() == Append(old(View()), key, bytes)
    {
      var current := if key in staged then staged[key] else [];
      staged := staged[key := current + bytes];
    }

    method WriteChunk(key: StageKey, spec: ObjectSpec, offset: nat, bytes: Bytes) returns (r: StageResult)
      modifies this
      ensures (View(), r) == StageWrite(old(View()), key, spec, offset, bytes)
    {
      if |bytes| == 0 || |bytes| > MAX_CHUNK {
        return InvalidChunk;
      }
      var stagedSize := offset + |bytes|;
      if stagedSize > U64_MAX || stagedSize > spec.size {
        return InvalidChunk;
      }
      var current := if key in staged then |staged[key]| else 0;
      if offset != current {
        if current == 0 && key !in staged {
          AppendChunk(key, []);
        }
        return WrongOffset;
      }
      AppendChunk(key, bytes);
      r := Accepted(|bytes|, stagedSize, stagedSize == spec.size);
    }

    method DiscardStaged(key: StageKey) returns (removed: bool)
      modifies this
      ensures View() == Discard(old(View()), key)
      ensures removed <==> key in old(staged)
    {
      if key !in staged {
        assert staged - {key} == staged;
        return false;
      }
      staged := staged - {key};
      removed := true;
    }

    method Publish(key: StageKey, spec: ObjectSpec) returns (r: PublishResult)
      modifies this
      ensures (View(), r) == VerifyAndPublish(old(View()), key, spec)
    {
      var obj := key.Object();
      if obj in published {
        if |published[obj]| != spec.size || Hash(published[obj]) != spec.id {
          return Corrupt;
        }
        var _ := DiscardStaged(key);
        return AlreadyPresent;
      }
      if spec.size == 0 && key !in staged {
        AppendChunk(key, []);
      }
      if key !in staged {
        return Missing;
      }
      if |staged[key]| != spec.size || Hash(staged[key]) != spec.id {
        return Corrupt;
      }
      published := published[obj := staged[key]];
      var _ := DiscardStaged(key);
      r := Created;
    }
  }
}
