/** The frames of the v2 materialization stream and the source side of it, in the two forms the
    Agent implements. */
module Source {
  import opened Base
  import opened Cas

  datatype Frame =
    | Request(id: ObjectId, offset: nat, length: nat)
    | Chunk(id: ObjectId, offset: nat, bytes: Bytes)
    | Proof(id: ObjectId, digest: ObjectId, size: nat)
    | Ack(id: ObjectId, offset: nat, length: nat, accepted: bool)
    | Close(committed: bool)
    | Other

  /** A verified batch: the manifest's objects in page order, the signed byte limit, and the CAS
      the source serves from. */
  datatype Batch = Batch(objects: seq<ObjectSpec>, maxBytes: nat, tenant: TenantId, src: Store) {

    /** Manifest validation rejects duplicate object IDs. */
    ghost predicate Distinct() {
      forall i, j :: 0 <= i < j < |objects| ==> objects[i].id != objects[j].id
    }
  }

  function Find(objects: seq<ObjectSpec>, id: ObjectId): Option<ObjectSpec> {
    if objects == [] then None
    else if objects[0].id == id then Some(objects[0])
    else Find(objects[1..], id)
  }

  datatype Verdict = Waiting | Succeeded | Refused

  // ---- The loop that remembers one pending range ----

  datatype Pending = Idle | Unacked(id: ObjectId, offset: nat, length: nat) | UnackedEmpty(id: ObjectId)

  datatype State = State(completed: set<ObjectId>, next: map<ObjectId, nat>, served: nat, pending: Pending,
                         verdict: Verdict)

  const START := State({}, map[], 0, Idle, Waiting)

  function Reject(s: State): (State, seq<Frame>) {
    (s.(verdict := Refused), [])
  }

  function FinalProof(spec: ObjectSpec, end: nat): seq<Frame> {
    if end == spec.size then [Proof(spec.id, spec.id, spec.size)] else []
  }

  predicate ServableRange(spec: ObjectSpec, offset: nat, length: nat) {
    0 < length <= MAX_CHUNK && offset + length <= U64_MAX && offset + length <= spec.size
  }

  function OnRequest(b: Batch, s: State, id: ObjectId, offset: nat, length: nat): (State, seq<Frame>) {
    var found := Find(b.objects, id);
    if found.None? || id in s.completed then Reject(s) else
    var spec := found.value;
    if spec.size == 0 then
      if offset != 0 || length != 0 then Reject(s)
      else (s.(pending := UnackedEmpty(id)), [Proof(id, id, 0)])
    else if id in s.next && s.next[id] != offset then Reject(s)
    else if !ServableRange(spec, offset, length) then Reject(s)
    else if s.served + length > U64_MAX || s.served + length > b.maxBytes then Reject(s)
    else
      var read := ReadRange(b.src, b.tenant, spec, offset, length);
      if read.ReadFailed? || |read.bytes| != length then Reject(s)
      else (s.(pending := Unacked(id, offset, length), served := s.served + length),
            [Chunk(id, offset, read.bytes)] + FinalProof(spec, offset + length))
  }

  function OnAck(b: Batch, s: State, id: ObjectId, offset: nat, length: nat, accepted: bool): (State, seq<Frame>) {
    match s.pending
    case Idle =>
      if accepted && length == 0 && ObjectSpec(id, offset) in b.objects
      then (s.(completed := s.completed + {id}, next := s.next[id := offset]), [])
      else Reject(s)
    case Unacked(pid, poffset, plength) =>
      if !accepted || id != pid || offset != poffset || length != plength then Reject(s)
      else
        var done := ObjectSpec(id, offset + length) in b.objects;
        (s.(pending := Idle,
            completed := if done then s.completed + {id} else s.completed,
            next := s.next[id := offset + length]), [])
    case UnackedEmpty(pid) =>
      if !accepted || id != pid || offset != 0 || length != 0 then Reject(s)
      else (s.(pending := Idle, completed := s.completed + {id}), [])
  }

  function Step(b: Batch, s: State, f: Frame): (State, seq<Frame>) {
    match f
    case Ack(id, offset, length, accepted) => OnAck(b, s, id, offset, length, accepted)
    case Request(id, offset, length) => if s.pending.Idle? then OnRequest(b, s, id, offset, length) else Reject(s)
    case Close(committed) =>
      if !s.pending.Idle? || !committed || |s.completed| != |b.objects| then Reject(s)
      else (s.(verdict := Succeeded), [])
    case _ => Reject(s)
  }

  /** What the loop has become and has sent after reading `trace`; it reads nothing after it
      returned. */
  function Feed(b: Batch, s: State, trace: seq<Frame>): (State, seq<Frame>) {
    if trace == [] then (s, []) else
    var (s1, out) := Feed(b, s, trace[..|trace| - 1]);
    if s1.verdict != Waiting then (s1, out) else
    var (s2, sent) := Step(b, s1, trace[|trace| - 1]);
    (s2, out + sent)
  }

  datatype Served = Served(out: seq<Frame>, verdict: Verdict)

  function PendingRun(b: Batch, trace: seq<Frame>): Served {
    var (s, out) := Feed(b, START, trace);
    Served(out, s.verdict)
  }

  lemma {:induction false} FeedAppend(b: Batch, s: State, t: seq<Frame>, u: seq<Frame>)
    ensures var (s1, o1) := Feed(b, s, t);
            var (s2, o2) := Feed(b, s1, u);
            Feed(b, s, t + u) == (s2, o1 + o2)
  {
    hide Step;
    if u == [] {
      assert t + u == t;
      assert Feed(b, s, t).1 + [] == Feed(b, s, t).1;
    } else {
      var v := u[..|u| - 1];
      FeedAppend(b, s, t, v);
      assert (t + u)[..|t + u| - 1] == t + v;
      var (s1, o1) := Feed(b, s, t);
      var (s2, o2) := Feed(b, s1, v);
      var sent := Step(b, s2, u[|u| - 1]).1;
      assert o1 + (o2 + sent) == o1 + o2 + sent;
    }
  }

  lemma FeedHead(b: Batch, s: State, trace: seq<Frame>)
    requires trace != [] && s.verdict == Waiting
    ensures var (s1, o1) := Step(b, s, trace[0]);
            var (s2, o2) := Feed(b, s1, trace[1..]);
            Feed(b, s, trace) == (s2, o1 + o2)
  {
    hide Step;
    assert [trace[0]] + trace[1..] == trace;
    assert Feed(b, s, [trace[0]]) == Step(b, s, trace[0]) by {
      assert [trace[0]][..0] == [];
      assert [] + Step(b, s, trace[0]).1 == Step(b, s, trace[0]).1;
    }
    FeedAppend(b, s, [trace[0]], trace[1..]);
  }

  lemma {:induction false} FeedStopped(b: Batch, s: State, trace: seq<Frame>)
    requires s.verdict != Waiting
    ensures Feed(b, s, trace) == (s, [])
  {
    if trace != [] {
      FeedStopped(b, s, trace[..|trace| - 1]);
    }
  }

  // ---- The loop that requests and then awaits the acknowledgement ----

  /** `objects` here is the map keyed by object ID; a later duplicate would win. */
  function IndexFirst(objects: seq<ObjectSpec>, n: nat): map<ObjectId, ObjectSpec>
    requires n <= |objects|
  {
    if n == 0 then map[] else IndexFirst(objects, n - 1)[objects[n - 1].id := objects[n - 1]]
  }

  function Index(objects: seq<ObjectSpec>): map<ObjectId, ObjectSpec> {
    IndexFirst(objects, |objects|)
  }

  predicate ResumeMarker(objects: map<ObjectId, ObjectSpec>, f: Frame) {
    f.Ack? && f.accepted && f.length == 0 && f.id in objects && objects[f.id].size == f.offset
  }

  /** What a request entitles the peer to: nothing, or some frames and the one acknowledgement
      that must follow. */
  function Answer(b: Batch, completed: set<ObjectId>, next: map<ObjectId, nat>, served: nat,
                  f: Frame): Option<seq<Frame>>
    requires f.Request?
  {
    var objects := Index(b.objects);
    if f.id !in objects || f.id in completed then None
    else if objects[f.id].size == 0 then
      if f.offset != 0 || f.length != 0 then None else Some([Proof(f.id, f.id, 0)])
    else if f.id in next && next[f.id] != f.offset then None
    else if f.length == 0 || !ValidRange(f.offset, f.length) || f.offset + f.length > objects[f.id].size then None
    else if served + f.length > U64_MAX || served + f.length > b.maxBytes then None
    else
      var read := ReadRange(b.src, b.tenant, objects[f.id], f.offset, f.length);
      if read.ReadFailed? || |read.bytes| != f.length then None
      else Some([Chunk(f.id, f.offset, read.bytes)] + FinalProof(objects[f.id], f.offset + f.length))
  }

  function AwaitLoop(b: Batch, trace: seq<Frame>, completed: set<ObjectId>, next: map<ObjectId, nat>, served: nat,
                     out: seq<Frame>): Served
    decreases |trace|
  {
    var objects := Index(b.objects);
    if trace == [] then Served(out, Waiting)
    else if ResumeMarker(objects, trace[0]) then
      AwaitLoop(b, trace[1..], completed + {trace[0].id}, next, served, out)
    else match trace[0]
    case Request(id, offset, length) =>
      var answer := Answer(b, completed, next, served, trace[0]);
      if answer.None? then Served(out, Refused)
      else if |trace| == 1 then Served(out + answer.value, Waiting)
      else if trace[1] != Ack(id, offset, length, true) then Served(out + answer.value, Refused)
      else if objects[id].size == 0 then AwaitLoop(b, trace[2..], completed + {id}, next, served, out + answer.value)
      else
        var done := offset + length == objects[id].size;
        AwaitLoop(b, trace[2..], if done then completed + {id} else completed, next[id := offset + length],
                  served + length, out + answer.value)
    case Close(committed) =>
      Served(out, if !committed || |completed| != |objects| then Refused else Succeeded)
    case _ => Served(out, Refused)
  }

  function AwaitRun(b: Batch, trace: seq<Frame>): Served {
    AwaitLoop(b, trace, {}, map[], 0, [])
  }

  // ---- Both loops are one machine ----

  lemma {:induction false} FindIsMembership(objects: seq<ObjectSpec>, id: ObjectId)
    ensures Find(objects, id).None? <==> forall o <- objects :: o.id != id
    ensures Find(objects, id).Some? ==> Find(objects, id).value in objects && Find(objects, id).value.id == id
  {
    if objects != [] {
      FindIsMembership(objects[1..], id);
      assert forall o :: o in objects <==> o == objects[0] || o in objects[1..];
    }
  }

  lemma {:induction false} IndexHasOnlyMembers(b: Batch, n: nat, id: ObjectId)
    requires n <= |b.objects| && id in IndexFirst(b.objects, n)
    ensures exists i :: 0 <= i < n && b.objects[i].id == id
  {
    if b.objects[n - 1].id != id {
      IndexHasOnlyMembers(b, n - 1, id);
    }
  }

  lemma {:induction false} IndexHasMembers(b: Batch, n: nat)
    requires b.Distinct() && n <= |b.objects|
    ensures |IndexFirst(b.objects, n)| == n
    ensures forall i :: 0 <= i < n ==>
            b.objects[i].id in IndexFirst(b.objects, n) && IndexFirst(b.objects, n)[b.objects[i].id] == b.objects[i]
  {
    if n > 0 {
      IndexHasMembers(b, n - 1);
      if b.objects[n - 1].id in IndexFirst(b.objects, n - 1) {
        IndexHasOnlyMembers(b, n - 1, b.objects[n - 1].id);
      }
    }
  }

  /** The index and the linear search see the same manifest. */
  lemma LookupsAgree(b: Batch, id: ObjectId)
    requires b.Distinct()
    ensures var index := Index(b.objects);
            && |index| == |b.objects|
            && Find(b.objects, id) == (if id in index then Some(index[id]) else None)
            && (forall size: nat :: ObjectSpec(id, size) in b.objects <==> id in index && index[id].size == size)
            && (id in index ==> index[id].id == id)
  {
    IndexHasMembers(b, |b.objects|);
    if id in Index(b.objects) {
      IndexHasOnlyMembers(b, |b.objects|, id);
    }
    FindIsMembership(b.objects, id);
  }

  /** `s` and the await loop's variables describe the same situation between two requests. Contiguity
      is only compared for objects that may still be requested. */
  ghost predicate InStep(s: State, completed: set<ObjectId>, next: map<ObjectId, nat>, served: nat) {
    && s.verdict == Waiting && s.pending.Idle? && s.completed == completed && s.served == served
    && forall id :: id !in completed ==> ((id in s.next <==> id in next) && (id in next ==> s.next[id] == next[id]))
  }

  lemma AnswersAgree(b: Batch, s: State, f: Frame, completed: set<ObjectId>, next: map<ObjectId, nat>, served: nat)
    requires b.Distinct() && f.Request? && InStep(s, completed, next, served)
    ensures var (s', sent) := Step(b, s, f);
            var answer := Answer(b, completed, next, served, f);
            && (answer.None? ==> s'.verdict == Refused && sent == [])
            && (answer.Some? ==>
                  && sent == answer.value && f.id in Index(b.objects)
                  && s' == if Index(b.objects)[f.id].size == 0 then s.(pending := UnackedEmpty(f.id))
                           else s.(pending := Unacked(f.id, f.offset, f.length), served := served + f.length))
  {
    hide Index, ReadRange;
    LookupsAgree(b, f.id);
  }

  lemma AcksAgree(b: Batch, s: State, f: Frame, g: Frame, s1: State, completed: set<ObjectId>,
                  next: map<ObjectId, nat>, served: nat)
    requires b.Distinct() && f.Request? && InStep(s, completed, next, served)
    requires s1 == Step(b, s, f).0 && Answer(b, completed, next, served, f).Some?
    ensures var (s2, sent) := Step(b, s1, g);
            && sent == [] && f.id in Index(b.objects)
            && (g != Ack(f.id, f.offset, f.length, true) ==> s2.verdict == Refused)
            && (g == Ack(f.id, f.offset, f.length, true) ==>
                  var size := Index(b.objects)[f.id].size;
                  InStep(s2,
                         if size == 0 || f.offset + f.length == size then completed + {f.id} else completed,
                         if size == 0 then next else next[f.id := f.offset + f.length],
                         if size == 0 then served else served + f.length))
  {
    AnswersAgree(b, s, f, completed, next, served);
    LookupsAgree(b, f.id);
    assert Answer(b, completed, next, served, f).Some? ==> Index(b.objects)[f.id].size == 0 ==>
        f.offset == 0 && f.length == 0;
  }

  lemma {:induction false} LoopsAgree(b: Batch, s: State, trace: seq<Frame>, completed: set<ObjectId>,
                                      next: map<ObjectId, nat>, served: nat, out: seq<Frame>)
    requires b.Distinct() && InStep(s, completed, next, served)
    ensures var (s', sent) := Feed(b, s, trace);
            AwaitLoop(b, trace, completed, next, served, out) == Served(out + sent, s'.verdict)
    decreases |trace|
  {
    hide Index, OnRequest, Answer, Find, Feed;
    var objects := Index(b.objects);
    if trace == [] {
      FeedEmpty(b, s);
    } else {
      var f := trace[0];
      FeedHead(b, s, trace);
      var (s1, o1) := Step(b, s, f);
      LookupsAgree(b, if f.Ack? then f.id else 0);
      if ResumeMarker(objects, f) {
        LoopsAgree(b, s1, trace[1..], completed + {f.id}, next, served, out);
      } else if f.Request? {
        RequestAgrees(b, s, trace, completed, next, served, out);
      } else {
        FeedStopped(b, s1, trace[1..]);
      }
    }
  }

  lemma {:induction false} RequestAgrees(b: Batch, s: State, trace: seq<Frame>, completed: set<ObjectId>,
                                         next: map<ObjectId, nat>, served: nat, out: seq<Frame>)
    requires b.Distinct() && InStep(s, completed, next, served)
    requires trace != [] && trace[0].Request?
    ensures var (s', sent) := Feed(b, s, trace);
            AwaitLoop(b, trace, completed, next, served, out) == Served(out + sent, s'.verdict)
    decreases |trace|, 0
  {
    hide Index, OnRequest, Answer, Find, Feed, Step;
    var f := trace[0];
    var answer := Answer(b, completed, next, served, f);
    var (s1, o1) := Step(b, s, f);
    AnswersAgree(b, s, f, completed, next, served);
    FeedHead(b, s, trace);
    if answer.None? {
      FeedStopped(b, s1, trace[1..]);
      assert out + ([] + []) == out;
    } else if |trace| == 1 {
      assert trace[1..] == [];
      FeedEmpty(b, s1);
      assert o1 + [] == o1;
    } else {
      var (s2, o2) := Step(b, s1, trace[1]);
      AcksAgree(b, s, f, trace[1], s1, completed, next, served);
      FeedHead(b, s1, trace[1..]);
      assert trace[1..][1..] == trace[2..];
      var rest := Feed(b, s2, trace[2..]).1;
      assert out + (o1 + ([] + rest)) == out + o1 + rest;
      if trace[1] != Ack(f.id, f.offset, f.length, true) {
        FeedStopped(b, s2, trace[2..]);
      } else {
        var size := Index(b.objects)[f.id].size;
        LoopsAgree(b, s2, trace[2..],
                   if size == 0 || f.offset + f.length == size then completed + {f.id} else completed,
                   if size == 0 then next else next[f.id := f.offset + f.length],
                   if size == 0 then served else served + f.length, out + answer.value);
      }
    }
  }

  lemma FeedEmpty(b: Batch, s: State)
    ensures Feed(b, s, []) == (s, [])
  {
  }

  /** The two source loops are indistinguishable to a peer: on every trace of incoming frames they
      send the same frames and agree on whether they wait, succeed or refuse. Since this holds for
      every prefix of a trace too, they answer each frame alike. */
  lemma SourcesAgree(b: Batch, trace: seq<Frame>)
    requires b.Distinct()
    ensures AwaitRun(b, trace) == PendingRun(b, trace)
  {
    LoopsAgree(b, START, trace, {}, map[], 0, []);
    var sent := Feed(b, START, trace).1;
    assert [] + sent == sent;
  }
}
