/** The source loops as the Agent runs them, over the frames a peer happens to send. When the input
    runs out the loop is still waiting for its next frame. */
module SourceLoops {
  import opened Base
  import opened Cas
  import opened Source

  lemma FeedOne(b: Batch, trace: seq<Frame>, i: nat)
    requires i < |trace| && Feed(b, START, trace[..i]).0.verdict == Waiting
    ensures var (s, out) := Feed(b, START, trace[..i]);
            var (s', sent) := Step(b, s, trace[i]);
            Feed(b, START, trace[..i + 1]) == (s', out + sent)
  {
    hide Step;
    assert trace[..i + 1][..i] == trace[..i];
  }

  lemma FeedReturned(b: Batch, trace: seq<Frame>, i: nat)
    requires i <= |trace| && Feed(b, START, trace[..i]).0.verdict != Waiting
    ensures Feed(b, START, trace) == Feed(b, START, trace[..i])
  {
    assert trace == trace[..i] + trace[i..];
    FeedAppend(b, START, trace[..i], trace[i..]);
    FeedStopped(b, Feed(b, START, trace[..i]).0, trace[i..]);
    assert Feed(b, START, trace[..i]).1 + [] == Feed(b, START, trace[..i]).1;
  }

  /** Reads one range for the peer, as far as the request is valid. */
  method AnswerRequest(b: Batch, spec: ObjectSpec, offset: nat, length: nat, served: nat)
    returns (sent: Option<seq<Frame>>)
    ensures sent.Some? <==>
              && ServableRange(spec, offset, length) && served + length <= U64_MAX && served + length <= b.maxBytes
              && ReadRange(b.src, b.tenant, spec, offset, length).Read?
    ensures sent.Some? ==> |ReadRange(b.src, b.tenant, spec, offset, length).bytes| == length
    ensures sent.Some? ==>
              sent.value == [Chunk(spec.id, offset, ReadRange(b.src, b.tenant, spec, offset, length).bytes)]
                + FinalProof(spec, offset + length)
  {
    sent := None;
    if length == 0 || length > MAX_CHUNK || offset + length > U64_MAX || offset + length > spec.size {
      return;
    }
    if served + length > U64_MAX || served + length > b.maxBytes {
      return;
    }
    var read := ReadRange(b.src, b.tenant, spec, offset, length);
    if read.ReadFailed? || |read.bytes| != length {
      return;
    }
    var frames := [Chunk(spec.id, offset, read.bytes)];
    if offset + length == spec.size {
      frames := frames + [Proof(spec.id, spec.id, spec.size)];
    }
    sent := Some(frames);
  }

  /** The production listener's loop. */
  method ServePending(b: Batch, input: seq<Frame>) returns (out: seq<Frame>, verdict: Verdict)
    ensures Served(out, verdict) == PendingRun(b, input)
  {
    hide Feed, ReadRange, Find;
    out := [];
    var completed, next, served: nat, pending := {}, map[], 0, Idle;
    var i := 0;
    FeedEmpty(b, START);
    assert input[..0] == [];
    while i < |input|
      invariant i <= |input|
      invariant Feed(b, START, input[..i]) == (State(completed, next, served, pending, Waiting), out)
    {
      ghost var s := State(completed, next, served, pending, Waiting);
      var frame := input[i];
      FeedOne(b, input, i);
      i := i + 1;
      var sent, status := [], Waiting;
      match frame {
        case Ack(id, offset, length, accepted) =>
          match pending {
            case Idle =>
              if accepted && length == 0 && ObjectSpec(id, offset) in b.objects {
                completed := completed + {id};
                next := next[id := offset];
              } else {
                status := Refused;
              }
            case Unacked(pid, poffset, plength) =>
              if !accepted || id != pid || offset != poffset || length != plength {
                status := Refused;
              } else {
                pending := Idle;
                if ObjectSpec(pid, poffset + plength) in b.objects {
                  completed := completed + {pid};
                }
                next := next[pid := poffset + plength];
              }
            case UnackedEmpty(pid) =>
              if !accepted || id != pid || offset != 0 || length != 0 {
                status := Refused;
              } else {
                pending := Idle;
                completed := completed + {pid};
              }
          }
        case Request(id, offset, length) =>
          var found := Find(b.objects, id);
          if !pending.Idle? || found.None? || id in completed {
            status := Refused;
          } else if found.value.size == 0 {
            if offset != 0 || length != 0 {
              status := Refused;
            } else {
              sent := [Proof(id, id, 0)];
              pending := UnackedEmpty(id);
            }
          } else if id in next && next[id] != offset {
            status := Refused;
          } else {
            FindIsMembership(b.objects, id);
            var answer := AnswerRequest(b, found.value, offset, length, served);
            if answer.None? {
              status := Refused;
            } else {
              sent := answer.value;
              pending := Unacked(id, offset, length);
              served := served + length;
            }
          }
        case Close(committed) =>
          status := if !pending.Idle? || !committed || |completed| != |b.objects| then Refused else Succeeded;
        case _ =>
          status := Refused;
      }
      assert Step(b, s, frame) == (State(completed, next, served, pending, status), sent);
      out := out + sent;
      if status != Waiting {
        FeedReturned(b, input, i);
        return out, status;
      }
    }
    assert input[..i] == input;
    verdict := Waiting;
  }

  method BuildIndex(objects: seq<ObjectSpec>) returns (index: map<ObjectId, ObjectSpec>)
    ensures index == Index(objects)
  {
    index := map[];
    for i := 0 to |objects|
      invariant index == IndexFirst(objects, i)
    {
      index := index[objects[i].id := objects[i]];
    }
  }

  method AnswerIndexed(b: Batch, objects: map<ObjectId, ObjectSpec>, completed: set<ObjectId>,
                       next: map<ObjectId, nat>, served: nat, f: Frame)
    returns (answer: Option<seq<Frame>>)
    requires f.Request? && objects == Index(b.objects)
    ensures answer == Answer(b, completed, next, served, f)
  {
    hide Index;
    if f.id !in objects || f.id in completed {
      return None;
    }
    if objects[f.id].size == 0 {
      return if f.offset != 0 || f.length != 0 then None else Some([Proof(f.id, f.id, 0)]);
    }
    if f.id in next && next[f.id] != f.offset {
      return None;
    }
    IndexedByOwnId(b.objects, f.id);
    answer := AnswerRequest(b, objects[f.id], f.offset, f.length, served);
  }

  /** The session's loop: every served request is followed by a read of its acknowledgement. */
  method ServeAwait(b: Batch, input: seq<Frame>) returns (out: seq<Frame>, verdict: Verdict)
    ensures Served(out, verdict) == AwaitRun(b, input)
  {
    hide Index, Answer;
    var objects := BuildIndex(b.objects);
    out := [];
    var completed, served: nat := {}, 0;
    var next: map<ObjectId, nat> := map[];
    var i := 0;
    assert input[0..] == input;
    while i < |input|
      invariant i <= |input|
      invariant AwaitRun(b, input) == AwaitLoop(b, input[i..], completed, next, served, out)
    {
      var frame := input[i];
      assert input[i..][0] == frame && input[i..][1..] == input[i + 1..];
      i := i + 1;
      if ResumeMarker(objects, frame) {
        completed := completed + {frame.id};
      } else if frame.Request? {
        var answer := AnswerIndexed(b, objects, completed, next, served, frame);
        if answer.None? {
          return out, Refused;
        }
        out := out + answer.value;
        if i == |input| {
          return out, Waiting;
        }
        var ack := input[i];
        assert input[i - 1..][1] == ack && input[i - 1..][2..] == input[i + 1..];
        i := i + 1;
        if ack != Ack(frame.id, frame.offset, frame.length, true) {
          return out, Refused;
        }
        AnsweredIsIndexed(b, completed, next, served, frame);
        if objects[frame.id].size == 0 {
          completed := completed + {frame.id};
        } else {
          var end := frame.offset + frame.length;
          next := next[frame.id := end];
          if end == objects[frame.id].size {
            completed := completed + {frame.id};
          }
          served := served + frame.length;
        }
      } else if frame.Close? {
        return out, if !frame.committed || |completed| != |objects| then Refused else Succeeded;
      } else {
        return out, Refused;
      }
    }
    verdict := Waiting;
  }

  lemma AnsweredIsIndexed(b: Batch, completed: set<ObjectId>, next: map<ObjectId, nat>, served: nat, f: Frame)
    requires f.Request? && Answer(b, completed, next, served, f).Some?
    ensures f.id in Index(b.objects)
  {
  }

  lemma {:induction false} IndexNames(objects: seq<ObjectSpec>, n: nat, id: ObjectId)
    requires n <= |objects| && id in IndexFirst(objects, n)
    ensures IndexFirst(objects, n)[id].id == id
  {
    if objects[n - 1].id != id {
      IndexNames(objects, n - 1, id);
    }
  }

  lemma IndexedByOwnId(objects: seq<ObjectSpec>, id: ObjectId)
    requires id in Index(objects)
    ensures Index(objects)[id].id == id
  {
    IndexNames(objects, |objects|, id);
  }

  /** Hashes a source object in transfer-sized pieces before it may be served: accepted exactly when
      the CAS holds the object at its declared size and its bytes hash to its identity. */
  method VerifyLocalSource(src: Store, tenant: TenantId, spec: ObjectSpec) returns (ok: bool)
    requires spec.size <= U64_MAX
    ensures ok <==>
              var key := ObjectKey(tenant, spec.id);
              key in src.published && |src.published[key]| == spec.size && Hash(src.published[key]) == spec.id
  {
    var key := ObjectKey(tenant, spec.id);
    if key !in src.published || |src.published[key]| != spec.size {
      return false;
    }
    var data := src.published[key];
    var hashed: Bytes, offset, copied: nat := [], 0, 0;
    while offset < spec.size
      invariant offset == copied <= spec.size
      invariant hashed == data[..offset]
    {
      var length := Min(spec.size - offset, MAX_CHUNK);
      var read := ReadRange(src, tenant, spec, offset, length);
      if read.ReadFailed? || |read.bytes| != length {
        assert false;
        return false;
      }
      hashed := hashed + read.bytes;
      offset := offset + length;
      copied := copied + |read.bytes|;
    }
    assert hashed == data;
    ok := copied == spec.size && Hash(hashed) == spec.id;
  }
}
