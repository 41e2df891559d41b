/** The framed read stream: a producer that reads bounded ranges and pushes frames into a bounded
    queue until it is done, cancelled, or the consumer has gone. */
module S3Read {
  import opened Base
  import opened Snapshot

  const MAX_STREAM_ID_BYTES := 128

  datatype Ticket = Ticket(allowedStart: nat, allowedEnd: nat, size: nat)

  datatype Open = Open(streamId: Bytes, start: nat, end: nat, ticket: Ticket)

  datatype Frame = Head(size: nat) | Data(offset: nat, bytes: Bytes) | End | Error

  predicate ValidOpen(o: Open) {
    && 0 < |o.streamId| <= MAX_STREAM_ID_BYTES && o.start <= o.end
    && o.ticket.allowedStart <= o.start && o.end <= o.ticket.allowedEnd && o.end <= o.ticket.size
  }

  // ---- What a reader is promised ----

  /** The data frames from `offset` on. */
  function DataFrames(content: Bytes, offset: nat, end: nat): seq<Frame>
    requires offset <= end <= |content|
    decreases end - offset
  {
    if offset == end then [] else
    var next := Min(end, offset + FRAME_MAX);
    [Data(offset, content[offset..next])] + DataFrames(content, next, end)
  }

  function FullStream(o: Open, content: Bytes): seq<Frame>
    requires o.start <= o.end <= |content|
  {
    [Head(|content|)] + DataFrames(content, o.start, o.end) + [End]
  }

  function Payload(frames: seq<Frame>): Bytes {
    if frames == [] then [] else
    Payload(frames[..|frames| - 1]) + if frames[|frames| - 1].Data? then frames[|frames| - 1].bytes else []
  }

  lemma {:induction false} PayloadConcat(a: seq<Frame>, b: seq<Frame>)
    ensures Payload(a + b) == Payload(a) + Payload(b)
  {
    if b == [] {
      assert a + b == a;
    } else {
      PayloadConcat(a, b[..|b| - 1]);
      assert (a + b)[..|a + b| - 1] == a + b[..|b| - 1];
    }
  }

  /** Data frames are in range, bounded, not empty, and each starts where the previous one ended. */
  ghost predicate Consecutive(frames: seq<Frame>, offset: nat, end: nat) {
    if frames == [] then offset == end
    else
      && frames[0].Data? && frames[0].offset == offset && 0 < |frames[0].bytes| <= FRAME_MAX
      && Consecutive(frames[1..], offset + |frames[0].bytes|, end)
  }

  lemma SmallPayloads(offset: nat, bytes: Bytes)
    ensures Payload([]) == [] && Payload([Data(offset, bytes)]) == bytes
  {
  }

  lemma {:induction false} DataFramesAreTheSlice(content: Bytes, offset: nat, end: nat)
    requires offset <= end <= |content|
    ensures Payload(DataFrames(content, offset, end)) == content[offset..end]
    ensures Consecutive(DataFrames(content, offset, end), offset, end)
    decreases end - offset
  {
    hide Payload;
    SmallPayloads(offset, []);
    if offset < end {
      var next := Min(end, offset + FRAME_MAX);
      DataFramesAreTheSlice(content, next, end);
      var first, rest := [Data(offset, content[offset..next])], DataFrames(content, next, end);
      PayloadConcat(first, rest);
      SmallPayloads(offset, content[offset..next]);
      assert content[offset..next] + content[next..end] == content[offset..end];
      assert (first + rest)[1..] == rest;
    }
  }

  /** An uncancelled stream carries exactly the requested slice of the file. */
  lemma FullStreamIsTheSlice(o: Open, content: Bytes)
    requires o.start <= o.end <= |content|
    ensures Payload(FullStream(o, content)) == content[o.start..o.end]
    ensures var s := FullStream(o, content);
            s[0] == Head(|content|) && s[|s| - 1] == End && Consecutive(s[1..|s| - 1], o.start, o.end)
  {
    var data := DataFrames(content, o.start, o.end);
    DataFramesAreTheSlice(content, o.start, o.end);
    PayloadConcat([Head(|content|)] + data, [End]);
    PayloadConcat([Head(|content|)], data);
    var s := FullStream(o, content);
    assert s[1..|s| - 1] == data;
  }

  /** Whatever prefix of the stream was seen, its payload is a prefix of the slice. */
  lemma {:induction false} PrefixHasNoGap(full: seq<Frame>, n: nat)
    requires n <= |full|
    ensures Payload(full[..n]) <= Payload(full)
  {
    PayloadConcat(full[..n], full[n..]);
    assert full == full[..n] + full[n..];
  }

  // ---- The producer ----

  /** What the outside does, measured in looks at the flag and the queue: when the stream is
      cancelled, when the consumer disconnects, and when the queue happens to be full. */
  datatype Outside = Outside(cancelAt: Option<nat>, closedAt: Option<nat>, full: seq<bool>) {
    predicate Cancelled(now: nat) {
      cancelAt.Some? && now >= cancelAt.value
    }

    predicate Closed(now: nat) {
      closedAt.Some? && now >= closedAt.value
    }

    predicate Full(now: nat) {
      now < |full| && full[now]
    }
  }

  /** What becomes of a frame: sent, dropped because the stream was cancelled, or undeliverable because
      the consumer has gone. */
  datatype Fate = Sent | Dropped | Gone

  /** Offers a frame until something becomes of it. Every look takes time, the one that sends too. */
  function Offer(w: Outside, now: nat): (Fate, nat)
    decreases if now < |w.full| then |w.full| - now else 0
  {
    if w.Cancelled(now) then (Dropped, now)
    else if w.Closed(now) then (Gone, now)
    else if !w.Full(now) then (Sent, now + 1)
    else Offer(w, now + 1)
  }

  lemma {:induction false} OfferFacts(w: Outside, now: nat)
    ensures var (fate, t) := Offer(w, now);
            && now <= t
            && (fate == Sent ==> now < t && !w.Cancelled(now) && !w.Closed(now))
            && (fate == Dropped ==> w.Cancelled(t))
            && (fate == Gone ==> w.Closed(t))
    decreases if now < |w.full| then |w.full| - now else 0
  {
    if !w.Cancelled(now) && !w.Closed(now) && w.Full(now) {
      OfferFacts(w, now + 1);
    }
  }

  /** Waits for room in the queue. A cancelled stream drops the frame silently. */
  method SendFrame(w: Outside, now: nat, out: seq<Frame>, frame: Frame)
      returns (ok: bool, out': seq<Frame>, now': nat)
    ensures var (fate, t) := Offer(w, now);
            ok == (fate != Gone) && now' == t && out' == if fate == Sent then out + [frame] else out
    ensures now <= now'
    ensures w.Cancelled(now) || w.Closed(now) ==> out' == out
    ensures out' == out + [frame] || (out' == out && (w.Cancelled(now') || w.Closed(now')))
    ensures !ok ==> out' == out && w.Closed(now')
    ensures ok ==> out' == out + [frame] || w.Cancelled(now')
  {
    OfferFacts(w, now);
    now' := now;
    while true
      invariant now <= now' && Offer(w, now') == Offer(w, now)
      decreases if now' < |w.full| then |w.full| - now' else 0
    {
      if w.Cancelled(now') {
        return true, out, now';
      }
      if w.Closed(now') {
        return false, out, now';
      }
      if !w.Full(now') {
        return true, out + [frame], now' + 1;
      }
      now' := now' + 1;
    }
  }

  /** Every range of the request can be read. */
  ghost predicate Serves(f: FrozenFile, objects: Objects, o: Open) {
    && f.recordSize == o.ticket.size
    && forall i :: 0 <= i < |f.manifest.chunks| && Overlaps(f.manifest.chunks[i], Range(o.start, o.end)) ==>
         Verified(objects, f.manifest.chunks[i].id, f.manifest.chunks[i].size)
  }

  /** Every authorized range of an accepted snapshot can be served while its objects are there. */
  lemma ReadableServes(files: seq<FrozenFile>, objects: Objects, f: FrozenFile, o: Open)
    requires Readable(files, objects) && f in files && f.recordSize == o.ticket.size
    ensures Serves(f, objects, o)
  {
    hide Verified, Sound;
    forall i | 0 <= i < |f.manifest.chunks|
        ensures Verified(objects, f.manifest.chunks[i].id, f.manifest.chunks[i].size) {
      assert f.manifest.chunks[i] in f.manifest.chunks;
    }
  }

  // ---- What a read does, look by look ----

  datatype Exit = Exit(ok: bool, out: seq<Frame>, now: nat)

  function Keep(out: seq<Frame>, frame: Frame, fate: Fate): seq<Frame> {
    if fate == Sent then out + [frame] else out
  }

  /** The data loop from `offset` on: look at the flag, read a range, offer the frame. */
  ghost function DataFrom(f: FrozenFile, objects: Objects, content: Bytes, offset: nat, end: nat, w: Outside, now: nat,
                          out: seq<Frame>): Exit
    requires offset <= end <= |content|
    decreases end - offset
  {
    if offset == end || w.Cancelled(now) then Exit(true, out, now) else
    var next := Min(end, offset + FRAME_MAX);
    if !CanRead(f, objects, Range(offset, next)) then Exit(false, out, now + 1) else
    var (fate, t) := Offer(w, now + 1);
    if fate == Gone then Exit(false, out, t)
    else DataFrom(f, objects, content, next, end, w, t, Keep(out, Data(offset, content[offset..next]), fate))
  }

  /** A request can be asked of a file when its range lies in what the ticket says is there. */
  ghost predicate Asks(o: Open, f: FrozenFile, content: Bytes) {
    ValidOpen(o) && |content| == f.recordSize
  }

  ghost function Execute(o: Open, f: FrozenFile, objects: Objects, w: Outside, content: Bytes): Exit
    requires Asks(o, f, content)
  {
    if f.recordSize != o.ticket.size then Exit(false, [], 0) else
    var (fate, t) := Offer(w, 0);
    if fate == Gone then Exit(false, [], t) else
    var d := DataFrom(f, objects, content, o.start, o.end, w, t, Keep([], Head(|content|), fate));
    if !d.ok || w.Cancelled(d.now) then d else
    var (last, end) := Offer(w, d.now + 1);
    Exit(last != Gone, Keep(d.out, End, last), end)
  }

  /** Everything the producer thread sends: a failed read adds an error frame, unless the stream was
      cancelled or nobody listens. */
  ghost function Produced(o: Open, f: FrozenFile, objects: Objects, w: Outside, content: Bytes): seq<Frame>
    requires Asks(o, f, content)
  {
    var e := Execute(o, f, objects, w, content);
    if e.ok || w.Cancelled(e.now) then e.out else Keep(e.out, Error, Offer(w, e.now + 1).0)
  }

  /** `all` is what would have been sent by now; only a cancellation explains a shorter `out`. */
  ghost predicate SoFar(w: Outside, now: nat, out: seq<Frame>, all: seq<Frame>) {
    out <= all && (!w.Cancelled(now) ==> out == all)
  }

  lemma SendKeepsPrefix(w: Outside, now: nat, at: nat, out: seq<Frame>, all: seq<Frame>, frame: Frame)
    requires SoFar(w, now, out, all) && now <= at && Offer(w, at).0 != Gone
    ensures SoFar(w, Offer(w, at).1, Keep(out, frame, Offer(w, at).0), all + [frame])
  {
    OfferFacts(w, at);
  }

  lemma {:induction false} DataFromIsPrefix(f: FrozenFile, objects: Objects, content: Bytes, offset: nat, end: nat,
                                            w: Outside, now: nat, out: seq<Frame>, all: seq<Frame>)
    requires offset <= end <= |content| && SoFar(w, now, out, all)
    ensures var e := DataFrom(f, objects, content, offset, end, w, now, out);
            var full := all + DataFrames(content, offset, end);
            && now <= e.now && e.out <= full
            && (e.ok && !w.Cancelled(e.now) ==> e.out == full)
            && (!e.ok ==> |e.out| < |full|)
            && (!e.ok ==> w.Closed(e.now) || exists a: nat, b: nat ::
                  offset <= a < b <= end && !CanRead(f, objects, Range(a, b)))
    decreases end - offset
  {
    hide CanRead, Offer;
    var rest := DataFrames(content, offset, end);
    if offset < end && !w.Cancelled(now) {
      var next := Min(end, offset + FRAME_MAX);
      var frame := Data(offset, content[offset..next]);
      assert rest == [frame] + DataFrames(content, next, end);
      assert all + rest == all + [frame] + DataFrames(content, next, end);
      var (fate, t) := Offer(w, now + 1);
      OfferFacts(w, now + 1);
      if !CanRead(f, objects, Range(offset, next)) {
        assert offset <= offset < next <= end;
      } else if fate != Gone {
        SendKeepsPrefix(w, now, now + 1, out, all, frame);
        DataFromIsPrefix(f, objects, content, next, end, w, t, Keep(out, frame, fate), all + [frame]);
      }
    } else {
      assert out <= all + rest;
      assert offset == end ==> all + rest == all;
    }
  }

  /** Whatever is cancelled, closed or full at whatever look, what a read sends is a prefix of the full
      stream, and all of it if nothing intervened; it fails only without a consumer or without intact
      objects. */
  lemma ExecuteIsPrefix(o: Open, f: FrozenFile, objects: Objects, w: Outside, content: Bytes)
    requires Asks(o, f, content)
    ensures var e := Execute(o, f, objects, w, content);
            && (f.recordSize != o.ticket.size ==> e.out == [] && !e.ok)
            && (f.recordSize == o.ticket.size ==>
                  && e.out <= FullStream(o, content)
                  && (e.ok && !w.Cancelled(e.now) ==> e.out == FullStream(o, content))
                  && (!e.ok ==> |e.out| < |FullStream(o, content)|))
            && (!e.ok ==> w.Closed(e.now) || !Serves(f, objects, o))
  {
    hide Offer, DataFrames, Serves, CanRead, DataFrom, SoFar;
    SizeMatters(f, objects, o);
    if f.recordSize == o.ticket.size {
      var (fate, t) := Offer(w, 0);
      OfferFacts(w, 0);
      var head: seq<Frame> := [Head(|content|)];
      if fate != Gone {
        NothingSent(w);
        SendKeepsPrefix(w, 0, 0, [], [], Head(|content|));
        assert [] + head == head;
        var out := Keep([], Head(|content|), fate);
        var d := DataFrom(f, objects, content, o.start, o.end, w, t, out);
        DataFromIsPrefix(f, objects, content, o.start, o.end, w, t, out, head);
        ExecuteEnds(o, f, objects, w, content, d);
      }
    }
  }

  lemma NothingSent(w: Outside)
    ensures SoFar(w, 0, [], [])
  {
  }

  lemma ExecuteEnds(o: Open, f: FrozenFile, objects: Objects, w: Outside, content: Bytes, d: Exit)
    requires Asks(o, f, content) && f.recordSize == o.ticket.size
    requires var full := [Head(|content|)] + DataFrames(content, o.start, o.end);
             && d.out <= full && (d.ok && !w.Cancelled(d.now) ==> d.out == full) && (!d.ok ==> |d.out| < |full|)
    requires !d.ok ==> w.Closed(d.now) || exists a: nat, b: nat ::
               o.start <= a < b <= o.end && !CanRead(f, objects, Range(a, b))
    ensures !d.ok ==> w.Closed(d.now) || !Serves(f, objects, o)
    ensures d.out <= FullStream(o, content) && |d.out| < |FullStream(o, content)|
    ensures var (last, end) := Offer(w, d.now + 1);
            && (last == Gone ==> w.Closed(end))
            && (d.ok && !w.Cancelled(d.now) ==>
                  && Keep(d.out, End, last) <= FullStream(o, content)
                  && (last == Sent ==> Keep(d.out, End, last) == FullStream(o, content))
                  && (last == Dropped ==> w.Cancelled(end)))
  {
    hide DataFrames, Serves, CanRead, Offer;
    OfferFacts(w, d.now + 1);
    if !d.ok && !w.Closed(d.now) {
      var a: nat, b: nat :| o.start <= a < b <= o.end && !CanRead(f, objects, Range(a, b));
      BadPartBadWhole(f, objects, o, Range(a, b));
    }
  }

  /** The same for the whole producer, with the error frame of a file that cannot be served. */
  lemma ProducedIsPrefix(o: Open, f: FrozenFile, objects: Objects, w: Outside, content: Bytes)
    requires Asks(o, f, content)
    ensures var out := Produced(o, f, objects, w, content);
            && (out != [] && out[|out| - 1] == Error ==> !Serves(f, objects, o))
            && (f.recordSize != o.ticket.size ==> out <= [Error])
            && (f.recordSize == o.ticket.size ==>
                  || out <= FullStream(o, content)
                  || (out != [] && out[|out| - 1] == Error && out[..|out| - 1] <= FullStream(o, content)))
            && (Serves(f, objects, o) && w.cancelAt.None? && w.closedAt.None? ==> out == FullStream(o, content))
  {
    hide Serves, DataFrames, Execute, FullStream;
    var e := Execute(o, f, objects, w, content);
    ExecuteIsPrefix(o, f, objects, w, content);
    SizeMatters(f, objects, o);
    StreamHasNoError(o, content, e.out);
    if !e.ok && !w.Cancelled(e.now) {
      var out := e.out + [Error];
      OfferFacts(w, e.now + 1);
      assert out[..|out| - 1] == e.out;
    }
  }

  // ---- Every prefix really happens ----

  /** Frame `k` of an unhindered stream is sent at look `2 * k`, so this is between frames `n - 1` and `n`. */
  function Between(n: nat): nat {
    if n == 0 then 0 else 2 * n - 1
  }

  /** Nothing but a cancellation, or a disconnect, after `n` frames. */
  function HangUp(n: nat, cancel: bool): Outside {
    if cancel then Outside(Some(Between(n)), None, []) else Outside(None, Some(Between(n)), [])
  }

  lemma OneFrameFurther(out: seq<Frame>, frame: Frame, more: seq<Frame>, n: nat)
    ensures var rest := [frame] + more;
            && out + rest == out + [frame] + more
            && (|out| < n < |out| + |rest| ==>
                  out + rest[..n - |out|] == out + [frame] + more[..n - |out| - 1])
  {
    if |out| < n < |out| + |more| + 1 {
      assert ([frame] + more)[..n - |out|] == [frame] + more[..n - |out| - 1];
    }
  }

  lemma {:induction false} DataStopsAfter(f: FrozenFile, objects: Objects, content: Bytes, offset: nat, end: nat,
                                          out: seq<Frame>, n: nat, cancel: bool)
    requires offset <= end <= |content| && 1 <= |out| <= n
    requires forall a: nat, b: nat :: offset <= a < b <= end ==> CanRead(f, objects, Range(a, b))
    ensures var rest, w := DataFrames(content, offset, end), HangUp(n, cancel);
            var e := DataFrom(f, objects, content, offset, end, w, Between(|out|), out);
            if n - |out| >= |rest| then e == Exit(true, out + rest, Between(|out| + |rest|))
            else
              && e.out == out + rest[..n - |out|] && w.Cancelled(e.now) == cancel && e.ok == cancel
              && w.Closed(e.now) == !cancel
    decreases end - offset
  {
    hide CanRead;
    var rest, w := DataFrames(content, offset, end), HangUp(n, cancel);
    if offset == end {
      assert out + rest == out;
    } else if |out| == n {
      assert rest[..0] == [] && out + [] == out;
    } else {
      var next := Min(end, offset + FRAME_MAX);
      var frame := Data(offset, content[offset..next]);
      var more := DataFrames(content, next, end);
      assert Offer(w, Between(|out|) + 1) == (Sent, Between(|out| + 1));
      DataStopsAfter(f, objects, content, next, end, out + [frame], n, cancel);
      assert rest == [frame] + more;
      OneFrameFurther(out, frame, more, n);
    }
  }

  /** For every prefix of the full stream there is a moment to cancel, and one to disconnect, after which
      exactly that prefix has been sent. So the prefixes are all that can be seen, and all of them can. */
  lemma EveryPrefixHappens(o: Open, f: FrozenFile, objects: Objects, content: Bytes, n: nat, cancel: bool)
    requires Asks(o, f, content) && Serves(f, objects, o) && n <= |FullStream(o, content)|
    ensures Produced(o, f, objects, HangUp(n, cancel), content) == FullStream(o, content)[..n]
  {
    hide CanRead, DataFrames, DataFrom, Serves, Overlaps;
    ServesAll(f, objects, o);
    var full, w := FullStream(o, content), HangUp(n, cancel);
    var head, rest := [Head(|content|)], DataFrames(content, o.start, o.end);
    StreamStart(o, content);
    if n == 0 {
      StopsAtOnce(o, f, objects, content, cancel);
    } else {
      DataStopsAfter(f, objects, content, o.start, o.end, head, n, cancel);
      var d := DataFrom(f, objects, content, o.start, o.end, w, 1, head);
      assert [] + head == head;
      if n - 1 < |rest| {
        assert head + rest[..n - 1] == full[..n];
      } else if n - 1 == |rest| {
        assert head + rest == full[..n];
      } else {
        assert full == full[..n];
      }
    }
  }

  lemma StopsAtOnce(o: Open, f: FrozenFile, objects: Objects, content: Bytes, cancel: bool)
    requires Asks(o, f, content) && f.recordSize == o.ticket.size
    ensures Produced(o, f, objects, HangUp(0, cancel), content) == []
  {
    assert cancel ==> HangUp(0, cancel).Cancelled(0);
  }

  lemma ServesAll(f: FrozenFile, objects: Objects, o: Open)
    requires Serves(f, objects, o) && o.end <= o.ticket.size
    ensures f.recordSize == o.ticket.size
    ensures forall a: nat, b: nat :: o.start <= a < b <= o.end ==> CanRead(f, objects, Range(a, b))
  {
    hide Verified;
    forall a: nat, b: nat | o.start <= a < b <= o.end ensures CanRead(f, objects, Range(a, b)) {
      forall i | 0 <= i < |f.manifest.chunks| && Overlaps(f.manifest.chunks[i], Range(a, b))
        ensures Verified(objects, f.manifest.chunks[i].id, f.manifest.chunks[i].size)
      {
        assert Overlaps(f.manifest.chunks[i], Range(o.start, o.end));
      }
    }
  }

  // ---- The loops ----

  method ExecuteRead(o: Open, f: FrozenFile, objects: Objects, w: Outside, ghost content: Bytes)
      returns (ok: bool, out: seq<Frame>, now: nat)
    requires ValidOpen(o) && Sound(f) && Describes(f.manifest, content)
    ensures Asks(o, f, content) && Exit(ok, out, now) == Execute(o, f, objects, w, content)
    ensures f.recordSize == o.ticket.size ==> out <= FullStream(o, content)
    ensures f.recordSize != o.ticket.size ==> out == [] && !ok
    ensures ok && !w.Cancelled(now) ==> out == FullStream(o, content)
    ensures !ok ==> w.Closed(now) || !Serves(f, objects, o)
    ensures !ok && f.recordSize == o.ticket.size ==> |out| < |FullStream(o, content)|
  {
    hide Describes, Sound, DataFrames, FullStream, Serves, CanRead, Offer;
    RecordIsContent(f, content);
    ExecuteIsPrefix(o, f, objects, w, content);
    now := 0;
    if f.recordSize != o.ticket.size {
      return false, [], now;
    }
    ok, out, now := SendFrame(w, now, [], Head(f.recordSize));
    if !ok {
      return;
    }
    var offset := o.start;
    ghost var d := DataFrom(f, objects, content, o.start, o.end, w, now, out);
    while offset < o.end && !w.Cancelled(now)
      invariant o.start <= offset <= o.end && ok
      invariant DataFrom(f, objects, content, offset, o.end, w, now, out) == d
    {
      now := now + 1;
      var end := Min(o.end, offset + FRAME_MAX);
      var range := NewRange(offset, end);
      var bytes := ReadRange(f, objects, range.value, content);
      if bytes.None? {
        return false, out, now;
      }
      ok, out, now := SendFrame(w, now, out, Data(offset, bytes.value));
      if !ok {
        return;
      }
      offset := end;
    }
    if !w.Cancelled(now) {
      now := now + 1;
      ok, out, now := SendFrame(w, now, out, End);
    }
  }

  lemma StreamStart(o: Open, content: Bytes)
    requires o.start <= o.end <= |content|
    ensures FullStream(o, content) == [Head(|content|)] + (DataFrames(content, o.start, o.end) + [End])
  {
  }

  lemma RecordIsContent(f: FrozenFile, content: Bytes)
    requires Sound(f) && Describes(f.manifest, content)
    ensures |content| == f.recordSize
  {
  }

  lemma BadPartBadWhole(f: FrozenFile, objects: Objects, o: Open, range: Range)
    requires o.start <= range.start < range.end <= o.end && range.end <= f.recordSize && !CanRead(f, objects, range)
    ensures !Serves(f, objects, o)
  {
    hide Verified;
    var i :| 0 <= i < |f.manifest.chunks| && Overlaps(f.manifest.chunks[i], range)
             && !Verified(objects, f.manifest.chunks[i].id, f.manifest.chunks[i].size);
    assert Overlaps(f.manifest.chunks[i], Range(o.start, o.end));
  }

  /** The whole producer thread. */
  method Produce(o: Open, f: FrozenFile, objects: Objects, w: Outside, ghost content: Bytes) returns (out: seq<Frame>)
    requires ValidOpen(o) && Sound(f) && Describes(f.manifest, content)
    ensures Asks(o, f, content) && out == Produced(o, f, objects, w, content)
    ensures out != [] && out[|out| - 1] == Error ==> !Serves(f, objects, o)
    ensures f.recordSize != o.ticket.size ==> out <= [Error]
    ensures f.recordSize == o.ticket.size ==>
              || out <= FullStream(o, content)
              || (out != [] && out[|out| - 1] == Error && out[..|out| - 1] <= FullStream(o, content))
    ensures Serves(f, objects, o) && w.cancelAt.None? && w.closedAt.None? ==> out == FullStream(o, content)
  {
    hide Describes, Sound, DataFrames, Serves, FullStream, Execute, Offer;
    var ok, now;
    RecordIsContent(f, content);
    ok, out, now := ExecuteRead(o, f, objects, w, content);
    ProducedIsPrefix(o, f, objects, w, content);
    if !ok && !w.Cancelled(now) {
      var _, out', _ := SendFrame(w, now + 1, out, Error);
      out := out';
    }
  }

  lemma SizeMatters(f: FrozenFile, objects: Objects, o: Open)
    ensures f.recordSize != o.ticket.size ==> !Serves(f, objects, o)
  {
  }

  lemma {:induction false} StreamHasNoError(o: Open, content: Bytes, out: seq<Frame>)
    requires o.start <= o.end && (o.end <= |content| ==> out <= FullStream(o, content) || out == [])
    requires o.end > |content| ==> out == []
    ensures out != [] ==> out[|out| - 1] != Error
  {
    if out != [] {
      NoErrorInData(content, o.start, o.end);
      var last := out[|out| - 1];
      assert last == FullStream(o, content)[|out| - 1];
    }
  }

  lemma {:induction false} NoErrorInData(content: Bytes, offset: nat, end: nat)
    requires offset <= end <= |content|
    ensures Error !in DataFrames(content, offset, end)
    decreases end - offset
  {
    if offset < end {
      NoErrorInData(content, Min(end, offset + FRAME_MAX), end);
    }
  }
}
