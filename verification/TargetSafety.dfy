/** What the target guarantees against an arbitrary source. */
module TargetSafety {
  import opened Base
  import opened Cas
  import opened Source
  import opened Transfer
  import opened TargetLoop

  /** Bytes asked for in the frames sent. */
  function Requested(sent: seq<Frame>): nat {
    if sent == [] then 0
    else Requested(sent[..|sent| - 1]) + if sent[|sent| - 1].Request? then sent[|sent| - 1].length else 0
  }

  lemma {:induction false} RequestedConcat(a: seq<Frame>, b: seq<Frame>)
    ensures Requested(a + b) == Requested(a) + Requested(b)
  {
    if b == [] {
      assert a + b == a;
    } else {
      RequestedConcat(a, b[..|b| - 1]);
      assert (a + b)[..|a + b| - 1] == a + b[..|b| - 1];
    }
  }

  lemma RequestedOne(f: Frame)
    ensures Requested([f]) == if f.Request? then f.length else 0
    ensures Requested([]) == 0
  {
    assert [f][..0] == [];
  }

  /** A non-empty range is acknowledged only if a data frame for just that range was read. */
  ghost predicate Backed(f: Frame, read: seq<Frame>) {
    f.Ack? && f.length > 0 ==>
      exists g <- read :: g.Chunk? && g.id == f.id && g.offset == f.offset && |g.bytes| == f.length
  }

  ghost predicate AllBacked(sent: seq<Frame>, read: seq<Frame>) {
    forall f <- sent :: Backed(f, read)
  }

  ghost predicate Intact(cas: Store, obj: ObjectKey, o: ObjectSpec) {
    obj in cas.published && |cas.published[obj]| == o.size && Hash(cas.published[obj]) == o.id
  }

  /** Why the target may claim to have the object: it had it, published or completely staged, or the
      source vouched for it by a matching proof. */
  ghost predicate Vouched(c: Session, cas0: Store, o: ObjectSpec, read: seq<Frame>) {
    || c.Key(o).Object() in cas0.published
    || (o.size > 0 && cas0.ResumeOffset(c.Key(o)) == o.size)
    || Proof(o.id, o.id, o.size) in read
  }

  /** The Volume knows of the object what it knew at the beginning. */
  ghost predicate Untouched(c: Session, cas0: Store, cas: Store, o: ObjectSpec) {
    && (c.Key(o).Object() in cas.published <==> c.Key(o).Object() in cas0.published)
    && cas.ResumeOffset(c.Key(o)) == cas0.ResumeOffset(c.Key(o))
  }

  /** Objects not begun are untouched. */
  function Todo(t: Target): nat {
    if t.phase.Begin? then t.i else t.i + 1
  }

  ghost predicate Volume(c: Session, cas0: Store, t: Target) {
    && t.cas.Authentic()
    && (forall k <- cas0.published :: k in t.cas.published && t.cas.published[k] == cas0.published[k])
    && (forall j :: Todo(t) <= j < |c.b.objects| ==> Untouched(c, cas0, t.cas, c.b.objects[j]))
  }

  ghost predicate Receipts(c: Session, cas0: Store, t: Target, read: seq<Frame>) {
    && t.i <= |c.b.objects| && t.receipts == c.b.objects[..t.i]
    && (forall j :: 0 <= j < t.i ==>
         Intact(t.cas, c.Key(c.b.objects[j]).Object(), c.b.objects[j]) && Vouched(c, cas0, c.b.objects[j], read))
    && (t.phase.Done? ==> t.i == |c.b.objects|)
    && (t.phase.AwaitEmptyProof? ==> t.i < |c.b.objects| && c.b.objects[t.i].size == 0)
  }

  ghost predicate Inv(c: Session, cas0: Store, t: Target, read: seq<Frame>, sent: seq<Frame>) {
    && WellPlaced(c, t) && Volume(c, cas0, t) && Receipts(c, cas0, t, read)
    && Requested(sent) == t.transferred <= c.b.maxBytes && AllBacked(sent, read)
  }

  // ---- The Volume ----

  lemma PublishKeepsVolume(c: Session, cas0: Store, t: Target, sent: seq<Frame>)
    requires Volume(c, cas0, t) && t.i < |c.b.objects| && c.b.Distinct()
    ensures var t' := Finish(c, t, sent).0;
            && t'.cas.Authentic()
            && (forall k <- cas0.published :: k in t'.cas.published && t'.cas.published[k] == cas0.published[k])
            && (forall j :: t.i < j < |c.b.objects| ==> Untouched(c, cas0, t'.cas, c.b.objects[j]))
            && (forall k <- t.cas.published :: k in t'.cas.published && t'.cas.published[k] == t.cas.published[k])
            && (t'.i > t.i ==> Intact(t'.cas, c.Key(c.b.objects[t.i]).Object(), c.b.objects[t.i]))
  {
    hide Hash, VerifyAndPublish;
    var o := c.b.objects[t.i];
    PublishesExactlyVerifiedBytes(t.cas, c.Key(o), o);
    PublishAccounts(t.cas, c.Key(o), o);
    var cas := VerifyAndPublish(t.cas, c.Key(o), o).0;
    forall j | t.i < j < |c.b.objects| ensures Untouched(c, cas0, cas, c.b.objects[j]) {
      assert Untouched(c, cas0, t.cas, c.b.objects[j]);
    }
  }

  /** Publication leaves other objects and other staging files alone. */
  lemma PublishAccounts(cas: Store, key: StageKey, o: ObjectSpec)
    requires key.id == o.id
    ensures var cas' := VerifyAndPublish(cas, key, o).0;
            && (cas.Authentic() ==> cas'.Authentic())
            && (forall k <- cas.published :: k in cas'.published && cas'.published[k] == cas.published[k])
            && (forall k <- cas'.published :: k in cas.published || k == key.Object())
            && (forall k: StageKey :: k != key ==> cas'.ResumeOffset(k) == cas.ResumeOffset(k))
  {
    hide Hash;
  }

  lemma StageKeepsVolume(c: Session, cas0: Store, t: Target, bytes: Bytes)
    requires Volume(c, cas0, t) && t.i < |c.b.objects| && c.b.Distinct() && !t.phase.Begin?
    ensures var cas := StageWrite(t.cas, c.Key(c.b.objects[t.i]), c.b.objects[t.i], t.offset, bytes).0;
            && cas.published == t.cas.published
            && (forall j :: t.i < j < |c.b.objects| ==> Untouched(c, cas0, cas, c.b.objects[j]))
  {
    hide Hash;
    var o := c.b.objects[t.i];
    var cas := StageWrite(t.cas, c.Key(o), o, t.offset, bytes).0;
    forall j | t.i < j < |c.b.objects| ensures Untouched(c, cas0, cas, c.b.objects[j]) {
      assert Untouched(c, cas0, t.cas, c.b.objects[j]);
    }
  }

  // ---- Receipts ----

  lemma FinishKeeps(c: Session, cas0: Store, t: Target, sent: seq<Frame>, read: seq<Frame>)
    requires WellPlaced(c, t) && Volume(c, cas0, t) && Receipts(c, cas0, t, read) && t.i < |c.b.objects|
             && c.b.Distinct()
    requires Vouched(c, cas0, c.b.objects[t.i], read)
    ensures var t' := Finish(c, t, sent).0;
            && WellPlaced(c, t') && Volume(c, cas0, t') && Receipts(c, cas0, t', read)
            && t'.transferred == t.transferred
  {
    hide VerifyAndPublish, Vouched, Untouched, Hash;
    PublishKeepsVolume(c, cas0, t, sent);
    assert c.b.objects[..t.i + 1] == c.b.objects[..t.i] + [c.b.objects[t.i]];
  }

  lemma MoreRead(c: Session, cas0: Store, t: Target, read: seq<Frame>, sent: seq<Frame>, f: Frame)
    requires Receipts(c, cas0, t, read) && AllBacked(sent, read)
    ensures Receipts(c, cas0, t, read + [f]) && AllBacked(sent, read + [f])
  {
    forall g | g in sent ensures Backed(g, read + [f]) {
      assert Backed(g, read);
      if g.Ack? && g.length > 0 {
        var h :| h in read && h.Chunk? && h.id == g.id && h.offset == g.offset && |h.bytes| == g.length;
        assert h in read + [f];
      }
    }
  }

  lemma SentOne(sent: seq<Frame>, f: Frame, read: seq<Frame>)
    requires AllBacked(sent, read) && Backed(f, read)
    ensures AllBacked(sent + [f], read) && Requested(sent + [f]) == Requested(sent) + if f.Request? then f.length else 0
  {
    hide Backed;
    RequestedConcat(sent, [f]);
    RequestedOne(f);
  }

  // ---- Steps ----

  lemma LocalKeeps(c: Session, cas0: Store, t: Target, read: seq<Frame>, sent: seq<Frame>)
    requires Inv(c, cas0, t, read, sent) && c.b.Distinct() && (t.phase.Begin? || t.phase.Fetch?)
    ensures var (t', more) := Local(c, t);
            Inv(c, cas0, t', read, sent + more)
  {
    hide Vouched, Requested, Finish, AllBacked, Intact, Hash, Backed;
    var (t', more) := Local(c, t);
    LocalStaysPlaced(c, t);
    assert sent + [] == sent;
    if t.phase.Begin? && t.i < |c.b.objects| {
      BeginKeeps(c, cas0, t, read, sent);
    } else if more != [] {
      NothingToBack(more[0], read);
      SentOne(sent, more[0], read);
    }
  }

  lemma NothingToBack(f: Frame, read: seq<Frame>)
    requires !f.Ack? || f.length == 0
    ensures Backed(f, read)
  {
  }

  lemma BeginKeeps(c: Session, cas0: Store, t: Target, read: seq<Frame>, sent: seq<Frame>)
    requires Inv(c, cas0, t, read, sent) && c.b.Distinct() && t.phase.Begin? && t.i < |c.b.objects|
    ensures var (t', more) := BeginObject(c, t);
            Inv(c, cas0, t', read, sent + more)
  {
    hide Requested, AllBacked, Intact, Hash, Backed, Finish;
    var o := c.b.objects[t.i];
    var (t', more) := BeginObject(c, t);
    assert Untouched(c, cas0, t.cas, o);
    assert sent + [] == sent;
    FinishShape(c, t, [Ack(o.id, o.size, 0, true)]);
    if more != [] {
      NothingToBack(more[0], read);
      SentOne(sent, more[0], read);
    }
    if Vouched(c, cas0, o, read) {
      FinishKeeps(c, cas0, t, [Ack(o.id, o.size, 0, true)], read);
    }
  }

  lemma FinishShape(c: Session, t: Target, sent: seq<Frame>)
    requires t.i < |c.b.objects|
    ensures Finish(c, t, sent).1 == sent || Finish(c, t, sent).1 == []
  {
    hide VerifyAndPublish;
  }

  lemma ReceiveKeeps(c: Session, cas0: Store, t: Target, read: seq<Frame>, sent: seq<Frame>, f: Frame)
    requires Inv(c, cas0, t, read, sent) && c.b.Distinct() && Awaits(t)
    ensures var (t', more) := Receive(c, t, f);
            Inv(c, cas0, t', read + [f], sent + more)
  {
    hide Requested, AllBacked, Intact, Hash, Backed, Finish, StageWrite, Volume, Receipts;
    var o := c.b.objects[t.i];
    var (t', more) := Receive(c, t, f);
    ReceiveStaysPlaced(c, t, f);
    MoreRead(c, cas0, t, read, sent, f);
    assert sent + [] == sent;
    if t.phase.AwaitChunk? {
      ChunkKeeps(c, cas0, t, read, sent, f);
    } else {
      var finish := if t.phase.AwaitEmptyProof? then [Ack(o.id, 0, 0, true)] else [];
      FinishShape(c, t, finish);
      FailKeeps(c, cas0, t, read + [f]);
      if more != [] {
        NothingToBack(more[0], read + [f]);
        SentOne(sent, more[0], read + [f]);
      }
      if f == Proof(o.id, o.id, if t.phase.AwaitEmptyProof? then 0 else o.size) {
        EmptyIsEmpty(c, cas0, t, read);
        assert f in read + [f];
        FinishKeeps(c, cas0, t, finish, read + [f]);
      }
    }
  }

  lemma EmptyIsEmpty(c: Session, cas0: Store, t: Target, read: seq<Frame>)
    requires Receipts(c, cas0, t, read)
    ensures t.phase.AwaitEmptyProof? ==> t.i < |c.b.objects| && c.b.objects[t.i].size == 0
  {
  }

  lemma FailKeeps(c: Session, cas0: Store, t: Target, read: seq<Frame>)
    requires Volume(c, cas0, t) && Receipts(c, cas0, t, read) && Awaits(t)
    ensures Volume(c, cas0, Fail(t).0) && Receipts(c, cas0, Fail(t).0, read)
  {
  }

  lemma ChunkKeeps(c: Session, cas0: Store, t: Target, read: seq<Frame>, sent: seq<Frame>, f: Frame)
    requires Inv(c, cas0, t, read, sent) && c.b.Distinct() && t.phase.AwaitChunk?
    ensures var (t', more) := Receive(c, t, f);
            Volume(c, cas0, t') && Receipts(c, cas0, t', read + [f]) && t'.transferred == t.transferred
            && AllBacked(sent + more, read + [f]) && Requested(sent + more) == Requested(sent)
  {
    hide Requested, Hash, Vouched;
    var (t', more) := Receive(c, t, f);
    MoreRead(c, cas0, t, read, sent, f);
    assert sent + [] == sent;
    if f.Chunk? {
      StageKeepsVolume(c, cas0, t, f.bytes);
    }
    if more != [] {
      assert f in read + [f] && Backed(more[0], read + [f]);
      SentOne(sent, more[0], read + [f]);
    }
  }

  lemma {:induction false} DriveKeeps(c: Session, cas0: Store, t: Target, read: seq<Frame>, sent: seq<Frame>,
                                      input: seq<Frame>)
    requires Inv(c, cas0, t, read, sent) && c.b.Distinct() && WellPlaced(c, t)
    ensures exists k :: 0 <= k <= |input| &&
              var (t', more) := Drive(c, t, input);
              Inv(c, cas0, t', read + input[..k], sent + more)
    decreases |input|, |c.b.objects| - t.i, if t.phase.Begin? then 2 else if t.phase.Fetch? then 1 else 0
  {
    hide Inv, Local, Receive;
    if t.phase.Begin? || t.phase.Fetch? {
      var (t', out) := Local(c, t);
      LocalKeeps(c, cas0, t, read, sent);
      LocalStaysPlaced(c, t);
      LocalAdvances(c, t);
      DriveKeeps(c, cas0, t', read, sent + out, input);
      assert sent + out + Drive(c, t', input).1 == sent + (out + Drive(c, t', input).1);
    } else if Awaits(t) && input != [] {
      var (t', out) := Receive(c, t, input[0]);
      ReceiveKeeps(c, cas0, t, read, sent, input[0]);
      ReceiveStaysPlaced(c, t, input[0]);
      DriveKeeps(c, cas0, t', read + [input[0]], sent + out, input[1..]);
      var (t2, more) := Drive(c, t', input[1..]);
      var k :| 0 <= k <= |input[1..]| && Inv(c, cas0, t2, read + [input[0]] + input[1..][..k], sent + out + more);
      assert read + [input[0]] + input[1..][..k] == read + input[..k + 1];
      assert sent + out + more == sent + (out + more);
    } else {
      assert read + input[..0] == read && sent + [] == sent;
    }
  }

  lemma LocalAdvances(c: Session, t: Target)
    requires WellPlaced(c, t) && (t.phase.Begin? || t.phase.Fetch?)
    ensures var t' := Local(c, t).0;
            t.i < t'.i <= |c.b.objects| || (t'.i == t.i && !t'.phase.Begin? && (t.phase.Fetch? ==> !t'.phase.Fetch?))
  {
    hide VerifyAndPublish;
  }

  /** Against any source whatsoever: published objects stay authentic and are never replaced; the
      receipts are for a prefix of the manifest in page order, each for an object that is published
      intact and that was there before or that the source vouched for; closing means all of them; no
      more bytes are asked for than the ticket allows; and only ranges that arrived are acknowledged. */
  lemma ArbitrarySource(c: Session, cas0: Store, input: seq<Frame>)
    requires c.b.Distinct() && cas0.Authentic()
    ensures var (t, sent) := Drive(c, Start(cas0), input);
            && t.cas.Authentic()
            && (forall k <- cas0.published :: k in t.cas.published && t.cas.published[k] == cas0.published[k])
            && t.receipts <= c.b.objects && (t.phase.Done? ==> t.receipts == c.b.objects)
            && (forall o <- t.receipts :: Intact(t.cas, c.Key(o).Object(), o) && Vouched(c, cas0, o, input))
            && Requested(sent) <= c.b.maxBytes
            && AllBacked(sent, input)
  {
    hide Drive, Intact, Hash;
    assert Inv(c, cas0, Start(cas0), [], []) by {
      assert c.b.objects[..0] == [];
    }
    DriveKeeps(c, cas0, Start(cas0), [], [], input);
    var (t, sent) := Drive(c, Start(cas0), input);
    var k :| 0 <= k <= |input| && Inv(c, cas0, t, [] + input[..k], [] + sent);
    assert [] + input[..k] == input[..k] && [] + sent == sent;
    assert forall f <- input[..k] :: f in input;
    forall o | o in t.receipts ensures Intact(t.cas, c.Key(o).Object(), o) && Vouched(c, cas0, o, input) {
      var j :| 0 <= j < |t.receipts| && t.receipts[j] == o;
      assert Vouched(c, cas0, c.b.objects[j], input[..k]);
    }
    forall f | f in sent ensures Backed(f, input) {
      assert Backed(f, input[..k]);
    }
    assert c.b.objects[..|c.b.objects|] == c.b.objects;
  }
}
