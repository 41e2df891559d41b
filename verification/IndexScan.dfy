/** The frozen Index: ordered records, point lookup and paged scans. */
module IndexScan {
  import opened Base
  import opened Trees

  const MAX_PAGE_SIZE := 4096

  /** A record; everything but its path text is opaque here. */
  datatype Record = Record(path: Bytes, payload: nat)

  /** A page and, when there is more, the cursor to continue after. */
  datatype Page = Page(items: seq<Record>, next: Option<Bytes>)

  /** Path texts are never empty, and records are strictly ordered by them. */
  ghost predicate Ordered(records: seq<Record>) {
    && (forall r <- records :: r.path != [])
    && (forall i, j :: 0 <= i < j < |records| ==> Less(records[i].path, records[j].path))
  }

  /** Compares neighbours only. */
  method CheckOrder(records: seq<Record>) returns (ok: bool)
    requires forall r <- records :: r.path != []
    ensures ok <==> Ordered(records)
  {
    var i := 0;
    while i < |records|
      invariant i <= |records|
      invariant forall a, b :: 0 <= a < b < i ==> Less(records[a].path, records[b].path)
    {
      if i > 0 && !Less(records[i - 1].path, records[i].path) {
        return false;
      }
      forall a | 0 <= a < i ensures Less(records[a].path, records[i].path) {
        if a < i - 1 {
          LessTrans(records[a].path, records[i - 1].path, records[i].path);
        }
      }
      i := i + 1;
    }
    ok := true;
  }

  /** Binary search finds the one record with this path, exactly when there is one. */
  method GetFile(records: seq<Record>, path: Bytes) returns (r: Option<Record>)
    requires Ordered(records)
    ensures r.Some? ==> r.value in records && r.value.path == path
    ensures r.None? ==> forall x <- records :: x.path != path
    ensures forall x <- records :: x.path == path ==> r == Some(x)
  {
    hide Less;
    var lo, hi := 0, |records|;
    while lo < hi
      invariant lo <= hi <= |records|
      invariant forall i :: 0 <= i < lo ==> Less(records[i].path, path)
      invariant forall i :: hi <= i < |records| ==> Less(path, records[i].path)
    {
      var mid := (lo + hi) / 2;
      var at := records[mid].path;
      LessTotal(at, path);
      if at == path {
        forall x | x in records && x.path == path ensures x == records[mid] {
          var i :| 0 <= i < |records| && records[i] == x;
          LessIrreflexive(path);
        }
        return Some(records[mid]);
      } else if Less(at, path) {
        forall i | 0 <= i <= mid ensures Less(records[i].path, path) {
          if i < mid {
            LessTrans(records[i].path, at, path);
          }
        }
        lo := mid + 1;
      } else {
        forall i | mid <= i < |records| ensures Less(path, records[i].path) {
          if mid < i {
            LessTrans(path, at, records[i].path);
          }
        }
        hi := mid;
      }
    }
    forall x | x in records ensures x.path != path {
      var i :| 0 <= i < |records| && records[i] == x;
      LessIrreflexive(path);
    }
    r := None;
  }

  // ---- Paged scans ----

  predicate PrefixContains(prefix: Bytes, path: Bytes) {
    path == prefix || prefix + [SLASH] <= path
  }

  predicate Matches(r: Record, prefix: Option<Bytes>, after: Option<Bytes>) {
    && (after.Some? ==> Less(after.value, r.path))
    && (prefix.Some? ==> PrefixContains(prefix.value, r.path))
  }

  function Matching(records: seq<Record>, prefix: Option<Bytes>, after: Option<Bytes>): seq<Record> {
    if records == [] then []
    else (if Matches(records[0], prefix, after) then [records[0]] else []) + Matching(records[1..], prefix, after)
  }

  /** One page; nothing when the request is invalid. */
  function ScanFiles(records: seq<Record>, prefix: Option<Bytes>, after: Option<Bytes>, limit: nat): Option<Page> {
    if !(1 <= limit <= MAX_PAGE_SIZE) || after == Some([]) then None else
    var matching := Matching(records, prefix, after);
    if |matching| <= limit then Some(Page(matching, None))
    else Some(Page(matching[..limit], Some(matching[limit - 1].path)))
  }

  lemma {:induction false} MatchingOrdered(records: seq<Record>, prefix: Option<Bytes>, after: Option<Bytes>)
    requires Ordered(records)
    ensures Ordered(Matching(records, prefix, after))
    ensures forall r :: r in Matching(records, prefix, after) <==> r in records && Matches(r, prefix, after)
  {
    hide Less, Matches;
    if records != [] {
      var rest := Matching(records[1..], prefix, after);
      TailOrdered(records);
      MatchingOrdered(records[1..], prefix, after);
      assert forall r :: r in records <==> r == records[0] || r in records[1..];
      forall k | 0 <= k < |rest| ensures Less(records[0].path, rest[k].path) {
        assert rest[k] in rest;
        var j :| 0 <= j < |records[1..]| && records[1..][j] == rest[k];
        assert Less(records[0].path, records[j + 1].path);
      }
    }
  }

  lemma TailOrdered(records: seq<Record>)
    requires Ordered(records) && records != []
    ensures Ordered(records[1..])
  {
    hide Less;
    var tail := records[1..];
    forall i, j | 0 <= i < j < |tail| ensures Less(tail[i].path, tail[j].path) {
      assert Less(records[i + 1].path, records[j + 1].path);
    }
  }

  /** Restarting after a matching record gives what followed it. */
  lemma {:induction false} ContinueAfter(records: seq<Record>, prefix: Option<Bytes>, after: Option<Bytes>, k: nat)
    requires Ordered(records) && k < |Matching(records, prefix, after)|
    ensures Matching(records, prefix, Some(Matching(records, prefix, after)[k].path)) ==
            Matching(records, prefix, after)[k + 1..]
  {
    hide Less;
    var all := Matching(records, prefix, after);
    var cursor := all[k].path;
    MatchingOrdered(records, prefix, after);
    MatchingOrdered(records, prefix, Some(cursor));
    var tail := all[k + 1..];
    var again := Matching(records, prefix, Some(cursor));
    forall r ensures r in tail <==> r in again {
      if r in tail {
        var j :| 0 <= j < |tail| && tail[j] == r;
        assert r == all[k + 1 + j] && r in all;
      }
      if r in again {
        StillMatches(r, prefix, after, cursor, all[k]);
        assert r in all;
        var j :| 0 <= j < |all| && all[j] == r;
        if j <= k {
          NotBelow(all, j, k);
        }
        assert tail[j - k - 1] == r;
      }
    }
    TailsOrdered(all, k + 1);
    OrderedIsUnique(tail, again);
  }

  lemma StillMatches(r: Record, prefix: Option<Bytes>, after: Option<Bytes>, cursor: Bytes, from: Record)
    requires Matches(r, prefix, Some(cursor)) && from.path == cursor && Matches(from, prefix, after)
    ensures Matches(r, prefix, after)
  {
    if after.Some? {
      LessTrans(after.value, cursor, r.path);
    }
  }

  lemma NotBelow(all: seq<Record>, j: nat, k: nat)
    requires Ordered(all) && j <= k < |all|
    ensures !Less(all[k].path, all[j].path)
  {
    hide Less;
    LessIrreflexive(all[k].path);
    if j < k && Less(all[k].path, all[j].path) {
      LessTrans(all[k].path, all[j].path, all[k].path);
    }
  }

  lemma TailsOrdered(all: seq<Record>, n: nat)
    requires Ordered(all) && n <= |all|
    ensures Ordered(all[n..])
  {
    hide Less;
    var tail := all[n..];
    forall i, j | 0 <= i < j < |tail| ensures Less(tail[i].path, tail[j].path) {
      assert Less(all[n + i].path, all[n + j].path);
    }
  }

  lemma {:induction false} OrderedIsUnique(a: seq<Record>, b: seq<Record>)
    requires Ordered(a) && Ordered(b) && forall r :: r in a <==> r in b
    ensures a == b
  {
    hide Less;
    assert a != [] ==> a[0] in a && a[0] in b;
    assert b != [] ==> b[0] in b && b[0] in a;
    if a != [] {
      SmallestFirst(a, b);
      TailOrdered(a);
      TailOrdered(b);
      NotRepeated(a);
      NotRepeated(b);
      assert forall r :: r in a <==> r == a[0] || r in a[1..];
      assert forall r :: r in b <==> r == b[0] || r in b[1..];
      OrderedIsUnique(a[1..], b[1..]);
      assert a == [a[0]] + a[1..] && b == [b[0]] + b[1..];
    }
  }

  lemma SmallestFirst(a: seq<Record>, b: seq<Record>)
    requires Ordered(a) && Ordered(b) && a != [] && b != [] && a[0] in b && b[0] in a
    ensures a[0] == b[0]
  {
    hide Less;
    var i :| 0 <= i < |b| && b[i] == a[0];
    var j :| 0 <= j < |a| && a[j] == b[0];
    NotBelow(a, 0, j);
    NotBelow(b, 0, i);
  }

  lemma NotRepeated(a: seq<Record>)
    requires Ordered(a) && a != []
    ensures a[0] !in a[1..]
  {
    hide Less;
    LessIrreflexive(a[0].path);
    forall i | 1 <= i < |a| ensures a[i] != a[0] {
      assert Less(a[0].path, a[i].path);
    }
  }

  /** A page's cursor leads to exactly what the page left out. */
  lemma AfterPage(records: seq<Record>, prefix: Option<Bytes>, after: Option<Bytes>, limit: nat)
    requires Ordered(records) && 1 <= limit <= MAX_PAGE_SIZE && after != Some([])
    ensures var page := ScanFiles(records, prefix, after, limit).value;
            page.next.Some? ==>
              && page.next != Some([]) && |Matching(records, prefix, page.next)| < |Matching(records, prefix, after)|
              && page.items + Matching(records, prefix, page.next) == Matching(records, prefix, after)
  {
    hide Less, Matching;
    var all := Matching(records, prefix, after);
    MatchingOrdered(records, prefix, after);
    if |all| > limit {
      assert all[limit - 1] in all;
      ContinueAfter(records, prefix, after, limit - 1);
      assert all == all[..limit] + all[limit..];
    }
  }

  /** Follows the cursors until a page has no continuation. */
  function ReadAll(records: seq<Record>, prefix: Option<Bytes>, after: Option<Bytes>, limit: nat): (all: seq<Record>)
    requires Ordered(records) && 1 <= limit <= MAX_PAGE_SIZE && after != Some([])
    ensures all == Matching(records, prefix, after)
    decreases |Matching(records, prefix, after)|
  {
    var page := ScanFiles(records, prefix, after, limit).value;
    if page.next.None? then page.items
    else
      AfterPage(records, prefix, after, limit);
      page.items + ReadAll(records, prefix, page.next, limit)
  }

  /** Paging through a scan, with any page size and any prefix, yields exactly the records under the
      prefix, each once, in order. */
  lemma PagingIsFiltering(records: seq<Record>, prefix: Option<Bytes>, limit: nat)
    requires Ordered(records) && 1 <= limit <= MAX_PAGE_SIZE
    ensures var all := ReadAll(records, prefix, None, limit);
            Ordered(all)
            && forall r :: r in all <==> r in records && (prefix.Some? ==> PrefixContains(prefix.value, r.path))
  {
    hide Less, PrefixContains, Matching, ReadAll;
    MatchingOrdered(records, prefix, None);
  }
}
