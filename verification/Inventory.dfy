/** The inventory a lifecycle operation takes of a tree, and the digest that stands for it. */
module Inventory {
  import opened Base
  import opened Trees

  datatype Item = Item(path: Bytes, dir: bool, size: nat)

  function ItemOf(t: Tree, p: Path): Item
    requires p in t
  {
    Item(Join(p), t[p].Directory?, t[p].Size())
  }

  datatype Evidence = Evidence(files: nat, objects: nat, bytes: nat, digest: ObjectId)

  // ---- Sorting ----

  predicate Sorted(items: seq<Item>) {
    forall i, j :: 0 <= i < j < |items| ==> Less(items[i].path, items[j].path)
  }

  function Insert(x: Item, items: seq<Item>): seq<Item> {
    if items == [] || Less(items[|items| - 1].path, x.path) then items + [x]
    else Insert(x, items[..|items| - 1]) + [items[|items| - 1]]
  }

  function Sort(items: seq<Item>): seq<Item> {
    if items == [] then [] else Insert(items[|items| - 1], Sort(items[..|items| - 1]))
  }

  function Files(items: seq<Item>): nat {
    if items == [] then 0 else Files(items[..|items| - 1]) + (if items[|items| - 1].dir then 0 else 1)
  }

  function TotalSize(items: seq<Item>): nat {
    if items == [] then 0 else TotalSize(items[..|items| - 1]) + items[|items| - 1].size
  }

  lemma {:induction false} InsertTotals(x: Item, items: seq<Item>)
    ensures Files(Insert(x, items)) == Files(items) + if x.dir then 0 else 1
    ensures TotalSize(Insert(x, items)) == TotalSize(items) + x.size
  {
    if items == [] || Less(items[|items| - 1].path, x.path) {
      assert (items + [x])[..|items|] == items;
    } else {
      var init, last := items[..|items| - 1], items[|items| - 1];
      InsertTotals(x, init);
      assert (Insert(x, init) + [last])[..|Insert(x, init)|] == Insert(x, init);
    }
  }

  lemma {:induction false} InsertMembers(x: Item, items: seq<Item>)
    ensures forall y :: y in Insert(x, items) <==> y == x || y in items
  {
    if items != [] && !Less(items[|items| - 1].path, x.path) {
      InsertMembers(x, items[..|items| - 1]);
      assert items == items[..|items| - 1] + [items[|items| - 1]];
    }
  }

  lemma {:induction false} InsertSorts(x: Item, items: seq<Item>)
    requires Sorted(items) && forall y <- items :: y.path != x.path
    ensures Sorted(Insert(x, items))
  {
    if items == [] {
    } else {
      var init, last := items[..|items| - 1], items[|items| - 1];
      if Less(last.path, x.path) {
        forall i | 0 <= i < |items| ensures Less(items[i].path, x.path) {
          if i < |items| - 1 {
            LessTrans(items[i].path, last.path, x.path);
          }
        }
      } else {
        InsertSorts(x, init);
        InsertMembers(x, init);
        LessTotal(last.path, x.path);
        assert last in items;
        forall i | 0 <= i < |Insert(x, init)| ensures Less(Insert(x, init)[i].path, last.path) {
          var y := Insert(x, init)[i];
          assert y in Insert(x, init);
          if y != x {
            var k :| 0 <= k < |init| && init[k] == y;
            assert Less(items[k].path, items[|items| - 1].path);
          }
        }
      }
    }
  }

  lemma {:induction false} SortTotals(items: seq<Item>)
    ensures Files(Sort(items)) == Files(items) && TotalSize(Sort(items)) == TotalSize(items)
  {
    if items != [] {
      SortTotals(items[..|items| - 1]);
      InsertTotals(items[|items| - 1], Sort(items[..|items| - 1]));
    }
  }

  lemma {:induction false} SortMembers(items: seq<Item>)
    ensures forall y :: y in Sort(items) <==> y in items
  {
    if items != [] {
      SortMembers(items[..|items| - 1]);
      InsertMembers(items[|items| - 1], Sort(items[..|items| - 1]));
      assert items == items[..|items| - 1] + [items[|items| - 1]];
    }
  }

  lemma {:induction false} SortSorts(items: seq<Item>)
    requires forall i, j :: 0 <= i < j < |items| ==> items[i].path != items[j].path
    ensures Sorted(Sort(items))
  {
    if items != [] {
      var init, last := items[..|items| - 1], items[|items| - 1];
      SortSorts(init);
      SortMembers(init);
      forall y | y in Sort(init) ensures y.path != last.path {
        var k :| 0 <= k < |init| && init[k] == y;
        assert items[k].path != items[|items| - 1].path;
      }
      InsertSorts(last, Sort(init));
    }
  }

  lemma MaxIsLast(a: seq<Item>, b: seq<Item>)
    requires Sorted(a) && Sorted(b) && a != [] && b != []
    requires Within(a, b) && Within(b, a)
    ensures a[|a| - 1] == b[|b| - 1]
  {
    var x, y := a[|a| - 1], b[|b| - 1];
    assert x in b && y in a;
    var i :| 0 <= i < |b| && b[i] == x;
    var j :| 0 <= j < |a| && a[j] == y;
    if i < |b| - 1 && j < |a| - 1 {
      assert Less(x.path, y.path) && Less(y.path, x.path);
      LessTrans(x.path, y.path, x.path);
      LessIrreflexive(x.path);
    }
  }

  lemma SortedHasNoRepeat(a: seq<Item>)
    requires Sorted(a) && a != []
    ensures a[|a| - 1] !in a[..|a| - 1]
  {
    if a[|a| - 1] in a[..|a| - 1] {
      var k :| 0 <= k < |a| - 1 && a[k] == a[|a| - 1];
      LessIrreflexive(a[k].path);
    }
  }

  /** `a` has nothing that `b` has not. */
  ghost predicate Within(a: seq<Item>, b: seq<Item>) {
    forall y <- a :: y in b
  }

  lemma WithinShrinks(a: seq<Item>, b: seq<Item>)
    requires Sorted(a) && a != [] && b != [] && Within(a, b) && a[|a| - 1] == b[|b| - 1]
    ensures Within(a[..|a| - 1], b[..|b| - 1])
  {
    SortedHasNoRepeat(a);
    var a', b' := a[..|a| - 1], b[..|b| - 1];
    forall y | y in a' ensures y in b' {
      assert y in a;
      var k :| 0 <= k < |b| && b[k] == y;
      assert b'[k] == y;
    }
  }

  /** A set of items has one strictly ordered sequence. */
  lemma {:induction false} SortedIsUnique(a: seq<Item>, b: seq<Item>)
    requires Sorted(a) && Sorted(b) && Within(a, b) && Within(b, a)
    ensures a == b
  {
    hide Less;
    assert a != [] ==> a[0] in a && a[0] in b;
    assert b != [] ==> b[0] in b && b[0] in a;
    if a != [] {
      MaxIsLast(a, b);
      WithinShrinks(a, b);
      WithinShrinks(b, a);
      SortedIsUnique(a[..|a| - 1], b[..|b| - 1]);
      assert a == a[..|a| - 1] + [a[|a| - 1]] && b == b[..|b| - 1] + [b[|b| - 1]];
    }
  }

  // ---- The inventory of a tree ----

  /** Everything in the tree below its root, each path once, in byte order of the paths. */
  ghost predicate IsInventory(t: Tree, items: seq<Item>) {
    && Sorted(items)
    && (forall p <- t :: p != [] ==> ItemOf(t, p) in items)
    && (forall x <- items :: exists p :: p in t && p != [] && x == ItemOf(t, p))
  }

  ghost predicate Distinct(paths: seq<Path>) {
    forall i, j :: 0 <= i < j < |paths| ==> paths[i] != paths[j]
  }

  /** `order` lists some paths of the tree, each once. */
  ghost predicate Lists(t: Tree, order: seq<Path>) {
    Distinct(order) && forall p <- order :: p in t && p != []
  }

  function ItemsOf(t: Tree, order: seq<Path>): seq<Item>
    requires forall p <- order :: p in t
  {
    seq(|order|, i requires 0 <= i < |order| => ItemOf(t, order[i]))
  }

  /** Visiting everything once, in any order, and sorting afterwards gives the inventory. */
  lemma AnyOrderSortsToInventory(t: Tree, order: seq<Path>)
    requires Lists(t, order) && forall p <- t :: p != [] ==> p in order
    ensures IsInventory(t, Sort(ItemsOf(t, order)))
  {
    var items := ItemsOf(t, order);
    SortMembers(items);
    forall i, j | 0 <= i < j < |items| ensures items[i].path != items[j].path {
      if items[i].path == items[j].path {
        JoinInjective(order[i], order[j]);
      }
    }
    SortSorts(items);
    forall p | p in t && p != [] ensures ItemOf(t, p) in Sort(items) {
      var i :| 0 <= i < |order| && order[i] == p;
      assert items[i] == ItemOf(t, p);
    }
    forall x | x in Sort(items) ensures exists p :: p in t && p != [] && x == ItemOf(t, p) {
      var i :| 0 <= i < |items| && items[i] == x;
      assert order[i] in order;
    }
  }

  lemma InventoryIsUnique(t: Tree, a: seq<Item>, b: seq<Item>)
    requires IsInventory(t, a) && IsInventory(t, b)
    ensures a == b
  {
    SortedIsUnique(a, b);
  }

  lemma {:induction false} Enumerate(t: Tree, todo: set<Path>, order: seq<Path>) returns (all: seq<Path>)
    requires Lists(t, order) && todo == set p | p in t && p != [] && p !in order
    ensures Lists(t, all) && order <= all && forall p <- t :: p != [] ==> p in all
    decreases |todo|
  {
    if todo == {} {
      all := order;
      forall p | p in t && p != [] ensures p in all {
        assert p !in todo;
      }
    } else {
      var p :| p in todo;
      var order' := order + [p];
      assert todo - {p} == set q | q in t && q != [] && q !in order';
      all := Enumerate(t, todo - {p}, order');
    }
  }

  lemma InventoryExists(t: Tree)
    ensures exists items :: IsInventory(t, items)
  {
    var all := Enumerate(t, (set p | p in t && p != []), []);
    AnyOrderSortsToInventory(t, all);
  }

  ghost function InventoryOf(t: Tree): (items: seq<Item>)
    ensures IsInventory(t, items)
  {
    InventoryExists(t);
    var items :| IsInventory(t, items);
    items
  }

  lemma OneMore(t: Tree, all: seq<Path>)
    requires all != [] && forall p <- all :: p in t
    ensures var init := all[..|all| - 1];
            && Files(ItemsOf(t, init)) <= Files(ItemsOf(t, all))
            && TotalSize(ItemsOf(t, init)) <= TotalSize(ItemsOf(t, all))
  {
    assert ItemsOf(t, all)[..|all| - 1] == ItemsOf(t, all[..|all| - 1]);
  }

  lemma {:induction false} TotalsGrow(t: Tree, all: seq<Path>, n: nat)
    requires n <= |all| && forall p <- all :: p in t
    ensures Files(ItemsOf(t, all[..n])) <= Files(ItemsOf(t, all))
    ensures TotalSize(ItemsOf(t, all[..n])) <= TotalSize(ItemsOf(t, all))
  {
    hide Files, TotalSize, ItemsOf;
    if n == |all| {
      assert all[..n] == all;
    } else {
      var init := all[..|all| - 1];
      TotalsGrow(t, init, n);
      assert init[..n] == all[..n];
      OneMore(t, all);
    }
  }

  /** The totals of part of the tree never exceed those of the inventory. */
  lemma PartialTotals(t: Tree, order: seq<Path>)
    requires Lists(t, order)
    ensures Files(ItemsOf(t, order)) <= Files(InventoryOf(t))
            && TotalSize(ItemsOf(t, order)) <= TotalSize(InventoryOf(t))
  {
    var all := Enumerate(t, (set p | p in t && p != [] && p !in order), order);
    AnyOrderSortsToInventory(t, all);
    InventoryIsUnique(t, Sort(ItemsOf(t, all)), InventoryOf(t));
    SortTotals(ItemsOf(t, all));
    TotalsGrow(t, all, |order|);
    assert all[..|order|] == order;
  }

  // ---- The bytes fed to the hash ----

  function BigEndian(n: nat, width: nat): Bytes {
    if width == 0 then [] else BigEndian(n / 256, width - 1) + [n % 256]
  }

  function Pow256(k: nat): nat {
    if k == 0 then 1 else 256 * Pow256(k - 1)
  }

  lemma {:induction false} BigEndianLength(n: nat, width: nat)
    ensures |BigEndian(n, width)| == width
  {
    if width > 0 {
      BigEndianLength(n / 256, width - 1);
    }
  }

  lemma {:induction false} BigEndianInjective(n: nat, m: nat, width: nat)
    requires n < Pow256(width) && m < Pow256(width) && BigEndian(n, width) == BigEndian(m, width)
    ensures n == m
  {
    if width > 0 {
      var a, b := BigEndian(n / 256, width - 1), BigEndian(m / 256, width - 1);
      BigEndianLength(n / 256, width - 1);
      BigEndianLength(m / 256, width - 1);
      assert a == (a + [n % 256])[..width - 1] && b == (b + [m % 256])[..width - 1];
      assert (a + [n % 256])[width - 1] == (b + [m % 256])[width - 1];
      BigEndianInjective(n / 256, m / 256, width - 1);
    }
  }

  lemma EightBytes()
    ensures Pow256(8) == U64_MAX + 1
  {
    assert Pow256(4) == 256 * (256 * (256 * 256));
    assert Pow256(6) == 256 * (256 * Pow256(4));
  }

  function ItemBytes(x: Item): Bytes {
    [if x.dir then 100 else 102] + BigEndian(|x.path|, 8) + x.path + BigEndian(x.size, 8)
  }

  function ItemsBytes(items: seq<Item>): Bytes {
    if items == [] then [] else ItemBytes(items[0]) + ItemsBytes(items[1..])
  }

  /** The domain separation label, `neoengram.lifecycle.inventory.v1` and a NUL. */
  const LABEL: Bytes := [110, 101, 111, 101, 110, 103, 114, 97, 109, 46, 108, 105, 102, 101, 99, 121, 99, 108, 101, 46,
                         105, 110, 118, 101, 110, 116, 111, 114, 121, 46, 118, 49, 0]

  function InventoryBytes(root: Bytes, items: seq<Item>): Bytes {
    LABEL + root + [0] + ItemsBytes(items)
  }

  predicate Sized(items: seq<Item>) {
    forall x <- items :: |x.path| <= U64_MAX && x.size <= U64_MAX
  }

  /** Where the parts of an item lie in the bytes that start with it. */
  lemma ItemLayout(x: Item, a: Bytes)
    ensures var text, n := ItemBytes(x) + a, |x.path|;
            && |text| == 17 + n + |a|
            && text[0] == (if x.dir then 100 else 102)
            && text[1..9] == BigEndian(n, 8) && text[9..9 + n] == x.path
            && text[9 + n..17 + n] == BigEndian(x.size, 8) && text[17 + n..] == a
  {
    hide BigEndian;
    BigEndianLength(|x.path|, 8);
    BigEndianLength(x.size, 8);
    var kind: Bytes := [if x.dir then 100 else 102];
    var text, front := ItemBytes(x) + a, kind + BigEndian(|x.path|, 8);
    assert text == front + (x.path + (BigEndian(x.size, 8) + a));
    assert text[9..] == x.path + (BigEndian(x.size, 8) + a);
    assert text[1..9] == front[1..];
  }

  lemma ItemIsPrefixFree(x: Item, y: Item, a: Bytes, b: Bytes)
    requires ItemBytes(x) + a == ItemBytes(y) + b
    requires |x.path| <= U64_MAX && x.size <= U64_MAX && |y.path| <= U64_MAX && y.size <= U64_MAX
    ensures x == y && a == b
  {
    hide BigEndian, Pow256, ItemBytes;
    ItemLayout(x, a);
    ItemLayout(y, b);
    EightBytes();
    BigEndianInjective(|x.path|, |y.path|, 8);
    BigEndianInjective(x.size, y.size, 8);
  }

  lemma {:induction false} ItemsDecodable(xs: seq<Item>, ys: seq<Item>)
    requires Sized(xs) && Sized(ys) && ItemsBytes(xs) == ItemsBytes(ys)
    ensures xs == ys
  {
    if xs != [] && ys != [] {
      ItemIsPrefixFree(xs[0], ys[0], ItemsBytes(xs[1..]), ItemsBytes(ys[1..]));
      ItemsDecodable(xs[1..], ys[1..]);
      assert xs == [xs[0]] + xs[1..] && ys == [ys[0]] + ys[1..];
    }
  }

  lemma FirstNul(a: Bytes, u: Bytes, b: Bytes, v: Bytes)
    requires a + [0] + u == b + [0] + v && 0 !in a && 0 !in b
    ensures a == b && u == v
  {
    var text := a + [0] + u;
    assert text[|a|] == 0 && text[|b|] == 0;
    assert forall i :: 0 <= i < |a| ==> text[i] == a[i] && text[i] in a;
    assert forall i :: 0 <= i < |b| ==> text[i] == b[i] && text[i] in b;
    assert a == text[..|a|] && b == text[..|b|];
    assert u == text[|a| + 1..] && v == text[|b| + 1..];
  }

  /** The hashed bytes can be read back in one way only. */
  lemma InventoryDecodable(r1: Bytes, xs: seq<Item>, r2: Bytes, ys: seq<Item>)
    requires 0 !in r1 && 0 !in r2 && Sized(xs) && Sized(ys)
    requires InventoryBytes(r1, xs) == InventoryBytes(r2, ys)
    ensures r1 == r2 && xs == ys
  {
    hide ItemsBytes, Sized;
    var a, b := r1 + [0] + ItemsBytes(xs), r2 + [0] + ItemsBytes(ys);
    assert InventoryBytes(r1, xs) == LABEL + a && InventoryBytes(r2, ys) == LABEL + b;
    assert a == (LABEL + a)[|LABEL|..] && b == (LABEL + b)[|LABEL|..];
    FirstNul(r1, ItemsBytes(xs), r2, ItemsBytes(ys));
    ItemsDecodable(xs, ys);
  }

  // ---- Scanning ----

  /** `objects` */
  const OBJECTS: Bytes := [111, 98, 106, 101, 99, 116, 115]

  predicate CountsAsObjects(root: Bytes) {
    root == OBJECTS || OBJECTS + [SLASH] <= root
  }

  ghost predicate Scannable(t: Tree) {
    [] in t && t[[]].Directory? && forall p <- t :: p != [] ==> t[p].Plain()
  }

  /** What a scan of the whole tree amounts to; nothing when the tree holds anything but well-named files
      and directories or its totals do not fit 64 bits. */
  ghost function Scan(t: Tree, root: Bytes): Option<Evidence> {
    var items := InventoryOf(t);
    if !Scannable(t) || Files(items) > U64_MAX || TotalSize(items) > U64_MAX then None
    else Some(Evidence(Files(items), if CountsAsObjects(root) then Files(items) else 0, TotalSize(items),
                       Hash(InventoryBytes(root, items))))
  }

  /** The part of a tree that an inventory records. */
  ghost function Shape(t: Tree): map<Path, (bool, nat)> {
    map p | p in t && p != [] :: (t[p].Directory?, t[p].Size())
  }

  lemma InventorySized(t: Tree)
    requires WellFormed(t)
    ensures Sized(InventoryOf(t))
  {
    var items := InventoryOf(t);
    forall x | x in items ensures |x.path| <= U64_MAX && x.size <= U64_MAX {
      var p :| p in t && p != [] && x == ItemOf(t, p);
    }
  }

  lemma ShapeDeterminesInventory(t: Tree, u: Tree)
    requires Shape(t) == Shape(u)
    ensures InventoryOf(t) == InventoryOf(u)
  {
    var a, b := InventoryOf(t), InventoryOf(u);
    SameItems(t, u);
    SameItems(u, t);
    SortedIsUnique(a, b);
  }

  lemma SameItems(t: Tree, u: Tree)
    requires Shape(t) == Shape(u)
    ensures Within(InventoryOf(t), InventoryOf(u))
  {
    forall x | x in InventoryOf(t) ensures x in InventoryOf(u) {
      var p :| p in t && p != [] && x == ItemOf(t, p);
      assert p in Shape(t) && p in Shape(u) && Shape(t)[p] == Shape(u)[p];
      assert x == ItemOf(u, p);
    }
  }

  lemma InventoryDeterminesPart(t: Tree, u: Tree, p: Path)
    requires InventoryOf(t) == InventoryOf(u) && p in Shape(t)
    ensures p in Shape(u) && Shape(u)[p] == Shape(t)[p]
  {
    assert ItemOf(t, p) in InventoryOf(u);
    var q :| q in u && q != [] && ItemOf(t, p) == ItemOf(u, q);
    JoinInjective(p, q);
  }

  /** Two successful scans report the same digest exactly when they looked at the same root and
      found the same paths, with the same kinds and sizes. */
  lemma EqualDigestsMeanEqualInventories(t: Tree, r1: Bytes, u: Tree, r2: Bytes)
    requires WellFormed(t) && WellFormed(u) && 0 !in r1 && 0 !in r2
    requires Scan(t, r1).Some? && Scan(u, r2).Some?
    ensures Scan(t, r1).value.digest == Scan(u, r2).value.digest <==> r1 == r2 && Shape(t) == Shape(u)
  {
    hide InventoryBytes, Hash, InventoryOf, Files, TotalSize, WellFormed, IsInventory, Sized;
    var a, b := InventoryOf(t), InventoryOf(u);
    if Scan(t, r1).value.digest == Scan(u, r2).value.digest {
      HashInjective(InventoryBytes(r1, a), InventoryBytes(r2, b));
      InventorySized(t);
      InventorySized(u);
      InventoryDecodable(r1, a, r2, b);
      forall p: Path ensures p in Shape(t) <==> p in Shape(u) {
        if p in Shape(t) {
          InventoryDeterminesPart(t, u, p);
        } else if p in Shape(u) {
          InventoryDeterminesPart(u, t, p);
        }
      }
      forall p: Path | p in Shape(t) ensures Shape(u)[p] == Shape(t)[p] {
        InventoryDeterminesPart(t, u, p);
      }
    }
    if r1 == r2 && Shape(t) == Shape(u) {
      ShapeDeterminesInventory(t, u);
    }
  }
}
