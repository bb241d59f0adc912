/**
 * The steps of an insertion into a B+ tree (Data_structures/B+Tree.cpp) on its rows: a node gets
 * a key, or a key and a child, and may split, which leaves its parent to be mended.
 */
module BPlusSteps {
  import opened BPlusRows

  // ---------- places ----------

  // a key's place among keys it is not one of
  ghost predicate Fitting(keys: seq<int>, j: nat, k: int) {
    j <= |keys| && (j > 0 ==> keys[j - 1] < k) && (j < |keys| ==> k < keys[j])
  }

  function Insert<T>(s: seq<T>, j: nat, x: T): (r: seq<T>) {
    if j <= |s| then s[..j] + [x] + s[j..] else s + [x]
  }

  lemma {:induction false} InsertAscending(keys: seq<int>, j: nat, k: int)
    requires Ascending(keys) && Fitting(keys, j, k)
    ensures Ascending(Insert(keys, j, k))
  {
  }

  // ---------- cells ----------

  ghost function Keyed(c: Cell, j: nat, k: int): Cell {
    c.(keys := Insert(c.keys, j, k))
  }

  ghost function Wider(c: Cell, j: nat, k: int, r: BPNode): Cell {
    c.(keys := Insert(c.keys, j, k), kids := Insert(c.kids, j + 1, r))
  }

  ghost function LeftPart(c: Cell): Cell {
    var m := |c.keys| / 2;
    c.(keys := c.keys[..m], kids := if m < |c.kids| then c.kids[..m + 1] else [])
  }

  // a leaf keeps the middle key in its right part, an inner node gives it up
  ghost function RightPart(c: Cell, n: BPNode): Cell {
    var m := |c.keys| / 2;
    if m >= |c.keys| then c
    else if m < |c.kids| then Cell(n, c.keys[m + 1..], c.kids[m + 1..], c.keys[m])
    else Cell(n, c.keys[m..], [], c.keys[m])
  }

  ghost function Parts(c: Cell, n: BPNode): Row {
    [LeftPart(c), RightPart(c, n)]
  }

  lemma {:induction false} OwnWider(c: Cell, j: nat, k: int, r: BPNode)
    requires InnerAt(c) && j <= |c.keys|
    ensures Own(Wider(c, j, k, r)) == Insert(Own(c), j + 1, (r, k))
  {
  }

  lemma {:induction false} OwnParts(c: Cell, n: BPNode)
    requires InnerAt(c) && |c.keys| >= 2
    ensures Own(LeftPart(c)) + Own(RightPart(c, n)) == Own(c)
  {
  }

  // ---------- rows ----------

  // the keys of an inner node bound its children, so they rise with the row below
  lemma {:induction false} KeyLow(lower: Row, upper: Row, i: nat, j: nat)
    requires Over(lower, upper) && InnerRow(upper) && Rising(lower) && i < |upper| && j < |upper[i].keys|
    ensures j > 0 ==> upper[i].keys[j - 1] < upper[i].keys[j]
    ensures i > 0 ==> upper[i].low < upper[i].keys[j]
    ensures i + 1 < |upper| ==> upper[i].keys[j] < upper[i + 1].low
  {
    KidPlace(lower, upper, i, j + 1);
    KidPlace(lower, upper, i, j);
    KidPlace(lower, upper, i, 0);
    KidRight(lower, upper, i, |upper[i].keys|);
    if i > 0 { OffsetNext(upper, i - 1); }
  }

  lemma {:induction false} KeysRise(lower: Row, upper: Row, i: nat)
    requires Over(lower, upper) && InnerRow(upper) && Rising(lower) && i < |upper|
    ensures Ascending(upper[i].keys)
  {
    forall a, b | 0 <= a < b < |upper[i].keys| ensures upper[i].keys[a] < upper[i].keys[b] {
      KidPlace(lower, upper, i, a + 1);
      KidPlace(lower, upper, i, b + 1);
    }
  }

  lemma {:induction false} PutAt(row: Row, i: nat, mid: Row, a: nat)
    requires i < |row| && a < |Put(row, i, mid)|
    ensures Put(row, i, mid)[a]
         == if a < i then row[a] else if a < i + |mid| then mid[a - i] else row[a - |mid| + 1]
  {
  }

  lemma {:induction false} MarksOne(row: Row, i: nat, c: Cell)
    requires i < |row| && c.nd == row[i].nd && c.low == row[i].low
    ensures Marks(Put(row, i, [c])) == Marks(row)
  {
    forall a | 0 <= a < |row| ensures Marks(Put(row, i, [c]))[a] == Marks(row)[a] { PutAt(row, i, [c], a); }
  }

  // the row with another bound in one place more
  lemma {:induction false} MarksTwo(row: Row, i: nat, c: Cell, d: Cell)
    requires i < |row| && c.nd == row[i].nd && c.low == row[i].low
    ensures Marks(Put(row, i, [c, d])) == Insert(Marks(row), i + 1, (d.nd, d.low))
  {
    forall a | 0 <= a <= |row|
      ensures Marks(Put(row, i, [c, d]))[a] == Insert(Marks(row), i + 1, (d.nd, d.low))[a]
    {
      PutAt(row, i, [c, d], a);
    }
  }

  lemma {:induction false} RisingOne(row: Row, i: nat, c: Cell)
    requires Rising(row) && i < |row| && c.low == row[i].low
    ensures Rising(Put(row, i, [c]))
  {
    forall a, b | 0 < a < b < |row| ensures Put(row, i, [c])[a].low < Put(row, i, [c])[b].low {
      PutAt(row, i, [c], a);
      PutAt(row, i, [c], b);
    }
  }

  // a bound between its neighbours
  ghost predicate Between(row: Row, i: nat, s: int)
    requires i < |row|
  {
    (i > 0 ==> row[i].low < s) && (i + 1 < |row| ==> s < row[i + 1].low)
  }

  lemma {:induction false} RisingTwo(row: Row, i: nat, c: Cell, d: Cell)
    requires Rising(row) && i < |row| && c.low == row[i].low && Between(row, i, d.low)
    ensures Rising(Put(row, i, [c, d]))
  {
    var r := Put(row, i, [c, d]);
    forall a, b | 0 < a < b < |r| ensures r[a].low < r[b].low {
      PutAt(row, i, [c, d], a);
      PutAt(row, i, [c, d], b);
      assert i > 0 && a < i ==> row[a].low < row[i].low;
      assert i + 1 < |row| && b > i + 2 ==> row[i + 1].low < row[b - 1].low;
    }
  }

  ghost predicate Absent(row: Row, n: BPNode) {
    forall a :: 0 <= a < |row| ==> row[a].nd != n
  }

  lemma {:induction false} TaggedOne(row: Row, i: nat, c: Cell, l: nat)
    requires Tagged(row, l) && i < |row| && c.nd == row[i].nd
    ensures Tagged(Put(row, i, [c]), l)
  {
    var r := Put(row, i, [c]);
    forall a | 0 <= a < |row| ensures r[a].nd == row[a].nd { PutAt(row, i, [c], a); }
  }

  lemma {:induction false} TaggedTwo(row: Row, i: nat, c: Cell, d: Cell, l: nat)
    requires Tagged(row, l) && i < |row| && c.nd == row[i].nd && d.nd.lvl == l && Absent(row, d.nd)
    ensures Tagged(Put(row, i, [c, d]), l)
  {
    var r := Put(row, i, [c, d]);
    forall a | 0 <= a < |r|
      ensures r[a].nd == if a <= i then row[a].nd else if a == i + 1 then d.nd else row[a - 1].nd
    {
      PutAt(row, i, [c, d], a);
    }
  }

  // ---------- a leaf ----------

  ghost function KeyedRow(row: Row, i: nat, j: nat, k: int): Row
    requires i < |row|
  {
    Put(row, i, [Keyed(row[i], j, k)])
  }

  ghost function SplitRow(row: Row, i: nat, n: BPNode): Row
    requires i < |row|
  {
    Put(row, i, Parts(row[i], n))
  }

  ghost function WiderRow(row: Row, i: nat, j: nat, k: int, n: BPNode): Row
    requires i < |row|
  {
    Put(row, i, [Wider(row[i], j, k, n)])
  }

  lemma {:induction false} LeafKeyed(row: Row, i: nat, j: nat, k: int)
    requires Level(row, 0) && Within(row, i, k) && Fitting(row[i].keys, j, k)
    ensures Level(KeyedRow(row, i, j, k), 0) && Marks(KeyedRow(row, i, j, k)) == Marks(row)
  {
    var c := Keyed(row[i], j, k);
    assert LeafAt(row, i);
    InsertAscending(row[i].keys, j, k);
    MarksOne(row, i, c);
    RisingOne(row, i, c);
    TaggedOne(row, i, c, 0);
    forall a | 0 <= a < |row| ensures LeafAt(KeyedRow(row, i, j, k), a) { LeafKeyedAt(row, i, j, k, a); }
  }

  lemma {:induction false} LeafKeyedAt(row: Row, i: nat, j: nat, k: int, a: nat)
    requires LeafRow(row) && Within(row, i, k) && Fitting(row[i].keys, j, k) && a < |row|
    ensures LeafAt(KeyedRow(row, i, j, k), a)
  {
    var c := Keyed(row[i], j, k);
    assert LeafAt(row, a);
    PutAt(row, i, [c], a);
    if a + 1 < |row| { PutAt(row, i, [c], a + 1); }
    if a == i { KeysKeyed(row[i].keys, j, k); }
  }

  lemma {:induction false} KeysKeyed(keys: seq<int>, j: nat, k: int)
    requires keys != [] && Ascending(keys) && Fitting(keys, j, k)
    ensures var r := Insert(keys, j, k);
      r != [] && Ascending(r) && (r[0] == k || r[0] == keys[0])
      && (r[|r| - 1] == k || r[|r| - 1] == keys[|keys| - 1])
  {
    InsertAscending(keys, j, k);
    InsertEnds(keys, j, k);
  }

  lemma {:induction false} InsertEnds(keys: seq<int>, j: nat, k: int)
    requires keys != [] && j <= |keys|
    ensures var r := Insert(keys, j, k);
      |r| == |keys| + 1 && r[0] == (if j == 0 then k else keys[0])
      && r[|r| - 1] == if j == |keys| then k else keys[|keys| - 1]
  {
  }

  lemma {:induction false} LeafKeyedFlat(row: Row, i: nat, j: nat, k: int)
    requires i < |row| && j <= |row[i].keys|
    ensures Flat(KeyedRow(row, i, j, k)) == Insert(Flat(row), |Flat(row[..i])| + j, k)
  {
    var c := Keyed(row[i], j, k);
    FlatAt(row, i);
    FlatPut(row, i, [c]);
    OneCell(c);
    InsertInside(Flat(row[..i]), row[i].keys, Flat(row[i + 1..]), j, k);
  }

  lemma {:induction false} InsertInside(a: seq<int>, m: seq<int>, b: seq<int>, j: nat, k: int)
    requires j <= |m|
    ensures a + Insert(m, j, k) + b == Insert(a + m + b, |a| + j, k)
  {
    assert (a + m + b)[..|a| + j] == a + m[..j] && (a + m + b)[|a| + j..] == m[j..] + b;
  }

  lemma {:induction false} LeafSplit(row: Row, i: nat, n: BPNode)
    requires Level(row, 0) && i < |row| && |row[i].keys| >= 2 && n.lvl == 0 && Absent(row, n)
    ensures Level(SplitRow(row, i, n), 0) && Between(row, i, RightPart(row[i], n).low)
    ensures Marks(SplitRow(row, i, n)) == Insert(Marks(row), i + 1, (n, RightPart(row[i], n).low))
  {
    var c, d := LeftPart(row[i]), RightPart(row[i], n);
    assert LeafAt(row, i);
    RisingTwo(row, i, c, d);
    TaggedTwo(row, i, c, d, 0);
    MarksTwo(row, i, c, d);
    forall a | 0 <= a <= |row| ensures LeafAt(SplitRow(row, i, n), a) { LeafParts(row, i, n, a); }
  }

  lemma {:induction false} LeafParts(row: Row, i: nat, n: BPNode, a: nat)
    requires LeafRow(row) && i < |row| && |row[i].keys| >= 2 && a <= |row|
    ensures LeafAt(SplitRow(row, i, n), a)
  {
    assert LeafAt(row, i);
    PutAt(row, i, Parts(row[i], n), a);
    if a < |row| { PutAt(row, i, Parts(row[i], n), a + 1); }
    if a < i { assert LeafAt(row, a); }
    if a > i + 1 { assert LeafAt(row, a - 1); }
  }

  lemma {:induction false} LeafSplitFlat(row: Row, i: nat, n: BPNode)
    requires i < |row| && row[i].kids == [] && |row[i].keys| >= 2
    ensures Flat(SplitRow(row, i, n)) == Flat(row)
  {
    var c, d := LeftPart(row[i]), RightPart(row[i], n);
    FlatAt(row, i);
    FlatPut(row, i, [c, d]);
    assert [c, d][..1] == [c];
    OneCell(c);
    assert row[i].keys == c.keys + d.keys;
  }

  // ---------- an inner node ----------

  lemma {:induction false} InnerWider(row: Row, i: nat, j: nat, k: int, n: BPNode, l: nat)
    requires Level(row, l) && l > 0 && i < |row| && j <= |row[i].keys|
    ensures Level(WiderRow(row, i, j, k, n), l) && Marks(WiderRow(row, i, j, k, n)) == Marks(row)
  {
    var c := Wider(row[i], j, k, n);
    assert InnerAt(row[i]);
    MarksOne(row, i, c);
    RisingOne(row, i, c);
    TaggedOne(row, i, c, l);
    forall a | 0 <= a < |row| ensures InnerAt(WiderRow(row, i, j, k, n)[a]) {
      assert InnerAt(row[a]);
      PutAt(row, i, [c], a);
    }
  }

  lemma {:induction false} ExpandOne(row: Row, i: nat, c: Cell)
    requires i < |row|
    ensures Expand(Put(row, i, [c])) == Expand(row[..i]) + Own(c) + Expand(row[i + 1..])
  {
    ExpandPut(row, i, [c]);
    OneCell(c);
  }

  lemma {:induction false} InnerWiderExpand(row: Row, i: nat, j: nat, k: int, n: BPNode)
    requires i < |row| && InnerAt(row[i]) && j <= |row[i].keys|
    ensures Expand(WiderRow(row, i, j, k, n)) == Insert(Expand(row), Offset(row, i) + j + 1, (n, k))
  {
    ExpandAt(row, i);
    ExpandOne(row, i, Wider(row[i], j, k, n));
    OwnWider(row[i], j, k, n);
    InsertMarks(Expand(row[..i]), Own(row[i]), Expand(row[i + 1..]), j + 1, (n, k));
  }

  lemma {:induction false} InsertMarks(a: seq<Mark>, m: seq<Mark>, b: seq<Mark>, j: nat, x: Mark)
    requires j <= |m|
    ensures a + Insert(m, j, x) + b == Insert(a + m + b, |a| + j, x)
  {
    assert (a + m + b)[..|a| + j] == a + m[..j] && (a + m + b)[|a| + j..] == m[j..] + b;
  }

  lemma {:induction false} InnerSplit(lower: Row, row: Row, i: nat, n: BPNode, l: nat)
    requires Level(row, l) && l > 0 && i < |row| && |row[i].keys| >= 3 && n.lvl == l && Absent(row, n)
    requires Over(lower, row) && Rising(lower)
    ensures Level(SplitRow(row, i, n), l) && Between(row, i, RightPart(row[i], n).low)
    ensures Marks(SplitRow(row, i, n)) == Insert(Marks(row), i + 1, (n, RightPart(row[i], n).low))
  {
    var c, d := LeftPart(row[i]), RightPart(row[i], n);
    assert InnerAt(row[i]);
    KeyLow(lower, row, i, |row[i].keys| / 2);
    RisingTwo(row, i, c, d);
    TaggedTwo(row, i, c, d, l);
    MarksTwo(row, i, c, d);
    forall a | 0 <= a <= |row| ensures InnerAt(SplitRow(row, i, n)[a]) {
      PutAt(row, i, [c, d], a);
      if a < i { assert InnerAt(row[a]); }
      if a > i + 1 { assert InnerAt(row[a - 1]); }
    }
  }

  lemma {:induction false} InnerSplitOver(lower: Row, row: Row, i: nat, n: BPNode)
    requires Over(lower, row) && i < |row| && InnerAt(row[i]) && |row[i].keys| >= 2
    ensures Over(lower, SplitRow(row, i, n))
  {
    var c, d := LeftPart(row[i]), RightPart(row[i], n);
    ExpandAt(row, i);
    ExpandPut(row, i, [c, d]);
    OwnParts(row[i], n);
    assert [c, d][..1] == [c];
    OneCell(c);
  }

  // ---------- the parent of a node that was split ----------

  // where the new node goes in the row above
  lemma {:induction false} ParentPlace(lower: Row, lower': Row, upper: Row, i: nat, s: int, n: BPNode)
    returns (a: nat, j: nat)
    requires Over(lower, upper) && InnerRow(upper) && i < |lower| && Rising(lower) && Between(lower, i, s)
    requires Marks(lower') == Insert(Marks(lower), i + 1, (n, s))
    ensures a < |upper| && Fitting(upper[a].keys, j, s) && Ascending(upper[a].keys)
    ensures j < |upper[a].kids| && upper[a].kids[j] == lower[i].nd
    ensures Over(lower', WiderRow(upper, a, j, s, n))
  {
    a, j := Locate(upper, i);
    assert InnerAt(upper[a]);
    KidPlace(lower, upper, a, j);
    KidRight(lower, upper, a, j);
    KeysRise(lower, upper, a);
    InnerWiderExpand(upper, a, j, s, n);
    KeyLowAt(lower, upper, a, j, i);
  }

  // what bounds a child from the left
  lemma {:induction false} KeyLowAt(lower: Row, upper: Row, a: nat, j: nat, i: nat)
    requires Over(lower, upper) && a < |upper| && InnerAt(upper[a]) && j < |upper[a].kids| && i == Offset(upper, a) + j
    ensures j > 0 ==> i > 0 && i < |lower| && lower[i].low == upper[a].keys[j - 1]
  {
    KidPlace(lower, upper, a, j);
  }

  // ---------- all levels ----------

  // a row changed, with the same bounds for the row above
  lemma {:induction false} LinkedRow(g: Grid, skip: nat, l: nat, row: Row)
    requires Linked(g, skip) && (skip == 0 || skip == l) && l < |g| && Level(row, l) && Marks(row) == Marks(g[l])
    requires l > 0 ==> Over(g[l - 1], row)
    ensures Linked(g[l := row], 0)
  {
    var r := g[l := row];
    forall a, b | 0 <= a && b == a + 1 && b < |r| ensures Over(r[a], r[b]) {
      if a != l && b != l { assert Over(g[a], g[b]); }
      if a == l { assert Over(g[a], g[b]); }
    }
  }

  // a row changed, and the row above has yet to follow
  lemma {:induction false} LinkedOpen(g: Grid, l: nat, row: Row)
    requires Linked(g, 0) && l < |g| && Level(row, l) && (l > 0 ==> Over(g[l - 1], row))
    ensures Linked(g[l := row], l + 1)
  {
    var r := g[l := row];
    forall a, b | 0 <= a && b == a + 1 && b < |r| && b != l + 1 ensures Over(r[a], r[b]) {
      if b != l { assert Over(g[a], g[b]); }
    }
  }

  // row l has yet to take the node n with the key s into cell i at place j
  ghost predicate Pending(g: Grid, l: nat, i: nat, j: nat, s: int, n: BPNode) {
    0 < l < |g| && Linked(g, l) && |g[|g| - 1]| == 1 && i < |g[l]|
    && Fitting(g[l][i].keys, j, s) && Ascending(g[l][i].keys) && Over(g[l - 1], WiderRow(g[l], i, j, s, n))
  }

  lemma {:induction false} Mended(g: Grid, l: nat, i: nat, j: nat, s: int, n: BPNode)
    requires Pending(g, l, i, j, s, n)
    ensures Linked(g[l := WiderRow(g[l], i, j, s, n)], 0)
  {
    assert Level(g[l], l);
    InnerWider(g[l], i, j, s, n, l);
    LinkedRow(g, l, l, WiderRow(g[l], i, j, s, n));
  }

  // after the split of cell i on level l the level above is to be mended
  lemma {:induction false} SplitOpens(g: Grid, l: nat, i: nat, n: BPNode) returns (a: nat, j: nat)
    requires Linked(g, 0) && l + 1 < |g| && |g[|g| - 1]| == 1 && i < |g[l]| && |g[l][i].keys| >= 3
    requires n.lvl == l && Absent(g[l], n)
    ensures var r := g[l := SplitRow(g[l], i, n)];
      Pending(r, l + 1, a, j, RightPart(g[l][i], n).low,
              n) && j < |g[l + 1][a].kids| && g[l + 1][a].kids[j] == g[l][i].nd
  {
    SplitLevel(g, l, i, n);
    assert Over(g[l], g[l + 1]) && Level(g[l + 1], l + 1) && Level(g[l], l);
    LinkedOpen(g, l, SplitRow(g[l], i, n));
    var row, s := SplitRow(g[l], i, n), RightPart(g[l][i], n).low;
    a, j := ParentPlace(g[l], row, g[l + 1], i, s, n);
    PendingAbove(g, l, row, a, j, s, n);
  }

  lemma {:induction false} PendingAbove(g: Grid, l: nat, row: Row, a: nat, j: nat, s: int, n: BPNode)
    requires l + 1 < |g| && Linked(g[l := row], l + 1) && |g[|g| - 1]| == 1 && a < |g[l + 1]|
    requires Fitting(g[l + 1][a].keys, j, s) && Ascending(g[l + 1][a].keys)
    requires Over(row, WiderRow(g[l + 1], a, j, s, n))
    ensures Pending(g[l := row], l + 1, a, j, s, n)
  {
  }

  lemma {:induction false} SplitLevel(g: Grid, l: nat, i: nat, n: BPNode)
    requires Linked(g, 0) && l < |g| && i < |g[l]| && |g[l][i].keys| >= 3
    requires n.lvl == l && Absent(g[l], n)
    ensures Level(SplitRow(g[l], i, n), l) && (l > 0 ==> Over(g[l - 1], SplitRow(g[l], i, n)))
    ensures Between(g[l], i, RightPart(g[l][i], n).low)
    ensures Marks(SplitRow(g[l], i, n)) == Insert(Marks(g[l]), i + 1, (n, RightPart(g[l][i], n).low))
  {
    assert Level(g[l], l);
    if l == 0 {
      LeafSplit(g[0], i, n);
    } else {
      assert Level(g[l - 1], l - 1) && Over(g[l - 1], g[l]) && InnerAt(g[l][i]);
      InnerSplit(g[l - 1], g[l], i, n, l);
      InnerSplitOver(g[l - 1], g[l], i, n);
    }
  }

  // a split root gets a new one over both halves
  lemma {:induction false} Crowned(g: Grid, n: BPNode, root: BPNode)
    requires Linked(g, 0) && |g[|g| - 1]| == 1 && |g[|g| - 1][0].keys| >= 3 && n.lvl == |g| - 1
    requires Absent(g[|g| - 1], n) && root.lvl == |g|
    ensures var l := |g| - 1;
      var s := RightPart(g[l][0], n).low;
      Linked(g[l := SplitRow(g[l], 0, n)] + [[Cell(root, [s], [g[l][0].nd, n], g[l][0].low)]], 0)
      && SplitRow(g[l], 0, n)[0].nd == g[l][0].nd && SplitRow(g[l], 0, n)[0].low == g[l][0].low
      && Linked(g[l := SplitRow(g[l], 0, n)], 0)
  {
    var l := |g| - 1;
    var s := RightPart(g[l][0], n).low;
    var row := SplitRow(g[l], 0, n);
    var c := Cell(root, [s], [g[l][0].nd, n], g[l][0].low);
    SplitLevel(g, l, 0, n);
    LinkedOpen(g, l, row);
    PutAt(g[l], 0, Parts(g[l][0], n), 0);
    OneCell(c);
    assert Marks(g[l]) == [(g[l][0].nd, g[l][0].low)];
    assert Over(row, [c]) by { assert Own(c) == [(g[l][0].nd, g[l][0].low), (n, s)]; }
    assert Level([c], l + 1) by { assert InnerAt(c); }
    LinkedMore(g[l := row], [c]);
  }

  lemma {:induction false} LinkedMore(g: Grid, row: Row)
    requires g != [] && Linked(g, |g|) && Level(row, |g|) && Over(g[|g| - 1], row)
    ensures Linked(g + [row], 0) && Linked(g, 0)
  {
    var r := g + [row];
    forall a, b | 0 <= a && b == a + 1 && b < |r| ensures Over(r[a], r[b]) {
      if b < |g| { assert Over(g[a], g[b]); }
    }
  }

  // ---------- sizes ----------

  ghost predicate Slim(row: Row, order: nat) {
    forall a :: 0 <= a < |row| ==> |row[a].keys| <= order
  }

  // all nodes fit but one, which has a key too many
  ghost predicate Crowded(g: Grid, order: nat, l: nat, i: nat) {
    g != [] && |g[|g| - 1]| == 1 && l < |g| && i < |g[l]| && |g[l][i].keys| == order + 1
    && (forall m :: 0 <= m < |g| && m != l ==> Slim(g[m], order))
    && forall a :: 0 <= a < |g[l]| && a != i ==> |g[l][a].keys| <= order
  }

  lemma {:induction false} CrowdedOne(g: Grid, order: nat, l: nat, i: nat, c: Cell)
    requires Fits(g, order) && g != [] && |g[|g| - 1]| == 1 && l < |g| && i < |g[l]| && |c.keys| == order + 1
    ensures Crowded(g[l := Put(g[l], i, [c])], order, l, i) && g[l := Put(g[l], i, [c])][l][i] == c
  {
    forall a | 0 <= a < |g[l]| ensures Put(g[l], i, [c])[a] == if a == i then c else g[l][a] { PutAt(g[l], i, [c], a); }
  }

  lemma {:induction false} CrowdedSplit(g: Grid, order: nat, l: nat, i: nat, n: BPNode)
    requires Crowded(g, order, l, i) && order >= 2
    ensures Fits(g[l := SplitRow(g[l], i, n)], order)
  {
    var r := g[l := SplitRow(g[l], i, n)];
    forall m | 0 <= m < |r| ensures Slim(r[m], order) {
      if m == l {
        forall a | 0 <= a < |r[l]| ensures |r[l][a].keys| <= order { PutAt(g[l], i, Parts(g[l][i], n), a); }
      }
    }
  }
}
