/**
 * The levels of a B+ tree (Data_structures/B+Tree.cpp) as rows, leaves first: what search,
 * insertion and splitting do to them.
 */
module BPlusRows {

  class BPNode {
    ghost const lvl: nat
    var isLeaf: bool
    var keys: seq<int>
    var vnode: seq<BPNode?>
    var next: BPNode?
    var parent: BPNode?

    constructor (isLeaf: bool, ghost lvl: nat)
      ensures this.isLeaf == isLeaf && this.lvl == lvl && keys == [] && vnode == [] && next == null && parent == null
    {
      this.isLeaf, this.lvl, keys, vnode, next, parent := isLeaf, lvl, [], [], null, null;
    }
  }

  // a node with its keys and children, and the key that bounds it from the left
  datatype Cell = Cell(nd: BPNode, keys: seq<int>, kids: seq<BPNode>, low: int)

  type Mark = (BPNode, int)

  type Row = seq<Cell>

  type Grid = seq<Row>

  ghost predicate Ascending(s: seq<int>) {
    forall i, j :: 0 <= i < j < |s| ==> s[i] < s[j]
  }

  ghost predicate Below(s: seq<int>, k: int) {
    forall i :: 0 <= i < |s| ==> s[i] < k
  }

  ghost predicate Above(k: int, s: seq<int>) {
    forall i :: 0 <= i < |s| ==> k <= s[i]
  }

  // ---------- rows over rows ----------

  // the children of a cell, each with the key that bounds it from the left
  ghost function Own(c: Cell): (r: seq<Mark>)
    ensures |r| == |c.kids|
  {
    seq(|c.kids|, j requires 0 <= j < |c.kids| => (c.kids[j], if 0 < j <= |c.keys| then c.keys[j - 1] else c.low))
  }

  ghost function Expand(row: Row): seq<Mark> {
    if row == [] then [] else Expand(row[..|row| - 1]) + Own(row[|row| - 1])
  }

  ghost function Marks(row: Row): (r: seq<Mark>)
    ensures |r| == |row| && forall i :: 0 <= i < |row| ==> r[i] == (row[i].nd, row[i].low)
  {
    seq(|row|, i requires 0 <= i < |row| => (row[i].nd, row[i].low))
  }

  ghost function Flat(row: Row): seq<int> {
    if row == [] then [] else Flat(row[..|row| - 1]) + row[|row| - 1].keys
  }

  lemma {:induction false} Associate<T>(a: seq<T>, b: seq<T>, c: seq<T>)
    ensures a + (b + c) == (a + b) + c
  {
  }

  lemma {:induction false} ExpandAppend(a: Row, b: Row)
    ensures Expand(a + b) == Expand(a) + Expand(b)
    decreases |b|
  {
    if b == [] {
      assert a + b == a;
    } else {
      var n := |b| - 1;
      ExpandAppend(a, b[..n]);
      assert (a + b)[..|a + b| - 1] == a + b[..n] && (a + b)[|a + b| - 1] == b[n];
      Associate(Expand(a), Expand(b[..n]), Own(b[n]));
    }
  }

  lemma {:induction false} FlatAppend(a: Row, b: Row)
    ensures Flat(a + b) == Flat(a) + Flat(b)
    decreases |b|
  {
    if b == [] {
      assert a + b == a;
    } else {
      var n := |b| - 1;
      FlatAppend(a, b[..n]);
      assert (a + b)[..|a + b| - 1] == a + b[..n] && (a + b)[|a + b| - 1] == b[n];
      Associate(Flat(a), Flat(b[..n]), b[n].keys);
    }
  }

  // the row with a stretch in the place of cell i
  ghost function Put(row: Row, i: nat, mid: Row): (r: Row)
    requires i < |row|
    ensures |r| == |row| - 1 + |mid|
  {
    row[..i] + mid + row[i + 1..]
  }

  lemma {:induction false} ExpandPut(row: Row, i: nat, mid: Row)
    requires i < |row|
    ensures Expand(Put(row, i, mid)) == Expand(row[..i]) + Expand(mid) + Expand(row[i + 1..])
  {
    ExpandAppend(row[..i] + mid, row[i + 1..]);
    ExpandAppend(row[..i], mid);
  }

  lemma {:induction false} FlatPut(row: Row, i: nat, mid: Row)
    requires i < |row|
    ensures Flat(Put(row, i, mid)) == Flat(row[..i]) + Flat(mid) + Flat(row[i + 1..])
  {
    FlatAppend(row[..i] + mid, row[i + 1..]);
    FlatAppend(row[..i], mid);
  }

  lemma {:induction false} PutSame(row: Row, i: nat)
    requires i < |row|
    ensures Put(row, i, [row[i]]) == row
  {
  }

  lemma {:induction false} OneCell(c: Cell)
    ensures Expand([c]) == Own(c) && Flat([c]) == c.keys
  {
    assert [c][..0] == [];
  }

  lemma {:induction false} ExpandAt(row: Row, i: nat)
    requires i < |row|
    ensures Expand(row) == Expand(row[..i]) + Own(row[i]) + Expand(row[i + 1..])
  {
    PutSame(row, i);
    ExpandPut(row, i, [row[i]]);
    OneCell(row[i]);
  }

  lemma {:induction false} FlatAt(row: Row, i: nat)
    requires i < |row|
    ensures Flat(row) == Flat(row[..i]) + row[i].keys + Flat(row[i + 1..])
  {
    PutSame(row, i);
    FlatPut(row, i, [row[i]]);
    OneCell(row[i]);
  }

  // ---------- what a row is ----------

  ghost predicate Rising(row: Row) {
    forall i, j :: 0 < i < j < |row| ==> row[i].low < row[j].low
  }

  // the keys of a leaf lie between its bound and the next one's
  ghost predicate LeafAt(row: Row, i: nat)
    requires i < |row|
  {
    row[i].kids == [] && row[i].keys != [] && Ascending(row[i].keys)
    && (i > 0 ==> row[i].low <= row[i].keys[0])
    && (i + 1 < |row| ==> row[i].keys[|row[i].keys| - 1] < row[i + 1].low)
  }

  ghost predicate LeafRow(row: Row) {
    forall i :: 0 <= i < |row| ==> LeafAt(row, i)
  }

  ghost predicate InnerAt(c: Cell) {
    c.keys != [] && |c.kids| == |c.keys| + 1
  }

  ghost predicate InnerRow(row: Row) {
    forall i :: 0 <= i < |row| ==> InnerAt(row[i])
  }

  // the nodes of level l, none twice
  ghost predicate Tagged(row: Row, l: nat) {
    (forall i :: 0 <= i < |row| ==> row[i].nd.lvl == l)
    && forall i, j :: 0 <= i < j < |row| ==> row[i].nd != row[j].nd
  }

  ghost predicate Level(row: Row, l: nat) {
    row != [] && Rising(row) && Tagged(row, l) && if l == 0 then LeafRow(row) else InnerRow(row)
  }

  ghost predicate Over(lower: Row, upper: Row) {
    Marks(lower) == Expand(upper)
  }

  // the levels of a tree; the link below level skip is left open, 0 for none
  ghost predicate Linked(g: Grid, skip: nat) {
    g != [] && (forall l :: 0 <= l < |g| ==> Level(g[l], l))
    && forall l, m :: 0 <= l && m == l + 1 && m < |g| && m != skip ==> Over(g[l], g[m])
  }

  ghost predicate Fits(g: Grid, order: nat) {
    forall l, i :: 0 <= l < |g| && 0 <= i < |g[l]| ==> |g[l][i].keys| <= order
  }

  ghost predicate Shape(g: Grid, order: nat) {
    Linked(g, 0) && Fits(g, order) && |g[|g| - 1]| == 1
  }

  // ---------- search ----------

  // the key belongs below cell i
  ghost predicate Within(row: Row, i: nat, k: int) {
    i < |row| && (i > 0 ==> row[i].low <= k) && (i + 1 < |row| ==> k < row[i + 1].low)
  }

  // where the children of cell i begin in the row below
  ghost function Offset(row: Row, i: nat): nat
    requires i <= |row|
  {
    |Expand(row[..i])|
  }

  lemma {:induction false} KidPlace(lower: Row, upper: Row, i: nat, j: nat)
    requires Over(lower, upper) && i < |upper| && j < |upper[i].kids|
    ensures Offset(upper, i) + j < |lower|
    ensures (lower[Offset(upper, i) + j].nd, lower[Offset(upper, i) + j].low) == Own(upper[i])[j]
  {
    ExpandAt(upper, i);
    assert Marks(lower)[Offset(upper, i) + j] == Own(upper[i])[j];
  }

  // what bounds a child from the right
  lemma {:induction false} KidRight(lower: Row, upper: Row, i: nat, j: nat)
    requires Over(lower, upper) && InnerRow(upper) && i < |upper| && j <= |upper[i].keys|
    ensures var p := Offset(upper, i) + j;
      p < |lower| && (p + 1 < |lower| <==> j < |upper[i].keys| || i + 1 < |upper|)
      && (p + 1 < |lower| ==> lower[p + 1].low == if j < |upper[i].keys| then upper[i].keys[j] else upper[i + 1].low)
  {
    KidPlace(lower, upper, i, j);
    ExpandAt(upper, i);
    if j < |upper[i].keys| {
      KidPlace(lower, upper, i, j + 1);
    } else if i + 1 < |upper| {
      KidPlace(lower, upper, i + 1, 0);
      OffsetNext(upper, i);
    } else {
      assert upper[i + 1..] == [];
    }
  }

  lemma {:induction false} OffsetNext(row: Row, i: nat)
    requires i < |row|
    ensures Offset(row, i + 1) == Offset(row, i) + |row[i].kids|
  {
    assert row[..i + 1][..i] == row[..i] && row[..i + 1][i] == row[i];
  }

  // one step down
  lemma {:induction false} Descend(lower: Row, upper: Row, i: nat, j: nat, k: int)
    requires Over(lower, upper) && InnerRow(upper) && Within(upper, i, k) && j <= |upper[i].keys|
    requires j > 0 ==> upper[i].keys[j - 1] <= k
    requires j < |upper[i].keys| ==> k < upper[i].keys[j]
    ensures Within(lower, Offset(upper, i) + j, k) && lower[Offset(upper, i) + j].nd == upper[i].kids[j]
  {
    KidPlace(lower, upper, i, j);
    KidRight(lower, upper, i, j);
    if j == 0 && Offset(upper, i) > 0 {
      assert i > 0 by { assert upper[..0] == []; }
    }
  }

  // the cell and the place in it of a node one level below
  lemma {:induction false} Locate(upper: Row, p: nat) returns (i: nat, j: nat)
    requires p < |Expand(upper)|
    ensures i < |upper| && j < |upper[i].kids| && Offset(upper, i) + j == p
    decreases |upper|
  {
    var n := |upper| - 1;
    assert upper[..n + 1] == upper;
    if p < Offset(upper, n) {
      i, j := Locate(upper[..n], p);
      assert upper[..n][..i] == upper[..i];
    } else {
      i, j := n, p - Offset(upper, n);
    }
  }

  // the keys of the leaves before and from a leaf on
  lemma {:induction false} BelowLow(row: Row, i: nat)
    requires LeafRow(row) && Rising(row) && 0 < i < |row|
    ensures Below(Flat(row[..i]), row[i].low)
    decreases i
  {
    assert row[..i][..i - 1] == row[..i - 1] && row[..i][i - 1] == row[i - 1];
    assert LeafAt(row, i - 1);
    if i > 1 { BelowLow(row, i - 1); }
  }

  lemma {:induction false} AboveLow(row: Row, i: nat)
    requires LeafRow(row) && Rising(row) && 0 < i < |row|
    ensures Above(row[i].low, Flat(row[i..]))
    decreases |row| - i
  {
    var low, rest := row[i].low, row[i + 1..];
    FlatAppend([row[i]], rest);
    assert row[i..] == [row[i]] + rest;
    OneCell(row[i]);
    assert LeafAt(row, i);
    if i + 1 < |row| {
      AboveLow(row, i + 1);
      AboveLess(low, row[i + 1].low, Flat(rest));
    }
    AboveJoin(low, row[i].keys, Flat(rest));
  }

  lemma {:induction false} AboveLess(k: int, m: int, s: seq<int>)
    requires Above(m, s) && k <= m
    ensures Above(k, s)
  {
  }

  lemma {:induction false} AboveJoin(k: int, a: seq<int>, b: seq<int>)
    requires Above(k, a) && Above(k, b)
    ensures Above(k, a + b)
  {
  }

  lemma {:induction false} FlatAscending(row: Row, n: nat)
    requires LeafRow(row) && Rising(row) && n <= |row|
    ensures Ascending(Flat(row[..n]))
    decreases n
  {
    if n > 0 {
      FlatAscending(row, n - 1);
      assert row[..n][..n - 1] == row[..n - 1] && row[..n][n - 1] == row[n - 1];
      assert LeafAt(row, n - 1);
      if n > 1 { BelowLow(row, n - 1); }
      AscendingJoin(Flat(row[..n - 1]), row[n - 1].keys);
    }
  }

  // a key is in the leaf it belongs to, or nowhere
  lemma {:induction false} OnlyHere(row: Row, i: nat, k: int)
    requires LeafRow(row) && Rising(row) && Within(row, i, k)
    ensures k in Flat(row) <==> k in row[i].keys
    ensures Ascending(Flat(row)) && Below(Flat(row[..i]), k) && Above(k + 1, Flat(row[i + 1..]))
    ensures Flat(row) == Flat(row[..i]) + row[i].keys + Flat(row[i + 1..])
  {
    FlatAt(row, i);
    FlatAscending(row, |row|);
    assert row[..|row|] == row;
    if i > 0 { BelowLow(row, i); }
    if i + 1 < |row| { AboveLow(row, i + 1); }
  }

  lemma {:induction false} AscendingJoin(a: seq<int>, b: seq<int>)
    requires Ascending(a) && Ascending(b) && (a != [] && b != [] ==> a[|a| - 1] < b[0])
    ensures Ascending(a + b)
  {
  }
}
