/**
 * `range_lookup` of Data_structures/B+Tree.cpp: along the leaf chain.
 */
module BPlusRange {
  import opened BPlusRows
  import opened BPlusHeap
  import opened BPlusSearch
  import opened BPlusSplits
  import opened BPlusTreeModel

  ghost function NodeAt(row: Row, m: nat): BPNode? {
    if m < |row| then row[m].nd else null
  }

  // the keys from place a to place e, those behind e and before top being too great
  ghost predicate Upto(s: seq<int>, top: nat, a: nat, e: nat, hi: int, res: seq<int>) {
    a <= e <= top <= |s| && res == s[a..e]
    && (forall i :: a <= i < e ==> s[i] <= hi) && (e < top ==> hi < s[e])
  }

  // before leaf m
  ghost predicate Walked(row: Row, m: nat, a: nat, e: nat, hi: int, res: seq<int>, x: BPNode?) {
    exists n: nat :: n == m && m <= |row| && x == NodeAt(row, n) && Upto(Flat(row), |Flat(row[..n])|, a, e, hi, res)
  }

  // the first keys, as long as they are not above hi
  method TakeUpTo(keys: seq<int>, hi: int) returns (c: nat)
    requires Ascending(keys)
    ensures c <= |keys| && (forall i :: 0 <= i < c ==> keys[i] <= hi) && (c < |keys| ==> hi < keys[c])
  {
    c := 0;
    for i := 0 to |keys|
      invariant c == i && forall x :: 0 <= x < i ==> keys[x] <= hi
    {
      if keys[i] > hi { return; }
      c := c + 1;
    }
  }

  lemma {:induction false} LeafPlace(row: Row, m: nat)
    requires LeafRow(row) && m < |row|
    ensures row[m].keys != [] && |Flat(row[..m + 1])| == |Flat(row[..m])| + |row[m].keys| <= |Flat(row)|
    ensures Flat(row)[|Flat(row[..m])|..|Flat(row[..m + 1])|] == row[m].keys
  {
    assert LeafAt(row, m);
    FlatAt(row, m);
    assert row[..m + 1][..m] == row[..m] && row[..m + 1][m] == row[m];
  }

  lemma {:induction false} NextLeaf(row: Row, m: nat, a: nat, e: nat, hi: int, res: seq<int>, x: BPNode?, c: nat)
    requires LeafRow(row) && Ascending(Flat(row)) && m < |row| && Walked(row, m, a, e, hi, res, x)
    requires row[m].keys != [] && row[m].keys[0] <= hi
    requires c <= |row[m].keys| && (forall i :: 0 <= i < c ==> row[m].keys[i] <= hi)
    requires c < |row[m].keys| ==> hi < row[m].keys[c]
    ensures Walked(row, m + 1, a, e + c, hi, res + row[m].keys[..c], NodeAt(row, m + 1))
  {
    LeafPlace(row, m);
    Extend(Flat(row), |Flat(row[..m])|, row[m].keys, a, e, hi, res, c);
  }

  lemma {:induction false} Extend(s: seq<int>, f: nat, keys: seq<int>, a: nat, e: nat, hi: int, res: seq<int>, c: nat)
    requires Ascending(s) && Upto(s, f, a, e, hi, res) && f + |keys| <= |s| && s[f..f + |keys|] == keys
    requires keys != [] && keys[0] <= hi
    requires c <= |keys| && (forall i :: 0 <= i < c ==> keys[i] <= hi) && (c < |keys| ==> hi < keys[c])
    ensures Upto(s, f + |keys|, a, e + c, hi, res + keys[..c])
  {
    StretchAt(s, f, keys);
    AtLeaf(s, e, f, hi);
    JoinStretch(s, a, f, keys, c);
    forall i | f <= i < f + c ensures s[i] <= hi { assert s[f + (i - f)] == keys[i - f]; }
  }

  lemma {:induction false} StretchAt(s: seq<int>, f: nat, keys: seq<int>)
    requires f + |keys| <= |s| && s[f..f + |keys|] == keys
    ensures forall i :: 0 <= i < |keys| ==> s[f + i] == keys[i]
  {
    assert forall i :: 0 <= i < |keys| ==> s[f..f + |keys|][i] == keys[i];
  }

  lemma {:induction false} AtLeaf(s: seq<int>, e: nat, f: nat, hi: int)
    requires Ascending(s) && e <= f < |s| && s[f] <= hi && (e < f ==> hi < s[e])
    ensures e == f
  {
  }

  lemma {:induction false} JoinStretch(s: seq<int>, a: nat, f: nat, keys: seq<int>, c: nat)
    requires a <= f && f + |keys| <= |s| && s[f..f + |keys|] == keys && c <= |keys|
    ensures s[a..f] + keys[..c] == s[a..f + c]
  {
  }

  lemma {:induction false} AllBehind(row: Row, m: nat, a: nat, e: nat, hi: int, res: seq<int>, x: BPNode?)
    requires LeafRow(row) && Ascending(Flat(row)) && Walked(row, m, a, e, hi, res, x)
    requires m < |row| ==> row[m].keys != [] && hi < row[m].keys[0]
    ensures a <= e <= |Flat(row)| && res == Flat(row)[a..e]
    ensures forall i :: a <= i < e ==> Flat(row)[i] <= hi
    ensures forall i :: e <= i < |Flat(row)| ==> hi < Flat(row)[i]
  {
    if m < |row| {
      LeafPlace(row, m);
      var s, f := Flat(row), |Flat(row[..m])|;
      assert s[f..f + |row[m].keys|][0] == row[m].keys[0];
    } else {
      assert row[..m] == row;
    }
  }

  // The keys from the start of lo's leaf to hi: those between lo and hi are
  // there, and smaller ones only from that leaf.
  method RangeLookup(b: BPlusTree, lo: int, hi: int) returns (res: seq<int>, ghost p: nat, ghost a: nat, ghost e: nat)
    requires b.Valid()
    ensures a <= e <= |b.Keys()| && res == b.Keys()[a..e] && Ascending(b.Keys())
    ensures forall i :: 0 <= i < a ==> b.Keys()[i] < lo
    ensures forall i :: a <= i < e ==> b.Keys()[i] <= hi
    ensures forall i :: e <= i < |b.Keys()| ==> hi < b.Keys()[i]
    ensures b.tree != null ==> Within(b.grid[0], p, lo) && a == |Flat(b.grid[0][..p])|
  {
    res, p, a, e := [], 0, 0, 0;
    if b.tree == null { return; }
    var x;
    x, p := LeafOf(b, lo);
    a := |Flat(b.grid[0][..p])|;
    res, e := Along(x, hi, b.grid[0], p, a);
  }

  method LeafOf(b: BPlusTree, lo: int) returns (x: BPNode, ghost p: nat)
    requires b.Valid() && b.tree != null
    ensures b.grid != [] && RowHeld(b.grid[0], 0) && LeafRow(b.grid[0]) && Ascending(Flat(b.grid[0]))
    ensures Within(b.grid[0], p, lo) && x == NodeAt(b.grid[0], p) && |Flat(b.grid[0][..p])| <= |Flat(b.grid[0])|
    ensures forall i :: 0 <= i < |Flat(b.grid[0][..p])| ==> Flat(b.grid[0])[i] < lo
  {
    assert allocated(Nodes(b.grid)) && allocated(AllKids(b.grid));
    var found;
    found, x, p := b.FindLeaf(lo);
    FirstLeaves(b.grid, p, lo, x);
    assert RowHeld(b.grid[0], 0);
  }

  lemma {:induction false} FirstLeaves(g: Grid, p: nat, lo: int, x: BPNode)
    requires Links(g) && Here(g, 0, p, lo, x)
    ensures g != [] && LeafRow(g[0]) && Ascending(Flat(g[0])) && Within(g[0], p, lo) && x == NodeAt(g[0], p)
    ensures |Flat(g[0][..p])| <= |Flat(g[0])|
    ensures forall i :: 0 <= i < |Flat(g[0][..p])| ==> Flat(g[0])[i] < lo
  {
    assert Level(g[0], 0);
    InLeaf(g, p, lo, x);
    OnlyHere(g[0], p, lo);
    var s := Flat(g[0]);
    assert Flat(g[0][..p]) <= s;
  }

  method Along(start: BPNode?, hi: int, ghost row: Row, ghost p: nat, ghost a: nat)
    returns (res: seq<int>, ghost e: nat)
    requires RowHeld(row, 0) && LeafRow(row) && Ascending(Flat(row))
    requires p < |row| && start == NodeAt(row, p) && a == |Flat(row[..p])| <= |Flat(row)|
    ensures a <= e <= |Flat(row)| && res == Flat(row)[a..e]
    ensures forall i :: a <= i < e ==> Flat(row)[i] <= hi
    ensures forall i :: e <= i < |Flat(row)| ==> hi < Flat(row)[i]
  {
    assert allocated(RowNodes(row)) && allocated(RowKids(row));
    var x := start;
    ghost var m := p;
    res, e := [], a;
    assert Upto(Flat(row), |Flat(row[..p])|, a, a, hi, []);
    SeeLeaf(row, m);
    while x != null && x.keys[0] <= hi
      invariant RowHeld(row, 0) && Walked(row, m, a, e, hi, res, x)
      invariant x == NodeAt(row, m) && (x != null ==> x.keys == row[m].keys != [])
      decreases |row| - m
    {
      x, res, e := OneLeaf(x, hi, res, row, m, a, e);
      m := m + 1;
      SeeLeaf(row, m);
    }
    AllBehind(row, m, a, e, hi, res, x);
  }

  lemma {:induction false} SeeLeaf(row: Row, m: nat)
    requires RowHeld(row, 0) && LeafRow(row)
    ensures m < |row| ==> row[m].nd.keys == row[m].keys != [] && row[m].nd.next == NodeAt(row, m + 1)
    ensures m < |row| ==> Ascending(row[m].keys)
  {
    if m < |row| { assert LeafAt(row, m) && CellHeld(row, 0, m); }
  }

  // the part of a leaf that counts, and the next one
  method OneLeaf(x: BPNode, hi: int, res: seq<int>, ghost row: Row, ghost m: nat, ghost a: nat, ghost e: nat)
    returns (next: BPNode?, res': seq<int>, ghost e': nat)
    requires RowHeld(row, 0) && LeafRow(row) && Ascending(Flat(row)) && m < |row| && x == row[m].nd
    requires Walked(row, m, a, e, hi, res, x) && row[m].keys != [] && row[m].keys[0] <= hi
    ensures RowHeld(row, 0) && Walked(row, m + 1, a, e', hi, res', next) && next == NodeAt(row, m + 1)
  {
    assert allocated(RowNodes(row)) && allocated(RowKids(row));
    SeeLeaf(row, m);
    next := x.next;
    var keys := x.keys;
    var c := TakeUpTo(keys, hi);
    NextLeaf(row, m, a, e, hi, res, x, c);
    res', e' := res + keys[..c], e + c;
  }
}
