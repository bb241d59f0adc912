/**
 * The nodes of a B+ tree (Data_structures/B+Tree.cpp) as the rows describe them, and what the
 * pointer steps of an insertion do to them.
 */
module BPlusHeap {
  import opened BPlusRows
  import opened BPlusSteps

  // ---------- what the nodes hold ----------

  ghost predicate LeafIs(c: Cell, next: BPNode?)
    reads c.nd`isLeaf, c.nd`keys, c.nd`vnode, c.nd`next
  {
    c.nd.isLeaf && c.nd.keys == c.keys && c.nd.next == next
    && |c.nd.vnode| == |c.keys| + 1 && forall j :: 0 <= j < |c.nd.vnode| ==> c.nd.vnode[j] == null
  }

  ghost function Kids(c: Cell): set<BPNode> {
    set k | k in c.kids
  }

  ghost predicate InnerIs(c: Cell)
    reads c.nd`isLeaf, c.nd`keys, c.nd`vnode, Kids(c)`parent
  {
    !c.nd.isLeaf && c.nd.keys == c.keys && c.nd.vnode == c.kids
    && forall j :: 0 <= j < |c.kids| ==> c.kids[j] in Kids(c) && c.kids[j].parent == c.nd
  }

  ghost function NextOf(row: Row, i: nat): BPNode? {
    if i + 1 < |row| then row[i + 1].nd else null
  }

  ghost function RowNodes(row: Row): set<BPNode> {
    set i | 0 <= i < |row| :: row[i].nd
  }

  ghost function RowKids(row: Row): set<BPNode> {
    set i, k | 0 <= i < |row| && k in Kids(row[i]) :: k
  }

  ghost function Nodes(g: Grid): set<BPNode> {
    set l, n | 0 <= l < |g| && n in RowNodes(g[l]) :: n
  }

  ghost function AllKids(g: Grid): set<BPNode> {
    set l, n | 0 <= l < |g| && n in RowKids(g[l]) :: n
  }

  ghost predicate CellHeld(row: Row, l: nat, i: nat)
    requires i < |row|
    reads row[i].nd`isLeaf, row[i].nd`keys, row[i].nd`vnode, row[i].nd`next, Kids(row[i])`parent
  {
    if l == 0 then LeafIs(row[i], NextOf(row, i)) else InnerIs(row[i])
  }

  ghost predicate RowHeld(row: Row, l: nat)
    reads RowNodes(row)`isLeaf, RowNodes(row)`keys, RowNodes(row)`vnode, RowNodes(row)`next, RowKids(row)`parent
  {
    forall i :: 0 <= i < |row| ==>
      row[i].nd in RowNodes(row) && Kids(row[i]) <= RowKids(row) && CellHeld(row, l, i)
  }

  ghost predicate Held(g: Grid)
    reads Nodes(g)`isLeaf, Nodes(g)`keys, Nodes(g)`vnode, Nodes(g)`next, AllKids(g)`parent
  {
    forall l :: 0 <= l < |g| ==> RowNodes(g[l]) <= Nodes(g) && RowKids(g[l]) <= AllKids(g) && RowHeld(g[l], l)
  }

  lemma {:induction false} SeeCell(g: Grid, l: nat, i: nat)
    requires Held(g) && l < |g| && i < |g[l]|
    ensures CellHeld(g[l], l, i) && g[l][i].nd in RowNodes(g[l]) && g[l][i].nd in Nodes(g)
  {
    assert RowHeld(g[l], l);
  }

  lemma {:induction false} HeldWith(g: Grid, l: nat, row: Row)
    requires l < |g| && (forall m :: 0 <= m < |g| && m != l ==> RowHeld(g[m], m)) && RowHeld(row, l)
    ensures Held(g[l := row])
  {
    var r := g[l := row];
    forall m | 0 <= m < |r| ensures RowNodes(r[m]) <= Nodes(r) && RowKids(r[m]) <= AllKids(r) && RowHeld(r[m], m) { }
  }

  // ---------- nodes on their levels ----------

  // Every node is on its level, its children on the level below.  This is all
  // that the pointer steps rely on, so it also covers rows that a second copy
  // of a key has put out of order.
  ghost predicate Free(g: Grid) {
    g != [] && forall m :: 0 <= m < |g| ==> Tagged(g[m], m) && KidsUnder(g[m], m)
  }

  ghost predicate KidsUnder(row: Row, l: nat) {
    forall i :: 0 <= i < |row| ==> Under(row[i], l)
  }

  ghost predicate Under(c: Cell, l: nat) {
    if l == 0 then c.kids == [] else forall k :: k in c.kids ==> k.lvl == l - 1
  }

  // the children of a cell are its alone, none of them twice
  ghost predicate KidsOwn(row: Row, i: nat) {
    i < |row| && (forall a, b :: 0 <= a < b < |row[i].kids| ==> row[i].kids[a] != row[i].kids[b])
    && forall a, k :: 0 <= a < |row| && a != i && k in row[a].kids ==> k !in row[i].kids
  }

  lemma {:induction false} LinkedFree(g: Grid)
    requires Linked(g, 0)
    ensures Free(g)
  {
    forall m | 0 <= m < |g| ensures Tagged(g[m], m) && KidsUnder(g[m], m) {
      assert Level(g[m], m);
      forall i | 0 <= i < |g[m]| ensures Under(g[m][i], m) {
        if m == 0 { assert LeafAt(g[0], i); } else {
          forall k | k in g[m][i].kids ensures k.lvl == m - 1 { KidLevel(g, m, i, k); }
        }
      }
    }
  }

  lemma {:induction false} LinkedOwn(g: Grid, l: nat, i: nat)
    requires Linked(g, 0) && 0 < l < |g| && i < |g[l]|
    ensures KidsOwn(g[l], i)
  {
    forall a, b | 0 <= a < b < |g[l][i].kids| ensures g[l][i].kids[a] != g[l][i].kids[b] { KidsDiffer(g, l, i, a, b); }
    forall a, k | 0 <= a < |g[l]| && a != i && k in g[l][a].kids ensures k !in g[l][i].kids {
      KidsApart(g, l, a, i, k);
    }
  }

  // a node is on its level only
  lemma {:induction false} OtherRows(g: Grid, l: nat, x: BPNode)
    requires (forall m :: 0 <= m < |g| ==> Tagged(g[m], m)) && x.lvl == l
    ensures forall m :: 0 <= m < |g| && m != l ==> x !in RowNodes(g[m])
  {
  }

  // one cell of a row after its own node alone has changed
  lemma {:induction false} RowWith(row: Row, l: nat, i: nat, c: Cell)
    requires i < |row| && Tagged(row, l) && c.nd == row[i].nd
    requires forall a :: 0 <= a < |row| && a != i ==> CellHeld(row, l, a)
    requires if l == 0 then LeafIs(c, NextOf(row, i)) else InnerIs(c)
    ensures RowHeld(Put(row, i, [c]), l)
  {
    var r := Put(row, i, [c]);
    forall a | 0 <= a < |r|
      ensures r[a].nd in RowNodes(r) && Kids(r[a]) <= RowKids(r) && CellHeld(r, l, a)
    {
      PutAt(row, i, [c], a);
      if a + 1 < |r| { PutAt(row, i, [c], a + 1); }
      assert a != i ==> CellHeld(row, l, a);
    }
  }

  // ---------- a leaf gets a key ----------

  method KeyLeaf(x: BPNode, j: nat, k: int, at: nat, ghost g: Grid, ghost i: nat)
    requires Held(g) && Free(g) && i < |g[0]| && x == g[0][i].nd && j <= |g[0][i].keys| && at <= |g[0][i].keys| + 1
    modifies x`keys, x`vnode
    ensures Held(g[0 := KeyedRow(g[0], i, j, k)])
  {
    SeeCell(g, 0, i);
    ghost var row := g[0];
    assert forall a :: 0 <= a < |row| && a != i ==> CellHeld(row, 0, a) by {
      assert RowHeld(row, 0);
    }
    OtherRows(g, 0, x);
    InsertKey(x, j, k, at, row, i);
    RowWith(row, 0, i, Keyed(row[i], j, k));
    HeldWith(g, 0, KeyedRow(row, i, j, k));
  }

  method InsertKey(x: BPNode, j: nat, k: int, at: nat, ghost row: Row, ghost i: nat)
    requires i < |row| && x == row[i].nd && j <= |row[i].keys| && at <= |row[i].keys| + 1
    requires LeafIs(row[i], NextOf(row, i))
    modifies x`keys, x`vnode
    ensures LeafIs(Keyed(row[i], j, k), NextOf(row, i))
  {
    var keys, vnode := x.keys, x.vnode;
    x.keys := keys[..j] + [k] + keys[j..];
    x.vnode := vnode[..at] + [null] + vnode[at..];
  }

  // ---------- an inner node gets a key and a child ----------

  method WidenInner(x: BPNode, j: nat, k: int, n: BPNode, ghost g: Grid, ghost l: nat, ghost i: nat)
    requires Held(g) && Free(g) && 0 < l < |g| && i < |g[l]| && x == g[l][i].nd
    requires InnerAt(g[l][i]) && j <= |g[l][i].keys| && n.parent == x
    modifies x`keys, x`vnode
    ensures Held(g[l := WiderRow(g[l], i, j, k, n)])
  {
    SeeCell(g, l, i);
    ghost var row := g[l];
    assert forall a :: 0 <= a < |row| && a != i ==> CellHeld(row, l, a) by {
      assert RowHeld(row, l);
    }
    OtherRows(g, l, x);
    InsertChild(x, j, k, n, row[i]);
    RowWith(row, l, i, Wider(row[i], j, k, n));
    HeldWith(g, l, WiderRow(row, i, j, k, n));
  }

  method InsertChild(x: BPNode, j: nat, k: int, n: BPNode, ghost c: Cell)
    requires x == c.nd && InnerIs(c) && InnerAt(c) && j <= |c.keys| && n.parent == x
    modifies x`keys, x`vnode
    ensures InnerIs(Wider(c, j, k, n))
  {
    var keys, vnode := x.keys, x.vnode;
    x.keys := keys[..j] + [k] + keys[j..];
    x.vnode := vnode[..j + 1] + [n] + vnode[j + 1..];
    WiderKids(c, j, k, n);
  }

  lemma {:induction false} WiderKids(c: Cell, j: nat, k: int, n: BPNode)
    requires InnerAt(c) && j <= |c.keys|
    ensures var w := Wider(c, j, k, n);
      forall a :: 0 <= a < |w.kids| ==> w.kids[a] in Kids(w) && (w.kids[a] == n || w.kids[a] in c.kids)
  {
  }

  // ---------- a node is split ----------

  lemma {:induction false} RowWithTwo(row: Row, l: nat, i: nat, c: Cell, d: Cell)
    requires i < |row| && Tagged(row, l) && c.nd == row[i].nd
    requires forall a :: 0 <= a < |row| && a != i ==> CellHeld(row, l, a)
    requires if l == 0 then LeafIs(c, d.nd) && LeafIs(d, NextOf(row, i)) else InnerIs(c) && InnerIs(d)
    ensures RowHeld(Put(row, i, [c, d]), l)
  {
    var r := Put(row, i, [c, d]);
    forall a | 0 <= a < |r|
      ensures r[a].nd in RowNodes(r) && Kids(r[a]) <= RowKids(r) && CellHeld(r, l, a)
    {
      PutAt(row, i, [c, d], a);
      if a + 1 < |r| { PutAt(row, i, [c, d], a + 1); }
      assert a < i ==> CellHeld(row, l, a);
      assert a > i + 1 ==> CellHeld(row, l, a - 1);
    }
  }

  method SplitLeaf(x: BPNode, ghost g: Grid, ghost i: nat) returns (n: BPNode, s: int)
    requires Held(g) && Free(g) && i < |g[0]| && x == g[0][i].nd && |g[0][i].keys| >= 2
    modifies x`keys, x`vnode, x`next
    ensures fresh(n) && n.lvl == 0 && n.parent == x.parent && s == RightPart(g[0][i], n).low
    ensures Held(g[0 := SplitRow(g[0], i, n)])
  {
    SeeCell(g, 0, i);
    ghost var row := g[0];
    assert forall a :: 0 <= a < |row| && a != i ==> CellHeld(row, 0, a) by {
      assert RowHeld(row, 0);
    }
    assert KidsUnder(row, 0) && Under(row[i], 0);
    OtherRows(g, 0, x);
    assert allocated(Nodes(g)) && allocated(AllKids(g));
    n, s := HalveLeaf(x, row[i], NextOf(row, i));
    RowWithTwo(row, 0, i, LeftPart(row[i]), RightPart(row[i], n));
    HeldWith(g, 0, SplitRow(row, i, n));
  }

  method HalveLeaf(x: BPNode, ghost c: Cell, ghost next: BPNode?) returns (n: BPNode, s: int)
    requires x == c.nd && LeafIs(c, next) && c.kids == [] && |c.keys| >= 2
    modifies x`keys, x`vnode, x`next
    ensures fresh(n) && n.lvl == 0 && n.parent == x.parent && s == RightPart(c, n).low
    ensures LeafIs(LeftPart(c), n) && LeafIs(RightPart(c, n), next)
  {
    var m := |x.keys| / 2;
    s := x.keys[m];
    n := new BPNode(true, 0);
    n.parent := x.parent;
    n.keys, n.vnode, n.next := x.keys[m..], x.vnode[m..], x.next;
    x.next := n;
    x.keys, x.vnode := x.keys[..m], x.vnode[..m + 1];
  }

  // the children on a level are on the level below, each child of one node only
  lemma {:induction false} KidLevel(g: Grid, l: nat, i: nat, n: BPNode)
    requires Linked(g, 0) && 0 < l < |g| && i < |g[l]| && n in g[l][i].kids
    ensures n.lvl == l - 1
  {
    var j :| 0 <= j < |g[l][i].kids| && g[l][i].kids[j] == n;
    KidPlace(g[l - 1], g[l], i, j);
  }

  lemma {:induction false} KidsApart(g: Grid, l: nat, i: nat, a: nat, n: BPNode)
    requires Linked(g, 0) && 0 < l < |g| && i < |g[l]| && a < |g[l]| && i != a && n in g[l][i].kids
    ensures n !in g[l][a].kids
  {
    if n in g[l][a].kids {
      var j :| 0 <= j < |g[l][i].kids| && g[l][i].kids[j] == n;
      var b :| 0 <= b < |g[l][a].kids| && g[l][a].kids[b] == n;
      KidPlace(g[l - 1], g[l], i, j);
      KidPlace(g[l - 1], g[l], a, b);
      if i < a { OffsetsGrow(g[l], i, a); } else { OffsetsGrow(g[l], a, i); }
    }
  }

  lemma {:induction false} OffsetsGrow(row: Row, i: nat, a: nat)
    requires i < a < |row|
    ensures Offset(row, i) + |row[i].kids| <= Offset(row, a)
    decreases a
  {
    OffsetNext(row, a - 1);
    if i < a - 1 { OffsetsGrow(row, i, a - 1); }
  }

  lemma {:induction false} KidsDiffer(g: Grid, l: nat, i: nat, a: nat, b: nat)
    requires Linked(g, 0) && 0 < l < |g| && i < |g[l]| && a < b < |g[l][i].kids|
    ensures g[l][i].kids[a] != g[l][i].kids[b]
  {
    KidPlace(g[l - 1], g[l], i, a);
    KidPlace(g[l - 1], g[l], i, b);
  }

  lemma {:induction false} KidsElsewhere(g: Grid, l: nat, i: nat)
    requires Free(g) && 0 < l < |g| && i < |g[l]| && KidsOwn(g[l], i)
    ensures forall m :: 0 <= m < |g| && m != l ==> RowKids(g[m]) !! Kids(g[l][i])
    ensures forall a :: 0 <= a < |g[l]| && a != i ==> Kids(g[l][a]) !! Kids(g[l][i])
    ensures g[l][i].nd !in g[l][i].kids
  {
    assert KidsUnder(g[l], l) && Under(g[l][i], l);
    forall m, n | 0 <= m < |g| && m != l && n in RowKids(g[m]) ensures n !in Kids(g[l][i]) {
      var a, k :| 0 <= a < |g[m]| && k in Kids(g[m][a]) && k == n;
      assert KidsUnder(g[m], m) && Under(g[m][a], m);
    }
  }

  method SplitInner(x: BPNode, ghost g: Grid, ghost l: nat, ghost i: nat) returns (n: BPNode, s: int)
    requires Held(g) && Free(g) && 0 < l < |g| && i < |g[l]| && x == g[l][i].nd && |g[l][i].keys| >= 2
    requires InnerAt(g[l][i]) && KidsOwn(g[l], i)
    modifies x`keys, x`vnode, Kids(g[l][i])`parent
    ensures fresh(n) && n.lvl == l && n.parent == x.parent && s == RightPart(g[l][i], n).low
    ensures Held(g[l := SplitRow(g[l], i, n)])
  {
    SeeCell(g, l, i);
    ghost var row := g[l];
    assert forall a :: 0 <= a < |row| && a != i ==> CellHeld(row, l, a) by {
      assert RowHeld(row, l);
    }
    OtherRows(g, l, x);
    KidsElsewhere(g, l, i);
    assert allocated(Nodes(g)) && allocated(AllKids(g));
    n, s := HalveInner(x, row[i], l);
    RowWithTwo(row, l, i, LeftPart(row[i]), RightPart(row[i], n));
    HeldWith(g, l, SplitRow(row, i, n));
  }

  method HalveInner(x: BPNode, ghost c: Cell, ghost l: nat) returns (n: BPNode, s: int)
    requires x == c.nd && InnerIs(c) && InnerAt(c) && |c.keys| >= 2 && x.lvl == l && x !in c.kids
    requires forall a, b :: 0 <= a < b < |c.kids| ==> c.kids[a] != c.kids[b]
    modifies x`keys, x`vnode, Kids(c)`parent
    ensures fresh(n) && n.lvl == l && n.parent == x.parent && s == RightPart(c, n).low
    ensures InnerIs(LeftPart(c)) && InnerIs(RightPart(c, n))
  {
    var m := |x.keys| / 2;
    s := x.keys[m];
    n := new BPNode(false, l);
    n.parent := x.parent;
    n.keys, n.vnode := x.keys[m + 1..], x.vnode[m + 1..];
    x.keys, x.vnode := x.keys[..m], x.vnode[..m + 1];
    Adopt(n, c.kids[m + 1..]);
    HalvesKids(c, m);
  }

  lemma {:induction false} HalvesKids(c: Cell, m: nat)
    requires m < |c.kids| && forall a, b :: 0 <= a < b < |c.kids| ==> c.kids[a] != c.kids[b]
    ensures Disjoint(c.kids[..m + 1], c.kids[m + 1..])
  {
  }

  ghost predicate Disjoint(a: seq<BPNode>, b: seq<BPNode>) {
    forall k :: k in a ==> k !in b
  }

  method Adopt(n: BPNode, ghost kids: seq<BPNode>)
    requires n.vnode == kids && n !in kids
    modifies (set k | k in kids)`parent
    ensures forall k :: k in kids ==> k.parent == n
  {
    for a := 0 to |n.vnode|
      invariant n.vnode == kids
      invariant forall b :: 0 <= b < a ==> kids[b].parent == n
    {
      n.vnode[a].parent := n;
    }
  }

  // ---------- a new root ----------

  ghost function RootCell(root: BPNode, s: int, g: Grid, n: BPNode): Cell
    requires g != [] && g[|g| - 1] != []
  {
    Cell(root, [s], [g[|g| - 1][0].nd, n], g[|g| - 1][0].low)
  }

  method NewRoot(x: BPNode, s: int, n: BPNode, ghost g: Grid) returns (root: BPNode)
    requires Held(g) && Free(g) && g[|g| - 1] != [] && x == g[|g| - 1][0].nd && n.lvl == |g| - 1
    modifies x`parent, n`parent
    ensures fresh(root) && root.lvl == |g| && root.parent == null && Held(g + [[RootCell(root, s, g, n)]])
  {
    assert allocated(Nodes(g)) && allocated(AllKids(g));
    KidsLow(g);
    root := Crown(x, s, n, |g|, g[|g| - 1][0].low);
    OneRow(RootCell(root, s, g, n), |g|);
    HeldMore(g, [RootCell(root, s, g, n)]);
  }

  method Crown(x: BPNode, s: int, n: BPNode, ghost l: nat, ghost low: int) returns (root: BPNode)
    modifies x`parent, n`parent
    ensures fresh(root) && root.lvl == l && root.parent == null && InnerIs(Cell(root, [s], [x, n], low))
  {
    root := new BPNode(false, l);
    root.keys, root.vnode := [s], [x, n];
    x.parent := root;
    n.parent := root;
  }

  lemma {:induction false} OneRow(c: Cell, l: nat)
    requires l > 0 && InnerIs(c)
    ensures RowHeld([c], l)
  {
    assert [c][0] == c;
  }

  lemma {:induction false} KidsLow(g: Grid)
    requires Free(g)
    ensures forall k :: k in AllKids(g) ==> k.lvl < |g| - 1
  {
    forall k | k in AllKids(g) ensures k.lvl < |g| - 1 {
      var l :| 0 <= l < |g| && k in RowKids(g[l]);
      var i, k' :| 0 <= i < |g[l]| && k' in Kids(g[l][i]) && k' == k;
      assert KidsUnder(g[l], l) && Under(g[l][i], l);
    }
  }

  lemma {:induction false} HeldMore(g: Grid, row: Row)
    requires Held(g) && RowHeld(row, |g|)
    ensures Held(g + [row])
  {
    var r := g + [row];
    forall m | 0 <= m < |r| ensures RowNodes(r[m]) <= Nodes(r) && RowKids(r[m]) <= AllKids(r) && RowHeld(r[m], m) { }
  }
}
