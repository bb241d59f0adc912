/**
 * What the split of a node of a B+ tree (Data_structures/B+Tree.cpp) leaves to be done.
 */
module BPlusSplits {
  import opened BPlusRows
  import opened BPlusSteps
  import opened BPlusHeap
  import opened BPlusSearch

  ghost function Top(g: Grid): BPNode? {
    if g != [] && g[|g| - 1] != [] then g[|g| - 1][0].nd else null
  }

  lemma {:induction false} NewNode(g: Grid, l: nat, n: BPNode)
    requires n !in Nodes(g) && l < |g|
    ensures Absent(g[l], n)
  {
    forall a | 0 <= a < |g[l]| ensures g[l][a].nd != n { assert g[l][a].nd in RowNodes(g[l]); }
  }

  lemma {:induction false} HalvedBelow(g: Grid, order: nat, l: nat, i: nat, n: BPNode) returns (a: nat, j: nat)
    requires order >= 2 && Links(g) && Crowded(g, order, l, i) && l + 1 < |g| && n !in Nodes(g) && n.lvl == l
    ensures var r := g[l := SplitRow(g[l], i, n)];
      Pending(r, l + 1, a, j, RightPart(g[l][i], n).low, n) && Fits(r, order)
      && j < |r[l + 1][a].kids| && r[l + 1][a].kids[j] == g[l][i].nd
  {
    NewNode(g, l, n);
    a, j := SplitOpens(g, l, i, n);
    CrowdedSplit(g, order, l, i, n);
  }

  lemma {:induction false} CrownedShape(g: Grid, order: nat, n: BPNode, root: BPNode, s: int, h: Grid)
    requires order >= 2 && Links(g) && g != [] && Crowded(g, order, |g| - 1, 0) && n !in Nodes(g) && n.lvl == |g| - 1
    requires root.lvl == |g| && h == g[|g| - 1 := SplitRow(g[|g| - 1], 0, n)] && s == RightPart(g[|g| - 1][0], n).low
    ensures h[|h| - 1] != []
    ensures Shape(h + [[RootCell(root, s, h, n)]], order) && Top(h + [[RootCell(root, s, h, n)]]) == root
  {
    NewNode(g, |g| - 1, n);
    Crowned(g, n, root);
    CrowdedSplit(g, order, |g| - 1, 0, n);
  }

  // the parent of a child
  lemma {:induction false} ParentIs(g: Grid, l: nat, a: nat, j: nat, x: BPNode)
    requires Held(g) && 0 < l < |g| && a < |g[l]| && j < |g[l][a].kids| && g[l][a].kids[j] == x
    ensures x.parent == g[l][a].nd
  {
    SeeCell(g, l, a);
  }

  // the same keys in the leaves, and two nodes at most in addition
  ghost predicate Kin(g: Grid, r: Grid, n: BPNode, root: BPNode) {
    g != [] && r != [] && Flat(r[0]) == Flat(g[0]) && forall y :: y in Nodes(r) ==> y in Nodes(g) || y == n || y == root
  }

  lemma {:induction false} KinSplit(g: Grid, l: nat, i: nat, n: BPNode)
    requires Free(g) && l < |g| && i < |g[l]| && |g[l][i].keys| >= 2
    ensures Kin(g, g[l := SplitRow(g[l], i, n)], n, n)
  {
    if l == 0 {
      assert KidsUnder(g[0], 0) && Under(g[0][i], 0);
      LeafSplitFlat(g[0], i, n);
    }
    NodesPut(g, l, i, Parts(g[l][i], n), n);
  }

  // a stretch of cells in the place of cell i brings no node but n
  lemma {:induction false} NodesPut(g: Grid, l: nat, i: nat, mid: Row, n: BPNode)
    requires l < |g| && i < |g[l]| && forall a :: 0 <= a < |mid| ==> mid[a].nd == g[l][i].nd || mid[a].nd == n
    ensures Nodes(g[l := Put(g[l], i, mid)]) <= Nodes(g) + {n}
  {
    var r := g[l := Put(g[l], i, mid)];
    forall x | x in Nodes(r) ensures x in Nodes(g) || x == n {
      var m :| 0 <= m < |r| && x in RowNodes(r[m]);
      var a :| 0 <= a < |r[m]| && r[m][a].nd == x;
      if m == l {
        PutAt(g[l], i, mid, a);
        assert g[l][i].nd in RowNodes(g[l]);
        if a < i { assert x in RowNodes(g[l]); }
        if a >= i + |mid| { assert g[l][a - |mid| + 1].nd in RowNodes(g[l]); }
      } else {
        assert x in RowNodes(g[m]);
      }
    }
  }

  lemma {:induction false} KinMore(g: Grid, r: Grid, n: BPNode, c: Cell)
    requires Kin(g, r, n, n)
    ensures Kin(g, r + [[c]], n, c.nd)
  {
    var t := r + [[c]];
    forall y | y in Nodes(t) ensures y in Nodes(g) || y == n || y == c.nd {
      var m :| 0 <= m < |t| && y in RowNodes(t[m]);
      if m < |r| { assert y in RowNodes(r[m]); } else { assert t[m] == [c]; }
    }
  }

  // where a node is a child
  lemma {:induction false} KidOf(g: Grid, l: nat, i: nat) returns (a: nat, j: nat)
    requires Links(g) && l + 1 < |g| && i < |g[l]|
    ensures a < |g[l + 1]| && j < |g[l + 1][a].kids| && g[l + 1][a].kids[j] == g[l][i].nd
  {
    assert Over(g[l], g[l + 1]);
    a, j := Locate(g[l + 1], i);
    KidPlace(g[l], g[l + 1], a, j);
  }

  // with a key that was not there: the tree is whole, or a node above has yet
  // to take n with the key s
  ghost predicate Due(g: Grid, order: nat, l: nat, a: nat, j: nat, s: int, n: BPNode, up: BPNode?) {
    exists h: Grid :: h == g && DueAt(h, order, l, a, j, s, n, up)
  }

  ghost predicate DueAt(g: Grid, order: nat, l: nat, a: nat, j: nat, s: int, n: BPNode, up: BPNode?) {
    if up == null then Shape(g, order)
    else Pending(g, l, a, j, s, n) && Fits(g, order) && up == g[l][a].nd
  }

  // below the root, the parent of the split node is to take the new one
  lemma {:induction false} ParentDue(g: Grid, order: nat, l: nat, i: nat, n: BPNode, x: BPNode, s: int, r: Grid, a: nat)
    returns (j: nat)
    requires order >= 2 && Links(g) && Crowded(g, order, l, i) && l + 1 < |g| && n !in Nodes(g) && n.lvl == l
    requires x == g[l][i].nd && s == RightPart(g[l][i], n).low && r == g[l := SplitRow(g[l], i, n)]
    requires Held(r) && a < |r[l + 1]| && x.parent == r[l + 1][a].nd
    ensures Due(r, order, l + 1, a, j, s, n, x.parent)
  {
    var b;
    b, j := HalvedBelow(g, order, l, i, n);
    ParentIs(r, l + 1, b, j, x);
    OneCellOf(r, l + 1, a, b);
    assert DueAt(r, order, l + 1, a, j, s, n, x.parent);
  }

  lemma {:induction false} OneCellOf(r: Grid, l: nat, a: nat, b: nat)
    requires l < |r| && Linked(r, l) && a < |r[l]| && b < |r[l]| && r[l][a].nd == r[l][b].nd
    ensures a == b
  {
    assert Level(r[l], l);
  }

  lemma {:induction false} TopStays(g: Grid, l: nat, row: Row)
    requires l + 1 < |g|
    ensures Top(g[l := row]) == Top(g)
  {
  }

  lemma {:induction false} RootOnTop(g: Grid, l: nat, i: nat)
    requires Free(g) && l < |g| && i < |g[l]| && g[|g| - 1] != []
    ensures g[|g| - 1][0].nd !in Kids(g[l][i])
  {
    assert Tagged(g[|g| - 1], |g| - 1);
    assert KidsUnder(g[l], l) && Under(g[l][i], l);
  }

  method Halve(x: BPNode, ghost g: Grid, ghost l: nat, ghost i: nat) returns (n: BPNode, s: int, ghost r: Grid)
    requires Held(g) && Free(g) && l < |g| && i < |g[l]| && x == g[l][i].nd && |g[l][i].keys| >= 2
    requires l > 0 ==> InnerAt(g[l][i]) && KidsOwn(g[l], i)
    modifies x`keys, x`vnode, x`next, Kids(g[l][i])`parent
    ensures fresh(n) && n.lvl == l && n.parent == x.parent && s == RightPart(g[l][i], n).low
    ensures r == g[l := SplitRow(g[l], i, n)] && Held(r)
  {
    SeeCell(g, l, i);
    if x.isLeaf {
      n, s := SplitLeaf(x, g, i);
    } else {
      n, s := SplitInner(x, g, l, i);
    }
    r := g[l := SplitRow(g[l], i, n)];
  }

  // ---------- what taking a child leaves to be done ----------

  // the widened node fits or has a key too many; nothing else is new
  ghost predicate Widened(g: Grid, w: Grid, order: nat, l: nat, i: nat) {
    g != [] && |w| == |g| && Flat(w[0]) == Flat(g[0]) && (forall y :: y in Nodes(w) ==> y in Nodes(g))
    && l < |g| && i < |g[l]| && i < |w[l]| && w[l][i].nd == g[l][i].nd && |w[l][i].keys| == |g[l][i].keys| + 1
    && Kids(w[l][i]) <= Nodes(g)
    && if |g[l][i].keys| + 1 > order then Crowded(w, order, l, i) else Shape(w, order)
  }

  lemma {:induction false} PendingCell(g: Grid, l: nat, i: nat, j: nat, s: int, n: BPNode)
    requires Pending(g, l, i, j, s, n)
    ensures (forall m :: 0 <= m < |g| ==> Tagged(g[m], m)) && InnerAt(g[l][i]) && j <= |g[l][i].keys|
  {
    assert Level(g[l], l);
    forall m | 0 <= m < |g| ensures Tagged(g[m], m) { assert Level(g[m], m); }
  }

  lemma {:induction false} WidenedIs(g: Grid, order: nat, l: nat, i: nat, j: nat, s: int, n: BPNode)
    requires Pending(g, l, i, j, s, n) && Fits(g, order)
    ensures Widened(g, g[l := WiderRow(g[l], i, j, s, n)], order, l, i)
    ensures Top(g[l := WiderRow(g[l], i, j, s, n)]) == Top(g) && Links(g[l := WiderRow(g[l], i, j, s, n)])
  {
    var c := Wider(g[l][i], j, s, n);
    var w: Grid := g[l := WiderRow(g[l], i, j, s, n)];
    PendingCell(g, l, i, j, s, n);
    Mended(g, l, i, j, s, n);
    PutAt(g[l], i, [c], i);
    NodesPut(g, l, i, [c], g[l][i].nd);
    CellInGrid(g, l, i);
    WidenedKids(g, l, i, j, s, n);
    if |c.keys| > order {
      CrowdedOne(g, order, l, i, c);
    } else {
      forall a | 0 <= a < |g[l]| ensures |w[l][a].keys| <= order { PutAt(g[l], i, [c], a); }
    }
    TopWith(g, l, i, c);
  }

  lemma {:induction false} CellInGrid(g: Grid, l: nat, i: nat)
    requires l < |g| && i < |g[l]|
    ensures g[l][i].nd in Nodes(g)
  {
    assert g[l][i].nd in RowNodes(g[l]);
  }

  lemma {:induction false} TopWith(g: Grid, l: nat, i: nat, c: Cell)
    requires l < |g| && i < |g[l]| && c.nd == g[l][i].nd
    ensures Top(g[l := Put(g[l], i, [c])]) == Top(g)
  {
    PutAt(g[l], i, [c], 0);
  }

  // the children of the widened node are on the level below
  lemma {:induction false} WidenedKids(g: Grid, l: nat, i: nat, j: nat, s: int, n: BPNode)
    requires Pending(g, l, i, j, s, n)
    ensures Kids(Wider(g[l][i], j, s, n)) <= Nodes(g)
  {
    var row := WiderRow(g[l], i, j, s, n);
    PutAt(g[l], i, [Wider(g[l][i], j, s, n)], i);
    forall k | k in Kids(row[i]) ensures k in Nodes(g) {
      var a :| 0 <= a < |row[i].kids| && row[i].kids[a] == k;
      KidPlace(g[l - 1], row, i, a);
      CellInGrid(g, l - 1, Offset(row, i) + a);
    }
  }

  // ---------- a leaf ----------

  lemma {:induction false} KeyedNodes(g: Grid, p: nat, j: nat, k: int)
    requires g != [] && p < |g[0]|
    ensures forall y :: y in Nodes(g[0 := KeyedRow(g[0], p, j, k)]) ==> y in Nodes(g)
  {
    NodesPut(g, 0, p, [Keyed(g[0][p], j, k)], g[0][p].nd);
    CellInGrid(g, 0, p);
  }

  lemma {:induction false} KeyedLinks(g: Grid, p: nat, j: nat, k: int)
    requires Linked(g, 0) && Within(g[0], p, k) && Fitting(g[0][p].keys, j, k)
    ensures Links(g[0 := KeyedRow(g[0], p, j, k)]) && Top(g[0 := KeyedRow(g[0], p, j, k)]) == Top(g)
  {
    assert Level(g[0], 0);
    LeafKeyed(g[0], p, j, k);
    LinkedRow(g, 0, 0, KeyedRow(g[0], p, j, k));
    TopWith(g, 0, p, Keyed(g[0][p], j, k));
  }

  lemma {:induction false} KeyedKeys(row: Row, p: nat, j: nat, k: int)
    requires p < |row| && j <= |row[p].keys|
    ensures |Flat(row[..p])| + j <= |Flat(row)|
    ensures Flat(KeyedRow(row, p, j, k)) == Insert(Flat(row), |Flat(row[..p])| + j, k)
  {
    LeafKeyedFlat(row, p, j, k);
    FlatAt(row, p);
  }

  lemma {:induction false} KeyedSizes(g: Grid, order: nat, p: nat, j: nat, k: int)
    requires Shape(g, order) && p < |g[0]| && j <= |g[0][p].keys| && Links(g[0 := KeyedRow(g[0], p, j, k)])
    ensures var w := g[0 := KeyedRow(g[0], p, j, k)];
      p < |w[0]| && w[0][p].nd == g[0][p].nd
      && if |g[0][p].keys| + 1 > order then Crowded(w, order, 0, p) else Shape(w, order)
  {
    var c := Keyed(g[0][p], j, k);
    var w: Grid := g[0 := KeyedRow(g[0], p, j, k)];
    PutAt(g[0], p, [c], p);
    if |c.keys| > order {
      CrowdedOne(g, order, 0, p, c);
    } else {
      forall a | 0 <= a < |g[0]| ensures |w[0][a].keys| <= order { PutAt(g[0], p, [c], a); }
    }
  }

  lemma {:induction false} InLeaf(g: Grid, p: nat, k: int, x: BPNode)
    requires Links(g) && Here(g, 0, p, k, x)
    ensures g != [] && Within(g[0], p, k) && x == g[0][p].nd && (k in Flat(g[0]) <==> k in g[0][p].keys)
    ensures Ascending(Flat(g[0]))
  {
    assert Level(g[0], 0);
    OnlyHere(g[0], p, k);
  }

  lemma {:induction false} OneLeaf(n: BPNode, k: int, order: nat)
    requires order >= 2 && n.lvl == 0 && n.isLeaf && n.keys == [k] && n.vnode == [null, null] && n.next == null
    ensures var g := [[Cell(n, [k], [], 0)]];
      Shape(g, order) && Held(g) && Flat(g[0]) == [k] && forall y :: y in Nodes(g) ==> y == n
  {
    var c := Cell(n, [k], [], 0);
    var row: Row := [c];
    assert Level(row, 0) by { assert LeafAt(row, 0); }
    OneCell(c);
    assert RowHeld(row, 0) by { assert LeafIs(c, null); }
  }
}
