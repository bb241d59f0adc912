/**
 * What an insertion into a B+ tree (Data_structures/B+Tree.cpp) relies on
 * whether or not the key is there already: the levels above the current one
 * are as they were, and those below hold together as nodes and pointers.
 */
module BPlusWaits {
  import opened BPlusRows
  import opened BPlusSteps
  import opened BPlusHeap
  import opened BPlusSearch
  import opened BPlusSplits

  // the rows from l up are those of the tree before the insertion
  ghost predicate SameFrom(o: Grid, g: Grid, l: nat) {
    Links(o) && g != [] && |o| == |g| && |o[|o| - 1]| == 1 && forall m :: l <= m < |g| ==> g[m] == o[m]
  }

  // node x of level l is to take the new node n
  ghost predicate Waits(o: Grid, g: Grid, l: nat, i: nat, n: BPNode, x: BPNode)
    reads Nodes(g), AllKids(g), n
  {
    exists h: Grid :: h == g && WaitsAt(o, h, l, i, n, x)
  }

  ghost predicate WaitsAt(o: Grid, g: Grid, l: nat, i: nat, n: BPNode, x: BPNode)
    reads Nodes(g), AllKids(g), n
  {
    Held(g) && Waiting(o, g, l, i, n, x) && n.parent == x
  }

  ghost predicate Waiting(o: Grid, g: Grid, l: nat, i: nat, n: BPNode, x: BPNode) {
    Free(g) && SameFrom(o, g, l) && Nodes(o) <= Nodes(g) && 0 < l < |g| && i < |g[l]| && x == g[l][i].nd
    && n.lvl == l - 1 && n !in Nodes(o) && n in Nodes(g)
  }

  // node x of level l has a key too many
  ghost predicate RipeAt(o: Grid, g: Grid, l: nat, i: nat, x: BPNode)
    reads Nodes(g), AllKids(g)
  {
    Held(g) && Ripened(o, g, l, i, x)
  }

  ghost predicate Ripened(o: Grid, g: Grid, l: nat, i: nat, x: BPNode) {
    Free(g) && SameFrom(o, g, l + 1) && Nodes(o) <= Nodes(g) && l < |g| && |g[l]| == |o[l]| && i < |g[l]|
    && x == g[l][i].nd == o[l][i].nd && |g[l][i].keys| >= 2 && (l > 0 ==> InnerAt(g[l][i]) && KidsOwn(g[l], i))
    && Kids(g[l][i]) <= Nodes(g)
  }

  // ---------- the cell that takes a node ----------

  lemma {:induction false} OldCell(o: Grid, l: nat, i: nat)
    requires Links(o) && 0 < l < |o| && i < |o[l]|
    ensures InnerAt(o[l][i]) && Ascending(o[l][i].keys) && KidsOwn(o[l], i)
    ensures forall a, k :: 0 <= a < |o[l]| && k in o[l][a].kids ==> k in Nodes(o)
  {
    KeysAscend(o, l, i);
    LinkedOwn(o, l, i);
    assert Level(o[l], l);
    forall a, k | 0 <= a < |o[l]| && k in o[l][a].kids ensures k in Nodes(o) {
      var b :| 0 <= b < |o[l][a].kids| && o[l][a].kids[b] == k;
      KidPlace(o[l - 1], o[l], a, b);
      CellInGrid(o, l - 1, Offset(o[l], a) + b);
    }
  }

  lemma {:induction false} WaitsCell(o: Grid, g: Grid, l: nat, i: nat, n: BPNode, x: BPNode)
    requires Waiting(o, g, l, i, n, x)
    ensures InnerAt(g[l][i]) && Ascending(g[l][i].keys) && x in Nodes(g)
  {
    OldCell(o, l, i);
    CellInGrid(g, l, i);
  }

  // with the node taken
  lemma {:induction false} Taken(o: Grid, g: Grid, l: nat, i: nat, n: BPNode, x: BPNode, at: nat, s: int, w: Grid)
    requires Waiting(o, g, l, i, n, x) && at <= |g[l][i].keys| && |g[l][i].keys| >= 1
    requires w == g[l := WiderRow(g[l], i, at, s, n)]
    ensures Ripened(o, w, l, i, x) && |w[l][i].keys| == |g[l][i].keys| + 1 && Top(w) == Top(g)
    ensures Flat(w[0]) == Flat(g[0]) && Nodes(w) <= Nodes(g) && Kids(w[l][i]) <= Nodes(g)
  {
    var c := Wider(g[l][i], at, s, n);
    OldCell(o, l, i);
    assert InnerAt(g[l][i]) && c.kids == Insert(g[l][i].kids, at + 1, n);
    PutAt(g[l], i, [c], i);
    TakenOwn(o, l, i, at, s, n);
    TakenFree(g, l, i, c, n);
    TopWith(g, l, i, c);
    CellInGrid(g, l, i);
    NodesPut(g, l, i, [c], x);
    SameNodes(g, l, i, c);
    forall k | k in Kids(w[l][i]) ensures k in Nodes(g) { InsertMember(g[l][i].kids, at + 1, n, k); }
  }

  lemma {:induction false} InsertMember<T>(s: seq<T>, j: nat, x: T, y: T)
    requires j <= |s|
    ensures y in Insert(s, j, x) <==> y == x || y in s
  {
    assert s == s[..j] + s[j..];
  }

  lemma {:induction false} TakenOwn(o: Grid, l: nat, i: nat, at: nat, s: int, n: BPNode)
    requires Links(o) && 0 < l < |o| && i < |o[l]| && n !in Nodes(o) && at <= |o[l][i].keys|
    ensures KidsOwn(WiderRow(o[l], i, at, s, n), i)
  {
    OldCell(o, l, i);
    var row, c := o[l], Wider(o[l][i], at, s, n);
    var r := WiderRow(row, i, at, s, n);
    PutAt(row, i, [c], i);
    InsertDistinct(row[i].kids, at + 1, n);
    forall a, k | 0 <= a < |r| && a != i && k in r[a].kids ensures k !in r[i].kids {
      PutAt(row, i, [c], a);
      InsertMember(row[i].kids, at + 1, n, k);
      assert k in row[a].kids;
    }
  }

  lemma {:induction false} InsertDistinct(s: seq<BPNode>, j: nat, x: BPNode)
    requires j <= |s| && x !in s && forall a, b :: 0 <= a < b < |s| ==> s[a] != s[b]
    ensures forall a, b :: 0 <= a < b < |Insert(s, j, x)| ==> Insert(s, j, x)[a] != Insert(s, j, x)[b]
  {
  }

  lemma {:induction false} TakenFree(g: Grid, l: nat, i: nat, c: Cell, n: BPNode)
    requires Free(g) && 0 < l < |g| && i < |g[l]| && c.nd == g[l][i].nd && n.lvl == l - 1
    requires exists j :: 0 <= j <= |g[l][i].kids| && c.kids == Insert(g[l][i].kids, j, n)
    ensures Free(g[l := Put(g[l], i, [c])])
  {
    var j :| 0 <= j <= |g[l][i].kids| && c.kids == Insert(g[l][i].kids, j, n);
    assert Tagged(g[l], l) && KidsUnder(g[l], l) && Under(g[l][i], l);
    TaggedOne(g[l], i, c, l);
    var row := Put(g[l], i, [c]);
    forall a | 0 <= a < |row| ensures Under(row[a], l) {
      PutAt(g[l], i, [c], a);
      if a == i {
        forall k | k in c.kids ensures k.lvl == l - 1 { InsertMember(g[l][i].kids, j, n, k); }
      } else {
        assert Under(g[l][a], l);
      }
    }
  }

  // a cell in the place of another with the same node
  lemma {:induction false} SameNodes(g: Grid, l: nat, i: nat, c: Cell)
    requires l < |g| && i < |g[l]| && c.nd == g[l][i].nd
    ensures Nodes(g) <= Nodes(g[l := Put(g[l], i, [c])])
  {
    var r := g[l := Put(g[l], i, [c])];
    forall x | x in Nodes(g) ensures x in Nodes(r) {
      var m :| 0 <= m < |g| && x in RowNodes(g[m]);
      var a :| 0 <= a < |g[m]| && g[m][a].nd == x;
      if m == l { PutAt(g[l], i, [c], a); }
      assert r[m][a].nd == x;
      CellInGrid(r, m, a);
    }
  }

  // ---------- a split ----------

  lemma {:induction false} RipeParent(o: Grid, g: Grid, l: nat, i: nat, x: BPNode) returns (a: nat)
    requires Ripened(o, g, l, i, x)
    ensures l + 1 < |g| ==> a < |g[l + 1]| && x in g[l + 1][a].kids
    ensures l + 1 == |g| ==> i == 0 && x == Top(g) && |g[l]| == 1
  {
    a := 0;
    if l + 1 < |g| {
      var j;
      a, j := KidOf(o, l, i);
      assert g[l + 1] == o[l + 1];
    }
  }

  lemma {:induction false} ParentOf(g: Grid, l: nat, a: nat, x: BPNode)
    requires Held(g) && 0 < l < |g| && a < |g[l]| && x in g[l][a].kids
    ensures x.parent == g[l][a].nd
  {
    var j :| 0 <= j < |g[l][a].kids| && g[l][a].kids[j] == x;
    ParentIs(g, l, a, j, x);
  }

  // the split leaves the nodes on their levels
  lemma {:induction false} SplitFree(g: Grid, l: nat, i: nat, n: BPNode)
    requires Free(g) && l < |g| && i < |g[l]| && n.lvl == l && n !in Nodes(g) && |g[l][i].keys| >= 2
    requires l > 0 ==> InnerAt(g[l][i])
    ensures Free(g[l := SplitRow(g[l], i, n)])
  {
    var c, d := LeftPart(g[l][i]), RightPart(g[l][i], n);
    NewNode(g, l, n);
    assert Tagged(g[l], l) && KidsUnder(g[l], l) && Under(g[l][i], l);
    TaggedTwo(g[l], i, c, d, l);
    var row := SplitRow(g[l], i, n);
    forall a | 0 <= a < |row| ensures Under(row[a], l) {
      PutAt(g[l], i, [c, d], a);
      if a < i { assert Under(g[l][a], l); }
      if a > i + 1 { assert Under(g[l][a - 1], l); }
    }
  }

  lemma {:induction false} SplitNodes(g: Grid, l: nat, i: nat, n: BPNode)
    requires l < |g| && i < |g[l]| && |g[l][i].keys| >= 2
    ensures Nodes(g) <= Nodes(g[l := SplitRow(g[l], i, n)]) && n in Nodes(g[l := SplitRow(g[l], i, n)])
  {
    var c, d := LeftPart(g[l][i]), RightPart(g[l][i], n);
    var r := g[l := SplitRow(g[l], i, n)];
    forall x | x in Nodes(g) ensures x in Nodes(r) {
      var m :| 0 <= m < |g| && x in RowNodes(g[m]);
      var a :| 0 <= a < |g[m]| && g[m][a].nd == x;
      var b := if m == l && a > i then a + 1 else a;
      if m == l { PutAt(g[l], i, [c, d], b); }
      assert r[m][b].nd == x;
      CellInGrid(r, m, b);
    }
    PutAt(g[l], i, [c, d], i + 1);
    CellInGrid(r, l, i + 1);
  }

  lemma {:induction false} NotOwnKid(g: Grid, l: nat, i: nat)
    requires Free(g) && l < |g| && i < |g[l]|
    ensures g[l][i].nd !in Kids(g[l][i])
  {
    assert Tagged(g[l], l) && KidsUnder(g[l], l) && Under(g[l][i], l);
  }

  lemma {:induction false} TopHalved(g: Grid, n: BPNode, h: Grid)
    requires Free(g) && g[|g| - 1] != [] && n.lvl == |g| - 1 && n !in Nodes(g) && |g[|g| - 1][0].keys| >= 2
    requires h == g[|g| - 1 := SplitRow(g[|g| - 1], 0, n)] && (|g| > 1 ==> InnerAt(g[|g| - 1][0]))
    ensures Free(h) && Top(h) == Top(g)
  {
    SplitFree(g, |g| - 1, 0, n);
    PutAt(g[|g| - 1], 0, Parts(g[|g| - 1][0], n), 0);
  }

  // the level above has yet to take the new node
  lemma {:induction false} SplitWaits(o: Grid, g: Grid, l: nat, i: nat, x: BPNode, n: BPNode, r: Grid, a: nat)
    requires Ripened(o, g, l, i, x) && l + 1 < |g| && n.lvl == l && n !in Nodes(g)
    requires r == g[l := SplitRow(g[l], i, n)] && a < |g[l + 1]|
    ensures Waiting(o, r, l + 1, a, n, g[l + 1][a].nd)
  {
    SplitFree(g, l, i, n);
    SplitNodes(g, l, i, n);
  }

  // ---------- with a key that was not there ----------

  // the first place whose key is not less
  ghost predicate LowerAt(keys: seq<int>, at: nat, k: int) {
    at <= |keys| && (forall i :: 0 <= i < at ==> keys[i] < k) && forall i :: at <= i < |keys| ==> k <= keys[i]
  }

  lemma {:induction false} LowerFits(keys: seq<int>, at: nat, j: nat, k: int)
    requires LowerAt(keys, at, k) && Fitting(keys, j, k) && Ascending(keys)
    ensures at == j
  {
  }

  // the tree is whole but for one node that may have a key too many
  ghost predicate Tight(w: Grid, order: nat, l: nat, i: nat) {
    exists h: Grid :: h == w && TightAt(h, order, l, i)
  }

  ghost predicate TightAt(w: Grid, order: nat, l: nat, i: nat) {
    Links(w) && l < |w| && i < |w[l]| && if |w[l][i].keys| > order then Crowded(w, order, l, i) else Shape(w, order)
  }

  lemma {:induction false} TakenTight(g: Grid, order: nat, l: nat, i: nat, j: nat, s: int, n: BPNode, x: BPNode,
                                      at: nat, w: Grid)
    requires Due(g, order, l, i, j, s, n, x) && l < |g| && i < |g[l]| && LowerAt(g[l][i].keys, at, s)
    requires w == g[l := WiderRow(g[l], i, at, s, n)]
    ensures Tight(w, order, l, i)
  {
    LowerFits(g[l][i].keys, at, j, s);
    WidenedIs(g, order, l, i, j, s, n);
    PutAt(g[l], i, [Wider(g[l][i], j, s, n)], i);
    assert TightAt(w, order, l, i);
  }

  lemma {:induction false} TightWhole(w: Grid, order: nat, l: nat, i: nat, s: int, n: BPNode)
    requires Tight(w, order, l, i) && l < |w| && i < |w[l]| && |w[l][i].keys| <= order
    ensures Due(w, order, l + 1, 0, 0, s, n, null)
  {
    assert DueAt(w, order, l + 1, 0, 0, s, n, null);
  }

  lemma {:induction false} TightRoot(g: Grid, order: nat, n: BPNode, root: BPNode, s: int, h: Grid, r: Grid)
    requires order >= 2 && g != [] && g[|g| - 1] != [] && Tight(g, order, |g| - 1, 0)
    requires |g[|g| - 1][0].keys| > order && n !in Nodes(g) && n.lvl == |g| - 1 && root.lvl == |g|
    requires h == g[|g| - 1 := SplitRow(g[|g| - 1], 0, n)] && s == RightPart(g[|g| - 1][0], n).low
    requires h[|h| - 1] != [] && r == h + [[RootCell(root, s, h, n)]]
    ensures Due(r, order, |g|, 0, 0, s, n, null)
  {
    CrownedShape(g, order, n, root, s, h);
    assert DueAt(r, order, |g|, 0, 0, s, n, null);
  }

  lemma {:induction false} TightBelow(g: Grid, order: nat, l: nat, i: nat, n: BPNode, x: BPNode, s: int, r: Grid,
                                      a: nat) returns (j: nat)
    requires order >= 2 && Tight(g, order, l, i) && l + 1 < |g| && i < |g[l]| && |g[l][i].keys| > order
    requires n !in Nodes(g) && n.lvl == l && x == g[l][i].nd && s == RightPart(g[l][i], n).low
    requires r == g[l := SplitRow(g[l], i, n)] && Held(r) && a < |r[l + 1]| && x.parent == r[l + 1][a].nd
    ensures Due(r, order, l + 1, a, j, s, n, x.parent)
  {
    j := ParentDue(g, order, l, i, n, x, s, r, a);
  }

  lemma {:induction false} DueWhole(g: Grid, order: nat, l: nat, i: nat, j: nat, s: int, n: BPNode)
    requires Due(g, order, l, i, j, s, n, null)
    ensures Shape(g, order)
  {
  }

  // ---------- the leaf ----------

  // the leaf with the key: it is the node with a key too many, or all is done
  lemma {:induction false} KeyedRipe(o: Grid, p: nat, j: nat, k: int, w: Grid)
    requires Links(o) && |o[|o| - 1]| == 1 && p < |o[0]| && j <= |o[0][p].keys|
    requires w == o[0 := KeyedRow(o[0], p, j, k)]
    ensures Free(w) && p < |w[0]| && |w[0][p].keys| == |o[0][p].keys| + 1
    ensures |w[0][p].keys| >= 2 ==> Ripened(o, w, 0, p, o[0][p].nd)
    ensures Nodes(w) <= Nodes(o) && Top(w) == Top(o)
  {
    var c := Keyed(o[0][p], j, k);
    LinkedFree(o);
    assert Tagged(o[0], 0) && KidsUnder(o[0], 0) && Under(o[0][p], 0);
    TaggedOne(o[0], p, c, 0);
    PutAt(o[0], p, [c], p);
    forall a | 0 <= a < |w[0]| ensures Under(w[0][a], 0) {
      PutAt(o[0], p, [c], a);
      assert Under(o[0][a], 0);
    }
    SameNodes(o, 0, p, c);
    KeyedNodes(o, p, j, k);
    TopWith(o, 0, p, c);
  }

  lemma {:induction false} ChainAscends(g: Grid, order: nat)
    requires Shape(g, order)
    ensures Ascending(Flat(g[0]))
  {
    assert Level(g[0], 0);
    FlatAscending(g[0], |g[0]|);
    assert g[0][..|g[0]|] == g[0];
  }

  // the leaf with the key, and whether the key is new
  lemma {:induction false} KeyedLeaf(g: Grid, order: nat, p: nat, j: nat, k: int, w: Grid, q: nat) returns (isNew: bool)
    requires order >= 2 && Shape(g, order) && Within(g[0], p, k) && LowerAt(g[0][p].keys, j, k)
    requires w == g[0 := KeyedRow(g[0], p, j, k)] && q == |Flat(g[0][..p])| + j
    ensures isNew <==> k !in Flat(g[0])
    ensures LowerAt(Flat(g[0]), q, k) && w != [] && Flat(w[0]) == Insert(Flat(g[0]), q, k)
    ensures Nodes(w) <= Nodes(g) && Nodes(g) <= Nodes(w) && p < |w[0]| && Kids(w[0][p]) == {}
    ensures |w[0][p].keys| == |g[0][p].keys| + 1
    ensures |w[0][p].keys| > order ==> Ripened(g, w, 0, p, g[0][p].nd)
    ensures isNew ==> Tight(w, order, 0, p)
  {
    assert Level(g[0], 0);
    LowerOfAll(g[0], p, j, k, q);
    KeyedRipe(g, p, j, k, w);
    SameNodes(g, 0, p, Keyed(g[0][p], j, k));
    assert KidsUnder(w[0], 0) && Under(w[0][p], 0);
    isNew := k !in Flat(g[0]);
    if isNew {
      KeyedLinks(g, p, j, k);
      KeyedSizes(g, order, p, j, k);
      assert TightAt(w, order, 0, p);
    }
  }

  lemma {:induction false} TightShape(w: Grid, order: nat, p: nat)
    requires Tight(w, order, 0, p) && w != [] && p < |w[0]| && |w[0][p].keys| <= order
    ensures Shape(w, order)
  {
  }

  // where a key goes among all keys
  lemma {:induction false} LowerOfAll(row: Row, p: nat, j: nat, k: int, q: nat)
    requires LeafRow(row) && Rising(row) && Within(row, p, k) && LowerAt(row[p].keys, j, k)
    requires q == |Flat(row[..p])| + j
    ensures LowerAt(Flat(row), q, k) && Flat(KeyedRow(row, p, j, k)) == Insert(Flat(row), q, k)
    ensures k in Flat(row) <==> k in row[p].keys
  {
    OnlyHere(row, p, k);
    KeyedKeys(row, p, j, k);
    var a, m, b := Flat(row[..p]), row[p].keys, Flat(row[p + 1..]);
    forall i | 0 <= i < |Flat(row)|
      ensures i < q ==> Flat(row)[i] < k
      ensures i >= q ==> k <= Flat(row)[i]
    {
      if i < |a| { assert Flat(row)[i] == a[i]; }
      else if i < |a| + |m| { assert Flat(row)[i] == m[i - |a|]; }
      else { assert Flat(row)[i] == b[i - |a| - |m|]; }
    }
  }

  // once more in the chain
  lemma {:induction false} InsertedKeys(s: seq<int>, q: nat, k: int)
    requires Ascending(s) && LowerAt(s, q, k)
    ensures forall x :: x in Insert(s, q, k) <==> x in s || x == k
    ensures Ascending(Insert(s, q, k)) <==> k !in s
  {
    var r := Insert(s, q, k);
    forall x | true ensures x in r <==> x in s || x == k { InsertMember(s, q, k, x); }
    if k in s {
      assert q < |s| && s[q] == k by { var i :| 0 <= i < |s| && s[i] == k; }
      assert r[q] == k && r[q + 1] == k;
    } else {
      InsertAscending(s, q, k);
    }
  }
}
