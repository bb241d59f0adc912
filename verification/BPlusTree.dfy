/**
 * `BPlusTree` of Data_structures/B+Tree.cpp: search, insertion and range lookup, in place.
 */
module BPlusTreeModel {
  import opened BPlusRows
  import opened BPlusSteps
  import opened BPlusHeap
  import opened BPlusSearch
  import opened BPlusSplits
  import opened BPlusWaits
  import BTreeModel

  class BPlusTree {
    const order: nat
    var tree: BPNode?
    // the nodes of every level, leaves first, none for the empty tree
    ghost var grid: Grid

    ghost predicate Valid()
      reads this, tree, Nodes(grid), AllKids(grid)
    {
      order >= 2 && if tree == null then grid == [] else Shape(grid, order) && Held(grid) && Rooted(grid)
    }

    ghost predicate Rooted(g: Grid)
      reads this, tree
    {
      tree != null && tree == Top(g) && tree.parent == null
    }

    // the keys in the order of the leaf chain
    ghost function Keys(): seq<int>
      reads this
    {
      if grid == [] then [] else Flat(grid[0])
    }

    constructor (order: nat)
      requires order >= 2
      ensures Valid() && Keys() == [] && this.order == order
    {
      this.order, tree, grid := order, null, [];
    }

    // the leaf for a key
    method FindLeaf(k: int) returns (res: int, x: BPNode, ghost p: nat)
      requires Valid() && tree != null
      ensures Here(grid, 0, p, k, x) && res == if k in Keys() then k else -1
    {
      ghost var g := grid;
      assert Here(g, |g| - 1, 0, k, tree) by { assert HereAt(g, |g| - 1, 0, k, tree); }
      res, x, p := Search(tree, k, g, |g| - 1, 0);
      InLeaf(g, p, k, x);
    }

    // ---------- insertion ----------

    // In what follows o is the grid before the insertion, and isNew says that
    // the key was not in it.  Then the tree comes out whole; otherwise only
    // nodes, pointers and the leaf chain are accounted for.

    // Either all is done, or the node x of level l is to take n with the key s.
    ghost predicate Standing(isNew: bool, o: Grid, g: Grid, l: nat, i: nat, j: nat, s: int, n: BPNode, x: BPNode?)
      reads this, tree, Nodes(g), AllKids(g), n
    {
      exists m: nat :: m == l && StandingAt(isNew, o, g, m, i, j, s, n, x)
    }

    ghost predicate StandingAt(isNew: bool, o: Grid, g: Grid, l: nat, i: nat, j: nat, s: int, n: BPNode, x: BPNode?)
      reads this, tree, Nodes(g), AllKids(g), n
    {
      g != [] && Rooted(g) && (isNew ==> Due(g, order, l, i, j, s, n, x))
      && if x == null then Held(g) else l < |g| && Waits(o, g, l, i, n, x)
    }

    // node x of level l has a key too many
    ghost predicate Full(isNew: bool, o: Grid, g: Grid, l: nat, i: nat, x: BPNode)
      reads this, tree, Nodes(g), AllKids(g)
    {
      exists m: nat :: m == l && FullAt(isNew, o, g, m, i, x)
    }

    ghost predicate FullAt(isNew: bool, o: Grid, g: Grid, l: nat, i: nat, x: BPNode)
      reads this, tree, Nodes(g), AllKids(g)
    {
      Rooted(g) && RipeAt(o, g, l, i, x) && (isNew ==> Tight(g, order, l, i) && |g[l][i].keys| > order)
    }

    method HalveUnder(x: BPNode, ghost g: Grid, ghost l: nat, ghost i: nat) returns (n: BPNode, s: int, ghost r: Grid)
      requires Held(g) && Free(g) && l + 1 < |g| && i < |g[l]| && x == g[l][i].nd && |g[l][i].keys| >= 2
      requires (l > 0 ==> InnerAt(g[l][i]) && KidsOwn(g[l], i)) && Rooted(g)
      modifies x`keys, x`vnode, x`next, Kids(g[l][i])`parent
      ensures fresh(n) && n.lvl == l && n.parent == x.parent == old(x.parent) && s == RightPart(g[l][i], n).low
      ensures r == g[l := SplitRow(g[l], i, n)] && Held(r) && Rooted(r) && n !in Nodes(g)
    {
      assert allocated(Nodes(g));
      RootOnTop(g, l, i);
      NotOwnKid(g, l, i);
      n, s, r := Halve(x, g, l, i);
      TopStays(g, l, SplitRow(g[l], i, n));
    }

    // the parent of a split node has a node to take
    method SplitBelow(x: BPNode, ghost isNew: bool, ghost o: Grid, ghost g: Grid, ghost l: nat, ghost i: nat,
                      ghost a: nat)
      returns (up: BPNode?, s: int, n: BPNode, ghost r: Grid, ghost j: nat)
      requires order >= 2 && Full(isNew, o, g, l, i, x) && l + 1 < |g| && i < |g[l]| && a < |g[l + 1]|
      requires x.parent == g[l + 1][a].nd
      modifies x`keys, x`vnode, x`next, Kids(g[l][i])`parent
      ensures up != null && Standing(isNew, o, r, l + 1, a, j, s, n, up) && |r| == |g| && Kin(g, r, n, n) && fresh(n)
    {
      assert FullAt(isNew, o, g, l, i, x);
      up := x.parent;
      n, s, r := HalveUnder(x, g, l, i);
      KinSplit(g, l, i, n);
      SplitWaits(o, g, l, i, x, n, r, a);
      j := 0;
      if isNew { j := TightBelow(g, order, l, i, n, x, s, r, a); }
      assert WaitsAt(o, r, l + 1, a, n, up);
      assert StandingAt(isNew, o, r, l + 1, a, j, s, n, up);
    }

    // a split root gets a new root above
    method SplitRoot(x: BPNode, ghost isNew: bool, ghost o: Grid, ghost g: Grid)
      returns (s: int, n: BPNode, ghost r: Grid, ghost root: BPNode)
      requires order >= 2 && g != [] && g[|g| - 1] != [] && Full(isNew, o, g, |g| - 1, 0, x)
      modifies this`tree, x`keys, x`vnode, x`next, x`parent, Kids(g[|g| - 1][0])`parent
      ensures Standing(isNew, o, r, |g|, 0, 0, s, n, null) && Kin(g, r, n, root) && fresh(n) && fresh(root)
    {
      assert FullAt(isNew, o, g, |g| - 1, 0, x) && allocated(Nodes(g));
      ghost var h;
      n, s, h := Halve(x, g, |g| - 1, 0);
      TopHalved(g, n, h);
      KinSplit(g, |g| - 1, 0, n);
      r := CrownTop(x, s, n, h);
      if isNew { TightRoot(g, order, n, tree, s, h, r); }
      KinMore(g, h, n, RootCell(tree, s, h, n));
      root := tree;
      assert StandingAt(isNew, o, r, |g|, 0, 0, s, n, null);
    }

    method CrownTop(x: BPNode, s: int, n: BPNode, ghost h: Grid) returns (ghost r: Grid)
      requires Held(h) && Free(h) && x == Top(h) && n.lvl == |h| - 1
      modifies this`tree, x`parent, n`parent
      ensures tree != null && fresh(tree) && tree.lvl == |h| && Rooted(r) && Held(r)
      ensures h != [] && h[|h| - 1] != [] && r == h + [[RootCell(tree, s, h, n)]]
    {
      tree := NewRoot(x, s, n, h);
      r := h + [[RootCell(tree, s, h, n)]];
    }

    lemma {:induction false} SeeFull(isNew: bool, o: Grid, g: Grid, l: nat, i: nat, x: BPNode) returns (a: nat)
      requires Full(isNew, o, g, l, i, x) && l < |g| && i < |g[l]|
      ensures x.parent == null <==> l + 1 == |g|
      ensures l + 1 < |g| ==> a < |g[l + 1]| && x.parent == g[l + 1][a].nd
      ensures l + 1 == |g| ==> i == 0
    {
      assert FullAt(isNew, o, g, l, i, x);
      a := RipeParent(o, g, l, i, x);
      if l + 1 < |g| { ParentOf(g, l + 1, a, x); }
    }

    // a node with a key too many is split
    method SplitUp(x: BPNode, ghost isNew: bool, ghost o: Grid, ghost g: Grid, ghost l: nat, ghost i: nat)
      returns (up: BPNode?, s: int, n: BPNode, ghost r: Grid, ghost a: nat, ghost j: nat)
      requires order >= 2 && l < |g| && i < |g[l]| && Full(isNew, o, g, l, i, x)
      modifies this`tree, x`keys, x`vnode, x`next, x`parent, Kids(g[l][i])`parent
      ensures Standing(isNew, o, r, l + 1, a, j, s, n, up) && (up != null ==> |r| == |g| && l + 1 < |g|)
      ensures r != [] && Flat(r[0]) == Flat(g[0]) && forall y :: y in Nodes(r) ==> y in Nodes(g) || fresh(y)
    {
      a := SeeFull(isNew, o, g, l, i, x);
      if x.parent == null {
        ghost var root;
        s, n, r, root := SplitRoot(x, isNew, o, g);
        up, a, j := null, 0, 0;
      } else {
        up, s, n, r, j := SplitBelow(x, isNew, o, g, l, i, a);
      }
    }

    // an inner node takes a key and a child, and is split if it was full
    method MendInner(x: BPNode, s: int, n: BPNode, ghost isNew: bool, ghost o: Grid, ghost g: Grid, ghost l: nat,
                     ghost i: nat, ghost j: nat)
      returns (up: BPNode?, s': int, n': BPNode, ghost r: Grid, ghost a: nat, ghost j': nat)
      requires order >= 2 && Standing(isNew, o, g, l, i, j, s, n, x)
      modifies this`tree, Nodes(g)
      ensures Standing(isNew, o, r, l + 1, a, j', s', n', up) && (up != null ==> |r| == |g| && l + 1 < |g|)
      ensures g != [] && r != [] && Flat(r[0]) == Flat(g[0]) && forall y :: y in Nodes(r) ==> y in Nodes(g) || fresh(y)
    {
      SeeWaiting(isNew, o, g, l, i, j, s, n, x);
      assert allocated(Nodes(g));
      var full;
      ghost var w;
      full, w := TakeChild(x, s, n, isNew, o, g, l, i, j);
      up, s', n', r, a, j' := null, s, n, w, 0, 0;
      if full {
        up, s', n', r, a, j' := SplitUp(x, isNew, o, w, l, i);
      }
    }

    lemma {:induction false} SeeWaiting(isNew: bool, o: Grid, g: Grid, l: nat, i: nat, j: nat, s: int, n: BPNode,
                                        x: BPNode)
      requires Standing(isNew, o, g, l, i, j, s, n, x)
      ensures l < |g| && i < |g[l]| && x in Nodes(g) && x == g[l][i].nd
      ensures Held(g) && Waiting(o, g, l, i, n, x) && n.parent == x
      ensures Rooted(g) && InnerAt(g[l][i]) && Ascending(g[l][i].keys) && x.keys == g[l][i].keys
      ensures isNew ==> Due(g, order, l, i, j, s, n, x)
    {
      assert StandingAt(isNew, o, g, l, i, j, s, n, x);
      assert WaitsAt(o, g, l, i, n, x);
      WaitsCell(o, g, l, i, n, x);
      SeeCell(g, l, i);
    }

    // the node with key and child: it is to be split, or all is done
    method TakeChild(x: BPNode, s: int, n: BPNode, ghost isNew: bool, ghost o: Grid, ghost g: Grid, ghost l: nat,
                     ghost i: nat, ghost j: nat)
      returns (full: bool, ghost w: Grid)
      requires order >= 2 && Standing(isNew, o, g, l, i, j, s, n, x)
      modifies x`keys, x`vnode
      ensures l < |w| && i < |w[l]| && (full ==> Full(isNew, o, w, l, i, x))
      ensures !full ==> Standing(isNew, o, w, l + 1, 0, 0, s, n, null)
      ensures g != [] && |w| == |g| && Flat(w[0]) == Flat(g[0]) && Nodes(w) <= Nodes(g) && Kids(w[l][i]) <= Nodes(g)
    {
      SeeWaiting(isNew, o, g, l, i, j, s, n, x);
      var at := BTreeModel.LowerBound(x.keys, s);
      full := |x.keys| + 1 > order;
      w := Widen(x, at, s, n, isNew, o, g, l, i, j);
      if full {
        assert FullAt(isNew, o, w, l, i, x);
      } else {
        if isNew { TightWhole(w, order, l, i, s, n); }
        assert StandingAt(isNew, o, w, l + 1, 0, 0, s, n, null);
      }
    }

    method Widen(x: BPNode, at: nat, s: int, n: BPNode, ghost isNew: bool, ghost o: Grid, ghost g: Grid, ghost l: nat,
                 ghost i: nat, ghost j: nat)
      returns (ghost w: Grid)
      requires Held(g) && Waiting(o, g, l, i, n, x) && n.parent == x && Rooted(g) && InnerAt(g[l][i])
      requires LowerAt(g[l][i].keys, at, s) && (isNew ==> Due(g, order, l, i, j, s, n, x))
      modifies x`keys, x`vnode
      ensures Held(w) && Ripened(o, w, l, i, x) && Rooted(w) && (isNew ==> Tight(w, order, l, i))
      ensures |w[l][i].keys| == |g[l][i].keys| + 1
      ensures |w| == |g| && Flat(w[0]) == Flat(g[0]) && Nodes(w) <= Nodes(g) && Kids(w[l][i]) <= Nodes(g)
    {
      w := WidenRooted(x, at, s, n, g, l, i);
      Taken(o, g, l, i, n, x, at, s, w);
      if isNew { TakenTight(g, order, l, i, j, s, n, x, at, w); }
    }

    method WidenRooted(x: BPNode, at: nat, s: int, n: BPNode, ghost g: Grid, ghost l: nat, ghost i: nat)
      returns (ghost w: Grid)
      requires Held(g) && Free(g) && 0 < l < |g| && i < |g[l]| && x == g[l][i].nd && InnerAt(g[l][i])
      requires at <= |g[l][i].keys| && n.parent == x && Rooted(g)
      modifies x`keys, x`vnode
      ensures w == g[l := WiderRow(g[l], i, at, s, n)] && Held(w) && Rooted(w)
    {
      TopWith(g, l, i, Wider(g[l][i], at, s, n));
      WidenInner(x, at, s, n, g, l, i);
      w := g[l := WiderRow(g[l], i, at, s, n)];
    }

    // up from the parent of a split node until one had room, or past the root
    method Climb(start: BPNode?, s0: int, n0: BPNode, ghost isNew: bool, ghost o: Grid, ghost g0: Grid, ghost l0: nat,
                 ghost i0: nat, ghost j0: nat)
      returns (ghost g: Grid)
      requires order >= 2 && g0 != [] && Standing(isNew, o, g0, l0, i0, j0, s0, n0, start)
      requires start != null ==> l0 < |g0|
      modifies this`tree, Nodes(g0)
      ensures Rooted(g) && Held(g) && (isNew ==> Shape(g, order))
      ensures g != [] && Flat(g[0]) == Flat(g0[0]) && forall y :: y in Nodes(g) ==> y in Nodes(g0) || fresh(y)
    {
      var x, s, n := start, s0, n0;
      ghost var l: nat, i: nat, j: nat := l0, i0, j0;
      g := g0;
      while x != null
        invariant Standing(isNew, o, g, l, i, j, s, n, x) && (x != null ==> l < |g|)
        invariant g != [] && Flat(g[0]) == Flat(g0[0]) && forall y :: y in Nodes(g) ==> y in Nodes(g0) || fresh(y)
        decreases if x == null then 0 else 1 + |g| - l
      {
        x, s, n, g, i, j := MendInner(x, s, n, isNew, o, g, l, i, j);
        l := l + 1;
      }
      SeeDone(isNew, o, g, l, i, j, s, n);
    }

    lemma {:induction false} SeeDone(isNew: bool, o: Grid, g: Grid, l: nat, i: nat, j: nat, s: int, n: BPNode)
      requires Standing(isNew, o, g, l, i, j, s, n, null)
      ensures Rooted(g) && Held(g) && (isNew ==> Shape(g, order))
    {
      assert StandingAt(isNew, o, g, l, i, j, s, n, null);
      if isNew { DueWhole(g, order, l, i, j, s, n); }
    }

    // a leaf takes a key
    method KeyIn(x: BPNode, k: int, ghost g: Grid, ghost p: nat) returns (full: bool, ghost w: Grid, ghost j: nat)
      requires order >= 2 && Rooted(g) && Shape(g, order) && Held(g) && p < |g[0]| && x == g[0][p].nd
      modifies x`keys, x`vnode
      ensures w == g[0 := KeyedRow(g[0], p, j, k)] && LowerAt(g[0][p].keys, j, k) && Held(w) && Rooted(w)
      ensures full <==> |g[0][p].keys| + 1 > order
    {
      SeeCell(g, 0, p);
      KeysAscend(g, 0, p);
      full := |x.keys| + 1 > order;
      var at := BTreeModel.LowerBound(x.keys, k);
      j := at;
      w := g[0 := KeyedRow(g[0], p, j, k)];
      KeyedRipe(g, p, j, k, w);
      LinkedFree(g);
      KeyLeaf(x, at, k, if full then at + 1 else at, g, p);
    }

    // the root and the leaf chain
    ghost predicate Chained()
      reads this, tree, Nodes(grid), AllKids(grid)
    {
      order >= 2 && grid != [] && Rooted(grid) && Held(grid)
    }

    // `insertion`: the leaf chain gets the key at its place, once more if it is
    // there already, and then the tree is none any more.
    method Insertion(k: int) returns (ghost q: nat)
      requires Valid()
      modifies this, Nodes(grid)
      ensures Chained() && LowerAt(old(Keys()), q, k) && Keys() == Insert(old(Keys()), q, k)
      ensures forall x :: x in Keys() <==> x in old(Keys()) || x == k
      ensures (Valid() <==> k !in old(Keys())) && (Ascending(Keys()) <==> k !in old(Keys()))
      ensures forall y :: y in Nodes(grid) ==> y in old(Nodes(grid)) || fresh(y)
    {
      q := 0;
      if tree == null { FirstLeaf(k); } else { q := InsertBelow(k); }
    }

    method InsertBelow(k: int) returns (ghost q: nat)
      requires Valid() && tree != null
      modifies this, Nodes(grid)
      ensures Chained() && LowerAt(old(Keys()), q, k) && Keys() == Insert(old(Keys()), q, k)
      ensures forall x :: x in Keys() <==> x in old(Keys()) || x == k
      ensures (Valid() <==> k !in old(Keys())) && (Ascending(Keys()) <==> k !in old(Keys()))
      ensures forall y :: y in Nodes(grid) ==> y in old(Nodes(grid)) || fresh(y)
    {
      ghost var g := grid;
      assert allocated(Nodes(g)) && allocated(AllKids(g));
      ChainAscends(g, order);
      var x;
      ghost var p;
      x, p := LeafFor(k, g);
      grid, q := InsertIn(x, k, g, p);
      Outcome(Flat(g[0]), q, k);
    }

    lemma {:induction false} Outcome(s: seq<int>, q: nat, k: int)
      requires Chained() && Ascending(s) && LowerAt(s, q, k) && Keys() == Insert(s, q, k)
      requires k !in s ==> Shape(grid, order)
      ensures forall x :: x in Keys() <==> x in s || x == k
      ensures (Valid() <==> k !in s) && (Ascending(Keys()) <==> k !in s)
    {
      InsertedKeys(s, q, k);
      if Valid() { ChainAscends(grid, order); }
    }

    method LeafFor(k: int, ghost g: Grid) returns (x: BPNode, ghost p: nat)
      requires Valid() && tree != null && g == grid
      ensures Within(g[0], p, k) && x == g[0][p].nd && x in Nodes(g)
      ensures order >= 2 && Rooted(g) && Shape(g, order) && Held(g)
    {
      assert allocated(Nodes(g)) && allocated(AllKids(g));
      var res;
      res, x, p := FindLeaf(k);
      InLeaf(g, p, k, x);
      CellInGrid(g, 0, p);
    }

    method InsertIn(x: BPNode, k: int, ghost g: Grid, ghost p: nat) returns (ghost r: Grid, ghost q: nat)
      requires order >= 2 && Rooted(g) && Shape(g, order) && Held(g)
      requires Within(g[0], p, k) && x == g[0][p].nd && x in Nodes(g)
      modifies this`tree, Nodes(g)
      ensures Rooted(r) && Held(r) && r != [] && (k !in Flat(g[0]) ==> Shape(r, order))
      ensures LowerAt(Flat(g[0]), q, k) && Flat(r[0]) == Insert(Flat(g[0]), q, k)
      ensures forall y :: y in Nodes(r) ==> y in Nodes(g) || fresh(y)
    {
      ghost var w, j;
      assert allocated(Nodes(g));
      var full;
      full, w, j := KeyIn(x, k, g, p);
      q := |Flat(g[0][..p])| + j;
      ghost var isNew := KeyedLeaf(g, order, p, j, k, w, q);
      r := w;
      if full {
        assert FullAt(isNew, g, w, 0, p, x);
        r := SplitOn(x, isNew, g, w, p);
      } else if isNew {
        TightShape(w, order, p);
      }
    }

    // the leaf is split, and the nodes above mended
    method SplitOn(x: BPNode, ghost isNew: bool, ghost o: Grid, ghost w: Grid, ghost p: nat) returns (ghost g: Grid)
      requires order >= 2 && w != [] && p < |w[0]| && Full(isNew, o, w, 0, p, x) && x in Nodes(w) && Kids(w[0][p]) == {}
      modifies this`tree, Nodes(w)
      ensures Rooted(g) && Held(g) && (isNew ==> Shape(g, order)) && g != [] && Flat(g[0]) == Flat(w[0])
      ensures forall y :: y in Nodes(g) ==> y in Nodes(w) || fresh(y)
    {
      var up, s, n;
      ghost var r, a, j;
      up, s, n, r, a, j := SplitUp(x, isNew, o, w, 0, p);
      g := Climb(up, s, n, isNew, o, r, 1, a, j);
    }

    method FirstLeaf(k: int)
      requires Valid() && tree == null
      modifies this
      ensures Valid() && Chained() && Keys() == [k] && forall y :: y in Nodes(grid) ==> fresh(y)
    {
      var n := new BPNode(true, 0);
      n.keys, n.vnode := [k], [null, null];
      tree := n;
      grid := [[Cell(n, [k], [], 0)]];
      OneLeaf(n, k, order);
    }
  }
}
