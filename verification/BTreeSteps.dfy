/** What one step of the B-tree's rebalancing does to the tree, as a function on trees, and
    what each step keeps: the entries in order, the shape, and the nodes. */
module BTreeSteps {
  import opened SortedEntries
  import opened BTreeShape

  ghost function Whole(ks: seq<int>, vs: seq<Value>, kids: seq<Tree>): seq<Entry>
    requires |ks| == |vs| && |kids| == |ks| + 1
  {
    Flat(kids[0]) + Runs(ks, vs, kids[1..])
  }

  /** Two nodes and an entry between them make one node. */
  lemma {:induction false} Glue(ks: seq<int>, vs: seq<Value>, kids: seq<Tree>, k: int, v: Value,
             ks': seq<int>, vs': seq<Value>, kids': seq<Tree>)
    requires |ks| == |vs| && |kids| == |ks| + 1 && |ks'| == |vs'| && |kids'| == |ks'| + 1
    ensures Whole(ks + [k] + ks', vs + [v] + vs', kids + kids')
         == Whole(ks, vs, kids) + [(k, v)] + Whole(ks', vs', kids')
  {
    var ks2, vs2 := [k] + ks', [v] + vs';
    assert ks + [k] + ks' == ks + ks2 && vs + [v] + vs' == vs + vs2;
    assert (kids + kids')[1..] == kids[1..] + kids' && (kids + kids')[0] == kids[0];
    RunsAppend(ks, vs, kids[1..], ks2, vs2, kids');
    assert ks2[1..] == ks' && vs2[1..] == vs';
    Shift2(Flat(kids[0]), Runs(ks, vs, kids[1..]), [(k, v)], Flat(kids'[0]), Runs(ks', vs', kids'[1..]));
  }

  lemma {:induction false} Shift2(a: seq<Entry>, b: seq<Entry>, c: seq<Entry>, d: seq<Entry>, e: seq<Entry>)
    ensures a + (b + (c + d + e)) == (a + b) + c + (d + e)
  {
    assert b + (c + d + e) == b + c + d + e;
  }

  ghost function Left(t: Tree, i: nat): seq<Entry>
    requires t.Node? && Aligned(t) && i < |t.kids|
  {
    Lead(t.keys[..i], t.values[..i], t.kids[..i])
  }

  ghost function Right(t: Tree, i: nat): seq<Entry>
    requires t.Node? && Aligned(t) && i < |t.kids|
  {
    Runs(t.keys[i..], t.values[i..], t.kids[i + 1..])
  }

  /** The entries of a node around its child `i`. */
  lemma {:induction false} FlatAt(t: Tree, i: nat)
    requires t.Node? && Aligned(t) && i < |t.kids|
    ensures Flat(t) == Left(t, i) + Flat(t.kids[i]) + Right(t, i)
  {
    var c := Enter(Top, t, i);
    FillEnter(Top, t, i);
    FlatFill(c, t.kids[i]);
  }

  /** The entries of a node around its key `i`. */
  lemma {:induction false} FlatWindow(t: Tree, i: nat)
    requires t.Node? && Aligned(t) && i < |t.keys|
    ensures Flat(t)
         == Left(t, i) + (Flat(t.kids[i]) + [(t.keys[i], t.values[i])] + Flat(t.kids[i + 1])) + Right(t, i + 1)
  {
    FlatAt(t, i);
    assert t.keys[i..][1..] == t.keys[i + 1..];
    assert t.values[i..][1..] == t.values[i + 1..];
    assert t.kids[i + 1..][1..] == t.kids[i + 2..];
    Shift3(Left(t, i), Flat(t.kids[i]), [(t.keys[i], t.values[i])], Flat(t.kids[i + 1]), Right(t, i + 1));
  }

  lemma {:induction false} Shift3(a: seq<Entry>, b: seq<Entry>, c: seq<Entry>, d: seq<Entry>, e: seq<Entry>)
    ensures a + b + (c + d + e) == a + (b + c + d) + e
  {
    assert a + b + (c + d + e) == a + b + c + d + e;
  }

  /** Child `j` may be one key short; everything else is as `Shape` asks. */
  ghost predicate ShapeBut(t: Tree, j: nat, h: nat, order: nat, lo: int) {
    && t.Node? && h > 1
    && |t.values| == |t.keys| && |t.kids| == |t.keys| + 1 && j < |t.kids|
    && lo <= |t.keys| <= order
    && (forall i :: 0 <= i < |t.kids| && i != j ==> Shape(t.kids[i], h - 1, order, MinKeys(order)))
    && Shape(t.kids[j], h - 1, order, MinKeys(order) - 1)
    && |t.kids[j].keys| < MinKeys(order)
  }

  ghost predicate Pair(t: Tree, i: nat) {
    && t.Node? && Aligned(t) && i < |t.keys|
    && t.kids[i].Node? && Aligned(t.kids[i])
    && t.kids[i + 1].Node? && Aligned(t.kids[i + 1])
  }

  // -------------------------------------------------------------- borrowing

  ghost function PopBack(t: Tree): Tree
    requires t.Node? && Aligned(t) && |t.keys| > 0
  {
    var e := |t.keys| - 1;
    Node(t.nd, t.keys[..e], t.values[..e], t.kids[..e + 1])
  }

  ghost function PopFront(t: Tree): Tree
    requires t.Node? && Aligned(t) && |t.keys| > 0
  {
    Node(t.nd, t.keys[1..], t.values[1..], t.kids[1..])
  }

  ghost function PushFront(m: Tree, k: int, v: Value, t: Tree): Tree
    requires t.Node?
  {
    Node(t.nd, [k] + t.keys, [v] + t.values, [m] + t.kids)
  }

  ghost function PushBack(t: Tree, k: int, v: Value, m: Tree): Tree
    requires t.Node?
  {
    Node(t.nd, t.keys + [k], t.values + [v], t.kids + [m])
  }

  /** The last entry of child `i` goes up, the separator goes down to the front of child `i + 1`. */
  ghost function RotateRight(t: Tree, i: nat): Tree
    requires Pair(t, i) && |t.kids[i].keys| > 0
  {
    var l, r := t.kids[i], t.kids[i + 1];
    var e := |l.keys| - 1;
    Node(t.nd, t.keys[i := l.keys[e]], t.values[i := l.values[e]],
         t.kids[i := PopBack(l)][i + 1 := PushFront(l.kids[e + 1], t.keys[i], t.values[i], r)])
  }

  /** The first entry of child `i + 1` goes up, the separator goes down to the end of child `i`. */
  ghost function RotateLeft(t: Tree, i: nat): Tree
    requires Pair(t, i) && |t.kids[i + 1].keys| > 0
  {
    var l, r := t.kids[i], t.kids[i + 1];
    Node(t.nd, t.keys[i := r.keys[0]], t.values[i := r.values[0]],
         t.kids[i := PushBack(l, t.keys[i], t.values[i], r.kids[0])][i + 1 := PopFront(r)])
  }

  /** Changing two neighbours and their separator without changing what the three mean. */
  lemma {:induction false} FlatSwapPair(t: Tree, i: nat, k: int, v: Value, l: Tree, r: Tree)
    requires t.Node? && Aligned(t) && i < |t.keys|
    requires Flat(l) + [(k, v)] + Flat(r) == Flat(t.kids[i]) + [(t.keys[i], t.values[i])] + Flat(t.kids[i + 1])
    ensures Flat(Node(t.nd, t.keys[i := k], t.values[i := v], t.kids[i := l][i + 1 := r])) == Flat(t)
  {
    var u := Node(t.nd, t.keys[i := k], t.values[i := v], t.kids[i := l][i + 1 := r]);
    FlatWindow(t, i);
    FlatWindow(u, i);
    assert u.keys[..i] == t.keys[..i] && u.values[..i] == t.values[..i] && u.kids[..i] == t.kids[..i];
    assert u.keys[i + 1..] == t.keys[i + 1..] && u.values[i + 1..] == t.values[i + 1..];
    assert u.kids[i + 2..] == t.kids[i + 2..];
  }

  /** A node without its last entry and last child. */
  lemma {:induction false} FlatPopBack(t: Tree)
    requires t.Node? && Aligned(t) && |t.keys| > 0
    ensures var e := |t.keys| - 1;
      Flat(t) == Flat(PopBack(t)) + [(t.keys[e], t.values[e])] + Flat(t.kids[e + 1])
  {
    var e := |t.keys| - 1;
    var m := t.kids[e + 1];
    Glue(t.keys[..e], t.values[..e], t.kids[..e + 1], t.keys[e], t.values[e], [], [], [m]);
    assert t.keys[..e] + [t.keys[e]] + [] == t.keys && t.values[..e] + [t.values[e]] + [] == t.values;
    assert t.kids[..e + 1] + [m] == t.kids;
    assert Whole([], [], [m]) == Flat(m);
  }

  lemma {:induction false} FlatPushFront(m: Tree, k: int, v: Value, t: Tree)
    requires t.Node? && Aligned(t)
    ensures Flat(PushFront(m, k, v, t)) == Flat(m) + [(k, v)] + Flat(t)
  {
    Glue([], [], [m], k, v, t.keys, t.values, t.kids);
    assert [] + [k] + t.keys == [k] + t.keys && [] + [v] + t.values == [v] + t.values;
    assert Whole([], [], [m]) == Flat(m);
  }

  lemma {:induction false} FlatPushBack(t: Tree, k: int, v: Value, m: Tree)
    requires t.Node? && Aligned(t)
    ensures Flat(PushBack(t, k, v, m)) == Flat(t) + [(k, v)] + Flat(m)
  {
    var u := PushBack(t, k, v, m);
    FlatPopBack(u);
    assert u.keys[..|t.keys|] == t.keys && u.values[..|t.keys|] == t.values && u.kids[..|t.keys| + 1] == t.kids;
  }

  lemma {:induction false} FlatPopFront(t: Tree)
    requires t.Node? && Aligned(t) && |t.keys| > 0
    ensures Flat(t) == Flat(t.kids[0]) + [(t.keys[0], t.values[0])] + Flat(PopFront(t))
  {
    var u := PopFront(t);
    FlatPushFront(t.kids[0], t.keys[0], t.values[0], u);
    assert [t.keys[0]] + u.keys == t.keys && [t.values[0]] + u.values == t.values && [t.kids[0]] + u.kids == t.kids;
  }

  lemma {:induction false} FlatRotateRight(t: Tree, i: nat)
    requires Pair(t, i) && |t.kids[i].keys| > 0
    ensures Flat(RotateRight(t, i)) == Flat(t)
  {
    var l, r := t.kids[i], t.kids[i + 1];
    var e := |l.keys| - 1;
    var u := RotateRight(t, i);
    FlatPopBack(l);
    FlatPushFront(l.kids[e + 1], t.keys[i], t.values[i], r);
    Regroup3(Flat(u.kids[i]), [(l.keys[e], l.values[e])], Flat(l.kids[e + 1]), [(t.keys[i], t.values[i])], Flat(r));
    FlatSwapPair(t, i, l.keys[e], l.values[e], u.kids[i], u.kids[i + 1]);
  }

  lemma {:induction false} Regroup3(a: seq<Entry>, b: seq<Entry>, c: seq<Entry>, d: seq<Entry>, e: seq<Entry>)
    ensures (a + b + c) + d + e == a + b + (c + d + e)
  {
  }

  lemma {:induction false} FlatRotateLeft(t: Tree, i: nat)
    requires Pair(t, i) && |t.kids[i + 1].keys| > 0
    ensures Flat(RotateLeft(t, i)) == Flat(t)
  {
    var l, r := t.kids[i], t.kids[i + 1];
    var u := RotateLeft(t, i);
    FlatPopFront(r);
    FlatPushBack(l, t.keys[i], t.values[i], r.kids[0]);
    Regroup3(Flat(l), [(t.keys[i], t.values[i])], Flat(r.kids[0]), [(r.keys[0], r.values[0])], Flat(u.kids[i + 1]));
    FlatSwapPair(t, i, r.keys[0], r.values[0], u.kids[i], u.kids[i + 1]);
  }

  lemma {:induction false} ShapeRotateRight(t: Tree, i: nat, h: nat, order: nat, lo: int)
    requires Pair(t, i) && ShapeBut(t, i + 1, h, order, lo) && |t.kids[i].keys| > MinKeys(order) >= 0
    ensures Shape(RotateRight(t, i), h, order, lo)
  {
    var l, r := t.kids[i], t.kids[i + 1];
    var u := RotateRight(t, i);
    var r' := u.kids[i + 1];
    forall j | 0 <= j < |r'.kids| ensures Shape(r'.kids[j], h - 2, order, MinKeys(order)) {
      if j > 0 { assert r'.kids[j] == r.kids[j - 1]; }
    }
    forall j | 0 <= j < |u.kids| ensures Shape(u.kids[j], h - 1, order, MinKeys(order)) {
      if j != i && j != i + 1 { assert u.kids[j] == t.kids[j]; }
    }
  }

  lemma {:induction false} ShapeRotateLeft(t: Tree, i: nat, h: nat, order: nat, lo: int)
    requires Pair(t, i) && ShapeBut(t, i, h, order, lo) && |t.kids[i + 1].keys| > MinKeys(order) >= 0
    ensures Shape(RotateLeft(t, i), h, order, lo)
  {
    var l, r := t.kids[i], t.kids[i + 1];
    var u := RotateLeft(t, i);
    var l' := u.kids[i];
    forall j | 0 <= j < |l'.kids| ensures Shape(l'.kids[j], h - 2, order, MinKeys(order)) {
      if j < |l.kids| { assert l'.kids[j] == l.kids[j]; }
    }
    forall j | 0 <= j < |u.kids| ensures Shape(u.kids[j], h - 1, order, MinKeys(order)) {
      if j != i && j != i + 1 { assert u.kids[j] == t.kids[j]; }
    }
  }

  lemma {:induction false} BagSwapPair(t: Tree, i: nat, ks: seq<int>, vs: seq<Value>, l: Tree, r: Tree)
    requires t.Node? && i + 1 < |t.kids|
    requires Bag(l) + Bag(r) == Bag(t.kids[i]) + Bag(t.kids[i + 1])
    ensures Bag(Node(t.nd, ks, vs, t.kids[i := l][i + 1 := r])) == Bag(t)
  {
    var kids := t.kids[i := l][i + 1 := r];
    BagPairAt(t.kids, i);
    BagPairAt(kids, i);
    assert kids[..i] == t.kids[..i] && kids[i + 2..] == t.kids[i + 2..];
  }

  lemma {:induction false} BagPairAt(kids: seq<Tree>, i: nat)
    requires i + 1 < |kids|
    ensures BagOf(kids) == BagOf(kids[..i]) + (Bag(kids[i]) + Bag(kids[i + 1])) + BagOf(kids[i + 2..])
  {
    var a, b := kids[..i], kids[i..];
    BagAppend(a, b);
    assert kids == a + b;
    assert b[1..][1..] == kids[i + 2..] && b[0] == kids[i] && b[1..][0] == kids[i + 1];
  }

  lemma {:induction false} BagRotateRight(t: Tree, i: nat)
    requires Pair(t, i) && |t.kids[i].keys| > 0
    ensures Bag(RotateRight(t, i)) == Bag(t)
  {
    var l, r := t.kids[i], t.kids[i + 1];
    var e := |l.keys| - 1;
    var u := RotateRight(t, i);
    BagAppend(l.kids[..e + 1], [l.kids[e + 1]]);
    assert l.kids == l.kids[..e + 1] + [l.kids[e + 1]];
    BagAppend([l.kids[e + 1]], r.kids);
    BagSwapPair(t, i, u.keys, u.values, u.kids[i], u.kids[i + 1]);
  }

  lemma {:induction false} BagRotateLeft(t: Tree, i: nat)
    requires Pair(t, i) && |t.kids[i + 1].keys| > 0
    ensures Bag(RotateLeft(t, i)) == Bag(t)
  {
    var l, r := t.kids[i], t.kids[i + 1];
    var u := RotateLeft(t, i);
    BagAppend([r.kids[0]], r.kids[1..]);
    assert r.kids == [r.kids[0]] + r.kids[1..];
    BagAppend(l.kids, [r.kids[0]]);
    BagSwapPair(t, i, u.keys, u.values, u.kids[i], u.kids[i + 1]);
  }

  // ---------------------------------------------------------------- merging

  /** Children `i` and `i + 1` and the separator between them become child `i`. */
  ghost function Merge(t: Tree, i: nat): Tree
    requires Pair(t, i)
  {
    Node(t.nd, t.keys[..i] + t.keys[i + 1..], t.values[..i] + t.values[i + 1..],
         t.kids[..i] + [Joined(t.kids[i], t.keys[i], t.values[i], t.kids[i + 1])] + t.kids[i + 2..])
  }

  ghost function Joined(l: Tree, k: int, v: Value, r: Tree): Tree
    requires l.Node? && r.Node?
  {
    Node(l.nd, l.keys + [k] + r.keys, l.values + [v] + r.values, l.kids + r.kids)
  }

  lemma {:induction false} FlatMerge(t: Tree, i: nat)
    requires Pair(t, i)
    ensures Flat(Merge(t, i)) == Flat(t)
  {
    var l, r := t.kids[i], t.kids[i + 1];
    var u := Merge(t, i);
    Glue(l.keys, l.values, l.kids, t.keys[i], t.values[i], r.keys, r.values, r.kids);
    FlatWindow(t, i);
    FlatAt(u, i);
    assert u.keys[..i] == t.keys[..i] && u.values[..i] == t.values[..i] && u.kids[..i] == t.kids[..i];
    assert u.keys[i..] == t.keys[i + 1..] && u.values[i..] == t.values[i + 1..];
    assert u.kids[i + 1..] == t.kids[i + 2..];
  }

  lemma {:induction false} ShapeMerge(t: Tree, i: nat, j: nat, h: nat, order: nat, lo: int)
    requires Pair(t, i) && (j == i || j == i + 1) && ShapeBut(t, j, h, order, lo)
    requires MinKeys(order) >= 1
    requires |t.kids[i].keys| <= MinKeys(order) && |t.kids[i + 1].keys| <= MinKeys(order)
    ensures Shape(Merge(t, i), h, order, lo - 1)
  {
    var l, r := t.kids[i], t.kids[i + 1];
    var u := Merge(t, i);
    var m := u.kids[i];
    forall q | 0 <= q < |m.kids| ensures Shape(m.kids[q], h - 2, order, MinKeys(order)) {
      if q < |l.kids| { assert m.kids[q] == l.kids[q]; } else { assert m.kids[q] == r.kids[q - |l.kids|]; }
    }
    forall q | 0 <= q < |u.kids| ensures Shape(u.kids[q], h - 1, order, MinKeys(order)) {
      if q < i { assert u.kids[q] == t.kids[q]; }
      if q > i { assert u.kids[q] == t.kids[q + 1]; }
    }
  }

  lemma {:induction false} BagMerge(t: Tree, i: nat)
    requires Pair(t, i)
    ensures Bag(Merge(t, i)) + multiset{t.kids[i + 1].nd} == Bag(t)
  {
    var l, r := t.kids[i], t.kids[i + 1];
    var u := Merge(t, i);
    var m := u.kids[i];
    BagAppend(l.kids, r.kids);
    BagPairAt(t.kids, i);
    BagAppend(t.kids[..i] + [m], t.kids[i + 2..]);
    BagAppend(t.kids[..i], [m]);
    assert BagOf([m]) == Bag(m);
  }

  // -------------------------------------------------------------- splitting

  /** The hole's child is replaced by two children with an entry between them. */
  ghost function Widen(c: Ctx, l: Tree, k: int, v: Value, r: Tree): Tree
    requires c.Frame? && AlignedCtx(c)
  {
    var m := |c.before|;
    Node(c.nd, c.keys[..m] + [k] + c.keys[m..], c.values[..m] + [v] + c.values[m..], c.before + [l] + [r] + c.after)
  }

  lemma {:induction false} FlatWiden(c: Ctx, l: Tree, k: int, v: Value, r: Tree)
    requires c.Frame? && AlignedCtx(c)
    ensures Flat(Widen(c, l, k, v, r)) ==
            Lead(c.keys[..|c.before|], c.values[..|c.before|], c.before) + (Flat(l) + [(k, v)] + Flat(r)) +
            Runs(c.keys[|c.before|..], c.values[|c.before|..], c.after)
  {
    var m := |c.before|;
    var u := Widen(c, l, k, v, r);
    FlatWindow(u, m);
    assert u.keys[..m] == c.keys[..m] && u.values[..m] == c.values[..m] && u.kids[..m] == c.before;
    assert u.keys[m + 1..] == c.keys[m..] && u.values[m + 1..] == c.values[m..] && u.kids[m + 2..] == c.after;
  }

  /** One entry more than before, so perhaps one too many. */
  lemma {:induction false} ShapeWiden(c: Ctx, l: Tree, k: int, v: Value, r: Tree, h: nat, order: nat)
    requires c.Frame? && AlignedCtx(c) && ShapeCtx(c, h, order)
    requires Shape(l, h, order, MinKeys(order)) && Shape(r, h, order, MinKeys(order))
    ensures Overfull(Widen(c, l, k, v, r), h + 1, order, if c.up.Top? then 1 else MinKeys(order))
  {
    var u := Widen(c, l, k, v, r);
    var m := |c.before|;
    forall i | 0 <= i < |u.kids| ensures Shape(u.kids[i], h, order, MinKeys(order)) {
      if i < m { assert u.kids[i] == c.before[i]; }
      if i > m + 1 { assert u.kids[i] == c.after[i - m - 2]; }
    }
  }

  /** Like `Shape`, but the topmost node may hold one key too many. */
  ghost predicate Overfull(t: Tree, h: nat, order: nat, lo: int) {
    && t.Node? && h > 0 && Aligned(t)
    && lo <= |t.keys| <= order + 1
    && forall i :: 0 <= i < |t.kids| ==> Shape(t.kids[i], h - 1, order, MinKeys(order))
  }

  /** A node that has outgrown its order is cut at `m`: what stays, what moves to `n`. */
  ghost function SplitLeft(t: Tree, m: nat): Tree
    requires t.Node? && Aligned(t) && m < |t.keys|
  {
    Node(t.nd, t.keys[..m], t.values[..m], t.kids[..m + 1])
  }

  ghost function SplitRight(t: Tree, m: nat, n: BNode): Tree
    requires t.Node? && Aligned(t) && m < |t.keys|
  {
    Node(n, t.keys[m + 1..], t.values[m + 1..], t.kids[m + 1..])
  }

  lemma {:induction false} FlatSplit(t: Tree, m: nat, n: BNode)
    requires t.Node? && Aligned(t) && m < |t.keys|
    ensures Flat(SplitLeft(t, m)) + [(t.keys[m], t.values[m])] + Flat(SplitRight(t, m, n)) == Flat(t)
  {
    Glue(t.keys[..m], t.values[..m], t.kids[..m + 1], t.keys[m], t.values[m],
         t.keys[m + 1..], t.values[m + 1..], t.kids[m + 1..]);
    assert t.keys[..m] + [t.keys[m]] + t.keys[m + 1..] == t.keys;
    assert t.values[..m] + [t.values[m]] + t.values[m + 1..] == t.values;
    assert t.kids[..m + 1] + t.kids[m + 1..] == t.kids;
  }

  lemma {:induction false} ShapeSplit(t: Tree, n: BNode, h: nat, order: nat, lo: int)
    requires Overfull(t, h, order, lo) && |t.keys| == order + 1
    ensures Shape(SplitLeft(t, (order + 1) / 2), h, order, MinKeys(order))
    ensures Shape(SplitRight(t, (order + 1) / 2, n), h, order, MinKeys(order))
  {
  }

}
