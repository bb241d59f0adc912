/** Taking an entry out of the B-tree before any rebalancing: from a leaf, or from an inner
    node by putting its predecessor, the last entry of the rightmost leaf below, in its place. */
module BTreeDelete {
  import opened SortedEntries
  import opened BTreeShape
  import opened BTreeSteps
  import opened BTreeEntries
  import opened BTreeHeap
  import opened BTreeRebalance

  /** All entries but entry `i` of the node in the hole. */
  ghost function EntriesWithout(c: Ctx, t: Tree, i: nat): seq<Entry>
    requires AlignedCtx(c) && t.Node? && Aligned(t) && i < |t.keys|
  {
    (Before(c) + (Left(t, i) + Flat(t.kids[i]))) + ((Flat(t.kids[i + 1]) + Right(t, i + 1)) + After(c))
  }

  lemma {:induction false} WithoutMap(c: Ctx, t: Tree, i: nat)
    requires AlignedCtx(c) && t.Node? && Aligned(t) && i < |t.keys| && Sorted(Entries(c, t))
    ensures Sorted(EntriesWithout(c, t, i))
    ensures ToMap(EntriesWithout(c, t, i)) == ToMap(Entries(c, t)) - {t.keys[i]}
  {
    EntryAround(c, t, i);
    TakeOut(Before(c) + (Left(t, i) + Flat(t.kids[i])), t.keys[i], t.values[i],
            (Flat(t.kids[i + 1]) + Right(t, i + 1)) + After(c));
  }

  // ------------------------------------------------------ the rightmost leaf

  ghost predicate Deeper(t: Tree) {
    t.Node? && t.kids != [] && t.kids[|t.kids| - 1].Node?
  }

  ghost function SpineTree(t: Tree): Tree {
    if Deeper(t) then SpineTree(t.kids[|t.kids| - 1]) else t
  }

  ghost function SpineCtx(c: Ctx, t: Tree): Ctx
    decreases t
  {
    if Deeper(t) then SpineCtx(Enter(c, t, |t.kids| - 1), t.kids[|t.kids| - 1]) else c
  }

  lemma {:induction false} CutSpine(c: Ctx, t: Tree, h: BNode?, root: BNode?)
    requires Cut(c, t, h, root) && t.Node?
    ensures SpineTree(t).Node? && Cut(SpineCtx(c, t), SpineTree(t), SpineTree(t).nd, root)
    ensures NodesCtx(SpineCtx(c, t)) + Nodes(SpineTree(t)) == NodesCtx(c) + Nodes(t)
    decreases t
  {
    if Deeper(t) {
      var i := |t.kids| - 1;
      CutDown(c, t, h, root, i);
      CutNodes(Enter(c, t, i), t.kids[i], Plug(c, t));
      CutNodes(c, t, Plug(c, t));
      CutSpine(Enter(c, t, i), t.kids[i], t.nd.vnode[i], root);
    }
  }

  lemma {:induction false} SpineShape(c: Ctx, t: Tree, h: nat, order: nat)
    requires ShapeCtx(c, h, order) && t.Node? && c.Frame?
    requires Shape(t, h, order, MinKeys(order))
    ensures var d, x := SpineCtx(c, t), SpineTree(t);
      d.Frame? && ShapeCtx(d, 1, order) && Shape(x, 1, order, MinKeys(order)) && x.Node?
    decreases t
  {
    var i := |t.kids| - 1;
    assert Shape(t.kids[i], h - 1, order, MinKeys(order));
    if Deeper(t) {
      EnterShape(c, t, i, h, order);
      SpineShape(Enter(c, t, i), t.kids[i], h - 1, order);
    }
  }

  /** Everything in a subtree but its last entry lies left of the rightmost leaf's last entry. */
  lemma {:induction false} SpineEntries(c: Ctx, t: Tree, h: nat, order: nat)
    requires AlignedCtx(c) && Shape(t, h, order, MinKeys(order)) && t.Node?
    ensures var d, x := SpineCtx(c, t), SpineTree(t);
      && AlignedCtx(d)
      && Before(d) + Flat(x) == Before(c) + Flat(t)
      && After(d) == After(c)
    decreases t
  {
    if Deeper(t) {
      var i := |t.kids| - 1;
      var d, x := Enter(c, t, i), t.kids[i];
      assert Shape(x, h - 1, order, MinKeys(order));
      FlatAt(t, i);
      assert Right(t, i) == [];
      assert Before(d) == Before(c) + Left(t, i);
      Assoc(Before(c), Left(t, i), Flat(x));
      assert After(d) == [] + After(c) == After(c);
      SpineEntries(d, x, h - 1, order);
    }
  }

  /** The loop that walks down to the rightmost leaf. */
  method Rightmost(start: BNode, ghost t: Tree, ghost parent: BNode?, ghost h: nat, ghost order: nat) returns (x: BNode)
    requires Held(t, start, parent) && Shape(t, h, order, MinKeys(order))
    ensures SpineTree(t).Node? && x == SpineTree(t).nd && x.keys == SpineTree(t).keys && x.values == SpineTree(t).values
  {
    x := start;
    ghost var cur, p, g := t, parent, h;
    while |x.vnode| > 0 && x.vnode[|x.vnode| - 1] != null
      invariant Held(cur, x, p) && Shape(cur, g, order, MinKeys(order))
      invariant SpineTree(cur) == SpineTree(t)
      decreases cur
    {
      ghost var i := |cur.kids| - 1;
      assert Rep(cur.kids[i], x.vnode[i], x);
      p := x;
      x := x.vnode[|x.vnode| - 1];
      cur, g := cur.kids[i], g - 1;
    }
    assert Rep(cur.kids[|cur.kids| - 1], x.vnode[|x.vnode| - 1], x);
  }

  // ------------------------------------------------------------- from a leaf

  ghost function Without(t: Tree, i: nat): Tree
    requires t.Node? && Aligned(t) && i < |t.keys|
  {
    Node(t.nd, t.keys[..i] + t.keys[i + 1..], t.values[..i] + t.values[i + 1..], t.kids[..i + 1] + t.kids[i + 2..])
  }

  lemma {:induction false} WithoutKid(t: Tree, i: nat, j: nat)
    requires t.Node? && Aligned(t) && i < |t.keys| && j < |t.keys|
    ensures Without(t, i).kids[j] == if j <= i then t.kids[j] else t.kids[j + 1]
  {
  }

  /** In a leaf all children are null, so only the entry is gone. */
  lemma {:induction false} FlatWithout(t: Tree, i: nat)
    requires t.Node? && Aligned(t) && i < |t.keys|
    requires t.kids[i] == Nil && t.kids[i + 1] == Nil
    ensures Flat(t) == Left(t, i) + [(t.keys[i], t.values[i])] + Right(t, i + 1)
    ensures Flat(Without(t, i)) == Left(t, i) + Right(t, i + 1)
  {
    var u := Without(t, i);
    FlatWindow(t, i);
    assert Flat(Nil) + [(t.keys[i], t.values[i])] + Flat(Nil) == [(t.keys[i], t.values[i])];
    FlatAt(u, i);
    WithoutKid(t, i, i);
    assert u.keys[..i] == t.keys[..i] && u.values[..i] == t.values[..i] && u.kids[..i] == t.kids[..i];
    assert u.keys[i..] == t.keys[i + 1..] && u.values[i..] == t.values[i + 1..] && u.kids[i + 1..] == t.kids[i + 2..];
    assert Left(t, i) + [] == Left(t, i);
  }

  lemma {:induction false} LeafWithout(t: Tree, i: nat, order: nat, lo: int)
    requires t.Node? && i < |t.keys| && Shape(t, 1, order, lo)
    ensures forall j :: 0 <= j < |t.kids| ==> t.kids[j] == Nil
    ensures Shape(Without(t, i), 1, order, lo - 1)
    ensures Distinct(Without(t, i)) && Nodes(Without(t, i)) == {t.nd}
  {
    var u := Without(t, i);
    assert forall j :: 0 <= j < |t.kids| ==> Shape(t.kids[j], 0, order, MinKeys(order));
    forall j | 0 <= j < |u.kids| ensures u.kids[j] == Nil {
      WithoutKid(t, i, j);
    }
  }

  method RemoveFromLeaf(node: BNode, i: nat, ghost t: Tree, ghost order: nat, ghost lo: int, ghost parent: BNode?)
    requires Rep(t, node, parent) && t.Node? && i < |t.keys| && Shape(t, 1, order, lo)
    modifies node`keys, node`values, node`vnode
    ensures Rep(Without(t, i), node, parent)
  {
    LeafWithout(t, i, order, lo);
    assert forall j :: 0 <= j < |t.kids| ==> Rep(t.kids[j], node.vnode[j], node);
    node.keys := node.keys[..i] + node.keys[i + 1..];
    node.values := node.values[..i] + node.values[i + 1..];
    node.vnode := node.vnode[..i + 1] + node.vnode[i + 2..];
    forall j | 0 <= j < |Without(t, i).kids| ensures Rep(Without(t, i).kids[j], node.vnode[j], node) {
      WithoutKid(t, i, j);
    }
  }

  // ------------------------------------------------------ from an inner node

  ghost function WithEntry(t: Tree, i: nat, k: int, v: Value): Tree
    requires t.Node? && i < |t.keys| && i < |t.values|
  {
    Node(t.nd, t.keys[i := k], t.values[i := v], t.kids)
  }

  method SetEntry(node: BNode, i: nat, k: int, v: Value, ghost c: Ctx, ghost t: Tree, ghost root: BNode?)
    requires Cut(c, t, node, root) && t.Node? && Aligned(t) && i < |t.keys|
    modifies node`keys, node`values
    ensures Cut(c, WithEntry(t, i, k, v), node, root) && Nodes(WithEntry(t, i, k, v)) == Nodes(t)
  {
    assert allocated(NodesCtx(c)) && allocated(KidNodes(t)) && node in Nodes(t) && node !in KidNodes(t);
    assert KidsHold(t, node.vnode);
    node.keys := node.keys[i := k];
    node.values := node.values[i := v];
    assert KidsHold(t, node.vnode);
  }

  lemma {:induction false} ShapeWithEntry(t: Tree, i: nat, k: int, v: Value, h: nat, order: nat, lo: int)
    requires t.Node? && Shape(t, h, order, lo) && i < |t.keys|
    ensures Shape(WithEntry(t, i, k, v), h, order, lo)
  {
  }

  /** With the predecessor in the place of entry `i` and gone from its leaf, entry `i` is gone. */
  lemma {:induction false} InnerEntries(c: Ctx, t: Tree, i: nat, h: nat, order: nat)
    requires AlignedCtx(c) && t.Node? && i < |t.keys| && h > 1 && Shape(t, h, order, LowOf(c, order))
    requires t.kids[i].Node? && SpineTree(t.kids[i]).Node? && Aligned(SpineTree(t.kids[i]))
    requires var x := SpineTree(t.kids[i]); x.keys != [] && x.kids[|x.keys|] == Nil
    ensures var x := SpineTree(t.kids[i]); var e := |x.keys| - 1;
      var d := Enter(c, WithEntry(t, i, x.keys[e], x.values[e]), i);
      && AlignedCtx(SpineCtx(d, t.kids[i]))
      && Entries(SpineCtx(d, t.kids[i]), PopBack(x))
         == EntriesWithout(c, t, i)
  {
    var kid := t.kids[i];
    var x := SpineTree(kid);
    var e := |x.keys| - 1;
    var p := [(x.keys[e], x.values[e])];
    var u := WithEntry(t, i, x.keys[e], x.values[e]);
    var d := Enter(c, u, i);
    assert Shape(kid, h - 1, order, MinKeys(order));
    SpineEntries(d, kid, h - 1, order);
    FlatPopBack(x);
    var s := SpineCtx(d, kid);
    assert u.keys[i..][1..] == t.keys[i + 1..] && u.values[i..][1..] == t.values[i + 1..];
    assert u.kids[i + 1..][1..] == t.kids[i + 2..];
    assert u.keys[..i] == t.keys[..i] && u.values[..i] == t.values[..i] && u.kids[..i] == t.kids[..i];
    assert After(d) == (p + Flat(t.kids[i + 1]) + Right(t, i + 1)) + After(c);
    assert Before(d) == Before(c) + Left(t, i);
    Carry(Before(s), Flat(PopBack(x)), p, Before(c), Left(t, i), Flat(kid), Flat(t.kids[i + 1]), Right(t, i + 1),
          After(c));
  }

  lemma {:induction false} Carry(bs: seq<Entry>, f: seq<Entry>, p: seq<Entry>, b: seq<Entry>, l: seq<Entry>,
                                 k: seq<Entry>, k': seq<Entry>, r: seq<Entry>, a: seq<Entry>)
    requires bs + (f + p + []) == (b + l) + k
    ensures bs + f + ((p + k' + r) + a) == (b + (l + k)) + ((k' + r) + a)
  {
    assert bs + f + ((p + k' + r) + a) == (bs + (f + p + [])) + ((k' + r) + a);
    assert (b + l) + k == b + (l + k);
  }

  /** Entry `i` of a node among all entries. */
  lemma {:induction false} EntryAround(c: Ctx, t: Tree, i: nat)
    requires AlignedCtx(c) && t.Node? && Aligned(t) && i < |t.keys|
    ensures Entries(c, t) == (Before(c) + (Left(t, i) + Flat(t.kids[i]))) + [(t.keys[i], t.values[i])]
                           + ((Flat(t.kids[i + 1]) + Right(t, i + 1)) + After(c))
  {
    FlatWindow(t, i);
    Around(Before(c), Left(t, i), Flat(t.kids[i]), [(t.keys[i], t.values[i])], Flat(t.kids[i + 1]), Right(t, i + 1),
           After(c));
  }

  /** A node is a leaf exactly when it is one level high. */
  lemma {:induction false} HeightOfNode(node: BNode, c: Ctx, t: Tree, h: nat, order: nat, root: BNode?)
    requires Cut(c, t, node, root) && t.Node? && Shape(t, h, order, LowOf(c, order))
    ensures (forall i :: 0 <= i < |node.vnode| ==> node.vnode[i] == null) <==> h == 1
    ensures h == 1 ==> forall i :: 0 <= i < |t.kids| ==> t.kids[i] == Nil
    ensures h > 1 ==> forall i :: 0 <= i < |t.kids| ==> t.kids[i].Node? && Rep(t.kids[i], node.vnode[i], node)
  {
    forall i | 0 <= i < |t.kids|
      ensures Rep(t.kids[i], node.vnode[i], node) && Shape(t.kids[i], h - 1, order, MinKeys(order))
    {
    }
    assert node.vnode[0] == null <==> t.kids[0] == Nil;
  }

  /** The cut at the rightmost leaf below child `i`, once the predecessor stands in entry `i`. */
  lemma {:induction false} PredecessorCut(node: BNode, c: Ctx, t: Tree, i: nat, k: int, v: Value, h: nat, order: nat,
                                          root: BNode?)
    requires t.Node? && Aligned(t) && i < |t.keys| && t.kids[i].Node? && h > 1
    requires Cut(c, WithEntry(t, i, k, v), node, root)
    requires AlignedCtx(c) && ShapeCtx(c, h, order) && Shape(t, h, order, LowOf(c, order))
    ensures var d := Enter(c, WithEntry(t, i, k, v), i);
      var s, x := SpineCtx(d, t.kids[i]), SpineTree(t.kids[i]);
      && s.Frame? && x.Node? && Cut(s, x, x.nd, root)
      && ShapeCtx(s, 1, order) && Shape(x, 1, order, MinKeys(order))
      && NodesCtx(s) + Nodes(x) == NodesCtx(c) + Nodes(WithEntry(t, i, k, v))
  {
    var u := WithEntry(t, i, k, v);
    var d := Enter(c, u, i);
    ShapeWithEntry(t, i, k, v, h, order, LowOf(c, order));
    CutDown(c, u, node, root, i);
    CutNodes(d, u.kids[i], Plug(c, u));
    CutNodes(c, u, Plug(c, u));
    CutSpine(d, u.kids[i], node.vnode[i], root);
    EnterShape(c, u, i, h, order);
    assert Shape(u.kids[i], h - 1, order, MinKeys(order));
    SpineShape(d, u.kids[i], h - 1, order);
  }

  lemma {:induction false} PopLeaf(x: Tree, order: nat)
    requires order >= 3 && x.Node? && Shape(x, 1, order, MinKeys(order))
    ensures |x.keys| > 0 && x.kids[|x.keys|] == Nil
    ensures Shape(PopBack(x), 1, order, MinKeys(order) - 1)
  {
    assert Shape(x.kids[|x.keys|], 0, order, MinKeys(order));
    forall j | 0 <= j < |PopBack(x).kids| ensures Shape(PopBack(x).kids[j], 0, order, MinKeys(order)) {
      assert PopBack(x).kids[j] == x.kids[j];
    }
  }

  /** The rightmost leaf loses its last entry. */
  method PopPredecessor(x: BNode, ghost s: Ctx, ghost t: Tree, ghost root: BNode?)
    requires Cut(s, t, x, root) && t.Node? && Aligned(t) && |t.keys| > 0
    modifies x`keys, x`values, x`vnode
    ensures Cut(s, PopBack(t), x, root) && Nodes(PopBack(t)) <= Nodes(t)
  {
    assert allocated(NodesCtx(s)) && x in Nodes(t);
    PopBackApart(t);
    PopBackDistinct(t);
    var k, v, child := TakeLast(x, t, Owner(s));
  }

  lemma {:induction false} PopBackDistinct(t: Tree)
    requires t.Node? && Aligned(t) && |t.keys| > 0 && Distinct(t)
    ensures Distinct(PopBack(t))
  {
    var u := PopBack(t);
    assert forall i :: 0 <= i < |u.kids| ==> u.kids[i] == t.kids[i];
  }

  lemma {:induction false} SpineTreeShape(t: Tree, h: nat, order: nat)
    requires t.Node? && Shape(t, h, order, MinKeys(order))
    ensures SpineTree(t).Node? && Shape(SpineTree(t), 1, order, MinKeys(order))
    decreases t
  {
    var i := |t.kids| - 1;
    assert Shape(t.kids[i], h - 1, order, MinKeys(order));
    if Deeper(t) {
      SpineTreeShape(t.kids[i], h - 1, order);
    }
  }

  /** Case 2 of `deletion`: the predecessor replaces the entry and leaves its leaf. */
  method TakePredecessor(node: BNode, index: nat, ghost c: Ctx, ghost t: Tree, ghost h: nat, ghost order: nat,
                         ghost root: BNode?)
    returns (x: BNode, ghost s: Ctx, ghost leaf: Tree)
    requires order >= 3 && t.Node? && index < |t.keys| && h > 1 && Cut(c, t, node, root)
    requires AlignedCtx(c) && ShapeCtx(c, h, order) && Shape(t, h, order, LowOf(c, order))
    requires t.kids[index].Node?
    modifies NodesCtx(c), Nodes(t)
    ensures leaf.Node? && Aligned(leaf) && |leaf.keys| > 0
    ensures Short(s, PopBack(leaf), x, 1, order, root)
    ensures Entries(s, PopBack(leaf)) == EntriesWithout(c, t, index)
    ensures NodesCtx(s) + Nodes(PopBack(leaf)) <= NodesCtx(c) + Nodes(t)
  {
    ghost var kid := t.kids[index];
    leaf := SpineTree(kid);
    HeightOfNode(node, c, t, h, order, root);
    assert Held(kid, node.vnode[index], node) && Shape(kid, h - 1, order, MinKeys(order));
    SpineTreeShape(kid, h - 1, order);
    PopLeaf(leaf, order);
    InnerEntries(c, t, index, h, order);
    assert allocated(NodesCtx(c)) && allocated(Nodes(t));
    x := Rightmost(node.vnode[index], kid, node, h - 1, order);
    s := PutPredecessor(node, index, x, c, t, h, order, root);
    PopPredecessor(x, s, leaf, root);
  }

  method PutPredecessor(node: BNode, index: nat, x: BNode, ghost c: Ctx, ghost t: Tree, ghost h: nat, ghost order: nat,
                        ghost root: BNode?)
    returns (ghost s: Ctx)
    requires order >= 3 && t.Node? && index < |t.keys| && h > 1 && Cut(c, t, node, root)
    requires AlignedCtx(c) && ShapeCtx(c, h, order) && Shape(t, h, order, LowOf(c, order))
    requires t.kids[index].Node?
    requires var leaf := SpineTree(t.kids[index]);
      leaf.Node? && Aligned(leaf) && leaf.nd == x && x.keys == leaf.keys && x.values == leaf.values && |leaf.keys| > 0
    modifies node`keys, node`values
    ensures var leaf := SpineTree(t.kids[index]); var e := |leaf.keys| - 1;
      && s == SpineCtx(Enter(c, WithEntry(t, index, leaf.keys[e], leaf.values[e]), index), t.kids[index])
      && s.Frame? && AlignedCtx(s) && ShapeCtx(s, 1, order) && Cut(s, leaf, x, root)
      && NodesCtx(s) + Nodes(leaf) == NodesCtx(c) + Nodes(t)
  {
    var k, v := x.keys[|x.keys| - 1], x.values[|x.values| - 1];
    SetEntry(node, index, k, v, c, t, root);
    PredecessorCut(node, c, t, index, k, v, h, order, root);
    s := SpineCtx(Enter(c, WithEntry(t, index, k, v), index), t.kids[index]);
    ShapeCtxAligned(s, 1, order);
  }

  lemma {:induction false} LeafEntries(c: Ctx, t: Tree, i: nat, order: nat)
    requires AlignedCtx(c) && t.Node? && i < |t.keys| && Shape(t, 1, order, LowOf(c, order))
    ensures Entries(c, Without(t, i)) == EntriesWithout(c, t, i)
    ensures Without(t, i).keys == [] && c.Top? ==> EntriesWithout(c, t, i) == []
  {
    LeafWithout(t, i, order, LowOf(c, order));
    FlatWithout(t, i);
    LeafSplit(Before(c), Left(t, i), Right(t, i + 1), After(c));
    if Without(t, i).keys == [] {
      assert Left(t, i) == [] && Right(t, i + 1) == [];
    }
  }

  lemma {:induction false} LeafSplit(a: seq<Entry>, l: seq<Entry>, r: seq<Entry>, b: seq<Entry>)
    ensures a + (l + r) + b == (a + (l + [])) + (([] + r) + b)
  {
    assert l + [] == l && [] + r == r;
    assert a + (l + r) + b == (a + l) + (r + b);
  }

  /** Case 1 of `deletion`: the entry leaves its leaf. */
  method CutFromLeaf(node: BNode, index: nat, ghost c: Ctx, ghost t: Tree, ghost order: nat, ghost root: BNode?)
    requires order >= 3 && t.Node? && index < |t.keys| && Cut(c, t, node, root)
    requires AlignedCtx(c) && ShapeCtx(c, 1, order) && Shape(t, 1, order, LowOf(c, order))
    modifies node`keys, node`values, node`vnode
    ensures Short(c, Without(t, index), node, 1, order, root) && Nodes(Without(t, index)) <= Nodes(t)
    ensures Entries(c, Without(t, index)) == EntriesWithout(c, t, index)
    ensures node == root && node.keys == [] ==> EntriesWithout(c, t, index) == []
  {
    LeafEntries(c, t, index, order);
    RemoveInCut(node, index, c, t, order, root);
    AtRoot(c, Without(t, index), node, root);
  }

  method RemoveInCut(node: BNode, index: nat, ghost c: Ctx, ghost t: Tree, ghost order: nat, ghost root: BNode?)
    requires order >= 3 && t.Node? && index < |t.keys| && Cut(c, t, node, root)
    requires AlignedCtx(c) && ShapeCtx(c, 1, order) && Shape(t, 1, order, LowOf(c, order))
    modifies node`keys, node`values, node`vnode
    ensures Short(c, Without(t, index), node, 1, order, root) && Nodes(Without(t, index)) <= Nodes(t)
  {
    assert allocated(NodesCtx(c)) && node in Nodes(t);
    LeafWithout(t, index, order, LowOf(c, order));
    RemoveFromLeaf(node, index, t, order, LowOf(c, order), Owner(c));
  }
}
