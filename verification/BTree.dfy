/** `BTree` of Data_structures/BTree.hpp: search, insertion and deletion in place, for every
    order of at least 3. */
module BTreeModel {
  import opened SortedEntries
  import opened BTreeShape
  import opened BTreeSteps
  import opened BTreeEntries
  import opened BTreeHeap
  import opened BTreeRebalance
  import opened BTreeDelete

  function Compare(a: int, b: int): int {
    if a < b then -1 else if a > b then 1 else 0
  }

  /** `std::lower_bound` on the keys of a node. */
  method LowerBound(keys: seq<int>, key: int) returns (idx: nat)
    requires forall i, j :: 0 <= i < j < |keys| ==> keys[i] < keys[j]
    ensures idx <= |keys|
    ensures forall i :: 0 <= i < idx ==> keys[i] < key
    ensures forall i :: idx <= i < |keys| ==> key <= keys[i]
  {
    idx := 0;
    var hi := |keys|;
    while idx < hi
      invariant 0 <= idx <= hi <= |keys|
      invariant forall i :: 0 <= i < idx ==> keys[i] < key
      invariant forall i :: hi <= i < |keys| ==> key <= keys[i]
    {
      var mid := (idx + hi) / 2;
      if Compare(keys[mid], key) == -1 {
        idx := mid + 1;
      } else {
        hi := mid;
      }
    }
  }

  /** Entering child `i` of a sorted node keeps the search key between both sides. */
  lemma {:induction false} EnterBounds(c: Ctx, t: Tree, i: nat, key: int)
    requires AlignedCtx(c) && AllBelow(Before(c), key) && AllAbove(key, After(c))
    requires t.Node? && Aligned(t) && i < |t.kids| && Sorted(Flat(t))
    requires i > 0 ==> t.keys[i - 1] < key
    requires i < |t.keys| ==> key < t.keys[i]
    ensures var d := Enter(c, t, i);
      AlignedCtx(d) && AllBelow(Before(d), key) && AllAbove(key, After(d)) && Sorted(Flat(t.kids[i]))
  {
    var d := Enter(c, t, i);
    SearchBounds(t, i, key);
    assert |d.before| == i;
    AllBelowJoin(Before(c), Lead(t.keys[..i], t.values[..i], t.kids[..i]), key);
    AllAboveJoin(Runs(t.keys[i..], t.values[i..], t.kids[i + 1..]), After(c), key);
  }

  /** Where a search stopped: at the node that holds the key, or at the hole where it would go. */
  ghost predicate Found(c: Ctx, t: Tree, h: nat, order: nat, node: BNode?, index: int, key: int, top: BNode?)
    reads NodesCtx(c), Nodes(t)
  {
    && ShapeCtx(c, h, order) && Shape(t, h, order, if c.Top? then 1 else MinKeys(order))
    && AlignedCtx(c)
    && if index == -1 then
         t == Nil && node == Owner(c) && Cut(c, t, null, top) && AllBelow(Before(c), key) && AllAbove(key, After(c))
       else
         t.Node? && node == t.nd && 0 <= index < |t.keys| && t.keys[index] == key && Cut(c, t, node, top)
  }

  /** The loop of `search` over the keys of one node: the index of the key, or of the child to enter. */
  method ScanKeys(keys: seq<int>, key: int) returns (hit: bool, index: nat)
    ensures index <= |keys|
    ensures hit ==> index < |keys| && keys[index] == key
    ensures !hit && index > 0 ==> keys[index - 1] < key
    ensures !hit && index < |keys| ==> key < keys[index]
  {
    hit, index := false, 0;
    var i := 0;
    while i < |keys|
      invariant 0 <= i <= |keys| && index == i
      invariant i > 0 ==> keys[i - 1] < key
    {
      var r := Compare(keys[i], key);
      if r == 0 {
        return true, i;
      }
      if r == -1 {
        index := i + 1;
      } else {
        return;
      }
      i := i + 1;
    }
  }

  method Search(root: BNode?, key: int, parent: BNode?, ghost c: Ctx, ghost t: Tree, ghost h: nat, ghost order: nat,
                ghost top: BNode?)
    returns (node: BNode?, index: int, ghost fc: Ctx, ghost ft: Tree, ghost fh: nat)
    requires Cut(c, t, root, top) && parent == Owner(c)
    requires ShapeCtx(c, h, order) && Shape(t, h, order, if c.Top? then 1 else MinKeys(order))
    requires AlignedCtx(c) && Sorted(Flat(t)) && AllBelow(Before(c), key) && AllAbove(key, After(c))
    ensures Found(fc, ft, fh, order, node, index, key, top)
    ensures Plug(fc, ft) == Plug(c, t)
    ensures fh + Depth(fc) == h + Depth(c)
    decreases t
  {
    if root == null {
      return parent, -1, c, t, h;
    }
    assert allocated(NodesCtx(c)) && allocated(Nodes(t));
    var hit, childIndex := ScanKeys(root.keys, key);
    if hit {
      return root, childIndex, c, t, h;
    }
    CutDown(c, t, root, top, childIndex);
    EnterBounds(c, t, childIndex, key);
    EnterShape(c, t, childIndex, h, order);
    node, index, fc, ft, fh :=
      Search(root.vnode[childIndex], key, root, Enter(c, t, childIndex), t.kids[childIndex], h - 1, order, top);
  }

  // -------------------------------------------------------------- insertion

  lemma {:induction false} Regroup4(a: seq<Entry>, b: seq<Entry>, c: seq<Entry>, d: seq<Entry>, e: seq<Entry>)
    ensures (a + b) + c + (d + e) == a + (b + c + d) + e
  {
  }

  /** Putting an entry and a right neighbour beside the subtree in the hole, seen from outside. */
  lemma {:induction false} WholeWiden(c: Ctx, l: Tree, k: int, v: Value, r: Tree)
    requires c.Frame? && AlignedCtx(c)
    ensures Before(c) + (Flat(l) + [(k, v)] + Flat(r)) + After(c)
         == Before(c.up) + Flat(Widen(c, l, k, v, r)) + After(c.up)
  {
    var m := |c.before|;
    FlatWiden(c, l, k, v, r);
    Regroup4(Before(c.up), Lead(c.keys[..m], c.values[..m], c.before), Flat(l) + [(k, v)] + Flat(r),
             Runs(c.keys[m..], c.values[m..], c.after), After(c.up));
  }

  lemma {:induction false} SortedMiddle(a: seq<Entry>, b: seq<Entry>, c: seq<Entry>)
    requires Sorted(a + b + c)
    ensures Sorted(b)
  {
    SortedSplit(a + b, c);
    SortedSplit(a, b);
  }

  /** The place of a new entry among the keys of its node. */
  lemma {:induction false} PlaceInNode(c: Ctx, l: Tree, k: int, v: Value, r: Tree)
    requires c.Frame? && AlignedCtx(c)
    requires Sorted(Before(c) + (Flat(l) + [(k, v)] + Flat(r)) + After(c))
    ensures forall i, j :: 0 <= i < j < |c.keys| ==> c.keys[i] < c.keys[j]
    ensures forall i :: 0 <= i < |c.before| ==> c.keys[i] < k
    ensures forall i :: |c.before| <= i < |c.keys| ==> k < c.keys[i]
  {
    var W, m := Widen(c, l, k, v, r), |c.before|;
    WholeWiden(c, l, k, v, r);
    SortedMiddle(Before(c.up), Flat(W), After(c.up));
    forall i, j | 0 <= i < j < |W.keys| ensures W.keys[i] < W.keys[j] {
      KeysSorted(W, i, j);
    }
    assert W.keys[m] == k;
    assert forall i :: 0 <= i < m ==> W.keys[i] == c.keys[i];
    assert forall i :: m <= i < |c.keys| ==> W.keys[i + 1] == c.keys[i];
  }

  lemma {:induction false} IndexIs(keys: seq<int>, key: int, idx: nat, m: nat)
    requires m <= |keys| && idx <= |keys|
    requires forall i :: 0 <= i < m ==> keys[i] < key
    requires forall i :: m <= i < |keys| ==> key < keys[i]
    requires forall i :: 0 <= i < idx ==> keys[i] < key
    requires forall i :: idx <= i < |keys| ==> key <= keys[i]
    ensures idx == m
  {
    assert idx < |keys| ==> key <= keys[idx];
    assert m < |keys| ==> key < keys[m];
  }

  /** What inserting an entry and a right child into the node around the hole is about to give. */
  ghost predicate ReadyToWiden(c: Ctx, l: Tree, key: int, value: Value, r: Tree, root: BNode?)
    requires c.Frame? && AlignedCtx(c)
    reads NodesCtx(c.up), Nodes(Fill(c, l))
  {
    var T, W := Fill(c, l), Widen(c, l, key, value, r);
    && Held(T, c.nd, Owner(c.up)) && RepCtx(c.up, c.nd, root) && DistinctCtx(c.up)
    && NodesCtx(c.up) !! Nodes(T) && NodesCtx(c.up) !! Nodes(r) && Nodes(T) !! Nodes(r)
    && Distinct(W) && Nodes(W) <= Nodes(T) + Nodes(r)
    && Distinct(r) && Roots([r]) <= Nodes(r)
    && (forall i, j :: 0 <= i < j < |c.keys| ==> c.keys[i] < c.keys[j])
    && (forall i :: 0 <= i < |c.before| ==> c.keys[i] < key)
    && (forall i :: |c.before| <= i < |c.keys| ==> key < c.keys[i])
  }

  /** An entry and a right child wait to be put beside the subtree in the hole. */
  ghost predicate Pending(c: Ctx, l: Tree, lp: BNode?, key: int, value: Value, r: Tree, rp: BNode?,
                          h: nat, order: nat, root: BNode?)
    reads NodesCtx(c), Nodes(l), Nodes(r)
  {
    && c.Frame? && AlignedCtx(c)
    && Cut(c, l, lp, root) && Loose(r, rp) && Distinct(r)
    && Nodes(r) !! NodesCtx(c) && Nodes(r) !! Nodes(l)
    && ShapeCtx(c, h, order)
    && Shape(l, h, order, MinKeys(order)) && Shape(r, h, order, MinKeys(order))
    && Sorted(Before(c) + (Flat(l) + [(key, value)] + Flat(r)) + After(c))
  }

  /** A node that may have one key too many. */
  ghost predicate Overgrown(up: Ctx, W: Tree, node: BNode?, h: nat, order: nat, root: BNode?)
    reads NodesCtx(up), Nodes(W)
  {
    Cut(up, W, node, root) && OvergrownShape(up, W, h, order)
  }

  ghost predicate OvergrownShape(up: Ctx, W: Tree, h: nat, order: nat) {
    && AlignedCtx(up) && ShapeCtx(up, h, order)
    && Overfull(W, h, order, if up.Top? then 1 else MinKeys(order))
    && Sorted(Before(up) + Flat(W) + After(up))
  }

  lemma {:induction false} WidenReady(c: Ctx, l: Tree, lp: BNode?, key: int, value: Value, r: Tree, rp: BNode?, h: nat,
                                      order: nat, root: BNode?)
    requires Pending(c, l, lp, key, value, r, rp, h, order, root)
    ensures ReadyToWiden(c, l, key, value, r, root)
  {
    CutUp(c, l, lp, root);
    PlaceInNode(c, l, key, value, r);
    NodesFill(c, l);
    WidenDistinct(c, l, key, value, r);
    if r.Node? {
      assert [r][0].nd in Nodes(r);
    }
  }

  lemma {:induction false} WidenShape(c: Ctx, l: Tree, lp: BNode?, key: int, value: Value, r: Tree, rp: BNode?, h: nat,
                                      order: nat, root: BNode?)
    requires Pending(c, l, lp, key, value, r, rp, h, order, root)
    ensures OvergrownShape(c.up, Widen(c, l, key, value, r), h + 1, order)
    ensures Before(c.up) + Flat(Widen(c, l, key, value, r)) + After(c.up)
         == Before(c) + (Flat(l) + [(key, value)] + Flat(r)) + After(c)
    ensures NodesCtx(c.up) <= NodesCtx(c)
    ensures Nodes(Fill(c, l)) <= NodesCtx(c) + Nodes(l)
    ensures Nodes(Widen(c, l, key, value, r)) <= NodesCtx(c) + Nodes(l) + Nodes(r)
  {
    WholeWiden(c, l, key, value, r);
    ShapeWiden(c, l, key, value, r, h, order);
    NodesFill(c, l);
    CutUp(c, l, lp, root);
    WidenDistinct(c, l, key, value, r);
  }

  /** The insertion into one node, before any split. */
  method EditNode(node: BNode, key: int, value: Value, rightChild: BNode?, ghost c: Ctx, ghost l: Tree, ghost r: Tree,
                  ghost root: BNode?)
    requires c.Frame? && AlignedCtx(c) && node == c.nd
    requires ReadyToWiden(c, l, key, value, r, root) && Loose(r, rightChild)
    modifies node`keys, node`values, node`vnode, Roots([r])`parent
    ensures Cut(c.up, Widen(c, l, key, value, r), node, root)
  {
    assert allocated(NodesCtx(c.up)) && allocated(Nodes(Fill(c, l))) && allocated(Nodes(r));
    assert node in Nodes(Fill(c, l));
    var insertIndex := LowerBound(node.keys, key);
    IndexIs(c.keys, key, insertIndex, |c.before|);
    InsertEntry(node, insertIndex, key, value, rightChild, c, l, r, Owner(c.up));
  }

  method InsertChild(node: BNode, key: int, value: Value, rightChild: BNode?, ghost c: Ctx, ghost l: Tree,
                     ghost lp: BNode?, ghost r: Tree, ghost h: nat, ghost order: nat, ghost root: BNode?)
    requires Pending(c, l, lp, key, value, r, rightChild, h, order, root) && node == c.nd
    modifies NodesCtx(c), Nodes(r)
    ensures Overgrown(c.up, Widen(c, l, key, value, r), node, h + 1, order, root)
  {
    WidenReady(c, l, lp, key, value, r, rightChild, h, order, root);
    WidenShape(c, l, lp, key, value, r, rightChild, h, order, root);
    NodesFill(c, l);
    EditNode(node, key, value, rightChild, c, l, r, root);
  }

  lemma {:induction false} SplitReady(up: Ctx, W: Tree, m: nat, n: BNode, h: nat, order: nat)
    requires OvergrownShape(up, W, h, order) && |W.keys| == order + 1 && m == (order + 1) / 2
    ensures Shape(SplitLeft(W, m), h, order, MinKeys(order)) && Shape(SplitRight(W, m, n), h, order, MinKeys(order))
    ensures Flat(SplitLeft(W, m)) + [(W.keys[m], W.values[m])] + Flat(SplitRight(W, m, n)) == Flat(W)
  {
    FlatSplit(W, m, n);
    ShapeSplit(W, n, h, order, if up.Top? then 1 else MinKeys(order));
  }

  method SplitOvergrown(node: BNode, median: nat, ghost up: Ctx, ghost W: Tree, ghost h: nat, ghost order: nat,
                        ghost root: BNode?)
    returns (k: int, v: Value, right: BNode)
    requires Overgrown(up, W, node, h, order, root) && |W.keys| == order + 1 && median == (order + 1) / 2
    modifies Nodes(W)
    ensures fresh(right) && node.parent == Owner(up)
    ensures var a, b := SplitLeft(W, median), SplitRight(W, median, right);
      && Nodes(a) <= Nodes(W) && Nodes(b) <= Nodes(W) + {right} && Nodes(a) !! Nodes(b)
      && Distinct(a) && Distinct(b) && Rep(a, node, Owner(up)) && Rep(b, right, Owner(up))
      && RepCtx(up, node, root)
      && k == W.keys[median] && v == W.values[median]
  {
    k, v := node.keys[median], node.values[median];
    assert allocated(NodesCtx(up)) && allocated(Nodes(W));
    right := SplitNode(node, median, W, Owner(up));
    SplitDistinct(W, median, right);
  }

  /** Below the root, the right half and the middle entry wait to go into the parent. */
  method SplitBelow(node: BNode, median: nat, ghost up: Ctx, ghost W: Tree, ghost h: nat, ghost order: nat,
                    ghost root: BNode?)
    returns (k: int, v: Value, right: BNode)
    requires Overgrown(up, W, node, h, order, root) && |W.keys| == order + 1 && median == (order + 1) / 2
    requires up.Frame?
    modifies Nodes(W)
    ensures fresh(right) && node.parent == up.nd
    ensures var a, b := SplitLeft(W, median), SplitRight(W, median, right);
      && Nodes(a) <= Nodes(W) && Nodes(b) <= Nodes(W) + {right}
      && Pending(up, a, node, k, v, b, right, h, order, root)
      && Flat(a) + [(k, v)] + Flat(b) == Flat(W)
  {
    assert allocated(NodesCtx(up)) && allocated(Nodes(W));
    k, v, right := SplitOvergrown(node, median, up, W, h, order, root);
    SplitReady(up, W, median, right, h, order);
  }

  /** At the root, both halves wait for a new root. */
  method SplitTop(node: BNode, median: nat, ghost W: Tree, ghost h: nat, ghost order: nat, ghost root: BNode?)
    returns (k: int, v: Value, right: BNode)
    requires Overgrown(Top, W, node, h, order, root) && |W.keys| == order + 1 && median == (order + 1) / 2
    modifies Nodes(W)
    ensures fresh(right)
    ensures var a, b := SplitLeft(W, median), SplitRight(W, median, right);
      && Nodes(a) <= Nodes(W) && Nodes(b) <= Nodes(W) + {right} && Nodes(a) !! Nodes(b)
      && Held(a, node, null) && Held(b, right, null)
      && Shape(a, h, order, MinKeys(order)) && Shape(b, h, order, MinKeys(order))
      && Flat(a) + [(k, v)] + Flat(b) == Flat(W)
  {
    assert allocated(Nodes(W));
    k, v, right := SplitOvergrown(node, median, Top, W, h, order, root);
    SplitReady(Top, W, median, right, h, order);
  }

  lemma {:induction false} OvergrownParent(up: Ctx, W: Tree, node: BNode, h: nat, order: nat, root: BNode?)
    requires Overgrown(up, W, node, h, order, root)
    ensures node.parent == Owner(up) && node.keys == W.keys && node == W.nd
    ensures up.Top? ==> Before(up) + Flat(W) + After(up) == Flat(W) && Sorted(Flat(W))
  {
    if up.Top? {
      assert Before(up) + Flat(W) + After(up) == Flat(W);
    }
  }

  /** A whole tree: links and vectors in the heap, no shared node, shape, order of the keys. */
  ghost predicate GoodTree(t: Tree, root: BNode?, h: nat, order: nat)
    reads Nodes(t)
  {
    && Rep(t, root, null) && Distinct(t)
    && Shape(t, h, order, 1)
    && Sorted(Flat(t))
  }

  class BTree {
    var order: nat
    var tree: BNode?
    ghost var model: Tree
    ghost var height: nat

    ghost predicate Valid()
      reads this, Nodes(model)
    {
      order >= 3 && GoodTree(model, tree, height, order)
    }

    /** The map the tree stands for. */
    ghost function Contents(): map<int, Value>
      reads this
    {
      ToMap(Flat(model))
    }

    /** How full the nodes are. */
    lemma {:induction false} KeyCounts()
      requires Valid()
      ensures Filled(model, order, true, height)
    {
      ShapeFilled(model, height, order, true);
    }

    constructor (order: nat)
      requires order >= 3
      ensures Valid() && Contents() == map[] && this.order == order && model == Nil
    {
      this.order := order;
      tree := null;
      model := Nil;
      height := 0;
    }

    ghost method Install(t: Tree, ht: nat)
      requires order >= 3 && GoodTree(t, tree, ht, order)
      modifies this`model, this`height
      ensures Valid() && model == t && height == ht
    {
      assert allocated(Nodes(t));
      model, height := t, ht;
    }

    /** Close a cut and make it the tree. */
    ghost method Settle(c: Ctx, t: Tree, h: BNode?, ht: nat)
      requires order >= 3 && Cut(c, t, h, tree) && AlignedCtx(c)
      requires ShapeCtx(c, ht, order) && Shape(t, ht, order, if c.Top? then 1 else MinKeys(order))
      requires Sorted(Before(c) + Flat(t) + After(c))
      modifies this`model, this`height
      ensures Valid() && Flat(model) == Before(c) + Flat(t) + After(c)
      ensures Nodes(model) == NodesCtx(c) + Nodes(t)
    {
      WholeTree(c, t, h, tree, ht, order);
      Install(Plug(c, t), ht + Depth(c));
    }

    /** A split root: a new root over both halves. */
    method GrowRoot(node: BNode, right: BNode, k: int, v: Value, ghost a: Tree, ghost b: Tree, ghost h: nat)
      requires order >= 3
      requires Held(a, node, null) && Held(b, right, null) && Nodes(a) !! Nodes(b)
      requires Shape(a, h, order, MinKeys(order)) && Shape(b, h, order, MinKeys(order))
      requires Sorted(Flat(a) + [(k, v)] + Flat(b))
      modifies this`tree, this`model, this`height, node`parent, right`parent
      ensures Valid() && Flat(model) == Flat(a) + [(k, v)] + Flat(b)
      ensures forall n :: n in Nodes(model) ==> n in Nodes(a) || n in Nodes(b) || fresh(n)
    {
      assert allocated(Nodes(a)) && allocated(Nodes(b));
      var newRoot := new BNode();
      LinkRoot(newRoot, node, right, k, v, a, b);
      TwoGood(newRoot, a, k, v, b, h, order);
      tree := newRoot;
      Install(Node(newRoot, [k], [v], [a, b]), h + 1);
    }

    /** `rearrange_root_on_insertion`: an entry and a right child go into `node`; a node that
        outgrows the order is split and its middle entry goes up, as far as a new root. */
    method RearrangeRootOnInsertion(node: BNode, key: int, value: Value, rightChild: BNode?,
                                    ghost c: Ctx, ghost l: Tree, ghost lp: BNode?, ghost r: Tree, ghost h: nat)
      requires order >= 3 && Pending(c, l, lp, key, value, r, rightChild, h, order, tree) && node == c.nd
      modifies this`tree, this`model, this`height, NodesCtx(c), Nodes(l), Nodes(r)
      ensures Valid() && Flat(model) == Before(c) + (Flat(l) + [(key, value)] + Flat(r)) + After(c)
      ensures forall n :: n in Nodes(model) ==> n in NodesCtx(c) || n in Nodes(l) || n in Nodes(r) || fresh(n)
      decreases c, 0, 0
    {
      WidenShape(c, l, lp, key, value, r, rightChild, h, order, tree);
      InsertChild(node, key, value, rightChild, c, l, lp, r, h, order, tree);
      SplitIfOverfull(node, c.up, Widen(c, l, key, value, r), h + 1);
    }

    method SplitIfOverfull(node: BNode, ghost up: Ctx, ghost W: Tree, ghost h: nat)
      requires order >= 3 && Overgrown(up, W, node, h, order, tree)
      modifies this`tree, this`model, this`height, NodesCtx(up), Nodes(W)
      ensures Valid() && Flat(model) == Before(up) + Flat(W) + After(up)
      ensures forall n :: n in Nodes(model) ==> n in NodesCtx(up) || n in Nodes(W) || fresh(n)
      decreases up, 1
    {
      OvergrownParent(up, W, node, h, order, tree);
      assert allocated(NodesCtx(up)) && allocated(Nodes(W));
      if |node.keys| <= order {
        Settle(up, W, node, h);
        return;
      }
      if node.parent == null {
        SplitRoot(node, W, h);
      } else {
        SplitInner(node, up, W, h);
      }
    }

    method SplitRoot(node: BNode, ghost W: Tree, ghost h: nat)
      requires order >= 3 && Overgrown(Top, W, node, h, order, tree) && |W.keys| == order + 1
      modifies this`tree, this`model, this`height, Nodes(W)
      ensures Valid() && Flat(model) == Flat(W)
      ensures forall n :: n in Nodes(model) ==> n in Nodes(W) || fresh(n)
    {
      OvergrownParent(Top, W, node, h, order, tree);
      assert allocated(Nodes(W));
      var median := |node.keys| / 2;
      var k, v, rightNode := SplitTop(node, median, W, h, order, tree);
      GrowRoot(node, rightNode, k, v, SplitLeft(W, median), SplitRight(W, median, rightNode), h);
    }

    method SplitInner(node: BNode, ghost up: Ctx, ghost W: Tree, ghost h: nat)
      requires order >= 3 && Overgrown(up, W, node, h, order, tree) && |W.keys| == order + 1 && up.Frame?
      modifies this`tree, this`model, this`height, NodesCtx(up), Nodes(W)
      ensures Valid() && Flat(model) == Before(up) + Flat(W) + After(up)
      ensures forall n :: n in Nodes(model) ==> n in NodesCtx(up) || n in Nodes(W) || fresh(n)
      decreases up, 0, 1
    {
      OvergrownParent(up, W, node, h, order, tree);
      assert allocated(NodesCtx(up)) && allocated(Nodes(W));
      var median := |node.keys| / 2;
      var k, v, rightNode := SplitBelow(node, median, up, W, h, order, tree);
      ghost var l, r := SplitLeft(W, median), SplitRight(W, median, rightNode);
      var parent := node.parent;
      RearrangeRootOnInsertion(parent, k, v, rightNode, up, l, node, r, h);
    }

    /** The value of a key that is already there. */
    method SetValue(node: BNode, index: nat, value: Value, ghost c: Ctx, ghost t: Tree, ghost h: nat)
      requires order >= 3 && Cut(c, t, node, tree) && AlignedCtx(c) && t.Node? && index < |t.keys|
      requires ShapeCtx(c, h, order) && Shape(t, h, order, if c.Top? then 1 else MinKeys(order))
      requires Sorted(Entries(c, t))
      modifies this`model, this`height, node`values
      ensures Valid() && ToMap(Flat(model)) == ToMap(Entries(c, t))[t.keys[index] := value]
      ensures Nodes(model) == NodesCtx(c) + Nodes(t)
    {
      assert allocated(NodesCtx(c)) && allocated(KidNodes(t)) && node in Nodes(t) && node !in KidNodes(t);
      assert KidsHold(t, node.vnode);
      node.values := node.values[index := value];
      ghost var u := WithValue(t, index, value);
      WithValueLaws(c, t, index, value, h, order);
      assert KidsHold(t, node.vnode);
      Settle(c, u, node, h);
    }

    /** `insertion`: an absent key is added, a present key gets the new value. */
    method Insertion(key: int, value: Value)
      requires Valid()
      modifies this`tree, this`model, this`height, Nodes(model)
      ensures Valid() && Contents() == old(Contents())[key := value]
      ensures forall n :: n in Nodes(model) ==> n in old(Nodes(model)) || fresh(n)
    {
      assert allocated(Nodes(model));
      if tree == null {
        FirstKey(key, value);
        return;
      }
      var node, index;
      ghost var c, t, h;
      node, index, c, t, h := FindKey(key);
      if index != -1 {
        SetValue(node, index, value, c, t, h);
      } else {
        AddKey(node, key, value, c, h);
      }
    }

    /** The search from the root. */
    method FindKey(key: int) returns (node: BNode?, index: int, ghost c: Ctx, ghost t: Tree, ghost h: nat)
      requires Valid()
      ensures Valid() && Found(c, t, h, order, node, index, key, tree)
      ensures NodesCtx(c) + Nodes(t) == Nodes(model) && Flat(model) == Entries(c, t)
      ensures t == Nil && tree != null ==> c.Frame?
    {
      assert allocated(Nodes(model));
      node, index, c, t, h := Search(tree, key, null, Top, model, height, order, tree);
      FlatPlug(c, t);
      CutNodes(c, t, model);
    }

    method AddKey(node: BNode, key: int, value: Value, ghost c: Ctx, ghost h: nat)
      requires order >= 3 && c.Frame? && Found(c, Nil, h, order, node, -1, key, tree)
      requires Sorted(Entries(c, Nil))
      modifies this`tree, this`model, this`height, NodesCtx(c)
      ensures Valid() && ToMap(Flat(model)) == ToMap(Entries(c, Nil))[key := value]
      ensures forall n :: n in Nodes(model) ==> n in NodesCtx(c) || fresh(n)
    {
      WithNewKey(c, key, value);
      RearrangeRootOnInsertion(node, key, value, null, c, Nil, null, Nil, h);
    }

    method FirstKey(key: int, value: Value)
      requires Valid() && tree == null
      modifies this`tree, this`model, this`height
      ensures Valid() && Contents() == old(Contents())[key := value]
      ensures fresh(Nodes(model))
    {
      var node := new BNode();
      node.keys := [key];
      node.values := [value];
      node.vnode := [null, null];
      tree := node;
      ghost var t := Node(node, [key], [value], [Nil, Nil]);
      FlatTwo(node, Nil, key, value, Nil);
      Install(t, 1);
    }

    // --------------------------------------------------------------- deletion

    /** The root: an empty one gives way to its only child. */
    method SettleRoot(x: BNode, ghost t: Tree, ghost h: nat)
      requires order >= 3 && Short(Top, t, x, h, order, tree) && Sorted(Flat(t))
      modifies this`tree, this`model, this`height, Nodes(t)
      ensures Valid() && Flat(model) == Flat(t) && Nodes(model) <= Nodes(t)
    {
      AtRoot(Top, t, x, tree);
      if |x.keys| == 0 && |x.vnode| > 0 {
        DropRoot(x, t, h);
      } else {
        Install(t, h);
      }
    }

    method DropRoot(x: BNode, ghost t: Tree, ghost h: nat)
      requires order >= 3 && Held(t, x, null) && Shape(t, h, order, 0) && |t.keys| == 0 && Sorted(Flat(t))
      modifies this`tree, this`model, this`height, Nodes(t)
      ensures Valid() && Flat(model) == Flat(t) && Nodes(model) <= Nodes(t)
    {
      ghost var k := t.kids[0];
      assert Flat(k) + Runs([], [], t.kids[1..]) == Flat(k);
      assert Rep(k, x.vnode[0], x) && Distinct(k) && Shape(k, h - 1, order, MinKeys(order)) && MinKeys(order) >= 1;
      KidInside(t, 0);
      assert allocated(Nodes(k));
      tree := x.vnode[0];
      if tree != null {
        Orphan(tree, k, x);
      }
      Install(k, h - 1);
    }

    /** `rebalance` from the node that lost an entry: borrow, or merge and go on with the parent. */
    method Rebalance(start: BNode, ghost c0: Ctx, ghost t0: Tree, ghost h0: nat)
      requires order >= 3 && Short(c0, t0, start, h0, order, tree) && Sorted(Entries(c0, t0))
      modifies this`tree, this`model, this`height, NodesCtx(c0), Nodes(t0)
      ensures Valid() && Flat(model) == Entries(c0, t0)
      ensures Nodes(model) <= NodesCtx(c0) + Nodes(t0)
    {
      var x := start;
      ghost var c, t, h := c0, t0, h0;
      assert allocated(NodesCtx(c0)) && allocated(Nodes(t0));
      while true
        invariant Short(c, t, x, h, order, tree) && Entries(c, t) == Entries(c0, t0)
        invariant NodesCtx(c) + Nodes(t) <= NodesCtx(c0) + Nodes(t0)
        decreases c
      {
        AtRoot(c, t, x, tree);
        if x == tree {
          assert Entries(c, t) == Flat(t);
          SettleRoot(x, t, h);
          return;
        }
        if |x.keys| >= MinKeys(order) {
          Settle(c, t, x, h);
          return;
        }
        var p := x.parent;
        var done;
        ghost var u;
        done, u := Repair(p, x, c, t, h);
        if done {
          return;
        }
        x, c, t, h := p, c.up, u, h + 1;
      }
    }

    /** One round of the loop: borrowing ends it, merging leaves the parent one entry shorter. */
    method Repair(p: BNode, x: BNode, ghost c: Ctx, ghost t: Tree, ghost h: nat) returns (done: bool, ghost u: Tree)
      requires order >= 3 && Short(c, t, x, h, order, tree) && c.Frame? && p == c.nd && |t.keys| < MinKeys(order)
      requires Sorted(Entries(c, t))
      modifies this`model, this`height, NodesCtx(c), Nodes(t)
      ensures done ==> Valid() && Flat(model) == Entries(c, t) && Nodes(model) <= NodesCtx(c) + Nodes(t)
      ensures !done ==> Short(c.up, u, p, h + 1, order, tree) && Entries(c.up, u) == Entries(c, t)
      ensures !done ==> NodesCtx(c.up) + Nodes(u) <= NodesCtx(c) + Nodes(t)
    {
      ghost var up, T := c.up, Fill(c, t);
      SeeShortChild(c, t, x, h, order, tree);
      SeeFill(c, t);
      assert allocated(NodesCtx(up)) && allocated(Nodes(T));
      var idx := IndexOf(p, x, c, t, tree);
      done, u := BorrowOrMerge(p, idx, up, T, h + 1);
    }

    method BorrowOrMerge(p: BNode, idx: nat, ghost up: Ctx, ghost t: Tree, ghost h: nat)
      returns (done: bool, ghost u: Tree)
      requires order >= 3 && ShortChild(up, t, p, idx, h, order, tree) && Sorted(Entries(up, t))
      modifies this`model, this`height, Nodes(t)
      ensures done ==> Valid() && Flat(model) == Entries(up, t) && Nodes(model) <= NodesCtx(up) + Nodes(t)
      ensures !done ==> Short(up, u, p, h, order, tree) && Entries(up, u) == Entries(up, t) && Nodes(u) <= Nodes(t)
    {
      assert allocated(NodesCtx(up)) && allocated(Nodes(t));
      u := Nil;
      done := Borrow(p, idx, up, t, h);
      if !done {
        u := MergeShort(p, idx, up, t, h, order, tree);
      }
    }

    method BorrowFromLeft(p: BNode, idx: nat, ghost up: Ctx, ghost t: Tree, ghost h: nat)
      requires order >= 3 && ShortChild(up, t, p, idx, h, order, tree) && Sorted(Entries(up, t))
      requires idx > 0 && |t.kids[idx - 1].keys| > MinKeys(order)
      modifies this`model, this`height, Nodes(t)
      ensures Valid() && Flat(model) == Entries(up, t) && Nodes(model) <= NodesCtx(up) + Nodes(t)
    {
      LendLeft(p, idx, up, t, h, order, tree);
      Settle(up, RotateRight(t, idx - 1), p, h);
    }

    method BorrowFromRight(p: BNode, idx: nat, ghost up: Ctx, ghost t: Tree, ghost h: nat)
      requires order >= 3 && ShortChild(up, t, p, idx, h, order, tree) && Sorted(Entries(up, t))
      requires idx < |t.keys| && |t.kids[idx + 1].keys| > MinKeys(order)
      modifies this`model, this`height, Nodes(t)
      ensures Valid() && Flat(model) == Entries(up, t) && Nodes(model) <= NodesCtx(up) + Nodes(t)
    {
      LendRight(p, idx, up, t, h, order, tree);
      Settle(up, RotateLeft(t, idx), p, h);
    }

    /** Borrow from the left neighbour if it can spare an entry, else from the right one. */
    method Borrow(p: BNode, idx: nat, ghost up: Ctx, ghost t: Tree, ghost h: nat) returns (done: bool)
      requires order >= 3 && ShortChild(up, t, p, idx, h, order, tree) && Sorted(Entries(up, t))
      modifies this`model, this`height, Nodes(t)
      ensures done ==> Valid() && Flat(model) == Entries(up, t) && Nodes(model) <= NodesCtx(up) + Nodes(t)
      ensures !done ==> ShortChild(up, t, p, idx, h, order, tree)
      ensures !done && idx > 0 ==> |t.kids[idx - 1].keys| <= MinKeys(order)
      ensures !done && idx < |t.keys| ==> |t.kids[idx + 1].keys| <= MinKeys(order)
    {
      var minKeys := MinKeys(order);
      SeeKids(p, up, t, idx, h, order, tree);
      if idx > 0 && p.vnode[idx - 1] != null && |p.vnode[idx - 1].keys| > minKeys {
        BorrowFromLeft(p, idx, up, t, h);
        return true;
      }
      if idx + 1 < |p.vnode| && p.vnode[idx + 1] != null && |p.vnode[idx + 1].keys| > minKeys {
        BorrowFromRight(p, idx, up, t, h);
        return true;
      }
      return false;
    }

    /** `deletion`: an absent key changes nothing, a present key is gone. */
    method Deletion(key: int)
      requires Valid()
      modifies this`tree, this`model, this`height, Nodes(model)
      ensures Valid() && Contents() == old(Contents()) - {key}
      ensures Nodes(model) <= old(Nodes(model))
    {
      assert allocated(Nodes(model));
      var node, index;
      ghost var c, t, h;
      node, index, c, t, h := FindKey(key);
      if index == -1 {
        AbsentKey(c, t, key);
        return;
      }
      DeletePresent(node, index, c, t, h);
    }

    method DeletePresent(node: BNode, index: nat, ghost c: Ctx, ghost t: Tree, ghost h: nat)
      requires order >= 3 && t.Node? && index < |t.keys| && Found(c, t, h, order, node, index, t.keys[index], tree)
      requires Sorted(Entries(c, t))
      modifies this`tree, this`model, this`height, NodesCtx(c), Nodes(t)
      ensures Valid() && ToMap(Flat(model)) == ToMap(Entries(c, t)) - {t.keys[index]}
      ensures Nodes(model) <= NodesCtx(c) + Nodes(t)
    {
      WithoutMap(c, t, index);
      DeleteFound(node, index, c, t, h);
    }

    method DeleteFound(node: BNode, index: nat, ghost c: Ctx, ghost t: Tree, ghost h: nat)
      requires order >= 3 && t.Node? && index < |t.keys| && Found(c, t, h, order, node, index, t.keys[index], tree)
      requires Sorted(EntriesWithout(c, t, index))
      modifies this`tree, this`model, this`height, NodesCtx(c), Nodes(t)
      ensures Valid()
      ensures Flat(model) == EntriesWithout(c, t, index)
      ensures Nodes(model) <= NodesCtx(c) + Nodes(t)
    {
      assert allocated(NodesCtx(c)) && allocated(Nodes(t));
      HeightOfNode(node, c, t, h, order, tree);
      var leaf := IsLeaf(node.vnode);
      if leaf {
        DeleteFromLeaf(node, index, c, t);
      } else {
        DeleteFromInner(node, index, c, t, h);
      }
    }

    method DeleteFromLeaf(node: BNode, index: nat, ghost c: Ctx, ghost t: Tree)
      requires order >= 3 && t.Node? && index < |t.keys| && Cut(c, t, node, tree)
      requires AlignedCtx(c) && ShapeCtx(c, 1, order) && Shape(t, 1, order, LowOf(c, order))
      requires Sorted(EntriesWithout(c, t, index))
      modifies this`tree, this`model, this`height, NodesCtx(c), Nodes(t)
      ensures Valid()
      ensures Flat(model) == EntriesWithout(c, t, index)
      ensures Nodes(model) <= NodesCtx(c) + Nodes(t)
    {
      ghost var u := Without(t, index);
      assert allocated(NodesCtx(c)) && allocated(Nodes(t));
      CutFromLeaf(node, index, c, t, order, tree);
      if node == tree && |node.keys| == 0 {
        Clear();
      } else {
        Rebalance(node, c, u, 1);
      }
    }

    /** The last entry is gone. */
    method Clear()
      requires order >= 3
      modifies this`tree, this`model, this`height
      ensures Valid() && model == Nil
    {
      tree := null;
      Install(Nil, 0);
    }

    method DeleteFromInner(node: BNode, index: nat, ghost c: Ctx, ghost t: Tree, ghost h: nat)
      requires order >= 3 && t.Node? && index < |t.keys| && Found(c, t, h, order, node, index, t.keys[index], tree)
      requires h > 1 && t.kids[index].Node?
      requires Sorted(EntriesWithout(c, t, index))
      modifies this`tree, this`model, this`height, NodesCtx(c), Nodes(t)
      ensures Valid()
      ensures Flat(model) == EntriesWithout(c, t, index)
      ensures Nodes(model) <= NodesCtx(c) + Nodes(t)
    {
      assert allocated(NodesCtx(c)) && allocated(Nodes(t));
      var x;
      ghost var s, leaf;
      x, s, leaf := TakePredecessor(node, index, c, t, h, order, tree);
      Rebalance(x, s, PopBack(leaf), 1);
    }
  }

  /** The loop of `deletion` that looks for a child. */
  method IsLeaf(vnode: seq<BNode?>) returns (leaf: bool)
    ensures leaf <==> forall i :: 0 <= i < |vnode| ==> vnode[i] == null
  {
    leaf := true;
    for i := 0 to |vnode|
      invariant leaf
      invariant forall j :: 0 <= j < i ==> vnode[j] == null
    {
      if vnode[i] != null {
        return false;
      }
    }
  }

  lemma {:induction false} WithNewKey(c: Ctx, key: int, value: Value)
    requires AlignedCtx(c) && AllBelow(Before(c), key) && AllAbove(key, After(c)) && Sorted(Entries(c, Nil))
    ensures var s := Before(c) + (Flat(Nil) + [(key, value)] + Flat(Nil)) + After(c);
      Sorted(s) && ToMap(s) == ToMap(Entries(c, Nil))[key := value]
  {
    assert Entries(c, Nil) == Before(c) + After(c);
    assert Flat(Nil) + [(key, value)] + Flat(Nil) == [(key, value)];
    PutNew(Before(c), key, value, After(c));
  }

  lemma {:induction false} AbsentKey(c: Ctx, t: Tree, key: int)
    requires AlignedCtx(c) && t == Nil && AllBelow(Before(c), key) && AllAbove(key, After(c))
    ensures key !in ToMap(Entries(c, t)) && ToMap(Entries(c, t)) - {key} == ToMap(Entries(c, t))
  {
    assert Entries(c, t) == Before(c) + After(c);
    NotInMap(Before(c), key);
    NotInMap(After(c), key);
    ToMapJoin(Before(c), After(c));
    NothingOut(ToMap(Entries(c, t)), key);
  }

  lemma {:induction false} NothingOut(m: map<int, Value>, key: int)
    requires key !in m
    ensures m - {key} == m
  {
  }

  /** The neighbours of the short child, as the pointers show them. */
  lemma {:induction false} SeeKids(p: BNode, up: Ctx, t: Tree, idx: nat, h: nat, order: nat, root: BNode?)
    requires ShortChild(up, t, p, idx, h, order, root)
    ensures |p.vnode| == |t.kids| == |t.keys| + 1
    ensures idx > 0 ==> t.kids[idx - 1].Node? && p.vnode[idx - 1] == t.kids[idx - 1].nd
    ensures idx > 0 ==> p.vnode[idx - 1].keys == t.kids[idx - 1].keys
    ensures idx < |t.keys| ==> t.kids[idx + 1].Node? && p.vnode[idx + 1] == t.kids[idx + 1].nd
    ensures idx < |t.keys| ==> p.vnode[idx + 1].keys == t.kids[idx + 1].keys
  {
    if idx > 0 {
      PairAt(t, idx, idx - 1, h, order, LowOf(up, order));
      assert Rep(t.kids[idx - 1], p.vnode[idx - 1], p);
    }
    if idx < |t.keys| {
      PairAt(t, idx, idx, h, order, LowOf(up, order));
      assert Rep(t.kids[idx + 1], p.vnode[idx + 1], p);
    }
  }

  method Orphan(x: BNode, ghost t: Tree, ghost parent: BNode?)
    requires Held(t, x, parent)
    modifies x`parent
    ensures Rep(t, x, null)
  {
    assert KidsHold(t, x.vnode) && x !in KidNodes(t) && allocated(KidNodes(t));
    x.parent := null;
    assert KidsHold(t, x.vnode);
  }

  ghost function WithValue(t: Tree, i: nat, value: Value): Tree
    requires t.Node? && i < |t.values|
  {
    Node(t.nd, t.keys, t.values[i := value], t.kids)
  }

  lemma {:induction false} WithValueLaws(c: Ctx, t: Tree, i: nat, value: Value, h: nat, order: nat)
    requires t.Node? && Aligned(t) && i < |t.keys| && AlignedCtx(c)
    requires Shape(t, h, order, if c.Top? then 1 else MinKeys(order)) && Distinct(t)
    requires Sorted(Before(c) + Flat(t) + After(c))
    ensures var u := WithValue(t, i, value);
      && Shape(u, h, order, if c.Top? then 1 else MinKeys(order)) && Distinct(u) && Nodes(u) == Nodes(t)
      && Sorted(Before(c) + Flat(u) + After(c))
      && ToMap(Before(c) + Flat(u) + After(c)) == ToMap(Before(c) + Flat(t) + After(c))[t.keys[i] := value]
  {
    var u := WithValue(t, i, value);
    var l, r := Left(t, i) + Flat(t.kids[i]), Flat(t.kids[i + 1]) + Right(t, i + 1);
    FlatWindow(t, i);
    FlatWindow(u, i);
    assert u.values[..i] == t.values[..i] && u.values[i + 1..] == t.values[i + 1..];
    Around(Before(c), Left(t, i), Flat(t.kids[i]), [(t.keys[i], t.values[i])], Flat(t.kids[i + 1]), Right(t, i + 1),
           After(c));
    Around(Before(c), Left(t, i), Flat(t.kids[i]), [(t.keys[i], value)], Flat(t.kids[i + 1]), Right(t, i + 1),
           After(c));
    PutOld(Before(c) + l, t.keys[i], t.values[i], value, r + After(c));
  }

  lemma {:induction false} TwoGood(n: BNode, a: Tree, k: int, v: Value, b: Tree, h: nat, order: nat)
    requires order >= 3
    requires Rep(Node(n, [k], [v], [a, b]), n, null)
    requires Distinct(a) && Distinct(b) && Nodes(a) !! Nodes(b) && n !in Nodes(a) && n !in Nodes(b)
    requires Shape(a, h, order, MinKeys(order)) && Shape(b, h, order, MinKeys(order))
    requires Sorted(Flat(a) + [(k, v)] + Flat(b))
    ensures var t := Node(n, [k], [v], [a, b]);
      GoodTree(t, n, h + 1, order) && Flat(t) == Flat(a) + [(k, v)] + Flat(b) && Nodes(t) <= {n} + Nodes(a) + Nodes(b)
  {
    TwoDistinct(n, k, v, a, b);
    FlatTwo(n, a, k, v, b);
  }

  lemma {:induction false} WholeTree(c: Ctx, t: Tree, h: BNode?, root: BNode?, ht: nat, order: nat)
    requires Cut(c, t, h, root) && AlignedCtx(c)
    requires ShapeCtx(c, ht, order) && Shape(t, ht, order, if c.Top? then 1 else MinKeys(order))
    requires Sorted(Before(c) + Flat(t) + After(c))
    ensures GoodTree(Plug(c, t), root, ht + Depth(c), order)
    ensures Nodes(Plug(c, t)) == NodesCtx(c) + Nodes(t)
    ensures Flat(Plug(c, t)) == Before(c) + Flat(t) + After(c)
  {
    CutClose(c, t, h, root);
    FlatPlug(c, t);
    ShapePlug(c, t, ht, order);
  }

  lemma {:induction false} FlatTwo(n: BNode, a: Tree, k: int, v: Value, b: Tree)
    ensures Flat(Node(n, [k], [v], [a, b])) == Flat(a) + [(k, v)] + Flat(b)
  {
    var c := Frame(n, [], [], [], [], Top);
    FlatWiden(c, a, k, v, b);
    assert Widen(c, a, k, v, b) == Node(n, [k], [v], [a, b]);
  }
}
