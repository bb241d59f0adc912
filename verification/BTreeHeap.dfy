/** The pointer surgery of the B-tree, one step at a time: each method edits the node vectors
    and links in place and leaves exactly the tree that the matching function of BTreeSteps
    describes. */
module BTreeHeap {
  import opened SortedEntries
  import opened BTreeShape
  import opened BTreeSteps

  /** The heap holds `t` at `p`; whose child it is does not matter yet. */
  ghost predicate Loose(t: Tree, p: BNode?)
    reads Nodes(t)
  {
    Rep(t, p, if t.Node? then t.nd.parent else null)
  }

  ghost function Roots(kids: seq<Tree>): set<BNode> {
    set i | 0 <= i < |kids| && kids[i].Node? :: kids[i].nd
  }

  lemma {:induction false} RootsInside(t: Tree)
    requires t.Node?
    ensures Roots(t.kids) <= Nodes(t)
  {
    forall n | n in Roots(t.kids) ensures n in Nodes(t) {
      var i :| 0 <= i < |t.kids| && t.kids[i].Node? && t.kids[i].nd == n;
      assert n in Nodes(t.kids[i]);
    }
  }

  lemma {:induction false} RepLoose(t: Tree, p: BNode?, q: BNode?)
    requires Rep(t, p, q)
    ensures Loose(t, p)
  {
  }

  /** Every child of `node` is told its parent. */
  method Adopt(node: BNode, ghost t: Tree)
    requires t.Node? && t.nd == node && Distinct(t) && |node.vnode| == |t.kids|
    requires forall i :: 0 <= i < |t.kids| ==> Loose(t.kids[i], node.vnode[i])
    modifies Roots(t.kids)`parent
    ensures forall i :: 0 <= i < |t.kids| ==> Rep(t.kids[i], node.vnode[i], node)
  {
    var j := 0;
    while j < |node.vnode|
      invariant 0 <= j <= |node.vnode|
      invariant forall i :: 0 <= i < j ==> Rep(t.kids[i], node.vnode[i], node)
      invariant forall i :: j <= i < |t.kids| ==> Loose(t.kids[i], node.vnode[i])
    {
      var child := node.vnode[j];
      if child != null {
        assert t.kids[j].nd == child;
        assert forall i :: 0 <= i < |t.kids| && i != j ==> child !in Nodes(t.kids[i]);
        child.parent := node;
      }
      j := j + 1;
    }
  }

  /** What a step on the node `P` may touch: the node, two of its children, their children. */
  ghost predicate Held(t: Tree, p: BNode?, parent: BNode?)
    reads Nodes(t)
  {
    t.Node? && t.nd == p && Rep(t, p, parent) && Distinct(t)
  }

  method TakeLast(n: BNode, ghost t: Tree, ghost parent: BNode?) returns (k: int, v: Value, child: BNode?)
    requires Held(t, n, parent) && Aligned(t) && |t.keys| > 0
    modifies n`keys, n`values, n`vnode
    ensures Rep(PopBack(t), n, parent)
    ensures var e := |t.keys| - 1; k == t.keys[e] && v == t.values[e] && Loose(t.kids[e + 1], child)
  {
    ghost var e := |t.keys| - 1;
    assert Rep(t.kids[e + 1], n.vnode[e + 1], n);
    k := n.keys[|n.keys| - 1];
    v := n.values[|n.values| - 1];
    child := n.vnode[|n.vnode| - 1];
    n.keys := n.keys[..|n.keys| - 1];
    n.values := n.values[..|n.values| - 1];
    n.vnode := n.vnode[..|n.vnode| - 1];
  }

  method TakeFirst(n: BNode, ghost t: Tree, ghost parent: BNode?) returns (k: int, v: Value, child: BNode?)
    requires Held(t, n, parent) && Aligned(t) && |t.keys| > 0
    modifies n`keys, n`values, n`vnode
    ensures Rep(PopFront(t), n, parent)
    ensures k == t.keys[0] && v == t.values[0] && Loose(t.kids[0], child)
  {
    assert Rep(t.kids[0], n.vnode[0], n);
    k := n.keys[0];
    v := n.values[0];
    child := n.vnode[0];
    n.keys := n.keys[1..];
    n.values := n.values[1..];
    n.vnode := n.vnode[1..];
  }

  method PutFirst(n: BNode, child: BNode?, k: int, v: Value, ghost m: Tree, ghost t: Tree, ghost parent: BNode?)
    requires Held(t, n, parent) && Loose(m, child) && Distinct(m) && Nodes(m) !! Nodes(t)
    modifies n`keys, n`values, n`vnode, Roots([m])`parent
    ensures Rep(PushFront(m, k, v, t), n, parent)
  {
    ghost var was := n.vnode;
    n.keys := [k] + n.keys;
    n.values := [v] + n.values;
    n.vnode := [child] + n.vnode;
    if child != null {
      assert child == m.nd && [m][0] == m;
      child.parent := n;
    }
    assert forall i :: 0 <= i < |t.kids| ==> Rep(t.kids[i], was[i], n);
    RepPushFront(n, m, k, v, t, was, parent);
  }

  lemma {:induction false} RepPushFront(n: BNode, m: Tree, k: int, v: Value, t: Tree, was: seq<BNode?>, parent: BNode?)
    requires t.Node? && t.nd == n && n.parent == parent
    requires n.keys == [k] + t.keys && n.values == [v] + t.values
    requires |n.vnode| > 0 && n.vnode[1..] == was && |was| == |t.kids|
    requires Rep(m, n.vnode[0], n)
    requires forall i :: 0 <= i < |t.kids| ==> Rep(t.kids[i], was[i], n)
    ensures Rep(PushFront(m, k, v, t), n, parent)
  {
    var u := PushFront(m, k, v, t);
    forall i | 0 <= i < |u.kids| ensures Rep(u.kids[i], n.vnode[i], n) {
      if i > 0 {
        assert u.kids[i] == t.kids[i - 1] && n.vnode[i] == was[i - 1];
      }
    }
  }

  method PutLast(n: BNode, child: BNode?, k: int, v: Value, ghost m: Tree, ghost t: Tree, ghost parent: BNode?)
    requires Held(t, n, parent) && Loose(m, child) && Distinct(m) && Nodes(m) !! Nodes(t)
    modifies n`keys, n`values, n`vnode, Roots([m])`parent
    ensures Rep(PushBack(t, k, v, m), n, parent)
  {
    n.keys := n.keys + [k];
    n.values := n.values + [v];
    n.vnode := n.vnode + [child];
    if child != null {
      assert child == m.nd && [m][0] == m;
      child.parent := n;
    }
    ghost var u := PushBack(t, k, v, m);
    forall i | 0 <= i < |u.kids| ensures Rep(u.kids[i], n.vnode[i], n) {
      if i < |t.kids| {
        assert u.kids[i] == t.kids[i];
      }
    }
  }

  lemma {:induction false} PopBackApart(t: Tree)
    requires t.Node? && Aligned(t) && |t.keys| > 0 && Distinct(t)
    ensures var m := t.kids[|t.keys|];
      Distinct(m) && Nodes(m) <= Nodes(t) && Nodes(PopBack(t)) <= Nodes(t) && Nodes(m) !! Nodes(PopBack(t))
  {
    var e := |t.keys| - 1;
    var u, m := PopBack(t), t.kids[e + 1];
    assert forall i :: 0 <= i < |u.kids| ==> u.kids[i] == t.kids[i];
  }

  lemma {:induction false} PopFrontApart(t: Tree)
    requires t.Node? && Aligned(t) && |t.keys| > 0 && Distinct(t)
    ensures var m := t.kids[0];
      Distinct(m) && Nodes(m) <= Nodes(t) && Nodes(PopFront(t)) <= Nodes(t) && Nodes(m) !! Nodes(PopFront(t))
  {
    var u, m := PopFront(t), t.kids[0];
    assert forall i :: 0 <= i < |u.kids| ==> u.kids[i] == t.kids[i + 1];
  }

  /** The nodes under the children other than `i` and `i + 1`. */
  ghost function Others(t: Tree, i: nat): set<BNode>
    requires t.Node?
  {
    set j, n | 0 <= j < |t.kids| && j != i && j != i + 1 && n in Nodes(t.kids[j]) :: n
  }

  lemma {:induction false} OtherInside(t: Tree, i: nat, j: nat)
    requires t.Node? && j < |t.kids| && j != i && j != i + 1
    ensures Nodes(t.kids[j]) <= Others(t, i)
  {
  }

  ghost predicate OthersHold(t: Tree, i: nat, ptrs: seq<BNode?>, p: BNode)
    requires t.Node?
    reads Others(t, i)
  {
    && |ptrs| == |t.kids|
    && forall j :: 0 <= j < |t.kids| && j != i && j != i + 1 ==>
         (OtherInside(t, i, j); Rep(t.kids[j], ptrs[j], p))
  }

  /** A node seen as two neighbouring children and the rest. */
  ghost predicate Neighbours(t: Tree, i: nat, p: BNode, parent: BNode?)
    requires t.Node? && i + 1 < |t.kids|
    reads p, Others(t, i), Nodes(t.kids[i]), Nodes(t.kids[i + 1])
  {
    && t.nd == p && p.parent == parent && p.keys == t.keys && p.values == t.values
    && OthersHold(t, i, p.vnode, p)
    && Held(t.kids[i], p.vnode[i], p) && Held(t.kids[i + 1], p.vnode[i + 1], p)
    && p !in Others(t, i) && p !in Nodes(t.kids[i]) && p !in Nodes(t.kids[i + 1])
    && Others(t, i) !! Nodes(t.kids[i]) && Others(t, i) !! Nodes(t.kids[i + 1])
    && Nodes(t.kids[i]) !! Nodes(t.kids[i + 1])
  }

  lemma {:induction false} SeeNeighbours(p: BNode, t: Tree, i: nat, parent: BNode?)
    requires Held(t, p, parent) && Pair(t, i)
    ensures Neighbours(t, i, p, parent)
    ensures Nodes(t.kids[i]) <= Nodes(t) && Nodes(t.kids[i + 1]) <= Nodes(t)
  {
    assert Rep(t.kids[i], p.vnode[i], p) && Rep(t.kids[i + 1], p.vnode[i + 1], p);
    assert OthersHold(t, i, p.vnode, p);
    KidInside(t, i);
    KidInside(t, i + 1);
  }

  /** Two neighbouring children and their separator were changed; the rest of the node was not. */
  lemma {:induction false} RepSwapPair(p: BNode, t: Tree, i: nat, k: int, v: Value, l: Tree, r: Tree, parent: BNode?)
    requires t.Node? && t.nd == p && Aligned(t) && i < |t.keys|
    requires p.parent == parent && p.keys == t.keys[i := k] && p.values == t.values[i := v]
    requires OthersHold(t, i, p.vnode, p)
    requires Rep(l, p.vnode[i], p) && Rep(r, p.vnode[i + 1], p)
    ensures Rep(Node(p, t.keys[i := k], t.values[i := v], t.kids[i := l][i + 1 := r]), p, parent)
  {
    var u := Node(p, t.keys[i := k], t.values[i := v], t.kids[i := l][i + 1 := r]);
    forall j | 0 <= j < |u.kids| ensures Rep(u.kids[j], p.vnode[j], p) {
      if j != i && j != i + 1 {
        assert u.kids[j] == t.kids[j];
      }
    }
  }

  /** The last child of `l` moves to the front of `x`, with the entry `pk`, `pv` before it. */
  method MoveRight(p: BNode, l: BNode, x: BNode, pk: int, pv: Value, ghost tl: Tree, ghost tx: Tree)
    returns (k: int, v: Value)
    requires Held(tl, l, p) && Held(tx, x, p) && Nodes(tl) !! Nodes(tx)
    requires Aligned(tl) && |tl.keys| > 0
    modifies Nodes(tl), x
    ensures var e := |tl.keys| - 1; k == tl.keys[e] && v == tl.values[e]
    ensures Rep(PushFront(tl.kids[|tl.keys|], pk, pv, tx), x, p)
    ensures Rep(PopBack(tl), l, p)
  {
    ghost var m := tl.kids[|tl.keys|];
    PopBackApart(tl);
    assert l !in Nodes(tx) && x !in Nodes(tl) by { assert l in Nodes(tl) && x in Nodes(tx); }
    assert x !in Nodes(PopBack(tl)) && Roots([m]) <= Nodes(m);
    assert allocated(Nodes(tx)) && allocated(Nodes(PopBack(tl)));
    var child;
    k, v, child := TakeLast(l, tl, p);
    PutFirst(x, child, pk, pv, m, tx, p);
  }

  /** The first child of `r` moves to the end of `x`, with the entry `pk`, `pv` before it. */
  method MoveLeft(p: BNode, x: BNode, r: BNode, pk: int, pv: Value, ghost tx: Tree, ghost tr: Tree)
    returns (k: int, v: Value)
    requires Held(tx, x, p) && Held(tr, r, p) && Nodes(tx) !! Nodes(tr)
    requires Aligned(tr) && |tr.keys| > 0
    modifies Nodes(tr), x
    ensures k == tr.keys[0] && v == tr.values[0]
    ensures Rep(PushBack(tx, pk, pv, tr.kids[0]), x, p)
    ensures Rep(PopFront(tr), r, p)
  {
    ghost var m := tr.kids[0];
    PopFrontApart(tr);
    assert r !in Nodes(tx) && x !in Nodes(tr) by { assert r in Nodes(tr) && x in Nodes(tx); }
    assert x !in Nodes(PopFront(tr)) && Roots([m]) <= Nodes(m);
    assert allocated(Nodes(tx)) && allocated(Nodes(PopFront(tr)));
    var child;
    k, v, child := TakeFirst(r, tr, p);
    PutLast(x, child, pk, pv, m, tx, p);
  }

  method BorrowLeft(p: BNode, idx: nat, ghost t: Tree, ghost parent: BNode?)
    requires 0 < idx && Pair(t, idx - 1) && |t.kids[idx - 1].keys| > 0
    requires Neighbours(t, idx - 1, p, parent)
    modifies p`keys, p`values, Nodes(t.kids[idx - 1]), Nodes(t.kids[idx])
    ensures Rep(RotateRight(t, idx - 1), p, parent)
  {
    ghost var i := idx - 1;
    ghost var tl, tx := t.kids[i], t.kids[idx];
    assert allocated(Others(t, i));
    var k, v := MoveRight(p, p.vnode[idx - 1], p.vnode[idx], p.keys[idx - 1], p.values[idx - 1], tl, tx);
    p.keys := p.keys[idx - 1 := k];
    p.values := p.values[idx - 1 := v];
    RepSwapPair(p, t, i, k, v, PopBack(tl), PushFront(tl.kids[|tl.keys|], t.keys[i], t.values[i], tx), parent);
  }

  method BorrowRight(p: BNode, idx: nat, ghost t: Tree, ghost parent: BNode?)
    requires Pair(t, idx) && |t.kids[idx + 1].keys| > 0
    requires Neighbours(t, idx, p, parent)
    modifies p`keys, p`values, Nodes(t.kids[idx]), Nodes(t.kids[idx + 1])
    ensures Rep(RotateLeft(t, idx), p, parent)
  {
    ghost var tx, tr := t.kids[idx], t.kids[idx + 1];
    assert allocated(Others(t, idx));
    var k, v := MoveLeft(p, p.vnode[idx], p.vnode[idx + 1], p.keys[idx], p.values[idx], tx, tr);
    p.keys := p.keys[idx := k];
    p.values := p.values[idx := v];
    RepSwapPair(p, t, idx, k, v, PushBack(tx, t.keys[idx], t.values[idx], tr.kids[0]), PopFront(tr), parent);
  }

  // ---------------------------------------------------------------- merging

  lemma {:induction false} JoinedKid(l: Tree, k: int, v: Value, r: Tree, i: nat)
    requires l.Node? && r.Node? && i < |l.kids| + |r.kids|
    ensures var u := Joined(l, k, v, r);
      && u.kids[i] == (if i < |l.kids| then l.kids[i] else r.kids[i - |l.kids|])
      && Nodes(u.kids[i]) <= Nodes(if i < |l.kids| then l else r)
  {
    if i < |l.kids| { KidInside(l, i); } else { KidInside(r, i - |l.kids|); }
  }

  lemma {:induction false} JoinedDistinct(l: Tree, k: int, v: Value, r: Tree)
    requires l.Node? && r.Node? && Distinct(l) && Distinct(r) && Nodes(l) !! Nodes(r)
    ensures Distinct(Joined(l, k, v, r))
    ensures Nodes(Joined(l, k, v, r)) <= Nodes(l) + Nodes(r)
  {
    var u := Joined(l, k, v, r);
    forall i | 0 <= i < |u.kids| ensures Distinct(u.kids[i]) && l.nd !in Nodes(u.kids[i]) {
      JoinedKid(l, k, v, r, i);
    }
    forall i | 0 <= i < |u.kids| ensures Nodes(u.kids[i]) <= Nodes(l) + Nodes(r) {
      JoinedKid(l, k, v, r, i);
    }
    forall i, j | 0 <= i < j < |u.kids| ensures Nodes(u.kids[i]) !! Nodes(u.kids[j]) {
      JoinedKid(l, k, v, r, i);
      JoinedKid(l, k, v, r, j);
    }
  }

  /** `left` takes over the separator and everything `right` holds. */
  method Absorb(left: BNode, right: BNode, k: int, v: Value, ghost tl: Tree, ghost tr: Tree, ghost p: BNode)
    requires Held(tl, left, p) && Held(tr, right, p) && Nodes(tl) !! Nodes(tr)
    modifies Nodes(tl), Nodes(tr)
    ensures Rep(Joined(tl, k, v, tr), left, p)
  {
    ghost var u := Joined(tl, k, v, tr);
    JoinedDistinct(tl, k, v, tr);
    RootsInside(u);
    ghost var ptrs := left.vnode + right.vnode;
    forall i | 0 <= i < |u.kids| ensures Loose(u.kids[i], ptrs[i]) {
      if i < |tl.kids| {
        assert Rep(tl.kids[i], left.vnode[i], left);
      } else {
        assert Rep(tr.kids[i - |tl.kids|], right.vnode[i - |tl.kids|], right);
      }
    }
    assert allocated(u) && forall i :: 0 <= i < |u.kids| ==> allocated(Nodes(u.kids[i]));
    left.keys := left.keys + [k] + right.keys;
    left.values := left.values + [v] + right.values;
    left.vnode := left.vnode + right.vnode;
    Adopt(left, u);
  }

  lemma {:induction false} RepMerge(p: BNode, t: Tree, i: nat, was: seq<BNode?>, parent: BNode?)
    requires t.Node? && t.nd == p && Pair(t, i) && OthersHold(t, i, was, p)
    requires p.parent == parent && p.keys == t.keys[..i] + t.keys[i + 1..]
    requires p.values == t.values[..i] + t.values[i + 1..]
    requires p.vnode == was[..i + 1] + was[i + 2..]
    requires Rep(Joined(t.kids[i], t.keys[i], t.values[i], t.kids[i + 1]), was[i], p)
    ensures Rep(Merge(t, i), p, parent)
  {
    var u := Merge(t, i);
    forall j | 0 <= j < |u.kids| ensures Rep(u.kids[j], p.vnode[j], p) {
      if j < i {
        assert u.kids[j] == t.kids[j];
      } else if j > i {
        assert u.kids[j] == t.kids[j + 1] && p.vnode[j] == was[j + 1];
      }
    }
  }

  method MergeChildren(p: BNode, sep: nat, ghost t: Tree, ghost parent: BNode?)
    requires Pair(t, sep) && Neighbours(t, sep, p, parent)
    modifies p`keys, p`values, p`vnode, Nodes(t.kids[sep]), Nodes(t.kids[sep + 1])
    ensures Rep(Merge(t, sep), p, parent)
  {
    var left, right := p.vnode[sep], p.vnode[sep + 1];
    ghost var was := p.vnode;
    ghost var tl, tr := t.kids[sep], t.kids[sep + 1];
    assert allocated(Others(t, sep));
    Absorb(left, right, p.keys[sep], p.values[sep], tl, tr, p);
    ghost var u := Joined(tl, t.keys[sep], t.values[sep], tr);
    assert p !in Nodes(u) by {
      JoinedDistinct(tl, t.keys[sep], t.values[sep], tr);
    }
    assert allocated(Nodes(u));
    p.keys := p.keys[..sep] + p.keys[sep + 1..];
    p.values := p.values[..sep] + p.values[sep + 1..];
    p.vnode := p.vnode[sep := left];
    p.vnode := p.vnode[..sep + 1] + p.vnode[sep + 2..];
    RepMerge(p, t, sep, was, parent);
  }

  // -------------------------------------------------------------- splitting

  lemma {:induction false} WidenKid(c: Ctx, l: Tree, k: int, v: Value, r: Tree, i: nat)
    requires c.Frame? && AlignedCtx(c) && i < |c.before| + 2 + |c.after|
    ensures var W, T, m := Widen(c, l, k, v, r), Fill(c, l), |c.before|;
      W.kids[i] == if i <= m then T.kids[i] else if i == m + 1 then r else T.kids[i - 1]
  {
  }

  lemma {:induction false} WidenInside(c: Ctx, l: Tree, k: int, v: Value, r: Tree, i: nat)
    requires c.Frame? && AlignedCtx(c) && i < |c.before| + 2 + |c.after|
    requires Distinct(Fill(c, l)) && Distinct(r) && Nodes(Fill(c, l)) !! Nodes(r)
    ensures var s := Widen(c, l, k, v, r).kids[i];
      Distinct(s) && c.nd !in Nodes(s) && Nodes(s) <= Nodes(Fill(c, l)) + Nodes(r)
  {
    WidenKid(c, l, k, v, r, i);
    var T, m := Fill(c, l), |c.before|;
    if i <= m { KidInside(T, i); } else if i > m + 1 { KidInside(T, i - 1); }
  }

  lemma {:induction false} WidenApart(c: Ctx, l: Tree, k: int, v: Value, r: Tree, i: nat, j: nat)
    requires c.Frame? && AlignedCtx(c) && i < j < |c.before| + 2 + |c.after|
    requires Distinct(Fill(c, l)) && Distinct(r) && Nodes(Fill(c, l)) !! Nodes(r)
    ensures Nodes(Widen(c, l, k, v, r).kids[i]) !! Nodes(Widen(c, l, k, v, r).kids[j])
  {
    WidenKid(c, l, k, v, r, i);
    WidenKid(c, l, k, v, r, j);
    var T, m := Fill(c, l), |c.before|;
    if i == m + 1 {
      KidInside(T, j - 1);
    } else {
      KidInside(T, if i <= m then i else i - 1);
    }
  }

  lemma {:induction false} WidenDistinct(c: Ctx, l: Tree, k: int, v: Value, r: Tree)
    requires c.Frame? && AlignedCtx(c)
    requires Distinct(Fill(c, l)) && Distinct(r) && Nodes(Fill(c, l)) !! Nodes(r)
    ensures Distinct(Widen(c, l, k, v, r))
    ensures Nodes(Widen(c, l, k, v, r)) <= Nodes(Fill(c, l)) + Nodes(r)
  {
    var W := Widen(c, l, k, v, r);
    forall i | 0 <= i < |W.kids|
      ensures Distinct(W.kids[i]) && c.nd !in Nodes(W.kids[i]) && Nodes(W.kids[i]) <= Nodes(Fill(c, l)) + Nodes(r)
    {
      WidenInside(c, l, k, v, r, i);
    }
    forall i, j | 0 <= i < j < |W.kids| ensures Nodes(W.kids[i]) !! Nodes(W.kids[j]) {
      WidenApart(c, l, k, v, r, i, j);
    }
  }

  lemma {:induction false} RepWiden(node: BNode, c: Ctx, l: Tree, k: int, v: Value, r: Tree, was: seq<BNode?>,
                                    parent: BNode?)
    requires c.Frame? && AlignedCtx(c) && c.nd == node && node.parent == parent
    requires KidsHold(Fill(c, l), was)
    requires var m := |c.before|;
      && node.keys == c.keys[..m] + [k] + c.keys[m..] && node.values == c.values[..m] + [v] + c.values[m..]
      && |node.vnode| == |was| + 1 && node.vnode[..m + 1] == was[..m + 1] && node.vnode[m + 2..] == was[m + 1..]
      && Rep(r, node.vnode[m + 1], node)
    ensures Rep(Widen(c, l, k, v, r), node, parent)
  {
    var W, T, m := Widen(c, l, k, v, r), Fill(c, l), |c.before|;
    forall i | 0 <= i < |W.kids| ensures Rep(W.kids[i], node.vnode[i], node) {
      WidenKid(c, l, k, v, r, i);
      if i <= m {
        assert node.vnode[i] == node.vnode[..m + 1][i] == was[i];
      } else if i > m + 1 {
        assert node.vnode[i] == node.vnode[m + 2..][i - m - 2] == was[i - 1];
      }
    }
  }

  method InsertEntry(node: BNode, m: nat, k: int, v: Value, right: BNode?, ghost c: Ctx, ghost l: Tree, ghost r: Tree,
                     ghost parent: BNode?)
    requires c.Frame? && AlignedCtx(c) && m == |c.before|
    requires Held(Fill(c, l), node, parent) && Loose(r, right) && Distinct(r) && Nodes(Fill(c, l)) !! Nodes(r)
    modifies node`keys, node`values, node`vnode, Roots([r])`parent
    ensures Rep(Widen(c, l, k, v, r), node, parent)
  {
    ghost var was := node.vnode;
    assert KidsHold(Fill(c, l), was);
    assert Roots([r]) <= Nodes(r) by { if r.Node? { assert [r][0].nd in Nodes(r); } }
    assert node !in Nodes(r) && node !in KidNodes(Fill(c, l)) && Roots([r]) !! KidNodes(Fill(c, l));
    assert allocated(KidNodes(Fill(c, l)));
    EditEntry(node, m, k, v, right, r);
    assert KidsHold(Fill(c, l), was);
    RepWiden(node, c, l, k, v, r, was, parent);
  }

  method EditEntry(node: BNode, m: nat, k: int, v: Value, right: BNode?, ghost r: Tree)
    requires m <= |node.keys| == |node.values| && |node.vnode| == |node.keys| + 1
    requires Loose(r, right) && Distinct(r) && node !in Nodes(r)
    modifies node`keys, node`values, node`vnode, Roots([r])`parent
    ensures node.keys == old(node.keys[..m]) + [k] + old(node.keys[m..])
    ensures node.values == old(node.values[..m]) + [v] + old(node.values[m..])
    ensures node.vnode == old(node.vnode[..m + 1]) + [right] + old(node.vnode[m + 1..])
    ensures Rep(r, right, node)
  {
    node.keys := node.keys[..m] + [k] + node.keys[m..];
    node.values := node.values[..m] + [v] + node.values[m..];
    node.vnode := node.vnode[..m + 1] + [right] + node.vnode[m + 1..];
    if right != null {
      assert right == r.nd && [r][0] == r;
      right.parent := node;
    }
  }

  ghost function KidNodes(t: Tree): set<BNode>
    requires t.Node?
  {
    set j, n | 0 <= j < |t.kids| && n in Nodes(t.kids[j]) :: n
  }

  ghost predicate KidsHold(t: Tree, ptrs: seq<BNode?>)
    requires t.Node?
    reads KidNodes(t)
  {
    && |ptrs| == |t.kids|
    && forall j :: 0 <= j < |t.kids| ==> (KidAmong(t, j); Rep(t.kids[j], ptrs[j], t.nd))
  }

  lemma {:induction false} KidAmong(t: Tree, j: nat)
    requires t.Node? && j < |t.kids|
    ensures Nodes(t.kids[j]) <= KidNodes(t)
  {
  }

  lemma {:induction false} SplitDistinct(t: Tree, m: nat, n: BNode)
    requires t.Node? && Aligned(t) && m < |t.keys| && Distinct(t) && n !in Nodes(t)
    ensures var a, b := SplitLeft(t, m), SplitRight(t, m, n);
      && Distinct(a) && Distinct(b) && Nodes(a) !! Nodes(b)
      && Nodes(a) <= Nodes(t) && Nodes(b) <= Nodes(t) + {n}
  {
    var a, b := SplitLeft(t, m), SplitRight(t, m, n);
    forall i | 0 <= i < |a.kids| ensures a.kids[i] == t.kids[i] && Nodes(a.kids[i]) <= Nodes(t) {
      KidInside(t, i);
    }
    forall i | 0 <= i < |b.kids| ensures b.kids[i] == t.kids[m + 1 + i] && Nodes(b.kids[i]) <= Nodes(t) {
      KidInside(t, m + 1 + i);
    }
  }

  /** The new node takes the children from `from` on. */
  method TakeTail(right: BNode, kids: seq<BNode?>, ghost b: Tree)
    requires b.Node? && b.nd == right && Distinct(b) && right.keys == b.keys && right.values == b.values
    requires |kids| == |b.kids| && forall i :: 0 <= i < |kids| ==> Loose(b.kids[i], kids[i])
    modifies right`vnode, Roots(b.kids)`parent
    ensures Rep(b, right, old(right.parent))
  {
    assert right !in Roots(b.kids) && forall i :: 0 <= i < |kids| ==> right !in Nodes(b.kids[i]);
    assert forall i :: 0 <= i < |kids| ==> allocated(Nodes(b.kids[i]));
    right.vnode := kids;
    Adopt(right, b);
  }

  ghost function KidsOf(kids: seq<Tree>): set<BNode> {
    set j, n | 0 <= j < |kids| && n in Nodes(kids[j]) :: n
  }

  ghost predicate AllLoose(kids: seq<Tree>, ptrs: seq<BNode?>)
    reads KidsOf(kids)
  {
    |ptrs| == |kids| && forall j :: 0 <= j < |kids| ==> (AmongKids(kids, j); Loose(kids[j], ptrs[j]))
  }

  lemma {:induction false} AmongKids(kids: seq<Tree>, j: nat)
    requires j < |kids|
    ensures Nodes(kids[j]) <= KidsOf(kids)
  {
  }

  lemma {:induction false} SplitHold(node: BNode, m: nat, t: Tree, parent: BNode?)
    requires Held(t, node, parent) && Aligned(t) && m < |t.keys|
    ensures KidsHold(SplitLeft(t, m), node.vnode[..m + 1])
    ensures AllLoose(t.kids[m + 1..], node.vnode[m + 1..])
  {
    var a := SplitLeft(t, m);
    forall j | 0 <= j < |a.kids| ensures Rep(a.kids[j], node.vnode[..m + 1][j], node) {
      assert Rep(t.kids[j], node.vnode[j], node);
    }
    var kids, ptrs := t.kids[m + 1..], node.vnode[m + 1..];
    forall j | 0 <= j < |kids| ensures Loose(kids[j], ptrs[j]) {
      assert Rep(t.kids[m + 1 + j], node.vnode[m + 1 + j], node);
      RepLoose(t.kids[m + 1 + j], node.vnode[m + 1 + j], node);
    }
  }

  /** The tail of `node` moves to the fresh node `right`. */
  method SplitInto(node: BNode, right: BNode, median: nat, ghost t: Tree, ghost parent: BNode?)
    requires t.Node? && t.nd == node && Aligned(t) && median < |t.keys| && Distinct(t) && right !in Nodes(t)
    requires node.parent == parent && node.keys == t.keys && node.values == t.values && |node.vnode| == |t.kids|
    requires KidsHold(SplitLeft(t, median), node.vnode[..median + 1])
    requires AllLoose(t.kids[median + 1..], node.vnode[median + 1..])
    modifies node`keys, node`values, node`vnode, right, Roots(t.kids[median + 1..])`parent
    ensures Rep(SplitLeft(t, median), node, parent)
    ensures Rep(SplitRight(t, median, right), right, parent)
  {
    ghost var a, b := SplitLeft(t, median), SplitRight(t, median, right);
    SplitApart(t, median, right);
    assert allocated(KidNodes(a)) && allocated(KidsOf(b.kids)) && allocated(Nodes(b));
    right.parent := node.parent;
    right.keys := node.keys[median + 1..];
    right.values := node.values[median + 1..];
    assert AllLoose(b.kids, node.vnode[median + 1..]);
    TakeTail(right, node.vnode[median + 1..], b);
    CutTail(node, median, t, parent);
  }

  /** What stays in `node`. */
  method CutTail(node: BNode, median: nat, ghost t: Tree, ghost parent: BNode?)
    requires t.Node? && t.nd == node && Aligned(t) && median < |t.keys|
    requires node.parent == parent && node.keys == t.keys && node.values == t.values && |node.vnode| == |t.kids|
    requires KidsHold(SplitLeft(t, median), node.vnode[..median + 1]) && node !in KidNodes(SplitLeft(t, median))
    modifies node`keys, node`values, node`vnode
    ensures Rep(SplitLeft(t, median), node, parent)
  {
    ghost var a := SplitLeft(t, median);
    assert allocated(KidNodes(a));
    node.keys := node.keys[..median];
    node.values := node.values[..median];
    node.vnode := node.vnode[..median + 1];
    assert KidsHold(a, node.vnode);
  }

  lemma {:induction false} SplitApart(t: Tree, m: nat, n: BNode)
    requires t.Node? && Aligned(t) && m < |t.keys| && Distinct(t) && n !in Nodes(t)
    ensures var a, b := SplitLeft(t, m), SplitRight(t, m, n);
      && Distinct(b) && t.nd !in Nodes(b) && t.nd !in KidNodes(a)
      && n !in KidsOf(b.kids) && n !in KidNodes(a) && n !in Roots(b.kids)
      && Roots(b.kids) !! KidNodes(a) && t.nd !in Roots(b.kids)
  {
    var a, b := SplitLeft(t, m), SplitRight(t, m, n);
    SplitDistinct(t, m, n);
    RootsInside(b);
    assert KidNodes(a) <= Nodes(a) && KidsOf(b.kids) <= Nodes(b);
  }

  method SplitNode(node: BNode, median: nat, ghost t: Tree, ghost parent: BNode?) returns (right: BNode)
    requires Held(t, node, parent) && Aligned(t) && median < |t.keys|
    modifies Nodes(t)
    ensures fresh(right)
    ensures Rep(SplitLeft(t, median), node, parent)
    ensures Rep(SplitRight(t, median, right), right, parent)
  {
    SplitHold(node, median, t, parent);
    RootsAmong(t, median + 1);
    assert allocated(Nodes(t)) && allocated(KidNodes(SplitLeft(t, median))) && allocated(KidsOf(t.kids[median + 1..]));
    right := new BNode();
    SplitInto(node, right, median, t, parent);
  }

  lemma {:induction false} RootsAmong(t: Tree, from: nat)
    requires t.Node? && from <= |t.kids|
    ensures Roots(t.kids[from..]) <= Nodes(t)
  {
    forall n | n in Roots(t.kids[from..]) ensures n in Nodes(t) {
      var i :| 0 <= i < |t.kids| - from && t.kids[from..][i].Node? && t.kids[from..][i].nd == n;
      assert n in Nodes(t.kids[from + i]);
    }
  }

  lemma {:induction false} TwoDistinct(n: BNode, k: int, v: Value, a: Tree, b: Tree)
    requires Distinct(a) && Distinct(b) && Nodes(a) !! Nodes(b) && n !in Nodes(a) && n !in Nodes(b)
    ensures var t := Node(n, [k], [v], [a, b]);
      Distinct(t) && Nodes(t) <= {n} + Nodes(a) + Nodes(b)
  {
    var t := Node(n, [k], [v], [a, b]);
    forall i | 0 <= i < |t.kids| ensures t.kids[i] == if i == 0 then a else b {
    }
  }

  method LinkRoot(newRoot: BNode, node: BNode, right: BNode, k: int, v: Value, ghost a: Tree, ghost b: Tree)
    requires Held(a, node, null) && Held(b, right, null) && Nodes(a) !! Nodes(b)
    requires newRoot !in Nodes(a) && newRoot !in Nodes(b) && newRoot.parent == null
    modifies newRoot`keys, newRoot`values, newRoot`vnode, node`parent, right`parent
    ensures Rep(Node(newRoot, [k], [v], [a, b]), newRoot, null)
  {
    assert node in Nodes(a) && right in Nodes(b);
    ghost var ka, kb := node.vnode, right.vnode;
    assert KidsHold(a, ka) && KidsHold(b, kb);
    assert node !in KidNodes(a) && right !in KidNodes(a) && node !in KidNodes(b) && right !in KidNodes(b);
    assert allocated(KidNodes(a)) && allocated(KidNodes(b));
    newRoot.keys := [k];
    newRoot.values := [v];
    newRoot.vnode := [node, right];
    node.parent := newRoot;
    right.parent := newRoot;
    assert KidsHold(a, ka) && KidsHold(b, kb);
    assert Rep(a, node, newRoot) && Rep(b, right, newRoot);
  }
}
