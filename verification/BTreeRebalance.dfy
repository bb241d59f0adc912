/** The rebalancing of `deletion`: borrowing from a neighbour or merging with one, seen from
    the parent of the node that ran short. */
module BTreeRebalance {
  import opened SortedEntries
  import opened BTreeShape
  import opened BTreeSteps
  import opened BTreeHeap

  lemma {:induction false} Around(a: seq<Entry>, b: seq<Entry>, c: seq<Entry>, d: seq<Entry>, e: seq<Entry>,
                                  f: seq<Entry>, g: seq<Entry>)
    ensures a + (b + (c + d + e) + f) + g == (a + (b + c)) + d + ((e + f) + g)
  {
    assert a + (b + (c + d + e) + f) + g == a + b + c + d + e + f + g;
  }

  lemma {:induction false} CutNodes(c: Ctx, t: Tree, whole: Tree)
    requires Plug(c, t) == whole
    ensures NodesCtx(c) + Nodes(t) == Nodes(whole)
    ensures t == Nil && whole != Nil ==> c.Frame?
    decreases c
  {
    if c.Frame? {
      NodesFill(c, t);
      CutNodes(c.up, Fill(c, t), whole);
    }
  }

  lemma {:induction false} EnterShape(c: Ctx, t: Tree, i: nat, h: nat, order: nat)
    requires ShapeCtx(c, h, order) && t.Node? && i < |t.kids|
    requires Shape(t, h, order, if c.Top? then 1 else MinKeys(order))
    ensures h > 0 && ShapeCtx(Enter(c, t, i), h - 1, order)
  {
    var d := Enter(c, t, i);
    assert forall j :: 0 <= j < |d.before| ==> d.before[j] == t.kids[j];
    assert forall j :: 0 <= j < |d.after| ==> d.after[j] == t.kids[i + 1 + j];
  }

  /** The subtree in the hole may be one key short; at the root it may have no key at all. */
  ghost predicate ShortShape(c: Ctx, t: Tree, h: nat, order: nat) {
    && t.Node? && h > 0 && AlignedCtx(c) && ShapeCtx(c, h, order)
    && Shape(t, h, order, if c.Top? then 0 else MinKeys(order) - 1)
  }

  ghost predicate Short(c: Ctx, t: Tree, x: BNode?, h: nat, order: nat, root: BNode?)
    reads NodesCtx(c), Nodes(t)
  {
    Cut(c, t, x, root) && ShortShape(c, t, h, order)
  }

  ghost function Entries(c: Ctx, t: Tree): seq<Entry>
    requires AlignedCtx(c)
  {
    Before(c) + Flat(t) + After(c)
  }

  /** Entries do not depend on where the cut is. */
  lemma {:induction false} EntriesUp(c: Ctx, t: Tree)
    requires c.Frame? && AlignedCtx(c)
    ensures Entries(c.up, Fill(c, t)) == Entries(c, t)
  {
    FlatPlug(c, t);
    FlatPlug(c.up, Fill(c, t));
  }

  ghost function LowOf(c: Ctx, order: nat): int {
    if c.Top? then 1 else MinKeys(order)
  }

  /** The parent of a node that ran short. */
  lemma {:induction false} ParentShape(c: Ctx, t: Tree, h: nat, order: nat)
    requires ShortShape(c, t, h, order) && c.Frame? && |t.keys| < MinKeys(order)
    ensures ShapeBut(Fill(c, t), |c.before|, h + 1, order, LowOf(c.up, order))
    ensures AlignedCtx(c.up) && ShapeCtx(c.up, h + 1, order)
  {
    var T := Fill(c, t);
    KidsOfFill(c, t);
    forall i | 0 <= i < |T.kids| && i != |c.before| ensures Shape(T.kids[i], h, order, MinKeys(order)) {
    }
  }

  /** `idx` of the source: where the node sits among its parent's children. */
  method IndexOf(p: BNode, x: BNode, ghost c: Ctx, ghost t: Tree, ghost root: BNode?) returns (idx: nat)
    requires c.Frame? && p == c.nd && t.Node? && Cut(c, t, x, root)
    ensures idx == |c.before| && idx < |p.vnode|
  {
    assert forall j :: 0 <= j < |c.before| ==> p.vnode[j] != x by {
      forall j | 0 <= j < |c.before| ensures p.vnode[j] != x {
        NotThere(p, x, c, t, root, j);
      }
    }
    assert |p.vnode| == |Fill(c, Nil).kids| == |c.before| + 1 + |c.after|;
    idx := 0;
    while p.vnode[idx] != x
      invariant 0 <= idx <= |c.before|
      decreases |c.before| - idx
    {
      idx := idx + 1;
    }
  }

  lemma {:induction false} NotThere(p: BNode, x: BNode, c: Ctx, t: Tree, root: BNode?, j: nat)
    requires c.Frame? && p == c.nd && t.Node? && Cut(c, t, x, root) && j < |c.before|
    ensures p.vnode[j] != x
  {
    var S := Fill(c, Nil);
    assert S.kids[j] == c.before[j];
    KidInside(S, j);
    assert x in Nodes(t) && Nodes(S) !! Nodes(t);
    assert Rep(S.kids[j], p.vnode[j], p);
    assert S.kids[j].Node? ==> S.kids[j].nd in Nodes(S.kids[j]);
  }

  method StepBorrowLeft(p: BNode, idx: nat, ghost up: Ctx, ghost t: Tree, ghost root: BNode?)
    requires Cut(up, t, p, root) && 0 < idx && Pair(t, idx - 1) && |t.kids[idx - 1].keys| > 0
    modifies Nodes(t)
    ensures Cut(up, RotateRight(t, idx - 1), p, root) && Nodes(RotateRight(t, idx - 1)) <= Nodes(t)
  {
    assert allocated(NodesCtx(up));
    SeeNeighbours(p, t, idx - 1, Owner(up));
    BagRotateRight(t, idx - 1);
    SameBag(t, RotateRight(t, idx - 1));
    assert p in Nodes(t);
    BorrowLeft(p, idx, t, Owner(up));
  }

  method StepBorrowRight(p: BNode, idx: nat, ghost up: Ctx, ghost t: Tree, ghost root: BNode?)
    requires Cut(up, t, p, root) && Pair(t, idx) && |t.kids[idx + 1].keys| > 0
    modifies Nodes(t)
    ensures Cut(up, RotateLeft(t, idx), p, root) && Nodes(RotateLeft(t, idx)) <= Nodes(t)
  {
    assert allocated(NodesCtx(up));
    SeeNeighbours(p, t, idx, Owner(up));
    BagRotateLeft(t, idx);
    SameBag(t, RotateLeft(t, idx));
    assert p in Nodes(t);
    BorrowRight(p, idx, t, Owner(up));
  }

  method StepMerge(p: BNode, sep: nat, ghost up: Ctx, ghost t: Tree, ghost root: BNode?)
    requires Cut(up, t, p, root) && Pair(t, sep)
    modifies Nodes(t)
    ensures Cut(up, Merge(t, sep), p, root) && Nodes(Merge(t, sep)) <= Nodes(t)
  {
    assert allocated(NodesCtx(up));
    SeeNeighbours(p, t, sep, Owner(up));
    BagMerge(t, sep);
    SameBag(t, Merge(t, sep));
    assert p in Nodes(t);
    MergeChildren(p, sep, t, Owner(up));
  }

  /** The root of the whole tree is above the hole, so it is not the node in the hole. */
  lemma {:induction false} RootAbove(c: Ctx, h: BNode?, root: BNode?)
    requires c.Frame? && RepCtx(c, h, root)
    ensures root != null && root in NodesCtx(c)
    decreases c
  {
    NodesFill(c, Nil);
    if c.up.Frame? {
      RootAbove(c.up, c.nd, root);
    }
  }

  lemma {:induction false} AtRoot(c: Ctx, t: Tree, x: BNode, root: BNode?)
    requires Cut(c, t, x, root) && t.Node?
    ensures x == root <==> c.Top?
    ensures x == t.nd && x.keys == t.keys && |x.vnode| == |t.kids| && x.parent == Owner(c)
  {
    if c.Frame? {
      RootAbove(c, x, root);
      assert x in Nodes(t);
    }
  }

  // ------------------------------------------------- what each repair keeps

  lemma {:induction false} BorrowLeftKeeps(up: Ctx, t: Tree, i: nat, h: nat, order: nat)
    requires order >= 3 && AlignedCtx(up)
    requires Pair(t, i) && ShapeBut(t, i + 1, h, order, LowOf(up, order)) && |t.kids[i].keys| > MinKeys(order)
    ensures Shape(RotateRight(t, i), h, order, LowOf(up, order))
    ensures Entries(up, RotateRight(t, i)) == Entries(up, t)
  {
    ShapeRotateRight(t, i, h, order, LowOf(up, order));
    FlatRotateRight(t, i);
  }

  lemma {:induction false} BorrowRightKeeps(up: Ctx, t: Tree, i: nat, h: nat, order: nat)
    requires order >= 3 && AlignedCtx(up)
    requires Pair(t, i) && ShapeBut(t, i, h, order, LowOf(up, order)) && |t.kids[i + 1].keys| > MinKeys(order)
    ensures Shape(RotateLeft(t, i), h, order, LowOf(up, order))
    ensures Entries(up, RotateLeft(t, i)) == Entries(up, t)
  {
    ShapeRotateLeft(t, i, h, order, LowOf(up, order));
    FlatRotateLeft(t, i);
  }

  lemma {:induction false} MergeKeeps(up: Ctx, t: Tree, i: nat, j: nat, h: nat, order: nat)
    requires order >= 3 && AlignedCtx(up) && ShapeCtx(up, h, order)
    requires Pair(t, i) && (j == i || j == i + 1) && ShapeBut(t, j, h, order, LowOf(up, order))
    requires |t.kids[i].keys| <= MinKeys(order) && |t.kids[i + 1].keys| <= MinKeys(order)
    ensures ShortShape(up, Merge(t, i), h, order)
    ensures Entries(up, Merge(t, i)) == Entries(up, t)
  {
    ShapeMerge(t, i, j, h, order, LowOf(up, order));
    FlatMerge(t, i);
  }

  /** Both neighbours of a separator are nodes: below the leaves there is nothing to repair. */
  lemma {:induction false} PairAt(t: Tree, j: nat, i: nat, h: nat, order: nat, lo: int)
    requires ShapeBut(t, j, h, order, lo) && i < |t.keys|
    ensures Pair(t, i)
  {
    assert Shape(t.kids[i], h - 1, order, if i == j then MinKeys(order) - 1 else MinKeys(order));
    assert Shape(t.kids[i + 1], h - 1, order, if i + 1 == j then MinKeys(order) - 1 else MinKeys(order));
  }

  /** Child `idx` of the node in the hole ran short. */
  ghost predicate ShortChild(up: Ctx, t: Tree, p: BNode?, idx: nat, h: nat, order: nat, root: BNode?)
    reads NodesCtx(up), Nodes(t)
  {
    && Cut(up, t, p, root)
    && ShapeBut(t, idx, h, order, LowOf(up, order))
    && AlignedCtx(up) && ShapeCtx(up, h, order)
  }

  lemma {:induction false} SeeShortChild(c: Ctx, t: Tree, x: BNode, h: nat, order: nat, root: BNode?)
    requires Short(c, t, x, h, order, root) && c.Frame? && |t.keys| < MinKeys(order)
    ensures ShortChild(c.up, Fill(c, t), c.nd, |c.before|, h + 1, order, root)
  {
    CutUp(c, t, x, root);
    ParentShape(c, t, h, order);
  }

  lemma {:induction false} SeeFill(c: Ctx, t: Tree)
    requires c.Frame? && AlignedCtx(c) && Aligned(t)
    ensures AlignedCtx(c.up) && Entries(c.up, Fill(c, t)) == Entries(c, t)
    ensures NodesCtx(c.up) + Nodes(Fill(c, t)) == NodesCtx(c) + Nodes(t)
    ensures Fill(c, t).kids[|c.before|] == t
  {
    EntriesUp(c, t);
    NodesFill(c, t);
  }

  /** The merge of the source: with the left neighbour when there is one, else with the right. */
  method MergeShort(p: BNode, idx: nat, ghost up: Ctx, ghost t: Tree, ghost h: nat, ghost order: nat,
                    ghost root: BNode?)
    returns (ghost u: Tree)
    requires order >= 3 && ShortChild(up, t, p, idx, h, order, root)
    requires idx > 0 ==> |t.kids[idx - 1].keys| <= MinKeys(order)
    requires idx < |t.keys| ==> |t.kids[idx + 1].keys| <= MinKeys(order)
    modifies Nodes(t)
    ensures Short(up, u, p, h, order, root) && Entries(up, u) == Entries(up, t)
    ensures Nodes(u) <= Nodes(t)
  {
    assert MinKeys(order) >= 1 && |t.keys| >= 1;
    var sep := if idx > 0 then idx - 1 else idx;
    PairAt(t, idx, sep, h, order, LowOf(up, order));
    MergeKeeps(up, t, sep, idx, h, order);
    u := Merge(t, sep);
    StepMerge(p, sep, up, t, root);
  }

  method LendLeft(p: BNode, idx: nat, ghost up: Ctx, ghost t: Tree, ghost h: nat, ghost order: nat, ghost root: BNode?)
    requires order >= 3 && ShortChild(up, t, p, idx, h, order, root)
    requires idx > 0 && |t.kids[idx - 1].keys| > MinKeys(order)
    modifies Nodes(t)
    ensures Pair(t, idx - 1)
    ensures var u := RotateRight(t, idx - 1);
      && Cut(up, u, p, root) && Nodes(u) <= Nodes(t)
      && Shape(u, h, order, LowOf(up, order)) && Entries(up, u) == Entries(up, t)
  {
    PairAt(t, idx, idx - 1, h, order, LowOf(up, order));
    BorrowLeftKeeps(up, t, idx - 1, h, order);
    StepBorrowLeft(p, idx, up, t, root);
  }

  method LendRight(p: BNode, idx: nat, ghost up: Ctx, ghost t: Tree, ghost h: nat, ghost order: nat, ghost root: BNode?)
    requires order >= 3 && ShortChild(up, t, p, idx, h, order, root)
    requires idx < |t.keys| && |t.kids[idx + 1].keys| > MinKeys(order)
    modifies Nodes(t)
    ensures Pair(t, idx)
    ensures var u := RotateLeft(t, idx);
      && Cut(up, u, p, root) && Nodes(u) <= Nodes(t)
      && Shape(u, h, order, LowOf(up, order)) && Entries(up, u) == Entries(up, t)
  {
    PairAt(t, idx, idx, h, order, LowOf(up, order));
    BorrowRightKeeps(up, t, idx, h, order);
    StepBorrowRight(p, idx, up, t, root);
  }
}
