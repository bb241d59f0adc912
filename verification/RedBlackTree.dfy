/** `RedBlackTree` of Data_structures/RedBlackTree.cpp: rotation, the join-based operations and
    insertion, in place. */
module RedBlackTreeModel {
  import opened Sides
  import opened RBShape
  import opened RBJoin
  import opened RBInsert

  ghost function Par(p: RBNode?): set<RBNode> {
    if p == null then {} else {p}
  }

  /** `black_height`. */
  method BlackHeight(t: RBNode?, ghost T: Tree, ghost parent: RBNode?) returns (d: nat)
    requires Rep(T, t, parent)
    ensures d == Bh(T)
  {
    d := 1;
    var temp := t;
    ghost var cur, p := T, parent;
    while temp != null
      invariant Rep(cur, temp, p)
      invariant d + Bh(cur) == Bh(T) + 1
      decreases cur
    {
      if temp.color == Black {
        d := d + 1;
      }
      cur, p := cur.right, temp;
      temp := temp.right;
    }
  }

  class RedBlackTree {
    var tree: RBNode?

    constructor ()
      ensures tree == null
    {
      tree := null;
    }

    /** `subtree_rotation` with `dir` the direction in which the old root goes down. */
    method SubtreeRotation(sub: RBNode, dir: Direction, ghost t: Tree, ghost parent: RBNode?) returns (newRoot: RBNode)
      requires Held(t, sub, parent) && t.Node? && Kid(t, Opposite(dir)).Node?
      requires parent != null ==> parent !in Nodes(t)
      modifies this`tree, Nodes(t), Par(parent)`left, Par(parent)`right
      ensures Held(RotatedUp(t, Opposite(dir)), newRoot, parent)
      ensures newRoot == Kid(t, Opposite(dir)).nd
      ensures parent == null ==> tree == newRoot
      ensures parent != null ==> tree == old(tree)
      ensures parent != null ==>
                if old(parent.right) == sub then parent.right == newRoot && parent.left == old(parent.left)
                else parent.left == newRoot && parent.right == old(parent.right)
    {
      ghost var d := Opposite(dir);
      ghost var b := Kid(t, d);
      NodesRotatedUp(t, d);
      assert allocated(Nodes(t)) && Nodes(RotatedUp(t, d)) == Nodes(t);
      RotationParts(t, sub, dir, parent);
      newRoot := sub.Child(Opposite(dir));
      var oldRootParent := sub.parent;
      Twist(sub, newRoot, dir, Kid(t, dir), Kid(b, dir), Kid(b, d), oldRootParent);
      if oldRootParent != null {
        if sub == oldRootParent.right {
          oldRootParent.right := newRoot;
        } else {
          oldRootParent.left := newRoot;
        }
      } else {
        tree := newRoot;
      }
    }

    /** `RightRBJoin` (`d` = Right) and its mirror image `LeftRBJoin` (`d` = Left): `t1` is the
        taller tree, whose spine on side `d` is walked down. */
    method SpineRBJoin(d: Direction, t1: RBNode?, t2: RBNode?, k: int, ghost T1: Tree, ghost T2: Tree,
                       ghost parent: RBNode?)
      returns (res: RBNode, ghost n: RBNode)
      requires Held(T1, t1, parent) && Loose(T2, t2) && Nodes(T1) !! Nodes(T2)
      requires parent != null ==> parent !in Nodes(T1) && parent !in Nodes(T2)
      requires parent != null && t1 != null ==> parent.Child(d) == t1 && parent.Child(Opposite(d)) != t1
      modifies this`tree, Nodes(T1), Nodes(T2), Par(parent)`left, Par(parent)`right
      ensures fresh(n) && Held(SpineJoin(d, T1, T2, k, n), res, if T1.Nil? then null else parent)
      ensures parent != null ==> parent.Child(Opposite(d)) == old(parent.Child(Opposite(d)))
      decreases T1
    {
      assert allocated(Nodes(T1)) && allocated(Nodes(T2));
      var base := t1 == null;
      if !base && t1.color == Black {
        var h1 := BlackHeight(t1, T1, parent);
        var h2 := BlackHeight(t2, T2, if T2.Node? then T2.nd.parent else null);
        base := h1 == h2;
      }
      assert base <==> BaseCase(T1, T2);
      if base {
        res := NewJoint(d, t1, t2, k, T1, T2, parent);
        n := res;
      } else {
        res, n := JoinBelow(d, t1, t2, k, T1, T2, parent);
      }
    }

    method JoinBelow(d: Direction, t1: RBNode, t2: RBNode?, k: int, ghost T1: Tree, ghost T2: Tree,
                     ghost parent: RBNode?)
      returns (res: RBNode, ghost n: RBNode)
      requires Held(T1, t1, parent) && Loose(T2, t2) && Nodes(T1) !! Nodes(T2) && !BaseCase(T1, T2)
      requires parent != null ==> parent !in Nodes(T1) && parent !in Nodes(T2)
      requires parent != null ==> parent.Child(d) == t1 && parent.Child(Opposite(d)) != t1
      modifies this`tree, Nodes(T1), Nodes(T2), Par(parent)`left, Par(parent)`right
      ensures fresh(n) && Held(SpineJoin(d, T1, T2, k, n), res, parent)
      ensures parent != null ==> parent.Child(Opposite(d)) == old(parent.Child(Opposite(d)))
      decreases T1, 0
    {
      ghost var s, o := Kid(T1, d), Kid(T1, Opposite(d));
      HeldKid(T1, t1, parent, d);
      HeldKid(T1, t1, parent, Opposite(d));
      SiblingDiffers(T1, t1, parent, d);
      assert allocated(Nodes(o)) && allocated(Nodes(T1)) && allocated(Nodes(T2));
      var below;
      below, n := SpineRBJoin(d, t1.Child(d), t2, k, s, T2, t1);
      ghost var b := SpineJoin(d, s, T2, k, n);
      NodesJoin(d, s, T2, k, n);
      res := MendSpine(t1, below, d, o, b, parent);
    }

    /** What was joined below goes back under `t1`, which is repaired. */
    method MendSpine(t1: RBNode, below: RBNode, d: Direction, ghost o: Tree, ghost b: Tree, ghost parent: RBNode?)
      returns (res: RBNode)
      requires Held(o, t1.Child(Opposite(d)), t1) && Loose(b, below) && Nodes(o) !! Nodes(b)
      requires t1 !in Nodes(o) && t1 !in Nodes(b) && t1.parent == parent
      requires parent != null ==> parent != t1 && parent !in Nodes(o) && parent !in Nodes(b)
      requires parent != null ==> parent.Child(d) == t1 && parent.Child(Opposite(d)) != t1
      modifies this`tree, t1, Nodes(o), Nodes(b), Par(parent)`left, Par(parent)`right
      ensures Held(Mended(d, Mk(t1, d, o, old(t1.key), old(t1.color), b)), res, parent)
      ensures parent != null ==> parent.Child(Opposite(d)) == old(parent.Child(Opposite(d)))
    {
      assert allocated(Nodes(o)) && allocated(Nodes(b));
      Reattach(t1, below, d, o, b, parent);
      ghost var u := Mk(t1, d, o, t1.key, t1.color, b);
      NodesMk(t1, d, o, t1.key, t1.color, b);
      res := Repair(t1, d, u, parent);
    }

    /** The rotation of `t1` when its spine child and that one's spine child are both red. */
    method Repair(t1: RBNode, d: Direction, ghost u: Tree, ghost parent: RBNode?) returns (res: RBNode)
      requires Held(u, t1, parent) && u.Node?
      requires parent != null ==> parent !in Nodes(u) && parent.Child(d) == t1 && parent.Child(Opposite(d)) != t1
      modifies this`tree, Nodes(u), Par(parent)`left, Par(parent)`right
      ensures Held(Mended(d, u), res, parent)
      ensures parent != null ==> parent.Child(Opposite(d)) == old(parent.Child(Opposite(d)))
    {
      HeldKid(u, t1, parent, d);
      if Kid(u, d).Node? {
        HeldKid(Kid(u, d), t1.Child(d), t1, d);
      }
      if t1.color == Black && t1.Child(d) != null && t1.Child(d).color == Red
         && t1.Child(d).Child(d) != null && t1.Child(d).Child(d).color == Red {
        RepairSteps(u, d);
        NodesRecolored(u, d);
        assert allocated(Nodes(u));
        Blacken(t1, d, u, parent);
        res := SubtreeRotation(t1, Opposite(d), Recolored(u, d), parent);
      } else {
        res := t1;
      }
    }

    /** `JoinOP`: one valid tree of everything in `t1`, then `k`, then everything in `t2`. */
    method JoinOP(t1: RBNode?, t2: RBNode?, k: int, ghost T1: Tree, ghost T2: Tree)
      returns (res: RBNode, ghost R: Tree, ghost n: RBNode)
      requires Held(T1, t1, null) && Held(T2, t2, null) && Nodes(T1) !! Nodes(T2)
      requires Good(T1) && Good(T2)
      modifies this`tree, Nodes(T1), Nodes(T2)
      ensures Held(R, res, null) && JoinResult(R, T1, k, T2)
      ensures fresh(n) && Nodes(R) == Nodes(T1) + Nodes(T2) + {n}
    {
      assert allocated(Nodes(T1)) && allocated(Nodes(T2));
      var h1 := BlackHeight(t1, T1, null);
      var h2 := BlackHeight(t2, T2, null);
      if h1 > h2 {
        BhPositive(T2);
        res, R, n := JoinTaller(Right, t1, t2, k, T1, T2);
      } else if h1 < h2 {
        BhPositive(T1);
        res, R, n := JoinTaller(Left, t2, t1, k, T2, T1);
      } else {
        res, R := JoinEven(t1, t2, k, T1, T2);
        n := res;
      }
    }

    method JoinEven(t1: RBNode?, t2: RBNode?, k: int, ghost T1: Tree, ghost T2: Tree)
      returns (res: RBNode, ghost R: Tree)
      requires Held(T1, t1, null) && Held(T2, t2, null) && Nodes(T1) !! Nodes(T2)
      requires Good(T1) && Good(T2) && Bh(T1) == Bh(T2)
      modifies Nodes(T1), Nodes(T2)
      ensures Held(R, res, null) && JoinResult(R, T1, k, T2)
      ensures fresh(res) && Nodes(R) == Nodes(T1) + Nodes(T2) + {res}
    {
      assert allocated(Nodes(T1)) && allocated(Nodes(T2));
      var t1Black := t1 == null || t1.color == Black;
      var t2Black := t2 == null || t2.color == Black;
      var color := if t1Black && t2Black then Red else Black;
      res := new RBNode(k, color);
      NodesMk(res, Right, T1, k, color, T2);
      Link(res, Right, t1, t2, T1, T2);
      R := Mk(res, Right, T1, k, color, T2);
      EvenJoin(res, T1, k, T2);
    }

    method JoinTaller(d: Direction, t1: RBNode?, t2: RBNode?, k: int, ghost T1: Tree, ghost T2: Tree)
      returns (res: RBNode, ghost R: Tree, ghost n: RBNode)
      requires Held(T1, t1, null) && Held(T2, t2, null) && Nodes(T1) !! Nodes(T2)
      requires Good(T1) && Good(T2) && Bh(T1) > Bh(T2) && T1.Node?
      modifies this`tree, Nodes(T1), Nodes(T2)
      ensures Held(R, res, null) && Keys(R) == Cat(d, Keys(T1), k, Keys(T2))
      ensures Good(R) && Bh(T1) <= Bh(R) <= Bh(T1) + 1
      ensures fresh(n) && Nodes(R) == Nodes(T1) + Nodes(T2) + {n}
    {
      assert allocated(Nodes(T1)) && allocated(Nodes(T2));
      res, n := SpineRBJoin(d, t1, t2, k, T1, T2, null);
      ghost var r := SpineJoin(d, T1, T2, k, n);
      KeysJoin(d, T1, T2, k, n);
      JoinShape(d, T1, T2, k, n);
      NodesJoin(d, T1, T2, k, n);
      ToppedGood(d, T1, T2, r);
      R := Topped(d, r);
      HeldKid(r, res, null, d);
      if Kid(r, d).Node? {
        HeldKid(Kid(r, d), res.Child(d), res, d);
      }
      if res.color == Red && res.Child(d) != null && res.Child(d).color == Red {
        PaintRoot(res, Black, r, null);
      }
    }

    /** `SplitOP`: valid trees of exactly the keys below and above `k`. */
    method SplitOP(t: RBNode?, k: int, ghost T: Tree) returns (l: RBNode?, r: RBNode?, ghost L: Tree, ghost R: Tree)
      requires Held(T, t, null) && Good(T) && Sorted(Keys(T))
      modifies this`tree, Nodes(T)
      ensures Held(L, l, null) && Held(R, r, null) && Nodes(L) !! Nodes(R)
      ensures SplitResult(T, k, L, R)
      ensures forall n :: n in Nodes(L) || n in Nodes(R) ==> n in Nodes(T) || fresh(n)
      decreases T
    {
      if t == null {
        return null, null, Nil, Nil;
      }
      HeldKid(T, t, null, Left);
      HeldKid(T, t, null, Right);
      GoodKids(T, Left);
      GoodKids(T, Right);
      SortedParts(Keys(T.left), T.key, Keys(T.right));
      assert allocated(Nodes(T)) && allocated(Nodes(T.left)) && allocated(Nodes(T.right));
      if t.key == k {
        Isolate(t.left, T.left, t);
        Isolate(t.right, T.right, t);
        l, r, L, R := t.left, t.right, T.left, T.right;
        SplitHere(T, k);
      } else if t.key > k {
        Isolate(t.left, T.left, t);
        l, r, L, R := SplitLeftSide(t, k, T);
      } else {
        Isolate(t.right, T.right, t);
        l, r, L, R := SplitRightSide(t, k, T);
      }
    }

    method SplitLeftSide(t: RBNode, k: int, ghost T: Tree)
      returns (l: RBNode?, r: RBNode?, ghost L: Tree, ghost R: Tree)
      requires T.Node? && t == T.nd && t.key == T.key > k
      requires Held(T.left, t.left, null) && Held(T.right, t.right, t) && Nodes(T.left) !! Nodes(T.right)
      requires t !in Nodes(T.left) && t !in Nodes(T.right)
      requires Good(T.left) && Good(T.right) && Sorted(Keys(T.left)) && AllAbove(T.key, Keys(T.right))
      requires AllBelow(Keys(T.left), T.key)
      modifies this`tree, Nodes(T.left), Nodes(T.right)
      ensures Held(L, l, null) && Held(R, r, null) && Nodes(L) !! Nodes(R)
      ensures SplitResult(T, k, L, R)
      ensures forall n :: n in Nodes(L) || n in Nodes(R) ==> n in Nodes(T) || fresh(n)
      decreases T, 0
    {
      assert allocated(Nodes(T.left)) && allocated(Nodes(T.right));
      ghost var M, n;
      var m;
      l, m, L, M := SplitOP(t.left, k, T.left);
      assert Held(T.right, t.right, t);
      assert Nodes(L) !! Nodes(T.right) && Nodes(M) !! Nodes(T.right) && allocated(Nodes(L)) && allocated(Nodes(M));
      Isolate(t.right, T.right, t);
      r, R, n := JoinOP(m, t.right, t.key, M, T.right);
      SplitBelow(T, k, L, M, R);
    }

    method SplitRightSide(t: RBNode, k: int, ghost T: Tree)
      returns (l: RBNode?, r: RBNode?, ghost L: Tree, ghost R: Tree)
      requires T.Node? && t == T.nd && t.key == T.key < k
      requires Held(T.left, t.left, t) && Held(T.right, t.right, null) && Nodes(T.left) !! Nodes(T.right)
      requires t !in Nodes(T.left) && t !in Nodes(T.right)
      requires Good(T.left) && Good(T.right) && Sorted(Keys(T.right)) && AllAbove(T.key, Keys(T.right))
      requires AllBelow(Keys(T.left), T.key)
      modifies this`tree, Nodes(T.left), Nodes(T.right)
      ensures Held(L, l, null) && Held(R, r, null) && Nodes(L) !! Nodes(R)
      ensures SplitResult(T, k, L, R)
      ensures forall n :: n in Nodes(L) || n in Nodes(R) ==> n in Nodes(T) || fresh(n)
      decreases T, 0
    {
      assert allocated(Nodes(T.left)) && allocated(Nodes(T.right));
      ghost var M, n;
      var m;
      m, r, M, R := SplitOP(t.right, k, T.right);
      assert Held(T.left, t.left, t);
      assert Nodes(R) !! Nodes(T.left) && Nodes(M) !! Nodes(T.left) && allocated(Nodes(R)) && allocated(Nodes(M));
      Isolate(t.left, T.left, t);
      l, L, n := JoinOP(t.left, m, t.key, T.left, M);
      SplitAbove(T, k, L, M, R);
    }

    /** `unionOP`: a valid tree of the keys of both; `t2` is taken apart, `t1` split at its root. */
    method UnionOP(t1: RBNode?, t2: RBNode?, ghost T1: Tree, ghost T2: Tree) returns (res: RBNode?, ghost R: Tree)
      requires Held(T1, t1, null) && Held(T2, t2, null) && Nodes(T1) !! Nodes(T2)
      requires Good(T1) && Good(T2) && Sorted(Keys(T1)) && Sorted(Keys(T2))
      modifies this`tree, Nodes(T1), Nodes(T2)
      ensures Held(R, res, null) && UnionResult(R, T1, T2)
      ensures forall n :: n in Nodes(R) ==> n in Nodes(T1) || n in Nodes(T2) || fresh(n)
      decreases |Keys(T1)| + |Keys(T2)|, 1
    {
      if t1 == null {
        return t2, T2;
      }
      if t2 == null {
        return t1, T1;
      }
      assert allocated(Nodes(T1));
      GoodKids(T2, Left);
      GoodKids(T2, Right);
      SortedParts(Keys(T2.left), T2.key, Keys(T2.right));
      var l, r := TakeApart(t2, T2);
      res, R := UnionParts(t1, l, r, t2.key, T1, T2.left, T2.right);
      UnionSplits(R, T1, T2);
    }

    method UnionParts(t1: RBNode, l: RBNode?, r: RBNode?, k: int, ghost T1: Tree, ghost TL: Tree, ghost TR: Tree)
      returns (res: RBNode?, ghost R: Tree)
      requires Held(T1, t1, null) && Held(TL, l, null) && Held(TR, r, null)
      requires Nodes(T1) !! Nodes(TL) && Nodes(T1) !! Nodes(TR) && Nodes(TL) !! Nodes(TR)
      requires Good(T1) && Good(TL) && Good(TR) && Sorted(Keys(T1)) && Sorted(Keys(TL)) && Sorted(Keys(TR))
      requires AllBelow(Keys(TL), k) && AllAbove(k, Keys(TR))
      modifies this`tree, Nodes(T1), Nodes(TL), Nodes(TR)
      ensures Held(R, res, null) && UnionOfParts(R, T1, TL, k, TR)
      ensures forall n :: n in Nodes(R) ==> n in Nodes(T1) || n in Nodes(TL) || n in Nodes(TR) || fresh(n)
      decreases |Keys(T1)| + |Keys(TL)| + |Keys(TR)| + 1, 0
    {
      assert allocated(Nodes(T1)) && allocated(Nodes(TL)) && allocated(Nodes(TR));
      var a, b, u, v;
      ghost var A, B, U, V, n;
      a, b, A, B := SplitOP(t1, k, T1);
      SplitSorted(T1, k, A, B);
      u, v, U, V := UnionHalves(l, a, b, r, TL, A, B, TR);
      res, R, n := JoinOP(u, v, k, U, V);
      UnionJoins(R, U, k, V, T1, TL, TR, A, B);
    }

    method UnionHalves(l: RBNode?, a: RBNode?, b: RBNode?, r: RBNode?, ghost TL: Tree, ghost A: Tree, ghost B: Tree,
                       ghost TR: Tree)
      returns (u: RBNode?, v: RBNode?, ghost U: Tree, ghost V: Tree)
      requires Held(TL, l, null) && Held(A, a, null) && Held(B, b, null) && Held(TR, r, null)
      requires Nodes(TL) !! Nodes(A) && Nodes(B) !! Nodes(TR)
      requires Nodes(TL) !! Nodes(B) && Nodes(TL) !! Nodes(TR) && Nodes(A) !! Nodes(B) && Nodes(A) !! Nodes(TR)
      requires Good(TL) && Good(A) && Good(B) && Good(TR)
      requires Sorted(Keys(TL)) && Sorted(Keys(A)) && Sorted(Keys(B)) && Sorted(Keys(TR))
      modifies this`tree, Nodes(TL), Nodes(A), Nodes(B), Nodes(TR)
      ensures Held(U, u, null) && Held(V, v, null) && Nodes(U) !! Nodes(V)
      ensures UnionResult(U, TL, A) && UnionResult(V, B, TR)
      ensures forall n :: n in Nodes(U) ==> n in Nodes(TL) || n in Nodes(A) || fresh(n)
      ensures forall n :: n in Nodes(V) ==> n in Nodes(B) || n in Nodes(TR) || fresh(n)
      decreases |Keys(TL)| + |Keys(A)| + |Keys(B)| + |Keys(TR)|, 2
    {
      assert allocated(Nodes(B)) && allocated(Nodes(TR));
      u, U := UnionOP(l, a, TL, A);
      assert Held(B, b, null) && Held(TR, r, null);
      assert Nodes(U) !! Nodes(B) && Nodes(U) !! Nodes(TR) && allocated(Nodes(U));
      v, V := UnionOP(b, r, B, TR);
    }

    // -------------------------------------------------------------- insertion

    /** A rotation at the hole. */
    method RotateInCut(sub: RBNode, dir: Direction, ghost c: Ctx, ghost t: Tree) returns (newRoot: RBNode)
      requires Cut(c, t, sub, tree) && t.Node? && Kid(t, Opposite(dir)).Node?
      modifies this`tree, Nodes(t), Par(Owner(c))`left, Par(Owner(c))`right
      ensures Cut(c, RotatedUp(t, Opposite(dir)), newRoot, tree)
      ensures newRoot == Kid(t, Opposite(dir)).nd
      ensures Nodes(RotatedUp(t, Opposite(dir))) == Nodes(t)
    {
      HoleLink(c, t, sub, tree);
      NodesRotatedUp(t, Opposite(dir));
      assert allocated(NodesCtx(c));
      if c.Frame? {
        assert allocated(Nodes(c.other)) && allocated(NodesCtx(c.up));
      }
      newRoot := SubtreeRotation(sub, dir, t, Owner(c));
    }

    /** The inner grandchild case: the parent is rotated so that the red pair is on the outside. */
    method Straighten(x: RBNode, n: RBNode, dir: Direction, ghost c: Ctx, ghost t: Tree) returns (newX: RBNode)
      requires Cut(c, t, n, tree) && t.Node? && c.Frame? && c.up.Frame? && x == c.nd && dir == c.up.d
      modifies this`tree, NodesCtx(c), Nodes(t)
      ensures Cut(c.up, Straightened(c, t), newX, tree)
      ensures Nodes(Straightened(c, t)) == Nodes(Fill(c, t))
    {
      HoleLink(c, t, n, tree);
      CutUp(c, t, n, tree);
      if x.Child(Opposite(dir)) == n {
        newX := RotateInCut(x, dir, c.up, Fill(c, t));
      } else {
        newX := x;
      }
    }

    /** The rotations of cases 5 and 6: at the parent if needed, then at the grandparent. */
    method RotateTwice(g: RBNode, x: RBNode, n: RBNode, dir: Direction, ghost c: Ctx, ghost t: Tree)
      returns (root: RBNode)
      requires Cut(c, t, n, tree) && t.Node? && c.Frame? && c.up.Frame? && x == c.nd && g == c.up.nd && dir == c.up.d
      modifies this`tree, NodesCtx(c), Nodes(t)
      ensures Cut(c.up.up, RotatedUp(Fill(c.up, Straightened(c, t)), dir), root, tree)
      ensures NodesCtx(c.up.up) + Nodes(RotatedUp(Fill(c.up, Straightened(c, t)), dir)) == NodesCtx(c) + Nodes(t)
    {
      ghost var s, top := Straightened(c, t), c.up.up;
      CutUp(c, t, n, tree);
      assert allocated(NodesCtx(top));
      var newX := Straighten(x, n, dir, c, t);
      CutUp(c.up, s, newX, tree);
      root := RotateInCut(g, Opposite(dir), top, Fill(c.up, s));
    }

    /** Cases 5 and 6 with the exchange of colours. */
    method SettleByRotation(g: RBNode, x: RBNode, n: RBNode, dir: Direction, ghost c: Ctx, ghost t: Tree)
      returns (root: RBNode)
      requires Cut(c, t, n, tree) && t.Node? && c.Frame? && c.up.Frame? && x == c.nd && g == c.up.nd && dir == c.up.d
      modifies this`tree, NodesCtx(c), Nodes(t)
      ensures Cut(c.up.up, Settled(c, t), root, tree)
      ensures NodesCtx(c.up.up) + Nodes(Settled(c, t)) == NodesCtx(c) + Nodes(t)
    {
      root := RotateTwice(g, x, n, dir, c, t);
      ExchangeColors(root, dir, c.up.up, RotatedUp(Fill(c.up, Straightened(c, t)), dir), tree);
    }

    /** `insertion`. The new leaf takes the place of whatever the search for `k` ended at, so for a
        key that is there the keys below its node are lost. The result is valid and has every key if
        and only if `k` was absent or its node, without children, is red or the root. */
    method Insertion(k: int, ghost T: Tree) returns (ghost R: Tree)
      requires Held(T, tree, null) && Good(T) && Sorted(Keys(T))
      modifies this`tree, Nodes(T)
      ensures Held(R, tree, null) && Sorted(Keys(R))
      ensures forall x :: x in Keys(R) <==> x == k || (x in Keys(T) && x !in Keys(Find(T, k)))
      ensures Good(R) && (forall x :: x in Keys(R) <==> x in Keys(T) || x == k) <==> Harmless(T, k)
      ensures forall n :: n in Nodes(R) ==> n in Nodes(T) || fresh(n)
    {
      assert allocated(Nodes(T));
      ghost var c, t;
      var above, found;
      found, above, c, t := Search(tree, k, null, Top, T, tree);
      CutClose(c, t, found, tree);
      ghost var n;
      R, n := InsertAt(k, above, c, t, found);
      InsertedAt(c, t, n, k, T);
    }

    method InsertAt(k: int, above: RBNode?, ghost c: Ctx, ghost t: Tree, ghost h: RBNode?)
      returns (ghost R: Tree, ghost n: RBNode)
      requires Cut(c, t, h, tree) && above == Owner(c)
      requires AllBelow(Before(c), k) && AllAbove(k, After(c))
      modifies this`tree, NodesCtx(c)
      ensures Held(R, tree, null) && R == Rebalanced(c, Node(n, Nil, k, Red, Nil))
      ensures forall n :: n in Nodes(R) ==> n in NodesCtx(c) || fresh(n)
    {
      assert allocated(NodesCtx(c));
      var leaf := new RBNode(k, Red);
      n := leaf;
      Attach(leaf, k, above, c, t, h);
      R := Rebalance(above, leaf, c, Node(n, Nil, k, Red, Nil));
    }

    /** The new red leaf takes the place of what the search ended at. */
    method Attach(n: RBNode, k: int, above: RBNode?, ghost c: Ctx, ghost t: Tree, ghost h: RBNode?)
      requires DistinctCtx(c) && RepCtx(c, h, tree)
      requires above == Owner(c) && AllBelow(Before(c), k) && AllAbove(k, After(c))
      requires n !in NodesCtx(c) && n.left == null && n.right == null && n.key == k && n.color == Red
      modifies this`tree, Par(above)`left, Par(above)`right, n`parent
      ensures Cut(c, Node(n, Nil, k, Red, Nil), n, tree)
    {
      assert allocated(NodesCtx(c));
      HoleSide(c, k);
      n.parent := above;
      if above == null {
        tree := n;
      } else {
        assert allocated(Nodes(c.other)) && allocated(NodesCtx(c.up));
        assert c.nd !in Nodes(c.other) && c.nd !in NodesCtx(c.up) && c.nd != n;
        if above.key > k {
          above.left := n;
        } else {
          above.right := n;
        }
        assert RepCtx(c, n, tree);
      }
      assert n.left == null && n.right == null && n.parent == above && Rep(Nil, n.left, n) && Rep(Nil, n.right, n);
      LeafHeld(n, k, above);
    }

    /** The loop of `insertion`: `x` is the parent of the red node `n`. */
    method Rebalance(above: RBNode?, start: RBNode, ghost c0: Ctx, ghost t0: Tree) returns (ghost R: Tree)
      requires Cut(c0, t0, start, tree) && above == Owner(c0) && t0.Node?
      modifies this`tree, NodesCtx(c0), Nodes(t0)
      ensures Held(R, tree, null) && R == Rebalanced(c0, t0)
      ensures Nodes(R) == NodesCtx(c0) + Nodes(t0)
    {
      var x, n := above, start;
      ghost var c, t := c0, t0;
      assert allocated(NodesCtx(c0)) && allocated(Nodes(t0));
      while x != null
        invariant Cut(c, t, n, tree) && x == Owner(c) && t.Node?
        invariant Rebalanced(c, t) == Rebalanced(c0, t0)
        invariant NodesCtx(c) + Nodes(t) == NodesCtx(c0) + Nodes(t0)
        decreases c
      {
        if x.color == Black {
          R := Finish(n, c, t);
          return;
        }
        var g := x.parent;
        if g == null {
          R := BlackenTop(x, n, c, t);
          return;
        }
        var dir := if g.right == x then Right else Left;
        GrandLinks(g, x, n, c, t, tree);
        var u := g.Child(Opposite(dir));
        if u == null || u.color == Black {
          R := FinishByRotation(g, x, n, dir, c, t);
          return;
        }
        ShiftColors(g, x, u, c, t, n, tree);
        n, t := g, ColorShift(c, t);
        x, c := g.parent, c.up.up;
        HoleLink(c, t, n, tree);
      }
      R := Finish(n, c, t);
    }

    /** Nothing left to do. */
    ghost method Finish(n: RBNode, c: Ctx, t: Tree) returns (R: Tree)
      requires Cut(c, t, n, tree)
      ensures R == Plug(c, t) && Held(R, tree, null) && Nodes(R) == NodesCtx(c) + Nodes(t)
    {
      R := Plug(c, t);
      CutClose(c, t, n, tree);
    }

    method BlackenTop(x: RBNode, n: RBNode, ghost c: Ctx, ghost t: Tree) returns (ghost R: Tree)
      requires Cut(c, t, n, tree) && c.Frame? && c.up.Top? && x == c.nd
      modifies NodesCtx(c)
      ensures Held(R, tree, null) && R == Plug(c.up, Blackened(c, t)) && Nodes(R) == NodesCtx(c) + Nodes(t)
    {
      CutUp(c, t, n, tree);
      PaintInCut(x, Black, c.up, Fill(c, t), tree);
      R := Finish(x, c.up, Blackened(c, t));
    }

    method FinishByRotation(g: RBNode, x: RBNode, n: RBNode, dir: Direction, ghost c: Ctx, ghost t: Tree)
      returns (ghost R: Tree)
      requires Cut(c, t, n, tree) && t.Node? && c.Frame? && c.up.Frame? && x == c.nd && g == c.up.nd && dir == c.up.d
      modifies this`tree, NodesCtx(c), Nodes(t)
      ensures Held(R, tree, null) && R == Plug(c.up.up, Settled(c, t)) && Nodes(R) == NodesCtx(c) + Nodes(t)
    {
      var h := SettleByRotation(g, x, n, dir, c, t);
      R := Finish(h, c.up.up, Settled(c, t));
    }
  }

  lemma {:induction false} LeafHeld(n: RBNode, k: int, above: RBNode?)
    requires n.left == null && n.right == null && n.parent == above && n.key == k && n.color == Red
    ensures var t := Node(n, Nil, k, Red, Nil);
      Held(t, n, above) && Nodes(t) == {n} && Good(t) && Bh(t) == 1 && Keys(t) == [k]
  {
    assert Balanced(Nil) && NoRedRed(Nil) && Bh(Nil) == 1 && Keys(Nil) == [];
  }

  /** Where the search for `k` ends: its node's subtree, or nothing. */
  function Find(t: Tree, k: int): Tree {
    if t.Nil? || t.key == k then t else Find(Kid(t, if t.key >= k then Left else Right), k)
  }

  /** An insertion of `k` loses nothing. */
  predicate Harmless(T: Tree, k: int) {
    var t := Find(T, k);
    t.Node? ==> t.left.Nil? && t.right.Nil? && (t.color == Red || T.key == k)
  }

  lemma {:induction false} RootKeyIn(t: Tree)
    requires t.Node?
    ensures t.key in Keys(t)
  {
    assert Keys(t)[|Keys(t.left)|] == t.key;
  }

  lemma {:induction false} HoleSide(c: Ctx, k: int)
    requires AllBelow(Before(c), k) && AllAbove(k, After(c))
    ensures c.Frame? ==> (c.key > k <==> c.d == Left)
  {
    if c.Frame? && c.d == Left {
      assert After(c)[0] == c.key;
    } else if c.Frame? {
      var b := Before(c);
      assert b[|b| - 1] == c.key;
    }
  }

  /** The new leaf in the place of `t` = `Find(T, k)`: what is lost, and when the result is valid. */
  lemma {:induction false} InsertedAt(c: Ctx, t: Tree, n: RBNode, k: int, T: Tree)
    requires Good(T) && Sorted(Keys(T)) && T == Plug(c, t) && t == Find(T, k) && (t.Node? ==> t.key == k)
    requires AllBelow(Before(c), k) && AllAbove(k, After(c)) && (c.Top? <==> T.Nil? || T.key == k)
    ensures var R := Rebalanced(c, Node(n, Nil, k, Red, Nil));
      && Sorted(Keys(R)) && (forall x :: x in Keys(R) <==> x == k || (x in Keys(T) && x !in Keys(t)))
      && (Good(R) && (forall x :: x in Keys(R) <==> x in Keys(T) || x == k) <==> Harmless(T, k))
  {
    var leaf := Node(n, Nil, k, Red, Nil);
    var R := Rebalanced(c, leaf);
    assert Keys(leaf) == [k];
    KeysRebalanced(c, leaf);
    KeysPlug(c, t);
    ReplacedKeys(Before(c), Keys(t), After(c), k);
    InsertedGood(c, t, leaf);
    if t.Node? { RootKeyIn(t); }
    if t.Node? && !(t.left.Nil? && t.right.Nil?) {
      var x := KidKey(t);
      assert x in Keys(T) && x !in Keys(R);
    }
  }

  lemma {:induction false} KidKey(t: Tree) returns (x: int)
    requires t.Node? && !(t.left.Nil? && t.right.Nil?) && Sorted(Keys(t))
    ensures x in Keys(t) && x != t.key
  {
    SortedParts(Keys(t.left), t.key, Keys(t.right));
    if t.left.Node? { RootKeyIn(t.left); } else { RootKeyIn(t.right); }
    x := if t.left.Node? then t.left.key else t.right.key;
  }

  lemma {:induction false} InsertedGood(c: Ctx, t: Tree, leaf: Tree)
    requires Good(Plug(c, t)) && Leaf(leaf)
    ensures Good(Rebalanced(c, leaf)) <==> c.Top? || t.Nil? || (t.color == Red && t.left.Nil? && t.right.Nil?)
  {
    PlugGood(c, t);
    BhPositive(t);
    assert Bh(leaf) == 1 && Good(leaf);
    if c.Top? {
    } else if Bh(t) == 1 {
      RebalancedGood(c, leaf);
      if t.Node? {
        LowRed(t);
      }
    } else {
      LeafMisplaced(c, leaf, Bh(t));
    }
  }

  /** A node of black height 1 is a red leaf. */
  lemma {:induction false} LowRed(t: Tree)
    requires Good(t) && t.Node? && Bh(t) == 1
    ensures t.color == Red && t.left.Nil? && t.right.Nil?
  {
    BhPositive(t);
    BhPositive(t.left);
    BhPositive(t.right);
  }

  lemma {:induction false} ReplacedKeys(a: seq<int>, m: seq<int>, b: seq<int>, k: int)
    requires Sorted(a + m + b) && AllBelow(a, k) && AllAbove(k, b) && (m != [] ==> k in m)
    ensures Sorted(a + [k] + b) && Sorted(m)
    ensures forall x :: x in a + [k] + b <==> x == k || (x in a + m + b && x !in m)
  {
    SortedSides(a + m, b);
    SortedSides(a, m);
    SortedWhole(a, k, b);
    forall x ensures x in a + [k] + b <==> x == k || (x in a + m + b && x !in m) {
      InCat(a, k, b, x);
      if x in m { OnlyInMiddle(a, m, b, x); }
    }
  }

  /** What the climb sees: grandparent, side and uncle. */
  lemma {:induction false} GrandLinks(g: RBNode, x: RBNode, n: RBNode, c: Ctx, t: Tree, root: RBNode?)
    requires Cut(c, t, n, root) && c.Frame? && x == c.nd && g == x.parent
    ensures c.up.Frame? && g == c.up.nd && (g.right == x <==> c.up.d == Right)
    ensures var u := g.Child(Opposite(c.up.d));
      (u == null <==> c.up.other.Nil?) && (u != null ==> u == c.up.other.nd && u.color == c.up.other.color)
  {
    CutUp(c, t, n, root);
    HoleLink(c.up, Fill(c, t), x, root);
  }

  /** `search`: the node with the key, or null, and its parent or the node it would hang below. */
  method Search(tree: RBNode?, k: int, parent: RBNode?, ghost c: Ctx, ghost t: Tree, ghost root: RBNode?)
    returns (node: RBNode?, above: RBNode?, ghost fc: Ctx, ghost ft: Tree)
    requires Cut(c, t, tree, root) && parent == Owner(c)
    requires Sorted(Keys(t)) && AllBelow(Before(c), k) && AllAbove(k, After(c))
    ensures Plug(fc, ft) == Plug(c, t) && Cut(fc, ft, node, root) && above == Owner(fc)
    ensures ft == Find(t, k) && (ft.Node? ==> ft.key == k) && (node == null <==> ft.Nil?)
    ensures if t.Nil? || t.key == k then fc == c else fc.Frame?
    ensures AllBelow(Before(fc), k) && AllAbove(k, After(fc)) && Sorted(Keys(ft))
    decreases t
  {
    if tree == null {
      return null, parent, c, t;
    }
    if tree.key == k {
      return tree, parent, c, t;
    }
    var d := if tree.key >= k then Left else Right;
    CutDown(c, t, tree, root, d);
    SortedParts(Keys(t.left), t.key, Keys(t.right));
    EnterSides(c, t, d, k);
    node, above, fc, ft := Search(tree.Child(d), k, tree, Enter(c, t, d), Kid(t, d), root);
  }

  lemma {:induction false} OnlyInMiddle(a: seq<int>, m: seq<int>, b: seq<int>, x: int)
    requires Sorted(a + m + b) && x in m
    ensures x in a + m + b && x !in a && x !in b
  {
    var s := a + m + b;
    var j :| 0 <= j < |m| && m[j] == x;
    assert s[|a| + j] == x;
    forall i | 0 <= i < |a| ensures a[i] != x {
      assert s[i] == a[i] && s[i] < s[|a| + j];
    }
    forall i | 0 <= i < |b| ensures b[i] != x {
      assert s[|a| + |m| + i] == b[i] && s[|a| + j] < s[|a| + |m| + i];
    }
  }

  lemma {:induction false} EnterSides(c: Ctx, t: Tree, d: Direction, k: int)
    requires t.Node? && AllBelow(Before(c), k) && AllAbove(k, After(c))
    requires AllBelow(Keys(t.left), t.key) && AllAbove(t.key, Keys(t.right))
    requires if d == Left then k < t.key else t.key < k
    ensures AllBelow(Before(Enter(c, t, d)), k) && AllAbove(k, After(Enter(c, t, d)))
  {
  }

  function Exchanged(r: Tree, d: Direction): Tree
    requires r.Node? && Kid(r, Opposite(d)).Node?
  {
    Mk(r.nd, d, Kid(r, Opposite(d)).(color := Red), r.key, Black, Kid(r, d))
  }

  /** The new root turns black, its inner-side child, the old grandparent, red. */
  method ExchangeColors(root: RBNode, d: Direction, ghost c: Ctx, ghost r: Tree, ghost whole: RBNode?)
    requires Cut(c, r, root, whole) && r.Node? && Kid(r, Opposite(d)).Node?
    modifies Nodes(r)
    ensures Cut(c, Exchanged(r, d), root, whole) && Nodes(Exchanged(r, d)) == Nodes(r)
  {
    HoleLink(c, r, root, whole);
    PaintInCut(root, Black, c, r, whole);
    ghost var b := r.(color := Black);
    CutDown(c, b, root, whole, Opposite(d));
    ghost var e := Enter(c, b, Opposite(d));
    HoleLinkAt(e, Kid(r, Opposite(d)), root, whole);
    PaintInCut(root.Child(Opposite(d)), Red, e, Kid(r, Opposite(d)), whole);
    CutUp(e, Kid(r, Opposite(d)).(color := Red), root.Child(Opposite(d)), whole);
  }

  lemma {:induction false} HoleLink(c: Ctx, t: Tree, h: RBNode, root: RBNode?)
    requires Cut(c, t, h, root)
    ensures h in Nodes(t) && h == t.nd && h.parent == Owner(c)
    ensures c.Frame? ==> c.nd.Child(c.d) == h && c.nd.Child(Opposite(c.d)) != h && c.nd in NodesCtx(c)
    ensures c.Frame? ==> c.nd !in Nodes(t) && c.nd !in Nodes(c.other) && c.nd !in NodesCtx(c.up)
    ensures c.Frame? ==> Nodes(c.other) !! Nodes(t) && NodesCtx(c.up) !! Nodes(t)
    ensures c.Top? ==> h == root
  {
  }

  /** The root of the subtree at the hole changes its colour. */
  method PaintInCut(x: RBNode, color: Color, ghost c: Ctx, ghost t: Tree, ghost root: RBNode?)
    requires Cut(c, t, x, root)
    modifies x`color
    ensures t.Node? && Cut(c, t.(color := color), x, root) && Nodes(t.(color := color)) == Nodes(t)
  {
    HoleLink(c, t, x, root);
    assert allocated(NodesCtx(c));
    PaintRoot(x, color, t, Owner(c));
  }

  /** Case 2: grandparent red, parent and uncle black. */
  method ShiftColors(g: RBNode, x: RBNode, u: RBNode, ghost c: Ctx, ghost t: Tree, ghost n: RBNode, ghost root: RBNode?)
    requires Cut(c, t, n, root) && c.Frame? && c.up.Frame? && IsRed(c.up.other)
    requires x == c.nd && g == c.up.nd && u == c.up.other.nd
    modifies g`color, x`color, u`color
    ensures Cut(c.up.up, ColorShift(c, t), g, root)
    ensures NodesCtx(c.up.up) + Nodes(ColorShift(c, t)) == NodesCtx(c) + Nodes(t)
  {
    ghost var top := c.up.up;
    CutUp(c, t, n, root);
    CutUp(c.up, Fill(c, t), x, root);
    ghost var s := Fill(c.up, Fill(c, t));
    PaintInCut(g, Red, top, s, root);
    s := s.(color := Red);
    CutDown(top, s, g, root, c.up.d);
    ghost var e := Enter(top, s, c.up.d);
    PaintInCut(x, Black, e, Fill(c, t), root);
    CutUp(e, Blackened(c, t), x, root);
    s := Fill(e, Blackened(c, t));
    CutDown(top, s, g, root, Opposite(c.up.d));
    e := Enter(top, s, Opposite(c.up.d));
    HoleLinkAt(e, c.up.other, g, root);
    PaintInCut(u, Black, e, c.up.other, root);
    CutUp(e, c.up.other.(color := Black), u, root);
  }

  lemma {:induction false} HoleLinkAt(c: Ctx, t: Tree, g: RBNode, root: RBNode?)
    requires c.Frame? && g == c.nd && t.Node? && Cut(c, t, g.Child(c.d), root)
    ensures g.Child(c.d) == t.nd
  {
  }

  ghost predicate UnionResult(R: Tree, T1: Tree, T2: Tree) {
    Good(R) && Sorted(Keys(R)) && forall x :: x in Keys(R) <==> x in Keys(T1) || x in Keys(T2)
  }

  /** The union with the second tree already taken apart at its root. */
  ghost predicate UnionOfParts(R: Tree, T1: Tree, TL: Tree, k: int, TR: Tree) {
    && Good(R) && Sorted(Keys(R))
    && forall x :: x in Keys(R) <==> x in Keys(T1) || x in Keys(TL) || x == k || x in Keys(TR)
  }

  lemma {:induction false} InCat(a: seq<int>, k: int, b: seq<int>, x: int)
    ensures x in a + [k] + b <==> x in a || x == k || x in b
  {
  }

  lemma {:induction false} UnionSplits(R: Tree, T1: Tree, T2: Tree)
    requires T2.Node? && UnionOfParts(R, T1, T2.left, T2.key, T2.right)
    ensures UnionResult(R, T1, T2)
  {
    forall x ensures x in Keys(R) <==> x in Keys(T1) || x in Keys(T2) {
      InCat(Keys(T2.left), T2.key, Keys(T2.right), x);
    }
  }

  lemma {:induction false} SortedSides(a: seq<int>, b: seq<int>)
    requires Sorted(a + b)
    ensures Sorted(a) && Sorted(b)
  {
    var s := a + b;
    assert forall i :: 0 <= i < |a| ==> s[i] == a[i];
    forall i, j | 0 <= i < j < |b| ensures b[i] < b[j] {
      assert s[|a| + i] < s[|a| + j];
    }
  }

  lemma {:induction false} SplitSorted(T: Tree, k: int, L: Tree, R: Tree)
    requires SplitResult(T, k, L, R) && Sorted(Keys(T))
    ensures Sorted(Keys(L)) && Sorted(Keys(R)) && |Keys(L)| + |Keys(R)| <= |Keys(T)|
  {
    if Keys(T) == Keys(L) + [k] + Keys(R) {
      SortedParts(Keys(L), k, Keys(R));
    } else {
      SortedSides(Keys(L), Keys(R));
    }
  }

  lemma {:induction false} SplitMember(T: Tree, k: int, L: Tree, R: Tree, x: int)
    requires SplitResult(T, k, L, R)
    ensures x == k || (x in Keys(T) <==> x in Keys(L) || x in Keys(R))
  {
    InCat(Keys(L), k, Keys(R), x);
  }

  lemma {:induction false} BelowByMember(s: seq<int>, k: int)
    requires forall x :: x in s ==> x < k
    ensures AllBelow(s, k)
  {
    forall i | 0 <= i < |s| ensures s[i] < k {
      assert s[i] in s;
    }
  }

  lemma {:induction false} AboveByMember(s: seq<int>, k: int)
    requires forall x :: x in s ==> k < x
    ensures AllAbove(k, s)
  {
    forall i | 0 <= i < |s| ensures k < s[i] {
      assert s[i] in s;
    }
  }

  lemma {:induction false} UnionJoins(R: Tree, U: Tree, k: int, V: Tree, T1: Tree, TL: Tree, TR: Tree, A: Tree, B: Tree)
    requires JoinResult(R, U, k, V) && UnionResult(U, TL, A) && UnionResult(V, B, TR)
    requires SplitResult(T1, k, A, B) && AllBelow(Keys(TL), k) && AllAbove(k, Keys(TR))
    ensures UnionOfParts(R, T1, TL, k, TR)
  {
    BelowByMember(Keys(U), k);
    AboveByMember(Keys(V), k);
    SortedWhole(Keys(U), k, Keys(V));
    forall x ensures x in Keys(R) <==> x in Keys(T1) || x in Keys(TL) || x == k || x in Keys(TR) {
      InCat(Keys(U), k, Keys(V), x);
      SplitMember(T1, k, A, B, x);
    }
  }

  /** A detached subtree forgets its parent. */
  method Isolate(t: RBNode?, ghost T: Tree, ghost parent: RBNode?)
    requires Held(T, t, parent)
    modifies Nodes(T)
    ensures Held(T, t, null)
  {
    if t != null {
      RootIn(T, t);
      Adopt(t, null, T, parent);
    }
  }

  /** The children of a root, detached. */
  method TakeApart(t: RBNode, ghost T: Tree) returns (l: RBNode?, r: RBNode?)
    requires Held(T, t, null) && T.Node?
    modifies Nodes(T)
    ensures Held(T.left, l, null) && Held(T.right, r, null)
    ensures Nodes(T.left) !! Nodes(T.right) && Nodes(T.left) + Nodes(T.right) <= Nodes(T) && t.key == T.key
  {
    HeldKid(T, t, null, Left);
    HeldKid(T, t, null, Right);
    assert allocated(Nodes(T.left)) && allocated(Nodes(T.right));
    l, r := t.left, t.right;
    Isolate(l, T.left, t);
    Isolate(r, T.right, t);
    t.left, t.right := null, null;
  }

  /** The halves hold exactly the keys below and above `k`. */
  ghost predicate SplitResult(T: Tree, k: int, L: Tree, R: Tree) {
    && Good(L) && Good(R)
    && AllBelow(Keys(L), k) && AllAbove(k, Keys(R))
    && (Keys(T) == Keys(L) + Keys(R) || Keys(T) == Keys(L) + [k] + Keys(R))
  }

  lemma {:induction false} SplitHere(T: Tree, k: int)
    requires T.Node? && T.key == k && Good(T) && Sorted(Keys(T))
    ensures SplitResult(T, k, T.left, T.right)
  {
    SortedParts(Keys(T.left), T.key, Keys(T.right));
  }

  lemma {:induction false} SplitBelow(T: Tree, k: int, L: Tree, M: Tree, R: Tree)
    requires T.Node? && k < T.key && AllAbove(T.key, Keys(T.right))
    requires SplitResult(T.left, k, L, M) && JoinResult(R, M, T.key, T.right)
    ensures SplitResult(T, k, L, R)
  {
    var l, m, b := Keys(L), Keys(M), Keys(T.right);
    Regrouped(l, m, [T.key], b);
    Regrouped(l + [k], m, [T.key], b);
    AboveJoined(k, m, T.key, b);
  }

  lemma {:induction false} Regrouped(a: seq<int>, b: seq<int>, c: seq<int>, d: seq<int>)
    ensures (a + b) + c + d == a + (b + c + d)
  {
  }

  lemma {:induction false} AboveJoined(k: int, m: seq<int>, key: int, b: seq<int>)
    requires AllAbove(k, m) && k < key && AllAbove(key, b)
    ensures AllAbove(k, m + [key] + b)
  {
  }

  lemma {:induction false} SplitAbove(T: Tree, k: int, L: Tree, M: Tree, R: Tree)
    requires T.Node? && T.key < k && AllBelow(Keys(T.left), T.key)
    requires SplitResult(T.right, k, M, R) && JoinResult(L, T.left, T.key, M)
    ensures SplitResult(T, k, L, R)
  {
    var a, m, r := Keys(T.left), Keys(M), Keys(R);
    Appended(a + [T.key], m, r);
    Appended(a + [T.key], m + [k], r);
    Appended(a + [T.key], m, [k]);
    BelowJoined(k, a, T.key, m);
  }

  lemma {:induction false} Appended(a: seq<int>, b: seq<int>, c: seq<int>)
    ensures a + (b + c) == (a + b) + c
  {
  }

  lemma {:induction false} BelowJoined(k: int, a: seq<int>, key: int, m: seq<int>)
    requires AllBelow(a, key) && key < k && AllBelow(m, k)
    ensures AllBelow(a + [key] + m, k)
  {
  }

  lemma {:induction false} SiblingDiffers(t: Tree, p: RBNode, parent: RBNode?, d: Direction)
    requires Held(t, p, parent) && t.Node?
    ensures p.Child(d) != null ==> p.Child(Opposite(d)) != p.Child(d)
  {
    HeldKid(t, p, parent, d);
    HeldKid(t, p, parent, Opposite(d));
    if Kid(t, d).Node? && Kid(t, Opposite(d)).Node? {
      HeldKid(Kid(t, d), p.Child(d), p, d);
      HeldKid(Kid(t, Opposite(d)), p.Child(Opposite(d)), p, d);
    }
  }

  /** The base of the join: a new red node over both trees. */
  method NewJoint(d: Direction, t1: RBNode?, t2: RBNode?, k: int, ghost T1: Tree, ghost T2: Tree, ghost parent: RBNode?)
    returns (res: RBNode)
    requires Held(T1, t1, parent) && Loose(T2, t2) && Nodes(T1) !! Nodes(T2)
    modifies Nodes(T1), Nodes(T2)
    ensures fresh(res) && Held(Mk(res, d, T1, k, Red, T2), res, if T1.Nil? then null else parent)
  {
    assert allocated(Nodes(T1)) && allocated(Nodes(T2));
    res := new RBNode(k, Red);
    if t1 != null {
      HeldKid(T1, t1, parent, d);
      res.parent := t1.parent;
    }
    NodesMk(res, d, T1, k, Red, T2);
    Link(res, d, t1, t2, T1, T2);
  }

  /** Two subtrees become the children of `n`. */
  method Link(n: RBNode, d: Direction, t1: RBNode?, t2: RBNode?, ghost T1: Tree, ghost T2: Tree)
    requires Loose(T1, t1) && Loose(T2, t2) && Nodes(T1) !! Nodes(T2) && n !in Nodes(T1) && n !in Nodes(T2)
    modifies n`left, n`right, Nodes(T1), Nodes(T2)
    ensures Rep(Mk(n, d, T1, n.key, n.color, T2), n, n.parent)
  {
    assert allocated(Nodes(T1)) && allocated(Nodes(T2));
    n.SetChild(Opposite(d), t1);
    n.SetChild(d, t2);
    if t1 != null {
      RootIn(T1, t1);
      Adopt(t1, n, T1, T1.nd.parent);
    }
    if t2 != null {
      RootIn(T2, t2);
      Adopt(t2, n, T2, T2.nd.parent);
    }
    assert Rep(T1, n.Child(Opposite(d)), n) && Rep(T2, n.Child(d), n);
  }

  lemma {:induction false} RootIn(t: Tree, p: RBNode)
    requires Loose(t, p)
    ensures t.Node? && t.nd == p && p in Nodes(t)
  {
  }

  /** The joined subtree goes back below `t1`. */
  method Reattach(t1: RBNode, below: RBNode, d: Direction, ghost o: Tree, ghost b: Tree, ghost parent: RBNode?)
    requires Held(o, t1.Child(Opposite(d)), t1) && Loose(b, below) && Nodes(o) !! Nodes(b)
    requires t1 !in Nodes(o) && t1 !in Nodes(b) && t1.parent == parent
    modifies t1`left, t1`right, below`parent
    ensures Held(Mk(t1, d, o, t1.key, t1.color, b), t1, parent)
  {
    assert allocated(Nodes(o)) && allocated(Nodes(b));
    RootIn(b, below);
    t1.SetChild(d, below);
    Adopt(below, t1, b, b.nd.parent);
    NodesMk(t1, d, o, t1.key, t1.color, b);
    assert Rep(o, t1.Child(Opposite(d)), t1) && Rep(b, t1.Child(d), t1);
  }

  lemma {:induction false} RepMk(n: RBNode, d: Direction, a: Tree, b: Tree)
    requires Rep(a, n.Child(Opposite(d)), n) && Rep(b, n.Child(d), n)
    ensures Rep(Mk(n, d, a, n.key, n.color, b), n, n.parent)
  {
  }

  /** A root changes its colour. */
  method PaintRoot(y: RBNode, color: Color, ghost c: Tree, ghost parent: RBNode?)
    requires Held(c, y, parent)
    modifies y`color
    ensures c.Node? && Held(c.(color := color), y, parent)
  {
    HeldKid(c, y, parent, Left);
    HeldKid(c, y, parent, Right);
    assert allocated(Nodes(c.left)) && allocated(Nodes(c.right));
    y.color := color;
    assert Rep(c.left, y.left, y) && Rep(c.right, y.right, y);
  }

  /** The lower of two reds in a row turns black. */
  method Blacken(t1: RBNode, d: Direction, ghost u: Tree, ghost parent: RBNode?)
    requires Held(u, t1, parent) && u.Node? && RedPair(Kid(u, d), d)
    modifies Nodes(u)
    ensures Held(Recolored(u, d), t1, parent)
  {
    ghost var b := Kid(u, d);
    ghost var c := Kid(b, d);
    RotationParts(u, t1, Opposite(d), parent);
    NodesRecolored(u, d);
    var x := t1.Child(d);
    var y := x.Child(d);
    HeldKid(b, x, t1, d);
    HeldKid(c, y, x, Left);
    assert allocated(Nodes(Kid(u, Opposite(d)))) && allocated(Nodes(Kid(b, Opposite(d))));
    PaintRoot(y, Black, c, x);
    RepMk(x, d, Kid(b, Opposite(d)), c.(color := Black));
    RepMk(t1, d, Kid(u, Opposite(d)), Mk(b.nd, d, Kid(b, Opposite(d)), b.key, b.color, c.(color := Black)));
  }

  lemma {:induction false} HeldKid(t: Tree, p: RBNode?, parent: RBNode?, d: Direction)
    requires Held(t, p, parent) && t.Node?
    ensures p == t.nd && p.parent == parent && p.key == t.key && p.color == t.color
    ensures Held(Kid(t, d), p.Child(d), p) && p !in Nodes(Kid(t, d)) && Nodes(Kid(t, d)) <= Nodes(t)
    ensures Nodes(Kid(t, d)) !! Nodes(Kid(t, Opposite(d))) && p in Nodes(t)
  {
  }

  /** What a rotation finds. */
  lemma {:induction false} RotationParts(t: Tree, sub: RBNode, dir: Direction, parent: RBNode?)
    requires Held(t, sub, parent) && t.Node? && Kid(t, Opposite(dir)).Node?
    ensures sub == t.nd && sub.parent == parent && sub.key == t.key && sub.color == t.color
    ensures var d := Opposite(dir); var b := Kid(t, d);
      && sub.Child(d) == b.nd && b.nd.key == b.key && b.nd.color == b.color
      && Held(Kid(t, dir), sub.Child(dir), sub) && Held(Kid(b, dir), b.nd.Child(dir), b.nd)
      && Held(Kid(b, d), b.nd.Child(d), b.nd)
      && Apart3(sub, b.nd, Kid(t, dir), Kid(b, dir), Kid(b, d))
      && Nodes(Kid(b, dir)) <= Nodes(t) && b.nd in Nodes(t) && sub in Nodes(t)
  {
    var d := Opposite(dir);
    HeldKid(t, sub, parent, d);
    HeldKid(t, sub, parent, dir);
    HeldKid(Kid(t, d), sub.Child(d), sub, d);
    HeldKid(Kid(t, d), sub.Child(d), sub, dir);
  }

  ghost predicate Apart3(x: RBNode, y: RBNode, a: Tree, m: Tree, c: Tree) {
    && x != y
    && x !in Nodes(a) && x !in Nodes(m) && x !in Nodes(c)
    && y !in Nodes(a) && y !in Nodes(m) && y !in Nodes(c)
    && Nodes(a) !! Nodes(m) && Nodes(a) !! Nodes(c) && Nodes(m) !! Nodes(c)
  }

  /** The links of a rotation, without the one from above. */
  method Twist(sub: RBNode, newRoot: RBNode, dir: Direction, ghost a: Tree, ghost m: Tree, ghost c: Tree,
               oldRootParent: RBNode?)
    requires Apart3(sub, newRoot, a, m, c)
    requires Held(a, sub.Child(dir), sub) && Held(m, newRoot.Child(dir), newRoot)
    requires Held(c, newRoot.Child(Opposite(dir)), newRoot)
    modifies sub, newRoot, Nodes(m)
    ensures var d := Opposite(dir);
      Rep(Mk(newRoot, d, Mk(sub, d, a, old(sub.key), old(sub.color), m), old(newRoot.key), old(newRoot.color), c),
          newRoot, oldRootParent)
  {
    assert allocated(Nodes(a)) && allocated(Nodes(m)) && allocated(Nodes(c));
    PassMiddle(sub, newRoot, dir, a, m);
    PutOnTop(sub, newRoot, dir, a, m, c, oldRootParent);
  }

  /** The middle subtree changes sides. */
  method PassMiddle(sub: RBNode, newRoot: RBNode, dir: Direction, ghost a: Tree, ghost m: Tree)
    requires sub !in Nodes(a) && sub !in Nodes(m) && Nodes(a) !! Nodes(m)
    requires Held(a, sub.Child(dir), sub) && Held(m, newRoot.Child(dir), newRoot)
    modifies sub`left, sub`right, Nodes(m)`parent
    ensures Rep(a, sub.Child(dir), sub) && Rep(m, sub.Child(Opposite(dir)), sub)
  {
    assert allocated(Nodes(a)) && allocated(Nodes(m));
    var newChild := newRoot.Child(dir);
    sub.SetChild(Opposite(dir), newChild);
    if newChild != null {
      Adopt(newChild, sub, m, newRoot);
    }
    assert Rep(a, sub.Child(dir), sub);
  }

  method PutOnTop(sub: RBNode, newRoot: RBNode, dir: Direction, ghost a: Tree, ghost m: Tree, ghost c: Tree,
                  oldRootParent: RBNode?)
    requires Apart3(sub, newRoot, a, m, c)
    requires Rep(a, sub.Child(dir), sub) && Rep(m, sub.Child(Opposite(dir)), sub)
    requires Rep(c, newRoot.Child(Opposite(dir)), newRoot)
    modifies sub`parent, newRoot`parent, newRoot`left, newRoot`right
    ensures var d := Opposite(dir);
      Rep(Mk(newRoot, d, Mk(sub, d, a, sub.key, sub.color, m), newRoot.key, newRoot.color, c), newRoot, oldRootParent)
  {
    assert allocated(Nodes(a)) && allocated(Nodes(m)) && allocated(Nodes(c));
    newRoot.SetChild(dir, sub);
    sub.parent := newRoot;
    newRoot.parent := oldRootParent;
    ghost var d := Opposite(dir);
    assert Rep(a, sub.Child(dir), sub) && Rep(m, sub.Child(d), sub) && Rep(c, newRoot.Child(d), newRoot);
    RepMk(sub, d, a, m);
    RepMk(newRoot, d, Mk(sub, d, a, sub.key, sub.color, m), c);
  }

  /** A subtree gets another parent. */
  method Adopt(child: RBNode, parent: RBNode?, ghost t: Tree, ghost was: RBNode?)
    requires Held(t, child, was)
    modifies child`parent
    ensures Held(t, child, parent)
  {
    assert allocated(Nodes(t.left)) && allocated(Nodes(t.right));
    child.parent := parent;
    assert Rep(t.left, child.left, child) && Rep(t.right, child.right, child);
  }
}
