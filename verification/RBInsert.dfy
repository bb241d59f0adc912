/** Red-black insertion on trees: contexts, what a climb may assume, and what recolouring and
    rotation give. */
module RBInsert {
  import opened Sides
  import opened RBShape
  import opened RBJoin

  /** A tree with one subtree taken out: the hole is child `d` of `nd`. */
  datatype Ctx =
    | Top
    | Frame(nd: RBNode, d: Direction, key: int, color: Color, other: Tree, up: Ctx)

  function Fill(c: Ctx, t: Tree): (f: Tree)
    requires c.Frame?
    ensures f.Node? && f.nd == c.nd && Kid(f, c.d) == t && Kid(f, Opposite(c.d)) == c.other
  {
    Mk(c.nd, c.d, c.other, c.key, c.color, t)
  }

  function Plug(c: Ctx, t: Tree): Tree
    decreases c
  {
    if c.Top? then t else Plug(c.up, Fill(c, t))
  }

  function Owner(c: Ctx): RBNode? {
    if c.Top? then null else c.nd
  }

  predicate RedAbove(c: Ctx) {
    c.Frame? && c.color == Red
  }

  /** The keys to the left and right of the hole. */
  ghost function Before(c: Ctx): seq<int> {
    if c.Top? then [] else Before(c.up) + (if c.d == Right then Keys(c.other) + [c.key] else [])
  }

  ghost function After(c: Ctx): seq<int> {
    if c.Top? then [] else (if c.d == Left then [c.key] + Keys(c.other) else []) + After(c.up)
  }

  lemma {:induction false} KeysPlug(c: Ctx, t: Tree)
    ensures Keys(Plug(c, t)) == Before(c) + Keys(t) + After(c)
    decreases c
  {
    if c.Frame? {
      KeysPlug(c.up, Fill(c, t));
      var a, b := Before(c.up), After(c.up);
      if c.d == Right {
        HoleRight(a, Keys(c.other) + [c.key], Keys(t), b);
      } else {
        HoleLeft(a, Keys(t), [c.key], Keys(c.other), b);
      }
    }
  }

  lemma {:induction false} HoleRight(a: seq<int>, o: seq<int>, t: seq<int>, b: seq<int>)
    ensures a + (o + t) + b == (a + o) + t + ([] + b)
  {
  }

  lemma {:induction false} HoleLeft(a: seq<int>, t: seq<int>, k: seq<int>, o: seq<int>, b: seq<int>)
    ensures a + (t + k + o) + b == (a + []) + t + ((k + o) + b)
  {
  }

  /** Everything around the hole is as the invariant asks for a hole of black height `b`. */
  ghost predicate GoodCtx(c: Ctx, b: nat)
    decreases c
  {
    c.Frame? ==>
      && Good(c.other) && Bh(c.other) == b
      && (c.color == Red ==> !IsRed(c.other) && !RedAbove(c.up))
      && GoodCtx(c.up, b + (if c.color == Black then 1 else 0))
  }

  lemma {:induction false} GoodPlug(c: Ctx, t: Tree)
    requires Good(t) && GoodCtx(c, Bh(t)) && !(IsRed(t) && RedAbove(c))
    ensures Good(Plug(c, t))
    decreases c
  {
    if c.Frame? {
      GoodMk(c.nd, c.d, c.other, c.key, c.color, t);
      GoodPlug(c.up, Fill(c, t));
    }
  }

  lemma {:induction false} PlugGood(c: Ctx, t: Tree)
    requires Good(Plug(c, t))
    ensures Good(t) && GoodCtx(c, Bh(t)) && !(IsRed(t) && RedAbove(c))
    decreases c
  {
    if c.Frame? {
      var f := Fill(c, t);
      PlugGood(c.up, f);
      GoodKids(f, c.d);
      GoodKids(f, Opposite(c.d));
    }
  }

  /** A red node below a red parent: what is left to repair. */
  ghost predicate Climbing(c: Ctx, t: Tree) {
    IsRed(t) && Good(t) && GoodCtx(c, Bh(t))
  }

  // ------------------------------------------------------------ the repairs

  /** The parent, with the red node below it, turned black. */
  function Blackened(c: Ctx, t: Tree): (x: Tree)
    requires c.Frame?
  {
    Mk(c.nd, c.d, c.other, c.key, Black, t)
  }

  lemma {:induction false} BlackenedGood(c: Ctx, t: Tree)
    requires Climbing(c, t) && RedAbove(c)
    ensures Good(Blackened(c, t)) && Keys(Blackened(c, t)) == Keys(Fill(c, t))
  {
    GoodMk(c.nd, c.d, c.other, c.key, Black, t);
  }

  /** Parent and uncle turn black, the grandparent red. */
  function ColorShift(c: Ctx, t: Tree): Tree
    requires c.Frame? && c.up.Frame? && IsRed(c.up.other)
  {
    Mk(c.up.nd, c.up.d, c.up.other.(color := Black), c.up.key, Red, Blackened(c, t))
  }

  lemma {:induction false} KeysShifted(c: Ctx, t: Tree)
    requires c.Frame? && c.up.Frame? && IsRed(c.up.other)
    ensures Keys(ColorShift(c, t)) == Keys(Fill(c.up, Fill(c, t)))
  {
    var x, u := Blackened(c, t), c.up.other.(color := Black);
    assert Keys(u) == Keys(c.up.other);
    KeysMk(c.nd, c.d, c.other, c.key, Black, t);
    KeysMk(c.nd, c.d, c.other, c.key, c.color, t);
    KeysMk(c.up.nd, c.up.d, u, c.up.key, Red, x);
    KeysMk(c.up.nd, c.up.d, c.up.other, c.up.key, c.up.color, Fill(c, t));
  }

  lemma {:induction false} ColorShiftClimbs(c: Ctx, t: Tree)
    requires Climbing(c, t) && RedAbove(c) && c.up.Frame? && IsRed(c.up.other)
    ensures Climbing(c.up.up, ColorShift(c, t))
  {
    var x, u := Blackened(c, t), c.up.other.(color := Black);
    assert GoodCtx(c.up, Bh(t));
    GoodKids(c.up.other, Left);
    GoodKids(c.up.other, Right);
    GoodMk(c.nd, c.d, c.other, c.key, Black, t);
    assert c.up.color == Black;
    assert Good(u) && Bh(u) == Bh(x);
    GoodMk(c.up.nd, c.up.d, u, c.up.key, Red, x);
  }

  /** The parent, rotated first when the red node is its inner child. */
  function Straightened(c: Ctx, t: Tree): Tree
    requires c.Frame? && c.up.Frame? && t.Node?
  {
    if c.d == c.up.d then Fill(c, t) else RotatedUp(Fill(c, t), c.d)
  }

  /** The grandparent's subtree after the rotations and the exchange of colours. */
  function Settled(c: Ctx, t: Tree): Tree
    requires c.Frame? && c.up.Frame? && t.Node?
  {
    var d := c.up.d;
    var x := Straightened(c, t);
    Mk(x.nd, d, Mk(c.up.nd, d, c.up.other, c.up.key, Red, Kid(x, Opposite(d))), x.key, Black, Kid(x, d))
  }

  lemma {:induction false} KeysRotatedUp(t: Tree, d: Direction)
    requires t.Node? && Kid(t, d).Node?
    ensures Keys(RotatedUp(t, d)) == Keys(t)
  {
    var b := Kid(t, d);
    var a, m, c := Kid(t, Opposite(d)), Kid(b, Opposite(d)), Kid(b, d);
    KeysMk(t.nd, d, a, t.key, t.color, b);
    KeysMk(b.nd, d, m, b.key, b.color, c);
    KeysMk(t.nd, d, a, t.key, t.color, m);
    KeysMk(b.nd, d, Mk(t.nd, d, a, t.key, t.color, m), b.key, b.color, c);
    CatAssoc(d, Keys(a), t.key, Keys(m), b.key, Keys(c));
  }

  lemma {:induction false} KeysSettled(c: Ctx, t: Tree)
    requires c.Frame? && c.up.Frame? && t.Node?
    ensures Keys(Settled(c, t)) == Keys(Fill(c.up, Fill(c, t)))
  {
    var d := c.up.d;
    var x := Straightened(c, t);
    if c.d != d {
      KeysRotatedUp(Fill(c, t), c.d);
    }
    var g := Mk(c.up.nd, d, c.up.other, c.up.key, c.up.color, x);
    KeysRotatedUp(g, d);
    KeysMk(c.up.nd, d, c.up.other, c.up.key, c.up.color, x);
    KeysMk(c.up.nd, d, c.up.other, c.up.key, c.up.color, Fill(c, t));
    var y := Mk(c.up.nd, d, c.up.other, c.up.key, c.up.color, Kid(x, Opposite(d)));
    var y' := Mk(c.up.nd, d, c.up.other, c.up.key, Red, Kid(x, Opposite(d)));
    KeysMk(c.up.nd, d, c.up.other, c.up.key, c.up.color, Kid(x, Opposite(d)));
    KeysMk(c.up.nd, d, c.up.other, c.up.key, Red, Kid(x, Opposite(d)));
    KeysMk(x.nd, d, y, x.key, x.color, Kid(x, d));
    KeysMk(x.nd, d, y', x.key, Black, Kid(x, d));
  }

  lemma {:induction false} SettledGood(c: Ctx, t: Tree)
    requires Climbing(c, t) && RedAbove(c) && c.up.Frame? && !IsRed(c.up.other)
    ensures Good(Settled(c, t)) && GoodCtx(c.up.up, Bh(Settled(c, t))) && !IsRed(Settled(c, t))
  {
    var d := c.up.d;
    var x := Straightened(c, t);
    GoodKids(t, Left);
    GoodKids(t, Right);
    assert GoodCtx(c.up, Bh(t)) && c.up.color == Black;
    if c.d != d {
      GoodMk(c.nd, c.d, c.other, c.key, c.color, Kid(t, Opposite(c.d)));
    }
    var m := Kid(x, Opposite(d));
    GoodMk(c.up.nd, d, c.up.other, c.up.key, Red, m);
    GoodMk(x.nd, d, Mk(c.up.nd, d, c.up.other, c.up.key, Red, m), x.key, Black, Kid(x, d));
  }

  // ------------------------------------------------------- the whole repair

  /** What the loop of `insertion` makes of a red node `t` at the hole of `c`. */
  function Rebalanced(c: Ctx, t: Tree): Tree
    requires t.Node?
    decreases c
  {
    if !RedAbove(c) then Plug(c, t)
    else if c.up.Top? then Plug(c.up, Blackened(c, t))
    else if !IsRed(c.up.other) then Plug(c.up.up, Settled(c, t))
    else Rebalanced(c.up.up, ColorShift(c, t))
  }

  /** It never loses a key, */
  lemma {:induction false} KeysRebalanced(c: Ctx, t: Tree)
    requires t.Node?
    ensures Keys(Rebalanced(c, t)) == Before(c) + Keys(t) + After(c)
    decreases c
  {
    KeysPlug(c, t);
    if RedAbove(c) && c.up.Top? {
      KeysMk(c.nd, c.d, c.other, c.key, Black, t);
      KeysMk(c.nd, c.d, c.other, c.key, c.color, t);
    } else if RedAbove(c) {
      KeysPlug(c.up.up, Fill(c.up, Fill(c, t)));
      if IsRed(c.up.other) {
        KeysShifted(c, t);
        KeysRebalanced(c.up.up, ColorShift(c, t));
      } else {
        KeysSettled(c, t);
        KeysPlug(c.up.up, Settled(c, t));
      }
    }
  }

  /** and where a red-red edge is all that is wrong it restores the invariant. */
  lemma {:induction false} RebalancedGood(c: Ctx, t: Tree)
    requires Climbing(c, t)
    ensures Good(Rebalanced(c, t))
    decreases c
  {
    if !RedAbove(c) {
      GoodPlug(c, t);
    } else if c.up.Top? {
      BlackenedGood(c, t);
    } else if IsRed(c.up.other) {
      ColorShiftClimbs(c, t);
      RebalancedGood(c.up.up, ColorShift(c, t));
    } else {
      SettledGood(c, t);
      GoodPlug(c.up.up, Settled(c, t));
    }
  }

  lemma {:induction false} BrokenPlug(c: Ctx, t: Tree)
    requires !Balanced(t)
    ensures !Good(Plug(c, t))
  {
    if Good(Plug(c, t)) {
      PlugGood(c, t);
    }
  }

  ghost predicate BrokenBelow(t: Tree) {
    t.Node? && !(Balanced(t.left) && Balanced(t.right))
  }

  /** Unequal black heights below the climbing node are never mended. */
  lemma {:induction false} BrokenStays(c: Ctx, t: Tree)
    requires BrokenBelow(t)
    ensures !Good(Rebalanced(c, t))
    decreases c
  {
    if !RedAbove(c) {
      BrokenPlug(c, t);
    } else if c.up.Top? {
      BrokenPlug(c.up, Blackened(c, t));
    } else if IsRed(c.up.other) {
      assert !Balanced(Blackened(c, t));
      BrokenStays(c.up.up, ColorShift(c, t));
    } else {
      SettledBroken(c, t);
      BrokenPlug(c.up.up, Settled(c, t));
    }
  }

  lemma {:induction false} SettledBroken(c: Ctx, t: Tree)
    requires c.Frame? && c.up.Frame? && BrokenBelow(t)
    ensures !Balanced(Settled(c, t))
  {
    var d := c.up.d;
    var x := Straightened(c, t);
    var y := Mk(c.up.nd, d, c.up.other, c.up.key, Red, Kid(x, Opposite(d)));
    assert Kid(Settled(c, t), d) == Kid(x, d) && Kid(Settled(c, t), Opposite(d)) == y;
    if c.d != d {
      assert Kid(x, Opposite(d)) == Kid(t, c.d);
      assert Kid(Kid(x, d), c.d) == Kid(t, Opposite(c.d));
    }
  }

  ghost predicate Leaf(t: Tree) {
    t.Node? && t.left.Nil? && t.right.Nil? && t.color == Red
  }

  /** A red leaf where something higher was ends in unequal black heights. */
  lemma {:induction false} LeafMisplaced(c: Ctx, t: Tree, b: nat)
    requires Leaf(t) && c.Frame? && GoodCtx(c, b) && b > 1
    ensures !Good(Rebalanced(c, t))
  {
    assert Bh(t) == 1;
    if !RedAbove(c) {
      if Good(Plug(c, t)) {
        PlugGood(c, t);
      }
    } else if c.up.Top? {
      BrokenPlug(c.up, Blackened(c, t));
    } else if IsRed(c.up.other) {
      assert !Balanced(Blackened(c, t));
      BrokenStays(c.up.up, ColorShift(c, t));
    } else {
      LeafSettled(c, t, b);
      BrokenPlug(c.up.up, Settled(c, t));
    }
  }

  lemma {:induction false} LeafSettled(c: Ctx, t: Tree, b: nat)
    requires Leaf(t) && c.Frame? && c.up.Frame? && RedAbove(c) && GoodCtx(c, b) && b > 1
    ensures !Balanced(Settled(c, t))
  {
    var d := c.up.d;
    var x := Straightened(c, t);
    var y := Mk(c.up.nd, d, c.up.other, c.up.key, Red, Kid(x, Opposite(d)));
    assert Kid(Settled(c, t), d) == Kid(x, d) && Kid(Settled(c, t), Opposite(d)) == y;
    assert GoodCtx(c.up, b);
    if c.d == d {
      assert Kid(x, d) == t && Kid(x, Opposite(d)) == c.other;
      assert Bh(t) == 1 && (Balanced(y) ==> Bh(y) == b);
    } else {
      assert Kid(Kid(x, d), c.d) == Nil && Kid(Kid(x, d), d) == c.other;
    }
  }

  // ------------------------------------------------------------- where it is

  ghost function NodesCtx(c: Ctx): set<RBNode> {
    if c.Top? then {} else {c.nd} + Nodes(c.other) + NodesCtx(c.up)
  }

  ghost predicate DistinctCtx(c: Ctx) {
    c.Frame? ==>
      && Distinct(c.other) && c.nd !in Nodes(c.other)
      && c.nd !in NodesCtx(c.up) && Nodes(c.other) !! NodesCtx(c.up)
      && DistinctCtx(c.up)
  }

  ghost predicate RepCtx(c: Ctx, h: RBNode?, root: RBNode?)
    reads NodesCtx(c)
    decreases c
  {
    if c.Top? then h == root
    else
      && c.nd.parent == Owner(c.up) && c.nd.key == c.key && c.nd.color == c.color
      && c.nd.Child(c.d) == h && Rep(c.other, c.nd.Child(Opposite(c.d)), c.nd)
      && RepCtx(c.up, c.nd, root)
  }

  ghost predicate Cut(c: Ctx, t: Tree, h: RBNode?, root: RBNode?)
    reads NodesCtx(c), Nodes(t)
  {
    && DistinctCtx(c) && NodesCtx(c) !! Nodes(t)
    && RepCtx(c, h, root) && Held(t, h, Owner(c))
  }

  lemma {:induction false} CutUp(c: Ctx, t: Tree, h: RBNode?, root: RBNode?)
    requires Cut(c, t, h, root) && c.Frame?
    ensures Cut(c.up, Fill(c, t), c.nd, root)
    ensures Nodes(Fill(c, t)) == {c.nd} + Nodes(c.other) + Nodes(t)
  {
    NodesMk(c.nd, c.d, c.other, c.key, c.color, t);
  }

  function Enter(c: Ctx, t: Tree, d: Direction): Ctx
    requires t.Node?
  {
    Frame(t.nd, d, t.key, t.color, Kid(t, Opposite(d)), c)
  }

  lemma {:induction false} CutDown(c: Ctx, t: Tree, h: RBNode?, root: RBNode?, d: Direction)
    requires Cut(c, t, h, root) && t.Node?
    ensures h == t.nd && Cut(Enter(c, t, d), Kid(t, d), t.nd.Child(d), root)
    ensures Fill(Enter(c, t, d), Kid(t, d)) == t
    ensures NodesCtx(Enter(c, t, d)) + Nodes(Kid(t, d)) == NodesCtx(c) + Nodes(t)
  {
  }

  lemma {:induction false} CutClose(c: Ctx, t: Tree, h: RBNode?, root: RBNode?)
    requires Cut(c, t, h, root)
    ensures Held(Plug(c, t), root, null) && Nodes(Plug(c, t)) == NodesCtx(c) + Nodes(t)
    decreases c
  {
    if c.Frame? {
      CutUp(c, t, h, root);
      CutClose(c.up, Fill(c, t), c.nd, root);
    }
  }
}
