/** What `RightRBJoin` and `LeftRBJoin` compute, as one function on trees: `d` is the side of
    the taller tree's spine that is walked down. */
module RBJoin {
  import opened Sides
  import opened RBShape

  ghost function Cat(d: Direction, a: seq<int>, k: int, b: seq<int>): seq<int> {
    if d == Right then a + [k] + b else b + [k] + a
  }

  predicate BaseCase(t1: Tree, t2: Tree) {
    t1.Nil? || (t1.color == Black && Bh(t1) == Bh(t2))
  }

  predicate RedPair(b: Tree, d: Direction) {
    IsRed(b) && IsRed(Kid(b, d))
  }

  /** A black node over two reds in a row on side `d`: the lower red turns black, the upper one
      becomes the root. */
  function Repaired(t: Tree, d: Direction): Tree
    requires t.Node? && RedPair(Kid(t, d), d)
  {
    var b := Kid(t, d);
    Mk(b.nd, d, Mk(t.nd, d, Kid(t, Opposite(d)), t.key, t.color, Kid(b, Opposite(d))), b.key, b.color,
       Kid(b, d).(color := Black))
  }

  function SpineJoin(d: Direction, t1: Tree, t2: Tree, k: int, n: RBNode): Tree
    decreases t1
  {
    if BaseCase(t1, t2) then Mk(n, d, t1, k, Red, t2)
    else Mended(d, Mk(t1.nd, d, Kid(t1, Opposite(d)), t1.key, t1.color, SpineJoin(d, Kid(t1, d), t2, k, n)))
  }

  function Mended(d: Direction, u: Tree): Tree
    requires u.Node?
  {
    if u.color == Black && RedPair(Kid(u, d), d) then Repaired(u, d) else u
  }

  lemma {:induction false} CatAssoc(d: Direction, a: seq<int>, k: int, b: seq<int>, k': int, c: seq<int>)
    ensures Cat(d, a, k, Cat(d, b, k', c)) == Cat(d, Cat(d, a, k, b), k', c)
  {
    if d == Right {
      assert a + [k] + (b + [k'] + c) == (a + [k] + b) + [k'] + c;
    } else {
      assert (c + [k'] + b) + [k] + a == c + [k'] + (b + [k] + a);
    }
  }

  lemma {:induction false} KeysMk(n: RBNode, d: Direction, a: Tree, k: int, c: Color, b: Tree)
    ensures Keys(Mk(n, d, a, k, c, b)) == Cat(d, Keys(a), k, Keys(b))
  {
  }

  lemma {:induction false} KeysRepaired(t: Tree, d: Direction)
    requires t.Node? && RedPair(Kid(t, d), d)
    ensures Keys(Repaired(t, d)) == Keys(t)
  {
    var b := Kid(t, d);
    var a, m, c := Kid(t, Opposite(d)), Kid(b, Opposite(d)), Kid(b, d);
    KeysMk(t.nd, d, a, t.key, t.color, b);
    KeysMk(b.nd, d, m, b.key, b.color, c);
    KeysMk(t.nd, d, a, t.key, t.color, m);
    KeysMk(b.nd, d, Mk(t.nd, d, a, t.key, t.color, m), b.key, b.color, c.(color := Black));
    CatAssoc(d, Keys(a), t.key, Keys(m), b.key, Keys(c));
  }

  lemma {:induction false} KeysJoin(d: Direction, t1: Tree, t2: Tree, k: int, n: RBNode)
    ensures Keys(SpineJoin(d, t1, t2, k, n)) == Cat(d, Keys(t1), k, Keys(t2))
    decreases t1
  {
    if BaseCase(t1, t2) {
      KeysMk(n, d, t1, k, Red, t2);
    } else {
      var s, o := Kid(t1, d), Kid(t1, Opposite(d));
      var b := SpineJoin(d, s, t2, k, n);
      var u := Mk(t1.nd, d, o, t1.key, t1.color, b);
      KeysJoin(d, s, t2, k, n);
      KeysMk(t1.nd, d, o, t1.key, t1.color, b);
      KeysMk(t1.nd, d, o, t1.key, t1.color, s);
      CatAssoc(d, Keys(o), t1.key, Keys(s), k, Keys(t2));
      if t1.color == Black && RedPair(Kid(u, d), d) {
        KeysRepaired(u, d);
      }
    }
  }

  /** The helpers' exact contract. Strictly below the taller tree's height they may leave one
      red-red edge, at the root; at equal heights below a red node they leave two in a row, which
      the black node above repairs in one rotation. */
  ghost predicate Joined(d: Direction, t1: Tree, t2: Tree, r: Tree) {
    && Balanced(r) && Bh(r) == Bh(t1) && r.Node?
    && (BaseCase(t1, t2) ==> IsRed(r) && Kid(r, Opposite(d)) == t1 && Kid(r, d) == t2)
    && (!BaseCase(t1, t2) && t1.color == Black ==> Good(r))
    && (!BaseCase(t1, t2) && t1.color == Red ==>
          && IsRed(r) && Kid(r, Opposite(d)) == Kid(t1, Opposite(d))
          && if Bh(t1) == Bh(t2) then
               IsRed(Kid(r, d)) && Kid(Kid(r, d), Opposite(d)) == Kid(t1, d) && Kid(Kid(r, d), d) == t2
             else Good(Kid(r, d)))
  }

  lemma {:induction false} GoodMk(n: RBNode, d: Direction, a: Tree, k: int, c: Color, b: Tree)
    requires Good(a) && Good(b) && Bh(a) == Bh(b)
    requires c == Red ==> !IsRed(a) && !IsRed(b)
    ensures Good(Mk(n, d, a, k, c, b)) && Bh(Mk(n, d, a, k, c, b)) == Bh(a) + (if c == Black then 1 else 0)
  {
  }

  lemma {:induction false} GoodKids(t: Tree, d: Direction)
    requires t.Node?
    ensures Balanced(t) ==> Balanced(Kid(t, d)) && Bh(t) == Bh(Kid(t, d)) + (if t.color == Black then 1 else 0)
    ensures NoRedRed(t) ==> NoRedRed(Kid(t, d)) && (t.color == Red ==> !IsRed(Kid(t, d)))
  {
  }

  /** The repair: a black node over a red one whose own child on side `d` is red too. */
  lemma {:induction false} RepairGood(t: Tree, d: Direction)
    requires t.Node? && t.color == Black && Balanced(t) && RedPair(Kid(t, d), d)
    requires var b := Kid(t, d); var c := Kid(b, d);
      && Good(Kid(t, Opposite(d))) && Good(Kid(b, Opposite(d))) && !IsRed(Kid(b, Opposite(d)))
      && NoRedRed(Kid(c, d)) && NoRedRed(Kid(c, Opposite(d)))
    ensures Good(Repaired(t, d)) && Bh(Repaired(t, d)) == Bh(t)
  {
    var b := Kid(t, d);
    var a, m, c := Kid(t, Opposite(d)), Kid(b, Opposite(d)), Kid(b, d);
    GoodKids(t, d);
    GoodKids(t, Opposite(d));
    GoodKids(b, d);
    GoodKids(b, Opposite(d));
    GoodMk(t.nd, d, a, t.key, t.color, m);
    GoodMk(b.nd, d, Mk(t.nd, d, a, t.key, t.color, m), b.key, b.color, c.(color := Black));
  }

  lemma {:induction false} JoinShape(d: Direction, t1: Tree, t2: Tree, k: int, n: RBNode)
    requires Good(t1) && Good(t2) && Bh(t1) >= Bh(t2)
    ensures Joined(d, t1, t2, SpineJoin(d, t1, t2, k, n))
    decreases t1
  {
    BhPositive(t2);
    if !BaseCase(t1, t2) {
      var s, o := Kid(t1, d), Kid(t1, Opposite(d));
      GoodKids(t1, d);
      GoodKids(t1, Opposite(d));
      JoinShape(d, s, t2, k, n);
      var b := SpineJoin(d, s, t2, k, n);
      if t1.color == Black {
        BlackStep(d, t1, t2, b);
      }
    }
  }

  lemma {:induction false} BlackStep(d: Direction, t1: Tree, t2: Tree, b: Tree)
    requires Good(t1) && Good(t2) && t1.Node? && t1.color == Black && Bh(t1) > Bh(t2)
    requires Joined(d, Kid(t1, d), t2, b)
    ensures var u := Mk(t1.nd, d, Kid(t1, Opposite(d)), t1.key, t1.color, b);
      if RedPair(b, d) then Good(Repaired(u, d)) && Bh(Repaired(u, d)) == Bh(t1) else Good(u) && Bh(u) == Bh(t1)
  {
    var s, o := Kid(t1, d), Kid(t1, Opposite(d));
    var u := Mk(t1.nd, d, o, t1.key, t1.color, b);
    GoodKids(t1, d);
    GoodKids(t1, Opposite(d));
    if s.Node? {
      GoodKids(s, d);
      GoodKids(s, Opposite(d));
    }
    GoodKids(b, d);
    GoodKids(b, Opposite(d));
    if RedPair(b, d) {
      GoodKids(Kid(b, d), d);
      GoodKids(Kid(b, d), Opposite(d));
      RepairGood(u, d);
    } else {
      GoodMk(t1.nd, d, o, t1.key, t1.color, b);
    }
  }

  // ----------------------------------------------------- the steps of the repair

  /** `subtree_rotation`: the child on side `d` becomes the root. */
  function RotatedUp(t: Tree, d: Direction): Tree
    requires t.Node? && Kid(t, d).Node?
  {
    var b := Kid(t, d);
    Mk(b.nd, d, Mk(t.nd, d, Kid(t, Opposite(d)), t.key, t.color, Kid(b, Opposite(d))), b.key, b.color, Kid(b, d))
  }

  function Recolored(t: Tree, d: Direction): Tree
    requires t.Node? && RedPair(Kid(t, d), d)
  {
    var b := Kid(t, d);
    Mk(t.nd, d, Kid(t, Opposite(d)), t.key, t.color,
       Mk(b.nd, d, Kid(b, Opposite(d)), b.key, b.color, Kid(b, d).(color := Black)))
  }

  lemma {:induction false} RepairSteps(t: Tree, d: Direction)
    requires t.Node? && RedPair(Kid(t, d), d)
    ensures RotatedUp(Recolored(t, d), d) == Repaired(t, d)
  {
  }

  lemma {:induction false} NodesMk(n: RBNode, d: Direction, a: Tree, k: int, c: Color, b: Tree)
    ensures Nodes(Mk(n, d, a, k, c, b)) == {n} + Nodes(a) + Nodes(b)
    ensures Distinct(Mk(n, d, a, k, c, b)) <==>
            Distinct(a) && Distinct(b) && n !in Nodes(a) && n !in Nodes(b) && Nodes(a) !! Nodes(b)
  {
  }

  lemma {:induction false} NodesRotatedUp(t: Tree, d: Direction)
    requires t.Node? && Kid(t, d).Node? && Distinct(t)
    ensures Distinct(RotatedUp(t, d)) && Nodes(RotatedUp(t, d)) == Nodes(t)
  {
    var b := Kid(t, d);
    var x := Mk(t.nd, d, Kid(t, Opposite(d)), t.key, t.color, Kid(b, Opposite(d)));
    assert t == Mk(t.nd, d, Kid(t, Opposite(d)), t.key, t.color, b);
    assert b == Mk(b.nd, d, Kid(b, Opposite(d)), b.key, b.color, Kid(b, d));
    NodesMk(t.nd, d, Kid(t, Opposite(d)), t.key, t.color, b);
    NodesMk(b.nd, d, Kid(b, Opposite(d)), b.key, b.color, Kid(b, d));
    NodesMk(t.nd, d, Kid(t, Opposite(d)), t.key, t.color, Kid(b, Opposite(d)));
    NodesMk(b.nd, d, x, b.key, b.color, Kid(b, d));
  }

  lemma {:induction false} NodesRecolored(t: Tree, d: Direction)
    requires t.Node? && RedPair(Kid(t, d), d) && Distinct(t)
    ensures Distinct(Recolored(t, d)) && Nodes(Recolored(t, d)) == Nodes(t)
  {
    var b := Kid(t, d);
    var c := Kid(b, d);
    assert t == Mk(t.nd, d, Kid(t, Opposite(d)), t.key, t.color, b);
    assert b == Mk(b.nd, d, Kid(b, Opposite(d)), b.key, b.color, c);
    NodesMk(t.nd, d, Kid(t, Opposite(d)), t.key, t.color, b);
    NodesMk(b.nd, d, Kid(b, Opposite(d)), b.key, b.color, c);
    assert Nodes(c.(color := Black)) == Nodes(c) && Distinct(c.(color := Black));
    NodesMk(b.nd, d, Kid(b, Opposite(d)), b.key, b.color, c.(color := Black));
    NodesMk(t.nd, d, Kid(t, Opposite(d)), t.key, t.color,
            Mk(b.nd, d, Kid(b, Opposite(d)), b.key, b.color, c.(color := Black)));
  }

  lemma {:induction false} NodesJoin(d: Direction, t1: Tree, t2: Tree, k: int, n: RBNode)
    requires Distinct(t1) && Distinct(t2) && Nodes(t1) !! Nodes(t2) && n !in Nodes(t1) && n !in Nodes(t2)
    ensures var r := SpineJoin(d, t1, t2, k, n);
      Distinct(r) && Nodes(r) == Nodes(t1) + Nodes(t2) + {n}
    decreases t1
  {
    if BaseCase(t1, t2) {
      NodesMk(n, d, t1, k, Red, t2);
    } else {
      var s, o := Kid(t1, d), Kid(t1, Opposite(d));
      var b := SpineJoin(d, s, t2, k, n);
      var u := Mk(t1.nd, d, o, t1.key, t1.color, b);
      assert t1 == Mk(t1.nd, d, o, t1.key, t1.color, s);
      NodesMk(t1.nd, d, o, t1.key, t1.color, s);
      NodesJoin(d, s, t2, k, n);
      NodesMk(t1.nd, d, o, t1.key, t1.color, b);
      NodesMended(d, u);
    }
  }

  lemma {:induction false} NodesMended(d: Direction, u: Tree)
    requires u.Node? && Distinct(u)
    ensures Distinct(Mended(d, u)) && Nodes(Mended(d, u)) == Nodes(u)
  {
    if u.color == Black && RedPair(Kid(u, d), d) {
      NodesRecolored(u, d);
      NodesRotatedUp(Recolored(u, d), d);
      RepairSteps(u, d);
    }
  }

  /** What `JoinOP` does with a helper's result: a red root over a red spine child turns black. */
  function Topped(d: Direction, r: Tree): Tree {
    if RedPair(r, d) then r.(color := Black) else r
  }

  lemma {:induction false} ToppedGood(d: Direction, t1: Tree, t2: Tree, r: Tree)
    requires Good(t1) && Good(t2) && Bh(t1) > Bh(t2) && Joined(d, t1, t2, r)
    ensures Good(Topped(d, r)) && Bh(t1) <= Bh(Topped(d, r)) <= Bh(t1) + 1 && Keys(Topped(d, r)) == Keys(r)
    ensures Nodes(Topped(d, r)) == Nodes(r) && (Distinct(r) ==> Distinct(Topped(d, r)))
  {
    BhPositive(t2);
    GoodKids(t1, Left);
    GoodKids(t1, Right);
    GoodKids(r, Left);
    GoodKids(r, Right);
    if t1.color == Red {
      assert NoRedRed(Kid(r, d)) && NoRedRed(Kid(r, Opposite(d)));
    }
  }

  /** With equal black heights the new node is red when both roots are black or null. */
  lemma {:induction false} EvenJoin(n: RBNode, t1: Tree, k: int, t2: Tree)
    requires Good(t1) && Good(t2) && Bh(t1) == Bh(t2)
    ensures var r := Node(n, t1, k, if IsRed(t1) || IsRed(t2) then Black else Red, t2);
      Good(r) && Bh(t1) <= Bh(r) <= Bh(t1) + 1
  {
  }

  /** The edges from a red node to a red child. */
  function RedEdges(t: Tree): nat {
    if t.Nil? then 0
    else RedEdges(t.left) + RedEdges(t.right)
         + (if t.color == Red && IsRed(t.left) then 1 else 0) + (if t.color == Red && IsRed(t.right) then 1 else 0)
  }

  lemma {:induction false} NoRedEdges(t: Tree)
    ensures NoRedRed(t) <==> RedEdges(t) == 0
    decreases t
  {
    if t.Node? {
      NoRedEdges(t.left);
      NoRedEdges(t.right);
    }
  }

  lemma {:induction false} RedEdgesMk(n: RBNode, d: Direction, a: Tree, k: int, c: Color, b: Tree)
    ensures RedEdges(Mk(n, d, a, k, c, b))
         == RedEdges(a) + RedEdges(b)
            + (if c == Red && IsRed(a) then 1 else 0) + (if c == Red && IsRed(b) then 1 else 0)
  {
  }

  /** Not only one red-red edge: the helper leaves a second one if and only if both trees are red at
      equal heights. `JoinOP` never calls it so, but its recursion does. */
  lemma {:induction false} TwoRedEdges(d: Direction, t1: Tree, t2: Tree, k: int, n: RBNode)
    requires Good(t1) && Good(t2) && Bh(t1) >= Bh(t2)
    ensures var edges := RedEdges(SpineJoin(d, t1, t2, k, n));
      edges <= 2 && (edges == 2 <==> IsRed(t1) && IsRed(t2) && Bh(t1) == Bh(t2))
  {
    var r := SpineJoin(d, t1, t2, k, n);
    JoinShape(d, t1, t2, k, n);
    NoRedEdges(t2);
    if BaseCase(t1, t2) {
      NoRedEdges(t1);
      RedEdgesMk(n, d, t1, k, Red, t2);
    } else if t1.color == Black {
      NoRedEdges(r);
    } else {
      GoodKids(t1, d);
      GoodKids(t1, Opposite(d));
      var o, b := Kid(r, Opposite(d)), Kid(r, d);
      NoRedEdges(o);
      NoRedEdges(Kid(t1, d));
      assert r == Mk(r.nd, d, o, r.key, r.color, b);
      RedEdgesMk(r.nd, d, o, r.key, r.color, b);
      if Bh(t1) == Bh(t2) {
        assert b == Mk(b.nd, d, Kid(t1, d), b.key, b.color, t2);
        RedEdgesMk(b.nd, d, Kid(t1, d), b.key, b.color, t2);
      } else {
        NoRedEdges(b);
      }
    }
  }

  /** Then the reds stand in a row on the side of the walk: the root, the new node and the root of
      the lower tree. */
  lemma {:induction false} ThreeReds(d: Direction, t1: Tree, t2: Tree, k: int, n: RBNode)
    requires Good(t1) && Good(t2) && IsRed(t1) && IsRed(t2) && Bh(t1) == Bh(t2)
    ensures var r := SpineJoin(d, t1, t2, k, n);
      && r.Node? && r.nd == t1.nd && r.color == Red
      && Kid(r, d).Node? && Kid(r, d).nd == n && Kid(r, d).color == Red && Kid(Kid(r, d), d) == t2
  {
    var s := Kid(t1, d);
    GoodKids(t1, d);
    assert BaseCase(s, t2);
    assert SpineJoin(d, s, t2, k, n) == Mk(n, d, s, k, Red, t2);
  }

  function Max(a: nat, b: nat): nat {
    if a > b then a else b
  }

  ghost predicate JoinResult(r: Tree, t1: Tree, k: int, t2: Tree) {
    && Good(r) && Max(Bh(t1), Bh(t2)) <= Bh(r) <= Max(Bh(t1), Bh(t2)) + 1
    && Keys(r) == Keys(t1) + [k] + Keys(t2)
  }
}
