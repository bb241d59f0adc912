/** AVL insertion on trees: what rotations and the climb give. */
module AvlInsert {
  import opened Sides
  import opened SortedEntries
  import opened AvlShape

  // --------------------------------------------------------------- rotations

  /** `left_rotate` (`d` = Right) and `right_rotate` (`d` = Left): the child on side `d` goes up. */
  function Turned(t: Tree, d: Direction): Tree
    requires t.Node? && Kid(t, d).Node?
  {
    var s := Kid(t, d);
    var lean := if s.factor == 0 then 1 else 0;
    Mk(s.nd, d, Mk(t.nd, d, Kid(t, Opposite(d)), Toward(d, lean), Kid(s, Opposite(d))), Toward(d, -lean), Kid(s, d))
  }

  /** `left_right_rotate` (`d` = Right) and `right_left_rotate` (`d` = Left): the inner grandchild
      goes up. */
  function TurnedTwice(t: Tree, d: Direction): Tree
    requires t.Node? && Kid(t, d).Node? && Kid(Kid(t, d), Opposite(d)).Node?
  {
    var s := Kid(t, d);
    var y := Kid(s, Opposite(d));
    var lean := Toward(d, y.factor);
    Mk(y.nd, d, Mk(t.nd, d, Kid(t, Opposite(d)), Toward(d, if lean > 0 then -1 else 0), Kid(y, Opposite(d))),
       Toward(d, 0), Mk(s.nd, d, Kid(y, d), Toward(d, if lean < 0 then 1 else 0), Kid(s, d)))
  }

  /** A node that leans to a side has a child there. */
  ghost predicate Leans(t: Tree) {
    t.Node? && (t.factor > 0 ==> t.right.Node?) && (t.factor < 0 ==> t.left.Node?)
  }

  function Turn(t: Tree, d: Direction): Tree
    requires t.Node? && Leans(Kid(t, d))
  {
    if Toward(d, Kid(t, d).factor) >= 0 then Turned(t, d) else TurnedTwice(t, d)
  }

  /** What the loop of `insertion` makes of a subtree `t` that grew in the hole of `c`. */
  function Climbed(c: Ctx, t: Tree): Tree
    requires Leans(t)
    decreases c
  {
    if c.Top? then t
    else if Toward(c.d, c.factor) > 0 then Plug(c.up, Turn(Fill(c, t), c.d))
    else if Toward(c.d, c.factor) < 0 then Plug(c.up, Fill(c.(factor := 0), t))
    else Climbed(c.up, Fill(c.(factor := Toward(c.d, 1)), t))
  }

  // ------------------------------------------------------------------- order

  ghost function Cat(d: Direction, a: seq<Entry>, e: Entry, b: seq<Entry>): seq<Entry> {
    if d == Right then a + [e] + b else b + [e] + a
  }

  lemma {:induction false} FlatMk(n: AvlNode, d: Direction, a: Tree, f: int, b: Tree)
    ensures Flat(Mk(n, d, a, f, b)) == Cat(d, Flat(a), EntryOf(n), Flat(b))
  {
  }

  lemma {:induction false} CatAssoc(d: Direction, a: seq<Entry>, e: Entry, b: seq<Entry>, e': Entry, c: seq<Entry>)
    ensures Cat(d, a, e, Cat(d, b, e', c)) == Cat(d, Cat(d, a, e, b), e', c)
  {
    if d == Right {
      assert a + [e] + (b + [e'] + c) == (a + [e] + b) + [e'] + c;
    } else {
      assert (c + [e'] + b) + [e] + a == c + [e'] + (b + [e] + a);
    }
  }

  lemma {:induction false} FlatTurned(t: Tree, d: Direction)
    requires t.Node? && Kid(t, d).Node?
    ensures Flat(Turned(t, d)) == Flat(t)
  {
    var s, u := Kid(t, d), Turned(t, d);
    var x := Kid(u, Opposite(d));
    FlatMk(t.nd, d, Kid(t, Opposite(d)), t.factor, s);
    FlatMk(s.nd, d, Kid(s, Opposite(d)), s.factor, Kid(s, d));
    FlatMk(x.nd, d, Kid(x, Opposite(d)), x.factor, Kid(x, d));
    FlatMk(u.nd, d, x, u.factor, Kid(u, d));
    CatAssoc(d, Flat(Kid(t, Opposite(d))), EntryOf(t.nd), Flat(Kid(s, Opposite(d))), EntryOf(s.nd), Flat(Kid(s, d)));
  }

  lemma {:induction false} FlatTurnedTwice(t: Tree, d: Direction)
    requires t.Node? && Kid(t, d).Node? && Kid(Kid(t, d), Opposite(d)).Node?
    ensures Flat(TurnedTwice(t, d)) == Flat(t)
  {
    var s := Kid(t, d);
    var y, u := Kid(s, Opposite(d)), TurnedTwice(t, d);
    var x, z := Kid(u, Opposite(d)), Kid(u, d);
    var a, b, c, e := Kid(t, Opposite(d)), Kid(y, Opposite(d)), Kid(y, d), Kid(s, d);
    FlatMk(t.nd, d, a, t.factor, s);
    FlatMk(s.nd, d, y, s.factor, e);
    FlatMk(y.nd, d, b, y.factor, c);
    FlatMk(x.nd, d, a, x.factor, b);
    FlatMk(z.nd, d, c, z.factor, e);
    FlatMk(u.nd, d, x, u.factor, z);
    CatAssoc(d, Flat(b), EntryOf(y.nd), Flat(c), EntryOf(s.nd), Flat(e));
    CatAssoc(d, Flat(a), EntryOf(t.nd), Flat(b), EntryOf(y.nd), Cat(d, Flat(c), EntryOf(s.nd), Flat(e)));
  }

  /** The climb keeps the entries in order, from any tree. */
  lemma {:induction false} FlatClimbed(c: Ctx, t: Tree)
    requires Leans(t)
    ensures Flat(Climbed(c, t)) == Before(c) + Flat(t) + After(c)
    decreases c
  {
    FlatPlug(c, t);
    if c.Frame? {
      FlatPlug(c.up, Fill(c, t));
      var lean := Toward(c.d, c.factor);
      if lean > 0 {
        if Toward(c.d, t.factor) >= 0 { FlatTurned(Fill(c, t), c.d); } else { FlatTurnedTwice(Fill(c, t), c.d); }
        FlatPlug(c.up, Turn(Fill(c, t), c.d));
      } else {
        FlatMk(c.nd, c.d, c.other, c.factor, t);
        FlatMk(c.nd, c.d, c.other, if lean < 0 then 0 else Toward(c.d, 1), t);
        if lean < 0 { FlatPlug(c.up, Fill(c.(factor := 0), t)); }
        else { FlatClimbed(c.up, Fill(c.(factor := Toward(c.d, 1)), t)); }
      }
    }
  }

  // ----------------------------------------------------------------- balance

  /** A subtree one higher than the context expects. */
  ghost predicate Grown(c: Ctx, t: Tree) {
    t.Node? && Balanced(t) && BalancedCtx(c, Height(t) - 1) && (t.factor == 0 ==> t.left.Nil? && t.right.Nil?)
  }

  lemma {:induction false} BalancedMk(n: AvlNode, d: Direction, a: Tree, lean: int, b: Tree)
    requires Balanced(a) && Balanced(b) && lean == Height(b) - Height(a) && -1 <= lean <= 1
    ensures Balanced(Mk(n, d, a, Toward(d, lean), b))
    ensures Height(Mk(n, d, a, Toward(d, lean), b)) == 1 + Max(Height(a), Height(b))
  {
  }

  lemma {:induction false} KidsBalanced(t: Tree, d: Direction)
    requires t.Node? && Balanced(t)
    ensures Balanced(Kid(t, d)) && Balanced(Kid(t, Opposite(d)))
    ensures Toward(d, t.factor) == Height(Kid(t, d)) - Height(Kid(t, Opposite(d)))
    ensures Height(t) == 1 + Max(Height(Kid(t, d)), Height(Kid(t, Opposite(d))))
  {
  }

  lemma {:induction false} IfBalanced(t: Tree, d: Direction)
    requires t.Node?
    ensures Balanced(t) ==>
      Balanced(Kid(t, d)) && Balanced(Kid(t, Opposite(d)))
      && Toward(d, t.factor) == Height(Kid(t, d)) - Height(Kid(t, Opposite(d)))
  {
  }

  lemma {:induction false} TurnedBalanced(t: Tree, d: Direction)
    requires t.Node? && Kid(t, d).Node? && Balanced(Kid(t, d)) && Balanced(Kid(t, Opposite(d)))
    requires Toward(d, Kid(t, d).factor) > 0 && Height(Kid(t, Opposite(d))) == Height(Kid(t, d)) - 2
    ensures Balanced(Turned(t, d)) && Height(Turned(t, d)) == Height(Kid(t, d))
  {
    var s, a := Kid(t, d), Kid(t, Opposite(d));
    KidsBalanced(s, d);
    var i, o := Kid(s, Opposite(d)), Kid(s, d);
    BalancedMk(t.nd, d, a, 0, i);
    var x := Mk(t.nd, d, a, Toward(d, 0), i);
    BalancedMk(s.nd, d, x, 0, o);
  }

  lemma {:induction false} TurnedTwiceBalanced(t: Tree, d: Direction)
    requires t.Node? && Kid(t, d).Node? && Balanced(Kid(t, d)) && Balanced(Kid(t, Opposite(d)))
    requires Toward(d, Kid(t, d).factor) < 0 && Height(Kid(t, Opposite(d))) == Height(Kid(t, d)) - 2
    ensures Kid(Kid(t, d), Opposite(d)).Node?
    ensures Balanced(TurnedTwice(t, d)) && Height(TurnedTwice(t, d)) == Height(Kid(t, d))
  {
    var s, a := Kid(t, d), Kid(t, Opposite(d));
    KidsBalanced(s, d);
    var y, e := Kid(s, Opposite(d)), Kid(s, d);
    KidsBalanced(y, d);
    TwoBalanced(t.nd, s.nd, y, a, e, d);
  }

  lemma {:induction false} TwoBalanced(n: AvlNode, m: AvlNode, y: Tree, a: Tree, e: Tree, d: Direction)
    requires y.Node? && Balanced(y) && Balanced(a) && Balanced(e) && Height(a) == Height(e) == Height(y) - 1
    ensures var lean := Toward(d, y.factor);
      var x := Mk(n, d, a, Toward(d, if lean > 0 then -1 else 0), Kid(y, Opposite(d)));
      var z := Mk(m, d, Kid(y, d), Toward(d, if lean < 0 then 1 else 0), e);
      Balanced(Mk(y.nd, d, x, Toward(d, 0), z)) && Height(Mk(y.nd, d, x, Toward(d, 0), z)) == Height(y) + 1
  {
    KidsBalanced(y, d);
    var lean := Toward(d, y.factor);
    var fx, fz := if lean > 0 then -1 else 0, if lean < 0 then 1 else 0;
    BalancedMk(n, d, a, fx, Kid(y, Opposite(d)));
    BalancedMk(m, d, Kid(y, d), fz, e);
    BalancedMk(y.nd, d, Mk(n, d, a, Toward(d, fx), Kid(y, Opposite(d))), 0, Mk(m, d, Kid(y, d), Toward(d, fz), e));
  }

  /** Over a child that grew on the heavy side, the rotation gives the old height back. */
  lemma {:induction false} TurnBalanced(c: Ctx, t: Tree)
    requires c.Frame? && Grown(c, t) && Leans(t) && Toward(c.d, c.factor) > 0
    ensures t.factor != 0 && Balanced(Turn(Fill(c, t), c.d)) && Height(Turn(Fill(c, t), c.d)) == Height(t)
    ensures BalancedCtx(c.up, Height(t))
  {
    KidsBalanced(t, c.d);
    HeavySide(c, t);
    if Toward(c.d, t.factor) >= 0 { TurnedBalanced(Fill(c, t), c.d); } else { TurnedTwiceBalanced(Fill(c, t), c.d); }
  }

  lemma {:induction false} HeavySide(c: Ctx, t: Tree)
    requires c.Frame? && Grown(c, t) && Toward(c.d, c.factor) > 0
    ensures t.factor != 0 && Height(c.other) == Height(t) - 2 && Balanced(c.other) && BalancedCtx(c.up, Height(t))
  {
  }

  /** From a subtree that grew by one the climb ends in a balanced tree. */
  lemma {:induction false} ClimbedBalanced(c: Ctx, t: Tree)
    requires Grown(c, t) && Leans(t)
    ensures Balanced(Climbed(c, t))
    decreases c
  {
    if c.Frame? {
      var lean := Toward(c.d, c.factor);
      if lean > 0 {
        TurnBalanced(c, t);
        BalancedPlug(c.up, Turn(Fill(c, t), c.d));
      } else if lean < 0 {
        BalancedFill(c.(factor := 0), t);
        BalancedPlug(c.up, Fill(c.(factor := 0), t));
      } else {
        BalancedFill(c.(factor := Toward(c.d, 1)), t);
        ClimbedBalanced(c.up, Fill(c.(factor := Toward(c.d, 1)), t));
      }
    }
  }

  // -------------------------------------------------- a leaf where more was

  ghost predicate BrokenKid(t: Tree) {
    t.Node? && !(Balanced(t.left) && Balanced(t.right))
  }

  /** Something wrong two levels down, where no rotation takes anything apart. */
  ghost predicate BrokenDeep(t: Tree) {
    t.Node? && (BrokenKid(t.left) || BrokenKid(t.right))
  }

  lemma {:induction false} BrokenStays(c: Ctx, t: Tree)
    requires Leans(t) && BrokenDeep(t)
    ensures !Balanced(Climbed(c, t))
    decreases c
  {
    if c.Frame? {
      var lean := Toward(c.d, c.factor);
      if lean > 0 {
        TurnKeeps(Fill(c, t), c.d);
        BalancedPlug(c.up, Turn(Fill(c, t), c.d));
      } else if lean < 0 {
        BalancedFill(c.(factor := 0), t);
        BalancedPlug(c.up, Fill(c.(factor := 0), t));
      } else {
        BrokenStays(c.up, Fill(c.(factor := Toward(c.d, 1)), t));
      }
    }
  }

  lemma {:induction false} TurnedKeeps(t: Tree, d: Direction)
    requires t.Node? && Kid(t, d).Node? && Balanced(Turned(t, d))
    ensures Balanced(Kid(Kid(t, d), d)) && Balanced(Kid(Kid(t, d), Opposite(d)))
  {
    var u := Turned(t, d);
    KidsBalanced(u, d);
    KidsBalanced(Kid(u, Opposite(d)), d);
  }

  lemma {:induction false} TurnedTwiceKeeps(t: Tree, d: Direction)
    requires t.Node? && Kid(t, d).Node? && Kid(Kid(t, d), Opposite(d)).Node? && Balanced(TurnedTwice(t, d))
    ensures Balanced(Kid(Kid(t, d), d))
    ensures var y := Kid(Kid(t, d), Opposite(d)); Balanced(Kid(y, d)) && Balanced(Kid(y, Opposite(d)))
  {
    var u := TurnedTwice(t, d);
    KidsBalanced(u, d);
    KidsBalanced(Kid(u, Opposite(d)), d);
    KidsBalanced(Kid(u, d), d);
  }

  lemma {:induction false} WholeKid(t: Tree, d: Direction)
    requires t.Node? && Balanced(Kid(t, d)) && Balanced(Kid(t, Opposite(d)))
    ensures !BrokenKid(t) && !BrokenDeep(t)
  {
  }

  /** What a rotation leaves whole. */
  lemma {:induction false} TurnKeeps(t: Tree, d: Direction)
    requires t.Node? && Leans(Kid(t, d))
    ensures Balanced(Turn(t, d)) ==> !BrokenDeep(Kid(t, d))
    ensures Balanced(Turn(t, d)) && Toward(d, Kid(t, d).factor) >= 0 ==> !BrokenKid(Kid(t, d))
  {
    var s := Kid(t, d);
    if Balanced(Turn(t, d)) {
      if Toward(d, s.factor) >= 0 {
        TurnedKeeps(t, d);
        WholeKid(s, d);
      } else {
        TurnedTwiceKeeps(t, d);
        WholeKid(Kid(s, Opposite(d)), d);
      }
    }
  }

  ghost predicate Leaf(t: Tree) {
    t.Node? && t.left.Nil? && t.right.Nil? && t.factor == 0
  }

  /** A node that claims to lean to `d`, where it has a leaf beside something of height `h`. */
  ghost predicate Stunted(t: Tree, d: Direction, h: nat) {
    t.Node? && t.factor == Toward(d, 1) && Leaf(Kid(t, d)) && Height(Kid(t, Opposite(d))) == h
  }

  /** A new leaf in the place of something of height `h`. */
  lemma {:induction false} LeafMisplaced(c: Ctx, t: Tree, h: nat)
    requires Leaf(t) && c.Frame? && BalancedCtx(c, h) && h > 0
    ensures !Balanced(Climbed(c, t))
  {
    var lean := Toward(c.d, c.factor);
    assert lean == h - Height(c.other) && Height(t) == 1;
    if lean > 0 {
      LeafTurned(c, t, h);
      BalancedPlug(c.up, Turn(Fill(c, t), c.d));
    } else if lean < 0 {
      BalancedFill(c.(factor := 0), t);
      BalancedPlug(c.up, Fill(c.(factor := 0), t));
    } else {
      FirstStep(c.up, Fill(c.(factor := Toward(c.d, 1)), t), c.d, h);
    }
  }

  lemma {:induction false} LeafTurned(c: Ctx, t: Tree, h: nat)
    requires Leaf(t) && c.Frame? && Height(c.other) == h - 1
    ensures !Balanced(Turn(Fill(c, t), c.d))
  {
    var u := Turned(Fill(c, t), c.d);
    IfBalanced(u, c.d);
    IfBalanced(Kid(u, Opposite(c.d)), c.d);
  }

  lemma {:induction false} StuntedLeans(t: Tree, d: Direction, h: nat)
    requires Stunted(t, d, h) && h > 0
    ensures Leans(t) && !Balanced(t)
  {
    IfBalanced(t, d);
  }

  lemma {:induction false} FirstStep(c: Ctx, t: Tree, d: Direction, h: nat)
    requires Stunted(t, d, h) && Leans(t) && h > 0 && BalancedCtx(c, h + 1)
    ensures !Balanced(Climbed(c, t))
  {
    StuntedLeans(t, d, h);
    if c.Frame? {
      var lean := Toward(c.d, c.factor);
      assert lean == h + 1 - Height(c.other);
      if lean > 0 {
        StuntedTurned(c, t, d, h);
        BalancedPlug(c.up, Turn(Fill(c, t), c.d));
      } else if lean < 0 {
        BalancedFill(c.(factor := 0), t);
        BalancedPlug(c.up, Fill(c.(factor := 0), t));
      } else {
        SecondStep(c.up, Fill(c.(factor := Toward(c.d, 1)), t), c.d, d, h);
      }
    }
  }

  lemma {:induction false} StuntedTurned(c: Ctx, t: Tree, d: Direction, h: nat)
    requires Stunted(t, d, h) && Leans(t) && h > 0 && c.Frame? && Height(c.other) == h
    ensures !Balanced(Turn(Fill(c, t), c.d))
  {
    var u := Turn(Fill(c, t), c.d);
    IfBalanced(u, c.d);
    IfBalanced(Kid(u, Opposite(c.d)), c.d);
  }

  lemma {:induction false} SecondStep(c: Ctx, t: Tree, d: Direction, e: Direction, h: nat)
    requires t.Node? && t.factor == Toward(d, 1) && Leans(t) && Stunted(Kid(t, d), e, h)
    requires h > 0 && Height(Kid(t, Opposite(d))) == h + 1 && BalancedCtx(c, h + 2)
    ensures !Balanced(Climbed(c, t))
  {
    StuntedLeans(Kid(t, d), e, h);
    IfBalanced(t, d);
    if c.Frame? {
      var lean := Toward(c.d, c.factor);
      assert lean == h + 2 - Height(c.other);
      if lean > 0 {
        SecondTurned(c, t, d, e, h);
        BalancedPlug(c.up, Turn(Fill(c, t), c.d));
      } else if lean < 0 {
        BalancedFill(c.(factor := 0), t);
        BalancedPlug(c.up, Fill(c.(factor := 0), t));
      } else {
        var u := Fill(c.(factor := Toward(c.d, 1)), t);
        assert BrokenKid(Kid(u, c.d));
        BrokenStays(c.up, u);
      }
    }
  }

  lemma {:induction false} SecondTurned(c: Ctx, t: Tree, d: Direction, e: Direction, h: nat)
    requires t.Node? && t.factor == Toward(d, 1) && Leans(t) && Stunted(Kid(t, d), e, h)
    requires h > 0 && Height(Kid(t, Opposite(d))) == h + 1 && c.Frame? && Height(c.other) == h + 1
    ensures !Balanced(Turn(Fill(c, t), c.d))
  {
    var u := Turn(Fill(c, t), c.d);
    StuntedLeans(Kid(t, d), e, h);
    TurnKeeps(Fill(c, t), c.d);
    IfBalanced(u, c.d);
    IfBalanced(Kid(u, Opposite(c.d)), c.d);
    if c.d != d { IfBalanced(Kid(u, c.d), c.d); }
  }
}
