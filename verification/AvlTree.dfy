/** `AVLtree` of Data_structures/AVLTree.hpp: search, rotations, insertion and ranges, in place. */
module AvlTreeModel {
  import opened Sides
  import opened SortedEntries
  import opened AvlShape
  import opened AvlInsert

  /** An insertion of `k` loses nothing and keeps the balance. */
  ghost predicate Harmless(T: Tree, k: int) {
    var t := Seek(Top, T, k).t;
    t.Node? ==> t.left.Nil? && t.right.Nil? && T.nd.key == k
  }

  class AvlTree {
    var tree: AvlNode?
    var heightb: map<AvlNode, int>

    constructor ()
      ensures tree == null && heightb == map[]
    {
      tree, heightb := null, map[];
    }

    /** `search_internal`: the node with the key, or null, and the node above. */
    method Search(k: int, t: AvlNode?, parent: AvlNode?, ghost c: Ctx, ghost T: Tree)
      returns (node: AvlNode?, above: AvlNode?)
      requires Cut(c, T, t, tree, heightb) && parent == Owner(c)
      ensures var s := Seek(c, T, k);
        Cut(s.c, s.t, node, tree, heightb) && above == Owner(s.c)
        && NodesCtx(s.c) + Nodes(s.t) == NodesCtx(c) + Nodes(T)
      decreases T
    {
      if t == null || t.key == k {
        return t, parent;
      }
      var d := if t.key > k then Left else Right;
      CutDown(c, T, t, tree, heightb, d);
      node, above := Search(k, t.Child(d), t, Enter(c, T, d), Kid(T, d));
    }

    // ------------------------------------------------------------- rotations

    /** `left_rotate` (`d` = Right) and `right_rotate` (`d` = Left). */
    method Rotate(f: AvlNode, s: AvlNode, d: Direction, ghost t: Tree) returns (r: AvlNode)
      requires Held(t, f, heightb) && t.Node? && Kid(t, d).Node? && s == Kid(t, d).nd
      modifies this`heightb, Nodes(t)
      ensures Held(Turned(t, d), r, heightb) && r == s && Nodes(Turned(t, d)) == Nodes(t)
      ensures SameOff(Nodes(t), old(heightb), heightb)
    {
      ghost var a, i, o := Kid(t, Opposite(d)), Kid(Kid(t, d), Opposite(d)), Kid(Kid(t, d), d);
      NodesTurned(t, d);
      HeldParts(t, f, d, heightb);
      HeldParts(Kid(t, d), s, d, heightb);
      Swing(f, s, d, a, i, o);
      var lean := if heightb[s] == 0 then 1 else 0;
      SetTwo(f, Toward(d, lean), s, Toward(d, -lean), d, a, i, o);
      r := s;
    }

    /** `left_right_rotate` (`d` = Right) and `right_left_rotate` (`d` = Left). */
    method RotateTwice(f: AvlNode, s: AvlNode, d: Direction, ghost t: Tree) returns (r: AvlNode)
      requires Held(t, f, heightb) && t.Node? && Kid(t, d).Node? && s == Kid(t, d).nd
      requires Kid(Kid(t, d), Opposite(d)).Node?
      modifies this`heightb, Nodes(t)
      ensures Held(TurnedTwice(t, d), r, heightb) && Nodes(TurnedTwice(t, d)) == Nodes(t)
      ensures SameOff(Nodes(t), old(heightb), heightb)
    {
      ghost var a, k := Kid(t, Opposite(d)), Kid(t, d);
      ghost var y := Kid(k, Opposite(d));
      HeldParts(t, f, d, heightb);
      HeldParts(k, s, Opposite(d), heightb);
      HeldParts(y, y.nd, d, heightb);
      TwiceIs(t, d);
      var inner := s.Child(Opposite(d));
      var lean := Toward(d, heightb[inner]);
      ghost var g := Turned(k, Opposite(d));
      var top := RaiseInner(f, s, inner, d, t);
      r := Rotate(f, top, d, Mk(f, d, a, t.factor, g));
      SetThree(r, f, s, Toward(d, if lean > 0 then -1 else 0), Toward(d, if lean < 0 then 1 else 0), d,
               Turned(Mk(f, d, a, t.factor, g), d));
    }

    /** The first rotation, below `f`. */
    method RaiseInner(f: AvlNode, s: AvlNode, inner: AvlNode, d: Direction, ghost t: Tree) returns (top: AvlNode)
      requires Held(t, f, heightb) && t.Node? && Kid(t, d).Node? && s == Kid(t, d).nd
      requires Kid(Kid(t, d), Opposite(d)).Node? && inner == Kid(Kid(t, d), Opposite(d)).nd
      modifies this`heightb, Nodes(t)
      ensures top == inner && SameOff(Nodes(t), old(heightb), heightb)
      ensures var u := Mk(f, d, Kid(t, Opposite(d)), t.factor, Turned(Kid(t, d), Opposite(d)));
        Held(u, f, heightb) && Nodes(u) == Nodes(t)
    {
      ghost var a, k := Kid(t, Opposite(d)), Kid(t, d);
      HeldParts(t, f, d, heightb);
      NodesTurned(k, Opposite(d));
      assert allocated(Nodes(a)) && allocated(Nodes(k));
      ghost var hb := heightb;
      top := Rotate(s, inner, Opposite(d), k);
      HeldSame(a, f.Child(Opposite(d)), hb, heightb);
      f.SetChild(d, top);
      NodesMk(f, d, a, t.factor, Turned(k, Opposite(d)));
      HeldMk(f, d, a, t.factor, Turned(k, Opposite(d)), heightb);
    }

    /** The factors of the three nodes at the top. */
    method SetThree(r: AvlNode, f: AvlNode, s: AvlNode, ff: int, fs: int, d: Direction, ghost t: Tree)
      requires Held(t, r, heightb) && t.Node? && Kid(t, d).Node? && Kid(t, Opposite(d)).Node?
      requires f == Kid(t, Opposite(d)).nd && s == Kid(t, d).nd
      modifies this`heightb
      ensures Held(Mk(r, d, Kid(t, Opposite(d)).(factor := ff), 0, Kid(t, d).(factor := fs)), r, heightb)
      ensures SameOff(Nodes(t), old(heightb), heightb)
    {
      ghost var x, z, hb := Kid(t, Opposite(d)), Kid(t, d), heightb;
      HeldParts(t, r, d, heightb);
      HeldParts(x, f, d, heightb);
      HeldParts(z, s, d, heightb);
      heightb := heightb[s := fs][f := ff][r := 0];
      HeldReset(x, f, ff, d, hb, heightb);
      HeldReset(z, s, fs, d, hb, heightb);
      NodesMk(r, d, x.(factor := ff), 0, z.(factor := fs));
      HeldMk(r, d, x.(factor := ff), 0, z.(factor := fs), heightb);
    }

    /** The two pointers of a rotation. */
    method Swing(f: AvlNode, s: AvlNode, d: Direction, ghost a: Tree, ghost i: Tree, ghost o: Tree)
      requires Limbs(f, s, a, i, o)
      requires Held(a, f.Child(Opposite(d)), heightb) && Held(i, s.Child(Opposite(d)), heightb)
      requires Held(o, s.Child(d), heightb)
      modifies f`left, f`right, s`left, s`right
      ensures f.Child(d) == old(s.Child(Opposite(d))) && f.Child(Opposite(d)) == old(f.Child(Opposite(d)))
      ensures s.Child(Opposite(d)) == f && s.Child(d) == old(s.Child(d))
      ensures Held(a, f.Child(Opposite(d)), heightb) && Held(i, f.Child(d), heightb) && Held(o, s.Child(d), heightb)
    {
      assert allocated(Nodes(a)) && allocated(Nodes(i)) && allocated(Nodes(o));
      f.SetChild(d, s.Child(Opposite(d)));
      s.SetChild(Opposite(d), f);
    }

    /** The two factors of a rotation. */
    method SetTwo(f: AvlNode, ff: int, s: AvlNode, fs: int, d: Direction, ghost a: Tree, ghost i: Tree, ghost o: Tree)
      requires Limbs(f, s, a, i, o) && s.Child(Opposite(d)) == f
      requires Held(a, f.Child(Opposite(d)), heightb) && Held(i, f.Child(d), heightb) && Held(o, s.Child(d), heightb)
      modifies this`heightb
      ensures heightb == old(heightb)[f := ff][s := fs]
      ensures Held(Mk(s, d, Mk(f, d, a, ff, i), fs, o), s, heightb)
    {
      ghost var hb := heightb;
      heightb := heightb[f := ff][s := fs];
      HeldSame(a, f.Child(Opposite(d)), hb, heightb);
      HeldSame(i, f.Child(d), hb, heightb);
      HeldSame(o, s.Child(d), hb, heightb);
      HeldMk(f, d, a, ff, i, heightb);
      NodesMk(f, d, a, ff, i);
      HeldMk(s, d, Mk(f, d, a, ff, i), fs, o, heightb);
    }

    // ------------------------------------------------------------- insertion

    /** `insertion`. The new leaf takes the place of whatever the search for `k` ended at, so for a
        key that is there the entries below its node are lost. The result is balanced and is the old
        map with the key set if and only if `k` was absent or the only key. */
    method Insertion(k: int, v: Value, ghost T: Tree) returns (ghost R: Tree)
      requires Held(T, tree, heightb) && Balanced(T) && Sorted(Flat(T))
      modifies this, Nodes(T)
      ensures Held(R, tree, heightb) && Sorted(Flat(R))
      ensures forall e :: e in Flat(R) <==> e == (k, v) || (e in Flat(T) && e !in Flat(Seek(Top, T, k).t))
      ensures Balanced(R) && ToMap(Flat(R)) == ToMap(Flat(T))[k := v] <==> Harmless(T, k)
      ensures forall n :: n in Nodes(R) ==> n in Nodes(T) || fresh(n)
    {
      assert allocated(Nodes(T));
      var node, above := Search(k, tree, null, Top, T);
      ghost var s := Seek(Top, T, k);
      SeekSides(Top, T, k);
      FlatPlug(s.c, s.t);
      ReplacedEntries(Before(s.c), Flat(s.t), After(s.c), k, v);
      ghost var n;
      R, n := InsertAt(k, v, above, s.c, node);
      InsertedAt(s, n, k, v, T);
    }

    method InsertAt(k: int, v: Value, above: AvlNode?, ghost c: Ctx, ghost h: AvlNode?)
      returns (ghost R: Tree, ghost n: AvlNode)
      requires Around(c, h, tree, heightb) && above == Owner(c) && AllBelow(Before(c), k) && AllAbove(k, After(c))
      requires Sorted(Before(c) + [(k, v)] + After(c))
      modifies this, NodesCtx(c)
      ensures EntryOf(n) == (k, v) && R == Climbed(c, Node(n, Nil, 0, Nil)) && Held(R, tree, heightb)
      ensures fresh(n) && Nodes(R) == NodesCtx(c) + {n}
    {
      assert allocated(NodesCtx(c));
      var leaf := new AvlNode(k, v);
      n := leaf;
      Attach(leaf, above, c, h);
      FlatPlug(c, Node(n, Nil, 0, Nil));
      assert Flat(Node(n, Nil, 0, Nil)) == [(k, v)];
      R := Climb(above, leaf, c, Node(n, Nil, 0, Nil));
    }

    /** The loop of `insertion`: `x` is above the subtree at `z` that grew; every turn looks up
        again what is above `x`. */
    method Climb(above: AvlNode?, start: AvlNode, ghost c0: Ctx, ghost t0: Tree) returns (ghost R: Tree)
      requires Cut(c0, t0, start, tree, heightb) && above == Owner(c0) && Leans(t0) && Sorted(Flat(Plug(c0, t0)))
      modifies this, NodesCtx(c0), Nodes(t0)
      ensures R == Climbed(c0, t0) && Held(R, tree, heightb) && Nodes(R) == NodesCtx(c0) + Nodes(t0)
    {
      var x, z := above, start;
      ghost var c, t, goal := c0, t0, Climbed(c0, t0);
      assert allocated(NodesCtx(c0)) && allocated(Nodes(t0));
      while x != null
        invariant Cut(c, t, z, tree, heightb) && x == Owner(c) && Due(c, t, goal)
        invariant NodesCtx(c) + Nodes(t) == NodesCtx(c0) + Nodes(t0)
        decreases c
      {
        var done, g;
        done, g, R := ClimbOne(x, z, c, t, goal);
        if done { return; }
        z, t := x, Fill(c.(factor := Toward(c.d, 1)), t);
        x, c := g, c.up;
      }
      R := t;
    }

    /** One turn of the loop. */
    method ClimbOne(x: AvlNode, z: AvlNode, ghost c: Ctx, ghost t: Tree, ghost goal: Tree)
      returns (done: bool, g: AvlNode?, ghost R: Tree)
      requires Cut(c, t, z, tree, heightb) && c.Frame? && x == c.nd && Due(c, t, goal)
      modifies this, NodesCtx(c), Nodes(t)
      ensures done ==> R == goal && Held(R, tree, heightb) && Nodes(R) == NodesCtx(c) + Nodes(t)
      ensures !done ==> g == Owner(c.up) && Raised(c, t, x, goal)
    {
      assert allocated(NodesCtx(c)) && allocated(Nodes(t));
      g := Above(x, z, c, t);
      var wasLeft := g != null && g.left == x;
      var d := SideOf(x, z, c, t);
      var lean := Toward(d, heightb[x]);
      done := lean != 0;
      if lean > 0 {
        R := TurnHere(x, z, d, g, wasLeft, c, t);
      } else {
        var f := if lean < 0 then 0 else Toward(d, 1);
        SetFactor(x, f, z, c, t);
        R := CloseIf(done, x, c, t);
        StillDue(c, t, goal);
      }
    }

    ghost predicate Raised(c: Ctx, t: Tree, x: AvlNode, goal: Tree)
      requires c.Frame?
      reads this, NodesCtx(c), Nodes(t), NodesCtx(c.up), Nodes(Fill(c.(factor := Toward(c.d, 1)), t))
    {
      var u := Fill(c.(factor := Toward(c.d, 1)), t);
      Cut(c.up, u, x, tree, heightb) && Due(c.up, u, goal) && NodesCtx(c.up) + Nodes(u) == NodesCtx(c) + Nodes(t)
    }

    ghost method CloseIf(done: bool, x: AvlNode, c: Ctx, t: Tree) returns (R: Tree)
      requires c.Frame? && (done ==> Cut(c.up, Fill(c.(factor := 0), t), x, tree, heightb))
      ensures done ==> R == Plug(c.up, Fill(c.(factor := 0), t)) && Held(R, tree, heightb)
                       && Nodes(R) == NodesCtx(c.up) + Nodes(Fill(c.(factor := 0), t))
    {
      R := Plug(c.up, Fill(c.(factor := 0), t));
      if done { CutClose(c.up, Fill(c.(factor := 0), t), x, tree, heightb); }
    }

    /** The node above `x`, looked up from the root. */
    method Above(x: AvlNode, z: AvlNode, ghost c: Ctx, ghost t: Tree) returns (g: AvlNode?)
      requires Cut(c, t, z, tree, heightb) && c.Frame? && x == c.nd && Sorted(Flat(Plug(c, t)))
      ensures g == Owner(c.up) && (g != null ==> (g.left == x <==> c.up.d == Left))
    {
      CutUp(c, t, z, tree, heightb);
      g := Parent(x, c.up, Fill(c, t));
    }

    method Parent(x: AvlNode, ghost c: Ctx, ghost t: Tree) returns (g: AvlNode?)
      requires Cut(c, t, x, tree, heightb) && t.Node? && Sorted(Flat(Plug(c, t)))
      ensures g == Owner(c) && (g != null ==> (g.left == x <==> c.d == Left) && (g.right == x <==> c.d == Right))
    {
      CutClose(c, t, x, tree, heightb);
      SeekFinds(c, t);
      var node;
      node, g := Search(x.key, tree, null, Top, Plug(c, t));
      HoleIs(c, t, x, tree, heightb);
    }

    /** The side on which `x` has `z`. */
    method SideOf(x: AvlNode, z: AvlNode, ghost c: Ctx, ghost t: Tree) returns (d: Direction)
      requires Cut(c, t, z, tree, heightb) && c.Frame? && x == c.nd && t.Node? && Sorted(Flat(Plug(c, t)))
      ensures d == c.d && x in heightb && heightb[x] == c.factor && z in heightb && heightb[z] == t.factor
    {
      OtherKey(c, t);
      if x.right != null && x.right.key == z.key {
        d := Right;
      } else {
        d := Left;
      }
    }

    method SetFactor(x: AvlNode, f: int, z: AvlNode, ghost c: Ctx, ghost t: Tree)
      requires Cut(c, t, z, tree, heightb) && c.Frame? && x == c.nd
      modifies this`heightb
      ensures Cut(c.up, Fill(c.(factor := f), t), x, tree, heightb)
      ensures Nodes(Fill(c.(factor := f), t)) == {x} + Nodes(c.other) + Nodes(t)
    {
      ghost var hb := heightb;
      CutUp(c, t, z, tree, heightb);
      heightb := heightb[x := f];
      HeldReset(Fill(c, t), x, f, c.d, hb, heightb);
      RepCtxSame(c.up, x, tree, hb, heightb);
      assert Fill(c, t).(factor := f) == Fill(c.(factor := f), t);
    }

    /** The rotation of the loop, and its result put in the place of `x`. */
    method TurnHere(x: AvlNode, z: AvlNode, d: Direction, g: AvlNode?, wasLeft: bool, ghost c: Ctx, ghost t: Tree)
      returns (ghost R: Tree)
      requires Cut(c, t, z, tree, heightb) && c.Frame? && x == c.nd && Leans(t) && d == c.d
      requires g == Owner(c.up) && (g != null ==> (wasLeft <==> c.up.d == Left))
      modifies this, NodesCtx(c), Nodes(t)
      ensures R == Plug(c.up, Turn(Fill(c, t), c.d)) && Held(R, tree, heightb)
      ensures Nodes(R) == NodesCtx(c) + Nodes(t)
    {
      ghost var u := Fill(c, t);
      CutUp(c, t, z, tree, heightb);
      assert allocated(NodesCtx(c.up)) && allocated(Nodes(u));
      var n := TurnNode(x, z, d, u, c.up);
      R := PutBack(n, g, wasLeft, c.up, x, Turn(u, d));
    }

    method PutBack(n: AvlNode, g: AvlNode?, wasLeft: bool, ghost c: Ctx, ghost h: AvlNode?, ghost r: Tree)
      returns (ghost R: Tree)
      requires Around(c, h, tree, heightb) && Held(r, n, heightb) && NodesCtx(c) !! Nodes(r)
      requires g == Owner(c) && (g != null ==> (wasLeft <==> c.d == Left))
      modifies this`tree, (if g == null then {} else {g})
      ensures R == Plug(c, r) && Held(R, tree, heightb) && Nodes(R) == NodesCtx(c) + Nodes(r)
    {
      assert allocated(Nodes(r));
      PutInHole(n, g, wasLeft, c, h);
      R := Plug(c, r);
      CutClose(c, r, n, tree, heightb);
    }

    method TurnNode(x: AvlNode, z: AvlNode, d: Direction, ghost u: Tree, ghost c: Ctx) returns (n: AvlNode)
      requires Cut(c, u, x, tree, heightb) && u.Node? && Leans(Kid(u, d)) && z == Kid(u, d).nd
      modifies this`heightb, Nodes(u)
      ensures Held(Turn(u, d), n, heightb) && Nodes(Turn(u, d)) == Nodes(u) && Around(c, x, tree, heightb)
    {
      assert allocated(NodesCtx(c));
      ghost var hb := heightb;
      HeldParts(u, x, d, heightb);
      HeldParts(Kid(u, d), z, d, heightb);
      if Toward(d, heightb[z]) >= 0 {
        n := Rotate(x, z, d, u);
      } else {
        n := RotateTwice(x, z, d, u);
      }
      RepCtxSame(c, x, tree, hb, heightb);
    }

    /** The new leaf takes the place of what the search ended at. */
    method Attach(n: AvlNode, above: AvlNode?, ghost c: Ctx, ghost h: AvlNode?)
      requires Around(c, h, tree, heightb) && above == Owner(c) && n !in NodesCtx(c) && n.left == null
      requires n.right == null
      requires AllBelow(Before(c), n.key) && AllAbove(n.key, After(c))
      modifies this, (if above == null then {} else {above})
      ensures Cut(c, Node(n, Nil, 0, Nil), n, tree, heightb)
    {
      assert allocated(NodesCtx(c));
      HoleSide(c, n.key);
      ghost var hb := heightb;
      heightb := heightb[n := 0];
      RepCtxSame(c, h, tree, hb, heightb);
      PutInHole(n, above, above != null && above.key >= n.key, c, h);
    }

    /** The hole gets another node. */
    method PutInHole(n: AvlNode, g: AvlNode?, left: bool, ghost c: Ctx, ghost h: AvlNode?)
      requires Around(c, h, tree, heightb) && g == Owner(c) && (g != null ==> (left <==> c.d == Left))
      modifies this`tree, (if g == null then {} else {g})
      ensures Around(c, n, tree, heightb)
    {
      if g == null {
        tree := n;
      } else {
        assert allocated(Nodes(c.other)) && allocated(NodesCtx(c.up));
        assert c.nd !in Nodes(c.other) && c.nd !in NodesCtx(c.up);
        if left { g.left := n; } else { g.right := n; }
      }
    }
  }

  lemma {:induction false} HoleSide(c: Ctx, k: int)
    requires AllBelow(Before(c), k) && AllAbove(k, After(c))
    ensures c.Frame? ==> c.nd.key != k && (c.nd.key > k <==> c.d == Left)
  {
    if c.Frame? && c.d == Left {
      assert After(c)[0] == EntryOf(c.nd);
    } else if c.Frame? {
      assert Before(c)[|Before(c)| - 1] == EntryOf(c.nd);
    }
  }

  /** What is left of a climb to `goal`. */
  ghost predicate Due(c: Ctx, t: Tree, goal: Tree) {
    Leans(t) && Sorted(Flat(Plug(c, t))) && Climbed(c, t) == goal
  }

  lemma {:induction false} StillDue(c: Ctx, t: Tree, goal: Tree)
    requires Due(c, t, goal) && c.Frame?
    ensures Toward(c.d, c.factor) < 0 ==> goal == Plug(c.up, Fill(c.(factor := 0), t))
    ensures c.factor == 0 ==> Due(c.up, Fill(c.(factor := Toward(c.d, 1)), t), goal)
  {
    FlatReset(c, t, Toward(c.d, 1));
  }

  /** Factors change at some nodes only, and none is lost. */
  ghost predicate SameOff(s: set<AvlNode>, a: map<AvlNode, int>, b: map<AvlNode, int>) {
    a.Keys <= b.Keys && forall n :: n in a && n !in s ==> b[n] == a[n]
  }

  /** Two nodes and three trees, all apart. */
  ghost predicate Limbs(f: AvlNode, s: AvlNode, a: Tree, i: Tree, o: Tree) {
    && f != s && f !in Nodes(a) + Nodes(i) + Nodes(o) && s !in Nodes(a) + Nodes(i) + Nodes(o)
    && Nodes(a) !! Nodes(i) && Nodes(a) !! Nodes(o) && Nodes(i) !! Nodes(o)
  }

  lemma {:induction false} HeldMk(n: AvlNode, d: Direction, a: Tree, f: int, b: Tree, hb: map<AvlNode, int>)
    requires Held(a, n.Child(Opposite(d)), hb) && Held(b, n.Child(d), hb) && n in hb && hb[n] == f
    requires n !in Nodes(a) && n !in Nodes(b) && Nodes(a) !! Nodes(b)
    ensures Held(Mk(n, d, a, f, b), n, hb)
  {
    NodesMk(n, d, a, f, b);
  }

  lemma {:induction false} HeldParts(t: Tree, p: AvlNode?, d: Direction, hb: map<AvlNode, int>)
    requires Held(t, p, hb) && t.Node?
    ensures p == t.nd && Held(Kid(t, d), t.nd.Child(d), hb) && Held(Kid(t, Opposite(d)), t.nd.Child(Opposite(d)), hb)
    ensures t.nd in hb && hb[t.nd] == t.factor
    ensures t.nd !in Nodes(Kid(t, d)) && t.nd !in Nodes(Kid(t, Opposite(d)))
    ensures Nodes(Kid(t, d)) !! Nodes(Kid(t, Opposite(d)))
    ensures Nodes(t) == {t.nd} + Nodes(Kid(t, d)) + Nodes(Kid(t, Opposite(d)))
  {
  }

  lemma {:induction false} HeldSame(t: Tree, p: AvlNode?, a: map<AvlNode, int>, b: map<AvlNode, int>)
    requires Held(t, p, a) && SameOn(Nodes(t), a, b)
    ensures Held(t, p, b)
  {
    RepSame(t, p, a, b);
  }

  lemma {:induction false} NodesTurned(t: Tree, d: Direction)
    requires t.Node? && Kid(t, d).Node? && Distinct(t)
    ensures Nodes(Turned(t, d)) == Nodes(t) && Distinct(Turned(t, d))
  {
    var s, u := Kid(t, d), Turned(t, d);
    var x := Kid(u, Opposite(d));
    assert t == Mk(t.nd, d, Kid(t, Opposite(d)), t.factor, s);
    assert s == Mk(s.nd, d, Kid(s, Opposite(d)), s.factor, Kid(s, d));
    NodesMk(t.nd, d, Kid(t, Opposite(d)), t.factor, s);
    NodesMk(s.nd, d, Kid(s, Opposite(d)), s.factor, Kid(s, d));
    NodesMk(x.nd, d, Kid(x, Opposite(d)), x.factor, Kid(x, d));
    NodesMk(u.nd, d, x, u.factor, Kid(u, d));
  }

  /** A node's own factor changes. */
  lemma {:induction false} HeldReset(t: Tree, p: AvlNode, f: int, d: Direction, a: map<AvlNode, int>,
                                     b: map<AvlNode, int>)
    requires Held(t, p, a) && t.Node? && p in b && b[p] == f
    requires SameOn(Nodes(t) - {p}, a, b)
    ensures Held(t.(factor := f), p, b) && Nodes(t.(factor := f)) == Nodes(t)
  {
    HeldParts(t, p, d, a);
    HeldSame(Kid(t, d), p.Child(d), a, b);
    HeldSame(Kid(t, Opposite(d)), p.Child(Opposite(d)), a, b);
    HeldMk(p, d, Kid(t, Opposite(d)), f, Kid(t, d), b);
  }

  lemma {:induction false} TwiceIs(t: Tree, d: Direction)
    requires t.Node? && Kid(t, d).Node? && Kid(Kid(t, d), Opposite(d)).Node? && Distinct(t)
    ensures var u := Mk(t.nd, d, Kid(t, Opposite(d)), t.factor, Turned(Kid(t, d), Opposite(d)));
      var s := Kid(t, d);
      var y := Kid(s, Opposite(d));
      && Kid(u, d).Node? && Kid(u, d).nd == y.nd && Nodes(u) == Nodes(t) && Nodes(Turned(u, d)) == Nodes(t)
      && var r := Turned(u, d);
         var lean := Toward(d, y.factor);
         var ff, fs := Toward(d, if lean > 0 then -1 else 0), Toward(d, if lean < 0 then 1 else 0);
         && r.nd == y.nd && Kid(r, d).Node? && Kid(r, Opposite(d)).Node?
         && Kid(r, d).nd == s.nd && Kid(r, Opposite(d)).nd == t.nd
         && Mk(r.nd, d, Kid(r, Opposite(d)).(factor := ff), 0, Kid(r, d).(factor := fs)) == TurnedTwice(t, d)
         && Nodes(TurnedTwice(t, d)) == Nodes(t)
  {
    var s, a := Kid(t, d), Kid(t, Opposite(d));
    var g := Turned(s, Opposite(d));
    var u := Mk(t.nd, d, a, t.factor, g);
    assert t == Mk(t.nd, d, a, t.factor, s);
    NodesMk(t.nd, d, a, t.factor, s);
    NodesTurned(s, Opposite(d));
    NodesMk(t.nd, d, a, t.factor, g);
    NodesTurned(u, d);
    var r := Turned(u, d);
    var x, z := Kid(r, Opposite(d)), Kid(r, d);
    var v := TurnedTwice(t, d);
    assert Kid(v, d) == z.(factor := Kid(v, d).factor);
    assert Kid(v, Opposite(d)) == x.(factor := Kid(v, Opposite(d)).factor);
    NodesMk(r.nd, d, x, r.factor, z);
    NodesMk(v.nd, d, Kid(v, Opposite(d)), v.factor, Kid(v, d));
  }

  /** What the node above says of the hole. */
  lemma {:induction false} HoleIs(c: Ctx, t: Tree, h: AvlNode, root: AvlNode?, hb: map<AvlNode, int>)
    requires Cut(c, t, h, root, hb) && t.Node?
    ensures c.Frame? ==> (c.nd.left == h <==> c.d == Left) && (c.nd.right == h <==> c.d == Right)
  {
    if c.Frame? { assert c.other.Node? ==> c.nd.Child(Opposite(c.d)) == c.other.nd; }
  }

  /** The other child's key is not the key at the hole. */
  lemma {:induction false} OtherKey(c: Ctx, t: Tree)
    requires c.Frame? && t.Node? && Sorted(Flat(Plug(c, t)))
    ensures c.other.Node? ==> c.other.nd.key != t.nd.key
  {
    FlatPlug(c.up, Fill(c, t));
    SortedSplit(Before(c.up) + Flat(Fill(c, t)), After(c.up));
    SortedSplit(Before(c.up), Flat(Fill(c, t)));
    var f := Fill(c, t);
    SortedAround(Flat(f.left), EntryOf(f.nd), Flat(f.right));
    RootIn(t);
    if c.other.Node? { RootIn(c.other); }
  }

  lemma {:induction false} RootIn(t: Tree)
    requires t.Node?
    ensures |Flat(t.left)| < |Flat(t)| && Flat(t)[|Flat(t.left)|] == EntryOf(t.nd)
    ensures EntryOf(t.nd) in Flat(t)
  {
  }

  lemma {:induction false} FlatReset(c: Ctx, t: Tree, f: int)
    requires c.Frame?
    ensures Flat(Plug(c.up, Fill(c.(factor := f), t))) == Flat(Plug(c, t))
  {
    FlatPlug(c.up, Fill(c.(factor := f), t));
    FlatPlug(c.up, Fill(c, t));
  }

  /** The new leaf in the place of `s.t`: what is lost, and when the result is balanced. */
  lemma {:induction false} InsertedAt(s: Spot, n: AvlNode, k: int, v: Value, T: Tree)
    requires Balanced(T) && Sorted(Flat(T)) && s == Seek(Top, T, k) && EntryOf(n) == (k, v)
    ensures var R := Climbed(s.c, Node(n, Nil, 0, Nil));
      && Sorted(Flat(R)) && (forall e :: e in Flat(R) <==> e == (k, v) || (e in Flat(T) && e !in Flat(s.t)))
      && (Balanced(R) && ToMap(Flat(R)) == ToMap(Flat(T))[k := v] <==> Harmless(T, k))
  {
    var leaf := Node(n, Nil, 0, Nil);
    SeekSides(Top, T, k);
    FlatClimbed(s.c, leaf);
    FlatPlug(s.c, s.t);
    assert Flat(leaf) == [(k, v)];
    ReplacedEntries(Before(s.c), Flat(s.t), After(s.c), k, v);
    InsertedBalance(s, T, leaf);
    InsertedMap(s, k, v);
  }

  lemma {:induction false} LeafIs(t: Tree)
    requires Leaf(t)
    ensures Leans(t) && Balanced(t) && Height(t) == 1 && Height(Nil) == 0
  {
  }

  lemma {:induction false} InsertedBalance(s: Spot, T: Tree, leaf: Tree)
    requires Balanced(T) && Plug(s.c, s.t) == T && Leaf(leaf)
    ensures Balanced(Climbed(s.c, leaf)) <==> s.c.Top? || s.t.Nil?
  {
    BalancedPlug(s.c, s.t);
    LeafIs(leaf);
    if s.t.Nil? {
      ClimbedBalanced(s.c, leaf);
    } else if s.c.Frame? {
      LeafMisplaced(s.c, leaf, Height(s.t));
    } else {
      assert Climbed(s.c, leaf) == leaf;
    }
  }

  /** The map is the old one with the key set if and only if no other entry was lost. */
  lemma {:induction false} InsertedMap(s: Spot, k: int, v: Value)
    requires Sorted(Before(s.c) + Flat(s.t) + After(s.c)) && AllBelow(Before(s.c), k) && AllAbove(k, After(s.c))
    requires s.t.Node? ==> s.t.nd.key == k
    ensures ToMap(Before(s.c) + [(k, v)] + After(s.c)) == ToMap(Before(s.c) + Flat(s.t) + After(s.c))[k := v]
            <==> s.t.Node? ==> s.t.left.Nil? && s.t.right.Nil?
  {
    var a, b := Before(s.c), After(s.c);
    SortedSplit(a + Flat(s.t), b);
    SortedSplit(a, Flat(s.t));
    MapAround(a, k, v, b);
    if s.t.Nil? {
      assert a + [] + b == a + b;
    } else if s.t.left.Nil? && s.t.right.Nil? {
      OneEntry(a, s.t, b, k, v);
    } else {
      var e := KidEntry(s.t);
      LostEntry(a, Flat(s.t), b, k, v, e);
    }
  }

  lemma {:induction false} OneEntry(a: seq<Entry>, t: Tree, b: seq<Entry>, k: int, v: Value)
    requires t.Node? && t.left.Nil? && t.right.Nil? && t.nd.key == k && AllBelow(a, k) && AllAbove(k, b)
    ensures ToMap(a + Flat(t) + b)[k := v] == ToMap(a + [(k, v)] + b)
  {
    assert Flat(t) == [EntryOf(t.nd)];
    MapAround(a, k, v, b);
    MapAround(a, k, t.nd.val, b);
  }

  lemma {:induction false} KidEntry(t: Tree) returns (e: Entry)
    requires t.Node? && !(t.left.Nil? && t.right.Nil?)
    ensures e in Flat(t) && (Sorted(Flat(t)) ==> e.0 != t.nd.key)
  {
    if t.left.Node? { RootIn(t.left); } else { RootIn(t.right); }
    e := if t.left.Node? then EntryOf(t.left.nd) else EntryOf(t.right.nd);
    if Sorted(Flat(t)) { SortedAround(Flat(t.left), EntryOf(t.nd), Flat(t.right)); }
  }

  lemma {:induction false} LostEntry(a: seq<Entry>, m: seq<Entry>, b: seq<Entry>, k: int, v: Value, e: Entry)
    requires Sorted(a + m + b) && e in m && e.0 != k
    requires AllBelow(a, k) && AllAbove(k, b)
    ensures ToMap(a + [(k, v)] + b) != ToMap(a + m + b)[k := v]
  {
    InMap(a + m + b, e.0);
    InMap(a + [(k, v)] + b, e.0);
    OnlyMiddle(a, m, b, e);
  }

  /** Keys in the middle are nowhere else. */
  lemma {:induction false} OnlyMiddle(a: seq<Entry>, m: seq<Entry>, b: seq<Entry>, e: Entry)
    requires Sorted(a + m + b) && e in m
    ensures exists i :: 0 <= i < |a + m + b| && (a + m + b)[i].0 == e.0
    ensures forall i :: 0 <= i < |a| ==> a[i].0 != e.0
    ensures forall i :: 0 <= i < |b| ==> b[i].0 != e.0
  {
    var j :| 0 <= j < |m| && m[j] == e;
    assert (a + m + b)[|a| + j] == e;
    SortedSplit(a + m, b);
    SortedSplit(a, m);
    assert (a + m)[|a| + j] == e;
  }

  lemma {:induction false} ReplacedEntries(a: seq<Entry>, m: seq<Entry>, b: seq<Entry>, k: int, v: Value)
    requires Sorted(a + m + b) && AllBelow(a, k) && AllAbove(k, b)
    ensures Sorted(a + [(k, v)] + b)
    ensures forall e :: e in a + [(k, v)] + b <==> e == (k, v) || (e in a + m + b && e !in m)
  {
    SortedSplit(a + m, b);
    SortedSplit(a, m);
    SortedJoin(a, [(k, v)]);
    SortedJoin(a + [(k, v)], b);
    forall e | e in m ensures e !in a && e !in b { OnlyMiddle(a, m, b, e); }
  }
}
