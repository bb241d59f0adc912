/** AVL trees as values, and the ghost trees that the in-place code of AvlTree.dfy is proved
    against. Balance factors are kept beside the nodes, in a map. */
module AvlShape {
  import opened Sides
  import opened SortedEntries

  class AvlNode {
    const key: int
    const val: Value
    var left: AvlNode?
    var right: AvlNode?

    constructor (key: int, val: Value)
      ensures this.key == key && this.val == val && left == null && right == null
    {
      this.key, this.val, left, right := key, val, null, null;
    }

    function Child(d: Direction): AvlNode?
      reads this
    {
      if d == Left then left else right
    }

    method SetChild(d: Direction, n: AvlNode?)
      modifies this`left, this`right
      ensures Child(d) == n && Child(Opposite(d)) == old(Child(Opposite(d)))
    {
      if d == Left { left := n; } else { right := n; }
    }
  }

  datatype Tree =
    | Nil
    | Node(nd: AvlNode, left: Tree, factor: int, right: Tree)

  function Kid(t: Tree, d: Direction): Tree
    requires t.Node?
  {
    if d == Left then t.left else t.right
  }

  /** The node with `b` on side `d` and `a` on the other side. */
  function Mk(n: AvlNode, d: Direction, a: Tree, f: int, b: Tree): (t: Tree)
    ensures t.Node? && t.nd == n && t.factor == f && Kid(t, d) == b && Kid(t, Opposite(d)) == a
  {
    if d == Right then Node(n, a, f, b) else Node(n, b, f, a)
  }

  // ---------------------------------------------------------------- meaning

  function EntryOf(n: AvlNode): Entry { (n.key, n.val) }

  ghost function Flat(t: Tree): seq<Entry> {
    match t
    case Nil => []
    case Node(n, l, _, r) => Flat(l) + [EntryOf(n)] + Flat(r)
  }

  // ------------------------------------------------------------------ shape

  /** A difference of heights as seen from side `d`. */
  function Toward(d: Direction, x: int): int {
    if d == Right then x else -x
  }

  function Max(a: nat, b: nat): nat {
    if a > b then a else b
  }

  function Height(t: Tree): nat {
    if t.Nil? then 0 else 1 + Max(Height(t.left), Height(t.right))
  }

  /** Every factor is the difference of the heights, and at most 1 either way. */
  ghost predicate Balanced(t: Tree) {
    t.Node? ==>
      && -1 <= t.factor <= 1 && t.factor == Height(t.right) - Height(t.left)
      && Balanced(t.left) && Balanced(t.right)
  }

  // ------------------------------------------------------ where the tree lives

  ghost function Nodes(t: Tree): set<AvlNode> {
    match t
    case Nil => {}
    case Node(n, l, _, r) => {n} + Nodes(l) + Nodes(r)
  }

  ghost predicate Distinct(t: Tree) {
    t.Node? ==>
      && Distinct(t.left) && Distinct(t.right)
      && t.nd !in Nodes(t.left) && t.nd !in Nodes(t.right)
      && Nodes(t.left) !! Nodes(t.right)
  }

  /** The heap holds `t` at `p`, its factors in `hb`. */
  ghost predicate Rep(t: Tree, p: AvlNode?, hb: map<AvlNode, int>)
    reads Nodes(t)
    decreases t
  {
    match t
    case Nil => p == null
    case Node(n, l, f, r) => p == n && n in hb && hb[n] == f && Rep(l, n.left, hb) && Rep(r, n.right, hb)
  }

  ghost predicate Held(t: Tree, p: AvlNode?, hb: map<AvlNode, int>)
    reads Nodes(t)
  {
    Rep(t, p, hb) && Distinct(t)
  }

  /** The factors of some nodes are the same in both maps. */
  ghost predicate SameOn(s: set<AvlNode>, a: map<AvlNode, int>, b: map<AvlNode, int>) {
    forall n :: n in s && n in a ==> n in b && b[n] == a[n]
  }

  lemma {:induction false} RepSame(t: Tree, p: AvlNode?, a: map<AvlNode, int>, b: map<AvlNode, int>)
    requires Rep(t, p, a) && SameOn(Nodes(t), a, b)
    ensures Rep(t, p, b)
    decreases t
  {
    if t.Node? {
      RepSame(t.left, t.nd.left, a, b);
      RepSame(t.right, t.nd.right, a, b);
    }
  }

  // ---------------------------------------------------------------- contexts

  /** A tree with one subtree taken out: the hole is child `d` of `nd`. */
  datatype Ctx =
    | Top
    | Frame(nd: AvlNode, d: Direction, factor: int, other: Tree, up: Ctx)

  function Fill(c: Ctx, t: Tree): (f: Tree)
    requires c.Frame?
    ensures f.Node? && f.nd == c.nd && f.factor == c.factor && Kid(f, c.d) == t && Kid(f, Opposite(c.d)) == c.other
  {
    Mk(c.nd, c.d, c.other, c.factor, t)
  }

  function Plug(c: Ctx, t: Tree): Tree
    decreases c
  {
    if c.Top? then t else Plug(c.up, Fill(c, t))
  }

  function Owner(c: Ctx): AvlNode? {
    if c.Top? then null else c.nd
  }

  function Enter(c: Ctx, t: Tree, d: Direction): Ctx
    requires t.Node?
  {
    Frame(t.nd, d, t.factor, Kid(t, Opposite(d)), c)
  }

  /** The entries to the left and right of the hole. */
  ghost function Before(c: Ctx): seq<Entry> {
    if c.Top? then [] else Before(c.up) + (if c.d == Right then Flat(c.other) + [EntryOf(c.nd)] else [])
  }

  ghost function After(c: Ctx): seq<Entry> {
    if c.Top? then [] else (if c.d == Left then [EntryOf(c.nd)] + Flat(c.other) else []) + After(c.up)
  }

  lemma {:induction false} FlatPlug(c: Ctx, t: Tree)
    ensures Flat(Plug(c, t)) == Before(c) + Flat(t) + After(c)
    decreases c
  {
    if c.Frame? {
      FlatPlug(c.up, Fill(c, t));
      FlatFrame(c, t);
    }
  }

  lemma {:induction false} FlatFrame(c: Ctx, t: Tree)
    requires c.Frame?
    ensures Before(c.up) + Flat(Fill(c, t)) + After(c.up) == Before(c) + Flat(t) + After(c)
  {
    var a, b, e := Before(c.up), After(c.up), [EntryOf(c.nd)];
    if c.d == Right {
      assert a + (Flat(c.other) + e + Flat(t)) + b == (a + (Flat(c.other) + e)) + Flat(t) + ([] + b);
    } else {
      assert a + (Flat(t) + e + Flat(c.other)) + b == (a + []) + Flat(t) + ((e + Flat(c.other)) + b);
    }
  }

  /** Everything around the hole is balanced for a subtree of height `h` in it. */
  ghost predicate BalancedCtx(c: Ctx, h: nat)
    decreases c
  {
    c.Frame? ==>
      && -1 <= c.factor <= 1 && c.factor == Toward(c.d, h - Height(c.other))
      && Balanced(c.other) && BalancedCtx(c.up, 1 + Max(h, Height(c.other)))
  }

  lemma {:induction false} BalancedFill(c: Ctx, t: Tree)
    requires c.Frame?
    ensures Height(Fill(c, t)) == 1 + Max(Height(t), Height(c.other))
    ensures Balanced(Fill(c, t)) <==> Balanced(t) && Balanced(c.other) && -1 <= c.factor <= 1
                                      && c.factor == Toward(c.d, Height(t) - Height(c.other))
  {
  }

  lemma {:induction false} BalancedPlug(c: Ctx, t: Tree)
    ensures Balanced(Plug(c, t)) <==> Balanced(t) && BalancedCtx(c, Height(t))
    decreases c
  {
    if c.Frame? {
      BalancedFill(c, t);
      BalancedPlug(c.up, Fill(c, t));
    }
  }

  ghost function NodesCtx(c: Ctx): set<AvlNode> {
    if c.Top? then {} else {c.nd} + Nodes(c.other) + NodesCtx(c.up)
  }

  ghost predicate DistinctCtx(c: Ctx) {
    c.Frame? ==>
      && Distinct(c.other) && c.nd !in Nodes(c.other)
      && c.nd !in NodesCtx(c.up) && Nodes(c.other) !! NodesCtx(c.up)
      && DistinctCtx(c.up)
  }

  ghost predicate RepCtx(c: Ctx, h: AvlNode?, root: AvlNode?, hb: map<AvlNode, int>)
    reads NodesCtx(c)
    decreases c
  {
    if c.Top? then h == root
    else
      && c.nd in hb && hb[c.nd] == c.factor && c.nd.Child(c.d) == h
      && Rep(c.other, c.nd.Child(Opposite(c.d)), hb)
      && RepCtx(c.up, c.nd, root, hb)
  }

  ghost predicate Around(c: Ctx, h: AvlNode?, root: AvlNode?, hb: map<AvlNode, int>)
    reads NodesCtx(c)
  {
    DistinctCtx(c) && RepCtx(c, h, root, hb)
  }

  ghost predicate Cut(c: Ctx, t: Tree, h: AvlNode?, root: AvlNode?, hb: map<AvlNode, int>)
    reads NodesCtx(c), Nodes(t)
  {
    NodesCtx(c) !! Nodes(t) && Around(c, h, root, hb) && Held(t, h, hb)
  }

  lemma {:induction false} RepCtxSame(c: Ctx, h: AvlNode?, root: AvlNode?, a: map<AvlNode, int>, b: map<AvlNode, int>)
    requires RepCtx(c, h, root, a) && SameOn(NodesCtx(c), a, b)
    ensures RepCtx(c, h, root, b)
    decreases c
  {
    if c.Frame? {
      RepSame(c.other, c.nd.Child(Opposite(c.d)), a, b);
      RepCtxSame(c.up, c.nd, root, a, b);
    }
  }

  lemma {:induction false} NodesMk(n: AvlNode, d: Direction, a: Tree, f: int, b: Tree)
    ensures Nodes(Mk(n, d, a, f, b)) == {n} + Nodes(a) + Nodes(b)
    ensures Distinct(Mk(n, d, a, f, b)) <==>
            Distinct(a) && Distinct(b) && n !in Nodes(a) && n !in Nodes(b) && Nodes(a) !! Nodes(b)
  {
  }

  lemma {:induction false} CutUp(c: Ctx, t: Tree, h: AvlNode?, root: AvlNode?, hb: map<AvlNode, int>)
    requires Cut(c, t, h, root, hb) && c.Frame?
    ensures Cut(c.up, Fill(c, t), c.nd, root, hb)
    ensures Nodes(Fill(c, t)) == {c.nd} + Nodes(c.other) + Nodes(t)
  {
    NodesMk(c.nd, c.d, c.other, c.factor, t);
  }

  lemma {:induction false} CutDown(c: Ctx, t: Tree, h: AvlNode?, root: AvlNode?, hb: map<AvlNode, int>, d: Direction)
    requires Cut(c, t, h, root, hb) && t.Node?
    ensures h == t.nd && Cut(Enter(c, t, d), Kid(t, d), t.nd.Child(d), root, hb)
    ensures Fill(Enter(c, t, d), Kid(t, d)) == t
    ensures NodesCtx(Enter(c, t, d)) + Nodes(Kid(t, d)) == NodesCtx(c) + Nodes(t)
  {
  }

  lemma {:induction false} CutClose(c: Ctx, t: Tree, h: AvlNode?, root: AvlNode?, hb: map<AvlNode, int>)
    requires Cut(c, t, h, root, hb)
    ensures Held(Plug(c, t), root, hb) && Nodes(Plug(c, t)) == NodesCtx(c) + Nodes(t)
    decreases c
  {
    if c.Frame? {
      CutUp(c, t, h, root, hb);
      CutClose(c.up, Fill(c, t), c.nd, root, hb);
    }
  }

  // ------------------------------------------------------------------ search

  datatype Spot = Spot(c: Ctx, t: Tree)

  /** Where the search for `k` ends: a node with that key, or a null link. */
  function Seek(c: Ctx, t: Tree, k: int): Spot
    decreases t
  {
    if t.Nil? || t.nd.key == k then Spot(c, t)
    else
      var d := if t.nd.key > k then Left else Right;
      Seek(Enter(c, t, d), Kid(t, d), k)
  }

  lemma {:induction false} SeekSides(c: Ctx, t: Tree, k: int)
    requires Sorted(Flat(t)) && AllBelow(Before(c), k) && AllAbove(k, After(c))
    ensures var s := Seek(c, t, k);
      && Plug(s.c, s.t) == Plug(c, t) && AllBelow(Before(s.c), k) && AllAbove(k, After(s.c)) && Sorted(Flat(s.t))
      && (s.t.Node? ==> s.t.nd.key == k)
      && (if t.Nil? || t.nd.key == k then s == Spot(c, t) else s.c.Frame?)
    decreases t
  {
    if t.Node? && t.nd.key != k {
      var d := if t.nd.key > k then Left else Right;
      EnterSides(c, t, k, d);
      SeekSides(Enter(c, t, d), Kid(t, d), k);
    }
  }

  lemma {:induction false} EnterSides(c: Ctx, t: Tree, k: int, d: Direction)
    requires t.Node? && Sorted(Flat(t)) && AllBelow(Before(c), k) && AllAbove(k, After(c))
    requires if d == Left then t.nd.key > k else t.nd.key < k
    ensures Fill(Enter(c, t, d), Kid(t, d)) == t && Sorted(Flat(Kid(t, d)))
    ensures AllBelow(Before(Enter(c, t, d)), k) && AllAbove(k, After(Enter(c, t, d)))
  {
    SortedAround(Flat(t.left), EntryOf(t.nd), Flat(t.right));
    SortedSplit(Flat(t.left), Flat(t.right));
  }

  /** In a sorted tree every node is found where it is. */
  lemma {:induction false} SeekFinds(c: Ctx, t: Tree)
    requires t.Node? && Sorted(Flat(Plug(c, t)))
    ensures Seek(Top, Plug(c, t), t.nd.key) == Spot(c, t)
    decreases c
  {
    FlatPlug(c, t);
    SortedRoot(Before(c), Flat(t.left), EntryOf(t.nd), Flat(t.right), After(c));
    SeekDown(c, t, t.nd.key);
  }

  /** The search for a key between the entries around the hole passes through it. */
  lemma {:induction false} SeekDown(c: Ctx, t: Tree, k: int)
    requires AllBelow(Before(c), k) && AllAbove(k, After(c))
    ensures Seek(Top, Plug(c, t), k) == Seek(c, t, k)
    decreases c
  {
    if c.Frame? {
      var f := Fill(c, t);
      assert c.d == Right ==> Before(c)[|Before(c)| - 1] == EntryOf(c.nd);
      assert c.d == Left ==> After(c)[0] == EntryOf(c.nd);
      AllBelowPart(Before(c.up), Before(c), k);
      AllAbovePart(After(c.up), After(c), k);
      SeekDown(c.up, f, k);
      assert Enter(c.up, f, c.d) == c;
    }
  }

  lemma {:induction false} SortedRoot(a: seq<Entry>, l: seq<Entry>, e: Entry, r: seq<Entry>, b: seq<Entry>)
    requires Sorted(a + (l + [e] + r) + b)
    ensures AllBelow(a, e.0) && AllAbove(e.0, b)
  {
    assert a + (l + [e] + r) + b == (a + l) + [e] + (r + b);
    SortedAround(a + l, e, r + b);
    AllBelowPart(a, a + l, e.0);
    AllAbovePart(b, r + b, e.0);
  }

  lemma {:induction false} AllBelowPart(a: seq<Entry>, b: seq<Entry>, k: int)
    requires a <= b && AllBelow(b, k)
    ensures AllBelow(a, k)
  {
  }

  lemma {:induction false} AllAbovePart(a: seq<Entry>, b: seq<Entry>, k: int)
    requires |a| <= |b| && b[|b| - |a|..] == a && AllAbove(k, b)
    ensures AllAbove(k, a)
  {
    assert forall i :: 0 <= i < |a| ==> a[i] == b[|b| - |a| + i];
  }
}
