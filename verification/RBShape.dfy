/** Red-black trees as values: shape, colours and black heights, and the ghost trees that the
    in-place code of RedBlackTree.dfy is proved against. Roots may be red. */
module RBShape {
  import opened Sides

  datatype Color = Red | Black

  /** `node`: the two children are also reachable as `child[LEFT]` and `child[RIGHT]`. */
  class RBNode {
    var parent: RBNode?
    var left: RBNode?
    var right: RBNode?
    var key: int
    var color: Color

    constructor (key: int, color: Color)
      ensures parent == null && left == null && right == null && this.key == key && this.color == color
    {
      parent, left, right, this.key, this.color := null, null, null, key, color;
    }

    function Child(d: Direction): RBNode?
      reads this
    {
      if d == Left then left else right
    }

    method SetChild(d: Direction, n: RBNode?)
      modifies this`left, this`right
      ensures Child(d) == n && Child(Opposite(d)) == old(Child(Opposite(d)))
    {
      if d == Left { left := n; } else { right := n; }
    }
  }

  datatype Tree =
    | Nil
    | Node(nd: RBNode, left: Tree, key: int, color: Color, right: Tree)

  function Kid(t: Tree, d: Direction): Tree
    requires t.Node?
  {
    if d == Left then t.left else t.right
  }

  /** The node with `b` on side `d` and `a` on the other side. */
  function Mk(n: RBNode, d: Direction, a: Tree, k: int, c: Color, b: Tree): (t: Tree)
    ensures t.Node? && t.nd == n && Kid(t, d) == b && Kid(t, Opposite(d)) == a
  {
    if d == Right then Node(n, a, k, c, b) else Node(n, b, k, c, a)
  }

  // ---------------------------------------------------------------- meaning

  ghost function Keys(t: Tree): seq<int> {
    match t
    case Nil => []
    case Node(_, l, k, _, r) => Keys(l) + [k] + Keys(r)
  }

  ghost predicate Sorted(s: seq<int>) {
    forall i, j :: 0 <= i < j < |s| ==> s[i] < s[j]
  }

  ghost predicate AllBelow(s: seq<int>, k: int) {
    forall i :: 0 <= i < |s| ==> s[i] < k
  }

  ghost predicate AllAbove(k: int, s: seq<int>) {
    forall i :: 0 <= i < |s| ==> k < s[i]
  }

  // ------------------------------------------------------------------ shape

  predicate IsRed(t: Tree) {
    t.Node? && t.color == Red
  }

  /** `black_height`: one more than the black nodes on the right spine. */
  function Bh(t: Tree): nat {
    match t
    case Nil => 1
    case Node(_, _, _, c, r) => Bh(r) + (if c == Black then 1 else 0)
  }

  ghost predicate Balanced(t: Tree) {
    t.Node? ==> Balanced(t.left) && Balanced(t.right) && Bh(t.left) == Bh(t.right)
  }

  ghost predicate NoRedRed(t: Tree) {
    t.Node? ==>
      && (t.color == Red ==> !IsRed(t.left) && !IsRed(t.right))
      && NoRedRed(t.left) && NoRedRed(t.right)
  }

  /** The red-black invariant; the root may be red. */
  ghost predicate Good(t: Tree) {
    Balanced(t) && NoRedRed(t)
  }

  // ------------------------------------------------------ where the tree lives

  ghost function Nodes(t: Tree): set<RBNode> {
    match t
    case Nil => {}
    case Node(n, l, _, _, r) => {n} + Nodes(l) + Nodes(r)
  }

  ghost predicate Distinct(t: Tree) {
    t.Node? ==>
      && Distinct(t.left) && Distinct(t.right)
      && t.nd !in Nodes(t.left) && t.nd !in Nodes(t.right)
      && Nodes(t.left) !! Nodes(t.right)
  }

  /** The heap holds `t` at `p`, below `parent`. */
  ghost predicate Rep(t: Tree, p: RBNode?, parent: RBNode?)
    reads Nodes(t)
    decreases t
  {
    match t
    case Nil => p == null
    case Node(n, l, k, c, r) =>
      && p == n
      && n.parent == parent && n.key == k && n.color == c
      && Rep(l, n.left, n) && Rep(r, n.right, n)
  }

  ghost predicate Held(t: Tree, p: RBNode?, parent: RBNode?)
    reads Nodes(t)
  {
    Rep(t, p, parent) && Distinct(t)
  }

  /** Held, whatever the root's parent link says. */
  ghost predicate Loose(t: Tree, p: RBNode?)
    reads Nodes(t)
  {
    Held(t, p, if t.Node? then t.nd.parent else null)
  }

  // ------------------------------------------------------------------- laws

  lemma {:induction false} BhPositive(t: Tree)
    ensures Bh(t) >= 1
    ensures Bh(t) == 1 && t.Node? && Balanced(t) && NoRedRed(t) ==> IsRed(t)
    decreases t
  {
    if t.Node? {
      BhPositive(t.right);
    }
  }

  lemma {:induction false} KeysNodes(t: Tree)
    requires Distinct(t)
    ensures |Nodes(t)| == |Keys(t)|
    decreases t
  {
    if t.Node? {
      KeysNodes(t.left);
      KeysNodes(t.right);
    }
  }

  lemma {:induction false} SortedParts(a: seq<int>, k: int, b: seq<int>)
    requires Sorted(a + [k] + b)
    ensures Sorted(a) && Sorted(b) && AllBelow(a, k) && AllAbove(k, b)
  {
    var s := a + [k] + b;
    assert s[|a|] == k;
    assert forall i :: 0 <= i < |a| ==> s[i] == a[i];
    assert forall i :: 0 <= i < |b| ==> s[|a| + 1 + i] == b[i];
    forall i, j | 0 <= i < j < |b| ensures b[i] < b[j] {
      assert s[|a| + 1 + i] < s[|a| + 1 + j];
    }
  }

  lemma {:induction false} SortedWhole(a: seq<int>, k: int, b: seq<int>)
    requires Sorted(a) && Sorted(b) && AllBelow(a, k) && AllAbove(k, b)
    ensures Sorted(a + [k] + b)
  {
    var s := a + [k] + b;
    forall i, j | 0 <= i < j < |s| ensures s[i] < s[j] {
      assert i > |a| ==> s[i] == b[i - |a| - 1] && s[j] == b[j - |a| - 1];
    }
  }
}
