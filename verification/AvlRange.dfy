/** Successors and ranges of `AVLtree` in Data_structures/AVLTree.hpp. */
module AvlRange {
  import opened Sides
  import opened SortedEntries
  import opened AvlShape
  import opened AvlTreeModel

  /** The place of a subtree's root among all entries. */
  ghost function Index(s: Spot): nat {
    |Before(s.c)| + if s.t.Nil? then 0 else |Flat(s.t.left)|
  }

  /** The node `x` is at `s` in `T`, its entry at place `i`. */
  ghost predicate At(T: Tree, s: Spot, x: AvlNode?, i: nat) {
    Plug(s.c, s.t) == T && s.t.Node? && s.t.nd == x && i == Index(s)
  }

  ghost predicate Tidy(a: AvlTree, T: Tree)
    reads a, Nodes(T)
  {
    Held(T, a.tree, a.heightb) && Sorted(Flat(T))
  }

  /** The heap around any place of a tree it holds. */
  lemma {:induction false} CutOpen(c: Ctx, t: Tree, root: AvlNode?, hb: map<AvlNode, int>)
    requires Held(Plug(c, t), root, hb)
    ensures Cut(c, t, if t.Node? then t.nd else null, root, hb)
    decreases c
  {
    if c.Frame? {
      CutOpen(c.up, Fill(c, t), root, hb);
      CutDown(c.up, Fill(c, t), c.nd, root, hb, c.d);
      assert Enter(c.up, Fill(c, t), c.d) == c;
    }
  }

  lemma {:induction false} EntryAt(T: Tree, s: Spot, x: AvlNode?, i: nat)
    requires At(T, s, x, i)
    ensures i < |Flat(T)| && Flat(T)[i] == EntryOf(s.t.nd)
  {
    FlatPlug(s.c, s.t);
    var a, l, e, r, b := Before(s.c), Flat(s.t.left), EntryOf(s.t.nd), Flat(s.t.right), After(s.c);
    assert a + (l + [e] + r) + b == (a + l) + [e] + (r + b);
  }

  /** In a sorted tree the place tells the node. */
  lemma {:induction false} OneAt(T: Tree, s: Spot, x: AvlNode?, i: nat, s': Spot, x': AvlNode?, i': nat)
    requires At(T, s, x, i) && At(T, s', x', i') && Sorted(Flat(T))
    ensures i == i' <==> x == x'
  {
    EntryAt(T, s, x, i);
    EntryAt(T, s', x', i');
    SeekFinds(s.c, s.t);
    SeekFinds(s'.c, s'.t);
  }

  /** The first entry of a subtree. */
  method Leftmost(a: AvlTree, start: AvlNode, ghost T: Tree, ghost s0: Spot)
    returns (y: AvlNode, ghost s: Spot)
    requires Tidy(a, T) && At(T, s0, start, Index(s0))
    ensures At(T, s, y, |Before(s0.c)|)
  {
    y, s := start, s0;
    Links(a, T, s, y);
    while y.left != null
      invariant Tidy(a, T) && At(T, s, y, Index(s)) && Before(s.c) == Before(s0.c)
      invariant y.left == RootOf(s.t.left)
      decreases s.t
    {
      s, y := Spot(Enter(s.c, s.t, Left), s.t.left), y.left;
      Links(a, T, s, y);
    }
  }

  function RootOf(t: Tree): AvlNode? { if t.Node? then t.nd else null }

  /** What the fields of a node say. */
  lemma {:induction false} Links(a: AvlTree, T: Tree, s: Spot, x: AvlNode)
    requires Tidy(a, T) && At(T, s, x, Index(s))
    ensures x.left == RootOf(s.t.left) && x.right == RootOf(s.t.right)
    ensures Plug(Enter(s.c, s.t, Left), s.t.left) == T && Plug(Enter(s.c, s.t, Right), s.t.right) == T
  {
    CutOpen(s.c, s.t, a.tree, a.heightb);
    CutDown(s.c, s.t, x, a.tree, a.heightb, Left);
    CutDown(s.c, s.t, x, a.tree, a.heightb, Right);
  }

  /** `bst_succesor`: the next node in order, or null after the last one. */
  method BstSuccessor(a: AvlTree, x: AvlNode, ghost T: Tree, ghost s0: Spot, ghost i: nat)
    returns (y: AvlNode?, ghost s: Spot)
    requires Tidy(a, T) && At(T, s0, x, i)
    ensures if y == null then i + 1 == |Flat(T)| else i + 1 < |Flat(T)| && At(T, s, y, i + 1)
  {
    Links(a, T, s0, x);
    if x.right != null {
      y, s := Leftmost(a, x.right, T, Spot(Enter(s0.c, s0.t, Right), s0.t.right));
      EntryAt(T, s, y, i + 1);
    } else {
      y, s := Upward(a, x, T, s0, i);
    }
  }

  /** The node above, and on which side of it `x` is. */
  method Parent(a: AvlTree, x: AvlNode, ghost T: Tree, ghost s: Spot) returns (g: AvlNode?)
    requires Tidy(a, T) && At(T, s, x, Index(s))
    ensures g == Owner(s.c) && (g != null ==> (g.right == x <==> s.c.d == Right))
    ensures g != null ==> At(T, Spot(s.c.up, Fill(s.c, s.t)), g, Index(Spot(s.c.up, Fill(s.c, s.t))))
  {
    assert allocated(Nodes(T));
    CutOpen(s.c, s.t, a.tree, a.heightb);
    g := a.Parent(x, s.c, s.t);
  }

  /** Up to the first node that is entered from its left. */
  method Upward(a: AvlTree, x: AvlNode, ghost T: Tree, ghost s0: Spot, ghost i: nat)
    returns (y: AvlNode?, ghost s: Spot)
    requires Tidy(a, T) && At(T, s0, x, i) && s0.t.right.Nil?
    ensures if y == null then i + 1 == |Flat(T)| else i + 1 < |Flat(T)| && At(T, s, y, i + 1)
  {
    assert allocated(Nodes(T));
    var x2: AvlNode? := x;
    s := s0;
    y := Parent(a, x, T, s);
    while y != null && y.right == x2
      invariant Tidy(a, T) && At(T, s, x2, Index(s)) && |Before(s.c)| + |Flat(s.t)| == i + 1
      invariant y == Owner(s.c) && (y != null ==> (y.right == x2 <==> s.c.d == Right))
      invariant y != null ==> At(T, Spot(s.c.up, Fill(s.c, s.t)), y, Index(Spot(s.c.up, Fill(s.c, s.t))))
      decreases s.c
    {
      x2, s := y, Spot(s.c.up, Fill(s.c, s.t));
      y := Parent(a, x2, T, s);
    }
    FlatPlug(s.c, s.t);
    if y != null {
      s := Spot(s.c.up, Fill(s.c, s.t));
      EntryAt(T, s, y, i + 1);
    }
  }

  /** Exactly the entries from `lo` to `hi`, in order. */
  ghost predicate Between(res: seq<Entry>, s: seq<Entry>, lo: int, hi: int) {
    Sorted(res) && (forall i :: 0 <= i < |res| ==> res[i] in s && lo <= res[i].0 <= hi)
    && forall i :: 0 <= i < |s| && lo <= s[i].0 <= hi ==> s[i] in res
  }

  lemma {:induction false} InMiddle(s: seq<Entry>, i: nat, j: nat, res: seq<Entry>)
    requires Sorted(s) && i <= j < |s| && res == s[i..j] + [s[j]]
    ensures Between(res, s, s[i].0, s[j].0)
  {
    assert res == s[i..j + 1];
    forall m | 0 <= m < |s| && s[i].0 <= s[m].0 <= s[j].0 ensures s[m] in res { assert res[m - i] == s[m]; }
  }

  /** `inorder_range_traversal`: the entries from `lo` to `hi`, if both keys are there.  If they
      are in the wrong order, the walk steps off the last node. */
  method InorderRangeTraversal(a: AvlTree, lo: int, hi: int, ghost T: Tree) returns (ran: bool, res: seq<Entry>)
    requires Tidy(a, T)
    ensures ran <==> lo !in ToMap(Flat(T)) || hi !in ToMap(Flat(T)) || lo <= hi
    ensures lo !in ToMap(Flat(T)) || hi !in ToMap(Flat(T)) ==> res == []
    ensures lo in ToMap(Flat(T)) && hi in ToMap(Flat(T)) && lo <= hi ==> Between(res, Flat(T), lo, hi)
  {
    assert allocated(Nodes(T));
    var t1 := FindNode(a, lo, T);
    var t2 := FindNode(a, hi, T);
    ran, res := true, [];
    if t1 != null && t2 != null {
      ran, res := Walk(a, t1, t2, T, Seek(Top, T, lo), Seek(Top, T, hi));
    }
  }

  method FindNode(a: AvlTree, k: int, ghost T: Tree) returns (n: AvlNode?)
    requires Tidy(a, T)
    ensures n == null <==> k !in ToMap(Flat(T))
    ensures n != null ==> n.key == k && At(T, Seek(Top, T, k), n, Index(Seek(Top, T, k)))
  {
    var above;
    n, above := a.Search(k, a.tree, null, Top, T);
    Present(T, k);
  }

  /** A key is in the map if and only if the search ends at its node. */
  lemma {:induction false} Present(T: Tree, k: int)
    requires Sorted(Flat(T))
    ensures var s := Seek(Top, T, k);
      Plug(s.c, s.t) == T && (s.t.Node? ==> s.t.nd.key == k) && (k in ToMap(Flat(T)) <==> s.t.Node?)
  {
    var s := Seek(Top, T, k);
    SeekSides(Top, T, k);
    FlatPlug(s.c, s.t);
    InMap(Flat(T), k);
    if s.t.Node? { EntryAt(T, s, s.t.nd, Index(s)); } else { NotAround(Before(s.c), After(s.c), k); }
  }

  lemma {:induction false} NotAround(a: seq<Entry>, b: seq<Entry>, k: int)
    requires AllBelow(a, k) && AllAbove(k, b)
    ensures forall i :: 0 <= i < |a + [] + b| ==> (a + [] + b)[i].0 != k
  {
  }

  /** From `t1` on until `t2` comes, or off the last node. */
  method Walk(a: AvlTree, t1: AvlNode, t2: AvlNode, ghost T: Tree, ghost s1: Spot, ghost s2: Spot)
    returns (ran: bool, res: seq<Entry>)
    requires Tidy(a, T) && At(T, s1, t1, Index(s1)) && At(T, s2, t2, Index(s2))
    ensures ran <==> t1.key <= t2.key
    ensures ran ==> Between(res, Flat(T), t1.key, t2.key)
  {
    ghost var i, j, m, s := Index(s1), Index(s2), Index(s1), s1;
    assert allocated(Nodes(T));
    EntryAt(T, s1, t1, i);
    EntryAt(T, s2, t2, j);
    var x := t1;
    ran, res := true, [];
    while x != t2
      invariant Tidy(a, T) && i <= m < |Flat(T)| && (i <= j ==> m <= j) && At(T, s, x, m) && res == Flat(T)[i..m]
      decreases |Flat(T)| - m
    {
      OneAt(T, s, x, m, s2, t2, j);
      var y;
      y, s, res := Onward(a, x, T, s, i, m, res);
      if y == null { return false, res; }
      x := y;
      m := m + 1;
    }
    OneAt(T, s, x, m, s2, t2, j);
    res := res + [(t2.key, t2.val)];
    InMiddle(Flat(T), i, j, res);
  }

  method Onward(a: AvlTree, x: AvlNode, ghost T: Tree, ghost s: Spot, ghost i: nat, ghost m: nat, res: seq<Entry>)
    returns (y: AvlNode?, ghost s': Spot, res': seq<Entry>)
    requires Tidy(a, T) && At(T, s, x, m) && i <= m < |Flat(T)| && res == Flat(T)[i..m]
    ensures if y == null then m + 1 == |Flat(T)| else m + 1 < |Flat(T)| && At(T, s', y, m + 1)
    ensures res' == Flat(T)[i..m + 1]
  {
    EntryAt(T, s, x, m);
    res' := res + [(x.key, x.val)];
    y, s' := BstSuccessor(a, x, T, s, m);
  }
}
