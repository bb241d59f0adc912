/** The B-tree as a value: the shape of `BTree.hpp`'s nodes, what a tree means, and the
    ghost trees that the in-place code of BTree.dfy is proved against. */
module BTreeShape {
  import opened SortedEntries

  /** `BNode`: three vectors edited in place and a parent link. */
  class BNode {
    var parent: BNode?
    var keys: seq<int>
    var values: seq<Value>
    var vnode: seq<BNode?>

    constructor ()
      ensures parent == null && keys == [] && values == [] && vnode == []
    {
      parent, keys, values, vnode := null, [], [], [];
    }
  }

  /** A tree together with the nodes that hold it. `Nil` is a null child: leaves have
      `Nil` children, as the source's leaves have null entries in `vnode`. */
  datatype Tree =
    | Nil
    | Node(nd: BNode, keys: seq<int>, values: seq<Value>, kids: seq<Tree>)

  ghost predicate Aligned(t: Tree) {
    t.Node? ==> |t.values| == |t.keys| && |t.kids| == |t.keys| + 1
  }

  // ---------------------------------------------------------------- meaning

  /** The entries of a tree in order. */
  ghost function Flat(t: Tree): seq<Entry>
    decreases t, 0
  {
    match t
    case Nil => []
    case Node(_, ks, vs, kids) =>
      if |kids| == |ks| + 1 && |vs| == |ks| then Flat(kids[0]) + Runs(ks, vs, kids[1..]) else []
  }

  /** Each entry of a node followed by the entries of the child to its right. */
  ghost function Runs(ks: seq<int>, vs: seq<Value>, kids: seq<Tree>): seq<Entry>
    requires |ks| == |vs| == |kids|
    decreases kids, 1
  {
    if ks == [] then [] else [(ks[0], vs[0])] + Flat(kids[0]) + Runs(ks[1..], vs[1..], kids[1..])
  }

  // ------------------------------------------------------------------ shape

  function MinKeys(order: nat): int {
    (order + 1) / 2 - 1
  }

  /** Every level is `h` high, children are keys plus one, the root of `t` has between `lo`
      and `order` keys and every node below it between `MinKeys(order)` and `order`. */
  ghost predicate Shape(t: Tree, h: nat, order: nat, lo: int) {
    match t
    case Nil => h == 0
    case Node(_, ks, vs, kids) =>
      && h > 0
      && |vs| == |ks| && |kids| == |ks| + 1
      && lo <= |ks| <= order
      && forall i :: 0 <= i < |kids| ==> Shape(kids[i], h - 1, order, MinKeys(order))
  }

  /** The sizes of a B-tree in plain numbers: a root has at least one key, every other node at
      least half of `order` with one key more, none more than `order`, and every leaf hangs at the
      same depth. */
  ghost predicate Filled(t: Tree, order: nat, root: bool, depth: nat) {
    match t
    case Nil => depth == 0
    case Node(_, ks, _, kids) =>
      && depth > 0 && |kids| == |ks| + 1 && |ks| <= order
      && (if root then |ks| >= 1 else 2 * (|ks| + 1) >= order)
      && forall i :: 0 <= i < |kids| ==> Filled(kids[i], order, false, depth - 1)
  }

  lemma {:induction false} ShapeFilled(t: Tree, h: nat, order: nat, root: bool)
    requires Shape(t, h, order, if root then 1 else MinKeys(order))
    ensures Filled(t, order, root, h)
    decreases h
  {
    if t.Node? {
      forall i | 0 <= i < |t.kids| ensures Filled(t.kids[i], order, false, h - 1) {
        ShapeFilled(t.kids[i], h - 1, order, false);
      }
    }
  }

  // ------------------------------------------------------ where the tree lives

  ghost function Nodes(t: Tree): set<BNode> {
    match t
    case Nil => {}
    case Node(n, _, _, kids) => {n} + (set i, m | 0 <= i < |kids| && m in Nodes(kids[i]) :: m)
  }

  lemma {:induction false} KidInside(t: Tree, i: nat)
    requires t.Node? && i < |t.kids|
    ensures Nodes(t.kids[i]) <= Nodes(t)
  {
  }

  /** No node is used twice. */
  ghost predicate Distinct(t: Tree) {
    match t
    case Nil => true
    case Node(n, _, _, kids) =>
      && (forall i :: 0 <= i < |kids| ==> Distinct(kids[i]))
      && (forall i :: 0 <= i < |kids| ==> n !in Nodes(kids[i]))
      && (forall i, j :: 0 <= i < j < |kids| ==> Nodes(kids[i]) !! Nodes(kids[j]))
  }

  /** The heap holds `t` at `p`, below `parent`: vectors and both kinds of links agree. */
  ghost predicate Rep(t: Tree, p: BNode?, parent: BNode?)
    reads Nodes(t)
    decreases t
  {
    match t
    case Nil => p == null
    case Node(n, ks, vs, kids) =>
      && p == n
      && n.parent == parent
      && n.keys == ks && n.values == vs
      && |n.vnode| == |kids|
      && forall i :: 0 <= i < |kids| ==> (KidInside(t, i); Rep(kids[i], n.vnode[i], n))
  }

  // ---------------------------------------------------------------- contexts

  /** A tree with one subtree taken out. `Frame` is the node around the hole: the hole sits
      between the children `before` and `after`, and `up` is what surrounds that node. */
  datatype Ctx =
    | Top
    | Frame(nd: BNode, keys: seq<int>, values: seq<Value>, before: seq<Tree>, after: seq<Tree>, up: Ctx)

  ghost function Fill(c: Ctx, t: Tree): Tree
    requires c.Frame?
  {
    Node(c.nd, c.keys, c.values, c.before + [t] + c.after)
  }

  ghost function Plug(c: Ctx, t: Tree): Tree
    decreases c
  {
    match c
    case Top => t
    case Frame(_, _, _, _, _, up) => Plug(up, Fill(c, t))
  }

  /** The node above the hole. */
  function Owner(c: Ctx): BNode? {
    if c.Top? then null else c.nd
  }

  /** What `Shape` asks of everything around a hole that is filled by a tree `h` high. */
  ghost predicate ShapeCtx(c: Ctx, h: nat, order: nat)
    decreases c
  {
    match c
    case Top => true
    case Frame(_, ks, vs, bs, as_, up) =>
      && |vs| == |ks| == |bs| + |as_|
      && (if up.Top? then 1 else MinKeys(order)) <= |ks| <= order
      && (forall i :: 0 <= i < |bs| ==> Shape(bs[i], h, order, MinKeys(order)))
      && (forall i :: 0 <= i < |as_| ==> Shape(as_[i], h, order, MinKeys(order)))
      && ShapeCtx(up, h + 1, order)
  }

  ghost function Depth(c: Ctx): nat {
    if c.Top? then 0 else 1 + Depth(c.up)
  }

  /** Each child of a node followed by the entry to its right. */
  ghost function Lead(ks: seq<int>, vs: seq<Value>, kids: seq<Tree>): seq<Entry>
    requires |ks| == |vs| == |kids|
  {
    if ks == [] then [] else Flat(kids[0]) + [(ks[0], vs[0])] + Lead(ks[1..], vs[1..], kids[1..])
  }

  ghost predicate AlignedCtx(c: Ctx) {
    c.Frame? ==> |c.values| == |c.keys| == |c.before| + |c.after| && AlignedCtx(c.up)
  }

  /** The entries to the left and to the right of the hole. */
  ghost function Before(c: Ctx): seq<Entry>
    requires AlignedCtx(c)
  {
    match c
    case Top => []
    case Frame(_, ks, vs, bs, _, up) => Before(up) + Lead(ks[..|bs|], vs[..|bs|], bs)
  }

  ghost function After(c: Ctx): seq<Entry>
    requires AlignedCtx(c)
  {
    match c
    case Top => []
    case Frame(_, ks, vs, bs, as_, up) => Runs(ks[|bs|..], vs[|bs|..], as_) + After(up)
  }

  // --------------------------------------------------------- laws of meaning

  lemma {:induction false} RunsAppend(ks: seq<int>, vs: seq<Value>, kids: seq<Tree>,
                                      ks': seq<int>, vs': seq<Value>, kids': seq<Tree>)
    requires |ks| == |vs| == |kids| && |ks'| == |vs'| == |kids'|
    ensures Runs(ks + ks', vs + vs', kids + kids') == Runs(ks, vs, kids) + Runs(ks', vs', kids')
    decreases |ks|
  {
    if ks == [] {
      assert ks + ks' == ks' && vs + vs' == vs' && kids + kids' == kids';
    } else {
      RunsAppend(ks[1..], vs[1..], kids[1..], ks', vs', kids');
      assert (ks + ks')[1..] == ks[1..] + ks';
      assert (vs + vs')[1..] == vs[1..] + vs';
      assert (kids + kids')[1..] == kids[1..] + kids';
    }
  }

  lemma {:induction false} Assoc(a: seq<Entry>, b: seq<Entry>, c: seq<Entry>)
    ensures (a + b) + c == a + (b + c)
  {
  }

  lemma {:induction false} Shift(a: seq<Entry>, b: seq<Entry>, c: seq<Entry>, d: seq<Entry>, e: seq<Entry>,
                                 f: seq<Entry>)
    requires c + d == e + f
    ensures (a + b + c) + d == a + (b + e + f)
  {
    assert (a + b + c) + d == a + b + (c + d);
    assert a + b + (e + f) == a + (b + e + f);
  }

  lemma {:induction false} LeadIsFlat(ks: seq<int>, vs: seq<Value>, kids: seq<Tree>, t: Tree)
    requires |ks| == |vs| == |kids|
    ensures Lead(ks, vs, kids) + Flat(t) == Flat((kids + [t])[0]) + Runs(ks, vs, (kids + [t])[1..])
    decreases |ks|
  {
    var all := kids + [t];
    if ks == [] {
      assert all == [t];
    } else {
      LeadIsFlat(ks[1..], vs[1..], kids[1..], t);
      var rest := kids[1..] + [t];
      assert all[1..] == rest && all[0] == kids[0];
      Shift(Flat(kids[0]), [(ks[0], vs[0])], Lead(ks[1..], vs[1..], kids[1..]), Flat(t),
            Flat(rest[0]), Runs(ks[1..], vs[1..], rest[1..]));
    }
  }

  lemma {:induction false} Regroup(a: seq<Entry>, b: seq<Entry>, c: seq<Entry>, d: seq<Entry>, e: seq<Entry>)
    ensures a + (b + c + d) + e == (a + b) + c + (d + e)
  {
  }

  lemma {:induction false} FlatAround(ks: seq<int>, vs: seq<Value>, kids: seq<Tree>, t: Tree,
                   ks': seq<int>, vs': seq<Value>, kids': seq<Tree>)
    requires |ks| == |vs| == |kids| && |ks'| == |vs'| == |kids'|
    ensures Flat((kids + [t])[0]) + Runs(ks + ks', vs + vs', (kids + [t])[1..] + kids')
         == Lead(ks, vs, kids) + Flat(t) + Runs(ks', vs', kids')
  {
    var first, rest := (kids + [t])[0], (kids + [t])[1..];
    calc {
      Flat(first) + Runs(ks + ks', vs + vs', rest + kids');
      { RunsAppend(ks, vs, rest, ks', vs', kids'); }
      Flat(first) + (Runs(ks, vs, rest) + Runs(ks', vs', kids'));
      { Assoc(Flat(first), Runs(ks, vs, rest), Runs(ks', vs', kids')); }
      (Flat(first) + Runs(ks, vs, rest)) + Runs(ks', vs', kids');
      { LeadIsFlat(ks, vs, kids, t); }
      Lead(ks, vs, kids) + Flat(t) + Runs(ks', vs', kids');
    }
  }

  lemma {:induction false} FlatFill(c: Ctx, t: Tree)
    requires c.Frame? && AlignedCtx(c)
    ensures Flat(Fill(c, t)) ==
            Lead(c.keys[..|c.before|], c.values[..|c.before|], c.before) + Flat(t) +
            Runs(c.keys[|c.before|..], c.values[|c.before|..], c.after)
  {
    var n := |c.before|;
    FlatAround(c.keys[..n], c.values[..n], c.before, t, c.keys[n..], c.values[n..], c.after);
    assert c.keys[..n] + c.keys[n..] == c.keys;
    assert c.values[..n] + c.values[n..] == c.values;
    var lead, all := c.before + [t], c.before + [t] + c.after;
    assert all[0] == lead[0] && all[1..] == lead[1..] + c.after;
  }

  /** A tree means what is left of the hole, what is in it, and what is right of it. */
  lemma {:induction false} FlatPlug(c: Ctx, t: Tree)
    requires AlignedCtx(c)
    ensures Flat(Plug(c, t)) == Before(c) + Flat(t) + After(c)
    decreases c
  {
    if c.Frame? {
      FlatPlug(c.up, Fill(c, t));
      FlatFill(c, t);
      var n := |c.before|;
      var l := Lead(c.keys[..n], c.values[..n], c.before);
      var r := Runs(c.keys[n..], c.values[n..], c.after);
      Regroup(Before(c.up), l, Flat(t), r, After(c.up));
    }
  }

  lemma {:induction false} ShapePlug(c: Ctx, t: Tree, h: nat, order: nat)
    requires ShapeCtx(c, h, order)
    requires Shape(t, h, order, if c.Top? then 1 else MinKeys(order))
    ensures Shape(Plug(c, t), h + Depth(c), order, 1)
    decreases c
  {
    if c.Frame? {
      var T := Fill(c, t);
      forall i | 0 <= i < |T.kids| ensures Shape(T.kids[i], h, order, MinKeys(order)) {
        if i < |c.before| {
          assert T.kids[i] == c.before[i];
        } else if i > |c.before| {
          assert T.kids[i] == c.after[i - |c.before| - 1];
        }
      }
      ShapePlug(c.up, T, h + 1, order);
    }
  }

  lemma {:induction false} ShapeCtxAligned(c: Ctx, h: nat, order: nat)
    requires ShapeCtx(c, h, order)
    ensures AlignedCtx(c)
    decreases c
  {
    if c.Frame? {
      ShapeCtxAligned(c.up, h + 1, order);
    }
  }

  // ----------------------------------------------------- laws of the heap part

  ghost function NodesCtx(c: Ctx): set<BNode>
    decreases c
  {
    match c
    case Top => {}
    case Frame(_, _, _, _, _, up) => Nodes(Fill(c, Nil)) + NodesCtx(up)
  }

  ghost predicate DistinctCtx(c: Ctx)
    decreases c
  {
    match c
    case Top => true
    case Frame(_, _, _, _, _, up) =>
      && Distinct(Fill(c, Nil))
      && Nodes(Fill(c, Nil)) !! NodesCtx(up)
      && DistinctCtx(up)
  }

  /** The heap holds the context: `root` is where the whole tree is, `h` the link in the hole. */
  ghost predicate RepCtx(c: Ctx, h: BNode?, root: BNode?)
    reads NodesCtx(c)
    decreases c
  {
    match c
    case Top => h == root
    case Frame(n, ks, vs, bs, _, up) =>
      var S := Fill(c, Nil);
      && n.parent == Owner(up)
      && n.keys == ks && n.values == vs
      && |n.vnode| == |S.kids|
      && n.vnode[|bs|] == h
      && (forall i :: 0 <= i < |S.kids| && i != |bs| ==> (KidInside(S, i); Rep(S.kids[i], n.vnode[i], n)))
      && RepCtx(up, n, root)
  }

  /** A tree cut in two at a hole: context and subtree live in separate parts of the heap. */
  ghost predicate Cut(c: Ctx, t: Tree, h: BNode?, root: BNode?)
    reads NodesCtx(c), Nodes(t)
  {
    && DistinctCtx(c) && Distinct(t)
    && NodesCtx(c) !! Nodes(t)
    && RepCtx(c, h, root)
    && Rep(t, h, Owner(c))
  }

  lemma {:induction false} KidsOfFill(c: Ctx, t: Tree)
    requires c.Frame?
    ensures |Fill(c, t).kids| == |c.before| + 1 + |c.after|
    ensures forall i :: 0 <= i < |c.before| ==> Fill(c, t).kids[i] == c.before[i]
    ensures Fill(c, t).kids[|c.before|] == t
    ensures forall i :: |c.before| < i < |Fill(c, t).kids| ==> Fill(c, t).kids[i] == c.after[i - |c.before| - 1]
  {
  }

  lemma {:induction false} NodesFill(c: Ctx, t: Tree)
    requires c.Frame?
    ensures Nodes(Fill(c, t)) == Nodes(Fill(c, Nil)) + Nodes(t)
    ensures c.nd in Nodes(Fill(c, Nil))
  {
    var m := |c.before|;
    var S, T := Fill(c, Nil), Fill(c, t);
    KidsOfFill(c, t);
    KidsOfFill(c, Nil);
    forall n | n in Nodes(T) ensures n in Nodes(S) + Nodes(t) {
      if n != c.nd {
        var i :| 0 <= i < |T.kids| && n in Nodes(T.kids[i]);
        if i != m { assert n in Nodes(S.kids[i]); }
      }
    }
    forall n | n in Nodes(S) + Nodes(t) ensures n in Nodes(T) {
      if n in Nodes(t) {
        assert n in Nodes(T.kids[m]);
      } else if n != c.nd {
        var i :| 0 <= i < |S.kids| && n in Nodes(S.kids[i]);
        assert n in Nodes(T.kids[i]);
      }
    }
  }

  lemma {:induction false} DistinctFill(c: Ctx, t: Tree)
    requires c.Frame?
    ensures Distinct(Fill(c, t)) <==>
            Distinct(Fill(c, Nil)) && Distinct(t) && Nodes(t) !! Nodes(Fill(c, Nil))
  {
    var m := |c.before|;
    var S, T := Fill(c, Nil), Fill(c, t);
    KidsOfFill(c, t);
    KidsOfFill(c, Nil);
    if Distinct(T) {
      assert Distinct(T.kids[m]);
      forall i | 0 <= i < |S.kids| ensures Distinct(S.kids[i]) && c.nd !in Nodes(S.kids[i]) {
        if i != m { assert S.kids[i] == T.kids[i]; }
      }
      forall i, j | 0 <= i < j < |S.kids| ensures Nodes(S.kids[i]) !! Nodes(S.kids[j]) {
        if i != m && j != m { assert S.kids[i] == T.kids[i] && S.kids[j] == T.kids[j]; }
      }
      forall n | n in Nodes(t) ensures n !in Nodes(S) {
        assert n in Nodes(T.kids[m]);
        forall i | 0 <= i < |S.kids| ensures n !in Nodes(S.kids[i]) {
          if i != m { assert S.kids[i] == T.kids[i]; }
        }
      }
    }
    if Distinct(S) && Distinct(t) && Nodes(t) !! Nodes(S) {
      forall i | 0 <= i < |T.kids| ensures Distinct(T.kids[i]) && c.nd !in Nodes(T.kids[i]) {
        if i != m { assert S.kids[i] == T.kids[i]; }
      }
      forall i, j | 0 <= i < j < |T.kids| ensures Nodes(T.kids[i]) !! Nodes(T.kids[j]) {
        if i == m {
          assert Nodes(S.kids[j]) <= Nodes(S);
        } else if j == m {
          assert Nodes(S.kids[i]) <= Nodes(S);
        } else {
          assert S.kids[i] == T.kids[i] && S.kids[j] == T.kids[j];
        }
      }
    }
  }

  lemma {:induction false} RepFill(c: Ctx, t: Tree, h: BNode?, root: BNode?)
    requires c.Frame?
    requires RepCtx(c, h, root) && Rep(t, h, Owner(c))
    ensures Rep(Fill(c, t), c.nd, Owner(c.up))
  {
    var S, T := Fill(c, Nil), Fill(c, t);
    KidsOfFill(c, t);
    KidsOfFill(c, Nil);
    forall i | 0 <= i < |T.kids| ensures Rep(T.kids[i], c.nd.vnode[i], c.nd) {
      if i != |c.before| {
        assert T.kids[i] == S.kids[i];
      }
    }
  }

  /** Move the cut one level up. */
  lemma {:induction false} CutUp(c: Ctx, t: Tree, h: BNode?, root: BNode?)
    requires Cut(c, t, h, root) && c.Frame?
    ensures Cut(c.up, Fill(c, t), c.nd, root)
    ensures Plug(c.up, Fill(c, t)) == Plug(c, t)
  {
    NodesFill(c, t);
    DistinctFill(c, t);
    RepFill(c, t, h, root);
  }

  function Enter(c: Ctx, t: Tree, i: nat): Ctx
    requires t.Node? && i < |t.kids|
  {
    Frame(t.nd, t.keys, t.values, t.kids[..i], t.kids[i + 1..], c)
  }

  /** Move the cut down into child `i`. */
  lemma {:induction false} CutDown(c: Ctx, t: Tree, h: BNode?, root: BNode?, i: nat)
    requires Cut(c, t, h, root) && t.Node? && i < |t.kids|
    ensures Cut(Enter(c, t, i), t.kids[i], t.nd.vnode[i], root)
    ensures Plug(Enter(c, t, i), t.kids[i]) == Plug(c, t)
  {
    var d := Enter(c, t, i);
    FillEnter(c, t, i);
    NodesFill(d, t.kids[i]);
    DistinctFill(d, t.kids[i]);
    RepEnter(c, t, h, root, i);
  }

  lemma {:induction false} FillEnter(c: Ctx, t: Tree, i: nat)
    requires t.Node? && i < |t.kids|
    ensures Fill(Enter(c, t, i), t.kids[i]) == t
  {
    assert t.kids[..i] + [t.kids[i]] + t.kids[i + 1..] == t.kids;
  }

  lemma {:induction false} RepEnter(c: Ctx, t: Tree, h: BNode?, root: BNode?, i: nat)
    requires t.Node? && i < |t.kids|
    requires RepCtx(c, h, root) && Rep(t, h, Owner(c))
    ensures RepCtx(Enter(c, t, i), t.nd.vnode[i], root)
  {
    var d := Enter(c, t, i);
    var S := Fill(d, Nil);
    KidsOfFill(d, Nil);
    forall j | 0 <= j < |S.kids| && j != i
      ensures Rep(S.kids[j], t.nd.vnode[j], t.nd)
    {
      assert S.kids[j] == t.kids[j];
    }
  }

  /** Close the cut again: the frame rule. */
  lemma {:induction false} CutClose(c: Ctx, t: Tree, h: BNode?, root: BNode?)
    requires Cut(c, t, h, root)
    ensures Rep(Plug(c, t), root, null) && Distinct(Plug(c, t))
    ensures Nodes(Plug(c, t)) == NodesCtx(c) + Nodes(t)
    decreases c
  {
    if c.Frame? {
      CutUp(c, t, h, root);
      CutClose(c.up, Fill(c, t), c.nd, root);
      NodesFill(c, t);
    }
  }

  // ------------------------------------------------- counting nodes, to keep them distinct

  ghost function Bag(t: Tree): multiset<BNode> {
    match t
    case Nil => multiset{}
    case Node(n, _, _, kids) => multiset{n} + BagOf(kids)
  }

  ghost function BagOf(kids: seq<Tree>): multiset<BNode> {
    if kids == [] then multiset{} else Bag(kids[0]) + BagOf(kids[1..])
  }

  lemma {:induction false} BagAppend(a: seq<Tree>, b: seq<Tree>)
    ensures BagOf(a + b) == BagOf(a) + BagOf(b)
    decreases |a|
  {
    if a == [] {
      assert a + b == b;
    } else {
      assert (a + b)[1..] == a[1..] + b;
      BagAppend(a[1..], b);
    }
  }

  lemma {:induction false} BagAt(kids: seq<Tree>, i: nat, n: BNode)
    requires i < |kids|
    ensures Bag(kids[i])[n] <= BagOf(kids)[n]
    decreases i
  {
    assert BagOf(kids)[n] == Bag(kids[0])[n] + BagOf(kids[1..])[n];
    if i > 0 {
      assert kids[1..][i - 1] == kids[i];
      BagAt(kids[1..], i - 1, n);
    }
  }

  lemma {:induction false} BagPair(kids: seq<Tree>, i: nat, j: nat, n: BNode)
    requires i < j < |kids|
    ensures Bag(kids[i])[n] + Bag(kids[j])[n] <= BagOf(kids)[n]
    decreases i
  {
    assert BagOf(kids)[n] == Bag(kids[0])[n] + BagOf(kids[1..])[n];
    assert kids[1..][j - 1] == kids[j];
    if i == 0 {
      BagAt(kids[1..], j - 1, n);
    } else {
      assert kids[1..][i - 1] == kids[i];
      BagPair(kids[1..], i - 1, j - 1, n);
    }
  }

  lemma {:induction false} BagOfMember(kids: seq<Tree>, n: BNode)
    requires n in BagOf(kids)
    ensures exists i :: 0 <= i < |kids| && n in Bag(kids[i])
    decreases |kids|
  {
    if n !in Bag(kids[0]) {
      BagOfMember(kids[1..], n);
      var i :| 0 <= i < |kids[1..]| && n in Bag(kids[1..][i]);
      assert n in Bag(kids[i + 1]);
    }
  }

  lemma {:induction false} BagNodes(t: Tree, n: BNode)
    ensures n in Nodes(t) <==> n in Bag(t)
    decreases t
  {
    if t.Node? {
      forall i | 0 <= i < |t.kids| ensures n in Nodes(t.kids[i]) <==> n in Bag(t.kids[i]) {
        BagNodes(t.kids[i], n);
      }
      if n in BagOf(t.kids) {
        BagOfMember(t.kids, n);
      }
      forall i | 0 <= i < |t.kids| && n in Bag(t.kids[i]) ensures n in BagOf(t.kids) {
        BagAt(t.kids, i, n);
      }
    }
  }

  ghost predicate Once(b: multiset<BNode>) {
    forall n :: n in b ==> b[n] <= 1
  }

  lemma {:induction false} OnceLess(a: multiset<BNode>, b: multiset<BNode>)
    requires Once(a) && b <= a
    ensures Once(b)
  {
    forall n | n in b ensures b[n] <= 1 {
      assert b[n] <= a[n];
    }
  }

  lemma {:induction false} OnceIsDistinct(t: Tree)
    requires Once(Bag(t))
    ensures Distinct(t)
    decreases t
  {
    if t.Node? {
      forall i | 0 <= i < |t.kids| ensures Distinct(t.kids[i]) && t.nd !in Nodes(t.kids[i]) {
        forall n | n in Bag(t.kids[i]) ensures Bag(t.kids[i])[n] <= 1 {
          BagAt(t.kids, i, n);
          assert BagOf(t.kids)[n] <= Bag(t)[n];
        }
        BagAt(t.kids, i, t.nd);
        assert BagOf(t.kids)[t.nd] + 1 == Bag(t)[t.nd];
        OnceIsDistinct(t.kids[i]);
        BagNodes(t.kids[i], t.nd);
      }
      forall i, j | 0 <= i < j < |t.kids| ensures Nodes(t.kids[i]) !! Nodes(t.kids[j]) {
        forall n | n in Nodes(t.kids[i]) ensures n !in Nodes(t.kids[j]) {
          BagPair(t.kids, i, j, n);
          assert BagOf(t.kids)[n] <= Bag(t)[n] <= 1;
          BagNodes(t.kids[i], n);
          BagNodes(t.kids[j], n);
        }
      }
    }
  }

  lemma {:induction false} DistinctIsOnce(t: Tree)
    requires Distinct(t)
    ensures Once(Bag(t))
    decreases t, 1
  {
    if t.Node? {
      forall n | n in Bag(t) ensures Bag(t)[n] <= 1 {
        DistinctCount(t, |t.kids|, n);
        assert t.kids[..|t.kids|] == t.kids;
      }
    }
  }

  lemma {:induction false} DistinctCount(t: Tree, m: nat, n: BNode)
    requires Distinct(t) && t.Node? && m <= |t.kids|
    ensures BagOf(t.kids[..m])[n] <= if n == t.nd then 0 else 1
    ensures n in BagOf(t.kids[..m]) ==> exists i :: 0 <= i < m && n in Nodes(t.kids[i])
    decreases t, 0, m
  {
    if m > 0 {
      DistinctCount(t, m - 1, n);
      var k := t.kids[m - 1];
      assert t.kids[..m] == t.kids[..m - 1] + [k];
      BagAppend(t.kids[..m - 1], [k]);
      assert BagOf([k]) == Bag(k);
      DistinctIsOnce(k);
      BagNodes(k, n);
      if n in Nodes(k) {
        assert n !in BagOf(t.kids[..m - 1]);
      }
    }
  }

  /** Rearranging the same nodes keeps them distinct. */
  lemma {:induction false} SameBag(t: Tree, u: Tree)
    requires Distinct(t) && Bag(u) <= Bag(t)
    ensures Distinct(u) && Nodes(u) <= Nodes(t)
  {
    DistinctIsOnce(t);
    OnceLess(Bag(t), Bag(u));
    OnceIsDistinct(u);
    forall n | n in Nodes(u) ensures n in Nodes(t) {
      BagNodes(u, n);
      BagNodes(t, n);
    }
  }
}
