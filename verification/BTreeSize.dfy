/** How many entries a B-tree of a given height must hold, and the in-order listing. */
module BTreeSize {
  import opened SortedEntries
  import opened BTreeShape
  import opened BTreeSteps
  import opened BTreeEntries
  import opened BTreeModel

  ghost function Pow(b: nat, e: nat): nat {
    if e == 0 then 1 else b * Pow(b, e - 1)
  }

  /** Entries after a run of keys, counted with the children. */
  lemma {:induction false} RunsSize(ks: seq<int>, vs: seq<Value>, kids: seq<Tree>, least: nat)
    requires |ks| == |vs| == |kids|
    requires forall i :: 0 <= i < |kids| ==> |Flat(kids[i])| + 1 >= least
    ensures |Runs(ks, vs, kids)| >= |ks| * least
    decreases |ks|
  {
    if ks != [] {
      RunsSize(ks[1..], vs[1..], kids[1..], least);
      OneMore(|ks|, least);
    }
  }

  lemma {:induction false} OneMore(n: nat, c: nat)
    requires n > 0
    ensures n * c == c + (n - 1) * c
  {
  }

  /** A subtree `h` high holds at least `Pow((order + 1) / 2, h) - 1` entries. */
  lemma {:induction false} SubtreeSize(t: Tree, h: nat, order: nat)
    requires order >= 3 && Shape(t, h, order, MinKeys(order))
    ensures |Flat(t)| + 1 >= Pow((order + 1) / 2, h)
    decreases t
  {
    if t.Node? {
      NodeSize(t, h, order, MinKeys(order));
    }
  }

  lemma {:induction false} NodeSize(t: Tree, h: nat, order: nat, lo: nat)
    requires order >= 3 && t.Node? && Shape(t, h, order, lo)
    ensures |Flat(t)| + 1 >= (lo + 1) * Pow((order + 1) / 2, h - 1)
    decreases t, 0
  {
    var least := Pow((order + 1) / 2, h - 1);
    forall i | 0 <= i < |t.kids| ensures |Flat(t.kids[i])| + 1 >= least {
      SubtreeSize(t.kids[i], h - 1, order);
    }
    RunsSize(t.keys, t.values, t.kids[1..], least);
    assert |Flat(t)| == |Flat(t.kids[0])| + |Runs(t.keys, t.values, t.kids[1..])|;
    Times(|t.keys|, lo, least);
  }

  lemma {:induction false} Times(a: nat, b: nat, c: nat)
    requires a >= b
    ensures a * c + c >= (b + 1) * c
  {
    assert a * c >= b * c;
  }

  /** A tree of `h` levels holds at least `2 * ((order + 1) / 2)^(h - 1) - 1` entries, which
      bounds the levels a search goes through. */
  lemma {:induction false} TreeSize(t: Tree, root: BNode?, h: nat, order: nat)
    requires order >= 3 && GoodTree(t, root, h, order) && root != null
    ensures h >= 1 && |ToMap(Flat(t))| + 1 >= 2 * Pow((order + 1) / 2, h - 1)
  {
    NodeSize(t, h, order, 1);
    MapSize(Flat(t));
  }

  lemma {:induction false} MapSize(s: seq<Entry>)
    requires Sorted(s)
    ensures |ToMap(s)| == |s|
    decreases |s|
  {
    if s != [] {
      var r := s[1..];
      MapSize(r);
      assert AllAbove(s[0].0, r);
      NotInMap(r, s[0].0);
      assert ToMap(s) == ToMap(r)[s[0].0 := s[0].1];
    }
  }

  // ---------------------------------------------------------------- listing

  /** `flatten_tree`: the entries below `node`, appended in order. */
  method FlattenTree(node: BNode?, out: seq<Entry>, ghost t: Tree, ghost parent: BNode?, ghost h: nat,
                     ghost order: nat, ghost lo: int)
    returns (res: seq<Entry>)
    requires Rep(t, node, parent) && Shape(t, h, order, lo)
    ensures res == out + Flat(t)
    decreases t, 1
  {
    if node == null {
      return out;
    }
    res := out;
    for i := 0 to |node.keys|
      invariant Rep(t, node, parent)
      invariant res == out + Lead(t.keys[..i], t.values[..i], t.kids[..i])
    {
      ghost var was := res;
      res := FlattenChild(node, i, res, t, parent, h, order, lo);
      res := res + [(node.keys[i], node.values[i])];
      LeadNext(t, i);
      Append3(out, Lead(t.keys[..i], t.values[..i], t.kids[..i]), Flat(t.kids[i]), [(node.keys[i], node.values[i])]);
    }
    res := FlattenChild(node, |node.vnode| - 1, res, t, parent, h, order, lo);
    FlatLast(t);
  }

  method FlattenChild(node: BNode, i: nat, out: seq<Entry>, ghost t: Tree, ghost parent: BNode?, ghost h: nat,
                      ghost order: nat, ghost lo: int)
    returns (res: seq<Entry>)
    requires t.Node? && Rep(t, node, parent) && Shape(t, h, order, lo) && i < |t.kids|
    ensures res == out + Flat(t.kids[i]) && Rep(t, node, parent)
    decreases t, 0
  {
    assert allocated(Nodes(t));
    assert Rep(t.kids[i], node.vnode[i], node) && Shape(t.kids[i], h - 1, order, MinKeys(order));
    res := FlattenTree(node.vnode[i], out, t.kids[i], node, h - 1, order, MinKeys(order));
  }

  lemma {:induction false} Append3(a: seq<Entry>, b: seq<Entry>, c: seq<Entry>, d: seq<Entry>)
    ensures ((a + b) + c) + d == a + (b + c + d)
  {
  }

  lemma {:induction false} FlatLast(t: Tree)
    requires t.Node? && Aligned(t)
    ensures var n := |t.keys|; Flat(t) == Lead(t.keys[..n], t.values[..n], t.kids[..n]) + Flat(t.kids[n])
  {
    FlatAt(t, |t.keys|);
    assert Right(t, |t.keys|) == [];
  }

  lemma {:induction false} LeadAppend(ks: seq<int>, vs: seq<Value>, kids: seq<Tree>, k: int, v: Value, t: Tree)
    requires |ks| == |vs| == |kids|
    ensures Lead(ks + [k], vs + [v], kids + [t]) == Lead(ks, vs, kids) + Flat(t) + [(k, v)]
    decreases |ks|
  {
    if ks == [] {
      assert Lead([k], [v], [t]) == Flat(t) + [(k, v)] + Lead([k][1..], [v][1..], [t][1..]);
    } else {
      LeadAppend(ks[1..], vs[1..], kids[1..], k, v, t);
      LeadTail(ks, vs, kids, k, v, t);
      Append3(Flat(kids[0]) + [(ks[0], vs[0])], Lead(ks[1..], vs[1..], kids[1..]), Flat(t), [(k, v)]);
    }
  }

  lemma {:induction false} LeadTail(ks: seq<int>, vs: seq<Value>, kids: seq<Tree>, k: int, v: Value, t: Tree)
    requires |ks| == |vs| == |kids| > 0
    ensures Lead(ks + [k], vs + [v], kids + [t])
         == Flat(kids[0]) + [(ks[0], vs[0])] + Lead(ks[1..] + [k], vs[1..] + [v], kids[1..] + [t])
  {
    assert (ks + [k])[1..] == ks[1..] + [k] && (vs + [v])[1..] == vs[1..] + [v];
    assert (kids + [t])[1..] == kids[1..] + [t];
  }

  lemma {:induction false} LeadNext(t: Tree, i: nat)
    requires t.Node? && Aligned(t) && i < |t.keys|
    ensures Lead(t.keys[..i + 1], t.values[..i + 1], t.kids[..i + 1])
         == Lead(t.keys[..i], t.values[..i], t.kids[..i]) + Flat(t.kids[i]) + [(t.keys[i], t.values[i])]
  {
    LeadAppend(t.keys[..i], t.values[..i], t.kids[..i], t.keys[i], t.values[i], t.kids[i]);
    assert t.keys[..i] + [t.keys[i]] == t.keys[..i + 1];
    assert t.values[..i] + [t.values[i]] == t.values[..i + 1];
    assert t.kids[..i] + [t.kids[i]] == t.kids[..i + 1];
  }

  ghost function InRange(s: seq<Entry>, lo: int, hi: int): seq<Entry> {
    if s == [] then []
    else (if lo <= s[0].0 <= hi then [s[0]] else []) + InRange(s[1..], lo, hi)
  }

  lemma {:induction false} InRangeAppend(a: seq<Entry>, b: seq<Entry>, lo: int, hi: int)
    ensures InRange(a + b, lo, hi) == InRange(a, lo, hi) + InRange(b, lo, hi)
    decreases |a|
  {
    if a == [] {
      assert a + b == b;
    } else {
      assert (a + b)[1..] == a[1..] + b;
      InRangeAppend(a[1..], b, lo, hi);
    }
  }

  lemma {:induction false} TailAbove(s: seq<Entry>)
    requires Sorted(s) && s != []
    ensures Sorted(s[1..]) && AllAbove(s[0].0, s[1..])
  {
  }

  lemma {:induction false} InFront(e: Entry, r: seq<Entry>, below: int)
    requires Sorted(r) && AllAbove(e.0, r) && below < e.0
    ensures Sorted([e] + r) && AllAbove(below, [e] + r) && AllAbove(below, r)
  {
    var s := [e] + r;
    forall i | 0 <= i < |s| ensures below < s[i].0 {
      if i > 0 { assert s[i] == r[i - 1]; }
    }
  }

  lemma {:induction false} InRangeSorted(s: seq<Entry>, lo: int, hi: int, below: int)
    requires Sorted(s) && AllAbove(below, s)
    ensures Sorted(InRange(s, lo, hi)) && AllAbove(below, InRange(s, lo, hi))
    decreases |s|
  {
    if s != [] {
      var r := InRange(s[1..], lo, hi);
      TailAbove(s);
      InRangeSorted(s[1..], lo, hi, s[0].0);
      InFront(s[0], r, below);
      assert [] + r == r;
    }
  }

  /** A range listing stands for the map between its bounds. */
  lemma {:induction false} InRangeKey(s: seq<Entry>, lo: int, hi: int, k: int)
    requires Sorted(s)
    ensures k in ToMap(InRange(s, lo, hi)) <==> k in ToMap(s) && lo <= k <= hi
    ensures k in ToMap(InRange(s, lo, hi)) ==> ToMap(InRange(s, lo, hi))[k] == ToMap(s)[k]
    decreases |s|
  {
    if s != [] {
      var r := InRange(s[1..], lo, hi);
      InRangeKey(s[1..], lo, hi, k);
      assert AllAbove(s[0].0, s[1..]);
      NotInMap(s[1..], s[0].0);
      assert ToMap([s[0]]) == map[s[0].0 := s[0].1] + ToMap([s[0]][1..]);
      ToMapJoin([s[0]], r);
      assert ToMap([] + r) == ToMap(r) by { assert [] + r == r; }
    }
  }

  /** `inorder_range_traversal`: the entries with `start <= key <= end`, in order. */
  method InorderRangeTraversal(b: BTree, start: int, end: int) returns (result: seq<Entry>)
    requires b.Valid()
    ensures Sorted(result)
    ensures forall k :: k in ToMap(result) <==> k in b.Contents() && start <= k <= end
    ensures forall k :: k in ToMap(result) ==> ToMap(result)[k] == b.Contents()[k]
  {
    var vec := FlattenTree(b.tree, [], b.model, null, b.height, b.order, 1);
    result := FilterRange(vec, start, end);
    RangeMeaning(vec, start, end);
    assert vec == Flat(b.model) && ToMap(vec) == b.Contents();
  }

  lemma {:induction false} RangeMeaning(s: seq<Entry>, lo: int, hi: int)
    requires Sorted(s)
    ensures Sorted(InRange(s, lo, hi))
    ensures forall k :: k in ToMap(InRange(s, lo, hi)) <==> k in ToMap(s) && lo <= k <= hi
    ensures forall k :: k in ToMap(InRange(s, lo, hi)) ==> ToMap(InRange(s, lo, hi))[k] == ToMap(s)[k]
  {
    InRangeSorted(s, lo, hi, if s == [] then 0 else s[0].0 - 1);
    forall k ensures k in ToMap(InRange(s, lo, hi)) <==> k in ToMap(s) && lo <= k <= hi {
      InRangeKey(s, lo, hi, k);
    }
    forall k | k in ToMap(InRange(s, lo, hi)) ensures ToMap(InRange(s, lo, hi))[k] == ToMap(s)[k] {
      InRangeKey(s, lo, hi, k);
    }
  }

  method FilterRange(vec: seq<Entry>, start: int, end: int) returns (result: seq<Entry>)
    ensures result == InRange(vec, start, end)
  {
    result := [];
    for i := 0 to |vec|
      invariant result == InRange(vec[..i], start, end)
    {
      assert vec[..i + 1] == vec[..i] + [vec[i]];
      InRangeAppend(vec[..i], [vec[i]], start, end);
      if Compare(vec[i].0, start) != -1 && Compare(vec[i].0, end) != 1 {
        result := result + [vec[i]];
      }
    }
    assert vec[..|vec|] == vec;
  }
}
