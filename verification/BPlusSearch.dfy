/**
 * Search in a B+ tree (Data_structures/B+Tree.cpp), down to the leaf a key belongs to.
 */
module BPlusSearch {
  import opened BPlusRows
  import opened BPlusSteps
  import opened BPlusHeap

  // the nodes are as the rows say, and the rows link up
  ghost predicate Stands(g: Grid)
    reads Nodes(g), AllKids(g)
  {
    exists h: Grid :: h == g && Held(h) && Links(h)
  }

  // the rows link up; stated so that it is taken apart only where that is needed
  ghost predicate Links(g: Grid) {
    exists h: Grid :: h == g && Linked(h, 0)
  }

  // a node on the way to the leaf of a key
  ghost predicate Here(g: Grid, l: nat, i: nat, k: int, t: BPNode) {
    exists a: nat :: a == i && HereAt(g, l, a, k, t)
  }

  ghost predicate HereAt(g: Grid, l: nat, i: nat, k: int, t: BPNode) {
    l < |g| && Within(g[l], i, k) && t == g[l][i].nd
  }

  ghost function KeysAt(g: Grid, p: nat): seq<int> {
    if g != [] && p < |g[0]| then g[0][p].keys else []
  }

  // The child to go to comes after the last key not above k.
  method ScanKeys(keys: seq<int>, isLeaf: bool, k: int) returns (hit: bool, at: int)
    requires Ascending(keys)
    ensures hit <==> isLeaf && k in keys
    ensures !hit ==> -1 <= at < |keys| && (at >= 0 ==> keys[at] <= k) && (at + 1 < |keys| ==> k < keys[at + 1])
  {
    hit, at := false, -1;
    for i := 0 to |keys|
      invariant !hit && (isLeaf ==> k !in keys[..i])
      invariant -1 <= at < i && (at >= 0 ==> keys[at] <= k) && (at + 1 < i ==> k < keys[at + 1])
    {
      if isLeaf && keys[i] == k { return true, at; }
      if keys[i] < k { at := i; }
      if keys[i] == k { at := at + 1; }
      assert keys[..i + 1] == keys[..i] + [keys[i]];
    }
    assert keys[..|keys|] == keys;
  }

  // the leaf a key belongs to; k itself if it is there
  method Search(t: BPNode, k: int, ghost g: Grid, ghost l: nat, ghost i: nat)
    returns (res: int, node: BPNode, ghost p: nat)
    requires Stands(g) && Here(g, l, i, k, t)
    ensures Here(g, 0, p, k, node)
    ensures res == if k in KeysAt(g, p) then k else -1
    decreases l
  {
    var done, child;
    ghost var q;
    done, res, child, q := Look(t, k, g, l, i);
    if done { return res, t, i; }
    res, node, p := Search(child, k, g, l - 1, q);
  }

  // what to do at a node
  method Look(t: BPNode, k: int, ghost g: Grid, ghost l: nat, ghost i: nat)
    returns (done: bool, res: int, child: BPNode, ghost q: nat)
    requires Stands(g) && Here(g, l, i, k, t)
    ensures done <==> l == 0
    ensures done ==> res == if k in KeysAt(g, i) then k else -1
    ensures !done ==> Here(g, l - 1, q, k, child)
  {
    SeeCell(g, l, i);
    KeysAscend(g, l, i);
    done, res, child, q := t.isLeaf, -1, t, 0;
    var hit, at := ScanKeys(t.keys, t.isLeaf, k);
    if hit {
      res := k;
    } else if !t.isLeaf {
      StepDown(g, l, i, at, k);
      child := PickChild(t, at, g[l][i]);
      q := Offset(g[l], i) + at + 1;
      assert HereAt(g, l - 1, q, k, child);
    }
  }

  method PickChild(t: BPNode, at: int, ghost c: Cell) returns (child: BPNode)
    requires InnerIs(c) && InnerAt(c) && t == c.nd && -1 <= at < |c.keys|
    ensures child == c.kids[at + 1]
  {
    child := if at == -1 then t.vnode[0] else if at == |t.keys| - 1 then t.vnode[|t.vnode| - 1] else t.vnode[at + 1];
  }

  lemma {:induction false} StepDown(g: Grid, l: nat, i: nat, at: int, k: int)
    requires Links(g) && 0 < l < |g| && Within(g[l], i, k) && -1 <= at < |g[l][i].keys|
    requires (at >= 0 ==> g[l][i].keys[at] <= k) && (at + 1 < |g[l][i].keys| ==> k < g[l][i].keys[at + 1])
    ensures InnerAt(g[l][i]) && Within(g[l - 1], Offset(g[l], i) + at + 1, k)
    ensures g[l - 1][Offset(g[l], i) + at + 1].nd == g[l][i].kids[at + 1]
  {
    assert Over(g[l - 1], g[l]) && Level(g[l], l) && InnerAt(g[l][i]);
    Descend(g[l - 1], g[l], i, at + 1, k);
  }

  lemma {:induction false} KeysAscend(g: Grid, l: nat, i: nat)
    requires Links(g) && l < |g| && i < |g[l]|
    ensures Ascending(g[l][i].keys)
  {
    assert Level(g[l], l);
    if l == 0 { assert LeafAt(g[0], i); } else {
      assert Level(g[l - 1], l - 1) && Over(g[l - 1], g[l]);
      KeysRise(g[l - 1], g[l], i);
    }
  }
}
