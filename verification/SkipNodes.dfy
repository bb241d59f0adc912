/**
 * The nodes of a skip list (Data_structures/Skiplist.hpp), quadruply linked,
 * and the pieces of an insertion.  A ghost grid names the nodes of every
 * level, the bottom first; their keys never change.  The gaps count only as
 * long as they are exact: deletion may spoil them, links and order stay.
 */
module SkipNodes {
  import opened SkipKeys

  type Value(==)

  class SNode {
    const k: Key
    const v: Value
    ghost const lvl: nat
    var right: SNode?
    var left: SNode?
    var up: SNode?
    var down: SNode?
    var gap: int
    var isHead: bool

    constructor (k: Key, v: Value, isHead: bool, ghost lvl: nat)
      ensures this.k == k && this.v == v && this.lvl == lvl && this.isHead == isHead
      ensures right == null && left == null && up == null && down == null && gap == 0
    {
      this.k, this.v, this.lvl := k, v, lvl;
      right, left, up, down, gap := null, null, null, null, 0;
      this.isHead := isHead;
    }
  }

  // ---------- one level ----------

  ghost function KeysOf(nds: seq<SNode>): (ks: seq<Key>)
    ensures |ks| == |nds| && forall i :: 0 <= i < |nds| ==> ks[i] == nds[i].k
  {
    seq(|nds|, i requires 0 <= i < |nds| => nds[i].k)
  }

  // the nodes of level l, in order of their keys
  ghost predicate Level(l: nat, nds: seq<SNode>) {
    Ascending(KeysOf(nds)) && forall i :: 0 <= i < |nds| ==> nds[i].lvl == l
  }

  ghost predicate Chained(nds: seq<SNode>, i: nat, gaps: seq<int>)
    requires i < |nds| == |gaps|
    reads nds`right, nds`left, nds`gap, nds`isHead
  {
    nds[i].right == (if i + 1 < |nds| then nds[i + 1] else null)
    && nds[i].left == (if i > 0 then nds[i - 1] else null)
    && nds[i].gap == gaps[i]
    && nds[i].isHead == (i == 0)
  }

  // links in both directions, and these gaps
  ghost predicate Held(nds: seq<SNode>, gaps: seq<int>)
    reads nds`right, nds`left, nds`gap, nds`isHead
  {
    |gaps| == |nds| && forall i :: 0 <= i < |nds| ==> Chained(nds, i, gaps)
  }

  ghost function Gaps(row: seq<Key>, bottom: seq<Key>): (g: seq<int>)
    requires Nested(row, bottom)
    ensures |g| == |row| && forall i :: 0 <= i < |row| ==> g[i] == Gap(row, bottom, i)
  {
    seq(|row|, i requires 0 <= i < |row| => Gap(row, bottom, i))
  }

  lemma {:induction false} LevelDistinct(l: nat, nds: seq<SNode>, i: nat, j: nat)
    requires Level(l, nds) && i < j < |nds|
    ensures nds[i] != nds[j]
  {
    LessTotal(nds[i].k, nds[i].k);
    assert Less(KeysOf(nds)[i], KeysOf(nds)[j]);
  }

  ghost predicate Apart(nds: seq<SNode>) {
    forall x, y :: 0 <= x < y < |nds| ==> nds[x] != nds[y]
  }

  lemma {:induction false} LevelApart(l: nat, nds: seq<SNode>)
    requires Level(l, nds)
    ensures Apart(nds)
  {
    forall x, y | 0 <= x < y < |nds| ensures nds[x] != nds[y] { LevelDistinct(l, nds, x, y); }
  }

  ghost predicate ChainedBut(nds: seq<SNode>, j: nat, gaps: seq<int>, i: nat, n: SNode, predGap: int)
    requires i < |nds| == |gaps| && j < |nds|
    reads nds`right, nds`left, nds`gap, nds`isHead
  {
    nds[j].right == (if j == i then n else if j + 1 < |nds| then nds[j + 1] else null)
    && nds[j].left == (if j == i + 1 then n else if j > 0 then nds[j - 1] else null)
    && nds[j].gap == (if j == i then predGap else gaps[j])
    && nds[j].isHead == (j == 0)
  }

  ghost function Spliced(nds: seq<SNode>, i: nat, n: SNode): seq<SNode>
    requires i < |nds|
  {
    nds[..i + 1] + [n] + nds[i + 1..]
  }

  ghost function SplicedGaps(gaps: seq<int>, i: nat, predGap: int, newGap: int): seq<int>
    requires i < |gaps|
  {
    gaps[..i] + [predGap, newGap] + gaps[i + 1..]
  }

  lemma {:induction false} SpliceHeld(nds: seq<SNode>, gaps: seq<int>, i: nat, n: SNode, predGap: int, newGap: int)
    requires i < |nds| == |gaps|
    requires n.left == nds[i] && n.right == (if i + 1 < |nds| then nds[i + 1] else null)
    requires n.gap == newGap && !n.isHead
    requires forall j :: 0 <= j < |nds| ==> ChainedBut(nds, j, gaps, i, n, predGap)
    ensures Held(Spliced(nds, i, n), SplicedGaps(gaps, i, predGap, newGap))
  {
    var nds', gaps' := Spliced(nds, i, n), SplicedGaps(gaps, i, predGap, newGap);
    forall j | 0 <= j < |nds'| ensures Chained(nds', j, gaps') {
      if j <= i {
        assert ChainedBut(nds, j, gaps, i, n, predGap);
      } else if j > i + 1 {
        assert ChainedBut(nds, j - 1, gaps, i, n, predGap);
      }
    }
  }

  // a new node behind the i-th one of its level
  method LinkBehind(pred: SNode, n: SNode, predGap: int, newGap: int,
                    ghost nds: seq<SNode>, ghost gaps: seq<int>, ghost i: nat)
    requires Held(nds, gaps) && i < |nds| && pred == nds[i] && n !in nds && Apart(nds) && !n.isHead
    modifies pred`right, pred`gap, n`left, n`right, n`gap
    modifies (if i + 1 < |nds| then {nds[i + 1]} else {})`left
    ensures Held(Spliced(nds, i, n), SplicedGaps(gaps, i, predGap, newGap))
  {
    assert Chained(nds, i, gaps);
    n.left := pred;
    n.right := pred.right;
    n.gap := newGap;
    if pred.right != null {
      pred.right.left := n;
    }
    pred.gap := predGap;
    pred.right := n;
    forall j | 0 <= j < |nds| ensures ChainedBut(nds, j, gaps, i, n, predGap) {
      assert old(Chained(nds, j, gaps));
    }
    SpliceHeld(nds, gaps, i, n, predGap, newGap);
  }

  // only the gap of the i-th node changes
  method Bump(pred: SNode, delta: int, ghost nds: seq<SNode>, ghost gaps: seq<int>, ghost i: nat)
    requires Held(nds, gaps) && i < |nds| && pred == nds[i] && Apart(nds)
    modifies pred`gap
    ensures Held(nds, gaps[i := gaps[i] + delta])
  {
    ghost var gaps' := gaps[i := gaps[i] + delta];
    assert Chained(nds, i, gaps);
    pred.gap := pred.gap + delta;
    forall j | 0 <= j < |nds| ensures Chained(nds, j, gaps') {
      assert old(Chained(nds, j, gaps));
    }
  }

  lemma {:induction false} SplicedKeys(nds: seq<SNode>, i: nat, n: SNode)
    requires i < |nds|
    ensures KeysOf(Spliced(nds, i, n)) == InsertAt(KeysOf(nds), i, n.k)
  {
    var a, b := KeysOf(Spliced(nds, i, n)), InsertAt(KeysOf(nds), i, n.k);
    assert |a| == |b|;
    forall j | 0 <= j < |a| ensures a[j] == b[j] {
    }
  }

  lemma {:induction false} SplicedLevel(l: nat, nds: seq<SNode>, i: nat, n: SNode)
    requires Level(l, nds) && n.lvl == l && IsPred(KeysOf(nds), n.k, i)
    ensures Level(l, Spliced(nds, i, n))
  {
    SplicedKeys(nds, i, n);
    InsertAscending(KeysOf(nds), i, n.k);
  }

  // ---------- the node of a key ----------

  ghost function NodeAt(nds: seq<SNode>, k: Key): (n: SNode)
    requires k in KeysOf(nds)
    ensures n in nds && n.k == k
  {
    nds[Rank(KeysOf(nds), k)]
  }

  lemma {:induction false} NodeAtIs(l: nat, nds: seq<SNode>, i: nat)
    requires Level(l, nds) && i < |nds|
    ensures nds[i].k in KeysOf(nds) && NodeAt(nds, nds[i].k) == nds[i]
  {
    assert KeysOf(nds)[i] == nds[i].k;
    RankIs(KeysOf(nds), i);
  }

  lemma {:induction false} NodeAtSpliced(l: nat, nds: seq<SNode>, i: nat, n: SNode, k: Key)
    requires Level(l, nds) && n.lvl == l && IsPred(KeysOf(nds), n.k, i)
    ensures k in KeysOf(Spliced(nds, i, n)) <==> k == n.k || k in KeysOf(nds)
    ensures n.k in KeysOf(Spliced(nds, i, n)) && NodeAt(Spliced(nds, i, n), n.k) == n
    ensures k in KeysOf(nds) ==> k in KeysOf(Spliced(nds, i, n)) && NodeAt(Spliced(nds, i, n), k) == NodeAt(nds, k)
  {
    var nds' := Spliced(nds, i, n);
    SplicedLevel(l, nds, i, n);
    SplicedKeys(nds, i, n);
    InsertMembers(KeysOf(nds), i, n.k, k);
    InsertMembers(KeysOf(nds), i, n.k, n.k);
    assert nds'[i + 1] == n;
    NodeAtIs(l, nds', i + 1);
    if k in KeysOf(nds) {
      var r := Rank(KeysOf(nds), k);
      var r' := if r <= i then r else r + 1;
      assert nds'[r'] == nds[r];
      NodeAtIs(l, nds', r');
    }
  }

  // ---------- all levels ----------

  type Grid = seq<seq<SNode>>

  ghost predicate Shape(g: Grid) {
    g != []
    && (forall l :: 0 <= l < |g| ==> Level(l, g[l]) && Nested(KeysOf(g[l]), KeysOf(g[0])))
    && (forall l, m :: 0 <= l < m < |g| && m == l + 1 ==> Nested(KeysOf(g[m]), KeysOf(g[l])))
    && (|g| > 1 ==> forall l :: 0 <= l < |g| ==> |g[l]| > 1)
  }

  ghost function AllNodes(g: Grid): set<SNode> {
    set l, i | 0 <= l < |g| && 0 <= i < |g[l]| :: g[l][i]
  }

  lemma {:induction false} InAll(g: Grid, l: nat)
    requires l < |g|
    ensures forall n :: n in g[l] ==> n in AllNodes(g)
  {
  }

  // the gaps that are the distances in the bottom row
  ghost function TrueGaps(g: Grid): (gs: seq<seq<int>>)
    requires Shape(g)
    ensures |gs| == |g| && forall l :: 0 <= l < |g| ==> gs[l] == Gaps(KeysOf(g[l]), KeysOf(g[0]))
  {
    seq(|g|, l requires 0 <= l < |g| => Gaps(KeysOf(g[l]), KeysOf(g[0])))
  }

  ghost function Find(g: Grid, l: int, k: Key): SNode? {
    if 0 <= l < |g| && k in KeysOf(g[l]) then NodeAt(g[l], k) else null
  }

  // a node's tower: the same key one level below and above
  ghost predicate Stacked(g: Grid, l: nat, n: SNode)
    reads n`up, n`down
  {
    n.down == Find(g, l - 1, n.k) && n.up == Find(g, l + 1, n.k)
  }

  ghost predicate Towers(g: Grid)
    reads AllNodes(g)`up, AllNodes(g)`down
  {
    forall l, i {:trigger Stacked(g, l, g[l][i])} ::
      0 <= l < |g| && 0 <= i < |g[l]| ==> Stacked(g, l, g[l][i])
  }

  // what a search leaves behind above level l: the predecessors and their ranks
  ghost predicate Predecessors(exact: bool, g: Grid, k: Key, l: nat, preds: seq<(SNode, int)>, qs: seq<nat>)
    requires Shape(g)
  {
    l < |g| && |preds| == |g| - 1 - l && |qs| == |preds|
    && forall j :: 0 <= j < |preds| ==> PredecessorAt(exact, g, k, preds, qs, j)
  }

  ghost predicate PredecessorAt(exact: bool, g: Grid, k: Key, preds: seq<(SNode, int)>, qs: seq<nat>, j: nat)
    requires Shape(g) && j < |preds| == |qs| < |g|
  {
    var m := |g| - 1 - j;
    qs[j] < |g[m]| && IsPred(KeysOf(g[m]), k, qs[j])
    && preds[j].0 == g[m][qs[j]] && (exact ==> preds[j].1 == Place(KeysOf(g[m]), KeysOf(g[0]), qs[j]))
  }

  // the cursor of a search for k: node i of level l, not beyond k
  ghost predicate At(exact: bool, g: Grid, k: Key, l: nat, i: nat, node: SNode, head: SNode, index: int)
    requires Shape(g)
  {
    l < |g| && i < |g[l]| && node == g[l][i] && head == g[l][0]
    && (exact ==> index == Place(KeysOf(g[l]), KeysOf(g[0]), i))
    && (node.k == k || Less(node.k, k))
  }

  // the level and place a search ends at: the highest node of k, or the last
  // bottom node below it
  ghost predicate Located(g: Grid, k: Key, l: nat, i: nat)
    requires Shape(g)
  {
    l < |g| && i < |g[l]|
    && (g[l][i].k == k || (l == 0 && IsPred(KeysOf(g[0]), k, i)))
  }

  lemma {:induction false} AddPredecessor(exact: bool, g: Grid, k: Key, l: nat, i: nat, node: SNode, index: int,
                                          preds: seq<(SNode, int)>, qs: seq<nat>)
    requires Shape(g) && Predecessors(exact, g, k, l, preds, qs) && 0 < l < |g| && i < |g[l]|
    requires IsPred(KeysOf(g[l]), k, i) && node == g[l][i]
    requires exact ==> index == Place(KeysOf(g[l]), KeysOf(g[0]), i)
    ensures Predecessors(exact, g, k, l - 1, preds + [(node, index)], qs + [i])
  {
    var preds', qs' := preds + [(node, index)], qs + [i];
    forall j | 0 <= j < |preds'| ensures PredecessorAt(exact, g, k, preds', qs', j) {
      if j < |preds| { assert PredecessorAt(exact, g, k, preds, qs, j); }
    }
  }

  // ---------- pieces of an insertion ----------

  // some levels with some gaps
  ghost predicate AllHeld(cur: Grid, gs: seq<seq<int>>)
    reads AllNodes(cur)`right, AllNodes(cur)`left, AllNodes(cur)`gap, AllNodes(cur)`isHead
  {
    |gs| == |cur| && forall l {:trigger HeldAt(cur, gs, l)} :: 0 <= l < |cur| ==> HeldAt(cur, gs, l)
  }

  ghost predicate HeldAt(cur: Grid, gs: seq<seq<int>>, l: nat)
    requires l < |cur| == |gs|
    reads AllNodes(cur)`right, AllNodes(cur)`left, AllNodes(cur)`gap, AllNodes(cur)`isHead
  {
    InAll(cur, l);
    Held(cur[l], gs[l])
  }

  ghost predicate Leveled(cur: Grid) {
    forall l :: 0 <= l < |cur| ==> Level(l, cur[l])
  }

  lemma {:induction false} OtherLevel(l: nat, nds: seq<SNode>, n: SNode)
    requires Level(l, nds) && n.lvl != l
    ensures n !in nds
  {
  }

  // link a node into its level; the other levels stay
  method SpliceLevel(pred: SNode, n: SNode, predGap: int, newGap: int,
                     ghost cur: Grid, ghost gs: seq<seq<int>>, ghost m: nat, ghost q: nat)
    requires Leveled(cur) && AllHeld(cur, gs) && m < |cur| && q < |cur[m]| && pred == cur[m][q]
    requires n.lvl == m && n !in cur[m] && !n.isHead && q < |gs[m]|
    modifies pred`right, pred`gap, n`left, n`right, n`gap
    modifies (if q + 1 < |cur[m]| then {cur[m][q + 1]} else {})`left
    ensures AllHeld(cur[m := Spliced(cur[m], q, n)], gs[m := SplicedGaps(gs[m], q, predGap, newGap)])
  {
    assert HeldAt(cur, gs, m);
    LevelApart(m, cur[m]);
    LinkBehind(pred, n, predGap, newGap, cur[m], gs[m], q);
    ghost var cur', gs' := cur[m := Spliced(cur[m], q, n)], gs[m := SplicedGaps(gs[m], q, predGap, newGap)];
    forall l | 0 <= l < |cur'| ensures HeldAt(cur', gs', l) {
      if l != m {
        assert old(HeldAt(cur, gs, l));
        OtherLevel(l, cur[l], pred);
        OtherLevel(l, cur[l], n);
        if q + 1 < |cur[m]| { OtherLevel(l, cur[l], cur[m][q + 1]); }
      }
    }
  }

  // one gap changes; the other levels stay
  method BumpLevel(pred: SNode, delta: int, ghost cur: Grid, ghost gs: seq<seq<int>>, ghost m: nat, ghost q: nat)
    requires Leveled(cur) && AllHeld(cur, gs) && m < |cur| && q < |cur[m]| && pred == cur[m][q]
    requires q < |gs[m]|
    modifies pred`gap
    ensures AllHeld(cur, gs[m := gs[m][q := gs[m][q] + delta]])
  {
    assert HeldAt(cur, gs, m);
    LevelApart(m, cur[m]);
    Bump(pred, delta, cur[m], gs[m], q);
    ghost var gs' := gs[m := gs[m][q := gs[m][q] + delta]];
    forall l | 0 <= l < |cur| ensures HeldAt(cur, gs', l) {
      if l != m {
        assert old(HeldAt(cur, gs, l));
        OtherLevel(l, cur[l], pred);
      }
    }
  }

  // a stack of nodes of one key, the lowest first
  ghost predicate Tower(tw: seq<SNode>)
    reads tw`up, tw`down
  {
    forall j {:trigger TowerAt(tw, j)} :: 0 <= j < |tw| ==> TowerAt(tw, j)
  }

  ghost predicate TowerAt(tw: seq<SNode>, j: nat)
    requires j < |tw|
    reads tw`up, tw`down
  {
    tw[j].up == (if j + 1 < |tw| then tw[j + 1] else null)
    && tw[j].down == (if j > 0 then tw[j - 1] else null)
  }

  ghost predicate Pile(tw: seq<SNode>, k: Key, from: nat) {
    forall j :: 0 <= j < |tw| ==> tw[j].k == k && tw[j].lvl == from + j
  }

  lemma {:induction false} PileApart(tw: seq<SNode>, k: Key, from: nat)
    requires Pile(tw, k, from)
    ensures Apart(tw)
  {
  }

  // a lower node is put under the stack
  method PutUnder(n: SNode, lowest: SNode?, ghost tw: seq<SNode>)
    requires Tower(tw) && n !in tw && n.down == null
    requires lowest == (if tw == [] then null else tw[0])
    requires Apart(tw)
    modifies n`up, (if tw == [] then {} else {tw[0]})`down
    ensures Tower([n] + tw)
  {
    n.up := lowest;
    if lowest != null {
      assert TowerAt(tw, 0);
      lowest.down := n;
    }
    ghost var tw' := [n] + tw;
    forall j | 0 <= j < |tw'| ensures TowerAt(tw', j) {
      if j > 0 { assert old(TowerAt(tw, j - 1)); }
    }
  }

  // a level of its own: a head and one node
  ghost predicate Duo(head: SNode, n: SNode, gap: int, rest: int)
    reads head`right, head`left, head`gap, head`isHead, n`right, n`left, n`gap, n`isHead
  {
    head.right == n && head.left == null && head.gap == gap && head.isHead
    && n.left == head && n.right == null && n.gap == rest && !n.isHead
  }

  lemma {:induction false} DuoHeld(head: SNode, n: SNode, gap: int, rest: int)
    requires Duo(head, n, gap, rest)
    ensures Held([head, n], [gap, rest])
  {
    var nds, gaps := [head, n], [gap, rest];
    assert Chained(nds, 0, gaps) && Chained(nds, 1, gaps);
  }

  ghost predicate Duos(hd: seq<SNode>, tw: seq<SNode>, gap: int, rest: int)
    reads hd`right, hd`left, hd`gap, hd`isHead, tw`right, tw`left, tw`gap, tw`isHead
  {
    |hd| == |tw| && forall j {:trigger DuoAt(hd, tw, gap, rest, j)} :: 0 <= j < |hd| ==> DuoAt(hd, tw, gap, rest, j)
  }

  ghost predicate DuoAt(hd: seq<SNode>, tw: seq<SNode>, gap: int, rest: int, j: nat)
    requires j < |hd| == |tw|
    reads hd`right, hd`left, hd`gap, hd`isHead, tw`right, tw`left, tw`gap, tw`isHead
  {
    Duo(hd[j], tw[j], gap, rest)
  }

  // all have the value
  ghost predicate Carry(nds: seq<SNode>, v: Value) { forall x :: x in nds ==> x.v == v }

  method MakeDuo(k: Key, v: Value, headValue: Value, gap: int, rest: int, ghost lvl: nat)
    returns (head: SNode, n: SNode)
    ensures fresh(head) && fresh(n) && Duo(head, n, gap, rest)
    ensures head.k == NegInf && head.lvl == lvl && n.k == k && n.v == v && n.lvl == lvl
    ensures head.up == null && head.down == null && n.up == null && n.down == null
  {
    head := new SNode(NegInf, headValue, true, lvl);
    n := new SNode(k, v, false, lvl);
    head.gap, n.gap := gap, rest;
    head.right, n.left := n, head;
  }

  lemma {:induction false} DuosMore(head: SNode, n: SNode, hd: seq<SNode>, tw: seq<SNode>, gap: int, rest: int)
    requires Duo(head, n, gap, rest) && Duos(hd, tw, gap, rest)
    ensures Duos([head] + hd, [n] + tw, gap, rest)
  {
    var hd', tw' := [head] + hd, [n] + tw;
    forall j | 0 <= j < |hd'| ensures DuoAt(hd', tw', gap, rest, j) {
      if j > 0 { assert DuoAt(hd, tw, gap, rest, j - 1); }
    }
  }

  lemma {:induction false} PilesApart(hd: seq<SNode>, tw: seq<SNode>, k: Key, from: nat, x: SNode)
    requires Pile(hd, NegInf, from) && Pile(tw, k, from) && k != NegInf
    ensures x in hd ==> x !in tw
  {
  }

  // a duo comes under the stack of duos
  method StackDuo(head: SNode, n: SNode, ghost k: Key, ghost gap: int, ghost rest: int, lowHead: SNode?,
                  lowNode: SNode?, ghost lvl: nat, ghost hd: seq<SNode>, ghost tw: seq<SNode>)
    requires Duos([head] + hd, [n] + tw, gap, rest) && Tower(hd) && Tower(tw) && k != NegInf
    requires lowHead == (if hd == [] then null else hd[0]) && lowNode == (if tw == [] then null else tw[0])
    requires Pile([head] + hd, NegInf, lvl) && Pile([n] + tw, k, lvl)
    requires head.down == null && n.down == null
    modifies head`up, n`up
    modifies (if hd == [] then {} else {hd[0]})`down, (if tw == [] then {} else {tw[0]})`down
    ensures Duos([head] + hd, [n] + tw, gap, rest) && Tower([head] + hd) && Tower([n] + tw)
  {
    ghost var hd', tw' := [head] + hd, [n] + tw;
    PileUnder(head, hd, NegInf, lvl);
    PileUnder(n, tw, k, lvl);
    assert head in hd' && n in tw';
    PilesApart(hd', tw', k, lvl, head);
    PilesApart(hd', tw', k, lvl, n);
    if hd != [] { PilesApart(hd', tw', k, lvl, hd[0]); }
    if tw != [] { PilesApart(hd', tw', k, lvl, tw[0]); }
    PutUnder(head, lowHead, hd);
    assert Tower(hd') && Tower(tw);
    PutUnder(n, lowNode, tw);
  }

  lemma {:induction false} PileUnder(n: SNode, tw: seq<SNode>, k: Key, lvl: nat)
    requires Pile([n] + tw, k, lvl)
    ensures n !in tw && Apart(tw) && (tw != [] ==> tw[0] in [n] + tw && tw[0] in tw)
  {
    var all := [n] + tw;
    forall j | 0 <= j < |tw| ensures tw[j].lvl == lvl + 1 + j { assert tw[j] == all[j + 1]; }
    assert n == all[0];
  }

  lemma {:induction false} PileMore(n: SNode, tw: seq<SNode>, k: Key, lvl: nat)
    requires Pile(tw, k, lvl + 1) && n.k == k && n.lvl == lvl
    ensures Pile([n] + tw, k, lvl)
  {
  }

  // one more level on its own, below the ones made before it
  method NewLevel(k: Key, v: Value, headValue: Value, gap: int, rest: int, lowHead: SNode?, lowNode: SNode?,
                  ghost lvl: nat, ghost hd: seq<SNode>, ghost tw: seq<SNode>)
    returns (head: SNode, n: SNode)
    requires Duos(hd, tw, gap, rest) && Tower(hd) && Tower(tw) && k != NegInf
    requires lowHead == (if hd == [] then null else hd[0]) && lowNode == (if tw == [] then null else tw[0])
    requires Pile(hd, NegInf, lvl + 1) && Pile(tw, k, lvl + 1)
    modifies (if hd == [] then {} else {hd[0]})`down, (if tw == [] then {} else {tw[0]})`down
    ensures fresh(head) && fresh(n) && n.v == v
    ensures Duos([head] + hd, [n] + tw, gap, rest) && Tower([head] + hd) && Tower([n] + tw)
    ensures Pile([head] + hd, NegInf, lvl) && Pile([n] + tw, k, lvl)
  {
    head, n := MakeDuo(k, v, headValue, gap, rest, lvl);
    DuosMore(head, n, hd, tw, gap, rest);
    PileMore(head, hd, NegInf, lvl);
    PileMore(n, tw, k, lvl);
    StackDuo(head, n, k, gap, rest, lowHead, lowNode, lvl, hd, tw);
  }

  // stacked on a node below
  ghost predicate TowerOn(tw: seq<SNode>, base: SNode)
    reads tw`up, tw`down
  {
    forall j {:trigger TowerOnAt(tw, base, j)} :: 0 <= j < |tw| ==> TowerOnAt(tw, base, j)
  }

  ghost predicate TowerOnAt(tw: seq<SNode>, base: SNode, j: nat)
    requires j < |tw|
    reads tw`up, tw`down
  {
    tw[j].up == (if j + 1 < |tw| then tw[j + 1] else null)
    && tw[j].down == (if j > 0 then tw[j - 1] else base)
  }

  method PutOn(base: SNode, lowest: SNode, ghost tw: seq<SNode>)
    requires Tower(tw) && tw != [] && lowest == tw[0] && base !in tw && Apart(tw)
    modifies base`up, lowest`down
    ensures TowerOn(tw, base) && base.up == lowest
  {
    assert TowerAt(tw, 0);
    base.up := lowest;
    lowest.down := base;
    forall j | 0 <= j < |tw| ensures TowerOnAt(tw, base, j) {
      assert old(TowerAt(tw, j));
    }
  }

  // the new levels of a node higher than the list, from the top down
  method NewLevels(k: Key, v: Value, headValue: Value, gap: int, rest: int, h: nat, count: nat, base: SNode)
    returns (top: SNode, lowest: SNode, ghost hd: seq<SNode>, ghost tw: seq<SNode>)
    requires count > 0 && k != NegInf && base.lvl + 1 == h
    modifies base`up
    ensures |hd| == count && fresh(set x | x in hd) && fresh(set x | x in tw)
    ensures Duos(hd, tw, gap, rest) && TowerOn(hd, base) && Tower(tw)
    ensures Pile(hd, NegInf, h) && Pile(tw, k, h)
    ensures Carry(tw, v)
    ensures top == hd[count - 1] && lowest == tw[0] && base.up == hd[0]
  {
    var head;
    top, head, lowest, hd, tw := Levels(k, v, headValue, gap, rest, h, count);
    PileApart(hd, NegInf, h);
    PutOn(base, head, hd);
  }

  // two towers side by side
  method Levels(k: Key, v: Value, headValue: Value, gap: int, rest: int, ghost h: nat, count: nat)
    returns (top: SNode, head: SNode, n: SNode, ghost hd: seq<SNode>, ghost tw: seq<SNode>)
    requires count > 0 && k != NegInf
    ensures |hd| == count && fresh(set x | x in hd) && fresh(set x | x in tw)
    ensures Duos(hd, tw, gap, rest) && Tower(hd) && Tower(tw) && Pile(hd, NegInf, h) && Pile(tw, k, h)
    ensures Carry(tw, v)
    ensures top == hd[count - 1] && head == hd[0] && n == tw[0]
  {
    head, n := NewLevel(k, v, headValue, gap, rest, null, null, h + count - 1, [], []);
    top := head;
    hd, tw := [head], [n];
    assert [head] + [] == [head] && [n] + [] == [n];
    for d := 1 to count
      invariant |hd| == d && Duos(hd, tw, gap, rest) && Tower(hd) && Tower(tw)
      invariant Pile(hd, NegInf, h + count - d) && Pile(tw, k, h + count - d)
      invariant head == hd[0] && n == tw[0] && top == hd[d - 1]
      invariant fresh(set x | x in hd) && fresh(set x | x in tw) && Carry(tw, v)
    {
      head, n := NewLevel(k, v, headValue, gap, rest, head, n, h + count - 1 - d, hd, tw);
      hd, tw := [head] + hd, [n] + tw;
    }
  }

  // ---------- the gaps of every level after an insertion ----------

  lemma {:induction false} GapsPassed(row: seq<Key>, bottom: seq<Key>, p: nat, q: nat, k: Key, bottom': seq<Key>)
    requires Ascending(row) && Ascending(bottom) && Nested(row, bottom)
    requires IsPred(bottom, k, p) && IsPred(row, k, q) && bottom' == InsertAt(bottom, p, k)
    ensures Nested(row, bottom')
    ensures Gaps(row, bottom') == Gaps(row, bottom)[q := Gap(row, bottom, q) + 1]
  {
    NestedInsert(row, bottom, p, k);
    var a, b := Gaps(row, bottom'), Gaps(row, bottom)[q := Gap(row, bottom, q) + 1];
    forall i | 0 <= i < |row| ensures a[i] == b[i] { GapPass(row, bottom, p, q, k, bottom', i); }
  }

  lemma {:induction false} GapsTaken(row: seq<Key>, bottom: seq<Key>, p: nat, q: nat, k: Key,
                                     row': seq<Key>, bottom': seq<Key>, predGap: int, newGap: int)
    requires Ascending(row) && Ascending(bottom) && Nested(row, bottom)
    requires IsPred(bottom, k, p) && IsPred(row, k, q)
    requires row' == InsertAt(row, q, k) && bottom' == InsertAt(bottom, p, k)
    requires predGap == p + 1 - Place(row, bottom, q) && newGap == Gap(row, bottom, q) + 1 - predGap
    ensures Nested(row', bottom') && Gaps(row', bottom') == SplicedGaps(Gaps(row, bottom), q, predGap, newGap)
  {
    NestedTake(row, bottom, p, q, k);
    var a, b := Gaps(row', bottom'), SplicedGaps(Gaps(row, bottom), q, predGap, newGap);
    assert |a| == |row| + 1 == |b|;
    forall i | 0 <= i < |a| ensures a[i] == b[i] {
      GapTake(row, bottom, p, q, k, row', bottom', i);
      TakenGapIs(row, bottom, p, q, i);
    }
  }

  lemma {:induction false} BottomPlaces(bottom: seq<Key>, i: nat)
    requires Ascending(bottom) && i <= |bottom|
    ensures Place(bottom, bottom, i) == if i < |bottom| then i else |bottom| - 1
  {
    if i < |bottom| { RankIs(bottom, i); }
  }

  // on the bottom every gap is one, the last none
  lemma {:induction false} GapsBottom(bottom: seq<Key>, p: nat, k: Key, bottom': seq<Key>, predGap: int, newGap: int)
    requires Ascending(bottom) && IsPred(bottom, k, p) && bottom' == InsertAt(bottom, p, k)
    requires predGap == 1 && newGap == if p + 1 < |bottom| then 1 else 0
    ensures Ascending(bottom') && Gaps(bottom', bottom') == SplicedGaps(Gaps(bottom, bottom), p, predGap, newGap)
  {
    InsertAscending(bottom, p, k);
    BottomPlaces(bottom, p);
    BottomPlaces(bottom, p + 1);
    GapsTaken(bottom, bottom, p, p, k, bottom', bottom', predGap, newGap);
  }

  lemma {:induction false} GapsFresh(bottom: seq<Key>, p: nat, k: Key, bottom': seq<Key>)
    requires Ascending(bottom) && IsPred(bottom, k, p) && bottom' == InsertAt(bottom, p, k)
    ensures Nested([NegInf, k], bottom') && Ascending([NegInf, k])
    ensures Gaps([NegInf, k], bottom') == [p + 1, |bottom| - p - 1]
  {
    GapFresh(bottom, p, k);
  }

  // ---------- the levels between the bottom and the old top ----------

  ghost predicate Ready(g: Grid, qs: seq<nat>, k: Key) {
    Shape(g) && |qs| == |g| && k != NegInf
    && forall m :: 0 <= m < |g| ==> qs[m] < |g[m]| && IsPred(KeysOf(g[m]), k, qs[m])
  }

  ghost function Bottom(g: Grid, qs: seq<nat>, k: Key): seq<Key>
    requires Ready(g, qs, k)
  {
    InsertAt(KeysOf(g[0]), qs[0], k)
  }

  // level m before its turn, and after it
  ghost predicate Pending(exact: bool, g: Grid, cur: Grid, gs: seq<seq<int>>, m: nat)
    requires Shape(g) && m < |g| == |cur| == |gs|
  {
    cur[m] == g[m] && |gs[m]| == |g[m]| && (exact ==> gs[m] == Gaps(KeysOf(g[m]), KeysOf(g[0])))
  }

  ghost predicate Done(exact: bool, g: Grid, qs: seq<nat>, k: Key, cur: Grid, gs: seq<seq<int>>, m: nat, n: SNode?)
    requires Ready(g, qs, k) && m < |g| == |cur| == |gs|
  {
    cur[m] == (if n == null then g[m] else Spliced(g[m], qs[m], n))
    && Nested(KeysOf(cur[m]), Bottom(g, qs, k)) && |gs[m]| == |cur[m]|
    && (exact ==> gs[m] == Gaps(KeysOf(cur[m]), Bottom(g, qs, k)))
  }

  ghost function NodeOf(tw: seq<SNode>, low: nat, m: nat): SNode?
    requires low <= m
  {
    if m - low < |tw| then tw[m - low] else null
  }

  ghost predicate Turn(exact: bool, g: Grid, qs: seq<nat>, k: Key, cur: Grid, gs: seq<seq<int>>, tw: seq<SNode>,
                       low: nat, m: nat)
    requires Ready(g, qs, k) && m < |g| == |cur| == |gs|
  {
    if m < low then Pending(exact, g, cur, gs, m) else Done(exact, g, qs, k, cur, gs, m, NodeOf(tw, low, m))
  }

  // levels low and up are done, tw are the new nodes from low up
  ghost predicate Inner(exact: bool, g: Grid, qs: seq<nat>, k: Key, height: nat, cur: Grid, gs: seq<seq<int>>,
                        tw: seq<SNode>, low: nat)
  {
    Ready(g, qs, k) && 1 <= low <= |g| == |cur| == |gs| && Leveled(cur)
    && |tw| == (if low < height then height - low else 0) && Pile(tw, k, low)
    && forall m {:trigger Turn(exact, g, qs, k, cur, gs, tw, low, m)} ::
         1 <= m < |g| ==> Turn(exact, g, qs, k, cur, gs, tw, low, m)
  }

  // a level that gets a node is done by splicing it in
  lemma {:induction false} SplicedTurn(exact: bool, g: Grid, qs: seq<nat>, k: Key, height: nat, cur: Grid,
                                       gs: seq<seq<int>>, tw: seq<SNode>, low: nat, n: SNode, predGap: int,
                                       newGap: int, cur': Grid, gs': seq<seq<int>>)
    requires Inner(exact, g, qs, k, height, cur, gs, tw, low) && 1 < low <= height
    requires n.k == k && n.lvl == low - 1
    requires var m := low - 1; exact ==>
      predGap == qs[0] + 1 - Place(KeysOf(g[m]), KeysOf(g[0]), qs[m])
      && newGap == Gap(KeysOf(g[m]), KeysOf(g[0]), qs[m]) + 1 - predGap
    requires qs[low - 1] < |gs[low - 1]| && qs[low - 1] < |cur[low - 1]|
    requires cur' == cur[low - 1 := Spliced(cur[low - 1], qs[low - 1], n)]
    requires gs' == gs[low - 1 := SplicedGaps(gs[low - 1], qs[low - 1], predGap, newGap)]
    ensures Leveled(cur') && Turn(exact, g, qs, k, cur', gs', [n] + tw, low - 1, low - 1)
  {
    var m := low - 1;
    assert Turn(exact, g, qs, k, cur, gs, tw, low, m);
    var row' := KeysOf(Spliced(g[m], qs[m], n));
    SplicedKeys(g[m], qs[m], n);
    SplicedLevel(m, g[m], qs[m], n);
    NestedTake(KeysOf(g[m]), KeysOf(g[0]), qs[0], qs[m], k);
    if exact { GapsTaken(KeysOf(g[m]), KeysOf(g[0]), qs[0], qs[m], k, row', Bottom(g, qs, k), predGap, newGap); }
  }

  // a level that does not get a node is done by one bump
  lemma {:induction false} InnerBump(exact: bool, g: Grid, qs: seq<nat>, k: Key, height: nat, cur: Grid,
                                     gs: seq<seq<int>>, tw: seq<SNode>, low: nat, gs': seq<seq<int>>)
    requires Inner(exact, g, qs, k, height, cur, gs, tw, low) && 1 < low && height < low
    requires qs[low - 1] < |gs[low - 1]|
    requires gs' == gs[low - 1 := gs[low - 1][qs[low - 1] := gs[low - 1][qs[low - 1]] + 1]]
    ensures Inner(exact, g, qs, k, height, cur, gs', tw, low - 1)
  {
    var m := low - 1;
    assert Turn(exact, g, qs, k, cur, gs, tw, low, m);
    GapsPassed(KeysOf(g[m]), KeysOf(g[0]), qs[0], qs[m], k, Bottom(g, qs, k));
    forall x | 1 <= x < |g| ensures Turn(exact, g, qs, k, cur, gs', tw, m, x) {
      assert Turn(exact, g, qs, k, cur, gs, tw, low, x);
    }
  }

  lemma {:induction false} InnerSplice(exact: bool, g: Grid, qs: seq<nat>, k: Key, height: nat, cur: Grid,
                                       gs: seq<seq<int>>, tw: seq<SNode>, low: nat, n: SNode, predGap: int,
                                       newGap: int, cur': Grid, gs': seq<seq<int>>)
    requires Inner(exact, g, qs, k, height, cur, gs, tw, low) && 1 < low <= height
    requires n.k == k && n.lvl == low - 1
    requires var m := low - 1; exact ==>
      predGap == qs[0] + 1 - Place(KeysOf(g[m]), KeysOf(g[0]), qs[m])
      && newGap == Gap(KeysOf(g[m]), KeysOf(g[0]), qs[m]) + 1 - predGap
    requires qs[low - 1] < |gs[low - 1]| && qs[low - 1] < |cur[low - 1]|
    requires cur' == cur[low - 1 := Spliced(cur[low - 1], qs[low - 1], n)]
    requires gs' == gs[low - 1 := SplicedGaps(gs[low - 1], qs[low - 1], predGap, newGap)]
    ensures Inner(exact, g, qs, k, height, cur', gs', [n] + tw, low - 1)
  {
    var m := low - 1;
    SplicedTurn(exact, g, qs, k, height, cur, gs, tw, low, n, predGap, newGap, cur', gs');
    forall x | 1 <= x < |g| ensures Turn(exact, g, qs, k, cur', gs', [n] + tw, m, x) {
      assert Turn(exact, g, qs, k, cur, gs, tw, low, x);
      if x > m { assert NodeOf([n] + tw, m, x) == NodeOf(tw, low, x); }
    }
  }

  method BumpTurn(ghost exact: bool, pred: SNode, ghost g: Grid, ghost qs: seq<nat>, ghost k: Key, ghost height: nat,
                  ghost cur: Grid, ghost gs: seq<seq<int>>, ghost tw: seq<SNode>, ghost low: nat)
    returns (ghost gs': seq<seq<int>>)
    requires Inner(exact, g, qs, k, height, cur, gs, tw, low) && 1 < low && height < low
    requires AllHeld(cur, gs) && pred == g[low - 1][qs[low - 1]]
    modifies pred`gap
    ensures Inner(exact, g, qs, k, height, cur, gs', tw, low - 1) && AllHeld(cur, gs') && gs'[0] == gs[0]
  {
    ghost var m := low - 1;
    assert Turn(exact, g, qs, k, cur, gs, tw, low, m);
    gs' := gs[m := gs[m][qs[m] := gs[m][qs[m]] + 1]];
    InnerBump(exact, g, qs, k, height, cur, gs, tw, low, gs');
    BumpLevel(pred, 1, cur, gs, m, qs[m]);
  }

  method SpliceTurn(ghost exact: bool, pred: SNode, rank: int, k: Key, v: Value, index: int, lowest: SNode?,
                    ghost g: Grid, ghost qs: seq<nat>, ghost height: nat,
                    ghost cur: Grid, ghost gs: seq<seq<int>>, ghost tw: seq<SNode>, ghost low: nat)
    returns (n: SNode, ghost cur': Grid, ghost gs': seq<seq<int>>)
    requires Inner(exact, g, qs, k, height, cur, gs, tw, low) && 1 < low <= height
    requires AllHeld(cur, gs) && Tower(tw) && pred == g[low - 1][qs[low - 1]]
    requires lowest == (if tw == [] then null else tw[0])
    requires exact ==> index == qs[0] && rank == Place(KeysOf(g[low - 1]), KeysOf(g[0]), qs[low - 1])
    modifies pred`right, pred`gap
    modifies (if qs[low - 1] + 1 < |g[low - 1]| then {g[low - 1][qs[low - 1] + 1]} else {})`left
    modifies (if tw == [] then {} else {tw[0]})`down
    ensures fresh(n) && n.v == v && Inner(exact, g, qs, k, height, cur', gs', [n] + tw, low - 1)
    ensures cur'[0] == cur[0] && gs'[0] == gs[0]
    ensures AllHeld(cur', gs') && Tower([n] + tw)
  {
    ghost var m := low - 1;
    assert Turn(exact, g, qs, k, cur, gs, tw, low, m);
    assert HeldAt(cur, gs, m) && Chained(cur[m], qs[m], gs[m]);
    PileApart(tw, k, low);
    assert allocated(AllNodes(cur));
    n := new SNode(k, v, false, m);
    assert AllHeld(cur, gs);
    var predGap := index + 1 - rank;
    var newGap := pred.gap + 1 - predGap;
    cur' := cur[m := Spliced(cur[m], qs[m], n)];
    gs' := gs[m := SplicedGaps(gs[m], qs[m], predGap, newGap)];
    InnerSplice(exact, g, qs, k, height, cur, gs, tw, low, n, predGap, newGap, cur', gs');
    SpliceLevel(pred, n, predGap, newGap, cur, gs, m, qs[m]);
    assert Tower(tw) && allocated(AllNodes(cur'));
    PutUnder(n, lowest, tw);
    assert AllHeld(cur', gs');
  }

  // the predecessors a search returned, against those of every level
  ghost predicate Same(exact: bool, g: Grid, k: Key, preds: seq<(SNode, int)>, qs: seq<nat>)
    requires Ready(g, qs, k)
  {
    |preds| == |g| - 1
    && forall j {:trigger SameAt(exact, g, k, preds, qs, j)} :: 0 <= j < |preds| ==> SameAt(exact, g, k, preds, qs, j)
  }

  ghost predicate SameAt(exact: bool, g: Grid, k: Key, preds: seq<(SNode, int)>, qs: seq<nat>, j: nat)
    requires Ready(g, qs, k) && j < |preds| < |g|
  {
    var m := |g| - 1 - j;
    preds[j].0 == g[m][qs[m]] && (exact ==> preds[j].1 == Place(KeysOf(g[m]), KeysOf(g[0]), qs[m]))
  }

  // j levels from the top have been bumped, the bottom one has not
  ghost predicate BumpedTo(exact: bool, g: Grid, qs: seq<nat>, k: Key, height: nat, cur: Grid, gs: seq<seq<int>>,
                           tw: seq<SNode>, j: nat, bottom: seq<int>)
    reads AllNodes(cur)`right, AllNodes(cur)`left, AllNodes(cur)`gap, AllNodes(cur)`isHead
  {
    exists low: nat :: low + j == |g| && BumpedAt(exact, g, qs, k, height, cur, gs, tw, low, bottom)
  }

  ghost predicate BumpedAt(exact: bool, g: Grid, qs: seq<nat>, k: Key, height: nat, cur: Grid, gs: seq<seq<int>>,
                           tw: seq<SNode>, low: nat, bottom: seq<int>)
    reads AllNodes(cur)`right, AllNodes(cur)`left, AllNodes(cur)`gap, AllNodes(cur)`isHead
  {
    Inner(exact, g, qs, k, height, cur, gs, tw, low) && AllHeld(cur, gs) && gs[0] == bottom
  }

  method BumpOne(ghost exact: bool, preds: seq<(SNode, int)>, j: nat, ghost g: Grid, ghost qs: seq<nat>, ghost k: Key,
                 ghost height: nat, ghost cur: Grid, ghost gs: seq<seq<int>>, ghost tw: seq<SNode>,
                 ghost bottom: seq<int>)
    returns (ghost gs': seq<seq<int>>)
    requires j + 1 < |g| && height < |g| - j && BumpedTo(exact, g, qs, k, height, cur, gs, tw, j, bottom)
    requires Same(exact, g, k, preds, qs)
    modifies AllNodes(g)`gap
    ensures BumpedTo(exact, g, qs, k, height, cur, gs', tw, j + 1, bottom)
  {
    assert SameAt(exact, g, k, preds, qs, j);
    InAll(g, |g| - 1 - j);
    gs' := BumpTurn(exact, preds[j].0, g, qs, k, height, cur, gs, tw, |g| - j);
    assert BumpedAt(exact, g, qs, k, height, cur, gs', tw, |g| - j - 1, bottom);
  }

  // levels that only have the key pass below them
  method BumpLevels(ghost exact: bool, preds: seq<(SNode, int)>, r: nat, ghost g: Grid, ghost qs: seq<nat>,
                    ghost k: Key, ghost height: nat, ghost cur: Grid, ghost gs: seq<seq<int>>, ghost tw: seq<SNode>)
    returns (ghost gs': seq<seq<int>>)
    requires Inner(exact, g, qs, k, height, cur, gs, tw, |g|) && AllHeld(cur, gs) && Same(exact, g, k, preds, qs)
    requires r == (if height < |g| then |g| - height else 0) && height >= 1
    modifies AllNodes(g)`gap
    ensures Inner(exact, g, qs, k, height, cur, gs', tw, |g| - r) && AllHeld(cur, gs') && gs'[0] == gs[0]
  {
    gs' := gs;
    assert BumpedAt(exact, g, qs, k, height, cur, gs, tw, |g|, gs[0]);
    for j := 0 to r
      invariant BumpedTo(exact, g, qs, k, height, cur, gs', tw, j, gs[0])
    {
      gs' := BumpOne(exact, preds, j, g, qs, k, height, cur, gs', tw, gs[0]);
    }
  }

  ghost predicate EndsWith(tw: seq<SNode>, tail: seq<SNode>) {
    |tail| <= |tw| && tw[|tw| - |tail|..] == tail
  }

  lemma {:induction false} EndsWithMore(n: SNode, tw: seq<SNode>, tail: seq<SNode>)
    requires EndsWith(tw, tail)
    ensures EndsWith([n] + tw, tail)
  {
    assert ([n] + tw)[|tw| + 1 - |tail|..] == tw[|tw| - |tail|..];
  }

  // levels that get a node of the key, the highest first
  method SpliceLevels(ghost exact: bool, preds: seq<(SNode, int)>, r: nat, k: Key, v: Value, index: int,
                      lowest0: SNode?, ghost g: Grid, ghost qs: seq<nat>, ghost height: nat, ghost cur0: Grid,
                      ghost gs0: seq<seq<int>>, ghost tw0: seq<SNode>)
    returns (lowest: SNode?, ghost cur: Grid, ghost gs: seq<seq<int>>, ghost tw: seq<SNode>)
    requires Ready(g, qs, k) && r == (if height < |g| then |g| - height else 0) && height >= 1
    requires Inner(exact, g, qs, k, height, cur0, gs0, tw0, |g| - r) && AllHeld(cur0, gs0) && Tower(tw0)
    requires Same(exact, g, k, preds, qs) && (exact ==> index == qs[0])
    requires lowest0 == (if tw0 == [] then null else tw0[0])
    modifies AllNodes(g)`right, AllNodes(g)`left, AllNodes(g)`gap
    modifies (if tw0 == [] then {} else {tw0[0]})`down
    ensures Inner(exact, g, qs, k, height, cur, gs, tw, 1) && AllHeld(cur, gs) && Tower(tw)
    ensures lowest == (if tw == [] then null else tw[0])
    ensures EndsWith(tw, tw0) && cur[0] == cur0[0] && gs[0] == gs0[0]
    ensures lowest == lowest0 || fresh(lowest)
    ensures (forall x :: x in tw ==> x in tw0 || fresh(x)) && (Carry(tw0, v) ==> Carry(tw, v))
  {
    lowest, cur, gs, tw := lowest0, cur0, gs0, tw0;
    for j := r to |preds|
      invariant Inner(exact, g, qs, k, height, cur, gs, tw, |g| - j) && AllHeld(cur, gs) && Tower(tw)
      invariant lowest == (if tw == [] then null else tw[0])
      invariant lowest == lowest0 || fresh(lowest)
      invariant EndsWith(tw, tw0) && cur[0] == cur0[0] && gs[0] == gs0[0]
      invariant (forall x :: x in tw ==> x in tw0 || fresh(x)) && (Carry(tw0, v) ==> Carry(tw, v))
    {
      ghost var m := |g| - 1 - j;
      assert SameAt(exact, g, k, preds, qs, j);
      InAll(g, m);
      var n;
      n, cur, gs := SpliceTurn(exact, preds[j].0, preds[j].1, k, v, index, lowest, g, qs, height, cur, gs, tw, |g| - j);
      EndsWithMore(n, tw, tw0);
      tw := [n] + tw;
      lowest := n;
    }
  }

  // ---------- the grid after an insertion ----------

  // n is the key's node on the bottom, cur the old levels with it and its tower
  ghost predicate Joined(exact: bool, g: Grid, qs: seq<nat>, k: Key, height: nat, cur: Grid, gs: seq<seq<int>>,
                         n0: SNode, tw: seq<SNode>)
  {
    Inner(exact, g, qs, k, height, cur, gs, tw, 1)
    && n0.k == k && n0.lvl == 0 && cur[0] == Spliced(g[0], qs[0], n0)
    && |gs[0]| == |cur[0]| && (exact ==> gs[0] == Gaps(Bottom(g, qs, k), Bottom(g, qs, k)))
  }

  // all levels, with the new ones on top
  ghost function Grown(cur: Grid, hd: seq<SNode>, top: seq<SNode>): (r: Grid)
    requires |hd| == |top|
    ensures |r| == |cur| + |hd|
    ensures forall l :: 0 <= l < |cur| ==> r[l] == cur[l]
    ensures forall l :: |cur| <= l < |r| ==> r[l] == [hd[l - |cur|], top[l - |cur|]]
  {
    cur + seq(|hd|, j requires 0 <= j < |hd| => [hd[j], top[j]])
  }

  // the keys of level m after the insertion
  lemma {:induction false} JoinedLevel(exact: bool, g: Grid, qs: seq<nat>, k: Key, height: nat, cur: Grid,
                                       gs: seq<seq<int>>, n0: SNode, tw: seq<SNode>, m: nat)
    requires Joined(exact, g, qs, k, height, cur, gs, n0, tw) && m < |g| && height >= 1
    ensures cur[m] == if m < height then Spliced(g[m], qs[m], ([n0] + tw)[m]) else g[m]
    ensures m < height ==> ([n0] + tw)[m].k == k && ([n0] + tw)[m].lvl == m
    ensures Nested(KeysOf(cur[m]), Bottom(g, qs, k)) && |gs[m]| == |cur[m]|
    ensures exact ==> gs[m] == Gaps(KeysOf(cur[m]), Bottom(g, qs, k))
    ensures Level(m, cur[m]) && KeysOf(cur[0]) == Bottom(g, qs, k)
  {
    SplicedKeys(g[0], qs[0], n0);
    if m > 0 {
      assert Turn(exact, g, qs, k, cur, gs, tw, 1, m);
    } else {
      SplicedLevel(0, g[0], qs[0], n0);
    }
  }

  // which keys level m has, and with which nodes
  lemma {:induction false} JoinedFind(exact: bool, g: Grid, qs: seq<nat>, k: Key, height: nat, cur: Grid,
                                      gs: seq<seq<int>>, n0: SNode, tw: seq<SNode>, m: nat, x: Key)
    requires Joined(exact, g, qs, k, height, cur, gs, n0, tw) && m < |g| && height >= 1
    ensures x in KeysOf(cur[m]) <==> (x == k && m < height) || x in KeysOf(g[m])
    ensures Find(cur, m, x) == if x == k then (if m < height then ([n0] + tw)[m] else null) else Find(g, m, x)
  {
    JoinedLevel(exact, g, qs, k, height, cur, gs, n0, tw, m);
    InsertAscending(KeysOf(g[m]), qs[m], k);
    if m < height {
      NodeAtSpliced(m, g[m], qs[m], ([n0] + tw)[m], x);
    }
  }

  lemma {:induction false} DuoKeys(head: SNode, n: SNode, k: Key, l: nat)
    requires head.k == NegInf && n.k == k && k != NegInf && head.lvl == l && n.lvl == l
    ensures KeysOf([head, n]) == [NegInf, k] && Level(l, [head, n])
    ensures NodeAt([head, n], NegInf) == head && NodeAt([head, n], k) == n
  {
    assert KeysOf([head, n]) == [NegInf, k];
  }

  ghost predicate Topping(g: Grid, k: Key, height: nat, hd: seq<SNode>, tw: seq<SNode>)
    requires g != []
  {
    |hd| == (if height > |g| then height - |g| else 0) && Pile(hd, NegInf, |g|)
    && |tw| == (if height > 1 then height - 1 else 0) && Pile(tw, k, 1) && k != NegInf
  }

  // the tower's part above the old levels
  ghost function TopOf(g: Grid, hd: seq<SNode>, tw: seq<SNode>): (t: seq<SNode>)
    requires g != [] && |hd| <= |tw| && (hd != [] ==> |tw| == |g| - 1 + |hd|)
    ensures |t| == |hd|
  {
    if hd == [] then [] else tw[|g| - 1..]
  }

  lemma {:induction false} GrownShape(exact: bool, g: Grid, qs: seq<nat>, k: Key, height: nat, cur: Grid,
                                      gs: seq<seq<int>>, n0: SNode, tw: seq<SNode>, hd: seq<SNode>, r: Grid)
    requires Joined(exact, g, qs, k, height, cur, gs, n0, tw) && height >= 1 && Topping(g, k, height, hd, tw)
    requires |g[0]| > 1
    requires r == Grown(cur, hd, TopOf(g, hd, tw))
    ensures Shape(r) && KeysOf(r[0]) == Bottom(g, qs, k)
  {
    var b := Bottom(g, qs, k);
    JoinedLevel(exact, g, qs, k, height, cur, gs, n0, tw, 0);
    forall l | 0 <= l < |r| ensures Level(l, r[l]) && Nested(KeysOf(r[l]), b) && |r[l]| > 1 {
      if l < |g| {
        JoinedLevel(exact, g, qs, k, height, cur, gs, n0, tw, l);
      } else {
        DuoKeys(r[l][0], r[l][1], k, l);
        GapsFresh(KeysOf(g[0]), qs[0], k, b);
      }
    }
    forall l, m | 0 <= l < m < |r| && m == l + 1 ensures Nested(KeysOf(r[m]), KeysOf(r[l])) {
      GrownNested(exact, g, qs, k, height, cur, gs, n0, tw, hd, r, l, m);
    }
  }

  lemma {:induction false} GrownNested(exact: bool, g: Grid, qs: seq<nat>, k: Key, height: nat, cur: Grid,
                                       gs: seq<seq<int>>, n0: SNode, tw: seq<SNode>, hd: seq<SNode>, r: Grid, l: nat,
                                       m: nat)
    requires Joined(exact, g, qs, k, height, cur, gs, n0, tw) && height >= 1 && Topping(g, k, height, hd, tw)
    requires r == Grown(cur, hd, TopOf(g, hd, tw)) && l < m < |r| && m == l + 1
    ensures Nested(KeysOf(r[m]), KeysOf(r[l]))
  {
    forall x | x in KeysOf(r[m]) ensures x in KeysOf(r[l]) {
      if m < |g| {
        JoinedFind(exact, g, qs, k, height, cur, gs, n0, tw, m, x);
        JoinedFind(exact, g, qs, k, height, cur, gs, n0, tw, l, x);
      } else {
        DuoKeys(r[m][0], r[m][1], k, m);
        if l < |g| {
          JoinedFind(exact, g, qs, k, height, cur, gs, n0, tw, l, x);
          assert KeysOf(g[l])[0] == NegInf;
        } else {
          DuoKeys(r[l][0], r[l][1], k, l);
        }
      }
    }
  }

  // their gaps
  ghost function GrownGaps(gs: seq<seq<int>>, n: nat, gap: int, rest: int): (r: seq<seq<int>>)
    ensures |r| == |gs| + n
    ensures forall l :: 0 <= l < |gs| ==> r[l] == gs[l]
    ensures forall l :: |gs| <= l < |r| ==> r[l] == [gap, rest]
  {
    gs + seq(n, j requires 0 <= j < n => [gap, rest])
  }

  lemma {:induction false} GrownHeld(exact: bool, g: Grid, qs: seq<nat>, k: Key, height: nat, cur: Grid,
                                     gs: seq<seq<int>>, n0: SNode, tw: seq<SNode>, hd: seq<SNode>, gap: int, rest: int,
                                     r: Grid)
    requires Joined(exact, g, qs, k, height, cur, gs, n0, tw) && height >= 1 && Topping(g, k, height, hd, tw)
    requires r == Grown(cur, hd, TopOf(g, hd, tw))
    requires AllHeld(cur, gs) && Duos(hd, TopOf(g, hd, tw), gap, rest)
    ensures AllHeld(r, GrownGaps(gs, |hd|, gap, rest))
  {
    var gs' := GrownGaps(gs, |hd|, gap, rest);
    forall l | 0 <= l < |r| ensures HeldAt(r, gs', l) {
      if l < |g| {
        assert HeldAt(cur, gs, l);
      } else {
        assert DuoAt(hd, TopOf(g, hd, tw), gap, rest, l - |g|);
        DuoHeld(r[l][0], r[l][1], gap, rest);
      }
    }
  }

  // true gaps stay true
  lemma {:induction false} GrownTrue(g: Grid, qs: seq<nat>, k: Key, height: nat, cur: Grid, gs: seq<seq<int>>,
                                     n0: SNode, tw: seq<SNode>, hd: seq<SNode>, r: Grid)
    requires Joined(true, g, qs, k, height, cur, gs, n0, tw) && height >= 1 && Topping(g, k, height, hd, tw)
    requires r == Grown(cur, hd, TopOf(g, hd, tw)) && Shape(r) && KeysOf(r[0]) == Bottom(g, qs, k)
    ensures GrownGaps(gs, |hd|, qs[0] + 1, |g[0]| - qs[0] - 1) == TrueGaps(r)
  {
    var a, b := GrownGaps(gs, |hd|, qs[0] + 1, |g[0]| - qs[0] - 1), TrueGaps(r);
    forall l | 0 <= l < |r| ensures a[l] == b[l] {
      if l < |g| {
        JoinedLevel(true, g, qs, k, height, cur, gs, n0, tw, l);
      } else {
        DuoKeys(r[l][0], r[l][1], k, l);
        GapsFresh(KeysOf(g[0]), qs[0], k, Bottom(g, qs, k));
      }
    }
  }

  // towers as they were, but for what is above the old top head
  ghost predicate StackedBut(g: Grid, l: nat, n: SNode, top: SNode?)
    requires g != [] && g[|g| - 1] != []
    reads n`up, n`down
  {
    n.down == Find(g, l - 1, n.k)
    && n.up == (if n == g[|g| - 1][0] then top else Find(g, l + 1, n.k))
  }

  ghost predicate TowersBut(g: Grid, top: SNode?)
    requires g != [] && g[|g| - 1] != []
    reads AllNodes(g)`up, AllNodes(g)`down
  {
    forall l, i {:trigger StackedBut(g, l, g[l][i], top)} ::
      0 <= l < |g| && 0 <= i < |g[l]| ==> StackedBut(g, l, g[l][i], top)
  }

  // what a level of the new grid has for a key
  lemma {:induction false} GrownFind(exact: bool, g: Grid, qs: seq<nat>, k: Key, height: nat, cur: Grid,
                                     gs: seq<seq<int>>, n0: SNode, tw: seq<SNode>, hd: seq<SNode>, r: Grid, l: int,
                                     x: Key)
    requires Joined(exact, g, qs, k, height, cur, gs, n0, tw) && height >= 1 && Topping(g, k, height, hd, tw)
    requires r == Grown(cur, hd, TopOf(g, hd, tw))
    ensures x == k ==> Find(r, l, x) == if 0 <= l < height then ([n0] + tw)[l] else null
    ensures x != k && l < |g| ==> Find(r, l, x) == Find(g, l, x)
    ensures x != k && l >= |g| ==> Find(r, l, x) == if x == NegInf && l < |r| then hd[l - |g|] else null
  {
    if 0 <= l < |g| {
      JoinedFind(exact, g, qs, k, height, cur, gs, n0, tw, l, x);
    } else if |g| <= l < |r| {
      DuoKeys(r[l][0], r[l][1], k, l);
    }
  }

  lemma {:induction false} GrownTowers(exact: bool, g: Grid, qs: seq<nat>, k: Key, height: nat, cur: Grid,
                                       gs: seq<seq<int>>, n0: SNode, tw: seq<SNode>, hd: seq<SNode>, r: Grid)
    requires Joined(exact, g, qs, k, height, cur, gs, n0, tw) && height >= 1 && Topping(g, k, height, hd, tw)
    requires r == Grown(cur, hd, TopOf(g, hd, tw)) && g[|g| - 1] != []
    requires TowersBut(g, if hd == [] then null else hd[0])
    requires Tower([n0] + tw) && TowerOn(hd, g[|g| - 1][0])
    ensures Towers(r)
  {
    forall l, i | 0 <= l < |r| && 0 <= i < |r[l]| ensures Stacked(r, l, r[l][i]) {
      var n := r[l][i];
      GrownFind(exact, g, qs, k, height, cur, gs, n0, tw, hd, r, l - 1, n.k);
      GrownFind(exact, g, qs, k, height, cur, gs, n0, tw, hd, r, l + 1, n.k);
      if l < |g| {
        OldStacked(exact, g, qs, k, height, cur, gs, n0, tw, hd, r, l, i);
      } else {
        NewStacked(exact, g, qs, k, height, cur, gs, n0, tw, hd, r, l, i);
      }
    }
  }

  lemma {:induction false} NewStacked(exact: bool, g: Grid, qs: seq<nat>, k: Key, height: nat, cur: Grid,
                                      gs: seq<seq<int>>, n0: SNode, tw: seq<SNode>, hd: seq<SNode>, r: Grid, l: nat,
                                      i: nat)
    requires Joined(exact, g, qs, k, height, cur, gs, n0, tw) && height >= 1 && Topping(g, k, height, hd, tw)
    requires r == Grown(cur, hd, TopOf(g, hd, tw)) && g[|g| - 1] != []
    requires Tower([n0] + tw) && TowerOn(hd, g[|g| - 1][0])
    requires |g| <= l < |r| && i < |r[l]|
    ensures Stacked(r, l, r[l][i])
  {
    var n := r[l][i];
    var j := l - |g|;
    GrownFind(exact, g, qs, k, height, cur, gs, n0, tw, hd, r, l - 1, n.k);
    GrownFind(exact, g, qs, k, height, cur, gs, n0, tw, hd, r, l + 1, n.k);
    if i == 0 {
      assert TowerOnAt(hd, g[|g| - 1][0], j);
      if j == 0 {
        NodeAtIs(|g| - 1, g[|g| - 1], 0);
        assert KeysOf(g[|g| - 1])[0] == NegInf;
      }
    } else {
      assert n == ([n0] + tw)[l];
      assert TowerAt([n0] + tw, l);
    }
  }

  lemma {:induction false} OldStacked(exact: bool, g: Grid, qs: seq<nat>, k: Key, height: nat, cur: Grid,
                                      gs: seq<seq<int>>, n0: SNode, tw: seq<SNode>, hd: seq<SNode>, r: Grid, l: nat,
                                      i: nat)
    requires Joined(exact, g, qs, k, height, cur, gs, n0, tw) && height >= 1 && Topping(g, k, height, hd, tw)
    requires r == Grown(cur, hd, TopOf(g, hd, tw)) && g[|g| - 1] != []
    requires TowersBut(g, if hd == [] then null else hd[0]) && Tower([n0] + tw)
    requires l < |g| && i < |r[l]|
    ensures Stacked(r, l, r[l][i])
  {
    if r[l][i].k == k {
      KeyStacked(exact, g, qs, k, height, cur, gs, n0, tw, hd, r, l, i);
    } else {
      JoinedLevel(exact, g, qs, k, height, cur, gs, n0, tw, l);
      var j := OldIndex(g[l], qs[l], ([n0] + tw)[if l < height then l else 0], cur[l], i, l < height, k);
      KeptStacked(exact, g, qs, k, height, cur, gs, n0, tw, hd, r, l, j);
    }
  }

  // a node of the new key has the other new ones above and below
  lemma {:induction false} KeyStacked(exact: bool, g: Grid, qs: seq<nat>, k: Key, height: nat, cur: Grid,
                                      gs: seq<seq<int>>, n0: SNode, tw: seq<SNode>, hd: seq<SNode>, r: Grid, l: nat,
                                      i: nat)
    requires Joined(exact, g, qs, k, height, cur, gs, n0, tw) && height >= 1 && Topping(g, k, height, hd, tw)
    requires r == Grown(cur, hd, TopOf(g, hd, tw)) && Tower([n0] + tw)
    requires l < |g| && i < |r[l]| && r[l][i].k == k
    ensures Stacked(r, l, r[l][i])
  {
    GrownFind(exact, g, qs, k, height, cur, gs, n0, tw, hd, r, l - 1, k);
    GrownFind(exact, g, qs, k, height, cur, gs, n0, tw, hd, r, l + 1, k);
    JoinedLevel(exact, g, qs, k, height, cur, gs, n0, tw, l);
    OneOfKey(l, cur[l], i, k);
    JoinedFind(exact, g, qs, k, height, cur, gs, n0, tw, l, k);
    InsertAscending(KeysOf(g[l]), qs[l], k);
    assert TowerAt([n0] + tw, l);
  }

  // an old node has the same ones as before, but for a new level on top
  lemma {:induction false} KeptStacked(exact: bool, g: Grid, qs: seq<nat>, k: Key, height: nat, cur: Grid,
                                       gs: seq<seq<int>>, n0: SNode, tw: seq<SNode>, hd: seq<SNode>, r: Grid, l: nat,
                                       j: nat)
    requires Joined(exact, g, qs, k, height, cur, gs, n0, tw) && height >= 1 && Topping(g, k, height, hd, tw)
    requires r == Grown(cur, hd, TopOf(g, hd, tw)) && g[|g| - 1] != []
    requires TowersBut(g, if hd == [] then null else hd[0])
    requires l < |g| && j < |g[l]| && g[l][j].k != k
    ensures Stacked(r, l, g[l][j])
  {
    var n := g[l][j];
    GrownFind(exact, g, qs, k, height, cur, gs, n0, tw, hd, r, l - 1, n.k);
    GrownFind(exact, g, qs, k, height, cur, gs, n0, tw, hd, r, l + 1, n.k);
    JoinedLevel(exact, g, qs, k, height, cur, gs, n0, tw, l);
    assert StackedBut(g, l, n, if hd == [] then null else hd[0]);
    if l < |g| - 1 {
      assert n != g[|g| - 1][0];
    } else if j > 0 {
      LevelDistinct(l, g[l], 0, j);
      assert Less(KeysOf(g[l])[0], KeysOf(g[l])[j]);
    }
  }

  lemma {:induction false} OneOfKey(l: nat, nds: seq<SNode>, i: nat, k: Key)
    requires Level(l, nds) && i < |nds| && nds[i].k == k
    ensures k in KeysOf(nds) && NodeAt(nds, k) == nds[i]
  {
    NodeAtIs(l, nds, i);
  }

  // a node of a level that is not the new one was there before
  lemma {:induction false} OldIndex(nds: seq<SNode>, q: nat, n: SNode, cur: seq<SNode>, i: nat, spliced: bool, k: Key)
    returns (j: nat)
    requires q < |nds| && cur == (if spliced then Spliced(nds, q, n) else nds) && i < |cur|
    requires spliced ==> n.k == k
    requires cur[i].k != k
    ensures j < |nds| && nds[j] == cur[i] && (i == 0 ==> j == 0)
  {
    j := if !spliced || i <= q then i else i - 1;
  }

  // ---------- insertion, put together ----------

  // the node on the bottom
  method SpliceBottom(ghost exact: bool, pred: SNode, k: Key, v: Value, ghost g: Grid, ghost gs0: seq<seq<int>>,
                      ghost qs: seq<nat>)
    returns (n: SNode, ghost cur: Grid, ghost gs: seq<seq<int>>)
    requires Ready(g, qs, k) && AllHeld(g, gs0) && (exact ==> gs0 == TrueGaps(g)) && pred == g[0][qs[0]]
    modifies pred`right, pred`gap
    modifies (if qs[0] + 1 < |g[0]| then {g[0][qs[0] + 1]} else {})`left
    ensures fresh(n) && n.k == k && n.v == v && n.lvl == 0 && n.up == null && n.down == null
    ensures cur == g[0 := Spliced(g[0], qs[0], n)]
    ensures gs != [] && |gs| == |gs0| && gs == gs0[0 := gs[0]] && |gs[0]| == |cur[0]|
    ensures exact ==> gs[0] == Gaps(Bottom(g, qs, k), Bottom(g, qs, k))
    ensures Leveled(cur) && AllHeld(cur, gs)
  {
    assert HeldAt(g, gs0, 0) && Chained(g[0], qs[0], gs0[0]);
    assert allocated(AllNodes(g));
    n := new SNode(k, v, false, 0);
    assert AllHeld(g, gs0);
    var newGap := if pred.right != null then 1 else 0;
    GapsBottom(KeysOf(g[0]), qs[0], k, Bottom(g, qs, k), 1, newGap);
    SplicedLevel(0, g[0], qs[0], n);
    cur := g[0 := Spliced(g[0], qs[0], n)];
    gs := gs0[0 := SplicedGaps(gs0[0], qs[0], 1, newGap)];
    SpliceLevel(pred, n, 1, newGap, g, gs0, 0, qs[0]);
  }

  ghost predicate Sized(g: Grid, gs: seq<seq<int>>) {
    |gs| == |g| && forall l :: 0 <= l < |g| ==> |gs[l]| == |g[l]|
  }

  lemma {:induction false} HeldSized(g: Grid, gs: seq<seq<int>>)
    requires AllHeld(g, gs)
    ensures Sized(g, gs)
  {
    forall l | 0 <= l < |g| ensures |gs[l]| == |g[l]| { assert HeldAt(g, gs, l); }
  }

  lemma {:induction false} InnerStart(exact: bool, g: Grid, qs: seq<nat>, k: Key, height: nat, cur: Grid,
                                      gs: seq<seq<int>>, n: SNode, tw: seq<SNode>, gs0: seq<seq<int>>)
    requires Ready(g, qs, k) && cur == g[0 := Spliced(g[0], qs[0], n)] && Leveled(cur)
    requires Sized(g, gs0) && (exact ==> gs0 == TrueGaps(g)) && gs != [] && |gs| == |gs0| && gs == gs0[0 := gs[0]]
    requires |tw| == (if |g| < height then height - |g| else 0) && Pile(tw, k, |g|)
    ensures Inner(exact, g, qs, k, height, cur, gs, tw, |g|)
  {
    forall m | 1 <= m < |g| ensures Turn(exact, g, qs, k, cur, gs, tw, |g|, m) {
    }
  }

  lemma {:induction false} SearchedReady(exact: bool, g: Grid, k: Key, i: nat, preds: seq<(SNode, int)>,
                                         qrev: seq<nat>, qs: seq<nat>)
    requires Shape(g) && k != NegInf && Predecessors(exact, g, k, 0, preds, qrev) && i < |g[0]|
    requires IsPred(KeysOf(g[0]), k, i)
    requires |qs| == |g| && qs[0] == i && forall m :: 1 <= m < |g| ==> qs[m] == qrev[|g| - 1 - m]
    ensures Ready(g, qs, k) && Same(exact, g, k, preds, qs)
  {
    forall m | 0 <= m < |g| ensures qs[m] < |g[m]| && IsPred(KeysOf(g[m]), k, qs[m]) {
      if m > 0 { assert PredecessorAt(exact, g, k, preds, qrev, |g| - 1 - m); }
    }
    forall j | 0 <= j < |preds| ensures SameAt(exact, g, k, preds, qs, j) {
      assert PredecessorAt(exact, g, k, preds, qrev, j);
    }
  }

  // what NewLevels leaves for the rest of an insertion, or nothing at all
  ghost predicate Topped(g: Grid, k: Key, height: nat, gap: int, rest: int,
                         hd: seq<SNode>, tw: seq<SNode>, lowest: SNode?)
    requires g != [] && g[|g| - 1] != []
    reads hd`right, hd`left, hd`gap, hd`isHead, tw`right, tw`left, tw`gap, tw`isHead
    reads hd`up, hd`down, tw`up, tw`down
  {
    |hd| == |tw| == (if |g| < height then height - |g| else 0)
    && Pile(hd, NegInf, |g|) && Pile(tw, k, |g|)
    && Duos(hd, tw, gap, rest) && TowerOn(hd, g[|g| - 1][0]) && Tower(tw)
    && lowest == (if tw == [] then null else tw[0])
  }

  lemma {:induction false} TowersNow(g: Grid)
    requires Shape(g) && Towers(g)
    ensures TowersBut(g, null)
  {
    forall l, i | 0 <= l < |g| && 0 <= i < |g[l]| ensures StackedBut(g, l, g[l][i], null) {
      assert Stacked(g, l, g[l][i]);
    }
  }

  lemma {:induction false} LevelHeadOnly(g: Grid, l: nat, i: nat)
    requires Shape(g) && l < |g| && i < |g[l]| && g[l][i] == g[|g| - 1][0]
    ensures l == |g| - 1 && i == 0
  {
    assert g[l][i].lvl == l && g[|g| - 1][0].lvl == |g| - 1;
    if i > 0 { LevelDistinct(l, g[l], 0, i); }
  }

  // new levels when the node is higher than the list
  method GrowTop(k: Key, v: Value, headValue: Value, gap: int, rest: int, h: nat, height: nat, sl: SNode, ghost g: Grid)
    returns (top: SNode, lowest: SNode?, ghost hd: seq<SNode>, ghost tw: seq<SNode>)
    requires Shape(g) && Towers(g) && sl == g[|g| - 1][0] && h == |g| && k != NegInf
    modifies sl`up
    ensures Topped(g, k, height, gap, rest, hd, tw, lowest)
    ensures TowersBut(g, if hd == [] then null else hd[0])
    ensures top == (if hd == [] then sl else hd[|hd| - 1])
    ensures fresh(set x | x in hd) && fresh(set x | x in tw) && Carry(tw, v)
  {
    TowersNow(g);
    top, lowest, hd, tw := sl, null, [], [];
    if h < height {
      assert allocated(AllNodes(g));
      top, lowest, hd, tw := NewLevels(k, v, headValue, gap, rest, h, height - h, sl);
      forall l, i | 0 <= l < |g| && 0 <= i < |g[l]| ensures StackedBut(g, l, g[l][i], hd[0]) {
        assert old(StackedBut(g, l, g[l][i], null));
        if g[l][i] == sl { LevelHeadOnly(g, l, i); }
      }
    }
  }

  // the new levels do not share nodes with the old ones
  ghost predicate Separate(g: Grid, nds: seq<SNode>) {
    forall n :: n in nds ==> n !in AllNodes(g)
  }

  // what stands above and beside the old levels
  ghost predicate Around(g: Grid, hd: seq<SNode>, tw: seq<SNode>, gap: int, rest: int)
    requires g != [] && g[|g| - 1] != []
    reads hd`right, hd`left, hd`gap, hd`isHead, tw`right, tw`left, tw`gap, tw`isHead
    reads hd`up, hd`down, AllNodes(g)`up, AllNodes(g)`down
  {
    Duos(hd, tw, gap, rest) && TowerOn(hd, g[|g| - 1][0]) && TowersBut(g, if hd == [] then null else hd[0])
  }

  method BumpBetween(ghost exact: bool, ghost k: Key, preds: seq<(SNode, int)>, r: nat, ghost height: nat,
                     ghost gap: int, ghost rest: int, ghost g: Grid, ghost qs: seq<nat>,
                     ghost cur: Grid, ghost gs: seq<seq<int>>, ghost hd: seq<SNode>, ghost tw: seq<SNode>)
    returns (ghost gs': seq<seq<int>>)
    requires Inner(exact, g, qs, k, height, cur, gs, tw, |g|) && AllHeld(cur, gs)
    requires Same(exact, g, k, preds, qs) && height >= 1 && r == (if height < |g| then |g| - height else 0)
    requires Tower(tw) && Around(g, hd, tw, gap, rest) && Separate(g, hd) && Separate(g, tw)
    modifies AllNodes(g)`gap
    ensures Inner(exact, g, qs, k, height, cur, gs', tw, |g| - r) && AllHeld(cur, gs') && gs'[0] == gs[0]
    ensures Tower(tw) && Around(g, hd, tw, gap, rest)
  {
    assert allocated(AllNodes(g));
    gs' := BumpLevels(exact, preds, r, g, qs, k, height, cur, gs, tw);
  }

  method SpliceBetween(ghost exact: bool, preds: seq<(SNode, int)>, r: nat, k: Key, v: Value, index: int,
                       lowest0: SNode?, ghost gap: int, ghost rest: int, ghost g: Grid, ghost qs: seq<nat>,
                       ghost height: nat, ghost cur0: Grid, ghost gs0: seq<seq<int>>, ghost hd: seq<SNode>,
                       ghost tw0: seq<SNode>)
    returns (lowest: SNode?, ghost cur: Grid, ghost gs: seq<seq<int>>, ghost tw: seq<SNode>)
    requires Ready(g, qs, k) && r == (if height < |g| then |g| - height else 0) && height >= 1
    requires Inner(exact, g, qs, k, height, cur0, gs0, tw0, |g| - r) && AllHeld(cur0, gs0) && Tower(tw0)
    requires Same(exact, g, k, preds, qs) && (exact ==> index == qs[0])
    requires lowest0 == (if tw0 == [] then null else tw0[0])
    requires Around(g, hd, tw0, gap, rest) && Separate(g, hd) && Separate(g, tw0)
    requires tw0 != [] ==> tw0[0] !in hd
    modifies AllNodes(g)`right, AllNodes(g)`left, AllNodes(g)`gap
    modifies (if tw0 == [] then {} else {tw0[0]})`down
    ensures Inner(exact, g, qs, k, height, cur, gs, tw, 1) && AllHeld(cur, gs) && Tower(tw)
    ensures EndsWith(tw, tw0) && cur[0] == cur0[0] && gs[0] == gs0[0]
    ensures lowest == (if tw == [] then null else tw[0]) && (lowest == lowest0 || fresh(lowest))
    ensures (forall x :: x in tw ==> x in tw0 || fresh(x)) && (Carry(tw0, v) ==> Carry(tw, v))
    ensures Around(g, hd, tw0, gap, rest)
  {
    assert tw0 != [] ==> tw0[0] in tw0 && tw0[0] !in AllNodes(g);
    assert allocated(AllNodes(g));
    lowest, cur, gs, tw := SpliceLevels(exact, preds, r, k, v, index, lowest0, g, qs, height, cur0, gs0, tw0);
  }

  // bump and splice the levels between
  method Between(ghost exact: bool, k: Key, v: Value, index: int, preds: seq<(SNode, int)>, height: nat, h: nat,
                 lowest0: SNode?, ghost gap: int, ghost rest: int, ghost g: Grid, ghost qs: seq<nat>,
                 ghost cur0: Grid, ghost gs0: seq<seq<int>>, ghost hd: seq<SNode>, ghost tw0: seq<SNode>)
    returns (lowest: SNode?, ghost cur: Grid, ghost gs: seq<seq<int>>, ghost tw: seq<SNode>)
    requires Inner(exact, g, qs, k, height, cur0, gs0, tw0, |g|) && AllHeld(cur0, gs0)
    requires Same(exact, g, k, preds, qs) && (exact ==> index == qs[0]) && height >= 1 && h == |g|
    requires lowest0 == (if tw0 == [] then null else tw0[0]) && Tower(tw0)
    requires Around(g, hd, tw0, gap, rest) && Separate(g, hd) && Separate(g, tw0)
    requires Pile(hd, NegInf, |g|)
    modifies AllNodes(g)`right, AllNodes(g)`left, AllNodes(g)`gap
    modifies (if tw0 == [] then {} else {tw0[0]})`down
    ensures Inner(exact, g, qs, k, height, cur, gs, tw, 1) && AllHeld(cur, gs) && Tower(tw)
    ensures EndsWith(tw, tw0) && cur[0] == cur0[0] && gs[0] == gs0[0]
    ensures lowest == (if tw == [] then null else tw[0]) && (lowest == lowest0 || fresh(lowest))
    ensures (forall x :: x in tw ==> x in tw0 || fresh(x)) && (Carry(tw0, v) ==> Carry(tw, v))
    ensures Around(g, hd, tw0, gap, rest)
  {
    var r := if height < h then h - height else 0;
    ghost var gs1 := BumpBetween(exact, k, preds, r, height, gap, rest, g, qs, cur0, gs0, hd, tw0);
    if tw0 != [] { PilesApart(hd, tw0, k, |g|, tw0[0]); }
    lowest, cur, gs, tw := SpliceBetween(exact, preds, r, k, v, index, lowest0, gap, rest, g, qs, height, cur0, gs1,
                                         hd, tw0);
  }

  // the bottom node comes under its tower
  method CloseTower(n0: SNode, lowest: SNode?, ghost k: Key, ghost gap: int, ghost rest: int, ghost g: Grid,
                    ghost cur: Grid, ghost gs: seq<seq<int>>, ghost hd: seq<SNode>, ghost tw0: seq<SNode>,
                    ghost tw: seq<SNode>)
    requires g != [] && g[|g| - 1] != [] && Around(g, hd, tw0, gap, rest) && AllHeld(cur, gs)
    requires Pile(tw, k, 1) && Pile(hd, NegInf, |g|) && k != NegInf && Tower(tw)
    requires lowest == (if tw == [] then null else tw[0])
    requires Separate(g, [n0]) && (tw != [] ==> tw[0] !in AllNodes(g)) && n0.down == null && n0.k == k && n0.lvl == 0
    modifies n0`up, (if tw == [] then {} else {tw[0]})`down
    ensures Around(g, hd, tw0, gap, rest) && AllHeld(cur, gs) && Tower([n0] + tw)
  {
    PileApart(tw, k, 1);
    assert n0 in [n0];
    assert n0 !in hd && (tw != [] ==> tw[0] !in hd);
    assert allocated(AllNodes(g)) && allocated(AllNodes(cur));
    PutUnder(n0, lowest, tw);
  }

  lemma {:induction false} SeparateFresh(g: Grid, hd: seq<SNode>, tw: seq<SNode>, k: Key)
    requires Leveled(g) && Pile(hd, NegInf, |g|) && Pile(tw, k, |g|)
    ensures Separate(g, hd) && Separate(g, tw)
  {
  }

  lemma {:induction false} TowerTop(g: Grid, k: Key, height: nat, hd: seq<SNode>, tw0: seq<SNode>, tw: seq<SNode>)
    requires g != [] && EndsWith(tw, tw0) && Pile(tw, k, 1) && Pile(hd, NegInf, |g|) && k != NegInf && height >= 1
    requires |hd| == |tw0| == (if |g| < height then height - |g| else 0) && |tw| == height - 1
    ensures Topping(g, k, height, hd, tw) && TopOf(g, hd, tw) == tw0
  {
  }

  // the bottom node and the new levels stand, the levels between are to do
  ghost predicate Started(exact: bool, g: Grid, qs: seq<nat>, k: Key, height: nat, gap: int, rest: int, n0: SNode,
                          lowest: SNode?, cur: Grid, gs: seq<seq<int>>, hd: seq<SNode>, tw: seq<SNode>)
    reads AllNodes(cur)`right, AllNodes(cur)`left, AllNodes(cur)`gap, AllNodes(cur)`isHead
    reads hd`right, hd`left, hd`gap, hd`isHead, tw`right, tw`left, tw`gap, tw`isHead
    reads hd`up, hd`down, tw`up, tw`down, AllNodes(g)`up, AllNodes(g)`down, n0`down
  {
    Inner(exact, g, qs, k, height, cur, gs, tw, |g|) && AllHeld(cur, gs)
    && g[|g| - 1] != [] && Around(g, hd, tw, gap, rest) && Tower(tw)
    && lowest == (if tw == [] then null else tw[0])
    && |hd| == |tw| && Pile(hd, NegInf, |g|)
    && n0.k == k && n0.lvl == 0 && n0.down == null
    && cur[0] == Spliced(g[0], qs[0], n0) && |gs[0]| == |cur[0]|
    && (exact ==> gs[0] == Gaps(Bottom(g, qs, k), Bottom(g, qs, k)))
  }

  // the levels below stay as they are
  method GrowOver(k: Key, v: Value, headValue: Value, gap: int, rest: int, h: nat, height: nat, sl: SNode,
                  ghost g: Grid, ghost cur: Grid, ghost gs: seq<seq<int>>)
    returns (top: SNode, lowest: SNode?, ghost hd: seq<SNode>, ghost tw: seq<SNode>)
    requires Shape(g) && Towers(g) && sl == g[|g| - 1][0] && h == |g| && k != NegInf && AllHeld(cur, gs)
    modifies sl`up
    ensures Topped(g, k, height, gap, rest, hd, tw, lowest) && AllHeld(cur, gs)
    ensures TowersBut(g, if hd == [] then null else hd[0])
    ensures top == (if hd == [] then sl else hd[|hd| - 1])
    ensures forall x :: x in hd || x in tw ==> fresh(x)
    ensures Carry(tw, v)
  {
    assert allocated(AllNodes(cur));
    top, lowest, hd, tw := GrowTop(k, v, headValue, gap, rest, h, height, sl, g);
    assert forall x :: x in hd || x in tw ==> x in (set y | y in hd) || x in (set y | y in tw);
  }

  method Start(ghost exact: bool, k: Key, v: Value, headValue: Value, height: nat, h: nat, sl: SNode, pred: SNode,
               index: int, length: int, ghost g: Grid, ghost gs0: seq<seq<int>>, ghost qs: seq<nat>)
    returns (n0: SNode, top: SNode, lowest: SNode?, ghost cur: Grid, ghost gs: seq<seq<int>>,
             ghost hd: seq<SNode>, ghost tw: seq<SNode>)
    requires Ready(g, qs, k) && AllHeld(g, gs0) && (exact ==> gs0 == TrueGaps(g)) && Towers(g)
    requires h == |g| && sl == g[|g| - 1][0] && pred == g[0][qs[0]]
    modifies pred`right, pred`gap, sl`up
    modifies (if qs[0] + 1 < |g[0]| then {g[0][qs[0] + 1]} else {})`left
    ensures Started(exact, g, qs, k, height, index + 1, length - index - 1, n0, lowest, cur, gs, hd, tw)
    ensures fresh(n0) && n0.v == v && (forall x :: x in hd || x in tw ==> fresh(x)) && Carry(tw, v)
    ensures top == (if hd == [] then sl else hd[|hd| - 1])
  {
    assert allocated(AllNodes(g));
    HeldSized(g, gs0);
    n0, cur, gs := SpliceBottom(exact, pred, k, v, g, gs0, qs);
    assert Towers(g);
    top, lowest, hd, tw := GrowOver(k, v, headValue, index + 1, length - index - 1, h, height, sl, g, cur, gs);
    InnerStart(exact, g, qs, k, height, cur, gs, n0, tw, gs0);
  }

  // everything stands
  ghost predicate Finished(exact: bool, g: Grid, qs: seq<nat>, k: Key, height: nat, gap: int, rest: int, n0: SNode,
                           cur: Grid, gs: seq<seq<int>>, hd: seq<SNode>, tw0: seq<SNode>, tw: seq<SNode>)
    reads AllNodes(cur)`right, AllNodes(cur)`left, AllNodes(cur)`gap, AllNodes(cur)`isHead
    reads hd`right, hd`left, hd`gap, hd`isHead, tw0`right, tw0`left, tw0`gap, tw0`isHead
    reads hd`up, hd`down, tw`up, tw`down, AllNodes(g)`up, AllNodes(g)`down, n0`down, n0`up
  {
    Joined(exact, g, qs, k, height, cur, gs, n0, tw) && AllHeld(cur, gs)
    && g[|g| - 1] != [] && Around(g, hd, tw0, gap, rest) && Tower([n0] + tw)
    && EndsWith(tw, tw0) && |hd| == |tw0| && Pile(hd, NegInf, |g|)
    && |tw0| == (if |g| < height then height - |g| else 0)
  }

  method Finish(ghost exact: bool, n0: SNode, k: Key, v: Value, index: int, preds: seq<(SNode, int)>, height: nat,
                h: nat, lowest0: SNode?, ghost gap: int, ghost rest: int, ghost g: Grid, ghost qs: seq<nat>,
                ghost cur0: Grid, ghost gs0: seq<seq<int>>, ghost hd: seq<SNode>, ghost tw0: seq<SNode>)
    returns (ghost cur: Grid, ghost gs: seq<seq<int>>, ghost tw: seq<SNode>)
    requires Started(exact, g, qs, k, height, gap, rest, n0, lowest0, cur0, gs0, hd, tw0)
    requires Same(exact, g, k, preds, qs) && (exact ==> index == qs[0]) && height >= 1 && h == |g|
    requires n0 !in AllNodes(g)
    modifies AllNodes(g)`right, AllNodes(g)`left, AllNodes(g)`gap, n0`up
    modifies (if tw0 == [] then {} else {tw0[0]})`down
    ensures Finished(exact, g, qs, k, height, gap, rest, n0, cur, gs, hd, tw0, tw)
    ensures (forall x :: x in tw ==> x in tw0 || fresh(x)) && (Carry(tw0, v) ==> Carry(tw, v))
  {
    SeparateFresh(g, hd, tw0, k);
    var lowest;
    lowest, cur, gs, tw := Between(exact, k, v, index, preds, height, h, lowest0, gap, rest, g, qs, cur0, gs0, hd, tw0);
    CloseTower(n0, lowest, k, gap, rest, g, cur, gs, hd, tw0, tw);
  }

  // then the grid is well formed and has the key
  lemma {:induction false} FinishedValid(exact: bool, g: Grid, qs: seq<nat>, k: Key, height: nat, n0: SNode,
                                         cur: Grid, gs: seq<seq<int>>, hd: seq<SNode>, tw0: seq<SNode>, tw: seq<SNode>,
                                         gap: int, rest: int, r: Grid)
    requires Ready(g, qs, k) && |g[0]| > 1 && height >= 1
    requires Finished(exact, g, qs, k, height, gap, rest, n0, cur, gs, hd, tw0, tw)
    requires exact ==> gap == qs[0] + 1 && rest == |g[0]| - qs[0] - 1
    requires r == Grown(cur, hd, tw0)
    ensures Shape(r) && AllHeld(r, GrownGaps(gs, |hd|, gap, rest)) && Towers(r) && KeysOf(r[0]) == Bottom(g, qs, k)
    ensures exact ==> GrownGaps(gs, |hd|, gap, rest) == TrueGaps(r)
  {
    TowerTop(g, k, height, hd, tw0, tw);
    GrownShape(exact, g, qs, k, height, cur, gs, n0, tw, hd, r);
    GrownHeld(exact, g, qs, k, height, cur, gs, n0, tw, hd, gap, rest, r);
    GrownTowers(exact, g, qs, k, height, cur, gs, n0, tw, hd, r);
    if exact { GrownTrue(g, qs, k, height, cur, gs, n0, tw, hd, r); }
  }

  // its nodes are the old ones and the new ones
  lemma {:induction false} GrownNodes(exact: bool, g: Grid, qs: seq<nat>, k: Key, height: nat, cur: Grid,
                                      gs: seq<seq<int>>, n0: SNode, tw: seq<SNode>, hd: seq<SNode>, tw0: seq<SNode>,
                                      r: Grid, x: SNode)
    requires Joined(exact, g, qs, k, height, cur, gs, n0, tw) && height >= 1 && |hd| == |tw0|
    requires r == Grown(cur, hd, tw0) && x in AllNodes(r)
    ensures x in AllNodes(g) || x == n0 || x in tw || x in hd || x in tw0
  {
    var l, i :| 0 <= l < |r| && 0 <= i < |r[l]| && r[l][i] == x;
    if l < |g| {
      JoinedLevel(exact, g, qs, k, height, cur, gs, n0, tw, l);
      InAll(g, l);
      assert x in cur[l];
    }
  }

  lemma {:induction false} GrownTop(exact: bool, g: Grid, qs: seq<nat>, k: Key, height: nat, cur: Grid,
                                    gs: seq<seq<int>>, n0: SNode, tw: seq<SNode>, hd: seq<SNode>, tw0: seq<SNode>,
                                    r: Grid)
    requires Joined(exact, g, qs, k, height, cur, gs, n0, tw) && height >= 1
    requires |hd| == |tw0| == (if |g| < height then height - |g| else 0) && r == Grown(cur, hd, tw0)
    ensures |r| == (if |g| < height then height else |g|) && r[|r| - 1] != [] && g[|g| - 1] != []
    ensures r[|r| - 1][0] == if hd == [] then g[|g| - 1][0] else hd[|hd| - 1]
  {
    JoinedLevel(exact, g, qs, k, height, cur, gs, n0, tw, |g| - 1);
  }

  method Build(ghost exact: bool, k: Key, v: Value, headValue: Value, height: nat, h: nat, sl: SNode, pred: SNode,
               index: int, preds: seq<(SNode, int)>, length: int, ghost g: Grid, ghost gs0: seq<seq<int>>,
               ghost qs: seq<nat>)
    returns (top: SNode, ghost n0: SNode, ghost cur: Grid, ghost gs: seq<seq<int>>,
             ghost hd: seq<SNode>, ghost tw0: seq<SNode>, ghost tw: seq<SNode>)
    requires Ready(g, qs, k) && AllHeld(g, gs0) && (exact ==> gs0 == TrueGaps(g)) && Towers(g)
    requires Same(exact, g, k, preds, qs) && height >= 1 && (exact ==> index == qs[0])
    requires h == |g| && length == |g[0]| && sl == g[|g| - 1][0] && pred == g[0][qs[0]]
    modifies AllNodes(g)
    ensures Finished(exact, g, qs, k, height, index + 1, length - index - 1, n0, cur, gs, hd, tw0, tw)
    ensures top == (if hd == [] then sl else hd[|hd| - 1])
    ensures fresh(n0) && forall x :: x in hd || x in tw || x in tw0 ==> fresh(x)
    ensures n0.v == v && Carry(tw, v) && Carry(tw0, v)
  {
    InAll(g, 0);
    InAll(g, |g| - 1);
    assert pred in g[0] && sl in g[|g| - 1];
    assert qs[0] + 1 < |g[0]| ==> g[0][qs[0] + 1] in g[0];
    assert allocated(AllNodes(g));
    var n, lowest;
    ghost var cur0, gs1;
    n, top, lowest, cur0, gs1, hd, tw0 := Start(exact, k, v, headValue, height, h, sl, pred, index, length, g, gs0, qs);
    n0 := n;
    assert tw0 != [] ==> tw0[0] in tw0 && fresh(tw0[0]);
    cur, gs, tw := Finish(exact, n, k, v, index, preds, height, h, lowest, index + 1, length - index - 1, g, qs, cur0,
                          gs1, hd, tw0);
  }

  // the nodes an insertion makes
  ghost function News(n0: SNode, hd: seq<SNode>, tw0: seq<SNode>, tw: seq<SNode>): set<SNode> {
    {n0} + (set x | x in hd) + (set x | x in tw0) + (set x | x in tw)
  }

  // a head, or a node of the key with the value
  ghost predicate NewNode(x: SNode, k: Key, v: Value) { x.k == NegInf || (x.k == k && x.v == v) }

  lemma {:induction false} NewNodes(exact: bool, g: Grid, qs: seq<nat>, k: Key, height: nat, gap: int, rest: int,
                                    n0: SNode, cur: Grid, gs: seq<seq<int>>, hd: seq<SNode>, tw0: seq<SNode>,
                                    tw: seq<SNode>, v: Value)
    requires Finished(exact, g, qs, k, height, gap, rest, n0, cur, gs, hd, tw0, tw)
    requires n0.v == v && Carry(tw, v) && Carry(tw0, v)
    ensures forall x :: x in News(n0, hd, tw0, tw) ==> NewNode(x, k, v)
  {
  }

  // an absent key's node with its tower: the grid after it is well formed
  method Weave(ghost exact: bool, k: Key, v: Value, headValue: Value, height: nat, h: nat, sl: SNode, pred: SNode,
               index: int, preds: seq<(SNode, int)>, length: int, ghost g: Grid, ghost gs0: seq<seq<int>>,
               ghost qs: seq<nat>)
    returns (top: SNode, ghost r: Grid, ghost gs': seq<seq<int>>)
    requires Ready(g, qs, k) && AllHeld(g, gs0) && (exact ==> gs0 == TrueGaps(g)) && Towers(g)
    requires Same(exact, g, k, preds, qs) && height >= 1 && |g[0]| > 1 && (exact ==> index == qs[0])
    requires h == |g| && length == |g[0]| && sl == g[|g| - 1][0] && pred == g[0][qs[0]]
    modifies AllNodes(g)
    ensures Shape(r) && AllHeld(r, gs') && Towers(r) && KeysOf(r[0]) == Bottom(g, qs, k)
    ensures exact ==> gs' == TrueGaps(r)
    ensures |r| == (if |g| < height then height else |g|) && top == r[|r| - 1][0]
    ensures forall x :: x in AllNodes(r) ==> x in AllNodes(g) || (fresh(x) && NewNode(x, k, v))
  {
    ghost var n0, cur, gs, hd, tw0, tw;
    top, n0, cur, gs, hd, tw0, tw := Build(exact, k, v, headValue, height, h, sl, pred, index, preds, length, g, gs0,
                                           qs);
    assert fresh(News(n0, hd, tw0, tw));
    ghost var gap, rest := index + 1, length - index - 1;
    r := Grown(cur, hd, tw0);
    gs' := GrownGaps(gs, |hd|, gap, rest);
    NewNodes(exact, g, qs, k, height, gap, rest, n0, cur, gs, hd, tw0, tw, v);
    Woven(exact, g, qs, k, height, n0, cur, gs, hd, tw0, tw, gap, rest, r);
  }

  lemma {:induction false} Woven(exact: bool, g: Grid, qs: seq<nat>, k: Key, height: nat, n0: SNode,
                                 cur: Grid, gs: seq<seq<int>>, hd: seq<SNode>, tw0: seq<SNode>, tw: seq<SNode>,
                                 gap: int, rest: int, r: Grid)
    requires Ready(g, qs, k) && |g[0]| > 1 && height >= 1
    requires Finished(exact, g, qs, k, height, gap, rest, n0, cur, gs, hd, tw0, tw)
    requires exact ==> gap == qs[0] + 1 && rest == |g[0]| - qs[0] - 1
    requires r == Grown(cur, hd, tw0)
    ensures Shape(r) && AllHeld(r, GrownGaps(gs, |hd|, gap, rest)) && Towers(r) && KeysOf(r[0]) == Bottom(g, qs, k)
    ensures exact ==> GrownGaps(gs, |hd|, gap, rest) == TrueGaps(r)
    ensures |r| == (if |g| < height then height else |g|)
    ensures r[|r| - 1][0] == if hd == [] then g[|g| - 1][0] else hd[|hd| - 1]
    ensures AllNodes(r) <= AllNodes(g) + News(n0, hd, tw0, tw)
  {
    GrownTop(exact, g, qs, k, height, cur, gs, n0, tw, hd, tw0, r);
    FinishedValid(exact, g, qs, k, height, n0, cur, gs, hd, tw0, tw, gap, rest, r);
    forall x | x in AllNodes(r) ensures x in AllNodes(g) || x in News(n0, hd, tw0, tw) {
      GrownNodes(exact, g, qs, k, height, cur, gs, n0, tw, hd, tw0, r, x);
    }
  }

  lemma {:induction false} LevelPreds(exact: bool, g: Grid, k: Key, i: nat, preds: seq<(SNode, int)>, qrev: seq<nat>)
    returns (q: seq<nat>)
    requires Shape(g) && k != NegInf && Predecessors(exact, g, k, 0, preds, qrev)
    requires i < |g[0]| && IsPred(KeysOf(g[0]), k, i)
    ensures Ready(g, q, k) && Same(exact, g, k, preds, q) && q[0] == i
  {
    q := seq<nat>(|g|, m requires 0 <= m < |g| => if m == 0 then i else qrev[|g| - 1 - m]);
    SearchedReady(exact, g, k, i, preds, qrev, q);
  }

  // what a search that ends below an absent key gives an insertion
  ghost predicate Placed(exact: bool, g: Grid, k: Key, p: nat, node: SNode, index: int, preds: seq<(SNode, int)>)
  {
    Shape(g) && k != NegInf && p < |g[0]| && IsPred(KeysOf(g[0]), k, p)
    && node == g[0][p] && (exact ==> index == p) && exists q :: Suits(exact, g, k, p, preds, q)
  }

  ghost predicate Suits(exact: bool, g: Grid, k: Key, p: nat, preds: seq<(SNode, int)>, q: seq<nat>) {
    Ready(g, q, k) && Same(exact, g, k, preds, q) && q[0] == p
  }
}
