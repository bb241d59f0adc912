/**
 * The pieces of a deletion from a skip list (Data_structures/Skiplist.hpp):
 * lowering the gaps above the key's tower, unlinking the tower level by level
 * and dropping the levels that are left empty.
 */
module SkipCuts {
  import opened SkipKeys
  import opened SkipNodes

  // ---------- the levels without the key ----------

  ghost function LevelWithout(g: Grid, k: Key, m: nat): seq<SNode>
    requires m < |g|
  {
    if k in KeysOf(g[m]) then Without(g[m], Rank(KeysOf(g[m]), k)) else g[m]
  }

  // the gap before an unlinked node is lost, its own stays
  ghost function GapsWithout(g: Grid, gs: seq<seq<int>>, k: Key, m: nat): seq<int>
    requires m < |g| == |gs| && |gs[m]| == |g[m]|
  {
    if k in KeysOf(g[m]) && Rank(KeysOf(g[m]), k) > 0 then Without(gs[m], Rank(KeysOf(g[m]), k) - 1) else gs[m]
  }

  lemma {:induction false} KeysWithout(nds: seq<SNode>, j: nat)
    requires j < |nds|
    ensures KeysOf(Without(nds, j)) == Without(KeysOf(nds), j)
  {
    var a, b := KeysOf(Without(nds, j)), Without(KeysOf(nds), j);
    forall i | 0 <= i < |a| ensures a[i] == b[i] {
    }
  }

  lemma {:induction false} BehindHead(l: nat, nds: seq<SNode>, k: Key)
    requires Level(l, nds) && k != NegInf && k in KeysOf(nds)
    ensures 0 < Rank(KeysOf(nds), k) < |nds|
  {
  }

  lemma {:induction false} WithoutLevel(g: Grid, k: Key, m: nat)
    requires Shape(g) && m < |g| && k != NegInf
    ensures Level(m, LevelWithout(g, k, m)) && LevelWithout(g, k, m)[0] == g[m][0]
    ensures forall x :: x in KeysOf(LevelWithout(g, k, m)) <==> x in KeysOf(g[m]) && x != k
    ensures k in KeysOf(g[m]) ==> KeysOf(LevelWithout(g, k, m)) == Without(KeysOf(g[m]), Rank(KeysOf(g[m]), k))
  {
    if k in KeysOf(g[m]) {
      BehindHead(m, g[m], k);
      KeysWithout(g[m], Rank(KeysOf(g[m]), k));
      WithoutInsert(KeysOf(g[m]), Rank(KeysOf(g[m]), k));
    }
  }

  // a node of a level stays on it unless it is the key's
  lemma {:induction false} WithoutFind(g: Grid, k: Key, m: nat, x: Key)
    requires Shape(g) && m < |g| && k != NegInf && x != k && x in KeysOf(g[m])
    ensures x in KeysOf(LevelWithout(g, k, m)) && NodeAt(LevelWithout(g, k, m), x) == NodeAt(g[m], x)
  {
    WithoutLevel(g, k, m);
    var w := LevelWithout(g, k, m);
    var i := Rank(KeysOf(w), x);
    assert w[i] in g[m];
    var j :| 0 <= j < |g[m]| && g[m][j] == w[i];
    NodeAtIs(m, g[m], j);
    NodeAtIs(m, w, i);
  }

  // ---------- one level ----------

  lemma {:induction false} CutHeld(nds: seq<SNode>, gaps: seq<int>, j: nat)
    requires 0 < j < |nds| == |gaps|
    requires forall i :: 0 <= i < |nds| && i != j ==> ChainedCut(nds, gaps, j, i)
    ensures Held(Without(nds, j), Without(gaps, j - 1))
  {
    var w, v := Without(nds, j), Without(gaps, j - 1);
    forall i | 0 <= i < |w| ensures Chained(w, i, v) {
      assert ChainedCut(nds, gaps, j, if i < j then i else i + 1);
    }
  }

  // node i once node j is unlinked
  ghost predicate ChainedCut(nds: seq<SNode>, gaps: seq<int>, j: nat, i: nat)
    requires 0 < j < |nds| == |gaps| && i < |nds|
    reads nds`right, nds`left, nds`gap, nds`isHead
  {
    var next := if i + 1 == j then i + 2 else i + 1;
    nds[i].right == (if next < |nds| then nds[next] else null)
    && nds[i].left == (if i == j + 1 then nds[j - 1] else if i > 0 then nds[i - 1] else null)
    && nds[i].gap == (if i + 1 == j then gaps[j] else gaps[i])
    && nds[i].isHead == (i == 0)
  }

  // the node behind pred leaves its level
  method Unlink(pred: SNode, ghost nds: seq<SNode>, ghost gaps: seq<int>, ghost j: nat)
    requires Held(nds, gaps) && 0 < j < |nds| && pred == nds[j - 1] && Apart(nds)
    modifies pred`right, pred`gap, {nds[j]}`up, {nds[j]}`down
    modifies (if j + 1 < |nds| then {nds[j + 1]} else {})`left
    ensures Held(Without(nds, j), Without(gaps, j - 1))
  {
    assert Chained(nds, j - 1, gaps) && Chained(nds, j, gaps);
    var out := pred.right;
    var succ := out.right;
    pred.gap := out.gap;
    out.down := null;
    out.up := null;
    pred.right := succ;
    if succ != null {
      succ.left := pred;
    }
    forall i | 0 <= i < |nds| && i != j ensures ChainedCut(nds, gaps, j, i) {
      assert old(Chained(nds, i, gaps));
    }
    CutHeld(nds, gaps, j);
  }

  // the other levels stay
  method UnlinkLevel(pred: SNode, ghost cur: Grid, ghost gs: seq<seq<int>>, ghost m: nat, ghost j: nat)
    requires Leveled(cur) && AllHeld(cur, gs) && m < |cur| && 0 < j < |cur[m]| == |gs[m]| && pred == cur[m][j - 1]
    modifies pred`right, pred`gap, {cur[m][j]}`up, {cur[m][j]}`down
    modifies (if j + 1 < |cur[m]| then {cur[m][j + 1]} else {})`left
    ensures AllHeld(cur[m := Without(cur[m], j)], gs[m := Without(gs[m], j - 1)])
  {
    assert HeldAt(cur, gs, m);
    LevelApart(m, cur[m]);
    Unlink(pred, cur[m], gs[m], j);
    ghost var cur', gs' := cur[m := Without(cur[m], j)], gs[m := Without(gs[m], j - 1)];
    forall l | 0 <= l < |cur'| ensures HeldAt(cur', gs', l) {
      if l != m {
        assert old(HeldAt(cur, gs, l));
        OtherLevel(l, cur[l], pred);
        OtherLevel(l, cur[l], cur[m][j]);
        if j + 1 < |cur[m]| { OtherLevel(l, cur[l], cur[m][j + 1]); }
      }
    }
  }

  // ---------- the gaps above the tower ----------

  // levels from `from` up have their gap across the key lowered
  ghost predicate Lowered(g: Grid, qs: seq<nat>, gs: seq<seq<int>>, from: nat, gs': seq<seq<int>>) {
    |gs'| == |gs| == |g| && |qs| + from >= |g|
    && forall m {:trigger LoweredAt(g, qs, gs, from, gs', m)} :: 0 <= m < |g| ==> LoweredAt(g, qs, gs, from, gs', m)
  }

  ghost predicate LoweredAt(g: Grid, qs: seq<nat>, gs: seq<seq<int>>, from: nat, gs': seq<seq<int>>, m: nat)
    requires m < |g| == |gs| == |gs'| && |qs| + from >= |g|
  {
    if m < from then gs'[m] == gs[m]
    else
      var q := qs[|g| - 1 - m];
      q < |gs[m]| && gs'[m] == gs[m][q := gs[m][q] - 1]
  }

  lemma {:induction false} LoweredMore(g: Grid, qs: seq<nat>, gs: seq<seq<int>>, m: nat, gs1: seq<seq<int>>,
                                       gs2: seq<seq<int>>)
    requires m < |g| && |qs| + m >= |g| && Lowered(g, qs, gs, m + 1, gs1)
    requires var q := qs[|g| - 1 - m];
      q < |gs1[m]| && gs2 == gs1[m := gs1[m][q := gs1[m][q] - 1]]
    ensures Lowered(g, qs, gs, m, gs2)
  {
    forall x | 0 <= x < |g| ensures LoweredAt(g, qs, gs, m, gs2, x) {
      assert LoweredAt(g, qs, gs, m + 1, gs1, x);
    }
  }

  method LowerOne(preds: seq<(SNode, int)>, j: nat, ghost exact: bool, ghost g: Grid, ghost k: Key, ghost l: nat,
                  ghost qs: seq<nat>, ghost gs: seq<seq<int>>, ghost gs1: seq<seq<int>>)
    returns (ghost gs2: seq<seq<int>>)
    requires Shape(g) && Predecessors(exact, g, k, l, preds, qs) && j < |preds|
    requires AllHeld(g, gs1) && Lowered(g, qs, gs, |g| - j, gs1)
    modifies {preds[j].0}`gap
    ensures AllHeld(g, gs2) && Lowered(g, qs, gs, |g| - j - 1, gs2)
  {
    ghost var m := |g| - 1 - j;
    assert PredecessorAt(exact, g, k, preds, qs, j);
    assert HeldAt(g, gs1, m);
    gs2 := gs1[m := gs1[m][qs[j] := gs1[m][qs[j]] - 1]];
    LoweredMore(g, qs, gs, m, gs1, gs2);
    BumpLevel(preds[j].0, -1, g, gs1, m, qs[j]);
  }

  method LowerGaps(preds: seq<(SNode, int)>, ghost exact: bool, ghost g: Grid, ghost k: Key, ghost l: nat,
                   ghost qs: seq<nat>, ghost gs: seq<seq<int>>)
    returns (ghost gs': seq<seq<int>>)
    requires Shape(g) && Predecessors(exact, g, k, l, preds, qs) && AllHeld(g, gs)
    modifies AllNodes(g)`gap
    ensures AllHeld(g, gs') && Lowered(g, qs, gs, l + 1, gs')
  {
    gs' := gs;
    for j := 0 to |preds|
      invariant AllHeld(g, gs') && Lowered(g, qs, gs, |g| - j, gs')
    {
      assert PredecessorAt(exact, g, k, preds, qs, j);
      InAll(g, |g| - 1 - j);
      gs' := LowerOne(preds, j, exact, g, k, l, qs, gs, gs');
    }
  }

  // ---------- the tower, from the top down ----------

  // the levels from low up are without the key
  ghost predicate Cutting(g: Grid, k: Key, gs: seq<seq<int>>, low: nat, cur: Grid, gs': seq<seq<int>>) {
    Shape(g) && k != NegInf && |cur| == |gs'| == |g| && low <= |g| && Sized(g, gs)
    && forall m {:trigger CutAt(g, k, gs, low, cur, gs', m)} :: 0 <= m < |g| ==> CutAt(g, k, gs, low, cur, gs', m)
  }

  ghost predicate CutAt(g: Grid, k: Key, gs: seq<seq<int>>, low: nat, cur: Grid, gs': seq<seq<int>>, m: nat)
    requires m < |cur| == |gs'| == |g| && Sized(g, gs)
  {
    if m < low then cur[m] == g[m] && gs'[m] == gs[m]
    else cur[m] == LevelWithout(g, k, m) && gs'[m] == GapsWithout(g, gs, k, m)
  }

  lemma {:induction false} CutStart(g: Grid, k: Key, gs: seq<seq<int>>, low: nat)
    requires Shape(g) && k != NegInf && Sized(g, gs) && low <= |g|
    requires forall m :: low <= m < |g| ==> k !in KeysOf(g[m])
    ensures Cutting(g, k, gs, low, g, gs)
  {
    forall m | 0 <= m < |g| ensures CutAt(g, k, gs, low, g, gs, m) {
    }
  }

  lemma {:induction false} CutStep(g: Grid, k: Key, gs: seq<seq<int>>, m: nat, cur: Grid, gs': seq<seq<int>>,
                                   cur2: Grid, gs2: seq<seq<int>>)
    requires Cutting(g, k, gs, m + 1, cur, gs') && m < |g| && k in KeysOf(g[m])
    requires var j := Rank(KeysOf(g[m]), k);
      0 < j && |cur[m]| == |g[m]| == |gs'[m]|
      && cur2 == cur[m := Without(cur[m], j)] && gs2 == gs'[m := Without(gs'[m], j - 1)]
    ensures Cutting(g, k, gs, m, cur2, gs2)
  {
    forall x | 0 <= x < |g| ensures CutAt(g, k, gs, m, cur2, gs2, x) {
      assert CutAt(g, k, gs, m + 1, cur, gs', x);
    }
  }

  lemma {:induction false} CutLeveled(g: Grid, k: Key, gs: seq<seq<int>>, low: nat, cur: Grid, gs': seq<seq<int>>)
    requires Cutting(g, k, gs, low, cur, gs')
    ensures Leveled(cur)
  {
    forall m | 0 <= m < |cur| ensures Level(m, cur[m]) {
      assert CutAt(g, k, gs, low, cur, gs', m);
      WithoutLevel(g, k, m);
    }
  }

  // the towers of the other keys, up to level t, whose head is the top
  ghost predicate LooseTowers(g: Grid, k: Key, t: nat)
    reads AllNodes(g)`up, AllNodes(g)`down
  {
    forall l, i {:trigger LooseAt(g, k, t, l, i)} ::
      0 <= l < |g| && 0 <= i < |g[l]| && l < t ==> LooseAt(g, k, t, l, i)
  }

  ghost predicate LooseAt(g: Grid, k: Key, t: nat, l: nat, i: nat)
    requires l < |g| && i < |g[l]|
    reads {g[l][i]}`up, {g[l][i]}`down
  {
    var n := g[l][i];
    n.k == k
    || (n.down == Find(g, l - 1, n.k) && n.up == (if l + 1 == t && i == 0 then null else Find(g, l + 1, n.k)))
  }

  lemma {:induction false} TowersLoose(g: Grid, k: Key)
    requires Towers(g)
    ensures LooseTowers(g, k, |g|)
  {
    forall l, i | 0 <= l < |g| && 0 <= i < |g[l]| && l < |g| ensures LooseAt(g, k, |g|, l, i) {
      assert Stacked(g, l, g[l][i]);
    }
  }

  method UnlinkTurn(pred: SNode, ghost g: Grid, ghost k: Key, ghost gs: seq<seq<int>>, ghost m: nat,
                    ghost cur: Grid, ghost gs': seq<seq<int>>, ghost t: nat)
    returns (ghost cur2: Grid, ghost gs2: seq<seq<int>>)
    requires Cutting(g, k, gs, m + 1, cur, gs') && m < |g| && k in KeysOf(g[m])
    requires AllHeld(cur, gs') && LooseTowers(g, k, t)
    requires Rank(KeysOf(g[m]), k) > 0 && pred == g[m][Rank(KeysOf(g[m]), k) - 1]
    modifies AllNodes(g)
    ensures Cutting(g, k, gs, m, cur2, gs2) && AllHeld(cur2, gs2) && LooseTowers(g, k, t)
  {
    ghost var j := Rank(KeysOf(g[m]), k);
    assert CutAt(g, k, gs, m + 1, cur, gs', m);
    assert HeldAt(cur, gs', m);
    CutLeveled(g, k, gs, m + 1, cur, gs');
    InAll(g, m);
    assert g[m][j] in g[m] && pred in g[m] && (j + 1 < |g[m]| ==> g[m][j + 1] in g[m]);
    cur2, gs2 := cur[m := Without(cur[m], j)], gs'[m := Without(gs'[m], j - 1)];
    CutStep(g, k, gs, m, cur, gs', cur2, gs2);
    assert allocated(AllNodes(g));
    UnlinkLevel(pred, cur, gs', m, j);
    forall l, i | 0 <= l < |g| && 0 <= i < |g[l]| && l < t ensures LooseAt(g, k, t, l, i) {
      assert old(LooseAt(g, k, t, l, i));
    }
  }

  // how many levels are kept, those from low up being done
  ghost predicate Kept(g: Grid, k: Key, low: nat, t: nat) {
    low <= t <= |g|
    && (forall m :: low <= m < t ==> |LevelWithout(g, k, m)| > 1)
    && (t < |g| ==> |LevelWithout(g, k, t)| == 1)
  }

  ghost function Head(g: Grid, t: nat): SNode?
    requires Shape(g)
  {
    if 0 < t <= |g| then g[t - 1][0] else null
  }

  lemma {:induction false} KeptStart(g: Grid, k: Key, low: nat)
    requires Shape(g) && 0 < low <= |g|
    requires forall m :: low <= m < |g| ==> k !in KeysOf(g[m])
    ensures Kept(g, k, low, |g|)
  {
  }

  // a level is no emptier than the one above it
  lemma {:induction false} Wider(g: Grid, k: Key, m: nat)
    requires Shape(g) && k != NegInf && m + 1 < |g| && |LevelWithout(g, k, m + 1)| > 1
    ensures |LevelWithout(g, k, m)| > 1
  {
    var a, b := LevelWithout(g, k, m), LevelWithout(g, k, m + 1);
    WithoutLevel(g, k, m);
    WithoutLevel(g, k, m + 1);
    var x := KeysOf(b)[1];
    assert Less(KeysOf(b)[0], x) && x in KeysOf(g[m + 1]) && x in KeysOf(a);
    var i :| 0 <= i < |a| && KeysOf(a)[i] == x;
    assert KeysOf(a)[0] == NegInf;
  }

  lemma {:induction false} KeptStep(g: Grid, k: Key, m: nat, t: nat)
    requires Shape(g) && k != NegInf && Kept(g, k, m + 1, t) && m < |g|
    ensures |LevelWithout(g, k, m)| > 1 ==> Kept(g, k, m, t)
    ensures |LevelWithout(g, k, m)| <= 1 ==> t == m + 1 && Kept(g, k, m, m)
  {
    WithoutLevel(g, k, m);
    if m + 1 < t { Wider(g, k, m); }
  }

  // what the head of a level shows once the level is done
  lemma {:induction false} SeeHead(g: Grid, k: Key, gs: seq<seq<int>>, m: nat, cur: Grid, gs': seq<seq<int>>, t: nat)
    requires Cutting(g, k, gs, m, cur, gs') && m < |g| && AllHeld(cur, gs') && LooseTowers(g, k, t) && m < t
    ensures g[m][0].right == null <==> |LevelWithout(g, k, m)| <= 1
    ensures g[m][0].down == Head(g, m)
  {
    assert CutAt(g, k, gs, m, cur, gs', m);
    WithoutLevel(g, k, m);
    assert HeldAt(cur, gs', m);
    assert Chained(cur[m], 0, gs'[m]);
    assert LooseAt(g, k, t, m, 0);
    HeadBelow(g, m);
  }

  // a level left without nodes goes, with its head
  method DropIfEmpty(nav: SNode, sl: SNode?, height: int, ghost g: Grid, ghost k: Key, ghost gs: seq<seq<int>>,
                     ghost m: nat, ghost cur: Grid, ghost gs': seq<seq<int>>, ghost t: nat)
    returns (sl': SNode?, height': int, ghost t': nat)
    requires Cutting(g, k, gs, m, cur, gs') && m < |g| && AllHeld(cur, gs') && LooseTowers(g, k, t)
    requires Kept(g, k, m + 1, t) && nav == g[m][0] && sl == Head(g, t) && height == t
    modifies AllNodes(g)`up
    ensures AllHeld(cur, gs') && LooseTowers(g, k, t')
    ensures Kept(g, k, m, t') && sl' == Head(g, t') && height' == t'
  {
    SeeHead(g, k, gs, m, cur, gs', t);
    KeptStep(g, k, m, t);
    sl', height', t' := sl, height, t;
    if nav.right == null {
      var down := nav.down;
      sl', height', t' := down, height - 1, m;
      if down != null {
        InAll(g, m - 1);
        assert down in g[m - 1] && allocated(AllNodes(cur));
        CutOff(down, g, k, m);
      }
    }
  }

  lemma {:induction false} HeadBelow(g: Grid, m: nat)
    requires Shape(g) && m < |g|
    ensures g[m][0].k == NegInf && Find(g, m - 1, NegInf) == Head(g, m)
  {
    assert KeysOf(g[m])[0] == NegInf;
    if m > 0 {
      assert KeysOf(g[m - 1])[0] == NegInf;
      NodeAtIs(m - 1, g[m - 1], 0);
    }
  }

  // the head of the level below becomes the top
  method CutOff(down: SNode, ghost g: Grid, ghost k: Key, ghost m: nat)
    requires Shape(g) && 0 < m < |g| && LooseTowers(g, k, m + 1) && down == g[m - 1][0]
    modifies down`up
    ensures LooseTowers(g, k, m)
  {
    assert allocated(AllNodes(g));
    down.up := null;
    forall l, i | 0 <= l < |g| && 0 <= i < |g[l]| && l < m ensures LooseAt(g, k, m, l, i) {
      assert old(LooseAt(g, k, m + 1, l, i));
      if g[l][i] == down { HeadOnly(g, m - 1, l, i); }
    }
  }

  lemma {:induction false} HeadOnly(g: Grid, m: nat, l: nat, i: nat)
    requires Shape(g) && m < |g| && l < |g| && i < |g[l]| && g[l][i] == g[m][0]
    ensures l == m && i == 0
  {
    assert g[l][i].lvl == l && g[m][0].lvl == m;
    LevelApart(l, g[l]);
  }

  // the nodes to the left of the key's, the highest first
  ghost predicate LeftsOf(g: Grid, k: Key, l: nat, lefts: seq<SNode>) {
    l < |g| && |lefts| == l + 1
    && forall m {:trigger LeftAt(g, k, l, lefts, m)} :: 0 <= m <= l ==> LeftAt(g, k, l, lefts, m)
  }

  ghost predicate LeftAt(g: Grid, k: Key, l: nat, lefts: seq<SNode>, m: nat)
    requires m <= l < |g| && |lefts| == l + 1
  {
    k in KeysOf(g[m]) && Rank(KeysOf(g[m]), k) > 0 && lefts[l - m] == g[m][Rank(KeysOf(g[m]), k) - 1]
  }

  // the levels from low up are done and t levels are kept
  ghost predicate CutDown(g: Grid, k: Key, gs: seq<seq<int>>, low: nat, cur: Grid, gs': seq<seq<int>>,
                          t: nat, nav: SNode?, sl: SNode?, height: int)
    reads AllNodes(cur)`right, AllNodes(cur)`left, AllNodes(cur)`gap, AllNodes(cur)`isHead
    reads AllNodes(g)`up, AllNodes(g)`down
  {
    Cutting(g, k, gs, low, cur, gs') && AllHeld(cur, gs') && LooseTowers(g, k, t) && Kept(g, k, low, t)
    && nav == Head(g, low) && sl == Head(g, t) && height == t
  }

  method CutTurn(left: SNode, nav: SNode?, sl: SNode?, height: int, ghost g: Grid, ghost k: Key,
                 ghost gs: seq<seq<int>>, ghost l: nat, ghost lefts: seq<SNode>, ghost m: nat, ghost cur: Grid,
                 ghost gs': seq<seq<int>>, ghost t: nat)
    returns (nav': SNode?, sl': SNode?, height': int, ghost cur2: Grid, ghost gs2: seq<seq<int>>, ghost t': nat)
    requires CutDown(g, k, gs, m + 1, cur, gs', t, nav, sl, height)
    requires m <= l && LeftsOf(g, k, l, lefts) && left == lefts[l - m]
    modifies AllNodes(g)
    ensures CutDown(g, k, gs, m, cur2, gs2, t', nav', sl', height')
  {
    assert LeftAt(g, k, l, lefts, m);
    cur2, gs2 := UnlinkTurn(left, g, k, gs, m, cur, gs', t);
    SeeHead(g, k, gs, m, cur2, gs2, t);
    sl', height', t' := DropIfEmpty(nav, sl, height, g, k, gs, m, cur2, gs2, t);
    nav' := nav.down;
  }

  // the whole tower
  method CutTower(lefts: seq<SNode>, nav0: SNode, sl0: SNode, height0: int,
                  ghost g: Grid, ghost k: Key, ghost gs: seq<seq<int>>, ghost l: nat)
    returns (sl: SNode?, height: int, ghost cur: Grid, ghost gs': seq<seq<int>>, ghost t: nat)
    requires LeftsOf(g, k, l, lefts) && CutDown(g, k, gs, l + 1, g, gs, |g|, nav0, sl0, height0)
    modifies AllNodes(g)
    ensures CutDown(g, k, gs, 0, cur, gs', t, null, sl, height)
  {
    var nav: SNode? := nav0;
    sl, height, cur, gs', t := sl0, height0, g, gs, |g|;
    ghost var low := l + 1;
    for i := 0 to |lefts|
      invariant low == l + 1 - i && CutDown(g, k, gs, low, cur, gs', t, nav, sl, height)
    {
      low := low - 1;
      nav, sl, height, cur, gs', t := CutTurn(lefts[i], nav, sl, height, g, k, gs, l, lefts, low, cur, gs', t);
    }
  }

  // ---------- the grid after a deletion ----------

  // the levels that are left
  ghost predicate CutGrid(g: Grid, k: Key, t: nat, r: Grid) {
    Shape(g) && k != NegInf && Kept(g, k, 0, t) && |r| == t
    && forall m :: 0 <= m < t ==> r[m] == LevelWithout(g, k, m)
  }

  lemma {:induction false} CutGridIs(g: Grid, k: Key, gs: seq<seq<int>>, cur: Grid, gs': seq<seq<int>>, t: nat)
    requires Cutting(g, k, gs, 0, cur, gs') && Kept(g, k, 0, t)
    ensures CutGrid(g, k, t, cur[..t])
    ensures forall m :: 0 <= m < t ==> gs'[m] == GapsWithout(g, gs, k, m)
  {
    forall m | 0 <= m < t ensures cur[m] == LevelWithout(g, k, m) && gs'[m] == GapsWithout(g, gs, k, m) {
      assert CutAt(g, k, gs, 0, cur, gs', m);
    }
  }

  lemma {:induction false} SomeHeld(cur: Grid, gs: seq<seq<int>>, t: nat)
    requires AllHeld(cur, gs) && t <= |cur|
    ensures AllHeld(cur[..t], gs[..t])
  {
    forall l | 0 <= l < t ensures HeldAt(cur[..t], gs[..t], l) {
      assert HeldAt(cur, gs, l);
    }
  }

  lemma {:induction false} CutNested(g: Grid, k: Key, l: nat, m: nat)
    requires Shape(g) && k != NegInf && l < |g| && m < |g| && Nested(KeysOf(g[m]), KeysOf(g[l]))
    ensures Nested(KeysOf(LevelWithout(g, k, m)), KeysOf(LevelWithout(g, k, l)))
  {
    WithoutLevel(g, k, l);
    WithoutLevel(g, k, m);
  }

  lemma {:induction false} CutShape(g: Grid, k: Key, t: nat, r: Grid)
    requires CutGrid(g, k, t, r) && t > 0
    ensures Shape(r)
  {
    forall m | 0 <= m < t ensures Level(m, r[m]) && Nested(KeysOf(r[m]), KeysOf(r[0])) && |r[m]| > 1 {
      WithoutLevel(g, k, m);
      CutNested(g, k, 0, m);
    }
    forall l, m | 0 <= l < m < t && m == l + 1 ensures Nested(KeysOf(r[m]), KeysOf(r[l])) {
      CutNested(g, k, l, m);
    }
  }

  // which node the new grid has for another key
  lemma {:induction false} CutFind(g: Grid, k: Key, t: nat, r: Grid, l: int, x: Key)
    requires CutGrid(g, k, t, r) && x != k
    ensures Find(r, l, x) == if l < t then Find(g, l, x) else null
  {
    if 0 <= l < t {
      WithoutLevel(g, k, l);
      if x in KeysOf(g[l]) { WithoutFind(g, k, l, x); }
    }
  }

  lemma {:induction false} AboveTop(g: Grid, k: Key, t: nat, x: Key)
    requires Shape(g) && k != NegInf && Kept(g, k, 0, t) && x != k && x != NegInf
    ensures Find(g, t, x) == null
  {
    if t < |g| {
      WithoutLevel(g, k, t);
      assert KeysOf(LevelWithout(g, k, t)) == [NegInf];
    }
  }

  // the towers of the nodes that stay
  lemma {:induction false} CutTowers(g: Grid, k: Key, t: nat, r: Grid)
    requires CutGrid(g, k, t, r) && LooseTowers(g, k, t)
    ensures Towers(r)
  {
    forall l, i | 0 <= l < |r| && 0 <= i < |r[l]| ensures Stacked(r, l, r[l][i]) {
      var n := r[l][i];
      WithoutLevel(g, k, l);
      assert KeysOf(r[l])[i] == n.k;
      assert n in g[l];
      var j :| 0 <= j < |g[l]| && g[l][j] == n;
      assert LooseAt(g, k, t, l, j);
      CutFind(g, k, t, r, l - 1, n.k);
      CutFind(g, k, t, r, l + 1, n.k);
      if l + 1 == t && j > 0 {
        assert Less(KeysOf(g[l])[0], KeysOf(g[l])[j]);
        AboveTop(g, k, t, n.k);
      }
    }
  }

  // what is left when the whole tower is down
  lemma {:induction false} CutDone(g: Grid, k: Key, gs: seq<seq<int>>, cur: Grid, gs': seq<seq<int>>, t: nat,
                                   sl: SNode?, height: int)
    requires CutDown(g, k, gs, 0, cur, gs', t, null, sl, height) && k in KeysOf(g[0])
    ensures |cur| == |gs'| == |g| && height == t <= |g|
    ensures CutGrid(g, k, t, cur[..t]) && AllHeld(cur[..t], gs'[..t]) && Towers(cur[..t])
    ensures t > 0 ==> Shape(cur[..t]) && KeysOf(cur[0]) == Without(KeysOf(g[0]), Rank(KeysOf(g[0]), k))
    ensures t > 0 ==> sl == cur[..t][t - 1][0] && |cur[0]| == |g[0]| - 1 > 1
    ensures t == 0 ==> sl == null && |g[0]| == 2
    ensures forall m :: 0 <= m < t ==> gs'[m] == GapsWithout(g, gs, k, m)
  {
    CutGridIs(g, k, gs, cur, gs', t);
    SomeHeld(cur, gs', t);
    CutTowers(g, k, t, cur[..t]);
    WithoutLevel(g, k, 0);
    if t > 0 {
      CutShape(g, k, t, cur[..t]);
      WithoutLevel(g, k, t - 1);
    }
  }

  // no node is new
  lemma {:induction false} StaysNode(g: Grid, k: Key, l: nat, x: SNode)
    requires l < |g| && x in LevelWithout(g, k, l)
    ensures x in g[l] && x in AllNodes(g)
  {
    InAll(g, l);
  }

  lemma {:induction false} CutNodes(g: Grid, k: Key, t: nat, r: Grid)
    requires CutGrid(g, k, t, r)
    ensures AllNodes(r) <= AllNodes(g)
  {
    forall x | x in AllNodes(r) ensures x in AllNodes(g) {
      var l, i :| 0 <= l < |r| && 0 <= i < |r[l]| && r[l][i] == x;
      assert r[l] == LevelWithout(g, k, l) && x in r[l];
      StaysNode(g, k, l, x);
    }
  }

  // ---------- the gaps after a deletion ----------

  // a level of the tower has true gaps again if and only if the lost gap was one
  lemma {:induction false} TowerGaps(row: seq<Key>, bottom: seq<Key>, j: nat, b: nat, r: seq<Key>, c: seq<Key>)
    requires Ascending(row) && Ascending(bottom) && Nested(row, bottom)
    requires 0 < j < |row| && 0 < b < |bottom| && row[j] == bottom[b]
    requires r == Without(row, j) && c == Without(bottom, b)
    ensures Nested(r, c)
    ensures Without(Gaps(row, bottom), j - 1) == Gaps(r, c) <==> Gaps(row, bottom)[j - 1] == 1
  {
    NestedWithout(row, bottom, j, b);
    var x, y := Without(Gaps(row, bottom), j - 1), Gaps(r, c);
    assert |x| == |y|;
    forall i | 0 <= i < |y| ensures y[i] == x[i] + if i == j - 1 then Gaps(row, bottom)[j - 1] - 1 else 0 {
      GapWithout(row, bottom, j, b, r, c, i);
    }
    assert y[j - 1] == x[j - 1] + Gaps(row, bottom)[j - 1] - 1;
    if Gaps(row, bottom)[j - 1] == 1 { assert x == y; }
  }

  // a level above the tower always
  lemma {:induction false} PassedGaps(row: seq<Key>, bottom: seq<Key>, q: nat, b: nat, c: seq<Key>)
    requires Ascending(row) && Ascending(bottom) && Nested(row, bottom)
    requires 0 < b < |bottom| && IsPred(row, bottom[b], q) && c == Without(bottom, b)
    ensures Nested(row, c) && Gaps(row, bottom)[q := Gaps(row, bottom)[q] - 1] == Gaps(row, c)
  {
    GapLost(row, bottom, q, b, 0);
    var x, y := Gaps(row, bottom)[q := Gaps(row, bottom)[q] - 1], Gaps(row, c);
    forall i | 0 <= i < |y| ensures x[i] == y[i] { GapLost(row, bottom, q, b, i); }
  }

  // on every level that keeps nodes, the gap before the key is one
  ghost predicate Beside(g: Grid, gs: seq<seq<int>>, k: Key) {
    forall m {:trigger BesideAt(g, gs, k, m)} :: 0 <= m < |g| && m < |gs| && |g[m]| > 2 ==> BesideAt(g, gs, k, m)
  }

  ghost predicate BesideAt(g: Grid, gs: seq<seq<int>>, k: Key, m: nat)
    requires m < |g| && m < |gs|
  {
    k in KeysOf(g[m]) && 0 < Rank(KeysOf(g[m]), k) <= |gs[m]| ==> gs[m][Rank(KeysOf(g[m]), k) - 1] == 1
  }

  // what a deletion did to the gaps of a list whose gaps were true
  ghost predicate CutGaps(g: Grid, k: Key, l: nat, preds: seq<(SNode, int)>, qs: seq<nat>, gs: seq<seq<int>>,
                          t: nat, r: Grid, gs': seq<seq<int>>)
  {
    CutGrid(g, k, t, r) && k in KeysOf(g[0]) && Predecessors(true, g, k, l, preds, qs)
    && (forall m :: 0 <= m <= l ==> k in KeysOf(g[m]))
    && Lowered(g, qs, TrueGaps(g), l + 1, gs) && Sized(g, gs)
    && |gs'| == t && forall m :: 0 <= m < t ==> gs'[m] == GapsWithout(g, gs, k, m)
  }

  lemma {:induction false} LevelTrue(g: Grid, k: Key, l: nat, preds: seq<(SNode, int)>, qs: seq<nat>, gs: seq<seq<int>>,
                                     t: nat, r: Grid, gs': seq<seq<int>>, m: nat)
    requires CutGaps(g, k, l, preds, qs, gs, t, r, gs') && t > 0 && m < t && Shape(r)
    ensures gs'[m] == TrueGaps(r)[m] <==> BesideAt(g, TrueGaps(g), k, m)
  {
    WithoutLevel(g, k, 0);
    WithoutLevel(g, k, m);
    assert LoweredAt(g, qs, TrueGaps(g), l + 1, gs, m);
    BehindHead(0, g[0], k);
    if m <= l {
      BehindHead(m, g[m], k);
      TowerGaps(KeysOf(g[m]), KeysOf(g[0]), Rank(KeysOf(g[m]), k), Rank(KeysOf(g[0]), k), KeysOf(r[m]), KeysOf(r[0]));
    } else {
      AboveTrue(g, k, l, preds, qs, gs, t, r, gs', m);
    }
  }

  lemma {:induction false} AboveTrue(g: Grid, k: Key, l: nat, preds: seq<(SNode, int)>, qs: seq<nat>, gs: seq<seq<int>>,
                                     t: nat, r: Grid, gs': seq<seq<int>>, m: nat)
    requires CutGaps(g, k, l, preds, qs, gs, t, r, gs') && l < m < t && Shape(r)
    ensures gs'[m] == TrueGaps(r)[m] && k !in KeysOf(g[m])
  {
    var j := |g| - 1 - m;
    WithoutLevel(g, k, 0);
    BehindHead(0, g[0], k);
    assert LoweredAt(g, qs, TrueGaps(g), l + 1, gs, m);
    assert PredecessorAt(true, g, k, preds, qs, j);
    InsertAscending(KeysOf(g[m]), qs[j], k);
    PassedGaps(KeysOf(g[m]), KeysOf(g[0]), qs[j], Rank(KeysOf(g[0]), k), KeysOf(r[0]));
  }

  lemma {:induction false} EmptyAbove(g: Grid, k: Key, t: nat, m: nat)
    requires Shape(g) && k != NegInf && Kept(g, k, 0, t) && t <= m < |g|
    ensures |LevelWithout(g, k, m)| <= 1
    decreases m
  {
    if m > t {
      EmptyAbove(g, k, t, m - 1);
      if |LevelWithout(g, k, m)| > 1 { Wider(g, k, m - 1); }
    }
  }

  // true gaps stay true exactly when the key before it is beside it everywhere
  lemma {:induction false} CutTrue(g: Grid, k: Key, l: nat, preds: seq<(SNode, int)>, qs: seq<nat>, gs: seq<seq<int>>,
                                   t: nat, r: Grid, gs': seq<seq<int>>)
    requires CutGaps(g, k, l, preds, qs, gs, t, r, gs') && t > 0 && Shape(r)
    ensures gs' == TrueGaps(r) <==> Beside(g, TrueGaps(g), k)
  {
    forall m | 0 <= m < t ensures gs'[m] == TrueGaps(r)[m] <==> BesideAt(g, TrueGaps(g), k, m) {
      LevelTrue(g, k, l, preds, qs, gs, t, r, gs', m);
    }
    forall m | t <= m < |g| && |g[m]| > 2 ensures BesideAt(g, TrueGaps(g), k, m) {
      EmptyAbove(g, k, t, m);
    }
    if Beside(g, TrueGaps(g), k) {
      forall m | 0 <= m < t ensures gs'[m] == TrueGaps(r)[m] {
        BesideSmall(g, k, l, preds, qs, gs, t, r, gs', m);
      }
    }
  }

  lemma {:induction false} BesideSmall(g: Grid, k: Key, l: nat, preds: seq<(SNode, int)>, qs: seq<nat>,
                                       gs: seq<seq<int>>, t: nat, r: Grid, gs': seq<seq<int>>, m: nat)
    requires CutGaps(g, k, l, preds, qs, gs, t, r, gs') && t > 0 && m < t && Shape(r)
    requires Beside(g, TrueGaps(g), k)
    ensures gs'[m] == TrueGaps(r)[m]
  {
    LevelTrue(g, k, l, preds, qs, gs, t, r, gs', m);
    assert |g[m]| > 2 ==> BesideAt(g, TrueGaps(g), k, m);
  }

  lemma {:induction false} CutExact(g: Grid, k: Key, l: nat, preds: seq<(SNode, int)>, qs: seq<nat>, gs: seq<seq<int>>,
                                    t: nat, r: Grid, gs': seq<seq<int>>)
    requires CutGaps(g, k, l, preds, qs, gs, t, r, gs') && (t > 0 ==> Shape(r)) && (t == 0 ==> |g[0]| == 2)
    ensures (t == 0 || gs' == TrueGaps(r)) <==> Beside(g, TrueGaps(g), k)
  {
    if t > 0 {
      CutTrue(g, k, l, preds, qs, gs, t, r, gs');
    } else {
      forall m | 0 <= m < |g| && |g[m]| > 2 ensures BesideAt(g, TrueGaps(g), k, m) {
        EmptyAbove(g, k, t, m);
      }
    }
  }

  // deleting a key whose neighbour on an upper level is further off spoils a gap
  lemma {:induction false} GapSpoiled(a: Key, b: Key, c: Key)
    requires a != NegInf && Less(a, b) && Less(b, c)
    ensures var row, bottom := [NegInf, b, c], [NegInf, a, b, c];
      Ascending(row) && Ascending(bottom) && Nested(row, bottom)
      && Nested(Without(row, 1), Without(bottom, 2))
      && Without(Gaps(row, bottom), 0) != Gaps(Without(row, 1), Without(bottom, 2))
  {
    var row, bottom := [NegInf, b, c], [NegInf, a, b, c];
    LessTransitive(a, b, c);
    RankIs(bottom, 0);
    RankIs(bottom, 2);
    assert bottom[2] == b && bottom[3] == c;
    TowerGaps(row, bottom, 1, 2, Without(row, 1), Without(bottom, 2));
  }
}
