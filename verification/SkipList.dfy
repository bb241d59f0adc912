/**
 * The skip list (Data_structures/Skiplist.hpp): search by key and by rank,
 * ranges, insertion and deletion.
 */
module SkipLists {
  import opened SkipKeys
  import opened SkipNodes
  import opened SkipCuts
  import opened SkipRanks
  import opened Options

  ghost predicate OnLevel(g: Grid, l: nat, i: nat, node: SNode, k: Key) {
    l < |g| && i < |g[l]| && node == g[l][i] && node.k == k
  }

  datatype Move = Found | Down | Onward

  ghost predicate Searching(exact: bool, g: Grid, k: Key, l: nat, i: nat, node: SNode, head: SNode, index: int,
                            preds: seq<(SNode, int)>, qs: seq<nat>)
  {
    Shape(g) && At(exact, g, k, l, i, node, head, index) && Predecessors(exact, g, k, l, preds, qs)
  }

  ghost predicate KeyedBy(row: seq<Key>, vals: map<Key, Value>) {
    forall k {:trigger k in vals} :: k in vals <==> k in row && k != NegInf
  }

  lemma {:induction false} KeysMore(row: seq<Key>, vals: map<Key, Value>, k: Key, v: Value, p: nat)
    requires KeyedBy(row, vals) && k != NegInf && p < |row|
    ensures KeyedBy(InsertAt(row, p, k), vals[k := v])
  {
    forall x | true ensures x in vals[k := v] <==> x in InsertAt(row, p, k) && x != NegInf {
      assert x in vals <==> x in row && x != NegInf;
      InsertMembers(row, p, k, x);
    }
  }

  lemma {:induction false} KeysLess(row: seq<Key>, vals: map<Key, Value>, k: Key)
    requires Ascending(row) && KeyedBy(row, vals) && k in row && k != NegInf
    ensures KeyedBy(Without(row, Rank(row, k)), vals - {k})
  {
    WithoutInsert(row, Rank(row, k));
    forall x | true ensures x in vals - {k} <==> x in Without(row, Rank(row, k)) && x != NegInf {
      assert x in vals <==> x in row && x != NegInf;
    }
  }

  // the keys are those of the bottom row, and every node has its key's value
  ghost predicate Valued(g: Grid, vals: map<Key, Value>) {
    KeyedBy(if g == [] then [NegInf] else KeysOf(g[0]), vals)
    && forall l, i {:trigger ValueAt(g, vals, l, i)} :: 0 <= l < |g| && 0 < i < |g[l]| ==> ValueAt(g, vals, l, i)
  }

  ghost predicate ValueAt(g: Grid, vals: map<Key, Value>, l: nat, i: nat)
    requires l < |g| && i < |g[l]|
  {
    g[l][i].k in vals && g[l][i].v == vals[g[l][i].k]
  }

  // a node behind its head has a key of its own
  lemma {:induction false} Keyed(g: Grid, l: nat, i: nat)
    requires Shape(g) && l < |g| && i < |g[l]|
    ensures g[l][i].k != NegInf <==> i > 0
  {
    assert Level(l, g[l]);
    assert KeysOf(g[l])[0] == NegInf;
    if i > 0 { assert Less(KeysOf(g[l])[0], KeysOf(g[l])[i]); }
  }

  // the nodes made for a key bring its value
  lemma {:induction false} WovenValues(g: Grid, r: Grid, vals: map<Key, Value>, k: Key, v: Value, p: nat)
    requires Shape(g) && Shape(r) && Valued(g, vals) && k != NegInf && IsPred(KeysOf(g[0]), k, p)
    requires KeysOf(r[0]) == InsertAt(KeysOf(g[0]), p, k)
    requires forall x :: x in AllNodes(r) ==> x in AllNodes(g) || NewNode(x, k, v)
    ensures Valued(r, vals[k := v])
  {
    var more := vals[k := v];
    KeysMore(KeysOf(g[0]), vals, k, v, p);
    InsertAscending(KeysOf(g[0]), p, k);
    forall l, i | 0 <= l < |r| && 0 < i < |r[l]| ensures ValueAt(r, more, l, i) {
      Keyed(r, l, i);
      assert r[l][i] in AllNodes(r);
      if r[l][i] in AllNodes(g) { OldValue(g, vals, r[l][i]); }
    }
  }

  lemma {:induction false} OldValue(g: Grid, vals: map<Key, Value>, x: SNode)
    requires Shape(g) && Valued(g, vals) && x in AllNodes(g) && x.k != NegInf
    ensures x.k in vals && x.v == vals[x.k] && x.k in KeysOf(g[0])
  {
    var m, j :| 0 <= m < |g| && 0 <= j < |g[m]| && g[m][j] == x;
    Keyed(g, m, j);
    assert ValueAt(g, vals, m, j);
  }

  lemma {:induction false} CutValues(g: Grid, r: Grid, vals: map<Key, Value>, k: Key)
    requires Shape(g) && (r == [] || Shape(r)) && Valued(g, vals) && AllNodes(r) <= AllNodes(g) && k != NegInf
    requires k in KeysOf(g[0])
    requires (if r == [] then [NegInf] else KeysOf(r[0])) == Without(KeysOf(g[0]), Rank(KeysOf(g[0]), k))
    ensures Valued(r, vals - {k})
  {
    var less := vals - {k};
    KeysLess(KeysOf(g[0]), vals, k);
    forall l, i | 0 <= l < |r| && 0 < i < |r[l]| ensures ValueAt(r, less, l, i) {
      Keyed(r, l, i);
      assert r[l][i] in AllNodes(r);
      OldValue(g, vals, r[l][i]);
      InRow(r, l, i);
      assert KeyedBy(KeysOf(r[0]), less);
    }
  }

  lemma {:induction false} InRow(g: Grid, l: nat, i: nat)
    requires Shape(g) && l < |g| && i < |g[l]|
    ensures g[l][i].k in KeysOf(g[0])
  {
    assert KeysOf(g[l])[i] in KeysOf(g[l]);
  }

  class SkipList {
    var sl: SNode?
    var height: int
    var length: int
    // the nodes of every level, none after the last key was deleted, and their gaps
    ghost var grid: Grid
    ghost var gs: seq<seq<int>>
    // what the keys stand for
    ghost var vals: map<Key, Value>

    ghost predicate Valid()
      reads this, AllNodes(grid)
    {
      Valued(grid, vals) && Fits(sl, length, height, grid, gs)
    }

    // the fields that fit a grid
    static ghost predicate Fits(top: SNode?, len: int, hgt: int, r: Grid, gaps: seq<seq<int>>)
      reads AllNodes(r)
    {
      if top == null then r == [] && gaps == [] && len == 0 && hgt == 0
      else
        Shape(r) && AllHeld(r, gaps) && Towers(r)
        && top == r[|r| - 1][0]
        && len == |r[0]| - 1
        && hgt == (if len == 0 then 0 else |r|)
        && (len == 0 ==> |r| == 1)
    }

    // every gap is the distance to the next node of its level
    ghost predicate Exact()
      reads this
      requires grid == [] || Shape(grid)
    {
      grid == [] || gs == TrueGaps(grid)
    }

    // the keys in order, the head first
    ghost function Row(): seq<Key>
      reads this
    {
      if grid == [] then [NegInf] else KeysOf(grid[0])
    }

    constructor (v: Value)
      ensures Valid() && Exact() && Row() == [NegInf] && fresh(AllNodes(grid)) && sl != null
      ensures vals == map[]
    {
      var head := new SNode(NegInf, v, true, 0);
      sl, height, length := head, 0, 0;
      grid, gs, vals := [[head]], [[0]], map[];
      new;
      OneHead(grid);
    }

    // a node has the value of its key
    lemma {:induction false} ValueOf(l: nat, i: nat)
      requires Valid() && sl != null && l < |grid| && i < |grid[l]| && grid[l][i].k != NegInf
      ensures grid[l][i].k in vals && grid[l][i].v == vals[grid[l][i].k]
    {
      assert KeysOf(grid[l])[0] == NegInf;
      assert ValueAt(grid, vals, l, i);
    }

    // scores never fall along the bottom row, and equal ones go by member
    lemma {:induction false} RowRises()
      requires Valid()
      ensures Row()[0] == NegInf && forall i :: 0 < i < |Row()| ==> Row()[i].Key?
      ensures forall i, j :: 0 < i < j < |Row()| ==>
        Row()[i].score < Row()[j].score || (Row()[i].score == Row()[j].score && Row()[i].member < Row()[j].member)
    {
      ScoresRise(Row());
    }

    // what the fields of a node say
    lemma {:induction false} SeeNode(l: nat, i: nat)
      requires Valid() && sl != null && l < |grid| && i < |grid[l]|
      ensures |gs| == |grid|
      ensures var n := grid[l][i];
        n.right == (if i + 1 < |grid[l]| then grid[l][i + 1] else null)
        && n.left == (if i > 0 then grid[l][i - 1] else null)
        && n.isHead == (i == 0)
        && |gs[l]| == |grid[l]| && n.gap == gs[l][i] && (Exact() ==> n.gap == Gap(KeysOf(grid[l]), KeysOf(grid[0]), i))
        && n.down == Find(grid, l - 1, n.k) && n.up == Find(grid, l + 1, n.k)
    {
      assert HeldAt(grid, gs, l);
      assert Chained(grid[l], i, gs[l]);
      assert Stacked(grid, l, grid[l][i]);
    }

    // the same key one level down
    lemma {:induction false} SeeBelow(l: nat, i: nat) returns (j: nat)
      requires Valid() && sl != null && 0 < l < |grid| && i < |grid[l]|
      ensures j < |grid[l - 1]| && Find(grid, l - 1, grid[l][i].k) == grid[l - 1][j]
      ensures grid[l - 1][j].k == grid[l][i].k && (i == 0 ==> j == 0)
      ensures Place(KeysOf(grid[l - 1]), KeysOf(grid[0]), j) == Place(KeysOf(grid[l]), KeysOf(grid[0]), i)
    {
      var k := grid[l][i].k;
      assert KeysOf(grid[l])[i] == k && k in KeysOf(grid[l - 1]);
      j := Rank(KeysOf(grid[l - 1]), k);
      if i == 0 { RankIs(KeysOf(grid[l - 1]), 0); }
    }

    // down one level, the predecessor noted
    method Descend(k: Key, node: SNode, head: SNode, index: int, preds: seq<(SNode, int)>,
                ghost l: nat, ghost i: nat, ghost qs: seq<nat>, ghost t: int)
      returns (node': SNode, head': SNode, preds': seq<(SNode, int)>, ghost i': nat, ghost qs': seq<nat>)
      requires Valid() && sl != null && Searching(Exact(), grid, k, l, i, node, head, index, preds, qs)
      requires 0 < l && IsPred(KeysOf(grid[l]), k, i) && Tallying(k, l, i, index, t)
      ensures Valid() && Searching(Exact(), grid, k, l - 1, i', node', head', index, preds', qs')
      ensures Tallying(k, l - 1, i', index, t)
    {
      SeeNode(l, i);
      SeeNode(l, 0);
      i' := SeeBelow(l, i);
      ghost var z := SeeBelow(l, 0);
      if node.k == k { LessTotal(k, k); }
      TallyDown(k, l, i, i', index, t);
      AddPredecessor(Exact(), grid, k, l, i, node, index, preds, qs);
      preds', qs' := preds + [(node, index)], qs + [i];
      node', head' := node.down, head.down;
    }

    // whether the levels below are reached from here
    method AtBottom(k: Key, node: SNode, head: SNode, ghost index: int, ghost l: nat, ghost i: nat)
      returns (bottom: bool)
      requires Valid() && sl != null && At(Exact(), grid, k, l, i, node, head, index)
      ensures Valid() && (bottom <==> l == 0)
    {
      SeeNode(l, i);
      SeeNode(l, 0);
      if l > 0 {
        ghost var j := SeeBelow(l, i);
        ghost var z := SeeBelow(l, 0);
      }
      bottom := head.down == null || node.down == null;
    }

    // what to do at a node: the cursor never is beyond the key
    method Look(k: Key, node: SNode, head: SNode, index: int, ghost l: nat, ghost i: nat, ghost t: int)
      returns (m: Move, next: SNode, rank: int)
      requires Valid() && sl != null && At(Exact(), grid, k, l, i, node, head, index) && Tallying(k, l, i, index, t)
      ensures Valid()
      ensures m == Found ==> node.k == k
      ensures m == Down ==> IsPred(KeysOf(grid[l]), k, i)
      ensures m == Onward ==> At(Exact(), grid, k, l, i + 1, next, head, rank) && Tallying(k, l, i + 1, rank, t)
      ensures m == Found || (m == Down && l == 0) ==> index == t
    {
      m, next, rank := Found, node, index;
      SeeNode(l, i);
      LessTotal(node.k, k);
      TallyHere(k, l, i, index, t);
      if Compare(node.k, k) != 0 {
        var right := node.right;
        if right == null {
          m := Down;
        } else {
          LessTotal(right.k, k);
          if Compare(right.k, k) == -1 {
            m := Down;
          } else {
            m, next, rank := Onward, right, index + node.gap;
            TallyOn(k, l, i, index, t);
          }
        }
      }
    }

    lemma {:induction false} AtTop(k: Key)
      requires Valid() && sl != null && k != NegInf
      ensures Searching(Exact(), grid, k, |grid| - 1, 0, sl, sl, 0, [], [])
    {
      RankIs(KeysOf(grid[0]), 0);
      assert KeysOf(grid[|grid| - 1])[0] == NegInf;
    }

    // the sum of the gaps on the way to a key
    ghost function Tally(k: Key): int
      requires Valid() && sl != null
      reads this, AllNodes(grid)
    {
      HeldRacks();
      Counted(KeyRows(grid), gs, k, |grid| - 1, 0, 0)
    }

    lemma {:induction false} HeldRacks()
      requires Valid() && sl != null
      ensures Racks(KeyRows(grid), gs)
    {
      HeldSized(grid, gs);
      GridRacks(grid, gs);
    }

    // the cursor of a search by key, t being what it will have counted
    ghost predicate Tallying(k: Key, l: nat, i: nat, index: int, t: int)
      reads this
    {
      exists m: nat :: m == l && TallyingAt(k, m, i, index, t)
    }

    ghost predicate TallyingAt(k: Key, l: nat, i: nat, index: int, t: int)
      reads this
    {
      l < |grid| && i < |grid[l]| && Racks(KeyRows(grid), gs) && Counted(KeyRows(grid), gs, k, l, i, index) == t
    }

    lemma {:induction false} TallyHere(k: Key, l: nat, i: nat, index: int, t: int)
      requires Valid() && sl != null && Tallying(k, l, i, index, t) && l < |grid| && i < |grid[l]|
      ensures grid[l][i].k == k || (l == 0 && IsPred(KeysOf(grid[l]), k, i)) ==> index == t
    {
      assert Rack(KeyRows(grid), gs, l);
    }

    lemma {:induction false} TallyOn(k: Key, l: nat, i: nat, index: int, t: int)
      requires Valid() && sl != null && Tallying(k, l, i, index, t) && l < |grid| && i + 1 < |grid[l]|
      requires grid[l][i].k != k && !Less(k, grid[l][i + 1].k)
      ensures Tallying(k, l, i + 1, index + grid[l][i].gap, t)
    {
      SeeNode(l, i);
      assert TallyingAt(k, l, i + 1, index + grid[l][i].gap, t);
    }

    lemma {:induction false} TallyDown(k: Key, l: nat, i: nat, j: nat, index: int, t: int)
      requires Valid() && sl != null && Tallying(k, l, i, index, t) && 0 < l < |grid| && i < |grid[l]|
      requires grid[l][i].k != k && IsPred(KeysOf(grid[l]), k, i) && j < |grid[l - 1]|
      requires grid[l - 1][j].k == grid[l][i].k
      ensures Tallying(k, l - 1, j, index, t)
    {
      RankIs(KeysOf(grid[l - 1]), j);
      assert TallyingAt(k, l - 1, j, index, t);
    }

    // the highest node of the key with its rank, or the place where it
    // belongs; the predecessors on the levels above
    method Search(k: Key)
      returns (node: SNode, head: SNode, index: int, preds: seq<(SNode, int)>, ghost l: nat, ghost i: nat,
               ghost qs: seq<nat>)
      requires Valid() && sl != null && k != NegInf
      ensures Valid() && Searching(Exact(), grid, k, l, i, node, head, index, preds, qs) && Located(grid, k, l, i)
      ensures index == Tally(k) && (node.k == k ==> k in vals && node.v == vals[k])
    {
      ghost var t := Tally(k);
      node, head, index, preds, l, i, qs := SearchFrom(k, t);
      if node.k == k { ValueOf(l, i); }
    }

    method SearchFrom(k: Key, ghost t: int)
      returns (node: SNode, head: SNode, index: int, preds: seq<(SNode, int)>, ghost l: nat, ghost i: nat,
               ghost qs: seq<nat>)
      requires Valid() && sl != null && k != NegInf && t == Tally(k)
      ensures Valid() && Searching(Exact(), grid, k, l, i, node, head, index, preds, qs) && Located(grid, k, l, i)
      ensures index == t
    {
      node, head, index, preds := sl, sl, 0, [];
      l, i, qs := |grid| - 1, 0, [];
      AtTop(k);
      TallyTop(k);
      while true
        invariant Valid() && sl != null && Searching(Exact(), grid, k, l, i, node, head, index, preds, qs)
        invariant Tallying(k, l, i, index, t)
        decreases l, |grid[l]| - i
      {
        var m, next, rank := Look(k, node, head, index, l, i, t);
        if m == Found { return; }
        if m == Onward {
          index, node, i := rank, next, i + 1;
        } else {
          var bottom := AtBottom(k, node, head, index, l, i);
          if bottom { return; }
          node, head, preds, i, qs := Descend(k, node, head, index, preds, l, i, qs, t);
          l := l - 1;
        }
      }
    }

    lemma {:induction false} TallyTop(k: Key)
      requires Valid() && sl != null
      ensures Tallying(k, |grid| - 1, 0, 0, Tally(k))
    {
      HeldRacks();
      assert TallyingAt(k, |grid| - 1, 0, 0, Tally(k));
    }

    // the first key of an empty list
    method InsertFirst(k: Key, v: Value)
      requires Valid() && sl != null && length == 0 && k != NegInf
      modifies this, AllNodes(grid)
      ensures Valid() && Exact() && Row() == [NegInf, k] && vals == old(vals)[k := v]
      ensures forall x :: x in AllNodes(grid) ==> x in old(AllNodes(grid)) || fresh(x)
    {
      SeeNode(0, 0);
      InAll(grid, 0);
      assert sl in grid[0];
      var n := FirstBehind(sl, k, v);
      OneDuo(sl, n, k);
      length, height := 1, 1;
      grid, gs, vals := [[sl, n]], [[1, 0]], vals[k := v];
      assert KeysOf(grid[0]) == [NegInf, k] && ValueAt(grid, vals, 0, 1);
    }

    // a new head for a list that lost its last key
    method NewHead(headValue: Value)
      requires Valid() && sl == null
      modifies this
      ensures Valid() && Exact() && sl != null && Row() == [NegInf] && fresh(AllNodes(grid)) && vals == old(vals)
    {
      var head := new SNode(NegInf, headValue, true, 0);
      sl := head;
      grid, gs := [[head]], [[0]];
      OneHead(grid);
    }

    // the place of an absent key, or the news that it is present
    method FindPlace(k: Key)
      returns (found: bool, node: SNode, index: int, preds: seq<(SNode, int)>, ghost p: nat)
      requires Valid() && sl != null && k != NegInf
      ensures Valid() && (found <==> k in Row())
      ensures !found ==> Placed(Exact(), grid, k, p, node, index, preds)
    {
      var head;
      ghost var l, i, qs;
      node, head, index, preds, l, i, qs := Search(k);
      p := i;
      found := Compare(node.k, k) == 0;
      if found {
        FoundInRow(l, i, k);
      } else {
        ghost var q := LevelPreds(Exact(), grid, k, i, preds, qs);
        assert Suits(Exact(), grid, k, i, preds, q);
        BottomIndex(i);
        InsertAscending(KeysOf(grid[0]), i, k);
      }
    }

    method InsertAbsent(k: Key, v: Value, headValue: Value, towerHeight: nat,
                        node: SNode, index: int, preds: seq<(SNode, int)>, ghost p: nat)
      requires Valid() && sl != null && Placed(Exact(), grid, k, p, node, index, preds) && towerHeight >= 1
      requires length > 0
      modifies this, AllNodes(grid)
      ensures Valid() && Row() == InsertAt(old(Row()), p, k) && vals == old(vals)[k := v]
      ensures old(Exact()) ==> Exact()
      ensures forall x :: x in AllNodes(grid) ==> x in old(AllNodes(grid)) || fresh(x)
    {
      ghost var q :| Suits(Exact(), grid, k, p, preds, q);
      var top;
      ghost var r, gs';
      top, r, gs' := Weave(Exact(), k, v, headValue, towerHeight, height, sl, node, index, preds, length + 1, grid, gs,
                           q);
      assert |r[0]| == |KeysOf(r[0])| == length + 2;
      WovenValues(grid, r, vals, k, v, p);
      Install(top, length + 1, if towerHeight > height then towerHeight else height, r, gs', vals[k := v]);
    }

    method Install(top: SNode?, length': int, height': int, ghost r: Grid, ghost gs': seq<seq<int>>,
                   ghost vals': map<Key, Value>)
      requires Fits(top, length', height', r, gs') && Valued(r, vals')
      modifies this
      ensures Valid() && grid == r && gs == gs' && vals == vals'
    {
      assert allocated(AllNodes(r));
      length, height, sl, grid, gs, vals := length', height', top, r, gs', vals';
    }

    // A present key is left alone.  An absent one gets a tower of the given
    // height; the bottom row is the old one with the key at its place.
    method Insert(k: Key, v: Value, headValue: Value, towerHeight: nat) returns (ghost p: nat)
      requires Valid() && k != NegInf && towerHeight >= 1
      modifies this, AllNodes(grid)
      ensures Valid()
      ensures old(Exact()) ==> Exact()
      ensures k in old(Row()) ==> grid == old(grid) && vals == old(vals)
      ensures k !in old(Row()) ==> IsPred(old(Row()), k, p) && Row() == InsertAt(old(Row()), p, k)
      ensures k !in old(Row()) ==> vals == old(vals)[k := v]
      ensures forall x :: x in AllNodes(grid) ==> x in old(AllNodes(grid)) || fresh(x)
    {
      if sl == null { NewHead(headValue); }
      p := InsertBehindHead(k, v, headValue, towerHeight);
    }

    method InsertBehindHead(k: Key, v: Value, headValue: Value, towerHeight: nat) returns (ghost p: nat)
      requires Valid() && sl != null && k != NegInf && towerHeight >= 1
      modifies this, AllNodes(grid)
      ensures Valid()
      ensures old(Exact()) ==> Exact()
      ensures k in old(Row()) ==> grid == old(grid) && vals == old(vals)
      ensures k !in old(Row()) ==> IsPred(old(Row()), k, p) && Row() == InsertAt(old(Row()), p, k)
      ensures k !in old(Row()) ==> vals == old(vals)[k := v]
      ensures forall x :: x in AllNodes(grid) ==> x in old(AllNodes(grid)) || fresh(x)
    {
      p := 0;
      SeeNode(|grid| - 1, 0);
      if sl.right == null {
        OnlyHead(k);
        InsertFirst(k, v);
      } else {
        var found, node, index, preds;
        found, node, index, preds, p := FindPlace(k);
        if !found { InsertAbsent(k, v, headValue, towerHeight, node, index, preds, p); }
      }
    }

    // ---------- deletion ----------

    // the left neighbours down the tower of a key
    method Lefts(k: Key, node: SNode, ghost l: nat, ghost i: nat) returns (lefts: seq<SNode>)
      requires Valid() && sl != null && k != NegInf && l < |grid| && i < |grid[l]| && node == grid[l][i] && node.k == k
      ensures Valid() && LeftsOf(grid, k, l, lefts)
    {
      lefts := [];
      var t: SNode? := node;
      NodeAtIs(l, grid[l], i);
      ghost var m: int := l;
      while t != null
        invariant Valid() && sl != null && m == l - |lefts| >= -1
        invariant LeftsTo(l, k, lefts) && t == Find(grid, m, k) && (m >= 0 ==> t != null)
        decreases m
      {
        var left;
        left, t := LeftTurn(k, t, m);
        LeftsMore(l, k, lefts, left);
        lefts, m := lefts + [left], m - 1;
      }
      forall m | 0 <= m <= l ensures LeftAt(grid, k, l, lefts, m) { assert LeftBeside(l, k, lefts, l - m); }
    }

    ghost predicate LeftsTo(l: nat, k: Key, lefts: seq<SNode>)
      reads this
    {
      |lefts| <= l + 1 <= |grid| && forall a :: 0 <= a < |lefts| ==> LeftBeside(l, k, lefts, a)
    }

    lemma {:induction false} LeftsMore(l: nat, k: Key, lefts: seq<SNode>, left: SNode)
      requires LeftsTo(l, k, lefts) && |lefts| <= l
      requires var m := l - |lefts|;
        k in KeysOf(grid[m]) && Rank(KeysOf(grid[m]), k) > 0 && left == grid[m][Rank(KeysOf(grid[m]), k) - 1]
      ensures LeftsTo(l, k, lefts + [left])
    {
      var more := lefts + [left];
      forall a | 0 <= a < |more| ensures LeftBeside(l, k, more, a) {
        if a < |lefts| { assert LeftBeside(l, k, lefts, a); }
      }
    }

    method LeftTurn(k: Key, t: SNode, ghost m: int) returns (left: SNode, below: SNode?)
      requires Valid() && sl != null && k != NegInf && m < |grid| && t == Find(grid, m, k)
      ensures Valid() && 0 <= m && k in KeysOf(grid[m]) && Rank(KeysOf(grid[m]), k) > 0
      ensures left == grid[m][Rank(KeysOf(grid[m]), k) - 1]
      ensures below == Find(grid, m - 1, k) && (m > 0 ==> below != null)
    {
      BehindHead(m, grid[m], k);
      SeeNode(m, Rank(KeysOf(grid[m]), k));
      if m > 0 { ghost var z := SeeBelow(m, Rank(KeysOf(grid[m]), k)); }
      left, below := t.left, t.down;
    }

    ghost predicate LeftBeside(l: nat, k: Key, lefts: seq<SNode>, a: nat)
      requires a < |lefts| <= l + 1 <= |grid|
      reads this
    {
      k in KeysOf(grid[l - a]) && Rank(KeysOf(grid[l - a]), k) > 0
      && lefts[a] == grid[l - a][Rank(KeysOf(grid[l - a]), k) - 1]
    }

    // the head of the level a search ended on
    method LevelHead(preds: seq<(SNode, int)>, ghost l: nat) returns (nav: SNode)
      requires Valid() && sl != null && l < |grid| && |preds| == |grid| - 1 - l
      ensures Valid() && nav == grid[l][0]
    {
      nav := sl;
      ghost var m := |grid| - 1;
      for j := 0 to |preds|
        invariant Valid() && l <= m < |grid| && m == |grid| - 1 - j && HeadOf(nav, m)
      {
        NextHead(m, nav);
        nav, m := nav.down, m - 1;
      }
    }

    ghost predicate HeadOf(nav: SNode, m: nat)
      reads this
    {
      m < |grid| && grid[m] != [] && nav == grid[m][0]
    }

    lemma {:induction false} NextHead(m: nat, nav: SNode)
      requires Valid() && sl != null && 0 < m && HeadOf(nav, m)
      ensures nav.down != null && HeadOf(nav.down, m - 1)
    {
      SeeNode(m, 0);
      HeadBelow(grid, m);
    }

    // what a search that found the key gives a deletion
    ghost predicate Spotted(k: Key, l: nat, preds: seq<(SNode, int)>, qs: seq<nat>)
      reads this
    {
      Shape(grid) && k != NegInf && Predecessors(Exact(), grid, k, l, preds, qs) && k in KeysOf(grid[l])
    }

    lemma {:induction false} SpottedAbove(k: Key, l: nat, preds: seq<(SNode, int)>, qs: seq<nat>, m: nat)
      requires Spotted(k, l, preds, qs) && l < m < |grid|
      ensures k !in KeysOf(grid[m])
    {
      var j := |grid| - 1 - m;
      assert PredecessorAt(Exact(), grid, k, preds, qs, j);
      InsertAscending(KeysOf(grid[m]), qs[j], k);
    }

    lemma {:induction false} SpottedBelow(k: Key, l: nat, preds: seq<(SNode, int)>, qs: seq<nat>, m: nat)
      requires Spotted(k, l, preds, qs) && m <= l
      ensures k in KeysOf(grid[m])
      decreases l - m
    {
      if m < l { SpottedBelow(k, l, preds, qs, m + 1); }
    }

    // the gaps of a key's left neighbours, on the levels that stay, are one
    ghost predicate Snug(k: Key)
      reads this
    {
      Beside(grid, gs, k)
    }

    // the tower goes down and the gaps above it shrink
    method ReadyToCut(k: Key, preds: seq<(SNode, int)>, nav: SNode, ghost l: nat, ghost qs: seq<nat>)
      returns (ghost gs1: seq<seq<int>>)
      requires Valid() && sl != null && length > 0 && Spotted(k, l, preds, qs) && nav == grid[l][0]
      modifies AllNodes(grid)`gap
      ensures Lowered(grid, qs, gs, l + 1, gs1) && Sized(grid, gs1)
      ensures CutDown(grid, k, gs1, l + 1, grid, gs1, |grid|, nav, sl, height)
    {
      TowersLoose(grid, k);
      gs1 := LowerGaps(preds, Exact(), grid, k, l, qs, gs);
      HeldSized(grid, gs1);
      NothingCut(k, l, preds, qs, gs1);
    }

    lemma {:induction false} NothingCut(k: Key, l: nat, preds: seq<(SNode, int)>, qs: seq<nat>, gs1: seq<seq<int>>)
      requires Spotted(k, l, preds, qs) && Sized(grid, gs1)
      ensures l < |grid| && Cutting(grid, k, gs1, l + 1, grid, gs1) && Kept(grid, k, l + 1, |grid|)
    {
      forall m | l < m < |grid| ensures k !in KeysOf(grid[m]) { SpottedAbove(k, l, preds, qs, m); }
      CutStart(grid, k, gs1, l + 1);
      KeptStart(grid, k, l + 1);
    }

    method Uproot(k: Key, preds: seq<(SNode, int)>, lefts: seq<SNode>, nav: SNode, ghost l: nat, ghost qs: seq<nat>)
      returns (top: SNode?, height': int, ghost gs1: seq<seq<int>>, ghost cur: Grid, ghost gs2: seq<seq<int>>,
               ghost t: nat)
      requires Valid() && sl != null && length > 0 && Spotted(k, l, preds, qs)
      requires LeftsOf(grid, k, l, lefts) && nav == grid[l][0]
      modifies AllNodes(grid)
      ensures Lowered(grid, qs, gs, l + 1, gs1) && Sized(grid, gs1)
      ensures CutDown(grid, k, gs1, 0, cur, gs2, t, null, top, height')
    {
      gs1 := ReadyToCut(k, preds, nav, l, qs);
      top, height', cur, gs2, t := CutTower(lefts, nav, sl, height, grid, k, gs1, l);
    }

    lemma {:induction false} Fitting(k: Key, top: SNode?, height': int, l: nat, preds: seq<(SNode, int)>, qs: seq<nat>,
                                     gs1: seq<seq<int>>, cur: Grid, gs2: seq<seq<int>>, t: nat)
      requires Spotted(k, l, preds, qs) && Sized(grid, gs1)
      requires CutDown(grid, k, gs1, 0, cur, gs2, t, null, top, height')
      requires length == |grid[0]| - 1
      ensures t <= |cur| == |gs2| && Fits(top, length - 1, height', cur[..t], gs2[..t])
      ensures AllNodes(cur[..t]) <= AllNodes(grid)
      ensures k in Row()
      ensures (if t == 0 then [NegInf] else KeysOf(cur[0])) == Without(Row(), Rank(Row(), k))
    {
      SpottedBelow(k, l, preds, qs, 0);
      CutDone(grid, k, gs1, cur, gs2, t, top, height');
      CutNodes(grid, k, t, cur[..t]);
      BehindHead(0, grid[0], k);
      assert Row()[0] == NegInf;
    }

    lemma {:induction false} SettledExact(k: Key, top: SNode?, height': int, l: nat, preds: seq<(SNode, int)>,
                                          qs: seq<nat>, gs1: seq<seq<int>>, cur: Grid, gs2: seq<seq<int>>, t: nat)
      requires Spotted(k, l, preds, qs) && Sized(grid, gs1) && Exact() && Lowered(grid, qs, gs, l + 1, gs1)
      requires CutDown(grid, k, gs1, 0, cur, gs2, t, null, top, height')
      ensures t <= |cur| == |gs2| && (t == 0 || Shape(cur[..t]))
      ensures (t == 0 || gs2[..t] == TrueGaps(cur[..t])) <==> Snug(k)
    {
      forall m | 0 <= m <= l ensures k in KeysOf(grid[m]) { SpottedBelow(k, l, preds, qs, m); }
      CutDone(grid, k, gs1, cur, gs2, t, top, height');
      CutExact(grid, k, l, preds, qs, gs1, t, cur[..t], gs2[..t]);
    }

    method Settle(k: Key, top: SNode?, height': int, ghost l: nat, ghost preds: seq<(SNode, int)>, ghost qs: seq<nat>,
                  ghost gs1: seq<seq<int>>, ghost cur: Grid, ghost gs2: seq<seq<int>>, ghost t: nat)
      requires Spotted(k, l, preds, qs) && Lowered(grid, qs, gs, l + 1, gs1) && Sized(grid, gs1)
      requires CutDown(grid, k, gs1, 0, cur, gs2, t, null, top, height')
      requires length == |grid[0]| - 1 && Valued(grid, vals) && Shape(grid)
      modifies this
      ensures Valid() && k in old(Row()) && Row() == Without(old(Row()), Rank(old(Row()), k))
      ensures old(Exact()) ==> (Exact() <==> old(Snug(k)))
      ensures AllNodes(grid) <= old(AllNodes(grid)) && vals == old(vals) - {k}
    {
      Fitting(k, top, height', l, preds, qs, gs1, cur, gs2, t);
      if Exact() { SettledExact(k, top, height', l, preds, qs, gs1, cur, gs2, t); }
      CutValues(grid, cur[..t], vals, k);
      Install(top, length - 1, height', cur[..t], gs2[..t], vals - {k});
    }

    // A present key is taken out of every level; levels left empty go with
    // their heads.  True gaps stay true exactly if every left neighbour was
    // next to the key in the bottom row.
    method DeleteKey(k: Key) returns (found: bool)
      requires Valid() && sl != null && k != NegInf
      modifies this, AllNodes(grid)
      ensures Valid() && (found <==> k in old(Row()))
      ensures !found ==> grid == old(grid) && gs == old(gs) && vals == old(vals)
      ensures AllNodes(grid) <= old(AllNodes(grid))
      ensures found ==> Row() == Without(old(Row()), Rank(old(Row()), k)) && vals == old(vals) - {k}
      ensures found && old(Exact()) ==> (Exact() <==> old(Snug(k)))
    {
      var node, head, index, preds;
      ghost var l, i, qs;
      node, head, index, preds, l, i, qs := Search(k);
      found := Compare(node.k, k) == 0;
      if found {
        FoundInRow(l, i, k);
        NodeAtIs(l, grid[l], i);
        var lefts := Lefts(k, node, l, i);
        var nav := LevelHead(preds, l);
        RemoveTower(k, preds, lefts, nav, l, qs);
      } else {
        InsertAscending(KeysOf(grid[0]), i, k);
      }
    }

    method RemoveTower(k: Key, preds: seq<(SNode, int)>, lefts: seq<SNode>, nav: SNode, ghost l: nat,
                       ghost qs: seq<nat>)
      requires Valid() && sl != null && length > 0 && Spotted(k, l, preds, qs)
      requires LeftsOf(grid, k, l, lefts) && nav == grid[l][0]
      modifies this, AllNodes(grid)
      ensures Valid() && k in old(Row()) && Row() == Without(old(Row()), Rank(old(Row()), k))
      ensures old(Exact()) ==> (Exact() <==> old(Snug(k)))
      ensures AllNodes(grid) <= old(AllNodes(grid)) && vals == old(vals) - {k}
    {
      ghost var gs1, cur, gs2, t;
      var top, height';
      top, height', gs1, cur, gs2, t := Uproot(k, preds, lefts, nav, l, qs);
      Settle(k, top, height', l, preds, qs, gs1, cur, gs2, t);
    }

    // the place that the search by rank ends at, if it does not run off the
    // bottom; with true gaps that of the rank
    ghost function Reached(rank: int): (w: Option<nat>)
      requires Valid() && sl != null
      reads this, AllNodes(grid)
    {
      HeldRacks();
      Walk(KeyRows(grid), gs, |grid| - 1, 0, rank)
    }

    lemma {:induction false} ReachedIs(rank: int)
      requires Valid() && sl != null && 1 <= rank <= length
      ensures Reached(rank).Some? ==> 0 < Reached(rank).value < |Row()|
      ensures Exact() ==> Reached(rank) == Some(rank)
    {
      HeldRacks();
      WalkPlace(KeyRows(grid), gs, |grid| - 1, 0, rank);
      if Exact() {
        RankIs(KeysOf(grid[0]), 0);
        assert KeysOf(grid[|grid| - 1])[0] == NegInf;
        WalkTrue(KeyRows(grid), gs, |grid| - 1, 0, rank, rank);
      }
    }

    // the cursor of a search by rank, w being where it will end
    ghost predicate Walking(nav: SNode, rest: int, l: nat, i: nat, w: Option<nat>)
      reads this
    {
      exists m: nat :: m == l && WalkingAt(nav, rest, m, i, w)
    }

    ghost predicate WalkingAt(nav: SNode, rest: int, l: nat, i: nat, w: Option<nat>)
      reads this
    {
      l < |grid| && i < |grid[l]| && nav == grid[l][i] && Racks(KeyRows(grid), gs)
      && Walk(KeyRows(grid), gs, l, i, rest) == w
    }

    // nothing to the right is near enough
    ghost predicate Stopped(l: nat, i: nat, rest: int)
      reads this
    {
      l < |grid| && i < |grid[l]| && Racks(KeyRows(grid), gs) && WalkStops(KeyRows(grid), gs, l, i, rest)
    }

    lemma {:induction false} NextOn(nav: SNode, rest: int, l: nat, i: nat, w: Option<nat>)
      requires Valid() && sl != null && Walking(nav, rest, l, i, w)
      ensures l < |grid|
      ensures nav.right != null && rest >= nav.gap ==>
        i + 1 < |grid[l]| && Walking(nav.right, rest - nav.gap, l, i + 1, w)
      ensures nav.right == null || rest < nav.gap ==> Stopped(l, i, rest)
    {
      SeeNode(l, i);
      WalkOn(KeyRows(grid), gs, l, i, rest);
      if nav.right != null && rest >= nav.gap {
        assert WalkingAt(nav.right, rest - nav.gap, l, i + 1, w);
      }
    }

    // as far to the right as the rest allows
    method GoRight(nav0: SNode, rest0: int, ghost l: nat, ghost i0: nat, ghost w: Option<nat>)
      returns (nav: SNode, rest: int, ghost i: nat)
      requires Valid() && sl != null && Walking(nav0, rest0, l, i0, w)
      ensures Valid() && Walking(nav, rest, l, i, w) && Stopped(l, i, rest)
    {
      nav, rest, i := nav0, rest0, i0;
      NextOn(nav, rest, l, i, w);
      while nav.right != null && rest >= nav.gap
        invariant Valid() && sl != null && Walking(nav, rest, l, i, w) && l < |grid|
        decreases |grid[l]| - i
      {
        NextOn(nav, rest, l, i, w);
        nav, rest, i := nav.right, rest - nav.gap, i + 1;
      }
      NextOn(nav, rest, l, i, w);
    }

    // one level down, or off the bottom
    method GoDown(nav: SNode, ghost rest: int, ghost l: nat, ghost i: nat, ghost w: Option<nat>)
      returns (below: SNode?, ghost j: nat)
      requires Valid() && sl != null && Walking(nav, rest, l, i, w) && Stopped(l, i, rest) && rest != 0
      ensures Valid() && (below == null <==> l == 0)
      ensures below == null ==> w == None
      ensures below != null ==> Walking(below, rest, l - 1, j, w)
    {
      SeeNode(l, i);
      j := 0;
      if l > 0 {
        j := SeeBelow(l, i);
        RankIs(KeysOf(grid[l - 1]), j);
        assert WalkingAt(grid[l - 1][j], rest, l - 1, j, w);
      }
      below := nav.down;
    }

    lemma {:induction false} EndsAt(nav: SNode, l: nat, i: nat, w: Option<nat>)
      requires Valid() && sl != null && Walking(nav, 0, l, i, w) && Stopped(l, i, 0)
      requires w.Some? ==> 0 < w.value < |Row()|
      ensures w.Some? && nav.k == Row()[w.value] && nav.k in vals && nav.v == vals[nav.k]
    {
      Keyed(grid, 0, w.value);
      ValueOf(l, i);
    }

    // Nothing for a rank below 1 or above the length; else the key that the
    // gaps lead to, or a walk off the bottom.  With true gaps it is the key
    // of that rank.
    method SearchIndex(rank: int) returns (ran: bool, n: SNode?)
      requires Valid()
      ensures Valid() && (rank < 1 || rank > length ==> ran && n == null)
      ensures 1 <= rank <= length ==> sl != null && (ran <==> Reached(rank).Some?)
      ensures 1 <= rank <= length && ran ==>
        n != null && 0 < Reached(rank).value < |Row()| && n.k == Row()[Reached(rank).value]
        && n.k in vals && n.v == vals[n.k]
      ensures 1 <= rank <= length && Exact() ==> ran && Reached(rank) == Some(rank)
    {
      if rank > length || rank <= 0 { return true, null; }
      var nav: SNode, rest := sl, rank;
      ghost var l: nat, i: nat := |grid| - 1, 0;
      ghost var w := Reached(rank);
      ReachedIs(rank);
      HeldRacks();
      assert WalkingAt(sl, rank, |grid| - 1, 0, w);
      while nav.down != null || rest != 0
        invariant Valid() && sl != null && Walking(nav, rest, l, i, w) && rest != 0
        decreases l
      {
        nav, rest, i := GoRight(nav, rest, l, i, w);
        if rest == 0 {
          EndsAt(nav, l, i, w);
          break;
        }
        var below;
        below, i := GoDown(nav, rest, l, i, w);
        if below == null { return false, null; }
        nav := below;
        l := l - 1;
      }
      ran, n := true, nav;
    }

    // a search for a present key ends on it, with its rank
    lemma {:induction false} SearchedRank(k: Key, l: nat, i: nat, node: SNode, head: SNode, index: int,
                                          preds: seq<(SNode, int)>, qs: seq<nat>)
      requires Valid() && sl != null && k in Row()
      requires Searching(Exact(), grid, k, l, i, node, head, index, preds, qs) && Located(grid, k, l, i)
      ensures node.k == k && (Exact() ==> index == Rank(Row(), k))
    {
      if node.k != k { InsertAscending(KeysOf(grid[0]), i, k); }
    }

    // ---------- ranges ----------

    // the bottom node of a tower
    method ToBottom(node: SNode, ghost l: nat, ghost i: nat) returns (t: SNode, ghost j: nat)
      requires Valid() && sl != null && OnLevel(grid, l, i, node, node.k)
      ensures Valid() && OnLevel(grid, 0, j, t, node.k)
    {
      t, j := node, i;
      ghost var m := l;
      SeeDown(m, j);
      while t.down != null
        invariant Valid() && OnLevel(grid, m, j, t, node.k) && (t.down == null <==> m == 0)
        decreases m
      {
        t, j := StepDown(t, m, j);
        m := m - 1;
        SeeDown(m, j);
      }
    }

    lemma {:induction false} SeeDown(l: nat, i: nat)
      requires Valid() && sl != null && l < |grid| && i < |grid[l]|
      ensures grid[l][i].down == null <==> l == 0
    {
      SeeNode(l, i);
      if l > 0 { var j := SeeBelow(l, i); }
    }

    method StepDown(t: SNode, ghost m: nat, ghost j: nat) returns (t': SNode, ghost j': nat)
      requires Valid() && sl != null && OnLevel(grid, m, j, t, t.k) && t.down != null
      ensures Valid() && m > 0 && OnLevel(grid, m - 1, j', t', t.k)
    {
      SeeDown(m, j);
      SeeNode(m, j);
      j' := SeeBelow(m, j);
      t' := t.down;
    }

    ghost predicate UpTo(j: nat, hi: Key)
      reads this
      requires j < |Row()|
    {
      Row()[j] == hi || Less(Row()[j], hi)
    }

    // the bottom nodes from j on whose keys are at most hi
    method Collect(t0: SNode, hi: Key, ghost j: nat) returns (res: seq<SNode>, ghost u: nat)
      requires Valid() && sl != null && 0 < j < |grid[0]| && t0 == grid[0][j]
      ensures Valid() && j <= u <= |grid[0]| && res == grid[0][j..u]
      ensures forall x :: j <= x < |Row()| ==> (x < u <==> UpTo(x, hi))
    {
      res, u := [], j;
      var t: SNode? := t0;
      while t != null && (Compare(t.k, hi) == 1 || Compare(t.k, hi) == 0)
        invariant Valid() && sl != null && j <= u <= |grid[0]| && res == grid[0][j..u]
        invariant t == (if u < |grid[0]| then grid[0][u] else null)
        invariant forall x :: j <= x < u ==> UpTo(x, hi)
        decreases |grid[0]| - u
      {
        SeeBottom(u);
        if !t.isHead { res := res + [t]; }
        t, u := t.right, u + 1;
      }
      if u < |Row()| { forall x | u <= x < |Row()| ensures !UpTo(x, hi) { PastEnd(u, x, hi); } }
    }

    lemma {:induction false} SeeBottom(i: nat)
      requires Valid() && sl != null && i < |grid[0]|
      ensures grid[0][i].right == (if i + 1 < |grid[0]| then grid[0][i + 1] else null)
      ensures grid[0][i].isHead == (i == 0)
    {
      SeeNode(0, i);
    }

    lemma {:induction false} PastEnd(u: nat, x: nat, hi: Key)
      requires grid != [] && Ascending(Row()) && u <= x < |Row()| && !UpTo(u, hi)
      ensures !UpTo(x, hi)
    {
      LessTotal(Row()[u], hi);
      if u < x { LessTransitive(hi, Row()[u], Row()[x]); }
      LessTotal(Row()[x], hi);
    }

    // the nodes of the keys from lo, if it is present, up to hi, with their values
    method RangeSearch(lo: Key, hi: Key) returns (res: seq<SNode>, ghost u: nat)
      requires Valid() && lo != NegInf
      ensures Valid()
      ensures lo !in Row() ==> res == []
      ensures lo in Row() ==> Rank(Row(), lo) <= u <= |Row()| && KeysOf(res) == Row()[Rank(Row(), lo)..u]
      ensures lo in Row() ==> forall x :: Rank(Row(), lo) <= x < |Row()| ==> (x < u <==> UpTo(x, hi))
      ensures forall x :: x in res ==> x.k in vals && x.v == vals[x.k]
    {
      res, u := [], 0;
      if sl == null { return; }
      var node, head, index, preds;
      ghost var l, i, qs;
      node, head, index, preds, l, i, qs := Search(lo);
      if Compare(node.k, lo) == -1 || Compare(node.k, lo) == 1 {
        InsertAscending(KeysOf(grid[0]), i, lo);
        return;
      }
      FoundInRow(l, i, lo);
      res, u := RangeFrom(lo, hi, node, l, i);
    }

    method RangeFrom(lo: Key, hi: Key, node: SNode, ghost l: nat, ghost i: nat) returns (res: seq<SNode>, ghost u: nat)
      requires Valid() && sl != null && OnLevel(grid, l, i, node, lo) && lo != NegInf && lo in Row()
      ensures Valid()
      ensures Rank(Row(), lo) <= u <= |Row()| && KeysOf(res) == Row()[Rank(Row(), lo)..u]
      ensures forall x :: Rank(Row(), lo) <= x < |Row()| ==> (x < u <==> UpTo(x, hi))
      ensures forall x :: x in res ==> x.k in vals && x.v == vals[x.k]
    {
      var t;
      ghost var j;
      t, j := ToBottom(node, l, i);
      RankIs(Row(), j);
      Keyed(grid, 0, j);
      res, u := Collect(t, hi, j);
      RowValues(j, u);
    }

    lemma {:induction false} RowValues(j: nat, u: nat)
      requires Valid() && sl != null && 0 < j <= u <= |grid[0]|
      ensures forall x :: x in grid[0][j..u] ==> x.k in vals && x.v == vals[x.k]
    {
      forall x | x in grid[0][j..u] ensures x.k in vals && x.v == vals[x.k] {
        var i :| j <= i < u && grid[0][i] == x;
        Keyed(grid, 0, i);
        ValueOf(0, i);
      }
    }

    // the keys from start to end are those not above the end's key
    lemma {:induction false} RangeEnd(start: nat, end: nat, u: nat)
      requires Valid() && start < |Row()| && end < |Row()| && start <= u <= |Row()|
      requires forall x :: start <= x < |Row()| ==> (x < u <==> UpTo(x, Row()[end]))
      ensures u == if start <= end then end + 1 else start
    {
      LessTotal(Row()[end], Row()[end]);
      assert UpTo(end, Row()[end]);
      if end + 1 < |Row()| {
        LessTotal(Row()[end], Row()[end + 1]);
        assert !UpTo(end + 1, Row()[end]);
      }
      if end < start {
        LessTotal(Row()[end], Row()[start]);
        assert !UpTo(start, Row()[end]);
      }
    }

    lemma {:induction false} OnlyHead(k: Key)
      requires Valid() && sl != null && grid[|grid| - 1][0].right == null && k != NegInf
      ensures length == 0 && Row() == [NegInf] && k !in Row()
      ensures IsPred(Row(), k, 0) && InsertAt(Row(), 0, k) == [NegInf, k]
    {
      SeeNode(|grid| - 1, 0);
    }

    lemma {:induction false} FoundInRow(l: nat, i: nat, k: Key)
      requires Valid() && sl != null && l < |grid| && i < |grid[l]| && grid[l][i].k == k
      ensures k in Row()
    {
      assert KeysOf(grid[l])[i] == k;
    }

    lemma {:induction false} BottomIndex(i: nat)
      requires Valid() && sl != null && i < |grid[0]|
      ensures Place(KeysOf(grid[0]), KeysOf(grid[0]), i) == i
    {
      BottomPlaces(KeysOf(grid[0]), i);
    }
  }

  lemma {:induction false} OneHead(g: Grid)
    requires |g| == 1 && |g[0]| == 1
    requires var n := g[0][0];
      n.k == NegInf && n.lvl == 0 && n.isHead && n.gap == 0
      && n.left == null && n.right == null && n.up == null && n.down == null
    ensures Shape(g) && AllHeld(g, [[0]]) && Towers(g) && KeysOf(g[0]) == [NegInf] && [[0]] == TrueGaps(g)
  {
    assert KeysOf(g[0]) == [NegInf];
    assert HeldAt(g, [[0]], 0) by { assert Chained(g[0], 0, [0]); }
    BottomPlaces(KeysOf(g[0]), 0);
    BottomPlaces(KeysOf(g[0]), 1);
    assert Gaps([NegInf], [NegInf]) == [0];
    assert TrueGaps(g) == [[0]];
    assert Stacked(g, 0, g[0][0]);
  }

  method FirstBehind(head: SNode, k: Key, v: Value) returns (n: SNode)
    requires head.left == null && head.isHead
    modifies head`gap, head`right
    ensures fresh(n) && n.k == k && n.v == v && n.lvl == 0 && n.up == null && n.down == null && Duo(head, n, 1, 0)
  {
    n := new SNode(k, v, false, 0);
    n.left := head;
    head.gap := 1;
    head.right := n;
  }

  lemma {:induction false} OneDuo(head: SNode, n: SNode, k: Key)
    requires head.k == NegInf && head.lvl == 0 && head.up == null && head.down == null
    requires n.k == k != NegInf && n.lvl == 0 && n.up == null && n.down == null && Duo(head, n, 1, 0)
    ensures var g, gs := [[head, n]], [[1, 0]];
      Shape(g) && AllHeld(g, gs) && Towers(g) && KeysOf(g[0]) == [NegInf, k] && gs == TrueGaps(g)
  {
    var g, gs := [[head, n]], [[1, 0]];
    DuoHeld(head, n, 1, 0);
    DuoKeys(head, n, k, 0);
    FirstGaps(k);
    assert HeldAt(g, gs, 0);
    assert Stacked(g, 0, head) && Stacked(g, 0, n);
  }

  lemma {:induction false} FirstGaps(k: Key)
    requires k != NegInf
    ensures Ascending([NegInf, k]) && Nested([NegInf, k], [NegInf, k])
    ensures Gaps([NegInf, k], [NegInf, k]) == [1, 0]
  {
    BottomPlaces([NegInf, k], 0);
    BottomPlaces([NegInf, k], 1);
    BottomPlaces([NegInf, k], 2);
  }
}
