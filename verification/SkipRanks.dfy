/**
 * What the walks of a skip list (Data_structures/Skiplist.hpp) make of the
 * gaps, whether those are true or not: the search by rank, and the rank that
 * the search by key counts.
 */
module SkipRanks {
  import opened SkipKeys
  import opened SkipNodes
  import opened Options

  // rows from the bottom up, each in the one below, with a gap for every key
  ghost predicate Racks(rows: seq<seq<Key>>, gs: seq<seq<int>>) {
    rows != [] && |gs| == |rows| && forall l :: 0 <= l < |rows| ==> Rack(rows, gs, l)
  }

  ghost predicate Rack(rows: seq<seq<Key>>, gs: seq<seq<int>>, l: nat)
    requires l < |rows| == |gs|
  {
    |gs[l]| == |rows[l]| && Ascending(rows[l]) && Nested(rows[l], rows[0]) && (l > 0 ==> Nested(rows[l], rows[l - 1]))
  }

  ghost function KeyRows(g: Grid): (rows: seq<seq<Key>>)
    ensures |rows| == |g| && forall l :: 0 <= l < |g| ==> rows[l] == KeysOf(g[l])
  {
    seq(|g|, l requires 0 <= l < |g| => KeysOf(g[l]))
  }

  lemma {:induction false} GridRacks(g: Grid, gs: seq<seq<int>>)
    requires Shape(g) && |gs| == |g| && forall l :: 0 <= l < |g| ==> |gs[l]| == |g[l]|
    ensures Racks(KeyRows(g), gs)
  {
    forall l | 0 <= l < |g| ensures Rack(KeyRows(g), gs, l) {
      if l > 0 { assert Level(l, g[l]) && Nested(KeysOf(g[l]), KeysOf(g[l - 1])); }
    }
  }

  // ---------- the search by rank ----------

  // to the right on one level while the rest allows: where it stops, and the
  // rest then
  function Across(n: nat, gaps: seq<int>, i: nat, rest: int): (r: (nat, int))
    requires i < n == |gaps|
    ensures i <= r.0 < n
    decreases n - i
  {
    if i + 1 < n && rest >= gaps[i] then Across(n, gaps, i + 1, rest - gaps[i]) else (i, rest)
  }

  // the place in the bottom row of the key it ends at, if it does not run off
  // the bottom
  ghost function Walk(rows: seq<seq<Key>>, gs: seq<seq<int>>, l: nat, i: nat, rest: int): Option<nat>
    requires Racks(rows, gs) && l < |rows| && i < |rows[l]|
    decreases l
  {
    assert Rack(rows, gs, l);
    var (j, left) := Across(|rows[l]|, gs[l], i, rest);
    assert rows[l][j] in rows[l];
    if left == 0 then Some(Rank(rows[0], rows[l][j]))
    else if l == 0 then None
    else Walk(rows, gs, l - 1, Rank(rows[l - 1], rows[l][j]), left)
  }

  lemma {:induction false} WalkOn(rows: seq<seq<Key>>, gs: seq<seq<int>>, l: nat, i: nat, rest: int)
    requires Racks(rows, gs) && l < |rows| && i < |rows[l]|
    ensures |gs[l]| == |rows[l]|
    ensures i + 1 < |rows[l]| && rest >= gs[l][i] ==>
      Walk(rows, gs, l, i, rest) == Walk(rows, gs, l, i + 1, rest - gs[l][i])
    ensures i + 1 == |rows[l]| || rest < gs[l][i] ==> WalkStops(rows, gs, l, i, rest)
  {
    assert Rack(rows, gs, l);
  }

  // where nothing to the right is near enough
  ghost predicate WalkStops(rows: seq<seq<Key>>, gs: seq<seq<int>>, l: nat, i: nat, rest: int)
    requires Racks(rows, gs) && l < |rows| && i < |rows[l]|
  {
    var w, k := Walk(rows, gs, l, i, rest), rows[l][i];
    k in rows[0]
    && if rest == 0 then w == Some(Rank(rows[0], k))
       else if l == 0 then w == None
       else k in rows[l - 1] && w == Walk(rows, gs, l - 1, Rank(rows[l - 1], k), rest)
  }

  // it never ends at the head
  lemma {:induction false} WalkPlace(rows: seq<seq<Key>>, gs: seq<seq<int>>, l: nat, i: nat, rest: int)
    requires Racks(rows, gs) && l < |rows| && i < |rows[l]| && rest != 0
    ensures var w := Walk(rows, gs, l, i, rest); w.Some? ==> 0 < w.value < |rows[0]|
    decreases l
  {
    assert Rack(rows, gs, l) && Rack(rows, gs, 0);
    var (j, left) := Across(|rows[l]|, gs[l], i, rest);
    assert rows[l][j] in rows[l];
    if left == 0 {
      Moved(|rows[l]|, gs[l], i, rest);
      assert Less(rows[l][0], rows[l][j]);
    } else if l > 0 {
      WalkPlace(rows, gs, l - 1, Rank(rows[l - 1], rows[l][j]), left);
    }
  }

  lemma {:induction false} Moved(n: nat, gaps: seq<int>, i: nat, rest: int)
    requires i < n == |gaps| && Across(n, gaps, i, rest).1 != rest
    ensures Across(n, gaps, i, rest).0 > i
  {
  }

  // with true gaps the rest always is what is still to go
  lemma {:induction false} AcrossTrue(row: seq<Key>, bottom: seq<Key>, i: nat, rest: int)
    requires Nested(row, bottom) && i < |row| && rest >= 0
    ensures var (j, left) := Across(|row|, Gaps(row, bottom), i, rest);
      left >= 0 && left + Place(row, bottom, j) == rest + Place(row, bottom, i)
      && (j + 1 < |row| ==> left < Gap(row, bottom, j))
    decreases |row| - i
  {
    if i + 1 < |row| && rest >= Gap(row, bottom, i) { AcrossTrue(row, bottom, i + 1, rest - Gap(row, bottom, i)); }
  }

  ghost predicate TrueRacks(rows: seq<seq<Key>>, gs: seq<seq<int>>)
    requires Racks(rows, gs)
  {
    forall m :: 0 <= m < |rows| ==> Nested(rows[m], rows[0]) && gs[m] == Gaps(rows[m], rows[0])
  }

  // so every rank is found
  lemma {:induction false} WalkTrue(rows: seq<seq<Key>>, gs: seq<seq<int>>, l: nat, i: nat, rest: int, rank: nat)
    requires Racks(rows, gs) && l < |rows| && i < |rows[l]| && rest >= 0
    requires TrueRacks(rows, gs) && rest + Place(rows[l], rows[0], i) == rank < |rows[0]|
    ensures Walk(rows, gs, l, i, rest) == Some(rank)
    decreases l
  {
    assert Rack(rows, gs, l) && Rack(rows, gs, 0);
    AcrossTrue(rows[l], rows[0], i, rest);
    var (j, left) := Across(|rows[l]|, gs[l], i, rest);
    var k := rows[l][j];
    assert k in rows[l];
    if l == 0 {
      BottomPlaces(rows[0], j);
      BottomPlaces(rows[0], j + 1);
    } else if left != 0 {
      var below := Rank(rows[l - 1], k);
      WalkTrue(rows, gs, l - 1, below, left, rank);
    }
  }

  // ---------- the rank counted by the search by key ----------

  // the sum of the gaps passed on the way to the highest node of k, or to its
  // place on the bottom
  ghost function Counted(rows: seq<seq<Key>>, gs: seq<seq<int>>, k: Key, l: nat, i: nat, index: int): int
    requires Racks(rows, gs) && l < |rows| && i < |rows[l]|
    decreases l, |rows[l]| - i
  {
    assert Rack(rows, gs, l) && rows[l][i] in rows[l];
    if rows[l][i] == k then index
    else if i + 1 < |rows[l]| && !Less(k, rows[l][i + 1]) then Counted(rows, gs, k, l, i + 1, index + gs[l][i])
    else if l == 0 then index
    else Counted(rows, gs, k, l - 1, Rank(rows[l - 1], rows[l][i]), index)
  }

  // ---------- ranks read from a spoiled gap ----------

  // What a deletion of b leaves of the rows [a, b, c] and [b, c] (GapSpoiled):
  // rank 1 is answered with c, no rank 2 is found before the bottom ends, and
  // c is counted as the first.
  lemma {:induction false} RanksSpoiled(a: Key, b: Key, c: Key)
    requires a != NegInf && Less(a, b) && Less(b, c)
    ensures var row, bottom := [NegInf, b, c], [NegInf, a, b, c];
      Nested(row, bottom) && Nested(bottom, bottom)
      && var rows := [Without(bottom, 2), Without(row, 1)];
         var gs := [Without(Gaps(bottom, bottom), 1), Without(Gaps(row, bottom), 0)];
         Racks(rows, gs) && rows[0] == [NegInf, a, c] && |rows[1]| == 2
         && Walk(rows, gs, 1, 0, 1) == Some(2) && Walk(rows, gs, 1, 0, 2) == None && Counted(rows, gs, c, 1, 0, 0) == 1
  {
    var row, bottom := [NegInf, b, c], [NegInf, a, b, c];
    LessTransitive(a, b, c);
    SpoiledGaps(a, b, c);
    var rows: seq<seq<Key>> := [[NegInf, a, c], [NegInf, c]];
    var gs := [[1, 1, 0], [1, 0]];
    assert Without(bottom, 2) == rows[0] && Without(row, 1) == rows[1];
    SpoiledWalks(a, c, rows, gs);
  }

  lemma {:induction false} SpoiledGaps(a: Key, b: Key, c: Key)
    requires a != NegInf && Less(a, b) && Less(b, c) && Less(a, c)
    ensures var row, bottom := [NegInf, b, c], [NegInf, a, b, c];
      Nested(row, bottom) && Without(Gaps(bottom, bottom), 1) == [1, 1, 0] && Without(Gaps(row, bottom), 0) == [1, 0]
  {
    var row, bottom := [NegInf, b, c], [NegInf, a, b, c];
    assert Ascending(bottom);
    forall i | 0 <= i < 4 ensures Rank(bottom, bottom[i]) == i { RankIs(bottom, i); }
    assert bottom[0] == NegInf && bottom[1] == a && bottom[2] == b && bottom[3] == c;
    assert Gaps(bottom, bottom) == [1, 1, 1, 0];
    assert Gaps(row, bottom) == [2, 1, 0];
  }

  lemma {:induction false} SpoiledWalks(a: Key, c: Key, rows: seq<seq<Key>>, gs: seq<seq<int>>)
    requires a != NegInf && Less(a, c) && rows == [[NegInf, a, c], [NegInf, c]] && gs == [[1, 1, 0], [1, 0]]
    ensures Racks(rows, gs) && Walk(rows, gs, 1, 0, 1) == Some(2) && Walk(rows, gs, 1, 0, 2) == None
    ensures Counted(rows, gs, c, 1, 0, 0) == 1
  {
    assert Rack(rows, gs, 0) && Rack(rows, gs, 1);
    RankIs(rows[0], 2);
    LessTotal(c, c);
    assert Across(2, gs[1], 0, 1) == (1, 0) && Across(2, gs[1], 0, 2) == (1, 1) && Across(3, gs[0], 2, 1) == (2, 1);
  }
}
