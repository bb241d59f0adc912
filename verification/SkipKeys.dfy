/**
 * The key rows of a skip list (Data_structures/Skiplist.hpp) without their
 * nodes: ranks, gaps, and what inserting one key does to them.
 */
module SkipKeys {
  // the head's key is below every other; keys order by score, then member
  datatype Key = NegInf | Key(score: real, member: int)

  predicate Less(a: Key, b: Key) {
    match (a, b)
    case (NegInf, Key(_, _)) => true
    case (Key(s, m), Key(t, n)) => s < t || (s == t && m < n)
    case _ => false
  }

  // the comparator: 0 for equal, 1 when a is less, -1 when it is greater
  function Compare(a: Key, b: Key): int {
    if a == b then 0 else if Less(a, b) then 1 else -1
  }

  lemma {:induction false} LessTransitive(a: Key, b: Key, c: Key)
    requires Less(a, b) && Less(b, c)
    ensures Less(a, c)
  {
  }

  lemma {:induction false} LessTotal(a: Key, b: Key)
    ensures Less(a, b) || a == b || Less(b, a)
    ensures !(Less(a, b) && Less(b, a)) && !Less(a, a)
  {
  }

  // a row: the head, then ascending keys
  ghost predicate Ascending(row: seq<Key>) {
    row != [] && row[0] == NegInf
    && forall i, j :: 0 <= i < j < |row| ==> Less(row[i], row[j])
  }

  // behind the head, scores never fall, and equal scores go by member
  lemma {:induction false} ScoresRise(row: seq<Key>)
    requires Ascending(row)
    ensures row[0] == NegInf && forall i :: 0 < i < |row| ==> row[i].Key?
    ensures forall i, j :: 0 < i < j < |row| ==>
      row[i].score < row[j].score || (row[i].score == row[j].score && row[i].member < row[j].member)
  {
    forall i | 0 < i < |row| ensures row[i].Key? { assert Less(row[0], row[i]); }
    forall i, j | 0 < i < j < |row|
      ensures row[i].score < row[j].score || (row[i].score == row[j].score && row[i].member < row[j].member)
    {
      assert Less(row[i], row[j]);
    }
  }

  // the place of a key in a row
  ghost function Rank(row: seq<Key>, k: Key): (r: nat)
    requires k in row
    ensures r < |row| && row[r] == k
  {
    var r: nat :| r < |row| && row[r] == k;
    r
  }

  lemma {:induction false} RankIs(row: seq<Key>, i: nat)
    requires Ascending(row) && i < |row|
    ensures Rank(row, row[i]) == i
  {
    LessTotal(row[i], row[i]);
  }

  // every key of the upper row is in the lower one
  ghost predicate Nested(upper: seq<Key>, lower: seq<Key>) {
    forall k :: k in upper ==> k in lower
  }

  // where the i-th key of the row lies in the bottom row; its end is the last place
  ghost function Place(row: seq<Key>, bottom: seq<Key>, i: nat): int
    requires Nested(row, bottom) && i <= |row|
  {
    if i < |row| then (assert row[i] in row; Rank(bottom, row[i])) else |bottom| - 1
  }

  // how far the next key of the row lies in the bottom row, or its end
  ghost function Gap(row: seq<Key>, bottom: seq<Key>, i: nat): int
    requires Nested(row, bottom) && i < |row|
  {
    Place(row, bottom, i + 1) - Place(row, bottom, i)
  }

  // the last key below k
  ghost predicate IsPred(row: seq<Key>, k: Key, p: nat) {
    p < |row| && Less(row[p], k) && (p + 1 < |row| ==> Less(k, row[p + 1]))
  }

  function InsertAt(row: seq<Key>, p: nat, k: Key): seq<Key>
    requires p < |row|
  {
    row[..p + 1] + [k] + row[p + 1..]
  }

  lemma {:induction false} InsertAscending(row: seq<Key>, p: nat, k: Key)
    requires Ascending(row) && IsPred(row, k, p)
    ensures Ascending(InsertAt(row, p, k)) && k !in row
  {
    var r := InsertAt(row, p, k);
    forall i, j | 0 <= i < j < |r| ensures Less(r[i], r[j]) {
      Sides(row, p, k, if i <= p then i else if i == p + 1 then p else i - 1);
      Sides(row, p, k, if j <= p then j else if j == p + 1 then p else j - 1);
    }
    forall i | 0 <= i < |row| ensures row[i] != k { Sides(row, p, k, i); }
  }

  lemma {:induction false} Sides(row: seq<Key>, p: nat, k: Key, i: nat)
    requires Ascending(row) && IsPred(row, k, p) && i < |row|
    ensures i <= p ==> Less(row[i], k)
    ensures p < i ==> Less(k, row[i])
  {
    if i < p { LessTransitive(row[i], row[p], k); }
    if p + 1 < i { LessTransitive(k, row[p + 1], row[i]); }
  }

  lemma {:induction false} InsertMembers(row: seq<Key>, p: nat, k: Key, x: Key)
    requires p < |row|
    ensures x in InsertAt(row, p, k) <==> x == k || x in row
  {
    assert row == row[..p + 1] + row[p + 1..];
  }

  // ranks behind the new key move up by one
  lemma {:induction false} RankInsert(bottom: seq<Key>, p: nat, k: Key, i: nat)
    requires Ascending(bottom) && IsPred(bottom, k, p) && i < |bottom|
    ensures bottom[i] in InsertAt(bottom, p, k) && k in InsertAt(bottom, p, k)
    ensures Rank(InsertAt(bottom, p, k), bottom[i]) == if i <= p then i else i + 1
    ensures Rank(InsertAt(bottom, p, k), k) == p + 1
  {
    var r := InsertAt(bottom, p, k);
    InsertAscending(bottom, p, k);
    RankIs(r, p + 1);
    var j := if i <= p then i else i + 1;
    assert r[j] == bottom[i];
    RankIs(r, j);
  }

  // ---------- the gaps after an insertion ----------

  // a row that does not get the key: only the gap across it grows
  ghost function PassedGap(row: seq<Key>, bottom: seq<Key>, q: nat, i: nat): int
    requires Nested(row, bottom) && i < |row|
  {
    Gap(row, bottom, i) + Behind(q, i + 1) - Behind(q, i)
  }

  function Behind(q: nat, i: nat): int { if i <= q then 0 else 1 }

  lemma {:induction false} GapPass(row: seq<Key>, bottom: seq<Key>, p: nat, q: nat, k: Key, bottom': seq<Key>, i: nat)
    requires Ascending(row) && Ascending(bottom) && Nested(row, bottom)
    requires IsPred(bottom, k, p) && IsPred(row, k, q) && i < |row|
    requires bottom' == InsertAt(bottom, p, k)
    ensures Nested(row, bottom')
    ensures Gap(row, bottom', i) == PassedGap(row, bottom, q, i)
  {
    PlacePass(row, bottom, p, q, k, bottom', i);
    PlacePass(row, bottom, p, q, k, bottom', i + 1);
  }

  lemma {:induction false} PlacePass(row: seq<Key>, bottom: seq<Key>, p: nat, q: nat, k: Key, bottom': seq<Key>, i: nat)
    requires Ascending(row) && Ascending(bottom) && Nested(row, bottom)
    requires IsPred(bottom, k, p) && IsPred(row, k, q) && i <= |row|
    requires bottom' == InsertAt(bottom, p, k)
    ensures Nested(row, bottom')
    ensures Place(row, bottom', i) == Place(row, bottom, i) + Behind(q, i)
  {
    NestedInsert(row, bottom, p, k);
    if i < |row| { RankShift(row, bottom, p, q, k, bottom', i); }
  }

  lemma {:induction false} NestedInsert(row: seq<Key>, bottom: seq<Key>, p: nat, k: Key)
    requires Nested(row, bottom) && p < |bottom|
    ensures Nested(row, InsertAt(bottom, p, k))
  {
    forall x | x in row ensures x in InsertAt(bottom, p, k) {
      InsertMembers(bottom, p, k, x);
    }
  }

  lemma {:induction false} RankShift(row: seq<Key>, bottom: seq<Key>, p: nat, q: nat, k: Key, bottom': seq<Key>, i: nat)
    requires Ascending(row) && Ascending(bottom) && Nested(row, bottom)
    requires IsPred(bottom, k, p) && IsPred(row, k, q) && i < |row|
    requires bottom' == InsertAt(bottom, p, k)
    ensures row[i] in bottom'
    ensures Rank(bottom', row[i]) == Rank(bottom, row[i]) + if i <= q then 0 else 1
    ensures i <= q <==> Rank(bottom, row[i]) <= p
  {
    var r := Rank(bottom, row[i]);
    RankInsert(bottom, p, k, r);
    Sides(row, q, k, i);
    Sides(bottom, p, k, r);
    LessTotal(row[i], k);
  }

  lemma {:induction false} InsertIndex(row: seq<Key>, q: nat, k: Key, row': seq<Key>, i: nat)
    requires q < |row| && row' == InsertAt(row, q, k) && i <= |row|
    ensures |row'| == |row| + 1
    ensures row'[i] == if i <= q then row[i] else if i == q + 1 then k else row[i - 1]
  {
  }

  // the places in the bottom row of a row that gets the key
  lemma {:induction false} RankTake(row: seq<Key>, bottom: seq<Key>, p: nat, q: nat, k: Key,
                                    row': seq<Key>, bottom': seq<Key>, i: nat)
    requires Ascending(row) && Ascending(bottom) && Nested(row, bottom)
    requires IsPred(bottom, k, p) && IsPred(row, k, q) && i < |row| + 1
    requires row' == InsertAt(row, q, k) && bottom' == InsertAt(bottom, p, k)
    ensures |row'| == |row| + 1 && row'[i] in bottom'
    ensures Rank(bottom', row'[i])
      == if i <= q then Rank(bottom, row[i]) else if i == q + 1 then p + 1 else Rank(bottom, row[i - 1]) + 1
  {
    InsertIndex(row, q, k, row', i);
    if i <= q {
      RankShift(row, bottom, p, q, k, bottom', i);
    } else if i == q + 1 {
      RankInsert(bottom, p, k, 0);
    } else {
      RankShift(row, bottom, p, q, k, bottom', i - 1);
    }
  }

  lemma {:induction false} NestedTake(row: seq<Key>, bottom: seq<Key>, p: nat, q: nat, k: Key)
    requires Nested(row, bottom) && p < |bottom| && q < |row|
    ensures Nested(InsertAt(row, q, k), InsertAt(bottom, p, k))
  {
    forall x | x in InsertAt(row, q, k) ensures x in InsertAt(bottom, p, k) {
      InsertMembers(row, q, k, x);
      InsertMembers(bottom, p, k, x);
    }
  }

  // a row that gets the key: its predecessor's gap is split in two
  ghost function TakenPlace(row: seq<Key>, bottom: seq<Key>, p: nat, q: nat, i: nat): int
    requires Nested(row, bottom) && q < |row| && i <= |row| + 1
  {
    if i <= q then Place(row, bottom, i) else if i == q + 1 then p + 1 else Place(row, bottom, i - 1) + 1
  }

  ghost function TakenGap(row: seq<Key>, bottom: seq<Key>, p: nat, q: nat, i: nat): int
    requires Nested(row, bottom) && q < |row| && i < |row| + 1
  {
    TakenPlace(row, bottom, p, q, i + 1) - TakenPlace(row, bottom, p, q, i)
  }

  lemma {:induction false} TakenGapIs(row: seq<Key>, bottom: seq<Key>, p: nat, q: nat, i: nat)
    requires Nested(row, bottom) && q < |row| && i < |row| + 1
    ensures TakenGap(row, bottom, p, q, i)
      == if i < q then Gap(row, bottom, i)
         else if i == q then p + 1 - Place(row, bottom, q)
         else if i == q + 1 then Gap(row, bottom, q) + 1 - (p + 1 - Place(row, bottom, q))
         else Gap(row, bottom, i - 1)
  {
  }

  lemma {:induction false} PlaceTake(row: seq<Key>, bottom: seq<Key>, p: nat, q: nat, k: Key,
                                     row': seq<Key>, bottom': seq<Key>, i: nat)
    requires Ascending(row) && Ascending(bottom) && Nested(row, bottom)
    requires IsPred(bottom, k, p) && IsPred(row, k, q) && i <= |row| + 1
    requires row' == InsertAt(row, q, k) && bottom' == InsertAt(bottom, p, k)
    ensures Nested(row', bottom') && |row'| == |row| + 1
    ensures Place(row', bottom', i) == TakenPlace(row, bottom, p, q, i)
  {
    NestedTake(row, bottom, p, q, k);
    if i <= |row| { RankTake(row, bottom, p, q, k, row', bottom', i); }
  }

  lemma {:induction false} GapTake(row: seq<Key>, bottom: seq<Key>, p: nat, q: nat, k: Key,
                                   row': seq<Key>, bottom': seq<Key>, i: nat)
    requires Ascending(row) && Ascending(bottom) && Nested(row, bottom)
    requires IsPred(bottom, k, p) && IsPred(row, k, q) && i < |row| + 1
    requires row' == InsertAt(row, q, k) && bottom' == InsertAt(bottom, p, k)
    ensures Nested(row', bottom') && |row'| == |row| + 1
    ensures Gap(row', bottom', i) == TakenGap(row, bottom, p, q, i)
  {
    PlaceTake(row, bottom, p, q, k, row', bottom', i);
    PlaceTake(row, bottom, p, q, k, row', bottom', i + 1);
  }

  // a new row with the key alone above the head
  lemma {:induction false} GapFresh(bottom: seq<Key>, p: nat, k: Key)
    requires Ascending(bottom) && IsPred(bottom, k, p)
    ensures var b := InsertAt(bottom, p, k);
      Nested([NegInf, k], b) && Ascending([NegInf, k])
      && Gap([NegInf, k], b, 0) == p + 1 && Gap([NegInf, k], b, 1) == |bottom| - p - 1
  {
    RankInsert(bottom, p, k, 0);
    RankIs(bottom, 0);
  }

  // ---------- taking a key out ----------

  function Without<T>(s: seq<T>, j: nat): seq<T>
    requires j < |s|
  {
    s[..j] + s[j + 1..]
  }

  // the row without a key is the row into which the key was inserted
  lemma {:induction false} WithoutInsert(row: seq<Key>, j: nat)
    requires Ascending(row) && 0 < j < |row|
    ensures Ascending(Without(row, j)) && IsPred(Without(row, j), row[j], j - 1)
    ensures InsertAt(Without(row, j), j - 1, row[j]) == row
    ensures forall x :: x in Without(row, j) <==> x in row && x != row[j]
  {
    var w := Without(row, j);
    forall a, b | 0 <= a < b < |w| ensures Less(w[a], w[b]) {
      assert w[a] == row[if a < j then a else a + 1] && w[b] == row[if b < j then b else b + 1];
    }
    assert InsertAt(w, j - 1, row[j]) == row;
    InsertAscending(w, j - 1, row[j]);
    forall x | true ensures x in w <==> x in row && x != row[j] { InsertMembers(w, j - 1, row[j], x); }
  }

  lemma {:induction false} NestedWithout(row: seq<Key>, bottom: seq<Key>, j: nat, b: nat)
    requires Ascending(row) && Ascending(bottom) && Nested(row, bottom)
    requires 0 < j < |row| && 0 < b < |bottom| && row[j] == bottom[b]
    ensures Nested(Without(row, j), Without(bottom, b))
  {
    WithoutInsert(row, j);
    WithoutInsert(bottom, b);
  }

  // a gap of the row, from those of the row r without the key
  lemma {:induction false} GapBack(row: seq<Key>, bottom: seq<Key>, j: nat, b: nat, r: seq<Key>, c: seq<Key>, i: nat)
    requires Ascending(row) && Ascending(bottom) && Nested(row, bottom)
    requires 0 < j < |row| && 0 < b < |bottom| && row[j] == bottom[b] && i < |row|
    requires r == Without(row, j) && c == Without(bottom, b)
    ensures Nested(r, c) && |r| == |row| - 1
    ensures i < j - 1 ==> Gap(row, bottom, i) == Gap(r, c, i)
    ensures i == j - 1 ==> Gap(row, bottom, i) == b - Place(r, c, j - 1)
    ensures i == j ==> Gap(row, bottom, i) == Gap(r, c, j - 1) + 1 - (b - Place(r, c, j - 1))
    ensures i > j ==> Gap(row, bottom, i) == Gap(r, c, i - 1)
  {
    WithoutInsert(row, j);
    WithoutInsert(bottom, b);
    NestedWithout(row, bottom, j, b);
    GapTake(r, c, b - 1, j - 1, row[j], row, bottom, i);
    TakenGapIs(r, c, b - 1, j - 1, i);
  }

  // on a level that has the key, the gaps around it become one
  lemma {:induction false} GapWithout(row: seq<Key>, bottom: seq<Key>, j: nat, b: nat, r: seq<Key>, c: seq<Key>, i: nat)
    requires Ascending(row) && Ascending(bottom) && Nested(row, bottom)
    requires 0 < j < |row| && 0 < b < |bottom| && row[j] == bottom[b] && i < |row| - 1
    requires r == Without(row, j) && c == Without(bottom, b)
    ensures Nested(r, c) && |r| == |row| - 1
    ensures i < j - 1 ==> Gap(r, c, i) == Gap(row, bottom, i)
    ensures i == j - 1 ==> Gap(r, c, i) == Gap(row, bottom, j - 1) + Gap(row, bottom, j) - 1
    ensures i > j - 1 ==> Gap(r, c, i) == Gap(row, bottom, i + 1)
  {
    if i < j - 1 {
      GapBack(row, bottom, j, b, r, c, i);
    } else {
      GapBack(row, bottom, j, b, r, c, i + 1);
      if i == j - 1 { GapBack(row, bottom, j, b, r, c, i); }
    }
  }

  // on a level without the key, the gap across it shrinks
  lemma {:induction false} GapLost(row: seq<Key>, bottom: seq<Key>, q: nat, b: nat, i: nat)
    requires Ascending(row) && Ascending(bottom) && Nested(row, bottom)
    requires 0 < b < |bottom| && IsPred(row, bottom[b], q) && i < |row|
    ensures Nested(row, Without(bottom, b))
    ensures Gap(row, Without(bottom, b), i) == Gap(row, bottom, i) - if i == q then 1 else 0
  {
    var c := Without(bottom, b);
    WithoutInsert(bottom, b);
    InsertAscending(row, q, bottom[b]);
    assert Nested(row, c);
    GapPass(row, c, b - 1, q, bottom[b], bottom, i);
  }

  // the gaps of a row add up to the length of the list
  ghost function Sum(row: seq<Key>, bottom: seq<Key>, n: nat): int
    requires Nested(row, bottom) && n <= |row|
  {
    if n == 0 then 0 else Sum(row, bottom, n - 1) + Gap(row, bottom, n - 1)
  }

  lemma {:induction false} SumIs(row: seq<Key>, bottom: seq<Key>, n: nat)
    requires Ascending(row) && Ascending(bottom) && Nested(row, bottom) && n <= |row|
    ensures Sum(row, bottom, n) == if n < |row| then Rank(bottom, row[n]) else |bottom| - 1
  {
    if n == 0 {
      RankIs(bottom, 0);
    } else {
      SumIs(row, bottom, n - 1);
    }
  }
}
