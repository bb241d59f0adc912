/**
 * The sorted set (v1/IN-MEM_Helper.hpp): a hash of scores beside a skip list
 * of (score, member) keys, kept in step by every operation.
 */
module SortedSets {
  import opened SkipKeys
  import opened SkipNodes
  import opened SkipLists
  import opened Options

  type Scores = map<int, real>

  // the row has exactly the pairs of the hash, behind its head
  ghost predicate Agree(scores: Scores, row: seq<Key>) {
    forall k :: k in row <==> k == NegInf || (k.member in scores && scores[k.member] == k.score)
  }

  // ---------- rows and hashes ----------

  lemma {:induction false} Second(row: seq<Key>)
    requires Ascending(row)
    ensures |row| > 1 ==> row[1] in row && row[1] != NegInf
  {
    assert |row| > 1 ==> Less(row[0], row[1]);
  }

  lemma {:induction false} NoMember(scores: Scores, row: seq<Key>)
    requires Ascending(row) && Agree(scores, row) && |row| == 1
    ensures scores == map[]
  {
    assert forall m :: m in scores ==> Key(scores[m], m) in row;
  }

  // the list is as long as the hash is large
  lemma {:induction false} AgreeSize(scores: Scores, row: seq<Key>)
    requires Ascending(row) && Agree(scores, row)
    ensures |row| - 1 == |scores|
    decreases |row|
  {
    if |row| == 1 {
      NoMember(scores, row);
    } else {
      var k := row[|row| - 1];
      assert k in row && k != NegInf by { assert Less(row[0], k); }
      RankIs(row, |row| - 1);
      AgreeWithout(scores, row, k.member);
      AgreeSize(scores - {k.member}, Without(row, |row| - 1));
      assert scores.Keys == (scores - {k.member}).Keys + {k.member};
    }
  }

  // ---------- places and scores ----------

  ghost function MembersTo(row: seq<Key>, i: nat): set<int>
    requires 0 < i <= |row| && forall j :: 0 < j < |row| ==> row[j].Key?
  {
    set j | 0 < j < i :: row[j].member
  }

  lemma {:induction false} MembersCount(scores: Scores, row: seq<Key>, i: nat)
    requires Ascending(row) && Agree(scores, row) && 0 < i <= |row|
    ensures forall j :: 0 < j < |row| ==> row[j].Key?
    ensures |MembersTo(row, i)| == i - 1
  {
    ScoresRise(row);
    if i == 1 {
      assert MembersTo(row, 1) == {};
    } else {
      MembersCount(scores, row, i - 1);
      var m := row[i - 1].member;
      forall j | 0 < j < i - 1 ensures row[j].member != m {
        assert row[j] in row && row[i - 1] in row;
        LessTotal(row[j], row[i - 1]);
      }
      assert MembersTo(row, i) == MembersTo(row, i - 1) + {m};
    }
  }

  // the place of a pair is one more than the number of members in front of it
  lemma {:induction false} PlaceCounts(scores: Scores, row: seq<Key>, p: nat, member: int)
    requires Ascending(row) && Agree(scores, row) && member in scores
    requires 0 < p < |row| && row[p] == Key(scores[member], member)
    ensures p == 1 + |set m | m in scores
                              && (scores[m] < scores[member] || (scores[m] == scores[member] && m < member))|
  {
    ScoresRise(row);
    MembersCount(scores, row, p);
    var front := set m | m in scores && (scores[m] < scores[member] || (scores[m] == scores[member] && m < member));
    forall m | true ensures m in front <==> m in MembersTo(row, p) {
      if m in front {
        assert Key(scores[m], m) in row;
        var j := Rank(row, Key(scores[m], m));
        assert 0 < j < p;
      }
      if m in MembersTo(row, p) {
        var j :| 0 < j < p && row[j].member == m;
        assert row[j] in row;
      }
    }
    assert front == MembersTo(row, p);
  }

  // a row is determined by its keys, so by the hash
  lemma {:induction false} RowUnique(a: seq<Key>, b: seq<Key>)
    requires Ascending(a) && Ascending(b) && forall k :: k in a <==> k in b
    ensures a == b
    decreases |a|
  {
    if |a| == 1 || |b| == 1 {
      Second(a);
      Second(b);
    } else {
      var x, y := a[|a| - 1], b[|b| - 1];
      assert x in a && y in b;
      LastGreatest(a, y);
      LastGreatest(b, x);
      LessTotal(x, y);
      WithoutInsert(a, |a| - 1);
      WithoutInsert(b, |b| - 1);
      RowUnique(Without(a, |a| - 1), Without(b, |b| - 1));
    }
  }

  lemma {:induction false} LastGreatest(row: seq<Key>, k: Key)
    requires Ascending(row) && k in row
    ensures k == row[|row| - 1] || Less(k, row[|row| - 1])
  {
  }

  ghost predicate Joins(row: seq<Key>, k: Key, p: nat, row': seq<Key>) {
    if k in row then row' == row else IsPred(row, k, p) && row' == InsertAt(row, p, k)
  }

  lemma {:induction false} AgreeWithout(scores: Scores, row: seq<Key>, member: int)
    requires Ascending(row) && Agree(scores, row) && member in scores
    ensures var k := Key(scores[member], member);
      k in row && Rank(row, k) > 0 && Agree(scores - {member}, Without(row, Rank(row, k)))
      && Ascending(Without(row, Rank(row, k)))
  {
    var k := Key(scores[member], member);
    assert k in row;
    WithoutInsert(row, Rank(row, k));
  }

  // what is in a row after a key came, or one went and one came
  ghost predicate Came(row: seq<Key>, come: Key, row': seq<Key>) {
    forall x :: x in row' <==> x in row || x == come
  }

  ghost predicate Swapped(row: seq<Key>, gone: Key, come: Key, row': seq<Key>) {
    forall x :: x in row' <==> (x in row && x != gone) || x == come
  }

  lemma {:induction false} JoinsMembers(row: seq<Key>, k: Key, p: nat, row': seq<Key>)
    requires Ascending(row) && Joins(row, k, p, row')
    ensures Came(row, k, row')
  {
    forall x | true ensures x in row' <==> x in row || x == k {
      if k !in row { InsertMembers(row, p, k, x); }
    }
  }

  // a key that is there keeps its value
  function Put(vals: map<Key, Value>, k: Key, v: Value): map<Key, Value> {
    if k in vals then vals else vals[k := v]
  }

  // ---------- what hash and index hold ----------

  datatype Book = Book(scores: Scores, index: set<Key>)

  datatype Op =
    | Add(score: real, member: int)
    | Increase(delta: real, member: int)
    | Take(member: int)

  ghost function Stored(row: seq<Key>): set<Key> {
    set k | k in row && k != NegInf
  }

  // what an operation makes of the hash and the index
  function After(b: Book, op: Op): Book {
    match op
    case Add(score, member) => Book(b.scores[member := score], b.index + {Key(score, member)})
    case Increase(delta, member) =>
      if member !in b.scores then Book(b.scores[member := delta], b.index + {Key(delta, member)})
      else
        var score := b.scores[member] + delta;
        Book(b.scores[member := score], b.index - {Key(b.scores[member], member)} + {Key(score, member)})
    case Take(member) =>
      if member !in b.scores then b else Book(b.scores - {member}, b.index - {Key(b.scores[member], member)})
  }

  // the index has the pair of every member of the hash, and perhaps more
  ghost predicate Covers(b: Book) {
    NegInf !in b.index && forall m :: m in b.scores ==> Key(b.scores[m], m) in b.index
  }

  // the index has those pairs only
  ghost predicate InStep(b: Book) {
    NegInf !in b.index
    && forall s: real, m: int :: Key(s, m) in b.index <==> m in b.scores && b.scores[m] == s
  }

  lemma {:induction false} AfterCovers(b: Book, op: Op)
    requires Covers(b)
    ensures Covers(After(b, op))
  {
  }

  // the only step out of step is to add a member again with another score
  ghost predicate Plain(scores: Scores, op: Op) {
    op.Add? ==> op.member !in scores || scores[op.member] == op.score
  }

  lemma {:induction false} StaysInStep(b: Book, op: Op)
    requires InStep(b)
    ensures InStep(After(b, op)) <==> Plain(b.scores, op)
  {
    if !Plain(b.scores, op) {
      assert Key(b.scores[op.member], op.member) in b.index;
    }
  }

  lemma {:induction false} AfterStep(b: Book, op: Op)
    requires Covers(b)
    ensures Covers(After(b, op)) && (InStep(b) ==> (InStep(After(b, op)) <==> Plain(b.scores, op)))
  {
    AfterCovers(b, op);
    if InStep(b) { StaysInStep(b, op); }
  }

  lemma {:induction false} MovedBook(b: Book, member: int, delta: real, score: real, k: Key)
    requires member in b.scores && score == b.scores[member] + delta && k == Key(b.scores[member], member)
    ensures After(b, Increase(delta, member)) == Book(b.scores[member := score], b.index - {k} + {Key(score, member)})
  {
  }

  lemma {:induction false} StoredJoins(row: seq<Key>, k: Key, p: nat, row': seq<Key>)
    requires Ascending(row) && k != NegInf && Joins(row, k, p, row')
    ensures Stored(row') == Stored(row) + {k}
  {
    forall x | true ensures x in row' <==> x == k || x in row {
      if k !in row { InsertMembers(row, p, k, x); }
    }
  }

  lemma {:induction false} StoredWithout(row: seq<Key>, k: Key)
    requires Ascending(row) && k in row && k != NegInf
    ensures Rank(row, k) > 0 && Ascending(Without(row, Rank(row, k)))
    ensures Stored(Without(row, Rank(row, k))) == Stored(row) - {k}
  {
    WithoutInsert(row, Rank(row, k));
  }

  // agreeing is having a book in step
  lemma {:induction false} AgreeInStep(scores: Scores, row: seq<Key>)
    requires Ascending(row)
    ensures Agree(scores, row) <==> InStep(Book(scores, Stored(row)))
  {
    assert row[0] in row;
    if InStep(Book(scores, Stored(row))) {
      forall k | true
        ensures k in row <==> k == NegInf || (k.member in scores && scores[k.member] == k.score)
      {
        if k != NegInf { assert Key(k.score, k.member) == k && (k in row <==> k in Stored(row)); }
      }
    }
  }

  // ---------- the sorted set ----------

  class ZSet {
    var scores: Scores
    const tree: SkipList

    // the index has at least the pairs of the hash
    ghost predicate Kept()
      reads this, tree, AllNodes(tree.grid)
    {
      tree.Valid() && Covers(Held())
    }

    // and no others
    ghost predicate Valid()
      reads this, tree, AllNodes(tree.grid)
    {
      tree.Valid() && Agree(scores, tree.Row())
    }

    ghost function Held(): Book
      reads this, tree
    {
      Book(scores, Stored(tree.Row()))
    }

    constructor (headValue: Value)
      ensures Valid() && Held() == Book(map[], {}) && tree.Exact() && fresh(tree) && fresh(AllNodes(tree.grid))
    {
      scores := map[];
      tree := new SkipList(headValue);
    }

    lemma {:induction false} ValidInStep()
      requires tree.Valid()
      ensures Valid() <==> InStep(Held())
      ensures Valid() ==> Kept()
    {
      Rising();
      AgreeInStep(scores, tree.Row());
    }

    // the pairs in order, behind the head
    ghost function Sorted(): seq<Key>
      reads this, tree
    {
      tree.Row()
    }

    // the hash gets the score, the index one more pair
    method ZsetAdd(score: real, member: int, v: Value, headValue: Value, towerHeight: nat) returns (ok: bool)
      requires Kept() && towerHeight >= 1
      modifies this, tree, AllNodes(tree.grid)
      ensures ok && Kept() && Held() == After(old(Held()), Add(score, member))
      ensures scores == old(scores)[member := score]
      ensures Came(old(Sorted()), Key(score, member), Sorted())
      ensures tree.vals == Put(old(tree.vals), Key(score, member), v)
      ensures old(Valid()) ==> (Valid() <==> member !in old(scores) || old(scores)[member] == score)
      ensures old(tree.Exact()) ==> tree.Exact()
      ensures fresh(AllNodes(tree.grid) - old(AllNodes(tree.grid)))
    {
      ghost var b := Held();
      ValidInStep();
      PutBoth(score, member, v, headValue, towerHeight);
      AfterStep(b, Add(score, member));
      ValidInStep();
      ok := true;
    }

    method PutBoth(score: real, member: int, v: Value, headValue: Value, towerHeight: nat)
      requires tree.Valid() && towerHeight >= 1
      modifies this, tree, AllNodes(tree.grid)
      ensures tree.Valid() && Held() == After(old(Held()), Add(score, member))
      ensures scores == old(scores)[member := score] && tree.vals == Put(old(tree.vals), Key(score, member), v)
      ensures Came(old(Sorted()), Key(score, member), Sorted())
      ensures old(tree.Exact()) ==> tree.Exact()
      ensures fresh(AllNodes(tree.grid) - old(AllNodes(tree.grid)))
    {
      scores := scores[member := score];
      IndexPair(Key(score, member), v, headValue, towerHeight);
    }

    method IndexPair(k: Key, v: Value, headValue: Value, towerHeight: nat)
      requires tree.Valid() && k != NegInf && towerHeight >= 1
      modifies tree, AllNodes(tree.grid)
      ensures tree.Valid() && tree.vals == Put(old(tree.vals), k, v) && Came(old(Sorted()), k, Sorted())
      ensures Stored(Sorted()) == old(Stored(Sorted())) + {k}
      ensures old(tree.Exact()) ==> tree.Exact()
      ensures fresh(AllNodes(tree.grid) - old(AllNodes(tree.grid)))
    {
      ghost var row := tree.Row();
      Rising();
      ghost var p := Index(k, v, headValue, towerHeight);
      StoredJoins(row, k, p, tree.Row());
      JoinsMembers(row, k, p, tree.Row());
    }

    lemma {:induction false} PresentKey(k: Key)
      requires tree.Valid() && k != NegInf
      ensures k in tree.vals <==> k in tree.Row()
    {
    }

    method Index(k: Key, v: Value, headValue: Value, towerHeight: nat) returns (ghost p: nat)
      requires tree.Valid() && k != NegInf && towerHeight >= 1
      modifies tree, AllNodes(tree.grid)
      ensures tree.Valid() && Joins(old(tree.Row()), k, p, tree.Row()) && tree.vals == Put(old(tree.vals), k, v)
      ensures old(tree.Exact()) ==> tree.Exact()
      ensures fresh(AllNodes(tree.grid) - old(AllNodes(tree.grid)))
    {
      PresentKey(k);
      p := tree.Insert(k, v, headValue, towerHeight);
    }

    // a member and its pair leave the hash and the index
    method Remove(member: int) returns (ok: bool)
      requires Kept()
      modifies this, tree, AllNodes(tree.grid)
      ensures Kept() && (ok <==> member in old(scores)) && Held() == After(old(Held()), Take(member))
      ensures scores == old(scores) - {member}
      ensures ok ==> forall k :: k in Sorted() <==> k in old(Sorted()) && k != Key(old(scores)[member], member)
      ensures ok ==> tree.vals == old(tree.vals) - {Key(old(scores)[member], member)}
      ensures !ok ==> Sorted() == old(Sorted()) && tree.vals == old(tree.vals)
      ensures old(Valid()) ==> Valid()
      ensures ok && old(tree.Exact()) ==> (tree.Exact() <==> old(tree.Snug(Key(scores[member], member))))
      ensures !ok && old(tree.Exact()) ==> tree.Exact()
      ensures AllNodes(tree.grid) <= old(AllNodes(tree.grid))
    {
      ok := member in scores;
      if ok {
        var k := Key(scores[member], member);
        ghost var b, row := Held(), tree.Row();
        ValidInStep();
        NotEmpty(k);
        scores := scores - {member};
        TakeOut(k);
        AfterStep(b, Take(member));
        ValidInStep();
      }
    }

    method TakeOut(k: Key)
      requires tree.Valid() && tree.sl != null && k in tree.Row() && k != NegInf
      modifies tree, AllNodes(tree.grid)
      ensures tree.Valid() && Stored(tree.Row()) == Stored(old(tree.Row())) - {k}
      ensures forall x :: x in tree.Row() <==> x in old(tree.Row()) && x != k
      ensures tree.vals == old(tree.vals) - {k}
      ensures old(tree.Exact()) ==> (tree.Exact() <==> old(tree.Snug(k)))
      ensures AllNodes(tree.grid) <= old(AllNodes(tree.grid))
    {
      ghost var row := tree.Row();
      Rising();
      StoredWithout(row, k);
      var found := tree.DeleteKey(k);
    }

    lemma {:induction false} NotEmpty(k: Key)
      requires tree.Valid() && k != NegInf && k in tree.Row()
      ensures tree.sl != null
    {
    }

    lemma {:induction false} Rising()
      requires tree.Valid()
      ensures Ascending(tree.Row())
    {
    }

    // the score that the hash has, by which the member is in the index, and
    // by no other if the two are in step
    method GetScore(member: int) returns (r: Option<real>)
      requires Kept()
      ensures Kept() && (r.Some? <==> member in scores) && (r.Some? ==> Key(r.value, member) in Sorted())
      ensures Valid() ==> forall s :: Key(s, member) in Sorted() <==> r == Some(s)
    {
      r := if member in scores then Some(scores[member]) else None;
    }

    // the number of pairs, which are the members if hash and index are in step
    method Size() returns (n: int)
      requires tree.Valid()
      ensures n == |tree.Row()| - 1 && (Valid() ==> n == |scores|)
    {
      Rising();
      if Valid() { AgreeSize(scores, tree.Row()); }
      n := tree.length;
    }

    // The gaps on the way to a member's pair added up.  With true gaps this is
    // its place among all pairs in order, from 1.
    method GetRank(member: int) returns (r: Option<int>)
      requires Kept()
      ensures Kept() && (r.Some? <==> member in scores)
      ensures r.Some? ==> tree.sl != null && r.value == tree.Tally(Key(scores[member], member))
      ensures r.Some? && tree.Exact() ==>
        1 <= r.value < |Sorted()| && Sorted()[r.value] == Key(scores[member], member)
      ensures r.Some? && tree.Exact() && Valid() ==>
        r.value == 1 + |set m | m in scores
                               && (scores[m] < scores[member] || (scores[m] == scores[member] && m < member))|
    {
      if member !in scores { return None; }
      var k := Key(scores[member], member);
      assert k in tree.Row();
      NotEmpty(k);
      Rising();
      var node, head, index, preds;
      ghost var l, i, qs;
      node, head, index, preds, l, i, qs := tree.Search(k);
      tree.SearchedRank(k, l, i, node, head, index, preds, qs);
      r := Some(index);
      if tree.Exact() && Valid() { PlaceCounts(scores, tree.Row(), index, member); }
    }

    // a member's score grows, or the member is new with this score
    method UpdateIncreaseByDelta(delta: real, member: int, v: Value, headValue: Value, towerHeight: nat)
      returns (r: real)
      requires Kept() && towerHeight >= 1
      modifies this, tree, AllNodes(tree.grid)
      ensures Kept() && Held() == After(old(Held()), Increase(delta, member)) && scores == old(scores)[member := r]
      ensures r == if member in old(scores) then old(scores)[member] + delta else delta
      ensures tree.vals == Put(if member in old(scores) then old(tree.vals) - {Key(old(scores)[member], member)}
                               else old(tree.vals), Key(r, member), v)
      ensures if member in old(scores)
        then Swapped(old(Sorted()), Key(old(scores)[member], member), Key(r, member), Sorted())
        else Came(old(Sorted()), Key(r, member), Sorted())
      ensures old(Valid()) ==> Valid()
      ensures old(tree.Exact()) && (member in old(scores) ==> old(tree.Snug(Key(scores[member], member))))
              ==> tree.Exact()
      ensures fresh(AllNodes(tree.grid) - old(AllNodes(tree.grid)))
    {
      ghost var b := Held();
      ValidInStep();
      r := Raise(delta, member, v, headValue, towerHeight);
      AfterStep(b, Increase(delta, member));
      ValidInStep();
    }

    method Raise(delta: real, member: int, v: Value, headValue: Value, towerHeight: nat) returns (r: real)
      requires Kept() && towerHeight >= 1
      modifies this, tree, AllNodes(tree.grid)
      ensures tree.Valid() && Held() == After(old(Held()), Increase(delta, member))
      ensures scores == old(scores)[member := r]
      ensures r == if member in old(scores) then old(scores)[member] + delta else delta
      ensures tree.vals == Put(if member in old(scores) then old(tree.vals) - {Key(old(scores)[member], member)}
                               else old(tree.vals), Key(r, member), v)
      ensures if member in old(scores)
        then Swapped(old(Sorted()), Key(old(scores)[member], member), Key(r, member), Sorted())
        else Came(old(Sorted()), Key(r, member), Sorted())
      ensures old(tree.Exact()) && (member in old(scores) ==> old(tree.Snug(Key(scores[member], member))))
              ==> tree.Exact()
      ensures fresh(AllNodes(tree.grid) - old(AllNodes(tree.grid)))
    {
      r := delta;
      if member !in scores {
        PutBoth(delta, member, v, headValue, towerHeight);
      } else {
        r := MoveMember(delta, member, v, headValue, towerHeight);
      }
    }

    method MoveMember(delta: real, member: int, v: Value, headValue: Value, towerHeight: nat) returns (r: real)
      requires Kept() && member in scores && towerHeight >= 1
      modifies this, tree, AllNodes(tree.grid)
      ensures tree.Valid() && Held() == After(old(Held()), Increase(delta, member))
      ensures scores == old(scores)[member := r]
      ensures r == old(scores)[member] + delta
      ensures tree.vals == Put(old(tree.vals) - {Key(old(scores)[member], member)}, Key(r, member), v)
      ensures Swapped(old(Sorted()), Key(old(scores)[member], member), Key(r, member), Sorted())
      ensures old(tree.Exact()) && old(tree.Snug(Key(scores[member], member))) ==> tree.Exact()
      ensures fresh(AllNodes(tree.grid) - old(AllNodes(tree.grid)))
    {
      ghost var b := Held();
      r := scores[member] + delta;
      var oldKey := Key(scores[member], member);
      assert oldKey in tree.Row();
      Swap(oldKey, Key(r, member), v, headValue, towerHeight);
      SetScore(member, r);
      MovedBook(b, member, delta, r, oldKey);
    }

    method SetScore(member: int, score: real)
      requires tree.Valid()
      modifies this`scores
      ensures tree.Valid() && scores == old(scores)[member := score] && Held().index == old(Held().index)
      ensures Sorted() == old(Sorted()) && tree.vals == old(tree.vals)
    {
      scores := scores[member := score];
    }

    // the old pair out, the new one in
    method Swap(oldKey: Key, newKey: Key, v: Value, headValue: Value, towerHeight: nat)
      requires tree.Valid() && oldKey != NegInf && oldKey in tree.Row() && newKey != NegInf && towerHeight >= 1
      modifies tree, AllNodes(tree.grid)
      ensures tree.Valid() && Stored(tree.Row()) == Stored(old(tree.Row())) - {oldKey} + {newKey}
      ensures forall k :: k in tree.Row() <==> (k in old(tree.Row()) && k != oldKey) || k == newKey
      ensures tree.vals == Put(old(tree.vals) - {oldKey}, newKey, v)
      ensures old(tree.Exact()) && old(tree.Snug(oldKey)) ==> tree.Exact()
      ensures fresh(AllNodes(tree.grid) - old(AllNodes(tree.grid)))
    {
      NotEmpty(oldKey);
      ghost var nodes0 := AllNodes(tree.grid);
      TakeOut(oldKey);
      ghost var nodes1, row1 := AllNodes(tree.grid), tree.Row();
      Rising();
      ghost var p := Index(newKey, v, headValue, towerHeight);
      StoredJoins(row1, newKey, p, tree.Row());
      JoinsMembers(row1, newKey, p, tree.Row());
      ghost var nodes2 := AllNodes(tree.grid);
      assert nodes2 - nodes0 <= nodes2 - nodes1;
    }

    ghost predicate InRange(rank: int)
      reads this, tree
    {
      1 <= rank < |Sorted()|
    }

    // the search by this rank does not run off the bottom of the index
    ghost predicate Answered(rank: int)
      requires tree.Valid()
      reads this, tree, AllNodes(tree.grid)
    {
      exists r: int :: r == rank && AnsweredAt(r)
    }

    ghost predicate AnsweredAt(rank: int)
      requires tree.Valid()
      reads this, tree, AllNodes(tree.grid)
    {
      InRange(rank) ==> tree.Reached(rank).Some?
    }

    // the search by this rank ends at place p
    ghost predicate LeadsTo(rank: int, p: nat)
      requires tree.Valid()
      reads this, tree, AllNodes(tree.grid)
    {
      0 < p < |Sorted()| && exists r: int :: r == rank && LeadsAt(r, p)
    }

    ghost predicate LeadsAt(rank: int, p: nat)
      requires tree.Valid()
      reads this, tree, AllNodes(tree.grid)
    {
      tree.sl != null && tree.Reached(rank) == Some(p)
    }

    method KeyOfRank(rank: int) returns (ran: bool, k: Option<Key>, ghost p: nat)
      requires tree.Valid()
      ensures tree.Valid() && (ran <==> Answered(rank)) && (ran ==> (k.Some? <==> InRange(rank)))
      ensures ran && k.Some? ==> LeadsTo(rank, p) && k.value == Sorted()[p]
      ensures tree.Exact() ==> ran && (k.Some? ==> p == rank)
    {
      k, p := None, 0;
      var n;
      ran, n := tree.SearchIndex(rank);
      if ran && n != null {
        p := tree.Reached(rank).value;
        k := Some(n.k);
        assert LeadsAt(rank, p);
      }
      assert ran ==> AnsweredAt(rank);
    }

    method TwoKeys(start: int, end: int)
      returns (ran: bool, s: Option<Key>, e: Option<Key>, ghost a: nat, ghost b: nat)
      requires tree.Valid()
      ensures tree.Valid() && (ran <==> Answered(start) && Answered(end))
      ensures ran ==> (s.Some? <==> InRange(start)) && (e.Some? <==> InRange(end))
      ensures ran && s.Some? ==> LeadsTo(start, a) && s.value == Sorted()[a]
      ensures ran && e.Some? ==> LeadsTo(end, b) && e.value == Sorted()[b]
      ensures tree.Exact() ==> ran && (s.Some? ==> a == start) && (e.Some? ==> b == end)
    {
      assert allocated(AllNodes(tree.grid));
      e, b := None, 0;
      ran, s, a := KeyOfRank(start);
      if !ran { return; }
      ran, e, b := KeyOfRank(end);
    }

    // The pairs between those that the ranks lead to, which with true gaps
    // are the pairs of the ranks from start to end.
    method GetRangeByRank(start: int, end: int)
      returns (ran: bool, ok: bool, res: seq<(int, real)>, ghost a: nat, ghost b: nat)
      requires tree.Valid()
      ensures tree.Valid() && (ran <==> Answered(start) && Answered(end))
      ensures ran ==> (ok <==> InRange(start) && InRange(end))
      ensures ran && ok ==> LeadsTo(start, a) && LeadsTo(end, b)
      ensures ran && ok ==> res == if a <= b then Pairs(Sorted()[a..b + 1]) else []
      ensures !ran || !ok ==> res == []
      ensures forall x, y :: 0 <= x < y < |res| ==>
        res[x].1 < res[y].1 || (res[x].1 == res[y].1 && res[x].0 < res[y].0)
      ensures Valid() ==> forall x :: 0 <= x < |res| ==> res[x].0 in scores && scores[res[x].0] == res[x].1
      ensures tree.Exact() ==> ran && (ok ==> a == start && b == end)
    {
      assert allocated(AllNodes(tree.grid));
      var s, e;
      ran, s, e, a, b := TwoKeys(start, end);
      ok, res := ran && s.Some? && e.Some?, [];
      if ok {
        res := Between(s.value, e.value, a, b);
        InOrder(res, a, b);
      }
    }

    // what the pairs between two places are, by scores and members
    lemma {:induction false} InOrder(res: seq<(int, real)>, a: nat, b: nat)
      requires tree.Valid() && 0 < a < |Sorted()| && b < |Sorted()| && NegInf !in Sorted()[a..]
      requires res == if a <= b then Pairs(Sorted()[a..b + 1]) else []
      ensures forall x, y :: 0 <= x < y < |res| ==>
        res[x].1 < res[y].1 || (res[x].1 == res[y].1 && res[x].0 < res[y].0)
      ensures Valid() ==> forall x :: 0 <= x < |res| ==> res[x].0 in scores && scores[res[x].0] == res[x].1
    {
      Rising();
      if a <= b {
        PairsRise(Sorted(), a, b);
        if Valid() { PairsAgree(scores, Sorted(), a, b); }
      }
    }


    // in step, the pairs are those of the members
    lemma {:induction false} PairForEach()
      requires Valid()
      ensures |Sorted()| == |scores| + 1
    {
      Rising();
      AgreeSize(scores, tree.Row());
    }

    // the pairs between two keys, by the ranks of the keys
    method Between(lo: Key, hi: Key, ghost start: nat, ghost end: nat) returns (res: seq<(int, real)>)
      requires tree.Valid() && 0 < start < |tree.Row()| && end < |tree.Row()| && lo == tree.Row()[start]
      requires hi == tree.Row()[end]
      ensures tree.Valid() && NegInf !in tree.Row()[start..]
      ensures res == if start <= end then Pairs(tree.Row()[start..end + 1]) else []
    {
      Rising();
      RankIs(tree.Row(), start);
      NoHead(tree.Row(), start);
      var nodes;
      ghost var u;
      nodes, u := tree.RangeSearch(lo, hi);
      tree.RangeEnd(start, end, u);
      assert tree.Row()[start..u] <= tree.Row()[start..];
      assert allocated(AllNodes(tree.grid));
      res := PairsOf(nodes);
    }
  }

  lemma {:induction false} NoHead(row: seq<Key>, start: nat)
    requires Ascending(row) && 0 < start <= |row|
    ensures NegInf !in row[start..]
  {
    forall i | start <= i < |row| ensures row[i] != NegInf { assert Less(row[0], row[i]); }
  }

  function Pairs(row: seq<Key>): (r: seq<(int, real)>)
    requires NegInf !in row
    ensures |r| == |row| && forall i :: 0 <= i < |row| ==> r[i] == (row[i].member, row[i].score)
  {
    seq(|row|, i requires 0 <= i < |row| => (row[i].member, row[i].score))
  }

  lemma {:induction false} PairsRise(row: seq<Key>, a: nat, b: nat)
    requires Ascending(row) && 0 < a <= b < |row| && NegInf !in row[a..b + 1]
    ensures var ps := Pairs(row[a..b + 1]);
      forall x, y :: 0 <= x < y < |ps| ==> ps[x].1 < ps[y].1 || (ps[x].1 == ps[y].1 && ps[x].0 < ps[y].0)
  {
    var part := row[a..b + 1];
    assert forall x :: 0 <= x < |part| ==> part[x] == row[a + x];
    ScoresRise(row);
  }

  lemma {:induction false} PairsAgree(scores: Scores, row: seq<Key>, a: nat, b: nat)
    requires Agree(scores, row) && 0 < a <= b < |row| && NegInf !in row[a..b + 1]
    ensures var ps := Pairs(row[a..b + 1]);
      forall x :: 0 <= x < |ps| ==> ps[x].0 in scores && scores[ps[x].0] == ps[x].1
  {
    var part := row[a..b + 1];
    forall x | 0 <= x < |part| ensures part[x] in row && part[x] in part { assert part[x] == row[a + x]; }
  }

  method PairsOf(nodes: seq<SNode>) returns (res: seq<(int, real)>)
    requires NegInf !in KeysOf(nodes)
    ensures res == Pairs(KeysOf(nodes))
  {
    res := [];
    for i := 0 to |nodes|
      invariant |res| == i && forall j :: 0 <= j < i ==> res[j] == (nodes[j].k.member, nodes[j].k.score)
    {
      assert KeysOf(nodes)[i] == nodes[i].k;
      res := res + [(nodes[i].k.member, nodes[i].k.score)];
    }
  }

  // ---------- whole runs ----------

  function Final(b: Book, ops: seq<Op>): Book
    decreases |ops|
  {
    if ops == [] then b else After(Final(b, ops[..|ops| - 1]), ops[|ops| - 1])
  }

  // additions are of new members or repeat the score
  ghost predicate AllPlain(b: Book, ops: seq<Op>) {
    forall i :: 0 <= i < |ops| ==> Plain(Final(b, ops[..i]).scores, ops[i])
  }

  method Do(z: ZSet, op: Op, v: Value, headValue: Value, towerHeight: nat)
    requires z.Kept() && towerHeight >= 1
    modifies z, z.tree, AllNodes(z.tree.grid)
    ensures z.Kept() && z.Held() == After(old(z.Held()), op)
    ensures fresh(AllNodes(z.tree.grid) - old(AllNodes(z.tree.grid)))
  {
    match op
    case Add(score, member) => var ok := z.ZsetAdd(score, member, v, headValue, towerHeight);
    case Increase(delta, member) => var r := z.UpdateIncreaseByDelta(delta, member, v, headValue, towerHeight);
    case Take(member) => var ok := z.Remove(member);
  }

  // What any run leaves, whatever the heights of the towers.  In a run of
  // plain operations hash and index hold the same.
  method Run(ops: seq<Op>, heights: seq<nat>, v: Value, headValue: Value) returns (z: ZSet)
    requires |heights| == |ops| && forall i :: 0 <= i < |ops| ==> heights[i] >= 1
    ensures z.Kept() && z.Held() == Final(Book(map[], {}), ops)
    ensures AllPlain(Book(map[], {}), ops) ==> z.Valid()
  {
    z := NothingDone(ops, headValue);
    for i := 0 to |ops|
      invariant fresh(z) && fresh(z.tree) && fresh(AllNodes(z.tree.grid)) && Reached(z, ops, i)
    {
      DoNext(z, ops, i, v, headValue, heights[i]);
    }
    RunEnded(z, ops);
  }

  // z is as the first i operations leave it
  ghost predicate Reached(z: ZSet, ops: seq<Op>, i: nat)
    reads z, z.tree, AllNodes(z.tree.grid)
  {
    exists n: nat :: n == i <= |ops| && ReachedAt(z, ops, n)
  }

  ghost predicate ReachedAt(z: ZSet, ops: seq<Op>, n: nat)
    requires n <= |ops|
    reads z, z.tree, AllNodes(z.tree.grid)
  {
    z.Kept() && z.Held() == Final(Book(map[], {}), ops[..n])
  }

  method NothingDone(ghost ops: seq<Op>, headValue: Value) returns (z: ZSet)
    ensures fresh(z) && fresh(z.tree) && fresh(AllNodes(z.tree.grid)) && Reached(z, ops, 0)
  {
    z := new ZSet(headValue);
    z.ValidInStep();
    assert ReachedAt(z, ops, 0);
  }

  method DoNext(z: ZSet, ops: seq<Op>, i: nat, v: Value, headValue: Value, towerHeight: nat)
    requires towerHeight >= 1 && i < |ops| && Reached(z, ops, i)
    modifies z, z.tree, AllNodes(z.tree.grid)
    ensures Reached(z, ops, i + 1)
    ensures fresh(AllNodes(z.tree.grid) - old(AllNodes(z.tree.grid)))
  {
    ghost var b := z.Held();
    Do(z, ops[i], v, headValue, towerHeight);
    OneMore(ops, i, b);
    assert ReachedAt(z, ops, i + 1);
  }

  lemma {:induction false} OneMore(ops: seq<Op>, i: nat, b: Book)
    requires i < |ops| && b == Final(Book(map[], {}), ops[..i])
    ensures After(b, ops[i]) == Final(Book(map[], {}), ops[..i + 1])
  {
    assert ops[..i + 1][..i] == ops[..i];
  }

  lemma {:induction false} RunEnded(z: ZSet, ops: seq<Op>)
    requires Reached(z, ops, |ops|)
    ensures z.Kept() && z.Held() == Final(Book(map[], {}), ops)
    ensures AllPlain(Book(map[], {}), ops) ==> z.Valid()
  {
    assert ops[..|ops|] == ops;
    if AllPlain(Book(map[], {}), ops) { PlainRun(ops, |ops|); }
    z.ValidInStep();
  }

  lemma {:induction false} PlainRun(ops: seq<Op>, n: nat)
    requires n <= |ops| && AllPlain(Book(map[], {}), ops)
    ensures InStep(Final(Book(map[], {}), ops[..n]))
  {
    if n > 0 {
      PlainRun(ops, n - 1);
      assert ops[..n][..n - 1] == ops[..n - 1];
      StaysInStep(Final(Book(map[], {}), ops[..n - 1]), ops[n - 1]);
    }
  }

  // in whatever order two runs came to the same scores, their order is the same
  lemma {:induction false} SameScoresSameOrder(a: ZSet, b: ZSet)
    requires a.Valid() && b.Valid() && a.scores == b.scores
    ensures a.Sorted() == b.Sorted()
  {
    a.Rising();
    b.Rising();
    RowUnique(a.Sorted(), b.Sorted());
  }
}
