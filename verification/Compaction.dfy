/**
 * Grouping the files of overlapping key ranges for compaction
 * (v1/LSM_Compactor_coordinator.hpp): one sweep over the range ends, from the
 * greatest key down.
 *
 * Keys stand for strings by their rank; only their order is used.
 */
module Compaction {
  type Path(==)

  datatype Range = Range(path: Path, first: int, last: int)

  // one end of a range; isLast marks the greater one
  datatype Event = Event(key: int, path: Path, isLast: bool)

  // ---------- what the grouping is to achieve ----------

  ghost predicate Overlap(a: Range, b: Range) {
    a.first <= b.last && b.first <= a.last
  }

  // steps of a chain: neighbours overlap
  ghost predicate Chain(files: seq<Range>, c: seq<nat>) {
    c != [] && (forall k :: 0 <= k < |c| ==> c[k] < |files|)
    && forall k :: 0 <= k < |c| - 1 ==> Overlap(files[c[k]], files[c[k + 1]])
  }

  ghost predicate Linked(files: seq<Range>, i: nat, j: nat) {
    exists c: seq<nat> :: Chain(files, c) && c[0] == i && c[|c| - 1] == j
  }

  ghost predicate Together(jobs: seq<set<Path>>, p: Path, q: Path) {
    exists g :: 0 <= g < |jobs| && p in jobs[g] && q in jobs[g]
  }

  ghost predicate InSome(jobs: seq<set<Path>>, p: Path) {
    exists g :: 0 <= g < |jobs| && p in jobs[g]
  }

  // every file is in exactly one job, and the jobs hold nothing else
  ghost predicate Partition(jobs: seq<set<Path>>, files: seq<Range>) {
    (forall i :: 0 <= i < |files| ==> InSome(jobs, files[i].path))
    && (forall g, h, p :: 0 <= g < h < |jobs| && p in jobs[g] ==> p !in jobs[h])
    && (forall g, p :: 0 <= g < |jobs| && p in jobs[g] ==> exists i :: 0 <= i < |files| && files[i].path == p)
    && (forall g :: 0 <= g < |jobs| ==> jobs[g] != {})
  }

  // what the caller gives: one range for every path
  ghost predicate Named(files: seq<Range>) {
    (forall i :: 0 <= i < |files| ==> files[i].first <= files[i].last)
    && forall i, j :: 0 <= i < j < |files| ==> files[i].path != files[j].path
  }

  // no two ends are equal
  ghost predicate Distinct(files: seq<Range>) {
    Named(files) && (forall i, j :: 0 <= i < |files| && 0 <= j < |files| ==> files[i].first != files[j].last)
    && forall i, j :: 0 <= i < j < |files| ==> files[i].first != files[j].first && files[i].last != files[j].last
  }

  // two files share a job exactly when a chain of overlaps links them
  ghost predicate JobsAreChains(files: seq<Range>, jobs: seq<set<Path>>) {
    forall i, j :: 0 <= i < |files| && 0 <= j < |files| ==>
      (Together(jobs, files[i].path, files[j].path) <==> Linked(files, i, j))
  }

  // ---------- chains ----------

  lemma {:induction false} LinkedSelf(files: seq<Range>, i: nat)
    requires i < |files|
    ensures Linked(files, i, i)
  {
    var c: seq<nat> := [i];
    assert Chain(files, c) && c[0] == i && c[|c| - 1] == i;
  }

  lemma {:induction false} LinkedStep(files: seq<Range>, i: nat, j: nat, k: nat)
    requires Linked(files, i, j) && k < |files| && Overlap(files[j], files[k])
    ensures Linked(files, i, k)
  {
    var c: seq<nat> :| Chain(files, c) && c[0] == i && c[|c| - 1] == j;
    var d := c + [k];
    forall m | 0 <= m < |d| - 1 ensures Overlap(files[d[m]], files[d[m + 1]]) {
      if m + 1 < |c| { assert d[m] == c[m] && d[m + 1] == c[m + 1]; }
    }
    assert Chain(files, d) && d[0] == i && d[|d| - 1] == k;
  }

  lemma {:induction false} LinkedBack(files: seq<Range>, i: nat, j: nat, c: seq<nat>)
    requires Chain(files, c) && c[0] == i && c[|c| - 1] == j
    ensures Linked(files, j, i)
    decreases |c|
  {
    if |c| == 1 {
      LinkedSelf(files, i);
    } else {
      var d := c[1..];
      forall m | 0 <= m < |d| - 1 ensures Overlap(files[d[m]], files[d[m + 1]]) {
        assert d[m] == c[m + 1] && d[m + 1] == c[m + 2];
      }
      LinkedBack(files, d[0], j, d);
      assert Overlap(files[c[0]], files[c[1]]);
      LinkedStep(files, j, d[0], i);
    }
  }

  lemma {:induction false} LinkedSymmetric(files: seq<Range>, i: nat, j: nat)
    requires Linked(files, i, j)
    ensures Linked(files, j, i)
  {
    var c: seq<nat> :| Chain(files, c) && c[0] == i && c[|c| - 1] == j;
    LinkedBack(files, i, j, c);
  }

  lemma {:induction false} LinkedAlong(files: seq<Range>, i: nat, j: nat, c: seq<nat>)
    requires Linked(files, i, j) && Chain(files, c) && c[0] == j
    ensures Linked(files, i, c[|c| - 1])
    decreases |c|
  {
    if |c| > 1 {
      var d := c[..|c| - 1];
      assert Chain(files, d);
      LinkedAlong(files, i, j, d);
      assert Overlap(files[c[|c| - 2]], files[c[|c| - 1]]);
      LinkedStep(files, i, d[|d| - 1], c[|c| - 1]);
    }
  }

  lemma {:induction false} LinkedTransitive(files: seq<Range>, i: nat, j: nat, k: nat)
    requires Linked(files, i, j) && Linked(files, j, k)
    ensures Linked(files, i, k)
  {
    var c: seq<nat> :| Chain(files, c) && c[0] == j && c[|c| - 1] == k;
    LinkedAlong(files, i, j, c);
  }

  // ---------- the ends in descending order ----------

  function LastEnd(r: Range): Event { Event(r.last, r.path, true) }

  function FirstEnd(r: Range): Event { Event(r.first, r.path, false) }

  ghost predicate Descending(events: seq<Event>) {
    forall p, q :: 0 <= p < q < |events| ==> events[p].key >= events[q].key
  }

  // how many more ranges have their first end than their last one before u
  function Balance(events: seq<Event>, u: nat): int
    requires u <= |events|
  {
    if u == 0 then 0 else Balance(events, u - 1) + if events[u - 1].isLast then -1 else 1
  }

  ghost predicate Cut(events: seq<Event>, u: nat) {
    u <= |events| && Balance(events, u) == 0
  }

  // No cut falls between two equal keys.  Where all keys differ this is so; of
  // the orders of equal keys it holds for those with last ends in front, and
  // wherever another range is open across the key.
  ghost predicate Parted(events: seq<Event>) {
    forall u :: 0 < u < |events| && Cut(events, u) ==> events[u - 1].key != events[u].key
  }

  // ---------- the sweep ----------

  ghost function LastsIn(events: seq<Event>, b: nat, e: nat): set<Path> {
    set p | b <= p < e && p < |events| && events[p].isLast :: events[p].path
  }

  ghost predicate Group(events: seq<Event>, job: set<Path>, b: nat, e: nat) {
    b < e && Cut(events, e) && (forall c :: b < c < e ==> !Cut(events, c)) && job == LastsIn(events, b, e)
  }

  // a job for every stretch between two cuts
  ghost predicate Groups(events: seq<Event>, jobs: seq<set<Path>>, bounds: seq<nat>) {
    |bounds| == |jobs| + 1 && bounds[0] == 0
    && forall g :: 0 <= g < |jobs| ==> Group(events, jobs[g], bounds[g], bounds[g + 1])
  }

  method Sweep(events: seq<Event>) returns (jobs: seq<set<Path>>, ghost bounds: seq<nat>)
    ensures Groups(events, jobs, bounds)
    ensures forall c :: bounds[|jobs|] < c <= |events| ==> !Cut(events, c)
    ensures bounds[|jobs|] <= |events|
  {
    var counter := 0;
    var active: set<Path> := {};
    jobs, bounds := [], [0];
    for u := 0 to |events|
      invariant counter == Balance(events, u) && Groups(events, jobs, bounds) && bounds[|jobs|] <= u
      invariant active == LastsIn(events, bounds[|jobs|], u)
      invariant forall c :: bounds[|jobs|] < c <= u ==> !Cut(events, c)
    {
      LastsMore(events, bounds[|jobs|], u);
      if !events[u].isLast {
        counter := counter + 1;
      } else {
        active := active + {events[u].path};
        counter := counter - 1;
      }
      if counter == 0 {
        GroupsMore(events, jobs, bounds, active, u + 1);
        jobs := jobs + [active];
        bounds := bounds + [u + 1];
        active := {};
      }
    }
  }

  lemma {:induction false} LastsMore(events: seq<Event>, b: nat, u: nat)
    requires b <= u < |events|
    ensures LastsIn(events, b, u + 1)
         == LastsIn(events, b, u) + if events[u].isLast then {events[u].path} else {}
  {
  }

  lemma {:induction false} GroupsMore(events: seq<Event>, jobs: seq<set<Path>>, bounds: seq<nat>, job: set<Path>,
                                      e: nat)
    requires Groups(events, jobs, bounds) && Group(events, job, bounds[|jobs|], e)
    ensures Groups(events, jobs + [job], bounds + [e])
  {
  }

  // ---------- the places of the ends ----------

  // last[i] and first[i] are the places of the ends of file i
  ghost predicate Placed(files: seq<Range>, events: seq<Event>, last: seq<nat>, first: seq<nat>) {
    Named(files) && |last| == |files| && |first| == |files| && Descending(events)
    && (forall i :: 0 <= i < |files| ==> last[i] < |events| && events[last[i]] == LastEnd(files[i]))
    && (forall i :: 0 <= i < |files| ==> first[i] < |events| && events[first[i]] == FirstEnd(files[i]))
    && forall p :: 0 <= p < |events| ==> Owned(files, last, first, p)
  }

  ghost predicate Owned(files: seq<Range>, last: seq<nat>, first: seq<nat>, p: nat)
    requires |last| == |files| && |first| == |files|
  {
    exists i :: 0 <= i < |files| && (last[i] == p || first[i] == p)
  }

  lemma {:induction false} Owner(files: seq<Range>, events: seq<Event>, last: seq<nat>, first: seq<nat>, u: nat)
    returns (i: nat)
    requires Placed(files, events, last, first) && u < |events|
    ensures i < |files| && events[u].path == files[i].path
    ensures if events[u].isLast then last[i] == u else first[i] == u
  {
    assert Owned(files, last, first, u);
    i :| i < |files| && (last[i] == u || first[i] == u);
  }

  lemma {:induction false} SamePlace(files: seq<Range>, events: seq<Event>, last: seq<nat>, first: seq<nat>,
                                     x: nat, i: nat)
    requires Placed(files, events, last, first) && x < |files| && i < |files|
    ensures last[x] == last[i] ==> x == i
    ensures first[x] == first[i] ==> x == i
    ensures first[x] != last[i]
  {
    if last[x] == last[i] { assert LastEnd(files[x]) == LastEnd(files[i]); }
    if first[x] == first[i] { assert FirstEnd(files[x]) == FirstEnd(files[i]); }
    assert FirstEnd(files[x]) != LastEnd(files[i]);
  }

  // the files with an end before u
  ghost function Begun(places: seq<nat>, u: nat): set<nat> {
    set i: nat | i < |places| && places[i] < u
  }

  lemma {:induction false} BalanceCounts(files: seq<Range>, events: seq<Event>, last: seq<nat>, first: seq<nat>, u: nat)
    requires Placed(files, events, last, first) && u <= |events|
    ensures Balance(events, u) == |Begun(first, u)| - |Begun(last, u)|
    decreases u
  {
    if u == 0 {
      assert Begun(first, 0) == {} && Begun(last, 0) == {};
    } else {
      BalanceCounts(files, events, last, first, u - 1);
      var i := Owner(files, events, last, first, u - 1);
      PlacesOnce(files, events, last, first, i);
      if events[u - 1].isLast {
        BegunMore(last, i);
        BegunSame(first, u - 1);
      } else {
        BegunMore(first, i);
        BegunSame(last, u - 1);
      }
    }
  }

  // no other end is at a place of file i
  lemma {:induction false} PlacesOnce(files: seq<Range>, events: seq<Event>, last: seq<nat>, first: seq<nat>, i: nat)
    requires Placed(files, events, last, first) && i < |files|
    ensures forall k :: 0 <= k < |files| ==> (last[k] == last[i] ==> k == i) && last[k] != first[i]
    ensures forall k :: 0 <= k < |files| ==> (first[k] == first[i] ==> k == i) && first[k] != last[i]
  {
    forall k | 0 <= k < |files|
      ensures (last[k] == last[i] ==> k == i) && last[k] != first[i]
      ensures (first[k] == first[i] ==> k == i) && first[k] != last[i]
    {
      SamePlace(files, events, last, first, k, i);
      SamePlace(files, events, last, first, i, k);
    }
  }

  lemma {:induction false} BegunMore(places: seq<nat>, i: nat)
    requires i < |places| && forall k :: 0 <= k < |places| && places[k] == places[i] ==> k == i
    ensures |Begun(places, places[i] + 1)| == |Begun(places, places[i])| + 1
  {
    assert Begun(places, places[i] + 1) == Begun(places, places[i]) + {i};
  }

  lemma {:induction false} BegunSame(places: seq<nat>, p: nat)
    requires forall k :: 0 <= k < |places| ==> places[k] != p
    ensures Begun(places, p + 1) == Begun(places, p)
  {
  }

  lemma {:induction false} EqualSizes<T>(a: set<T>, b: set<T>, x: T)
    requires |a| == |b| && x in a && x !in b
    ensures exists y :: y in b && y !in a
  {
    if b <= a {
      Smaller(a - {x}, b);
    }
  }

  lemma {:induction false} Smaller<T>(a: set<T>, b: set<T>)
    requires b <= a
    ensures |b| <= |a|
  {
    assert a == b + (a - b);
  }

  // ---------- what the groups mean ----------

  lemma {:induction false} AllBegun(files: seq<Range>, events: seq<Event>, last: seq<nat>, first: seq<nat>)
    requires Placed(files, events, last, first)
    ensures Cut(events, |events|)
  {
    BalanceCounts(files, events, last, first, |events|);
    assert Begun(first, |events|) == Begun(last, |events|);
  }

  lemma {:induction false} FindGroup(bounds: seq<nat>, p: nat) returns (g: nat)
    requires |bounds| > 0 && bounds[0] <= p < bounds[|bounds| - 1]
    ensures g < |bounds| - 1 && bounds[g] <= p < bounds[g + 1]
  {
    g := 0;
    while p >= bounds[g + 1]
      invariant g < |bounds| - 1 && bounds[g] <= p
      decreases |bounds| - g
    {
      g := g + 1;
    }
  }

  lemma {:induction false} BoundsGrow(events: seq<Event>, jobs: seq<set<Path>>, bounds: seq<nat>, g: nat, h: nat)
    requires Groups(events, jobs, bounds) && g <= h <= |jobs|
    ensures bounds[g] <= bounds[h]
    decreases h - g
  {
    if g < h {
      assert Group(events, jobs[g], bounds[g], bounds[g + 1]);
      BoundsGrow(events, jobs, bounds, g + 1, h);
    }
  }

  // the groups of a whole sweep
  ghost predicate Swept(files: seq<Range>, events: seq<Event>, last: seq<nat>, first: seq<nat>, jobs: seq<set<Path>>,
                        bounds: seq<nat>)
  {
    Placed(files, events, last, first) && Groups(events, jobs, bounds) && bounds[|jobs|] == |events|
  }

  // a file is in the group that its last end is in, and in no other
  lemma {:induction false} InGroup(files: seq<Range>, events: seq<Event>, last: seq<nat>, first: seq<nat>,
                                   jobs: seq<set<Path>>, bounds: seq<nat>, i: nat, g: nat)
    requires Swept(files, events, last, first, jobs, bounds) && i < |files| && g < |jobs|
    ensures files[i].path in jobs[g] <==> bounds[g] <= last[i] < bounds[g + 1]
  {
    assert Group(events, jobs[g], bounds[g], bounds[g + 1]);
    if files[i].path in jobs[g] {
      var p :| bounds[g] <= p < bounds[g + 1] && p < |events| && events[p].isLast && events[p].path == files[i].path;
      var k := Owner(files, events, last, first, p);
      assert k == i;
    }
  }

  lemma {:induction false} GroupOf(files: seq<Range>, events: seq<Event>, last: seq<nat>, first: seq<nat>,
                                   jobs: seq<set<Path>>, bounds: seq<nat>, i: nat) returns (g: nat)
    requires Swept(files, events, last, first, jobs, bounds) && i < |files|
    ensures g < |jobs| && files[i].path in jobs[g] && bounds[g] <= last[i] < bounds[g + 1]
  {
    g := FindGroup(bounds, last[i]);
    InGroup(files, events, last, first, jobs, bounds, i, g);
  }

  lemma {:induction false} OneGroup(files: seq<Range>, events: seq<Event>, last: seq<nat>, first: seq<nat>,
                                    jobs: seq<set<Path>>, bounds: seq<nat>, i: nat, g: nat, h: nat)
    requires Swept(files, events, last, first, jobs, bounds) && i < |files| && g < |jobs| && h < |jobs|
    requires files[i].path in jobs[g] && files[i].path in jobs[h]
    ensures g == h
  {
    InGroup(files, events, last, first, jobs, bounds, i, g);
    InGroup(files, events, last, first, jobs, bounds, i, h);
    if g < h { BoundsGrow(events, jobs, bounds, g + 1, h); }
    if h < g { BoundsGrow(events, jobs, bounds, h + 1, g); }
  }

  lemma {:induction false} MemberOf(files: seq<Range>, events: seq<Event>, last: seq<nat>, first: seq<nat>,
                                    jobs: seq<set<Path>>, bounds: seq<nat>, g: nat, p: Path) returns (i: nat)
    requires Swept(files, events, last, first, jobs, bounds) && g < |jobs| && p in jobs[g]
    ensures i < |files| && files[i].path == p
  {
    assert Group(events, jobs[g], bounds[g], bounds[g + 1]);
    var u :| bounds[g] <= u < bounds[g + 1] && u < |events| && events[u].isLast && events[u].path == p;
    i := Owner(files, events, last, first, u);
  }

  // between two cuts some range has its last end
  lemma {:induction false} NotEmpty(events: seq<Event>, job: set<Path>, b: nat, e: nat)
    requires Cut(events, b) && Group(events, job, b, e)
    ensures job != {}
  {
    if job == {} {
      forall p | b <= p < e ensures !events[p].isLast {
        assert events[p].isLast ==> events[p].path in LastsIn(events, b, e);
      }
      OnlyFirsts(events, b, e);
    }
  }

  lemma {:induction false} OnlyFirsts(events: seq<Event>, b: nat, e: nat)
    requires b <= e <= |events| && forall p :: b <= p < e ==> !events[p].isLast
    ensures Balance(events, e) == Balance(events, b) + e - b
    decreases e
  {
    if b < e { OnlyFirsts(events, b, e - 1); }
  }

  // Whatever the order of equal ends, every file is in exactly one job.
  lemma {:induction false} GroupsPartition(files: seq<Range>, events: seq<Event>, last: seq<nat>, first: seq<nat>,
                                           jobs: seq<set<Path>>, bounds: seq<nat>)
    requires Swept(files, events, last, first, jobs, bounds)
    ensures Partition(jobs, files)
  {
    forall i | 0 <= i < |files| ensures InSome(jobs, files[i].path) {
      var g := GroupOf(files, events, last, first, jobs, bounds, i);
    }
    forall g, h, p | 0 <= g < h < |jobs| && p in jobs[g] ensures p !in jobs[h] {
      if p in jobs[h] {
        var i := MemberOf(files, events, last, first, jobs, bounds, g, p);
        OneGroup(files, events, last, first, jobs, bounds, i, g, h);
      }
    }
    forall g, p | 0 <= g < |jobs| && p in jobs[g] ensures exists i :: 0 <= i < |files| && files[i].path == p {
      var i := MemberOf(files, events, last, first, jobs, bounds, g, p);
    }
    forall g | 0 <= g < |jobs| ensures jobs[g] != {} {
      BoundsCut(events, jobs, bounds, g);
      assert Group(events, jobs[g], bounds[g], bounds[g + 1]);
      NotEmpty(events, jobs[g], bounds[g], bounds[g + 1]);
    }
  }

  lemma {:induction false} BoundsCut(events: seq<Event>, jobs: seq<set<Path>>, bounds: seq<nat>, g: nat)
    requires Groups(events, jobs, bounds) && g <= |jobs|
    ensures Cut(events, bounds[g])
  {
    if g > 0 { assert Group(events, jobs[g - 1], bounds[g - 1], bounds[g]); }
  }

  // files share a job if no cut lies between their last ends
  lemma {:induction false} ApartByCut(files: seq<Range>, events: seq<Event>, last: seq<nat>, first: seq<nat>,
                                      jobs: seq<set<Path>>, bounds: seq<nat>, i: nat, j: nat, u: nat)
    requires Swept(files, events, last, first, jobs, bounds) && i < |files| && j < |files|
    requires last[i] < u <= last[j] && Cut(events, u)
    ensures !Together(jobs, files[i].path, files[j].path)
  {
    forall g | 0 <= g < |jobs| ensures files[i].path !in jobs[g] || files[j].path !in jobs[g] {
      InGroup(files, events, last, first, jobs, bounds, i, g);
      InGroup(files, events, last, first, jobs, bounds, j, g);
      assert Group(events, jobs[g], bounds[g], bounds[g + 1]);
    }
  }

  // ---------- where no cut falls between equal keys ----------

  // a strict drop at u
  ghost predicate Drop(events: seq<Event>, u: nat) {
    0 < u < |events| && events[u - 1].key != events[u].key
  }

  lemma {:induction false} NoLower(events: seq<Event>, u: nat, p: nat)
    requires Descending(events) && u < |events| && p < |events| && events[u].key < events[p].key
    ensures p < u
  {
  }

  lemma {:induction false} DropBegun(files: seq<Range>, events: seq<Event>, last: seq<nat>, first: seq<nat>, u: nat)
    requires Placed(files, events, last, first) && Drop(events, u)
    ensures Begun(first, u) <= Begun(last, u)
  {
    forall k | k in Begun(first, u) ensures k in Begun(last, u) {
      assert events[first[k]].key >= events[u - 1].key > events[u].key;
      NoLower(events, u, last[k]);
    }
  }

  // at a cut every range that has begun has ended
  lemma {:induction false} CutBegun(files: seq<Range>, events: seq<Event>, last: seq<nat>, first: seq<nat>, u: nat)
    requires Placed(files, events, last, first) && Cut(events, u) && (u == 0 || u == |events| || Drop(events, u))
    ensures Begun(first, u) == Begun(last, u)
  {
    if 0 < u < |events| {
      DropBegun(files, events, last, first, u);
      BalanceCounts(files, events, last, first, u);
      SameSize(Begun(first, u), Begun(last, u));
    }
  }

  lemma {:induction false} SameSize<T>(a: set<T>, b: set<T>)
    requires a <= b && |a| == |b|
    ensures a == b
  {
    if a != b {
      var x :| x in b && x !in a;
      EqualSizes(b, a, x);
    }
  }

  // so files on two sides of it do not overlap
  lemma {:induction false} CutParts(files: seq<Range>, events: seq<Event>, last: seq<nat>, first: seq<nat>, u: nat,
                                    i: nat, j: nat)
    requires Placed(files, events, last, first) && Cut(events, u) && Drop(events, u) && i < |files| && j < |files|
    requires last[i] < u <= last[j]
    ensures !Overlap(files[i], files[j]) && !Overlap(files[j], files[i])
  {
    CutBegun(files, events, last, first, u);
    assert i in Begun(last, u) && i in Begun(first, u);
    assert events[first[i]].key >= events[u - 1].key && events[u].key >= events[last[j]].key;
  }

  lemma {:induction false} OverlapTogether(files: seq<Range>, events: seq<Event>, last: seq<nat>, first: seq<nat>,
                                           jobs: seq<set<Path>>, bounds: seq<nat>, g: nat, i: nat, j: nat)
    requires Swept(files, events, last, first, jobs, bounds) && Parted(events) && g < |jobs|
    requires i < |files| && j < |files| && Overlap(files[i], files[j]) && files[i].path in jobs[g]
    ensures files[j].path in jobs[g]
  {
    InGroup(files, events, last, first, jobs, bounds, i, g);
    InGroup(files, events, last, first, jobs, bounds, j, g);
    BoundsCut(events, jobs, bounds, g);
    BoundsCut(events, jobs, bounds, g + 1);
    if last[j] < bounds[g] { CutParts(files, events, last, first, bounds[g], j, i); }
    if bounds[g + 1] <= last[j] { CutParts(files, events, last, first, bounds[g + 1], i, j); }
  }

  lemma {:induction false} ChainTogether(files: seq<Range>, events: seq<Event>, last: seq<nat>, first: seq<nat>,
                                         jobs: seq<set<Path>>, bounds: seq<nat>, g: nat, c: seq<nat>)
    requires Swept(files, events, last, first, jobs, bounds) && Parted(events) && g < |jobs|
    requires Chain(files, c) && files[c[0]].path in jobs[g]
    ensures files[c[|c| - 1]].path in jobs[g]
    decreases |c|
  {
    if |c| > 1 {
      var d := c[..|c| - 1];
      assert Chain(files, d);
      ChainTogether(files, events, last, first, jobs, bounds, g, d);
      assert Overlap(files[c[|c| - 2]], files[c[|c| - 1]]);
      OverlapTogether(files, events, last, first, jobs, bounds, g, c[|c| - 2], c[|c| - 1]);
    }
  }

  // ---------- a group is linked ----------

  // the files whose last end lies from b on and before e
  ghost predicate Within(last: seq<nat>, b: nat, e: nat, i: nat) {
    i < |last| && b <= last[i] < e
  }

  ghost predicate AllLinked(files: seq<Range>, last: seq<nat>, b: nat, e: nat) {
    forall i, j :: Within(last, b, e, i) && Within(last, b, e, j) ==> Linked(files, i, j)
  }

  // the first place of a key
  lemma {:induction false} FirstPlace(events: seq<Event>, u: nat) returns (v: nat)
    requires Descending(events) && u < |events|
    ensures v <= u && events[v].key == events[u].key && (v > 0 ==> Drop(events, v))
    ensures forall p :: v <= p <= u ==> events[p].key == events[u].key
  {
    v := u;
    while v > 0 && events[v - 1].key == events[u].key
      invariant v <= u && forall p :: v <= p <= u ==> events[p].key == events[u].key
    {
      v := v - 1;
    }
  }

  // a range open at the first place of the key
  lemma {:induction false} OpenAt(files: seq<Range>, events: seq<Event>, last: seq<nat>, first: seq<nat>, b: nat,
                                  v: nat)
    returns (k: nat)
    requires Placed(files, events, last, first) && Cut(events, b) && (b == 0 || Drop(events, b)) && b < v
    requires Drop(events, v) && !Cut(events, v)
    ensures k < |files| && b <= last[k] < v <= first[k]
  {
    DropBegun(files, events, last, first, v);
    BalanceCounts(files, events, last, first, v);
    assert Begun(first, v) != Begun(last, v);
    k :| k in Begun(last, v) && k !in Begun(first, v);
    CutBegun(files, events, last, first, b);
    assert (last[k] < b ==> k in Begun(last, b)) && k !in Begun(first, b);
  }

  // the next file of the group is linked to those before it
  lemma {:induction false} LinkNext(files: seq<Range>, events: seq<Event>, last: seq<nat>, first: seq<nat>, b: nat,
                                    x: nat, i: nat)
    requires Placed(files, events, last, first) && Cut(events, b) && (b == 0 || Drop(events, b))
    requires i < |files| && Within(last, b, last[i], x) && AllLinked(files, last, b, last[i])
    requires forall c :: b < c <= last[i] ==> !Cut(events, c)
    ensures Linked(files, x, i)
  {
    var u := last[i];
    var v := FirstPlace(events, u);
    if last[x] >= v {
      assert Overlap(files[x], files[i]) by { assert events[last[x]].key == events[u].key; }
      LinkedSelf(files, x);
      LinkedStep(files, x, x, i);
    } else {
      var k := OpenAt(files, events, last, first, b, v);
      assert Within(last, b, u, k);
      assert Overlap(files[k], files[i]) by {
        assert events[last[k]].key >= events[v].key >= events[first[k]].key;
      }
      LinkedStep(files, x, k, i);
    }
  }

  lemma {:induction false} LinkedUpTo(files: seq<Range>, events: seq<Event>, last: seq<nat>, first: seq<nat>, b: nat,
                                      u: nat)
    requires Placed(files, events, last, first) && Cut(events, b) && (b == 0 || Drop(events, b)) && b <= u <= |events|
    requires forall c :: b < c < u ==> !Cut(events, c)
    ensures AllLinked(files, last, b, u)
    decreases u
  {
    if b < u {
      LinkedUpTo(files, events, last, first, b, u - 1);
      forall x: nat, y: nat | Within(last, b, u, x) && Within(last, b, u, y) ensures Linked(files, x, y) {
        SamePlace(files, events, last, first, x, y);
        if last[x] < u - 1 && last[y] < u - 1 {
        } else if x == y {
          LinkedSelf(files, x);
        } else if last[x] < last[y] {
          LinkNext(files, events, last, first, b, x, y);
        } else {
          LinkNext(files, events, last, first, b, y, x);
          LinkedSymmetric(files, y, x);
        }
      }
    }
  }

  lemma {:induction false} TogetherLinked(files: seq<Range>, events: seq<Event>, last: seq<nat>, first: seq<nat>,
                                          jobs: seq<set<Path>>, bounds: seq<nat>, i: nat, j: nat)
    requires Swept(files, events, last, first, jobs, bounds) && Parted(events) && i < |files| && j < |files|
    requires Together(jobs, files[i].path, files[j].path)
    ensures Linked(files, i, j)
  {
    var g :| 0 <= g < |jobs| && files[i].path in jobs[g] && files[j].path in jobs[g];
    InGroup(files, events, last, first, jobs, bounds, i, g);
    InGroup(files, events, last, first, jobs, bounds, j, g);
    BoundsCut(events, jobs, bounds, g);
    assert Group(events, jobs[g], bounds[g], bounds[g + 1]);
    LinkedUpTo(files, events, last, first, bounds[g], bounds[g + 1]);
    assert Within(last, bounds[g], bounds[g + 1], i) && Within(last, bounds[g], bounds[g + 1], j);
  }

  lemma {:induction false} PartedChains(files: seq<Range>, events: seq<Event>, last: seq<nat>, first: seq<nat>,
                                        jobs: seq<set<Path>>, bounds: seq<nat>)
    requires Swept(files, events, last, first, jobs, bounds) && Parted(events)
    ensures JobsAreChains(files, jobs)
  {
    forall i, j | 0 <= i < |files| && 0 <= j < |files|
      ensures Together(jobs, files[i].path, files[j].path) <==> Linked(files, i, j)
    {
      if Together(jobs, files[i].path, files[j].path) {
        TogetherLinked(files, events, last, first, jobs, bounds, i, j);
      }
      if Linked(files, i, j) {
        var g := GroupOf(files, events, last, first, jobs, bounds, i);
        var c: seq<nat> :| Chain(files, c) && c[0] == i && c[|c| - 1] == j;
        ChainTogether(files, events, last, first, jobs, bounds, g, c);
      }
    }
  }

  // ---------- a cut between equal keys parts overlapping files ----------

  // a range that has the key
  ghost predicate Has(r: Range, key: int) { r.first <= key <= r.last }

  lemma {:induction false} HasBefore(files: seq<Range>, events: seq<Event>, last: seq<nat>, first: seq<nat>, u: nat)
    returns (i: nat)
    requires Placed(files, events, last, first) && 0 < u < |events| && Cut(events, u)
    requires events[u - 1].key == events[u].key
    ensures i < |files| && last[i] < u && Has(files[i], events[u].key)
  {
    BalanceCounts(files, events, last, first, u);
    i := Owner(files, events, last, first, u - 1);
    if last[i] >= u {
      var x := i;
      assert x in Begun(first, u) && x !in Begun(last, u);
      EqualSizes(Begun(first, u), Begun(last, u), x);
      i :| i in Begun(last, u) && i !in Begun(first, u);
      assert events[last[i]].key >= events[u].key >= events[first[i]].key;
    }
  }

  lemma {:induction false} HasBehind(files: seq<Range>, events: seq<Event>, last: seq<nat>, first: seq<nat>, u: nat)
    returns (j: nat)
    requires Placed(files, events, last, first) && 0 < u < |events| && Cut(events, u)
    requires events[u - 1].key == events[u].key
    ensures j < |files| && u <= last[j] && Has(files[j], events[u].key)
  {
    BalanceCounts(files, events, last, first, u);
    j := Owner(files, events, last, first, u);
    if last[j] < u {
      var x := j;
      assert x in Begun(last, u) && x !in Begun(first, u);
      EqualSizes(Begun(last, u), Begun(first, u), x);
      j :| j in Begun(first, u) && j !in Begun(last, u);
      assert events[first[j]].key >= events[u].key >= events[last[j]].key;
    }
  }

  lemma {:induction false} NotParted(files: seq<Range>, events: seq<Event>, last: seq<nat>, first: seq<nat>,
                                     jobs: seq<set<Path>>, bounds: seq<nat>)
    requires Swept(files, events, last, first, jobs, bounds) && !Parted(events)
    ensures !JobsAreChains(files, jobs)
  {
    var u :| 0 < u < |events| && Cut(events, u) && events[u - 1].key == events[u].key;
    var i := HasBefore(files, events, last, first, u);
    var j := HasBehind(files, events, last, first, u);
    ApartByCut(files, events, last, first, jobs, bounds, i, j, u);
    LinkedSelf(files, i);
    LinkedStep(files, i, i, j);
  }

  // For every order of the ends: the jobs are the chains if and only if no
  // cut falls between equal keys.
  lemma {:induction false} GroupsAreChains(files: seq<Range>, events: seq<Event>, last: seq<nat>, first: seq<nat>,
                                           jobs: seq<set<Path>>, bounds: seq<nat>)
    requires Swept(files, events, last, first, jobs, bounds)
    ensures JobsAreChains(files, jobs) <==> Parted(events)
  {
    if Parted(events) {
      PartedChains(files, events, last, first, jobs, bounds);
    } else {
      NotParted(files, events, last, first, jobs, bounds);
    }
  }

  lemma {:induction false} DistinctParted(files: seq<Range>, events: seq<Event>, last: seq<nat>, first: seq<nat>)
    requires Placed(files, events, last, first) && Distinct(files)
    ensures Parted(events)
  {
    forall u | 0 < u < |events| ensures events[u - 1].key != events[u].key {
      var i := Owner(files, events, last, first, u - 1);
      var j := Owner(files, events, last, first, u);
      if i == j { assert events[u - 1].isLast != events[u].isLast; }
    }
  }

  lemma {:induction false} FourBalances(events: seq<Event>)
    requires |events| == 4
    ensures forall u :: 0 <= u < 4 ==>
      Balance(events, u + 1) == Balance(events, u) + if events[u].isLast then -1 else 1
    ensures Balance(events, 0) == 0
  {
  }

  // a range that begins with the key at which another one ends: of the two
  // orders one keeps them together
  lemma {:induction false} TouchingRanges(a: Path, b: Path)
    ensures var together := [Event(9, a, true), Event(5, b, true), Event(5, a, false), Event(1, b, false)];
      Descending(together) && Parted(together)
    ensures var parts := [Event(9, a, true), Event(5, a, false), Event(5, b, true), Event(1, b, false)];
      Descending(parts) && !Parted(parts)
  {
    var together := [Event(9, a, true), Event(5, b, true), Event(5, a, false), Event(1, b, false)];
    var parts := [Event(9, a, true), Event(5, a, false), Event(5, b, true), Event(1, b, false)];
    FourBalances(together);
    FourBalances(parts);
    assert Cut(parts, 2);
  }

  // ---------- collecting and sorting the ends ----------

  function Files(runs: seq<seq<Range>>): seq<Range> {
    if runs == [] then [] else Files(runs[..|runs| - 1]) + runs[|runs| - 1]
  }

  // the files of the runs are those and no others
  lemma {:induction false} FilesAre(runs: seq<seq<Range>>, f: Range)
    ensures f in Files(runs) <==> exists x :: 0 <= x < |runs| && f in runs[x]
  {
    if runs != [] {
      var n := |runs| - 1;
      FilesAre(runs[..n], f);
      assert forall x :: 0 <= x < n ==> runs[..n][x] == runs[x];
    }
  }

  // two ends for every file, in the order of the files
  ghost predicate EndsOf(files: seq<Range>, ends: seq<Event>) {
    |ends| == 2 * |files|
    && forall k :: 0 <= k < |files| ==> ends[2 * k] == FirstEnd(files[k]) && ends[2 * k + 1] == LastEnd(files[k])
  }

  lemma {:induction false} EndsMore(files: seq<Range>, ends: seq<Event>, r: Range)
    requires EndsOf(files, ends)
    ensures EndsOf(files + [r], ends + [FirstEnd(r), LastEnd(r)])
  {
    var fs, es := files + [r], ends + [FirstEnd(r), LastEnd(r)];
    forall k | 0 <= k < |fs| ensures es[2 * k] == FirstEnd(fs[k]) && es[2 * k + 1] == LastEnd(fs[k]) {
      if k < |files| { assert es[2 * k] == ends[2 * k] && es[2 * k + 1] == ends[2 * k + 1]; }
    }
  }

  method CollectEnds(runs: seq<seq<Range>>) returns (ends: seq<Event>)
    ensures EndsOf(Files(runs), ends)
  {
    ends := [];
    for i := 0 to |runs|
      invariant EndsOf(Files(runs[..i]), ends)
    {
      ghost var before := Files(runs[..i]);
      assert before + runs[i][..0] == before;
      for y := 0 to |runs[i]|
        invariant EndsOf(before + runs[i][..y], ends)
      {
        EndsMore(before + runs[i][..y], ends, runs[i][y]);
        assert before + runs[i][..y] + [runs[i][y]] == before + runs[i][..y + 1];
        ends := ends + [FirstEnd(runs[i][y]), LastEnd(runs[i][y])];
      }
      assert runs[..i + 1][..i] == runs[..i] && runs[i][..|runs[i]|] == runs[i];
    }
    assert runs[..|runs|] == runs;
  }

  // the place of an event in a descending sequence
  method InsertionPoint(out: seq<Event>, e: Event) returns (k: nat)
    requires Descending(out)
    ensures k <= |out|
    ensures forall p :: 0 <= p < k ==> out[p].key >= e.key
    ensures forall p :: k <= p < |out| ==> out[p].key < e.key
  {
    k := 0;
    while k < |out| && out[k].key >= e.key
      invariant k <= |out|
      invariant forall p :: 0 <= p < k ==> out[p].key >= e.key
    {
      k := k + 1;
    }
  }

  lemma {:induction false} InsertSorted(out: seq<Event>, e: Event, k: nat)
    requires Descending(out) && k <= |out|
    requires forall p :: 0 <= p < k ==> out[p].key >= e.key
    requires forall p :: k <= p < |out| ==> out[p].key < e.key
    ensures Descending(out[..k] + [e] + out[k..])
    ensures multiset(out[..k] + [e] + out[k..]) == multiset(out) + multiset{e}
  {
    assert out == out[..k] + out[k..];
  }

  // std::sort by key, greatest first
  method SortDescending(ends: seq<Event>) returns (out: seq<Event>)
    ensures Descending(out) && multiset(out) == multiset(ends)
  {
    out := [];
    for i := 0 to |ends|
      invariant Descending(out) && multiset(out) == multiset(ends[..i])
    {
      var k := InsertionPoint(out, ends[i]);
      InsertSorted(out, ends[i], k);
      assert ends[..i + 1] == ends[..i] + [ends[i]];
      out := out[..k] + [ends[i]] + out[k..];
    }
    assert ends[..|ends|] == ends;
  }

  // ---------- from the sorted ends to their places ----------

  lemma {:induction false} PlaceOf(events: seq<Event>, e: Event) returns (p: nat)
    requires e in multiset(events)
    ensures p < |events| && events[p] == e
  {
    assert e in events;
    p :| p < |events| && events[p] == e;
  }

  lemma {:induction false} PlaceEnds(files: seq<Range>, ends: seq<Event>, events: seq<Event>)
    returns (last: seq<nat>, first: seq<nat>)
    requires EndsOf(files, ends) && Descending(events) && multiset(events) == multiset(ends)
    requires Named(files)
    ensures Placed(files, events, last, first)
  {
    last, first := [], [];
    for i := 0 to |files|
      invariant |last| == i && |first| == i
      invariant forall k :: 0 <= k < i ==> last[k] < |events| && events[last[k]] == LastEnd(files[k])
      invariant forall k :: 0 <= k < i ==> first[k] < |events| && events[first[k]] == FirstEnd(files[k])
    {
      assert ends[2 * i] in multiset(ends) && ends[2 * i + 1] in multiset(ends);
      var p := PlaceOf(events, LastEnd(files[i]));
      var q := PlaceOf(events, FirstEnd(files[i]));
      last, first := last + [p], first + [q];
    }
    forall p | 0 <= p < |events| ensures Owned(files, last, first, p) {
      EveryOwned(files, ends, events, last, first, p);
    }
  }

  lemma {:induction false} TwoPlaces(events: seq<Event>, p: nat, q: nat)
    requires p < q < |events| && events[p] == events[q]
    ensures multiset(events)[events[p]] >= 2
  {
    var e := events[p];
    assert events == events[..q] + [e] + events[q + 1..];
    assert e in events[..q] by { assert events[..q][p] == e; }
    assert multiset(events[..q])[e] >= 1;
  }

  // an end of a file occurs once
  lemma {:induction false} EndOnce(files: seq<Range>, ends: seq<Event>, e: Event, n: nat)
    requires EndsOf(files, ends) && Named(files) && n <= |ends|
    ensures multiset(ends[..n])[e] <= 1
    ensures multiset(ends[..n])[e] == 1 ==> exists m :: 0 <= m < n && ends[m] == e
  {
    if n > 0 {
      EndOnce(files, ends, e, n - 1);
      assert ends[..n] == ends[..n - 1] + [ends[n - 1]];
      if ends[n - 1] == e && multiset(ends[..n - 1])[e] == 1 {
        var m :| 0 <= m < n - 1 && ends[m] == e;
        EndsDiffer(files, ends, m, n - 1);
        assert false;
      }
    }
  }

  lemma {:induction false} EndsDiffer(files: seq<Range>, ends: seq<Event>, m: nat, n: nat)
    requires EndsOf(files, ends) && Named(files) && m < n < |ends|
    ensures ends[m] != ends[n]
  {
    var i, j := m / 2, n / 2;
    assert m == 2 * i || m == 2 * i + 1;
    assert n == 2 * j || n == 2 * j + 1;
    assert ends[2 * i] == FirstEnd(files[i]) && ends[2 * i + 1] == LastEnd(files[i]);
    assert ends[2 * j] == FirstEnd(files[j]) && ends[2 * j + 1] == LastEnd(files[j]);
    assert i < j ==> files[i].path != files[j].path;
  }

  lemma {:induction false} EveryOwned(files: seq<Range>, ends: seq<Event>, events: seq<Event>,
                                      last: seq<nat>, first: seq<nat>, p: nat)
    requires EndsOf(files, ends) && multiset(events) == multiset(ends) && Named(files)
    requires |last| == |files| && |first| == |files| && p < |events|
    requires forall k :: 0 <= k < |files| ==> last[k] < |events| && events[last[k]] == LastEnd(files[k])
    requires forall k :: 0 <= k < |files| ==> first[k] < |events| && events[first[k]] == FirstEnd(files[k])
    ensures Owned(files, last, first, p)
  {
    var e := events[p];
    assert e in multiset(events);
    var m := PlaceOf(ends, e);
    var i := m / 2;
    assert m == 2 * i || m == 2 * i + 1;
    var q := if m == 2 * i then first[i] else last[i];
    assert events[q] == e;
    EndOnce(files, ends, e, |ends|);
    assert ends[..|ends|] == ends;
    if p < q { TwoPlaces(events, p, q); }
    if q < p { TwoPlaces(events, q, p); }
  }

  // The jobs of any order that sorting may give the ends.
  method SweepInOrder(ghost files: seq<Range>, ghost ends: seq<Event>, events: seq<Event>)
    returns (jobs: seq<set<Path>>)
    requires EndsOf(files, ends) && Descending(events) && multiset(events) == multiset(ends)
    ensures Named(files) ==> Partition(jobs, files) && (JobsAreChains(files, jobs) <==> Parted(events))
    ensures Distinct(files) ==> Parted(events)
  {
    ghost var bounds;
    jobs, bounds := Sweep(events);
    if Named(files) {
      var last, first := PlaceEnds(files, ends, events);
      AllBegun(files, events, last, first);
      GroupsPartition(files, events, last, first, jobs, bounds);
      GroupsAreChains(files, events, last, first, jobs, bounds);
      if Distinct(files) { DistinctParted(files, events, last, first); }
    }
  }

  // The jobs are the files of the runs, grouped by chains of overlapping
  // ranges if and only if the sorted ends let no cut fall between equal keys.
  method FindOverlapsInRuns(runs: seq<seq<Range>>) returns (jobs: seq<set<Path>>, ghost events: seq<Event>)
    ensures Descending(events) && exists ends :: EndsOf(Files(runs), ends) && multiset(events) == multiset(ends)
    ensures Named(Files(runs)) ==>
      Partition(jobs, Files(runs)) && (JobsAreChains(Files(runs), jobs) <==> Parted(events))
    ensures Distinct(Files(runs)) ==> Partition(jobs, Files(runs)) && JobsAreChains(Files(runs), jobs)
    ensures Named(Files(runs)) ==>
      forall x, y :: 0 <= x < |runs| && 0 <= y < |runs[x]| ==> InSome(jobs, runs[x][y].path)
  {
    var ends := CollectEnds(runs);
    var sorted := SortDescending(ends);
    jobs := SweepInOrder(Files(runs), ends, sorted);
    events := sorted;
    if Named(Files(runs)) { AllInSome(runs, jobs); }
  }

  // no file of any run is left out
  lemma {:induction false} AllInSome(runs: seq<seq<Range>>, jobs: seq<set<Path>>)
    requires Partition(jobs, Files(runs))
    ensures forall x, y :: 0 <= x < |runs| && 0 <= y < |runs[x]| ==> InSome(jobs, runs[x][y].path)
  {
    forall x, y | 0 <= x < |runs| && 0 <= y < |runs[x]| ensures InSome(jobs, runs[x][y].path) {
      FilesAre(runs, runs[x][y]);
      var i :| 0 <= i < |Files(runs)| && Files(runs)[i] == runs[x][y];
    }
  }
}
