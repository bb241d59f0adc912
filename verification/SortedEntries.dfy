/** Entries in the order of their keys, and the maps they stand for. */
module SortedEntries {

  /** Values are never inspected by the trees. */
  type Value(==)

  type Entry = (int, Value)

  ghost predicate Sorted(s: seq<Entry>) {
    forall i, j :: 0 <= i < j < |s| ==> s[i].0 < s[j].0
  }

  ghost predicate AllBelow(s: seq<Entry>, k: int) {
    forall i :: 0 <= i < |s| ==> s[i].0 < k
  }

  ghost predicate AllAbove(k: int, s: seq<Entry>) {
    forall i :: 0 <= i < |s| ==> k < s[i].0
  }

  /** A sequence of entries as the map it stands for. */
  ghost function ToMap(s: seq<Entry>): map<int, Value> {
    if s == [] then map[] else map[s[0].0 := s[0].1] + ToMap(s[1..])
  }

  lemma {:induction false} SortedSplit(a: seq<Entry>, b: seq<Entry>)
    requires Sorted(a + b)
    ensures Sorted(a) && Sorted(b)
    ensures forall i, j :: 0 <= i < |a| && 0 <= j < |b| ==> a[i].0 < b[j].0
  {
    var s := a + b;
    assert forall i :: 0 <= i < |a| ==> s[i] == a[i];
    forall i, j | 0 <= i < j < |b| ensures b[i].0 < b[j].0 {
      assert s[|a| + i] == b[i] && s[|a| + j] == b[j];
    }
    forall i, j | 0 <= i < |a| && 0 <= j < |b| ensures a[i].0 < b[j].0 {
      assert s[i] == a[i] && s[|a| + j] == b[j];
    }
  }

  lemma {:induction false} SortedAround(a: seq<Entry>, e: Entry, b: seq<Entry>)
    requires Sorted(a + [e] + b)
    ensures AllBelow(a, e.0) && AllAbove(e.0, b) && Sorted(a + b)
  {
    SortedSplit(a + [e], b);
    SortedSplit(a, [e]);
    var s := a + [e] + b;
    assert forall i :: 0 <= i < |b| ==> b[i] == s[|a| + 1 + i];
    assert s[|a|] == e;
  }

  lemma {:induction false} SortedJoin(a: seq<Entry>, b: seq<Entry>)
    requires Sorted(a) && Sorted(b)
    requires forall i, j :: 0 <= i < |a| && 0 <= j < |b| ==> a[i].0 < b[j].0
    ensures Sorted(a + b)
  {
  }

  lemma {:induction false} ToMapJoin(a: seq<Entry>, b: seq<Entry>)
    ensures ToMap(a + b) == ToMap(a) + ToMap(b)
    decreases |a|
  {
    if a == [] {
      assert a + b == b;
    } else {
      assert (a + b)[1..] == a[1..] + b;
      ToMapJoin(a[1..], b);
    }
  }

  /** The keys of the map are the keys of the entries. */
  lemma {:induction false} InMap(s: seq<Entry>, k: int)
    ensures k in ToMap(s) <==> exists i :: 0 <= i < |s| && s[i].0 == k
  {
    if s != [] {
      var r := s[1..];
      InMap(r, k);
      if k in ToMap(r) {
        var i :| 0 <= i < |r| && r[i].0 == k;
        assert s[i + 1].0 == k;
      }
      if i :| 0 < i < |s| && s[i].0 == k {
        assert r[i - 1].0 == k;
      }
    }
  }

  lemma {:induction false} MapInsert(a: map<int, Value>, k: int, v: Value, b: map<int, Value>)
    requires k !in b
    ensures a + map[k := v] + b == (a + b)[k := v]
  {
  }

  lemma {:induction false} NotInMap(s: seq<Entry>, k: int)
    requires AllBelow(s, k) || AllAbove(k, s)
    ensures k !in ToMap(s)
  {
    InMap(s, k);
  }

  lemma {:induction false} MapAround(a: seq<Entry>, k: int, v: Value, b: seq<Entry>)
    requires AllBelow(a, k) && AllAbove(k, b)
    ensures ToMap(a + [(k, v)] + b) == ToMap(a + b)[k := v]
    ensures k !in ToMap(a + b)
  {
    calc {
      ToMap(a + [(k, v)] + b);
      { ToMapJoin(a + [(k, v)], b); ToMapJoin(a, [(k, v)]); }
      ToMap(a) + ToMap([(k, v)]) + ToMap(b);
      ToMap(a) + map[k := v] + ToMap(b);
      { NotInMap(b, k); MapInsert(ToMap(a), k, v, ToMap(b)); }
      (ToMap(a) + ToMap(b))[k := v];
      { ToMapJoin(a, b); }
      ToMap(a + b)[k := v];
    }
    NotInMap(a, k);
    NotInMap(b, k);
    ToMapJoin(a, b);
  }

  /** A new key put in its place. */
  lemma {:induction false} PutNew(a: seq<Entry>, k: int, v: Value, b: seq<Entry>)
    requires Sorted(a + b) && AllBelow(a, k) && AllAbove(k, b)
    ensures Sorted(a + [(k, v)] + b)
    ensures k !in ToMap(a + b)
    ensures ToMap(a + [(k, v)] + b) == ToMap(a + b)[k := v]
  {
    SortedSplit(a, b);
    SortedJoin(a, [(k, v)]);
    SortedJoin(a + [(k, v)], b);
    MapAround(a, k, v, b);
  }

  /** An old key with another value. */
  lemma {:induction false} PutOld(a: seq<Entry>, k: int, v: Value, w: Value, b: seq<Entry>)
    requires Sorted(a + [(k, v)] + b)
    ensures Sorted(a + [(k, w)] + b)
    ensures k in ToMap(a + [(k, v)] + b)
    ensures ToMap(a + [(k, w)] + b) == ToMap(a + [(k, v)] + b)[k := w]
  {
    SortedAround(a, (k, v), b);
    PutNew(a, k, v, b);
    PutNew(a, k, w, b);
  }

  /** A key taken out. */
  lemma {:induction false} TakeOut(a: seq<Entry>, k: int, v: Value, b: seq<Entry>)
    requires Sorted(a + [(k, v)] + b)
    ensures Sorted(a + b)
    ensures k in ToMap(a + [(k, v)] + b)
    ensures ToMap(a + b) == ToMap(a + [(k, v)] + b) - {k}
  {
    SortedAround(a, (k, v), b);
    PutNew(a, k, v, b);
  }

  lemma {:induction false} AllBelowJoin(a: seq<Entry>, b: seq<Entry>, k: int)
    requires AllBelow(a, k) && AllBelow(b, k)
    ensures AllBelow(a + b, k)
  {
  }

  lemma {:induction false} AllAboveJoin(a: seq<Entry>, b: seq<Entry>, k: int)
    requires AllAbove(k, a) && AllAbove(k, b)
    ensures AllAbove(k, a + b)
  {
  }
}
