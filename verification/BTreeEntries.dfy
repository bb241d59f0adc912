/** What a search in a node of the B-tree knows of the entries around it. */
module BTreeEntries {
  import opened SortedEntries
  import opened BTreeShape

  lemma {:induction false} LeadLast(ks: seq<int>, vs: seq<Value>, kids: seq<Tree>)
    requires |ks| == |vs| == |kids| && ks != []
    ensures var l := Lead(ks, vs, kids); l != [] && l[|l| - 1] == (ks[|ks| - 1], vs[|ks| - 1])
    decreases |ks|
  {
    if |ks| > 1 {
      LeadLast(ks[1..], vs[1..], kids[1..]);
    }
  }

  /** In a sorted node, the keys decide on which side of a search key its entries lie. */
  lemma {:induction false} SearchBounds(t: Tree, i: nat, k: int)
    requires t.Node? && Aligned(t) && i < |t.kids| && Sorted(Flat(t))
    requires i > 0 ==> t.keys[i - 1] < k
    requires i < |t.keys| ==> k < t.keys[i]
    ensures AllBelow(Lead(t.keys[..i], t.values[..i], t.kids[..i]), k)
    ensures AllAbove(k, Runs(t.keys[i..], t.values[i..], t.kids[i + 1..]))
    ensures Sorted(Flat(t.kids[i]))
  {
    var l := Lead(t.keys[..i], t.values[..i], t.kids[..i]);
    var r := Runs(t.keys[i..], t.values[i..], t.kids[i + 1..]);
    var c := Enter(Top, t, i);
    FillEnter(Top, t, i);
    FlatFill(c, t.kids[i]);
    SortedSplit(l + Flat(t.kids[i]), r);
    SortedSplit(l, Flat(t.kids[i]));
    if i > 0 {
      LeadLast(t.keys[..i], t.values[..i], t.kids[..i]);
    }
    if i < |t.keys| {
      assert r[0] == (t.keys[i], t.values[i]);
    }
  }

  /** The keys of a node whose entries are sorted are sorted. */
  lemma {:induction false} KeysSorted(t: Tree, i: nat, j: nat)
    requires t.Node? && Aligned(t) && Sorted(Flat(t)) && i < j < |t.keys|
    ensures t.keys[i] < t.keys[j]
    decreases j - i
  {
    SearchParts(t, j);
    LeadLast(t.keys[..j], t.values[..j], t.kids[..j]);
    if i + 1 < j {
      KeysSorted(t, i, j - 1);
    }
  }

  lemma {:induction false} SearchParts(t: Tree, j: nat)
    requires t.Node? && Aligned(t) && Sorted(Flat(t)) && j < |t.keys|
    ensures var l := Lead(t.keys[..j], t.values[..j], t.kids[..j]); AllBelow(l, t.keys[j])
  {
    var l := Lead(t.keys[..j], t.values[..j], t.kids[..j]);
    var r := Runs(t.keys[j..], t.values[j..], t.kids[j + 1..]);
    var c := Enter(Top, t, j);
    FillEnter(Top, t, j);
    FlatFill(c, t.kids[j]);
    SortedSplit(l + Flat(t.kids[j]), r);
    assert r[0] == (t.keys[j], t.values[j]);
    assert forall i :: 0 <= i < |l| ==> l[i] == (l + Flat(t.kids[j]))[i];
  }
}
