/**
 * What stands where in a finished table file (v1/LSM_Engine.hpp), stated on
 * its bytes alone: header, rows, index, end keys, and the places of all of
 * them, found through the footer.
 */
module SsIndex {
  import opened WalCodec
  import opened WalBytes
  import opened SsLayout
  import opened SsBytes

  // every number in a file has eight bytes, the most significant first
  lemma {:induction false} FieldIs(bytes: seq<byte>, off: nat)
    requires off + 8 <= |bytes|
    ensures FieldAt(bytes, off) == Big8(bytes, off)
  {
    Big8Is(bytes[off..off + 8]);
  }

  // the four places in the footer
  function BlocksEnd(file: seq<byte>): nat
    requires |file| >= 32
  {
    FieldAt(file, |file| - 32)
  }

  function IndexAt(file: seq<byte>): nat
    requires |file| >= 32
  {
    FieldAt(file, |file| - 24)
  }

  function EndKeysAt(file: seq<byte>): nat
    requires |file| >= 32
  {
    FieldAt(file, |file| - 16)
  }

  function FilterNotes(file: seq<byte>): nat
    requires |file| >= 32
  {
    FieldAt(file, |file| - 8)
  }

  // ---------- the index ----------

  // The index lies between its place and that of the end keys: n keys one
  // behind the other, where each begins, and behind them where keys and
  // beginnings start, and n.
  ghost predicate Indexed(file: seq<byte>, n: nat) {
    |file| >= 32 && EndKeysAt(file) <= |file|
    && IndexAt(file) + 8 * n + 24 <= EndKeysAt(file)
    && FieldAt(file, EndKeysAt(file) - 24) == IndexAt(file)
    && FieldAt(file, EndKeysAt(file) - 16) == EndKeysAt(file) - 24
    && FieldAt(file, EndKeysAt(file) - 8) == n
    && forall i :: 0 <= i < n ==> Ordered(file, n, i)
  }

  ghost predicate Ordered(file: seq<byte>, n: nat, i: nat)
    requires |file| >= 32 && 8 * n + 24 <= EndKeysAt(file) <= |file| && i < n
  {
    KeyStart(file, n, i) <= KeyStart(file, n, i + 1)
  }

  // where key i begins, or for i == n where the keys end
  function KeyStart(file: seq<byte>, n: nat, i: nat): nat
    requires |file| >= 32 && 8 * n + 24 <= EndKeysAt(file) <= |file| && i <= n
  {
    Beginning(file, IndexAt(file), EndKeysAt(file) - 24 - 8 * n, n, i)
  }

  function Beginning(file: seq<byte>, at: nat, end: nat, n: nat, i: nat): nat
    requires end + 8 * n <= |file| && i <= n
  {
    if i < n then at + FieldAt(file, end + 8 * i) else end
  }

  lemma {:induction false} StartsRise(file: seq<byte>, n: nat, i: nat)
    requires Indexed(file, n) && i <= n
    ensures KeyStart(file, n, i) <= EndKeysAt(file) - 24 - 8 * n
    decreases n - i
  {
    if i < n {
      assert Ordered(file, n, i);
      StartsRise(file, n, i + 1);
    }
  }

  // key i of the index
  ghost function IndexKey(file: seq<byte>, n: nat, i: nat): seq<byte>
    requires Indexed(file, n) && i < n
  {
    StartsRise(file, n, i + 1);
    assert Ordered(file, n, i);
    file[KeyStart(file, n, i)..KeyStart(file, n, i + 1)]
  }

  // ---------- the end keys ----------

  // Both keys stand one behind the other at their place; behind them their
  // sizes and that place, up to where the filter begins.
  ghost predicate Ends(file: seq<byte>, first: seq<byte>, last: seq<byte>) {
    |file| >= 32 && FilterNotes(file) + 16 <= |file|
    && var at, end := EndKeysAt(file), FieldAt(file, FilterNotes(file) + 8);
      at + |first| + |last| + 24 == end <= |file|
      && file[at..at + |first|] == first && file[at + |first|..at + |first| + |last|] == last
      && FieldAt(file, end - 24) == |first| && FieldAt(file, end - 16) == |last| && FieldAt(file, end - 8) == at
  }

  // ---------- header and rows ----------

  ghost predicate Headed(file: seq<byte>, id: nat, path: seq<byte>, identity: seq<byte>, timestamp: nat) {
    |file| >= 272 && FieldAt(file, 0) == id && file[8..136] == path && file[136..264] == identity
    && FieldAt(file, 264) == timestamp
  }

  // ---------- the bytes have them ----------

  lemma {:induction false} Eight(bytes: seq<byte>, off: nat, v: nat)
    requires v < Long && Occurs(bytes, off, BigEndian(v, 8))
    ensures off + 8 <= |bytes| && FieldAt(bytes, off) == v
  {
    FieldOccurs(bytes, off, v);
  }

  lemma {:induction false} FooterIs(bytes: seq<byte>, a: nat, b: nat, c: nat, d: nat)
    requires |bytes| >= 32 && Occurs(bytes, |bytes| - 32, FooterBytes(a, b, c, d))
    requires a < Long && b < Long && c < Long && d < Long
    ensures BlocksEnd(bytes) == a && IndexAt(bytes) == b && EndKeysAt(bytes) == c && FilterNotes(bytes) == d
  {
    var at := |bytes| - 32;
    OccursFour(bytes, at, BigEndian(a, 8), BigEndian(b, 8), BigEndian(c, 8), BigEndian(d, 8));
    Eight(bytes, at, a);
    Eight(bytes, at + 8, b);
    Eight(bytes, at + 16, c);
    Eight(bytes, at + 24, d);
  }

  // the keys from x on, where each begins from o on, and three fields before e
  ghost predicate IndexPlaced(bytes: seq<byte>, x: nat, o: nat, e: nat, keys: seq<seq<byte>>) {
    o == x + |Glue([], keys)| && e == o + 8 * |keys| + 24 <= |bytes|
    && Occurs(bytes, x, Glue([], keys)) && Occurs(bytes, o, Longs(Starts([], keys)))
    && FieldAt(bytes, e - 24) == x && FieldAt(bytes, e - 16) == e - 24 && FieldAt(bytes, e - 8) == |keys|
  }

  lemma {:induction false} IndexSplit(keys: seq<seq<byte>>, x: nat, ks: seq<byte>, y: nat)
    requires ks == Glue([], keys) && y == x + |ks| + 8 * |keys|
    ensures IndexBytes(keys, x) == FiveParts(ks, Longs(Starts([], keys)), x, y, |keys|)
    ensures |IndexBytes(keys, x)| == y + 24 - x
  {
    FiveLong(ks, Longs(Starts([], keys)), x, y, |keys|);
  }

  function FiveParts(a: seq<byte>, b: seq<byte>, u: nat, v: nat, w: nat): seq<byte> {
    a + b + BigEndian(u, 8) + BigEndian(v, 8) + BigEndian(w, 8)
  }

  lemma {:induction false} FiveLong(a: seq<byte>, b: seq<byte>, u: nat, v: nat, w: nat)
    ensures |FiveParts(a, b, u, v, w)| == |a| + |b| + 24
  {
  }

  lemma {:induction false} IndexParts(bytes: seq<byte>, x: nat, o: nat, keys: seq<seq<byte>>)
    requires |bytes| < Long && Occurs(bytes, x, IndexBytes(keys, x)) && o == x + |Glue([], keys)|
    ensures IndexPlaced(bytes, x, o, x + |IndexBytes(keys, x)|, keys)
  {
    var y := o + 8 * |keys|;
    IndexSplit(keys, x, Glue([], keys), y);
    OccursFive(bytes, x, Glue([], keys), Longs(Starts([], keys)), BigEndian(x, 8), BigEndian(y, 8),
               BigEndian(|keys|, 8));
    Eight(bytes, y, x);
    Eight(bytes, y + 8, y);
    Eight(bytes, y + 16, |keys|);
  }

  // key i lies behind those before it
  lemma {:induction false} KeyPlace(bytes: seq<byte>, x: nat, keys: seq<seq<byte>>, i: nat)
    requires Occurs(bytes, x, Glue([], keys)) && i < |keys|
    ensures |Glue([], keys[..i])| + |keys[i]| == |Glue([], keys[..i + 1])| <= |Glue([], keys)|
    ensures Occurs(bytes, x + |Glue([], keys[..i])|, keys[i])
  {
    var ks := Glue([], keys);
    PartPlace(ks, [], keys, i);
    GluePrefix([], keys, i + 1);
    PartOfPart(bytes, x, ks, |Glue([], keys[..i])|, keys[i]);
  }

  lemma {:induction false} PartOfPart(bytes: seq<byte>, x: nat, a: seq<byte>, at: nat, b: seq<byte>)
    requires Occurs(bytes, x, a) && Occurs(a, at, b)
    ensures Occurs(bytes, x + at, b)
  {
    var p := x + at;
    assert bytes[x..x + |a|][at..at + |b|] == bytes[p..p + |b|];
  }

  lemma {:induction false} StartIs(bytes: seq<byte>, o: nat, keys: seq<seq<byte>>, i: nat)
    requires |bytes| < Long && Occurs(bytes, o, Longs(Starts([], keys))) && i < |keys| && |Glue([], keys)| < Long
    ensures o + 8 * i + 8 <= |bytes| && FieldAt(bytes, o + 8 * i) == |Glue([], keys[..i])|
  {
    StartsBound([], keys);
    LongsOccur(bytes, o, Starts([], keys));
  }

  lemma {:induction false} StartAndEnd(bytes: seq<byte>, x: nat, o: nat, e: nat, keys: seq<seq<byte>>, i: nat)
    requires |bytes| < Long && IndexPlaced(bytes, x, o, e, keys) && i < |keys|
    ensures Beginning(bytes, x, o, |keys|, i) <= Beginning(bytes, x, o, |keys|, i + 1) <= |bytes|
    ensures bytes[Beginning(bytes, x, o, |keys|, i)..Beginning(bytes, x, o, |keys|, i + 1)] == keys[i]
  {
    KeyPlace(bytes, x, keys, i);
    StartIs(bytes, o, keys, i);
    if i + 1 < |keys| { StartIs(bytes, o, keys, i + 1); } else { assert keys[..i + 1] == keys; }
  }

  ghost predicate KeyThere(file: seq<byte>, n: nat, i: nat, key: seq<byte>)
    requires |file| >= 32 && 8 * n + 24 <= EndKeysAt(file) <= |file| && i < n
  {
    Ordered(file, n, i) && KeyStart(file, n, i + 1) <= |file|
    && file[KeyStart(file, n, i)..KeyStart(file, n, i + 1)] == key
  }

  lemma {:induction false} KeyIsThere(bytes: seq<byte>, x: nat, o: nat, e: nat, keys: seq<seq<byte>>, i: nat)
    requires 32 <= |bytes| < Long && IndexPlaced(bytes, x, o, e, keys) && i < |keys|
    requires IndexAt(bytes) == x && EndKeysAt(bytes) == e
    ensures KeyThere(bytes, |keys|, i, keys[i])
  {
    StartAndEnd(bytes, x, o, e, keys, i);
  }

  lemma {:induction false} IndexOrdered(bytes: seq<byte>, x: nat, o: nat, e: nat, keys: seq<seq<byte>>)
    requires 32 <= |bytes| < Long && IndexPlaced(bytes, x, o, e, keys)
    requires IndexAt(bytes) == x && EndKeysAt(bytes) == e
    ensures Indexed(bytes, |keys|)
  {
    forall i | 0 <= i < |keys| ensures Ordered(bytes, |keys|, i) { KeyIsThere(bytes, x, o, e, keys, i); }
  }

  // the keys, found through a footer that has their place
  lemma {:induction false} IndexFound(bytes: seq<byte>, x: nat, keys: seq<seq<byte>>)
    requires 32 <= |bytes| < Long && Occurs(bytes, x, IndexBytes(keys, x))
    requires IndexAt(bytes) == x && EndKeysAt(bytes) == x + |IndexBytes(keys, x)|
    ensures Indexed(bytes, |keys|)
    ensures forall i :: 0 <= i < |keys| ==> IndexKey(bytes, |keys|, i) == keys[i]
  {
    var n, o, e := |keys|, x + |Glue([], keys)|, EndKeysAt(bytes);
    IndexParts(bytes, x, o, keys);
    IndexOrdered(bytes, x, o, e, keys);
    forall i | 0 <= i < n ensures IndexKey(bytes, n, i) == keys[i] { OneKey(bytes, x, o, e, keys, i); }
  }

  lemma {:induction false} OneKey(bytes: seq<byte>, x: nat, o: nat, e: nat, keys: seq<seq<byte>>, i: nat)
    requires 32 <= |bytes| < Long && IndexPlaced(bytes, x, o, e, keys) && i < |keys|
    requires IndexAt(bytes) == x && EndKeysAt(bytes) == e && Indexed(bytes, |keys|)
    ensures IndexKey(bytes, |keys|, i) == keys[i]
  {
    KeyIsThere(bytes, x, o, e, keys, i);
  }

  lemma {:induction false} EndsFound(bytes: seq<byte>, e: nat, end: nat, first: seq<byte>, last: seq<byte>)
    requires 32 <= |bytes| < Long && Occurs(bytes, e, EndsBytes(first, last, e)) && EndKeysAt(bytes) == e
    requires end == e + |first| + |last| + 24
    requires FilterNotes(bytes) + 16 <= |bytes| && FieldAt(bytes, FilterNotes(bytes) + 8) == end
    ensures Ends(bytes, first, last)
  {
    OccursFive(bytes, e, first, last, BigEndian(|first|, 8), BigEndian(|last|, 8), BigEndian(e, 8));
    Eight(bytes, end - 24, |first|);
    Eight(bytes, end - 16, |last|);
    Eight(bytes, end - 8, e);
  }

  // the three sections, each with the place it notes
  ghost predicate Sectioned(bytes: seq<byte>, x: nat, e: nat, f: nat, keys: seq<seq<byte>>, first: seq<byte>,
                            last: seq<byte>, filter: seq<byte>)
  {
    e == x + |IndexBytes(keys, x)| && f == e + |first| + |last| + 24 && f + |filter| + 16 <= |bytes|
    && Occurs(bytes, x, IndexBytes(keys, x)) && Occurs(bytes, e, EndsBytes(first, last, e))
    && FieldAt(bytes, f + |filter| + 8) == f
  }

  lemma {:induction false} SectionsPlaced(bytes: seq<byte>, x: nat, keys: seq<seq<byte>>, first: seq<byte>,
                                          last: seq<byte>, filter: seq<byte>, e: nat, f: nat)
    requires |bytes| < Long && Occurs(bytes, x, Sections(x, keys, first, last, filter))
    requires e == EndsStart(x, keys) && f == FilterStart(x, keys, first, last)
    ensures Sectioned(bytes, x, e, f, keys, first, last, filter)
  {
    var index, ends := IndexBytes(keys, x), EndsBytes(first, last, e);
    OccursBoth(bytes, x, index + ends, FilterBytes(filter, f));
    OccursBoth(bytes, x, index, ends);
    FilterPlaced(bytes, f, filter);
  }

  lemma {:induction false} FilterPlaced(bytes: seq<byte>, f: nat, filter: seq<byte>)
    requires |bytes| < Long && Occurs(bytes, f, FilterBytes(filter, f))
    ensures f + |filter| + 16 <= |bytes| && FieldAt(bytes, f + |filter| + 8) == f
  {
    OccursBoth(bytes, f, filter + BigEndian(|filter|, 8), BigEndian(f, 8));
    Eight(bytes, f + |filter| + 8, f);
  }

  // a footer that has their places leads to index and end keys
  lemma {:induction false} SectionsFound(bytes: seq<byte>, n: nat, x: nat, e: nat, f: nat, keys: seq<seq<byte>>,
                                         first: seq<byte>, last: seq<byte>, filter: seq<byte>, d: nat)
    requires 32 <= |bytes| < Long && n <= x && Sectioned(bytes, x, e, f, keys, first, last, filter)
    requires d == f + |filter| && Occurs(bytes, |bytes| - 32, FooterBytes(n, x, e, d))
    ensures Keyed(bytes, keys, first, last)
  {
    FooterIs(bytes, n, x, e, d);
    KeyedSo(bytes, x, e, f, keys, first, last, filter);
  }

  lemma {:induction false} KeyedSo(bytes: seq<byte>, x: nat, e: nat, f: nat, keys: seq<seq<byte>>, first: seq<byte>,
                                   last: seq<byte>, filter: seq<byte>)
    requires 32 <= |bytes| < Long && Sectioned(bytes, x, e, f, keys, first, last, filter)
    requires IndexAt(bytes) == x && EndKeysAt(bytes) == e && FilterNotes(bytes) == f + |filter|
    ensures Keyed(bytes, keys, first, last)
  {
    IndexFound(bytes, x, keys);
    EndsFound(bytes, e, f, first, last);
  }

  // the keys in index and end keys
  ghost predicate Keyed(file: seq<byte>, keys: seq<seq<byte>>, first: seq<byte>, last: seq<byte>) {
    Indexed(file, |keys|) && Ends(file, first, last)
    && forall i :: 0 <= i < |keys| ==> IndexKey(file, |keys|, i) == keys[i]
  }

  lemma {:induction false} TailKeyed(bytes: seq<byte>, n: nat, offsets: seq<nat>, rows: nat, x: nat,
                                     keys: seq<seq<byte>>, first: seq<byte>, last: seq<byte>, filter: seq<byte>,
                                     sections: seq<byte>, c: nat, d: nat)
    requires |bytes| < Long && n <= |bytes| && bytes[n..] == TailBytes(n, offsets, rows, sections, c, d)
    requires x == n + 8 * |offsets| + 24 && sections == Sections(x, keys, first, last, filter)
    requires c == EndsStart(x, keys) && d == FilterStart(x, keys, first, last) + |filter|
    ensures Keyed(bytes, keys, first, last)
  {
    TailParts(bytes, n, offsets, rows, sections, c, d);
    var f := FilterStart(x, keys, first, last);
    SectionsPlaced(bytes, x, keys, first, last, filter, c, f);
    SectionsFound(bytes, n, x, c, f, keys, first, last, filter, d);
  }

  // ---------- what else a block notes ----------

  // before the end of a block stand its number, its rows and their size, and
  // before these where each row but the last begins
  ghost predicate Noted(bytes: seq<byte>, end: nat, rs: seq<Record>, id: nat) {
    rs != [] && 8 * |rs| + 16 <= end <= |bytes| && FieldAt(bytes, end - 24) == id
    && forall j :: 0 <= j < |rs| - 1 ==> RowNoted(bytes, end, rs, j)
  }

  ghost predicate RowNoted(bytes: seq<byte>, end: nat, rs: seq<Record>, j: nat)
    requires 8 * |rs| + 16 <= end <= |bytes| && j + 1 < |rs|
  {
    FieldAt(bytes, end - 16 - 8 * |rs| + 8 * j) == RowsSize(rs[..j])
  }

  lemma {:induction false} BlockNotes(bytes: seq<byte>, off: nat, end: nat, part: seq<byte>, rs: seq<Record>, id: nat)
    requires part == BlockBytes(rs, id) && Occurs(bytes, off, part) && |bytes| < Long && id < Long && rs != []
    requires end == off + |part|
    ensures Noted(bytes, end, rs, id)
  {
    var at := off + RowsSize(rs);
    BlockEnd(bytes, off, rs, id, at, end);
    RowsNoted(bytes, at, end, rs);
  }

  lemma {:induction false} RowsNoted(bytes: seq<byte>, at: nat, end: nat, rs: seq<Record>)
    requires rs != [] && RowsSize(rs) < Long && Occurs(bytes, at, Longs(RowStarts(rs)))
    requires end == at + 8 * (|rs| - 1) + 24 <= |bytes|
    ensures Noted(bytes, end, rs, FieldAt(bytes, end - 24))
  {
    forall j | 0 <= j < |rs| - 1 ensures RowNoted(bytes, end, rs, j) { RowIsNoted(bytes, at, end, rs, j); }
  }

  lemma {:induction false} RowIsNoted(bytes: seq<byte>, at: nat, end: nat, rs: seq<Record>, j: nat)
    requires RowsSize(rs) < Long && Occurs(bytes, at, Longs(RowStarts(rs))) && j + 1 < |rs|
    requires end == at + 8 * (|rs| - 1) + 24 <= |bytes|
    ensures RowNoted(bytes, end, rs, j)
  {
    RowStartIs(bytes, at, rs, j);
    assert end - 16 - 8 * |rs| == at;
  }

  lemma {:induction false} BlockEnd(bytes: seq<byte>, off: nat, rs: seq<Record>, id: nat, at: nat, end: nat)
    requires Occurs(bytes, off, BlockBytes(rs, id)) && id < Long && rs != []
    requires at == off + RowsSize(rs) && end == off + |BlockBytes(rs, id)|
    ensures end == at + 8 * (|rs| - 1) + 24 <= |bytes|
    ensures Occurs(bytes, at, Longs(RowStarts(rs))) && FieldAt(bytes, end - 24) == id
  {
    OccursFive(bytes, off, RowsBytes(rs), Longs(RowStarts(rs)), BigEndian(id, 8), BigEndian(|rs|, 8),
               BigEndian(RowsSize(rs), 8));
    Eight(bytes, end - 24, id);
  }

  lemma {:induction false} RowStartIs(bytes: seq<byte>, at: nat, rs: seq<Record>, j: nat)
    requires rs != [] && RowsSize(rs) < Long && Occurs(bytes, at, Longs(RowStarts(rs))) && j + 1 < |rs|
    ensures at + 8 * j + 8 <= |bytes| && FieldAt(bytes, at + 8 * j) == RowsSize(rs[..j])
  {
    var starts := RowStarts(rs);
    forall i | 0 <= i < |starts| ensures starts[i] < Long { SizesAdd(rs, i); }
    LongsOccur(bytes, at, starts);
    assert Field(bytes, at + 8 * j, starts[j]);
  }

  // where block i of n ends: where the next one begins, or where all end
  ghost predicate EndNoted(file: seq<byte>, n: nat, i: nat) {
    |file| >= 32 && (i + 1 < n ==> BlocksEnd(file) + 8 * (i + 1) + 8 <= |file|)
  }

  function BlockEndAt(file: seq<byte>, n: nat, i: nat): nat
    requires |file| >= 32 && (i + 1 < n ==> BlocksEnd(file) + 8 * (i + 1) + 8 <= |file|)
  {
    if i + 1 < n then FieldAt(file, BlocksEnd(file) + 8 * (i + 1)) else BlocksEnd(file)
  }

  // the notes of block i of n
  ghost predicate NotedIn(file: seq<byte>, n: nat, i: nat, rs: seq<Record>, id: nat) {
    EndNoted(file, n, i) && Noted(file, BlockEndAt(file, n, i), rs, id)
  }

  lemma {:induction false} LaidEnd(bytes: seq<byte>, header: seq<byte>, parts: seq<seq<byte>>, rows: nat,
                                   middle: seq<byte>, c: nat, d: nat, i: nat)
    requires LaidWith(bytes, header, parts, rows, middle, c, d) && |bytes| < Long && rows < Long && i < |parts|
    ensures EndNoted(bytes, |parts|, i) && Glue(header, parts) <= bytes
    ensures BlockEndAt(bytes, |parts|, i) == |Glue(header, parts[..i + 1])|
  {
    var n := |Glue(header, parts)|;
    LaidParts(bytes, header, parts, rows, middle, c, d);
    StartsBound(header, parts);
    MetaFound(bytes, n, Starts(header, parts), rows, c, d);
    EndIs(bytes, n, Starts(header, parts), i);
    assert i + 1 == |parts| ==> parts[..i + 1] == parts;
  }

  lemma {:induction false} EndIs(bytes: seq<byte>, n: nat, offsets: seq<nat>, i: nat)
    requires |bytes| >= 32 && Field(bytes, |bytes| - 32, n) && OffsetsIn(bytes, n, offsets) && i < |offsets|
    ensures EndNoted(bytes, |offsets|, i)
    ensures BlockEndAt(bytes, |offsets|, i) == if i + 1 < |offsets| then offsets[i + 1] else n
  {
    if i + 1 < |offsets| { assert Field(bytes, n + 8 * (i + 1), offsets[i + 1]); }
  }

  lemma {:induction false} BatchNotes(bytes: seq<byte>, header: seq<byte>, parts: seq<seq<byte>>, i: nat,
                                      rs: seq<Record>, id: nat, end: nat)
    requires Glue(header, parts) <= bytes && |bytes| < Long && i < |parts| && end == |Glue(header, parts[..i + 1])|
    requires parts[i] == BlockBytes(rs, id) && id < Long && rs != []
    ensures Noted(bytes, end, rs, id)
  {
    var part := parts[i];
    var off := PartBefore(bytes, header, parts, i, part, end);
    BlockNotes(bytes, off, end, part, rs, id);
  }

  lemma {:induction false} PartBefore(bytes: seq<byte>, header: seq<byte>, parts: seq<seq<byte>>, i: nat,
                                      part: seq<byte>, end: nat) returns (off: nat)
    requires Glue(header, parts) <= bytes && i < |parts| && part == parts[i] && end == |Glue(header, parts[..i + 1])|
    ensures Occurs(bytes, off, part) && end == off + |part|
  {
    PartPlace(bytes, header, parts, i);
    off := |Glue(header, parts[..i])|;
  }

  // a byte that is odd for a tombstone, both sizes, key and value
  ghost predicate RowThere(file: seq<byte>, at: nat, r: Record) {
    at + 17 + |r.key| + |r.value| <= |file|
    && (file[at] % 2 == 1 <==> r.tombstone) && FieldAt(file, at + 1) == |r.key| && FieldAt(file, at + 9) == |r.value|
    && file[at + 17..at + 17 + |r.key|] == r.key
    && file[at + 17 + |r.key|..at + 17 + |r.key| + |r.value|] == r.value
  }

  ghost predicate Stands(file: seq<byte>, rs: seq<Record>, start: nat, j: nat)
    requires j < |rs|
  {
    RowThere(file, start + RowsSize(rs[..j]), rs[j])
  }

  // a record stands where its block begins and the records before it end
  lemma {:induction false} RowStands(file: seq<byte>, batches: seq<seq<Record>>, b: nat, j: nat)
    requires TableIn(file, batches) && b < |batches| && j < |batches[b]|
    ensures |file| >= 32 && BlocksEnd(file) + 8 * b + 8 <= |file|
    ensures Stands(file, batches[b], FieldAt(file, BlocksEnd(file) + 8 * b), j)
  {
    var at, end := BlockStands(file, batches, b);
    RowPlaces(file, at, end, batches[b], j);
  }

  lemma {:induction false} BlockStands(file: seq<byte>, batches: seq<seq<Record>>, b: nat) returns (at: nat, end: nat)
    requires TableIn(file, batches) && b < |batches|
    ensures |file| >= 32 && BlocksEnd(file) + 8 * b + 8 <= |file| && at == FieldAt(file, BlocksEnd(file) + 8 * b)
    ensures BlockIn(file, at, end, batches[b])
  {
    var m, x, rows, offsets :| TableAt(file, m, x, rows, offsets, batches);
    at, end := BlockStandsAt(file, m, x, rows, offsets, batches, b);
  }

  lemma {:induction false} BlockStandsAt(file: seq<byte>, m: nat, x: nat, rows: nat, offsets: seq<nat>,
                                         batches: seq<seq<Record>>, b: nat) returns (at: nat, end: nat)
    requires TableAt(file, m, x, rows, offsets, batches) && b < |batches|
    ensures |file| >= 32 && BlocksEnd(file) + 8 * b + 8 <= |file| && at == FieldAt(file, BlocksEnd(file) + 8 * b)
    ensures BlockIn(file, at, end, batches[b])
  {
    var bounds := offsets + [m];
    at, end := bounds[b], bounds[b + 1];
    assert BlocksEnd(file) == m && Field(file, m + 8 * b, offsets[b]);
    assert BlockIn(file, bounds[b], bounds[b + 1], batches[b]);
  }

  lemma {:induction false} RowPlaces(file: seq<byte>, start: nat, end: nat, rs: seq<Record>, j: nat)
    requires BlockIn(file, start, end, rs) && j < |rs|
    ensures Stands(file, rs, start, j)
  {
    assert RowAt(file, start, rs, j);
    RowIsThere(file, start + RowsSize(rs[..j]), rs[j]);
  }

  lemma {:induction false} RowIsThere(file: seq<byte>, at: nat, r: Record)
    requires RowIn(file, at, r)
    ensures RowThere(file, at, r)
  {
  }

  // ---------- looking a key up ----------

  // the order of keys: byte by byte, a beginning before the whole
  predicate Below(a: seq<byte>, b: seq<byte>) {
    b != [] && (a == [] || a[0] < b[0] || (a[0] == b[0] && Below(a[1..], b[1..])))
  }

  lemma {:induction false} NotBelowItself(a: seq<byte>)
    ensures !Below(a, a)
  {
    if a != [] { NotBelowItself(a[1..]); }
  }

  lemma {:induction false} BelowBelow(a: seq<byte>, b: seq<byte>, c: seq<byte>)
    requires Below(a, b) && Below(b, c)
    ensures Below(a, c)
  {
    if a != [] && a[0] == b[0] == c[0] { BelowBelow(a[1..], b[1..], c[1..]); }
  }

  // keys ascend over the whole file
  ghost predicate Ascends(batches: seq<seq<Record>>) {
    (forall i :: 0 <= i < |batches| ==> batches[i] != [])
    && forall a, p, b, q ::
         0 <= a <= b < |batches| && 0 <= p < |batches[a]| && 0 <= q < |batches[b]| && (a < b || p < q) ==>
         Below(batches[a][p].key, batches[b][q].key)
  }

  // the index has the first key of every block
  ghost predicate FirstsIn(file: seq<byte>, batches: seq<seq<Record>>) {
    Indexed(file, |batches|)
    && forall i :: 0 <= i < |batches| ==> batches[i] != [] && IndexKey(file, |batches|, i) == batches[i][0].key
  }

  // the index has the first key of every block, and the end keys are those of
  // the first and the last record of the file
  ghost predicate KeysIn(file: seq<byte>, batches: seq<seq<Record>>) {
    FirstsIn(file, batches) && batches != []
    && var last := batches[|batches| - 1];
      last != [] && Ends(file, batches[0][0].key, last[|last| - 1].key)
  }

  // The last entry of the index that is not above a key names the only block
  // that can hold the key; below the first entry no block holds it.
  lemma {:induction false} Lookup(file: seq<byte>, batches: seq<seq<Record>>, k: seq<byte>, i: int, b: nat, j: nat)
    requires FirstsIn(file, batches) && Ascends(batches) && -1 <= i < |batches|
    requires i >= 0 ==> !Below(k, IndexKey(file, |batches|, i))
    requires i + 1 < |batches| ==> Below(k, IndexKey(file, |batches|, i + 1))
    requires b < |batches| && j < |batches[b]| && batches[b][j].key == k
    ensures b == i
  {
    if b > i {
      NotBelowItself(k);
      if b > i + 1 || j > 0 { BelowBelow(k, batches[i + 1][0].key, k); }
    }
  }
}
