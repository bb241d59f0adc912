/**
 * The bytes of sorted-string tables as the writer of v1/LSM_Engine.hpp lays
 * them out, and that the reader of SsLayout takes them back.
 */
module SsBytes {
  import opened WalCodec
  import opened SsLayout

  // ---------- parts of a file ----------

  ghost predicate Occurs(bytes: seq<byte>, off: nat, part: seq<byte>) {
    off + |part| <= |bytes| && bytes[off..off + |part|] == part
  }

  lemma {:induction false} OccursBoth(bytes: seq<byte>, off: nat, a: seq<byte>, b: seq<byte>)
    requires Occurs(bytes, off, a + b)
    ensures Occurs(bytes, off, a) && Occurs(bytes, off + |a|, b)
  {
    assert bytes[off..off + |a + b|][..|a|] == bytes[off..off + |a|];
    assert bytes[off..off + |a + b|][|a|..] == bytes[off + |a|..off + |a| + |b|];
    assert (a + b)[..|a|] == a && (a + b)[|a|..] == b;
  }

  lemma {:induction false} OccursFour(bytes: seq<byte>, off: nat, a: seq<byte>, b: seq<byte>, c: seq<byte>,
                                      d: seq<byte>)
    requires Occurs(bytes, off, a + b + c + d)
    ensures Occurs(bytes, off, a) && Occurs(bytes, off + |a|, b) && Occurs(bytes, off + |a| + |b|, c)
    ensures Occurs(bytes, off + |a| + |b| + |c|, d)
  {
    OccursBoth(bytes, off, a + b + c, d);
    OccursBoth(bytes, off, a + b, c);
    OccursBoth(bytes, off, a, b);
  }

  lemma {:induction false} OccursFive(bytes: seq<byte>, off: nat, a: seq<byte>, b: seq<byte>, c: seq<byte>,
                                      d: seq<byte>, e: seq<byte>)
    requires Occurs(bytes, off, a + b + c + d + e)
    ensures Occurs(bytes, off, a) && Occurs(bytes, off + |a|, b) && Occurs(bytes, off + |a| + |b|, c)
    ensures Occurs(bytes, off + |a| + |b| + |c|, d) && Occurs(bytes, off + |a| + |b| + |c| + |d|, e)
  {
    OccursBoth(bytes, off, a + b + c + d, e);
    OccursFour(bytes, off, a, b, c, d);
  }

  lemma {:induction false} FieldOccurs(bytes: seq<byte>, off: nat, v: nat)
    requires v < Long && Occurs(bytes, off, BigEndian(v, 8))
    ensures Field(bytes, off, v)
  {
    Widths();
    BigEndianRead(v, 8);
  }

  // ---------- rows ----------

  function RowBytes(r: Record): (b: seq<byte>)
    ensures |b| == RowSize(r)
  {
    [if r.tombstone then 1 else 0] + BigEndian(|r.key|, 8) + BigEndian(|r.value|, 8) + r.key + r.value
  }

  function RowsBytes(rs: seq<Record>): (b: seq<byte>)
    ensures |b| == RowsSize(rs)
  {
    if rs == [] then [] else RowsBytes(rs[..|rs| - 1]) + RowBytes(rs[|rs| - 1])
  }

  ghost predicate Small(rs: seq<Record>) {
    forall r :: r in rs ==> |r.key| < Long && |r.value| < Long
  }

  lemma {:induction false} RowOccurs(bytes: seq<byte>, off: nat, r: Record)
    requires |r.key| < Long && |r.value| < Long && Occurs(bytes, off, RowBytes(r))
    ensures RowIn(bytes, off, r)
  {
    var flag: seq<byte> := [if r.tombstone then 1 else 0];
    var k, v := BigEndian(|r.key|, 8), BigEndian(|r.value|, 8);
    OccursFive(bytes, off, flag, k, v, r.key, r.value);
    FieldOccurs(bytes, off + 1, |r.key|);
    FieldOccurs(bytes, off + 9, |r.value|);
    assert bytes[off] == bytes[off..off + 1][0];
  }

  lemma {:induction false} RowsOccur(bytes: seq<byte>, off: nat, rs: seq<Record>)
    requires Small(rs) && Occurs(bytes, off, RowsBytes(rs))
    ensures RowsIn(bytes, off, rs)
    decreases |rs|
  {
    if rs != [] {
      var n := |rs| - 1;
      OccursBoth(bytes, off, RowsBytes(rs[..n]), RowBytes(rs[n]));
      RowsOccur(bytes, off, rs[..n]);
      RowOccurs(bytes, off + RowsSize(rs[..n]), rs[n]);
      RowsMore(bytes, off, rs[..n], rs[n]);
      assert rs == rs[..n] + [rs[n]];
    }
  }

  // ---------- blocks ----------

  function Longs(vs: seq<nat>): (b: seq<byte>)
    ensures |b| == 8 * |vs|
  {
    if vs == [] then [] else Longs(vs[..|vs| - 1]) + BigEndian(vs[|vs| - 1], 8)
  }

  // where the rows of a block begin, but for the last
  function RowStarts(rs: seq<Record>): (s: seq<nat>)
    ensures |s| == if rs == [] then 0 else |rs| - 1
  {
    if rs == [] then [] else seq(|rs| - 1, i requires 0 <= i < |rs| => RowsSize(rs[..i]))
  }

  function BlockBytes(rs: seq<Record>, id: nat): (b: seq<byte>)
  {
    RowsBytes(rs) + Longs(RowStarts(rs)) + BigEndian(id, 8) + BigEndian(|rs|, 8) + BigEndian(RowsSize(rs), 8)
  }

  // ---------- the blocks of a file behind its header ----------

  function Glue(header: seq<byte>, parts: seq<seq<byte>>): (b: seq<byte>)
    ensures |b| >= |header|
  {
    if parts == [] then header else Glue(header, parts[..|parts| - 1]) + parts[|parts| - 1]
  }

  // where every part begins
  function Starts(header: seq<byte>, parts: seq<seq<byte>>): (s: seq<nat>)
    ensures |s| == |parts|
    ensures forall i :: 0 <= i < |parts| ==> s[i] == |Glue(header, parts[..i])|
  {
    seq(|parts|, i requires 0 <= i < |parts| => |Glue(header, parts[..i])|)
  }

  lemma {:induction false} PrefixOccurs(bytes: seq<byte>, a: seq<byte>, b: seq<byte>)
    requires a + b <= bytes
    ensures Occurs(bytes, |a|, b)
  {
    assert bytes[|a|..|a| + |b|] == bytes[..|a + b|][|a|..];
  }

  lemma {:induction false} GlueMore(header: seq<byte>, parts: seq<seq<byte>>, i: nat)
    requires i < |parts|
    ensures Glue(header, parts[..i + 1]) == Glue(header, parts[..i]) + parts[i]
  {
    assert parts[..i + 1][..i] == parts[..i];
  }

  lemma {:induction false} GluePrefix(header: seq<byte>, parts: seq<seq<byte>>, i: nat)
    requires i <= |parts|
    ensures Glue(header, parts[..i]) <= Glue(header, parts)
    decreases |parts| - i
  {
    if i == |parts| {
      assert parts[..i] == parts;
    } else {
      GlueMore(header, parts, i);
      GluePrefix(header, parts, i + 1);
    }
  }

  // part i lies where it should
  lemma {:induction false} PartPlace(bytes: seq<byte>, header: seq<byte>, parts: seq<seq<byte>>, i: nat)
    requires i < |parts| && Glue(header, parts) <= bytes
    ensures Occurs(bytes, |Glue(header, parts[..i])|, parts[i])
    ensures |Glue(header, parts[..i + 1])| == |Glue(header, parts[..i])| + |parts[i]|
  {
    GlueMore(header, parts, i);
    GluePrefix(header, parts, i + 1);
    PrefixOccurs(bytes, Glue(header, parts[..i]), parts[i]);
  }

  ghost predicate Fine(batches: seq<seq<Record>>) {
    forall i :: 0 <= i < |batches| ==> FineBatch(batches[i])
  }

  ghost predicate FineBatch(rs: seq<Record>) {
    rs != [] && Small(rs) && |rs| < Long && RowsSize(rs) < Long
  }

  // the parts are the blocks of the batches, numbered from base
  ghost predicate AreBlocks(parts: seq<seq<byte>>, batches: seq<seq<Record>>, base: nat) {
    |parts| == |batches|
    && forall i {:trigger IsBlock(parts, batches, base, i)} :: 0 <= i < |parts| ==> IsBlock(parts, batches, base, i)
  }

  ghost predicate IsBlock(parts: seq<seq<byte>>, batches: seq<seq<Record>>, base: nat, i: nat)
    requires i < |parts| == |batches|
  {
    parts[i] == BlockBytes(batches[i], base + i)
  }

  // the parts of a block that the reader needs
  ghost predicate Framed(bytes: seq<byte>, off: nat, end: nat, rs: seq<Record>) {
    off + RowsSize(rs) + 24 <= end <= |bytes| && Occurs(bytes, off, RowsBytes(rs))
    && Occurs(bytes, end - 16, BigEndian(|rs|, 8)) && Occurs(bytes, end - 8, BigEndian(RowsSize(rs), 8))
  }

  lemma {:induction false} BlockParts(bytes: seq<byte>, off: nat, part: seq<byte>, rs: seq<Record>, id: nat)
    requires part == BlockBytes(rs, id) && Occurs(bytes, off, part)
    ensures Framed(bytes, off, off + |part|, rs)
  {
    OccursFive(bytes, off, RowsBytes(rs), Longs(RowStarts(rs)), BigEndian(id, 8), BigEndian(|rs|, 8),
               BigEndian(RowsSize(rs), 8));
  }

  lemma {:induction false} BlockFramed(bytes: seq<byte>, parts: seq<seq<byte>>, batches: seq<seq<Record>>, base: nat,
                                       i: nat, off: nat, part: seq<byte>, rs: seq<Record>)
    requires AreBlocks(parts, batches, base) && i < |parts| && part == parts[i] && rs == batches[i]
    requires Occurs(bytes, off, part)
    ensures Framed(bytes, off, off + |part|, rs)
  {
    assert IsBlock(parts, batches, base, i);
    BlockParts(bytes, off, part, rs, base + i);
  }

  lemma {:induction false} BlockFound(bytes: seq<byte>, off: nat, end: nat, rs: seq<Record>)
    requires FineBatch(rs) && Framed(bytes, off, end, rs)
    ensures BlockIn(bytes, off, end, rs)
  {
    FieldOccurs(bytes, end - 16, |rs|);
    FieldOccurs(bytes, end - 8, RowsSize(rs));
    RowsOccur(bytes, off, rs);
  }

  lemma {:induction false} BlockPlace(bytes: seq<byte>, header: seq<byte>, parts: seq<seq<byte>>,
                                      batches: seq<seq<Record>>, base: nat, i: nat)
    requires Fine(batches) && AreBlocks(parts, batches, base) && Glue(header, parts) <= bytes && i < |parts|
    ensures BlockIn(bytes, |Glue(header, parts[..i])|, |Glue(header, parts[..i + 1])|, batches[i])
  {
    var off, end := |Glue(header, parts[..i])|, |Glue(header, parts[..i + 1])|;
    PartPlace(bytes, header, parts, i);
    BlockFramed(bytes, parts, batches, base, i, off, parts[i], batches[i]);
    BlockFound(bytes, off, end, batches[i]);
  }

  lemma {:induction false} BlocksPlace(bytes: seq<byte>, header: seq<byte>, parts: seq<seq<byte>>,
                                       batches: seq<seq<Record>>, base: nat, bounds: seq<nat>)
    requires Fine(batches) && AreBlocks(parts, batches, base) && Glue(header, parts) <= bytes
    requires bounds == Starts(header, parts) + [|Glue(header, parts)|]
    ensures BlocksIn(bytes, bounds, batches)
  {
    assert parts[..|parts|] == parts;
    forall i | 0 <= i < |batches| ensures BlockIn(bytes, bounds[i], bounds[i + 1], batches[i]) {
      BlockPlace(bytes, header, parts, batches, base, i);
      assert bounds[i + 1] == |Glue(header, parts[..i + 1])|;
    }
  }

  lemma {:induction false} LongsOccur(bytes: seq<byte>, off: nat, vs: seq<nat>)
    requires (forall j :: 0 <= j < |vs| ==> vs[j] < Long) && Occurs(bytes, off, Longs(vs))
    ensures OffsetsIn(bytes, off, vs)
    decreases |vs|
  {
    if vs != [] {
      var n := |vs| - 1;
      OccursBoth(bytes, off, Longs(vs[..n]), BigEndian(vs[n], 8));
      LongsOccur(bytes, off, vs[..n]);
      FieldOccurs(bytes, off + 8 * n, vs[n]);
    }
  }

  // ---------- the sections behind the blocks ----------

  function MetaBytes(offsets: seq<nat>, dataSize: nat, rows: nat): (b: seq<byte>)
    ensures |b| == 8 * |offsets| + 24
  {
    Longs(offsets) + BigEndian(dataSize, 8) + BigEndian(|offsets|, 8) + BigEndian(rows, 8)
  }

  // the first keys of the blocks and where each begins
  function IndexBytes(firstKeys: seq<seq<byte>>, start: nat): seq<byte> {
    var keys := Glue([], firstKeys);
    keys + Longs(Starts([], firstKeys)) + BigEndian(start, 8)
    + BigEndian(start + |keys| + 8 * |firstKeys|, 8) + BigEndian(|firstKeys|, 8)
  }

  // the first and the last key of the table
  function EndsBytes(first: seq<byte>, last: seq<byte>, start: nat): seq<byte> {
    first + last + BigEndian(|first|, 8) + BigEndian(|last|, 8) + BigEndian(start, 8)
  }

  function FilterBytes(filter: seq<byte>, start: nat): seq<byte> {
    filter + BigEndian(|filter|, 8) + BigEndian(start, 8)
  }

  function FooterBytes(a: nat, b: nat, c: nat, d: nat): (r: seq<byte>)
    ensures |r| == 32
  {
    BigEndian(a, 8) + BigEndian(b, 8) + BigEndian(c, 8) + BigEndian(d, 8)
  }

  lemma {:induction false} FooterOccurs(bytes: seq<byte>, off: nat, a: nat, b: nat, c: nat, d: nat)
    requires a < Long && b < Long && Occurs(bytes, off, FooterBytes(a, b, c, d))
    ensures Field(bytes, off, a) && Field(bytes, off + 8, b)
  {
    var x, y, z, w := BigEndian(a, 8), BigEndian(b, 8), BigEndian(c, 8), BigEndian(d, 8);
    OccursFour(bytes, off, x, y, z, w);
    FieldOccurs(bytes, off, a);
    FieldOccurs(bytes, off + 8, b);
  }

  lemma {:induction false} MetaOccurs(bytes: seq<byte>, off: nat, offsets: seq<nat>, dataSize: nat, rows: nat)
    requires (forall j :: 0 <= j < |offsets| ==> offsets[j] < Long) && dataSize < Long && |offsets| < Long
    requires rows < Long
    requires Occurs(bytes, off, MetaBytes(offsets, dataSize, rows))
    ensures OffsetsIn(bytes, off, offsets)
    ensures Field(bytes, off + 8 * |offsets|, dataSize)
    ensures Field(bytes, off + 8 * |offsets| + 8, |offsets|)
    ensures Field(bytes, off + 8 * |offsets| + 16, rows)
  {
    var os, x, y, z := Longs(offsets), BigEndian(dataSize, 8), BigEndian(|offsets|, 8), BigEndian(rows, 8);
    OccursFour(bytes, off, os, x, y, z);
    LongsOccur(bytes, off, offsets);
    FieldOccurs(bytes, off + |os|, dataSize);
    FieldOccurs(bytes, off + |os| + 8, |offsets|);
    FieldOccurs(bytes, off + |os| + 16, rows);
  }

  lemma {:induction false} StartsBound(header: seq<byte>, parts: seq<seq<byte>>)
    ensures forall i :: 0 <= i < |parts| ==> Starts(header, parts)[i] <= |Glue(header, parts)|
  {
    forall i | 0 <= i < |parts| ensures Starts(header, parts)[i] <= |Glue(header, parts)| {
      GluePrefix(header, parts, i);
    }
  }

  // a file of header, blocks, metadata, anything, footer
  ghost predicate LaidWith(bytes: seq<byte>, header: seq<byte>, parts: seq<seq<byte>>, rows: nat,
                           middle: seq<byte>, c: nat, d: nat)
  {
    var data := Glue(header, parts);
    var meta := MetaBytes(Starts(header, parts), |data|, rows);
    bytes == data + meta + middle + FooterBytes(|data|, |data| + |meta|, c, d)
  }

  lemma {:induction false} LaidParts(bytes: seq<byte>, header: seq<byte>, parts: seq<seq<byte>>, rows: nat,
                                     middle: seq<byte>, c: nat, d: nat)
    requires LaidWith(bytes, header, parts, rows, middle, c, d)
    ensures var n, k := |Glue(header, parts)|, 8 * |parts| + 24;
      n + k + 32 <= |bytes| && Occurs(bytes, 0, Glue(header, parts))
      && Occurs(bytes, n, MetaBytes(Starts(header, parts), n, rows))
      && Occurs(bytes, |bytes| - 32, FooterBytes(n, n + k, c, d))
  {
    var data := Glue(header, parts);
    var meta := MetaBytes(Starts(header, parts), |data|, rows);
    var footer := FooterBytes(|data|, |data| + |meta|, c, d);
    assert bytes[0..|bytes|] == bytes;
    OccursFour(bytes, 0, data, meta, middle, footer);
  }

  lemma {:induction false} MetaFound(bytes: seq<byte>, n: nat, offsets: seq<nat>, rows: nat, c: nat, d: nat)
    requires (forall j :: 0 <= j < |offsets| ==> offsets[j] < Long) && rows < Long
    requires var k := 8 * |offsets| + 24;
      n + k + 32 <= |bytes| < Long && Occurs(bytes, n, MetaBytes(offsets, n, rows))
      && Occurs(bytes, |bytes| - 32, FooterBytes(n, n + k, c, d))
    ensures MetaIn(bytes, n, n + 8 * |offsets| + 24, |offsets|, rows) && OffsetsIn(bytes, n, offsets)
  {
    var k := 8 * |offsets|;
    FooterOccurs(bytes, |bytes| - 32, n, n + k + 24, c, d);
    MetaOccurs(bytes, n, offsets, n, rows);
    assert |bytes| - 32 + 8 == |bytes| - 24 && n + k + 24 - 24 == n + k && n + k + 24 - 16 == n + k + 8;
  }

  lemma {:induction false} MetaAndBlocks(bytes: seq<byte>, header: seq<byte>, parts: seq<seq<byte>>, rows: nat,
                                         batches: seq<seq<Record>>, base: nat, n: nat, x: nat)
    requires n == |Glue(header, parts)| && MetaIn(bytes, n, x, |parts|, rows)
    requires OffsetsIn(bytes, n, Starts(header, parts)) && Glue(header, parts) <= bytes
    requires Fine(batches) && AreBlocks(parts, batches, base) && rows == |Concat(batches)|
    ensures TableIn(bytes, batches)
  {
    BlocksPlace(bytes, header, parts, batches, base, Starts(header, parts) + [n]);
    assert TableAt(bytes, n, x, rows, Starts(header, parts), batches);
  }

  // such a file holds its batches
  lemma {:induction false} LaidHolds(bytes: seq<byte>, header: seq<byte>, parts: seq<seq<byte>>, rows: nat,
                                     middle: seq<byte>, c: nat, d: nat, batches: seq<seq<Record>>, base: nat)
    requires LaidWith(bytes, header, parts, rows, middle, c, d) && |bytes| < Long && |parts| < Long && rows < Long
    requires Fine(batches) && AreBlocks(parts, batches, base) && rows == |Concat(batches)|
    ensures TableIn(bytes, batches)
  {
    var n := |Glue(header, parts)|;
    LaidParts(bytes, header, parts, rows, middle, c, d);
    StartsBound(header, parts);
    MetaFound(bytes, n, Starts(header, parts), rows, c, d);
    MetaAndBlocks(bytes, header, parts, rows, batches, base, n, n + 8 * |parts| + 24);
  }

  // where the end keys and the filter begin when the index begins at x
  function EndsStart(x: nat, firstKeys: seq<seq<byte>>): nat { x + |IndexBytes(firstKeys, x)| }

  function FilterStart(x: nat, firstKeys: seq<seq<byte>>, first: seq<byte>, last: seq<byte>): nat {
    EndsStart(x, firstKeys) + |EndsBytes(first, last, EndsStart(x, firstKeys))|
  }

  // index, end keys and filter, each knowing where it begins
  function Sections(x: nat, firstKeys: seq<seq<byte>>, first: seq<byte>, last: seq<byte>,
                    filter: seq<byte>): seq<byte> {
    IndexBytes(firstKeys, x) + EndsBytes(first, last, EndsStart(x, firstKeys))
    + FilterBytes(filter, FilterStart(x, firstKeys, first, last))
  }

  // everything behind the blocks of a finished file whose blocks take n bytes
  function TailBytes(n: nat, offsets: seq<nat>, rows: nat, sections: seq<byte>, c: nat, d: nat): seq<byte> {
    MetaBytes(offsets, n, rows) + sections + FooterBytes(n, n + 8 * |offsets| + 24, c, d)
  }

  lemma {:induction false} Associate<T>(a: seq<T>, b: seq<T>, c: seq<T>, d: seq<T>)
    ensures a + (b + c + d) == a + b + c + d
  {
  }

  lemma {:induction false} TailLaid(header: seq<byte>, parts: seq<seq<byte>>, rows: nat, n: nat,
                                    sections: seq<byte>, c: nat, d: nat)
    requires n == |Glue(header, parts)|
    ensures LaidWith(Glue(header, parts) + TailBytes(n, Starts(header, parts), rows, sections, c, d),
                     header, parts, rows, sections, c, d)
  {
    Associate(Glue(header, parts), MetaBytes(Starts(header, parts), n, rows), sections,
              FooterBytes(n, n + 8 * |parts| + 24, c, d));
  }

  // the filter saved in a file, found through the last field of the footer
  ghost predicate FilterIn(bytes: seq<byte>, filter: seq<byte>) {
    |bytes| >= 8
    && var d := FieldAt(bytes, |bytes| - 8);
      Field(bytes, d, |filter|) && d + 16 <= |bytes| && Occurs(bytes, FieldAt(bytes, d + 8), filter)
  }

  lemma {:induction false} FilterFound(bytes: seq<byte>, off: nat, d: nat, filter: seq<byte>)
    requires |bytes| < Long && d == off + |filter| && Occurs(bytes, off, FilterBytes(filter, off))
    requires |bytes| >= 8 && Occurs(bytes, |bytes| - 8, BigEndian(d, 8))
    ensures FilterIn(bytes, filter)
  {
    OccursBoth(bytes, off, filter + BigEndian(|filter|, 8), BigEndian(off, 8));
    OccursBoth(bytes, off, filter, BigEndian(|filter|, 8));
    FieldOccurs(bytes, d, |filter|);
    FieldOccurs(bytes, d + 8, off);
    FieldOccurs(bytes, |bytes| - 8, d);
  }

  lemma {:induction false} TailParts(bytes: seq<byte>, n: nat, offsets: seq<nat>, rows: nat, sections: seq<byte>,
                                     c: nat, d: nat)
    requires n <= |bytes| && bytes[n..] == TailBytes(n, offsets, rows, sections, c, d)
    ensures Occurs(bytes, n + 8 * |offsets| + 24, sections)
    ensures |bytes| >= 8 && Occurs(bytes, |bytes| - 8, BigEndian(d, 8))
    ensures |bytes| >= 32 && Occurs(bytes, |bytes| - 32, FooterBytes(n, n + 8 * |offsets| + 24, c, d))
  {
    var x := n + 8 * |offsets| + 24;
    var meta, footer := MetaBytes(offsets, n, rows), FooterBytes(n, x, c, d);
    assert Occurs(bytes, n, meta + sections + footer);
    OccursBoth(bytes, n, meta + sections, footer);
    OccursBoth(bytes, n, meta, sections);
    FooterEnd(bytes, |bytes| - 32, n, x, c, d);
  }

  lemma {:induction false} TailFilter(bytes: seq<byte>, n: nat, offsets: seq<nat>, rows: nat, x: nat,
                                      firstKeys: seq<seq<byte>>, first: seq<byte>, last: seq<byte>, filter: seq<byte>,
                                      sections: seq<byte>, c: nat, d: nat)
    requires |bytes| < Long && n <= |bytes| && bytes[n..] == TailBytes(n, offsets, rows, sections, c, d)
    requires x == n + 8 * |offsets| + 24 && sections == Sections(x, firstKeys, first, last, filter)
    requires d == FilterStart(x, firstKeys, first, last) + |filter|
    ensures FilterIn(bytes, filter)
  {
    TailParts(bytes, n, offsets, rows, sections, c, d);
    SectionsFilter(bytes, x, firstKeys, first, last, filter);
    FilterFound(bytes, FilterStart(x, firstKeys, first, last), d, filter);
  }

  lemma {:induction false} SectionsFilter(bytes: seq<byte>, x: nat, firstKeys: seq<seq<byte>>, first: seq<byte>,
                                          last: seq<byte>, filter: seq<byte>)
    requires Occurs(bytes, x, Sections(x, firstKeys, first, last, filter))
    ensures Occurs(bytes, FilterStart(x, firstKeys, first, last),
                   FilterBytes(filter, FilterStart(x, firstKeys, first, last)))
  {
    var index, ends := IndexBytes(firstKeys, x), EndsBytes(first, last, EndsStart(x, firstKeys));
    OccursBoth(bytes, x, index + ends, FilterBytes(filter, FilterStart(x, firstKeys, first, last)));
  }

  lemma {:induction false} FooterEnd(bytes: seq<byte>, off: nat, a: nat, b: nat, c: nat, d: nat)
    requires Occurs(bytes, off, FooterBytes(a, b, c, d))
    ensures Occurs(bytes, off + 24, BigEndian(d, 8))
  {
    OccursFour(bytes, off, BigEndian(a, 8), BigEndian(b, 8), BigEndian(c, 8), BigEndian(d, 8));
  }

  // ---------- writing ----------

  method AppendLongs(bytes: seq<byte>, vs: seq<nat>) returns (res: seq<byte>)
    ensures res == bytes + Longs(vs)
  {
    res := bytes;
    for i := 0 to |vs|
      invariant res == bytes + Longs(vs[..i])
    {
      assert vs[..i + 1][..i] == vs[..i];
      res := AppendBytes(res, vs[i], 8);
    }
    assert vs[..|vs|] == vs;
  }

  method AppendAll(bytes: seq<byte>, parts: seq<seq<byte>>) returns (res: seq<byte>, starts: seq<nat>)
    ensures res == bytes + Glue([], parts) && starts == Starts([], parts)
  {
    res, starts := bytes, [];
    var at := 0;
    for i := 0 to |parts|
      invariant res == bytes + Glue([], parts[..i]) && at == |Glue([], parts[..i])|
      invariant |starts| == i && forall j :: 0 <= j < i ==> starts[j] == |Glue([], parts[..j])|
    {
      GlueMore([], parts, i);
      starts := starts + [at];
      res := res + parts[i];
      at := at + |parts[i]|;
    }
    assert parts[..|parts|] == parts;
  }

  method AppendRow(bytes: seq<byte>, r: Record) returns (res: seq<byte>)
    ensures res == bytes + RowBytes(r)
  {
    var flags: byte := if r.tombstone then 1 else 0;
    res := bytes + [flags];
    res := AppendBytes(res, |r.key|, 8);
    res := AppendBytes(res, |r.value|, 8);
    res := res + r.key;
    res := res + r.value;
  }

  method AppendRows(bytes: seq<byte>, records: seq<Record>)
    returns (res: seq<byte>, rowOffsets: seq<nat>, rowNumber: nat)
    ensures res == bytes + RowsBytes(records) && rowNumber == RowsSize(records) && |rowOffsets| == |records|
    ensures records != [] ==> rowOffsets[..|records| - 1] == RowStarts(records)
  {
    res, rowOffsets, rowNumber := bytes, [], 0;
    for i := 0 to |records|
      invariant res == bytes + RowsBytes(records[..i]) && rowNumber == RowsSize(records[..i])
      invariant |rowOffsets| == i && forall j :: 0 <= j < i ==> rowOffsets[j] == RowsSize(records[..j])
    {
      assert records[..i + 1][..i] == records[..i];
      res := AppendRow(res, records[i]);
      rowOffsets := rowOffsets + [rowNumber];
      rowNumber := rowNumber + RowSize(records[i]);
    }
    assert records[..|records|] == records;
  }

  lemma {:induction false} Joined<T>(x: seq<T>, a: seq<T>, b: seq<T>, c: seq<T>, d: seq<T>, e: seq<T>)
    ensures x + a + b + c + d + e == x + (a + b + c + d + e)
  {
  }

  // rows, their offsets but the last, and three fields
  method ComputeDbBytes(bytes: seq<byte>, records: seq<Record>, id: nat) returns (res: seq<byte>)
    requires records != []
    ensures res == bytes + BlockBytes(records, id)
  {
    var rowOffsets, rowNumber;
    res, rowOffsets, rowNumber := AppendRows(bytes, records);
    res := AppendLongs(res, rowOffsets[..|rowOffsets| - 1]);
    res := AppendBytes(res, id, 8);
    res := AppendBytes(res, |records|, 8);
    res := AppendBytes(res, rowNumber, 8);
    Joined(bytes, RowsBytes(records), Longs(RowStarts(records)), BigEndian(id, 8), BigEndian(|records|, 8),
           BigEndian(RowsSize(records), 8));
  }

  method ComputeIndex(firstKeys: seq<seq<byte>>, start: nat) returns (res: seq<byte>)
    ensures res == IndexBytes(firstKeys, start)
  {
    var keyOffsets;
    res, keyOffsets := AppendAll([], firstKeys);
    assert res == Glue([], firstKeys);
    res := AppendLongs(res, keyOffsets);
    var offsetsStart := start + |res|;
    res := AppendBytes(res, start, 8);
    res := AppendBytes(res, offsetsStart, 8);
    res := AppendBytes(res, |firstKeys|, 8);
  }

  method ComputeMeta(n: nat, offsets: seq<nat>, rows: nat) returns (res: seq<byte>)
    ensures res == MetaBytes(offsets, n, rows)
  {
    res := AppendLongs([], offsets);
    assert res == Longs(offsets);
    res := AppendBytes(res, n, 8);
    res := AppendBytes(res, |offsets|, 8);
    res := AppendBytes(res, rows, 8);
  }

  method ComputeEnds(first: seq<byte>, last: seq<byte>, start: nat) returns (res: seq<byte>)
    ensures res == EndsBytes(first, last, start)
  {
    res := AppendBytes(first + last, |first|, 8);
    res := AppendBytes(res, |last|, 8);
    res := AppendBytes(res, start, 8);
  }

  method ComputeFooter(a: nat, b: nat, c: nat, d: nat) returns (res: seq<byte>)
    ensures res == FooterBytes(a, b, c, d)
  {
    res := AppendBytes([], a, 8);
    res := AppendBytes(res, b, 8);
    res := AppendBytes(res, c, 8);
    res := AppendBytes(res, d, 8);
  }

  method ComputeFilter(filter: seq<byte>, start: nat) returns (res: seq<byte>)
    ensures res == FilterBytes(filter, start)
  {
    res := AppendBytes(filter, |filter|, 8);
    res := AppendBytes(res, start, 8);
  }

  method ComputeSections(x: nat, firstKeys: seq<seq<byte>>, first: seq<byte>, last: seq<byte>, filter: seq<byte>)
    returns (res: seq<byte>, endsStart: nat, filterStart: nat)
    ensures res == Sections(x, firstKeys, first, last, filter)
    ensures endsStart == EndsStart(x, firstKeys) && filterStart == FilterStart(x, firstKeys, first, last)
  {
    var index := ComputeIndex(firstKeys, x);
    endsStart := x + |index|;
    var ends := ComputeEnds(first, last, endsStart);
    filterStart := endsStart + |ends|;
    var saved := ComputeFilter(filter, filterStart);
    SectionsAre(x, firstKeys, first, last, filter, index, endsStart, ends, filterStart, saved);
    res := index + ends + saved;
  }

  lemma {:induction false} SectionsAre(x: nat, firstKeys: seq<seq<byte>>, first: seq<byte>, last: seq<byte>,
                                       filter: seq<byte>, index: seq<byte>, e: nat, ends: seq<byte>, f: nat,
                                       saved: seq<byte>)
    requires index == IndexBytes(firstKeys, x) && e == x + |index| && ends == EndsBytes(first, last, e)
    requires f == e + |ends| && saved == FilterBytes(filter, f)
    ensures index + ends + saved == Sections(x, firstKeys, first, last, filter)
    ensures e == EndsStart(x, firstKeys) && f == FilterStart(x, firstKeys, first, last)
  {
  }

  // metadata, index, end keys, filter and footer
  method ComputeTail(n: nat, offsets: seq<nat>, rows: nat, firstKeys: seq<seq<byte>>, first: seq<byte>, last: seq<byte>,
                     filter: seq<byte>)
    returns (res: seq<byte>, ghost x: nat, ghost sections: seq<byte>, ghost c: nat, ghost d: nat)
    ensures res == TailBytes(n, offsets, rows, sections, c, d) && x == n + 8 * |offsets| + 24
    ensures sections == Sections(x, firstKeys, first, last, filter)
    ensures c == EndsStart(x, firstKeys) && d == FilterStart(x, firstKeys, first, last) + |filter|
  {
    var meta := ComputeMeta(n, offsets, rows);
    var indexStart := n + |meta|;
    var middle, endsStart, filterStart := ComputeSections(indexStart, firstKeys, first, last, filter);
    var footer := ComputeFooter(n, indexStart, endsStart, filterStart + |filter|);
    res := meta + middle + footer;
    x, sections, c, d := indexStart, middle, endsStart, filterStart + |filter|;
    TailIs(n, offsets, rows, meta, middle, endsStart, d, footer);
  }

  lemma {:induction false} TailIs(n: nat, offsets: seq<nat>, rows: nat, meta: seq<byte>, middle: seq<byte>, c: nat,
                                  d: nat, footer: seq<byte>)
    requires meta == MetaBytes(offsets, n, rows) && footer == FooterBytes(n, n + |meta|, c, d)
    ensures meta + middle + footer == TailBytes(n, offsets, rows, middle, c, d) && |meta| == 8 * |offsets| + 24
  {
  }
}
