/**
 * The writer of sorted-string tables (v1/LSM_Engine.hpp).  Every batch is one
 * data block; a file is finished once it has the rows it should.
 */
module SsTables {
  import opened WalCodec
  import opened SsLayout
  import opened SsBytes
  import opened SsIndex
  import opened BloomFilters
  import opened Options

  // the fixed character arrays of a header
  type Label = s: seq<byte> | |s| == 128 witness seq(128, i => 0)

  // an int counts from 0 to below this
  const IntMax: nat := 0x8000_0000

  function TableHeader(id: nat, path: Label, identity: Label, timestamp: nat): (h: seq<byte>)
    ensures |h| == 272
  {
    BigEndian(id, 8) + path + identity + BigEndian(timestamp, 8)
  }

  function FirstKey(rs: seq<Record>): seq<byte> { if rs == [] then [] else rs[0].key }

  function LastKey(rs: seq<Record>): seq<byte> { if rs == [] then [] else rs[|rs| - 1].key }

  function FirstKeys(batches: seq<seq<Record>>): (ks: seq<seq<byte>>)
    ensures |ks| == |batches| && forall i :: 0 <= i < |batches| ==> ks[i] == FirstKey(batches[i])
  {
    seq(|batches|, i requires 0 <= i < |batches| => FirstKey(batches[i]))
  }

  // ---------- what a file is made of ----------

  // the header of a file, its batches, and the number of its first block
  datatype Draft = Draft(header: seq<byte>, batches: seq<seq<Record>>, base: nat)

  function Blocks(batches: seq<seq<Record>>, base: nat): (parts: seq<seq<byte>>)
    ensures |parts| == |batches|
  {
    seq(|batches|, i requires 0 <= i < |batches| => BlockBytes(batches[i], base + i))
  }

  lemma {:induction false} AreItsBlocks(batches: seq<seq<Record>>, base: nat)
    ensures AreBlocks(Blocks(batches, base), batches, base)
  {
    forall i | 0 <= i < |batches| ensures IsBlock(Blocks(batches, base), batches, base, i) { }
  }

  lemma {:induction false} BlocksMore(batches: seq<seq<Record>>, base: nat, rs: seq<Record>, id: nat, block: seq<byte>)
    requires id == base + |batches| && block == BlockBytes(rs, id)
    ensures Blocks(batches + [rs], base) == Blocks(batches, base) + [block]
  {
  }

  // one part more
  lemma {:induction false} GlueAppend(header: seq<byte>, parts: seq<seq<byte>>, part: seq<byte>)
    ensures Glue(header, parts + [part]) == Glue(header, parts) + part
    ensures Starts(header, parts + [part]) == Starts(header, parts) + [|Glue(header, parts)|]
  {
    var more := parts + [part];
    var a, b := Starts(header, more), Starts(header, parts) + [|Glue(header, parts)|];
    assert more[..|parts|] == parts;
    forall i | 0 <= i < |more| ensures a[i] == b[i] {
      assert more[..i] == parts[..i];
    }
  }

  function Data(d: Draft): seq<byte> { Glue(d.header, Blocks(d.batches, d.base)) }

  // where the index of the finished file begins
  function IndexStart(d: Draft): nat { |Data(d)| + 8 * |d.batches| + 24 }

  // index, end keys and filter, and where the last two begin
  function Middle(d: Draft, stored: seq<byte>): seq<byte>
    requires d.batches != []
  {
    Sections(IndexStart(d), FirstKeys(d.batches), FirstKey(d.batches[0]), LastKey(d.batches[|d.batches| - 1]), stored)
  }

  function EndsAt(d: Draft): nat { EndsStart(IndexStart(d), FirstKeys(d.batches)) }

  function FilterAt(d: Draft): nat
    requires d.batches != []
  {
    FilterStart(IndexStart(d), FirstKeys(d.batches), FirstKey(d.batches[0]), LastKey(d.batches[|d.batches| - 1]))
  }

  // what lies between counts and footer, and the footer's last two places
  datatype Rest = Rest(sections: seq<byte>, ends: nat, filterEnd: nat)

  function RestOf(d: Draft, stored: seq<byte>): Rest
    requires d.batches != []
  {
    Rest(Middle(d, stored), EndsAt(d), FilterAt(d) + |stored|)
  }

  // header and blocks, then offsets, counts, the rest and the footer
  function Sealed(d: Draft, r: Rest): seq<byte> {
    Data(d) + TailBytes(|Data(d)|, Starts(d.header, Blocks(d.batches, d.base)), |Concat(d.batches)|,
                        r.sections, r.ends, r.filterEnd)
  }

  // Every byte of the finished file: header, blocks, and behind them offsets
  // and counts, first keys, end keys, the filter, and the footer.
  function FileOf(d: Draft, stored: seq<byte>): seq<byte>
    requires d.batches != []
  {
    Sealed(d, RestOf(d, stored))
  }

  // ---------- how long it is ----------

  // a row counter of type int holds the size of a block
  ghost predicate Fits(records: seq<Record>) {
    RowsSize(records) < IntMax
  }

  lemma {:induction false} SizeBounds(rs: seq<Record>)
    ensures 17 * |rs| <= RowsSize(rs)
    ensures forall r :: r in rs ==> RowSize(r) <= RowsSize(rs)
    decreases |rs|
  {
    if rs != [] {
      var n := |rs| - 1;
      SizeBounds(rs[..n]);
      assert rs == rs[..n] + [rs[n]];
    }
  }

  lemma {:induction false} FitsFine(rs: seq<Record>)
    requires Fits(rs) && rs != []
    ensures FineBatch(rs) && |FirstKey(rs)| < RowsSize(rs) && |LastKey(rs)| < RowsSize(rs)
  {
    SizeBounds(rs);
    assert rs[0] in rs && rs[|rs| - 1] in rs;
  }

  // The int counters have not run out: the block number still fits, and so
  // does the size of every batch.
  ghost predicate DraftOk(d: Draft) {
    |d.header| == 272 && d.batches != [] && d.base + |d.batches| <= IntMax && Sound(d.batches)
  }

  ghost predicate Sound(batches: seq<seq<Record>>) {
    forall i :: 0 <= i < |batches| ==> batches[i] != [] && Fits(batches[i])
  }

  // a batch takes this much at most: rows, row offsets, block trailer, and
  // what offsets and index note about it
  const Share: nat := 3 * IntMax + 32

  function BlockSize(rs: seq<Record>): nat {
    RowsSize(rs) + 8 * |RowStarts(rs)| + 24
  }

  lemma {:induction false} BlockLength(rs: seq<Record>, id: nat)
    ensures |BlockBytes(rs, id)| == BlockSize(rs)
  {
  }

  // header, blocks
  function DataSize(batches: seq<seq<Record>>): nat {
    if batches == [] then 272 else DataSize(batches[..|batches| - 1]) + BlockSize(batches[|batches| - 1])
  }

  function KeysSize(batches: seq<seq<Record>>): nat {
    if batches == [] then 0 else KeysSize(batches[..|batches| - 1]) + |FirstKey(batches[|batches| - 1])|
  }

  lemma {:induction false} DataLength(header: seq<byte>, batches: seq<seq<Record>>, base: nat)
    requires |header| == 272
    ensures |Glue(header, Blocks(batches, base))| == DataSize(batches)
    decreases |batches|
  {
    if batches != [] {
      var n := |batches| - 1;
      DataLength(header, batches[..n], base);
      assert batches == batches[..n] + [batches[n]];
      BlockAdds(header, batches[..n], base, batches[n]);
    }
  }

  lemma {:induction false} BlockAdds(header: seq<byte>, batches: seq<seq<Record>>, base: nat, rs: seq<Record>)
    ensures |Glue(header, Blocks(batches + [rs], base))| == |Glue(header, Blocks(batches, base))| + BlockSize(rs)
  {
    var id := base + |batches|;
    BlocksMore(batches, base, rs, id, BlockBytes(rs, id));
    BlockLength(rs, id);
    GlueAppend(header, Blocks(batches, base), BlockBytes(rs, id));
  }

  lemma {:induction false} KeysLength(batches: seq<seq<Record>>)
    ensures |Glue([], FirstKeys(batches))| == KeysSize(batches)
    decreases |batches|
  {
    if batches != [] {
      var n := |batches| - 1;
      KeysLength(batches[..n]);
      assert FirstKeys(batches)[..n] == FirstKeys(batches[..n]);
    }
  }

  // the length of the finished file, from the sizes of what is given
  function FileSize(batches: seq<seq<Record>>, filterSize: nat): nat
    requires batches != []
  {
    DataSize(batches) + KeysSize(batches) + 16 * |batches| + |FirstKey(batches[0])|
    + |LastKey(batches[|batches| - 1])| + filterSize + 120
  }

  lemma {:induction false} FileLength(d: Draft, stored: seq<byte>)
    requires |d.header| == 272 && d.batches != []
    ensures |FileOf(d, stored)| == FileSize(d.batches, |stored|)
  {
    var keys, x := FirstKeys(d.batches), IndexStart(d);
    DataLength(d.header, d.batches, d.base);
    KeysLength(d.batches);
    IndexLength(keys, x);
    TailLength(|Data(d)|, Starts(d.header, Blocks(d.batches, d.base)), |Concat(d.batches)|, x, keys,
               FirstKey(d.batches[0]), LastKey(d.batches[|d.batches| - 1]), stored);
  }

  lemma {:induction false} IndexLength(keys: seq<seq<byte>>, x: nat)
    ensures |IndexBytes(keys, x)| == |Glue([], keys)| + 8 * |keys| + 24
  {
  }

  lemma {:induction false} TailLength(n: nat, offsets: seq<nat>, rows: nat, x: nat, keys: seq<seq<byte>>,
                                      first: seq<byte>, last: seq<byte>, stored: seq<byte>)
    ensures var c, d := EndsStart(x, keys), FilterStart(x, keys, first, last) + |stored|;
      |TailBytes(n, offsets, rows, Sections(x, keys, first, last, stored), c, d)|
      == 8 * |offsets| + 24 + |IndexBytes(keys, x)| + |first| + |last| + 24 + |stored| + 16 + 32
  {
    var e, f := EndsStart(x, keys), FilterStart(x, keys, first, last);
    assert |EndsBytes(first, last, e)| == |first| + |last| + 24;
    assert |FilterBytes(stored, f)| == |stored| + 16;
  }

  lemma {:induction false} ShareOf(rs: seq<Record>)
    requires rs != [] && Fits(rs)
    ensures BlockSize(rs) + |FirstKey(rs)| + 16 <= Share && BlockSize(rs) > |rs|
  {
    SizeBounds(rs);
    FitsFine(rs);
  }

  lemma {:induction false} SharesOf(batches: seq<seq<Record>>)
    requires Sound(batches)
    ensures DataSize(batches) + KeysSize(batches) + 16 * |batches| <= 272 + |batches| * Share
    ensures |Concat(batches)| <= DataSize(batches)
    decreases |batches|
  {
    if batches != [] {
      var n := |batches| - 1;
      SharesOf(batches[..n]);
      ShareOf(batches[n]);
      OneShareMore(n);
    }
  }

  lemma {:induction false} OneShareMore(n: nat)
    ensures (n + 1) * Share == n * Share + Share
  {
  }

  lemma {:induction false} SharesFit(n: nat)
    requires n <= IntMax
    ensures n * Share <= 0xC000_0010_0000_0000 && 0xC000_0010_0000_0000 + 3 * IntMax + 392 < Long
  {
  }

  // no file outgrows its own offset fields
  lemma {:induction false} FileFits(d: Draft, stored: seq<byte>)
    requires DraftOk(d) && |stored| < IntMax
    ensures |FileOf(d, stored)| == FileSize(d.batches, |stored|) < Long && |Concat(d.batches)| < Long
  {
    FileLength(d, stored);
    SharesOf(d.batches);
    FitsFine(d.batches[0]);
    FitsFine(d.batches[|d.batches| - 1]);
    SharesFit(|d.batches|);
  }

  // a finished file holds its batches
  lemma {:induction false} FileHolds(d: Draft, stored: seq<byte>)
    requires DraftOk(d) && |stored| < IntMax
    ensures TableIn(FileOf(d, stored), d.batches) && FilterIn(FileOf(d, stored), stored)
  {
    FileFits(d, stored);
    SealedTable(d, RestOf(d, stored));
    SealedFilter(d, stored, RestOf(d, stored));
  }

  lemma {:induction false} SealedTable(d: Draft, r: Rest)
    requires Sound(d.batches) && |Sealed(d, r)| < Long && |Concat(d.batches)| < Long && |d.batches| < Long
    ensures TableIn(Sealed(d, r), d.batches)
  {
    var parts, rows := Blocks(d.batches, d.base), |Concat(d.batches)|;
    TailLaid(d.header, parts, rows, |Data(d)|, r.sections, r.ends, r.filterEnd);
    AllFine(d.batches);
    AreItsBlocks(d.batches, d.base);
    LaidHolds(Sealed(d, r), d.header, parts, rows, r.sections, r.ends, r.filterEnd, d.batches, d.base);
  }

  lemma {:induction false} AllFine(batches: seq<seq<Record>>)
    requires Sound(batches)
    ensures Fine(batches)
  {
    forall i | 0 <= i < |batches| ensures FineBatch(batches[i]) { FitsFine(batches[i]); }
  }

  lemma {:induction false} SealedFilter(d: Draft, stored: seq<byte>, r: Rest)
    requires d.batches != [] && r == RestOf(d, stored) && |Sealed(d, r)| < Long
    ensures FilterIn(Sealed(d, r), stored)
  {
    var n, offsets, rows := |Data(d)|, Starts(d.header, Blocks(d.batches, d.base)), |Concat(d.batches)|;
    Behind(Data(d), TailBytes(n, offsets, rows, r.sections, r.ends, r.filterEnd));
    TailFilter(Sealed(d, r), n, offsets, rows, IndexStart(d), FirstKeys(d.batches), FirstKey(d.batches[0]),
               LastKey(d.batches[|d.batches| - 1]), stored, r.sections, r.ends, r.filterEnd);
  }

  // what footer, index and end keys of a finished file say
  lemma {:induction false} FileIndexed(d: Draft, stored: seq<byte>)
    requires DraftOk(d) && |stored| < IntMax
    ensures KeysIn(FileOf(d, stored), d.batches)
  {
    FileFits(d, stored);
    SealedIndex(d, stored, RestOf(d, stored), FileOf(d, stored));
  }

  lemma {:induction false} SealedIndex(d: Draft, stored: seq<byte>, r: Rest, file: seq<byte>)
    requires d.batches != [] && Sound(d.batches) && r == RestOf(d, stored) && file == Sealed(d, r) && |file| < Long
    ensures KeysIn(file, d.batches)
  {
    var n, offsets, rows := |Data(d)|, Starts(d.header, Blocks(d.batches, d.base)), |Concat(d.batches)|;
    Behind(Data(d), TailBytes(n, offsets, rows, r.sections, r.ends, r.filterEnd));
    TailKeyed(file, n, offsets, rows, IndexStart(d), FirstKeys(d.batches), FirstKey(d.batches[0]),
              LastKey(d.batches[|d.batches| - 1]), stored, r.sections, r.ends, r.filterEnd);
  }

  // What block i notes about itself: its number counts on from the first
  // block of the file.  Where it ends the footer and the offsets tell.
  lemma {:induction false} FileNotes(d: Draft, stored: seq<byte>, i: nat)
    requires DraftOk(d) && |stored| < IntMax && i < |d.batches|
    ensures NotedIn(FileOf(d, stored), |d.batches|, i, d.batches[i], d.base + i)
  {
    FileFits(d, stored);
    BatchNoted(d, RestOf(d, stored), i);
  }

  lemma {:induction false} BatchNoted(d: Draft, r: Rest, i: nat)
    requires DraftOk(d) && i < |d.batches| && |Sealed(d, r)| < Long && |Concat(d.batches)| < Long
    ensures NotedIn(Sealed(d, r), |d.batches|, i, d.batches[i], d.base + i)
  {
    var rs, id := d.batches[i], d.base + i;
    BlockOf(d.batches, d.base, i);
    SealedNotes(d, r, i, rs, id);
  }

  lemma {:induction false} SealedNotes(d: Draft, r: Rest, i: nat, rs: seq<Record>, id: nat)
    requires i < |d.batches| && |Sealed(d, r)| < Long && |Concat(d.batches)| < Long
    requires Blocks(d.batches, d.base)[i] == BlockBytes(rs, id) && id < Long && rs != []
    ensures NotedIn(Sealed(d, r), |d.batches|, i, rs, id)
  {
    SealedLaid(d, r);
    LaidEnd(Sealed(d, r), d.header, Blocks(d.batches, d.base), |Concat(d.batches)|, r.sections, r.ends, r.filterEnd, i);
    BatchNotes(Sealed(d, r), d.header, Blocks(d.batches, d.base), i, rs, id,
               BlockEndAt(Sealed(d, r), |d.batches|, i));
  }

  lemma {:induction false} BlockOf(batches: seq<seq<Record>>, base: nat, i: nat)
    requires i < |batches|
    ensures Blocks(batches, base)[i] == BlockBytes(batches[i], base + i)
  {
  }

  lemma {:induction false} SealedLaid(d: Draft, r: Rest)
    ensures LaidWith(Sealed(d, r), d.header, Blocks(d.batches, d.base), |Concat(d.batches)|, r.sections, r.ends,
                     r.filterEnd)
  {
    TailLaid(d.header, Blocks(d.batches, d.base), |Concat(d.batches)|, |Data(d)|, r.sections, r.ends, r.filterEnd);
  }

  // the header of the file
  lemma {:induction false} FileHeaded(d: Draft, stored: seq<byte>, id: nat, path: Label, identity: Label,
                                      timestamp: nat)
    requires d.batches != [] && id < Long && timestamp < Long && d.header == TableHeader(id, path, identity, timestamp)
    ensures Headed(FileOf(d, stored), id, path, identity, timestamp)
  {
    var file, parts := FileOf(d, stored), Blocks(d.batches, d.base);
    GluePrefix(d.header, parts, 0);
    assert parts[..0] == [];
    assert d.header <= file;
    HeaderStands(file, d.header, id, path, identity, timestamp);
  }

  lemma {:induction false} HeaderStands(file: seq<byte>, header: seq<byte>, id: nat, path: Label, identity: Label,
                                        timestamp: nat)
    requires id < Long && timestamp < Long && header == TableHeader(id, path, identity, timestamp) && header <= file
    ensures Headed(file, id, path, identity, timestamp)
  {
    assert file[0..272] == header;
    OccursFour(file, 0, BigEndian(id, 8), path, identity, BigEndian(timestamp, 8));
    Eight(file, 0, id);
    Eight(file, 264, timestamp);
  }

  lemma {:induction false} Behind(a: seq<byte>, b: seq<byte>)
    ensures (a + b)[|a|..] == b
  {
  }

  // ---------- the filter of a file ----------

  // the slots of all keys
  ghost function KeySlots(records: seq<Record>, f: BloomFilter): set<nat>
    requires f.bits.Length > 0
  {
    set i, s | 0 <= i < |records| && s in f.Slots(records[i].key) :: s
  }

  ghost function Marked(batches: seq<seq<Record>>, f: BloomFilter): set<nat>
    requires f.bits.Length > 0
  {
    if batches == [] then {} else Marked(batches[..|batches| - 1], f) + KeySlots(batches[|batches| - 1], f)
  }

  // a byte for every slot, 1 for those of the keys
  ghost function FilterOf(batches: seq<seq<Record>>, f: BloomFilter): seq<byte>
    requires f.bits.Length > 0
  {
    seq(f.bits.Length, j requires 0 <= j < f.bits.Length => if j in Marked(batches, f) then 1 else 0)
  }

  // it lets every key of the file pass
  lemma {:induction false} FilterPasses(batches: seq<seq<Record>>, f: BloomFilter, i: nat, j: nat)
    requires f.bits.Length > 0 && i < |batches| && j < |batches[i]|
    ensures Passes(FilterOf(batches, f), f.Slots(batches[i][j].key))
  {
    forall s | s in f.Slots(batches[i][j].key) ensures s in Marked(batches, f) { SlotMarked(batches, f, i, j, s); }
  }

  lemma {:induction false} SlotMarked(batches: seq<seq<Record>>, f: BloomFilter, i: nat, j: nat, s: nat)
    requires f.bits.Length > 0 && i < |batches| && j < |batches[i]| && s in f.Slots(batches[i][j].key)
    ensures s in Marked(batches, f)
    decreases |batches|
  {
    var n := |batches| - 1;
    if i < n { SlotMarked(batches[..n], f, i, j, s); }
  }

  // ---------- the engine's writer ----------

  // the file being filled and what is noted about it
  datatype OpenTable = OpenTable(bytes: seq<byte>, offsets: seq<nat>, firstKeys: seq<seq<byte>>, rows: nat)

  function Opened(d: Draft): OpenTable {
    OpenTable(Data(d), Starts(d.header, Blocks(d.batches, d.base)), FirstKeys(d.batches), |Concat(d.batches)|)
  }

  function Longer(t: OpenTable, rs: seq<Record>, block: seq<byte>): OpenTable {
    OpenTable(t.bytes + block, t.offsets + [|t.bytes|], t.firstKeys + [FirstKey(rs)], t.rows + |rs|)
  }

  function More(d: Draft, rs: seq<Record>): Draft { d.(batches := d.batches + [rs]) }

  lemma {:induction false} OpenedMore(d: Draft, rs: seq<Record>, id: nat, block: seq<byte>)
    requires id == d.base + |d.batches| && block == BlockBytes(rs, id)
    ensures Opened(More(d, rs)) == Longer(Opened(d), rs, block)
  {
    BlocksMore(d.batches, d.base, rs, id, block);
    GlueAppend(d.header, Blocks(d.batches, d.base), block);
    ConcatMore(d.batches, rs);
    FirstKeysMore(d.batches, rs);
  }

  lemma {:induction false} FirstKeysMore(batches: seq<seq<Record>>, rs: seq<Record>)
    ensures FirstKeys(batches + [rs]) == FirstKeys(batches) + [FirstKey(rs)]
  {
  }

  lemma {:induction false} OpenedFirst(header: seq<byte>, rs: seq<Record>, base: nat)
    ensures Opened(Draft(header, [rs], base))
         == OpenTable(header + BlockBytes(rs, base), [|header|], [FirstKey(rs)], |rs|)
  {
    OpenedMore(Draft(header, [], base), rs, base, BlockBytes(rs, base));
    assert [] + [rs] == [rs];
  }

  // a table is done at the second batch or later, once it has the rows
  ghost predicate Full(batches: seq<seq<Record>>, rowLimit: nat) {
    |batches| >= 2 && |Concat(batches)| >= rowLimit
  }

  // what was written: the open file, those finished, and the next numbers
  datatype Shelf = Shelf(open: Option<Draft>, tables: seq<Draft>, nextBlock: nat, nextTable: nat)

  // what one batch makes of it
  ghost function Appended(s: Shelf, rs: seq<Record>, path: Label, identity: Label, timestamp: nat,
                          rowLimit: nat): Shelf {
    if s.open.None? then
      var d := Draft(TableHeader(s.nextTable, path, identity, timestamp), [rs], s.nextBlock);
      Shelf(Some(d), s.tables, s.nextBlock + 1, s.nextTable + 1)
    else
      var d := More(s.open.value, rs);
      if Full(d.batches, rowLimit) then Shelf(None, s.tables + [d], s.nextBlock + 1, s.nextTable)
      else Shelf(Some(d), s.tables, s.nextBlock + 1, s.nextTable)
  }

  // what every run of batches keeps
  ghost predicate ShelfOk(s: Shelf, rowLimit: nat) {
    s.nextBlock <= IntMax
    && (s.open.Some? ==>
          DraftOk(s.open.value) && !Full(s.open.value.batches, rowLimit)
          && s.open.value.base + |s.open.value.batches| == s.nextBlock)
    && forall i :: 0 <= i < |s.tables| ==> DraftOk(s.tables[i]) && FirstFull(s.tables[i].batches, rowLimit)
  }

  // a table is cut off by the first batch that fills it
  ghost predicate FirstFull(batches: seq<seq<Record>>, rowLimit: nat) {
    Full(batches, rowLimit) && !Full(batches[..|batches| - 1], rowLimit)
  }

  lemma {:induction false} StaysOk(s: Shelf, rs: seq<Record>, path: Label, identity: Label, timestamp: nat,
                                   rowLimit: nat)
    requires ShelfOk(s, rowLimit) && s.nextBlock < IntMax && rs != [] && Fits(rs)
    ensures ShelfOk(Appended(s, rs, path, identity, timestamp, rowLimit), rowLimit)
  {
    if s.open.Some? {
      var front := s.open.value.batches;
      assert (front + [rs])[..|front|] == front;
    }
  }

  lemma {:induction false} NothingBefore(block: seq<byte>)
    ensures [] + block == block
  {
  }

  lemma {:induction false} RestIs(t: OpenTable, d: Draft, stored: seq<byte>, tail: seq<byte>, x: nat,
                                  sections: seq<byte>, c: nat, e: nat)
    requires d.batches != [] && t == Opened(d) && x == |t.bytes| + 8 * |t.offsets| + 24
    requires tail == TailBytes(|t.bytes|, t.offsets, t.rows, sections, c, e)
    requires sections == Sections(x, t.firstKeys, t.firstKeys[0], LastKey(d.batches[|d.batches| - 1]), stored)
    requires c == EndsStart(x, t.firstKeys)
    requires e == FilterStart(x, t.firstKeys, t.firstKeys[0], LastKey(d.batches[|d.batches| - 1])) + |stored|
    ensures t.bytes + tail == FileOf(d, stored)
  {
    assert t.firstKeys[0] == FirstKey(d.batches[0]) && x == IndexStart(d);
    var r := RestOf(d, stored);
    assert r.sections == sections && r.ends == c && r.filterEnd == e;
  }

  // every byte of every finished file
  ghost predicate FilesAre(files: seq<seq<byte>>, tables: seq<Draft>, f: BloomFilter)
    requires f.bits.Length > 0
  {
    |files| == |tables| && forall i {:trigger FileAt(files, tables, i, f)} :: 0 <= i < |tables| ==> FileAt(files,
                                                                                                           tables, i, f)
  }

  ghost predicate FileAt(files: seq<seq<byte>>, tables: seq<Draft>, i: nat, f: BloomFilter)
    requires f.bits.Length > 0 && i < |tables| == |files|
  {
    FileIs(files[i], tables[i], f)
  }

  ghost predicate FileIs(file: seq<byte>, d: Draft, f: BloomFilter)
    requires f.bits.Length > 0
  {
    d.batches != [] && file == FileOf(d, FilterOf(d.batches, f))
  }

  lemma {:induction false} OneFileMore(files: seq<seq<byte>>, tables: seq<Draft>, f: BloomFilter, file: seq<byte>,
                                       d: Draft)
    requires f.bits.Length > 0 && FilesAre(files, tables, f) && FileIs(file, d, f)
    ensures FilesAre(files + [file], tables + [d], f)
  {
    forall i | 0 <= i < |tables| + 1 ensures FileAt(files + [file], tables + [d], i, f) {
      if i < |tables| { assert FileAt(files, tables, i, f); }
    }
  }

  // what a batch makes of an open file, d being what then stands in it
  ghost predicate Follows(s: Shelf, d: Draft, next: Shelf, rowLimit: nat) {
    ShelfOk(next, rowLimit) && next.nextBlock == s.nextBlock + 1 && next.nextTable == s.nextTable
    && if Full(d.batches, rowLimit) then next.open == None && next.tables == s.tables + [d]
       else next.open == Some(d) && next.tables == s.tables
  }

  lemma {:induction false} OneBlockMore(s: Shelf, rs: seq<Record>, path: Label, identity: Label, timestamp: nat,
                                        rowLimit: nat) returns (next: Shelf)
    requires ShelfOk(s, rowLimit) && s.open.Some? && s.nextBlock < IntMax && rs != [] && Fits(rs)
    ensures next == Appended(s, rs, path, identity, timestamp, rowLimit)
    ensures Follows(s, More(s.open.value, rs), next, rowLimit)
  {
    StaysOk(s, rs, path, identity, timestamp, rowLimit);
    next := Appended(s, rs, path, identity, timestamp, rowLimit);
  }

  class LSMEngine {
    const rowLimit: nat
    const filter: BloomFilter
    // the open file, if there is one, and the files finished
    var active: Option<OpenTable>
    var finished: seq<seq<byte>>
    var dataBlockId: nat
    var sstableId: nat
    // what they stand for
    ghost var shelf: Shelf

    ghost predicate Valid()
      reads this, filter.bits
    {
      0 < filter.bits.Length < IntMax && ShelfOk(shelf, rowLimit)
      && dataBlockId == shelf.nextBlock && sstableId == shelf.nextTable && FilesAre(finished, shelf.tables, filter)
      && match shelf.open
         case None => active == None
         case Some(d) => active == Some(Opened(d)) && Holds(Marked(d.batches, filter))
    }

    // exactly these slots are set
    ghost predicate Holds(slots: set<nat>)
      reads filter.bits
    {
      forall j :: 0 <= j < filter.bits.Length ==> (filter.bits[j] <==> j in slots)
    }

    constructor (rowLimit: nat, filter: BloomFilter)
      requires 0 < filter.bits.Length < IntMax
      ensures Valid() && shelf == Shelf(None, [], 0, 1) && this.rowLimit == rowLimit && this.filter == filter
    {
      this.rowLimit, this.filter := rowLimit, filter;
      active, finished, dataBlockId, sstableId := None, [], 0, 1;
      shelf := Shelf(None, [], 0, 1);
    }

    // the keys of a batch go into the filter
    method AddKeys(records: seq<Record>, ghost before: set<nat>)
      requires filter.bits.Length > 0 && Holds(before)
      modifies filter.bits
      ensures Holds(before + KeySlots(records, filter))
    {
      for i := 0 to |records|
        invariant Holds(before + KeySlots(records[..i], filter))
      {
        filter.AppendKey(records[i].key);
        assert KeySlots(records[..i + 1], filter) == KeySlots(records[..i], filter) + filter.Slots(records[i].key) by {
          SlotsMore(records, i, filter);
        }
      }
      assert records[..|records|] == records;
    }

    // a new file: header and first block
    method StartTable(records: seq<Record>, path: Label, identity: Label, timestamp: nat)
      requires Valid() && shelf.open.None? && records != [] && Fits(records) && dataBlockId + 1 < IntMax
      modifies this, filter.bits
      ensures Valid() && shelf == Appended(old(shelf), records, path, identity, timestamp, rowLimit)
      ensures dataBlockId == old(dataBlockId) + 1 && sstableId == old(sstableId) + 1 && finished == old(finished)
      ensures active.Some? && active.value.rows == |records| && active.value.firstKeys == [records[0].key]
    {
      StaysOk(shelf, records, path, identity, timestamp, rowLimit);
      filter.Clear();
      AddKeys(records, {});
      MarkedMore([], records, filter);
      var head := TableHeader(sstableId, path, identity, timestamp);
      var bytes := ComputeDbBytes(head, records, dataBlockId);
      OpenedFirst(head, records, dataBlockId);
      active := Some(OpenTable(bytes, [|head|], [records[0].key], |records|));
      shelf := Appended(shelf, records, path, identity, timestamp, rowLimit);
      dataBlockId, sstableId := dataBlockId + 1, sstableId + 1;
    }

    method ComputeBlock(records: seq<Record>, id: nat) returns (bytes: seq<byte>)
      requires records != []
      ensures bytes == BlockBytes(records, id)
    {
      bytes := ComputeDbBytes([], records, id);
      NothingBefore(BlockBytes(records, id));
    }

    // the next block's bytes, its keys in the filter
    method NextBlock(t: OpenTable, records: seq<Record>, ghost d: Draft) returns (more: OpenTable)
      requires filter.bits.Length > 0 && t == Opened(d) && Holds(Marked(d.batches, filter))
      requires records != [] && dataBlockId == d.base + |d.batches|
      modifies filter.bits
      ensures more == Opened(More(d, records)) && Holds(Marked(More(d, records).batches, filter))
      ensures more.rows == t.rows + |records| && more.firstKeys == t.firstKeys + [records[0].key]
    {
      var bytes := ComputeBlock(records, dataBlockId);
      OpenedMore(d, records, dataBlockId, bytes);
      more := Longer(t, records, bytes);
      AddKeys(records, Marked(d.batches, filter));
      MarkedMore(d.batches, records, filter);
    }

    // the sections behind the blocks
    method Close(t: OpenTable, last: seq<byte>, ghost d: Draft) returns (file: seq<byte>)
      requires filter.bits.Length > 0 && d.batches != [] && t == Opened(d) && Holds(Marked(d.batches, filter))
      requires last == LastKey(d.batches[|d.batches| - 1])
      ensures FileIs(file, d, filter)
    {
      var stored := filter.GetBloomFilter();
      var tail;
      ghost var x, sections, c, e;
      tail, x, sections, c, e := ComputeTail(|t.bytes|, t.offsets, t.rows, t.firstKeys, t.firstKeys[0], last, stored);
      RestIs(t, d, stored, tail, x, sections, c, e);
      StoredIs(d.batches, stored);
      file := t.bytes + tail;
    }

    lemma {:induction false} StoredIs(batches: seq<seq<Record>>, stored: seq<byte>)
      requires filter.bits.Length > 0 && Stores(stored, filter) && Holds(Marked(batches, filter))
      ensures stored == FilterOf(batches, filter)
    {
    }

    method Finish(file: seq<byte>, ghost d: Draft)
      requires filter.bits.Length > 0 && FilesAre(finished, shelf.tables, filter) && FileIs(file, d, filter)
      modifies this`finished, this`active, filter.bits
      ensures FilesAre(finished, shelf.tables + [d], filter) && active == None && finished == old(finished) + [file]
    {
      filter.Clear();
      OneFileMore(finished, shelf.tables, filter, file, d);
      finished, active := finished + [file], None;
    }

    // the file stays open or is finished, by its rows
    method Settle(t: OpenTable, last: seq<byte>, ghost d: Draft, ghost next: Shelf)
      requires 0 < filter.bits.Length < IntMax && FilesAre(finished, shelf.tables, filter) && |d.batches| >= 2
      requires t == Opened(d) && Holds(Marked(d.batches, filter)) && last == LastKey(d.batches[|d.batches| - 1])
      requires dataBlockId == shelf.nextBlock && sstableId == shelf.nextTable && Follows(shelf, d, next, rowLimit)
      modifies this, filter.bits
      ensures Valid() && shelf == next
      ensures dataBlockId == old(dataBlockId) + 1 && sstableId == old(sstableId)
      ensures t.rows < rowLimit ==> active == Some(t) && finished == old(finished)
      ensures t.rows >= rowLimit ==> active == None && |finished| == |old(finished)| + 1 && old(finished) <= finished
    {
      dataBlockId := dataBlockId + 1;
      if t.rows >= rowLimit {
        var file := Close(t, last, d);
        Finish(file, d);
      } else {
        active := Some(t);
      }
      shelf := next;
    }

    method AppendBlock(records: seq<Record>, path: Label, identity: Label, timestamp: nat)
      requires Valid() && active.Some? && records != [] && Fits(records) && dataBlockId + 1 < IntMax
      modifies this, filter.bits
      ensures Valid() && shelf == Appended(old(shelf), records, path, identity, timestamp, rowLimit)
      ensures dataBlockId == old(dataBlockId) + 1 && sstableId == old(sstableId)
      ensures old(active.value.rows) + |records| < rowLimit ==>
        Grown(old(active.value), records) && finished == old(finished)
      ensures old(active.value.rows) + |records| >= rowLimit ==>
        active == None && |finished| == |old(finished)| + 1 && old(finished) <= finished
    {
      ghost var d := shelf.open.value;
      ghost var next := OneBlockMore(shelf, records, path, identity, timestamp, rowLimit);
      var t := NextBlock(active.value, records, d);
      ghost var more := More(d, records);
      Settle(t, records[|records| - 1].key, more, next);
    }

    // the open file has the batch in addition
    predicate Grown(t: OpenTable, records: seq<Record>)
      requires records != []
      reads this
    {
      active.Some? && active.value.rows == t.rows + |records|
      && active.value.firstKeys == t.firstKeys + [records[0].key]
    }

    // One batch becomes one block.  The file is finished by the batch that
    // gives it enough rows, but never by its first one.
    method Append(records: seq<Record>, path: Label, identity: Label, timestamp: nat) returns (ok: bool)
      requires Valid() && Fits(records) && dataBlockId + 1 < IntMax
      modifies this, filter.bits
      ensures Valid() && (ok <==> records != [])
      ensures shelf == if ok then Appended(old(shelf), records, path, identity, timestamp, rowLimit) else old(shelf)
      ensures !ok ==> active == old(active) && finished == old(finished) && dataBlockId == old(dataBlockId)
      ensures ok ==> dataBlockId == old(dataBlockId) + 1
                     && sstableId == old(sstableId) + (if old(active).None? then 1 else 0)
      ensures ok && old(active).None? ==>
        active.Some? && active.value.rows == |records| && active.value.firstKeys == [records[0].key]
        && finished == old(finished)
      ensures ok && old(active).Some? && old(active.value.rows) + |records| < rowLimit ==>
        Grown(old(active.value), records) && finished == old(finished)
      ensures ok && old(active).Some? && old(active.value.rows) + |records| >= rowLimit ==>
        active == None && |finished| == |old(finished)| + 1 && old(finished) <= finished
    {
      ok := records != [];
      if !ok { return; }
      if active.None? {
        StartTable(records, path, identity, timestamp);
      } else {
        AppendBlock(records, path, identity, timestamp);
      }
    }
  }

  lemma {:induction false} SlotsMore(records: seq<Record>, i: nat, f: BloomFilter)
    requires f.bits.Length > 0 && i < |records|
    ensures KeySlots(records[..i + 1], f) == KeySlots(records[..i], f) + f.Slots(records[i].key)
  {
  }

  lemma {:induction false} MarkedMore(batches: seq<seq<Record>>, rs: seq<Record>, f: BloomFilter)
    requires f.bits.Length > 0
    ensures Marked(batches + [rs], f) == Marked(batches, f) + KeySlots(rs, f)
  {
    assert (batches + [rs])[..|batches|] == batches;
  }

  // ---------- whole runs ----------

  // what a run of batches makes of it
  ghost function AppendedAll(s: Shelf, batches: seq<seq<Record>>, path: Label, identity: Label, timestamp: nat,
                             rowLimit: nat): Shelf
  {
    if batches == [] then s
    else
      var n := |batches| - 1;
      Appended(AppendedAll(s, batches[..n], path, identity, timestamp, rowLimit), batches[n], path, identity, timestamp,
               rowLimit)
  }

  function Flat(tables: seq<Draft>): seq<seq<Record>> {
    if tables == [] then [] else Flat(tables[..|tables| - 1]) + tables[|tables| - 1].batches
  }

  // every batch it was given: those of the finished tables, and the open ones
  function Given(s: Shelf): seq<seq<Record>> {
    Flat(s.tables) + if s.open.None? then [] else s.open.value.batches
  }

  lemma {:induction false} FlatMore(tables: seq<Draft>, d: Draft)
    ensures Flat(tables + [d]) == Flat(tables) + d.batches
  {
    assert (tables + [d])[..|tables|] == tables;
  }

  // no batch is lost, doubled or moved
  lemma {:induction false} GivenMore(s: Shelf, rs: seq<Record>, path: Label, identity: Label, timestamp: nat,
                                     rowLimit: nat)
    ensures Given(Appended(s, rs, path, identity, timestamp, rowLimit)) == Given(s) + [rs]
  {
    if s.open.Some? { FlatMore(s.tables, More(s.open.value, rs)); }
  }

  lemma {:induction false} GivenAll(s: Shelf, batches: seq<seq<Record>>, path: Label, identity: Label, timestamp: nat,
                                    rowLimit: nat)
    ensures Given(AppendedAll(s, batches, path, identity, timestamp, rowLimit)) == Given(s) + batches
    decreases |batches|
  {
    if batches == [] {
      assert Given(s) + batches == Given(s);
    } else {
      var n := |batches| - 1;
      GivenAll(s, batches[..n], path, identity, timestamp, rowLimit);
      var front := AppendedAll(s, batches[..n], path, identity, timestamp, rowLimit);
      GivenMore(front, batches[n], path, identity, timestamp, rowLimit);
      LastBehind(Given(s), batches, n);
    }
  }

  lemma {:induction false} LastBehind(a: seq<seq<Record>>, b: seq<seq<Record>>, n: nat)
    requires |b| == n + 1
    ensures (a + b[..n]) + [b[n]] == a + b
  {
  }

  lemma {:induction false} OneBatchMore(s: Shelf, batches: seq<seq<Record>>, i: nat, path: Label, identity: Label,
                                        timestamp: nat, rowLimit: nat)
    requires i < |batches|
    ensures AppendedAll(s, batches[..i + 1], path, identity, timestamp, rowLimit)
         == Appended(AppendedAll(s, batches[..i], path, identity, timestamp, rowLimit), batches[i], path, identity,
                     timestamp, rowLimit)
  {
    assert batches[..i + 1][..i] == batches[..i];
  }

  // any run of appends, whatever was given before
  method Store(e: LSMEngine, batches: seq<seq<Record>>, path: Label, identity: Label, timestamp: nat)
    requires e.Valid() && Sound(batches) && e.dataBlockId + |batches| < IntMax
    modifies e, e.filter.bits
    ensures e.Valid() && e.shelf == AppendedAll(old(e.shelf), batches, path, identity, timestamp, e.rowLimit)
    ensures Given(e.shelf) == Given(old(e.shelf)) + batches
  {
    ghost var before := e.shelf;
    for i := 0 to |batches|
      invariant e.Valid() && e.dataBlockId == old(e.dataBlockId) + i
      invariant e.shelf == AppendedAll(before, batches[..i], path, identity, timestamp, e.rowLimit)
    {
      OneBatchMore(before, batches, i, path, identity, timestamp, e.rowLimit);
      var ok := e.Append(batches[i], path, identity, timestamp);
    }
    assert batches[..|batches|] == batches;
    GivenAll(before, batches, path, identity, timestamp, e.rowLimit);
  }

  // ---------- what was written is read ----------

  // the reader's answer
  ghost predicate Reads(file: seq<byte>, ok: bool, records: seq<Record>) {
    if ok then exists batches :: TableIn(file, batches) && records == Concat(batches)
    else forall batches :: !TableIn(file, batches)
  }

  method ReadTable(file: seq<byte>) returns (ok: bool, records: seq<Record>)
    ensures Reads(file, ok, records)
  {
    ghost var found;
    ok, records, found := ReadSSTable(file);
  }

  lemma {:induction false} OneTable(bytes: seq<byte>, a: seq<seq<Record>>, b: seq<seq<Record>>)
    requires TableIn(bytes, a) && TableIn(bytes, b)
    ensures a == b
  {
    var m, x, rows, offs :| TableAt(bytes, m, x, rows, offs, a);
    var m', x', rows', offs' :| TableAt(bytes, m', x', rows', offs', b);
    TableUnique(bytes, m, x, rows, offs, a, m', x', rows', offs', b);
  }

  lemma {:induction false} ReadsIt(file: seq<byte>, ok: bool, records: seq<Record>, batches: seq<seq<Record>>)
    requires Reads(file, ok, records) && TableIn(file, batches)
    ensures ok && records == Concat(batches)
  {
    var found :| TableIn(file, found) && records == Concat(found);
    OneTable(file, found, batches);
  }

  lemma {:induction false} FileServes(file: seq<byte>, d: Draft, f: BloomFilter)
    requires 0 < f.bits.Length < IntMax && DraftOk(d) && FileIs(file, d, f)
    ensures TableIn(file, d.batches) && FilterIn(file, FilterOf(d.batches, f)) && KeysIn(file, d.batches)
  {
    FileHolds(d, FilterOf(d.batches, f));
    FileIndexed(d, FilterOf(d.batches, f));
  }

  // Every finished file holds its batches and its filter; its index has the
  // first key of every block, and its end keys are the first and the last.
  lemma {:induction false} FinishedServes(e: LSMEngine, i: nat)
    requires e.Valid() && i < |e.finished|
    ensures |e.finished| == |e.shelf.tables|
    ensures var file, batches := e.finished[i], e.shelf.tables[i].batches;
      TableIn(file, batches) && FilterIn(file, FilterOf(batches, e.filter)) && KeysIn(file, batches)
  {
    assert FileAt(e.finished, e.shelf.tables, i, e.filter);
    FileServes(e.finished[i], e.shelf.tables[i], e.filter);
  }

  // the records of all finished files
  method ReadFinished(e: LSMEngine) returns (ok: bool, records: seq<Record>)
    requires e.Valid()
    ensures ok && records == Concat(Flat(e.shelf.tables))
  {
    ok, records := true, [];
    ghost var tables := e.shelf.tables;
    for i := 0 to |e.finished|
      invariant ok && records == Concat(Flat(tables[..i]))
    {
      var read, part := ReadOne(e, i);
      OneTableMore(tables, i);
      ok, records := ok && read, records + part;
    }
    assert tables[..|tables|] == tables;
  }

  method ReadOne(e: LSMEngine, i: nat) returns (ok: bool, records: seq<Record>)
    requires e.Valid() && i < |e.finished|
    ensures ok && records == Concat(e.shelf.tables[i].batches)
  {
    ghost var d := e.shelf.tables[i];
    assert FileAt(e.finished, e.shelf.tables, i, e.filter);
    FileServes(e.finished[i], d, e.filter);
    ok, records := ReadTable(e.finished[i]);
    ReadsIt(e.finished[i], ok, records, d.batches);
  }

  lemma {:induction false} OneTableMore(tables: seq<Draft>, i: nat)
    requires i < |tables|
    ensures Concat(Flat(tables[..i + 1])) == Concat(Flat(tables[..i])) + Concat(tables[i].batches)
  {
    assert tables[..i + 1] == tables[..i] + [tables[i]];
    FlatMore(tables[..i], tables[i]);
    ConcatAdd(Flat(tables[..i]), tables[i].batches);
  }

  lemma {:induction false} ConcatAdd(a: seq<seq<Record>>, b: seq<seq<Record>>)
    ensures Concat(a + b) == Concat(a) + Concat(b)
    decreases |b|
  {
    if b == [] {
      assert a + b == a;
    } else {
      var n := |b| - 1;
      ConcatAdd(a, b[..n]);
      assert (a + b)[..|a + b| - 1] == a + b[..n];
    }
  }

  lemma {:induction false} ConcatGrows(batches: seq<seq<Record>>, i: nat)
    requires i <= |batches|
    ensures |Concat(batches[..i])| <= |Concat(batches)|
    decreases |batches|
  {
    if i < |batches| {
      var n := |batches| - 1;
      ConcatGrows(batches[..n], i);
      assert batches[..n][..i] == batches[..i];
    } else {
      assert batches[..i] == batches;
    }
  }

  lemma {:induction false} NotFullBefore(batches: seq<seq<Record>>, rowLimit: nat, i: nat)
    requires FirstFull(batches, rowLimit) && i < |batches|
    ensures !Full(batches[..i], rowLimit)
  {
    var front := batches[..|batches| - 1];
    assert front[..i] == batches[..i];
    ConcatGrows(front, i);
  }

  // a new engine keeps the file open up to the batch that fills it
  lemma {:induction false} StillOpen(batches: seq<seq<Record>>, i: nat, path: Label, identity: Label, timestamp: nat,
                                     rowLimit: nat)
    requires FirstFull(batches, rowLimit) && 0 < i < |batches|
    ensures AppendedAll(Shelf(None, [], 0, 1), batches[..i], path, identity, timestamp, rowLimit)
         == Shelf(Some(Draft(TableHeader(1, path, identity, timestamp), batches[..i], 0)), [], i, 2)
    decreases i
  {
    var start, n := Shelf(None, [], 0, 1), i - 1;
    OneBatchMore(start, batches, n, path, identity, timestamp, rowLimit);
    assert batches[..i] == batches[..n] + [batches[n]];
    NotFullBefore(batches, rowLimit, i);
    if n > 0 {
      StillOpen(batches, n, path, identity, timestamp, rowLimit);
    } else {
      assert batches[..0] == [] && batches[..1] == [batches[0]];
    }
  }

  lemma {:induction false} ThenFinished(batches: seq<seq<Record>>, path: Label, identity: Label, timestamp: nat,
                                        rowLimit: nat)
    requires FirstFull(batches, rowLimit)
    ensures AppendedAll(Shelf(None, [], 0, 1), batches, path, identity, timestamp, rowLimit)
         == Shelf(None, [Draft(TableHeader(1, path, identity, timestamp), batches, 0)], |batches|, 2)
  {
    var n := |batches| - 1;
    StillOpen(batches, n, path, identity, timestamp, rowLimit);
    Fills(Draft(TableHeader(1, path, identity, timestamp), batches[..n], 0), batches, path, identity, timestamp,
          rowLimit);
  }

  lemma {:induction false} Fills(d: Draft, batches: seq<seq<Record>>, path: Label, identity: Label, timestamp: nat,
                                 rowLimit: nat)
    requires Full(batches, rowLimit) && d.batches == batches[..|batches| - 1]
    ensures var n := |batches| - 1;
      Appended(Shelf(Some(d), [], n, 2), batches[n], path, identity, timestamp, rowLimit)
      == Shelf(None, [Draft(d.header, batches, d.base)], n + 1, 2)
  {
    var n := |batches| - 1;
    assert batches == batches[..n] + [batches[n]];
    assert More(d, batches[n]) == Draft(d.header, batches, d.base);
  }

  // the one file that batches make which fill a table with the last one
  method WriteTable(rowLimit: nat, filter: BloomFilter, batches: seq<seq<Record>>, path: Label, identity: Label,
                    timestamp: nat) returns (file: seq<byte>)
    requires 0 < filter.bits.Length < IntMax && FirstFull(batches, rowLimit) && Sound(batches)
    requires |batches| < IntMax
    modifies filter.bits
    ensures FileIs(file, Draft(TableHeader(1, path, identity, timestamp), batches, 0), filter)
  {
    var e := new LSMEngine(rowLimit, filter);
    Store(e, batches, path, identity, timestamp);
    ThenFinished(batches, path, identity, timestamp, rowLimit);
    ghost var d := Draft(TableHeader(1, path, identity, timestamp), batches, 0);
    assert e.shelf.tables[0] == d;
    file := e.finished[0];
    assert FileAt(e.finished, e.shelf.tables, 0, filter);
  }

  // Batches that fill a table with the last one make one file of exactly
  // these bytes.  It has them, their filter, its index and its end keys where
  // the footer says, and its reader returns them.
  method WriteAndRead(rowLimit: nat, filter: BloomFilter, batches: seq<seq<Record>>, path: Label, identity: Label,
                      timestamp: nat)
    returns (file: seq<byte>, ok: bool, records: seq<Record>)
    requires 0 < filter.bits.Length < IntMax && FirstFull(batches, rowLimit) && Sound(batches)
    requires |batches| < IntMax
    modifies filter.bits
    ensures file == FileOf(Draft(TableHeader(1, path, identity, timestamp), batches, 0), FilterOf(batches, filter))
    ensures |file| == FileSize(batches, filter.bits.Length) < Long
    ensures TableIn(file, batches) && FilterIn(file, FilterOf(batches, filter)) && KeysIn(file, batches)
    ensures Reads(file, ok, records) && ok && records == Concat(batches)
    ensures timestamp < Long ==> Headed(file, 1, path, identity, timestamp)
  {
    file := WriteTable(rowLimit, filter, batches, path, identity, timestamp);
    ghost var d := Draft(TableHeader(1, path, identity, timestamp), batches, 0);
    FileServes(file, d, filter);
    FileFits(d, FilterOf(batches, filter));
    if timestamp < Long { FileHeaded(d, FilterOf(batches, filter), 1, path, identity, timestamp); }
    ok, records := ReadTable(file);
    ReadsIt(file, ok, records, batches);
  }
}
