/**
 * The bytes of a sorted-string table (v1/LSM_Engine.hpp): rows, data blocks,
 * the sections behind them, and what a reader takes from a file.
 */
module SsLayout {
  import opened WalCodec

  datatype Record = Record(key: seq<byte>, value: seq<byte>, tombstone: bool)

  // ---------- what is in a file ----------

  function FieldAt(bytes: seq<byte>, off: nat): nat
    requires off + 8 <= |bytes|
  {
    FromBigEndian(bytes[off..off + 8])
  }

  ghost predicate Field(bytes: seq<byte>, off: nat, v: nat) {
    off + 8 <= |bytes| && FieldAt(bytes, off) == v
  }

  function RowSize(r: Record): nat { 17 + |r.key| + |r.value| }

  // flags, both sizes, key, value
  ghost predicate RowIn(bytes: seq<byte>, off: nat, r: Record) {
    off + RowSize(r) <= |bytes|
    && (bytes[off] % 2 == 1 <==> r.tombstone)
    && Field(bytes, off + 1, |r.key|) && Field(bytes, off + 9, |r.value|)
    && bytes[off + 17..off + 17 + |r.key|] == r.key
    && bytes[off + 17 + |r.key|..off + RowSize(r)] == r.value
  }

  function RowsSize(rs: seq<Record>): nat {
    if rs == [] then 0 else RowsSize(rs[..|rs| - 1]) + RowSize(rs[|rs| - 1])
  }

  // rows one behind the other
  ghost predicate RowsIn(bytes: seq<byte>, off: nat, rs: seq<Record>) {
    forall i {:trigger RowAt(bytes, off, rs, i)} :: 0 <= i < |rs| ==> RowAt(bytes, off, rs, i)
  }

  ghost predicate RowAt(bytes: seq<byte>, off: nat, rs: seq<Record>, i: nat)
    requires i < |rs|
  {
    RowIn(bytes, off + RowsSize(rs[..i]), rs[i])
  }

  // the rows of a block, found through its last three fields
  ghost predicate BlockIn(bytes: seq<byte>, start: nat, end: nat, rs: seq<Record>) {
    start + 24 <= end <= |bytes|
    && FieldAt(bytes, end - 16) == |rs|
    && RowsSize(rs) <= FieldAt(bytes, end - 8) <= end - 24 - start
    && RowsIn(bytes, start, rs)
  }

  // where block i begins and ends: block offsets, then the end of all blocks
  ghost predicate BlocksIn(bytes: seq<byte>, bounds: seq<nat>, batches: seq<seq<Record>>) {
    |bounds| == |batches| + 1
    && forall i {:trigger batches[i]} :: 0 <= i < |batches| ==> BlockIn(bytes, bounds[i], bounds[i + 1], batches[i])
  }

  function Concat(batches: seq<seq<Record>>): seq<Record> {
    if batches == [] then [] else Concat(batches[..|batches| - 1]) + batches[|batches| - 1]
  }

  // the block offsets stand from metaStart on
  ghost predicate OffsetsIn(bytes: seq<byte>, metaStart: nat, offsets: seq<nat>) {
    forall i :: 0 <= i < |offsets| ==> Field(bytes, metaStart + 8 * i, offsets[i])
  }

  // the footer and the block metadata
  ghost predicate MetaIn(bytes: seq<byte>, metaStart: nat, indexStart: nat, blocks: nat, rows: nat) {
    |bytes| >= 32 && Field(bytes, |bytes| - 32, metaStart) && Field(bytes, |bytes| - 24, indexStart)
    && metaStart + 8 <= |bytes| && metaStart + 24 <= indexStart
    && Field(bytes, indexStart - 24, metaStart) && Field(bytes, indexStart - 16, blocks)
    && Field(bytes, indexStart - 8, rows)
  }

  // the batches a file holds; without blocks the row count does not matter
  ghost predicate TableIn(bytes: seq<byte>, batches: seq<seq<Record>>) {
    exists metaStart: nat, indexStart: nat, rows: nat, offsets: seq<nat> ::
      TableAt(bytes, metaStart, indexStart, rows, offsets, batches)
  }

  ghost predicate TableAt(bytes: seq<byte>, metaStart: nat, indexStart: nat, rows: nat, offsets: seq<nat>,
                          batches: seq<seq<Record>>)
  {
    MetaIn(bytes, metaStart, indexStart, |batches|, rows)
    && |offsets| == |batches| && OffsetsIn(bytes, metaStart, offsets)
    && BlocksIn(bytes, offsets + [metaStart], batches)
    && (batches != [] ==> |Concat(batches)| == rows)
  }

  // ---------- a file holds one table ----------

  lemma {:induction false} RowUnique(bytes: seq<byte>, off: nat, r: Record, s: Record)
    requires RowIn(bytes, off, r) && RowIn(bytes, off, s)
    ensures r == s
  {
  }

  lemma {:induction false} RowsPrefix(bytes: seq<byte>, off: nat, rs: seq<Record>, i: nat)
    requires RowsIn(bytes, off, rs) && i <= |rs|
    ensures RowsIn(bytes, off, rs[..i])
  {
    forall x | 0 <= x < i ensures RowAt(bytes, off, rs[..i], x) {
      assert RowAt(bytes, off, rs, x) && rs[..i][..x] == rs[..x];
    }
  }

  lemma {:induction false} SizesAdd(rs: seq<Record>, i: nat)
    requires i < |rs|
    ensures RowsSize(rs[..i]) + RowSize(rs[i]) <= RowsSize(rs)
    decreases |rs|
  {
    var n := |rs| - 1;
    if i < n {
      SizesAdd(rs[..n], i);
      assert rs[..n][..i] == rs[..i];
    }
  }

  lemma {:induction false} RowsUnique(bytes: seq<byte>, off: nat, rs: seq<Record>, ss: seq<Record>)
    requires |rs| == |ss| && RowsIn(bytes, off, rs) && RowsIn(bytes, off, ss)
    ensures rs == ss
    decreases |rs|
  {
    if rs != [] {
      var n := |rs| - 1;
      RowsPrefix(bytes, off, rs, n);
      RowsPrefix(bytes, off, ss, n);
      RowsUnique(bytes, off, rs[..n], ss[..n]);
      assert RowAt(bytes, off, rs, n) && RowAt(bytes, off, ss, n);
      RowUnique(bytes, off + RowsSize(rs[..n]), rs[n], ss[n]);
      assert rs == rs[..n] + [rs[n]] && ss == ss[..n] + [ss[n]];
    }
  }

  lemma {:induction false} OffsetsUnique(bytes: seq<byte>, m: nat, a: seq<nat>, b: seq<nat>)
    requires |a| == |b| && OffsetsIn(bytes, m, a) && OffsetsIn(bytes, m, b)
    ensures a == b
  {
    forall i | 0 <= i < |a| ensures a[i] == b[i] {
      assert Field(bytes, m + 8 * i, a[i]) && Field(bytes, m + 8 * i, b[i]);
    }
  }

  lemma {:induction false} BlocksUnique(bytes: seq<byte>, bounds: seq<nat>, a: seq<seq<Record>>, b: seq<seq<Record>>)
    requires BlocksIn(bytes, bounds, a) && BlocksIn(bytes, bounds, b)
    ensures a == b
  {
    forall i | 0 <= i < |a| ensures a[i] == b[i] {
      RowsUnique(bytes, bounds[i], a[i], b[i]);
    }
  }

  lemma {:induction false} MetaUnique(bytes: seq<byte>, m: nat, x: nat, n: nat, rows: nat,
                                      m': nat, x': nat, n': nat, rows': nat)
    requires MetaIn(bytes, m, x, n, rows) && MetaIn(bytes, m', x', n', rows')
    ensures m == m' && x == x' && n == n' && rows == rows'
  {
  }

  lemma {:induction false} TableUnique(bytes: seq<byte>, m: nat, x: nat, rows: nat, offs: seq<nat>, a: seq<seq<Record>>,
                                       m': nat, x': nat, rows': nat, offs': seq<nat>, b: seq<seq<Record>>)
    requires TableAt(bytes, m, x, rows, offs, a) && TableAt(bytes, m', x', rows', offs', b)
    ensures a == b
  {
    MetaUnique(bytes, m, x, |a|, rows, m', x', |b|, rows');
    OffsetsUnique(bytes, m, offs, offs');
    BlocksUnique(bytes, offs + [m], a, b);
  }

  // ---------- the reader ----------

  method ReadField(bytes: seq<byte>, off: nat) returns (ok: bool, v: nat)
    ensures ok <==> off + 8 <= |bytes|
    ensures ok ==> Field(bytes, off, v)
  {
    ok, v := off + 8 <= |bytes|, 0;
    if ok { v := ReadBytes(bytes, off, 8); }
  }

  method ReadRow(bytes: seq<byte>, cursor: nat, limit: nat) returns (ok: bool, r: Record)
    requires limit <= |bytes|
    ensures ok ==> RowIn(bytes, cursor, r) && cursor + RowSize(r) <= limit
    ensures !ok ==> forall s :: RowIn(bytes, cursor, s) ==> cursor + RowSize(s) > limit
  {
    ok, r := cursor + 1 <= |bytes|, Record([], [], false);
    if !ok { return; }
    var keySize, valueSize;
    ok, keySize := ReadField(bytes, cursor + 1);
    if !ok { return; }
    ok, valueSize := ReadField(bytes, cursor + 9);
    if !ok { return; }
    var body := cursor + 17;
    ok := body + keySize + valueSize <= limit;
    if !ok { return; }
    r := Record(bytes[body..body + keySize], bytes[body + keySize..body + keySize + valueSize], bytes[cursor] % 2 == 1);
  }

  lemma {:induction false} RowsMore(bytes: seq<byte>, start: nat, rs: seq<Record>, r: Record)
    requires RowsIn(bytes, start, rs) && RowIn(bytes, start + RowsSize(rs), r)
    ensures RowsIn(bytes, start, rs + [r]) && RowsSize(rs + [r]) == RowsSize(rs) + RowSize(r)
  {
    var more := rs + [r];
    assert more[..|rs|] == rs;
    forall x | 0 <= x < |more| ensures RowAt(bytes, start, more, x) {
      if x < |rs| { assert RowAt(bytes, start, rs, x) && more[..x] == rs[..x]; }
    }
  }

  // no longer list of rows fits when no row fits behind these
  lemma {:induction false} RowsStuck(bytes: seq<byte>, start: nat, limit: nat, rs: seq<Record>, ss: seq<Record>)
    requires RowsIn(bytes, start, rs) && RowsIn(bytes, start, ss) && |rs| < |ss|
    requires forall s :: RowIn(bytes, start + RowsSize(rs), s) ==> start + RowsSize(rs) + RowSize(s) > limit
    ensures start + RowsSize(ss) > limit
  {
    RowsPrefix(bytes, start, ss, |rs|);
    RowsUnique(bytes, start, ss[..|rs|], rs);
    assert RowAt(bytes, start, ss, |rs|);
    SizesAdd(ss, |rs|);
  }

  method ReadRows(bytes: seq<byte>, start: nat, limit: nat, count: nat) returns (ok: bool, rs: seq<Record>)
    requires limit <= |bytes| && start <= limit
    ensures ok ==> |rs| == count && RowsIn(bytes, start, rs) && start + RowsSize(rs) <= limit
    ensures !ok ==> forall ss: seq<Record> :: |ss| == count && RowsIn(bytes, start, ss) ==> start + RowsSize(ss) > limit
  {
    ok, rs := true, [];
    var cursor := start;
    for row := 0 to count
      invariant |rs| == row && RowsIn(bytes, start, rs) && cursor == start + RowsSize(rs) <= limit
    {
      var r;
      ok, r := ReadRow(bytes, cursor, limit);
      if !ok {
        forall ss: seq<Record> | |ss| == count && RowsIn(bytes, start, ss) ensures start + RowsSize(ss) > limit {
          RowsStuck(bytes, start, limit, rs, ss);
        }
        return;
      }
      RowsMore(bytes, start, rs, r);
      rs := rs + [r];
      cursor := cursor + RowSize(r);
    }
  }

  method ReadBlock(bytes: seq<byte>, start: nat, end: nat) returns (ok: bool, rs: seq<Record>)
    ensures ok ==> BlockIn(bytes, start, end, rs)
    ensures !ok ==> forall ss :: !BlockIn(bytes, start, end, ss)
  {
    ok, rs := false, [];
    if start >= end || end > |bytes| || end - start < 24 { return; }
    var read, rows, size;
    read, rows := ReadField(bytes, end - 16);
    read, size := ReadField(bytes, end - 8);
    if start + size > end - 24 { return; }
    ok, rs := ReadRows(bytes, start, start + size, rows);
  }

  method ReadOffsets(bytes: seq<byte>, metaStart: nat, count: nat) returns (ok: bool, offsets: seq<nat>)
    ensures ok ==> |offsets| == count && OffsetsIn(bytes, metaStart, offsets)
    ensures !ok ==> forall os: seq<nat> :: |os| == count ==> !OffsetsIn(bytes, metaStart, os)
  {
    ok, offsets := true, [];
    for i := 0 to count
      invariant |offsets| == i && OffsetsIn(bytes, metaStart, offsets)
    {
      var v;
      ok, v := ReadField(bytes, metaStart + 8 * i);
      if !ok {
        forall os: seq<nat> | |os| == count ensures !OffsetsIn(bytes, metaStart, os) {
          assert !Field(bytes, metaStart + 8 * i, os[i]);
        }
        return;
      }
      offsets := offsets + [v];
    }
  }

  lemma {:induction false} ConcatMore(batches: seq<seq<Record>>, rs: seq<Record>)
    ensures Concat(batches + [rs]) == Concat(batches) + rs
  {
    assert (batches + [rs])[..|batches|] == batches;
  }

  // every block in turn, its rows behind those of the blocks before it
  method ReadBlocks(bytes: seq<byte>, offsets: seq<nat>, end: nat)
    returns (ok: bool, records: seq<Record>, ghost batches: seq<seq<Record>>)
    ensures ok ==> BlocksIn(bytes, offsets + [end], batches) && records == Concat(batches)
    ensures !ok ==> forall bs :: !BlocksIn(bytes, offsets + [end], bs)
  {
    ok, records, batches := true, [], [];
    ghost var bounds := offsets + [end];
    for i := 0 to |offsets|
      invariant |batches| == i && records == Concat(batches) && BlocksIn(bytes, bounds[..i + 1], batches)
    {
      var blockEnd := if i + 1 < |offsets| then offsets[i + 1] else end;
      assert blockEnd == bounds[i + 1];
      var rs;
      ok, rs := ReadBlock(bytes, offsets[i], blockEnd);
      if !ok {
        forall bs | true ensures !BlocksIn(bytes, bounds, bs) {
          if |bs| > i { assert !BlockIn(bytes, bounds[i], bounds[i + 1], bs[i]); }
        }
        return;
      }
      BlocksMore(bytes, bounds, i, batches, rs);
      ConcatMore(batches, rs);
      records, batches := records + rs, batches + [rs];
    }
    assert bounds[..|offsets| + 1] == bounds;
  }

  lemma {:induction false} BlocksMore(bytes: seq<byte>, bounds: seq<nat>, i: nat, batches: seq<seq<Record>>,
                                      rs: seq<Record>)
    requires i + 1 < |bounds| && BlocksIn(bytes, bounds[..i + 1], batches)
    requires BlockIn(bytes, bounds[i], bounds[i + 1], rs)
    ensures BlocksIn(bytes, bounds[..i + 2], batches + [rs])
  {
    var more, upTo := batches + [rs], bounds[..i + 2];
    forall x | 0 <= x < |more| ensures BlockIn(bytes, upTo[x], upTo[x + 1], more[x]) {
      if x < i {
        assert BlockIn(bytes, bounds[..i + 1][x], bounds[..i + 1][x + 1], batches[x]);
      }
    }
  }

  // The whole file.  It succeeds on exactly the files that hold a table, and
  // returns that table's records in order.
  method ReadSSTable(bytes: seq<byte>) returns (ok: bool, records: seq<Record>, ghost batches: seq<seq<Record>>)
    ensures ok ==> TableIn(bytes, batches) && records == Concat(batches)
    ensures !ok ==> forall bs :: !TableIn(bytes, bs)
  {
    ok, records, batches := false, [], [];
    var metaOk, metaStart, indexStart, blocks, rows := ReadMeta(bytes);
    if !metaOk {
      forall bs | true ensures !TableIn(bytes, bs) { NoMeta(bytes, bs); }
      return;
    }
    if blocks == 0 {
      EmptyTable(bytes, metaStart, indexStart, rows);
      ok := true;
      return;
    }
    ok, records, batches := ReadBody(bytes, metaStart, indexStart, blocks, rows);
  }

  lemma {:induction false} NoMeta(bytes: seq<byte>, bs: seq<seq<Record>>)
    requires forall m, x, n, r :: !MetaIn(bytes, m, x, n, r)
    ensures !TableIn(bytes, bs)
  {
  }

  lemma {:induction false} EmptyTable(bytes: seq<byte>, m: nat, x: nat, rows: nat)
    requires MetaIn(bytes, m, x, 0, rows)
    ensures TableIn(bytes, []) && Concat([]) == []
  {
    assert TableAt(bytes, m, x, rows, [], []);
  }

  // the footer and the metadata in front of the index
  method ReadMeta(bytes: seq<byte>)
    returns (ok: bool, metaStart: nat, indexStart: nat, blocks: nat, rows: nat)
    ensures ok ==> MetaIn(bytes, metaStart, indexStart, blocks, rows)
    ensures !ok ==> forall m, x, n, r :: !MetaIn(bytes, m, x, n, r)
  {
    ok, metaStart, indexStart, blocks, rows := false, 0, 0, 0, 0;
    if |bytes| < 32 { return; }
    var footer := |bytes| - 32;
    var read, keysStart, bloomStart, check;
    read, metaStart := ReadField(bytes, footer);
    read, indexStart := ReadField(bytes, footer + 8);
    read, keysStart := ReadField(bytes, footer + 16);
    read, bloomStart := ReadField(bytes, footer + 24);
    if metaStart >= |bytes| || metaStart + 8 > |bytes| { return; }
    if indexStart <= metaStart || indexStart - metaStart < 24 { return; }
    read, check := ReadField(bytes, indexStart - 24);
    if !read { return; }
    read, blocks := ReadField(bytes, indexStart - 16);
    if !read { return; }
    read, rows := ReadField(bytes, indexStart - 8);
    if !read { return; }
    ok := check == metaStart;
  }

  // a table in the file agrees with the metadata read
  lemma {:induction false} TableParts(bytes: seq<byte>, m: nat, x: nat, n: nat, rows: nat, bs: seq<seq<Record>>)
    returns (offs: seq<nat>)
    requires MetaIn(bytes, m, x, n, rows) && TableIn(bytes, bs)
    ensures |offs| == n == |bs| && OffsetsIn(bytes, m, offs) && BlocksIn(bytes, offs + [m], bs)
    ensures bs != [] ==> |Concat(bs)| == rows
  {
    var m', x', rows', offs' :| TableAt(bytes, m', x', rows', offs', bs);
    MetaUnique(bytes, m, x, n, rows, m', x', |bs|, rows');
    offs := offs';
  }

  // the offsets, the blocks, and the row count
  method ReadBody(bytes: seq<byte>, metaStart: nat, indexStart: nat, blocks: nat, rows: nat)
    returns (ok: bool, records: seq<Record>, ghost batches: seq<seq<Record>>)
    requires MetaIn(bytes, metaStart, indexStart, blocks, rows) && blocks > 0
    ensures ok ==> TableIn(bytes, batches) && records == Concat(batches)
    ensures !ok ==> forall bs :: !TableIn(bytes, bs)
  {
    records, batches := [], [];
    var offsets;
    ok, offsets := ReadOffsets(bytes, metaStart, blocks);
    if !ok {
      forall bs | TableIn(bytes, bs) ensures false {
        var offs := TableParts(bytes, metaStart, indexStart, blocks, rows, bs);
      }
      return;
    }
    ok, records, batches := ReadBlocks(bytes, offsets, metaStart);
    if ok && |records| == rows {
      assert TableAt(bytes, metaStart, indexStart, rows, offsets, batches);
    } else {
      forall bs | TableIn(bytes, bs) ensures false {
        NoBody(bytes, metaStart, indexStart, rows, offsets, ok, batches, bs);
      }
      ok := false;
    }
  }

  lemma {:induction false} NoBody(bytes: seq<byte>, m: nat, x: nat, rows: nat, offs: seq<nat>, ok: bool,
                                  batches: seq<seq<Record>>, bs: seq<seq<Record>>)
    requires MetaIn(bytes, m, x, |offs|, rows) && OffsetsIn(bytes, m, offs) && offs != []
    requires if ok then BlocksIn(bytes, offs + [m], batches) && |Concat(batches)| != rows
      else forall b :: !BlocksIn(bytes, offs + [m], b)
    ensures !TableIn(bytes, bs)
  {
    if TableIn(bytes, bs) {
      var offs' := TableParts(bytes, m, x, |offs|, rows, bs);
      OffsetsUnique(bytes, m, offs, offs');
      if ok { BlocksUnique(bytes, offs + [m], batches, bs); }
    }
  }
}
