/**
 * The bytes of the write-ahead log (v1/Wal.hpp) place by place: where in a
 * frame and in the payloads of its own records each number stands, and with
 * what weight each of its bytes counts.
 */
module WalBytes {
  import Crc
  import opened WalCodec
  import opened WalLog

  // the numbers whose bytes begin at a place, most significant byte first
  function Big2(s: seq<byte>, at: nat): nat
    requires at + 2 <= |s|
  {
    s[at] as int * 0x100 + s[at + 1] as int
  }

  function Big4(s: seq<byte>, at: nat): nat
    requires at + 4 <= |s|
  {
    Big2(s, at) * 0x1_0000 + Big2(s, at + 2)
  }

  function Big8(s: seq<byte>, at: nat): nat
    requires at + 8 <= |s|
  {
    Big4(s, at) * 0x1_0000_0000 + Big4(s, at + 4)
  }

  // least significant byte first
  function Little2(s: seq<byte>, at: nat): nat
    requires at + 2 <= |s|
  {
    s[at] as int + s[at + 1] as int * 0x100
  }

  function Little4(s: seq<byte>, at: nat): nat
    requires at + 4 <= |s|
  {
    Little2(s, at) + Little2(s, at + 2) * 0x1_0000
  }

  function Little8(s: seq<byte>, at: nat): nat
    requires at + 8 <= |s|
  {
    Little4(s, at) + Little4(s, at + 4) * 0x1_0000_0000
  }

  lemma {:induction false} Shifted(high: nat, p: nat, low: nat, last: nat)
    ensures (high * p + low) * 256 + last == high * (256 * p) + (low * 256 + last)
  {
  }

  lemma {:induction false} BigSplit(s: seq<byte>, k: nat)
    requires k <= |s|
    ensures FromBigEndian(s) == FromBigEndian(s[..k]) * Pow256(|s| - k) + FromBigEndian(s[k..])
  {
    var n := |s|;
    if k < n {
      BigSplit(s[..n - 1], k);
      assert s[..n - 1][..k] == s[..k];
      assert s[..n - 1][k..] == s[k..][..n - 1 - k];
      Shifted(FromBigEndian(s[..k]), Pow256(n - 1 - k), FromBigEndian(s[k..n - 1]), s[n - 1] as int);
    } else {
      assert s[..k] == s;
    }
  }

  lemma {:induction false} LittleSplit(s: seq<byte>, k: nat)
    requires k <= |s|
    ensures FromLittleEndian(s) == FromLittleEndian(s[..k]) + Pow256(k) * FromLittleEndian(s[k..])
  {
    if k > 0 {
      LittleSplit(s[1..], k - 1);
      assert s[1..][..k - 1] == s[..k][1..];
      assert s[1..][k - 1..] == s[k..];
    } else {
      assert s[0..] == s;
    }
  }

  lemma {:induction false} Big2Is(s: seq<byte>)
    requires |s| == 2
    ensures FromBigEndian(s) == Big2(s, 0)
  {
    assert s[..1][..0] == [];
    assert FromBigEndian(s[..1]) == s[0] as int;
  }

  lemma {:induction false} Big4Is(s: seq<byte>)
    requires |s| == 4
    ensures FromBigEndian(s) == Big4(s, 0)
  {
    Widths();
    BigSplit(s, 2);
    Big2Is(s[..2]);
    Big2Is(s[2..]);
  }

  lemma {:induction false} Big8Is(s: seq<byte>)
    requires |s| == 8
    ensures FromBigEndian(s) == Big8(s, 0)
  {
    Widths();
    BigSplit(s, 4);
    Big4Is(s[..4]);
    Big4Is(s[4..]);
  }

  lemma {:induction false} Little2Is(s: seq<byte>)
    requires |s| == 2
    ensures FromLittleEndian(s) == Little2(s, 0)
  {
    assert s[1..][1..] == [];
    assert FromLittleEndian(s[1..]) == s[1] as int;
  }

  lemma {:induction false} Little4Is(s: seq<byte>)
    requires |s| == 4
    ensures FromLittleEndian(s) == Little4(s, 0)
  {
    Widths();
    LittleSplit(s, 2);
    Little2Is(s[..2]);
    Little2Is(s[2..]);
  }

  lemma {:induction false} Little8Is(s: seq<byte>)
    requires |s| == 8
    ensures FromLittleEndian(s) == Little8(s, 0)
  {
    Widths();
    LittleSplit(s, 4);
    Little4Is(s[..4]);
    Little4Is(s[4..]);
  }

  // a number at its place in longer data
  lemma {:induction false} Big8At(s: seq<byte>, at: nat, v: nat)
    requires at + 8 <= |s| && s[at..at + 8] == BigEndian(v, 8) && v < Long
    ensures Big8(s, at) == v
  {
    Widths();
    BigEndianRead(v, 8);
    Big8Is(s[at..at + 8]);
  }

  lemma {:induction false} Big4At(s: seq<byte>, at: nat, v: nat)
    requires at + 4 <= |s| && s[at..at + 4] == BigEndian(v, 4) && v < 0x1_0000_0000
    ensures Big4(s, at) == v
  {
    Widths();
    BigEndianRead(v, 4);
    Big4Is(s[at..at + 4]);
  }

  lemma {:induction false} Big2At(s: seq<byte>, at: nat, v: nat)
    requires at + 2 <= |s| && s[at..at + 2] == BigEndian(v, 2) && v < Short
    ensures Big2(s, at) == v
  {
    Widths();
    BigEndianRead(v, 2);
    Big2Is(s[at..at + 2]);
  }

  lemma {:induction false} Little8At(s: seq<byte>, at: nat, v: nat)
    requires at + 8 <= |s| && s[at..at + 8] == LittleEndian(v, 8) && v < Long
    ensures Little8(s, at) == v
  {
    Widths();
    LittleEndianRead(v, 8);
    Little8Is(s[at..at + 8]);
  }

  // A frame in bytes: LSN, version, record type, header length and payload
  // length, the payload, and the checksum of everything before it.
  lemma {:induction false} FrameBytes(f: Frame, e: seq<byte>)
    requires FrameOk(f) && e == Encode(f)
    ensures |e| == 28 + |f.payload| + 4
    ensures Big8(e, 0) == f.lsn && Big2(e, 8) == f.version && Big2(e, 10) == f.kind
    ensures Big8(e, 12) == f.headerLength && Big8(e, 20) == |f.payload|
    ensures e[28..28 + |f.payload|] == f.payload
    ensures Big4(e, 28 + |f.payload|) == Crc.Checksum(e[..28 + |f.payload|]) as int
  {
    var n := 28 + |f.payload|;
    assert e[..n] == Body(f) && e[n..n + 4] == BigEndian(Sum(Body(f)), 4);
    Big4At(e, n, Sum(Body(f)));
    HeaderPlaces(f, e);
  }

  lemma {:induction false} HeaderPlaces(f: Frame, e: seq<byte>)
    requires FrameOk(f) && e == Encode(f)
    ensures Big8(e, 0) == f.lsn && Big2(e, 8) == f.version && Big2(e, 10) == f.kind
    ensures Big8(e, 12) == f.headerLength && Big8(e, 20) == |f.payload|
  {
    assert e[0..8] == BigEndian(f.lsn, 8) && e[8..10] == BigEndian(f.version, 2) && e[10..12] == BigEndian(f.kind, 2);
    assert e[12..20] == BigEndian(f.headerLength, 8) && e[20..28] == BigEndian(|f.payload|, 8);
    Big8At(e, 0, f.lsn);
    Big2At(e, 8, f.version);
    Big2At(e, 10, f.kind);
    Big8At(e, 12, f.headerLength);
    Big8At(e, 20, |f.payload|);
  }

  // ---------- the records of the log itself ----------

  // a segment header: identity, segment, 128 bytes without a name, base LSN,
  // and a record count that stays 0
  ghost predicate HeaderIs(f: Frame, lsn: nat, version: nat, identity: seq<byte>, id: nat, base: nat) {
    f.lsn == lsn && f.version == version && f.kind == 1 && f.headerLength == 28 && |f.payload| == 212
    && f.payload[..64] == identity
    && Little8(f.payload, 64) == id
    && (forall i :: 72 <= i < 200 ==> f.payload[i] == 0)
    && Little8(f.payload, 200) == base
    && (forall i :: 208 <= i < 212 ==> f.payload[i] == 0)
  }

  // a seal: segment, its last LSN, and its number of records
  ghost predicate SealIs(f: Frame, lsn: nat, version: nat, id: nat, records: nat) {
    f.lsn == lsn && f.version == version && f.kind == 2 && f.headerLength == 28 && |f.payload| == 24
    && Little8(f.payload, 0) == id && Little8(f.payload, 8) == lsn && Little8(f.payload, 16) == records
  }

  // the mark of a shutdown: identity, time and LSN
  ghost predicate MarkIs(f: Frame, lsn: nat, version: nat, identity: seq<byte>, timestamp: nat) {
    f.lsn == lsn && f.version == version && f.kind == 4 && f.headerLength == 28 && |f.payload| == 80
    && f.payload[..64] == identity
    && Little8(f.payload, 64) == timestamp && Little8(f.payload, 72) == lsn
  }

  lemma {:induction false} HeaderPayloadIs(f: Frame, identity: seq<byte>, id: nat, base: nat)
    requires |identity| == 64 && id < Long && base < Long && f.payload == HeaderPayload(identity, id, base)
    requires f.kind == 1 && f.headerLength == 28
    ensures HeaderIs(f, f.lsn, f.version, identity, id, base)
  {
    var p := f.payload;
    assert p[64..72] == LittleEndian(id, 8);
    assert p[200..208] == LittleEndian(base, 8);
    Little8At(p, 64, id);
    Little8At(p, 200, base);
  }

  lemma {:induction false} SealPayloadIs(f: Frame, id: nat, records: nat)
    requires id < Long && f.lsn < Long && records < Long && f.kind == 2 && f.headerLength == 28
    requires f.payload == LittleEndian(id, 8) + LittleEndian(f.lsn, 8) + LittleEndian(records, 8)
    ensures SealIs(f, f.lsn, f.version, id, records)
  {
    ThreeNumbers(f.payload, id, f.lsn, records);
  }

  lemma {:induction false} ThreeNumbers(p: seq<byte>, a: nat, b: nat, c: nat)
    requires a < Long && b < Long && c < Long
    requires p == LittleEndian(a, 8) + LittleEndian(b, 8) + LittleEndian(c, 8)
    ensures Little8(p, 0) == a && Little8(p, 8) == b && Little8(p, 16) == c
  {
    assert p[0..8] == LittleEndian(a, 8);
    assert p[8..16] == LittleEndian(b, 8);
    assert p[16..24] == LittleEndian(c, 8);
    Little8At(p, 0, a);
    Little8At(p, 8, b);
    Little8At(p, 16, c);
  }

  lemma {:induction false} MarkPayloadIs(f: Frame, identity: seq<byte>, timestamp: nat)
    requires |identity| == 64 && f.lsn < Long && timestamp < Long && f.kind == 4 && f.headerLength == 28
    requires f.payload == identity + LittleEndian(timestamp, 8) + LittleEndian(f.lsn, 8)
    ensures MarkIs(f, f.lsn, f.version, identity, timestamp)
  {
    var p := f.payload;
    assert p[64..72] == LittleEndian(timestamp, 8);
    assert p[72..80] == LittleEndian(f.lsn, 8);
    Little8At(p, 64, timestamp);
    Little8At(p, 72, f.lsn);
  }
}
