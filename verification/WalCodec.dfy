/**
 * The frame format of the write-ahead log (v1/Wal.hpp): a 28-byte header of
 * big-endian fields, the payload, and the CRC-32C of both.
 */
module WalCodec {
  import Crc

  type byte = Crc.byte

  // record types of the log; the field itself is any 16-bit number
  const SegmentHeader: nat := 1
  const SegmentSeal: nat := 2
  const ShutdownMark: nat := 4
  const Row: nat := 5

  // uint16_t and uint64_t
  const Short: nat := 0x1_0000
  const Long: nat := 0x1_0000_0000_0000_0000

  datatype Frame = Frame(lsn: nat, version: nat, kind: nat, headerLength: nat, payload: seq<byte>)

  ghost predicate FrameOk(f: Frame) {
    f.lsn < Long && f.version < Short && f.kind < Short && f.headerLength < Long
    && |f.payload| < Long
  }

  // ---------- numbers as big-endian bytes ----------

  function Pow256(n: nat): (r: nat)
    ensures r > 0
  {
    if n == 0 then 1 else 256 * Pow256(n - 1)
  }

  function BigEndian(v: nat, n: nat): (r: seq<byte>)
    ensures |r| == n
    decreases n, v
  {
    if n == 0 then [] else BigEndian(v / 256, n - 1) + [(v % 256) as byte]
  }

  function FromBigEndian(s: seq<byte>): nat {
    if s == [] then 0 else FromBigEndian(s[..|s| - 1]) * 256 + s[|s| - 1] as int
  }

  lemma {:induction false} BigEndianRead(v: nat, n: nat)
    requires v < Pow256(n)
    ensures FromBigEndian(BigEndian(v, n)) == v
    decreases n
  {
    if n > 0 {
      var s := BigEndian(v / 256, n - 1);
      BigEndianRead(v / 256, n - 1);
      assert (s + [(v % 256) as byte])[..n - 1] == s;
    }
  }

  lemma {:induction false} BigEndianBound(s: seq<byte>)
    ensures FromBigEndian(s) < Pow256(|s|)
  {
    if s != [] {
      BigEndianBound(s[..|s| - 1]);
    }
  }

  lemma {:induction false} BigEndianWrite(s: seq<byte>)
    ensures BigEndian(FromBigEndian(s), |s|) == s
  {
    if s != [] {
      var n := |s|;
      var high, low := FromBigEndian(s[..n - 1]), s[n - 1] as int;
      BigEndianWrite(s[..n - 1]);
      assert (high * 256 + low) / 256 == high && (high * 256 + low) % 256 == low;
      assert s == s[..n - 1] + [s[n - 1]];
    }
  }

  lemma {:induction false} Widths()
    ensures Pow256(2) == Short && Pow256(4) == 0x1_0000_0000 && Pow256(8) == Long
  {
  }

  // a shift right by i bytes
  function ShiftBytes(v: nat, i: nat): nat {
    if i == 0 then v else ShiftBytes(v, i - 1) / 256
  }

  // the most significant byte goes out first
  method AppendBytes(out: seq<byte>, v: nat, n: nat) returns (res: seq<byte>)
    ensures res == out + BigEndian(v, n)
  {
    res := out;
    var i := n;
    while i > 0
      invariant 0 <= i <= n
      invariant res == out + BigEndian(ShiftBytes(v, i), n - i)
    {
      i := i - 1;
      res := res + [(ShiftBytes(v, i) % 256) as byte];
    }
  }

  method ReadBytes(data: seq<byte>, offset: nat, n: nat) returns (v: nat)
    requires offset + n <= |data|
    ensures v == FromBigEndian(data[offset..offset + n])
  {
    v := 0;
    for i := 0 to n
      invariant v == FromBigEndian(data[offset..offset + i])
    {
      var part := data[offset..offset + i + 1];
      assert part[..i] == data[offset..offset + i];
      v := v * 256 + data[offset + i] as int;
    }
  }

  // ---------- frames as bytes ----------

  function Header(f: Frame): (r: seq<byte>)
    ensures |r| == 28
  {
    BigEndian(f.lsn, 8) + BigEndian(f.version, 2) + BigEndian(f.kind, 2)
    + BigEndian(f.headerLength, 8) + BigEndian(|f.payload|, 8)
  }

  function Body(f: Frame): (r: seq<byte>)
    ensures |r| == 28 + |f.payload|
  {
    Header(f) + f.payload
  }

  function Sum(bytes: seq<byte>): (r: nat)
    ensures r < 0x1_0000_0000
  {
    SumBound(Crc.Checksum(bytes));
    Crc.Checksum(bytes) as int
  }

  lemma {:induction false} SumBound(c: bv32)
    ensures 0 <= c as int < 0x1_0000_0000
  {
  }

  function Encode(f: Frame): (r: seq<byte>)
    ensures |r| == 32 + |f.payload|
  {
    Body(f) + BigEndian(Sum(Body(f)), 4)
  }

  // the frame whose bytes begin at the offset, if there is one
  ghost predicate FrameAt(data: seq<byte>, offset: nat, f: Frame) {
    FrameOk(f) && offset + |Encode(f)| <= |data|
    && data[offset..offset + |Encode(f)|] == Encode(f)
  }

  ghost predicate NoFrameAt(data: seq<byte>, offset: nat) {
    forall f: Frame :: !FrameAt(data, offset, f)
  }

  lemma {:induction false} HeaderRead(f: Frame, h: seq<byte>)
    requires FrameOk(f) && h == Header(f)
    ensures FromBigEndian(h[0..8]) == f.lsn && FromBigEndian(h[8..10]) == f.version
    ensures FromBigEndian(h[10..12]) == f.kind && FromBigEndian(h[12..20]) == f.headerLength
    ensures FromBigEndian(h[20..28]) == |f.payload|
  {
    Widths();
    BigEndianRead(f.lsn, 8);
    BigEndianRead(f.version, 2);
    BigEndianRead(f.kind, 2);
    BigEndianRead(f.headerLength, 8);
    BigEndianRead(|f.payload|, 8);
    assert h[0..8] == BigEndian(f.lsn, 8);
    assert h[8..10] == BigEndian(f.version, 2);
    assert h[10..12] == BigEndian(f.kind, 2);
    assert h[12..20] == BigEndian(f.headerLength, 8);
    assert h[20..28] == BigEndian(|f.payload|, 8);
  }

  lemma {:induction false} HeaderWrite(f: Frame, h: seq<byte>)
    requires |h| == 28
    requires FromBigEndian(h[0..8]) == f.lsn && FromBigEndian(h[8..10]) == f.version
    requires FromBigEndian(h[10..12]) == f.kind && FromBigEndian(h[12..20]) == f.headerLength
    requires FromBigEndian(h[20..28]) == |f.payload|
    ensures FrameOk(f) && Header(f) == h
  {
    Widths();
    BigEndianWrite(h[0..8]);
    BigEndianWrite(h[8..10]);
    BigEndianWrite(h[10..12]);
    BigEndianWrite(h[12..20]);
    BigEndianWrite(h[20..28]);
    BigEndianBound(h[0..8]);
    BigEndianBound(h[8..10]);
    BigEndianBound(h[10..12]);
    BigEndianBound(h[12..20]);
    BigEndianBound(h[20..28]);
    assert h == h[0..8] + h[8..10] + h[10..12] + h[12..20] + h[20..28];
  }

  lemma {:induction false} SliceOfSlice<T>(s: seq<T>, a: nat, b: nat, c: nat, d: nat)
    requires a <= b <= |s| && c <= d <= b - a
    ensures s[a..b][c..d] == s[a + c..a + d]
  {
    assert s[a..b][..d] == s[a..a + d];
    assert s[a..a + d][c..] == s[a + c..a + d];
  }

  // what a frame at an offset says about the bytes there
  lemma {:induction false} FrameParts(data: seq<byte>, offset: nat, f: Frame)
    requires FrameAt(data, offset, f)
    ensures data[offset..offset + 28] == Header(f)
    ensures data[offset + 28..offset + 28 + |f.payload|] == f.payload
    ensures data[offset + 28 + |f.payload|..offset + 32 + |f.payload|] == BigEndian(Sum(Body(f)), 4)
  {
    var e, n := Encode(f), |f.payload|;
    var slice := data[offset..offset + |e|];
    SliceOfSlice(data, offset, offset + |e|, 0, 28);
    SliceOfSlice(data, offset, offset + |e|, 28, 28 + n);
    SliceOfSlice(data, offset, offset + |e|, 28 + n, 32 + n);
    assert slice[0..28] == Header(f);
    assert slice[28..28 + n] == f.payload;
    assert slice[28 + n..32 + n] == BigEndian(Sum(Body(f)), 4);
  }

  // no two frames begin at one place
  lemma {:induction false} FrameUnique(data: seq<byte>, offset: nat, f: Frame, g: Frame)
    requires FrameAt(data, offset, f) && FrameAt(data, offset, g)
    ensures f == g
  {
    FrameParts(data, offset, f);
    FrameParts(data, offset, g);
    HeaderRead(f, data[offset..offset + 28]);
    HeaderRead(g, data[offset..offset + 28]);
  }

  method ComputeByteFrame(f: Frame) returns (res: seq<byte>)
    requires FrameOk(f)
    ensures res == Body(f)
  {
    Widths();
    res := AppendBytes([], f.lsn, 8);
    res := AppendBytes(res, f.version, 2);
    res := AppendBytes(res, f.kind, 2);
    res := AppendBytes(res, f.headerLength, 8);
    res := AppendBytes(res, |f.payload|, 8);
    res := res + f.payload;
  }

  method EncodeFrame(table: array<bv32>, f: Frame) returns (res: seq<byte>)
    requires Crc.IsTable(table[..]) && FrameOk(f)
    ensures res == Encode(f)
  {
    Widths();
    res := ComputeByteFrame(f);
    var crc := Crc.TableChecksum(table, res);
    SumBound(crc);
    res := AppendBytes(res, crc as int, 4);
  }

  datatype Decoded = Good(frame: Frame, next: nat) | Bad

  // Good exactly when some frame begins at the offset, and then that frame
  method DecodeFrame(table: array<bv32>, data: seq<byte>, offset: nat) returns (r: Decoded)
    requires Crc.IsTable(table[..]) && offset <= |data|
    ensures r.Good? ==> FrameAt(data, offset, r.frame) && r.next == offset + |Encode(r.frame)|
    ensures r.Bad? ==> NoFrameAt(data, offset)
  {
    if |data| - offset < 28 { return Bad; }
    var lsn := ReadBytes(data, offset, 8);
    var version := ReadBytes(data, offset + 8, 2);
    var kind := ReadBytes(data, offset + 10, 2);
    var headerLength := ReadBytes(data, offset + 12, 8);
    var length := ReadBytes(data, offset + 20, 8);
    ghost var h := data[offset..offset + 28];
    HeaderSlices(data, offset);
    if |data| - offset - 28 < length + 4 {
      ShortIsBad(data, offset, length);
      return Bad;
    }
    var payload := data[offset + 28..offset + 28 + length];
    var sum := ReadBytes(data, offset + 28 + length, 4);
    var f := Frame(lsn, version, kind, headerLength, payload);
    HeaderWrite(f, h);
    var bytes := ComputeByteFrame(f);
    var crc := Crc.TableChecksum(table, bytes);
    SumBound(crc);
    if crc as int != sum {
      MismatchIsBad(data, offset, f, sum);
      return Bad;
    }
    MatchIsGood(data, offset, f, sum);
    r := Good(f, offset + 32 + length);
  }

  lemma {:induction false} HeaderSlices(data: seq<byte>, offset: nat)
    requires offset + 28 <= |data|
    ensures var h := data[offset..offset + 28];
      h[0..8] == data[offset..offset + 8]
      && h[8..10] == data[offset + 8..offset + 10]
      && h[10..12] == data[offset + 10..offset + 12]
      && h[12..20] == data[offset + 12..offset + 20]
      && h[20..28] == data[offset + 20..offset + 28]
  {
    SliceOfSlice(data, offset, offset + 28, 0, 8);
    SliceOfSlice(data, offset, offset + 28, 8, 10);
    SliceOfSlice(data, offset, offset + 28, 10, 12);
    SliceOfSlice(data, offset, offset + 28, 12, 20);
    SliceOfSlice(data, offset, offset + 28, 20, 28);
  }

  lemma {:induction false} ShortIsBad(data: seq<byte>, offset: nat, length: nat)
    requires offset + 28 <= |data| < offset + 32 + length
    requires FromBigEndian(data[offset..offset + 28][20..28]) == length
    ensures NoFrameAt(data, offset)
  {
    forall f: Frame ensures !FrameAt(data, offset, f) {
      if FrameAt(data, offset, f) {
        FrameParts(data, offset, f);
        HeaderRead(f, data[offset..offset + 28]);
        assert false;
      }
    }
  }

  lemma {:induction false} MismatchIsBad(data: seq<byte>, offset: nat, f: Frame, sum: nat)
    requires FrameOk(f) && offset + 32 + |f.payload| <= |data|
    requires data[offset..offset + 28] == Header(f)
    requires data[offset + 28..offset + 28 + |f.payload|] == f.payload
    requires FromBigEndian(data[offset + 28 + |f.payload|..offset + 32 + |f.payload|]) == sum
    requires Sum(Body(f)) != sum
    ensures NoFrameAt(data, offset)
  {
    forall g: Frame ensures !FrameAt(data, offset, g) {
      if FrameAt(data, offset, g) {
        FrameParts(data, offset, g);
        HeaderRead(f, data[offset..offset + 28]);
        HeaderRead(g, data[offset..offset + 28]);
        assert f == g;
        Widths();
        BigEndianRead(Sum(Body(f)), 4);
        assert false;
      }
    }
  }

  lemma {:induction false} MatchIsGood(data: seq<byte>, offset: nat, f: Frame, sum: nat)
    requires FrameOk(f) && offset + 32 + |f.payload| <= |data|
    requires data[offset..offset + 28] == Header(f)
    requires data[offset + 28..offset + 28 + |f.payload|] == f.payload
    requires FromBigEndian(data[offset + 28 + |f.payload|..offset + 32 + |f.payload|]) == sum
    requires Sum(Body(f)) == sum
    ensures FrameAt(data, offset, f)
  {
    var n := |f.payload|;
    var trailer := data[offset + 28 + n..offset + 32 + n];
    BigEndianWrite(trailer);
    assert data[offset..offset + 32 + n]
        == data[offset..offset + 28] + data[offset + 28..offset + 28 + n] + trailer;
  }

  // ---------- what the format promises ----------

  // every strict prefix of a frame is refused
  lemma {:induction false} PrefixRefused(f: Frame, n: nat)
    requires FrameOk(f) && n < |Encode(f)|
    ensures NoFrameAt(Encode(f)[..n], 0)
  {
    forall g: Frame ensures !FrameAt(Encode(f)[..n], 0, g) {
      if FrameAt(Encode(f)[..n], 0, g) {
        var e := Encode(f);
        assert e[0..|Encode(g)|] == e[..n][0..|Encode(g)|];
        assert e[0..|e|] == e;
        FrameUnique(e, 0, f, g);
        assert false;
      }
    }
  }

  // d is the frame's bytes, altered somewhere within w bytes from p on
  ghost predicate AlteredWithin(d: seq<byte>, f: Frame, p: nat, w: nat) {
    |d| == |Encode(f)| && d != Encode(f)
    && forall i :: 0 <= i < |d| && !(p <= i < p + w) ==> d[i] == Encode(f)[i]
  }

  // a frame altered within four consecutive bytes, its length field and its
  // checksum spared, is refused whatever follows it
  lemma {:induction false} AlteredRefused(f: Frame, d: seq<byte>, p: nat, w: nat, rest: seq<byte>)
    requires FrameOk(f) && w <= 4 && p + w <= |Body(f)|
    requires p + w <= 20 || 28 <= p
    requires AlteredWithin(d, f, p, w)
    ensures NoFrameAt(d + rest, 0)
  {
    forall g: Frame ensures !FrameAt(d + rest, 0, g) {
      if FrameAt(d + rest, 0, g) {
        SameLength(f, d, p, w, rest, g);
        AlteredBody(f, d, p, w, rest, g);
      }
    }
  }

  lemma {:induction false} SameLength(f: Frame, d: seq<byte>, p: nat, w: nat, rest: seq<byte>, g: Frame)
    requires FrameOk(f) && AlteredWithin(d, f, p, w)
    requires p + w <= 20 || 28 <= p
    requires FrameAt(d + rest, 0, g)
    ensures |g.payload| == |f.payload|
  {
    var data, e := d + rest, Encode(f);
    FrameParts(data, 0, g);
    HeaderRead(g, data[0..28]);
    HeaderRead(f, Header(f));
    assert Header(f)[20..28] == e[20..28];
    assert e[20..28] == d[20..28];
    SliceOfSlice(data, 0, 28, 20, 28);
    assert data[20..28] == d[20..28];
  }

  lemma {:induction false} AlteredBody(f: Frame, d: seq<byte>, p: nat, w: nat, rest: seq<byte>, g: Frame)
    requires FrameOk(f) && w <= 4 && p + w <= |Body(f)|
    requires AlteredWithin(d, f, p, w) && |g.payload| == |f.payload|
    ensures !FrameAt(d + rest, 0, g)
  {
    if FrameAt(d + rest, 0, g) {
      var b, m := Body(f), |Body(f)|;
      BodyOf(d, rest, g);
      BodyOf(Encode(f), [], f) by {
        assert Encode(f) + [] == Encode(f);
        assert Encode(f)[0..|Encode(f)|] == Encode(f);
      }
      assert d[m..] == Encode(f)[m..];
      assert d[..m] != b by {
        assert d == d[..m] + d[m..] && Encode(f) == b + Encode(f)[m..];
      }
      AlteredSum(b, d[..m], p, w) by {
        assert forall i :: 0 <= i < m && !(p <= i < p + w) ==> d[..m][i] == b[i];
      }
      assert false;
    }
  }

  // the body of a frame at the front, and its sum behind it
  lemma {:induction false} BodyOf(d: seq<byte>, rest: seq<byte>, g: Frame)
    requires |d| == 32 + |g.payload| && FrameAt(d + rest, 0, g)
    ensures Body(g) == d[..28 + |g.payload|]
    ensures FromBigEndian(d[28 + |g.payload|..]) == Sum(Body(g))
  {
    var data, m := d + rest, 28 + |g.payload|;
    FrameParts(data, 0, g);
    assert data[0..28] + data[28..m] == d[..m];
    assert data[m..m + 4] == d[m..];
    Widths();
    BigEndianRead(Sum(Body(g)), 4);
  }

  lemma {:induction false} AlteredSum(b: seq<byte>, c: seq<byte>, p: nat, w: nat)
    requires |b| == |c| && b != c && w <= 4 && p + w <= |b|
    requires forall i :: 0 <= i < |b| && !(p <= i < p + w) ==> c[i] == b[i]
    ensures Sum(b) != Sum(c)
  {
    var xs, ys := b[p..p + w], c[p..p + w];
    assert c[..p] == b[..p] && c[p + w..] == b[p + w..];
    assert b == b[..p] + xs + b[p + w..];
    assert c == b[..p] + ys + b[p + w..];
    Crc.BurstDetected(b[..p], xs, ys, b[p + w..]);
    SumInjective(Crc.Checksum(b), Crc.Checksum(c));
  }

  lemma {:induction false} SumInjective(c: bv32, d: bv32)
    requires c != d
    ensures c as int != d as int
  {
    WordBack(c);
    WordBack(d);
  }

  lemma {:induction false} WordBack(c: bv32)
    ensures 0 <= c as int < 0x1_0000_0000 && (c as int) as bv32 == c
  {
  }
}
