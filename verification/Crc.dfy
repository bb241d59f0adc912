/** Numbers below 256 and their bit patterns. */
module Octets {
  lemma {:induction false} Back(a: int)
    requires 0 <= a < 256
    ensures (a as bv8) as int == a
  {
  }
}

/**
 * CRC-32C of the write-ahead log (v1/Wal.hpp).
 *
 * The specification is the bit-serial register of RFC 3720, section 12.1:
 * bits enter least significant first, the register starts at all ones and is
 * inverted at the end.  The program runs a table of 256 words instead.
 */
module Crc {
  import Octets

  newtype byte = x: int | 0 <= x < 256

  type octet = bv8

  // the Castagnoli polynomial, reflected
  const Poly: bv32 := 0x82F6_3B78
  const Ones: bv32 := 0xFFFF_FFFF

  // ---------- the standard, one bit at a time ----------

  function Clock(s: bv32, bit: bool): bv32 {
    if (s & 1 == 1) != bit then (s >> 1) ^ Poly else s >> 1
  }

  function ClockAll(s: bv32, bits: seq<bool>): bv32
    decreases |bits|
  {
    if bits == [] then s else ClockAll(Clock(s, bits[0]), bits[1..])
  }

  // the low n bits of a word, least significant first
  function LowBits(v: bv32, n: nat): (r: seq<bool>)
    ensures |r| == n
    decreases n, v
  {
    if n == 0 then [] else [v & 1 == 1] + LowBits(v >> 1, n - 1)
  }

  function Bits(bytes: seq<byte>): (r: seq<bool>)
    ensures |r| == 8 * |bytes|
  {
    if bytes == [] then [] else LowBits(bytes[0] as octet as bv32, 8) + Bits(bytes[1..])
  }

  function Checksum(bytes: seq<byte>): bv32 {
    ClockAll(Ones, Bits(bytes)) ^ Ones
  }

  // ---------- one shift of the program's table construction ----------

  function Shift(c: bv32): bv32 {
    if c & 1 == 1 then (c >> 1) ^ Poly else c >> 1
  }

  function Iterate<T>(f: T -> T, c: T, n: nat): T
    decreases n, c
  {
    if n == 0 then c else Iterate(f, f(c), n - 1)
  }

  function Shifts(c: bv32, n: nat): bv32 { Iterate(Shift, c, n) }

  // the inverse of Shift: the top bit of the polynomial tells the branch
  function Unshift(d: bv32): bv32 {
    if d & 0x8000_0000 != 0 then ((d ^ Poly) << 1) | 1 else d << 1
  }

  lemma {:induction false} ShiftUnshift(c: bv32)
    ensures Unshift(Shift(c)) == c
  {
  }

  // ---------- linearity ----------

  lemma {:induction false} LowBit(a: bv32)
    ensures a & 1 == 0 || a & 1 == 1
  {
  }

  lemma {:induction false} LinearOddOdd(a: bv32, b: bv32)
    requires a & 1 == 1 && b & 1 == 1
    ensures Shift(a ^ b) == Shift(a) ^ Shift(b)
  {
  }

  lemma {:induction false} LinearOddEven(a: bv32, b: bv32)
    requires a & 1 == 1 && b & 1 == 0
    ensures Shift(a ^ b) == Shift(a) ^ Shift(b)
  {
  }

  lemma {:induction false} LinearEvenOdd(a: bv32, b: bv32)
    requires a & 1 == 0 && b & 1 == 1
    ensures Shift(a ^ b) == Shift(a) ^ Shift(b)
  {
  }

  lemma {:induction false} LinearEvenEven(a: bv32, b: bv32)
    requires a & 1 == 0 && b & 1 == 0
    ensures Shift(a ^ b) == Shift(a) ^ Shift(b)
  {
  }

  lemma {:induction false} ShiftLinear(a: bv32, b: bv32)
    ensures Shift(a ^ b) == Shift(a) ^ Shift(b)
  {
    LowBit(a);
    LowBit(b);
    if a & 1 == 1 {
      if b & 1 == 1 { LinearOddOdd(a, b); } else { LinearOddEven(a, b); }
    } else {
      if b & 1 == 1 { LinearEvenOdd(a, b); } else { LinearEvenEven(a, b); }
    }
  }

  // iterating keeps whatever operation one step distributes over
  lemma {:induction false} IterateKeeps<T>(f: T -> T, op: (T, T) -> T, a: T, b: T, n: nat)
    requires forall x, y :: f(op(x, y)) == op(f(x), f(y))
    ensures Iterate(f, op(a, b), n) == op(Iterate(f, a, n), Iterate(f, b, n))
    decreases n
  {
    if n > 0 {
      IterateKeeps(f, op, f(a), f(b), n - 1);
    }
  }

  function Xor(a: bv32, b: bv32): bv32 { a ^ b }

  lemma {:induction false} ShiftsXor(a: bv32, b: bv32, n: nat)
    ensures Shifts(Xor(a, b), n) == Xor(Shifts(a, n), Shifts(b, n))
  {
    forall x, y ensures Shift(Xor(x, y)) == Xor(Shift(x), Shift(y)) {
      ShiftLinear(x, y);
    }
    IterateKeeps(Shift, Xor, a, b, n);
  }

  lemma {:induction false} ShiftsLinear(a: bv32, b: bv32, n: nat)
    ensures Shifts(a ^ b, n) == Shifts(a, n) ^ Shifts(b, n)
  {
    ShiftsXor(a, b, n);
  }

  // a register with an empty low byte is only moved down
  lemma {:induction false} ShiftsHigh(a: bv32)
    requires a & 0xFF == 0
    ensures Shifts(a, 8) == a >> 8
  {
    Eightfold(a);
  }

  lemma {:induction false} Eightfold(c: bv32)
    ensures Shifts(c, 8) == Shift(Shift(Shift(Shift(Shift(Shift(Shift(Shift(c))))))))
  {
    var c1 := Shift(c);
    var c2 := Shift(c1);
    var c3 := Shift(c2);
    var c4 := Shift(c3);
    var c5 := Shift(c4);
    var c6 := Shift(c5);
    var c7 := Shift(c6);
    assert Shifts(Shift(c7), 0) == Shift(c7);
    assert Shifts(c7, 1) == Shift(c7);
    assert Shifts(c6, 2) == Shift(c7);
    assert Shifts(c5, 3) == Shift(c7);
    assert Shifts(c4, 4) == Shift(c7);
    assert Shifts(c3, 5) == Shift(c7);
    assert Shifts(c2, 6) == Shift(c7);
    assert Shifts(c1, 7) == Shift(c7);
  }

  // ---------- a whole byte enters at once ----------

  predicate Fits(v: bv32, n: nat)
    decreases n, v
  {
    if n == 0 then v == 0 else Fits(v >> 1, n - 1)
  }

  lemma {:induction false} ByteFits(b: octet)
    ensures Fits(b as bv32, 8)
  {
    var v := b as bv32;
    assert v >> 8 == 0;
    var v1 := v >> 1;
    var v2 := v1 >> 1;
    var v3 := v2 >> 1;
    var v4 := v3 >> 1;
    var v5 := v4 >> 1;
    var v6 := v5 >> 1;
    var v7 := v6 >> 1;
    assert v7 >> 1 == 0;
    assert Fits(v7, 1);
    assert Fits(v6, 2);
    assert Fits(v5, 3);
    assert Fits(v4, 4);
    assert Fits(v3, 5);
    assert Fits(v2, 6);
    assert Fits(v1, 7);
  }

  lemma {:induction false} EvenIntoOdd(x: bv32, u: bv32)
    requires x & 1 == 1 && u & 1 == 0
    ensures Shift(x ^ u) == Shift(x) ^ (u >> 1)
  {
  }

  lemma {:induction false} EvenIntoEven(x: bv32, u: bv32)
    requires x & 1 == 0 && u & 1 == 0
    ensures Shift(x ^ u) == Shift(x) ^ (u >> 1)
  {
  }

  lemma {:induction false} EvenInto(x: bv32, u: bv32)
    requires u & 1 == 0
    ensures Shift(x ^ u) == Shift(x) ^ (u >> 1)
  {
    LowBit(x);
    if x & 1 == 1 { EvenIntoOdd(x, u); } else { EvenIntoEven(x, u); }
  }

  lemma {:induction false} ClockShifts(s: bv32)
    ensures Clock(s, false) == Shift(s)
    ensures Clock(s, true) == Shift(s ^ 1)
  {
  }

  lemma {:induction false} OddParts(s: bv32, v: bv32)
    requires v & 1 == 1
    ensures s ^ v == (s ^ 1) ^ (v ^ 1)
    ensures (v ^ 1) & 1 == 0 && (v ^ 1) >> 1 == v >> 1
  {
  }

  lemma {:induction false} EnterBit(s: bv32, v: bv32)
    ensures Shift(s ^ v) == Clock(s, v & 1 == 1) ^ (v >> 1)
  {
    LowBit(v);
    ClockShifts(s);
    if v & 1 == 1 {
      OddParts(s, v);
      EvenInto(s ^ 1, v ^ 1);
    } else {
      EvenInto(s, v);
    }
  }

  lemma {:induction false} EnterBits(s: bv32, v: bv32, n: nat)
    requires Fits(v, n)
    ensures ClockAll(s, LowBits(v, n)) == Shifts(s ^ v, n)
    decreases n
  {
    if n > 0 {
      EnterBit(s, v);
      EnterBits(Clock(s, v & 1 == 1), v >> 1, n - 1);
    }
  }

  // ---------- the table ----------

  function ByteShifts(b: octet): bv32 { Shifts(b as bv32, 8) }

  function Entry(i: nat): bv32
    requires i < 256
  {
    ByteShifts(i as octet)
  }

  lemma {:induction false} ByteIndex(b: octet)
    ensures 0 <= b as int < 256 && (b as int) as octet == b
  {
  }

  lemma {:induction false} EntryOf(b: octet, c: octet)
    requires 0 <= b as int < 256 && (b as int) as octet == c
    ensures Entry(b as int) == ByteShifts(c)
  {
  }

  ghost predicate IsTable(t: seq<bv32>) {
    |t| == 256 && forall i :: 0 <= i < 256 ==> t[i] == Entry(i)
  }

  function LowByte(x: bv32): octet { (x & 0xFF) as octet }

  function Feed(s: bv32, b: octet): bv32 { Shifts(s ^ b as bv32, 8) }

  // only the low byte of the register takes part in the feedback
  lemma {:induction false} SplitLow(s: bv32, b: octet)
    ensures s ^ b as bv32 == (s & 0xFFFF_FF00) ^ LowByte(s ^ b as bv32) as bv32
    ensures (s & 0xFFFF_FF00) & 0xFF == 0
    ensures (s & 0xFFFF_FF00) >> 8 == s >> 8
  {
  }

  lemma {:induction false} ShiftsParts(x: bv32, high: bv32, low: bv32)
    requires x == high ^ low && high & 0xFF == 0
    ensures Shifts(x, 8) == (high >> 8) ^ Shifts(low, 8)
  {
    ShiftsLinear(high, low, 8);
    ShiftsHigh(high);
  }

  lemma {:induction false} FeedParts(s: bv32, b: octet)
    ensures Feed(s, b) == (s >> 8) ^ ByteShifts(LowByte(s ^ b as bv32))
  {
    SplitLow(s, b);
    ShiftsParts(s ^ b as bv32, s & 0xFFFF_FF00, LowByte(s ^ b as bv32) as bv32);
  }

  method MakeTable() returns (table: array<bv32>)
    ensures fresh(table) && IsTable(table[..])
  {
    table := new bv32[256];
    for i := 0 to 256
      invariant forall k :: 0 <= k < i ==> table[k] == Entry(k)
    {
      var crc := i as octet as bv32;
      for j := 0 to 8
        invariant Shifts(crc, 8 - j) == Entry(i)
      {
        crc := if crc & 1 == 1 then (crc >> 1) ^ Poly else crc >> 1;
      }
      table[i] := crc;
    }
  }

  lemma {:induction false} ClockAllJoin(s: bv32, xs: seq<bool>, ys: seq<bool>)
    ensures ClockAll(s, xs + ys) == ClockAll(ClockAll(s, xs), ys)
    decreases |xs|
  {
    if xs == [] {
      assert xs + ys == ys;
    } else {
      assert (xs + ys)[0] == xs[0] && (xs + ys)[1..] == xs[1..] + ys;
      ClockAllJoin(Clock(s, xs[0]), xs[1..], ys);
    }
  }

  function FeedAll(s: bv32, bytes: seq<byte>): bv32
    decreases |bytes|
  {
    if bytes == [] then s else FeedAll(Feed(s, bytes[0] as octet), bytes[1..])
  }

  lemma {:induction false} FeedIsSerial(s: bv32, b: octet)
    ensures Feed(s, b) == ClockAll(s, LowBits(b as bv32, 8))
  {
    ByteFits(b);
    EnterBits(s, b as bv32, 8);
  }

  lemma {:induction false} FeedAllIsSerial(s: bv32, bytes: seq<byte>)
    ensures FeedAll(s, bytes) == ClockAll(s, Bits(bytes))
    decreases |bytes|
  {
    if bytes != [] {
      FeedIsSerial(s, bytes[0] as octet);
      FeedAllIsSerial(Feed(s, bytes[0] as octet), bytes[1..]);
      ClockAllJoin(s, LowBits(bytes[0] as octet as bv32, 8), Bits(bytes[1..]));
    }
  }

  method FeedByTable(table: array<bv32>, s: bv32, b: octet) returns (r: bv32)
    requires IsTable(table[..])
    ensures r == Feed(s, b)
  {
    var low := LowByte(s ^ b as bv32);
    ByteIndex(low);
    r := (s >> 8) ^ table[low as int];
    EntryOf(low, low);
    FeedParts(s, b);
  }

  method TableChecksum(table: array<bv32>, bytes: seq<byte>) returns (crc: bv32)
    requires IsTable(table[..])
    ensures crc == Checksum(bytes)
  {
    var s := Ones;
    for i := 0 to |bytes|
      invariant FeedAll(s, bytes[i..]) == FeedAll(Ones, bytes)
    {
      assert bytes[i..][0] == bytes[i] && bytes[i..][1..] == bytes[i + 1..];
      s := FeedByTable(table, s, bytes[i] as octet);
    }
    FeedAllIsSerial(Ones, bytes);
    crc := s ^ Ones;
  }

  // ---------- what the checksum detects ----------

  lemma {:induction false} ClockInjective(s: bv32, t: bv32, bit: bool)
    requires Clock(s, bit) == Clock(t, bit)
    ensures s == t
  {
    ClockShifts(s);
    ClockShifts(t);
    if bit {
      ShiftUnshift(s ^ 1);
      ShiftUnshift(t ^ 1);
      assert s == (s ^ 1) ^ 1;
    } else {
      ShiftUnshift(s);
      ShiftUnshift(t);
    }
  }

  // equal bits never bring two registers together
  lemma {:induction false} SameBitsApart(s: bv32, t: bv32, bits: seq<bool>)
    requires s != t
    ensures ClockAll(s, bits) != ClockAll(t, bits)
    decreases |bits|
  {
    if bits != [] {
      if Clock(s, bits[0]) == Clock(t, bits[0]) {
        ClockInjective(s, t, bits[0]);
      }
      SameBitsApart(Clock(s, bits[0]), Clock(t, bits[0]), bits[1..]);
    }
  }

  function Half(m: bv32, n: nat): bv32
    decreases n
  {
    if n == 0 then m else Half(m >> 1, n - 1)
  }

  lemma {:induction false} HalfOfZero(n: nat)
    ensures Half(0, n) == 0
  {
    if n > 0 { HalfOfZero(n - 1); }
  }

  lemma {:induction false} HalfFewer(m: bv32, k: nat, n: nat)
    requires k <= n && Half(m, n) != 0
    ensures Half(m, k) != 0
    decreases k
  {
    if k == 0 {
      if m == 0 { HalfOfZero(n); }
    } else {
      HalfFewer(m >> 1, k - 1, n - 1);
    }
  }

  lemma {:induction false} TopBitLasts(k: nat)
    requires k <= 31
    ensures Half(0x8000_0000, k) != 0
  {
    assert Half(0x2, 1) == 1;
    assert Half(0x4, 2) == 1;
    assert Half(0x8, 3) == 1;
    assert Half(0x10, 4) == 1;
    assert Half(0x20, 5) == 1;
    assert Half(0x40, 6) == 1;
    assert Half(0x80, 7) == 1;
    assert Half(0x100, 8) == 1;
    assert Half(0x200, 9) == 1;
    assert Half(0x400, 10) == 1;
    assert Half(0x800, 11) == 1;
    assert Half(0x1000, 12) == 1;
    assert Half(0x2000, 13) == 1;
    assert Half(0x4000, 14) == 1;
    assert Half(0x8000, 15) == 1;
    assert Half(0x10000, 16) == 1;
    assert Half(0x20000, 17) == 1;
    assert Half(0x40000, 18) == 1;
    assert Half(0x80000, 19) == 1;
    assert Half(0x100000, 20) == 1;
    assert Half(0x200000, 21) == 1;
    assert Half(0x400000, 22) == 1;
    assert Half(0x800000, 23) == 1;
    assert Half(0x1000000, 24) == 1;
    assert Half(0x2000000, 25) == 1;
    assert Half(0x4000000, 26) == 1;
    assert Half(0x8000000, 27) == 1;
    assert Half(0x10000000, 28) == 1;
    assert Half(0x20000000, 29) == 1;
    assert Half(0x40000000, 30) == 1;
    assert Half(0x80000000, 31) == 1;
    HalfFewer(0x8000_0000, k, 31);
  }

  function Low(bit: bool): bv32 { if bit then 1 else 0 }

  lemma {:induction false} BothTapped(s: bv32, t: bv32, m: bv32)
    requires s ^ t >= m
    ensures ((s >> 1) ^ Poly) ^ ((t >> 1) ^ Poly) >= m >> 1
  {
  }

  lemma {:induction false} FirstTapped(s: bv32, t: bv32, m: bv32)
    requires s ^ t >= m
    ensures ((s >> 1) ^ Poly) ^ (t >> 1) >= m >> 1
  {
  }

  lemma {:induction false} SecondTapped(s: bv32, t: bv32, m: bv32)
    requires s ^ t >= m
    ensures (s >> 1) ^ ((t >> 1) ^ Poly) >= m >> 1
  {
  }

  lemma {:induction false} NoneTapped(s: bv32, t: bv32, m: bv32)
    requires s ^ t >= m
    ensures (s >> 1) ^ (t >> 1) >= m >> 1
  {
  }

  // whatever bits enter, a difference loses at most one bit of its height
  lemma {:induction false} ClockFloor(s: bv32, t: bv32, a: bool, b: bool, m: bv32)
    requires s ^ t >= m
    ensures Clock(s, a) ^ Clock(t, b) >= m >> 1
  {
    if (s & 1 == 1) != a {
      if (t & 1 == 1) != b { BothTapped(s, t, m); } else { FirstTapped(s, t, m); }
    } else {
      if (t & 1 == 1) != b { SecondTapped(s, t, m); } else { NoneTapped(s, t, m); }
    }
  }

  // the registers differ by m or more
  ghost predicate Far(s: bv32, t: bv32, m: bv32) {
    forall d {:trigger Differ(s, t, d)} :: Differ(s, t, d) ==> d >= m
  }

  predicate Differ(s: bv32, t: bv32, d: bv32) { d == s ^ t }

  lemma {:induction false} StaysFar(s: bv32, t: bv32, a: bool, b: bool, m: bv32)
    requires Far(s, t, m)
    ensures Far(Clock(s, a), Clock(t, b), m >> 1)
  {
    assert Differ(s, t, s ^ t);
    ClockFloor(s, t, a, b, m);
  }

  lemma {:induction false} FarUnequal(s: bv32, t: bv32, m: bv32)
    requires Far(s, t, m) && m != 0
    ensures s != t
  {
    assert Differ(s, t, s ^ t);
    Unequal(s, t, m);
  }

  lemma {:induction false} Unequal(s: bv32, t: bv32, m: bv32)
    requires s ^ t >= m && m != 0
    ensures s != t
  {
  }

  lemma {:induction false} StayApart(s: bv32, t: bv32, xs: seq<bool>, ys: seq<bool>, m: bv32)
    requires |xs| == |ys| && Half(m, |xs|) != 0 && Far(s, t, m)
    ensures ClockAll(s, xs) != ClockAll(t, ys)
    decreases |xs|
  {
    if xs == [] {
      FarUnequal(s, t, m);
    } else {
      StaysFar(s, t, xs[0], ys[0], m);
      StayApart(Clock(s, xs[0]), Clock(t, ys[0]), xs[1..], ys[1..], m >> 1);
    }
  }

  lemma {:induction false} FirstDifference(s: bv32)
    ensures Far(Clock(s, true), Clock(s, false), 0x8000_0000)
    ensures Far(Clock(s, false), Clock(s, true), 0x8000_0000)
  {
  }

  // thirty-two bits from one register, or fewer, are told apart
  lemma {:induction false} BurstOfBits(s: bv32, xs: seq<bool>, ys: seq<bool>)
    requires |xs| == |ys| <= 32 && xs != ys
    ensures ClockAll(s, xs) != ClockAll(s, ys)
    decreases |xs|
  {
    if xs[0] == ys[0] {
      assert xs == [xs[0]] + xs[1..] && ys == [ys[0]] + ys[1..];
      BurstOfBits(Clock(s, xs[0]), xs[1..], ys[1..]);
    } else {
      FirstDifference(s);
      TopBitLasts(|xs| - 1);
      StayApart(Clock(s, xs[0]), Clock(s, ys[0]), xs[1..], ys[1..], 0x8000_0000);
    }
  }

  lemma {:induction false} Joining<T>(xs: seq<T>, ys: seq<T>, zs: seq<T>)
    ensures (xs + ys) + zs == xs + (ys + zs)
  {
  }

  lemma {:induction false} BitsJoin(xs: seq<byte>, ys: seq<byte>)
    ensures Bits(xs + ys) == Bits(xs) + Bits(ys)
  {
    if xs == [] {
      assert xs + ys == ys;
    } else {
      assert (xs + ys)[0] == xs[0] && (xs + ys)[1..] == xs[1..] + ys;
      BitsJoin(xs[1..], ys);
      Joining(LowBits(xs[0] as octet as bv32, 8), Bits(xs[1..]), Bits(ys));
    }
  }

  function Word(bits: seq<bool>): bv32 {
    if bits == [] then 0 else (Word(bits[1..]) << 1) | Low(bits[0])
  }

  lemma {:induction false} Halves(v: bv32)
    ensures ((v >> 1) << 1) | Low(v & 1 == 1) == v
  {
  }

  lemma {:induction false} WordOfLowBits(v: bv32, n: nat)
    requires Fits(v, n)
    ensures Word(LowBits(v, n)) == v
    decreases n
  {
    if n > 0 {
      assert LowBits(v, n)[1..] == LowBits(v >> 1, n - 1);
      WordOfLowBits(v >> 1, n - 1);
      Halves(v);
    }
  }

  lemma {:induction false} OctetBack(a: byte)
    ensures ((a as int) as octet) as int == a as int
  {
    Octets.Back(a as int);
  }

  lemma {:induction false} OctetWord(o: octet, p: octet)
    requires o as bv32 == p as bv32
    ensures o == p
  {
  }

  lemma {:induction false} ByteWord(a: byte, b: byte)
    requires a as octet as bv32 == b as octet as bv32
    ensures a == b
  {
    OctetWord(a as octet, b as octet);
    OctetBack(a);
    OctetBack(b);
  }

  lemma {:induction false} BitsHead(xs: seq<byte>)
    requires xs != []
    ensures Word(Bits(xs)[..8]) == xs[0] as octet as bv32
    ensures Bits(xs)[8..] == Bits(xs[1..])
  {
    ByteFits(xs[0] as octet);
    WordOfLowBits(xs[0] as octet as bv32, 8);
    assert Bits(xs)[..8] == LowBits(xs[0] as octet as bv32, 8);
  }

  lemma {:induction false} BitsInjective(xs: seq<byte>, ys: seq<byte>)
    requires |xs| == |ys| && Bits(xs) == Bits(ys)
    ensures xs == ys
  {
    if xs != [] {
      BitsHead(xs);
      BitsHead(ys);
      ByteWord(xs[0], ys[0]);
      BitsInjective(xs[1..], ys[1..]);
      assert xs == [xs[0]] + xs[1..] && ys == [ys[0]] + ys[1..];
    }
  }

  lemma {:induction false} ChecksumApart(xs: bv32, ys: bv32)
    requires xs != ys
    ensures xs ^ Ones != ys ^ Ones
  {
  }

  // two messages that differ only within four consecutive bytes
  lemma {:induction false} BurstDetected(before: seq<byte>, xs: seq<byte>, ys: seq<byte>, after: seq<byte>)
    requires |xs| == |ys| <= 4 && xs != ys
    ensures Checksum(before + xs + after) != Checksum(before + ys + after)
  {
    var p, q := ClockAll(Ones, Bits(before)), Bits(after);
    BitsJoin(before + xs, after);
    BitsJoin(before, xs);
    BitsJoin(before + ys, after);
    BitsJoin(before, ys);
    ClockAllJoin(Ones, Bits(before) + Bits(xs), q);
    ClockAllJoin(Ones, Bits(before), Bits(xs));
    ClockAllJoin(Ones, Bits(before) + Bits(ys), q);
    ClockAllJoin(Ones, Bits(before), Bits(ys));
    if Bits(xs) == Bits(ys) { BitsInjective(xs, ys); }
    BurstOfBits(p, Bits(xs), Bits(ys));
    SameBitsApart(ClockAll(p, Bits(xs)), ClockAll(p, Bits(ys)), q);
    ChecksumApart(ClockAll(Ones, Bits(before + xs + after)), ClockAll(Ones, Bits(before + ys + after)));
  }
}
