/**
 * The filter of a sorted-string table (v1/LSM_Engine.hpp): bits set in place
 * at slots computed from two hashes of the key.
 */
module BloomFilters {
  import opened WalCodec

  // size_t arithmetic wraps
  function SlotOf(one: nat, two: nat, i: nat, size: nat): (s: nat)
    requires size > 0
    ensures s < size
  {
    ((one + i * two) % Long) % size
  }

  // a stored filter lets a key pass
  ghost predicate Passes(stored: seq<byte>, slots: set<nat>) {
    forall s :: s in slots ==> s < |stored| && stored[s] == 1
  }

  class BloomFilter {
    const hashCount: nat
    const hashOne: seq<byte> -> nat
    const hashTwo: seq<byte> -> nat
    const bits: array<bool>

    constructor (size: nat, hashCount: nat, hashOne: seq<byte> -> nat, hashTwo: seq<byte> -> nat)
      requires size > 0
      ensures bits.Length == size && fresh(bits) && this.hashCount == hashCount
      ensures this.hashOne == hashOne && this.hashTwo == hashTwo
      ensures forall j :: 0 <= j < size ==> !bits[j]
    {
      this.hashCount, this.hashOne, this.hashTwo := hashCount, hashOne, hashTwo;
      bits := new bool[size](_ => false);
    }

    function Slot(key: seq<byte>, i: nat): (s: nat)
      requires bits.Length > 0
      ensures s == ((hashOne(key) + i * hashTwo(key)) % 0x1_0000_0000_0000_0000) % bits.Length < bits.Length
    {
      SlotOf(hashOne(key), hashTwo(key), i, bits.Length)
    }

    ghost function Slots(key: seq<byte>): set<nat>
      requires bits.Length > 0
    {
      set i | 0 <= i < hashCount :: Slot(key, i)
    }

    ghost predicate Has(key: seq<byte>)
      requires bits.Length > 0
      reads bits
    {
      forall s :: s in Slots(key) ==> bits[s]
    }

    // exactly the key's slots are set in addition
    method AppendKey(key: seq<byte>)
      requires bits.Length > 0
      modifies bits
      ensures forall j :: 0 <= j < bits.Length ==> (bits[j] <==> old(bits[j]) || j in Slots(key))
    {
      for i := 0 to hashCount
        invariant forall j :: 0 <= j < bits.Length ==>
          (bits[j] <==> old(bits[j]) || j in (set x | 0 <= x < i :: Slot(key, x)))
      {
        bits[Slot(key, i)] := true;
        assert (set x | 0 <= x < i + 1 :: Slot(key, x)) == (set x | 0 <= x < i :: Slot(key, x)) + {Slot(key, i)};
      }
    }

    method HasKey(key: seq<byte>) returns (r: bool)
      requires bits.Length > 0
      ensures r <==> Has(key)
    {
      for i := 0 to hashCount
        invariant forall x :: 0 <= x < i ==> bits[Slot(key, x)]
      {
        if !bits[Slot(key, i)] {
          assert Slot(key, i) in Slots(key);
          return false;
        }
      }
      r := true;
    }

    // one byte for every bit
    method GetBloomFilter() returns (stored: seq<byte>)
      ensures Stores(stored, this)
    {
      stored := [];
      for i := 0 to bits.Length
        invariant |stored| == i && forall j :: 0 <= j < i ==> stored[j] == if bits[j] then 1 else 0
      {
        stored := stored + [if bits[i] then 1 else 0];
      }
    }

    // the bits of a stored filter; missing ones are clear
    method SetMArry(stored: seq<byte>)
      modifies bits
      ensures forall j :: 0 <= j < bits.Length ==> (bits[j] <==> j < |stored| && stored[j] % 2 == 1)
    {
      Clear();
      var count := 0;
      while count < |stored| && count < bits.Length
        invariant 0 <= count <= |stored| && count <= bits.Length
        invariant forall j :: 0 <= j < bits.Length ==> (bits[j] <==> j < count && stored[j] % 2 == 1)
      {
        bits[count] := stored[count] % 2 == 1;
        count := count + 1;
      }
    }

    method Clear()
      modifies bits
      ensures forall j :: 0 <= j < bits.Length ==> !bits[j]
    {
      for i := 0 to bits.Length
        invariant forall j :: 0 <= j < i ==> !bits[j]
      {
        bits[i] := false;
      }
    }
  }

  ghost predicate Stores(stored: seq<byte>, f: BloomFilter)
    reads f.bits
  {
    |stored| == f.bits.Length && forall j :: 0 <= j < f.bits.Length ==> stored[j] == if f.bits[j] then 1 else 0
  }

  // a filter read back answers as the one that was stored
  lemma {:induction false} ReadBackAnswers(f: BloomFilter, g: BloomFilter, stored: seq<byte>, key: seq<byte>)
    requires f.bits.Length == g.bits.Length > 0 && Stores(stored, f)
    requires forall j :: 0 <= j < g.bits.Length ==> (g.bits[j] <==> stored[j] % 2 == 1)
    requires f.hashCount == g.hashCount && f.hashOne == g.hashOne && f.hashTwo == g.hashTwo
    ensures f.Has(key) <==> g.Has(key)
    ensures f.Has(key) <==> Passes(stored, f.Slots(key))
  {
    forall s | true ensures s in f.Slots(key) <==> s in g.Slots(key) {
      forall i | 0 <= i < f.hashCount ensures f.Slot(key, i) == g.Slot(key, i) { }
    }
    assert f.Slots(key) == g.Slots(key);
  }
}
