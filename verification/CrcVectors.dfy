/** The checksum against what RFC 3720 says of it. */
module CrcVectors {
  import opened Crc

  // Section 12.1 of RFC 3720: x^32 + x^28 + x^27 + x^26 + x^25 + x^23 + x^22 +
  // x^20 + x^19 + x^18 + x^14 + x^13 + x^11 + x^10 + x^9 + x^8 + x^6 + 1.  The
  // constant has the coefficient of x^i at bit 31 - i.
  const Exponents: set<nat> := {0, 6, 8, 9, 10, 11, 13, 14, 18, 19, 20, 22, 23, 25, 26, 27, 28}

  lemma {:induction false} PolyBits(i: nat)
    requires i < 32
    ensures (Poly >> (31 - i)) & 1 == 1 <==> i in Exponents
  {
  }

  // one byte through the register
  lemma {:induction false} Fed(s: bv32, b: octet, r: bv32)
    requires Shift(Shift(Shift(Shift(Shift(Shift(Shift(Shift(s ^ b as bv32)))))))) == r
    ensures Feed(s, b) == r
  {
    Eightfold(s ^ b as bv32);
  }

  lemma {:induction false} Next(bytes: seq<byte>, k: nat, b: octet, s: bv32, r: bv32)
    requires k < |bytes| && bytes[k] as octet == b && Feed(s, b) == r
    ensures FeedAll(s, bytes[k..]) == FeedAll(r, bytes[k + 1..])
  {
    assert bytes[k..][1..] == bytes[k + 1..];
  }

  lemma {:induction false} Words1()
    ensures Feed(0xFFFF_FFFF, 0) == 0xAD82_ACAE
    ensures Feed(0xAD82_ACAE, 1) == 0xFCF5_0B2E
    ensures Feed(0xFCF5_0B2E, 2) == 0x6D02_B405
    ensures Feed(0x6D02_B405, 3) == 0x26CC_E55C
  {
    Fed(0xFFFF_FFFF, 0, 0xAD82_ACAE);
    Fed(0xAD82_ACAE, 1, 0xFCF5_0B2E);
    Fed(0xFCF5_0B2E, 2, 0x6D02_B405);
    Fed(0x6D02_B405, 3, 0x26CC_E55C);
  }

  lemma {:induction false} Words2()
    ensures Feed(0x26CC_E55C, 4) == 0xDBDA_4EF9
    ensures Feed(0xDBDA_4EF9, 5) == 0xBEF6_7AEB
    ensures Feed(0xBEF6_7AEB, 6) == 0x5CA6_12B3
    ensures Feed(0x5CA6_12B3, 7) == 0x75D3_43C4
  {
    Fed(0x26CC_E55C, 4, 0xDBDA_4EF9);
    Fed(0xDBDA_4EF9, 5, 0xBEF6_7AEB);
    Fed(0xBEF6_7AEB, 6, 0x5CA6_12B3);
    Fed(0x5CA6_12B3, 7, 0x75D3_43C4);
  }

  lemma {:induction false} Words3()
    ensures Feed(0x75D3_43C4, 8) == 0x8EBB_3A57
    ensures Feed(0x8EBB_3A57, 9) == 0xFDD3_DECE
    ensures Feed(0xFDD3_DECE, 10) == 0x04EA_6205
    ensures Feed(0x04EA_6205, 11) == 0xAC7C_5545
  {
    Fed(0x75D3_43C4, 8, 0x8EBB_3A57);
    Fed(0x8EBB_3A57, 9, 0xFDD3_DECE);
    Fed(0xFDD3_DECE, 10, 0x04EA_6205);
    Fed(0x04EA_6205, 11, 0xAC7C_5545);
  }

  lemma {:induction false} Words4()
    ensures Feed(0xAC7C_5545, 12) == 0x3965_BA25
    ensures Feed(0x3965_BA25, 13) == 0xAA5D_B3AB
    ensures Feed(0xAA5D_B3AB, 14) == 0x9710_FC09
    ensures Feed(0x9710_FC09, 15) == 0x2636_F714
  {
    Fed(0xAC7C_5545, 12, 0x3965_BA25);
    Fed(0x3965_BA25, 13, 0xAA5D_B3AB);
    Fed(0xAA5D_B3AB, 14, 0x9710_FC09);
    Fed(0x9710_FC09, 15, 0x2636_F714);
  }

  lemma {:induction false} Words5()
    ensures Feed(0x2636_F714, 16) == 0xC7BC_A1E8
    ensures Feed(0xC7BC_A1E8, 17) == 0x8B1B_0818
    ensures Feed(0x8B1B_0818, 18) == 0x6B69_3330
    ensures Feed(0x6B69_3330, 19) == 0x3386_1419
  {
    Fed(0x2636_F714, 16, 0xC7BC_A1E8);
    Fed(0xC7BC_A1E8, 17, 0x8B1B_0818);
    Fed(0x8B1B_0818, 18, 0x6B69_3330);
    Fed(0x6B69_3330, 19, 0x3386_1419);
  }

  lemma {:induction false} Words6()
    ensures Feed(0x3386_1419, 20) == 0xBF1B_CAC7
    ensures Feed(0xBF1B_CAC7, 21) == 0x3257_8A96
    ensures Feed(0x3257_8A96, 22) == 0x82C4_6CF2
    ensures Feed(0x82C4_6CF2, 23) == 0xD643_786A
  {
    Fed(0x3386_1419, 20, 0xBF1B_CAC7);
    Fed(0xBF1B_CAC7, 21, 0x3257_8A96);
    Fed(0x3257_8A96, 22, 0x82C4_6CF2);
    Fed(0x82C4_6CF2, 23, 0xD643_786A);
  }

  lemma {:induction false} Words7()
    ensures Feed(0xD643_786A, 24) == 0x9075_6782
    ensures Feed(0x9075_6782, 25) == 0x0BB1_224B
    ensures Feed(0x0BB1_224B, 26) == 0xA345_E8F2
    ensures Feed(0xA345_E8F2, 27) == 0x9B21_363E
  {
    Fed(0xD643_786A, 24, 0x9075_6782);
    Fed(0x9075_6782, 25, 0x0BB1_224B);
    Fed(0x0BB1_224B, 26, 0xA345_E8F2);
    Fed(0xA345_E8F2, 27, 0x9B21_363E);
  }

  lemma {:induction false} Words8()
    ensures Feed(0x9B21_363E, 28) == 0xC11D_DF1F
    ensures Feed(0xC11D_DF1F, 29) == 0xE1FA_6D28
    ensures Feed(0xE1FA_6D28, 30) == 0x16A3_5434
    ensures Feed(0x16A3_5434, 31) == 0xB922_86B1
  {
    Fed(0x9B21_363E, 28, 0xC11D_DF1F);
    Fed(0xC11D_DF1F, 29, 0xE1FA_6D28);
    Fed(0xE1FA_6D28, 30, 0x16A3_5434);
    Fed(0x16A3_5434, 31, 0xB922_86B1);
  }

  lemma {:induction false} Bytes1(bytes: seq<byte>)
    requires |bytes| == 32 && forall i :: 0 <= i < 32 ==> bytes[i] == i as byte
    ensures FeedAll(0xFFFF_FFFF, bytes[0..]) == FeedAll(0x26CC_E55C, bytes[4..])
  {
    Words1();
    Next(bytes, 0, 0, 0xFFFF_FFFF, 0xAD82_ACAE);
    Next(bytes, 1, 1, 0xAD82_ACAE, 0xFCF5_0B2E);
    Next(bytes, 2, 2, 0xFCF5_0B2E, 0x6D02_B405);
    Next(bytes, 3, 3, 0x6D02_B405, 0x26CC_E55C);
  }

  lemma {:induction false} Bytes2(bytes: seq<byte>)
    requires |bytes| == 32 && forall i :: 0 <= i < 32 ==> bytes[i] == i as byte
    ensures FeedAll(0x26CC_E55C, bytes[4..]) == FeedAll(0x75D3_43C4, bytes[8..])
  {
    Words2();
    Next(bytes, 4, 4, 0x26CC_E55C, 0xDBDA_4EF9);
    Next(bytes, 5, 5, 0xDBDA_4EF9, 0xBEF6_7AEB);
    Next(bytes, 6, 6, 0xBEF6_7AEB, 0x5CA6_12B3);
    Next(bytes, 7, 7, 0x5CA6_12B3, 0x75D3_43C4);
  }

  lemma {:induction false} Bytes3(bytes: seq<byte>)
    requires |bytes| == 32 && forall i :: 0 <= i < 32 ==> bytes[i] == i as byte
    ensures FeedAll(0x75D3_43C4, bytes[8..]) == FeedAll(0xAC7C_5545, bytes[12..])
  {
    Words3();
    Next(bytes, 8, 8, 0x75D3_43C4, 0x8EBB_3A57);
    Next(bytes, 9, 9, 0x8EBB_3A57, 0xFDD3_DECE);
    Next(bytes, 10, 10, 0xFDD3_DECE, 0x04EA_6205);
    Next(bytes, 11, 11, 0x04EA_6205, 0xAC7C_5545);
  }

  lemma {:induction false} Bytes4(bytes: seq<byte>)
    requires |bytes| == 32 && forall i :: 0 <= i < 32 ==> bytes[i] == i as byte
    ensures FeedAll(0xAC7C_5545, bytes[12..]) == FeedAll(0x2636_F714, bytes[16..])
  {
    Words4();
    Next(bytes, 12, 12, 0xAC7C_5545, 0x3965_BA25);
    Next(bytes, 13, 13, 0x3965_BA25, 0xAA5D_B3AB);
    Next(bytes, 14, 14, 0xAA5D_B3AB, 0x9710_FC09);
    Next(bytes, 15, 15, 0x9710_FC09, 0x2636_F714);
  }

  lemma {:induction false} Bytes5(bytes: seq<byte>)
    requires |bytes| == 32 && forall i :: 0 <= i < 32 ==> bytes[i] == i as byte
    ensures FeedAll(0x2636_F714, bytes[16..]) == FeedAll(0x3386_1419, bytes[20..])
  {
    Words5();
    Next(bytes, 16, 16, 0x2636_F714, 0xC7BC_A1E8);
    Next(bytes, 17, 17, 0xC7BC_A1E8, 0x8B1B_0818);
    Next(bytes, 18, 18, 0x8B1B_0818, 0x6B69_3330);
    Next(bytes, 19, 19, 0x6B69_3330, 0x3386_1419);
  }

  lemma {:induction false} Bytes6(bytes: seq<byte>)
    requires |bytes| == 32 && forall i :: 0 <= i < 32 ==> bytes[i] == i as byte
    ensures FeedAll(0x3386_1419, bytes[20..]) == FeedAll(0xD643_786A, bytes[24..])
  {
    Words6();
    Next(bytes, 20, 20, 0x3386_1419, 0xBF1B_CAC7);
    Next(bytes, 21, 21, 0xBF1B_CAC7, 0x3257_8A96);
    Next(bytes, 22, 22, 0x3257_8A96, 0x82C4_6CF2);
    Next(bytes, 23, 23, 0x82C4_6CF2, 0xD643_786A);
  }

  lemma {:induction false} Bytes7(bytes: seq<byte>)
    requires |bytes| == 32 && forall i :: 0 <= i < 32 ==> bytes[i] == i as byte
    ensures FeedAll(0xD643_786A, bytes[24..]) == FeedAll(0x9B21_363E, bytes[28..])
  {
    Words7();
    Next(bytes, 24, 24, 0xD643_786A, 0x9075_6782);
    Next(bytes, 25, 25, 0x9075_6782, 0x0BB1_224B);
    Next(bytes, 26, 26, 0x0BB1_224B, 0xA345_E8F2);
    Next(bytes, 27, 27, 0xA345_E8F2, 0x9B21_363E);
  }

  lemma {:induction false} Bytes8(bytes: seq<byte>)
    requires |bytes| == 32 && forall i :: 0 <= i < 32 ==> bytes[i] == i as byte
    ensures FeedAll(0x9B21_363E, bytes[28..]) == FeedAll(0xB922_86B1, bytes[32..])
  {
    Words8();
    Next(bytes, 28, 28, 0x9B21_363E, 0xC11D_DF1F);
    Next(bytes, 29, 29, 0xC11D_DF1F, 0xE1FA_6D28);
    Next(bytes, 30, 30, 0xE1FA_6D28, 0x16A3_5434);
    Next(bytes, 31, 31, 0x16A3_5434, 0xB922_86B1);
  }

  // appendix B.4 of RFC 3720: 32 bytes of incrementing 00..1f
  lemma {:induction false} Incrementing(bytes: seq<byte>)
    requires |bytes| == 32 && forall i :: 0 <= i < 32 ==> bytes[i] == i as byte
    ensures Checksum(bytes) == 0x46DD_794E
  {
    Bytes1(bytes);
    Bytes2(bytes);
    Bytes3(bytes);
    Bytes4(bytes);
    Bytes5(bytes);
    Bytes6(bytes);
    Bytes7(bytes);
    Bytes8(bytes);
    assert bytes[0..] == bytes && bytes[32..] == [];
    FeedAllIsSerial(Ones, bytes);
  }
}
