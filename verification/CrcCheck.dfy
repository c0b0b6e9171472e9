/** Values that pin the checks down from outside: those of the nine digits, which the literature on CRCs gives for each,
    and the residue of CRC32c. */
module CrcCheck {
  import opened Bytes
  import opened Crc
  import Fcs
  import SctpData

  /** "123456789" */
  const DIGITS: seq<Byte> := [0x31, 0x32, 0x33, 0x34, 0x35, 0x36, 0x37, 0x38, 0x39]

  /** The reflected polynomial nrpe.cpp passes to crc32. */
  const CRC32: bv32 := 0xEDB88320

  // ----- nine octets ------------------------------------------------------------------------------------------

  ghost predicate Registers(poly: bv32, r: seq<bv32>) {
    |r| == 10 && forall i | 0 <= i < 9 :: Bits(poly, r[i], Octet(DIGITS[i]), 8) == r[i + 1]
  }

  lemma {:induction false} StepsFrom(poly: bv32, r: seq<bv32>, k: nat)
    requires Registers(poly, r) && k <= 9
    ensures ByBit(poly, r[k], DIGITS[k..]) == r[9]
    decreases 9 - k
  {
    hide Bits, Octet;
    if k < 9 {
      StepsFrom(poly, r, k + 1);
      assert DIGITS[k..][1..] == DIGITS[k + 1..];
    }
  }

  lemma WholeMessage(poly: bv32, r: seq<bv32>)
    requires Registers(poly, r)
    ensures ByBit(poly, r[0], DIGITS) == r[9]
  {
    hide Registers;
    StepsFrom(poly, r, 0);
    assert DIGITS[0..] == DIGITS;
  }

  lemma DigitOctets()
    ensures Octet(0x31) == 0x31 && Octet(0x32) == 0x32 && Octet(0x33) == 0x33 && Octet(0x34) == 0x34
    ensures Octet(0x35) == 0x35 && Octet(0x36) == 0x36 && Octet(0x37) == 0x37 && Octet(0x38) == 0x38 && Octet(0x39) == 0x39
  {
  }

  lemma Crc32cStep0()
    ensures Bits(CRC32C, 0xFFFFFFFF, 0x31, 8) == 0x6F0A661C
  {
  }

  lemma Crc32cStep1()
    ensures Bits(CRC32C, 0x6F0A661C, 0x32, 8) == 0x8CAA3B9F
  {
  }

  lemma Crc32cStep2()
    ensures Bits(CRC32C, 0x8CAA3B9F, 0x33, 8) == 0xEF84D04D
  {
  }

  lemma Crc32cStep3()
    ensures Bits(CRC32C, 0xEF84D04D, 0x34, 8) == 0x9C50B11
  {
  }

  lemma Crc32cStep4()
    ensures Bits(CRC32C, 0x9C50B11, 0x35, 8) == 0xE72EDCCA
  {
  }

  lemma Crc32cStep5()
    ensures Bits(CRC32C, 0xE72EDCCA, 0x36, 8) == 0xBECA8E79
  {
  }

  lemma Crc32cStep6()
    ensures Bits(CRC32C, 0xBECA8E79, 0x37, 8) == 0xEDBD6815
  {
  }

  lemma Crc32cStep7()
    ensures Bits(CRC32C, 0xEDBD6815, 0x38, 8) == 0x9F787F65
  {
  }

  lemma Crc32cStep8()
    ensures Bits(CRC32C, 0x9F787F65, 0x39, 8) == 0x1CF96D7C
  {
  }

  lemma Crc32Step0()
    ensures Bits(CRC32, 0xFFFFFFFF, 0x31, 8) == 0x7C231048
  {
  }

  lemma Crc32Step1()
    ensures Bits(CRC32, 0x7C231048, 0x32, 8) == 0xB0ACBB32
  {
  }

  lemma Crc32Step2()
    ensures Bits(CRC32, 0xB0ACBB32, 0x33, 8) == 0x77B79C2D
  {
  }

  lemma Crc32Step3()
    ensures Bits(CRC32, 0x77B79C2D, 0x34, 8) == 0x641C1F5C
  {
  }

  lemma Crc32Step4()
    ensures Bits(CRC32, 0x641C1F5C, 0x35, 8) == 0x340AC5E3
  {
  }

  lemma Crc32Step5()
    ensures Bits(CRC32, 0x340AC5E3, 0x36, 8) == 0xF68D2C9E
  {
  }

  lemma Crc32Step6()
    ensures Bits(CRC32, 0xF68D2C9E, 0x37, 8) == 0xAFFC9660
  {
  }

  lemma Crc32Step7()
    ensures Bits(CRC32, 0xAFFC9660, 0x38, 8) == 0x651F2550
  {
  }

  lemma Crc32Step8()
    ensures Bits(CRC32, 0x651F2550, 0x39, 8) == 0x340BC6D9
  {
  }

  lemma FcsStep0()
    ensures Bits(FCS16, 0xFFFF, 0x31, 8) == 0x2F8D
  {
  }

  lemma FcsStep1()
    ensures Bits(FCS16, 0x2F8D, 0x32, 8) == 0x4D53
  {
  }

  lemma FcsStep2()
    ensures Bits(FCS16, 0x4D53, 0x33, 8) == 0x634B
  {
  }

  lemma FcsStep3()
    ensures Bits(FCS16, 0x634B, 0x34, 8) == 0x8B13
  {
  }

  lemma FcsStep4()
    ensures Bits(FCS16, 0x8B13, 0x35, 8) == 0x44BF
  {
  }

  lemma FcsStep5()
    ensures Bits(FCS16, 0x44BF, 0x36, 8) == 0x198D
  {
  }

  lemma FcsStep6()
    ensures Bits(FCS16, 0x198D, 0x37, 8) == 0x1AC8
  {
  }

  lemma FcsStep7()
    ensures Bits(FCS16, 0x1AC8, 0x38, 8) == 0xF795
  {
  }

  lemma FcsStep8()
    ensures Bits(FCS16, 0xF795, 0x39, 8) == 0x6F91
  {
  }

  /** CRC32c of the nine digits. */
  lemma Crc32cOfDigits()
    ensures Complement(ByBit(CRC32C, ONES, DIGITS)) == 0xE3069283
  {
    hide Bits, Octet, ByBit;
    DigitOctets();
    Crc32cStep0();
    Crc32cStep1();
    Crc32cStep2();
    Crc32cStep3();
    Crc32cStep4();
    Crc32cStep5();
    Crc32cStep6();
    Crc32cStep7();
    Crc32cStep8();
    WholeMessage(CRC32C, [0xFFFFFFFF, 0x6F0A661C, 0x8CAA3B9F, 0xEF84D04D, 0x9C50B11,
                         0xE72EDCCA, 0xBECA8E79, 0xEDBD6815, 0x9F787F65, 0x1CF96D7C]);
  }

  /** The CRC of crc32 with the polynomial of IEEE 802.3. */
  lemma Crc32OfDigits()
    ensures Complement(ByBit(CRC32, ONES, DIGITS)) == 0xCBF43926
  {
    hide Bits, Octet, ByBit;
    DigitOctets();
    Crc32Step0();
    Crc32Step1();
    Crc32Step2();
    Crc32Step3();
    Crc32Step4();
    Crc32Step5();
    Crc32Step6();
    Crc32Step7();
    Crc32Step8();
    WholeMessage(CRC32, [0xFFFFFFFF, 0x7C231048, 0xB0ACBB32, 0x77B79C2D, 0x641C1F5C,
                         0x340AC5E3, 0xF68D2C9E, 0xAFFC9660, 0x651F2550, 0x340BC6D9]);
  }

  /** The PPP frame check, low octet first. */
  lemma FcsOfDigits()
    ensures Fcs.Trailer(DIGITS) == [0x6E, 0x90]
  {
    hide Bits, Octet, ByBit, ByTable;
    DigitOctets();
    FcsStep0();
    FcsStep1();
    FcsStep2();
    FcsStep3();
    FcsStep4();
    FcsStep5();
    FcsStep6();
    FcsStep7();
    FcsStep8();
    WholeMessage(FCS16, [0xFFFF, 0x2F8D, 0x4D53, 0x634B, 0x8B13,
                         0x44BF, 0x198D, 0x1AC8, 0xF795, 0x6F91]);
    TableIsBitwise(FCS16, Fcs.INIT, DIGITS);
    FcsOctets();
  }

  lemma FcsOctets()
    ensures Fcs.LowOctet(Fcs.Complement(0x6F91)) == 0x6E && Fcs.LowOctet(Shift8(Fcs.Complement(0x6F91))) == 0x90
  {
    assert Fcs.Complement(0x6F91) == 0x906E;
    assert And(0x906E, 0xff) == 0x6E && And(Shift8(0x906E), 0xff) == 0x90;
  }

  // ----- the checksum field of an SCTP packet ------------------------------------------------------------------

  function Shift16(a: bv32): bv32 { a >> 16 }

  function Shift24(a: bv32): bv32 { a >> 24 }

  /** The field holds the octets of the CRC, the lowest first. */
  lemma FieldLowFirst(x: bv32)
    ensures SctpData.FieldOf(Swapped(x))
         == [Fcs.LowOctet(x), Fcs.LowOctet(Shift8(x)), Fcs.LowOctet(Shift16(x)), Fcs.LowOctet(Shift24(x))]
  {
    SwappedOctets(x);
  }

  lemma SwappedOctets(x: bv32)
    ensures var r := Swapped(x);
            && And(r >> 24, 0xff) == And(x, 0xff) && And(r >> 16, 0xff) == And(x >> 8, 0xff)
            && And(r >> 8, 0xff) == And(x >> 16, 0xff) && And(r, 0xff) == And(x >> 24, 0xff)
  {
  }

  lemma FourEntries()
    ensures Entry(CRC32C, 0xff) == 0xAD7D5351 && Entry(CRC32C, 0xAE) == 0xE330A81
    ensures Entry(CRC32C, 0x2D) == 0x9F95C20D && Entry(CRC32C, 0x85) == 0xB7072F64
  {
  }

  /** The register after each of the four octets, whatever it was before. */
  function After1(f: bv32): bv32 { (f >> 8) ^ 0xAD7D5351 }

  function After2(f: bv32): bv32 { (f >> 16) ^ 0xE9E77D2 }

  function After3(f: bv32): bv32 { (f >> 24) ^ 0x9F9B5C7A }

  lemma Field1(f: bv32)
    ensures And(Xor(f, And(Complement(f), 0xff)), 0xff) == 0xff && Xor(Shift8(f), 0xAD7D5351) == After1(f)
  {
  }

  lemma Field2(f: bv32)
    ensures And(Xor(After1(f), And(Shift8(Complement(f)), 0xff)), 0xff) == 0xAE && Xor(Shift8(After1(f)), 0xE330A81) == After2(f)
  {
  }

  lemma Field3(f: bv32)
    ensures And(Xor(After2(f), And(Shift16(Complement(f)), 0xff)), 0xff) == 0x2D && Xor(Shift8(After2(f)), 0x9F95C20D) == After3(f)
  {
  }

  lemma Field4(f: bv32)
    ensures And(Xor(After3(f), And(Shift24(Complement(f)), 0xff)), 0xff) == 0x85 && Xor(Shift8(After3(f)), 0xB7072F64) == 0xB798B438
  {
  }

  lemma FourSteps(f: bv32, a: Byte, b: Byte, c: Byte, d: Byte)
    ensures ByTable(CRC32C, f, [a, b, c, d])
         == TableStep(CRC32C, TableStep(CRC32C, TableStep(CRC32C, TableStep(CRC32C, f, a), b), c), d)
  {
    hide TableStep;
    var g := TableStep(CRC32C, f, a);
    var h := TableStep(CRC32C, g, b);
    var k := TableStep(CRC32C, h, c);
    assert [a, b, c, d][1..] == [b, c, d] && [b, c, d][1..] == [c, d] && [c, d][1..] == [d] && [d][1..] == [];
    assert ByTable(CRC32C, k, [d]) == ByTable(CRC32C, TableStep(CRC32C, k, d), []);
    assert ByTable(CRC32C, h, [c, d]) == ByTable(CRC32C, k, [d]);
    assert ByTable(CRC32C, g, [b, c, d]) == ByTable(CRC32C, h, [c, d]);
  }

  /** A table step on the low octet of `n`. */
  lemma FieldStep(f: bv32, n: bv32, x: bv32, e: bv32, g: bv32)
    requires And(Xor(f, And(n, 0xff)), 0xff) == x && Entry(CRC32C, x) == e && Xor(Shift8(f), e) == g
    ensures TableStep(CRC32C, f, Fcs.LowOctet(n)) == g
  {
    hide Entry, Xor, And, Octet, Fcs.LowOctet, Shift8;
    Fcs.OctetOfLow(n);
  }

  lemma ResidueOfRegister(f: bv32)
    ensures var n := Complement(f);
            ByTable(CRC32C, f,
                    [Fcs.LowOctet(n), Fcs.LowOctet(Shift8(n)), Fcs.LowOctet(Shift16(n)), Fcs.LowOctet(Shift24(n))])
            == 0xB798B438
  {
    hide *;
    var n := Complement(f);
    FourSteps(f, Fcs.LowOctet(n), Fcs.LowOctet(Shift8(n)), Fcs.LowOctet(Shift16(n)), Fcs.LowOctet(Shift24(n)));
    FourEntries();
    Field1(f);
    Field2(f);
    Field3(f);
    Field4(f);
    FieldStep(f, n, 0xff, 0xAD7D5351, After1(f));
    FieldStep(After1(f), Shift8(n), 0xAE, 0xE330A81, After2(f));
    FieldStep(After2(f), Shift16(n), 0x2D, 0x9F95C20D, After3(f));
    FieldStep(After3(f), Shift24(n), 0x85, 0xB7072F64, 0xB798B438);
  }

  /** Whatever a packet holds, a receiver that runs CRC32c over it and its check octets gets the residue of the
      polynomial. */
  lemma Crc32cResidue(s: seq<Byte>)
    ensures ByBit(CRC32C, ONES, s + SctpData.CrcField(s)) == 0xB798B438
  {
    hide ByBit, ByTable, Complement, Swapped, SctpData.FieldOf, Fcs.LowOctet, Shift8, Shift16, Shift24;
    var f := ByTable(CRC32C, ONES, s);
    TableIsBitwise(CRC32C, ONES, s);
    TableIsBitwise(CRC32C, ONES, s + SctpData.CrcField(s));
    ByTableConcat(CRC32C, ONES, s, SctpData.CrcField(s));
    FieldLowFirst(Complement(f));
    ResidueOfRegister(f);
  }
}
