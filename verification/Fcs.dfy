/** The PPP frame check sequence (Appendix C.2 of RFC 1662) on the register of Crc. */
module Fcs {
  import opened Bytes
  import opened Crc

  const INIT: bv32 := 0xFFFF
  const GOOD: bv32 := 0xF0B8

  /** The register after a message, as wrap_in_ppp_frame computes it. */
  function Register(data: seq<Byte>): bv32 {
    ByTable(FCS16, INIT, data)
  }

  function Value(p: bv8): Byte { p as int }

  /** The low eight bits of a register as an octet. */
  function LowOctet(x: bv32): Byte {
    Value(And(x, 0xff) as bv8)
  }

  function Complement(x: bv32): bv32 { x ^ 0xFFFF }

  /** The two octets that close a frame: the complemented register, low octet first. */
  function Trailer(data: seq<Byte>): seq<Byte> {
    var fcs := Complement(Register(data));
    [LowOctet(fcs), LowOctet(Shift8(fcs))]
  }

  lemma PatternOfValue(p: bv8)
    ensures Pattern(Value(p)) == p
  {
  }

  lemma OctetOfLow(x: bv32)
    ensures Octet(LowOctet(x)) == And(x, 0xff)
  {
    hide Pattern, Value;
    PatternOfValue(And(x, 0xff) as bv8);
  }

  // ----- the register stays within 16 bits ------------------------------------------------------------

  predicate Narrow(x: bv32) { x <= 0xFFFF }

  lemma NarrowBit(crc: bv32, ch: bv32)
    requires Narrow(crc)
    ensures Narrow(Bit(FCS16, crc, ch))
  {
  }

  lemma {:induction false} NarrowBits(crc: bv32, ch: bv32, n: nat)
    requires Narrow(crc)
    ensures Narrow(Bits(FCS16, crc, ch, n))
    decreases n
  {
    hide Bit, Half, Narrow;
    if n > 0 {
      NarrowBit(crc, ch);
      NarrowBits(Bit(FCS16, crc, ch), Half(ch), n - 1);
    }
  }

  lemma {:induction false} NarrowRegister(crc: bv32, data: seq<Byte>)
    requires Narrow(crc)
    ensures Narrow(ByTable(FCS16, crc, data))
    decreases |data|
  {
    hide TableStep, Bits, Octet, Narrow;
    if data != [] {
      TableStepIsBits(FCS16, crc, data[0]);
      NarrowBits(crc, Octet(data[0]), 8);
      NarrowRegister(TableStep(FCS16, crc, data[0]), data[1..]);
    }
  }

  // ----- the residue -------------------------------------------------------------------------------------

  lemma EntryAllOnes()
    ensures Entry(FCS16, 0xff) == 0x0f78
  {
  }

  lemma EntrySecond()
    ensures Entry(FCS16, 0x87) == 0xf0b7
  {
  }

  lemma FirstOctet(f: bv32)
    ensures And(Xor(f, And(Complement(f), 0xff)), 0xff) == 0xff
  {
  }

  lemma SecondOctet(f: bv32)
    requires Narrow(f)
    ensures var r := Xor(Shift8(f), 0x0f78);
            && And(Xor(r, And(Shift8(Complement(f)), 0xff)), 0xff) == 0x87
            && Xor(Shift8(r), 0xf0b7) == GOOD
  {
  }

  /** Feeding a register its own complement leaves the same value whatever the register was. */
  lemma ResidueOfRegister(f: bv32)
    requires Narrow(f)
    ensures TableStep(FCS16, TableStep(FCS16, f, LowOctet(Complement(f))), LowOctet(Shift8(Complement(f)))) == GOOD
  {
    hide Entry, Xor, And, Octet, LowOctet, Narrow, Complement, Shift8;
    OctetOfLow(Complement(f));
    OctetOfLow(Shift8(Complement(f)));
    FirstOctet(f);
    SecondOctet(f);
    EntryAllOnes();
    EntrySecond();
  }

  /** Every frame, read back with its two check octets, leaves the good residue. */
  lemma ResidueIsGood(data: seq<Byte>)
    ensures Register(data + Trailer(data)) == GOOD
  {
    hide TableStep, Narrow, LowOctet, Complement, Shift8;
    var f := Register(data);
    NarrowInit();
    NarrowRegister(INIT, data);
    ResidueOfRegister(f);
    ByTableConcat(FCS16, INIT, data, Trailer(data));
    TwoSteps(f, Trailer(data)[0], Trailer(data)[1]);
  }

  lemma TwoSteps(f: bv32, a: Byte, b: Byte)
    ensures ByTable(FCS16, f, [a, b]) == TableStep(FCS16, TableStep(FCS16, f, a), b)
  {
    hide TableStep;
    var g := TableStep(FCS16, f, a);
    assert [a, b][1..] == [b] && [b][1..] == [];
    assert ByTable(FCS16, g, [b]) == ByTable(FCS16, TableStep(FCS16, g, b), []);
  }

  lemma NarrowInit()
    ensures Narrow(INIT)
  {
  }

  /** The loop in wrap_in_ppp_frame; `fcstab` entries are eight bit steps from zero. */
  method Compute(data: seq<Byte>, fcstab: seq<bv32>) returns (fcs: bv32)
    requires |fcstab| == 256 && forall i | 0 <= i < 256 :: fcstab[i] == Entry(FCS16, Octet(i))
    ensures fcs == Register(data) == ByBit(FCS16, INIT, data)
  {
    hide Entry, Octet, Xor, And, Bits;
    fcs := INIT;
    for k := 0 to |data|
      invariant ByTable(FCS16, fcs, data[k..]) == Register(data)
    {
      var x := Xor(fcs, Octet(data[k]));
      OctetOfLow(x);
      fcs := Xor(Shift8(fcs), fcstab[LowOctet(x)]);
    }
    TableIsBitwise(FCS16, INIT, data);
  }

  /** The table fill loop of the constructor. */
  method BuildTable() returns (fcstab: seq<bv32>)
    ensures |fcstab| == 256 && forall i | 0 <= i < 256 :: fcstab[i] == Entry(FCS16, Octet(i))
  {
    hide Octet, Bits;
    fcstab := [];
    for i := 0 to 256
      invariant |fcstab| == i && forall k | 0 <= k < i :: fcstab[k] == Entry(FCS16, Octet(k))
    {
      var value := EightSteps(FCS16, 0, Octet(i));
      fcstab := fcstab + [value];
    }
  }
}
