/** Reflected CRCs, bit by bit and by table. One register serves both of the stack's CRCs: CRC32c
    (Appendix B of RFC 4960) and the 16-bit PPP frame check (Appendix C.2 of RFC 1662), whose
    register never leaves its low 16 bits. */
module Crc {
  import opened Bytes

  const CRC32C: bv32 := 0x82F63B78
  const FCS16: bv32 := 0x8408

  function Xor(a: bv32, b: bv32): bv32 { a ^ b }

  function Half(a: bv32): bv32 { a >> 1 }

  function And(a: bv32, b: bv32): bv32 { a & b }

  predicate Odd(a: bv32) { a & 1 == 1 }

  function Shift8(a: bv32): bv32 { a >> 8 }

  function Pattern(b: Byte): bv8 { b as bv8 }

  function Octet(b: Byte): bv32 { Pattern(b) as bv32 }

  /** One step: shift the message bit in, subtract the polynomial if a one fell out. */
  function Bit(poly: bv32, crc: bv32, ch: bv32): bv32 {
    Xor(Half(crc), if Odd(Xor(ch, crc)) then poly else 0)
  }

  function Bits(poly: bv32, crc: bv32, ch: bv32, n: nat): bv32
    decreases n
  {
    if n == 0 then crc else Bits(poly, Bit(poly, crc, ch), Half(ch), n - 1)
  }

  function ByBit(poly: bv32, crc: bv32, data: seq<Byte>): bv32
    decreases |data|
  {
    if data == [] then crc else ByBit(poly, Bits(poly, crc, Octet(data[0]), 8), data[1..])
  }

  /** The table entry for a byte: eight steps from an empty register. */
  function Entry(poly: bv32, b: bv32): bv32 {
    Bits(poly, 0, b, 8)
  }

  function TableStep(poly: bv32, crc: bv32, b: Byte): bv32 {
    Xor(Shift8(crc), Entry(poly, And(Xor(crc, Octet(b)), 0xff)))
  }

  function ByTable(poly: bv32, crc: bv32, data: seq<Byte>): bv32
    decreases |data|
  {
    if data == [] then crc else ByTable(poly, TableStep(poly, crc, data[0]), data[1..])
  }

  // ----- the table form is the bit form -----------------------------------------------------------

  lemma XorLaws(a: bv32, b: bv32)
    ensures Xor(0, a) == a && Xor(a, b) == Xor(b, a)
  {
  }

  lemma XorAssociates(a: bv32, b: bv32, c: bv32)
    ensures Xor(Xor(a, b), c) == Xor(a, Xor(b, c))
  {
  }

  lemma HalfOfXor(a: bv32, b: bv32)
    ensures Half(Xor(a, b)) == Xor(Half(a), Half(b))
  {
  }

  lemma OddOfXor(a: bv32, b: bv32)
    ensures Odd(Xor(a, b)) == (Odd(a) != Odd(b))
  {
  }

  lemma MaskLaws(s: bv32, m: bv32)
    ensures Half(And(s, m)) == And(Half(s), Half(m))
    ensures Odd(m) ==> Odd(And(s, m)) == Odd(s)
  {
  }

  lemma BitOfSum(poly: bv32, crc: bv32, l: bv32, ch: bv32)
    ensures Bit(poly, Xor(crc, l), ch) == Xor(Bit(poly, crc, Xor(ch, l)), Half(l))
    ensures Half(Xor(ch, l)) == Xor(Half(ch), Half(l))
  {
    hide Xor, Half, Odd;
    OddOfXor(ch, Xor(crc, l));
    OddOfXor(crc, l);
    OddOfXor(Xor(ch, l), crc);
    OddOfXor(ch, l);
    HalfOfXor(crc, l);
    HalfOfXor(ch, l);
    var p := if Odd(Xor(ch, Xor(crc, l))) then poly else 0;
    XorAssociates(Half(crc), Half(l), p);
    XorLaws(Half(l), p);
    XorAssociates(Half(crc), p, Half(l));
  }

  function Shifted(l: bv32, n: nat): bv32
    decreases n
  {
    if n == 0 then l else Shifted(Half(l), n - 1)
  }

  /** Register bits and message bits are interchangeable until they have been shifted out. */
  lemma {:induction false} RegisterIsMessage(poly: bv32, crc: bv32, l: bv32, ch: bv32, n: nat)
    ensures Bits(poly, Xor(crc, l), ch, n) == Xor(Bits(poly, crc, Xor(ch, l), n), Shifted(l, n))
    decreases n
  {
    hide Bit, Xor, Half;
    if n > 0 {
      BitOfSum(poly, crc, l, ch);
      RegisterIsMessage(poly, Bit(poly, crc, Xor(ch, l)), Half(l), Half(ch), n - 1);
    }
  }

  /** Message bits beyond the n steps taken do not matter. */
  predicate AgreeBelow(s: bv32, t: bv32, n: nat)
    decreases n
  {
    n == 0 || (Odd(s) == Odd(t) && AgreeBelow(Half(s), Half(t), n - 1))
  }

  lemma {:induction false} OnlyLowBitsCount(poly: bv32, crc: bv32, s: bv32, t: bv32, n: nat)
    requires AgreeBelow(s, t, n)
    ensures Bits(poly, crc, s, n) == Bits(poly, crc, t, n)
    decreases n
  {
    hide Xor, Half, Odd;
    if n > 0 {
      OddOfXor(s, crc);
      OddOfXor(t, crc);
      OnlyLowBitsCount(poly, Bit(poly, crc, s), Half(s), Half(t), n - 1);
    }
  }

  predicate Ones(m: bv32, n: nat)
    decreases n
  {
    n == 0 || (Odd(m) && Ones(Half(m), n - 1))
  }

  lemma {:induction false} MaskAgrees(s: bv32, m: bv32, n: nat)
    requires Ones(m, n)
    ensures AgreeBelow(s, And(s, m), n)
    decreases n
  {
    hide Half, Odd, And;
    if n > 0 {
      MaskLaws(s, m);
      MaskAgrees(Half(s), Half(m), n - 1);
    }
  }

  lemma EightHalves(l: bv32)
    ensures Half(Half(Half(Half(Half(Half(Half(Half(l)))))))) == Shift8(l)
  {
  }

  lemma ShiftedByte(l: bv32)
    ensures Shifted(l, 8) == Shift8(l)
  {
    hide Half, Shift8;
    EightHalves(l);
    assert Shifted(l, 8) == Shifted(Half(Half(l)), 6);
    assert Shifted(Half(Half(l)), 6) == Shifted(Half(Half(Half(Half(l)))), 4);
  }

  lemma ByteMask()
    ensures Ones(0xff, 8)
  {
  }

  lemma TableStepIsBits(poly: bv32, crc: bv32, b: Byte)
    ensures TableStep(poly, crc, b) == Bits(poly, crc, Octet(b), 8)
  {
    hide Bits, Xor, And, Octet, Shift8, Shifted, AgreeBelow, Ones;
    var ch := Octet(b);
    var x := Xor(crc, ch);
    XorLaws(crc, ch);
    RegisterIsMessage(poly, 0, crc, ch, 8);
    ByteMask();
    MaskAgrees(x, 0xff, 8);
    OnlyLowBitsCount(poly, 0, x, And(x, 0xff), 8);
    ShiftedByte(crc);
    XorLaws(Shift8(crc), Bits(poly, 0, x, 8));
  }

  /** For every polynomial and message the table-driven CRC is the bitwise one. */
  lemma {:induction false} TableIsBitwise(poly: bv32, crc: bv32, data: seq<Byte>)
    ensures ByTable(poly, crc, data) == ByBit(poly, crc, data)
    decreases |data|
  {
    hide Bits, TableStep, Octet;
    if data != [] {
      TableStepIsBits(poly, crc, data[0]);
      TableIsBitwise(poly, Bits(poly, crc, Octet(data[0]), 8), data[1..]);
    }
  }

  lemma {:induction false} ByTableConcat(poly: bv32, crc: bv32, a: seq<Byte>, b: seq<Byte>)
    ensures ByTable(poly, crc, a + b) == ByTable(poly, ByTable(poly, crc, a), b)
    decreases |a|
  {
    hide TableStep;
    if a == [] {
      assert a + b == b;
    } else {
      assert (a + b)[1..] == a[1..] + b;
      ByTableConcat(poly, TableStep(poly, crc, a[0]), a[1..], b);
    }
  }

  lemma BitLinear(poly: bv32, c: bv32, d: bv32, s: bv32, t: bv32)
    ensures Bit(poly, Xor(c, d), Xor(s, t)) == Xor(Bit(poly, c, s), Bit(poly, d, t))
  {
    hide Xor, Half, Odd;
    OddOfXor(Xor(s, t), Xor(c, d));
    OddOfXor(s, t);
    OddOfXor(c, d);
    OddOfXor(s, c);
    OddOfXor(t, d);
    HalfOfXor(c, d);
    var p := if Odd(Xor(s, c)) then poly else 0;
    var q := if Odd(Xor(t, d)) then poly else 0;
    XorInterchange(Half(c), Half(d), p, q);
    XorLaws(poly, 0);
    XorSelf(poly);
    XorSelf(0);
  }

  lemma XorSelf(a: bv32)
    ensures Xor(a, a) == 0
  {
  }

  lemma XorInterchange(a: bv32, b: bv32, c: bv32, d: bv32)
    ensures Xor(Xor(a, b), Xor(c, d)) == Xor(Xor(a, c), Xor(b, d))
  {
    hide Xor;
    XorAssociates(a, b, Xor(c, d));
    XorAssociates(b, c, d);
    XorLaws(b, c);
    XorAssociates(c, b, d);
    XorAssociates(a, c, Xor(b, d));
  }

  lemma {:induction false} BitsLinear(poly: bv32, c: bv32, d: bv32, s: bv32, t: bv32, n: nat)
    ensures Bits(poly, Xor(c, d), Xor(s, t), n) == Xor(Bits(poly, c, s, n), Bits(poly, d, t, n))
    decreases n
  {
    hide Bit, Xor, Half;
    if n > 0 {
      BitLinear(poly, c, d, s, t);
      HalfOfXor(s, t);
      BitsLinear(poly, Bit(poly, c, s), Bit(poly, d, t), Half(s), Half(t), n - 1);
    }
  }

  lemma EntryLinear(poly: bv32, s: bv32, t: bv32)
    ensures Entry(poly, Xor(s, t)) == Xor(Entry(poly, s), Entry(poly, t))
  {
    hide Bits, Xor;
    XorSelf(0);
    BitsLinear(poly, 0, 0, s, t, 8);
  }

  // ----- the table in the source --------------------------------------------------------------------

  // The table of sctp_crc32c.cpp, sixteen entries a row.
  const ROW0: seq<bv32> := [0x00000000, 0xF26B8303, 0xE13B70F7, 0x1350F3F4, 0xC79A971F, 0x35F1141C, 0x26A1E7E8, 0xD4CA64EB,
    0x8AD958CF, 0x78B2DBCC, 0x6BE22838, 0x9989AB3B, 0x4D43CFD0, 0xBF284CD3, 0xAC78BF27, 0x5E133C24]
  const ROW1: seq<bv32> := [0x105EC76F, 0xE235446C, 0xF165B798, 0x030E349B, 0xD7C45070, 0x25AFD373, 0x36FF2087, 0xC494A384,
    0x9A879FA0, 0x68EC1CA3, 0x7BBCEF57, 0x89D76C54, 0x5D1D08BF, 0xAF768BBC, 0xBC267848, 0x4E4DFB4B]
  const ROW2: seq<bv32> := [0x20BD8EDE, 0xD2D60DDD, 0xC186FE29, 0x33ED7D2A, 0xE72719C1, 0x154C9AC2, 0x061C6936, 0xF477EA35,
    0xAA64D611, 0x580F5512, 0x4B5FA6E6, 0xB93425E5, 0x6DFE410E, 0x9F95C20D, 0x8CC531F9, 0x7EAEB2FA]
  const ROW3: seq<bv32> := [0x30E349B1, 0xC288CAB2, 0xD1D83946, 0x23B3BA45, 0xF779DEAE, 0x05125DAD, 0x1642AE59, 0xE4292D5A,
    0xBA3A117E, 0x4851927D, 0x5B016189, 0xA96AE28A, 0x7DA08661, 0x8FCB0562, 0x9C9BF696, 0x6EF07595]
  const ROW4: seq<bv32> := [0x417B1DBC, 0xB3109EBF, 0xA0406D4B, 0x522BEE48, 0x86E18AA3, 0x748A09A0, 0x67DAFA54, 0x95B17957,
    0xCBA24573, 0x39C9C670, 0x2A993584, 0xD8F2B687, 0x0C38D26C, 0xFE53516F, 0xED03A29B, 0x1F682198]
  const ROW5: seq<bv32> := [0x5125DAD3, 0xA34E59D0, 0xB01EAA24, 0x42752927, 0x96BF4DCC, 0x64D4CECF, 0x77843D3B, 0x85EFBE38,
    0xDBFC821C, 0x2997011F, 0x3AC7F2EB, 0xC8AC71E8, 0x1C661503, 0xEE0D9600, 0xFD5D65F4, 0x0F36E6F7]
  const ROW6: seq<bv32> := [0x61C69362, 0x93AD1061, 0x80FDE395, 0x72966096, 0xA65C047D, 0x5437877E, 0x4767748A, 0xB50CF789,
    0xEB1FCBAD, 0x197448AE, 0x0A24BB5A, 0xF84F3859, 0x2C855CB2, 0xDEEEDFB1, 0xCDBE2C45, 0x3FD5AF46]
  const ROW7: seq<bv32> := [0x7198540D, 0x83F3D70E, 0x90A324FA, 0x62C8A7F9, 0xB602C312, 0x44694011, 0x5739B3E5, 0xA55230E6,
    0xFB410CC2, 0x092A8FC1, 0x1A7A7C35, 0xE811FF36, 0x3CDB9BDD, 0xCEB018DE, 0xDDE0EB2A, 0x2F8B6829]
  const ROW8: seq<bv32> := [0x82F63B78, 0x709DB87B, 0x63CD4B8F, 0x91A6C88C, 0x456CAC67, 0xB7072F64, 0xA457DC90, 0x563C5F93,
    0x082F63B7, 0xFA44E0B4, 0xE9141340, 0x1B7F9043, 0xCFB5F4A8, 0x3DDE77AB, 0x2E8E845F, 0xDCE5075C]
  const ROW9: seq<bv32> := [0x92A8FC17, 0x60C37F14, 0x73938CE0, 0x81F80FE3, 0x55326B08, 0xA759E80B, 0xB4091BFF, 0x466298FC,
    0x1871A4D8, 0xEA1A27DB, 0xF94AD42F, 0x0B21572C, 0xDFEB33C7, 0x2D80B0C4, 0x3ED04330, 0xCCBBC033]
  const ROW10: seq<bv32> := [0xA24BB5A6, 0x502036A5, 0x4370C551, 0xB11B4652, 0x65D122B9, 0x97BAA1BA, 0x84EA524E, 0x7681D14D,
    0x2892ED69, 0xDAF96E6A, 0xC9A99D9E, 0x3BC21E9D, 0xEF087A76, 0x1D63F975, 0x0E330A81, 0xFC588982]
  const ROW11: seq<bv32> := [0xB21572C9, 0x407EF1CA, 0x532E023E, 0xA145813D, 0x758FE5D6, 0x87E466D5, 0x94B49521, 0x66DF1622,
    0x38CC2A06, 0xCAA7A905, 0xD9F75AF1, 0x2B9CD9F2, 0xFF56BD19, 0x0D3D3E1A, 0x1E6DCDEE, 0xEC064EED]
  const ROW12: seq<bv32> := [0xC38D26C4, 0x31E6A5C7, 0x22B65633, 0xD0DDD530, 0x0417B1DB, 0xF67C32D8, 0xE52CC12C, 0x1747422F,
    0x49547E0B, 0xBB3FFD08, 0xA86F0EFC, 0x5A048DFF, 0x8ECEE914, 0x7CA56A17, 0x6FF599E3, 0x9D9E1AE0]
  const ROW13: seq<bv32> := [0xD3D3E1AB, 0x21B862A8, 0x32E8915C, 0xC083125F, 0x144976B4, 0xE622F5B7, 0xF5720643, 0x07198540,
    0x590AB964, 0xAB613A67, 0xB831C993, 0x4A5A4A90, 0x9E902E7B, 0x6CFBAD78, 0x7FAB5E8C, 0x8DC0DD8F]
  const ROW14: seq<bv32> := [0xE330A81A, 0x115B2B19, 0x020BD8ED, 0xF0605BEE, 0x24AA3F05, 0xD6C1BC06, 0xC5914FF2, 0x37FACCF1,
    0x69E9F0D5, 0x9B8273D6, 0x88D28022, 0x7AB90321, 0xAE7367CA, 0x5C18E4C9, 0x4F48173D, 0xBD23943E]
  const ROW15: seq<bv32> := [0xF36E6F75, 0x0105EC76, 0x12551F82, 0xE03E9C81, 0x34F4F86A, 0xC69F7B69, 0xD5CF889D, 0x27A40B9E,
    0x79B737BA, 0x8BDCB4B9, 0x988C474D, 0x6AE7C44E, 0xBE2DA0A5, 0x4C4623A6, 0x5F16D052, 0xAD7D5351]

  function Row(r: bv32): (row: seq<bv32>)
    ensures |row| == 16
  {
    if r == 0 then ROW0 else if r == 1 then ROW1 else if r == 2 then ROW2 else if r == 3 then ROW3
    else if r == 4 then ROW4 else if r == 5 then ROW5 else if r == 6 then ROW6 else if r == 7 then ROW7
    else if r == 8 then ROW8 else if r == 9 then ROW9 else if r == 10 then ROW10 else if r == 11 then ROW11
    else if r == 12 then ROW12 else if r == 13 then ROW13 else if r == 14 then ROW14 else ROW15
  }

  /** Element number `c` of a row, the number being a bit pattern. */
  function Pick(row: seq<bv32>, c: bv32): bv32
    requires |row| == 16
  {
    if c == 0 then row[0] else if c == 1 then row[1] else if c == 2 then row[2] else if c == 3 then row[3]
    else if c == 4 then row[4] else if c == 5 then row[5] else if c == 6 then row[6] else if c == 7 then row[7]
    else if c == 8 then row[8] else if c == 9 then row[9] else if c == 10 then row[10] else if c == 11 then row[11]
    else if c == 12 then row[12] else if c == 13 then row[13] else if c == 14 then row[14] else row[15]
  }

  function Table(x: bv32): bv32 {
    Pick(Row(And(x, 0xff) >> 4), And(x, 0xf))
  }

  /** The entries of a row differ from its first as the entries of row 0 do from theirs. */
  predicate RowOfSums(row: seq<bv32>, first: seq<bv32>)
    requires |row| == 16 && |first| == 16
  {
    && row[1] == Xor(row[0], first[1]) && row[2] == Xor(row[0], first[2]) && row[3] == Xor(row[0], first[3])
    && row[4] == Xor(row[0], first[4]) && row[5] == Xor(row[0], first[5]) && row[6] == Xor(row[0], first[6])
    && row[7] == Xor(row[0], first[7]) && row[8] == Xor(row[0], first[8]) && row[9] == Xor(row[0], first[9])
    && row[10] == Xor(row[0], first[10]) && row[11] == Xor(row[0], first[11]) && row[12] == Xor(row[0], first[12])
    && row[13] == Xor(row[0], first[13]) && row[14] == Xor(row[0], first[14]) && row[15] == Xor(row[0], first[15])
  }

  lemma RowsAreSums(r: bv32)
    requires r < 16
    ensures RowOfSums(Row(r), ROW0)
  {
    hide RowOfSums;
    Row0IsSum();
    RowsAreSums0();
    RowsAreSums4();
    RowsAreSums8();
    RowsAreSums12();
  }

  lemma Row0IsSum()
    ensures RowOfSums(ROW0, ROW0)
  {
    hide Xor;
    XorZero();
  }

  lemma XorZero()
    ensures forall a {:trigger Xor(0, a)} :: Xor(0, a) == a
  {
  }

  lemma RowsAreSums0()
    ensures RowOfSums(ROW1, ROW0)
    ensures RowOfSums(ROW2, ROW0) && RowOfSums(ROW3, ROW0)
  {
  }

  lemma RowsAreSums4()
    ensures RowOfSums(ROW4, ROW0) && RowOfSums(ROW5, ROW0)
    ensures RowOfSums(ROW6, ROW0) && RowOfSums(ROW7, ROW0)
  {
  }

  lemma RowsAreSums8()
    ensures RowOfSums(ROW8, ROW0) && RowOfSums(ROW9, ROW0)
    ensures RowOfSums(ROW10, ROW0) && RowOfSums(ROW11, ROW0)
  {
  }

  lemma RowsAreSums12()
    ensures RowOfSums(ROW12, ROW0) && RowOfSums(ROW13, ROW0)
    ensures RowOfSums(ROW14, ROW0) && RowOfSums(ROW15, ROW0)
  {
  }

  lemma PickIsSum(row: seq<bv32>, first: seq<bv32>, c: bv32)
    requires |row| == 16 && |first| == 16 && RowOfSums(row, first) && first[0] == 0
    ensures Pick(row, c) == Xor(row[0], Pick(first, c))
  {
    hide Xor;
    XorLaws(row[0], 0);
  }

  // The powers of two are worked out step by step; everything else follows by linearity.

  lemma HalvesOfPowers()
    ensures Half(0) == 0 && Half(0x01) == 0 && Half(0x02) == 0x01 && Half(0x04) == 0x02 && Half(0x08) == 0x04
    ensures Half(0x10) == 0x08 && Half(0x20) == 0x10 && Half(0x40) == 0x20 && Half(0x80) == 0x40
  {
  }

  lemma FirstSteps(poly: bv32)
    ensures Bit(poly, 0, 0) == 0 && Bit(poly, 0, 0x01) == poly && Bit(poly, 0, 0x02) == 0 && Bit(poly, 0, 0x04) == 0
    ensures Bit(poly, 0, 0x08) == 0 && Bit(poly, 0, 0x10) == 0 && Bit(poly, 0, 0x20) == 0 && Bit(poly, 0, 0x40) == 0
    ensures Bit(poly, 0, 0x80) == 0
  {
  }

  lemma LastSteps()
    ensures Bit(CRC32C, CRC32C, 0) == ROW4[0] && Bit(CRC32C, ROW4[0], 0) == ROW2[0] && Bit(CRC32C, ROW2[0], 0) == ROW1[0]
    ensures Bit(CRC32C, ROW1[0], 0) == ROW0[8] && Bit(CRC32C, ROW0[8], 0) == ROW0[4]
    ensures Bit(CRC32C, ROW0[4], 0) == ROW0[2] && Bit(CRC32C, ROW0[2], 0) == ROW0[1]
    ensures ROW8[0] == CRC32C && ROW0[0] == 0
  {
  }

  lemma Powers()
    ensures Entry(CRC32C, 0) == ROW0[0]
    ensures Entry(CRC32C, 0x01) == ROW0[1] && Entry(CRC32C, 0x02) == ROW0[2] && Entry(CRC32C, 0x04) == ROW0[4]
    ensures Entry(CRC32C, 0x08) == ROW0[8] && Entry(CRC32C, 0x10) == ROW1[0] && Entry(CRC32C, 0x20) == ROW2[0]
    ensures Entry(CRC32C, 0x40) == ROW4[0] && Entry(CRC32C, 0x80) == ROW8[0]
  {
    hide Bit, Half, Bits;
    HalvesOfPowers();
    FirstSteps(CRC32C);
    LastSteps();
    EntryUnfolds(0);
    EntryUnfolds(0x01);
    EntryUnfolds(0x02);
    EntryUnfolds(0x04);
    EntryUnfolds(0x08);
    EntryUnfolds(0x10);
    EntryUnfolds(0x20);
    EntryUnfolds(0x40);
    EntryUnfolds(0x80);
  }

  function After(crc: bv32, ch: bv32): (bv32, bv32) {
    (Bit(CRC32C, crc, ch), Half(ch))
  }

  lemma BitsTurn(crc: bv32, ch: bv32, n: nat)
    ensures Bits(CRC32C, crc, ch, n + 1) == Bits(CRC32C, Bit(CRC32C, crc, ch), Half(ch), n)
    ensures Bits(CRC32C, crc, ch, 0) == crc
  {
    hide Bit, Half;
  }

  /** An entry, step by step. */
  lemma EntryUnfolds(x: bv32)
    ensures var a := After(0, x);
            var b := After(a.0, a.1);
            var c := After(b.0, b.1);
            var d := After(c.0, c.1);
            var e := After(d.0, d.1);
            var f := After(e.0, e.1);
            var g := After(f.0, f.1);
            Entry(CRC32C, x) == After(g.0, g.1).0
  {
    hide Bit, Half, Bits;
    var a := After(0, x);
    var b := After(a.0, a.1);
    var c := After(b.0, b.1);
    var d := After(c.0, c.1);
    var e := After(d.0, d.1);
    var f := After(e.0, e.1);
    var g := After(f.0, f.1);
    var h := After(g.0, g.1);
    BitsTurn(0, x, 7);
    BitsTurn(a.0, a.1, 6);
    BitsTurn(b.0, b.1, 5);
    BitsTurn(c.0, c.1, 4);
    BitsTurn(d.0, d.1, 3);
    BitsTurn(e.0, e.1, 2);
    BitsTurn(f.0, f.1, 1);
    BitsTurn(g.0, g.1, 0);
    BitsTurn(h.0, h.1, 0);
  }

  /** Sixteen values spanned by those at the powers of two. */
  predicate Spanned(v: seq<bv32>)
    requires |v| == 16
  {
    && v[3] == Xor(v[1], v[2]) && v[5] == Xor(v[4], v[1]) && v[6] == Xor(v[4], v[2]) && v[7] == Xor(v[4], v[3])
    && v[9] == Xor(v[8], v[1]) && v[10] == Xor(v[8], v[2]) && v[11] == Xor(v[8], v[3]) && v[12] == Xor(v[8], v[4])
    && v[13] == Xor(v[8], v[5]) && v[14] == Xor(v[8], v[6]) && v[15] == Xor(v[8], v[7])
  }

  const COLUMN: seq<bv32> := [ROW0[0], ROW1[0], ROW2[0], ROW3[0], ROW4[0], ROW5[0], ROW6[0], ROW7[0],
                              ROW8[0], ROW9[0], ROW10[0], ROW11[0], ROW12[0], ROW13[0], ROW14[0], ROW15[0]]
  const UNITS: seq<bv32> := [0, 1, 2, 3, 4, 5, 6, 7, 8, 9, 10, 11, 12, 13, 14, 15]
  const TENS: seq<bv32> := [0, 0x10, 0x20, 0x30, 0x40, 0x50, 0x60, 0x70, 0x80, 0x90, 0xa0, 0xb0, 0xc0, 0xd0, 0xe0, 0xf0]

  lemma RowAndColumnSpanned()
    ensures Spanned(ROW0) && Spanned(COLUMN) && Spanned(UNITS) && Spanned(TENS)
  {
  }

  predicate EntriesOf(v: seq<bv32>, x: seq<bv32>)
    requires |v| == 16 && |x| == 16
  {
    && v[0] == Entry(CRC32C, x[0]) && v[1] == Entry(CRC32C, x[1]) && v[2] == Entry(CRC32C, x[2]) && v[3] == Entry(CRC32C, x[3])
    && v[4] == Entry(CRC32C, x[4]) && v[5] == Entry(CRC32C, x[5]) && v[6] == Entry(CRC32C, x[6]) && v[7] == Entry(CRC32C, x[7])
    && v[8] == Entry(CRC32C, x[8]) && v[9] == Entry(CRC32C, x[9]) && v[10] == Entry(CRC32C, x[10]) && v[11] == Entry(CRC32C, x[11])
    && v[12] == Entry(CRC32C, x[12]) && v[13] == Entry(CRC32C, x[13]) && v[14] == Entry(CRC32C, x[14]) && v[15] == Entry(CRC32C, x[15])
  }

  lemma SpanOfEntries(v: seq<bv32>, x: seq<bv32>)
    requires |v| == 16 && |x| == 16 && Spanned(v) && Spanned(x)
    requires v[0] == Entry(CRC32C, x[0]) && v[1] == Entry(CRC32C, x[1]) && v[2] == Entry(CRC32C, x[2])
    requires v[4] == Entry(CRC32C, x[4]) && v[8] == Entry(CRC32C, x[8])
    ensures EntriesOf(v, x)
  {
    hide Xor, Entry;
    EntryLinear(CRC32C, x[1], x[2]);
    EntryLinear(CRC32C, x[4], x[1]);
    EntryLinear(CRC32C, x[4], x[2]);
    EntryLinear(CRC32C, x[4], x[3]);
    EntryLinear(CRC32C, x[8], x[1]);
    EntryLinear(CRC32C, x[8], x[2]);
    EntryLinear(CRC32C, x[8], x[3]);
    EntryLinear(CRC32C, x[8], x[4]);
    EntryLinear(CRC32C, x[8], x[5]);
    EntryLinear(CRC32C, x[8], x[6]);
    EntryLinear(CRC32C, x[8], x[7]);
  }

  lemma PickEntry(v: seq<bv32>, x: seq<bv32>, k: bv32)
    requires |v| == 16 && |x| == 16 && EntriesOf(v, x)
    ensures Pick(v, k) == Entry(CRC32C, Pick(x, k))
  {
    hide Entry;
  }

  lemma Nibbles(x: bv32)
    ensures Pick(UNITS, And(x, 0xf)) == And(x, 0xf)
    ensures Pick(TENS, And(x, 0xff) >> 4) == And(x, 0xf0)
    ensures Xor(And(x, 0xf0), And(x, 0xf)) == And(x, 0xff)
    ensures And(x, 0xff) >> 4 < 16
  {
  }

  lemma RowStart(r: bv32)
    requires r < 16
    ensures Row(r)[0] == Pick(COLUMN, r)
  {
  }

  /** Every entry of the table is eight steps of the bitwise CRC. */
  lemma TableRight(x: bv32)
    ensures Table(x) == Entry(CRC32C, And(x, 0xff))
  {
    hide Row, Pick, Xor, And, Entry, EntriesOf, Spanned, RowOfSums;
    var hi, lo := And(x, 0xff) >> 4, And(x, 0xf);
    Nibbles(x);
    Powers();
    RowAndColumnSpanned();
    SpanOfEntries(ROW0, UNITS);
    SpanOfEntries(COLUMN, TENS);
    PickEntry(ROW0, UNITS, lo);
    PickEntry(COLUMN, TENS, hi);
    RowStart(hi);
    RowsAreSums(hi);
    PickIsSum(Row(hi), ROW0, lo);
    EntryLinear(CRC32C, And(x, 0xf0), lo);
  }

  // ----- the two routines -----------------------------------------------------------------------------

  const ONES: bv32 := 0xFFFF_FFFF

  function Complement(c: bv32): bv32 { c ^ 0xFFFF_FFFF }

  function Swapped(r: bv32): bv32 {
    ((r & 0xff) << 24) | (((r >> 8) & 0xff) << 16) | (((r >> 16) & 0xff) << 8) | ((r >> 24) & 0xff)
  }

  /** The inner loop of crc32. */
  method EightSteps(polynomial: bv32, crc0: bv32, ch0: bv32) returns (crc: bv32)
    ensures crc == Bits(polynomial, crc0, ch0, 8)
  {
    hide Bit, Half;
    crc := crc0;
    var ch := ch0;
    for j := 0 to 8
      invariant Bits(polynomial, crc, ch, 8 - j) == Bits(polynomial, crc0, ch0, 8)
    {
      crc := Bit(polynomial, crc, ch);
      ch := Half(ch);
    }
  }

  /** crc32 of hash.cpp, bit by bit for any polynomial. */
  method Crc32(data: seq<Byte>, polynomial: bv32) returns (r: bv32)
    ensures r == Complement(ByBit(polynomial, ONES, data))
  {
    hide Bits, Octet;
    var crc := ONES;
    assert data[0..] == data;
    for i := 0 to |data|
      invariant ByBit(polynomial, crc, data[i..]) == ByBit(polynomial, ONES, data)
    {
      assert data[i..][1..] == data[i + 1..];
      crc := EightSteps(polynomial, crc, Octet(data[i]));
    }
    r := Complement(crc);
  }

  /** The macro's look-up is one table step. */
  lemma MacroStep(crc: bv32, b: Byte)
    ensures Xor(Shift8(crc), Table(Xor(crc, Octet(b)))) == TableStep(CRC32C, crc, b)
  {
    hide Xor, Shift8, Table, Octet, Entry, And;
    TableRight(Xor(crc, Octet(b)));
  }

  lemma ByTableTurn(poly: bv32, crc: bv32, data: seq<Byte>)
    ensures ByTable(poly, crc, data)
         == if data == [] then crc else ByTable(poly, TableStep(poly, crc, data[0]), data[1..])
  {
    hide TableStep;
  }

  /** generate_crc32c: by table, complemented, bytes swapped. For every message it is the swapped
      bitwise CRC with the reflected polynomial. */
  method GenerateCrc32c(buffer: seq<Byte>) returns (r: bv32)
    ensures r == Swapped(Complement(ByBit(CRC32C, ONES, buffer)))
  {
    hide *;
    var crc := ONES;
    assert buffer[0..] == buffer;
    for i := 0 to |buffer|
      invariant ByTable(CRC32C, crc, buffer[i..]) == ByTable(CRC32C, ONES, buffer)
    {
      MacroStep(crc, buffer[i]);
      ByTableTurn(CRC32C, crc, buffer[i..]);
      assert buffer[i..][1..] == buffer[i + 1..];
      crc := Xor(Shift8(crc), Table(Xor(crc, Octet(buffer[i]))));
    }
    ByTableTurn(CRC32C, crc, buffer[|buffer|..]);
    TableIsBitwise(CRC32C, ONES, buffer);
    r := Swapped(Complement(crc));
  }
}
