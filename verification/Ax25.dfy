/** AX.25 addresses and packets (section 3.12 of AX.25 v2.2) as ax25.cpp builds and parses them, and
    their way through KISS. */
module Ax25 {
  import opened Bytes
  import opened Kiss

  const SPACE: Byte := 32

  // ----- addresses ------------------------------------------------------------------------------------------

  datatype Address = Address(call: seq<Byte>, ssid: nat, endMark: bool, repeated: bool)

  /** Octet `i` of the callsign field: the character shifted left, padded with spaces. */
  function CallOctet(call: seq<Byte>, i: nat): Byte {
    if i < |call| then call[i] * 2 % M8 else SPACE * 2
  }

  /** The last octet: ssid, end mark in bit 0, repeated in bit 7. */
  function Flags(a: Address): Byte {
    var b := a.ssid * 2 % M8 + (if a.endMark then 1 else 0);
    if a.repeated && b < 128 then b + 128 else b
  }

  function GenerateAddress(a: Address): (r: seq<Byte>)
    ensures |r| == 7
  {
    seq(6, i requires 0 <= i < 6 => CallOctet(a.call, i)) + [Flags(a)]
  }

  /** The characters of the callsign field up to a zero or a space. */
  function ParseCall(s: seq<Byte>): seq<Byte> {
    if s == [] || s[0] / 2 == 0 || s[0] / 2 == SPACE then [] else [s[0] / 2] + ParseCall(s[1..])
  }

  /** The parsing constructor; None when it leaves the address invalid. */
  function ParseAddress(s: seq<Byte>): Option<Address> {
    if |s| < 7 || (exists i | 0 <= i < 5 :: s[i] % 2 == 1) then None
    else Some(Address(ParseCall(s[..6]), s[6] / 2 % 16, s[6] % 2 == 1, s[6] >= 128))
  }

  predicate CallOk(call: seq<Byte>) {
    |call| <= 6 && forall i | 0 <= i < |call| :: 0 < call[i] < 128 && call[i] != SPACE
  }

  predicate AddressOk(a: Address) {
    CallOk(a.call) && a.ssid < 16
  }

  lemma {:induction false} ParsePadded(call: seq<Byte>, s: seq<Byte>)
    requires CallOk(call) && |s| >= |call|
    requires forall i | 0 <= i < |s| :: s[i] == CallOctet(call, i)
    ensures ParseCall(s) == call
    decreases |s|
  {
    if call != [] {
      var c1 := call[1..];
      assert s[0] == CallOctet(call, 0);
      forall i | 0 <= i < |s[1..]|
        ensures s[1..][i] == CallOctet(c1, i)
      {
        assert s[i + 1] == CallOctet(call, i + 1);
      }
      ParsePadded(c1, s[1..]);
      assert call == [call[0]] + c1;
    } else if s != [] {
      assert s[0] == CallOctet(call, 0);
    }
  }

  lemma {:induction false} ParsedCallOk(s: seq<Byte>)
    requires |s| <= 6
    ensures CallOk(ParseCall(s)) && |ParseCall(s)| <= |s|
  {
    if s != [] {
      ParsedCallOk(s[1..]);
    }
  }

  /** An address survives generation and parsing if and only if its callsign and ssid are valid. */
  lemma AddressRoundTripIff(a: Address)
    ensures ParseAddress(GenerateAddress(a)) == Some(a) <==> AddressOk(a)
  {
    var g := GenerateAddress(a);
    assert forall i | 0 <= i < 6 :: g[i] == CallOctet(a.call, i);
    assert g[..6] == seq(6, i requires 0 <= i < 6 => CallOctet(a.call, i));
    if AddressOk(a) {
      ParsePadded(a.call, g[..6]);
      FlagsRead(a);
    } else {
      ParsedCallOk(g[..6]);
    }
  }

  lemma FlagsRead(a: Address)
    requires a.ssid < 16
    ensures var b := Flags(a); b / 2 % 16 == a.ssid && (b % 2 == 1 <==> a.endMark) && (b >= 128 <==> a.repeated)
  {
    var x := a.ssid * 2;
    assert x % M8 == x && x < 32;
    var y := if a.endMark then x + 1 else x;
    assert y / 2 == a.ssid && (y + 128) / 2 == a.ssid + 64;
  }

  /** The last octet, of any address: the end mark in bit 0, the low six bits of the ssid above it, and in bit 7 the
      repeated mark or what the ssid shifts there. */
  lemma FlagBits(a: Address)
    ensures var b := Flags(a);
            b / 2 % 64 == a.ssid % 64 && (b % 2 == 1 <==> a.endMark) && (b >= 128 <==> a.repeated || a.ssid % 128 >= 64)
  {
    hide Flags;
    var x := a.ssid % 128;
    LowBits(a.ssid);
    var y := 2 * x + (if a.endMark then 1 else 0);
    FlagsOf(a, x, y);
    HighBit(x, y);
  }

  lemma LowBits(n: nat)
    ensures n % 128 % 64 == n % 64
  {
  }

  lemma FlagsOf(a: Address, x: nat, y: nat)
    requires x == a.ssid % 128 && y == 2 * x + (if a.endMark then 1 else 0)
    ensures Flags(a) == if a.repeated && y < 128 then y + 128 else y
  {
    assert a.ssid * 2 % M8 == 2 * x;
  }

  lemma HighBit(x: nat, y: nat)
    requires x < 128 && (y == 2 * x || y == 2 * x + 1)
    ensures y / 2 % 64 == x % 64 && (y >= 128 <==> x >= 64) && y % 2 == y - 2 * x
    ensures y < 128 ==> (y + 128) / 2 % 64 == x % 64 && (y + 128) % 2 == y % 2
  {
    assert y / 2 == x;
    if y < 128 {
      assert (y + 128) / 2 == x + 64;
    }
  }

  /** An address is refused exactly if one of the first five octets has its low bit set; that of the sixth is not
      looked at. */
  lemma RefusedIff(s: seq<Byte>)
    requires |s| == 7
    ensures ParseAddress(s) == None <==> s[0] % 2 + s[1] % 2 + s[2] % 2 + s[3] % 2 + s[4] % 2 > 0
  {
    if s[0] % 2 + s[1] % 2 + s[2] % 2 + s[3] % 2 + s[4] % 2 == 0 {
      assert forall i | 0 <= i < 5 :: s[i] % 2 == 0;
    }
  }

  // ----- packets ----------------------------------------------------------------------------------------------

  datatype FrameType = I | S | U | Ui

  datatype Packet = Packet(to: Address, from: Address, repeaters: seq<Address>,
                           control: Byte, pid: Option<Byte>, data: seq<Byte>)

  predicate IsUi(control: Byte) {
    control == 0x03 || control == 0x13
  }

  predicate HasPid(control: Byte) {
    control % 2 == 0 || IsUi(control)
  }

  function TypeOf(control: Byte): FrameType {
    if HasPid(control) then (if IsUi(control) then Ui else I) else if control / 2 % 2 == 1 then U else S
  }

  /** The frame types of section 4.2.1 of AX.25 v2.2: the low bits tell I, S and U apart, and UI is the U frame 0x03
      with or without the poll bit. A protocol octet stands in I and UI frames only. */
  lemma TypeExact(control: Byte)
    ensures TypeOf(control) == I <==> control % 2 == 0
    ensures TypeOf(control) == S <==> control % 4 == 1
    ensures TypeOf(control) == Ui <==> control == 0x03 || control == 0x13
    ensures TypeOf(control) == U <==> control % 4 == 3 && control != 0x03 && control != 0x13
    ensures HasPid(control) <==> TypeOf(control) == I || TypeOf(control) == Ui
  {
  }

  /** The end marks as generate_packet sets them: only the last repeater carries one. */
  function Marked(rs: seq<Address>): (r: seq<Address>)
    ensures |r| == |rs|
  {
    seq(|rs|, i requires 0 <= i < |rs| => rs[i].(endMark := i == |rs| - 1))
  }

  function SourceMarked(p: Packet): Address {
    if p.repeaters == [] then p.from else p.from.(endMark := false)
  }

  function GenerateAll(rs: seq<Address>): (r: seq<Byte>)
    ensures |r| == 7 * |rs|
  {
    if rs == [] then [] else GenerateAddress(rs[0]) + GenerateAll(rs[1..])
  }

  function Tail(p: Packet): seq<Byte> {
    [p.control] + (if HasPid(p.control) then [if p.pid.Some? then p.pid.value else 0] else []) + p.data
  }

  function Generate(p: Packet): seq<Byte> {
    GenerateAddress(p.to) + GenerateAddress(SourceMarked(p)) + GenerateAll(Marked(p.repeaters)) + Tail(p)
  }

  /** What a packet takes: seven octets an address, the control octet, the protocol octet of I and UI frames, the data. */
  lemma GeneratedSize(p: Packet)
    ensures var n := 14 + 7 * |p.repeaters|; var pid := if TypeOf(p.control) in {I, Ui} then 1 else 0;
            && |Generate(p)| == n + 1 + pid + |p.data| && Generate(p)[n] == p.control && Generate(p)[n + 1 + pid..] == p.data
            && (pid == 1 ==> Generate(p)[n + 1] == if p.pid.Some? then p.pid.value else 0)
  {
    hide GenerateAll, GenerateAddress;
    var n := 14 + 7 * |p.repeaters|;
    var g := Generate(p);
    assert g[n..] == Tail(p);
  }

  /** Up to `n` repeaters, until one carries the end mark. Reads past the end are failures here. */
  function ParseRepeaters(s: seq<Byte>, n: nat, ended: bool): Option<(seq<Address>, seq<Byte>)>
    decreases n
  {
    if n == 0 || ended then Some(([], s))
    else if |s| < 7 then None
    else
      match ParseAddress(s[..7])
      case None => None
      case Some(a) =>
        match ParseRepeaters(s[7..], n - 1, a.endMark)
        case None => None
        case Some((rs, rest)) => Some(([a] + rs, rest))
  }

  function ParseTail(to: Address, from: Address, rs: seq<Address>, s: seq<Byte>): Option<(Packet, FrameType)> {
    if |s| < (if s != [] && HasPid(s[0]) then 2 else 1) then None
    else if HasPid(s[0]) then Some((Packet(to, from, rs, s[0], Some(s[1]), s[2..]), TypeOf(s[0])))
    else Some((Packet(to, from, rs, s[0], None, s[1..]), TypeOf(s[0])))
  }

  /** The parsing constructor of a packet. */
  function Parse(s: seq<Byte>): Option<(Packet, FrameType)> {
    if |s| < 14 then None
    else
      match ParseAddress(s[..7])
      case None => None
      case Some(to) =>
        match ParseAddress(s[7..14])
        case None => None
        case Some(from) =>
          match ParseRepeaters(s[14..], 2, from.endMark)
          case None => None
          case Some((rs, rest)) => ParseTail(to, from, rs, rest)
  }

  /** What a receiver sees: end marks as sent, and a protocol octet exactly in I and UI frames. */
  function Normalised(p: Packet): Packet {
    p.(from := SourceMarked(p), repeaters := Marked(p.repeaters),
       pid := if HasPid(p.control) then Some(if p.pid.Some? then p.pid.value else 0) else None)
  }

  predicate PacketOk(p: Packet) {
    && AddressOk(p.to) && AddressOk(p.from)
    && |p.repeaters| <= 2 && (forall i | 0 <= i < |p.repeaters| :: AddressOk(p.repeaters[i]))
    && (p.repeaters == [] ==> p.from.endMark)
  }

  /** Only the last of a list carries the end mark. */
  predicate EndsMarked(rs: seq<Address>) {
    forall i | 0 <= i < |rs| :: AddressOk(rs[i]) && (rs[i].endMark <==> i == |rs| - 1)
  }

  lemma {:induction false} ParseGenerated(rs: seq<Address>, rest: seq<Byte>, n: nat)
    requires EndsMarked(rs) && |rs| <= n
    ensures ParseRepeaters(GenerateAll(rs) + rest, n, rs == []) == Some((rs, rest))
    decreases |rs|
  {
    hide ParseAddress, GenerateAddress, AddressOk;
    if rs == [] {
      assert GenerateAll(rs) + rest == rest;
    } else {
      var a := rs[0];
      var s := GenerateAll(rs) + rest;
      assert AddressOk(a);
      AddressRoundTripIff(a);
      assert s[..7] == GenerateAddress(a) && s[7..] == GenerateAll(rs[1..]) + rest;
      assert a.endMark <==> rs[1..] == [];
      ParseGenerated(rs[1..], rest, n - 1);
      assert rs == [a] + rs[1..];
    }
  }

  lemma TailParsed(p: Packet)
    ensures ParseTail(p.to, SourceMarked(p), Marked(p.repeaters), Tail(p)) == Some((Normalised(p), TypeOf(p.control)))
  {
    var t := Tail(p);
    if HasPid(p.control) {
      assert t[2..] == p.data;
    } else {
      assert t[1..] == p.data;
    }
  }

  /** A packet parses back to itself, up to end marks and the protocol octet, with the type its
      control octet says, if and only if its addresses are valid, it has at most two repeaters and,
      having none, its source carries the end mark. */
  lemma PacketRoundTripIff(p: Packet)
    ensures Parse(Generate(p)) == Some((Normalised(p), TypeOf(p.control))) <==> PacketOk(p)
  {
    if PacketOk(p) {
      PacketRoundTrip(p);
    } else if Parse(Generate(p)) == Some((Normalised(p), TypeOf(p.control))) {
      ParsedPacketOk(Generate(p));
      NormalisedOk(p);
    }
  }

  lemma PacketRoundTrip(p: Packet)
    requires PacketOk(p)
    ensures Parse(Generate(p)) == Some((Normalised(p), TypeOf(p.control)))
  {
    hide ParseAddress, GenerateAddress, ParseRepeaters, GenerateAll, ParseTail, Tail, AddressOk, Normalised;
    var from, rs := SourceMarked(p), Marked(p.repeaters);
    var g := Generate(p);
    MarkedOk(p);
    AddressRoundTripIff(p.to);
    AddressRoundTripIff(from);
    assert g[..7] == GenerateAddress(p.to) && g[7..14] == GenerateAddress(from);
    assert g[14..] == GenerateAll(rs) + Tail(p);
    ParseGenerated(rs, Tail(p), 2);
    TailParsed(p);
  }

  /** Whatever octets come in, a packet that parses is valid. */
  lemma ParsedPacketOk(s: seq<Byte>)
    ensures Parse(s).Some? ==> PacketOk(Parse(s).value.0)
  {
    hide ParseAddress, AddressOk, ParseRepeaters;
    if Parse(s).Some? {
      ParsedAddressOk(s[..7]);
      ParsedAddressOk(s[7..14]);
      ParsedRepeatersOk(s[14..], 2, ParseAddress(s[7..14]).value.endMark);
    }
  }

  lemma ParsedAddressOk(s: seq<Byte>)
    requires |s| == 7
    ensures ParseAddress(s).Some? ==> AddressOk(ParseAddress(s).value)
  {
    ParsedCallOk(s[..6]);
  }

  lemma {:induction false} ParsedRepeatersOk(s: seq<Byte>, n: nat, ended: bool)
    ensures var r := ParseRepeaters(s, n, ended);
            r.Some? ==>
              && |r.value.0| <= n && (forall i | 0 <= i < |r.value.0| :: AddressOk(r.value.0[i]))
              && (n > 0 && r.value.0 == [] ==> ended)
    decreases n
  {
    hide ParseAddress, AddressOk;
    if n > 0 && !ended && |s| >= 7 && ParseAddress(s[..7]).Some? {
      ParsedAddressOk(s[..7]);
      ParsedRepeatersOk(s[7..], n - 1, ParseAddress(s[..7]).value.endMark);
    }
  }

  lemma NormalisedOk(p: Packet)
    ensures PacketOk(Normalised(p)) <==> PacketOk(p)
  {
    var rs := Marked(p.repeaters);
    assert forall i | 0 <= i < |rs| :: AddressOk(rs[i]) <==> AddressOk(p.repeaters[i]);
  }

  lemma MarkedOk(p: Packet)
    requires PacketOk(p)
    ensures AddressOk(SourceMarked(p)) && EndsMarked(Marked(p.repeaters))
    ensures SourceMarked(p).endMark <==> Marked(p.repeaters) == []
  {
  }

  // ----- over KISS ----------------------------------------------------------------------------------------------

  function GenerateEach(ps: seq<Packet>): seq<seq<Byte>> {
    seq(|ps|, i requires 0 <= i < |ps| => Generate(ps[i]))
  }

  function ParseEach(ss: seq<seq<Byte>>): seq<Option<(Packet, FrameType)>> {
    seq(|ss|, i requires 0 <= i < |ss| => Parse(ss[i]))
  }

  /** A stream of valid packets of at most 255 octets survives generation, KISS framing as one
      stream, deframing and parsing. */
  lemma KissStream(ps: seq<Packet>)
    requires forall i | 0 <= i < |ps| :: PacketOk(ps[i]) && Fits(Generate(ps[i]))
    ensures ParseEach(KissDecode(KissWire(GenerateEach(ps)), [], false))
         == seq(|ps|, i requires 0 <= i < |ps| => Some((Normalised(ps[i]), TypeOf(ps[i].control))))
  {
    hide Generate, Parse, KissDecode, KissWire, PacketOk, Fits, Normalised;
    KissRoundTrip(GenerateEach(ps));
    forall i | 0 <= i < |ps|
      ensures Parse(Generate(ps[i])) == Some((Normalised(ps[i]), TypeOf(ps[i].control)))
    {
      PacketRoundTrip(ps[i]);
    }
  }

  // ----- the loops ------------------------------------------------------------------------------------------------

  /** The callsign loop of the parsing constructor. */
  method ReadCall(from: seq<Byte>) returns (ok: bool, address: seq<Byte>)
    requires |from| >= 6
    ensures ok <==> !exists i | 0 <= i < 5 :: from[i] % 2 == 1
    ensures ok ==> address == ParseCall(from[..6])
  {
    address := [];
    var end := false;
    ghost var whole := ParseCall(from[..6]);
    assert from[..6][0..] == from[..6];
    for i := 0 to 6
      invariant forall k | 0 <= k < i && k < 5 :: from[k] % 2 == 0
      invariant if end then address == whole else address + ParseCall(from[..6][i..]) == whole
    {
      var b := from[i];
      assert from[..6][i..][1..] == from[..6][i + 1..];
      if b % 2 == 1 && i != 5 {
        return false, [];
      }
      var c := b / 2;
      if c == 0 || c == 32 || end {
        end := true;
      } else {
        address := address + [c];
      }
    }
    ok := true;
  }

  /** generate_packet: every field at its offset in one buffer. */
  method GeneratePacket(p: Packet) returns (out: seq<Byte>)
    ensures out == Generate(p)
  {
    hide GenerateAddress;
    out := GenerateAddress(p.to);
    var from := p.from;
    if p.repeaters != [] {
      from := from.(endMark := false);
    }
    out := out + GenerateAddress(from);
    ghost var head, marked := out, Marked(p.repeaters);
    assert marked[0..] == marked;
    for i := 0 to |p.repeaters|
      invariant out + GenerateAll(marked[i..]) == head + GenerateAll(marked)
    {
      var copy := p.repeaters[i].(endMark := i == |p.repeaters| - 1);
      assert marked[i..][1..] == marked[i + 1..];
      out := out + GenerateAddress(copy);
    }
    out := out + [p.control];
    if HasPid(p.control) {
      out := out + [if p.pid.Some? then p.pid.value else 0];
    }
    out := out + p.data;
  }
}
