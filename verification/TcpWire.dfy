/** TCP segments as octets: send_segment builds them, packet_handler reads them. */
module TcpWire {
  import opened Bytes
  import opened TcpModel
  import opened Checksum

  datatype Ports = Ports(source: U16, destination: U16)

  /** The clock in the timestamp option and the value it echoes. */
  datatype Stamp = Stamp(now: U32, echo: U32)

  function Bit(b: bool, value: Byte): Byte {
    if b then value else 0
  }

  function Flags(g: Segment): Byte {
    Bit(g.fin, 1) + Bit(g.syn, 2) + Bit(g.rst, 4) + Bit(g.ack, 16)
  }

  function FirstPart(ports: Ports, g: Segment): (r: seq<Byte>)
    ensures |r| == 16
  {
    Be16(ports.source) + Be16(ports.destination) + Be32(g.seqNr) + Be32(g.ackTo) + [0x80, Flags(g), 255, 255]
  }

  function Options(stamp: Stamp): (r: seq<Byte>)
    ensures |r| == 14
  {
    [0, 0, 8, 10] + Be32(stamp.now) + Be32(stamp.echo) + [1, 0]
  }

  /** Header with timestamp option and data; the checksum field holds `checksum`. */
  function Layout(ports: Ports, g: Segment, stamp: Stamp, checksum: U16): (r: seq<Byte>)
    ensures |r| == 32 + |g.data|
  {
    FirstPart(ports, g) + Be16(checksum) + Options(stamp) + g.data
  }

  /** The addresses of a segment, the peer's first as send_segment passes them. */
  datatype Link = Link(family: Family, peer: seq<Byte>, mine: seq<Byte>) {
    predicate Ok() {
      AddressFits(family, peer) && AddressFits(family, mine)
    }
  }

  /** What goes out: the checksum of the segment with the field zero, stored in the field. */
  function Wire(l: Link, ports: Ports, g: Segment, stamp: Stamp): (r: seq<Byte>)
    requires l.Ok() && |g.data| + 32 < M31 - 41
    ensures |r| == 32 + |g.data|
  {
    Layout(ports, g, stamp, TransportChecksum(l.family, l.peer, l.mine, true, Layout(ports, g, stamp, 0)))
  }

  // ----- reading -----------------------------------------------------------------------------------------------------

  datatype Parsed = TooShort | Parsed(ports: Ports, g: Segment)

  function BitOf(b: Byte, value: nat): bool
    requires value > 0
  {
    b / value % 2 == 1
  }

  /** The fields packet_handler takes from a packet. */
  function Parse(p: seq<Byte>): Parsed {
    if |p| < 20 then TooShort
    else
      var f := p[13];
      var header := p[12] / 16 * 4;
      Parsed(Ports(Get16(p, 0), Get16(p, 2)),
             Segment(BitOf(f, 2), BitOf(f, 16), BitOf(f, 1), BitOf(f, 4), Get32(p, 4), Get32(p, 8), Get16(p, 14),
                     header <= |p|, if header <= |p| then p[header..] else []))
  }

  lemma FlagsRead(g: Segment)
    ensures var f := Flags(g);
            BitOf(f, 1) == g.fin && BitOf(f, 2) == g.syn && BitOf(f, 4) == g.rst && BitOf(f, 16) == g.ack
  {
  }

  lemma FirstPartRead(ports: Ports, g: Segment, rest: seq<Byte>)
    ensures var p := FirstPart(ports, g) + rest;
            Get16(p, 0) == ports.source && Get16(p, 2) == ports.destination
            && Get32(p, 4) == g.seqNr && Get32(p, 8) == g.ackTo
  {
    hide Get16, Get32, Be16, Be32, Flags;
    Sizes(ports, g);
    var last := [0x80, Flags(g), 255, 255] + rest;
    var p := FirstPart(ports, g) + rest;
    var a, b, c, d := Be16(ports.source), Be16(ports.destination), Be32(g.seqNr), Be32(g.ackTo);
    assert p == [] + a + (b + c + d + last);
    Get16OfBe16(ports.source, [], b + c + d + last);
    assert p == a + b + (c + d + last);
    Get16OfBe16(ports.destination, a, c + d + last);
    assert p == a + b + c + (d + last);
    Get32OfBe32(g.seqNr, a + b, d + last);
    assert p == a + b + c + d + last;
    Get32OfBe32(g.ackTo, a + b + c, last);
  }

  lemma Sizes(ports: Ports, g: Segment)
    ensures |Be16(ports.source)| == 2 && |Be16(ports.destination)| == 2
    ensures |Be32(g.seqNr)| == 4 && |Be32(g.ackTo)| == 4
  {
    TwoOctets(ports.source);
    TwoOctets(ports.destination);
    FourOctets(g.seqNr);
    FourOctets(g.ackTo);
  }

  lemma TailRead(ports: Ports, g: Segment, rest: seq<Byte>)
    ensures var p := FirstPart(ports, g) + rest;
            p[12] == 0x80 && p[13] == Flags(g) && Get16(p, 14) == OUR_WINDOW
  {
    hide Be16, Be32, Flags;
    Sizes(ports, g);
  }

  /** The peer reads exactly the segment that was sent. */
  lemma WireRoundTrip(l: Link, ports: Ports, g: Segment, stamp: Stamp)
    requires l.Ok() && |g.data| + 32 < M31 - 41
    requires g.win == OUR_WINDOW && g.headerFits
    ensures Parse(Wire(l, ports, g, stamp)) == Parsed(ports, g)
  {
    hide FirstPart, Get16, Get32, Flags, TransportChecksum, BitOf, Be16, Options;
    var p := Wire(l, ports, g, stamp);
    var check := Be16(TransportChecksum(l.family, l.peer, l.mine, true, Layout(ports, g, stamp, 0)));
    var rest := check + Options(stamp) + g.data;
    assert |check| == 2 by { TwoOctets(TransportChecksum(l.family, l.peer, l.mine, true, Layout(ports, g, stamp, 0))); }
    assert p == FirstPart(ports, g) + rest;
    FirstPartRead(ports, g, rest);
    TailRead(ports, g, rest);
    FlagsRead(g);
    assert p[32..] == g.data;
  }

  /** The timestamp option stands where section 3 of RFC 7323 has it read: kind and length, then the sender's clock and
      the value it echoes; the urgent pointer in front of it is zero. */
  lemma TimestampRead(ports: Ports, g: Segment, stamp: Stamp, checksum: U16)
    ensures var p := Layout(ports, g, stamp, checksum);
            && Get16(p, 16) == checksum && Get16(p, 18) == 0
            && p[20] == 8 && p[21] == 10 && Get32(p, 22) == stamp.now && Get32(p, 26) == stamp.echo
  {
    hide FirstPart, Be32, Be16, Get16, Get32;
    FourOctets(stamp.now);
    FourOctets(stamp.echo);
    TwoOctets(checksum);
    var p, head := Layout(ports, g, stamp, checksum), FirstPart(ports, g);
    var c, now, echo := Be16(checksum), Be32(stamp.now), Be32(stamp.echo);
    var back := [1, 0] + g.data;
    assert p == head + c + ([0, 0, 8, 10] + now + echo + back);
    Get16OfBe16(checksum, head, [0, 0, 8, 10] + now + echo + back);
    assert p == (head + c + [0, 0, 8, 10]) + now + (echo + back);
    Get32OfBe32(stamp.now, head + c + [0, 0, 8, 10], echo + back);
    assert p == (head + c + [0, 0, 8, 10] + now) + echo + back;
    Get32OfBe32(stamp.echo, head + c + [0, 0, 8, 10] + now, back);
    ZeroAt(p, 18);
  }

  lemma ZeroAt(p: seq<Byte>, o: nat)
    requires o + 1 < |p| && p[o] == 0 && p[o + 1] == 0
    ensures Get16(p, o) == 0
  {
  }

  // ----- the checksum ------------------------------------------------------------------------------------------------

  /** The covered octets before the checksum field. */
  function Front(l: Link, ports: Ports, g: Segment): (r: seq<Byte>)
    requires l.Ok() && l.family != Other && |g.data| + 32 < M31 - 41
    ensures |r| % 2 == 0
  {
    TrailerSize(l.family, 32 + |g.data|);
    l.peer + l.mine + Trailer(l.family, true, 32 + |g.data|) + FirstPart(ports, g)
  }

  lemma CoveredSplit(l: Link, ports: Ports, g: Segment, stamp: Stamp, n: U16)
    requires l.Ok() && l.family != Other && |g.data| + 32 < M31 - 41
    ensures Covered(l.family, l.peer, l.mine, true, Layout(ports, g, stamp, n))
         == Front(l, ports, g) + Be16(n) + (Options(stamp) + Padded(g.data))
  {
    hide Trailer, Options, FirstPart, Padded, Be16;
    TwoOctets(n);
    PaddedBack(FirstPart(ports, g) + Be16(n) + Options(stamp), g.data);
  }

  lemma WordsSplit(front: seq<Byte>, n: U16, back: seq<Byte>)
    requires |front| % 2 == 0 && |back| % 2 == 0
    ensures |front + Be16(n) + back| % 2 == 0
    ensures Words(front + Be16(n) + back) == Words(front) + [n] + Words(back)
  {
    WordsConcat(front, Be16(n));
    WordsConcat(front + Be16(n), back);
    assert Words(Be16(n)) == [n];
  }

  /** Writing the checksum field changes one covered word. */
  lemma CoveredField(l: Link, ports: Ports, g: Segment, stamp: Stamp, r: U16) returns (i: nat)
    requires l.Ok() && l.family != Other && |g.data| + 32 < M31 - 41
    ensures var w := Words(Covered(l.family, l.peer, l.mine, true, Layout(ports, g, stamp, 0)));
            && i < |w| && w[i] == 0
            && Words(Covered(l.family, l.peer, l.mine, true, Layout(ports, g, stamp, r))) == w[i := r]
  {
    hide Front, Options, Layout, Covered, Words, Be16, Padded;
    var front, back := Front(l, ports, g), Options(stamp) + Padded(g.data);
    CoveredSplit(l, ports, g, stamp, 0);
    WordsSplit(front, 0, back);
    CoveredSplit(l, ports, g, stamp, r);
    WordsSplit(front, r, back);
    i := |Words(front)|;
  }

  lemma TrailerSize(f: Family, n: nat)
    requires f != Other && n < M32
    ensures |Trailer(f, true, n)| == if f == Ipv6 then 8 else 4
  {
  }

  lemma PaddedBack(head: seq<Byte>, data: seq<Byte>)
    requires |head| % 2 == 0
    ensures Padded(head + data) == head + Padded(data)
  {
  }

  /** A receiver that sums a segment with its pseudo header, in either order of the addresses, gets zero. */
  lemma WireChecksOut(l: Link, ports: Ports, g: Segment, stamp: Stamp)
    requires l.Ok() && l.family != Other && |g.data| + 32 <= 2 * (MAX_WORDS - 20)
    ensures var p := Wire(l, ports, g, stamp);
            && TransportChecksum(l.family, l.peer, l.mine, true, p) == 0
            && TransportChecksum(l.family, l.mine, l.peer, true, p) == 0
  {
    hide Layout, ChecksumOf, Words, Covered;
    var zero := Layout(ports, g, stamp, 0);
    var r := TransportChecksum(l.family, l.peer, l.mine, true, zero);
    var i := CoveredField(l, ports, g, stamp, r);
    var w := Words(Covered(l.family, l.peer, l.mine, true, zero));
    SizeCovered(l.family, l.peer, l.mine, true, zero);
    StoredChecksumVerifies(w, i);
    AddressesCommute(l.family, l.peer, l.mine, true, Wire(l, ports, g, stamp));
  }

  // ----- send_segment ------------------------------------------------------------------------------------------------

  /** send_segment's buffer, filled in place and completed with its checksum. */
  method BuildSegment(l: Link, ports: Ports, g: Segment, stamp: Stamp) returns (temp: array<Byte>)
    requires l.Ok() && |g.data| + 32 < M31 - 41
    ensures temp[..] == Wire(l, ports, g, stamp)
  {
    hide TransportChecksum, FirstPart, Options;
    temp := new Byte[20 + 12 + |g.data|];
    PutFirstPart(temp, ports, g);
    temp[16], temp[17] := 0, 0;
    PutOptions(temp, stamp);
    ghost var header := temp[..32];
    forall i | 0 <= i < |g.data| { temp[32 + i] := g.data[i]; }
    assert temp[32..] == g.data;
    assert temp[..16] == header[..16] && temp[18..32] == header[18..];
    assert temp[16..18] == Be16(0);
    assert temp[..] == temp[..16] + temp[16..18] + temp[18..32] + temp[32..];
    assert temp[..] == Layout(ports, g, stamp, 0);
    var checksum := TcpUdpChecksum(l.family, l.peer, l.mine, true, temp[..]);
    Checked(ports, g, stamp, checksum);
    temp[16] := checksum / M8;
    temp[17] := checksum % M8;
  }

  lemma Checked(ports: Ports, g: Segment, stamp: Stamp, c: U16)
    ensures Layout(ports, g, stamp, 0)[16 := c / M8][17 := c % M8] == Layout(ports, g, stamp, c)
  {
    hide FirstPart, Options;
    var a, b := Layout(ports, g, stamp, 0), Layout(ports, g, stamp, c);
    assert a == FirstPart(ports, g) + Be16(0) + (Options(stamp) + g.data);
    assert b == FirstPart(ports, g) + Be16(c) + (Options(stamp) + g.data);
  }

  method PutFirstPart(temp: array<Byte>, ports: Ports, g: Segment)
    requires temp.Length >= 32
    modifies temp
    ensures temp[..16] == FirstPart(ports, g)
  {
    hide Flags, Be16, Be32;
    PutShort(temp, 0, ports.source);
    PutShort(temp, 2, ports.destination);
    PutLong(temp, 4, g.seqNr);
    PutLong(temp, 8, g.ackTo);
    temp[12], temp[13], temp[14], temp[15] := 0x80, Flags(g), 255, 255;
    var all := temp[..];
    assert all[..2] == Be16(ports.source);
    assert all[2..4] == Be16(ports.destination);
    assert all[4..8] == Be32(g.seqNr);
    assert all[8..12] == Be32(g.ackTo);
    assert all[12..16] == [0x80, Flags(g), 255, 255];
    assert all[..16] == temp[..16];
    FiveParts(all);
  }

  method PutShort(temp: array<Byte>, o: nat, n: U16)
    requires o + 2 <= temp.Length
    modifies temp
    ensures temp[o..o + 2] == Be16(n)
    ensures forall i | 0 <= i < temp.Length && !(o <= i < o + 2) :: temp[i] == old(temp[i])
  {
    temp[o] := n / M8;
    temp[o + 1] := n % M8;
  }

  method PutLong(temp: array<Byte>, o: nat, n: U32)
    requires o + 4 <= temp.Length
    modifies temp
    ensures temp[o..o + 4] == Be32(n)
    ensures forall i | 0 <= i < temp.Length && !(o <= i < o + 4) :: temp[i] == old(temp[i])
  {
    temp[o] := n / 0x100_0000;
    temp[o + 1] := n / M16 % M8;
    temp[o + 2] := n / M8 % M8;
    temp[o + 3] := n % M8;
  }

  lemma FiveParts(s: seq<Byte>)
    requires |s| >= 16
    ensures s[..16] == s[..2] + s[2..4] + s[4..8] + s[8..12] + s[12..16]
  {
  }

  lemma FourParts(s: seq<Byte>)
    requires |s| >= 32
    ensures s[18..32] == s[18..22] + s[22..26] + s[26..30] + s[30..32]
  {
  }

  method PutOptions(temp: array<Byte>, stamp: Stamp)
    requires temp.Length >= 32
    modifies temp
    ensures temp[18..32] == Options(stamp)
    ensures forall i | 0 <= i < 18 :: temp[i] == old(temp[i])
  {
    hide Be32;
    temp[18], temp[19], temp[20], temp[21] := 0, 0, 8, 10;
    PutLong(temp, 22, stamp.now);
    PutLong(temp, 26, stamp.echo);
    temp[30], temp[31] := 1, 0;
    var all := temp[..];
    assert all[18..22] == [0, 0, 8, 10];
    assert all[22..26] == Be32(stamp.now);
    assert all[26..30] == Be32(stamp.echo);
    assert all[30..32] == [1, 0];
    FourParts(all);
  }
}
