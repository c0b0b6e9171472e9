/** PPP frames: header compression, frame check, octet stuffing, and the way back.
    Sections 2 and 6 of RFC 1661, section 4 of RFC 1662. */
module PppFrame {
  import opened Bytes
  import Fcs

  const FLAG: Byte := 0x7e
  const ESCAPE: Byte := 0x7d

  /** The negotiated settings both ends hold: the two compressions and the 256-bit character map. */
  datatype Link = Link(ac: bool, pc: bool, accm: seq<Byte>) {
    predicate Valid() { |accm| == 32 }
  }

  /** A packet; `meta` packets belong to PPP itself and are never compressed. */
  datatype Packet = Packet(meta: bool, protocol: U16, payload: seq<Byte>)

  /** Bit 5 inverted: b ^ 0x20. */
  function Flip(b: Byte): Byte {
    if b / 32 % 2 == 1 then b - 32 else b + 32
  }

  function Pow2(k: nat): (r: nat)
    ensures r > 0
  {
    if k == 0 then 1 else 2 * Pow2(k - 1)
  }

  predicate Mapped(accm: seq<Byte>, b: Byte)
    requires |accm| == 32
  {
    accm[b / 8] / Pow2(b % 8) % 2 == 1
  }

  predicate Escaped(b: Byte, accm: seq<Byte>, meta: bool)
    requires |accm| == 32
  {
    b == ESCAPE || b == FLAG || Mapped(accm, b) || (b < 0x20 && meta)
  }

  function StuffOne(b: Byte, accm: seq<Byte>, meta: bool): seq<Byte>
    requires |accm| == 32
  {
    if Escaped(b, accm, meta) then [ESCAPE, Flip(b)] else [b]
  }

  function Stuff(s: seq<Byte>, accm: seq<Byte>, meta: bool): seq<Byte>
    requires |accm| == 32
  {
    if s == [] then [] else StuffOne(s[0], accm, meta) + Stuff(s[1..], accm, meta)
  }

  function Header(l: Link, p: Packet): seq<Byte> {
    (if !l.ac || p.meta then [0xff, 0x03] else [])
    + (if l.pc && p.protocol < 0x100 && !p.meta then [p.protocol] else Be16(p.protocol))
  }

  function Content(l: Link, p: Packet): seq<Byte> {
    var temp := Header(l, p) + p.payload;
    temp + Fcs.Trailer(temp)
  }

  function Frame(l: Link, p: Packet): seq<Byte>
    requires l.Valid()
  {
    [FLAG] + Stuff(Content(l, p), l.accm, p.meta) + [FLAG]
  }

  /** The way back for one frame; a trailing escape makes vector::at throw. */
  function Unstuff(s: seq<Byte>): Option<seq<Byte>>
    decreases |s|
  {
    if s == [] then Some([])
    else if s[0] == ESCAPE then
      if |s| == 1 then None
      else match Unstuff(s[2..]) case None => None case Some(r) => Some([Flip(s[1])] + r)
    else match Unstuff(s[1..]) case None => None case Some(r) => Some([s[0]] + r)
  }

  /** The frames a stream completes, `buf` being the octets read since the last flag. */
  function Deframe(stream: seq<Byte>, buf: seq<Byte>): seq<seq<Byte>>
    decreases |stream|
  {
    if stream == [] then []
    else if stream[0] != FLAG then Deframe(stream[1..], buf + [stream[0]])
    else if buf == [] then Deframe(stream[1..], [])
    else [buf] + Deframe(stream[1..], [])
  }

  /** process_incoming_packet up to its dispatch: the header with its elided octets put back. */
  function Expand(ac: bool, pc: bool, buf: seq<Byte>): Option<seq<Byte>> {
    if |buf| < 4 then None
    else
      var b1 := if buf[0] != 0xff && ac then [0xff, 0x03] + buf else buf;
      Some(if b1[2] % 2 == 1 && pc then b1[..2] + [0x00] + b1[2..] else b1)
  }

  /** What layer 3 gets: the protocol and everything between the header and the frame check. */
  function Dispatch(l: Link, raw: seq<Byte>): Option<(U16, seq<Byte>)> {
    match Unstuff(raw)
    case None => None
    case Some(u) =>
      match Expand(l.ac, l.pc, u)
      case None => None
      case Some(b) => if |b| < 6 then None else Some((Get16(b, 2), b[4..|b| - 2]))
  }

  function DispatchAll(l: Link, frames: seq<seq<Byte>>): seq<Option<(U16, seq<Byte>)>> {
    seq(|frames|, i requires 0 <= i < |frames| => Dispatch(l, frames[i]))
  }

  function Received(l: Link, stream: seq<Byte>): seq<Option<(U16, seq<Byte>)>> {
    DispatchAll(l, Deframe(stream, []))
  }

  function Wire(l: Link, ps: seq<Packet>): seq<Byte>
    requires l.Valid()
  {
    if ps == [] then [] else Frame(l, ps[0]) + Wire(l, ps[1..])
  }

  // ----- stuffing ---------------------------------------------------------------------------------------

  lemma FlipTwice(b: Byte)
    ensures Flip(Flip(b)) == b
    ensures Flip(b) == FLAG <==> b == 0x5e
  {
  }

  /** Unstuffing undoes stuffing for every character map. */
  lemma {:induction false} UnstuffStuff(s: seq<Byte>, accm: seq<Byte>, meta: bool)
    requires |accm| == 32
    ensures Unstuff(Stuff(s, accm, meta)) == Some(s)
  {
    hide Mapped;
    if s != [] {
      var rest := Stuff(s[1..], accm, meta);
      UnstuffStuff(s[1..], accm, meta);
      FlipTwice(s[0]);
      var t := StuffOne(s[0], accm, meta) + rest;
      assert t[|StuffOne(s[0], accm, meta)|..] == rest;
      assert s == [s[0]] + s[1..];
    }
  }

  /** The map leaves '^' alone, the one octet whose escaped form is the flag. */
  predicate MapOk(accm: seq<Byte>)
    requires |accm| == 32
  {
    !Mapped(accm, 0x5e)
  }

  lemma {:induction false} StuffHidesFlag(s: seq<Byte>, accm: seq<Byte>, meta: bool)
    requires |accm| == 32 && (0x5e in s ==> MapOk(accm))
    ensures FLAG !in Stuff(s, accm, meta)
    ensures |s| <= |Stuff(s, accm, meta)|
  {
    hide Mapped;
    if s != [] {
      FlipTwice(s[0]);
      StuffHidesFlag(s[1..], accm, meta);
    }
  }

  // ----- what the character map is for --------------------------------------------------------------------

  function Weight(b: bool, w: nat): nat {
    if b then w else 0
  }

  /** Octet i of the map holds the flags of the octets 8i to 8i + 7, the first in its lowest bit. */
  lemma MapBits(accm: seq<Byte>, i: nat)
    requires |accm| == 32 && i < 32
    ensures accm[i] == Weight(Mapped(accm, 8 * i), 1) + Weight(Mapped(accm, 8 * i + 1), 2)
                     + Weight(Mapped(accm, 8 * i + 2), 4) + Weight(Mapped(accm, 8 * i + 3), 8)
                     + Weight(Mapped(accm, 8 * i + 4), 16) + Weight(Mapped(accm, 8 * i + 5), 32)
                     + Weight(Mapped(accm, 8 * i + 6), 64) + Weight(Mapped(accm, 8 * i + 7), 128)
  {
    hide Mapped, Weight, Pow2;
    var x := accm[i];
    Powers();
    forall k | 0 <= k < 8
      ensures Mapped(accm, 8 * i + k) <==> x / Pow2(k) % 2 == 1
    {
      BitAt(accm, i, k);
    }
    assert Mapped(accm, 8 * i + 0) <==> x / Pow2(0) % 2 == 1;
    BinaryDigits(x);
    Weighed(x, 1);
    Weighed(x, 2);
    Weighed(x, 4);
    Weighed(x, 8);
    Weighed(x, 16);
    Weighed(x, 32);
    Weighed(x, 64);
    Weighed(x, 128);
  }

  lemma BitAt(accm: seq<Byte>, i: nat, k: nat)
    requires |accm| == 32 && i < 32 && k < 8
    ensures Mapped(accm, 8 * i + k) <==> accm[i] / Pow2(k) % 2 == 1
  {
    hide Pow2;
    assert (8 * i + k) / 8 == i && (8 * i + k) % 8 == k;
  }

  lemma Weighed(x: nat, w: nat)
    requires w > 0
    ensures Weight(x / w % 2 == 1, w) == x / w % 2 * w
  {
    var d := x / w % 2;
    assert d == 0 || d == 1;
  }

  lemma Powers()
    ensures Pow2(0) == 1 && Pow2(1) == 2 && Pow2(2) == 4 && Pow2(3) == 8
    ensures Pow2(4) == 16 && Pow2(5) == 32 && Pow2(6) == 64 && Pow2(7) == 128
  {
    assert Pow2(4) == 2 * Pow2(3);
    assert Pow2(7) == 2 * Pow2(6);
  }

  lemma BinaryDigits(x: Byte)
    ensures x == x / 1 % 2 * 1 + x / 2 % 2 * 2 + x / 4 % 2 * 4 + x / 8 % 2 * 8 + x / 16 % 2 * 16 + x / 32 % 2 * 32
               + x / 64 % 2 * 64 + x / 128 % 2 * 128
  {
    var x1, x2, x3, x4, x5, x6, x7 := x / 2, x / 4, x / 8, x / 16, x / 32, x / 64, x / 128;
    Halves(x);
    assert x1 == 2 * x2 + x1 % 2 && x2 == 2 * x3 + x2 % 2 && x3 == 2 * x4 + x3 % 2;
    assert x4 == 2 * x5 + x4 % 2 && x5 == 2 * x6 + x5 % 2 && x6 == 2 * x7 + x6 % 2;
    assert x7 % 2 == x7;
  }

  lemma Halves(x: Byte)
    ensures x / 4 == x / 2 / 2 && x / 8 == x / 4 / 2 && x / 16 == x / 8 / 2
    ensures x / 32 == x / 16 / 2 && x / 64 == x / 32 / 2 && x / 128 == x / 64 / 2
  {
  }

  /** No escaped octet is itself flagged: the escape is not, nor what it is followed by. Said of the map alone. */
  predicate Protects(accm: seq<Byte>, meta: bool)
    requires |accm| == 32
  {
    && !Mapped(accm, 0x7d) && !Mapped(accm, 0x5d) && !Mapped(accm, 0x5e)
    && (forall b: Byte :: Mapped(accm, b) ==> !Mapped(accm, Flip(b)))
    && (meta ==> forall b: Byte | 0x20 <= b < 0x40 :: !Mapped(accm, b))
  }

  predicate Clean(t: seq<Byte>, accm: seq<Byte>)
    requires |accm| == 32
  {
    forall b <- t :: !Mapped(accm, b)
  }

  lemma {:induction false} StuffedClean(s: seq<Byte>, accm: seq<Byte>, meta: bool)
    requires |accm| == 32 && Protects(accm, meta)
    ensures Clean(Stuff(s, accm, meta), accm)
  {
    hide Mapped;
    if s != [] {
      StuffedClean(s[1..], accm, meta);
      assert Clean(StuffOne(s[0], accm, meta), accm);
    }
  }

  ghost predicate AlwaysClean(accm: seq<Byte>, meta: bool)
    requires |accm| == 32
  {
    forall s: seq<Byte> :: Clean(Stuff(s, accm, meta), accm)
  }

  lemma StuffSingle(b: Byte, accm: seq<Byte>, meta: bool)
    requires |accm| == 32
    ensures Stuff([b], accm, meta)
         == if b == 0x7d || b == 0x7e || Mapped(accm, b) || (b < 0x20 && meta) then [0x7d, Flip(b)] else [b]
  {
    hide Mapped;
    var one := StuffOne(b, accm, meta);
    assert [b][1..] == [];
    assert one + [] == one;
  }

  /** No octet that the map flags is ever sent, if and only if no flagged octet, nor one that is escaped in any case,
      turns into a flagged one by being escaped. */
  lemma MapProtectsIff(accm: seq<Byte>, meta: bool)
    requires |accm| == 32
    ensures AlwaysClean(accm, meta) <==> Protects(accm, meta)
  {
    hide Mapped, Stuff;
    if Protects(accm, meta) {
      forall s: seq<Byte>
        ensures Clean(Stuff(s, accm, meta), accm)
      {
        StuffedClean(s, accm, meta);
      }
    }
    if AlwaysClean(accm, meta) {
      forall b: Byte
        ensures Mapped(accm, b) || b == 0x7d || b == 0x7e || (meta && b < 0x20) ==>
                  !Mapped(accm, 0x7d) && !Mapped(accm, Flip(b))
      {
        StuffSingle(b, accm, meta);
        assert Clean(Stuff([b], accm, meta), accm);
        assert 0x7d in [0x7d, Flip(b)] && Flip(b) in [0x7d, Flip(b)];
      }
      assert Flip(0x7d) == 0x5d && Flip(0x7e) == 0x5e;
      forall b: Byte | 0x20 <= b < 0x40 && meta
        ensures !Mapped(accm, b)
      {
        assert Flip(b - 0x20) == b;
      }
    }
  }

  /** A map that flags control characters only, as the standard's four octets do: no flagged octet is ever sent, and
      none below 0x20 in a packet of PPP itself. */
  lemma ControlMapProtects(s: seq<Byte>, accm: seq<Byte>, meta: bool)
    requires |accm| == 32 && forall i | 4 <= i < 32 :: accm[i] == 0
    ensures Clean(Stuff(s, accm, meta), accm)
    ensures meta ==> forall b <- Stuff(s, accm, meta) :: b >= 0x20
  {
    forall b: Byte | b >= 0x20
      ensures !Mapped(accm, b)
    {
      assert accm[b / 8] == 0;
      ZeroBit(b % 8);
    }
    hide Mapped;
    StuffedClean(s, accm, meta);
    if meta {
      NoControls(s, accm);
    }
  }

  lemma ZeroBit(k: nat)
    ensures 0 / Pow2(k) % 2 == 0
  {
  }

  lemma {:induction false} NoControls(s: seq<Byte>, accm: seq<Byte>)
    requires |accm| == 32 && forall b: Byte | b >= 0x20 :: !Mapped(accm, b)
    ensures forall b <- Stuff(s, accm, true) :: b >= 0x20
  {
    hide Mapped;
    if s != [] {
      NoControls(s[1..], accm);
      assert forall b <- StuffOne(s[0], accm, true) :: b >= 0x20;
    }
  }

  predicate Plain(b: Byte, accm: seq<Byte>, meta: bool)
    requires |accm| == 32
  {
    b != 0x7d && b != 0x7e && !Mapped(accm, b) && (meta ==> b >= 0x20)
  }

  function PlainCount(s: seq<Byte>, accm: seq<Byte>, meta: bool): nat
    requires |accm| == 32
  {
    if s == [] then 0 else (if Plain(s[0], accm, meta) then 1 else 0) + PlainCount(s[1..], accm, meta)
  }

  /** Octets that are neither special nor flagged cost one octet and go out as themselves, all others two. */
  lemma {:induction false} PlainPasses(s: seq<Byte>, accm: seq<Byte>, meta: bool)
    requires |accm| == 32
    ensures |Stuff(s, accm, meta)| == 2 * |s| - PlainCount(s, accm, meta)
    ensures Stuff(s, accm, meta) == s <==> forall b <- s :: Plain(b, accm, meta)
  {
    hide Mapped, Flip;
    if s != [] {
      PlainPasses(s[1..], accm, meta);
      var t := StuffOne(s[0], accm, meta) + Stuff(s[1..], accm, meta);
      if Plain(s[0], accm, meta) {
        assert t[1..] == Stuff(s[1..], accm, meta);
        assert s == [s[0]] + s[1..];
      } else {
        LongerThan(s[1..], accm, meta);
        assert s[0] in s;
      }
    }
  }

  lemma {:induction false} LongerThan(s: seq<Byte>, accm: seq<Byte>, meta: bool)
    requires |accm| == 32
    ensures PlainCount(s, accm, meta) <= |s|
  {
    hide Plain;
    if s != [] {
      LongerThan(s[1..], accm, meta);
    }
  }

  // ----- deframing --------------------------------------------------------------------------------------

  lemma {:induction false} DeframeRun(c: seq<Byte>, rest: seq<Byte>, buf: seq<Byte>)
    requires FLAG !in c && buf + c != []
    ensures Deframe(c + [FLAG] + rest, buf) == [buf + c] + Deframe(rest, [])
    decreases |c|
  {
    var s := c + [FLAG] + rest;
    if c == [] {
      assert s == [FLAG] + rest && s[1..] == rest && buf + c == buf;
    } else {
      assert s[0] == c[0] && s[1..] == c[1..] + [FLAG] + rest;
      DeframeRun(c[1..], rest, buf + [c[0]]);
      assert buf + [c[0]] + c[1..] == buf + c;
    }
  }

  lemma DeframeFrame(l: Link, p: Packet, rest: seq<Byte>)
    requires l.Valid() && MapOk(l.accm)
    ensures Deframe(Frame(l, p) + rest, []) == [Stuff(Content(l, p), l.accm, p.meta)] + Deframe(rest, [])
  {
    hide Stuff, Content, MapOk, Deframe;
    var c := Stuff(Content(l, p), l.accm, p.meta);
    StuffHidesFlag(Content(l, p), l.accm, p.meta);
    ContentLong(l, p);
    assert Frame(l, p) + rest == [FLAG] + (c + [FLAG] + rest);
    OpeningFlag(c + [FLAG] + rest);
    DeframeRun(c, rest, []);
    assert [] + c == c;
  }

  lemma OpeningFlag(s: seq<Byte>)
    ensures Deframe([FLAG] + s, []) == Deframe(s, [])
  {
    assert ([FLAG] + s)[1..] == s;
  }

  lemma ContentLong(l: Link, p: Packet)
    ensures |Content(l, p)| >= 3 + |p.payload|
  {
  }

  /** A frame stands between two flags, and holds none if the map leaves '^' alone. */
  lemma FrameDelimited(l: Link, p: Packet)
    requires l.Valid()
    ensures var f := Frame(l, p);
            && |f| >= 2 && f[0] == f[|f| - 1] == 0x7e
            && (MapOk(l.accm) ==> forall i | 0 < i < |f| - 1 :: f[i] != 0x7e)
  {
    hide MapOk, Stuff, Content;
    var c, f := Stuff(Content(l, p), l.accm, p.meta), Frame(l, p);
    if MapOk(l.accm) {
      StuffHidesFlag(Content(l, p), l.accm, p.meta);
      assert forall i | 0 < i < |f| - 1 :: f[i] == c[i - 1];
    }
  }

  // ----- headers ----------------------------------------------------------------------------------------

  /** A protocol number of section 2 of RFC 1661 (high octet even, low octet odd), other than 0x00ff. */
  predicate ProtocolOk(n: U16) {
    n / M8 % 2 == 0 && n % 2 == 1 && n != 0xff
  }

  predicate PacketOk(p: Packet) {
    ProtocolOk(p.protocol) && p.payload != []
  }

  /** Nothing is put back that was not negotiated away: without compression a packet is taken as it is, and with it
      only the two octets in front, and a zero in front of an odd protocol octet, are added. */
  lemma ExpandExact(ac: bool, pc: bool, buf: seq<Byte>)
    ensures |buf| < 4 ==> Expand(ac, pc, buf) == None
    ensures |buf| >= 4 ==>
              var front := if ac && buf[0] != 0xff then [0xff, 0x03] else [];
              var rest := (front + buf)[2..];
              Expand(ac, pc, buf) == Some((front + buf)[..2] + (if pc && rest[0] % 2 == 1 then [0] else []) + rest)
    ensures |buf| >= 4 ==> Expand(false, false, buf) == Some(buf)
  {
    if |buf| >= 4 {
      var b1 := if ac && buf[0] != 0xff then [0xff, 0x03] + buf else buf;
      assert b1 == (if ac && buf[0] != 0xff then [0xff, 0x03] else []) + buf;
      assert b1[..2] + [] + b1[2..] == b1;
    }
  }

  /** Whatever was elided is put back, for every setting of the two compressions. */
  lemma ExpandContent(l: Link, p: Packet)
    requires PacketOk(p)
    ensures Expand(l.ac, l.pc, Content(l, p))
         == Some([0xff, 0x03] + Be16(p.protocol) + p.payload + Fcs.Trailer(Header(l, p) + p.payload))
  {
    hide Fcs.Trailer, Expand, Be16;
    var t := Fcs.Trailer(Header(l, p) + p.payload);
    TrailerLength(Header(l, p) + p.payload);
    var rest := p.payload + t;
    var c, h := Content(l, p), (if !l.ac || p.meta then [0xff, 0x03] else []);
    if l.pc && p.protocol < 0x100 && !p.meta {
      assert c == h + ([p.protocol] + rest);
      ExpandShort(l, p.protocol, h, rest);
    } else {
      assert c == h + (Be16(p.protocol) + rest);
      ExpandLong(l, p.protocol, h, rest);
    }
    assert [0xff, 0x03] + Be16(p.protocol) + rest == [0xff, 0x03] + Be16(p.protocol) + p.payload + t;
  }

  lemma ExpandShort(l: Link, n: U16, h: seq<Byte>, rest: seq<Byte>)
    requires ProtocolOk(n) && n < 0x100 && l.pc && |rest| >= 3 && (h == [0xff, 0x03] || (h == [] && l.ac))
    ensures Expand(l.ac, l.pc, h + ([n] + rest)) == Some([0xff, 0x03] + Be16(n) + rest)
  {
    var b1 := [0xff, 0x03] + ([n] + rest);
    assert h == [] ==> h + ([n] + rest) == [n] + rest;
    assert b1[..2] == [0xff, 0x03] && b1[2..] == [n] + rest;
    assert [0x00] + ([n] + rest) == Be16(n) + rest;
    assert [0xff, 0x03] + [0x00] + ([n] + rest) == [0xff, 0x03] + ([0x00] + ([n] + rest));
    assert [0xff, 0x03] + (Be16(n) + rest) == [0xff, 0x03] + Be16(n) + rest;
  }

  lemma ExpandLong(l: Link, n: U16, h: seq<Byte>, rest: seq<Byte>)
    requires ProtocolOk(n) && |rest| >= 3 && (h == [0xff, 0x03] || (h == [] && l.ac))
    ensures Expand(l.ac, l.pc, h + (Be16(n) + rest)) == Some([0xff, 0x03] + Be16(n) + rest)
  {
    var b1 := [0xff, 0x03] + (Be16(n) + rest);
    assert h == [] ==> h + (Be16(n) + rest) == Be16(n) + rest;
    assert b1 == [0xff, 0x03] + Be16(n) + rest;
    assert b1[2] == n / M8;
  }

  /** The compressions save what they promise, on packets of layer 3 only: two octets of address and control, and one
      of a protocol below 0x100. Packets of PPP itself are the same whatever was negotiated. */
  lemma CompressionSaves(l: Link, p: Packet)
    ensures |Content(l, p)| == |p.payload| + 6 - (if l.ac && !p.meta then 2 else 0)
                                              - (if l.pc && !p.meta && p.protocol < 0x100 then 1 else 0)
    ensures p.meta ==> Content(l, p) == Content(Link(false, false, l.accm), p)
  {
    TrailerLength(Header(l, p) + p.payload);
  }

  lemma TrailerLength(s: seq<Byte>)
    ensures |Fcs.Trailer(s)| == 2
  {
  }

  lemma DispatchContent(l: Link, p: Packet)
    requires l.Valid() && PacketOk(p)
    ensures Dispatch(l, Stuff(Content(l, p), l.accm, p.meta)) == Some((p.protocol, p.payload))
  {
    hide Stuff, Unstuff, Content, Expand, Fcs.Trailer;
    UnstuffStuff(Content(l, p), l.accm, p.meta);
    ExpandContent(l, p);
    TrailerLength(Header(l, p) + p.payload);
    var b := [0xff, 0x03] + Be16(p.protocol) + p.payload + Fcs.Trailer(Header(l, p) + p.payload);
    assert b[4..|b| - 2] == p.payload;
    assert Get16(b, 2) == p.protocol;
  }

  // ----- the stream ---------------------------------------------------------------------------------------

  function Delivered(p: Packet): Option<(U16, seq<Byte>)> {
    Some((p.protocol, p.payload))
  }

  function Expected(ps: seq<Packet>): seq<Option<(U16, seq<Byte>)>> {
    seq(|ps|, i requires 0 <= i < |ps| => Delivered(ps[i]))
  }

  /** Concatenated frames of any packets arrive as exactly those packets, in order. */
  lemma {:induction false} StreamRoundTrip(l: Link, ps: seq<Packet>)
    requires l.Valid() && MapOk(l.accm) && forall p <- ps :: PacketOk(p)
    ensures Received(l, Wire(l, ps)) == Expected(ps)
  {
    hide Frame, Stuff, Deframe, Dispatch, Content, MapOk, PacketOk;
    if ps == [] {
      NoFrames();
    } else {
      var c := Stuff(Content(l, ps[0]), l.accm, ps[0].meta);
      DeframeFrame(l, ps[0], Wire(l, ps[1..]));
      DispatchContent(l, ps[0]);
      StreamRoundTrip(l, ps[1..]);
      var frames := [c] + Deframe(Wire(l, ps[1..]), []);
      var out := DispatchAll(l, frames);
      assert out == [Dispatch(l, c)] + DispatchAll(l, Deframe(Wire(l, ps[1..]), []));
    }
  }

  lemma NoFrames()
    ensures Deframe([], []) == []
  {
  }

  // ----- the condition on the map is exact -----------------------------------------------------------------

  lemma {:induction false} StuffConcat(s: seq<Byte>, t: seq<Byte>, accm: seq<Byte>, meta: bool)
    requires |accm| == 32
    ensures Stuff(s + t, accm, meta) == Stuff(s, accm, meta) + Stuff(t, accm, meta)
  {
    hide Mapped, StuffOne;
    if s == [] {
      assert s + t == t;
    } else {
      assert (s + t)[1..] == s[1..] + t;
      StuffConcat(s[1..], t, accm, meta);
    }
  }

  lemma {:induction false} TrailingEscape(s: seq<Byte>, accm: seq<Byte>, meta: bool)
    requires |accm| == 32
    ensures Unstuff(Stuff(s, accm, meta) + [ESCAPE]) == None
  {
    hide Mapped;
    if s != [] {
      var one := StuffOne(s[0], accm, meta);
      var t := Stuff(s, accm, meta) + [ESCAPE];
      assert t == one + (Stuff(s[1..], accm, meta) + [ESCAPE]);
      assert t[|one|..] == Stuff(s[1..], accm, meta) + [ESCAPE];
      TrailingEscape(s[1..], accm, meta);
    }
  }

  /** The packet that gives a bad map away: its '^' is sent as an escape and a flag. */
  const WITNESS := Packet(false, 0x21, [0x5e])

  lemma WitnessFrame(l: Link) returns (h: seq<Byte>, rest: seq<Byte>)
    requires l.Valid() && !MapOk(l.accm)
    ensures FLAG !in h
    ensures Frame(l, WITNESS) == [FLAG] + (h + [ESCAPE]) + [FLAG] + rest
    ensures Unstuff(h + [ESCAPE]) == None
  {
    hide Mapped, Fcs.Trailer, Stuff, Header, Unstuff;
    var header := Header(l, WITNESS);
    HeaderPlain(l);
    var t := Fcs.Trailer(header + [0x5e]);
    assert Content(l, WITNESS) == header + ([0x5e] + t);
    StuffConcat(header, [0x5e] + t, l.accm, false);
    StuffHidesFlag(header, l.accm, false);
    TrailingEscape(header, l.accm, false);
    h := Stuff(header, l.accm, false);
    StuffConcat([0x5e], t, l.accm, false);
    StuffSingle(0x5e, l.accm, false);
    rest := Stuff(t, l.accm, false) + [FLAG];
    assert Frame(l, WITNESS) == [FLAG] + (h + [ESCAPE]) + [FLAG] + rest;
  }

  lemma HeaderPlain(l: Link)
    ensures 0x5e !in Header(l, WITNESS)
  {
  }

  lemma BadMapLosesWitness(l: Link)
    requires l.Valid() && !MapOk(l.accm)
    ensures PacketOk(WITNESS) && Received(l, Wire(l, [WITNESS])) != Expected([WITNESS])
  {
    hide MapOk, Deframe, Unstuff, Frame;
    var h, rest := WitnessFrame(l);
    var c := h + [ESCAPE];
    assert Wire(l, [WITNESS]) == Frame(l, WITNESS) + [];
    assert Frame(l, WITNESS) == [FLAG] + (c + [FLAG] + rest);
    assert Wire(l, [WITNESS]) == [FLAG] + (c + [FLAG] + rest);
    OpeningFlag(c + [FLAG] + rest);
    DeframeRun(c, rest, []);
    assert [] + c == c;
    var frames := Deframe(Wire(l, [WITNESS]), []);
    assert frames[0] == c;
    assert Received(l, Wire(l, [WITNESS]))[0] == None;
    assert Expected([WITNESS])[0] == Delivered(WITNESS);
  }

  /** Streams of valid packets round-trip if and only if the map leaves '^' alone. */
  lemma RoundTripIff(l: Link)
    requires l.Valid()
    ensures MapOk(l.accm) <==>
            forall ps: seq<Packet> | (forall p <- ps :: PacketOk(p)) :: Received(l, Wire(l, ps)) == Expected(ps)
  {
    hide MapOk, Received, Wire, Expected, PacketOk;
    if MapOk(l.accm) {
      forall ps: seq<Packet> | forall p <- ps :: PacketOk(p)
        ensures Received(l, Wire(l, ps)) == Expected(ps)
      {
        StreamRoundTrip(l, ps);
      }
    } else {
      BadMapLosesWitness(l);
      assert forall p <- [WITNESS] :: PacketOk(p);
    }
  }
}
