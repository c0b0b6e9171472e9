/** The stateless cookie of the SCTP handshake (section 5.1.3 of RFC 4960). The HMAC is a function
    about which nothing is known; randomness and the clock are parameters. */
module SctpCookie {
  import opened Bytes
  import opened Buffers
  import opened SctpData

  type Mac = m: seq<Byte> | |m| == 28 witness seq(28, _ => 0)
  type Address = a: seq<Byte> | |a| <= 16 witness []

  /** The sender of a packet as the server sees it. */
  datatype Peer = Peer(addr: Address, theirPort: U16, localPort: U16)

  /** The keyed HMAC and the time the key was made. */
  datatype Key = Key(mac: seq<Byte> -> Mac, timestamp: U32)

  /** What the server must remember of an INIT and does not store. */
  datatype Initial = Initial(tag: U32, theirTsn: U32, myTsn: U32)

  function Numbers(i: Initial): (r: seq<Byte>)
    ensures |r| == 12
  {
    Be32(i.tag) + Be32(i.theirTsn) + Be32(i.myTsn)
  }

  function Whence(p: Peer): (r: seq<Byte>)
    ensures |r| == |p.addr| + 5 && r[0] == |p.addr|
  {
    [|p.addr|] + p.addr + Be16(p.theirPort) + Be16(p.localPort)
  }

  function Content(k: Key, p: Peer, i: Initial): (r: seq<Byte>)
    ensures |r| == |p.addr| + 21
  {
    Numbers(i) + Whence(p) + Be32(k.timestamp)
  }

  function Mint(k: Key, p: Peer, i: Initial): (r: seq<Byte>)
    ensures |r| == |p.addr| + 49
  {
    var c := Content(k, p, i);
    c + k.mac(c)
  }

  method GenerateStateCookie(k: Key, p: Peer, i: Initial) returns (cookie: seq<Byte>)
    ensures cookie == Mint(k, p, i)
  {
    hide Be16, Be32;
    var sc := new BufferOut();
    var _ := sc.AddLong(i.tag);
    var _ := sc.AddLong(i.theirTsn);
    var _ := sc.AddLong(i.myTsn);
    sc.AddByte(|p.addr|);
    sc.AddBuffer(p.addr);
    var _ := sc.AddShort(p.theirPort);
    var _ := sc.AddShort(p.localPort);
    var _ := sc.AddLong(k.timestamp);
    assert sc.buffer == Content(k, p, i);
    sc.AddBuffer(k.mac(sc.buffer));
    cookie := sc.buffer;
  }

  // ----- COOKIE ECHO --------------------------------------------------------------------------------------------

  /** The first three fields of a cookie. */
  function NumbersOf(cookie: seq<Byte>): Initial
    requires |cookie| >= 12
  {
    Initial(Get32(cookie, 0), Get32(cookie, 4), Get32(cookie, 8))
  }

  lemma NumbersBack(i: Initial, rest: seq<Byte>)
    ensures NumbersOf(Numbers(i) + rest) == i
  {
    hide Be32, Get32;
    var s := Numbers(i) + rest;
    Get32OfBe32(i.tag, [], Be32(i.theirTsn) + Be32(i.myTsn) + rest);
    assert s == [] + Be32(i.tag) + (Be32(i.theirTsn) + Be32(i.myTsn) + rest);
    Get32OfBe32(i.theirTsn, Be32(i.tag), Be32(i.myTsn) + rest);
    assert s == Be32(i.tag) + Be32(i.theirTsn) + (Be32(i.myTsn) + rest);
    Get32OfBe32(i.myTsn, Be32(i.tag) + Be32(i.theirTsn), rest);
    assert |Be32(i.tag)| == 4 && |Be32(i.theirTsn)| == 4 by {
      FourOctets(i.tag);
      FourOctets(i.theirTsn);
    }
  }

  /** chunk_cookie_echo: too short a cookie throws; otherwise its numbers and whether this server
      would mint it for this sender. */
  datatype Echo = Short | Echo(ok: bool, initial: Initial)

  function ReadEcho(k: Key, p: Peer, cookie: seq<Byte>): Echo {
    if |cookie| < 12 then Short
    else
      var i := NumbersOf(cookie);
      Echo(Mint(k, p, i) == cookie, i)
  }

  method ChunkCookieEcho(k: Key, p: Peer, body: seq<Byte>) returns (r: Echo)
    ensures r == ReadEcho(k, p, body)
  {
    hide Mint, Get32;
    var temp := new BufferIn(body);
    var ok, i := ReadNumbers(temp);
    if !ok { return Short; }
    var cookie := GenerateStateCookie(k, p, i);
    r := Echo(cookie == body, i);
  }

  method ReadNumbers(b: BufferIn) returns (ok: bool, i: Initial)
    requires b.Valid()
    modifies b`o
    ensures ok == (|old(b.Rest())| >= 12)
    ensures ok ==> i == NumbersOf(old(b.Rest()))
  {
    hide Get32;
    ok, i := false, Initial(0, 0, 0);
    ghost var rest := b.Rest();
    var tag := b.GetLong();
    if tag == Fail { return; }
    var theirTsn := b.GetLong();
    if theirTsn == Fail { return; }
    var myTsn := b.GetLong();
    if myTsn == Fail { return; }
    LongsAt(rest);
    ok, i := true, Initial(tag.value, theirTsn.value, myTsn.value);
  }

  lemma LongsAt(s: seq<Byte>)
    requires |s| >= 12
    ensures s[4..][4..] == s[8..]
    ensures Get32(s[4..], 0) == Get32(s, 4) && Get32(s[8..], 0) == Get32(s, 8)
  {
  }

  /** A cookie echoed from the address and ports it was minted for is accepted and gives back exactly
      the tag and both TSNs. */
  lemma EchoedCookieAccepted(k: Key, p: Peer, i: Initial)
    ensures ReadEcho(k, p, Mint(k, p, i)) == Echo(true, i)
  {
    hide Whence, Be32, Numbers;
    var c := Content(k, p, i);
    var rest := Whence(p) + Be32(k.timestamp) + k.mac(c);
    NumbersBack(i, rest);
    assert Mint(k, p, i) == Numbers(i) + rest;
  }

  /** Exactly the cookies this server mints for this sender are accepted. */
  lemma AcceptedIffMinted(k: Key, p: Peer, cookie: seq<Byte>)
    ensures var e := ReadEcho(k, p, cookie);
            e.Echo? && e.ok <==> exists i :: cookie == Mint(k, p, i)
  {
    if i :| cookie == Mint(k, p, i) {
      EchoedCookieAccepted(k, p, i);
    }
  }

  lemma {:induction false} WhenceInjective(p: Peer, q: Peer, a: seq<Byte>, b: seq<Byte>)
    requires Whence(p) + a == Whence(q) + b
    ensures p == q
  {
    var s := Whence(p) + a;
    assert s[0] == |p.addr| && (Whence(q) + b)[0] == |q.addr|;
    var n := 1 + |p.addr|;
    assert s[1..n] == p.addr && (Whence(q) + b)[1..n] == q.addr;
    assert s[n..n + 2] == Be16(p.theirPort) && (Whence(q) + b)[n..n + 2] == Be16(q.theirPort);
    assert s[n + 2..n + 4] == Be16(p.localPort) && (Whence(q) + b)[n + 2..n + 4] == Be16(q.localPort);
    Be16Injective(p.theirPort, q.theirPort);
    Be16Injective(p.localPort, q.localPort);
  }

  lemma Be16Injective(m: U16, n: U16)
    requires Be16(m) == Be16(n)
    ensures m == n
  {
    assert Be16(m)[0] == Be16(n)[0] && Be16(m)[1] == Be16(n)[1];
  }

  /** One cookie is good for one sender and one INIT only. */
  lemma CookieBinds(k: Key, p: Peer, q: Peer, i: Initial, j: Initial)
    requires Mint(k, p, i) == Mint(k, q, j)
    ensures p == q && i == j
  {
    hide Whence, Be32, Numbers;
    var a := Be32(k.timestamp) + k.mac(Content(k, p, i));
    var b := Be32(k.timestamp) + k.mac(Content(k, q, j));
    assert Mint(k, p, i) == Numbers(i) + (Whence(p) + a);
    assert Mint(k, q, j) == Numbers(j) + (Whence(q) + b);
    NumbersBack(i, Whence(p) + a);
    NumbersBack(j, Whence(q) + b);
    assert (Numbers(i) + (Whence(p) + a))[12..] == Whence(p) + a;
    assert (Numbers(j) + (Whence(q) + b))[12..] == Whence(q) + b;
    WhenceInjective(p, q, a, b);
  }

  /** An accepted cookie ends in the MAC of everything before it, and no other sender can use it. */
  lemma AcceptedCarriesMac(k: Key, p: Peer, cookie: seq<Byte>)
    requires ReadEcho(k, p, cookie).Echo? && ReadEcho(k, p, cookie).ok
    ensures |cookie| >= 28 && cookie[|cookie| - 28..] == k.mac(cookie[..|cookie| - 28])
    ensures forall q :: ReadEcho(k, q, cookie).Echo? && ReadEcho(k, q, cookie).ok ==> q == p
  {
    hide Content, NumbersOf;
    var i := NumbersOf(cookie);
    assert cookie[..|cookie| - 28] == Content(k, p, i);
    forall q | ReadEcho(k, q, cookie).Echo? && ReadEcho(k, q, cookie).ok
      ensures q == p
    {
      CookieBinds(k, p, q, i, i);
    }
  }

  // ----- INIT and INIT ACK ----------------------------------------------------------------------------------------

  /** A parameter of an INIT on the wire, without the padding behind it. */
  datatype Parameter = Parameter(kind: U16, value: seq<Byte>)

  function EncodeParameter(p: Parameter): (r: seq<Byte>)
    requires |p.value| + 4 < M16
    ensures |r| == |p.value| + 4
  {
    Be16(p.kind) + Be16(|p.value| + 4) + p.value
  }

  /** get_parameter: None when a read throws; else the parameter and how much was read. */
  datatype OneParameter = Throws | Takes(p: Parameter, n: nat)

  function TakeParameter(s: seq<Byte>): (r: OneParameter)
    ensures r.Takes? ==> 0 < r.n <= |s|
  {
    if |s| < 4 then Throws
    else
      var len := Get16(s, 2);
      if len < 4 || |s| < len + |Padding(len)| then Throws
      else Takes(Parameter(Get16(s, 0), s[4..len]), len + |Padding(len)|)
  }

  method GetParameter(b: BufferIn) returns (r: OneParameter)
    requires b.Valid()
    modifies b`o
    ensures b.Valid() && r == TakeParameter(old(b.Rest()))
    ensures r.Takes? ==> b.Rest() == old(b.Rest())[r.n..]
  {
    hide Get16, Padding;
    ghost var rest := b.Rest();
    var ok, kind, len := ReadTwoShorts(b);
    if !ok { return Throws; }
    if len < 4 { return Throws; }
    var value := b.GetSegment(len - 4);
    if value == Fail { return Throws; }
    assert value.value == rest[4..len] && b.Rest() == rest[len..];
    var padding := PaddingSize(len);
    var sought := b.Seek(padding);
    if !sought { return Throws; }
    assert rest[len..][padding..] == rest[len + padding..];
    r := Takes(Parameter(kind, value.value), len + padding);
  }

  method ReadTwoShorts(b: BufferIn) returns (ok: bool, first: U16, second: U16)
    requires b.Valid()
    modifies b`o
    ensures b.Valid() && ok == (|old(b.Rest())| >= 4)
    ensures ok ==> first == Get16(old(b.Rest()), 0) && second == Get16(old(b.Rest()), 2)
    ensures ok ==> b.Rest() == old(b.Rest())[4..]
  {
    hide Get16;
    ok, first, second := false, 0, 0;
    ghost var rest := b.Rest();
    var one := b.GetShort();
    if one == Fail { return; }
    var two := b.GetShort();
    if two == Fail { return; }
    ShortsAt(rest);
    ok, first, second := true, one.value, two.value;
  }

  lemma ShortsAt(s: seq<Byte>)
    requires |s| >= 4
    ensures s[2..][2..] == s[4..] && Get16(s[2..], 0) == Get16(s, 2)
  {
  }

  /** Do all parameters read without a throw? */
  predicate ParametersRead(s: seq<Byte>)
    decreases |s|
  {
    s == [] || (var r := TakeParameter(s); r.Takes? && ParametersRead(s[r.n..]))
  }

  /** Parameters as section 3.2.1 of RFC 4960 lays them out: padded, except that a chunk's length
      leaves out the padding of the last. */
  function Laid(ps: seq<Parameter>): seq<Byte>
    requires forall i | 0 <= i < |ps| :: |ps[i].value| + 4 < M16
  {
    if ps == [] then []
    else if |ps| == 1 then EncodeParameter(ps[0])
    else EncodeParameter(ps[0]) + Padding(|ps[0].value|) + Laid(ps[1..])
  }

  /** A parameter is read exactly if its length is at least four and it and its padding are there. */
  lemma TakesIff(s: seq<Byte>)
    ensures TakeParameter(s).Takes? <==> |s| >= 4 && Get16(s, 2) >= 4 && |s| >= (Get16(s, 2) + 3) / 4 * 4
    ensures TakeParameter(s).Takes? ==> TakeParameter(s).n % 4 == 0 && |TakeParameter(s).p.value| + 4 == Get16(s, 2)
  {
    hide Get16;
    if |s| >= 4 {
      RoundedUp(Get16(s, 2));
    }
  }

  lemma RoundedUp(n: nat)
    ensures n + |Padding(n)| == (n + 3) / 4 * 4
  {
  }

  lemma TakeEncoded(p: Parameter, rest: seq<Byte>)
    requires |p.value| + 4 < M16
    ensures TakeParameter(EncodeParameter(p) + rest)
         == if |rest| < |Padding(|p.value|)| then Throws else Takes(p, |p.value| + 4 + |Padding(|p.value|)|)
  {
    var s := EncodeParameter(p) + rest;
    var len := |p.value| + 4;
    PaddingOfFour(|p.value|);
    assert s == [] + Be16(p.kind) + (Be16(len) + p.value + rest);
    Get16OfBe16(p.kind, [], Be16(len) + p.value + rest);
    assert s == Be16(p.kind) + Be16(len) + (p.value + rest);
    Get16OfBe16(len, Be16(p.kind), p.value + rest);
    assert s[4..len] == p.value;
  }

  /** An INIT is read if and only if its last parameter needs no padding: the reader also wants the
      padding that the chunk's length leaves out. */
  lemma {:induction false} InitReadIff(ps: seq<Parameter>)
    requires forall i | 0 <= i < |ps| :: |ps[i].value| + 4 < M16
    ensures ParametersRead(Laid(ps)) <==> ps == [] || |ps[|ps| - 1].value| % 4 == 0
    decreases |ps|
  {
    hide TakeParameter, EncodeParameter;
    if |ps| == 1 {
      TakeEncoded(ps[0], []);
      var s := EncodeParameter(ps[0]);
      assert s + [] == s;
      if |ps[0].value| % 4 == 0 {
        assert s[|ps[0].value| + 4..] == [];
      }
    } else if |ps| > 1 {
      var rest := Laid(ps[1..]);
      var pad := Padding(|ps[0].value|);
      TakeEncoded(ps[0], pad + rest);
      assert Laid(ps) == EncodeParameter(ps[0]) + (pad + rest);
      assert Laid(ps)[|ps[0].value| + 4 + |pad|..] == rest;
      InitReadIff(ps[1..]);
    }
  }

  /** What chunk_init reads of an INIT body; None when a read throws. */
  datatype InitView = NoInit | InitView(tag: U32, theirTsn: U32)

  function ReadInit(body: seq<Byte>): InitView {
    if |body| < 16 || !ParametersRead(body[16..]) then NoInit
    else InitView(Get32(body, 0), Get32(body, 12))
  }

  lemma InitTells(body: seq<Byte>)
    requires ReadInit(body).InitView?
    ensures |body| >= 16 && ReadInit(body) == InitView(Get32(body, 0), Get32(body, 12))
  {
    hide Get32, ParametersRead;
  }

  /** The INIT ACK that answers it. */
  function InitAck(k: Key, p: Peer, myTag: U32, i: Initial): (c: Chunk)
    ensures |c.body| + 4 < M16
  {
    Chunk(2, 0, AckFixed(myTag, i.myTsn) + EncodeParameter(Parameter(7, Mint(k, p, i))))
  }

  function AckFixed(myTag: U32, myTsn: U32): (r: seq<Byte>)
    ensures |r| == 16
  {
    Be32(myTag) + Be32(4096) + Be16(1) + Be16(1) + Be32(myTsn)
  }

  /** chunk_init. `myTsn` is the random number it draws. */
  method ChunkInit(k: Key, p: Peer, myTag: U32, myTsn: U32, body: seq<Byte>) returns (v: InitView, out: seq<Byte>)
    ensures v == ReadInit(body)
    ensures v.InitView? ==> out == EncodeChunk(InitAck(k, p, myTag, Initial(v.tag, v.theirTsn, myTsn)))
  {
    hide ParametersRead, Get32, EncodeChunk, InitAck;
    v, out := NoInit, [];
    var b := new BufferIn(body);
    var ok, tag, theirTsn := ReadFixed(b);
    if !ok { return; }
    ok := SkipParameters(b);
    if !ok { return; }
    v := InitView(tag, theirTsn);
    out := WriteInitAck(k, p, myTag, Initial(tag, theirTsn, myTsn));
  }

  method SkipParameters(b: BufferIn) returns (ok: bool)
    requires b.Valid()
    modifies b`o
    ensures ok == ParametersRead(old(b.Rest()))
  {
    hide TakeParameter;
    var done := b.EndReached();
    while !done
      invariant b.Valid() && (done <==> b.Rest() == [])
      invariant ParametersRead(b.Rest()) == ParametersRead(old(b.Rest()))
      decreases |b.Rest()|, !done
    {
      var r := GetParameter(b);
      if r == Throws { return false; }
      done := b.EndReached();
    }
    ok := true;
  }

  method ReadFixed(b: BufferIn) returns (ok: bool, tag: U32, theirTsn: U32)
    requires b.Valid()
    modifies b`o
    ensures b.Valid() && ok == (|old(b.Rest())| >= 16)
    ensures ok ==> tag == Get32(old(b.Rest()), 0) && theirTsn == Get32(old(b.Rest()), 12)
    ensures ok ==> b.Rest() == old(b.Rest())[16..]
  {
    hide Get32, Get16;
    ok, tag, theirTsn := false, 0, 0;
    ghost var rest := b.Rest();
    var first := b.GetLong();
    if first == Fail { return; }
    var rwnd := b.GetLong();
    if rwnd == Fail { return; }
    assert b.Rest() == rest[8..];
    var streams, _, _ := ReadTwoShorts(b);
    if !streams { return; }
    assert b.Rest() == rest[12..];
    var last := b.GetLong();
    if last == Fail { return; }
    InitAt(rest);
    ok, tag, theirTsn := true, first.value, last.value;
  }

  lemma InitAt(s: seq<Byte>)
    requires |s| >= 16
    ensures s[12..][4..] == s[16..] && Get32(s[12..], 0) == Get32(s, 12)
  {
  }

  method WriteInitAck(k: Key, p: Peer, myTag: U32, i: Initial) returns (bytes: seq<Byte>)
    ensures bytes == EncodeChunk(InitAck(k, p, myTag, i))
  {
    hide Mint, Be16, Be32, Padding, AckFixed, EncodeParameter;
    var out := new BufferOut();
    out.AddByte(2);
    out.AddByte(0);
    var lengthOffset := out.AddShort(0);
    TwoOctets(0);
    ghost var head := out.buffer;
    WriteFixed(out, myTag, i.myTsn);
    WriteCookie(out, k, p, i);
    ghost var c := InitAck(k, p, myTag, i);
    assert out.buffer == head + c.body && |out.buffer| == |c.body| + 4;
    out.PutShort(|out.buffer|, lengthOffset);
    TwoOctets(|c.body| + 4);
    assert out.buffer == [2, 0] + Be16(|c.body| + 4) + c.body;
    out.AddPadding();
    PaddingOfFour(|c.body|);
    bytes := out.buffer;
  }

  method WriteFixed(out: BufferOut, myTag: U32, myTsn: U32)
    modifies out
    ensures out.buffer == old(out.buffer) + AckFixed(myTag, myTsn)
  {
    hide Be16, Be32;
    var _ := out.AddLong(myTag);
    var _ := out.AddLong(4096);
    var _ := out.AddShort(1);
    var _ := out.AddShort(1);
    var _ := out.AddLong(myTsn);
  }

  method WriteCookie(out: BufferOut, k: Key, p: Peer, i: Initial)
    modifies out
    ensures out.buffer == old(out.buffer) + EncodeParameter(Parameter(7, Mint(k, p, i)))
  {
    hide Mint, Be16;
    var _ := out.AddShort(7);
    var cookie := GenerateStateCookie(k, p, i);
    var _ := out.AddShort(4 + |cookie|);
    out.AddBuffer(cookie);
  }

  /** The value of the parameter behind the fixed fields of an INIT ACK, which a client echoes. */
  function CookieIn(body: seq<Byte>): seq<Byte>
    requires |body| >= 20
  {
    var len := Get16(body, 18);
    if 4 <= len <= |body| - 16 then body[20..16 + len] else []
  }

  /** The fixed fields of an INIT ACK as section 3.3.3 of RFC 4960 has them read: the server's tag, its window, one
      stream each way and its initial TSN; behind them the cookie parameter. */
  lemma AckFieldsRead(k: Key, p: Peer, myTag: U32, i: Initial)
    ensures var c := InitAck(k, p, myTag, i);
            && c.kind == 2 && |c.body| >= 20
            && Get32(c.body, 0) == myTag && Get32(c.body, 4) == 4096
            && Get16(c.body, 8) == 1 && Get16(c.body, 10) == 1 && Get32(c.body, 12) == i.myTsn
            && Get16(c.body, 16) == 7
  {
    hide Mint, Be16, AckFixed, Get16, Get32;
    TwoOctets(7);
    var s, fixed := InitAck(k, p, myTag, i).body, AckFixed(myTag, i.myTsn);
    var back := s[18..];
    assert s == fixed + Be16(7) + back;
    Get16OfBe16(7, fixed, back);
    FixedFront(myTag, i.myTsn, Be16(7) + back);
    FixedBack(myTag, i.myTsn, Be16(7) + back);
    assert s == fixed + (Be16(7) + back);
  }

  lemma FixedFront(myTag: U32, myTsn: U32, rest: seq<Byte>)
    ensures var s := AckFixed(myTag, myTsn) + rest; Get32(s, 0) == myTag && Get32(s, 4) == 4096
  {
    hide Be16, Be32, Get32;
    FourOctets(myTag);
    FourOctets(4096);
    var s, tag, win := AckFixed(myTag, myTsn) + rest, Be32(myTag), Be32(4096);
    var back := Be16(1) + Be16(1) + Be32(myTsn) + rest;
    assert s == tag + win + back;
    assert s == [] + tag + (win + back);
    Get32OfBe32(myTag, [], win + back);
    Get32OfBe32(4096, tag, back);
  }

  lemma FixedBack(myTag: U32, myTsn: U32, rest: seq<Byte>)
    ensures var s := AckFixed(myTag, myTsn) + rest; Get16(s, 8) == 1 && Get16(s, 10) == 1 && Get32(s, 12) == myTsn
  {
    hide Be16, Be32, Get16, Get32;
    FourOctets(myTag);
    FourOctets(4096);
    FourOctets(myTsn);
    TwoOctets(1);
    var s, front, one, tsn := AckFixed(myTag, myTsn) + rest, Be32(myTag) + Be32(4096), Be16(1), Be32(myTsn);
    assert s == front + one + (one + tsn + rest);
    Get16OfBe16(1, front, one + tsn + rest);
    assert s == (front + one) + one + (tsn + rest);
    Get16OfBe16(1, front + one, tsn + rest);
    assert s == (front + one + one) + tsn + rest;
    Get32OfBe32(myTsn, front + one + one, rest);
  }

  /** The handshake: the INIT ACK that answers an INIT announces the server's tag and TSN; walked out of it and echoed,
      the cookie is accepted and gives back what the INIT said and the TSN that was announced. */
  lemma HandshakeCompletes(k: Key, p: Peer, myTag: U32, myTsn: U32, init: seq<Byte>)
    requires ReadInit(init).InitView?
    ensures var v := ReadInit(init); var i := Initial(v.tag, v.theirTsn, myTsn); var c := InitAck(k, p, myTag, i);
            && Walk(EncodeChunk(c)) == ([c], Done)
            && |c.body| >= 20 && Get32(c.body, 0) == myTag
            && ReadEcho(k, p, CookieIn(c.body)) == Echo(true, i)
            && i.myTsn == Get32(c.body, 12) && i.tag == Get32(init, 0) && i.theirTsn == Get32(init, 12)
  {
    hide Mint, Walk, ReadEcho, EncodeChunk, ReadInit, CookieIn, Get32;
    var v := ReadInit(init);
    var i := Initial(v.tag, v.theirTsn, myTsn);
    var c := InitAck(k, p, myTag, i);
    WalkOne(c, []);
    WalkNothing();
    assert EncodeChunk(c) + [] == EncodeChunk(c);
    assert [c] + [] == [c];
    CookieBack(k, p, myTag, i);
    AckFieldsRead(k, p, myTag, i);
    InitTells(init);
    EchoedCookieAccepted(k, p, i);
  }

  lemma CookieBack(k: Key, p: Peer, myTag: U32, i: Initial)
    ensures var b := InitAck(k, p, myTag, i).body; |b| >= 20 && CookieIn(b) == Mint(k, p, i)
  {
    hide Mint, AckFixed;
    var m := Mint(k, p, i);
    var b := InitAck(k, p, myTag, i).body;
    var front := AckFixed(myTag, i.myTsn) + Be16(7);
    assert b == front + Be16(|m| + 4) + m;
    Get16OfBe16(|m| + 4, front, m);
    assert b[20..16 + (|m| + 4)] == m;
  }
}
