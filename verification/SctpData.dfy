/** The SCTP data path: segmentation into DATA chunks, the chunk walker and in-order delivery
    (section 3.3.1 of RFC 4960). */
module SctpData {
  import opened Bytes
  import opened Buffers
  import Crc
  import Fcs

  // ----- chunks and packets -----------------------------------------------------------------------------------

  datatype Chunk = Chunk(kind: Byte, flags: Byte, body: seq<Byte>)

  /** A chunk on the wire: kind, flags, length of header and body, body, padding to four octets. */
  function EncodeChunk(c: Chunk): seq<Byte>
    requires |c.body| + 4 < M16
  {
    [c.kind, c.flags] + Be16(|c.body| + 4) + c.body + Padding(|c.body|)
  }

  /** How a walk over the chunks of a packet ends. */
  datatype End = Done | TooShort | Truncated

  /** One round of the chunk loop: stop, a chunk whose padding is missing, or a chunk to go on from. */
  datatype Round = Stop(e: End) | Cut(c: Chunk) | Next(c: Chunk, skip: nat)

  function RoundOf(s: seq<Byte>): (r: Round)
    ensures r.Next? ==> 0 < r.skip <= |s|
  {
    if |s| < 4 then Stop(Truncated)
    else
      var len := Get16(s, 2);
      if len < 4 then Stop(TooShort)
      else if |s| < len then Stop(Truncated)
      else
        var c := Chunk(s[0], s[1], s[4..len]);
        var skip := len + |Padding(len)|;
        if |s| < skip then Cut(c) else Next(c, skip)
  }

  function Prepend(c: Chunk, w: (seq<Chunk>, End)): (seq<Chunk>, End) {
    ([c] + w.0, w.1)
  }

  /** The chunk loop. A chunk is handled before the padding behind it is skipped. */
  function Walk(s: seq<Byte>): (seq<Chunk>, End)
    decreases |s|
  {
    if s == [] then ([], Done)
    else
      match RoundOf(s)
      case Stop(e) => ([], e)
      case Cut(c) => ([c], Truncated)
      case Next(c, skip) => Prepend(c, Walk(s[skip..]))
  }

  function EncodeChunks(cs: seq<Chunk>): seq<Byte>
    requires forall i | 0 <= i < |cs| :: |cs[i].body| + 4 < M16
  {
    if cs == [] then [] else EncodeChunk(cs[0]) + EncodeChunks(cs[1..])
  }

  lemma PaddingOfFour(n: nat)
    ensures Padding(n + 4) == Padding(n)
  {
  }

  lemma WalkOne(c: Chunk, rest: seq<Byte>)
    requires |c.body| + 4 < M16
    ensures Walk(EncodeChunk(c) + rest) == Prepend(c, Walk(rest))
  {
    var s := EncodeChunk(c) + rest;
    var len := |c.body| + 4;
    PaddingOfFour(|c.body|);
    var head := [c.kind, c.flags];
    assert s == head + Be16(len) + (c.body + Padding(len) + rest);
    Get16OfBe16(len, head, c.body + Padding(len) + rest);
    assert s[4..len] == c.body;
    assert s[len + |Padding(len)|..] == rest;
  }

  /** The walker reads back every list of padded chunks exactly. */
  lemma {:induction false} WalkEncoded(cs: seq<Chunk>)
    requires forall i | 0 <= i < |cs| :: |cs[i].body| + 4 < M16
    ensures Walk(EncodeChunks(cs)) == (cs, Done)
  {
    hide Walk, EncodeChunk;
    if cs == [] {
      WalkNothing();
    } else {
      WalkOne(cs[0], EncodeChunks(cs[1..]));
      WalkEncoded(cs[1..]);
      assert cs == [cs[0]] + cs[1..];
    }
  }

  /** What is no chunk: fewer than four octets, a length below four, or one that runs past the end. */
  predicate NoChunk(s: seq<Byte>) {
    s != [] && (|s| < 4 || Get16(s, 2) < 4 || |s| < Get16(s, 2))
  }

  /** The walk over chunks with something broken behind them gives exactly those chunks, and says what was wrong: a
      length below four, or not enough octets. */
  lemma {:induction false} WalkUpToBroken(cs: seq<Chunk>, rest: seq<Byte>)
    requires (forall i | 0 <= i < |cs| :: |cs[i].body| + 4 < M16) && NoChunk(rest)
    ensures Walk(EncodeChunks(cs) + rest) == (cs, if |rest| >= 4 && Get16(rest, 2) < 4 then TooShort else Truncated)
  {
    if cs == [] {
      assert EncodeChunks(cs) + rest == rest;
    } else {
      hide Walk, EncodeChunk;
      var tail := EncodeChunks(cs[1..]) + rest;
      assert EncodeChunks(cs) + rest == EncodeChunk(cs[0]) + tail;
      WalkOne(cs[0], tail);
      WalkUpToBroken(cs[1..], rest);
      assert cs == [cs[0]] + cs[1..];
    }
  }

  /** A last chunk whose padding is missing is still found, and the walk ends there. */
  lemma WalkUnpadded(c: Chunk)
    requires |c.body| + 4 < M16 && |c.body| % 4 != 0
    ensures Walk([c.kind, c.flags] + Be16(|c.body| + 4) + c.body) == ([c], Truncated)
  {
    var head, len := [c.kind, c.flags], |c.body| + 4;
    var s := head + Be16(len) + c.body;
    Get16OfBe16(len, head, c.body);
    assert s[4..len] == c.body;
    PaddingOfFour(|c.body|);
  }

  lemma WalkNothing()
    ensures Walk([]) == ([], Done)
  {
  }

  /** The four header octets of a chunk. */
  method ReadHead(b: BufferIn) returns (ok: bool, kind: Byte, flags: Byte, len: U16)
    requires b.Valid()
    modifies b`o
    ensures b.Valid() && ok == (|old(b.Rest())| >= 4)
    ensures ok ==> b.Rest() == old(b.Rest())[4..]
    ensures ok ==> kind == old(b.Rest())[0] && flags == old(b.Rest())[1] && len == Get16(old(b.Rest()), 2)
  {
    ok, kind, flags, len := false, 0, 0, 0;
    var k := b.GetByte();
    if k == Fail { return; }
    var f := b.GetByte();
    if f == Fail { return; }
    var l := b.GetShort();
    if l == Fail { return; }
    ok, kind, flags, len := true, k.value, f.value, l.value;
  }

  /** One round over a read cursor; every read may run out. */
  method ReadChunk(b: BufferIn) returns (r: Round)
    requires b.Valid()
    modifies b`o
    ensures b.Valid() && r == RoundOf(old(b.Rest()))
    ensures r.Next? ==> b.Rest() == old(b.Rest())[r.skip..]
  {
    hide Get16;
    ghost var rest := b.Rest();
    var ok, kind, flags, len := ReadHead(b);
    if !ok {
      return Stop(Truncated);
    }
    if len < 4 {
      return Stop(TooShort);
    }
    var body := b.GetSegment(len - 4);
    if body == Fail {
      return Stop(Truncated);
    }
    assert body.value == rest[4..len] && b.Rest() == rest[len..];
    var padding := PaddingSize(len);
    var sought := b.Seek(padding);
    r := if sought then Next(Chunk(kind, flags, body.value), len + padding) else Cut(Chunk(kind, flags, body.value));
    assert sought ==> rest[len..][padding..] == rest[len + padding..];
  }

  method PaddingSize(len: nat) returns (n: nat)
    ensures n == |Padding(len)|
  {
    n := len % 4;
    if n != 0 {
      n := 4 - n;
    }
  }

  /** The chunk loop over a read cursor. */
  method WalkChunks(s: seq<Byte>) returns (cs: seq<Chunk>, e: End)
    ensures (cs, e) == Walk(s)
  {
    hide Walk, RoundOf;
    var b := new BufferIn(s);
    cs := [];
    Joined([], s);
    var done := b.EndReached();
    while !done
      invariant b.Valid() && (done <==> b.Rest() == [])
      invariant Join(cs, Walk(b.Rest())) == Walk(s)
      decreases |b.Rest()|, !done
    {
      ghost var rest := b.Rest();
      WalkNext(cs, rest);
      var r := ReadChunk(b);
      match r {
        case Stop(e') => return cs, e';
        case Cut(c) => return cs + [c], Truncated;
        case Next(c, _) => cs := cs + [c];
      }
      done := b.EndReached();
    }
    WalkNothing();
    e := Done;
    assert cs + [] == cs;
  }

  ghost function Join(cs: seq<Chunk>, w: (seq<Chunk>, End)): (seq<Chunk>, End) {
    (cs + w.0, w.1)
  }

  lemma Joined(cs: seq<Chunk>, s: seq<Byte>)
    ensures Join([], Walk(s)) == Walk(s)
  {
    assert [] + Walk(s).0 == Walk(s).0;
  }

  lemma WalkNext(cs: seq<Chunk>, s: seq<Byte>)
    requires s != []
    ensures var r := RoundOf(s);
            Join(cs, Walk(s)) == if r.Stop? then (cs, r.e) else if r.Cut? then (cs + [r.c], Truncated)
                                 else Join(cs + [r.c], Walk(s[r.skip..]))
  {
    hide RoundOf;
    var r := RoundOf(s);
    if r.Stop? {
      assert cs + [] == cs;
    } else if r.Next? {
      assert cs + ([r.c] + Walk(s[r.skip..]).0) == cs + [r.c] + Walk(s[r.skip..]).0;
    }
  }

  // ----- DATA chunks ------------------------------------------------------------------------------------------

  /** The addressing of a session as its packets carry it. */
  datatype Route = Route(myPort: U16, theirPort: U16, tag: U32)

  function DataChunk(tsn: U32, streamSeq: U16, data: seq<Byte>): Chunk {
    Chunk(0, 3, Be32(tsn) + Be16(0) + Be16(streamSeq) + Be32(0) + data)
  }

  function Header(r: Route, crc: seq<Byte>): seq<Byte> {
    Be16(r.myPort) + Be16(r.theirPort) + Be32(r.tag) + crc
  }

  /** The checksum field: computed over the packet with the field zero. */
  function CrcField(s: seq<Byte>): (r: seq<Byte>)
    ensures |r| == 4
  {
    FieldOf(Crc.Swapped(Crc.Complement(Crc.ByBit(Crc.CRC32C, Crc.ONES, s))))
  }

  function FieldOf(c: bv32): (r: seq<Byte>)
    ensures |r| == 4
  {
    [Fcs.LowOctet(c >> 24), Fcs.LowOctet(c >> 16), Fcs.LowOctet(c >> 8), Fcs.LowOctet(c)]
  }

  function DataPacket(r: Route, tsn: U32, streamSeq: U16, data: seq<Byte>): seq<Byte>
    requires |data| + 16 < M16
  {
    var chunk := EncodeChunk(DataChunk(tsn, streamSeq, data));
    Header(r, CrcField(Header(r, Be32(0)) + chunk)) + chunk
  }

  /** chunk_data's view of a chunk body; None when it is too short and a read throws. */
  datatype DataView = NoData | DataView(tsn: U32, stream: U16, streamSeq: U16, protocol: U32, data: seq<Byte>)

  function ViewData(body: seq<Byte>): DataView {
    if |body| < 12 then NoData
    else DataView(Get32(body, 0), Get16(body, 4), Get16(body, 6), Get32(body, 8), body[12..])
  }

  lemma ViewOfData(tsn: U32, streamSeq: U16, data: seq<Byte>)
    ensures ViewData(DataChunk(tsn, streamSeq, data).body) == DataView(tsn, 0, streamSeq, 0, data)
  {
    hide Be16, Be32, Get16, Get32;
    FourOctets(tsn);
    FourOctets(0);
    TwoOctets(0);
    TwoOctets(streamSeq);
    var b := DataChunk(tsn, streamSeq, data).body;
    var n, stream, sequence, protocol := Be32(tsn), Be16(0), Be16(streamSeq), Be32(0);
    assert b == [] + n + (stream + sequence + protocol + data);
    Get32OfBe32(tsn, [], stream + sequence + protocol + data);
    assert b == n + stream + (sequence + protocol + data);
    Get16OfBe16(0, n, sequence + protocol + data);
    assert b == (n + stream) + sequence + (protocol + data);
    Get16OfBe16(streamSeq, n + stream, protocol + data);
    assert b == (n + stream + sequence) + protocol + data;
    Get32OfBe32(0, n + stream + sequence, data);
    assert b[12..] == data;
  }

  /** The twelve octets in front: both ports, the verification tag, and the checksum of the packet with zeros in its
      place. */
  lemma HeaderReadsBack(r: Route, crc: seq<Byte>, rest: seq<Byte>)
    requires |crc| == 4
    ensures var p := Header(r, crc) + rest;
            && |p| >= 12 && p[12..] == rest && p[8..12] == crc
            && Get16(p, 0) == r.myPort && Get16(p, 2) == r.theirPort && Get32(p, 4) == r.tag
  {
    hide Get16, Get32, Be16, Be32;
    TwoOctets(r.myPort);
    TwoOctets(r.theirPort);
    FourOctets(r.tag);
    var p, mine, theirs, tag := Header(r, crc) + rest, Be16(r.myPort), Be16(r.theirPort), Be32(r.tag);
    assert p == [] + mine + (theirs + tag + crc + rest);
    Get16OfBe16(r.myPort, [], theirs + tag + crc + rest);
    assert p == mine + theirs + (tag + crc + rest);
    Get16OfBe16(r.theirPort, mine, tag + crc + rest);
    assert p == (mine + theirs) + tag + (crc + rest);
    Get32OfBe32(r.tag, mine + theirs, crc + rest);
  }

  /** A packet that send_data builds carries the session's ports and tag and the checksum of the packet with a zero
      field, and holds exactly one chunk, of type DATA and marked unfragmented. */
  lemma PacketReadsBack(r: Route, tsn: U32, streamSeq: U16, data: seq<Byte>)
    requires |data| + 16 < M16
    ensures |DataPacket(r, tsn, streamSeq, data)| >= 12
    ensures Walk(DataPacket(r, tsn, streamSeq, data)[12..]) == ([DataChunk(tsn, streamSeq, data)], Done)
    ensures |DataPacket(r, tsn, streamSeq, data)| % 4 == 0
    ensures var p := DataPacket(r, tsn, streamSeq, data); var c := DataChunk(tsn, streamSeq, data);
            && Get16(p, 0) == r.myPort && Get16(p, 2) == r.theirPort && Get32(p, 4) == r.tag
            && p[8..12] == CrcField(p[..8] + [0, 0, 0, 0] + p[12..]) && c.kind == 0 && c.flags == 3
  {
    hide Walk, CrcField, Get16, Get32, Header, EncodeChunk;
    var c := DataChunk(tsn, streamSeq, data);
    ChunkLength(tsn, streamSeq, data);
    var chunk := EncodeChunk(c);
    ZeroField(r, chunk);
    HeaderReadsBack(r, CrcField(Header(r, Be32(0)) + chunk), chunk);
    ChunkSize(c);
    WalkOne(c, []);
    WalkNothing();
    assert chunk + [] == chunk;
    assert [c] + [] == [c];
  }

  lemma ChunkSize(c: Chunk)
    requires |c.body| + 4 < M16
    ensures |EncodeChunk(c)| % 4 == 0
  {
    hide Padding, Be16;
    var n := |c.body|;
    TwoOctets(n + 4);
    assert |EncodeChunk(c)| == 4 + n + |Padding(n)|;
    PaddedToFour(n);
  }

  lemma PaddedToFour(n: nat)
    ensures (n + |Padding(n)|) % 4 == 0
  {
  }

  lemma ZeroField(r: Route, chunk: seq<Byte>)
    ensures forall crc: seq<Byte> | |crc| == 4 ::
              var p := Header(r, crc) + chunk; p[..8] + [0, 0, 0, 0] + p[12..] == Header(r, Be32(0)) + chunk
  {
    assert Be32(0) == [0, 0, 0, 0];
  }

  // ----- sending ------------------------------------------------------------------------------------------------

  /** A payload cut into pieces of at most `n` octets. */
  function Pieces(payload: seq<Byte>, n: nat): (r: seq<seq<Byte>>)
    requires n > 0
    ensures forall i | 0 <= i < |r| :: 0 < |r[i]| <= n
    decreases |payload|
  {
    if payload == [] then []
    else
      var k := Min(|payload|, n);
      [payload[..k]] + Pieces(payload[k..], n)
  }

  function Concat(ps: seq<seq<Byte>>): seq<Byte> {
    if ps == [] then [] else ps[0] + Concat(ps[1..])
  }

  lemma {:induction false} PiecesCover(payload: seq<Byte>, n: nat)
    requires n > 0
    ensures Concat(Pieces(payload, n)) == payload
    decreases |payload|
  {
    if payload != [] {
      var k := Min(|payload|, n);
      PiecesCover(payload[k..], n);
      assert payload == payload[..k] + payload[k..];
    }
  }

  /** Room for data in a packet of the device: the rest of `maxPacket`, and a length field can say it. */
  predicate RoomOk(maxPacket: int) {
    50 < maxPacket && maxPacket - 50 + 16 < M16
  }

  class Sctp {
    const route: Route
    var myTsn: U32
    var streamSeq: U16

    constructor (route: Route, myTsn: U32)
      ensures this.route == route && this.myTsn == myTsn && streamSeq == 0
    {
      this.route, this.myTsn, streamSeq := route, myTsn, 0;
    }

    /** send_data. The device takes `budget` packets; a packet it refuses has used up its TSN. */
    method SendData(payload: seq<Byte>, maxPacket: int, budget: nat) returns (sent: seq<seq<Byte>>, ok: bool)
      requires RoomOk(maxPacket)
      modifies this`myTsn, this`streamSeq
      ensures var ps := Pieces(payload, maxPacket - 50);
              && ok == (|ps| <= budget)
              && sent == Packets(route, old(myTsn), old(streamSeq), ps[..Min(|ps|, budget)])
              && myTsn == Add32(old(myTsn), Min(|ps|, budget + 1))
              && streamSeq == (old(streamSeq) + Min(|ps|, budget + 1)) % M16
    {
      hide Packets, DataPacket, Pieces;
      sent, ok := [], true;
      var rest := payload;
      var n := maxPacket - 50;
      ghost var ps := Pieces(payload, n);
      var k := 0;
      assert ps[0..] == ps && ps[..0] == [];
      NoPackets(route, myTsn, streamSeq);
      while rest != []
        invariant 0 <= k <= |ps| && k <= budget && ps[k..] == Pieces(rest, n)
        invariant sent == Packets(route, old(myTsn), old(streamSeq), ps[..k])
        invariant myTsn == Add32(old(myTsn), k) && streamSeq == (old(streamSeq) + k) % M16
        decreases |rest|
      {
        NextPiece(rest, n);
        assert ps[k..][0] == ps[k] && ps[k..][1..] == ps[k + 1..];
        var m := Min(|rest|, n);
        var packet := BuildPacket(rest[..m]);
        Counters(old(myTsn), old(streamSeq), k);
        rest := rest[m..];
        if k == budget {
          ok := false;
          assert ps[..Min(|ps|, budget)] == ps[..k];
          return;
        }
        PacketsSnoc(route, old(myTsn), old(streamSeq), ps[..k], ps[k]);
        assert ps[..k] + [ps[k]] == ps[..k + 1];
        sent := sent + [packet];
        k := k + 1;
      }
      EndOfPieces(n);
      assert k == |ps| && ps[..k] == ps;
    }

    /** One packet, built field by field, and the counters behind it. */
    method BuildPacket(data: seq<Byte>) returns (packet: seq<Byte>)
      requires |data| + 16 < M16
      modifies this`myTsn, this`streamSeq
      ensures packet == DataPacket(route, old(myTsn), old(streamSeq), data)
      ensures myTsn == Add32(old(myTsn), 1) && streamSeq == (old(streamSeq) + 1) % M16
    {
      hide CrcField, Add32, Be16, Be32;
      Lengths(route);
      var out := new BufferOut();
      var crcOffset := PutHeader(out);
      ghost var head := out.buffer;
      ghost var c := DataChunk(myTsn, streamSeq, data);
      PutDataHead(out, |data|);
      myTsn := Add32(myTsn, 1);
      streamSeq := (streamSeq + 1) % M16;
      out.AddBuffer(data);
      ChunkLength(old(myTsn), old(streamSeq), data);
      assert out.buffer == head + ([c.kind, c.flags] + Be16(|c.body| + 4) + c.body);
      assert |out.buffer| == 16 + |c.body|;
      out.AddPadding();
      PaddingOfHeader(|c.body|);
      assert out.buffer == head + EncodeChunk(c);
      var field := ChecksumField(out.buffer);
      out.PutLong(field, crcOffset);
      packet := out.buffer;
      PatchHeader(route, CrcField(head + EncodeChunk(c)), EncodeChunk(c));
    }

    method PutHeader(out: BufferOut) returns (crcOffset: nat)
      requires out.buffer == []
      modifies out
      ensures out.buffer == Header(route, Be32(0)) && crcOffset == 8
    {
      var _ := out.AddShort(route.myPort);
      var _ := out.AddShort(route.theirPort);
      var _ := out.AddLong(route.tag);
      crcOffset := out.AddLong(0);
    }

    method PutDataHead(out: BufferOut, n: nat)
      requires n + 16 < M16
      modifies out
      ensures out.buffer == old(out.buffer) + [0, 3] + Be16(n + 16) + Be32(myTsn) + Be16(0) + Be16(streamSeq) + Be32(0)
    {
      hide Be16, Be32;
      out.AddByte(0);
      out.AddByte(3);
      var _ := out.AddShort(n + 16);
      var _ := out.AddLong(myTsn);
      var _ := out.AddShort(0);
      var _ := out.AddShort(streamSeq);
      var _ := out.AddLong(0);
    }
  }

  method ChecksumField(s: seq<Byte>) returns (field: seq<Byte>)
    ensures field == CrcField(s)
  {
    hide Crc.Swapped, Crc.Complement, Crc.ByBit, FieldOf;
    var c := Crc.GenerateCrc32c(s);
    field := FieldOf(c);
  }

  lemma Lengths(r: Route)
    ensures |Header(r, Be32(0))| == 12
  {
  }

  lemma ChunkLength(tsn: U32, streamSeq: U16, data: seq<Byte>)
    requires |data| + 16 < M16
    ensures |DataChunk(tsn, streamSeq, data).body| == |data| + 12
    ensures |Be16(|data| + 16)| == 2
  {
  }

  /** Filling in the checksum field changes nothing else. */
  lemma PatchHeader(r: Route, crc: seq<Byte>, rest: seq<Byte>)
    requires |crc| == 4
    ensures var b := Header(r, Be32(0)) + rest; |b| >= 12 && b[..8] + crc + b[12..] == Header(r, crc) + rest
  {
    var b := Header(r, Be32(0)) + rest;
    assert b[..8] == Be16(r.myPort) + Be16(r.theirPort) + Be32(r.tag);
    assert b[12..] == rest;
  }

  lemma PaddingOfHeader(n: nat)
    ensures Padding(16 + n) == Padding(n)
  {
  }

  /** Packets with consecutive TSNs and stream sequence numbers. */
  function Packets(r: Route, tsn: U32, streamSeq: U16, ps: seq<seq<Byte>>): (out: seq<seq<Byte>>)
    requires forall i | 0 <= i < |ps| :: |ps[i]| + 16 < M16
    ensures |out| == |ps|
  {
    seq(|ps|, i requires 0 <= i < |ps| => DataPacket(r, Add32(tsn, i), (streamSeq + i) % M16, ps[i]))
  }

  lemma NoPackets(r: Route, tsn: U32, streamSeq: U16)
    ensures Packets(r, tsn, streamSeq, []) == []
  {
  }

  lemma PacketsSnoc(r: Route, tsn: U32, streamSeq: U16, ps: seq<seq<Byte>>, p: seq<Byte>)
    requires forall i | 0 <= i < |ps + [p]| :: |(ps + [p])[i]| + 16 < M16
    requires |p| + 16 < M16 && forall i | 0 <= i < |ps| :: |ps[i]| + 16 < M16
    ensures Packets(r, tsn, streamSeq, ps + [p])
         == Packets(r, tsn, streamSeq, ps) + [DataPacket(r, Add32(tsn, |ps|), (streamSeq + |ps|) % M16, p)]
  {
    hide DataPacket, Add32;
  }

  lemma NextPiece(rest: seq<Byte>, n: nat)
    requires n > 0 && rest != []
    ensures var ps := Pieces(rest, n); var m := Min(|rest|, n);
            ps != [] && ps[0] == rest[..m] && ps[1..] == Pieces(rest[m..], n)
  {
  }

  lemma EndOfPieces(n: nat)
    requires n > 0
    ensures Pieces([], n) == []
  {
  }

  lemma Counters(tsn: U32, streamSeq: U16, k: nat)
    ensures Add32(Add32(tsn, k), 1) == Add32(tsn, k + 1)
    ensures ((streamSeq + k) % M16 + 1) % M16 == (streamSeq + k + 1) % M16
  {
    Add32Add32(tsn, k, 1);
  }
}
