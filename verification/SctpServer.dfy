/** The SCTP server's session table: what every packet that arrives does to it. */
module SctpServer {
  import opened Bytes
  import opened Buffers
  import opened SctpData
  import opened SctpCookie

  /** A session, and everything it has handed to layer 7. */
  datatype Session = Session(tag: U32, myTsn: U32, theirTsn: U32, delivered: seq<Byte>)

  type Table = map<nat, Session>

  /** The cookie key and the hash under which a sender's session is kept. */
  datatype Config = Config(key: Key, hash: Peer -> nat)

  /** How the chunk loop goes on after a chunk. */
  datatype Flow = On | Broke | Threw

  /** What a chunk does: the table, sessions made, whether the packet shall end the session. */
  datatype Effect = Effect(t: Table, made: nat, terminate: bool, flow: Flow)

  /** chunk_data: the expected TSN is delivered, any other only acknowledged. */
  function TakeData(s: Session, v: DataView): Session
    requires v.DataView?
  {
    if v.tsn == s.theirTsn then s.(theirTsn := Add32(s.theirTsn, 1), delivered := s.delivered + v.data) else s
  }

  function OnData(t: Table, h: nat, body: seq<Byte>): Effect {
    if h !in t then Effect(t, 0, false, On)
    else
      var v := ViewData(body);
      if v.NoData? then Effect(t, 0, false, Threw)
      else Effect(t[h := TakeData(t[h], v)], 0, false, On)
  }

  function NewSession(i: Initial): Session {
    Session(i.tag, i.myTsn, i.theirTsn, [])
  }

  function OnEcho(cfg: Config, t: Table, p: Peer, listening: bool, body: seq<Byte>): Effect {
    var e := ReadEcho(cfg.key, p, body);
    var h := cfg.hash(p);
    if e.Short? then Effect(t, 0, false, Threw)
    else if !(e.ok && listening) then Effect(t, 0, true, On)
    else if h in t then Effect(t, 0, false, On)
    else Effect(t[h := NewSession(e.initial)], 1, false, On)
  }

  function OnChunk(cfg: Config, t: Table, p: Peer, listening: bool, c: Chunk): Effect {
    if c.kind == 0 then
      if listening then OnData(t, cfg.hash(p), c.body) else Effect(t, 0, true, On)
    else if c.kind == 1 then
      if ReadInit(c.body).NoInit? then Effect(t, 0, false, Threw) else Effect(t, 0, !listening, On)
    else if c.kind == 6 then Effect(t, 0, true, Broke)
    else if c.kind == 10 then OnEcho(cfg, t, p, listening, c.body)
    else Effect(t, 0, false, On)
  }

  /** What a packet does: the table, sessions made and erased. */
  datatype Outcome = Outcome(t: Table, made: nat, erased: nat)

  function Finish(t: Table, h: nat, made: nat, terminate: bool): Outcome {
    if terminate then Outcome(t - {h}, made, if h in t then 1 else 0) else Outcome(t, made, 0)
  }

  /** The chunk loop. A throw leaves the table as it is then and skips the erasure at the end. */
  function OnChunks(cfg: Config, t: Table, p: Peer, listening: bool, made: nat, terminate: bool, s: seq<Byte>): Outcome
    decreases |s|
  {
    var h := cfg.hash(p);
    if s == [] then Finish(t, h, made, terminate)
    else
      var r := RoundOf(s);
      if r.Stop? then (if r.e == TooShort then Finish(t, h, made, true) else Outcome(t, made, 0))
      else
        var e := OnChunk(cfg, t, p, listening, r.c);
        if e.flow == Threw then Outcome(e.t, made + e.made, 0)
        else if e.flow == Broke then Finish(e.t, h, made + e.made, terminate || e.terminate)
        else if r.Cut? then Outcome(e.t, made + e.made, 0)
        else OnChunks(cfg, e.t, p, listening, made + e.made, terminate || e.terminate, s[r.skip..])
  }

  /** A packet from an address; `listening` says whether its destination port has a listener. */
  function SenderOf(addr: Address, packet: seq<Byte>): Peer
    requires |packet| >= 4
  {
    Peer(addr, Get16(packet, 0), Get16(packet, 2))
  }

  function OnPacket(cfg: Config, t: Table, addr: Address, listening: bool, packet: seq<Byte>): Outcome {
    if |packet| < 12 then Outcome(t, 0, 0)
    else OnChunks(cfg, t, SenderOf(addr, packet), listening, 0, false, packet[12..])
  }

  // ----- reading a packet ---------------------------------------------------------------------------------------

  lemma RoundOfOne(c: Chunk)
    requires |c.body| + 4 < M16
    ensures var s := EncodeChunk(c); s != [] && RoundOf(s) == Next(c, |s|) && s[|s|..] == []
  {
    var s := EncodeChunk(c);
    var len := |c.body| + 4;
    PaddingOfFour(|c.body|);
    var head := [c.kind, c.flags];
    assert s == head + Be16(len) + (c.body + Padding(len));
    Get16OfBe16(len, head, c.body + Padding(len));
    assert s[4..len] == c.body;
  }

  lemma HeaderRead(r: Route, crc: seq<Byte>, chunk: seq<Byte>, addr: Address)
    requires |crc| == 4
    ensures var p := Header(r, crc) + chunk;
            |p| >= 12 && p[12..] == chunk && SenderOf(addr, p) == Peer(addr, r.myPort, r.theirPort)
  {
    hide Get16, Get32;
    HeaderReadsBack(r, crc, chunk);
  }

  // ----- one packet -----------------------------------------------------------------------------------------------

  function Present(t: Table, h: nat): nat {
    if h in t then 1 else 0
  }

  /** A session was kept: neither replaced nor renumbered, and what it delivered only grows. */
  predicate Kept(s: Session, s': Session) {
    s'.tag == s.tag && s'.myTsn == s.myTsn && s.delivered <= s'.delivered
  }

  /** From t to t' only the session under h may differ, it is made only where there is none, kept
      where there is one, and erased at most once. */
  predicate Accounts(t: Table, t': Table, h: nat, made: nat, erased: nat) {
    && t' - {h} == t - {h}
    && Present(t, h) + made == Present(t', h) + erased
    && (h in t && h in t' ==> Kept(t[h], t'[h]))
  }

  lemma ChunkAccounts(cfg: Config, t: Table, p: Peer, listening: bool, c: Chunk)
    ensures var e := OnChunk(cfg, t, p, listening, c);
            Accounts(t, e.t, cfg.hash(p), e.made, 0) && (cfg.hash(p) in t ==> cfg.hash(p) in e.t)
  {
    hide ViewData, ReadEcho, ReadInit, Add32;
  }

  lemma {:induction false} ChunksAccount(cfg: Config, t: Table, p: Peer, listening: bool, made: nat, terminate: bool, s: seq<Byte>)
    ensures var o := OnChunks(cfg, t, p, listening, made, terminate, s);
            o.made >= made && Accounts(t, o.t, cfg.hash(p), o.made - made, o.erased)
    decreases |s|
  {
    hide RoundOf, OnChunk;
    if s != [] {
      var r := RoundOf(s);
      if !r.Stop? {
        ChunkAccounts(cfg, t, p, listening, r.c);
        var e := OnChunk(cfg, t, p, listening, r.c);
        if e.flow == On && r.Next? {
          ChunksAccount(cfg, e.t, p, listening, made + e.made, terminate || e.terminate, s[r.skip..]);
        }
      }
    }
  }

  // ----- every run ------------------------------------------------------------------------------------------------

  datatype Arrival = Arrival(addr: Address, listening: bool, packet: seq<Byte>)

  /** The session under `h` is touched only by packets whose sender hashes to `h`. */
  predicate Touches(cfg: Config, a: Arrival, h: nat) {
    |a.packet| >= 12 && cfg.hash(SenderOf(a.addr, a.packet)) == h
  }

  function After(cfg: Config, t: Table, run: seq<Arrival>): Table
    decreases |run|
  {
    if run == [] then t
    else After(cfg, OnPacket(cfg, t, run[0].addr, run[0].listening, run[0].packet).t, run[1..])
  }

  /** Sessions made and erased under one hash on a run. */
  function Tally(cfg: Config, t: Table, run: seq<Arrival>, h: nat): (nat, nat)
    decreases |run|
  {
    if run == [] then (0, 0)
    else
      var o := OnPacket(cfg, t, run[0].addr, run[0].listening, run[0].packet);
      var rest := Tally(cfg, o.t, run[1..], h);
      if Touches(cfg, run[0], h) then (o.made + rest.0, o.erased + rest.1) else rest
  }

  lemma PacketAccounts(cfg: Config, t: Table, a: Arrival, h: nat)
    ensures var o := OnPacket(cfg, t, a.addr, a.listening, a.packet);
            && (Touches(cfg, a, h) ==> Accounts(t, o.t, h, o.made, o.erased))
            && (!Touches(cfg, a, h) ==> Present(o.t, h) == Present(t, h) && (h in t ==> o.t[h] == t[h]))
  {
    hide OnChunks, Kept;
    if |a.packet| >= 12 {
      var p := SenderOf(a.addr, a.packet);
      ChunksAccount(cfg, t, p, a.listening, 0, false, a.packet[12..]);
      if cfg.hash(p) != h {
        var o := OnPacket(cfg, t, a.addr, a.listening, a.packet);
        assert h in t <==> h in t - {cfg.hash(p)};
        assert h in o.t <==> h in o.t - {cfg.hash(p)};
        assert h in t ==> (t - {cfg.hash(p)})[h] == t[h];
        assert h in o.t ==> (o.t - {cfg.hash(p)})[h] == o.t[h];
      }
    }
  }

  lemma TallyUnfolds(cfg: Config, t: Table, run: seq<Arrival>, h: nat)
    requires run != []
    ensures var o := OnPacket(cfg, t, run[0].addr, run[0].listening, run[0].packet);
            var rest := Tally(cfg, o.t, run[1..], h);
            && After(cfg, t, run) == After(cfg, o.t, run[1..])
            && Tally(cfg, t, run, h) == if Touches(cfg, run[0], h) then (o.made + rest.0, o.erased + rest.1) else rest
  {
    hide OnPacket;
  }

  /** Over every run of packets, sessions made less sessions erased under a hash is the number present
      more: a session is made only where there is none. */
  lemma {:induction false} SessionsBalance(cfg: Config, t: Table, run: seq<Arrival>, h: nat)
    ensures var n := Tally(cfg, t, run, h);
            Present(t, h) + n.0 == Present(After(cfg, t, run), h) + n.1
    decreases |run|
  {
    hide OnPacket, Tally, Present, Kept, Touches;
    if run != [] {
      TallyUnfolds(cfg, t, run, h);
      PacketAccounts(cfg, t, run[0], h);
      var o := OnPacket(cfg, t, run[0].addr, run[0].listening, run[0].packet);
      SessionsBalance(cfg, o.t, run[1..], h);
    } else {
      NoTally(cfg, t, h);
    }
  }

  lemma NoTally(cfg: Config, t: Table, h: nat)
    ensures Tally(cfg, t, [], h) == (0, 0) && After(cfg, t, []) == t
  {
  }

  /** Where nothing is erased a session that is there is kept. */
  lemma {:induction false} KeptUnlessErased(cfg: Config, t: Table, run: seq<Arrival>, h: nat)
    requires Tally(cfg, t, run, h).1 == 0
    ensures Tally(cfg, t, run, h).0 + Present(t, h) <= 1
    ensures h in t ==> h in After(cfg, t, run) && Kept(t[h], After(cfg, t, run)[h])
    decreases |run|
  {
    hide OnPacket, Tally, Touches;
    SessionsBalance(cfg, t, run, h);
    if run != [] {
      TallyUnfolds(cfg, t, run, h);
      PacketAccounts(cfg, t, run[0], h);
      var o := OnPacket(cfg, t, run[0].addr, run[0].listening, run[0].packet);
      KeptUnlessErased(cfg, o.t, run[1..], h);
    } else {
      NoTally(cfg, t, h);
    }
  }

  // ----- the server as a program ------------------------------------------------------------------------------------

  class Server {
    const cfg: Config
    var sessions: Table

    constructor (cfg: Config)
      ensures this.cfg == cfg && sessions == map[]
    {
      this.cfg, sessions := cfg, map[];
    }

    /** operator(): one packet. */
    method HandlePacket(addr: Address, listening: bool, packet: seq<Byte>)
      modifies this`sessions
      ensures sessions == OnPacket(cfg, old(sessions), addr, listening, packet).t
    {
      hide OnChunks, Get16;
      if |packet| >= 12 {
        HandleChunks(SenderOf(addr, packet), listening, packet[12..]);
      }
    }

    method HandleChunks(p: Peer, listening: bool, s: seq<Byte>)
      modifies this`sessions
      ensures sessions == OnChunks(cfg, old(sessions), p, listening, 0, false, s).t
    {
      hide *;
      var b := new BufferIn(s);
      ghost var goal := OnChunks(cfg, sessions, p, listening, 0, false, s).t;
      ghost var made := 0;
      var terminate := false;
      var end := b.EndReached();
      while !end
        invariant b.Valid() && (end <==> b.Rest() == [])
        invariant goal == OnChunks(cfg, sessions, p, listening, made, terminate, b.Rest()).t
        decreases |b.Rest()|, !end
      {
        var over;
        over, terminate, made := HandleRound(b, p, listening, terminate, made);
        if over {
          return;
        }
        end := b.EndReached();
      }
      LoopEnd(cfg, sessions, p, listening, made, terminate);
      if terminate {
        sessions := sessions - {cfg.hash(p)};
      }
    }

    /** One turn of the chunk loop: either the packet is over, or the rest of it remains to be done. */
    method HandleRound(b: BufferIn, p: Peer, listening: bool, terminate: bool, ghost made: nat)
      returns (over: bool, terminate': bool, ghost made': nat)
      requires b.Valid() && b.Rest() != []
      modifies this`sessions, b`o
      ensures b.Valid()
      ensures var goal := OnChunks(cfg, old(sessions), p, listening, made, terminate, old(b.Rest())).t;
              if over then sessions == goal
              else |b.Rest()| < |old(b.Rest())|
                   && goal == OnChunks(cfg, sessions, p, listening, made', terminate', b.Rest()).t
    {
      hide OnChunks, OnChunk, RoundOf;
      LoopTurn(cfg, sessions, p, listening, made, terminate, b.Rest());
      over, terminate', made' := true, terminate, made;
      var r := ReadChunk(b);
      if r.Stop? {
        if r.e == TooShort {
          sessions := sessions - {cfg.hash(p)};
        }
        return;
      }
      ghost var e := OnChunk(cfg, sessions, p, listening, r.c);
      var flow, ends := HandleChunk(p, listening, r.c);
      terminate', made' := terminate || ends, made + e.made;
      if flow == Broke && terminate' {
        sessions := sessions - {cfg.hash(p)};
      }
      over := flow != On || r.Cut?;
    }

    method HandleChunk(p: Peer, listening: bool, c: Chunk) returns (flow: Flow, terminate: bool)
      modifies this`sessions
      ensures var e := OnChunk(cfg, old(sessions), p, listening, c);
              sessions == e.t && flow == e.flow && terminate == e.terminate
    {
      hide ViewData, ReadEcho, ReadInit, Add32;
      flow, terminate := On, false;
      var h := cfg.hash(p);
      if c.kind == 0 {
        if !listening {
          terminate := true;
        } else if h in sessions {
          flow := ChunkData(h, c.body);
        }
      } else if c.kind == 1 {
        // the tag and TSN drawn for the reply do not touch the table
        var v, _ := ChunkInit(cfg.key, p, 1, 0, c.body);
        if v.NoInit? {
          flow := Threw;
        } else {
          terminate := !listening;
        }
      } else if c.kind == 6 {
        flow, terminate := Broke, true;
      } else if c.kind == 10 {
        var e := ChunkCookieEcho(cfg.key, p, c.body);
        if e.Short? {
          flow := Threw;
        } else if e.ok && listening {
          if h !in sessions {
            sessions := sessions[h := NewSession(e.initial)];
          }
        } else {
          terminate := true;
        }
      }
    }

    method ChunkData(h: nat, body: seq<Byte>) returns (flow: Flow)
      requires h in sessions
      modifies this`sessions
      ensures var e := OnData(old(sessions), h, body); sessions == e.t && flow == e.flow
    {
      hide ViewData, Add32;
      var v := ReadData(body);
      if v.NoData? {
        return Threw;
      }
      flow := On;
      var s := sessions[h];
      assert sessions[h := s] == sessions;
      if v.tsn == s.theirTsn {
        sessions := sessions[h := s.(theirTsn := Add32(s.theirTsn, 1), delivered := s.delivered + v.data)];
      }
    }
  }

  /** The fields of a DATA chunk, read in turn. */
  method ReadData(body: seq<Byte>) returns (v: DataView)
    ensures v == ViewData(body)
  {
    hide *;
    DataAt(body);
    var b := new BufferIn(body);
    var ok, tsn, stream, streamSeq := ReadTsn(b);
    if !ok { return NoData; }
    var protocol := b.GetLong();
    if protocol == Fail { return NoData; }
    var n := b.BytesLeft();
    assert b.Rest() == body[12..];
    var data := b.GetSegment(n);
    assert body[12..][..n] == body[12..];
    v := DataView(tsn, stream, streamSeq, protocol.value, data.value);
  }

  method ReadTsn(b: BufferIn) returns (ok: bool, tsn: U32, stream: U16, streamSeq: U16)
    requires b.Valid()
    modifies b`o
    ensures b.Valid() && ok == (|old(b.Rest())| >= 8)
    ensures ok ==> tsn == Get32(old(b.Rest()), 0)
    ensures ok ==> stream == Get16(old(b.Rest())[4..], 0) && streamSeq == Get16(old(b.Rest())[4..], 2)
    ensures ok ==> b.Rest() == old(b.Rest())[8..]
  {
    hide Get16, Get32;
    ok, tsn, stream, streamSeq := false, 0, 0, 0;
    var first := b.GetLong();
    if first == Fail { return; }
    ok, stream, streamSeq := ReadTwoShorts(b);
    if !ok { return; }
    tsn := first.value;
  }

  lemma DataAt(s: seq<Byte>)
    ensures |s| < 12 ==> ViewData(s) == NoData
    ensures |s| >= 12 ==> s[4..][4..] == s[8..] && s[8..][4..] == s[12..]
    ensures |s| >= 12 ==> ViewData(s) == DataView(Get32(s, 0), Get16(s[4..], 0), Get16(s[4..], 2), Get32(s[8..], 0), s[12..])
  {
  }

  lemma LoopTurn(cfg: Config, t: Table, p: Peer, listening: bool, made: nat, terminate: bool, s: seq<Byte>)
    requires s != []
    ensures var o := OnChunks(cfg, t, p, listening, made, terminate, s);
            var r := RoundOf(s);
            if r.Stop? then o.t == if r.e == TooShort then t - {cfg.hash(p)} else t
            else
              var e := OnChunk(cfg, t, p, listening, r.c);
              var ends := terminate || e.terminate;
              if e.flow == Threw then o.t == e.t
              else if e.flow == Broke then o.t == if ends then e.t - {cfg.hash(p)} else e.t
              else if r.Cut? then o.t == e.t
              else o == OnChunks(cfg, e.t, p, listening, made + e.made, ends, s[r.skip..])
  {
    hide OnChunk, RoundOf;
  }

  lemma LoopEnd(cfg: Config, t: Table, p: Peer, listening: bool, made: nat, terminate: bool)
    ensures OnChunks(cfg, t, p, listening, made, terminate, []).t == if terminate then t - {cfg.hash(p)} else t
  {
  }
}
