/** Handshake and in-order delivery of SCTP DATA, end to end, over a network that loses, duplicates
    and reorders packets while other senders talk to the same server. */
module SctpDelivery {
  import opened Bytes
  import opened SctpData
  import opened SctpCookie
  import opened SctpServer

  /** A client: where it sends from, what its INIT agreed, and everything it ever cut into packets. */
  datatype Client = Client(peer: Peer, serverTag: U32, initial: Initial, streamSeq: U16, pieces: seq<seq<Byte>>) {
    predicate Ok() {
      forall i | 0 <= i < |pieces| :: |pieces[i]| + 16 < M16
    }

    function Route(): SctpData.Route {
      SctpData.Route(peer.theirPort, peer.localPort, serverTag)
    }

    /** The i-th packet of its data, with the i-th TSN. */
    function Packet(i: nat): seq<Byte>
      requires Ok() && i < |pieces|
    {
      DataPacket(Route(), Add32(initial.theirTsn, i), (streamSeq + i) % M16, pieces[i])
    }

    /** The COOKIE ECHO with the cookie minted for its INIT. */
    function EchoPacket(key: Key): seq<Byte> {
      var chunk := EncodeChunk(EchoChunk(key));
      Header(Route(), CrcField(Header(Route(), Be32(0)) + chunk)) + chunk
    }

    function EchoChunk(key: Key): (c: Chunk)
      ensures |c.body| + 4 < M16
    {
      Chunk(10, 0, Mint(key, peer, initial))
    }
  }

  /** A packet of the client arrives, or one that belongs to another session. */
  datatype Event = Data(i: nat) | EchoBack | Other(a: Arrival)

  predicate EventOk(cfg: Config, c: Client, e: Event) {
    match e
    case Data(i) => i < |c.pieces|
    case EchoBack => true
    case Other(a) => !Touches(cfg, a, cfg.hash(c.peer))
  }

  predicate RunOk(cfg: Config, c: Client, es: seq<Event>) {
    c.Ok() && forall j | 0 <= j < |es| :: EventOk(cfg, c, es[j])
  }

  function ArrivalOf(cfg: Config, c: Client, e: Event): Arrival
    requires c.Ok() && EventOk(cfg, c, e)
  {
    if e.Data? then Arrival(c.peer.addr, true, c.Packet(e.i))
    else if e.EchoBack? then Arrival(c.peer.addr, true, c.EchoPacket(cfg.key))
    else e.a
  }

  /** The table after the events: any order, any repetition, any omission. */
  function Follow(cfg: Config, c: Client, t: Table, es: seq<Event>): Table
    requires RunOk(cfg, c, es)
    decreases |es|
  {
    if es == [] then t
    else
      var a := ArrivalOf(cfg, c, es[0]);
      Follow(cfg, c, OnPacket(cfg, t, a.addr, a.listening, a.packet).t, es[1..])
  }

  // ----- one packet -------------------------------------------------------------------------------------------------

  lemma OneChunk(cfg: Config, t: Table, p: Peer, c: Chunk)
    requires |c.body| + 4 < M16
    requires var e := OnChunk(cfg, t, p, true, c); e.flow == On && !e.terminate
    ensures OnChunks(cfg, t, p, true, 0, false, EncodeChunk(c)).t == OnChunk(cfg, t, p, true, c).t
  {
    hide OnChunk, EncodeChunk, OnChunks, RoundOf;
    var s := EncodeChunk(c);
    RoundOfOne(c);
    LoopTurn(cfg, t, p, true, 0, false, s);
    var e := OnChunk(cfg, t, p, true, c);
    LoopEnd(cfg, e.t, p, true, 0 + e.made, false);
  }

  /** A client's data packet is taken if its session exists and ignored if it does not. */
  lemma DataArrives(cfg: Config, c: Client, t: Table, i: nat)
    requires c.Ok() && i < |c.pieces|
    ensures var h := cfg.hash(c.peer); var tsn := Add32(c.initial.theirTsn, i);
            OnPacket(cfg, t, c.peer.addr, true, c.Packet(i)).t
            == if h in t && tsn == t[h].theirTsn
               then t[h := t[h].(theirTsn := Add32(t[h].theirTsn, 1), delivered := t[h].delivered + c.pieces[i])]
               else t
  {
    hide Header, CrcField, EncodeChunk, OnChunks, Be16, Be32, Add32, ViewData, SenderOf;
    var tsn, streamSeq := Add32(c.initial.theirTsn, i), (c.streamSeq + i) % M16;
    var k := DataChunk(tsn, streamSeq, c.pieces[i]);
    ChunkLength(tsn, streamSeq, c.pieces[i]);
    var r := c.Route();
    HeaderRead(r, CrcField(Header(r, Be32(0)) + EncodeChunk(k)), EncodeChunk(k), c.peer.addr);
    ViewOfData(tsn, streamSeq, c.pieces[i]);
    var h := cfg.hash(c.peer);
    if h in t {
      assert t[h := t[h]] == t;
    }
    OneChunk(cfg, t, c.peer, k);
  }

  /** The COOKIE ECHO makes the session, once. */
  lemma EchoArrives(cfg: Config, c: Client, t: Table)
    ensures var h := cfg.hash(c.peer);
            OnPacket(cfg, t, c.peer.addr, true, c.EchoPacket(cfg.key)).t
            == if h in t then t else t[h := NewSession(c.initial)]
  {
    hide Header, CrcField, EncodeChunk, OnChunks, Be16, Be32, Mint, ReadEcho, SenderOf;
    var k := c.EchoChunk(cfg.key);
    var r := c.Route();
    HeaderRead(r, CrcField(Header(r, Be32(0)) + EncodeChunk(k)), EncodeChunk(k), c.peer.addr);
    EchoedCookieAccepted(cfg.key, c.peer, c.initial);
    OneChunk(cfg, t, c.peer, k);
  }

  // ----- every run ------------------------------------------------------------------------------------------------

  /** The client's session, if there is one, has delivered exactly the first `k` pieces. */
  predicate DeliveredTo(cfg: Config, c: Client, t: Table, k: nat) {
    var h := cfg.hash(c.peer);
    && k <= |c.pieces|
    && (h !in t ==> k == 0)
    && (h in t ==> t[h] == Session(c.initial.tag, c.initial.myTsn, Add32(c.initial.theirTsn, k), Concat(c.pieces[..k])))
  }

  lemma {:induction false} ConcatConcat(a: seq<seq<Byte>>, b: seq<seq<Byte>>)
    ensures Concat(a + b) == Concat(a) + Concat(b)
  {
    if a == [] {
      assert a + b == b;
    } else {
      assert (a + b)[1..] == a[1..] + b;
      ConcatConcat(a[1..], b);
    }
  }

  lemma ConcatNext(ps: seq<seq<Byte>>, k: nat)
    requires k < |ps|
    ensures Concat(ps[..k]) + ps[k] == Concat(ps[..k + 1])
  {
    var one := [ps[k]];
    ConcatConcat(ps[..k], one);
    assert ps[..k] + one == ps[..k + 1];
    assert Concat(one) == ps[k] + Concat(one[1..]);
  }

  lemma SameTsn(tsn: U32, i: nat, k: nat)
    requires i < M32 && k < M32
    ensures Add32(tsn, i) == Add32(tsn, k) <==> i == k
  {
    Sub32OfAdd32(tsn, i);
    Sub32OfAdd32(tsn, k);
  }

  /** Only the packet that is due moves the session on. */
  function NextCount(cfg: Config, c: Client, t: Table, k: nat, e: Event): nat {
    if e == Data(k) && cfg.hash(c.peer) in t then k + 1 else k
  }

  lemma EventStep(cfg: Config, c: Client, t: Table, e: Event, k: nat)
    requires c.Ok() && EventOk(cfg, c, e) && DeliveredTo(cfg, c, t, k) && |c.pieces| <= M32 && k < M32
    ensures var a := ArrivalOf(cfg, c, e);
            DeliveredTo(cfg, c, OnPacket(cfg, t, a.addr, a.listening, a.packet).t, NextCount(cfg, c, t, k, e))
  {
    hide OnPacket, Add32, Touches, DataPacket, Concat, Header, EncodeChunk, CrcField, Kept;
    if e.Data? {
      DataArrives(cfg, c, t, e.i);
      SameTsn(c.initial.theirTsn, e.i, k);
      if e.i == k {
        ConcatNext(c.pieces, k);
        Add32Add32(c.initial.theirTsn, k, 1);
      }
    } else if e.EchoBack? {
      EchoArrives(cfg, c, t);
      assert c.pieces[..0] == [];
      NothingYet(c.initial.theirTsn);
    } else {
      PacketAccounts(cfg, t, e.a, cfg.hash(c.peer));
    }
  }

  lemma NothingYet(tsn: U32)
    ensures Add32(tsn, 0) == tsn && Concat([]) == []
  {
  }

  lemma FollowTurn(cfg: Config, c: Client, t: Table, es: seq<Event>)
    requires RunOk(cfg, c, es) && es != []
    ensures RunOk(cfg, c, es[1..]) && EventOk(cfg, c, es[0])
    ensures var a := ArrivalOf(cfg, c, es[0]);
            Follow(cfg, c, t, es) == Follow(cfg, c, OnPacket(cfg, t, a.addr, a.listening, a.packet).t, es[1..])
  {
    hide OnPacket, ArrivalOf, EventOk;
  }

  lemma CountBound(cfg: Config, c: Client, t: Table, k: nat)
    requires DeliveredTo(cfg, c, t, k)
    ensures k <= |c.pieces|
  {
  }

  /** Packet `gap` never arrives. */
  predicate Skips(es: seq<Event>, gap: nat) {
    forall e <- es :: e != Data(gap)
  }

  /** Whatever the network does, what has been delivered is the concatenation of a prefix of the pieces, and
      it never gets past a packet that does not arrive. */
  lemma {:induction false} RunDelivers(cfg: Config, c: Client, t: Table, es: seq<Event>, k: nat, gap: nat) returns (n: nat)
    requires RunOk(cfg, c, es) && DeliveredTo(cfg, c, t, k) && k <= gap && Skips(es, gap) && |c.pieces| < M32
    ensures k <= n <= gap && DeliveredTo(cfg, c, Follow(cfg, c, t, es), n)
    decreases |es|
  {
    hide OnPacket, DeliveredTo, EventOk, ArrivalOf;
    if es == [] {
      n := k;
    } else {
      FollowTurn(cfg, c, t, es);
      CountBound(cfg, c, t, k);
      EventStep(cfg, c, t, es[0], k);
      var a := ArrivalOf(cfg, c, es[0]);
      assert es[0] in es && forall e <- es[1..] :: e in es;
      n := RunDelivers(cfg, c, OnPacket(cfg, t, a.addr, a.listening, a.packet).t, es[1..],
                       NextCount(cfg, c, t, k, es[0]), gap);
    }
  }

  /** The data packets from the i-th on, in order. */
  function InOrder(i: int, n: int): seq<Event>
    requires 0 <= i <= n
    decreases n - i
  {
    if i == n then [] else [Data(i)] + InOrder(i + 1, n)
  }

  lemma {:induction false} InOrderOk(cfg: Config, c: Client, i: int)
    requires c.Ok() && 0 <= i <= |c.pieces|
    ensures RunOk(cfg, c, InOrder(i, |c.pieces|))
    decreases |c.pieces| - i
  {
    hide Touches;
    if i < |c.pieces| {
      InOrderOk(cfg, c, i + 1);
    }
  }

  lemma {:induction false} InOrderDelivers(cfg: Config, c: Client, t: Table, k: nat)
    requires c.Ok() && DeliveredTo(cfg, c, t, k) && cfg.hash(c.peer) in t && k <= |c.pieces| <= M32
    requires RunOk(cfg, c, InOrder(k, |c.pieces|))
    ensures var t' := Follow(cfg, c, t, InOrder(k, |c.pieces|));
            cfg.hash(c.peer) in t' && DeliveredTo(cfg, c, t', |c.pieces|)
    decreases |c.pieces| - k
  {
    hide OnPacket, DeliveredTo, RunOk, EventOk, Add32, Follow, InOrder, ArrivalOf;
    InOrderTurn(k, |c.pieces|);
    if k < |c.pieces| {
      var es := InOrder(k, |c.pieces|);
      FollowTurn(cfg, c, t, es);
      EventStep(cfg, c, t, es[0], k);
      var a := ArrivalOf(cfg, c, es[0]);
      var t' := OnPacket(cfg, t, a.addr, a.listening, a.packet).t;
      StillThere(cfg, c, t, k);
      InOrderDelivers(cfg, c, t', k + 1);
    } else {
      FollowNothing(cfg, c, t);
    }
  }

  lemma InOrderTurn(i: int, n: int)
    requires 0 <= i <= n
    ensures i == n ==> InOrder(i, n) == []
    ensures i < n ==> InOrder(i, n) != [] && InOrder(i, n)[0] == Data(i) && InOrder(i, n)[1..] == InOrder(i + 1, n)
  {
  }

  lemma StillThere(cfg: Config, c: Client, t: Table, k: nat)
    requires c.Ok() && k < |c.pieces| && EventOk(cfg, c, Data(k)) && cfg.hash(c.peer) in t
    ensures var a := ArrivalOf(cfg, c, Data(k));
            cfg.hash(c.peer) in OnPacket(cfg, t, a.addr, a.listening, a.packet).t
  {
    hide OnPacket, DataPacket, Add32;
    DataArrives(cfg, c, t, k);
  }

  lemma FollowNothing(cfg: Config, c: Client, t: Table)
    requires RunOk(cfg, c, [])
    ensures Follow(cfg, c, t, []) == t
  {
  }

  // ----- 2^32 chunks ------------------------------------------------------------------------------------------------

  lemma {:induction false} FollowSnoc(cfg: Config, c: Client, t: Table, es: seq<Event>, e: Event)
    requires RunOk(cfg, c, es) && EventOk(cfg, c, e)
    ensures RunOk(cfg, c, es + [e])
    ensures var a := ArrivalOf(cfg, c, e);
            Follow(cfg, c, t, es + [e]) == OnPacket(cfg, Follow(cfg, c, t, es), a.addr, a.listening, a.packet).t
    decreases |es|
  {
    hide OnPacket, EventOk, ArrivalOf, Follow;
    assert RunOk(cfg, c, es + [e]);
    FollowTurn(cfg, c, t, es + [e]);
    if es == [] {
      assert es + [e] == [e] && [e][1..] == [];
      FollowNothing(cfg, c, t);
      var a := ArrivalOf(cfg, c, e);
      FollowNothing(cfg, c, OnPacket(cfg, t, a.addr, a.listening, a.packet).t);
    } else {
      FollowTurn(cfg, c, t, es);
      assert (es + [e])[1..] == es[1..] + [e];
      var a := ArrivalOf(cfg, c, es[0]);
      FollowSnoc(cfg, c, OnPacket(cfg, t, a.addr, a.listening, a.packet).t, es[1..], e);
    }
  }

  /** The handshake and every packet in order. */
  function WholeRun(c: Client): seq<Event> {
    [EchoBack] + InOrder(0, |c.pieces|)
  }

  lemma WholeRunDelivers(cfg: Config, c: Client, t: Table)
    requires c.Ok() && |c.pieces| <= M32 && cfg.hash(c.peer) !in t
    ensures RunOk(cfg, c, WholeRun(c))
    ensures var h := cfg.hash(c.peer); var t' := Follow(cfg, c, t, WholeRun(c));
            h in t' && DeliveredTo(cfg, c, t', |c.pieces|)
  {
    hide Follow, OnPacket, InOrder, Touches, Add32, Concat;
    var es := WholeRun(c);
    InOrderOk(cfg, c, 0);
    assert es[1..] == InOrder(0, |c.pieces|);
    FollowTurn(cfg, c, t, es);
    EventStep(cfg, c, t, EchoBack, 0);
    EchoArrives(cfg, c, t);
    var t' := OnPacket(cfg, t, c.peer.addr, true, c.EchoPacket(cfg.key)).t;
    InOrderDelivers(cfg, c, t', 0);
  }

  /** A client of 2^32 chunks: after all of them the first TSN is due again. */
  function Endless(p: Peer): (c: Client)
    ensures c.Ok() && |c.pieces| == M32 && c.peer == p && c.pieces[0] == [0]
  {
    Client(p, 0, Initial(0, 0, 0), 0, seq(M32, _ => [0]))
  }

  /** A copy of the first packet, arriving after 2^32 chunks were delivered, is delivered again. */
  lemma ReplayedChunk(cfg: Config, p: Peer)
    ensures var c := Endless(p); var es := WholeRun(c) + [Data(0)];
            && RunOk(cfg, c, es) && cfg.hash(p) in Follow(cfg, c, map[], es)
            && Follow(cfg, c, map[], es)[cfg.hash(p)].delivered == Concat(c.pieces) + [0]
  {
    hide Follow, OnPacket, WholeRun, Concat, Endless, RunOk, DataPacket;
    var c := Endless(p);
    var es := WholeRun(c);
    WholeRunDelivers(cfg, c, map[]);
    FollowSnoc(cfg, c, map[], es, Data(0));
    var t := Follow(cfg, c, map[], es);
    AllOfThem(cfg, c, t);
    DataArrives(cfg, c, t, 0);
    RoundAgain(c.initial.theirTsn);
  }

  lemma AllOfThem(cfg: Config, c: Client, t: Table)
    requires DeliveredTo(cfg, c, t, |c.pieces|) && cfg.hash(c.peer) in t
    ensures t[cfg.hash(c.peer)].delivered == Concat(c.pieces)
    ensures t[cfg.hash(c.peer)].theirTsn == Add32(c.initial.theirTsn, |c.pieces|)
  {
    assert c.pieces[..|c.pieces|] == c.pieces;
  }

  lemma RoundAgain(tsn: U32)
    ensures Add32(tsn, M32) == Add32(tsn, 0)
  {
  }

  /** What was delivered of a client's chunks is a prefix of them, on all runs of all clients of at most n. */
  ghost predicate AlwaysInOrder(cfg: Config, n: nat) {
    forall c: Client, t: Table, es: seq<Event> |
      c.Ok() && |c.pieces| <= n && RunOk(cfg, c, es) && cfg.hash(c.peer) !in t ::
      var t' := Follow(cfg, c, t, es); cfg.hash(c.peer) in t' ==> t'[cfg.hash(c.peer)].delivered <= Concat(c.pieces)
  }

  /** Delivery is in order on all runs with at most n chunks if and only if n < 2^32. */
  lemma ChunksIff(cfg: Config, n: nat)
    ensures AlwaysInOrder(cfg, n) <==> n < M32
  {
    hide Follow, RunOk, Concat, Add32;
    if n < M32 {
      forall c: Client, t: Table, es: seq<Event> |
        c.Ok() && |c.pieces| <= n && RunOk(cfg, c, es) && cfg.hash(c.peer) !in t
        ensures var t' := Follow(cfg, c, t, es);
                cfg.hash(c.peer) in t' ==> t'[cfg.hash(c.peer)].delivered <= Concat(c.pieces)
      {
        PiecesPrefix(cfg, c, t, es);
      }
    } else {
      var p := Peer([], 0, 0);
      ReplayedChunk(cfg, p);
      TooLong(Endless(p).pieces);
    }
  }

  lemma TooLong(ps: seq<seq<Byte>>)
    ensures !(Concat(ps) + [0] <= Concat(ps))
  {
    hide Concat;
  }

  lemma PiecesPrefix(cfg: Config, c: Client, t: Table, es: seq<Event>)
    requires c.Ok() && |c.pieces| < M32 && RunOk(cfg, c, es) && cfg.hash(c.peer) !in t
    ensures var t' := Follow(cfg, c, t, es);
            cfg.hash(c.peer) in t' ==> t'[cfg.hash(c.peer)].delivered <= Concat(c.pieces)
  {
    hide Follow, Concat, Add32, Touches;
    assert forall e <- es :: e != Data(|c.pieces|) by {
      forall e | e in es
        ensures e != Data(|c.pieces|)
      {
        var j :| 0 <= j < |es| && es[j] == e;
      }
    }
    assert c.pieces[..0] == [];
    var k := RunDelivers(cfg, c, t, es, 0, |c.pieces|);
    PrefixOfAll(c.pieces, k);
  }

  // ----- what send_data puts on the wire ----------------------------------------------------------------------------

  /** A call of send_data: the payload, and how many packets the device takes before it refuses one. */
  datatype Call = Call(payload: seq<Byte>, budget: nat)

  function Cut(call: Call, n: nat): (r: seq<seq<Byte>>)
    requires n > 0
    ensures forall i | 0 <= i < |r| :: 0 < |r[i]| <= n
  {
    Pieces(call.payload, n)
  }

  /** How many pieces of a call use up a TSN: those sent, and the one refused. */
  function Used(call: Call, n: nat): nat
    requires n > 0
  {
    Min(|Cut(call, n)|, call.budget + 1)
  }

  function Passed(call: Call, n: nat): nat
    requires n > 0
  {
    Min(|Cut(call, n)|, call.budget)
  }

  /** All pieces with a TSN, in the order of their TSNs. */
  function Taken(calls: seq<Call>, n: nat): (r: seq<seq<Byte>>)
    requires n > 0
    ensures forall i | 0 <= i < |r| :: 0 < |r[i]| <= n
  {
    if calls == [] then [] else Cut(calls[0], n)[..Used(calls[0], n)] + Taken(calls[1..], n)
  }

  function Range(first: nat, n: nat): seq<nat> {
    seq(n, i requires 0 <= i < n => first + i)
  }

  /** The numbers of those that were sent. */
  function SentNumbers(calls: seq<Call>, n: nat, first: nat): seq<nat>
    requires n > 0
    decreases |calls|
  {
    if calls == [] then []
    else Range(first, Passed(calls[0], n)) + SentNumbers(calls[1..], n, first + Used(calls[0], n))
  }

  predicate Below(numbers: seq<nat>, m: nat) {
    forall i | 0 <= i < |numbers| :: numbers[i] < m
  }

  /** The packets with given numbers. */
  function PacketsAt(c: Client, numbers: seq<nat>): seq<seq<Byte>>
    requires c.Ok() && Below(numbers, |c.pieces|)
  {
    seq(|numbers|, i requires 0 <= i < |numbers| => c.Packet(numbers[i]))
  }

  lemma {:induction false} NumbersExist(calls: seq<Call>, n: nat, first: nat)
    requires n > 0
    ensures Below(SentNumbers(calls, n, first), first + |Taken(calls, n)|)
    ensures forall i <- SentNumbers(calls, n, first) :: first <= i
    decreases |calls|
  {
    hide Cut;
    if calls != [] {
      NumbersExist(calls[1..], n, first + Used(calls[0], n));
    }
  }

  predicate SendsAll(c: Client, calls: seq<Call>, maxPacket: int) {
    RoomOk(maxPacket) && c.pieces == Taken(calls, maxPacket - 50) && |c.pieces| < M32
  }

  lemma SendsOk(c: Client, calls: seq<Call>, maxPacket: int)
    requires SendsAll(c, calls, maxPacket)
    ensures c.Ok() && Below(SentNumbers(calls, maxPacket - 50, 0), |c.pieces|)
  {
    hide Taken, SentNumbers;
    NumbersExist(calls, maxPacket - 50, 0);
  }

  /** The packets of one call are those of the client with the next numbers. */
  lemma CallSends(c: Client, first: nat, ps: seq<seq<Byte>>, m: nat)
    requires c.Ok() && m <= |ps| && first + m <= |c.pieces| && ps[..m] == c.pieces[first..first + m]
    ensures forall i | 0 <= i < |ps[..m]| :: |ps[..m][i]| + 16 < M16
    ensures Packets(c.Route(), Add32(c.initial.theirTsn, first), (c.streamSeq + first) % M16, ps[..m])
         == PacketsAt(c, Range(first, m))
  {
    hide DataPacket, Add32;
    forall i | 0 <= i < m
      ensures ps[..m][i] == c.pieces[first + i]
    {
      assert c.pieces[first..first + m][i] == c.pieces[first + i];
    }
    var a := Packets(c.Route(), Add32(c.initial.theirTsn, first), (c.streamSeq + first) % M16, ps[..m]);
    forall i | 0 <= i < m
      ensures a[i] == c.Packet(first + i)
    {
      Add32Add32(c.initial.theirTsn, first, i);
      SeqNrs(c.streamSeq, first, i);
    }
  }

  lemma SeqNrs(s: U16, m: nat, i: nat)
    ensures (s + (m + i)) % M16 == ((s + m) % M16 + i) % M16
  {
  }

  /** A series of calls of send_data. Its packets are exactly those of the client, by number, that the
      device did not refuse. */
  method SendAll(s: Sctp, calls: seq<Call>, maxPacket: int, ghost c: Client) returns (sent: seq<seq<Byte>>)
    requires SendsAll(c, calls, maxPacket)
    requires s.route == c.Route() && s.myTsn == c.initial.theirTsn && s.streamSeq == c.streamSeq
    modifies s`myTsn, s`streamSeq
    ensures c.Ok() && Below(SentNumbers(calls, maxPacket - 50, 0), |c.pieces|)
    ensures sent == PacketsAt(c, SentNumbers(calls, maxPacket - 50, 0))
  {
    hide Packets, Pieces, PacketsAt, SentNumbers, Taken, Add32, Below, Range;
    ghost var n := maxPacket - 50;
    SendsOk(c, calls, maxPacket);
    sent := [];
    ghost var first: nat := 0;
    ghost var numbers: seq<nat> := [];
    NothingSent(c);
    assert calls[0..] == calls && c.pieces[0..] == c.pieces;
    for k := 0 to |calls|
      invariant 0 <= first <= |c.pieces| && c.pieces[first..] == Taken(calls[k..], n)
      invariant Below(numbers, |c.pieces|)
      invariant numbers + SentNumbers(calls[k..], n, first) == SentNumbers(calls, n, 0)
      invariant sent == PacketsAt(c, numbers)
      invariant s.myTsn == Add32(c.initial.theirTsn, first) && s.streamSeq == (c.streamSeq + first) % M16
    {
      var call := calls[k];
      ghost var used, passed := Used(call, n), Passed(call, n);
      TakenTurn(c, calls, k, n, first);
      var packets, _ := s.SendData(call.payload, maxPacket, call.budget);
      CallSends(c, first, Cut(call, n), passed);
      sent := sent + packets;
      Joined(c, numbers, Range(first, passed));
      Add32Add32(c.initial.theirTsn, first, used);
      SeqNrs(c.streamSeq, first, used);
      numbers := numbers + Range(first, passed);
      first := first + used;
    }
    NoCalls(n, first);
    assert calls[|calls|..] == [];
    assert numbers + [] == numbers;
  }

  lemma NothingSent(c: Client)
    requires c.Ok()
    ensures Below([], |c.pieces|) && PacketsAt(c, []) == [] && Add32(c.initial.theirTsn, 0) == c.initial.theirTsn
  {
  }

  lemma NoCalls(n: nat, first: nat)
    requires n > 0
    ensures SentNumbers([], n, first) == [] && Taken([], n) == []
  {
  }

  lemma Joined(c: Client, a: seq<nat>, b: seq<nat>)
    requires c.Ok() && Below(a, |c.pieces|) && Below(b, |c.pieces|)
    ensures Below(a + b, |c.pieces|) && PacketsAt(c, a + b) == PacketsAt(c, a) + PacketsAt(c, b)
  {
    hide DataPacket;
  }

  lemma TakenTurn(c: Client, calls: seq<Call>, k: nat, n: nat, first: nat)
    requires n > 0 && k < |calls| && first <= |c.pieces| && c.pieces[first..] == Taken(calls[k..], n)
    ensures var used, passed := Used(calls[k], n), Passed(calls[k], n);
            && passed <= used && first + used <= |c.pieces|
            && Cut(calls[k], n)[..passed] == c.pieces[first..first + passed]
            && c.pieces[first + used..] == Taken(calls[k + 1..], n)
            && SentNumbers(calls[k..], n, first) == Range(first, passed) + SentNumbers(calls[k + 1..], n, first + used)
            && Below(Range(first, passed), |c.pieces|)
  {
    hide Cut;
    var used, passed := Used(calls[k], n), Passed(calls[k], n);
    var rest := c.pieces[first..];
    assert calls[k..][1..] == calls[k + 1..];
    assert rest == Cut(calls[k], n)[..used] + Taken(calls[k + 1..], n);
    assert rest[..used] == Cut(calls[k], n)[..used];
    assert rest[used..] == Taken(calls[k + 1..], n);
    assert c.pieces[first + used..] == rest[used..];
    assert c.pieces[first..first + passed] == rest[..passed];
    assert Cut(calls[k], n)[..used][..passed] == Cut(calls[k], n)[..passed];
  }

  // ----- whole payloads -------------------------------------------------------------------------------------------

  function Payloads(calls: seq<Call>): seq<seq<Byte>> {
    if calls == [] then [] else [calls[0].payload] + Payloads(calls[1..])
  }

  /** The number of the first packet that was refused; the number of all if none was. */
  function FirstGap(calls: seq<Call>, n: nat): nat
    requires n > 0
  {
    if calls == [] then 0
    else if |Cut(calls[0], n)| > calls[0].budget then calls[0].budget
    else |Cut(calls[0], n)| + FirstGap(calls[1..], n)
  }

  lemma InRange(first: nat, n: nat, x: nat)
    ensures x in Range(first, n) <==> first <= x < first + n
  {
    if first <= x < first + n {
      assert Range(first, n)[x - first] == x;
    }
  }

  lemma {:induction false} GapNotSent(calls: seq<Call>, n: nat, first: nat)
    requires n > 0
    ensures first + FirstGap(calls, n) !in SentNumbers(calls, n, first)
    ensures FirstGap(calls, n) <= |Taken(calls, n)|
    decreases |calls|
  {
    hide Cut, Range;
    if calls != [] {
      var gap := first + FirstGap(calls, n);
      InRange(first, Passed(calls[0], n), gap);
      if |Cut(calls[0], n)| <= calls[0].budget {
        GapNotSent(calls[1..], n, first + Used(calls[0], n));
      } else {
        NumbersExist(calls[1..], n, first + Used(calls[0], n));
        assert gap !in SentNumbers(calls[1..], n, first + Used(calls[0], n));
      }
    }
  }

  /** Up to the first refusal the pieces are those of the payloads. */
  lemma {:induction false} BeforeGap(calls: seq<Call>, n: nat)
    requires n > 0
    ensures FirstGap(calls, n) <= |Taken(calls, n)|
    ensures Concat(Taken(calls, n)[..FirstGap(calls, n)]) <= Concat(Payloads(calls))
    ensures FirstGap(calls, n) == |Taken(calls, n)| ==> Concat(Taken(calls, n)) == Concat(Payloads(calls))
    decreases |calls|
  {
    hide Concat, Pieces;
    GapNotSent(calls, n, 0);
    if calls == [] {
      assert Taken(calls, n)[..0] == Payloads(calls);
    } else {
      var ps, rest := Cut(calls[0], n), calls[1..];
      var g := FirstGap(calls, n);
      PiecesCover(calls[0].payload, n);
      ConcatConcat([calls[0].payload], Payloads(rest));
      OneConcat(calls[0].payload);
      if |ps| > calls[0].budget {
        assert Taken(calls, n)[..g] == ps[..g];
        PrefixOfAll(ps, g);
      } else {
        BeforeGap(rest, n);
        var h := FirstGap(rest, n);
        assert ps[..|ps|] == ps;
        assert Taken(calls, n)[..g] == ps + Taken(rest, n)[..h];
        ConcatConcat(ps, Taken(rest, n)[..h]);
        ConcatConcat(ps, Taken(rest, n));
      }
    }
  }

  lemma OneConcat(p: seq<Byte>)
    ensures Concat([p]) == p
  {
    assert [p][1..] == [];
  }

  lemma PrefixOfAll(ps: seq<seq<Byte>>, n: nat)
    requires n <= |ps|
    ensures Concat(ps[..n]) <= Concat(ps)
  {
    hide Concat;
    ConcatConcat(ps[..n], ps[n..]);
    assert ps == ps[..n] + ps[n..];
  }

  /** The network delivers only what was sent. */
  predicate OnlySent(es: seq<Event>, numbers: seq<nat>) {
    forall e <- es :: e.Data? ==> e.i in numbers
  }

  /** End to end: under loss, duplication and reordering, before and after the handshake, and whatever
      packets the client's device refused, the server has been handed a prefix of the payloads given to
      send_data, in the session its INIT agreed. */
  lemma PayloadsPrefix(cfg: Config, c: Client, calls: seq<Call>, maxPacket: int, t: Table, es: seq<Event>)
    requires SendsAll(c, calls, maxPacket) && RunOk(cfg, c, es) && cfg.hash(c.peer) !in t
    requires OnlySent(es, SentNumbers(calls, maxPacket - 50, 0))
    ensures var h := cfg.hash(c.peer); var t' := Follow(cfg, c, t, es);
            h in t' ==> t'[h].tag == c.initial.tag && t'[h].myTsn == c.initial.myTsn
                        && t'[h].delivered <= Concat(Payloads(calls))
  {
    hide Follow, RunOk, Taken, SentNumbers, FirstGap, Concat, Add32;
    var n := maxPacket - 50;
    var gap := FirstGap(calls, n);
    GapNotSent(calls, n, 0);
    BeforeGap(calls, n);
    assert c.pieces[..0] == [];
    var k := RunDelivers(cfg, c, t, es, 0, gap);
    PrefixOfAll(c.pieces[..gap], k);
    assert c.pieces[..gap][..k] == c.pieces[..k];
  }

  /** And if none was refused, the handshake followed by every packet in order delivers all of it. */
  lemma PayloadsDelivered(cfg: Config, c: Client, calls: seq<Call>, maxPacket: int, t: Table)
    requires SendsAll(c, calls, maxPacket) && cfg.hash(c.peer) !in t
    requires FirstGap(calls, maxPacket - 50) == |c.pieces|
    ensures var h := cfg.hash(c.peer);
            && RunOk(cfg, c, WholeRun(c))
            && h in Follow(cfg, c, t, WholeRun(c))
            && Follow(cfg, c, t, WholeRun(c))[h].delivered == Concat(Payloads(calls))
  {
    hide Follow, Taken, SentNumbers, WholeRun, Concat, DeliveredTo, RunOk;
    SendsOk(c, calls, maxPacket);
    WholeRunDelivers(cfg, c, t);
    AllOfThem(cfg, c, Follow(cfg, c, t, WholeRun(c)));
    BeforeGap(calls, maxPacket - 50);
  }
}
