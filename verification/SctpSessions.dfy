/** When SCTP sessions come and go, read off the packets: which packets end a session, which make one, and
    on which runs a second session is made under one hash. */
module SctpSessions {
  import opened Bytes
  import opened SctpData
  import opened SctpCookie
  import opened SctpServer

  // ----- one chunk --------------------------------------------------------------------------------------------------

  predicate Aborts(c: Chunk) {
    c.kind == 6
  }

  /** Reading the chunk runs past its end. DATA is read only where there is a listener and a session. */
  predicate Throws(listening: bool, here: bool, c: Chunk) {
    || (c.kind == 0 && listening && here && |c.body| < 12)
    || (c.kind == 1 && ReadInit(c.body).NoInit?)
    || (c.kind == 10 && |c.body| < 12)
  }

  /** A COOKIE ECHO with a cookie minted for this sender, and somebody listening. */
  predicate Welcomes(cfg: Config, p: Peer, listening: bool, c: Chunk) {
    c.kind == 10 && listening && ReadEcho(cfg.key, p, c.body).Echo? && ReadEcho(cfg.key, p, c.body).ok
  }

  /** DATA or INIT without a listener, or a COOKIE ECHO that is not welcome. */
  predicate Condemns(cfg: Config, p: Peer, listening: bool, c: Chunk) {
    (c.kind in {0, 1} && !listening) || (c.kind == 10 && !Welcomes(cfg, p, listening, c))
  }

  /** Welcome are exactly the cookies this server mints for this sender. */
  lemma WelcomeIffMinted(cfg: Config, p: Peer, listening: bool, c: Chunk)
    ensures Welcomes(cfg, p, listening, c) <==> c.kind == 10 && listening && exists i :: c.body == Mint(cfg.key, p, i)
  {
    hide Mint, ReadEcho;
    AcceptedIffMinted(cfg.key, p, c.body);
  }

  lemma ChunkContents(cfg: Config, t: Table, p: Peer, listening: bool, c: Chunk)
    ensures var e, here := OnChunk(cfg, t, p, listening, c), cfg.hash(p) in t;
            && (e.flow == Broke <==> Aborts(c))
            && (e.flow == Threw <==> Throws(listening, here, c))
            && (e.flow == On ==> (e.terminate <==> Condemns(cfg, p, listening, c)))
            && (e.flow == Broke ==> e.terminate)
            && (e.flow != On ==> e.made == 0 && (cfg.hash(p) in e.t <==> here))
            && e.made == (if !here && Welcomes(cfg, p, listening, c) then 1 else 0)
            && (cfg.hash(p) in e.t <==> here || Welcomes(cfg, p, listening, c))
  {
    hide Mint, Get16, Get32, ParametersRead, Add32;
  }

  // ----- one packet -------------------------------------------------------------------------------------------------

  /** The first chunk that stops the packet, or their number. */
  function StopAt(cfg: Config, p: Peer, listening: bool, here: bool, cs: seq<Chunk>): (k: nat)
    ensures k <= |cs|
    decreases |cs|
  {
    if cs == [] || Aborts(cs[0]) || Throws(listening, here, cs[0]) then 0
    else 1 + StopAt(cfg, p, listening, here || Welcomes(cfg, p, listening, cs[0]), cs[1..])
  }

  predicate AnyWelcomes(cfg: Config, p: Peer, listening: bool, cs: seq<Chunk>) {
    exists i | 0 <= i < |cs| :: Welcomes(cfg, p, listening, cs[i])
  }

  predicate AnyCondemns(cfg: Config, p: Peer, listening: bool, cs: seq<Chunk>) {
    exists i | 0 <= i < |cs| :: Condemns(cfg, p, listening, cs[i])
  }

  /** The packet gets as far as erasing the session: it stops at an ABORT, or at a chunk length below four, or
      is read to its end and holds a chunk that condemns it. A throw comes before all of that. */
  predicate Ends(cfg: Config, p: Peer, listening: bool, here: bool, w: (seq<Chunk>, End)) {
    var k := StopAt(cfg, p, listening, here, w.0);
    if k < |w.0| then Aborts(w.0[k])
    else w.1 == TooShort || (w.1 == Done && AnyCondemns(cfg, p, listening, w.0))
  }

  /** The packet holds a welcome COOKIE ECHO in front of what stops it. */
  predicate Makes(cfg: Config, p: Peer, listening: bool, w: (seq<Chunk>, End)) {
    AnyWelcomes(cfg, p, listening, w.0[..StopAt(cfg, p, listening, false, w.0)])
  }

  lemma AnyFirst(cfg: Config, p: Peer, listening: bool, cs: seq<Chunk>)
    requires cs != []
    ensures AnyWelcomes(cfg, p, listening, cs)
       <==> Welcomes(cfg, p, listening, cs[0]) || AnyWelcomes(cfg, p, listening, cs[1..])
    ensures AnyCondemns(cfg, p, listening, cs)
       <==> Condemns(cfg, p, listening, cs[0]) || AnyCondemns(cfg, p, listening, cs[1..])
  {
    hide Welcomes, Condemns;
    var rest := cs[1..];
    assert forall i | 0 < i < |cs| :: cs[i] == rest[i - 1];
    if i :| 0 <= i < |rest| && Welcomes(cfg, p, listening, rest[i]) {
      assert Welcomes(cfg, p, listening, cs[i + 1]);
    }
    if i :| 0 <= i < |rest| && Condemns(cfg, p, listening, rest[i]) {
      assert Condemns(cfg, p, listening, cs[i + 1]);
    }
  }

  /** What the chunk loop makes and erases, `term` saying that an earlier chunk condemned the packet. */
  ghost predicate Tells(cfg: Config, here: bool, p: Peer, listening: bool, term: bool, w: (seq<Chunk>, End),
                        made: nat, erased: nat)
  {
    var k := StopAt(cfg, p, listening, here, w.0);
    var makes := !here && AnyWelcomes(cfg, p, listening, w.0[..k]);
    var ends := if k < |w.0| then Aborts(w.0[k])
                else w.1 == TooShort || (w.1 == Done && (term || AnyCondemns(cfg, p, listening, w.0)));
    && made == (if makes then 1 else 0)
    && erased == (if ends && (here || makes) then 1 else 0)
  }

  lemma TellsNothing(cfg: Config, here: bool, p: Peer, listening: bool, term: bool, e: End)
    ensures Tells(cfg, here, p, listening, term, ([], e), 0,
                  if here && (e == TooShort || (e == Done && term)) then 1 else 0)
  {
  }

  lemma TellsStopped(cfg: Config, here: bool, p: Peer, listening: bool, term: bool, c: Chunk, w: (seq<Chunk>, End))
    requires Aborts(c) || Throws(listening, here, c)
    ensures Tells(cfg, here, p, listening, term, Prepend(c, w), 0, if here && Aborts(c) then 1 else 0)
  {
    hide Throws, Welcomes, Condemns;
    assert Prepend(c, w).0[..0] == [];
  }

  /** A chunk that does not stop the packet. */
  lemma TellsOn(cfg: Config, here: bool, p: Peer, listening: bool, term: bool, c: Chunk, w: (seq<Chunk>, End),
                made: nat, erased: nat)
    requires !Aborts(c) && !Throws(listening, here, c)
    requires Tells(cfg, here || Welcomes(cfg, p, listening, c), p, listening, term || Condemns(cfg, p, listening, c), w,
                   made, erased)
    ensures Tells(cfg, here, p, listening, term, Prepend(c, w),
                  made + (if !here && Welcomes(cfg, p, listening, c) then 1 else 0), erased)
  {
    hide Throws, Welcomes, Condemns, AnyWelcomes, AnyCondemns;
    var cs := Prepend(c, w).0;
    assert cs[1..] == w.0;
    var k := StopAt(cfg, p, listening, here || Welcomes(cfg, p, listening, c), w.0);
    assert cs[..k + 1][1..] == w.0[..k];
    AnyFirst(cfg, p, listening, cs);
    AnyFirst(cfg, p, listening, cs[..k + 1]);
  }

  /** The loop, told by the chunks alone. */
  lemma {:induction false} ChunksTell(cfg: Config, t: Table, p: Peer, listening: bool, made: nat, term: bool, s: seq<Byte>)
    ensures var o := OnChunks(cfg, t, p, listening, made, term, s);
            o.made >= made && Tells(cfg, cfg.hash(p) in t, p, listening, term, Walk(s), o.made - made, o.erased)
    decreases |s|
  {
    hide Walk, RoundOf, OnChunk, Tells, Aborts, Throws, Welcomes, Condemns;
    var here := cfg.hash(p) in t;
    WalkTurn(s);
    if s == [] {
      TellsNothing(cfg, here, p, listening, term, Done);
    } else {
      var r := RoundOf(s);
      if r.Stop? {
        StopReason(s);
        TellsNothing(cfg, here, p, listening, term, r.e);
      } else {
        ChunkContents(cfg, t, p, listening, r.c);
        var e := OnChunk(cfg, t, p, listening, r.c);
        if e.flow != On {
          TellsStopped(cfg, here, p, listening, term, r.c, if r.Cut? then ([], Truncated) else Walk(s[r.skip..]));
        } else if r.Cut? {
          TellsNothing(cfg, cfg.hash(p) in e.t, p, listening, term || e.terminate, Truncated);
          TellsOn(cfg, here, p, listening, term, r.c, ([], Truncated), 0, 0);
        } else {
          ChunksTell(cfg, e.t, p, listening, made + e.made, term || e.terminate, s[r.skip..]);
          var o := OnChunks(cfg, t, p, listening, made, term, s);
          TellsOn(cfg, here, p, listening, term, r.c, Walk(s[r.skip..]), o.made - made - e.made, o.erased);
        }
      }
    }
  }

  lemma WalkTurn(s: seq<Byte>)
    ensures s == [] ==> Walk(s) == ([], Done)
    ensures s != [] ==> var r := RoundOf(s);
              Walk(s) == if r.Stop? then ([], r.e) else if r.Cut? then Prepend(r.c, ([], Truncated)) else Prepend(r.c, Walk(s[r.skip..]))
  {
    hide RoundOf;
    if s != [] && RoundOf(s).Cut? {
      var c := RoundOf(s).c;
      assert [c] + [] == [c];
    }
  }

  lemma StopReason(s: seq<Byte>)
    ensures RoundOf(s).Stop? ==> RoundOf(s).e != Done
  {
  }

  // ----- arrivals -----------------------------------------------------------------------------------------------------

  /** The chunks of an arriving packet, and its sender. */
  function Read(a: Arrival): (seq<Chunk>, End)
    requires |a.packet| >= 12
  {
    Walk(a.packet[12..])
  }

  predicate MakesIn(cfg: Config, a: Arrival) {
    |a.packet| >= 12 && Makes(cfg, SenderOf(a.addr, a.packet), a.listening, Read(a))
  }

  predicate EndsIn(cfg: Config, a: Arrival, here: bool) {
    |a.packet| >= 12 && Ends(cfg, SenderOf(a.addr, a.packet), a.listening, here, Read(a))
  }

  /** What a packet makes and erases under its sender's hash. */
  lemma PacketTells(cfg: Config, t: Table, a: Arrival)
    requires |a.packet| >= 12
    ensures var o := OnPacket(cfg, t, a.addr, a.listening, a.packet);
            var here := cfg.hash(SenderOf(a.addr, a.packet)) in t;
            && o.made == (if !here && MakesIn(cfg, a) then 1 else 0)
            && o.erased == (if EndsIn(cfg, a, here) && (here || MakesIn(cfg, a)) then 1 else 0)
  {
    hide OnChunks, Walk, StopAt, AnyWelcomes, AnyCondemns, Aborts, Get16;
    ChunksTell(cfg, t, SenderOf(a.addr, a.packet), a.listening, 0, false, a.packet[12..]);
  }

  // ----- runs ---------------------------------------------------------------------------------------------------------

  /** Sessions made under `h`, told by the packets alone. */
  function Made(cfg: Config, here: bool, run: seq<Arrival>, h: nat): nat
    decreases |run|
  {
    if run == [] then 0
    else if !Touches(cfg, run[0], h) then Made(cfg, here, run[1..], h)
    else if here then Made(cfg, !EndsIn(cfg, run[0], true), run[1..], h)
    else if MakesIn(cfg, run[0]) then 1 + Made(cfg, !EndsIn(cfg, run[0], false), run[1..], h)
    else Made(cfg, false, run[1..], h)
  }

  lemma {:induction false} RunTells(cfg: Config, t: Table, run: seq<Arrival>, h: nat)
    ensures Tally(cfg, t, run, h).0 == Made(cfg, h in t, run, h)
    decreases |run|
  {
    hide OnPacket, Tally, Kept, MakesIn, EndsIn;
    if run == [] {
      NoTally(cfg, t, h);
    } else {
      TallyUnfolds(cfg, t, run, h);
      PacketAccounts(cfg, t, run[0], h);
      var a := run[0];
      var o := OnPacket(cfg, t, a.addr, a.listening, a.packet);
      if Touches(cfg, a, h) {
        PacketTells(cfg, t, a);
      }
      RunTells(cfg, o.t, run[1..], h);
    }
  }

  predicate Welcome(cfg: Config, run: seq<Arrival>, h: nat, k: int) {
    0 <= k < |run| && Touches(cfg, run[k], h) && MakesIn(cfg, run[k])
  }

  predicate Loss(cfg: Config, run: seq<Arrival>, h: nat, j: int) {
    0 <= j < |run| && Touches(cfg, run[j], h) && EndsIn(cfg, run[j], true)
  }

  predicate FirstWelcome(cfg: Config, run: seq<Arrival>, h: nat, i: int) {
    Welcome(cfg, run, h, i) && forall k | 0 <= k < i :: !Welcome(cfg, run, h, k)
  }

  /** A packet ends the session and a later one makes another. */
  ghost predicate LostAndMade(cfg: Config, run: seq<Arrival>, h: nat) {
    exists j, k :: j < k && Loss(cfg, run, h, j) && Welcome(cfg, run, h, k)
  }

  /** The first packet that makes a session ends it as well, or a later one ends it, and one after that makes
      another. */
  ghost predicate MadeLostMade(cfg: Config, run: seq<Arrival>, h: nat) {
    exists i, k :: 0 <= i < k < |run| && FirstWelcome(cfg, run, h, i) && Welcome(cfg, run, h, k)
      && (EndsIn(cfg, run[i], false) || exists j :: i < j < k && Loss(cfg, run, h, j))
  }

  lemma {:induction false} AnyMade(cfg: Config, run: seq<Arrival>, h: nat)
    ensures Made(cfg, false, run, h) >= 1 <==> exists k :: Welcome(cfg, run, h, k)
    decreases |run|
  {
    hide MakesIn, EndsIn, Touches;
    if run != [] {
      AnyMade(cfg, run[1..], h);
      if k :| Welcome(cfg, run, h, k) && k > 0 {
        assert Welcome(cfg, run[1..], h, k - 1);
      }
      if k :| Welcome(cfg, run[1..], h, k) {
        assert Welcome(cfg, run, h, k + 1);
      }
      assert Touches(cfg, run[0], h) && MakesIn(cfg, run[0]) ==> Welcome(cfg, run, h, 0);
    }
  }

  lemma {:induction false} MadeAgain(cfg: Config, run: seq<Arrival>, h: nat)
    ensures Made(cfg, true, run, h) >= 1 <==> LostAndMade(cfg, run, h)
    decreases |run|
  {
    hide MakesIn, EndsIn, Touches, Made;
    if run == [] {
      MadeNone(cfg, true, h);
    } else {
      MadeTurn(cfg, true, run, h);
      var rest := run[1..];
      MadeAgain(cfg, rest, h);
      AnyMade(cfg, rest, h);
      if j, k :| j < k && Loss(cfg, rest, h, j) && Welcome(cfg, rest, h, k) {
        assert Loss(cfg, run, h, j + 1) && Welcome(cfg, run, h, k + 1);
      }
      if k :| Welcome(cfg, rest, h, k) && Loss(cfg, run, h, 0) {
        assert Welcome(cfg, run, h, k + 1);
      }
      if j, k :| j < k && Loss(cfg, run, h, j) && Welcome(cfg, run, h, k) {
        assert Welcome(cfg, rest, h, k - 1);
        if j > 0 {
          assert Loss(cfg, rest, h, j - 1);
        }
      }
    }
  }

  lemma MadeNone(cfg: Config, here: bool, h: nat)
    ensures Made(cfg, here, [], h) == 0
  {
  }

  lemma MadeTurn(cfg: Config, here: bool, run: seq<Arrival>, h: nat)
    requires run != []
    ensures Made(cfg, here, run, h)
         == if !Touches(cfg, run[0], h) then Made(cfg, here, run[1..], h)
            else if here then Made(cfg, !EndsIn(cfg, run[0], true), run[1..], h)
            else if MakesIn(cfg, run[0]) then 1 + Made(cfg, !EndsIn(cfg, run[0], false), run[1..], h)
            else Made(cfg, false, run[1..], h)
  {
    hide MakesIn, EndsIn, Touches;
  }

  lemma {:induction false} MadeTwice(cfg: Config, run: seq<Arrival>, h: nat)
    ensures Made(cfg, false, run, h) >= 2 <==> MadeLostMade(cfg, run, h)
    decreases |run|
  {
    hide MakesIn, EndsIn, Touches, Made;
    if run == [] {
      MadeNone(cfg, false, h);
    } else {
      MadeTurn(cfg, false, run, h);
      if Welcome(cfg, run, h, 0) {
        SecondAfterFirst(cfg, run, h);
      } else {
        MadeTwice(cfg, run[1..], h);
        ShiftRun(cfg, run, h);
      }
    }
  }

  /** When the first packet makes the session. */
  lemma SecondAfterFirst(cfg: Config, run: seq<Arrival>, h: nat)
    requires Welcome(cfg, run, h, 0)
    ensures Made(cfg, false, run, h) >= 2 <==> MadeLostMade(cfg, run, h)
  {
    hide MakesIn, EndsIn, Touches, Made;
    var rest := run[1..];
    MadeTurn(cfg, false, run, h);
    AnyMade(cfg, rest, h);
    MadeAgain(cfg, rest, h);
    assert FirstWelcome(cfg, run, h, 0);
    if k :| Welcome(cfg, rest, h, k) && EndsIn(cfg, run[0], false) {
      assert Welcome(cfg, run, h, k + 1);
    }
    if j, k :| j < k && Loss(cfg, rest, h, j) && Welcome(cfg, rest, h, k) {
      assert Welcome(cfg, run, h, k + 1) && Loss(cfg, run, h, j + 1);
    }
    if i, k :| 0 <= i < k < |run| && FirstWelcome(cfg, run, h, i) && Welcome(cfg, run, h, k)
               && (EndsIn(cfg, run[i], false) || exists j :: i < j < k && Loss(cfg, run, h, j)) {
      assert i == 0;
      assert Welcome(cfg, rest, h, k - 1);
      if !EndsIn(cfg, run[0], false) {
        var j :| 0 < j < k && Loss(cfg, run, h, j);
        assert Loss(cfg, rest, h, j - 1);
      }
    }
  }

  /** When it does not, the rest of the run decides. */
  lemma ShiftRun(cfg: Config, run: seq<Arrival>, h: nat)
    requires run != [] && !Welcome(cfg, run, h, 0)
    ensures MadeLostMade(cfg, run, h) <==> MadeLostMade(cfg, run[1..], h)
  {
    hide MakesIn, EndsIn, Touches, Welcome, Loss, FirstWelcome;
    var rest := run[1..];
    if i, k :| 0 <= i < k < |rest| && FirstWelcome(cfg, rest, h, i) && Welcome(cfg, rest, h, k)
               && (EndsIn(cfg, rest[i], false) || exists j :: i < j < k && Loss(cfg, rest, h, j)) {
      InRun(cfg, rest, h, i, k);
      Shifted(cfg, run, h, i);
      ShiftOne(cfg, run, h, k);
      if j :| i < j < k && Loss(cfg, rest, h, j) {
        ShiftOne(cfg, run, h, j);
        assert i + 1 < j + 1 < k + 1;
      }
      assert FirstWelcome(cfg, run, h, i + 1) && Welcome(cfg, run, h, k + 1);
    }
    if i, k :| 0 <= i < k < |run| && FirstWelcome(cfg, run, h, i) && Welcome(cfg, run, h, k)
               && (EndsIn(cfg, run[i], false) || exists j :: i < j < k && Loss(cfg, run, h, j)) {
      InRun(cfg, run, h, i, k);
      assert i != 0;
      Shifted(cfg, run, h, i - 1);
      ShiftOne(cfg, run, h, k - 1);
      if j :| i < j < k && Loss(cfg, run, h, j) {
        ShiftOne(cfg, run, h, j - 1);
        assert i - 1 < j - 1 < k - 1;
      }
      assert FirstWelcome(cfg, rest, h, i - 1) && Welcome(cfg, rest, h, k - 1);
    }
  }

  lemma InRun(cfg: Config, run: seq<Arrival>, h: nat, i: int, k: int)
    requires FirstWelcome(cfg, run, h, i) && Welcome(cfg, run, h, k)
    ensures 0 <= i < |run| && 0 <= k < |run| && Welcome(cfg, run, h, i)
  {
  }

  lemma ShiftOne(cfg: Config, run: seq<Arrival>, h: nat, k: int)
    requires run != [] && k >= 0
    ensures Welcome(cfg, run[1..], h, k) <==> Welcome(cfg, run, h, k + 1)
    ensures Loss(cfg, run[1..], h, k) <==> Loss(cfg, run, h, k + 1)
  {
    hide MakesIn, EndsIn, Touches;
  }

  lemma Shifted(cfg: Config, run: seq<Arrival>, h: nat, i: int)
    requires run != [] && !Welcome(cfg, run, h, 0) && i >= 0
    ensures FirstWelcome(cfg, run[1..], h, i) <==> FirstWelcome(cfg, run, h, i + 1)
  {
    hide Welcome;
    var rest := run[1..];
    forall k | 0 <= k <= i
      ensures Welcome(cfg, rest, h, k) <==> Welcome(cfg, run, h, k + 1)
    {
      ShiftOne(cfg, run, h, k);
    }
    if FirstWelcome(cfg, rest, h, i) {
      forall k | 0 <= k < i + 1
        ensures !Welcome(cfg, run, h, k)
      {
        if k > 0 {
          assert !Welcome(cfg, rest, h, k - 1);
        }
      }
    }
  }

  /** On which runs a second session is made under one hash: with none at the start, those on which the
      session is made, ended and made again; with one, those on which it is ended and made again. */
  lemma SecondSessionIff(cfg: Config, t: Table, run: seq<Arrival>, h: nat)
    ensures Present(t, h) + Tally(cfg, t, run, h).0 >= 2 <==>
            if h in t then LostAndMade(cfg, run, h) else MadeLostMade(cfg, run, h)
  {
    hide Tally, LostAndMade, MadeLostMade, Made;
    RunTells(cfg, t, run, h);
    MadeAgain(cfg, run, h);
    MadeTwice(cfg, run, h);
  }

  /** While no packet ends it, a session stays and is the only one. */
  lemma SessionStays(cfg: Config, t: Table, run: seq<Arrival>, h: nat)
    requires h in t && forall j :: !Loss(cfg, run, h, j)
    ensures Tally(cfg, t, run, h) == (0, 0) && h in After(cfg, t, run) && Kept(t[h], After(cfg, t, run)[h])
  {
    hide Tally, After, Kept, Loss, Welcome, Made;
    RunTells(cfg, t, run, h);
    MadeAgain(cfg, run, h);
    NothingLost(cfg, t, run, h);
    KeptUnlessErased(cfg, t, run, h);
  }

  lemma {:induction false} NothingLost(cfg: Config, t: Table, run: seq<Arrival>, h: nat)
    requires h in t && forall j :: !Loss(cfg, run, h, j)
    ensures Tally(cfg, t, run, h).1 == 0
    decreases |run|
  {
    hide OnPacket, Tally, Kept, MakesIn, EndsIn;
    if run == [] {
      NoTally(cfg, t, h);
    } else {
      TallyUnfolds(cfg, t, run, h);
      PacketAccounts(cfg, t, run[0], h);
      var a := run[0];
      var o := OnPacket(cfg, t, a.addr, a.listening, a.packet);
      assert !Loss(cfg, run, h, 0);
      if Touches(cfg, a, h) {
        PacketTells(cfg, t, a);
      }
      forall j
        ensures !Loss(cfg, run[1..], h, j)
      {
        assert !Loss(cfg, run, h, j + 1);
      }
      NothingLost(cfg, o.t, run[1..], h);
    }
  }

  // ----- COOKIE ECHOs -----------------------------------------------------------------------------------------------------

  /** The packet is one COOKIE ECHO with a cookie long enough to be read. */
  predicate IsEcho(a: Arrival) {
    |a.packet| >= 12 && Read(a).1 == Done && |Read(a).0| == 1
    && Read(a).0[0].kind == 10 && |Read(a).0[0].body| >= 12
  }

  /** Its cookie was minted for its sender, and somebody listens. */
  predicate GoodEcho(cfg: Config, a: Arrival) {
    IsEcho(a) && Welcomes(cfg, SenderOf(a.addr, a.packet), a.listening, Read(a).0[0])
  }

  lemma EchoTells(cfg: Config, a: Arrival)
    requires IsEcho(a)
    ensures MakesIn(cfg, a) <==> GoodEcho(cfg, a)
    ensures EndsIn(cfg, a, true) <==> !GoodEcho(cfg, a)
    ensures EndsIn(cfg, a, false) <==> !GoodEcho(cfg, a)
  {
    hide Walk, Welcomes, Get16;
    var cs := Read(a).0;
    assert cs[1..] == [];
    assert cs[..1] == cs;
    forall here: bool
      ensures StopAt(cfg, SenderOf(a.addr, a.packet), a.listening, here, cs) == 1
    {
    }
  }

  lemma EchoKinds(cfg: Config, run: seq<Arrival>, h: nat, i: int)
    requires 0 <= i < |run| && IsEcho(run[i]) && Touches(cfg, run[i], h)
    ensures Welcome(cfg, run, h, i) <==> GoodEcho(cfg, run[i])
    ensures Loss(cfg, run, h, i) <==> !GoodEcho(cfg, run[i])
    ensures EndsIn(cfg, run[i], false) <==> !GoodEcho(cfg, run[i])
  {
    hide GoodEcho, IsEcho, Touches, MakesIn, EndsIn;
    EchoTells(cfg, run[i]);
  }

  ghost predicate GoodBadGood(cfg: Config, run: seq<Arrival>) {
    exists i, j, k | 0 <= i < j < k < |run| ::
      GoodEcho(cfg, run[i]) && !GoodEcho(cfg, run[j]) && GoodEcho(cfg, run[k])
  }

  /** On a run of COOKIE ECHOs a second session is made under one hash if and only if a good one is followed by
      a bad one and that by a good one. */
  lemma EchoRunIff(cfg: Config, t: Table, run: seq<Arrival>, h: nat)
    requires h !in t && forall i | 0 <= i < |run| :: IsEcho(run[i]) && Touches(cfg, run[i], h)
    ensures Tally(cfg, t, run, h).0 >= 2 <==> GoodBadGood(cfg, run)
  {
    hide Tally, GoodEcho, IsEcho, Touches, EndsIn, Welcome, Loss, FirstWelcome, GoodBadGood;
    SecondSessionIff(cfg, t, run, h);
    if GoodBadGood(cfg, run) {
      MadeByGood(cfg, run, h);
    }
    if i, k :| 0 <= i < k < |run| && FirstWelcome(cfg, run, h, i) && Welcome(cfg, run, h, k)
               && (EndsIn(cfg, run[i], false) || exists j :: i < j < k && Loss(cfg, run, h, j)) {
      InRun(cfg, run, h, i, k);
      EchoKinds(cfg, run, h, i);
      EchoKinds(cfg, run, h, k);
      var j :| i < j < k && Loss(cfg, run, h, j);
      EchoKinds(cfg, run, h, j);
      GoodAgain(cfg, run, i, j, k);
    }
  }

  lemma GoodAgain(cfg: Config, run: seq<Arrival>, i: int, j: int, k: int)
    requires 0 <= i < j < k < |run| && GoodEcho(cfg, run[i]) && !GoodEcho(cfg, run[j]) && GoodEcho(cfg, run[k])
    ensures GoodBadGood(cfg, run)
  {
    hide GoodEcho;
  }

  lemma MadeByGood(cfg: Config, run: seq<Arrival>, h: nat)
    requires forall i | 0 <= i < |run| :: IsEcho(run[i]) && Touches(cfg, run[i], h)
    requires GoodBadGood(cfg, run)
    ensures MadeLostMade(cfg, run, h)
  {
    hide GoodEcho, IsEcho, Touches, EndsIn, Welcome, Loss, FirstWelcome;
    var i, j, k :| 0 <= i < j < k < |run| && GoodEcho(cfg, run[i]) && !GoodEcho(cfg, run[j]) && GoodEcho(cfg, run[k]);
    EchoKinds(cfg, run, h, i);
    EchoKinds(cfg, run, h, j);
    EchoKinds(cfg, run, h, k);
    var first := Earliest(cfg, run, h, i);
    assert first < j < k && Loss(cfg, run, h, j);
  }

  lemma {:induction false} Earliest(cfg: Config, run: seq<Arrival>, h: nat, i: nat) returns (first: nat)
    requires Welcome(cfg, run, h, i)
    ensures first <= i && FirstWelcome(cfg, run, h, first)
    decreases i
  {
    hide Welcome;
    if k: nat :| k < i && Welcome(cfg, run, h, k) {
      first := Earliest(cfg, run, h, k);
    } else {
      first := i;
    }
  }

  // ----- a second session ---------------------------------------------------------------------------------------------------

  /** A packet with one COOKIE ECHO; the server does not look at the checksum. */
  function EchoWith(p: Peer, cookie: seq<Byte>): Arrival
    requires |cookie| + 4 < M16
  {
    Arrival(p.addr, true, Header(Route(p.theirPort, p.localPort, 0), Be32(0)) + EncodeChunk(Chunk(10, 0, cookie)))
  }

  lemma EchoWithReads(cfg: Config, p: Peer, cookie: seq<Byte>)
    requires 12 <= |cookie| && |cookie| + 4 < M16
    ensures var a := EchoWith(p, cookie);
            && IsEcho(a) && Read(a).0[0] == Chunk(10, 0, cookie) && SenderOf(a.addr, a.packet) == p
            && Touches(cfg, a, cfg.hash(p)) && a.listening
  {
    hide Walk, Header, EncodeChunk, Be32, SenderOf;
    var c := Chunk(10, 0, cookie);
    FourOctets(0);
    HeaderRead(Route(p.theirPort, p.localPort, 0), Be32(0), EncodeChunk(c), p.addr);
    WalkOne(c, []);
    WalkNothing();
    assert EncodeChunk(c) + [] == EncodeChunk(c);
    assert [c] + [] == [c];
  }

  const NO_COOKIE: seq<Byte> := seq(12, _ => 0)

  /** Three COOKIE ECHOs of one sender: minted, not minted, minted. The second erases the session, the third
      makes another. */
  lemma SecondSessionMade(cfg: Config, p: Peer, i: Initial)
    ensures var good, bad := EchoWith(p, Mint(cfg.key, p, i)), EchoWith(p, NO_COOKIE);
            Tally(cfg, map[], [good, bad, good], cfg.hash(p)).0 >= 2
  {
    hide Tally, IsEcho, Touches, Mint, EchoWith, Read, SenderOf;
    var h := cfg.hash(p);
    var good, bad := EchoWith(p, Mint(cfg.key, p, i)), EchoWith(p, NO_COOKIE);
    var run := [good, bad, good];
    EchoWithReads(cfg, p, Mint(cfg.key, p, i));
    EchoWithReads(cfg, p, NO_COOKIE);
    EchoedCookieAccepted(cfg.key, p, i);
    TooShortToBeMinted(cfg.key, p);
    GoodAgain(cfg, run, 0, 1, 2);
    EchoRunIff(cfg, map[], run, h);
  }

  lemma TooShortToBeMinted(k: Key, p: Peer)
    ensures !(ReadEcho(k, p, NO_COOKIE).Echo? && ReadEcho(k, p, NO_COOKIE).ok)
  {
    hide NumbersOf;
  }
}
