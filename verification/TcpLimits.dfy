/** Where the promises of the engine end: runs that break them, and the exact bounds within which they hold. */
module TcpLimits {
  import opened Bytes
  import opened TcpModel
  import opened TcpLedger
  import opened TcpLifecycle
  import opened TcpNetwork
  import opened TcpEnding
  import opened TcpFlow

  /** An endpoint that just became established. */
  function Opened(base: U32, peerBase: U32, window: U16): (e: Endpoint)
    ensures Fresh(e)
  {
    Endpoint(Session(Established, base, peerBase, [], 0, 0, 0, window, false, false, 0, false, false), base, [], [], 0)
  }

  const SERVICE := Layer7(true, true, true)

  /** Layer 7 takes the session but not the data. */
  const REFUSAL := Layer7(true, true, false)

  // ----- building runs -------------------------------------------------------------------------------

  lemma {:induction false} Snoc(s: System, events: seq<Event>, ev: Event)
    ensures Exec(s, events + [ev]) == Step(Exec(s, events), ev)
    ensures Harmless(s, events + [ev]) <==> Harmless(s, events) && !HarmfulEvent(Exec(s, events), ev)
    decreases |events|
  {
    hide Step, HarmfulEvent;
    if events == [] {
      assert [ev][1..] == [];
      assert [] + [ev] == [ev];
    } else {
      assert (events + [ev])[1..] == events[1..] + [ev];
      Snoc(Step(s, events[0]), events[1..], ev);
    }
  }

  /** A harmless run that leads to `t`. */
  ghost predicate Reaches(s: System, events: seq<Event>, t: System) {
    Harmless(s, events) && Exec(s, events) == t
  }

  lemma Nothing(s: System)
    ensures Reaches(s, [], s)
  {
  }

  lemma Extend(s: System, events: seq<Event>, t: System, ev: Event)
    requires Reaches(s, events, t) && !HarmfulEvent(t, ev)
    ensures Reaches(s, events + [ev], Step(t, ev))
  {
    hide Step, HarmfulEvent, Exec, Harmless;
    Snoc(s, events, ev);
  }

  // ----- single steps --------------------------------------------------------------------------------

  lemma Accepting(e: Endpoint, data: seq<Byte>)
    requires e.sess.state == Established && e.sess.unackedSize == 0
    ensures Act(e, Send(data))
         == Outcome(e.(accepted := e.accepted + data,
                       sess := e.sess.(unacked := data, unackedSize := |data|, unackedStart := e.sess.mySeq)), [])
  {
    hide HandleSegment, PassFrom;
    assert Buffered(e.sess) + data == data;
  }

  /** The first byte of the buffer goes out under my_seq_nr. */
  lemma PassOfOne(e: Endpoint)
    requires 0 < e.sess.unackedSize <= |e.sess.unacked| && e.sess.unackedSize <= M32 && e.sess.dataSince < e.sess.window
    ensures Act(e, Resend(1, 1))
         == Outcome(e.(sess := e.sess.(dataSince := e.sess.dataSince + 1)), [DataSegment(e.sess, 0, 1)])
    ensures DataSegment(e.sess, 0, 1)
         == Segment(false, true, false, false, e.sess.mySeq, e.sess.theirSeq, OUR_WINDOW, true, [e.sess.unacked[0]])
  {
    BudgetOfPass(e.sess);
    ToSendInBuffer(e.sess);
    var g := DataSegment(e.sess, 0, 1);
    assert e.sess.unacked[0..1] == [e.sess.unacked[0]];
    assert PassFrom(e.sess, 1, ToSend(e.sess), 1, 0) == [];
    assert PassFrom(e.sess, 0, ToSend(e.sess), 1, 1) == [g];
    assert [g][1..] == [];
    assert DataOf([g]) == g.data + DataOf([]);
  }

  /** A buffer that holds the end of the stream under its own numbers is in place. */
  lemma InPlace(x: Endpoint, n: nat)
    requires x.sess.state == Established && n <= |x.accepted| && n <= M32
    requires x.sess.unackedSize == |x.sess.unacked| == n && x.sess.unacked == x.accepted[|x.accepted| - n..]
    requires x.sess.mySeq == x.sess.unackedStart == Add32(x.base, |x.accepted| - n)
    ensures !Displaced(x)
  {
    hide Add32;
    assert x.sess.unacked[..n] == x.sess.unacked;
  }

  predicate Plain(g: Segment) {
    g.headerFits && !g.rst && !g.syn && !g.fin
  }

  /** A session with nothing to send, nothing recorded and nothing deferred. */
  predicate Idle(s: Session) {
    s.state.Rank() in {4, 5} && s.unackedSize == 0 && !s.finFlag
  }

  /** Data in order is delivered, counted and acknowledged. */
  lemma Delivery(e: Endpoint, g: Segment)
    requires Idle(e.sess) && Plain(g) && g.ack && g.data != [] && g.seqNr == e.sess.theirSeq
    ensures var t := Add32(e.sess.theirSeq, |g.data|);
            Act(e, Receive(g, SERVICE))
            == Outcome(e.(delivered := e.delivered + g.data,
                          sess := e.sess.(theirSeq := t, dataSince := 0, window := if g.win < 1 then 1 else g.win)),
                       [Segment(false, true, false, false, e.sess.mySeq, t, OUR_WINDOW, true, [])])
  {
    hide Progress, Add32, Emit, HandleControl;
    QuietControl(e.sess, g, SERVICE);
    var s := e.sess.(theirSeq := Add32(e.sess.theirSeq, |g.data|), dataSince := 0, window := if g.win < 1 then 1 else g.win);
    EmitPlain(Handling(s, [], [] + g.data, 0, false, false), s.theirSeq);
  }

  /** Before the data stage an idle session only resets its count. */
  lemma QuietControl(s: Session, g: Segment, l7: Layer7)
    requires Idle(s) && Plain(g)
    ensures var h := Begin(s, g);
            HandleControl(h, g, l7) == if g.ack then h.(s := h.s.(dataSince := 0)) else h
  {
    hide Progress, Add32;
  }

  /** Refused, it is handed over all the same, and not counted. */
  lemma Refusal(e: Endpoint, g: Segment)
    requires Idle(e.sess) && Plain(g) && g.data != [] && g.seqNr == e.sess.theirSeq
    ensures var e' := Act(e, Receive(g, REFUSAL)).e;
            && e'.delivered == e.delivered + g.data && e'.sess.doomed && Idle(e'.sess)
            && e'.sess.theirSeq == e.sess.theirSeq && e'.accepted == e.accepted && e'.base == e.base
  {
    hide Progress, Add32;
  }

  lemma AnswerToFin(e: Endpoint, g: Segment)
    requires e.sess.state == Established && g.headerFits && g.fin && !g.ack && !g.syn && !g.rst
    requires g.data == [] && g.seqNr == e.sess.theirSeq && g.win == OUR_WINDOW
    ensures var s := e.sess; var s' := Act(e, Receive(g, SERVICE)).e.sess;
            && s'.doomed && s'.state == FinWait2 && s'.mySeq == Add32(s.mySeq, 1) && s'.window == OUR_WINDOW
            && s'.unacked == s.unacked && s'.unackedSize == s.unackedSize && s'.unackedStart == s.unackedStart
            && s'.dataSince == s.dataSince && s'.theirSeq == s.theirSeq
    ensures var e' := Act(e, Receive(g, SERVICE)).e; e'.accepted == e.accepted && e'.base == e.base && e'.delivered == e.delivered
  {
    hide Progress, Add32;
    assert e.delivered + [] == e.delivered;
  }

  /** The acknowledgement of the only byte outstanding. */
  lemma Settled(e: Endpoint, g: Segment)
    requires e.sess.state == Established && e.sess.unackedSize == 1 && !e.sess.finFlag && !e.sess.finAfter
    requires e.sess.unackedStart == e.sess.mySeq
    requires Plain(g) && g.ack && g.data == [] && g.win == OUR_WINDOW && g.ackTo == Add32(e.sess.mySeq, 1)
    ensures var n := Add32(e.sess.mySeq, 1);
            Act(e, Receive(g, SERVICE))
            == Outcome(e.(sess := e.sess.(unackedSize := 0, unackedStart := n, mySeq := n, dataSince := 0,
                                          window := OUR_WINDOW)), [])
  {
    hide Progress, Add32, AsInt32, MovedDown;
    OneAhead(e.sess.mySeq);
    AsInt32Exact(0);
    assert [] + e.delivered == e.delivered + [] == e.delivered;
  }

  lemma OneAhead(n: U32)
    ensures AsInt32(Add32(n, 1) - n) == 1
  {
  }

  lemma SmallerNumberAcked(e: Endpoint, g: Segment)
    requires Idle(e.sess) && Plain(g) && g.data != [] && g.seqNr < e.sess.theirSeq
    ensures var o := Act(e, Receive(g, SERVICE));
            && o.e.delivered == e.delivered && o.e.accepted == e.accepted && o.e.base == e.base
            && o.sent == [Segment(false, true, false, false, e.sess.mySeq, g.seqNr, OUR_WINDOW, true, [])]
  {
    hide Progress, Add32;
  }

  // ----- sessions that outlive their deletion mark ----------------------------------------------------

  /** b accepts a byte and sends it as `g`. */
  lemma OneSent() returns (s: System, events: seq<Event>, t: System, g: Segment)
    ensures Start(s) && Reaches(s, events, t) && g in t.ba
    ensures g == Segment(false, true, false, false, 0, 0, OUR_WINDOW, true, [7])
    ensures t.a == Opened(0, 0, 100) && t.b.base == 0 && t.b.accepted == [7] && t.b.delivered == []
    ensures t.b.sess == Opened(0, 0, 100).sess.(unacked := [7], unackedSize := 1, dataSince := 1)
  {
    hide Act, Reaches, Displaced;
    var e0 := Opened(0, 0, 100);
    s, events := System(e0, e0, {}, {}), [];
    Nothing(s);
    Accepting(e0, [7]);
    var b1 := Act(e0, Send([7])).e;
    assert [] + [7] == [7] && [7][0..] == [7];
    var v1 := Event(false, Send([7]));
    var t1 := Step(s, v1);
    assert t1.b == b1 && t1.a == e0;
    Extend(s, events, s, v1);
    PassOfOne(b1);
    assert Add32(0, 0) == 0;
    InPlace(b1, 1);
    var v2 := Event(false, Resend(1, 1));
    t := Step(t1, v2);
    g := DataSegment(b1.sess, 0, 1);
    assert g in Act(b1, Resend(1, 1)).sent;
    Extend(s, events + [v1], t1, v2);
    events := events + [v1] + [v2];
  }

  /** First harmful step: layer 7 of a refuses the byte, and before a leaves the table the same segment
      arrives again. The byte is handed over twice. */
  lemma RefusedTwice() returns (s: System, events: seq<Event>, t: System, harm: Event)
    ensures Start(s) && Reaches(s, events, t) && HarmfulEvent(t, harm)
    ensures Step(t, harm).a.delivered == [7, 7] && Step(t, harm).b.accepted == [7]
  {
    hide Act, Reaches;
    var before: seq<Event>;
    var t0: System;
    var g: Segment;
    s, before, t0, g := OneSent();
    harm := Event(true, Receive(g, REFUSAL));
    Refusal(t0.a, g);
    t := Step(t0, harm);
    assert [] + [7] == [7] && [7] + [7] == [7, 7];
    assert Add32(0, 0) == 0;
    Extend(s, before, t0, harm);
    events := before + [harm];
    Refusal(t.a, g);
  }

  /** After one delivery a closes, and b answers the FIN with its byte still unacknowledged. */
  lemma UntilMarked() returns (s: System, events: seq<Event>, t: System)
    ensures Start(s) && Reaches(s, events, t)
    ensures t.a.delivered == [7] && t.a.sess.theirSeq == 1 && Idle(t.a.sess) && t.a.accepted == []
    ensures t.b.sess.doomed && t.b.accepted == [7] && t.b.base == 0 && t.b.sess.mySeq == 1 && t.b.sess.unackedStart == 0
    ensures t.b.sess.unacked == [7] && t.b.sess.unackedSize == 1
    ensures t.b.sess.dataSince == 1 && t.b.sess.window == OUR_WINDOW
  {
    hide Act, Reaches;
    var t0: System;
    var g: Segment;
    s, events, t0, g := OneSent();
    Delivery(t0.a, g);
    var v3 := Event(true, Receive(g, SERVICE));
    var t1 := Step(t0, v3);
    assert [] + [7] == [7];
    assert Add32(0, 0) == 0;
    Extend(s, events, t0, v3);
    var fin := Closing(t1.a);
    var v4 := Event(true, Close);
    var t2 := Step(t1, v4);
    Extend(s, events + [v3], t1, v4);
    AnswerToFin(t2.b, fin);
    var v5 := Event(false, Receive(fin, SERVICE));
    t := Step(t2, v5);
    Extend(s, events + [v3] + [v4], t2, v5);
    events := events + [v3] + [v4] + [v5];
  }

  lemma Closing(e: Endpoint) returns (fin: Segment)
    requires e.sess.unackedSize == 0
    ensures Act(e, Close)
         == Outcome(e.(sess := e.sess.(state := FinWait1, mySeq := Add32(e.sess.mySeq, 1))), [fin])
    ensures fin == Segment(false, false, true, false, e.sess.mySeq, e.sess.theirSeq, OUR_WINDOW, true, [])
  {
    fin := Bare(e.sess, false, false, true, e.sess.theirSeq);
  }

  /** Second harmful step: the retransmit thread serves b before b leaves the table, and what it sends
      under the wrong number is delivered a second time. */
  lemma RetransmitAfterDeletionMark() returns (s: System, events: seq<Event>, t: System, harm: Event, after: Event)
    ensures Start(s) && Reaches(s, events, t) && HarmfulEvent(t, harm)
    ensures var u := Step(Step(t, harm), after); u.a.delivered == [7, 7] && u.b.accepted == [7]
  {
    hide Act, Reaches;
    s, events, t := UntilMarked();
    PassOfOne(t.b);
    harm := Event(false, Resend(1, 1));
    var g := DataSegment(t.b.sess, 0, 1);
    assert g in Act(t.b, Resend(1, 1)).sent;
    after := Event(true, Receive(g, SERVICE));
    Delivery(t.a, g);
    assert [7] + [7] == [7, 7];
  }

  // ----- an acknowledgement that fails a session --------------------------------------------------------

  /** One byte more than an int can count down from. */
  const OVERLONG: seq<Byte> := [7] + Zeros(M31)

  function Zeros(n: nat): (r: seq<Byte>)
    ensures |r| == n && forall i | 0 <= i < n :: r[i] == 0
  {
    seq(n, _ => 0)
  }

  /** The acknowledgement of the first byte of an overlong buffer: what is left turns negative, the session
      is failed with a RST, and its buffer is not moved. */
  lemma AckFails(e: Endpoint, g: Segment) returns (rst: Segment)
    requires e.sess.state == Established && e.sess.unackedSize == M31 + 1 && !e.sess.finFlag && !e.sess.doomed
    requires e.sess.mySeq == e.sess.unackedStart == 0
    requires Plain(g) && g.ack && g.data == [] && g.ackTo == 1 && g.win == OUR_WINDOW
    ensures var s' := e.sess.(unackedSize := M31, unackedStart := 1, mySeq := 1, dataSince := 0, window := OUR_WINDOW,
                              terminating := true, doomed := true);
            Act(e, Receive(g, SERVICE)) == Outcome(e.(sess := s'), [rst])
    ensures rst.rst && rst.data == [] && rst.headerFits && !rst.fin && !rst.syn
  {
    hide Progress, Add32, AsInt32, MovedDown;
    AsInt32Exact(1);
    HalfLeft();
    rst := Segment(false, true, false, true, 0, Add32(g.seqNr, 1), OUR_WINDOW, true, []);
    assert e.delivered + [] == e.delivered;
  }

  lemma HalfLeft()
    ensures AsInt32(M31) == -M31 && M31 % M64 == M31 && Add32(0, 1) == 1
  {
  }

  /** a accepts 2^31 + 1 bytes and sends the first as `d`. */
  lemma OverlongSent() returns (s: System, events: seq<Event>, t: System, d: Segment)
    ensures Start(s) && Reaches(s, events, t) && AllWilling(events)
    ensures d in t.ab && d == Segment(false, true, false, false, 0, 0, OUR_WINDOW, true, [7])
    ensures t.b == Opened(0, 0, OUR_WINDOW) && t.a.base == 0 && t.a.accepted == OVERLONG && t.a.delivered == []
    ensures t.a.sess == t.b.sess.(unacked := OVERLONG, unackedSize := M31 + 1, dataSince := 1)
  {
    hide Act, Reaches, Displaced, Zeros, AllWilling;
    var e0 := Opened(0, 0, OUR_WINDOW);
    s := System(e0, e0, {}, {});
    Nothing(s);
    assert Add32(0, 0) == 0;
    Accepting(e0, OVERLONG);
    var v1 := Event(true, Send(OVERLONG));
    var t1 := Step(s, v1);
    assert [] + OVERLONG == OVERLONG && OVERLONG[0..] == OVERLONG;
    Extend(s, [], s, v1);
    InPlace(t1.a, M31 + 1);
    PassOfOne(t1.a);
    var v2 := Event(true, Resend(1, 1));
    t := Step(t1, v2);
    Extend(s, [] + [v1], t1, v2);
    d := DataSegment(t1.a.sess, 0, 1);
    assert d in Act(t1.a, Resend(1, 1)).sent;
    NoEvents();
    OneMore([], v1);
    OneMore([] + [v1], v2);
    events := [] + [v1] + [v2];
  }

  /** b delivers and acknowledges it, and the acknowledgement fails a. */
  lemma Overlong() returns (s: System, events: seq<Event>, t: System, rst: Segment)
    ensures Start(s) && Reaches(s, events, t) && AllWilling(events)
    ensures rst in t.ab && rst.rst && rst.data == [] && rst.headerFits && !rst.fin && !rst.syn
    ensures t.a.accepted == OVERLONG && t.b.accepted == [] && t.b.delivered == [7] && t.a.base == 0 && t.b.base == 0
    ensures Idle(t.b.sess) && t.b.sess.theirSeq == 1 && t.a.sess.theirSeq == 0
    ensures t.a.sess.unacked == OVERLONG && t.a.sess.unackedSize == M31 && t.a.sess.unackedStart == t.a.sess.mySeq == 1
    ensures t.a.sess.dataSince == 0 && t.a.sess.window == OUR_WINDOW
  {
    hide Act, Reaches, Displaced, Zeros, AllWilling, Start;
    var before: seq<Event>;
    var t2: System;
    var d: Segment;
    s, before, t2, d := OverlongSent();
    assert Add32(0, 0) == 0 && Add32(0, 1) == 1;
    var v3 := Event(false, Receive(d, SERVICE));
    var t3 := Step(t2, v3);
    Delivery(t2.b, d);
    assert [] + [7] == [7];
    Extend(s, before, t2, v3);
    var f := Act(t2.b, Receive(d, SERVICE)).sent[0];
    assert f in t3.ba;
    rst := AckFails(t3.a, f);
    var v4 := Event(true, Receive(f, SERVICE));
    t := Step(t3, v4);
    Extend(s, before + [v3], t3, v4);
    events := before + [v3] + [v4];
    OneMore(before, v3);
    OneMore(before + [v3], v4);
  }

  lemma NoEvents()
    ensures AllWilling([])
  {
  }

  /** Third harmful step: the retransmit thread serves a before a leaves the table, and sends bytes that are
      already acknowledged under the numbers of later ones. */
  lemma FailedBufferResent() returns (s: System, events: seq<Event>, t: System, harm: Event, after: Event)
    ensures Start(s) && Reaches(s, events, t) && HarmfulEvent(t, harm)
    ensures var u := Step(Step(t, harm), after); u.b.delivered == [7, 7] && u.a.accepted == OVERLONG && !PrefixSafe(u)
  {
    hide Act, Reaches, Zeros;
    var rst: Segment;
    s, events, t, rst := Overlong();
    harm := Event(true, Resend(1, 1));
    NotInPlace(t.a);
    PassOfOne(t.a);
    var g := DataSegment(t.a.sess, 0, 1);
    assert g in Act(t.a, Resend(1, 1)).sent;
    after := Event(false, Receive(g, SERVICE));
    Delivery(t.b, g);
    assert [7] + [7] == [7, 7];
    assert OVERLONG[1] == 0;
  }

  lemma NotInPlace(x: Endpoint)
    requires x.sess.unacked == x.accepted == OVERLONG && x.sess.unackedSize == M31
    ensures Displaced(x)
  {
    hide Zeros;
    assert OVERLONG[..M31][0] == 7 && OVERLONG[1..][0] == 0;
  }

  ghost predicate AlwaysHealthy(n: nat) {
    forall s: System, events: seq<Event> |
      Start(s) && AllWilling(events) && Harmless(s, events) && AtMost(Exec(s, events), n) :: NoRst(Exec(s, events))
  }

  /** When layer 7 refuses nothing, no run on which each direction accepts at most n bytes ever fails a
      session, if and only if n <= 2^31. */
  lemma NeverFailsIff(n: nat)
    ensures AlwaysHealthy(n) <==> n <= M31
  {
    hide Exec, Start, AllWilling, Harmless, NoRst, Zeros;
    if n <= M31 {
      forall s: System, events: seq<Event> |
        Start(s) && AllWilling(events) && Harmless(s, events) && AtMost(Exec(s, events), n)
        ensures NoRst(Exec(s, events))
      {
        NeverFails(s, events);
      }
    } else {
      var s, events, t, rst := Overlong();
      SentRst(t, rst);
      assert AtMost(t, n);
    }
  }

  lemma SentRst(t: System, g: Segment)
    requires g in t.ab && g.rst
    ensures !NoRst(t)
  {
  }

  ghost predicate AlwaysComplete(n: nat) {
    forall s: System, events: seq<Event> |
      Start(s) && AllWilling(events) && Harmless(s, events) && AtMost(Exec(s, events), n) ::
      AllDone(Exec(s, events))
  }

  /** And every session marked for deletion has delivered its peer's whole stream, if and only if n <= 2^31:
      the RST for an overlong buffer cuts the other side short. */
  lemma CompleteEndIff(n: nat)
    ensures AlwaysComplete(n) <==> n <= M31
  {
    hide Exec, Start, AllWilling, Harmless, AllDone, Zeros;
    if n <= M31 {
      forall s: System, events: seq<Event> |
        Start(s) && AllWilling(events) && Harmless(s, events) && AtMost(Exec(s, events), n)
        ensures AllDone(Exec(s, events))
      {
        CompleteEnd(s, events);
      }
    } else {
      var s, events, t := CutShort();
      assert AtMost(t, n);
    }
  }

  lemma CutShort() returns (s: System, events: seq<Event>, t: System)
    ensures Start(s) && Harmless(s, events) && Exec(s, events) == t && AllWilling(events)
    ensures t.a.accepted == OVERLONG && t.b.accepted == [] && !AllDone(t)
  {
    hide Act, Harmless, Exec, Zeros, AllWilling;
    var before: seq<Event>;
    var t0: System;
    var rst: Segment;
    s, before, t0, rst := Overlong();
    var ev := Event(false, Receive(rst, SERVICE));
    RstMarks(t0.b, rst);
    t := Step(t0, ev);
    Extend(s, before, t0, ev);
    events := before + [ev];
    OneMore(before, ev);
  }

  lemma OneMore(events: seq<Event>, ev: Event)
    requires AllWilling(events) && (ev.action.Receive? ==> ev.action.l7 == SERVICE)
    ensures AllWilling(events + [ev])
  {
  }

  lemma RstMarks(e: Endpoint, g: Segment)
    requires Idle(e.sess) && g.rst && g.data == [] && g.headerFits && !g.fin && !g.syn
    ensures var e' := Act(e, Receive(g, SERVICE)).e;
            e'.sess.doomed && e'.delivered == e.delivered && e'.accepted == e.accepted
  {
    hide Progress, Add32;
  }

  // ----- a first FIN under the number of a byte -----------------------------------------------------------

  /** A byte is outstanding and the close deferred; the peer's FIN arrives at the expected number, and the
      first FIN goes out under the number of the outstanding byte. */
  lemma FinBeforeByte() returns (e: Endpoint, actions: seq<Action>, a: Action, g: Segment)
    ensures Fresh(e) && actions == [Send([7]), Close] && NoFinSent(e, actions)
    ensures var m := Run(e, actions);
            && m.sess.state == Established && m.sess.finAfter && !m.sess.doomed
            && g in Act(m, a).sent && g.fin && AnswersEarly(m, a)
            && m.accepted == [7] && g.seqNr == e.base && !CompleteFin(Act(m, a).e, g)
  {
    hide Act;
    e := Opened(0, 0, 100);
    actions := [Send([7]), Close];
    a := Receive(Segment(false, false, true, false, 0, 0, OUR_WINDOW, true, []), SERVICE);
    Accepting(e, [7]);
    assert [] + [7] == [7];
    var e1 := Act(e, Send([7])).e;
    Deferred(e1);
    var m := Act(e1, Close).e;
    assert actions[1..] == [Close] && [Close][1..] == [];
    assert Run(e1, [Close]) == Run(m, []) == m;
    g := AnswerSent(m, a.g);
    assert Add32(0, 1) == 1;
  }

  lemma Deferred(e: Endpoint)
    requires e.sess.unackedSize > 0
    ensures Act(e, Close) == Outcome(e.(sess := e.sess.(finAfter := true)), [])
  {
  }

  lemma AnswerSent(e: Endpoint, g: Segment) returns (f: Segment)
    requires e.sess.state == Established && g.headerFits && g.fin && !g.ack && !g.syn && !g.rst
    requires g.data == [] && g.seqNr == e.sess.theirSeq
    ensures f in Act(e, Receive(g, SERVICE)).sent && f.fin && f.seqNr == e.sess.mySeq
    ensures f.ack && f.ackTo == Add32(e.sess.theirSeq, 1)
    ensures var e' := Act(e, Receive(g, SERVICE)).e; e'.base == e.base && e'.accepted == e.accepted
  {
    hide Progress, Add32;
    f := Segment(false, true, true, false, e.sess.mySeq, Add32(e.sess.theirSeq, 1), OUR_WINDOW, true, []);
  }

  /** A FIN that overtakes a byte is recorded and not answered. */
  lemma FinRecorded(e: Endpoint, g: Segment)
    requires e.sess.state == Established && !e.sess.finFlag && !e.sess.doomed && e.sess.unackedSize > 0
    requires g.headerFits && g.fin && !g.ack && !g.syn && !g.rst && g.data == []
    requires g.seqNr != e.sess.theirSeq && g.win == OUR_WINDOW
    ensures Act(e, Receive(g, SERVICE))
         == Outcome(e.(sess := e.sess.(window := OUR_WINDOW, finSeq := g.seqNr, finFlag := true, terminating := true,
                                       state := FinWait1)), [])
  {
    hide Progress, Add32;
    assert e.delivered + [] == e.delivered;
  }

  /** Data in order, with bytes of one's own outstanding and a FIN not due, is counted silently. */
  lemma CountedSilently(e: Endpoint, g: Segment)
    requires e.sess.state == FinWait1 && e.sess.finSeq != e.sess.theirSeq && !e.sess.doomed && e.sess.unackedSize > 0
    requires Plain(g) && !g.ack && g.data != [] && g.seqNr == e.sess.theirSeq && g.win == OUR_WINDOW
    ensures Act(e, Receive(g, SERVICE))
         == Outcome(e.(delivered := e.delivered + g.data,
                       sess := e.sess.(window := OUR_WINDOW, theirSeq := Add32(e.sess.theirSeq, |g.data|))), [])
  {
    hide Progress, Add32;
    assert [] + g.data == g.data;
  }

  /** Whatever arrives next, a recorded FIN that is due is answered. */
  lemma DueAnswered(e: Endpoint, g: Segment) returns (f: Segment)
    requires e.sess.state == FinWait1 && e.sess.finFlag && e.sess.finSeq == e.sess.theirSeq
    requires Plain(g) && !g.ack
    ensures f in Act(e, Receive(g, SERVICE)).sent && f.fin && f.seqNr == e.sess.mySeq
    ensures var e' := Act(e, Receive(g, SERVICE)).e; e'.base == e.base && e'.accepted == e.accepted
  {
    hide Progress, Add32, HandlePayload;
    f := Segment(false, true, true, false, e.sess.mySeq, Add32(e.sess.theirSeq, 1), OUR_WINDOW, true, []);
    var h := HandleControl(Begin(e.sess, g), g, SERVICE);
    assert h.sent == [f];
    PayloadAdds(h, g);
    assert HandlePayload(h, g, SERVICE).sent[0] == f;
    assert HandleSegment(e.sess, g, SERVICE).sent[0] == f;
  }

  lemma PayloadAdds(h: Handling, g: Segment)
    ensures h.sent <= HandlePayload(h, g, SERVICE).sent
  {
    hide Add32;
  }

  function OverdueByte(): Segment {
    Segment(false, false, false, false, 0, 0, OUR_WINDOW, true, [9])
  }

  /** The same from FIN_WAIT_1: a byte is outstanding and the close deferred, the peer's FIN overtakes a byte, and
      that byte arrives twice. Its copy, which carries no FIN, sets off the first FIN. */
  lemma FinBeforeByteLater() returns (e: Endpoint, actions: seq<Action>, a: Action, g: Segment)
    ensures Fresh(e) && |actions| == 4 && NoFinSent(e, actions) && a.Receive? && !a.g.fin
    ensures var m := Run(e, actions);
            && m.sess.state == FinWait1 && m.sess.finAfter && !m.sess.doomed
            && g in Act(m, a).sent && g.fin && AnswersEarly(m, a)
            && m.accepted == [7] && g.seqNr == e.base && !CompleteFin(Act(m, a).e, g)
  {
    hide Act, Run, NoFinSent;
    e := Opened(0, 0, 100);
    var fin := Segment(false, false, true, false, 1, 0, OUR_WINDOW, true, []);
    var a1, a3 := Send([7]), Receive(fin, SERVICE);
    a := Receive(OverdueByte(), SERVICE);
    actions := [a1, Close, a3, a];
    assert Add32(0, 1) == 1;
    assert [] + [7] == [7];
    Accepting(e, [7]);
    var e1 := Act(e, a1).e;
    Deferred(e1);
    var e2 := Act(e1, Close).e;
    FinRecorded(e2, fin);
    var e3 := Act(e2, a3).e;
    CountedSilently(e3, OverdueByte());
    var m := Act(e3, a).e;
    RunOfFour(e, a1, Close, a3, a);
    SilentFour(e, a1, Close, a3, a);
    g := DueAnswered(m, OverdueByte());
  }

  lemma SilentFour(e: Endpoint, a: Action, b: Action, c: Action, d: Action)
    requires var e1 := Act(e, a).e; var e2 := Act(e1, b).e; var e3 := Act(e2, c).e;
             Act(e, a).sent == Act(e1, b).sent == Act(e2, c).sent == Act(e3, d).sent == []
    ensures NoFinSent(e, [a, b, c, d])
  {
    hide Act, NoFinSent;
    var e1 := Act(e, a).e;
    var e2 := Act(e1, b).e;
    assert [d] + [] == [d] && [c] + [d] == [c, d] && [b] + [c, d] == [b, c, d] && [a] + [b, c, d] == [a, b, c, d];
    SilentNone(Act(Act(e2, c).e, d).e);
    SilentFirst(Act(e2, c).e, d, []);
    SilentFirst(e2, c, [d]);
    SilentFirst(e1, b, [c, d]);
    SilentFirst(e, a, [b, c, d]);
  }

  lemma SilentNone(e: Endpoint)
    ensures NoFinSent(e, [])
  {
  }

  lemma SilentFirst(e: Endpoint, a: Action, rest: seq<Action>)
    requires Act(e, a).sent == [] && NoFinSent(Act(e, a).e, rest)
    ensures NoFinSent(e, [a] + rest)
  {
    hide Act;
    assert ([a] + rest)[1..] == rest;
  }

  // ----- the window ------------------------------------------------------------------------------------

  /** A segment without ACK that announces `win`. */
  function Announcement(win: U16): Segment {
    Segment(false, false, false, false, 0, 0, win, true, [])
  }

  lemma Announced(e: Endpoint, win: U16)
    requires !e.sess.finFlag && !e.sess.doomed && win > 0
    ensures Act(e, Receive(Announcement(win), SERVICE)) == Outcome(e.(sess := e.sess.(window := win)), [])
  {
    hide Progress;
    assert e.delivered + [] == e.delivered;
  }

  lemma WholeBuffer(e: Endpoint, n: nat)
    requires e.sess.unackedSize == |e.sess.unacked| == n && 0 < n < M31 && e.sess.dataSince < M32
    ensures var m := if e.sess.dataSince <= e.sess.window then Min(e.sess.window - e.sess.dataSince, n) else n;
            var o := Act(e, Resend(n, 1));
            |DataOf(o.sent)| == m && o.e == e.(sess := e.sess.(dataSince := e.sess.dataSince + m))
  {
    BudgetOfPass(e.sess);
    AsInt32Exact(n);
    ResendTilesBuffer(e.sess, n, 1);
    var m := ToSend(e.sess);
    TilesData(ResendPass(e.sess, n, 1).1, e.sess.mySeq, e.sess.unacked[..m]);
  }

  /** A window of 100 is filled, a segment without ACK shrinks it to 50, and the next pass sends all 200
      bytes of the buffer: 300 are in flight. */
  lemma WindowExceeded() returns (e: Endpoint, actions: seq<Action>)
    ensures Fresh(e) && WindowOk(e, 0) && forall a <- actions :: Admissible(a)
    ensures Run(e, actions).sess.window == 50 && Run(e, actions).sess.dataSince == 300 && !Run(e, actions).sess.doomed
    ensures !AlwaysWithin(e, actions, 0)
  {
    hide Act, Run, AlwaysWithin, DataOf, Outstanding, Zeros, Announcement, Opened, Fresh, WindowOk, Add32;
    var a1, a2, a3 := Send(Zeros(200)), Resend(200, 1), Receive(Announcement(50), SERVICE);
    e := Opened(0, 0, 100);
    actions := [a1, a2, a3, a2];
    OpenedWindow(0, 0, 100);
    var e1, e2, e3 := ShrunkWindow(e);
    RunOfFour(e, a1, a2, a3, a2);
    OutsideAtThird(e, a1, a2, a3, a2, 0);
  }

  /** Outside the window after three steps. */
  lemma OutsideAtThird(e: Endpoint, a: Action, b: Action, c: Action, d: Action, n: nat)
    requires var e1 := Act(e, a).e; var e2 := Act(e1, b).e; var e3 := Act(e2, c).e;
             && !e.sess.doomed && !e1.sess.doomed && !e2.sess.doomed && !e3.sess.doomed
             && Outstanding(e2, c, Outstanding(e1, b, Outstanding(e, a, n))) > e3.sess.window
    ensures !AlwaysWithin(e, [a, b, c, d], n)
  {
    hide Act, AlwaysWithin, Outstanding;
    var e1 := Act(e, a).e;
    var e2 := Act(e1, b).e;
    var n1 := Outstanding(e, a, n);
    var n2 := Outstanding(e1, b, n1);
    OutsideLater(Act(e2, c).e, d, [], Outstanding(e2, c, n2));
    OutsideLater(e2, c, [d], n2);
    OutsideLater(e1, b, [c, d], n1);
    OutsideLater(e, a, [b, c, d], n);
    assert [d] + [] == [d] && [c] + [d] == [c, d] && [b] + [c, d] == [b, c, d] && [a] + [b, c, d] == [a, b, c, d];
  }

  lemma ShrunkWindow(e: Endpoint) returns (e1: Endpoint, e2: Endpoint, e3: Endpoint)
    requires e == Opened(0, 0, 100)
    ensures e1 == Act(e, Send(Zeros(200))).e && Outstanding(e, Send(Zeros(200)), 0) == 0
    ensures e2 == Act(e1, Resend(200, 1)).e && Outstanding(e1, Resend(200, 1), 0) == 100
    ensures var a := Receive(Announcement(50), SERVICE); e3 == Act(e2, a).e && Outstanding(e2, a, 100) == 100
    ensures !e.sess.doomed && !e1.sess.doomed && !e2.sess.doomed && !e3.sess.doomed && e3.sess.window == 50
    ensures var e4 := Act(e3, Resend(200, 1)).e; e4.sess.window == 50 && e4.sess.dataSince == 300 && !e4.sess.doomed
  {
    hide Act, DataOf;
    NothingSent();
    Accepting(e, Zeros(200));
    e1 := Act(e, Send(Zeros(200))).e;
    WholeBuffer(e1, 200);
    e2 := Act(e1, Resend(200, 1)).e;
    Announced(e2, 50);
    e3 := Act(e2, Receive(Announcement(50), SERVICE)).e;
    WholeBuffer(e3, 200);
  }

  lemma OpenedWindow(base: U32, theirs: U32, win: U16)
    ensures Fresh(Opened(base, theirs, win)) && WindowOk(Opened(base, theirs, win), 0)
  {
  }

  /** Outside the window now or after the next step is outside it on the run. */
  lemma OutsideLater(e: Endpoint, a: Action, rest: seq<Action>, n: nat)
    ensures !e.sess.doomed && (n > e.sess.window || !AlwaysWithin(Act(e, a).e, rest, Outstanding(e, a, n))) ==>
              !AlwaysWithin(e, [a] + rest, n)
  {
    hide Act;
    assert ([a] + rest)[1..] == rest;
  }

  lemma RunOfFour(e: Endpoint, a: Action, b: Action, c: Action, d: Action)
    ensures Run(e, [a, b, c, d]) == Act(Act(Act(Act(e, a).e, b).e, c).e, d).e
  {
    hide Act;
    assert [a, b, c, d][1..] == [b, c, d];
    RunOfThree(Act(e, a).e, b, c, d);
  }

  // ----- long buffers ----------------------------------------------------------------------------------

  /** With one byte more in a single call the buffer can exceed 2^32 bytes; what is left after an
      acknowledgement is then cut off by the int, and the buffer is not moved. */
  lemma LongSend(m: nat) returns (e: Endpoint, actions: seq<Action>)
    requires m > MAX_SEND
    ensures Fresh(e) && SendsAtMost(actions, m)
    ensures !Run(e, actions).sess.doomed && !StreamAccounted(Run(e, actions))
  {
    hide Act;
    e := Opened(0, 0, 100);
    var first, second := [1] + Zeros(BUFFER_LIMIT - 2), Zeros(MAX_SEND + 1);
    var g := Segment(false, true, false, false, 0, 1, OUR_WINDOW, true, []);
    var a1, a2, a3 := Send(first), Send(second), Receive(g, SERVICE);
    actions := [a1, a2, a3];
    Accepting(e, first);
    var e1 := Act(e, a1).e;
    AcceptingMore(e1, second);
    var e2 := Act(e1, a2).e;
    CutOff(e2, g);
    var e3 := Act(e2, a3).e;
    RunOfThree(e, a1, a2, a3);
    assert e3.accepted == first + second && e3.accepted[1] == 0 && e3.sess.unacked[0] == 1;
    Misplaced(e3);
  }

  lemma Misplaced(e: Endpoint)
    requires Acked(e) == 1 && 0 < e.sess.unackedSize <= |e.sess.unacked| && |e.accepted| > 1
    requires e.accepted[1] != e.sess.unacked[0]
    ensures !StreamAccounted(e)
  {
    assert (e.accepted[..1] + e.sess.unacked[..e.sess.unackedSize])[1] == e.sess.unacked[0];
  }

  lemma AcceptingMore(e: Endpoint, data: seq<Byte>)
    requires e.sess.state == Established && 0 < e.sess.unackedSize == |e.sess.unacked| < BUFFER_LIMIT
    ensures Act(e, Send(data)).e
         == e.(accepted := e.accepted + data,
               sess := e.sess.(unacked := e.sess.unacked + data, unackedSize := e.sess.unackedSize + |data|))
  {
    hide HandleSegment, PassFrom;
    assert e.sess.unacked[..|e.sess.unacked|] == e.sess.unacked;
  }

  lemma CutOff(e: Endpoint, g: Segment)
    requires e.sess.state == Established && e.sess.unackedSize == M32 + 1 && !e.sess.finFlag
    requires e.sess.mySeq == e.sess.unackedStart == 0 && !e.sess.doomed
    requires Plain(g) && g.ack && g.data == [] && g.ackTo == 1
    ensures var e' := Act(e, Receive(g, SERVICE)).e;
            && !e'.sess.doomed && e'.sess.unacked == e.sess.unacked && e'.sess.unackedSize == M32
            && e'.accepted == e.accepted && e'.base == e.base
  {
    hide Progress, Add32, AsInt32, MovedDown;
    AsInt32Exact(1);
    CutToNothing();
  }

  lemma CutToNothing()
    ensures AsInt32(M32) == 0 && M32 % M64 == M32
  {
  }

  lemma RunOfThree(e: Endpoint, a: Action, b: Action, c: Action)
    ensures Run(e, [a, b, c]) == Act(Act(Act(e, a).e, b).e, c).e
  {
    hide Act;
    var e1 := Act(e, a).e;
    var e2 := Act(e1, b).e;
    assert [a, b, c][1..] == [b, c] && [b, c][1..] == [c] && [c][1..] == [];
    assert Run(e2, [c]) == Act(e2, c).e;
    assert Run(e1, [b, c]) == Run(e2, [c]);
  }

  predicate SendsAtMost(actions: seq<Action>, m: nat) {
    forall a <- actions :: a.Send? ==> |a.data| <= m
  }

  ghost predicate AlwaysAccounted(m: nat) {
    forall e: Endpoint, actions: seq<Action> | Fresh(e) && SendsAtMost(actions, m) ::
      Run(e, actions).sess.doomed || StreamAccounted(Run(e, actions))
  }

  /** The stream ledger holds on all runs if and only if no call of send_data takes more than 2^32 - 2^20 + 1
      bytes. */
  lemma LedgerIff(m: nat)
    ensures AlwaysAccounted(m) <==> m <= 0xFFF0_0001
  {
    hide Run, StreamAccounted, Fresh;
    if m <= MAX_SEND {
      forall e: Endpoint, actions: seq<Action> | Fresh(e) && SendsAtMost(actions, m)
        ensures Run(e, actions).sess.doomed || StreamAccounted(Run(e, actions))
      {
        StreamLedger(e, actions);
      }
    } else {
      var e, actions := LongSend(m);
    }
  }

  // ----- sequence numbers that wrap ----------------------------------------------------------------------

  /** The acknowledgement sent for an out-of-order segment covers delivered bytes only, except when
      the segment lies ahead of what is expected and its number is the smaller one. */
  lemma OutOfOrderAckExact(x: Endpoint, y: Endpoint, g: Segment)
    requires x.delivered <= y.accepted && |y.accepted| < M32
    requires DataInPlace(y, g) && g.data != []
    requires g.seqNr != Add32(y.base, |x.delivered|)
    ensures var t := Add32(y.base, |x.delivered|);
            Sub32(if g.seqNr > t then t else g.seqNr, y.base) <= |x.delivered| <==>
              !(Sub32(g.seqNr, y.base) > |x.delivered| && g.seqNr < t)
  {
    Sub32OfAdd32(y.base, |x.delivered|);
  }

  /** The sender after `data` was sent and acknowledged byte by byte, and the receiver of it. */
  predicate SenderAt(e: Endpoint, base: U32, data: seq<Byte>) {
    && e.base == base && e.accepted == data && e.delivered == [] && Idle(e.sess) && e.sess.state == Established
    && e.sess.mySeq == Add32(base, |data|) && e.sess.theirSeq == 0
    && e.sess.dataSince == 0 && e.sess.window == OUR_WINDOW && !e.sess.finAfter && !e.sess.doomed
  }

  predicate ReceiverAt(e: Endpoint, base: U32, data: seq<Byte>) {
    && e.base == 0 && e.accepted == [] && e.delivered == data && Idle(e.sess) && e.sess.mySeq == 0
    && e.sess.theirSeq == Add32(base, |data|) && e.sess.state == Established
  }

  /** The first segment of a stream sent byte by byte. */
  function FirstOf(base: U32, x: Byte): Segment {
    Segment(false, true, false, false, base, 0, OUR_WINDOW, true, [x])
  }

  predicate Between(t: System, base: U32, data: seq<Byte>) {
    SenderAt(t.a, base, data) && ReceiverAt(t.b, base, data) && (data != [] ==> FirstOf(base, data[0]) in t.ab)
  }

  /** One byte more, sent, delivered and acknowledged. */
  lemma OneRound(s: System, events: seq<Event>, t: System, base: U32, data: seq<Byte>, x: Byte)
    returns (events': seq<Event>, t': System)
    requires Reaches(s, events, t) && Between(t, base, data)
    ensures Reaches(s, events', t') && Between(t', base, data + [x])
  {
    hide Act, Reaches, Add32, Displaced;
    var v1 := Event(true, Send([x]));
    var t1 := SendRound(s, events, t, base, data, [x]);
    PassOfOne(t1.a);
    InPlace(t1.a, 1);
    var v2 := Event(true, Resend(1, 1));
    var t2 := Step(t1, v2);
    Extend(s, events + [v1], t1, v2);
    var d := DataSegment(t1.a.sess, 0, 1);
    assert d in Act(t1.a, Resend(1, 1)).sent;
    NoNumber(base);
    var v3 := Event(false, Receive(d, SERVICE));
    var t3 := Step(t2, v3);
    Delivery(t2.b, d);
    Extend(s, events + [v1] + [v2], t2, v3);
    var f := Act(t2.b, Receive(d, SERVICE)).sent[0];
    assert f in t3.ba;
    var v4 := Event(true, Receive(f, SERVICE));
    t' := Step(t3, v4);
    Settled(t3.a, f);
    Add32Add32(base, |data|, 1);
    Extend(s, events + [v1] + [v2] + [v3], t3, v4);
    events' := events + [v1] + [v2] + [v3] + [v4];
  }

  lemma SendRound(s: System, events: seq<Event>, t: System, base: U32, before: seq<Byte>, data: seq<Byte>) returns (t1: System)
    requires Reaches(s, events, t) && Between(t, base, before)
    ensures Reaches(s, events + [Event(true, Send(data))], t1)
    ensures t1 == t.(a := t.a.(accepted := t.a.accepted + data,
                     sess := t.a.sess.(unacked := data, unackedSize := |data|, unackedStart := t.a.sess.mySeq)))
  {
    hide Act, Reaches, Add32;
    var v1 := Event(true, Send(data));
    Accepting(t.a, data);
    t1 := Step(t, v1);
    assert t.ab + (set g | g in Act(t.a, Send(data)).sent) == t.ab;
    Extend(s, events, t, v1);
  }

  /** Any bytes, from any base: there is a run that delivers and acknowledges them all. */
  lemma {:induction false} Rounds(base: U32, data: seq<Byte>) returns (s: System, events: seq<Event>, t: System)
    ensures Start(s) && s.a.base == base && Reaches(s, events, t) && Between(t, base, data)
    decreases |data|
  {
    hide Reaches;
    if data == [] {
      s, events := System(Opened(base, 0, OUR_WINDOW), Opened(0, base, OUR_WINDOW), {}, {}), [];
      t := s;
      Nothing(s);
    } else {
      hide Between;
      var n := |data| - 1;
      var before: seq<Event>;
      var t0: System;
      s, before, t0 := Rounds(base, data[..n]);
      events, t := OneRound(s, before, t0, base, data[..n], data[n]);
      assert data == data[..n] + [data[n]];
    }
  }

  /** Any stream can be transferred to its end: there is a run on which a accepts the bytes, b is handed all of
      them and acknowledges them, a closes and b answers. */
  lemma StreamCompletes(base: U32, data: seq<Byte>) returns (s: System, events: seq<Event>, t: System)
    ensures Start(s) && s.a.base == base && Reaches(s, events, t)
    ensures t.a.accepted == t.b.delivered == data && Acked(t.a) == |data|
    ensures t.a.sess.state == FinWait1 && t.b.sess.state == FinWait2 && t.b.sess.doomed
    ensures exists f <- t.ba :: f.fin && f.ack && f.ackTo == t.a.sess.mySeq == Add32(base, |data| + 1)
  {
    hide Act, Reaches, Start, Add32;
    var before: seq<Event>;
    var t0: System;
    s, before, t0 := Rounds(base, data);
    var close := Event(true, Close);
    var t1 := Step(t0, close);
    var fin := Closing(t0.a);
    assert fin in Act(t0.a, Close).sent;
    Extend(s, before, t0, close);
    var ev := Event(false, Receive(fin, SERVICE));
    AnswerToFin(t1.b, fin);
    var f := AnswerSent(t1.b, fin);
    t := Step(t1, ev);
    Extend(s, before + [close], t1, ev);
    events := before + [close] + [ev];
    assert f in t.ba;
    Add32Add32(base, |data|, 1);
  }

  // ----- 2^32 bytes ------------------------------------------------------------------------------------

  predicate PrefixSafe(t: System) {
    t.a.delivered <= t.b.accepted && t.b.delivered <= t.a.accepted
  }

  /** After 2^32 bytes the first number is expected again, and a copy of the first segment is delivered. */
  lemma Replayed() returns (s: System, events: seq<Event>, t: System)
    ensures Start(s) && Reaches(s, events, t)
    ensures AtMost(t, M32) && !PrefixSafe(t)
    ensures SenderAt(t.a, 0, Zeros(M32)) && ReceiverAt(t.b, 0, Zeros(M32) + [0])
  {
    hide Act, Reaches;
    var before: seq<Event>;
    var t0: System;
    s, before, t0 := Rounds(0, Zeros(M32));
    assert Add32(0, M32) == 0;
    var d := FirstOf(0, 0);
    var ev := Event(false, Receive(d, SERVICE));
    Delivery(t0.b, d);
    t := Step(t0, ev);
    Extend(s, before, t0, ev);
    events := before + [ev];
    assert |t.b.delivered| == M32 + 1;
  }

  ghost predicate AlwaysPrefixSafe(n: nat) {
    forall s: System, events: seq<Event> | Start(s) && Harmless(s, events) && AtMost(Exec(s, events), n) ::
      PrefixSafe(Exec(s, events))
  }

  /** All harmless runs on which each direction accepts at most n bytes are prefix-safe if and only if
      n < 2^32. */
  lemma PrefixSafetyIff(n: nat)
    ensures AlwaysPrefixSafe(n) <==> n < M32
  {
    hide Exec, Start, Harmless, SenderAt, ReceiverAt;
    if n < M32 {
      forall s: System, events: seq<Event> | Start(s) && Harmless(s, events) && AtMost(Exec(s, events), n)
        ensures PrefixSafe(Exec(s, events))
      {
        PrefixSafety(s, events);
      }
    } else {
      var s, events, t := Replayed();
      assert AtMost(t, n);
    }
  }

  /** After that b counts one byte more than a sent, and answers a's second FIN. */
  lemma AnswersSecondFin() returns (s: System, events: seq<Event>, t: System)
    ensures Start(s) && Reaches(s, events, t) && AtMost(t, M32) && !Orderly(t)
  {
    hide Act, Reaches, Start;
    var before: seq<Event>;
    var t0: System;
    s, before, t0 := Replayed();
    assert Add32(0, M32) == 0 && Add32(0, M32 + 1) == 1 && Add32(0, 1) == 1;
    var close := Event(true, Close);
    var t1, t2 := Step(t0, close), Step(Step(t0, close), close);
    var first := Closing(t0.a);
    Extend(s, before, t0, close);
    var fin := Closing(t1.a);
    Extend(s, before + [close], t1, close);
    assert fin in Act(t1.a, Close).sent;
    var ev := Event(false, Receive(fin, SERVICE));
    AnswerToFin(t2.b, fin);
    t := Step(t2, ev);
    Extend(s, before + [close] + [close], t2, ev);
    events := before + [close] + [close] + [ev];
  }

  ghost predicate AlwaysOrderly(n: nat) {
    forall s: System, events: seq<Event> | Start(s) && Harmless(s, events) && AtMost(Exec(s, events), n) ::
      Orderly(Exec(s, events))
  }

  /** And every session in FIN_WAIT_2 has delivered its peer's whole stream if and only if n < 2^32. */
  lemma OrderlyEndIff(n: nat)
    ensures AlwaysOrderly(n) <==> n < M32
  {
    hide Exec, Start, Harmless, Orderly;
    if n < M32 {
      forall s: System, events: seq<Event> | Start(s) && Harmless(s, events) && AtMost(Exec(s, events), n)
        ensures Orderly(Exec(s, events))
      {
        OrderlyEnd(s, events);
      }
    } else {
      var s, events, t := AnswersSecondFin();
      assert AtMost(t, n);
    }
  }

  // ----- acknowledgements of wrapped numbers --------------------------------------------------------------

  lemma TwoPackets(e: Endpoint)
    requires e.sess.unacked == [0, 0] && e.sess.unackedSize == 2 && e.sess.dataSince + 2 <= e.sess.window
    ensures var o := Act(e, Resend(1, 2));
            && DataSegment(e.sess, 1, 1) in o.sent
            && o.e.accepted == e.accepted && o.e.base == e.base && o.e.delivered == e.delivered
  {
    BudgetOfPass(e.sess);
    assert PassFrom(e.sess, 1, 2, 1, 1) == [DataSegment(e.sess, 1, 1)];
    assert PassFrom(e.sess, 0, 2, 1, 2) == [DataSegment(e.sess, 0, 1)] + PassFrom(e.sess, 1, 2, 1, 1);
  }

  /** No data segment or pure acknowledgement of b covers a byte that b has not delivered. */
  predicate AckSafe(t: System) {
    forall g <- t.ba :: g.ack && !g.rst && !g.fin ==> Sub32(g.ackTo, t.a.base) <= |t.b.delivered|
  }

  /** When a's numbers wrap, a run acknowledges a byte that was never delivered: up to the wrap every byte is
      delivered but one, and the byte behind it arrives first. */
  lemma WrappedAck(base: U32, n: nat) returns (s: System, events: seq<Event>, t: System)
    requires base + n > M32 && n < M32
    ensures Start(s) && s.a.base == base && Reaches(s, events, t)
    ensures |t.a.accepted| <= n && t.b.accepted == [] && !AckSafe(t)
  {
    hide Act, Reaches, Add32, Sub32, Displaced;
    var k := M32 - 1 - base;
    var t0: System;
    s, events, t0 := Rounds(base, Zeros(k));
    var v1 := Event(true, Send([0, 0]));
    var t1 := SendRound(s, events, t0, base, Zeros(k), [0, 0]);
    TwoPackets(t1.a);
    InPlace(t1.a, 2);
    var v2 := Event(true, Resend(1, 2));
    var t2 := Step(t1, v2);
    Extend(s, events + [v1], t1, v2);
    var d := DataSegment(t1.a.sess, 1, 1);
    assert d in t2.ab;
    AtWrap(base, k);
    var v3 := Event(false, Receive(d, SERVICE));
    t := Step(t2, v3);
    SmallerNumberAcked(t2.b, d);
    Extend(s, events + [v1] + [v2], t2, v3);
    events := events + [v1] + [v2] + [v3];
    var f := Act(t2.b, Receive(d, SERVICE)).sent[0];
    assert f in t.ba;
  }

  lemma AtWrap(base: U32, k: nat)
    requires base + k == M32 - 1 && base > 0
    ensures Add32(base, k) == M32 - 1 && Add32(M32 - 1, 1) == 0 && Sub32(0, base) == k + 1
  {
  }

  ghost predicate AlwaysAckSafe(base: U32, n: nat) {
    forall s: System, events: seq<Event> | Start(s) && s.a.base == base && RunOk(s, events) && |Exec(s, events).a.accepted| <= n ::
      AckSafe(Exec(s, events))
  }

  /** For every base and every n below 2^32, all runs on which a accepts at most n bytes are ack-safe if and
      only if its numbers cannot wrap. */
  lemma AckSafetyIff(base: U32, n: nat)
    requires n < M32
    ensures AlwaysAckSafe(base, n) <==> base + n <= M32
  {
    hide Exec, Start, Harmless;
    if base + n <= M32 {
      forall s: System, events: seq<Event> | Start(s) && s.a.base == base && RunOk(s, events) && |Exec(s, events).a.accepted| <= n
        ensures AckSafe(Exec(s, events))
      {
        BaseKept(s, events);
        AckSafety(s, events);
      }
    } else {
      var s, events, t := WrappedAck(base, n);
    }
  }

  lemma {:induction false} BaseKept(s: System, events: seq<Event>)
    ensures Exec(s, events).a.base == s.a.base && Exec(s, events).b.base == s.b.base
    decreases |events|
  {
    if events != [] {
      BaseStays(s.a, events[0].action);
      BaseStays(s.b, events[0].action);
      hide Act;
      BaseKept(Step(s, events[0]), events[1..]);
    }
  }
}
