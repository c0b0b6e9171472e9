/** How sessions begin: the handshake, and what layer 7 is told of it. */
module TcpOpening {
  import opened Bytes
  import opened TcpModel
  import opened TcpLedger
  import opened TcpLifecycle
  import opened TcpNetwork

  // ----- the three segments -----------------------------------------------------------------------------

  predicate Untouched(e: Endpoint) {
    && e.sess.unacked == [] && e.sess.unackedSize == 0 && e.accepted == [] && e.delivered == []
    && !e.sess.finAfter && !e.sess.finFlag && !e.sess.doomed && e.newSessions == 0
  }

  /** A client behind its SYN, whose number was one less than the base of its stream. */
  predicate Connecting(c: Endpoint, syn: Segment) {
    && Untouched(c) && c.sess.state == SynSent && c.sess.mySeq == c.base == Add32(syn.seqNr, 1)
    && syn.syn && !syn.ack && !syn.fin && !syn.rst && syn.headerFits && syn.data == []
  }

  /** The session a server makes for that SYN; its own SYN will take one number. */
  predicate Listening(v: Endpoint, syn: Segment) {
    && Untouched(v) && v.sess.state == Listen && v.sess.theirSeq == Add32(syn.seqNr, 1)
    && v.base == Add32(v.sess.mySeq, 1)
  }

  predicate Welcoming(l7: Layer7) {
    l7.listening && l7.takesSession
  }

  /** The server answers with SYN and ACK. */
  lemma Answered(v: Endpoint, syn: Segment, l7: Layer7)
    requires syn.syn && !syn.ack && !syn.fin && !syn.rst && syn.headerFits && syn.data == [] && Listening(v, syn)
    ensures Act(v, Receive(syn, l7))
         == Outcome(v.(sess := v.sess.(state := SynRcvd, mySeq := v.base, window := if syn.win < 1 then 1 else syn.win)),
                    [Segment(true, true, false, false, v.sess.mySeq, v.sess.theirSeq, OUR_WINDOW, true, [])])
  {
    hide Add32, Progress;
    assert v.delivered + [] == v.delivered;
  }

  /** Any SYN, the first or a repeated one, is answered with SYN and ACK as long as the session is not established. */
  lemma SynAnswered(s: Session, g: Segment, l7: Layer7)
    requires s.state in {Listen, SynRcvd} && g.headerFits && g.syn && !(g.rst && s.state == SynRcvd)
    ensures var h := HandleSegment(s, g, l7);
            && h.sent != [] && h.sent[0].syn && h.sent[0].ack && h.sent[0].seqNr == s.mySeq && h.sent[0].ackTo == s.theirSeq
  {
    hide Add32, HandleAck, HandleFin, AnswerFin, HandlePayload;
    var h2 := HandleSyn(HandleRst(Begin(s, g), g), g);
    assert |h2.sent| == 1;
    HandledInStages(s, g, l7);
  }

  /** The client takes the server's number and acknowledges. */
  lemma Connected(c: Endpoint, g: Segment, l7: Layer7)
    requires Untouched(c) && c.sess.state == SynSent
    requires g.syn && g.ack && !g.fin && !g.rst && g.headerFits && g.data == []
    ensures var t := Add32(g.seqNr, 1);
            Act(c, Receive(g, l7))
            == Outcome(c.(sess := c.sess.(state := Established, theirSeq := t, dataSince := 0,
                                          window := if g.win < 1 then 1 else g.win)),
                       [Segment(false, true, false, false, c.sess.mySeq, t, OUR_WINDOW, true, [])])
  {
    hide Add32, Progress;
    NoNumber(c.sess.mySeq);
    assert c.delivered + [] == c.delivered;
  }

  /** The server is established and layer 7 told of it. */
  lemma Accepted(v: Endpoint, g: Segment, l7: Layer7)
    requires v.sess.state == SynRcvd && !v.sess.finFlag && !v.sess.doomed && Welcoming(l7)
    requires g.ack && !g.syn && !g.fin && !g.rst && g.headerFits && g.data == []
    ensures Act(v, Receive(g, l7))
         == Outcome(v.(newSessions := v.newSessions + 1,
                       sess := v.sess.(state := Established, dataSince := 0, window := if g.win < 1 then 1 else g.win)), [])
  {
    hide Add32, Progress;
    assert v.delivered + [] == v.delivered;
  }

  /** A session that nobody listens for, or that layer 7 does not take, is refused with a RST and marked. */
  lemma SessionRefused(s: Session, g: Segment, l7: Layer7)
    requires s.state == SynRcvd && !s.finFlag && !Welcoming(l7)
    requires g.ack && !g.syn && !g.fin && !g.rst && g.headerFits && g.data == []
    ensures var h := HandleSegment(s, g, l7); h.s.doomed && EndsInRst(h.sent)
  {
    hide Add32, Progress;
  }

  /** A client's SYN, the server's answer and the client's acknowledgement leave both sides where the theorems
      about two endpoints begin: established, agreeing on each other's base, and the server's layer 7 told once. */
  lemma HandshakeStarts(c: Endpoint, syn: Segment, v: Endpoint, l7: Layer7)
    requires Connecting(c, syn) && Listening(v, syn) && Welcoming(l7)
    ensures var o1 := Act(v, Receive(syn, l7));
            && |o1.sent| == 1 && o1.sent[0].syn && o1.sent[0].ack
            && var o2 := Act(c, Receive(o1.sent[0], l7));
            && |o2.sent| == 1 && o2.sent[0].ack && !o2.sent[0].syn
            && var o3 := Act(o1.e, Receive(o2.sent[0], l7));
               Start(System(o2.e, o3.e, {}, {})) && o3.sent == [] && o3.e.newSessions == 1 && o2.e.newSessions == 0
  {
    hide Act, Add32;
    Answered(v, syn, l7);
    var o1 := Act(v, Receive(syn, l7));
    Connected(c, o1.sent[0], l7);
    var o2 := Act(c, Receive(o1.sent[0], l7));
    Accepted(o1.e, o2.sent[0], l7);
  }

  // ----- what layer 7 is told on every run ------------------------------------------------------------------

  predicate Before(state: TcpState) {
    state == Listen || state == SynRcvd
  }

  /** A server's session: layer 7 is told of it when it becomes established, not before and not again. */
  predicate ServerTold(e: Endpoint) {
    && e.sess.state != SynSent
    && (Before(e.sess.state) ==> e.newSessions == 0)
    && (e.sess.state == Established ==> e.sess.doomed || e.newSessions == 1)
  }

  /** A client's session: layer 7 made it and is told nothing. */
  predicate ClientTold(e: Endpoint) {
    !Before(e.sess.state) && e.newSessions == 0
  }

  /** From state to state while `h` becomes `h'`. */
  predicate Telling(h: Handling, h': Handling) {
    && (h.fail ==> h'.fail) && (h.erase ==> h'.erase)
    && (h.s.state == SynSent || h'.s.state != SynSent)
    && (Before(h.s.state) && Before(h'.s.state) ==> h'.newSessions == h.newSessions)
    && (Before(h.s.state) && h'.s.state == Established ==> h'.fail || h'.erase || h'.newSessions == h.newSessions + 1)
    && (!Before(h.s.state) ==> !Before(h'.s.state) && h'.newSessions == h.newSessions)
    && (h.s.state.Past() ==> h'.s.state.Past())
  }

  lemma TellingAck(h: Handling, g: Segment, l7: Layer7)
    requires Alive(h.s)
    ensures Telling(h, HandleAck(h, g, l7)) && Alive(HandleAck(h, g, l7).s)
  {
    hide Add32, MovedDown, AsInt32;
  }

  lemma TellingRest(h: Handling, g: Segment, l7: Layer7)
    requires Alive(h.s)
    ensures var h' := Finish(HandleFail(HandlePayload(AnswerFin(HandleFin(h, g)), g, l7), g));
            && h'.newSessions == h.newSessions && (h'.s.state == h.s.state || (!Before(h.s.state) && h'.s.state.Past()))
            && (h.fail ==> h'.fail) && (h.erase ==> h'.erase)
  {
    hide Add32, Progress, HandlePayload;
    PayloadKeeps(AnswerFin(HandleFin(h, g)), g, l7);
  }

  lemma SegmentTells(s: Session, g: Segment, l7: Layer7)
    requires Alive(s)
    ensures Telling(Begin(s, g).(fail := false), HandleSegment(s, g, l7))
  {
    hide HandleAck, HandleFin, AnswerFin, HandlePayload, HandleFail, Finish, Progress;
    var h0 := Begin(s, g);
    if g.headerFits {
      var h2 := HandleSyn(HandleRst(h0, g), g);
      SynKeepsLife(h0, g);
      TellingAck(h2, g, l7);
      TellingRest(HandleAck(h2, g, l7), g, l7);
    } else {
      TellingBadHeader(h0, g, l7);
    }
  }

  lemma TellingBadHeader(h: Handling, g: Segment, l7: Layer7)
    requires h.fail
    ensures var h' := Finish(HandleFail(HandlePayload(h, g, l7), g));
            h'.newSessions == h.newSessions && h'.s.state == h.s.state && h'.fail && h'.erase
  {
  }

  lemma StepTells(e: Endpoint, a: Action)
    requires LifeOk(e)
    ensures ServerTold(e) ==> ServerTold(Act(e, a).e)
    ensures ClientTold(e) ==> ClientTold(Act(e, a).e)
  {
    hide HandleSegment, PassFrom;
    if a.Receive? {
      SegmentTells(e.sess, a.g, a.l7);
      HandlingKeepsLife(e.sess, a.g, a.l7);
    }
  }

  lemma {:induction false} RunTells(e: Endpoint, actions: seq<Action>)
    requires LifeOk(e)
    ensures ServerTold(e) ==> ServerTold(Run(e, actions))
    ensures ClientTold(e) ==> ClientTold(Run(e, actions))
    decreases |actions|
  {
    hide Act, LifeOk, ServerTold, ClientTold;
    if actions != [] {
      StepTells(e, actions[0]);
      StepKeepsLife(e, actions[0]);
      RunTells(Act(e, actions[0]).e, actions[1..]);
    }
  }

  /** On every run from creation layer 7 of a server has been told of a session that is established and not marked
      exactly once, and of one that is not yet established never; a client's never. */
  lemma ToldOnce(e: Endpoint, actions: seq<Action>)
    requires Created(e)
    ensures var m := Run(e, actions);
            if e.sess.state == Listen
            then (m.sess.state == Established && !m.sess.doomed ==> m.newSessions == 1)
                 && (m.sess.state in {Listen, SynRcvd} ==> m.newSessions == 0)
            else m.newSessions == 0
  {
    hide Run;
    RunTells(e, actions);
  }
}
