/** One endpoint against an arbitrary peer: the life of a session, and its closing. */
module TcpLifecycle {
  import opened Bytes
  import opened TcpModel
  import opened TcpLedger

  // ----- states are left for good ------------------------------------------------------------------

  /** A server session at the SYN that creates it, and a client session at its first SYN. */
  predicate Created(e: Endpoint) {
    (e.sess.state == Listen || e.sess.state == SynSent) && !e.sess.finFlag && e.newSessions == 0
  }

  predicate Alive(s: Session) {
    && s.state in {Listen, SynRcvd, SynSent, Established, FinWait1, FinWait2, Closing}
    && (s.finFlag ==> s.state.Past())
  }

  predicate LifeOk(e: Endpoint) {
    && Alive(e.sess)
    && e.newSessions <= 1
    && (e.newSessions == 1 ==> e.sess.state.Rank() >= Established.Rank())
  }

  /** new_session is called only when the session becomes established. */
  predicate OneCall(h: Handling, h': Handling) {
    && Alive(h'.s)
    && h'.newSessions <= h.newSessions + 1
    && (h'.newSessions > h.newSessions ==>
          h.s.state.Rank() < Established.Rank() <= h'.s.state.Rank())
  }

  lemma SynKeepsLife(h: Handling, g: Segment)
    requires Alive(h.s)
    ensures var h' := HandleSyn(HandleRst(h, g), g); Alive(h'.s) && h'.newSessions == h.newSessions
    ensures HandleSyn(HandleRst(h, g), g).s.state.Rank() < Established.Rank() ==>
              h.s.state.Rank() < Established.Rank()
  {
  }

  lemma AckKeepsLife(h: Handling, g: Segment, l7: Layer7)
    requires Alive(h.s)
    ensures OneCall(h, HandleAck(h, g, l7))
  {
  }

  lemma FinKeepsLife(h: Handling, g: Segment)
    requires Alive(h.s)
    ensures var h' := AnswerFin(HandleFin(h, g)); Alive(h'.s) && h'.newSessions == h.newSessions
  {
  }

  /** The data stage moves only the receiving side on, and sends no FIN. */
  lemma PayloadKeeps(h: Handling, g: Segment, l7: Layer7)
    ensures var h' := HandlePayload(h, g, l7);
            && h'.s == h.s.(theirSeq := h'.s.theirSeq) && h'.erase == h.erase && (h.fail ==> h'.fail)
            && h'.newSessions == h.newSessions && |h'.sent| <= |h.sent| + 1
            && forall f <- h'.sent :: f in h.sent || (!f.fin && f.data == [])
  {
    hide Add32, Progress, Emit;
    if g.seqNr == h.s.theirSeq {
      var s := h.s.(theirSeq := Add32(h.s.theirSeq, |g.data|));
      var d := h.delivered + (if l7.listening then g.data else []);
      EmitPlain(h.(s := s, delivered := d, fail := false), s.theirSeq);
    } else {
      EmitPlain(h, if g.seqNr > h.s.theirSeq then h.s.theirSeq else g.seqNr);
    }
  }

  /** A bare acknowledgement takes no sequence number. */
  lemma EmitPlain(h: Handling, ackTo: U32)
    ensures Emit(h, false, false, ackTo) == h.(sent := h.sent + [Bare(h.s, false, true, false, ackTo)])
  {
    hide Add32;
    NoNumber(h.s.mySeq);
  }

  lemma PayloadKeepsLife(h: Handling, g: Segment, l7: Layer7)
    requires Alive(h.s)
    ensures var h' := Finish(HandleFail(HandlePayload(h, g, l7), g));
            Alive(h'.s) && h'.newSessions == h.newSessions
  {
    hide Add32, HandlePayload, Progress;
    PayloadKeeps(h, g, l7);
  }

  lemma HandlingKeepsLife(s: Session, g: Segment, l7: Layer7)
    requires Alive(s)
    ensures OneCall(Begin(s, g), HandleSegment(s, g, l7))
  {
    hide HandleRst, HandleSyn, HandleAck, HandleFin, AnswerFin, HandlePayload, HandleFail, Finish;
    var h0 := Begin(s, g);
    if h0.fail {
      PayloadKeepsLife(h0, g, l7);
    } else {
      var h2 := HandleSyn(HandleRst(h0, g), g);
      SynKeepsLife(h0, g);
      AckKeepsLife(h2, g, l7);
      FinKeepsLife(HandleAck(h2, g, l7), g);
      PayloadKeepsLife(HandleControl(h0, g, l7), g, l7);
    }
  }

  lemma StepKeepsLife(e: Endpoint, a: Action)
    requires LifeOk(e)
    ensures LifeOk(Act(e, a).e)
    ensures e.Past() ==> Act(e, a).e.Past()
  {
    hide HandleSegment, PassFrom;
    if a.Receive? {
      HandlingKeepsLife(e.sess, a.g, a.l7);
    }
  }

  /** Once a session has passed the established state it never returns to it, on any run. */
  lemma {:induction false} NeverReestablished(e: Endpoint, actions: seq<Action>)
    requires LifeOk(e) && e.Past()
    ensures Run(e, actions).Past()
    decreases |actions|
  {
    if actions != [] {
      StepKeepsLife(e, actions[0]);
      NeverReestablished(Act(e, actions[0]).e, actions[1..]);
    }
  }

  lemma {:induction false} RunKeepsLife(e: Endpoint, actions: seq<Action>)
    requires LifeOk(e)
    ensures LifeOk(Run(e, actions))
    decreases |actions|
  {
    if actions != [] {
      StepKeepsLife(e, actions[0]);
      RunKeepsLife(Act(e, actions[0]).e, actions[1..]);
    }
  }

  /** From its creation on, whatever arrives and whatever the application does, a session never
      enters LAST_ACK and layer 7 is told of it at most once. */
  lemma LifeOfSession(e: Endpoint, actions: seq<Action>)
    requires Created(e)
    ensures Run(e, actions).sess.state != LastAck
    ensures Run(e, actions).newSessions <= 1
  {
    RunKeepsLife(e, actions);
  }

  /** After the established state nothing is accepted any more. */
  lemma {:induction false} NothingAcceptedLater(e: Endpoint, actions: seq<Action>)
    requires LifeOk(e) && e.Past()
    ensures Run(e, actions).accepted == e.accepted
    decreases |actions|
  {
    if actions != [] {
      StepKeepsLife(e, actions[0]);
      NothingAcceptedLater(Act(e, actions[0]).e, actions[1..]);
    }
  }

  // ----- the first FIN -----------------------------------------------------------------------------

  /** A FIN that comes after every accepted byte was acknowledged, numbered after the last byte. */
  predicate CompleteFin(e: Endpoint, g: Segment) {
    Acked(e) == |e.accepted| && g.seqNr == Add32(e.base, |e.accepted|)
  }

  /** What the buffer holds after the acknowledgement of a segment; only an established session takes it. */
  function LeftAfter(s: Session, g: Segment): nat {
    var ackN := AsInt32(g.ackTo - s.unackedStart);
    if s.state == Established && g.ack && ackN > 0 && s.unackedSize > 0 then (s.unackedSize - ackN) % M64
    else s.unackedSize
  }

  /** The handler comes to answer a FIN: an established session one that `g` carries at the expected number, any
      other one that was recorded and is due. */
  predicate AnswersFin(s: Session, g: Segment) {
    if s.state == Established then g.fin && g.seqNr == s.theirSeq else s.finFlag && s.finSeq == s.theirSeq
  }

  /** The step answers a FIN while bytes are still outstanding. */
  predicate AnswersEarly(e: Endpoint, a: Action) {
    a.Receive? && AnswersFin(e.sess, a.g) && LeftAfter(e.sess, a.g) > 0
  }

  /** Until its first FIN a session, in every state, counts the buffer from my_seq_nr to the end of the stream. */
  predicate Unclosed(s: Session, base: U32, total: nat) {
    Numbers(s, base, total) && Add32(s.mySeq, s.unackedSize) == Add32(base, total)
  }

  /** While `s` handles `g`: a FIN carries the number of the first byte that is left, or of the end of the stream,
      and bytes are left only if it is an answer; as long as none is sent, the count goes on. */
  predicate FinsAt(h: Handling, s: Session, g: Segment, base: U32, total: nat) {
    && (forall f <- h.sent :: f.fin ==>
          && h.s.state.Past() && h.s.unackedSize == LeftAfter(s, g)
          && Add32(f.seqNr, LeftAfter(s, g)) == Add32(base, total)
          && (LeftAfter(s, g) > 0 ==> AnswersFin(s, g)))
    && ((forall f <- h.sent :: !f.fin) ==> Unclosed(h.s, base, total))
  }

  /** What the acknowledgement stage leaves for the FIN stage. */
  predicate AckStage(h: Handling, s: Session, g: Segment) {
    && h.s.finFlag == s.finFlag && h.s.finSeq == s.finSeq && h.s.theirSeq == s.theirSeq
    && (s.state.Past() ==> h.s.state.Past() && h.sent == [] && h.s.unackedSize == LeftAfter(s, g))
    && (h.s.state == Established ==> h.sent == [] && h.s.unackedSize == LeftAfter(s, g))
  }

  lemma AckDataFin(h: Handling, g: Segment, s: Session, base: U32, total: nat)
    requires h.sent == [] && Unclosed(h.s, base, total) && !h.erase && !s.finFlag
    requires h.s == s.(window := h.s.window) && s.state == Established && g.ack
    ensures var h' := AckData(h, g); FinsAt(h', s, g, base, total) && AckStage(h', s, g)
  {
    hide Add32, Progress, MovedDown, AsInt32, AnswersFin;
    var ackN := AsInt32(g.ackTo - h.s.unackedStart);
    if ackN > 0 && h.s.unackedSize > 0 {
      DroppedKeepsNumbers(h.s, ackN, AsInt32(h.s.unackedSize - ackN), base, total);
    }
  }

  lemma AckFin(h: Handling, g: Segment, l7: Layer7, s: Session, base: U32, total: nat)
    requires h.sent == [] && Unclosed(h.s, base, total) && Alive(s)
    requires h.s == s.(window := h.s.window, state := h.s.state)
    requires if h.erase then h.s.state == Closing else h.s.state == s.state
    ensures var h' := HandleAck(h, g, l7); FinsAt(h', s, g, base, total) && AckStage(h', s, g)
  {
    hide Add32, Progress, AckData, AnswersFin, AsInt32;
    if g.ack && !h.erase && h.s.state == Established {
      AckDataFin(h, g, s, base, total);
    }
  }

  lemma AnswerFinAt(h: Handling, g: Segment, s: Session, base: U32, total: nat)
    requires FinsAt(h, s, g, base, total) && AckStage(h, s, g) && Alive(s) && s.state.Rank() >= Established.Rank()
    ensures FinsAt(AnswerFin(HandleFin(h, g)), s, g, base, total)
  {
    hide Add32, Progress, LeftAfter;
  }

  lemma RestFin(h: Handling, g: Segment, l7: Layer7, s: Session, base: U32, total: nat)
    requires FinsAt(h, s, g, base, total)
    ensures FinsAt(Finish(HandleFail(HandlePayload(h, g, l7), g)), s, g, base, total)
  {
    hide Add32, HandlePayload, LeftAfter, AnswersFin;
    PayloadKeeps(h, g, l7);
  }

  lemma ReceiveFin(s: Session, g: Segment, l7: Layer7, base: U32, total: nat)
    requires Unclosed(s, base, total) && Alive(s)
    ensures FinsAt(HandleSegment(s, g, l7), s, g, base, total)
  {
    hide HandleAck, HandleFin, AnswerFin, HandlePayload, HandleFail, Finish, LeftAfter, Add32, AnswersFin, AckStage;
    var h0 := Begin(s, g);
    if h0.fail {
      RestFin(h0, g, l7, s, base, total);
    } else {
      var h2 := HandleSyn(HandleRst(h0, g), g);
      AckFin(h2, g, l7, s, base, total);
      AnswerFinAt(HandleAck(h2, g, l7), g, s, base, total);
      RestFin(HandleControl(h0, g, l7), g, l7, s, base, total);
    }
  }

  /** A FIN that a session sends as its first. */
  predicate FinExact(m: Endpoint, a: Action, e': Endpoint, g: Segment) {
    && e'.Past()
    && (CompleteFin(e', g) <==> !AnswersEarly(m, a))
    && Add32(g.seqNr, e'.sess.unackedSize) == Add32(e'.base, |e'.accepted|)
  }

  /** A step keeps the count, or sends a first FIN. */
  lemma FinStep(m: Endpoint, a: Action)
    requires Unclosed(m.sess, m.base, |m.accepted|) && Alive(m.sess)
    ensures var o := Act(m, a);
            && ((forall f <- o.sent :: !f.fin) ==> Unclosed(o.e.sess, o.e.base, |o.e.accepted|))
            && (forall f <- o.sent :: f.fin ==> FinExact(m, a, o.e, f))
  {
    hide HandleSegment, PassFrom, LeftAfter, Add32, AnswersFin;
    StepKeepsNumbers(m, a);
    NoNumber(m.sess.mySeq);
    match a
    case Receive(g, l7) =>
      ReceiveFin(m.sess, g, l7, m.base, |m.accepted|);
      forall f | f in Act(m, a).sent && f.fin
        ensures FinExact(m, a, Act(m, a).e, f)
      {
        NoNumber(f.seqNr);
      }
    case Resend(packetSize, budget) =>
      if packetSize > 0 && InBounds(m.sess) {
        ToSendInBuffer(m.sess);
        NoFinInPass(m.sess, 0, ToSend(m.sess), packetSize, budget);
      }
    case _ =>
  }

  lemma NoFinInPass(s: Session, i: nat, toSend: int, packetSize: nat, budget: nat)
    requires packetSize > 0 && toSend <= |s.unacked|
    ensures forall g <- PassFrom(s, i, toSend, packetSize, budget) :: !g.fin
    decreases budget
  {
  }

  /** No step of the run sends a FIN. */
  predicate NoFinSent(e: Endpoint, actions: seq<Action>)
    decreases |actions|
  {
    actions == [] || ((forall f <- Act(e, actions[0]).sent :: !f.fin) && NoFinSent(Act(e, actions[0]).e, actions[1..]))
  }

  lemma {:induction false} RunUnclosed(e: Endpoint, actions: seq<Action>)
    requires Unclosed(e.sess, e.base, |e.accepted|) && LifeOk(e) && NoFinSent(e, actions)
    ensures var m := Run(e, actions); Unclosed(m.sess, m.base, |m.accepted|) && LifeOk(m)
    decreases |actions|
  {
    hide Act, Unclosed, FinExact;
    if actions != [] {
      FinStep(e, actions[0]);
      StepKeepsLife(e, actions[0]);
      RunUnclosed(Act(e, actions[0]).e, actions[1..]);
    }
  }

  /** The first FIN of a session, on every run, in whatever state, whoever closes and however: it leaves after
      every accepted byte is acknowledged and carries the number after the last byte, if and only if it does not
      answer the peer's FIN with bytes still outstanding, whose number it carries otherwise. Nothing is accepted
      afterwards. */
  lemma FirstFinIff(e: Endpoint, actions: seq<Action>, a: Action, g: Segment, later: seq<Action>)
    requires Fresh(e) && NoFinSent(e, actions)
    ensures var m := Run(e, actions);
            var e' := Act(m, a).e;
            g in Act(m, a).sent && g.fin ==>
              && e'.Past()
              && (CompleteFin(e', g) <==> !AnswersEarly(m, a))
              && Add32(g.seqNr, e'.sess.unackedSize) == Add32(e'.base, |e'.accepted|)
              && Run(e', later).accepted == e'.accepted
  {
    hide Act, Run, LifeOk, Unclosed, CompleteFin, AnswersEarly, NoFinSent, Fresh;
    var m := Run(e, actions);
    FreshStarts(e);
    FreshUnclosed(e);
    RunUnclosed(e, actions);
    LifeIsAlive(m);
    FinStep(m, a);
    if g in Act(m, a).sent && g.fin {
      StepKeepsLife(m, a);
      NothingAcceptedLater(Act(m, a).e, later);
    }
  }

  lemma FreshUnclosed(e: Endpoint)
    requires Fresh(e)
    ensures Unclosed(e.sess, e.base, |e.accepted|)
  {
  }

  /** A session in LAST_ACK, were there one, would end with the next acknowledgement. */
  lemma LastAckEnds(s: Session, g: Segment, l7: Layer7)
    requires s.state == LastAck && !s.finFlag && g.ack && !g.rst && g.headerFits
    ensures var h := HandleSegment(s, g, l7); h.s.doomed && h.s.state == Listen
  {
    hide Add32, Progress, HandlePayload;
    var h := HandleControl(Begin(s, g), g, l7);
    PayloadKeeps(h, g, l7);
  }

  // ----- which steps send a FIN --------------------------------------------------------------------

  /** The step closes of the session's own accord: end_session with an empty buffer, or the acknowledgement that
      empties it under a deferred close. */
  predicate ClosesNow(s: Session, a: Action) {
    match a
    case Close => s.unackedSize == 0
    case Receive(g, _) =>
      s.state == Established && s.finAfter && s.unackedSize > 0 && g.headerFits && !g.rst && LeftAfter(s, g) == 0
    case _ => false
  }

  /** The step answers the peer's FIN. */
  predicate AnswersNow(s: Session, a: Action) {
    && a.Receive? && a.g.headerFits && AnswersFin(s, a.g)
    && !(s.state == Established && (a.g.rst || ClosesNow(s, a)))
  }

  /** A deferred close waits for outstanding bytes, never longer. */
  predicate NotOverdue(s: Session) {
    s.state == Established && s.finAfter ==> s.unackedSize > 0
  }

  /** Exactly one FIN, the first of the segments, acknowledging `ackTo`. */
  predicate OneFin(gs: seq<Segment>, ackTo: U32) {
    gs != [] && gs[0].fin && gs[0].ackTo == ackTo && forall j | 0 < j < |gs| :: !gs[j].fin
  }

  predicate NoFin(gs: seq<Segment>) {
    forall j | 0 <= j < |gs| :: !gs[j].fin
  }

  /** What the FIN stage has come to, `a` being the step and `s` the session before it. */
  predicate FinStage(h: Handling, s: Session, a: Action)
    requires a.Receive?
  {
    if ClosesNow(s, a) then OneFin(h.sent, s.theirSeq) && h.sent[0].ack && h.s.state == FinWait1 && !h.s.finFlag
    else if AnswersNow(s, a) then
      OneFin(h.sent, Add32(s.theirSeq, 1)) && h.sent[0].ack && h.s.state == FinWait2 && (h.erase || h.s.doomed)
    else
      && NoFin(h.sent) && NotOverdue(h.s) && h.s.finAfter == s.finAfter
      && (s.state == Established && h.s.state.Past() ==> a.g.rst || a.g.fin)
  }

  lemma AckDataCloses(h: Handling, g: Segment, s: Session)
    requires h.sent == [] && h.s == s.(window := h.s.window) && s.state == Established && NotOverdue(s) && g.ack
    ensures var h' := AckData(h, g);
            if s.finAfter && s.unackedSize > 0 && LeftAfter(s, g) == 0
            then OneFin(h'.sent, s.theirSeq) && h'.sent[0].ack && h'.s.state == FinWait1 && h'.s.finFlag == s.finFlag
            else h'.sent == [] && h'.s == h.s.(unacked := h'.s.unacked, unackedSize := h'.s.unackedSize,
                                               unackedStart := h'.s.unackedStart, mySeq := h'.s.mySeq)
                 && NotOverdue(h'.s) && h'.s.unackedSize == LeftAfter(s, g)
  {
    hide Add32, Progress, MovedDown, AsInt32;
  }

  /** After the acknowledgement stage: the deferred FIN, or nothing sent yet and all that matters as it was. */
  predicate AckedStage(h: Handling, h2: Handling, s: Session, a: Action) {
    if ClosesNow(s, a) then OneFin(h.sent, s.theirSeq) && h.sent[0].ack && h.s.state == FinWait1 && !h.s.finFlag
    else
      && h.sent == [] && NotOverdue(h.s) && h.s.state == h2.s.state && h.s.finAfter == s.finAfter
      && h.s.finFlag == s.finFlag && h.s.finSeq == s.finSeq && h.s.theirSeq == s.theirSeq && h.s.doomed == s.doomed
  }

  lemma AckStageMade(h2: Handling, g: Segment, l7: Layer7, s: Session)
    requires Alive(s) && s.state.Rank() >= Established.Rank() && NotOverdue(s) && g.headerFits
    requires h2.sent == [] && h2.s == s.(window := h2.s.window, state := h2.s.state)
    requires if g.rst then h2.erase && h2.s.state == Closing else !h2.erase && h2.s.state == s.state
    ensures AckedStage(HandleAck(h2, g, l7), h2, s, Receive(g, l7))
  {
    hide Add32, Progress, AckData, LeftAfter, OneFin;
    NothingDropped(s, g);
    if g.ack && !h2.erase && s.state == Established {
      AckDataCloses(h2, g, s);
    }
  }

  lemma FinStageMade(h0: Handling, g: Segment, l7: Layer7, s: Session)
    requires Alive(s) && s.state.Rank() >= Established.Rank() && NotOverdue(s) && g.headerFits && h0 == Begin(s, g)
    ensures FinStage(HandleControl(h0, g, l7), s, Receive(g, l7))
  {
    hide HandleAck, HandleFin, AnswerFin, Progress, FinStage, AckedStage, NotOverdue, Alive;
    var h2 := HandleSyn(HandleRst(h0, g), g);
    NotLastAck(s);
    AckStageMade(h2, g, l7, s);
    FinAfterAck(HandleAck(h2, g, l7), h2, g, l7, s);
  }

  lemma NotLastAck(s: Session)
    requires Alive(s)
    ensures s.state != LastAck && s.state != Closed && (s.finFlag ==> s.state.Past())
  {
  }

  lemma FinAfterAck(h: Handling, h2: Handling, g: Segment, l7: Layer7, s: Session)
    requires AckedStage(h, h2, s, Receive(g, l7)) && g.headerFits && s.state.Rank() >= Established.Rank()
    requires s.finFlag ==> s.state.Past()
    requires h2.s.state == if g.rst then Closing else s.state
    ensures FinStage(AnswerFin(HandleFin(h, g)), s, Receive(g, l7))
  {
    hide Add32, Progress, LeftAfter;
  }

  lemma NothingDropped(s: Session, g: Segment)
    ensures !g.ack || s.state != Established ==> LeftAfter(s, g) == s.unackedSize
  {
  }

  lemma FinStageKept(h: Handling, s: Session, g: Segment, l7: Layer7)
    requires FinStage(h, s, Receive(g, l7))
    ensures FinStage(Finish(HandleFail(HandlePayload(h, g, l7), g)), s, Receive(g, l7))
  {
    hide Add32, HandlePayload, ClosesNow, AnswersNow, Progress;
    PayloadKeeps(h, g, l7);
    PayloadExtends(h, g, l7);
  }

  lemma PayloadExtends(h: Handling, g: Segment, l7: Layer7)
    ensures var h' := HandlePayload(h, g, l7);
            h.sent <= h'.sent && forall j | |h.sent| <= j < |h'.sent| :: !h'.sent[j].fin
  {
    hide Add32;
  }

  lemma StepSendsFin(m: Endpoint, a: Action)
    requires Numbers(m.sess, m.base, |m.accepted|) && Alive(m.sess) && NotOverdue(m.sess)
    ensures FinExactly(m, a)
    ensures NotOverdue(Act(m, a).e.sess)
  {
    hide HandleSegment, PassFrom, LeftAfter, Add32;
    match a
    case Receive(g, l7) =>
      if g.headerFits {
        hide AnswersFin, HandleControl, HandlePayload;
        var h0 := Begin(m.sess, g);
        FinStageMade(h0, g, l7, m.sess);
        FinStageKept(HandleControl(h0, g, l7), m.sess, g, l7);
        HandledInStages(m.sess, g, l7);
        if ClosesNow(m.sess, a) {
          ReceiveNumbered(m, g, l7);
        }
      } else {
        BadHeader(m.sess, g, l7);
      }
    case Resend(packetSize, budget) =>
      if packetSize > 0 && InBounds(m.sess) {
        ToSendInBuffer(m.sess);
        NoFinInPass(m.sess, 0, ToSend(m.sess), packetSize, budget);
      }
    case Close => NoNumber(m.sess.mySeq);
    case _ =>
  }

  lemma HandledInStages(s: Session, g: Segment, l7: Layer7)
    requires g.headerFits
    ensures HandleSegment(s, g, l7)
         == Finish(HandleFail(HandlePayload(HandleControl(Begin(s, g), g, l7), g, l7), g))
  {
    hide HandleControl, HandlePayload, HandleFail, Finish;
  }

  lemma BadHeader(s: Session, g: Segment, l7: Layer7)
    requires !g.headerFits
    ensures var h := HandleSegment(s, g, l7);
            NoFin(h.sent) && h.s.state == s.state && h.s.finAfter == s.finAfter && h.s.unackedSize == s.unackedSize
  {
    hide HandleControl;
  }

  lemma ReceiveNumbered(m: Endpoint, g: Segment, l7: Layer7)
    requires Numbers(m.sess, m.base, |m.accepted|) && Alive(m.sess) && ClosesNow(m.sess, Receive(g, l7))
    ensures forall f <- HandleSegment(m.sess, g, l7).sent :: f.fin ==> f.seqNr == Add32(m.base, |m.accepted|)
  {
    hide HandleSegment, LeftAfter, Add32, AnswersFin;
    ReceiveFin(m.sess, g, l7, m.base, |m.accepted|);
    forall f | f in HandleSegment(m.sess, g, l7).sent && f.fin
      ensures f.seqNr == Add32(m.base, |m.accepted|)
    {
      NoNumber(f.seqNr);
    }
  }

  /** Which steps send a FIN, and what it says. */
  predicate FinExactly(m: Endpoint, a: Action) {
    var o := Act(m, a);
    if ClosesNow(m.sess, a) then
      && OneFin(o.sent, m.sess.theirSeq) && o.e.sess.state == FinWait1
      && (m.sess.state == Established ==> o.sent[0].seqNr == Add32(o.e.base, |o.e.accepted|))
    else if AnswersNow(m.sess, a) then
      OneFin(o.sent, Add32(m.sess.theirSeq, 1)) && o.sent[0].ack && o.e.sess.state == FinWait2 && o.e.sess.doomed
    else
      && NoFin(o.sent) && (m.sess.state == Established && o.e.Past() ==> a.Receive? && (a.g.rst || a.g.fin))
      && (m.sess.finAfter || a.Close? ==> o.e.sess.finAfter)
  }

  lemma {:induction false} RunNotOverdue(e: Endpoint, actions: seq<Action>)
    requires Numbers(e.sess, e.base, |e.accepted|) && LifeOk(e) && NotOverdue(e.sess)
    ensures var m := Run(e, actions); Numbers(m.sess, m.base, |m.accepted|) && LifeOk(m) && NotOverdue(m.sess)
    decreases |actions|
  {
    hide Act, Numbers, NotOverdue, FinExactly;
    if actions != [] {
      StepSendsFin(e, actions[0]);
      StepKeepsNumbers(e, actions[0]);
      StepKeepsLife(e, actions[0]);
      RunNotOverdue(Act(e, actions[0]).e, actions[1..]);
    }
  }

  /** On every run, exactly these steps send a FIN, and one only: end_session with an empty buffer and the
      acknowledgement that empties it under a deferred close, each leading to FIN_WAIT_1 with a FIN that
      acknowledges what was received and, from established, is numbered after the last byte; and the step at which
      the peer's FIN is due, leading to FIN_WAIT_2 with one that acknowledges it. A close that finds bytes outstanding
      is remembered and never left waiting without them, and nothing but a RST or the peer's FIN takes a session past
      established otherwise. */
  lemma FinSentIff(e: Endpoint, actions: seq<Action>, a: Action)
    requires Fresh(e)
    ensures var m := Run(e, actions); FinExactly(m, a) && NotOverdue(m.sess)
  {
    hide Run, FinExactly, LifeOk;
    FreshStarts(e);
    FreshUnclosed(e);
    RunNotOverdue(e, actions);
    var m := Run(e, actions);
    LifeIsAlive(m);
    StepSendsFin(m, a);
  }

  // ----- what arrives is answered --------------------------------------------------------------------

  /** The last of the segments is a pure acknowledgement of `ackTo`. */
  predicate EndsInAck(gs: seq<Segment>, ackTo: U32) {
    var n := |gs| - 1;
    gs != [] && gs[n].ack && gs[n].ackTo == ackTo && !gs[n].syn && !gs[n].fin && !gs[n].rst && gs[n].data == []
  }

  predicate EndsInRst(gs: seq<Segment>) {
    gs != [] && gs[|gs| - 1].rst && gs[|gs| - 1].data == []
  }

  lemma ControlQuiet(s: Session, g: Segment, l7: Layer7)
    requires Alive(s) && s.state.Rank() >= Established.Rank() && g.headerFits
    ensures var h := HandleControl(Begin(s, g), g, l7); h.delivered == [] && h.s.theirSeq == s.theirSeq
  {
    hide HandleAck, AnswerFin, HandleFin, Progress;
    var h2 := HandleSyn(HandleRst(Begin(s, g), g), g);
    AckQuiet(h2, g, l7);
    RecordQuiet(HandleAck(h2, g, l7), g);
  }

  lemma AckQuiet(h: Handling, g: Segment, l7: Layer7)
    requires h.s.state.Rank() >= Established.Rank()
    ensures var h' := HandleAck(h, g, l7); h'.delivered == h.delivered && h'.s.theirSeq == h.s.theirSeq
  {
    hide Add32, Progress, AckData;
    if h.s.state == Established {
      DropQuiet(h, g);
    }
  }

  lemma DropQuiet(h: Handling, g: Segment)
    ensures var h' := AckData(h, g); h'.delivered == h.delivered && h'.s.theirSeq == h.s.theirSeq
  {
    hide Add32, Progress, AsInt32, MovedDown;
  }

  lemma RecordQuiet(h: Handling, g: Segment)
    ensures var h' := AnswerFin(HandleFin(h, g)); h'.delivered == h.delivered && h'.s.theirSeq == h.s.theirSeq
  {
    hide Add32, Progress;
  }

  lemma PayloadAnswered(h: Handling, g: Segment, l7: Layer7)
    requires h.delivered == [] && g.data != []
    ensures var h' := Finish(HandleFail(HandlePayload(h, g, l7), g));
            && (h'.fail ==> EndsInRst(h'.sent) && h'.s.doomed && h'.s.theirSeq == h.s.theirSeq)
            && (!h'.fail && g.seqNr == h.s.theirSeq ==>
                  && l7.listening && l7.takesData
                  && h'.delivered == g.data && h'.s.theirSeq == Add32(h.s.theirSeq, |g.data|)
                  && (h'.s.unackedSize == 0 ==> EndsInAck(h'.sent, h'.s.theirSeq)))
            && (!h'.fail && g.seqNr != h.s.theirSeq ==>
                  && h'.delivered == [] && h'.s.theirSeq == h.s.theirSeq
                  && EndsInAck(h'.sent, Min(g.seqNr, h.s.theirSeq)))
  {
    hide Add32, Progress, HandlePayload, EndsInAck;
    PayloadEmits(h, g, l7);
    EndedByRst(HandlePayload(h, g, l7), g);
  }

  lemma EndedByRst(h: Handling, g: Segment)
    ensures var h' := Finish(HandleFail(h, g));
            && h'.fail == h.fail && h'.delivered == h.delivered
            && h'.s.theirSeq == h.s.theirSeq && h'.s.unackedSize == h.s.unackedSize
            && (if h.fail then EndsInRst(h'.sent) && h'.s.doomed else h'.sent == h.sent)
  {
    hide Add32;
  }

  lemma PayloadEmits(h: Handling, g: Segment, l7: Layer7)
    requires h.delivered == [] && g.data != []
    ensures var h' := HandlePayload(h, g, l7);
            && (h'.fail ==> h'.s.theirSeq == h.s.theirSeq)
            && (!h'.fail && g.seqNr == h.s.theirSeq ==>
                  && l7.listening && l7.takesData
                  && h'.delivered == g.data && h'.s.theirSeq == Add32(h.s.theirSeq, |g.data|)
                  && (h'.s.unackedSize == 0 ==> EndsInAck(h'.sent, h'.s.theirSeq)))
            && (!h'.fail && g.seqNr != h.s.theirSeq ==>
                  && h'.delivered == [] && h'.s.theirSeq == h.s.theirSeq
                  && EndsInAck(h'.sent, Min(g.seqNr, h.s.theirSeq)))
  {
    hide Add32, Progress, Emit;
    assert [] + g.data == g.data;
    if g.seqNr == h.s.theirSeq {
      var s := h.s.(theirSeq := Add32(h.s.theirSeq, |g.data|));
      var d := h.delivered + (if l7.listening then g.data else []);
      EmitPlain(h.(s := s, delivered := d, fail := false), s.theirSeq);
    } else {
      EmitPlain(h, if g.seqNr > h.s.theirSeq then h.s.theirSeq else g.seqNr);
    }
  }

  /** Data that arrives at an open session is handed over exactly if it is in order, and answered in any case: by a
      RST if something fails; at once by an acknowledgement of all that is counted then, unless bytes of one's own are
      outstanding, whose retransmission carries it; and out of order by one of the smaller of both numbers. */
  lemma DataAnswered(s: Session, g: Segment, l7: Layer7)
    requires Alive(s) && s.state.Rank() >= Established.Rank() && g.headerFits && g.data != []
    ensures var h := HandleSegment(s, g, l7);
            && (h.fail ==> EndsInRst(h.sent) && h.s.doomed && h.s.theirSeq == s.theirSeq)
            && (!h.fail && g.seqNr == s.theirSeq ==>
                  && l7.listening && l7.takesData
                  && h.delivered == g.data && h.s.theirSeq == Add32(s.theirSeq, |g.data|)
                  && (h.s.unackedSize == 0 ==> EndsInAck(h.sent, h.s.theirSeq)))
            && (!h.fail && g.seqNr != s.theirSeq ==>
                  && h.delivered == [] && h.s.theirSeq == s.theirSeq && EndsInAck(h.sent, Min(g.seqNr, s.theirSeq)))
  {
    hide HandleControl, HandlePayload, HandleFail, Finish, Add32, EndsInAck, EndsInRst;
    ControlQuiet(s, g, l7);
    PayloadAnswered(HandleControl(Begin(s, g), g, l7), g, l7);
    HandledInStages(s, g, l7);
  }

  lemma LifeIsAlive(e: Endpoint)
    requires LifeOk(e)
    ensures Alive(e.sess)
  {
  }

  lemma FreshStarts(e: Endpoint)
    requires Fresh(e)
    ensures Ledger(e) && LifeOk(e)
  {
  }
}
