/** How sessions end: a session that answers its peer's FIN has delivered everything the peer accepted. */
module TcpEnding {
  import opened Bytes
  import opened TcpModel
  import opened TcpLedger
  import opened TcpLifecycle
  import opened TcpNetwork

  // ----- one side -----------------------------------------------------------------------------------------------

  /** A FIN of x that y may still record found the whole stream of x delivered. */
  predicate FinOk(x: Endpoint, y: Endpoint, g: Segment) {
    g.fin ==> y.Past() || y.delivered == x.accepted
  }

  /** A session that recorded its peer's FIN, or answered it, has delivered the peer's stream; one that is past
      established by itself with an empty buffer has had its own stream delivered. */
  predicate EndOk(x: Endpoint, y: Endpoint) {
    && (x.sess.state == FinWait2 ==> x.sess.doomed && y.Past() && x.delivered == y.accepted)
    && (x.sess.finFlag ==> y.Past() && x.delivered == y.accepted)
    && (x.Past() && !x.sess.finFlag && x.sess.unackedSize == 0 ==> y.delivered == x.accepted)
  }

  /** The same while x works on a segment; x is the endpoint before it. */
  predicate HandlingEnd(x: Endpoint, y: Endpoint, h: Handling) {
    && (h.s.finFlag ==> y.Past() && x.delivered == y.accepted)
    && (h.s.state == FinWait2 ==> (h.erase || h.s.doomed) && y.Past() && x.delivered == y.accepted)
    && (h.s.state.Past() && !h.s.finFlag && h.s.unackedSize == 0 ==> y.delivered == x.accepted)
    && forall f <- h.sent :: f.fin ==> h.s.finFlag || y.delivered == x.accepted
  }

  /** A buffer that an honest acknowledgement empties has been delivered to its last byte. */
  lemma AckEnd(x: Endpoint, y: Endpoint, h: Handling, g: Segment)
    requires HandlingEnd(x, y, h) && h.sent == [] && !h.erase && h.s.state == Established
    requires Numbers(h.s, x.base, |x.accepted|) && |x.accepted| < M32
    requires y.delivered <= x.accepted && AckHonest(y, x, g.ackTo)
    ensures HandlingEnd(x, y, AckData(h, g))
  {
    hide Add32, Sub32, AsInt32, MovedDown, Progress, Numbers;
    if h.s.unackedSize > 0 {
      DropReaches(h.s, x.base, |x.accepted|, g.ackTo);
    }
  }

  lemma HandleAckEnd(x: Endpoint, y: Endpoint, h: Handling, g: Segment, l7: Layer7)
    requires HandlingEnd(x, y, h) && h.sent == []
    requires Numbers(h.s, x.base, |x.accepted|) && Alive(h.s) && |x.accepted| < M32
    requires y.delivered <= x.accepted
    requires g.ack && !h.erase && h.s.state == Established ==> AckHonest(y, x, g.ackTo)
    ensures HandlingEnd(x, y, HandleAck(h, g, l7))
    ensures HandleAck(h, g, l7).s.theirSeq == h.s.theirSeq
  {
    hide Add32, Progress, AsInt32, MovedDown, AckHonest;
    if g.ack && h.s.state == Established && !h.erase {
      AckEnd(x, y, h, g);
    }
  }

  lemma FinEnd(x: Endpoint, y: Endpoint, h: Handling, g: Segment)
    requires HandlingEnd(x, y, h) && (g.fin ==> y.Past())
    requires g.fin && h.s.state == Established ==> x.delivered == y.accepted
    ensures HandlingEnd(x, y, AnswerFin(HandleFin(h, g)))
  {
    hide Add32, Progress;
  }

  lemma PayloadEnd(x: Endpoint, y: Endpoint, h: Handling, g: Segment, l7: Layer7)
    requires HandlingEnd(x, y, h)
    ensures HandlingEnd(x, y, HandlePayload(h, g, l7))
  {
    hide HandlePayload;
    PayloadKeeps(h, g, l7);
  }

  lemma FinishEnd(x: Endpoint, y: Endpoint, h: Handling, g: Segment)
    requires HandlingEnd(x, y, h)
    ensures HandlingEnd(x, y, Finish(HandleFail(h, g)))
  {
    hide Add32, Progress;
  }

  lemma SynEnd(x: Endpoint, y: Endpoint, g: Segment)
    requires StateOk(x, y) && EndOk(x, y) && g.headerFits && !g.syn && y.delivered <= x.accepted
    ensures var h := HandleSyn(HandleRst(Begin(x.sess, g), g), g);
            && HandlingEnd(x, y, h) && h.sent == [] && Alive(h.s) && h.s.theirSeq == x.sess.theirSeq
            && Numbers(h.s, x.base, |x.accepted|) && (x.Past() ==> h.s.state.Past()) && (g.rst ==> h.erase)
  {
    hide Add32, Sub32, Progress;
  }

  lemma SegmentEnd(x: Endpoint, y: Endpoint, g: Segment, l7: Layer7)
    requires StateOk(x, y) && EndOk(x, y) && SegOk(y, x, g) && FinOk(y, x, g)
    requires x.delivered <= y.accepted && y.delivered <= x.accepted && |x.accepted| < M32
    ensures HandlingEnd(x, y, HandleSegment(x.sess, g, l7))
  {
    hide HandleRst, HandleSyn, HandleAck, HandleFin, AnswerFin, HandlePayload, HandleFail, Finish, HandlingEnd, Add32,
         Sub32, Numbers, EndOk, AckHonest, DataInPlace, AckLimit;
    var h0 := Begin(x.sess, g);
    var h2 := HandleSyn(HandleRst(h0, g), g);
    SynEnd(x, y, g);
    HandleAckEnd(x, y, h2, g, l7);
    var h3 := HandleAck(h2, g, l7);
    FinEnd(x, y, h3, g);
    var h4 := HandleControl(h0, g, l7);
    PayloadEnd(x, y, h4, g, l7);
    FinishEnd(x, y, HandlePayload(h4, g, l7), g);
  }

  // ----- one step -------------------------------------------------------------------------------------------------

  lemma ReceiveEnd(x: Endpoint, y: Endpoint, g: Segment, l7: Layer7)
    requires StateOk(x, y) && EndOk(x, y) && SegOk(y, x, g) && FinOk(y, x, g) && !Repeats(x, y, g, l7)
    requires x.delivered <= y.accepted && y.delivered <= x.accepted
    requires |y.accepted| < M32 && |x.accepted| < M32
    ensures var o := Act(x, Receive(g, l7)); EndOk(o.e, y) && forall f <- o.sent :: FinOk(o.e, y, f)
  {
    hide HandleSegment, Add32, StateOk, SegOk;
    SegmentEnd(x, y, g, l7);
    ReceiveStep(x, y, g, l7);
  }

  lemma CloseEnd(x: Endpoint, y: Endpoint)
    requires StateOk(x, y) && EndOk(x, y) && y.delivered <= x.accepted
    ensures var o := Act(x, Close); EndOk(o.e, y) && forall f <- o.sent :: FinOk(o.e, y, f)
  {
    hide Add32, Sub32, Numbers;
  }

  lemma LocalEnd(x: Endpoint, y: Endpoint, a: Action)
    requires StateOk(x, y) && EndOk(x, y) && (a.Send? || a.Resend?)
    ensures var o := Act(x, a); EndOk(o.e, y) && forall f <- o.sent :: FinOk(o.e, y, f)
  {
    hide Add32, PassFrom, Numbers;
    if a.Resend? && a.packetSize > 0 && InBounds(x.sess) {
      ToSendInBuffer(x.sess);
      NoFinInPass(x.sess, 0, ToSend(x.sess), a.packetSize, a.budget);
    }
  }

  /** The peer's stream is complete once it is past established, so what was said about it stays. */
  lemma PastFreezes(x: Endpoint, a: Action)
    requires x.Past()
    ensures Act(x, a).e.accepted == x.accepted && Act(x, a).e.base == x.base
  {
    hide HandleSegment, PassFrom;
  }

  lemma EndOkGrows(y: Endpoint, x: Endpoint, x': Endpoint)
    requires EndOk(y, x) && x.delivered <= x'.delivered <= y.accepted
    requires x.Past() ==> x'.Past() && x'.accepted == x.accepted
    ensures EndOk(y, x')
  {
  }

  predicate EndSide(x: Endpoint, y: Endpoint, w: set<Segment>) {
    EndOk(x, y) && forall g <- w :: FinOk(x, y, g)
  }

  lemma StepOwnEnd(x: Endpoint, y: Endpoint, wy: set<Segment>, a: Action)
    requires SideOk(x, y, {}) && SideOk(y, x, wy) && EndOk(x, y) && (forall g <- wy :: FinOk(y, x, g))
    requires !Harmful(x, y, a) && Enabled(a, wy)
    ensures var o := Act(x, a); EndOk(o.e, y) && forall f <- o.sent :: FinOk(o.e, y, f)
  {
    hide Act, StateOk, SegOk, EndOk, FinOk, Repeats, Displaced;
    match a
    case Receive(g, l7) => ReceiveEnd(x, y, g, l7);
    case Close => CloseEnd(x, y);
    case _ => LocalEnd(x, y, a);
  }

  lemma StepEnd(x: Endpoint, y: Endpoint, wx: set<Segment>, wy: set<Segment>, a: Action)
    requires Sound(x, y, wx, wy) && !Harmful(x, y, a) && Enabled(a, wy)
    requires EndSide(x, y, wx) && EndSide(y, x, wy)
    ensures var o := Act(x, a); EndSide(o.e, y, wx + (set g | g in o.sent)) && EndSide(y, o.e, wy)
  {
    hide Act, StateOk, SegOk, EndOk, Harmful;
    var o := Act(x, a).e;
    StepOwnEnd(x, y, wy, a);
    DeliveredGrows(x, y, wy, a);
    PastStays(x, y, a);
    if x.Past() {
      PastFreezes(x, a);
    }
    EndOkGrows(y, x, o);
    forall g | g in wx
      ensures FinOk(o, y, g)
    {
      FinOfPast(x, y, g);
    }
    forall g | g in wy
      ensures FinOk(y, o, g)
    {
    }
  }

  lemma DeliveredGrows(x: Endpoint, y: Endpoint, wy: set<Segment>, a: Action)
    requires SideOk(x, y, {}) && SideOk(y, x, wy) && !Harmful(x, y, a) && Enabled(a, wy)
    ensures x.delivered <= Act(x, a).e.delivered <= y.accepted
  {
    hide Act, StateOk, SegOk, Repeats, Displaced;
    if a.Receive? {
      ReceiveStep(x, y, a.g, a.l7);
    } else {
      LocalStep(x, y, a);
    }
  }

  lemma PastStays(x: Endpoint, y: Endpoint, a: Action)
    requires StateOk(x, y)
    ensures x.Past() ==> Act(x, a).e.Past()
  {
    hide HandleSegment, PassFrom;
    if a.Receive? {
      HandlingKeepsLife(x.sess, a.g, a.l7);
    }
  }

  lemma FinOfPast(x: Endpoint, y: Endpoint, g: Segment)
    requires SegOk(x, y, g)
    ensures g.fin ==> x.Past()
  {
  }

  // ----- every run ------------------------------------------------------------------------------------------------

  predicate SystemEnd(s: System) {
    EndSide(s.a, s.b, s.ab) && EndSide(s.b, s.a, s.ba)
  }

  lemma StepSystemEnd(s: System, ev: Event)
    requires SystemOk(s) && SystemEnd(s) && !HarmfulEvent(s, ev)
    ensures SystemEnd(Step(s, ev))
  {
    hide Act, Sound, EndSide, Enabled, Harmful;
    var t := if ev.atA then s else s.Swap();
    SwapSound(s);
    if Enabled(ev.action, t.ba) {
      StepEnd(t.a, t.b, t.ab, t.ba, ev.action);
    }
  }

  lemma SwapSound(s: System)
    requires SystemOk(s)
    ensures Sound(s.a, s.b, s.ab, s.ba) && Sound(s.b, s.a, s.ba, s.ab)
  {
    hide SideOk;
  }

  lemma {:induction false} ExecEnd(s: System, events: seq<Event>)
    requires SystemOk(s) && SystemEnd(s) && RunOk(s, events)
    ensures SystemEnd(Exec(s, events))
    decreases |events|
  {
    hide SystemOk, SystemEnd, Step, RunOk;
    if events != [] {
      ExecGrows(s, events);
      RunTurn(s, events);
      StepSystemOk(s, events[0]);
      StepSystemEnd(s, events[0]);
      ExecEnd(Step(s, events[0]), events[1..]);
    }
  }

  lemma StartEnd(s: System)
    requires Start(s)
    ensures SystemEnd(s)
  {
  }

  /** On every harmless run of fewer than 2^32 bytes per direction, a session in FIN_WAIT_2 (it has answered its
      peer's FIN) has handed layer 7 every byte the peer ever accepted, however often either side closes. */
  lemma OrderlyEnd(s: System, events: seq<Event>)
    requires Start(s) && RunOk(s, events)
    ensures Orderly(Exec(s, events))
  {
    hide Exec, Sound, SystemEnd, Start, RunOk;
    StartOk(s);
    StartEnd(s);
    ExecEnd(s, events);
    EndOfSystem(Exec(s, events));
  }

  predicate Orderly(t: System) {
    && (t.a.sess.state == FinWait2 ==> t.a.delivered == t.b.accepted)
    && (t.b.sess.state == FinWait2 ==> t.b.delivered == t.a.accepted)
  }

  lemma EndOfSystem(t: System)
    requires SystemEnd(t)
    ensures Orderly(t)
  {
    hide FinOk;
  }

  // ----- sessions that leave the table ------------------------------------------------------------------------------

  predicate OnlyByFin(h: Handling) {
    h.fail || (h.erase ==> h.s.state == FinWait2)
  }

  lemma AckOnlyByFin(h: Handling, g: Segment, l7: Layer7)
    requires Alive(h.s) && !h.erase
    ensures OnlyByFin(HandleAck(h, g, l7))
  {
    hide Add32, MovedDown, AsInt32;
  }

  lemma RestOnlyByFin(h: Handling, g: Segment, l7: Layer7)
    requires OnlyByFin(h)
    ensures OnlyByFin(Finish(HandleFail(HandlePayload(AnswerFin(HandleFin(h, g)), g, l7), g)))
  {
    hide Add32, HandlePayload, Progress;
    PayloadKeeps(AnswerFin(HandleFin(h, g)), g, l7);
  }

  lemma LeavesByFin(x: Endpoint, g: Segment, l7: Layer7)
    requires Alive(x.sess) && g.headerFits && !g.rst && !g.syn
    ensures OnlyByFin(HandleSegment(x.sess, g, l7))
  {
    hide HandleAck, HandleFin, AnswerFin, HandlePayload, HandleFail, Finish, OnlyByFin;
    var h2 := HandleSyn(HandleRst(Begin(x.sess, g), g), g);
    AckOnlyByFin(h2, g, l7);
    RestOnlyByFin(HandleAck(h2, g, l7), g, l7);
  }

  /** A session marked for deletion has delivered all of a stream that is complete. */
  predicate Done(x: Endpoint, y: Endpoint) {
    x.sess.doomed ==> y.Past() && x.delivered == y.accepted
  }

  lemma ReceiveDone(x: Endpoint, y: Endpoint, g: Segment, l7: Layer7)
    requires StateOk(x, y) && EndOk(x, y) && SegOk(y, x, g) && FinOk(y, x, g) && !Repeats(x, y, g, l7)
    requires x.delivered <= y.accepted && y.delivered <= x.accepted
    requires |y.accepted| < M32 && |x.accepted| <= M31
    requires Done(x, y) && Willing(l7) && !g.rst
    ensures Done(Act(x, Receive(g, l7)).e, y)
  {
    hide HandleSegment, AckHonest, DataInPlace, Numbers, Add32, Sub32;
    LeavesByFin(x, g, l7);
    ReceiveOk(x, y, g, l7);
    ReceiveEnd(x, y, g, l7);
    ReceiveStep(x, y, g, l7);
  }

  lemma LocalDone(x: Endpoint, y: Endpoint, a: Action)
    requires Done(x, y) && !a.Receive?
    ensures Done(Act(x, a).e, y)
  {
    hide PassFrom;
  }

  lemma StepDone(x: Endpoint, y: Endpoint, wx: set<Segment>, wy: set<Segment>, a: Action)
    requires Sound(x, y, wx, wy) && EndSide(x, y, wx) && EndSide(y, x, wy)
    requires Done(x, y) && Done(y, x) && !Harmful(x, y, a) && Enabled(a, wy) && |x.accepted| <= M31
    requires a.Receive? ==> Willing(a.l7) && !a.g.rst
    ensures Done(Act(x, a).e, y) && Done(y, Act(x, a).e)
  {
    hide Act, StateOk, SegOk, EndOk, FinOk, Repeats, Displaced;
    if a.Receive? {
      ReceiveDone(x, y, a.g, a.l7);
    } else {
      LocalDone(x, y, a);
    }
    PastStays(x, y, a);
    if x.Past() {
      PastFreezes(x, a);
    }
  }

  predicate AllDone(s: System) {
    Done(s.a, s.b) && Done(s.b, s.a)
  }

  lemma StepAllDone(s: System, ev: Event)
    requires SystemOk(s) && SystemEnd(s) && NoRst(s) && AllDone(s) && AllWilling([ev]) && !HarmfulEvent(s, ev)
    requires AtMost(s, M31)
    ensures AllDone(Step(s, ev))
  {
    hide Act, Sound, EndSide, Done, Harmful;
    var t := if ev.atA then s else s.Swap();
    SwapSound(s);
    assert ev in [ev];
    if Enabled(ev.action, t.ba) {
      StepDone(t.a, t.b, t.ab, t.ba, ev.action);
    }
  }

  lemma {:induction false} ExecAllDone(s: System, events: seq<Event>)
    requires SystemOk(s) && SystemEnd(s) && NoRst(s) && AllDone(s) && AllWilling(events)
    requires RunOk(s, events) && AtMost(Exec(s, events), M31)
    ensures AllDone(Exec(s, events))
    decreases |events|
  {
    hide SystemOk, SystemEnd, NoRst, AllDone, Step, RunOk;
    if events != [] {
      ExecGrows(s, events);
      RunTurn(s, events);
      StepSystemOk(s, events[0]);
      StepSystemEnd(s, events[0]);
      StepNoRst(s, events[0]);
      StepAllDone(s, events[0]);
      ExecAllDone(Step(s, events[0]), events[1..]);
    }
  }

  /** When layer 7 refuses nothing and neither direction carries more than 2^31 bytes, every session that is
      marked for deletion has delivered every byte its peer ever accepted: no orderly end cuts a stream short. */
  lemma CompleteEnd(s: System, events: seq<Event>)
    requires Start(s) && AllWilling(events) && RunOk(s, events)
    requires AtMost(Exec(s, events), M31)
    ensures AllDone(Exec(s, events))
  {
    hide Exec, Sound, SystemEnd, RunOk;
    StartOk(s);
    StartEnd(s);
    ExecAllDone(s, events);
  }
}
