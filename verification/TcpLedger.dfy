/** One endpoint against an arbitrary peer: what every step of every run keeps. */
module TcpLedger {
  import opened Bytes
  import opened TcpModel

  /** A session with its history: `base` is `my_seq_nr` when it became established, `accepted` what
      send_data took, `delivered` what new_data was handed, `newSessions` the calls of new_session. */
  datatype Endpoint = Endpoint(sess: Session, base: U32, accepted: seq<Byte>, delivered: seq<Byte>,
                               newSessions: nat)
  {
    predicate Past() { sess.state.Past() }
  }

  datatype Action =
    | Send(data: seq<Byte>)
    | Resend(packetSize: nat, budget: nat)
    | Receive(g: Segment, l7: Layer7)
    | Close

  /** An endpoint after a step, and the segments the step put on the wire. */
  datatype Outcome = Outcome(e: Endpoint, sent: seq<Segment>)

  function Act(e: Endpoint, a: Action): Outcome {
    match a
    case Send(data) =>
      Outcome(e.(sess := QueueData(e.sess, data),
                 accepted := e.accepted + (if Accepts(e.sess) then data else [])), [])
    case Resend(packetSize, budget) =>
      if packetSize > 0 && InBounds(e.sess) then
        var (s, gs) := ResendPass(e.sess, packetSize, budget);
        Outcome(e.(sess := s), gs)
      else Outcome(e, [])
    case Receive(g, l7) =>
      var h := HandleSegment(e.sess, g, l7);
      Outcome(e.(sess := h.s, delivered := e.delivered + h.delivered,
                 newSessions := e.newSessions + h.newSessions), h.sent)
    case Close =>
      var (s, gs) := CloseSession(e.sess);
      Outcome(e.(sess := s), gs)
  }

  // ----- the stream ledger -----------------------------------------------------------------------

  /** The bytes accepted but not yet acknowledged are exactly the used buffer, and while there are
      any, unacked_start_seq_nr names the first of them. */
  predicate BufferOf(s: Session, base: U32, accepted: seq<Byte>) {
    && s.state.Rank() >= Established.Rank()
    && s.unackedSize <= M32
    && s.unackedSize <= |s.unacked|
    && s.unackedSize <= |accepted|
    && s.unacked[..s.unackedSize] == accepted[|accepted| - s.unackedSize..]
    && (s.unackedSize > 0 ==> s.unackedStart == Add32(base, |accepted| - s.unackedSize))
  }

  /** And so does my_seq_nr; with an empty buffer it names the next byte of an open stream. */
  predicate LedgerOf(s: Session, base: U32, accepted: seq<Byte>) {
    && BufferOf(s, base, accepted)
    && (s.unackedSize > 0 ==> s.mySeq == s.unackedStart)
    && (s.state == Established && s.unackedSize == 0 ==> s.mySeq == Add32(base, |accepted|))
  }

  /** Whatever has become of the buffer, the counters of an open stream account for it: what is not
      acknowledged lies between my_seq_nr and the end of the stream. */
  predicate Numbers(s: Session, base: U32, total: nat) {
    && s.state.Rank() >= Established.Rank() && s.state != LastAck
    && (s.state == Established ==>
          && Add32(s.mySeq, s.unackedSize) == Add32(base, total)
          && (s.unackedSize > 0 ==> s.unackedStart == s.mySeq))
  }

  predicate Ledger(e: Endpoint) {
    e.sess.doomed || LedgerOf(e.sess, e.base, e.accepted)
  }

  /** How many bytes of the stream the peer has acknowledged. */
  function Acked(e: Endpoint): int {
    |e.accepted| - e.sess.unackedSize
  }

  /** The most send_data may be given at once: with it the buffer never exceeds 2^32 bytes, and what
      is left after an acknowledgement either fits an int or turns negative in it. */
  const MAX_SEND := M32 - BUFFER_LIMIT + 1

  predicate Admissible(a: Action) {
    a.Send? ==> |a.data| <= MAX_SEND
  }

  /** What the step accepts, if anything, leaves at most 2^32 bytes in the buffer. */
  predicate Fits(e: Endpoint, a: Action) {
    a.Send? && Accepts(e.sess) ==> e.sess.unackedSize + |a.data| <= M32
  }

  predicate HandlingLedger(h: Handling, base: U32, accepted: seq<Byte>) {
    h.erase || h.fail || LedgerOf(h.s, base, accepted)
  }

  lemma DroppedKeepsLedger(s: Session, ackN: int, base: U32, accepted: seq<Byte>)
    requires LedgerOf(s, base, accepted) && s.state == Established
    requires 0 < ackN <= s.unackedSize
    ensures LedgerOf(Dropped(s, ackN, s.unackedSize - ackN), base, accepted)
  {
    hide MovedDown, Add32;
    var size, left := s.unackedSize, s.unackedSize - ackN;
    assert left % M64 == left;
    DroppedBuffer(s.unacked, size, ackN);
    assert s.unacked[ackN..size] == s.unacked[..size][ackN..];
    assert accepted[|accepted| - size..][ackN..] == accepted[|accepted| - left..];
    Add32Add32(base, |accepted| - size, ackN);
  }

  lemma DroppedBuffer(buf: seq<Byte>, size: nat, ackN: nat)
    requires ackN <= size <= |buf|
    ensures var left := size - ackN; var b := if left > 0 then MovedDown(buf, ackN, left) else buf;
            left <= |b| && b[..left] == buf[ackN..size]
  {
  }

  lemma AckDataKeepsLedger(h: Handling, g: Segment, base: U32, accepted: seq<Byte>)
    requires LedgerOf(h.s, base, accepted) && h.s.state == Established
    ensures HandlingLedger(AckData(h, g), base, accepted)
  {
    hide Progress, MovedDown, AsInt32;
    var ackN := AsInt32(g.ackTo - h.s.unackedStart);
    if ackN > 0 && h.s.unackedSize > 0 {
      LeftInInt(h.s.unackedSize, ackN);
      if AsInt32(h.s.unackedSize - ackN) >= 0 {
        DroppedKeepsLedger(h.s, ackN, base, accepted);
      }
    }
  }

  /** The int that takes what is left of at most 2^32 bytes is exact or negative. */
  lemma LeftInInt(size: nat, ackN: int)
    requires size <= M32 && 0 < ackN < M31
    ensures AsInt32(size - ackN) < 0 || AsInt32(size - ackN) == size - ackN
  {
  }

  lemma AckKeepsLedger(h: Handling, g: Segment, l7: Layer7, base: U32, accepted: seq<Byte>)
    requires h.erase || LedgerOf(h.s, base, accepted)
    ensures HandlingLedger(HandleAck(h, g, l7), base, accepted)
  {
    if h.s.state == Established && !h.erase {
      AckDataKeepsLedger(h, g, base, accepted);
    }
  }

  lemma FinKeepsLedger(h: Handling, g: Segment, base: U32, accepted: seq<Byte>)
    requires HandlingLedger(h, base, accepted)
    ensures HandlingLedger(AnswerFin(HandleFin(h, g)), base, accepted)
  {
  }

  lemma ControlKeepsLedger(h: Handling, g: Segment, l7: Layer7, base: U32, accepted: seq<Byte>)
    requires LedgerOf(h.s, base, accepted)
    ensures HandlingLedger(HandleControl(h, g, l7), base, accepted)
  {
    var h2 := HandleSyn(HandleRst(h, g), g);
    assert h2.erase || h2.s == h.s;
    AckKeepsLedger(h2, g, l7, base, accepted);
    FinKeepsLedger(HandleAck(h2, g, l7), g, base, accepted);
  }

  lemma PayloadKeepsLedger(h: Handling, g: Segment, l7: Layer7, base: U32, accepted: seq<Byte>)
    requires HandlingLedger(h, base, accepted)
    ensures HandlingLedger(HandlePayload(h, g, l7), base, accepted)
  {
  }

  lemma HandleSegmentKeepsLedger(s: Session, g: Segment, l7: Layer7, base: U32, accepted: seq<Byte>)
    requires LedgerOf(s, base, accepted)
    ensures var s' := HandleSegment(s, g, l7).s; s'.doomed || LedgerOf(s', base, accepted)
  {
    hide HandleControl, HandlePayload, Add32;
    var h := Begin(s, g);
    if !h.fail {
      ControlKeepsLedger(h, g, l7, base, accepted);
      PayloadKeepsLedger(HandleControl(h, g, l7), g, l7, base, accepted);
    }
  }

  lemma DoomedStays(e: Endpoint, a: Action)
    requires e.sess.doomed
    ensures Act(e, a).e.sess.doomed
  {
    hide HandleSegment, PassFrom;
  }

  lemma QueueKeepsLedger(s: Session, data: seq<Byte>, base: U32, accepted: seq<Byte>)
    requires LedgerOf(s, base, accepted) && Accepts(s) && s.unackedSize + |data| <= M32
    ensures LedgerOf(QueueData(s, data), base, accepted + data)
  {
    hide Add32;
    var s' := QueueData(s, data);
    var accepted' := accepted + data;
    assert |accepted'| - s'.unackedSize == |accepted| - s.unackedSize;
    assert s'.unacked[..s'.unackedSize] == s.unacked[..s.unackedSize] + data;
    assert accepted'[|accepted'| - s'.unackedSize..] == accepted[|accepted| - s.unackedSize..] + data;
  }

  /** Every step keeps the ledger, whatever segment arrives. */
  lemma StepKeepsLedger(e: Endpoint, a: Action)
    requires Ledger(e) && (e.sess.doomed || Fits(e, a))
    ensures Ledger(Act(e, a).e)
  {
    hide HandleSegment, PassFrom;
    if e.sess.doomed {
      DoomedStays(e, a);
      return;
    }
    match a
    case Send(data) =>
      if Accepts(e.sess) {
        QueueKeepsLedger(e.sess, data, e.base, e.accepted);
      }
    case Receive(g, l7) =>
      HandleSegmentKeepsLedger(e.sess, g, l7, e.base, e.accepted);
    case _ =>
  }

  lemma BaseStays(x: Endpoint, a: Action)
    ensures Act(x, a).e.base == x.base
  {
    hide HandleSegment, PassFrom;
  }

  // ----- the numbers of every run ------------------------------------------------------------------

  lemma Folded(x: int, n: int)
    ensures Add32(x, n % M64) == Add32(x, n)
  {
    var q := n / M64;
    assert n == q * M64 + n % M64;
    assert x + n == x + n % M64 + (q * M32) * M32;
    SameRemainder(x + n % M64, q * M32);
  }

  lemma DroppedKeepsNumbers(s: Session, ackN: int, leftN: int, base: U32, total: nat)
    requires Numbers(s, base, total) && s.state == Established && s.unackedSize > 0
    ensures Numbers(Dropped(s, ackN, leftN), base, total)
  {
    hide MovedDown, Add32;
    Add32Add32(s.mySeq, ackN, (s.unackedSize - ackN) % M64);
    Folded(s.mySeq + ackN, s.unackedSize - ackN);
    Sums(s.mySeq, ackN, (s.unackedSize - ackN) % M64);
    Sums(s.mySeq, ackN, s.unackedSize - ackN);
  }

  lemma Sums(x: int, m: int, n: int)
    ensures Add32(x, m + n) == Add32(x + m, n)
  {
  }

  lemma AckKeepsNumbers(h: Handling, g: Segment, l7: Layer7, base: U32, total: nat)
    requires Numbers(h.s, base, total)
    ensures Numbers(HandleAck(h, g, l7).s, base, total)
  {
    hide MovedDown, Add32, AsInt32, Progress;
    var ackN := AsInt32(g.ackTo - h.s.unackedStart);
    if h.s.state == Established && ackN > 0 && h.s.unackedSize > 0 {
      DroppedKeepsNumbers(h.s, ackN, AsInt32(h.s.unackedSize - ackN), base, total);
    }
  }

  lemma NoNumber(seqNr: U32)
    ensures Add32(seqNr, 0) == seqNr
  {
  }

  lemma PayloadKeepsNumbers(h: Handling, g: Segment, l7: Layer7, base: U32, total: nat)
    requires Numbers(h.s, base, total)
    ensures Numbers(HandlePayload(h, g, l7).s, base, total)
  {
    hide Add32, Progress;
    NoNumber(h.s.mySeq);
  }

  lemma HandleSegmentKeepsNumbers(s: Session, g: Segment, l7: Layer7, base: U32, total: nat)
    requires Numbers(s, base, total)
    ensures Numbers(HandleSegment(s, g, l7).s, base, total)
  {
    hide HandleAck, HandlePayload, Add32;
    var h0 := Begin(s, g);
    if !h0.fail {
      var h2 := HandleSyn(HandleRst(h0, g), g);
      AckKeepsNumbers(h2, g, l7, base, total);
      PayloadKeepsNumbers(HandleControl(h0, g, l7), g, l7, base, total);
    } else {
      PayloadKeepsNumbers(h0, g, l7, base, total);
    }
  }

  /** Every step keeps the numbers, marked session or not, whatever arrives and however much is sent. */
  lemma StepKeepsNumbers(e: Endpoint, a: Action)
    requires Numbers(e.sess, e.base, |e.accepted|)
    ensures var e' := Act(e, a).e; Numbers(e'.sess, e'.base, |e'.accepted|)
  {
    hide HandleSegment, PassFrom, Add32;
    match a
    case Receive(g, l7) => HandleSegmentKeepsNumbers(e.sess, g, l7, e.base, |e.accepted|);
    case Send(data) =>
      Add32Add32(e.sess.mySeq, e.sess.unackedSize, |data|);
      Add32Add32(e.base, |e.accepted|, |data|);
    case _ =>
  }

  /** The endpoint after a run of steps. */
  function Run(e: Endpoint, actions: seq<Action>): Endpoint
    decreases |actions|
  {
    if actions == [] then e else Run(Act(e, actions[0]).e, actions[1..])
  }

  /** A session that has just become established. */
  predicate Fresh(e: Endpoint) {
    && e.sess.state == Established && e.sess.mySeq == e.base
    && e.sess.unacked == [] && e.sess.unackedSize == 0 && e.accepted == [] && e.delivered == []
    && !e.sess.finAfter && !e.sess.finFlag && !e.sess.doomed && e.newSessions <= 1
  }

  lemma {:induction false} RunKeepsNumbers(e: Endpoint, actions: seq<Action>)
    requires Numbers(e.sess, e.base, |e.accepted|)
    ensures var e' := Run(e, actions); Numbers(e'.sess, e'.base, |e'.accepted|)
    decreases |actions|
  {
    hide Act, Numbers;
    if actions != [] {
      StepKeepsNumbers(e, actions[0]);
      RunKeepsNumbers(Act(e, actions[0]).e, actions[1..]);
    }
  }

  lemma {:induction false} RunKeepsLedger(e: Endpoint, actions: seq<Action>)
    requires Ledger(e)
    requires forall a <- actions :: Admissible(a)
    ensures Ledger(Run(e, actions))
    decreases |actions|
  {
    if actions != [] {
      assert Admissible(actions[0]) by { assert actions[0] in actions; }
      StepKeepsLedger(e, actions[0]);
      RunKeepsLedger(Act(e, actions[0]).e, actions[1..]);
    }
  }

  /** The accepted bytes are the acknowledged ones followed by the buffer, and while the buffer
      holds anything both counters are `base` plus the number of acknowledged bytes. */
  predicate StreamAccounted(e: Endpoint) {
    && 0 <= Acked(e) && e.sess.unackedSize <= |e.sess.unacked|
    && e.accepted == e.accepted[..Acked(e)] + e.sess.unacked[..e.sess.unackedSize]
    && (e.sess.unackedSize > 0 ==> e.sess.mySeq == e.sess.unackedStart == Add32(e.base, Acked(e)))
  }

  lemma LedgerAccounts(e: Endpoint)
    requires Ledger(e)
    ensures e.sess.doomed || StreamAccounted(e)
  {
  }

  /** On every run of an established session, against every peer, the stream is accounted for
      as long as the session is not marked for deletion. */
  lemma StreamLedger(e: Endpoint, actions: seq<Action>)
    requires Fresh(e)
    requires forall a <- actions :: Admissible(a)
    ensures Run(e, actions).sess.doomed || StreamAccounted(Run(e, actions))
  {
    RunKeepsLedger(e, actions);
    LedgerAccounts(Run(e, actions));
  }
}
