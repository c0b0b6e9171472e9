/** What one critical section of the TCP engine does to one session, as functions on values.
    Every region of tcp.cpp that holds the session lock is one function here. */
module TcpModel {
  import opened Bytes

  datatype TcpState =
    | Closed | Listen | SynRcvd | SynSent | Established | FinWait1
    | FinWait2 | CloseWait | LastAck | Closing | TimeWait | RstAct
  {
    /** The order of the C enumeration, which the engine compares with `>` and `>=`. */
    function Rank(): nat {
      match this
      case Closed => 0 case Listen => 1 case SynRcvd => 2 case SynSent => 3
      case Established => 4 case FinWait1 => 5 case FinWait2 => 6 case CloseWait => 7
      case LastAck => 8 case Closing => 9 case TimeWait => 10 case RstAct => 11
    }

    predicate Past() {
      Rank() > Established.Rank()
    }
  }

  /** A segment as the handler sees it. `headerFits` is false when the header length field runs
      past the packet; such a packet carries no data. */
  datatype Segment = Segment(syn: bool, ack: bool, fin: bool, rst: bool,
                             seqNr: U32, ackTo: U32, win: U16, headerFits: bool, data: seq<Byte>)

  /** `unacked` is the allocated send buffer, `unackedSize` how much of it is in use.
      `doomed` records that the handler set `delete_entry`: the session will leave the table. */
  datatype Session = Session(state: TcpState, mySeq: U32, theirSeq: U32,
                             unacked: seq<Byte>, unackedSize: nat, unackedStart: U32,
                             dataSince: nat, window: U16, finAfter: bool,
                             finFlag: bool, finSeq: U32, terminating: bool, doomed: bool)

  /** Answers of layer 7: is there a listener, does it take the session, does it take the data. */
  datatype Layer7 = Layer7(listening: bool, takesSession: bool, takesData: bool)

  /** The handler's locals while it works on a segment. */
  datatype Handling = Handling(s: Session, sent: seq<Segment>, delivered: seq<Byte>,
                               newSessions: nat, erase: bool, fail: bool)

  /** What no stage of the handler takes back. */
  predicate Progress(h: Handling, h': Handling) {
    && (h.s.doomed || h.erase ==> h'.s.doomed || h'.erase)
    && (h'.s.doomed ==> h.s.doomed || h'.erase)
    && (h.s.state != LastAck ==>
          && (h.s.state.Rank() >= Established.Rank() ==> h'.s.state.Rank() >= Established.Rank())
          && (h.s.state.Past() ==> h'.s.state.Past())
          && ((h.erase && !h.fail ==> h.s.state.Past()) ==> (h'.erase && !h'.fail ==> h'.s.state.Past()))
          && h'.s.state != LastAck)
    && (h.erase ==> h'.erase) && (h.fail ==> h'.fail)
    && h.sent <= h'.sent && h.delivered <= h'.delivered
    && h.newSessions <= h'.newSessions
    && ((forall f <- h.sent :: !f.rst) && !h'.fail ==> forall f <- h'.sent :: !f.rst)
  }

  const OUR_WINDOW: U16 := 0xffff
  const BUFFER_LIMIT := 0x10_0000

  // ----- sending a segment without data ------------------------------------------------------

  function Bare(s: Session, syn: bool, ack: bool, fin: bool, ackTo: U32): Segment {
    Segment(syn, ack, fin, false, s.mySeq, ackTo, OUR_WINDOW, true, [])
  }

  /** SYN and FIN take a sequence number, a bare acknowledgement does not. */
  function Sent(s: Session, g: Segment): Session {
    s.(mySeq := Add32(s.mySeq, if g.syn || g.fin then 1 else 0))
  }

  function Emit(h: Handling, syn: bool, fin: bool, ackTo: U32): Handling {
    var g := Bare(h.s, syn, true, fin, ackTo);
    h.(s := Sent(h.s, g), sent := h.sent + [g])
  }

  function Go(h: Handling, state: TcpState): Handling {
    h.(s := h.s.(state := state))
  }

  // ----- the stages of packet_handler ----------------------------------------------------------

  function HandleRst(h: Handling, g: Segment): (h': Handling)
    ensures Progress(h, h')
  {
    if g.rst && h.s.state.Rank() >= SynRcvd.Rank() then Go(h, Closing).(erase := true) else h
  }

  function HandleSyn(h: Handling, g: Segment): (h': Handling)
    ensures Progress(h, h')
  {
    if g.syn && !h.erase && (h.s.state == Listen || h.s.state == SynRcvd)
    then Go(Emit(h, true, false, h.s.theirSeq), SynRcvd)
    else h
  }

  /** memmove of `n` bytes from offset `from` to the start of the buffer. */
  function MovedDown(buf: seq<Byte>, from: int, n: int): seq<Byte> {
    if 0 <= from && 0 <= n && from + n <= |buf| then buf[from..from + n] + buf[n..] else buf
  }

  /** The session after the first `ackN` bytes of its buffer are dropped. */
  function Dropped(s: Session, ackN: int, leftN: int): Session {
    s.(unacked := if leftN > 0 then MovedDown(s.unacked, ackN, leftN) else s.unacked,
       unackedSize := (s.unackedSize - ackN) % M64,
       unackedStart := Add32(s.unackedStart, ackN),
       mySeq := Add32(s.mySeq, ackN))
  }

  /** A deferred close goes out when the buffer runs empty. */
  function DeferredFin(h: Handling): (h': Handling)
    ensures Progress(h, h')
  {
    if h.s.unackedSize == 0 && h.s.finAfter
    then Go(Emit(h, false, true, h.s.theirSeq), FinWait1)
    else h
  }

  /** An acknowledgement in the established state. */
  function AckData(h: Handling, g: Segment): (h': Handling)
    ensures Progress(h, h')
  {
    var ackN := AsInt32(g.ackTo - h.s.unackedStart);
    if ackN > 0 && h.s.unackedSize > 0 then
      var leftN := AsInt32(h.s.unackedSize - ackN);
      var under := leftN < 0;
      DeferredFin(h.(s := Dropped(h.s, ackN, leftN), erase := h.erase || under, fail := h.fail || under))
    else h
  }

  function HandleAck(h: Handling, g: Segment, l7: Layer7): (h': Handling)
    ensures Progress(h, h')
  {
    if !g.ack || h.erase then h else
    var h' :=
      match h.s.state
      case SynSent =>
        var s := h.s.(theirSeq := Add32(g.seqNr, 1));
        Go(Emit(h.(s := s), false, false, s.theirSeq), Established)
      case SynRcvd =>
        Go(h, Established).(newSessions := h.newSessions + (if l7.listening then 1 else 0),
                            fail := h.fail || !l7.listening || !l7.takesSession)
      case LastAck => Go(h, Listen).(erase := true)
      case Established => AckData(h, g)
      case _ => h;
    h'.(s := h'.s.(dataSince := 0))
  }

  function HandleFin(h: Handling, g: Segment): (h': Handling)
    ensures Progress(h, h')
  {
    if g.fin && h.s.state == Established
    then h.(s := h.s.(finSeq := g.seqNr, finFlag := true, terminating := true, state := FinWait1))
    else h
  }

  function AnswerFin(h: Handling): (h': Handling)
    ensures Progress(h, h')
  {
    if h.s.finFlag && h.s.finSeq == h.s.theirSeq
    then Go(Emit(h, false, true, Add32(h.s.theirSeq, 1)), FinWait2).(erase := true)
    else h
  }

  function HandlePayload(h: Handling, g: Segment, l7: Layer7): (h': Handling)
    ensures Progress(h, h')
  {
    if g.data == [] || h.fail then h
    else if g.seqNr == h.s.theirSeq then
      var h' := h.(delivered := h.delivered + (if l7.listening then g.data else []),
                   fail := !l7.listening || !l7.takesData);
      if h'.fail then h'
      else
        var s := h'.s.(theirSeq := Add32(h'.s.theirSeq, |g.data|));
        if s.unackedSize == 0 then Emit(h'.(s := s), false, false, s.theirSeq) else h'.(s := s)
    else
      Emit(h, false, false, if g.seqNr > h.s.theirSeq then h.s.theirSeq else g.seqNr)
  }

  function HandleFail(h: Handling, g: Segment): (h': Handling)
    ensures Progress(h, h')
  {
    if h.fail
    then h.(sent := h.sent + [Segment(false, true, false, true, 0, Add32(g.seqNr, 1), OUR_WINDOW, true, [])],
            erase := true)
    else h
  }

  function Finish(h: Handling): (h': Handling)
    ensures Progress(h, h')
  {
    if h.erase then h.(s := h.s.(terminating := true, doomed := true)) else h
  }

  function Begin(s: Session, g: Segment): Handling {
    Handling(s.(window := if g.win < 1 then 1 else g.win), [], [], 0, false, !g.headerFits)
  }

  function HandleControl(h: Handling, g: Segment, l7: Layer7): (h': Handling)
    ensures Progress(h, h')
  {
    AnswerFin(HandleFin(HandleAck(HandleSyn(HandleRst(h, g), g), g, l7), g))
  }

  /** packet_handler from taking the session lock to releasing it. */
  function HandleSegment(s: Session, g: Segment, l7: Layer7): (h: Handling)
    ensures Progress(Begin(s, g), h)
    ensures h.fail ==> h.erase
    ensures h.s.doomed == (s.doomed || h.erase)
  {
    var h0 := Begin(s, g);
    var h1 := if h0.fail then h0 else HandleControl(h0, g, l7);
    Finish(HandleFail(HandlePayload(h1, g, l7), g))
  }

  // ----- send_data, end_session ----------------------------------------------------------------

  predicate Accepts(s: Session) {
    s.unackedSize < BUFFER_LIMIT && s.state == Established
  }

  /** The used part of the send buffer. */
  function Buffered(s: Session): seq<Byte> {
    if s.unackedSize <= |s.unacked| then s.unacked[..s.unackedSize] else s.unacked
  }

  /** One pass through send_data. A full buffer drops the data or waits; either way nothing changes. */
  function QueueData(s: Session, data: seq<Byte>): Session {
    if Accepts(s)
    then s.(unackedStart := if s.unackedSize == 0 then s.mySeq else s.unackedStart,
            unacked := Buffered(s) + data,
            unackedSize := s.unackedSize + |data|)
    else s
  }

  function CloseSession(s: Session): (Session, seq<Segment>) {
    if s.unackedSize == 0 then
      var g := Bare(s, false, false, true, s.theirSeq);
      (Sent(s, g).(state := FinWait1), [g])
    else
      (s.(finAfter := true), [])
  }

  // ----- unacked_sender ------------------------------------------------------------------------

  /** The byte budget of a pass: the subtraction is done in size_t, the result kept in an int. */
  function ToSend(s: Session): int {
    AsInt32(Min((s.window - s.dataSince) % M64, s.unackedSize))
  }

  function DataSegment(s: Session, i: nat, n: nat): Segment
    requires i + n <= |s.unacked|
  {
    Segment(false, true, false, false, Add32(s.mySeq, i), s.theirSeq, OUR_WINDOW, true, s.unacked[i..i + n])
  }

  /** The segments of one pass from offset `i`; the device takes `budget` of them before it fails. */
  function PassFrom(s: Session, i: nat, toSend: int, packetSize: nat, budget: nat): seq<Segment>
    requires packetSize > 0 && toSend <= |s.unacked|
    decreases budget
  {
    if i >= toSend || budget == 0 then []
    else [DataSegment(s, i, Min(packetSize, toSend - i))]
         + PassFrom(s, i + packetSize, toSend, packetSize, budget - 1)
  }

  function DataOf(gs: seq<Segment>): seq<Byte> {
    if gs == [] then [] else gs[0].data + DataOf(gs[1..])
  }

  lemma NothingSent()
    ensures DataOf([]) == []
  {
  }

  /** The buffer really holds what its size says; the retransmit loop reads nothing else. */
  predicate InBounds(s: Session) {
    s.unackedSize <= |s.unacked|
  }

  lemma ToSendInBuffer(s: Session)
    ensures ToSend(s) <= s.unackedSize
  {
    var m := Min((s.window - s.dataSince) % M64, s.unackedSize);
    assert AsInt32(m) <= m;
  }

  function ResendPass(s: Session, packetSize: nat, budget: nat): (Session, seq<Segment>)
    requires packetSize > 0 && InBounds(s)
  {
    ToSendInBuffer(s);
    var gs := PassFrom(s, 0, ToSend(s), packetSize, budget);
    (s.(dataSince := s.dataSince + |DataOf(gs)|), gs)
  }
}
