/** The retransmit pass: what it puts on the wire, and how it respects the peer's window. */
module TcpFlow {
  import opened Bytes
  import opened TcpModel
  import opened TcpLedger
  import opened TcpLifecycle

  /** Non-empty data segments whose numbers and contents lay `bytes` out contiguously from `seqNr`. */
  predicate Tiles(gs: seq<Segment>, seqNr: U32, bytes: seq<Byte>) {
    if gs == [] then bytes == []
    else
      var d := gs[0].data;
      && d != [] && d <= bytes && gs[0].seqNr == seqNr
      && !gs[0].syn && !gs[0].fin && !gs[0].rst
      && Tiles(gs[1..], Add32(seqNr, |d|), bytes[|d|..])
  }

  /** The offset at which a pass from offset `i` ends. */
  function PassEnd(i: nat, toSend: int, packetSize: nat, budget: nat): int
    decreases budget
  {
    if i >= toSend || budget == 0 then Min(i, toSend)
    else PassEnd(i + packetSize, toSend, packetSize, budget - 1)
  }

  lemma {:induction false} PassEndIs(i: nat, toSend: int, packetSize: nat, budget: nat)
    requires packetSize > 0
    ensures PassEnd(i, toSend, packetSize, budget) == Min(toSend, i + budget * packetSize)
    decreases budget
  {
    if i < toSend && budget > 0 {
      PassEndIs(i + packetSize, toSend, packetSize, budget - 1);
      assert budget * packetSize == packetSize + (budget - 1) * packetSize;
    } else {
      assert budget * packetSize >= 0;
    }
  }

  lemma {:induction false} PassTiles(s: Session, i: nat, toSend: int, packetSize: nat, budget: nat)
    requires packetSize > 0 && i <= toSend <= |s.unacked|
    ensures var n := PassEnd(i, toSend, packetSize, budget);
            i <= n <= toSend && Tiles(PassFrom(s, i, toSend, packetSize, budget), Add32(s.mySeq, i), s.unacked[i..n])
    decreases budget
  {
    hide Add32, Tiles;
    if i < toSend && budget > 0 {
      var n := PassEnd(i, toSend, packetSize, budget);
      var k := Min(packetSize, toSend - i);
      if k == packetSize {
        PassTiles(s, i + packetSize, toSend, packetSize, budget - 1);
      } else {
        NoTiles(Add32(s.mySeq, i + k));
        assert PassEnd(i + packetSize, toSend, packetSize, budget - 1) == toSend;
        assert s.unacked[i + k..n] == [];
      }
      Add32Add32(s.mySeq, i, k);
      TilesCons(DataSegment(s, i, k), PassFrom(s, i + packetSize, toSend, packetSize, budget - 1),
                s.unacked[i + k..n]);
      assert s.unacked[i..n] == s.unacked[i..i + k] + s.unacked[i + k..n];
    } else {
      NoTiles(Add32(s.mySeq, i));
      assert s.unacked[i..i] == [];
    }
  }

  lemma NoTiles(seqNr: U32)
    ensures Tiles([], seqNr, [])
  {
  }

  lemma TilesCons(g: Segment, rest: seq<Segment>, bytes: seq<Byte>)
    requires g.data != [] && !g.syn && !g.fin && !g.rst
    requires Tiles(rest, Add32(g.seqNr, |g.data|), bytes)
    ensures Tiles([g] + rest, g.seqNr, g.data + bytes)
  {
    assert ([g] + rest)[1..] == rest;
    assert (g.data + bytes)[|g.data|..] == bytes;
  }

  /** One pass lays out the first bytes of the buffer from my_seq_nr: all that fit the window when
      the device takes every packet, a whole number of packets of them when it stops early. */
  lemma ResendTilesBuffer(s: Session, packetSize: nat, budget: nat)
    requires packetSize > 0 && InBounds(s) && ToSend(s) >= 0
    ensures var n := Min(ToSend(s), budget * packetSize);
            && 0 <= n <= |s.unacked|
            && Tiles(ResendPass(s, packetSize, budget).1, s.mySeq, s.unacked[..n])
            && ResendPass(s, packetSize, budget).0 == s.(dataSince := s.dataSince + n)
  {
    hide ToSend, Tiles, PassFrom, Add32, PassEnd, DataOf;
    ToSendInBuffer(s);
    PassTiles(s, 0, ToSend(s), packetSize, budget);
    PassEndIs(0, ToSend(s), packetSize, budget);
    var n := Min(ToSend(s), budget * packetSize);
    assert s.unacked[0..n] == s.unacked[..n];
    NoNumber(s.mySeq);
    TilesData(ResendPass(s, packetSize, budget).1, s.mySeq, s.unacked[..n]);
  }

  lemma {:induction false} TilesData(gs: seq<Segment>, seqNr: U32, bytes: seq<Byte>)
    requires Tiles(gs, seqNr, bytes)
    ensures DataOf(gs) == bytes
  {
    if gs != [] {
      var d := gs[0].data;
      TilesData(gs[1..], Add32(seqNr, |d|), bytes[|d|..]);
      assert bytes == d + bytes[|d|..];
    }
  }

  /** Every segment of a pass acknowledges what has been received. */
  lemma PassAcknowledges(s: Session, i: nat, toSend: int, packetSize: nat, budget: nat)
    requires packetSize > 0 && toSend <= |s.unacked|
    ensures forall g <- PassFrom(s, i, toSend, packetSize, budget) :: g.ack && g.ackTo == s.theirSeq
    decreases budget
  {
  }

  // ----- the window ----------------------------------------------------------------------------------

  /** The budget is the window's remainder when the window was not already exceeded; otherwise the
      unsigned subtraction wraps and the whole buffer goes out. */
  lemma BudgetOfPass(s: Session)
    requires s.dataSince < M32
    ensures s.dataSince <= s.window ==> ToSend(s) == Min(s.window - s.dataSince, s.unackedSize)
    ensures s.dataSince > s.window && s.unackedSize <= M64 - M32 ==> ToSend(s) == AsInt32(s.unackedSize)
  {
    if s.dataSince > s.window {
      assert (s.window - s.dataSince) % M64 == M64 + s.window - s.dataSince;
    } else {
      assert (s.window - s.dataSince) % M64 == s.window - s.dataSince;
      AsInt32Exact(Min(s.window - s.dataSince, s.unackedSize));
    }
  }

  /** Bytes put on the wire since the last acknowledgement was processed, after a step with `n` before. */
  function Outstanding(e: Endpoint, a: Action, n: nat): nat {
    if a.Receive? && a.g.ack then 0 else n + |DataOf(Act(e, a).sent)|
  }

  predicate WindowOk(e: Endpoint, n: nat) {
    n == e.sess.dataSince <= e.sess.window && InBounds(e.sess)
  }

  /** A segment without ACK announces less than is in flight. */
  predicate Shrinks(a: Action, n: nat) {
    a.Receive? && !a.g.ack && (if a.g.win < 1 then 1 else a.g.win) < n
  }

  lemma AckResetsCount(s: Session, g: Segment, l7: Layer7)
    requires g.ack
    ensures var h := HandleSegment(s, g, l7); h.s.doomed || (h.s.dataSince == 0 <= h.s.window)
  {
    hide Add32, AckData;
    var h0 := Begin(s, g);
    if !h0.fail {
      var h2 := HandleSyn(HandleRst(h0, g), g);
      var h3 := HandleAck(h2, g, l7);
      assert h2.erase || h3.s.dataSince == 0;
      var h4 := AnswerFin(HandleFin(h3, g));
      assert h4.s.dataSince == h3.s.dataSince && (h3.erase ==> h4.erase);
      hide HandleRst, HandleSyn, HandleAck, HandleFin, AnswerFin;
      CountUntouched(h4, g, l7);
    }
  }

  predicate NoData(gs: seq<Segment>) {
    forall g <- gs :: g.data == []
  }

  lemma {:induction false} NothingOf(gs: seq<Segment>)
    requires NoData(gs)
    ensures DataOf(gs) == []
  {
    if gs != [] {
      assert gs[0] in gs;
      NothingOf(gs[1..]);
    }
  }

  lemma CountUntouched(h: Handling, g: Segment, l7: Layer7)
    ensures var h' := Finish(HandleFail(HandlePayload(h, g, l7), g));
            && h'.s.dataSince == h.s.dataSince && (h.erase ==> h'.s.doomed) && h'.s.window == h.s.window
            && (NoData(h.sent) ==> NoData(h'.sent))
  {
    hide Add32, Progress, HandlePayload;
    PayloadKeeps(h, g, l7);
  }

  lemma CountKept(s: Session, g: Segment, l7: Layer7)
    requires !g.ack
    ensures var h := HandleSegment(s, g, l7);
            && h.s.dataSince == s.dataSince && h.s.window == (if g.win < 1 then 1 else g.win)
            && DataOf(h.sent) == []
  {
    hide Add32, Progress, HandlePayload, HandleFail, Finish, DataOf;
    var h0 := Begin(s, g);
    var h1 := if h0.fail then h0 else HandleControl(h0, g, l7);
    assert HandleAck(HandleSyn(HandleRst(h0, g), g), g, l7) == HandleSyn(HandleRst(h0, g), g);
    assert h1.s.dataSince == s.dataSince && h1.s.window == h0.s.window && NoData(h1.sent);
    CountUntouched(h1, g, l7);
    NothingOf(HandleSegment(s, g, l7).sent);
  }

  // ----- a live session never claims more than its buffer holds ------------------------------------------

  predicate BoundsKept(h: Handling) {
    h.erase || h.s.doomed || InBounds(h.s)
  }

  lemma AckDataBounds(h: Handling, g: Segment)
    requires BoundsKept(h)
    ensures BoundsKept(AckData(h, g))
  {
    hide Add32, Progress, AsInt32;
    var ackN := AsInt32(g.ackTo - h.s.unackedStart);
    if ackN > 0 && h.s.unackedSize > 0 {
      NotPastZero(h.s.unackedSize, ackN);
    }
  }

  /** What is left turns negative in the int whenever it is negative. */
  lemma NotPastZero(size: nat, ackN: int)
    requires 0 < ackN < M31
    ensures AsInt32(size - ackN) >= 0 ==> (size - ackN) % M64 <= size - ackN
  {
  }

  lemma AckBounds(h: Handling, g: Segment, l7: Layer7)
    requires BoundsKept(h)
    ensures BoundsKept(HandleAck(h, g, l7))
  {
    hide Add32, Progress, AckData, Emit;
    if h.s.state == Established {
      AckDataBounds(h, g);
    } else if h.s.state == SynSent {
      var s := h.s.(theirSeq := Add32(g.seqNr, 1));
      EmitPlain(h.(s := s), s.theirSeq);
    }
  }

  lemma FinBounds(h: Handling, g: Segment)
    requires BoundsKept(h)
    ensures BoundsKept(AnswerFin(HandleFin(h, g)))
  {
    hide Add32, Progress;
  }

  lemma OpeningBounds(h: Handling, g: Segment)
    requires BoundsKept(h)
    ensures BoundsKept(HandleSyn(HandleRst(h, g), g))
  {
    hide Add32, Progress;
  }

  lemma ControlBounds(h: Handling, g: Segment, l7: Layer7)
    requires BoundsKept(h)
    ensures BoundsKept(HandleControl(h, g, l7))
  {
    hide HandleRst, HandleSyn, HandleAck, HandleFin, AnswerFin, BoundsKept, Progress;
    var h2 := HandleSyn(HandleRst(h, g), g);
    OpeningBounds(h, g);
    AckBounds(h2, g, l7);
    FinBounds(HandleAck(h2, g, l7), g);
  }

  lemma SegmentBounds(s: Session, g: Segment, l7: Layer7)
    requires s.doomed || InBounds(s)
    ensures var s' := HandleSegment(s, g, l7).s; s'.doomed || InBounds(s')
  {
    hide HandleControl, HandlePayload, Add32;
    var h0 := Begin(s, g);
    var h1 := if h0.fail then h0 else HandleControl(h0, g, l7);
    ControlBounds(h0, g, l7);
    PayloadKeeps(h1, g, l7);
  }

  lemma StepBounds(e: Endpoint, a: Action)
    requires e.sess.doomed || InBounds(e.sess)
    ensures var s' := Act(e, a).e.sess; s'.doomed || InBounds(s')
  {
    hide HandleSegment, PassFrom, Add32;
    if a.Receive? {
      SegmentBounds(e.sess, a.g, a.l7);
    }
  }

  /** A live session within its window stays within it on exactly the steps that do not shrink it. */
  lemma StepWindowIff(e: Endpoint, a: Action, n: nat)
    requires WindowOk(e, n) && !e.sess.doomed && !Act(e, a).e.sess.doomed
    ensures !Shrinks(a, n) ==> WindowOk(Act(e, a).e, Outstanding(e, a, n))
    ensures Shrinks(a, n) ==> Outstanding(e, a, n) > Act(e, a).e.sess.window
  {
    hide HandleSegment, PassFrom;
    StepBounds(e, a);
    match a
    case Receive(g, l7) =>
      if g.ack {
        AckResetsCount(e.sess, g, l7);
      } else {
        CountKept(e.sess, g, l7);
      }
    case Resend(packetSize, budget) =>
      if packetSize > 0 {
        BudgetOfPass(e.sess);
        ResendTilesBuffer(e.sess, packetSize, budget);
        TilesData(ResendPass(e.sess, packetSize, budget).1, e.sess.mySeq,
                  e.sess.unacked[..Min(ToSend(e.sess), budget * packetSize)]);
      }
    case _ => NothingOf(Act(e, a).sent);
  }

  /** In every state of a run, up to its deletion mark, no more than a window is in flight. */
  predicate AlwaysWithin(e: Endpoint, actions: seq<Action>, n: nat)
    decreases |actions|
  {
    e.sess.doomed ||
    (n <= e.sess.window &&
     (actions == [] || AlwaysWithin(Act(e, actions[0]).e, actions[1..], Outstanding(e, actions[0], n))))
  }

  /** No segment without ACK ever announces less than is in flight and leaves the session alive. */
  predicate NeverShrinks(e: Endpoint, actions: seq<Action>, n: nat)
    decreases |actions|
  {
    e.sess.doomed || actions == [] ||
    (var e' := Act(e, actions[0]).e;
     e'.sess.doomed || (!Shrinks(actions[0], n) && NeverShrinks(e', actions[1..], Outstanding(e, actions[0], n))))
  }

  /** On every run of a live session at most a window of bytes is in flight, if and only if no segment
      without ACK announces less than is in flight: in particular when the peer always sets ACK. */
  lemma {:induction false} WindowRespectedIff(e: Endpoint, actions: seq<Action>, n: nat)
    requires e.sess.doomed || WindowOk(e, n)
    ensures AlwaysWithin(e, actions, n) <==> NeverShrinks(e, actions, n)
    ensures (forall a <- actions :: a.Receive? ==> a.g.ack) ==> AlwaysWithin(e, actions, n)
    decreases |actions|
  {
    hide Act, DataOf;
    if !e.sess.doomed && actions != [] {
      var a := actions[0];
      var e' := Act(e, a).e;
      if !e'.sess.doomed {
        StepWindowIff(e, a, n);
        if !Shrinks(a, n) {
          WindowRespectedIff(e', actions[1..], Outstanding(e, a, n));
        }
      }
    }
  }
}
