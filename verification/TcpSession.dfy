/** The session object itself: the fields tcp.cpp updates in place and the methods that update them,
    each proved to do what TcpModel says. */
module TcpSession {
  import opened Bytes
  import opened TcpModel

  /** memmove to the start of a buffer, front to back as the regions may overlap. */
  method MoveDown(buf: array<Byte>, from: nat, n: nat)
    modifies buf
    ensures buf[..] == MovedDown(old(buf[..]), from, n)
  {
    if from + n <= buf.Length {
      ghost var was := buf[..];
      for i := 0 to n
        invariant forall k | 0 <= k < i :: buf[k] == was[from + k]
        invariant forall k | i <= k < buf.Length :: buf[k] == was[k]
      {
        buf[i] := buf[from + i];
      }
      assert buf[..] == was[from..from + n] + was[n..];
    }
  }

  class Tcp {
    var state: TcpState
    var mySeq: U32
    var theirSeq: U32
    var unacked: array<Byte>
    var unackedSize: nat
    var unackedStart: U32
    var dataSince: nat
    var window: U16
    var finAfter: bool
    var finFlag: bool
    var finSeq: U32
    var terminating: bool
    var doomed: bool

    ghost function Value(): Session
      reads this, unacked
    {
      Session(state, mySeq, theirSeq, unacked[..], unackedSize, unackedStart, dataSince, window, finAfter,
              finFlag, finSeq, terminating, doomed)
    }

    constructor (s: Session)
      ensures Value() == s
    {
      state, mySeq, theirSeq := s.state, s.mySeq, s.theirSeq;
      unacked := new Byte[|s.unacked|](i requires 0 <= i < |s.unacked| => s.unacked[i]);
      unackedSize, unackedStart := s.unackedSize, s.unackedStart;
      dataSince, window, finAfter := s.dataSince, s.window, s.finAfter;
      finFlag, finSeq, terminating, doomed := s.finFlag, s.finSeq, s.terminating, s.doomed;
      new;
      assert unacked[..] == s.unacked;
    }

    /** send_segment with a pointer to my_seq_nr and no data. */
    method SendBare(syn: bool, ack: bool, fin: bool, ackTo: U32) returns (g: Segment)
      modifies this`mySeq
      ensures g == Bare(old(Value()), syn, ack, fin, ackTo)
      ensures Value() == Sent(old(Value()), g)
    {
      g := Segment(syn, ack, fin, false, mySeq, ackTo, OUR_WINDOW, true, []);
      if syn || fin {
        mySeq := Add32(mySeq, 1);
      }
    }

    /** The acknowledged bytes leave the buffer: the rest is moved down in place. */
    method Drop(ackN: nat) returns (under: bool)
      modifies this`unackedSize, this`unackedStart, this`mySeq, unacked
      ensures var left := AsInt32(old(unackedSize) - ackN);
              Value() == Dropped(old(Value()), ackN, left) && under == (left < 0)
    {
      hide Add32, AsInt32, MovedDown;
      var leftN := AsInt32(unackedSize - ackN);
      under := leftN < 0;
      if leftN > 0 {
        MoveDown(unacked, ackN, leftN);
      }
      unackedSize := (unackedSize - ackN) % M64;
      unackedStart := Add32(unackedStart, ackN);
      mySeq := Add32(mySeq, ackN);
    }

    /** An acknowledgement in the established state: drop what it covers, send a deferred FIN. */
    method AckReceived(g: Segment) returns (sent: seq<Segment>, under: bool)
      modifies this, unacked
      ensures unacked == old(unacked)
      ensures AckData(Handling(old(Value()), [], [], 0, false, false), g)
           == Handling(Value(), sent, [], 0, under, under)
    {
      hide Progress, Add32, AsInt32, Dropped;
      sent, under := [], false;
      var ackN := AsInt32(g.ackTo - unackedStart);
      if ackN > 0 && unackedSize > 0 {
        under := Drop(ackN);
        if unackedSize == 0 && finAfter {
          var f := SendBare(false, true, true, theirSeq);
          sent := [f];
          state := FinWait1;
        }
      }
    }

    /** RST and SYN. */
    method RstAndSyn(g: Segment) returns (sent: seq<Segment>, erase: bool)
      modifies this
      ensures unacked == old(unacked)
      ensures HandleSyn(HandleRst(Handling(old(Value()), [], [], 0, false, false), g), g)
           == Handling(Value(), sent, [], 0, erase, false)
    {
      hide Progress, Add32;
      sent, erase := [], false;
      if g.rst && state.Rank() >= SynRcvd.Rank() {
        state := Closing;
        erase := true;
      }
      if g.syn && !erase && (state == Listen || state == SynRcvd) {
        var f := SendBare(true, true, false, theirSeq);
        sent := [f];
        state := SynRcvd;
      }
    }

    /** The ACK flag, in whatever state the session is. */
    method Acknowledged(g: Segment, l7: Layer7, before: seq<Segment>)
      returns (sent: seq<Segment>, newSessions: nat, erase: bool, fail: bool)
      requires g.ack && (state == Established ==> before == [])
      modifies this, unacked
      ensures unacked == old(unacked)
      ensures HandleAck(Handling(old(Value()), before, [], 0, false, false), g, l7)
           == Handling(Value(), sent, [], newSessions, erase, fail)
    {
      hide Progress, Add32, AckData;
      sent, newSessions, erase, fail := before, 0, false, false;
      match state {
        case SynSent =>
          theirSeq := Add32(g.seqNr, 1);
          var f := SendBare(false, true, false, theirSeq);
          sent := sent + [f];
          state := Established;
        case SynRcvd =>
          state := Established;
          if l7.listening {
            newSessions := 1;
            fail := !l7.takesSession;
          } else {
            fail := true;
          }
        case LastAck =>
          state := Listen;
          erase := true;
        case Established =>
          var under;
          sent, under := AckReceived(g);
          erase, fail := under, under;
        case _ =>
      }
      dataSince := 0;
    }

    /** FIN, and the answer to it once everything before it has arrived. */
    method FinReceived(g: Segment, before: seq<Segment>, newSessions: nat, erased: bool, fail: bool)
      returns (sent: seq<Segment>, erase: bool)
      modifies this
      ensures unacked == old(unacked)
      ensures AnswerFin(HandleFin(Handling(old(Value()), before, [], newSessions, erased, fail), g))
           == Handling(Value(), sent, [], newSessions, erase, fail)
    {
      hide Progress, Add32;
      sent, erase := before, erased;
      if g.fin && state == Established {
        finSeq, finFlag, terminating := g.seqNr, true, true;
        state := FinWait1;
      }
      if finFlag && finSeq == theirSeq {
        var f := SendBare(false, true, true, Add32(theirSeq, 1));
        sent := sent + [f];
        state := FinWait2;
        erase := true;
      }
    }

    /** Data: in order it goes to layer 7, otherwise only an acknowledgement goes back. */
    method PayloadReceived(g: Segment, l7: Layer7, before: seq<Segment>, newSessions: nat, erase: bool)
      returns (sent: seq<Segment>, delivered: seq<Byte>, fail: bool)
      requires g.data != []
      modifies this
      ensures unacked == old(unacked)
      ensures HandlePayload(Handling(old(Value()), before, [], newSessions, erase, false), g, l7)
           == Handling(Value(), sent, delivered, newSessions, erase, fail)
    {
      hide Progress, Add32;
      sent, delivered, fail := before, [], false;
      if g.seqNr == theirSeq {
        if l7.listening {
          delivered := g.data;
          fail := !l7.takesData;
        } else {
          fail := true;
        }
        if !fail {
          theirSeq := Add32(theirSeq, |g.data|);
          if unackedSize == 0 {
            var f := SendBare(false, true, false, theirSeq);
            sent := sent + [f];
          }
        }
      } else {
        var f := SendBare(false, true, false, if g.seqNr > theirSeq then theirSeq else g.seqNr);
        sent := sent + [f];
      }
    }

    /** packet_handler under the session lock. */
    method Handle(g: Segment, l7: Layer7) returns (sent: seq<Segment>, delivered: seq<Byte>, newSessions: nat)
      modifies this, unacked
      ensures unacked == old(unacked)
      ensures var h := HandleSegment(old(Value()), g, l7);
              Value() == h.s && sent == h.sent && delivered == h.delivered && newSessions == h.newSessions
    {
      hide HandleRst, HandleSyn, HandleAck, HandleFin, AnswerFin, HandlePayload, Progress;
      var erase, fail := false, !g.headerFits;
      sent, delivered, newSessions := [], [], 0;
      window := if g.win < 1 then 1 else g.win;
      ghost var h0 := Begin(old(Value()), g);
      if !fail {
        sent, erase := RstAndSyn(g);
        ghost var h2 := HandleSyn(HandleRst(h0, g), g);
        ControlOpening(h0, g);
        AckSkipped(h2, g, l7);
        if g.ack && !erase {
          sent, newSessions, erase, fail := Acknowledged(g, l7, sent);
        }
        sent, erase := FinReceived(g, sent, newSessions, erase, fail);
      }
      ghost var h1 := if h0.fail then h0 else HandleControl(h0, g, l7);
      assert h1 == Handling(Value(), sent, [], newSessions, erase, fail);
      PayloadSkipped(h1, g, l7);
      if g.data != [] && !fail {
        sent, delivered, fail := PayloadReceived(g, l7, sent, newSessions, erase);
      }
      if fail {
        sent := sent + [Segment(false, true, false, true, 0, Add32(g.seqNr, 1), OUR_WINDOW, true, [])];
        erase := true;
      }
      if erase {
        terminating, doomed := true, true;
      }
    }

    /** send_data: what it takes is appended to the buffer; a full buffer takes nothing. */
    method SendData(data: seq<Byte>)
      requires InBounds(Value())
      modifies this
      ensures unacked == old(unacked) || fresh(unacked)
      ensures Value() == QueueData(old(Value()), data)
    {
      if unackedSize < BUFFER_LIMIT {
        if state == Established {
          if unackedSize == 0 {
            unackedStart := mySeq;
          }
          unacked := Grown(data);
          unackedSize := unackedSize + |data|;
        }
      }
    }

    /** realloc and memcpy: a buffer that holds the used part of the old one, then the data. */
    method Grown(data: seq<Byte>) returns (buf: array<Byte>)
      requires unackedSize <= unacked.Length
      ensures fresh(buf) && buf[..] == unacked[..unackedSize] + data
    {
      var n := unackedSize;
      buf := new Byte[n + |data|](_ => 0);
      forall i | 0 <= i < n { buf[i] := unacked[i]; }
      forall i | 0 <= i < |data| { buf[n + i] := data[i]; }
    }

    /** end_session: close now, or when the buffer has drained. */
    method EndSession() returns (sent: seq<Segment>)
      modifies this
      ensures unacked == old(unacked)
      ensures (Value(), sent) == CloseSession(old(Value()))
    {
      sent := [];
      if unackedSize == 0 {
        var g := SendBare(false, false, true, theirSeq);
        sent := [g];
        state := FinWait1;
      } else {
        finAfter := true;
      }
    }

    method PassBudget() returns (toSend: int)
      ensures toSend == ToSend(Value()) <= unackedSize
      ensures Add32(mySeq, 0) == mySeq
    {
      ToSendInBuffer(Value());
      toSend := AsInt32(Min((window - dataSince) % M64, unackedSize));
    }

    /** One session's turn in unacked_sender; the device takes `budget` packets, then refuses. */
    method UnackedSender(packetSize: nat, budget: nat) returns (sent: seq<Segment>)
      requires packetSize > 0 && InBounds(Value())
      modifies this`dataSince
      ensures (Value(), sent) == ResendPass(old(Value()), packetSize, budget)
    {
      ghost var s := Value();
      hide Add32, ToSend, DataOf, PassFrom;
      var toSend := PassBudget();
      NothingSent();
      var resendNr := mySeq;
      var i, left := 0, budget;
      sent := [];
      while i < toSend && left > 0
        invariant 0 <= i
        invariant i < toSend ==> resendNr == Add32(s.mySeq, i)
        invariant dataSince == s.dataSince + |DataOf(sent)|
        invariant sent + PassFrom(s, i, toSend, packetSize, left) == PassFrom(s, 0, toSend, packetSize, budget)
        decreases left
      {
        var sendN := Min(packetSize, toSend - i);
        ghost var rest := PassFrom(s, i + packetSize, toSend, packetSize, left - 1);
        PassNext(s, i, toSend, packetSize, left);
        var g := Segment(false, true, false, false, resendNr, theirSeq, OUR_WINDOW, true, unacked[i..i + sendN]);
        assert g == DataSegment(s, i, sendN);
        DataOfSnoc(sent, g);
        assert sent + ([g] + rest) == sent + [g] + rest;
        sent := sent + [g];
        resendNr := Add32(resendNr, sendN);
        Add32Add32(s.mySeq, i, sendN);
        dataSince := dataSince + sendN;
        i, left := i + packetSize, left - 1;
      }
      PassDone(s, i, toSend, packetSize, left);
      assert sent == PassFrom(s, 0, toSend, packetSize, budget);
    }
  }

  lemma ControlOpening(h: Handling, g: Segment)
    ensures var h' := HandleSyn(HandleRst(h, g), g); h'.s.state == Established ==> h'.sent == h.sent
  {
  }

  lemma AckSkipped(h: Handling, g: Segment, l7: Layer7)
    ensures !g.ack || h.erase ==> HandleAck(h, g, l7) == h
  {
  }

  lemma PayloadSkipped(h: Handling, g: Segment, l7: Layer7)
    ensures g.data == [] || h.fail ==> HandlePayload(h, g, l7) == h
  {
  }

  lemma PassNext(s: Session, i: nat, toSend: int, packetSize: nat, left: nat)
    requires packetSize > 0 && i < toSend <= |s.unacked| && left > 0
    ensures PassFrom(s, i, toSend, packetSize, left)
         == [DataSegment(s, i, Min(packetSize, toSend - i))] + PassFrom(s, i + packetSize, toSend, packetSize, left - 1)
  {
  }

  lemma PassDone(s: Session, i: nat, toSend: int, packetSize: nat, left: nat)
    requires packetSize > 0 && toSend <= |s.unacked| && (i >= toSend || left == 0)
    ensures PassFrom(s, i, toSend, packetSize, left) == []
  {
  }

  lemma DataOfSnoc(gs: seq<Segment>, g: Segment)
    ensures DataOf(gs + [g]) == DataOf(gs) + g.data
  {
    if gs != [] {
      assert (gs + [g])[1..] == gs[1..] + [g];
    }
  }
}
