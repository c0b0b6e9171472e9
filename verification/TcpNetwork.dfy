/** Two endpoints running the same engine over a network that loses, duplicates and reorders. */
module TcpNetwork {
  import opened Bytes
  import opened TcpModel
  import opened TcpLedger
  import opened TcpLifecycle

  // ----- what a segment on the wire promises -------------------------------------------------------

  /** The data of `g` stands at its own place in the stream of its sender `x`. */
  predicate DataInPlace(x: Endpoint, g: Segment) {
    var off := Sub32(g.seqNr, x.base);
    off + |g.data| <= |x.accepted| && g.data == x.accepted[off..off + |g.data|]
  }

  /** While y's sequence numbers have not wrapped, x acknowledges only what it has delivered; and the last byte
      of all in any case only then. */
  function AckLimit(x: Endpoint, y: Endpoint): nat {
    if y.base + |y.accepted| <= M32 || |x.delivered| >= |y.accepted| then |x.delivered| else |y.accepted| - 1
  }

  predicate AckHonest(x: Endpoint, y: Endpoint, ackTo: U32) {
    Sub32(ackTo, y.base) <= AckLimit(x, y)
  }

  /** A segment from `x` to `y`. The FIN that answers a FIN acknowledges that FIN too, so its number
      is meaningless to a stream still open; its receiver no longer looks at it. */
  predicate SegOk(x: Endpoint, y: Endpoint, g: Segment) {
    && !g.syn && g.headerFits
    && (g.data != [] ==> !g.rst && DataInPlace(x, g))
    && (g.fin ==> x.Past())
    && (g.ack && !g.rst && !(g.fin && y.Past()) ==> AckHonest(x, y, g.ackTo))
  }

  /** What holds of endpoint `x`, its peer `y` and the segments `w` that x has sent. */
  predicate SideOk(x: Endpoint, y: Endpoint, w: set<Segment>) {
    && |x.accepted| < M32
    && x.delivered <= y.accepted
    && StateOk(x, y)
    && forall g <- w :: SegOk(x, y, g)
  }

  /** How much of y's stream `s` counts as received. */
  function Counted(s: Session, y: Endpoint): U32 {
    Sub32(s.theirSeq, y.base)
  }

  /** Up to 2^31 bytes the buffer never claims to hold more than was accepted. */
  predicate Sized(s: Session, total: nat) {
    total <= M31 ==> s.unackedSize <= total
  }

  /** Of every session, marked for deletion or not. Only a marked one may have been handed bytes that
      it does not count: those that layer 7 refused. */
  predicate StateOk(x: Endpoint, y: Endpoint) {
    && Numbers(x.sess, x.base, |x.accepted|)
    && Alive(x.sess)
    && Counted(x.sess, y) <= |x.delivered|
    && (x.sess.doomed || Counted(x.sess, y) == |x.delivered|)
    && (x.sess.finFlag ==> y.Past())
    && Acked(x) <= AckLimit(y, x)
    && Sized(x.sess, |x.accepted|)
  }

  predicate Grows(x: Endpoint, x': Endpoint) {
    && x.base == x'.base
    && x.accepted <= x'.accepted && x.delivered <= x'.delivered
    && (x.Past() ==> x'.Past())
  }

  lemma SegOkGrows(x: Endpoint, y: Endpoint, x': Endpoint, y': Endpoint, g: Segment)
    requires SegOk(x, y, g) && Grows(x, x') && Grows(y, y')
    requires x.delivered <= y.accepted
    ensures SegOk(x', y', g)
  {
    hide Sub32;
    if g.data != [] {
      var off := Sub32(g.seqNr, x.base);
      assert g.data == x'.accepted[off..off + |g.data|];
    }
  }

  // ----- receiving ---------------------------------------------------------------------------------

  /** The endpoint as the handler is working on it. */
  function Now(x: Endpoint, h: Handling): Endpoint {
    x.(sess := h.s, delivered := x.delivered + h.delivered)
  }

  predicate Willing(l7: Layer7) {
    l7.listening && l7.takesSession && l7.takesData
  }

  /** What the handler keeps while `x` works on a segment from `y`. */
  predicate RecvOk(x: Endpoint, y: Endpoint, h: Handling, l7: Layer7) {
    && h.s.state.Rank() >= Established.Rank() && h.s.state != LastAck
    && x.delivered + h.delivered <= y.accepted
    && Counted(h.s, y) <= |x.delivered + h.delivered|
    && (x.sess.doomed || h.fail || Counted(h.s, y) == |x.delivered + h.delivered|)
    && (h.s.finFlag ==> y.Past())
    && |x.accepted| - h.s.unackedSize <= AckLimit(y, x)
    && Sized(h.s, |x.accepted|)
    && (Willing(l7) && |x.accepted| <= M31 ==> !h.fail)
    && forall g <- h.sent :: SegOk(Now(x, h), y, g)
  }

  lemma CountHonest(x: Endpoint, y: Endpoint)
    requires x.delivered <= y.accepted && Counted(x.sess, y) <= |x.delivered|
    ensures AckHonest(x, y, x.sess.theirSeq)
  {
  }

  lemma FromBase(base: U32, seqNr: U32)
    ensures Add32(base, Sub32(seqNr, base)) == seqNr
  {
    var k := Sub32(seqNr, base);
    assert base + k == seqNr || base + k == seqNr + M32;
  }

  /** An emitted segment that is fine where it was emitted keeps the handler in order. */
  lemma EmitOk(x: Endpoint, y: Endpoint, h: Handling, h': Handling, l7: Layer7)
    requires RecvOk(x, y, h, l7)
    requires h.sent <= h'.sent && |h'.sent| <= |h.sent| + 1 && h.delivered <= h'.delivered
    requires h.s.state.Past() ==> h'.s.state.Past()
    requires |h'.sent| > |h.sent| ==> SegOk(Now(x, h'), y, h'.sent[|h.sent|])
    ensures forall g <- h'.sent :: SegOk(Now(x, h'), y, g)
  {
    hide SegOk;
    forall g | g in h'.sent
      ensures SegOk(Now(x, h'), y, g)
    {
      if g in h.sent {
        SegOkGrows(Now(x, h), y, Now(x, h'), y, g);
      } else {
        var i :| 0 <= i < |h'.sent| && h'.sent[i] == g;
        assert i == |h.sent|;
      }
    }
  }

  /** Dropping up to an honest acknowledgement, however the distance was read: what counts as acknowledged
      afterwards is at most what the acknowledgement names. */
  lemma DropReaches(s: Session, base: U32, total: nat, ackTo: U32)
    requires Numbers(s, base, total) && s.state == Established && s.unackedSize > 0 && total < M32
    ensures var ackN := AsInt32(ackTo - s.unackedStart);
            total - (s.unackedSize - ackN) % M64 <= Sub32(ackTo, base)
  {
    var k, ackN := Sub32(ackTo, base), AsInt32(ackTo - s.unackedStart);
    var size' := (s.unackedSize - ackN) % M64;
    DroppedKeepsNumbers(s, ackN, AsInt32(s.unackedSize - ackN), base, total);
    Landing(s.mySeq, ackTo);
    FromBase(base, ackTo);
    assert Add32(ackTo, size') == Add32(base, total);
    Add32Add32(base, k, size');
    NotBeyond(base, total, k + size');
  }

  lemma Landing(start: U32, ackTo: U32)
    ensures Add32(start, AsInt32(ackTo - start)) == ackTo
  {
  }

  lemma NotBeyond(base: U32, total: nat, n: nat)
    requires Add32(base, n) == Add32(base, total) && total < M32
    ensures total <= n
  {
    if n < total {
      Sub32OfAdd32(base, n);
      Sub32OfAdd32(base, total);
    }
  }

  /** Up to 2^31 bytes the distance of an honest acknowledgement is read rightly: it never reaches past
      the buffer, and what is left fits an int. */
  lemma ReadsRightly(s: Session, base: U32, total: nat, ackTo: U32)
    requires Numbers(s, base, total) && s.state == Established && 0 < s.unackedSize <= total <= M31
    requires Sub32(ackTo, base) <= total && AsInt32(ackTo - s.unackedStart) > 0
    ensures var ackN := AsInt32(ackTo - s.unackedStart);
            ackN <= s.unackedSize && AsInt32(s.unackedSize - ackN) == s.unackedSize - ackN
  {
    hide Numbers;
    var k, a := Sub32(ackTo, base), total - s.unackedSize;
    StartsAt(s, base, total);
    FromBase(base, ackTo);
    if k - a < M31 {
      SignedDistance(base, a, k);
      AsInt32Exact(s.unackedSize - (k - a));
    } else {
      assert a == 0 && k == M31;
      HalfWay(base);
    }
  }

  lemma StartsAt(s: Session, base: U32, total: nat)
    requires Numbers(s, base, total) && s.state == Established && 0 < s.unackedSize <= total
    ensures s.unackedStart == Add32(base, total - s.unackedSize)
  {
    var q := (s.mySeq + s.unackedSize) / M32 - (base + total) / M32;
    assert s.mySeq == base + (total - s.unackedSize) + q * M32;
    SameRemainder(base + (total - s.unackedSize), q);
  }

  lemma HalfWay(base: U32)
    ensures AsInt32(Add32(base, M31) - Add32(base, 0)) == -M31
  {
  }

  lemma AckDataOk(x: Endpoint, y: Endpoint, h: Handling, g: Segment, l7: Layer7)
    requires RecvOk(x, y, h, l7) && Numbers(h.s, x.base, |x.accepted|) && !h.erase && !h.fail && h.sent == []
    requires h.s.state == Established && |x.accepted| < M32 && y.delivered <= x.accepted
    requires AckHonest(y, x, g.ackTo)
    ensures RecvOk(x, y, AckData(h, g), l7)
  {
    hide Sub32, Add32, AsInt32, Progress, MovedDown, DataInPlace, RecvOk, Dropped, DeferredFin;
    var ackN := AsInt32(g.ackTo - h.s.unackedStart);
    if ackN > 0 && h.s.unackedSize > 0 {
      DropOk(x, y, h, g, l7);
      var leftN := AsInt32(h.s.unackedSize - ackN);
      DeferredFinOk(x, y, h.(s := Dropped(h.s, ackN, leftN), erase := leftN < 0, fail := leftN < 0), l7);
    }
  }

  lemma DropOk(x: Endpoint, y: Endpoint, h: Handling, g: Segment, l7: Layer7)
    requires RecvOk(x, y, h, l7) && Numbers(h.s, x.base, |x.accepted|) && !h.fail && h.sent == []
    requires h.s.state == Established && |x.accepted| < M32 && y.delivered <= x.accepted
    requires AckHonest(y, x, g.ackTo) && AsInt32(g.ackTo - h.s.unackedStart) > 0 && h.s.unackedSize > 0
    ensures var ackN := AsInt32(g.ackTo - h.s.unackedStart);
            var leftN := AsInt32(h.s.unackedSize - ackN);
            var h' := h.(s := Dropped(h.s, ackN, leftN), erase := leftN < 0, fail := leftN < 0);
            RecvOk(x, y, h', l7) && h'.s.state == Established
  {
    hide Sub32, Add32, MovedDown, AsInt32, Numbers;
    DropReaches(h.s, x.base, |x.accepted|, g.ackTo);
    if |x.accepted| <= M31 {
      ReadsRightly(h.s, x.base, |x.accepted|, g.ackTo);
    }
  }

  lemma DeferredFinOk(x: Endpoint, y: Endpoint, h: Handling, l7: Layer7)
    requires RecvOk(x, y, h, l7) && h.sent == [] && h.s.state == Established
    ensures RecvOk(x, y, DeferredFin(h), l7)
  {
    hide Sub32, Add32, Progress, DataInPlace;
  }

  lemma HandleAckOk(x: Endpoint, y: Endpoint, h: Handling, g: Segment, l7: Layer7)
    requires RecvOk(x, y, h, l7) && Numbers(h.s, x.base, |x.accepted|) && !h.fail && h.sent == []
    requires |x.accepted| < M32 && y.delivered <= x.accepted
    requires SegOk(y, x.(sess := h.s), g) && (g.rst ==> h.erase)
    ensures RecvOk(x, y, HandleAck(h, g, l7), l7)
  {
    hide AckData, Numbers, Sub32, Add32;
    if g.ack && !h.erase && h.s.state == Established {
      AckDataOk(x, y, h, g, l7);
    }
  }

  lemma HandleFinOk(x: Endpoint, y: Endpoint, h: Handling, g: Segment, l7: Layer7)
    requires RecvOk(x, y, h, l7) && SegOk(y, x, g)
    ensures RecvOk(x, y, AnswerFin(HandleFin(h, g)), l7)
  {
    hide RecvOk, HandleFin, AnswerFin, SegOk;
    RecordOk(x, y, h, g, l7);
    AnswerOk(x, y, HandleFin(h, g), l7);
  }

  lemma RecordOk(x: Endpoint, y: Endpoint, h: Handling, g: Segment, l7: Layer7)
    requires RecvOk(x, y, h, l7) && SegOk(y, x, g)
    ensures RecvOk(x, y, HandleFin(h, g), l7)
  {
    hide Add32, Sub32, AckHonest, DataInPlace, Progress;
    EmitOk(x, y, h, HandleFin(h, g), l7);
  }

  lemma AnswerOk(x: Endpoint, y: Endpoint, h: Handling, l7: Layer7)
    requires RecvOk(x, y, h, l7)
    ensures RecvOk(x, y, AnswerFin(h), l7)
  {
    hide Add32, Sub32, AckHonest, DataInPlace, Progress;
    EmitOk(x, y, h, AnswerFin(h), l7);
  }

  lemma InOrder(y: Endpoint, g: Segment, d: seq<Byte>)
    requires d <= y.accepted && DataInPlace(y, g) && Sub32(g.seqNr, y.base) == |d|
    ensures d + g.data <= y.accepted
  {
    hide Sub32;
    assert d + g.data == y.accepted[..|d| + |g.data|];
  }

  /** Counting data on counts exactly its bytes. */
  lemma CountOn(s: Session, y: Endpoint, n: nat)
    requires Counted(s, y) + n < M32
    ensures Sub32(Add32(s.theirSeq, n), y.base) == Counted(s, y) + n
  {
    FromBase(y.base, s.theirSeq);
    Add32Add32(y.base, Counted(s, y), n);
    Sub32OfAdd32(y.base, Counted(s, y) + n);
  }

  /** The acknowledgement of an out-of-order segment is honest as long as y's numbers do not wrap. */
  lemma OutOfOrderAck(x: Endpoint, y: Endpoint, g: Segment)
    requires x.delivered <= y.accepted && |y.accepted| < M32 && Counted(x.sess, y) <= |x.delivered|
    requires DataInPlace(y, g) && g.data != []
    ensures var t := x.sess.theirSeq; AckHonest(x, y, if g.seqNr > t then t else g.seqNr)
  {
  }

  /** The one way to be handed bytes out of place: again, after layer 7 refused them. */
  predicate Repeats(x: Endpoint, y: Endpoint, g: Segment, l7: Layer7) {
    x.sess.theirSeq != Add32(y.base, |x.delivered|) && g.data != [] && g.seqNr == x.sess.theirSeq && l7.listening
  }

  /** Below 2^32 bytes a session is in step exactly when it counts what it was handed. */
  lemma InStep(x: Endpoint, y: Endpoint)
    requires |x.delivered| < M32
    ensures x.sess.theirSeq == Add32(y.base, |x.delivered|) <==> Counted(x.sess, y) == |x.delivered|
  {
    FromBase(y.base, x.sess.theirSeq);
    Sub32OfAdd32(y.base, |x.delivered|);
  }

  lemma PayloadOk(x: Endpoint, y: Endpoint, h: Handling, g: Segment, l7: Layer7)
    requires RecvOk(x, y, h, l7) && |y.accepted| < M32 && SegOk(y, x, g)
    requires h.delivered == [] && h.s.theirSeq == x.sess.theirSeq && StateOk(x, y) && !Repeats(x, y, g, l7)
    ensures RecvOk(x, y, HandlePayload(h, g, l7), l7)
  {
    hide HandlePayload, DataInPlace, Add32, Sub32, AckHonest, SegOk, Numbers;
    PayloadKeeps(h, g, l7);
    PayloadCounts(x, y, h, g, l7);
    PayloadSent(x, y, h, g, l7);
  }

  lemma PayloadCounts(x: Endpoint, y: Endpoint, h: Handling, g: Segment, l7: Layer7)
    requires RecvOk(x, y, h, l7) && |y.accepted| < M32 && SegOk(y, x, g)
    requires h.delivered == [] && h.s.theirSeq == x.sess.theirSeq && StateOk(x, y) && !Repeats(x, y, g, l7)
    ensures var h' := HandlePayload(h, g, l7);
            && x.delivered + h'.delivered <= y.accepted
            && Counted(h'.s, y) <= |x.delivered + h'.delivered|
            && (x.sess.doomed || h'.fail || Counted(h'.s, y) == |x.delivered + h'.delivered|)
            && (Willing(l7) && |x.accepted| <= M31 ==> !h'.fail)
  {
    hide HandlePayload, Add32, Sub32, AckHonest, Numbers, AckLimit;
    PayloadEffect(h, g, l7);
    InStep(x, y);
    if g.data != [] && !h.fail && g.seqNr == h.s.theirSeq && l7.listening {
      InOrder(y, g, x.delivered);
      CountOn(h.s, y, |g.data|);
      assert [] + g.data == g.data;
    }
  }

  /** What the data stage delivers and counts. */
  lemma PayloadEffect(h: Handling, g: Segment, l7: Layer7)
    ensures var h' := HandlePayload(h, g, l7);
            if g.data == [] || h.fail || g.seqNr != h.s.theirSeq then
              h'.delivered == h.delivered && h'.s.theirSeq == h.s.theirSeq && h'.fail == h.fail
            else
              && h'.delivered == h.delivered + (if l7.listening then g.data else [])
              && h'.fail == !(l7.listening && l7.takesData)
              && h'.s.theirSeq == if h'.fail then h.s.theirSeq else Add32(h.s.theirSeq, |g.data|)
  {
    hide Add32, Progress;
  }

  lemma PayloadSent(x: Endpoint, y: Endpoint, h: Handling, g: Segment, l7: Layer7)
    requires RecvOk(x, y, h, l7) && |y.accepted| < M32 && SegOk(y, x, g)
    requires var h' := HandlePayload(h, g, l7);
             x.delivered + h'.delivered <= y.accepted && Counted(h'.s, y) <= |x.delivered + h'.delivered|
    ensures var h' := HandlePayload(h, g, l7); forall f <- h'.sent :: SegOk(Now(x, h'), y, f)
  {
    hide Progress, Add32, DataInPlace;
    var h' := HandlePayload(h, g, l7);
    CountHonest(Now(x, h'), y);
    if g.data != [] && !h.fail && g.seqNr != h.s.theirSeq {
      OutOfOrderAck(Now(x, h), y, g);
    }
    EmitOk(x, y, h, h', l7);
  }

  lemma FinishOk(x: Endpoint, y: Endpoint, h: Handling, g: Segment, l7: Layer7)
    requires RecvOk(x, y, h, l7)
    ensures RecvOk(x, y, Finish(HandleFail(h, g)), l7)
  {
    hide Add32, AckHonest, DataInPlace;
    EmitOk(x, y, h, HandleFail(h, g), l7);
    EmitOk(x, y, HandleFail(h, g), Finish(HandleFail(h, g)), l7);
  }

  lemma ReceiveOk(x: Endpoint, y: Endpoint, g: Segment, l7: Layer7)
    requires |x.accepted| < M32 && |y.accepted| < M32
    requires x.delivered <= y.accepted && y.delivered <= x.accepted
    requires StateOk(x, y) && SegOk(y, x, g) && !Repeats(x, y, g, l7)
    ensures RecvOk(x, y, HandleSegment(x.sess, g, l7), l7)
  {
    hide HandleRst, HandleSyn, HandleAck, HandleFin, AnswerFin, HandlePayload, HandleFail, Finish, RecvOk, StateOk,
         Numbers;
    var h0 := Begin(x.sess, g);
    var h2 := HandleSyn(HandleRst(h0, g), g);
    OpeningOk(x, y, g, l7);
    HandleAckOk(x, y, h2, g, l7);
    HandleFinOk(x, y, HandleAck(h2, g, l7), g, l7);
    OpenAndAlive(x, y);
    ControlQuiet(x.sess, g, l7);
    PayloadOk(x, y, HandleControl(h0, g, l7), g, l7);
    FinishOk(x, y, HandlePayload(HandleControl(h0, g, l7), g, l7), g, l7);
  }

  lemma OpenAndAlive(x: Endpoint, y: Endpoint)
    requires StateOk(x, y)
    ensures Alive(x.sess) && x.sess.state.Rank() >= Established.Rank()
  {
    hide Counted, Add32;
  }

  lemma OpeningOk(x: Endpoint, y: Endpoint, g: Segment, l7: Layer7)
    requires x.delivered <= y.accepted && StateOk(x, y) && SegOk(y, x, g)
    ensures var h := HandleSyn(HandleRst(Begin(x.sess, g), g), g);
            && RecvOk(x, y, h, l7) && !h.fail && h.sent == [] && h.delivered == []
            && SegOk(y, x.(sess := h.s), g) && (g.rst ==> h.erase) && Numbers(h.s, x.base, |x.accepted|)
  {
    hide Add32, Sub32, DataInPlace;
  }

  // ----- one step of one side ------------------------------------------------------------------------

  /** The buffer is not empty and no longer in place: my_seq_nr has been moved past its first byte, or an
      acknowledgement failed the session and left its bytes where they were. */
  predicate Displaced(x: Endpoint) {
    x.sess.unackedSize > 0 && !(BufferOf(x.sess, x.base, x.accepted) && x.sess.mySeq == x.sess.unackedStart)
  }

  lemma PassOk(x: Endpoint, y: Endpoint, i: nat, toSend: int, packetSize: nat, budget: nat)
    requires StateOk(x, y) && |x.accepted| < M32 && x.delivered <= y.accepted && !Displaced(x)
    requires packetSize > 0 && toSend <= x.sess.unackedSize <= |x.sess.unacked|
    ensures forall g <- PassFrom(x.sess, i, toSend, packetSize, budget) :: SegOk(x, y, g)
    decreases budget
  {
    hide StateOk, SegOk, DataSegment, Displaced;
    if i < toSend && budget > 0 {
      PassOk(x, y, i + packetSize, toSend, packetSize, budget - 1);
      DataSegmentOk(x, y, i, Min(packetSize, toSend - i));
    }
  }

  lemma DataSegmentOk(x: Endpoint, y: Endpoint, i: nat, n: nat)
    requires StateOk(x, y) && |x.accepted| < M32 && x.delivered <= y.accepted && !Displaced(x)
    requires i + n <= x.sess.unackedSize <= |x.sess.unacked| && n > 0
    ensures SegOk(x, y, DataSegment(x.sess, i, n))
  {
    hide Add32, Sub32, AckHonest, Numbers;
    var s := x.sess;
    CountHonest(x, y);
    Add32Add32(x.base, Acked(x), i);
    Sub32OfAdd32(x.base, Acked(x) + i);
    SamePlace(s.unacked, s.unackedSize, x.accepted, Acked(x), i, n);
  }

  /** A stretch of the buffer is the stretch of the stream at its place. */
  lemma SamePlace(buf: seq<Byte>, size: nat, stream: seq<Byte>, a: nat, i: nat, n: nat)
    requires size <= |buf| && a <= |stream| && buf[..size] == stream[a..] && i + n <= size
    ensures a + i + n <= |stream| && buf[i..i + n] == stream[a + i..a + i + n]
  {
    var p, q := buf[i..i + n], stream[a + i..a + i + n];
    forall k | 0 <= k < n
      ensures p[k] == q[k]
    {
      assert buf[..size][i + k] == stream[a..][i + k];
    }
  }

  predicate Sound(x: Endpoint, y: Endpoint, wx: set<Segment>, wy: set<Segment>) {
    SideOk(x, y, wx) && SideOk(y, x, wy)
  }

  /** The step is possible: a received segment must have been sent. */
  predicate Enabled(a: Action, incoming: set<Segment>) {
    a.Receive? ==> a.g in incoming
  }

  /** The steps that can do harm: a pass over a buffer that is no longer in place, and the arrival of bytes
      that layer 7 was already handed and refused. Neither can happen before a deletion mark. */
  predicate Harmful(x: Endpoint, y: Endpoint, a: Action) {
    match a
    case Resend(_, _) => Displaced(x)
    case Receive(g, l7) => Repeats(x, y, g, l7)
    case _ => false
  }

  /** What one step of `x` does: it only grows, keeps its accounts, and says the truth. */
  predicate StepOk(x: Endpoint, y: Endpoint, o: Outcome) {
    && Grows(x, o.e)
    && o.e.delivered <= y.accepted
    && StateOk(o.e, y)
    && forall g <- o.sent :: SegOk(o.e, y, g)
  }

  lemma ReceiveStep(x: Endpoint, y: Endpoint, g: Segment, l7: Layer7)
    requires |x.accepted| < M32 && |y.accepted| < M32
    requires x.delivered <= y.accepted && y.delivered <= x.accepted
    requires StateOk(x, y) && SegOk(y, x, g) && !Repeats(x, y, g, l7)
    ensures StepOk(x, y, Act(x, Receive(g, l7)))
    ensures Willing(l7) && |x.accepted| <= M31 ==> forall f <- Act(x, Receive(g, l7)).sent :: !f.rst
  {
    hide HandleSegment, Add32, Sub32, AckHonest, DataInPlace, Numbers;
    var h := HandleSegment(x.sess, g, l7);
    var o := Act(x, Receive(g, l7));
    ReceiveOk(x, y, g, l7);
    HandleSegmentKeepsNumbers(x.sess, g, l7, x.base, |x.accepted|);
    HandlingKeepsLife(x.sess, g, l7);
    forall f | f in o.sent
      ensures SegOk(o.e, y, f)
    {
      SegOkGrows(Now(x, h), y, o.e, y, f);
    }
  }

  lemma ResendStep(x: Endpoint, y: Endpoint, packetSize: nat, budget: nat)
    requires |x.accepted| < M32 && x.delivered <= y.accepted && StateOk(x, y) && !Displaced(x)
    ensures StepOk(x, y, Act(x, Resend(packetSize, budget)))
    ensures forall f <- Act(x, Resend(packetSize, budget)).sent :: !f.rst
  {
    hide PassFrom, SegOk, Add32, Sub32, Displaced;
    if packetSize > 0 && InBounds(x.sess) {
      ToSendInBuffer(x.sess);
      PassOk(x, y, 0, ToSend(x.sess), packetSize, budget);
      PassHasData(x.sess, 0, ToSend(x.sess), packetSize, budget);
      var o := Act(x, Resend(packetSize, budget));
      forall f | f in o.sent
        ensures SegOk(o.e, y, f)
      {
        SegOkGrows(x, y, o.e, y, f);
      }
    }
  }

  lemma SendStep(x: Endpoint, y: Endpoint, data: seq<Byte>)
    requires x.delivered <= y.accepted && y.delivered <= x.accepted && StateOk(x, y)
    ensures StepOk(x, y, Act(x, Send(data))) && Act(x, Send(data)).sent == []
  {
    hide Add32, Sub32, Numbers, Buffered;
    StepKeepsNumbers(x, Send(data));
  }

  lemma CloseStep(x: Endpoint, y: Endpoint)
    requires x.delivered <= y.accepted && StateOk(x, y)
    ensures StepOk(x, y, Act(x, Close))
    ensures forall f <- Act(x, Close).sent :: !f.rst
  {
    hide Add32, Sub32, Numbers, PassFrom, HandleSegment, AckHonest, DataInPlace, StateOk;
    StateNumbers(x, y);
    StepKeepsNumbers(x, Close);
    ClosedOk(x, y, CloseSession(x.sess).0);
  }

  lemma StateNumbers(x: Endpoint, y: Endpoint)
    requires StateOk(x, y)
    ensures Numbers(x.sess, x.base, |x.accepted|)
  {
    hide Numbers;
  }

  lemma ClosedOk(x: Endpoint, y: Endpoint, s': Session)
    requires StateOk(x, y) && Numbers(s', x.base, |x.accepted|)
    requires s' == x.sess.(finAfter := s'.finAfter, state := s'.state, mySeq := s'.mySeq)
    requires s'.state == x.sess.state || s'.state == FinWait1
    ensures StateOk(x.(sess := s'), y) && (x.Past() ==> s'.state.Past())
  {
    hide Numbers, Sub32;
  }

  lemma LocalStep(x: Endpoint, y: Endpoint, a: Action)
    requires |x.accepted| < M32
    requires x.delivered <= y.accepted && y.delivered <= x.accepted
    requires StateOk(x, y) && !a.Receive? && !Harmful(x, y, a)
    ensures StepOk(x, y, Act(x, a))
    ensures forall f <- Act(x, a).sent :: !f.rst
  {
    hide Act, StateOk, StepOk;
    match a
    case Resend(packetSize, budget) => ResendStep(x, y, packetSize, budget);
    case Send(data) => SendStep(x, y, data);
    case Close => CloseStep(x, y);
  }

  lemma PassHasData(s: Session, i: nat, toSend: int, packetSize: nat, budget: nat)
    requires packetSize > 0 && toSend <= |s.unacked|
    ensures forall g <- PassFrom(s, i, toSend, packetSize, budget) :: !g.rst
    decreases budget
  {
  }

  lemma AcceptedGrows(x: Endpoint, a: Action)
    ensures x.accepted <= Act(x, a).e.accepted
  {
  }

  /** A step of one side that does no harm keeps the whole system sound. */
  lemma StepKeepsSound(x: Endpoint, y: Endpoint, wx: set<Segment>, wy: set<Segment>, a: Action)
    requires Sound(x, y, wx, wy) && !Harmful(x, y, a) && Enabled(a, wy)
    requires |Act(x, a).e.accepted| < M32
    ensures var o := Act(x, a); Sound(o.e, y, wx + (set g | g in o.sent), wy)
  {
    hide Act, StateOk, SegOk, Displaced, Repeats;
    if a.Receive? {
      ReceiveStep(x, y, a.g, a.l7);
    } else {
      LocalStep(x, y, a);
    }
    var o := Act(x, a);
    forall g | g in wx
      ensures SegOk(o.e, y, g)
    {
      SegOkGrows(x, y, o.e, y, g);
    }
    forall g | g in wy
      ensures SegOk(y, o.e, g)
    {
      SegOkGrows(y, x, y, o.e, g);
    }
    StateOkGrows(y, x, o.e);
  }

  lemma StateOkGrows(y: Endpoint, x: Endpoint, x': Endpoint)
    requires StateOk(y, x) && Grows(x, x') && x.delivered <= y.accepted
    ensures StateOk(y, x')
  {
    hide Numbers, Sub32;
  }

  // ----- runs of the whole system ----------------------------------------------------------------------

  /** `ab` is every segment a ever sent, `ba` every segment b ever sent: any of them may arrive, at
      any time, any number of times, or never. */
  datatype System = System(a: Endpoint, b: Endpoint, ab: set<Segment>, ba: set<Segment>) {
    function Swap(): System {
      System(b, a, ba, ab)
    }
  }

  datatype Event = Event(atA: bool, action: Action)

  function StepA(s: System, a: Action): System {
    if !Enabled(a, s.ba) then s
    else
      var o := Act(s.a, a);
      s.(a := o.e, ab := s.ab + (set g | g in o.sent))
  }

  function Step(s: System, ev: Event): System {
    if ev.atA then StepA(s, ev.action) else StepA(s.Swap(), ev.action).Swap()
  }

  function Exec(s: System, events: seq<Event>): System
    decreases |events|
  {
    if events == [] then s else Exec(Step(s, events[0]), events[1..])
  }

  predicate HarmfulEvent(s: System, ev: Event) {
    if ev.atA then Harmful(s.a, s.b, ev.action) else Harmful(s.b, s.a, ev.action)
  }

  /** No step of the run is a harmful one. Sessions marked for deletion may go on taking steps. */
  predicate Harmless(s: System, events: seq<Event>)
    decreases |events|
  {
    events == [] || (!HarmfulEvent(s, events[0]) && Harmless(Step(s, events[0]), events[1..]))
  }

  /** Both sides just became established and agree on each other's base. */
  predicate Start(s: System) {
    && Fresh(s.a) && Fresh(s.b) && s.ab == {} && s.ba == {}
    && s.a.sess.theirSeq == s.b.base && s.b.sess.theirSeq == s.a.base
  }

  /** Neither direction has accepted more than `n` bytes. */
  predicate AtMost(s: System, n: nat) {
    |s.a.accepted| <= n && |s.b.accepted| <= n
  }

  /** Sequence numbers still tell the bytes of each direction apart. */
  predicate Small(s: System) {
    |s.a.accepted| < M32 && |s.b.accepted| < M32
  }

  predicate SystemOk(s: System) {
    Sound(s.a, s.b, s.ab, s.ba)
  }

  lemma StartOk(s: System)
    requires Start(s)
    ensures SystemOk(s)
  {
    hide StateOk;
    FreshOk(s.a, s.b);
    FreshOk(s.b, s.a);
  }

  lemma FreshOk(x: Endpoint, y: Endpoint)
    requires Fresh(x) && Fresh(y) && x.sess.theirSeq == y.base
    ensures StateOk(x, y)
  {
    assert Add32(x.base, 0) == x.base;
  }

  lemma StepSystemOk(s: System, ev: Event)
    requires SystemOk(s) && !HarmfulEvent(s, ev) && Small(Step(s, ev))
    ensures SystemOk(Step(s, ev))
  {
    hide Act, SideOk, Harmful;
    var t := if ev.atA then s else s.Swap();
    if Enabled(ev.action, t.ba) {
      StepKeepsSound(t.a, t.b, t.ab, t.ba, ev.action);
    }
  }

  lemma {:induction false} ExecGrows(s: System, events: seq<Event>)
    ensures s.a.accepted <= Exec(s, events).a.accepted
    ensures s.b.accepted <= Exec(s, events).b.accepted
    decreases |events|
  {
    if events != [] {
      AcceptedGrows(s.a, events[0].action);
      AcceptedGrows(s.b, events[0].action);
      hide Act;
      ExecGrows(Step(s, events[0]), events[1..]);
    }
  }

  /** A run to which the theorems apply: harmless, and fewer than 2^32 bytes in each direction. */
  predicate RunOk(s: System, events: seq<Event>) {
    Harmless(s, events) && Small(Exec(s, events))
  }

  lemma RunTurn(s: System, events: seq<Event>)
    requires RunOk(s, events) && events != []
    ensures !HarmfulEvent(s, events[0]) && Small(Step(s, events[0]))
    ensures RunOk(Step(s, events[0]), events[1..])
  {
    hide Step, HarmfulEvent;
    ExecGrows(Step(s, events[0]), events[1..]);
  }

  lemma {:induction false} ExecOk(s: System, events: seq<Event>)
    requires SystemOk(s) && RunOk(s, events)
    ensures SystemOk(Exec(s, events))
    decreases |events|
  {
    hide SystemOk, Step, RunOk;
    if events != [] {
      RunTurn(s, events);
      StepSystemOk(s, events[0]);
      ExecOk(Step(s, events[0]), events[1..]);
    }
  }

  /** Prefix safety: whatever the network does, even if sequence numbers wrap and although sessions marked
      for deletion go on taking steps, what layer 7 has been handed is a prefix of what the other side's
      send_data accepted, in both directions. */
  lemma PrefixSafety(s: System, events: seq<Event>)
    requires Start(s) && RunOk(s, events)
    ensures var t := Exec(s, events);
            t.a.delivered <= t.b.accepted && t.b.delivered <= t.a.accepted
  {
    hide Exec, RunOk;
    StartOk(s);
    ExecOk(s, events);
  }

  /** Honest acknowledgements: while the sequence numbers of a have not wrapped, no data segment and
      no pure acknowledgement that b ever sent acknowledges a byte that b has not delivered; and a
      byte leaves a's buffer only after b has delivered it. Wrapped or not, the last byte leaves it only when b
      has delivered everything. */
  lemma AckSafety(s: System, events: seq<Event>)
    requires Start(s) && RunOk(s, events)
    ensures var t := Exec(s, events);
            t.a.base + |t.a.accepted| <= M32 ==>
              && (forall g <- t.ba :: g.ack && !g.rst && !g.fin ==> Sub32(g.ackTo, t.a.base) <= |t.b.delivered|)
              && Acked(t.a) <= |t.b.delivered|
    ensures var t := Exec(s, events); Acked(t.a) == |t.a.accepted| ==> t.b.delivered == t.a.accepted
  {
    hide Exec, RunOk;
    StartOk(s);
    ExecOk(s, events);
  }

  /** As long as x has sent no FIN its count goes on. */
  predicate UntilFin(x: Endpoint, w: set<Segment>) {
    LifeOk(x) && ((forall f <- w :: !f.fin) ==> Unclosed(x.sess, x.base, |x.accepted|))
  }

  lemma StepUntilFin(x: Endpoint, w: set<Segment>, a: Action)
    requires UntilFin(x, w)
    ensures var o := Act(x, a); UntilFin(o.e, w + (set g | g in o.sent))
  {
    hide Act, Unclosed, FinExact;
    StepKeepsLife(x, a);
    var w' := w + (set g | g in Act(x, a).sent);
    if forall f <- w' :: !f.fin {
      assert forall f <- w :: f in w';
      assert forall f <- Act(x, a).sent :: f in w';
      FinStep(x, a);
    }
  }

  lemma {:induction false} ExecUntilFin(s: System, events: seq<Event>)
    requires UntilFin(s.a, s.ab) && UntilFin(s.b, s.ba)
    ensures var t := Exec(s, events); UntilFin(t.a, t.ab) && UntilFin(t.b, t.ba)
    decreases |events|
  {
    hide UntilFin, Act;
    if events != [] {
      StepUntilFin(s.a, s.ab, events[0].action);
      StepUntilFin(s.b, s.ba, events[0].action);
      ExecUntilFin(Step(s, events[0]), events[1..]);
    }
  }

  lemma StartUntilFin(x: Endpoint)
    requires Fresh(x)
    ensures UntilFin(x, {})
  {
    hide Fresh, LifeOk, Unclosed;
    FreshStarts(x);
    FreshUnclosed(x);
  }

  /** A first FIN, sent in whatever state, that does not answer the peer's too early finds every accepted byte
      already delivered at the peer. */
  lemma CloseAfterDelivery(s: System, events: seq<Event>, ev: Event, g: Segment)
    requires Start(s) && RunOk(s, events) && ev.atA
    requires !HarmfulEvent(Exec(s, events), ev) && Small(Step(Exec(s, events), ev))
    ensures var t, t' := Exec(s, events), Step(Exec(s, events), ev);
            && (forall f <- t.ab :: !f.fin) && Enabled(ev.action, t.ba)
            && g in Act(t.a, ev.action).sent && g.fin && !AnswersEarly(t.a, ev.action) ==>
              t'.b.delivered == t'.a.accepted && g.seqNr == Add32(t'.a.base, |t'.a.accepted|)
  {
    hide Exec, Act, SegOk, RunOk, HarmfulEvent, Numbers, AnswersEarly, LifeOk, Unclosed, Fresh;
    var t := Exec(s, events);
    StartOk(s);
    ExecOk(s, events);
    StepSystemOk(t, ev);
    StartUntilFin(s.a);
    StartUntilFin(s.b);
    ExecUntilFin(s, events);
    if forall f <- t.ab :: !f.fin {
      LifeIsAlive(t.a);
      FinStep(t.a, ev.action);
    }
  }

  /** On every harmless run, a session that a harmful step could hit is marked for deletion. */
  lemma HarmOnlyMarked(s: System, events: seq<Event>, a: Action)
    requires Start(s) && RunOk(s, events)
    ensures var t := Exec(s, events);
            (Harmful(t.a, t.b, a) ==> t.a.sess.doomed) && (Harmful(t.b, t.a, a) ==> t.b.sess.doomed)
  {
    hide Exec, Ledger, Harmful, StateOk, RunOk, SegOk;
    StartOk(s);
    ExecOk(s, events);
    FreshStarts(s.a);
    FreshStarts(s.b);
    RunSmall(s, events);
    ExecLedger(s, events);
    var t := Exec(s, events);
    HarmMarked(t.a, t.b, a);
    HarmMarked(t.b, t.a, a);
  }

  lemma RunSmall(s: System, events: seq<Event>)
    requires RunOk(s, events)
    ensures Small(Exec(s, events))
  {
  }

  lemma HarmMarked(x: Endpoint, y: Endpoint, a: Action)
    requires StateOk(x, y) && Ledger(x) && |x.delivered| < M32
    ensures Harmful(x, y, a) ==> x.sess.doomed
  {
    hide BufferOf, Sub32, Numbers;
    InStep(x, y);
  }

  lemma {:induction false} ExecLedger(s: System, events: seq<Event>)
    requires Ledger(s.a) && Ledger(s.b) && Small(Exec(s, events))
    ensures Ledger(Exec(s, events).a) && Ledger(Exec(s, events).b)
    decreases |events|
  {
    hide Ledger, Act;
    if events != [] {
      ExecGrows(Step(s, events[0]), events[1..]);
      var x := if events[0].atA then s.a else s.b;
      if |Act(x, events[0].action).e.accepted| < M32 {
        SmallFits(x, events[0].action);
        StepKeepsLedger(x, events[0].action);
      }
      ExecLedger(Step(s, events[0]), events[1..]);
    }
  }

  lemma SmallFits(e: Endpoint, a: Action)
    requires Ledger(e) && |Act(e, a).e.accepted| < M32
    ensures e.sess.doomed || Fits(e, a)
  {
  }

  predicate AllWilling(events: seq<Event>) {
    forall ev <- events :: ev.action.Receive? ==> Willing(ev.action.l7)
  }

  predicate NoRst(s: System) {
    && (forall g <- s.ab :: !g.rst) && (forall g <- s.ba :: !g.rst)
    && (s.a.sess.doomed ==> s.a.Past()) && (s.b.sess.doomed ==> s.b.Past())
  }

  lemma StepNoRst(s: System, ev: Event)
    requires SystemOk(s) && NoRst(s) && AllWilling([ev]) && !HarmfulEvent(s, ev) && AtMost(s, M31)
    ensures NoRst(Step(s, ev))
  {
    hide Act, StateOk, SegOk, Harmful;
    var t := if ev.atA then s else s.Swap();
    if Enabled(ev.action, t.ba) {
      assert ev in [ev];
      if ev.action.Receive? {
        NoRepeat(t.a, t.b, ev.action);
        ReceiveStep(t.a, t.b, ev.action.g, ev.action.l7);
        DoomedByFin(t.a, t.b, ev.action.g, ev.action.l7);
      } else {
        LocalStep(t.a, t.b, ev.action);
        LocalNotDoomed(t.a, ev.action);
      }
    }
  }

  lemma NoRepeat(x: Endpoint, y: Endpoint, a: Action)
    requires a.Receive? && !Harmful(x, y, a)
    ensures !Repeats(x, y, a.g, a.l7)
  {
  }

  lemma LocalNotDoomed(x: Endpoint, a: Action)
    requires !a.Receive?
    ensures Act(x, a).e.sess.doomed == x.sess.doomed && (x.Past() ==> Act(x, a).e.Past())
  {
    hide PassFrom;
  }

  lemma DoomedByFin(x: Endpoint, y: Endpoint, g: Segment, l7: Layer7)
    requires |x.accepted| < M32 && |y.accepted| < M32
    requires x.delivered <= y.accepted && y.delivered <= x.accepted
    requires StateOk(x, y) && SegOk(y, x, g) && !Repeats(x, y, g, l7) && Willing(l7) && (x.sess.doomed ==> x.Past())
    requires |x.accepted| <= M31
    ensures var e := Act(x, Receive(g, l7)).e; e.sess.doomed ==> e.Past()
  {
    hide HandleSegment;
    ReceiveOk(x, y, g, l7);
  }

  lemma {:induction false} WillingNeverFails(s: System, events: seq<Event>)
    requires SystemOk(s) && NoRst(s) && AllWilling(events) && RunOk(s, events) && AtMost(Exec(s, events), M31)
    ensures NoRst(Exec(s, events))
    decreases |events|
  {
    hide SystemOk, NoRst, Step, RunOk;
    if events != [] {
      ExecGrows(s, events);
      RunTurn(s, events);
      StepSystemOk(s, events[0]);
      StepNoRst(s, events[0]);
      WillingNeverFails(Step(s, events[0]), events[1..]);
    }
  }

  /** When layer 7 refuses nothing and neither direction carries more than 2^31 bytes, no run ever fails a
      session: no RST is sent, and sessions end by FIN only. */
  lemma NeverFails(s: System, events: seq<Event>)
    requires Start(s) && AllWilling(events) && RunOk(s, events) && AtMost(Exec(s, events), M31)
    ensures NoRst(Exec(s, events))
  {
    hide Exec, Sound, RunOk;
    StartOk(s);
    WillingNeverFails(s, events);
  }
}
