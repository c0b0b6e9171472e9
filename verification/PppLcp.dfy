/** LCP Configure-Requests: options, replies, and what they do to the link.
    Sections 5 and 6 of RFC 1661, section 7.1 of RFC 1662. */
module PppLcp {
  import opened Bytes
  import opened PppFrame

  datatype Opt = Opt(kind: Byte, value: seq<Byte>)

  const MAX_RECEIVE_UNIT: Byte := 1
  const CHARACTER_MAP: Byte := 2
  const MAGIC: Byte := 5
  const PROTOCOL_COMPRESSION: Byte := 7
  const ADDRESS_COMPRESSION: Byte := 8

  predicate Supported(o: Opt) {
    o.kind in {MAX_RECEIVE_UNIT, CHARACTER_MAP, MAGIC, PROTOCOL_COMPRESSION, ADDRESS_COMPRESSION}
  }

  /** The length octet counts itself and the type; a character map of any length up to the size of the
      map is taken, although section 7.1 of RFC 1662 gives it four octets. */
  predicate OptOk(o: Opt) {
    |o.value| <= 253 && (o.kind == CHARACTER_MAP ==> |o.value| <= 30)
  }

  function Encode(o: Opt): seq<Byte>
    requires OptOk(o)
  {
    [o.kind, |o.value| + 2] + o.value
  }

  function Flatten(os: seq<Opt>): seq<Byte>
    requires forall o <- os :: OptOk(o)
  {
    if os == [] then [] else Encode(os[0]) + Flatten(os[1..])
  }

  function Filter(os: seq<Opt>, supported: bool): (r: seq<Opt>)
    ensures forall o <- r :: o in os && Supported(o) == supported
  {
    if os == [] then []
    else (if Supported(os[0]) == supported then [os[0]] else []) + Filter(os[1..], supported)
  }

  /** The loop over an option field, in the peer's role: cut at each length octet. */
  function Parse(s: seq<Byte>): Option<seq<Opt>>
    decreases |s|
  {
    if s == [] then Some([])
    else if |s| < 2 || s[1] < 2 || |s| < s[1] then None
    else match Parse(s[s[1]..]) case None => None case Some(r) => Some([Opt(s[0], s[2..s[1]])] + r)
  }

  // ----- the effect on the link ---------------------------------------------------------------------------

  /** The copy loop runs for the option's length `n` from behind the type and length octets: the last
      two octets it takes are the ones after the option. */
  function CopyMap(accm: seq<Byte>, from: seq<Byte>, n: nat): (r: seq<Byte>)
    requires |accm| == 32 && n <= 32 && |from| >= n
    ensures |r| == 32
  {
    from[..n] + accm[n..]
  }

  datatype Settings = Settings(ac: bool, pc: bool, accm: seq<Byte>)

  function ApplyOne(st: Settings, o: Opt, after: seq<Byte>): (r: Settings)
    requires |st.accm| == 32 && OptOk(o) && |after| >= 2
    ensures |r.accm| == 32
  {
    Settings(st.ac || o.kind == ADDRESS_COMPRESSION, st.pc || o.kind == PROTOCOL_COMPRESSION,
             if o.kind == CHARACTER_MAP then CopyMap(st.accm, o.value + after, |o.value| + 2) else st.accm)
  }

  function Apply(st: Settings, os: seq<Opt>, tail: seq<Byte>): (r: Settings)
    requires |st.accm| == 32 && |tail| == 2 && forall o <- os :: OptOk(o)
    ensures |r.accm| == 32
    decreases |os|
  {
    if os == [] then st
    else
      assert os[0] in os;
      Apply(ApplyOne(st, os[0], Flatten(os[1..]) + tail), os[1..], tail)
  }

  /** After a request, each compression is on exactly when its option was there. */
  lemma {:induction false} FlagsExact(st: Settings, os: seq<Opt>, tail: seq<Byte>)
    requires |st.accm| == 32 && |tail| == 2 && forall o <- os :: OptOk(o)
    ensures Apply(st, os, tail).ac == (st.ac || exists o <- os :: o.kind == ADDRESS_COMPRESSION)
    ensures Apply(st, os, tail).pc == (st.pc || exists o <- os :: o.kind == PROTOCOL_COMPRESSION)
    decreases |os|
  {
    hide CopyMap;
    if os != [] {
      assert os[0] in os;
      FlagsExact(ApplyOne(st, os[0], Flatten(os[1..]) + tail), os[1..], tail);
      assert os == [os[0]] + os[1..];
    }
  }

  // ----- the replies ----------------------------------------------------------------------------------------

  /** A control packet: code, identifier, length, data. */
  function Control(code: Byte, identifier: Byte, data: seq<Byte>): seq<Byte>
    requires |data| + 4 < M16
  {
    [code, identifier] + Be16(|data| + 4) + data
  }

  /** The engine's own request: map, magic number and both compressions. */
  function OwnRequest(accm: seq<Byte>, magic: U32): seq<Byte>
    requires |accm| == 32
  {
    Control(1, 1, [CHARACTER_MAP, 6] + accm[..4] + [MAGIC, 6] + Be32(magic) + [PROTOCOL_COMPRESSION, 2, ADDRESS_COMPRESSION, 2])
  }

  function Reply(identifier: Byte, os: seq<Opt>): seq<seq<Byte>>
    requires (forall o <- os :: OptOk(o)) && |Flatten(os)| + 4 < M16
  {
    var rej, ack := Flatten(Filter(os, false)), Flatten(Filter(os, true));
    FilterShorter(os, false);
    FilterShorter(os, true);
    Answer(identifier, ack, rej)
  }

  lemma FilterShorter(os: seq<Opt>, supported: bool)
    requires forall o <- os :: OptOk(o)
    ensures |Flatten(Filter(os, supported))| <= |Flatten(os)|
  {
    if os != [] {
      var f := Filter(os[1..], supported);
      FilterShorter(os[1..], supported);
      if Supported(os[0]) == supported {
        assert ([os[0]] + f)[1..] == f;
      } else {
        assert [] + f == f;
      }
    }
  }

  lemma {:induction false} FilterAll(os: seq<Opt>)
    requires forall o <- os :: Supported(o)
    ensures Filter(os, true) == os && Filter(os, false) == []
  {
    if os != [] {
      FilterAll(os[1..]);
      assert os == [os[0]] + os[1..];
    }
  }

  lemma FilterNone(os: seq<Opt>)
    ensures Filter(os, false) == [] <==> forall o <- os :: Supported(o)
  {
    if os != [] {
      FilterNone(os[1..]);
      assert os == [os[0]] + os[1..];
    }
  }

  lemma {:induction false} ParseFlatten(os: seq<Opt>)
    requires forall o <- os :: OptOk(o)
    ensures Parse(Flatten(os)) == Some(os)
  {
    hide Flatten, Encode, OptOk;
    FlattenNext(os);
    if os != [] {
      ParseFlatten(os[1..]);
      ParseNext(os[0], Flatten(os[1..]));
      assert os == [os[0]] + os[1..];
    }
  }

  lemma ParseNext(o: Opt, rest: seq<Byte>)
    requires OptOk(o) && Parse(rest).Some?
    ensures Parse(Encode(o) + rest) == Some([o] + Parse(rest).value)
  {
    var s := Encode(o) + rest;
    assert s[s[1]..] == rest;
    assert s[2..s[1]] == o.value;
  }

  lemma FlattenEmpty(os: seq<Opt>)
    requires forall o <- os :: OptOk(o)
    ensures Flatten(os) == [] <==> os == []
  {
  }

  /** A control packet as its receiver reads it, which cuts the data at the length field. */
  lemma ControlRead(code: Byte, identifier: Byte, data: seq<Byte>)
    requires |data| + 4 < M16
    ensures var p := Control(code, identifier, data);
            |p| >= 4 && p[0] == code && p[1] == identifier && Get16(p, 2) == |p| && p[4..Get16(p, 2)] == data
  {
    var p := Control(code, identifier, data);
    Get16OfBe16(|data| + 4, [code, identifier], data);
    assert p[4..] == data;
  }

  /** An answer to any octets the loop collected: a Reject of what is to be rejected, if there is anything, otherwise an
      Ack of what is to be accepted, if there is anything; with the request's identifier and its own length. */
  lemma AnswerRead(identifier: Byte, ack: seq<Byte>, rej: seq<Byte>)
    requires |ack| + 4 < M16 && |rej| + 4 < M16
    ensures var ps := Answer(identifier, ack, rej);
            && (|ps| == if rej == [] && ack == [] then 0 else 1)
            && forall p <- ps ::
                 && |p| >= 4 && p[1] == identifier && Get16(p, 2) == |p|
                 && p[0] == (if rej != [] then 4 else 2) && p[4..Get16(p, 2)] == (if rej != [] then rej else ack)
  {
    hide Control;
    ControlRead(4, identifier, rej);
    ControlRead(2, identifier, ack);
  }

  /** The engine's own request, read by its receiver: the first four octets of the map, the magic number and both
      compressions. */
  lemma OwnRequestRead(accm: seq<Byte>, magic: U32)
    requires |accm| == 32
    ensures var p := OwnRequest(accm, magic);
            && |p| >= 4 && p[0] == 1 && p[1] == 1 && Get16(p, 2) == |p|
            && Parse(p[4..Get16(p, 2)]) == Some([Opt(2, accm[..4]), Opt(5, Be32(magic)), Opt(7, []), Opt(8, [])])
  {
    hide Control, Parse, Be32;
    FourOctets(magic);
    var os := [Opt(2, accm[..4]), Opt(5, Be32(magic)), Opt(7, []), Opt(8, [])];
    var data := [CHARACTER_MAP, 6] + accm[..4] + [MAGIC, 6] + Be32(magic)
                + [PROTOCOL_COMPRESSION, 2, ADDRESS_COMPRESSION, 2];
    ControlRead(1, 1, data);
    FourOptions(os[0], os[1], os[2], os[3]);
    assert Encode(os[2]) == [7, 2] && Encode(os[3]) == [8, 2];
    assert Flatten(os) == data;
    ParseFlatten(os);
  }

  lemma FourOptions(a: Opt, b: Opt, c: Opt, d: Opt)
    requires OptOk(a) && OptOk(b) && OptOk(c) && OptOk(d)
    ensures (forall o <- [a, b, c, d] :: OptOk(o)) && Flatten([a, b, c, d]) == Encode(a) + Encode(b) + Encode(c) + Encode(d)
  {
    hide OptOk, Encode;
    assert [a, b, c, d][1..] == [b, c, d] && [b, c, d][1..] == [c, d] && [c, d][1..] == [d] && [d][1..] == [];
    assert Flatten([d]) == Encode(d) + [] == Encode(d);
    assert Flatten([c, d]) == Encode(c) + Encode(d);
    assert Flatten([b, c, d]) == Encode(b) + (Encode(c) + Encode(d));
  }

  /** A request gets one answer or, if it has no options, none. As the peer reads it, a Reject lists exactly the
      options of other kinds than 1, 2, 5, 7 and 8, in order; an Ack repeats the request and is sent exactly when there
      is nothing to reject. */
  lemma ReplyExact(identifier: Byte, os: seq<Opt>)
    requires (forall o <- os :: OptOk(o)) && |Flatten(os)| + 4 < M16
    ensures os == [] ==> Reply(identifier, os) == []
    ensures os != [] ==>
              && |Reply(identifier, os)| == 1
              && var p := Reply(identifier, os)[0];
              && |p| >= 4 && p[1] == identifier && Get16(p, 2) == |p|
              && (if forall o <- os :: o.kind in {1, 2, 5, 7, 8}
                  then p[0] == 2 && p[4..] == Flatten(os) && Parse(p[4..Get16(p, 2)]) == Some(os)
                  else p[0] == 4 && Parse(p[4..Get16(p, 2)]) == Some(Filter(os, false)))
  {
    hide Answer, Parse, Flatten, Filter;
    var rej, ack := Filter(os, false), Filter(os, true);
    FilterNone(os);
    FlattenEmpty(rej);
    FlattenEmpty(ack);
    FlattenEmpty(os);
    FilterShorter(os, false);
    FilterShorter(os, true);
    AnswerRead(identifier, Flatten(ack), Flatten(rej));
    ParseFlatten(rej);
    ParseFlatten(os);
    if rej == [] {
      FilterAll(os);
    }
    if os != [] {
      assert Answer(identifier, Flatten(ack), Flatten(rej))[0] in Answer(identifier, Flatten(ack), Flatten(rej));
    } else {
      FilterAll(os);
    }
  }

  // ----- the option loop on any octets -------------------------------------------------------------------------

  /** How the option loop ends, if it does. */
  datatype Loop = Finished(st: Settings, ack: seq<Byte>, rej: seq<Byte>) | Thrown | Forever

  /** The map copy runs past the map or past the packet. */
  predicate CopyThrows(data: seq<Byte>, o: nat)
    requires o + 2 < |data|
  {
    data[o] == CHARACTER_MAP && (data[o + 1] > 32 || |data| - o - 2 < data[o + 1])
  }

  function ScanOne(st: Settings, data: seq<Byte>, o: nat): (r: Settings)
    requires |st.accm| == 32 && o + 2 < |data| && !CopyThrows(data, o)
    ensures |r.accm| == 32
  {
    Settings(st.ac || data[o] == ADDRESS_COMPRESSION, st.pc || data[o] == PROTOCOL_COMPRESSION,
             if data[o] == CHARACTER_MAP then CopyMap(st.accm, data[o + 2..], data[o + 1]) else st.accm)
  }

  /** The loop from offset `o`: it stops at the check octets or at an option that is longer than the packet, a
      map that does not fit throws, and an option of length zero is never passed. */
  function Scan(data: seq<Byte>, o: nat, st: Settings, ack: seq<Byte>, rej: seq<Byte>): Loop
    requires |st.accm| == 32 && o <= |data|
    decreases |data| - o
  {
    if o + 2 >= |data| || |data| - o < data[o + 1] then Finished(st, ack, rej)
    else if CopyThrows(data, o) then Thrown
    else if data[o + 1] == 0 then Forever
    else
      var n := o + data[o + 1];
      if Supported(Opt(data[o], [])) then Scan(data, n, ScanOne(st, data, o), ack + data[o..n], rej)
      else Scan(data, n, ScanOne(st, data, o), ack, rej + data[o..n])
  }

  lemma {:induction false} ScanFits(data: seq<Byte>, o: nat, st: Settings, ack: seq<Byte>, rej: seq<Byte>)
    requires |st.accm| == 32 && o <= |data|
    ensures var r := Scan(data, o, st, ack, rej);
            r.Finished? ==> |r.st.accm| == 32 && |r.ack| + |r.rej| <= |ack| + |rej| + |data| - o
    decreases |data| - o
  {
    hide ScanOne, Supported;
    if !(o + 2 >= |data| || |data| - o < data[o + 1]) && !CopyThrows(data, o) && data[o + 1] > 0 {
      var n := o + data[o + 1];
      if Supported(Opt(data[o], [])) {
        ScanFits(data, n, ScanOne(st, data, o), ack + data[o..n], rej);
      } else {
        ScanFits(data, n, ScanOne(st, data, o), ack, rej + data[o..n]);
      }
    }
  }

  /** Options that exactly fill the packet are all taken, accepted and rejected in order. */
  lemma {:induction false} ScanOptions(data: seq<Byte>, o: nat, st: Settings, ack: seq<Byte>, rej: seq<Byte>,
                                       os: seq<Opt>, tail: seq<Byte>)
    requires |st.accm| == 32 && o <= |data| && |tail| == 2 && (forall p <- os :: OptOk(p))
    requires data[o..] == Flatten(os) + tail
    ensures Scan(data, o, st, ack, rej)
         == Finished(Apply(st, os, tail), ack + Flatten(Filter(os, true)), rej + Flatten(Filter(os, false)))
    decreases |os|
  {
    hide ApplyOne, Apply, Flatten, Filter, Encode, Supported, ScanOne, CopyMap, Scan, OptOk;
    if os == [] {
      NothingScanned(data, o, st, ack, rej, os, tail);
    } else {
      var e, next := Encode(os[0]), Flatten(os[1..]) + tail;
      FlattenNext(os);
      assert Encode(os[0]) + Flatten(os[1..]) + tail == e + next;
      OneScanned(data, o, st, os[0], next);
      TurnScanned(data, o, st, ack, rej, e, next);
      ApplyNext(st, os, tail);
      FilterNext(os);
      var n := o + |e|;
      if Supported(os[0]) {
        ScanOptions(data, n, ScanOne(st, data, o), ack + e, rej, os[1..], tail);
        assert ack + e + Flatten(Filter(os[1..], true)) == ack + (e + Flatten(Filter(os[1..], true)));
      } else {
        ScanOptions(data, n, ScanOne(st, data, o), ack, rej + e, os[1..], tail);
        assert rej + e + Flatten(Filter(os[1..], false)) == rej + (e + Flatten(Filter(os[1..], false)));
      }
    }
  }

  lemma NothingScanned(data: seq<Byte>, o: nat, st: Settings, ack: seq<Byte>, rej: seq<Byte>,
                       os: seq<Opt>, tail: seq<Byte>)
    requires |st.accm| == 32 && o <= |data| && |tail| == 2 && os == [] && data[o..] == Flatten(os) + tail
    ensures Scan(data, o, st, ack, rej)
         == Finished(Apply(st, os, tail), ack + Flatten(Filter(os, true)), rej + Flatten(Filter(os, false)))
  {
    NoOptions(os, tail, st);
    assert ack + [] == ack && rej + [] == rej;
  }

  /** One turn of the loop over an option with octets `e`. */
  lemma TurnScanned(data: seq<Byte>, o: nat, st: Settings, ack: seq<Byte>, rej: seq<Byte>, e: seq<Byte>,
                    next: seq<Byte>)
    requires |st.accm| == 32 && o <= |data| && |e| >= 2 && |next| >= 2 && data[o..] == e + next
    requires o + 2 < |data| && data[o + 1] == |e| && !CopyThrows(data, o)
    ensures o + |e| <= |data| && data[o + |e|..] == next
    ensures Scan(data, o, st, ack, rej)
         == if Supported(Opt(data[o], [])) then Scan(data, o + |e|, ScanOne(st, data, o), ack + e, rej)
            else Scan(data, o + |e|, ScanOne(st, data, o), ack, rej + e)
  {
    hide Supported, ScanOne, CopyThrows;
    var s, n := data[o..], o + |e|;
    assert data[n..] == s[|e|..] == next;
    assert data[o..n] == s[..|e|] == e;
  }

  /** An option that is in place is scanned as one. */
  lemma OneScanned(data: seq<Byte>, o: nat, st: Settings, p: Opt, after: seq<Byte>)
    requires |st.accm| == 32 && OptOk(p) && |after| >= 2 && o <= |data| && data[o..] == Encode(p) + after
    ensures o + 2 < |data| && data[o] == p.kind && data[o + 1] == |p.value| + 2
    ensures !CopyThrows(data, o) && ScanOne(st, data, o) == ApplyOne(st, p, after)
    ensures Supported(Opt(data[o], [])) == Supported(p)
  {
    var s := data[o..];
    assert data[o] == s[0] && data[o + 1] == s[1];
    assert data[o + 2..] == s[2..] == p.value + after;
  }

  /** Where the loop goes from an option at `o`: on to the next, or nowhere when it stops or throws. */
  function NextAt(data: seq<Byte>, o: nat): Option<nat>
    requires o + 2 < |data|
  {
    if |data| - o < data[o + 1] || CopyThrows(data, o) || o + data[o + 1] + 2 >= |data| then None
    else Some(o + data[o + 1])
  }

  /** The option the loop is at after `k` turns from offset `o`. */
  function Position(data: seq<Byte>, o: nat, k: nat): (r: Option<nat>)
    ensures r.Some? ==> o <= r.value && r.value + 2 < |data|
    decreases k
  {
    if o + 2 >= |data| then None
    else if k == 0 then Some(o)
    else
      var n := NextAt(data, o);
      if n.None? then None else Position(data, n.value, k - 1)
  }

  ghost predicate NeverEnds(data: seq<Byte>, o: nat) {
    forall k: nat :: Position(data, o, k).Some?
  }

  ghost predicate ReachesZero(data: seq<Byte>, o: nat) {
    exists k: nat :: Position(data, o, k).Some? && data[Position(data, o, k).value + 1] == 0
  }

  lemma {:induction false} StaysAtZero(data: seq<Byte>, o: nat, k: nat)
    requires o + 2 < |data| && data[o + 1] == 0
    ensures Position(data, o, k) == Some(o)
    decreases k
  {
    if k > 0 {
      StaysAtZero(data, o, k - 1);
    }
  }

  lemma PositionTurn(data: seq<Byte>, o: nat, k: nat)
    ensures o + 2 < |data| && NextAt(data, o).Some? ==> Position(data, o, k + 1) == Position(data, NextAt(data, o).value, k)
    ensures o + 2 < |data| && NextAt(data, o).None? ==> Position(data, o, k + 1) == None
    ensures Position(data, o, 0) == if o + 2 < |data| then Some(o) else None
  {
    hide NextAt;
  }

  /** The loop never ends if and only if it reaches an option of length zero. */
  lemma {:induction false} NeverEndsIff(data: seq<Byte>, o: nat, st: Settings, ack: seq<Byte>, rej: seq<Byte>)
    requires |st.accm| == 32 && o <= |data|
    ensures NeverEnds(data, o) <==> ReachesZero(data, o)
    ensures Scan(data, o, st, ack, rej) == Forever <==> ReachesZero(data, o)
    decreases |data| - o
  {
    hide ScanOne, Supported, Position;
    PositionTurn(data, o, 0);
    if o + 2 >= |data| {
      NoPosition(data, o);
    } else if data[o + 1] == 0 {
      forall k: nat
        ensures Position(data, o, k).Some?
      {
        StaysAtZero(data, o, k);
      }
      assert data[Position(data, o, 0).value + 1] == 0;
    } else {
      var n := NextAt(data, o);
      if n.None? {
        assert !Position(data, o, 1).Some?;
        OnlyHere(data, o);
        if !(|data| - o < data[o + 1] || CopyThrows(data, o)) {
          NoPosition(data, o + data[o + 1]);
          EndsBehind(data, o, st, ack, rej);
        }
      } else {
        ShiftPositions(data, o);
        var e := data[o..n.value];
        if Supported(Opt(data[o], [])) {
          NeverEndsIff(data, n.value, ScanOne(st, data, o), ack + e, rej);
        } else {
          NeverEndsIff(data, n.value, ScanOne(st, data, o), ack, rej + e);
        }
      }
    }
  }

  lemma NoPosition(data: seq<Byte>, o: nat)
    requires o + 2 >= |data|
    ensures !NeverEnds(data, o) && !ReachesZero(data, o)
  {
    assert Position(data, o, 0) == None;
  }

  lemma OnlyHere(data: seq<Byte>, o: nat)
    requires o + 2 < |data| && data[o + 1] > 0 && NextAt(data, o).None?
    ensures !ReachesZero(data, o)
  {
    hide NextAt, Position;
    PositionTurn(data, o, 0);
    forall k: nat | k > 0
      ensures Position(data, o, k) == None
    {
      PositionTurn(data, o, k - 1);
    }
  }

  lemma EndsBehind(data: seq<Byte>, o: nat, st: Settings, ack: seq<Byte>, rej: seq<Byte>)
    requires |st.accm| == 32 && o + 2 < |data| && data[o + 1] > 0 && |data| - o >= data[o + 1] && !CopyThrows(data, o)
    requires o + data[o + 1] + 2 >= |data|
    ensures Scan(data, o, st, ack, rej).Finished?
  {
    hide ScanOne, Supported;
  }

  lemma ShiftPositions(data: seq<Byte>, o: nat)
    requires o + 2 < |data| && data[o + 1] > 0 && NextAt(data, o).Some?
    ensures var n := NextAt(data, o).value;
            (NeverEnds(data, o) <==> NeverEnds(data, n)) && (ReachesZero(data, o) <==> ReachesZero(data, n))
  {
    hide NextAt, Position;
    var n := NextAt(data, o).value;
    forall k: nat
      ensures Position(data, o, k + 1) == Position(data, n, k)
    {
      PositionTurn(data, o, k);
    }
    PositionTurn(data, o, 0);
    if NeverEnds(data, n) {
      forall k: nat
        ensures Position(data, o, k).Some?
      {
        if k > 0 {
          assert Position(data, o, (k - 1) + 1) == Position(data, n, k - 1);
        }
      }
    }
    if NeverEnds(data, o) {
      forall k: nat
        ensures Position(data, n, k).Some?
      {
        assert Position(data, o, k + 1).Some?;
      }
    }
    if k: nat :| Position(data, n, k).Some? && data[Position(data, n, k).value + 1] == 0 {
      assert Position(data, o, k + 1).Some?;
    }
    if k: nat :| Position(data, o, k).Some? && data[Position(data, o, k).value + 1] == 0 {
      assert k > 0 && Position(data, o, (k - 1) + 1) == Position(data, n, k - 1);
    }
  }

  /** The answer to what the loop collected. */
  function Answer(identifier: Byte, ack: seq<Byte>, rej: seq<Byte>): seq<seq<Byte>>
    requires |ack| + 4 < M16 && |rej| + 4 < M16
  {
    if rej != [] then [Control(4, identifier, rej)]
    else if ack != [] then [Control(2, identifier, ack)]
    else []
  }

  lemma FlattenNext(os: seq<Opt>)
    requires forall o <- os :: OptOk(o)
    ensures os == [] ==> Flatten(os) == []
    ensures os != [] ==> OptOk(os[0]) && Flatten(os) == Encode(os[0]) + Flatten(os[1..])
    ensures os != [] ==> var e := Encode(os[0]); |e| >= 2 && e[1] == |e| && e[2..] == os[0].value
  {
    if os != [] {
      assert os[0] in os;
    }
  }

  lemma FilterNext(os: seq<Opt>)
    requires os != [] && forall o <- os :: OptOk(o)
    ensures OptOk(os[0])
    ensures Flatten(Filter(os, Supported(os[0]))) == Encode(os[0]) + Flatten(Filter(os[1..], Supported(os[0])))
    ensures Flatten(Filter(os, !Supported(os[0]))) == Flatten(Filter(os[1..], !Supported(os[0])))
  {
    hide Encode, Supported;
    assert os[0] in os;
    var f := Filter(os[1..], Supported(os[0]));
    assert ([os[0]] + f)[1..] == f;
    assert [] + Filter(os[1..], !Supported(os[0])) == Filter(os[1..], !Supported(os[0]));
  }

  lemma ApplyNext(st: Settings, os: seq<Opt>, tail: seq<Byte>)
    requires os != [] && |st.accm| == 32 && |tail| == 2 && forall o <- os :: OptOk(o)
    ensures os[0] in os
    ensures Apply(st, os, tail) == Apply(ApplyOne(st, os[0], Flatten(os[1..]) + tail), os[1..], tail)
  {
    hide ApplyOne;
  }

  lemma NoOptions(os: seq<Opt>, tail: seq<Byte>, st: Settings)
    requires |st.accm| == 32 && |tail| == 2 && (forall o <- os :: OptOk(o)) && Flatten(os) == []
    ensures os == [] && Apply(st, os, tail) == st
    ensures Flatten(Filter(os, true)) == [] && Flatten(Filter(os, false)) == []
  {
  }

  // ----- what the loop leaves in the map -----------------------------------------------------------------------

  function Later(later: Option<Byte>, earlier: Option<Byte>): Option<Byte> {
    if later.Some? then later else earlier
  }

  function Or(w: Option<Byte>, b: Byte): Byte {
    if w.Some? then w.value else b
  }

  /** The loop takes the option at `p`, and it is a map that reaches octet `k`. */
  predicate MapAt(data: seq<Byte>, p: nat, k: nat) {
    p + 2 < |data| && data[p] == CHARACTER_MAP && |data| - p >= data[p + 1] > k && !CopyThrows(data, p)
  }

  /** What the last option that reaches octet `k`, from offset `o` on, copies there: the copy starts behind the
      length octet. */
  function Written(data: seq<Byte>, o: nat, k: nat): Option<Byte>
    decreases |data| - o
  {
    if o + 2 >= |data| || NextAt(data, o).None? || data[o + 1] == 0 then WrittenAt(data, o, k)
    else Later(Written(data, o + data[o + 1], k), WrittenAt(data, o, k))
  }

  function WrittenAt(data: seq<Byte>, p: nat, k: nat): Option<Byte> {
    if MapAt(data, p, k) then Some(data[p + 2 + k]) else None
  }

  /** The loop gets to its end. */
  predicate Ends(data: seq<Byte>, o: nat)
    decreases |data| - o
  {
    || o + 2 >= |data| || |data| - o < data[o + 1]
    || (!CopyThrows(data, o) && data[o + 1] > 0 && Ends(data, o + data[o + 1]))
  }

  lemma {:induction false} EndsFinished(data: seq<Byte>, o: nat, st: Settings, ack: seq<Byte>, rej: seq<Byte>)
    requires |st.accm| == 32 && o <= |data|
    ensures Scan(data, o, st, ack, rej).Finished? <==> Ends(data, o)
    decreases |data| - o
  {
    hide ScanOne, Supported;
    if !(o + 2 >= |data| || |data| - o < data[o + 1]) && !CopyThrows(data, o) && data[o + 1] > 0 {
      var n := o + data[o + 1];
      if Supported(Opt(data[o], [])) {
        EndsFinished(data, n, ScanOne(st, data, o), ack + data[o..n], rej);
      } else {
        EndsFinished(data, n, ScanOne(st, data, o), ack, rej + data[o..n]);
      }
    }
  }

  lemma OneMap(st: Settings, data: seq<Byte>, o: nat, k: nat)
    requires |st.accm| == 32 && o + 2 < |data| && !CopyThrows(data, o) && |data| - o >= data[o + 1] && k < 32
    ensures ScanOne(st, data, o).accm[k] == Or(WrittenAt(data, o, k), st.accm[k])
  {
  }

  /** From an option that is taken, whether or not another follows. */
  lemma WrittenTurn(data: seq<Byte>, o: nat, k: nat)
    requires o + 2 < |data| && |data| - o >= data[o + 1] > 0 && !CopyThrows(data, o)
    ensures Written(data, o, k) == Later(Written(data, o + data[o + 1], k), WrittenAt(data, o, k))
  {
    hide CopyThrows;
  }

  /** On any octets over which the loop ends, each octet of the map is what the last option that reaches it copied
      there, or what it was. */
  lemma {:induction false} MapExact(data: seq<Byte>, o: nat, st: Settings, ack: seq<Byte>, rej: seq<Byte>, k: nat)
    requires |st.accm| == 32 && o <= |data| && k < 32 && Ends(data, o)
    ensures var r := Scan(data, o, st, ack, rej);
            r.Finished? && |r.st.accm| == 32 && r.st.accm[k] == Or(Written(data, o, k), st.accm[k])
    decreases |data| - o
  {
    hide ScanOne, Supported, CopyThrows, WrittenAt, Written;
    if o + 2 >= |data| || |data| - o < data[o + 1] {
      NothingTaken(data, o, k);
    } else {
      var n := o + data[o + 1];
      OneMap(st, data, o, k);
      WrittenTurn(data, o, k);
      if Supported(Opt(data[o], [])) {
        MapExact(data, n, ScanOne(st, data, o), ack + data[o..n], rej, k);
      } else {
        MapExact(data, n, ScanOne(st, data, o), ack, rej + data[o..n], k);
      }
    }
  }

  lemma NothingTaken(data: seq<Byte>, o: nat, k: nat)
    requires o + 2 >= |data| || |data| - o < data[o + 1]
    ensures Written(data, o, k) == None
  {
  }

  ghost predicate MapReaches(data: seq<Byte>, o: nat, k: nat) {
    exists j: nat :: Position(data, o, j).Some? && MapAt(data, Position(data, o, j).value, k)
  }

  /** Something is copied to octet `k` if and only if the loop comes to a map that reaches it. */
  lemma {:induction false} WrittenIff(data: seq<Byte>, o: nat, k: nat)
    ensures Written(data, o, k).Some? <==> MapReaches(data, o, k)
    decreases |data| - o
  {
    hide NextAt, Position, MapAt;
    PositionTurn(data, o, 0);
    WrittenUnfolds(data, o, k);
    if o + 2 < |data| && MapAt(data, o, k) {
      assert MapAt(data, Position(data, o, 0).value, k);
    }
    if o + 2 < |data| && NextAt(data, o).Some? && data[o + 1] > 0 {
      var n := NextAt(data, o).value;
      WrittenIff(data, n, k);
      if j: nat :| Position(data, n, j).Some? && MapAt(data, Position(data, n, j).value, k) {
        PositionTurn(data, o, j);
        assert Position(data, o, j + 1).Some?;
      }
      if j: nat :| Position(data, o, j).Some? && MapAt(data, Position(data, o, j).value, k) && j > 0 {
        PositionTurn(data, o, j - 1);
        assert Position(data, n, j - 1).Some?;
      }
    } else {
      HereOnly(data, o, k);
    }
  }

  lemma WrittenUnfolds(data: seq<Byte>, o: nat, k: nat)
    ensures if o + 2 >= |data| || NextAt(data, o).None? || data[o + 1] == 0
            then Written(data, o, k).Some? <==> o + 2 < |data| && MapAt(data, o, k)
            else Written(data, o, k).Some? <==> Written(data, NextAt(data, o).value, k).Some? || MapAt(data, o, k)
    ensures o + 2 < |data| && NextAt(data, o).Some? ==> NextAt(data, o).value == o + data[o + 1] <= |data|
  {
  }

  /** Where the loop does not get on. */
  lemma HereOnly(data: seq<Byte>, o: nat, k: nat)
    requires o + 2 >= |data| || NextAt(data, o).None? || data[o + 1] == 0
    ensures MapReaches(data, o, k) <==> o + 2 < |data| && MapAt(data, o, k)
  {
    hide NextAt, MapAt;
    if o + 2 < |data| && data[o + 1] > 0 {
      forall j: nat | j > 0
        ensures Position(data, o, j) == None
      {
        PositionTurn(data, o, j - 1);
      }
    } else if o + 2 < |data| {
      forall j: nat
        ensures Position(data, o, j) == Some(o)
      {
        StaysAtZero(data, o, j);
      }
    }
    PositionTurn(data, o, 0);
    assert o + 2 < |data| ==> Position(data, o, 0) == Some(o);
  }

  // ----- which links negotiation can reach -----------------------------------------------------------------

  /** A Configure-Request whose length field runs past the packet is ignored. */
  predicate Ignored(data: seq<Byte>) {
    8 <= |data| < 4 + Get16(data, 6)
  }

  /** A Configure-Request of any octets that the engine gets through. */
  predicate Configures(data: seq<Byte>) {
    8 <= |data| < M16 && data[4] == 1 && (Ignored(data) || Ends(data, 8))
  }

  function AfterRequest(st: Settings, data: seq<Byte>): (r: Settings)
    requires |st.accm| == 32 && Configures(data)
    ensures |r.accm| == 32
  {
    if Ignored(data) then st
    else
      var st0 := Settings(false, false, st.accm);
      MapExact(data, 8, st0, [], [], 0);
      Scan(data, 8, st0, [], []).st
  }

  function Negotiate(st: Settings, ds: seq<seq<Byte>>): (r: Settings)
    requires |st.accm| == 32 && forall d <- ds :: Configures(d)
    ensures |r.accm| == 32
    decreases |ds|
  {
    if ds == [] then st else Negotiate(AfterRequest(st, ds[0]), ds[1..])
  }

  /** The constructor's map: all 32 control characters. */
  const INITIAL := Settings(false, false, [0xff, 0xff, 0xff, 0xff] + seq(28, _ => 0))

  /** What the last request that reaches octet `k` of the map leaves there. */
  function LastWritten(ds: seq<seq<Byte>>, k: nat): Option<Byte>
    requires forall d <- ds :: Configures(d)
    decreases |ds|
  {
    if ds == [] then None
    else
      assert ds[0] in ds;
      Later(LastWritten(ds[1..], k), if Ignored(ds[0]) then None else Written(ds[0], 8, k))
  }

  lemma {:induction false} NegotiatedMap(st: Settings, ds: seq<seq<Byte>>, k: nat)
    requires |st.accm| == 32 && k < 32 && forall d <- ds :: Configures(d)
    ensures Negotiate(st, ds).accm[k] == Or(LastWritten(ds, k), st.accm[k])
    decreases |ds|
  {
    hide Scan, Written, Ends;
    if ds != [] {
      assert ds[0] in ds;
      if !Ignored(ds[0]) {
        MapExact(ds[0], 8, Settings(false, false, st.accm), [], [], k);
      }
      NegotiatedMap(AfterRequest(st, ds[0]), ds[1..], k);
    }
  }

  function LinkOf(st: Settings): Link {
    Link(st.ac, st.pc, st.accm)
  }

  ghost predicate RoundTrips(l: Link) {
    l.Valid() && forall ps: seq<Packet> | (forall p <- ps :: PacketOk(p)) :: Received(l, Wire(l, ps)) == Expected(ps)
  }

  /** The octet of the map that holds the bit of '^', and the bit. */
  const CARET_OCTET := 11

  predicate CaretBit(b: Byte) {
    b / 64 % 2 == 1
  }

  /** After any run of requests, of any octets, that the engine gets through, every stream of valid packets
      round-trips over the negotiated link if and only if the last request that reaches the octet of '^' in the
      map leaves its bit clear, or none does. */
  lemma NegotiatedLinkIff(ds: seq<seq<Byte>>)
    requires forall d <- ds :: Configures(d)
    ensures RoundTrips(LinkOf(Negotiate(INITIAL, ds))) <==>
              !(LastWritten(ds, CARET_OCTET).Some? && CaretBit(LastWritten(ds, CARET_OCTET).value))
  {
    hide Received, Wire, Expected, LastWritten, Negotiate, Configures;
    var l := LinkOf(Negotiate(INITIAL, ds));
    NegotiatedMap(INITIAL, ds, CARET_OCTET);
    assert INITIAL.accm[CARET_OCTET] == 0;
    RoundTripIff(l);
    CaretOfMap(l.accm);
  }

  lemma CaretOfMap(accm: seq<Byte>)
    requires |accm| == 32
    ensures MapOk(accm) <==> !CaretBit(accm[CARET_OCTET])
  {
    assert Pow2(3) == 8 && Pow2(6) == 64;
  }

  /** Maps too short to reach it, in particular the four octets of the standard, never do harm. */
  lemma {:induction false} ShortMapsAreSafe(ds: seq<seq<Byte>>)
    requires forall d <- ds :: Configures(d)
    requires forall d <- ds :: Ignored(d) || !MapReaches(d, 8, CARET_OCTET)
    ensures LastWritten(ds, CARET_OCTET) == None && RoundTrips(LinkOf(Negotiate(INITIAL, ds)))
    decreases |ds|
  {
    hide Negotiate, RoundTrips, Written, MapReaches, Ends;
    NegotiatedLinkIff(ds);
    if ds != [] {
      assert ds[0] in ds;
      WrittenIff(ds[0], 8, CARET_OCTET);
      ShortMapsAreSafe(ds[1..]);
    }
  }

  /** A character map of twelve octets whose last flags '^'. */
  const LONG_MAP := Opt(CHARACTER_MAP, seq(11, _ => 0) + [64])

  /** A request with one option and its two check octets, in a packet with its full header. */
  function RequestWith(o: Opt, tail: seq<Byte>): seq<Byte>
    requires OptOk(o) && |tail| == 2
  {
    [0xff, 0x03, 0xc0, 0x21, 1, 1] + Be16(|o.value| + 6) + Encode(o) + tail
  }

  /** One request with a long map loses packets. */
  lemma LongMapBreaksLink(tail: seq<Byte>)
    requires |tail| == 2
    ensures var ds := [RequestWith(LONG_MAP, tail)];
            (forall d <- ds :: Configures(d)) && !RoundTrips(LinkOf(Negotiate(INITIAL, ds)))
  {
    hide Negotiate, RoundTrips;
    var d := RequestWith(LONG_MAP, tail);
    assert |d| == 24 && d[8] == CHARACTER_MAP && d[9] == 14 && d[21] == 64;
    assert Get16(d, 6) == 18;
    assert Ends(d, 22);
    assert Written(d, 22, CARET_OCTET) == None;
    assert Written(d, 8, CARET_OCTET) == Some(64);
    var ds: seq<seq<Byte>> := [d];
    assert ds[1..] == [];
    assert LastWritten(ds, CARET_OCTET) == Some(64);
    NegotiatedLinkIff(ds);
  }
}
