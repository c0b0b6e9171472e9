/** The PPP device object: frame building, the octet-at-a-time deframer and the LCP handler, each
    proved against PppFrame and PppLcp. */
module PppLink {
  import opened Bytes
  import opened PppFrame
  import opened PppLcp
  import Crc

  ghost function Prefixed(out: seq<Byte>, r: Option<seq<Byte>>): Option<seq<Byte>> {
    match r case None => None case Some(t) => Some(out + t)
  }

  lemma UnstuffNext(s: seq<Byte>, out: seq<Byte>)
    requires s != []
    ensures s[0] == ESCAPE && |s| > 1 ==>
              Prefixed(out, Unstuff(s)) == Prefixed(out + [Flip(s[1])], Unstuff(s[2..]))
    ensures s[0] == ESCAPE && |s| == 1 ==> Unstuff(s) == None
    ensures s[0] != ESCAPE ==> Prefixed(out, Unstuff(s)) == Prefixed(out + [s[0]], Unstuff(s[1..]))
  {
    hide Flip;
    var x := if s[0] == ESCAPE && |s| > 1 then Flip(s[1]) else s[0];
    var rest := if s[0] == ESCAPE && |s| > 1 then s[2..] else s[1..];
    if Unstuff(rest).Some? {
      assert out + ([x] + Unstuff(rest).value) == out + [x] + Unstuff(rest).value;
    }
  }

  lemma PrefixedNothing(r: Option<seq<Byte>>)
    ensures Prefixed([], r) == r
  {
    if r.Some? {
      assert [] + r.value == r.value;
    }
  }

  /** unwrap_ppp_frame. */
  method Unwrap(payload: seq<Byte>) returns (r: Option<seq<Byte>>)
    ensures r == Unstuff(payload)
  {
    hide Flip;
    var out: seq<Byte> := [];
    var i := 0;
    assert payload[0..] == payload;
    PrefixedNothing(Unstuff(payload));
    while i < |payload|
      invariant 0 <= i <= |payload|
      invariant Prefixed(out, Unstuff(payload[i..])) == Unstuff(payload)
    {
      var c := payload[i];
      ghost var s := payload[i..];
      UnstuffNext(s, out);
      i := i + 1;
      if c == ESCAPE {
        if i == |payload| {
          return None;
        }
        assert s[2..] == payload[i + 1..];
        out := out + [Flip(payload[i])];
        i := i + 1;
      } else {
        assert s[1..] == payload[i..];
        out := out + [c];
      }
    }
    assert payload[i..] == [] && Unstuff([]) == Some([]);
    assert out + [] == out;
    r := Some(out);
  }

  class Ppp {
    var ac: bool
    var pc: bool
    var lcpAcked: bool
    var accmRx: seq<Byte>
    var accmTx: seq<Byte>
    var packetBuffer: seq<Byte>
    const magic: U32
    const fcstab: seq<bv32>

    ghost predicate Valid()
      reads this
    {
      && |accmRx| == 32 && |accmTx| == 32
      && |fcstab| == 256 && forall i | 0 <= i < 256 :: fcstab[i] == Crc.Entry(Crc.FCS16, Crc.Octet(i))
    }

    constructor (magic: U32)
      ensures Valid() && Settings(ac, pc, accmTx) == INITIAL && accmRx == accmTx && packetBuffer == []
    {
      var table := Fcs.BuildTable();
      this.magic, fcstab := magic, table;
      ac, pc, lcpAcked, packetBuffer := false, false, false, [];
      var accm := [0xff, 0xff, 0xff, 0xff] + seq(28, _ => 0);
      accmRx, accmTx := accm, accm;
    }

    /** wrap_in_ppp_frame: header, payload and frame check, then stuffed between flags. */
    method Wrap(payload: seq<Byte>, protocol: U16, meta: bool) returns (out: seq<Byte>)
      requires Valid()
      ensures out == Frame(Link(ac, pc, accmTx), Packet(meta, protocol, payload))
    {
      hide Stuff, Escaped, Fcs.Trailer;
      var temp: seq<Byte> := [];
      if !ac || meta {
        temp := temp + [0xff, 0x03];
      }
      if pc && protocol < 0x100 && !meta {
        temp := temp + [protocol];
      } else {
        temp := temp + [protocol / M8, protocol % M8];
      }
      temp := temp + payload;
      var check := CheckOctets(temp);
      ghost var l, p := Link(ac, pc, accmTx), Packet(meta, protocol, payload);
      assert temp == Header(l, p) + payload;
      temp := temp + check;
      var stuffed := StuffOctets(temp, meta);
      out := [FLAG] + stuffed + [FLAG];
    }

    method CheckOctets(temp: seq<Byte>) returns (t: seq<Byte>)
      requires Valid()
      ensures t == Fcs.Trailer(temp)
    {
      hide Crc.Entry, Crc.Octet, Fcs.LowOctet, Crc.ByBit;
      var fcs := Fcs.Compute(temp, fcstab);
      fcs := Fcs.Complement(fcs);
      t := [Fcs.LowOctet(fcs), Fcs.LowOctet(Crc.Shift8(fcs))];
    }

    method StuffOctets(temp: seq<Byte>, meta: bool) returns (out: seq<Byte>)
      requires |accmTx| == 32
      ensures out == Stuff(temp, accmTx, meta)
    {
      hide Mapped, Flip, Stuff;
      out := [];
      assert temp[0..] == temp;
      for i := 0 to |temp|
        invariant out + Stuff(temp[i..], accmTx, meta) == Stuff(temp, accmTx, meta)
      {
        var b := temp[i];
        StuffNext(temp[i..], accmTx, meta, out);
        assert temp[i..][1..] == temp[i + 1..];
        if b == ESCAPE || b == FLAG || Mapped(accmTx, b) || (b < 0x20 && meta) {
          out := out + [ESCAPE, Flip(b)];
        } else {
          out := out + [b];
        }
      }
      StuffEnd(accmTx, meta);
      assert temp[|temp|..] == [];
    }

    /** One octet of the read loop; a flag completes the frame collected so far, if any. */
    method ReceiveOctet(b: Byte) returns (frame: Option<seq<Byte>>)
      modifies this`packetBuffer
      ensures b != FLAG ==> frame == None && packetBuffer == old(packetBuffer) + [b]
      ensures b == FLAG ==> packetBuffer == []
      ensures b == FLAG ==> frame == if old(packetBuffer) == [] then None else Some(old(packetBuffer))
    {
      frame := None;
      if b == FLAG {
        if packetBuffer != [] {
          frame := Some(packetBuffer);
          packetBuffer := [];
        }
      } else {
        packetBuffer := packetBuffer + [b];
      }
    }

    /** The read loop over a whole stream. */
    method ReceiveStream(stream: seq<Byte>) returns (frames: seq<seq<Byte>>)
      modifies this`packetBuffer
      ensures frames == Deframe(stream, old(packetBuffer))
    {
      frames := [];
      for i := 0 to |stream|
        invariant frames + Deframe(stream[i..], packetBuffer) == Deframe(stream, old(packetBuffer))
      {
        assert stream[i..][1..] == stream[i + 1..];
        var f := ReceiveOctet(stream[i]);
        if f.Some? {
          frames := frames + [f.value];
        }
      }
    }

    /** process_incoming_packet up to its dispatch, by insertion at the front. */
    method Process(packet: seq<Byte>) returns (r: Option<seq<Byte>>)
      ensures r == Expand(ac, pc, packet)
    {
      if |packet| < 4 {
        return None;
      }
      var buf := packet;
      if buf[0] != 0xff && ac {
        buf := [0xff] + buf;
        buf := buf[..1] + [0x03] + buf[1..];
      }
      assert buf == if packet[0] != 0xff && ac then [0xff, 0x03] + packet else packet;
      if buf[2] % 2 == 1 && pc {
        buf := buf[..2] + [0x00] + buf[2..];
      }
      r := Some(buf);
    }

    /** handle_lcp on a Configure-Request of any octets. Returns the control packets it sends; none when the
        option loop throws or never ends. */
    method HandleConfigureRequest(data: seq<Byte>) returns (sent: seq<seq<Byte>>)
      requires Valid() && accmRx == accmTx && 8 <= |data| < M16 && data[4] == 1
      modifies this`ac, this`pc, this`lcpAcked, this`accmRx, this`accmTx
      ensures Valid() && accmRx == accmTx
      ensures |data| < 4 + Get16(data, 6) ==>
                sent == [] && Settings(ac, pc, accmTx) == old(Settings(ac, pc, accmTx)) && lcpAcked == old(lcpAcked)
      ensures |data| >= 4 + Get16(data, 6) ==>
                var r := Scan(data, 8, Settings(false, false, old(accmTx)), [], []);
                && !lcpAcked
                && (!r.Finished? ==> sent == [])
                && (r.Finished? ==>
                      && Settings(ac, pc, accmTx) == r.st && |r.ack| + 4 < M16 && |r.rej| + 4 < M16
                      && sent == Answer(data[5], r.ack, r.rej) + [OwnRequest(accmRx, magic)])
      ensures Configures(data) ==>
                Settings(ac, pc, accmTx) == AfterRequest(Settings(old(ac), old(pc), old(accmTx)), data)
    {
      hide Scan, Ends;
      if Configures(data) && !Ignored(data) {
        EndsFinished(data, 8, Settings(false, false, accmTx), [], []);
      }
      sent := [];
      if |data| < 4 + Get16(data, 6) {
        return;
      }
      pc, ac, lcpAcked := false, false, false;
      ScanFits(data, 8, Settings(false, false, accmTx), [], []);
      var ok, ack, rej := TakeOptions(data);
      if !ok {
        return;
      }
      if rej != [] {
        var reject := SendXcp(4, data[5], rej);
        sent := [reject];
      } else if ack != [] {
        var accept := SendXcp(2, data[5], ack);
        sent := [accept];
      }
      var request := BuildRequest();
      sent := sent + [request];
    }

    /** send_Xcp: the length is filled in when everything is there. */
    method SendXcp(code: Byte, identifier: Byte, data: seq<Byte>) returns (out: seq<Byte>)
      requires |data| + 4 < M16
      ensures out == Control(code, identifier, data)
    {
      out := [code, identifier];
      var offset := |out|;
      out := out + [0, 0];
      out := out + data;
      out := out[offset := |out| / M8];
      out := out[offset + 1 := |out| % M8];
    }

    /** The engine's own request, octet by octet. */
    method BuildRequest() returns (out: seq<Byte>)
      requires |accmRx| == 32
      ensures out == OwnRequest(accmRx, magic)
    {
      out := [1, 1];
      var offset := |out|;
      out := out + [0, 0];
      out := out + [2, 6] + accmRx[..4];
      out := out + [5, 6, magic / 0x100_0000, magic / M16 % M8, magic / M8 % M8, magic % M8];
      out := out + [7, 2];
      out := out + [8, 2];
      out := out[offset := |out| / M8];
      out := out[offset + 1 := |out| % M8];
    }

    /** The option loop: supported options are taken over and collected, others collected for rejection. An
        option of length zero, which the loop would never pass, ends this method. */
    method TakeOptions(data: seq<Byte>) returns (ok: bool, ack: seq<Byte>, rej: seq<Byte>)
      requires Valid() && accmRx == accmTx && |data| >= 8
      modifies this`ac, this`pc, this`accmRx, this`accmTx
      ensures Valid() && accmRx == accmTx
      ensures var r := Scan(data, 8, old(Settings(ac, pc, accmTx)), [], []);
              ok == r.Finished? && (ok ==> r == Finished(Settings(ac, pc, accmTx), ack, rej))
    {
      hide Scan, ScanOne, CopyThrows;
      ok, ack, rej := true, [], [];
      var offset := 8;
      ghost var goal := Scan(data, 8, Settings(ac, pc, accmTx), [], []);
      while offset < |data| - 2
        invariant 8 <= offset <= |data| && Valid() && accmRx == accmTx
        invariant Scan(data, offset, Settings(ac, pc, accmTx), ack, rej) == goal
        decreases |data| - offset
      {
        ScanTurn(data, offset, Settings(ac, pc, accmTx), ack, rej);
        var kind, len := data[offset], data[offset + 1];
        if |data| - offset < len {
          return;
        }
        var taken := TakeOption(data, offset);
        if !taken || len == 0 {
          ok := false;
          return;
        }
        var option := data[offset..offset + len];
        if kind == 1 || kind == 2 || kind == 5 || kind == 7 || kind == 8 {
          ack := ack + option;
        } else {
          rej := rej + option;
        }
        offset := offset + len;
      }
      ScanEnd(data, offset, Settings(ac, pc, accmTx), ack, rej);
    }

    /** What one option changes; false when the copy of a character map throws. */
    method TakeOption(data: seq<Byte>, offset: nat) returns (ok: bool)
      requires Valid() && accmRx == accmTx && offset + 2 < |data|
      modifies this`ac, this`pc, this`accmRx, this`accmTx
      ensures Valid() && accmRx == accmTx && ok == !CopyThrows(data, offset)
      ensures ok ==> Settings(ac, pc, accmTx) == ScanOne(old(Settings(ac, pc, accmTx)), data, offset)
    {
      ok := true;
      var kind, len := data[offset], data[offset + 1];
      if kind == 2 {
        ok := CopyOctets(data, offset + 2, len);
      } else if kind == 7 {
        pc := true;
      } else if kind == 8 {
        ac := true;
      }
    }

    /** The copy loop: both maps, octet by octet, until one of the accesses is out of range. */
    method CopyOctets(data: seq<Byte>, start: nat, len: nat) returns (ok: bool)
      requires Valid() && accmRx == accmTx && start <= |data|
      modifies this`accmRx, this`accmTx
      ensures Valid() && accmRx == accmTx && ok == (len <= 32 && |data| - start >= len)
      ensures ok ==> accmTx == CopyMap(old(accmTx), data[start..], len)
    {
      ghost var before, from := accmTx, data[start..];
      for i := 0 to len
        invariant |accmTx| == 32 && accmRx == accmTx && i <= 32 && i <= |from|
        invariant accmTx == from[..i] + before[i..]
      {
        if i >= 32 || start + i >= |data| {
          return false;
        }
        accmTx := accmTx[i := data[start + i]];
        accmRx := accmRx[i := data[start + i]];
      }
      ok := true;
    }
  }

  lemma ScanTurn(data: seq<Byte>, o: nat, st: Settings, ack: seq<Byte>, rej: seq<Byte>)
    requires |st.accm| == 32 && o + 2 < |data|
    ensures Scan(data, o, st, ack, rej)
         == if |data| - o < data[o + 1] then Finished(st, ack, rej)
            else if CopyThrows(data, o) then Thrown
            else if data[o + 1] == 0 then Forever
            else
              var n := o + data[o + 1];
              if data[o] in {1, 2, 5, 7, 8} then Scan(data, n, ScanOne(st, data, o), ack + data[o..n], rej)
              else Scan(data, n, ScanOne(st, data, o), ack, rej + data[o..n])
  {
    hide ScanOne, CopyThrows;
  }

  lemma ScanEnd(data: seq<Byte>, o: nat, st: Settings, ack: seq<Byte>, rej: seq<Byte>)
    requires |st.accm| == 32 && o <= |data| <= o + 2
    ensures Scan(data, o, st, ack, rej) == Finished(st, ack, rej)
  {
  }

  lemma StuffNext(s: seq<Byte>, accm: seq<Byte>, meta: bool, out: seq<Byte>)
    requires s != [] && |accm| == 32
    ensures out + Stuff(s, accm, meta) == out + StuffOne(s[0], accm, meta) + Stuff(s[1..], accm, meta)
  {
    hide StuffOne;
  }

  lemma StuffEnd(accm: seq<Byte>, meta: bool)
    requires |accm| == 32
    ensures Stuff([], accm, meta) == []
  {
  }
}
