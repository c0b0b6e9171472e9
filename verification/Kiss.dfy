/** KISS framing as phys_kiss.cpp does it: a command octet in front, a 256-octet receive buffer. */
module Kiss {
  import opened Bytes
  import opened Slip

  const MAX_PACKET := 256

  /** transmit_ax25: command 0 on channel 0, then the packet. */
  function KissFrame(p: seq<Byte>): (r: seq<Byte>)
    ensures |r| <= 2 * |p| + 3
  {
    [END] + ([0] + Escape(p)) + [END]
  }

  function KissWire(ps: seq<seq<Byte>>): seq<Byte> {
    if ps == [] then [] else KissFrame(ps[0]) + KissWire(ps[1..])
  }

  /** The packets a stream completes, without their command octets. `p` is the buffer, `esc` whether
      the last octet was an escape. An octet that finds the buffer full discards the frame so far. */
  function KissDecode(stream: seq<Byte>, p: seq<Byte>, esc: bool): seq<seq<Byte>>
    decreases |stream|
  {
    if stream == [] then []
    else
      var b, rest := stream[0], stream[1..];
      if esc then
        if |p| == MAX_PACKET then KissDecode(rest, [], false)
        else KissDecode(rest, p + Unescaped(b), false)
      else if b == END then
        if p != [] then [p[1..]] + KissDecode(rest, [], false) else KissDecode(rest, [], false)
      else if b == ESC then KissDecode(rest, p, true)
      else if |p| == MAX_PACKET then KissDecode(rest, [], false)
      else KissDecode(rest, p + [b], false)
  }

  lemma KissOne(b: Byte, rest: seq<Byte>, p: seq<Byte>)
    requires |p| < MAX_PACKET
    ensures KissDecode(EscapeOne(b) + rest, p, false) == KissDecode(rest, p + [b], false)
  {
    var s := EscapeOne(b) + rest;
    if b == END || b == ESC {
      assert s[1..] == [EscapeOne(b)[1]] + rest;
      assert s[1..][1..] == rest;
    } else {
      assert s[1..] == rest;
    }
  }

  lemma {:induction false} KissEscaped(s: seq<Byte>, rest: seq<Byte>, p: seq<Byte>)
    requires |p| + |s| <= MAX_PACKET
    ensures KissDecode(Escape(s) + rest, p, false) == KissDecode(rest, p + s, false)
    decreases |s|
  {
    hide KissDecode, EscapeOne;
    if s == [] {
      assert Escape(s) + rest == rest && p + s == p;
    } else {
      assert Escape(s) + rest == EscapeOne(s[0]) + (Escape(s[1..]) + rest);
      KissOne(s[0], Escape(s[1..]) + rest, p);
      KissEscaped(s[1..], rest, p + [s[0]]);
      assert p + [s[0]] + s[1..] == p + s;
    }
  }

  lemma KissEnd(rest: seq<Byte>, p: seq<Byte>)
    ensures KissDecode([END] + rest, p, false) == (if p == [] then [] else [p[1..]]) + KissDecode(rest, [], false)
  {
    assert ([END] + rest)[1..] == rest;
  }

  predicate Fits(p: seq<Byte>) {
    |p| < MAX_PACKET
  }

  /** One concatenated stream of packets of at most 255 octets comes back as those packets. */
  lemma {:induction false} KissRoundTrip(ps: seq<seq<Byte>>)
    requires forall i | 0 <= i < |ps| :: Fits(ps[i])
    ensures KissDecode(KissWire(ps), [], false) == ps
  {
    hide KissDecode, Escape;
    if ps == [] {
      KissNothing();
    } else {
      var p, rest := ps[0], KissWire(ps[1..]);
      var body := [0] + p;
      EscapeZero(p);
      assert KissWire(ps) == [END] + (Escape(body) + ([END] + rest));
      KissEnd(Escape(body) + ([END] + rest), []);
      assert Fits(p);
      KissEscaped(body, [END] + rest, []);
      assert [] + body == body && body[1..] == p;
      KissEnd(rest, body);
      KissRoundTrip(ps[1..]);
      assert ps == [p] + ps[1..];
    }
  }

  lemma EscapeZero(p: seq<Byte>)
    ensures Escape([0] + p) == [0] + Escape(p)
  {
    assert ([0] + p)[1..] == p;
  }

  lemma KissNothing()
    ensures KissDecode([], [], false) == []
  {
  }

  /** The decoder never yields more than 255 octets. */
  lemma {:induction false} DecodedFits(stream: seq<Byte>, p: seq<Byte>, esc: bool)
    requires |p| <= MAX_PACKET
    ensures forall i | 0 <= i < |KissDecode(stream, p, esc)| :: Fits(KissDecode(stream, p, esc)[i])
    decreases |stream|
  {
    if stream != [] {
      var b, rest := stream[0], stream[1..];
      if esc {
        DecodedFits(rest, if |p| == MAX_PACKET then [] else p + Unescaped(b), false);
      } else if b == END {
        DecodedFits(rest, [], false);
      } else if b == ESC {
        DecodedFits(rest, p, true);
      } else {
        DecodedFits(rest, if |p| == MAX_PACKET then [] else p + [b], false);
      }
    }
  }

  /** So a stream comes back unchanged exactly when every packet has at most 255 octets. */
  lemma KissRoundTripIff(ps: seq<seq<Byte>>)
    ensures KissDecode(KissWire(ps), [], false) == ps <==> forall i | 0 <= i < |ps| :: |ps[i]| <= 255
  {
    if forall i | 0 <= i < |ps| :: Fits(ps[i]) {
      KissRoundTrip(ps);
    } else {
      DecodedFits(KissWire(ps), [], false);
    }
  }

  /** A frame stands between two 0xc0, holds none, and begins with the data command for channel 0. */
  lemma KissFrameDelimited(p: seq<Byte>)
    ensures var f := KissFrame(p); |f| >= 3 && f[0] == f[|f| - 1] == 0xc0 && f[1] == 0 && 0xc0 !in f[1..|f| - 1]
  {
    EscapeExact(p);
    assert KissFrame(p)[1..|KissFrame(p)| - 1] == [0] + Escape(p);
  }

  /** An escape in front of anything but 0xdc and 0xdd is dropped with it. */
  lemma KissBadEscapeDropped(b: Byte, rest: seq<Byte>, p: seq<Byte>)
    requires b !in {0xdc, 0xdd} && |p| < 256
    ensures KissDecode([0xdb, b] + rest, p, false) == KissDecode(rest, p, false)
  {
    var s := [0xdb, b] + rest;
    assert s[1..] == [b] + rest && s[1..][1..] == rest && p + [] == p;
  }

  /** transmit_ax25 up to the write: the buffer of 2n + 3 octets is never overrun. */
  method KissTransmit(packet: seq<Byte>) returns (sent: seq<Byte>)
    ensures sent == KissFrame(packet)
  {
    hide EscapeOne, Escape;
    var out := new Byte[2 * |packet| + 3];
    var o := 0;
    out[o] := END;
    o := o + 1;
    out[o] := 0;
    o := o + 1;
    EscapeNothing();
    assert packet[..0] == [] && out[..2] == [END, 0];
    for i := 0 to |packet|
      invariant 2 <= o <= 2 + 2 * i
      invariant out[..o] == [END, 0] + Escape(packet[..i])
    {
      EscapeSnoc(packet[..i], packet[i]);
      assert packet[..i + 1] == packet[..i] + [packet[i]];
      o := EscapePut(out, o, packet[i]);
    }
    assert packet[..|packet|] == packet;
    ghost var before := out[..o];
    out[o] := END;
    o := o + 1;
    assert out[..o] == before + [END];
    assert [END, 0] + Escape(packet) + [END] == KissFrame(packet);
    sent := out[..o];
  }

  /** handle_kiss on a stream: the buffer holds at most 256 octets at any time. */
  method HandleKiss(stream: seq<Byte>) returns (packets: seq<seq<Byte>>)
    ensures packets == KissDecode(stream, [], false)
  {
    packets := [];
    var p := new Byte[MAX_PACKET];
    var len, escape := 0, false;
    assert stream[0..] == stream && p[..0] == [];
    for i := 0 to |stream|
      invariant 0 <= len <= MAX_PACKET
      invariant packets + KissDecode(stream[i..], p[..len], escape) == KissDecode(stream, [], false)
    {
      var b := stream[i];
      ghost var held := p[..len];
      assert stream[i..][1..] == stream[i + 1..];
      KissNext(stream[i..], held, escape);
      hide KissDecode;
      if escape {
        escape := false;
        if len == MAX_PACKET {
          len := 0;
          assert p[..0] == [];
        } else if b == ESC_END || b == ESC_ESC {
          p[len] := if b == ESC_END then END else ESC;
          len := len + 1;
          assert p[..len] == held + Unescaped(b);
        } else {
          assert held + [] == held;
        }
      } else if b == END {
        if len > 0 {
          assert p[1..len] == held[1..];
          packets := packets + [p[1..len]];
          len := 0;
        }
        assert p[..0] == [];
      } else if b == ESC {
        escape := true;
      } else if len == MAX_PACKET {
        len := 0;
        assert p[..0] == [];
      } else {
        p[len] := b;
        len := len + 1;
        assert p[..len] == held + [b];
      }
    }
    assert stream[|stream|..] == [];
    NothingLeft(p[..len], escape);
  }

  lemma NothingLeft(p: seq<Byte>, esc: bool)
    ensures KissDecode([], p, esc) == []
  {
  }

  lemma KissNext(s: seq<Byte>, p: seq<Byte>, esc: bool)
    requires s != []
    ensures KissDecode(s, p, esc) ==
      if esc then KissDecode(s[1..], if |p| == MAX_PACKET then [] else p + Unescaped(s[0]), false)
      else if s[0] == END then (if p == [] then [] else [p[1..]]) + KissDecode(s[1..], [], false)
      else if s[0] == ESC then KissDecode(s[1..], p, true)
      else KissDecode(s[1..], if |p| == MAX_PACKET then [] else p + [s[0]], false)
  {
  }
}
