/** SLIP framing (RFC 1055) as phys_slip.cpp does it, and the escape code KISS shares with it. */
module Slip {
  import opened Bytes

  const END: Byte := 0xc0
  const ESC: Byte := 0xdb
  const ESC_END: Byte := 0xdc
  const ESC_ESC: Byte := 0xdd

  /** An IPv4 header's worth; shorter frames are dropped. */
  const MIN_FRAME := 20

  function EscapeOne(b: Byte): seq<Byte> {
    if b == END then [ESC, ESC_END] else if b == ESC then [ESC, ESC_ESC] else [b]
  }

  function Escape(s: seq<Byte>): (r: seq<Byte>)
    ensures |s| <= |r| <= 2 * |s|
  {
    if s == [] then [] else EscapeOne(s[0]) + Escape(s[1..])
  }

  function Frame(p: seq<Byte>): (r: seq<Byte>)
    ensures |r| <= 2 * |p| + 2
  {
    [END] + Escape(p) + [END]
  }

  function Wire(ps: seq<seq<Byte>>): seq<Byte> {
    if ps == [] then [] else Frame(ps[0]) + Wire(ps[1..])
  }

  /** The packets a stream completes, `buf` being the octets of the frame so far. The octet after an
      escape is read at once; if the stream has ended there it reads as zero and is dropped. */
  function Decode(stream: seq<Byte>, buf: seq<Byte>): seq<seq<Byte>>
    decreases |stream|
  {
    if stream == [] then []
    else if stream[0] == ESC then
      if |stream| == 1 then []
      else Decode(stream[2..], buf + Unescaped(stream[1]))
    else if stream[0] == END then
      (if |buf| < MIN_FRAME then [] else [buf]) + Decode(stream[1..], [])
    else Decode(stream[1..], buf + [stream[0]])
  }

  function Unescaped(b: Byte): seq<Byte> {
    if b == ESC_END then [END] else if b == ESC_ESC then [ESC] else []
  }

  // ----- the octets of RFC 1055 -----------------------------------------------------------------------

  function Specials(s: seq<Byte>): nat {
    if s == [] then 0 else (if s[0] == 0xc0 || s[0] == 0xdb then 1 else 0) + Specials(s[1..])
  }

  /** Every 0xdb is followed by 0xdc or 0xdd. */
  predicate WellEscaped(t: seq<Byte>) {
    forall k | 0 <= k < |t| && t[k] == 0xdb :: k + 1 < |t| && t[k + 1] in {0xdc, 0xdd}
  }

  lemma {:induction false} EscapedClean(s: seq<Byte>)
    ensures 0xc0 !in Escape(s) && WellEscaped(Escape(s))
  {
    if s != [] {
      EscapedClean(s[1..]);
      var one, rest := EscapeOne(s[0]), Escape(s[1..]);
      assert forall k | |one| <= k < |one + rest| :: (one + rest)[k] == rest[k - |one|];
    }
  }

  lemma {:induction false} EscapedSize(s: seq<Byte>)
    ensures |Escape(s)| == |s| + Specials(s)
    ensures Escape(s) == s <==> 0xc0 !in s && 0xdb !in s
    ensures Specials(s) == 0 <==> 0xc0 !in s && 0xdb !in s
  {
    if s != [] {
      EscapedSize(s[1..]);
      if |EscapeOne(s[0])| == 1 {
        assert Escape(s)[1..] == Escape(s[1..]);
        assert s == [s[0]] + s[1..];
      } else {
        assert s[0] in s;
      }
    }
  }

  /** What is escaped holds no 0xc0, an 0xdb only in front of 0xdc or 0xdd, one octet more for each 0xc0 and 0xdb, and
      everything else as it was. */
  lemma EscapeExact(s: seq<Byte>)
    ensures 0xc0 !in Escape(s) && WellEscaped(Escape(s)) && |Escape(s)| == |s| + Specials(s)
    ensures Escape(s) == s <==> 0xc0 !in s && 0xdb !in s
    ensures Escape([0xc0]) == [0xdb, 0xdc] && Escape([0xdb]) == [0xdb, 0xdd]
  {
    EscapedClean(s);
    EscapedSize(s);
    assert [0xc0][1..] == [] && [0xdb][1..] == [];
  }

  /** A frame stands between two 0xc0 and holds none. */
  lemma FrameDelimited(p: seq<Byte>)
    ensures var f := Frame(p); |f| >= 2 && f[0] == f[|f| - 1] == 0xc0 && 0xc0 !in f[1..|f| - 1]
  {
    EscapeExact(p);
    assert Frame(p)[1..|Frame(p)| - 1] == Escape(p);
  }

  /** An escape in front of anything else is dropped with it, and a stream that ends with one yields nothing more. */
  lemma BadEscapeDropped(b: Byte, rest: seq<Byte>, buf: seq<Byte>)
    requires b !in {0xdc, 0xdd}
    ensures Decode([0xdb, b] + rest, buf) == Decode(rest, buf) && Decode([0xdb], buf) == Decode([], buf) == []
  {
    var s := [0xdb, b] + rest;
    assert s[2..] == rest && buf + [] == buf;
  }

  lemma DecodeOne(b: Byte, rest: seq<Byte>, buf: seq<Byte>)
    ensures Decode(EscapeOne(b) + rest, buf) == Decode(rest, buf + [b])
  {
    var s := EscapeOne(b) + rest;
    assert s[|EscapeOne(b)|..] == rest;
  }

  lemma {:induction false} DecodeEscaped(p: seq<Byte>, rest: seq<Byte>, buf: seq<Byte>)
    ensures Decode(Escape(p) + rest, buf) == Decode(rest, buf + p)
    decreases |p|
  {
    hide Decode, EscapeOne;
    if p == [] {
      assert Escape(p) + rest == rest && buf + p == buf;
    } else {
      assert Escape(p) + rest == EscapeOne(p[0]) + (Escape(p[1..]) + rest);
      DecodeOne(p[0], Escape(p[1..]) + rest, buf);
      DecodeEscaped(p[1..], rest, buf + [p[0]]);
      assert buf + [p[0]] + p[1..] == buf + p;
    }
  }

  lemma DecodeEnd(rest: seq<Byte>, buf: seq<Byte>)
    ensures Decode([END] + rest, buf) == (if |buf| < MIN_FRAME then [] else [buf]) + Decode(rest, [])
  {
    assert ([END] + rest)[1..] == rest;
  }

  function LongEnough(ps: seq<seq<Byte>>): seq<seq<Byte>> {
    if ps == [] then [] else (if |ps[0]| < MIN_FRAME then [] else [ps[0]]) + LongEnough(ps[1..])
  }

  /** Any stream of payloads decodes to exactly those of at least 20 octets, in order. */
  lemma {:induction false} StreamRoundTrip(ps: seq<seq<Byte>>)
    ensures Decode(Wire(ps), []) == LongEnough(ps)
  {
    hide Decode, Escape;
    if ps == [] {
      NothingDecoded();
    } else {
      var p, rest := ps[0], Wire(ps[1..]);
      assert Wire(ps) == [END] + (Escape(p) + ([END] + rest));
      DecodeEnd(Escape(p) + ([END] + rest), []);
      DecodeEscaped(p, [END] + rest, []);
      assert [] + p == p;
      DecodeEnd(rest, p);
      StreamRoundTrip(ps[1..]);
    }
  }

  lemma NothingDecoded()
    ensures Decode([], []) == []
  {
  }

  /** So a stream comes back unchanged exactly when no payload is too short. */
  lemma RoundTripIff(ps: seq<seq<Byte>>)
    ensures Decode(Wire(ps), []) == ps <==> forall i | 0 <= i < |ps| :: |ps[i]| >= 20
  {
    StreamRoundTrip(ps);
    LongEnoughIff(ps);
  }

  lemma {:induction false} LongEnoughIff(ps: seq<seq<Byte>>)
    ensures |LongEnough(ps)| <= |ps|
    ensures LongEnough(ps) == ps <==> forall i | 0 <= i < |ps| :: |ps[i]| >= MIN_FRAME
  {
    if ps != [] {
      LongEnoughIff(ps[1..]);
      assert ps == [ps[0]] + ps[1..];
      if forall i | 0 <= i < |ps| :: |ps[i]| >= MIN_FRAME {
        assert forall i | 0 <= i < |ps[1..]| :: ps[1..][i] == ps[i + 1];
      } else if |ps[0]| >= MIN_FRAME {
        assert LongEnough(ps)[1..] == LongEnough(ps[1..]);
        var i :| 0 <= i < |ps| && |ps[i]| < MIN_FRAME;
        assert ps[1..][i - 1] == ps[i];
      }
    }
  }

  /** escape_put: one octet, escaped if need be, at offset `o`. */
  method EscapePut(out: array<Byte>, o: nat, b: Byte) returns (o': nat)
    requires o + 2 <= out.Length
    modifies out
    ensures o < o' <= o + 2
    ensures out[..o'] == old(out[..o]) + EscapeOne(b)
  {
    if b == END {
      out[o], out[o + 1] := ESC, ESC_END;
      o' := o + 2;
    } else if b == ESC {
      out[o], out[o + 1] := ESC, ESC_ESC;
      o' := o + 2;
    } else {
      out[o] := b;
      o' := o + 1;
    }
  }

  /** transmit_packet: the output array of 2n + 2 octets is never overrun. */
  method Transmit(payload: seq<Byte>) returns (sent: seq<Byte>)
    ensures sent == Frame(payload)
  {
    hide EscapeOne, Escape;
    var out := new Byte[2 * |payload| + 2];
    var o := 0;
    out[o] := END;
    o := o + 1;
    EscapeNothing();
    assert payload[..0] == [] && out[..1] == [END];
    for i := 0 to |payload|
      invariant 1 <= o <= 1 + 2 * i
      invariant out[..o] == [END] + Escape(payload[..i])
    {
      EscapeSnoc(payload[..i], payload[i]);
      assert payload[..i + 1] == payload[..i] + [payload[i]];
      o := EscapePut(out, o, payload[i]);
    }
    assert payload[..|payload|] == payload;
    ghost var before := out[..o];
    out[o] := END;
    o := o + 1;
    assert out[..o] == before + [END];
    sent := out[..o];
  }

  lemma EscapeNothing()
    ensures Escape([]) == []
  {
  }

  lemma {:induction false} EscapeSnoc(s: seq<Byte>, b: Byte)
    ensures Escape(s + [b]) == Escape(s) + EscapeOne(b)
  {
    hide EscapeOne;
    if s == [] {
      assert s + [b] == [b] && [b][1..] == [];
      assert Escape([b]) == EscapeOne(b) + [];
    } else {
      assert (s + [b])[1..] == s[1..] + [b];
      EscapeSnoc(s[1..], b);
    }
  }

  /** The read loop. */
  method Receive(stream: seq<Byte>) returns (packets: seq<seq<Byte>>)
    ensures packets == Decode(stream, [])
  {
    packets := [];
    var buf: seq<Byte> := [];
    var i := 0;
    assert stream[0..] == stream;
    while i < |stream|
      invariant 0 <= i <= |stream|
      invariant packets + Decode(stream[i..], buf) == Decode(stream, [])
    {
      var b := stream[i];
      ghost var s := stream[i..];
      i := i + 1;
      if b == ESC {
        if i < |stream| {
          assert s[2..] == stream[i + 1..];
          if stream[i] == ESC_END {
            buf := buf + [END];
          } else if stream[i] == ESC_ESC {
            buf := buf + [ESC];
          } else {
            assert buf + [] == buf;
          }
          i := i + 1;
        }
      } else {
        assert s[1..] == stream[i..];
        if b == END {
          if |buf| >= MIN_FRAME {
            packets := packets + [buf];
          }
          buf := [];
        } else {
          buf := buf + [b];
        }
      }
    }
  }
}
