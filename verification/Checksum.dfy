/** The Internet checksum of section 1 of RFC 1071, as ip_checksum and tcp_udp_checksum compute it. */
module Checksum {
  import opened Bytes

  /** The 16-bit words of a buffer in network order. */
  function Words(b: seq<Byte>): seq<U16>
    requires |b| % 2 == 0
  {
    seq(|b| / 2, (i: nat) requires i < |b| / 2 => b[2 * i] * M8 + b[2 * i + 1])
  }

  function Sum(w: seq<U16>): nat {
    if w == [] then 0 else w[0] + Sum(w[1..])
  }

  /** What the code returns for a 32-bit accumulator: two folds, then the complement of 16 bits. */
  function Folded(cksum: U32): U16 {
    var once := cksum / M16 + cksum % M16;
    var twice := (once + once / M16) % M32;
    M16 - 1 - twice % M16
  }

  function ChecksumOf(w: seq<U16>): U16 {
    Folded(Sum(w) % M32)
  }

  lemma SumConcat(a: seq<U16>, b: seq<U16>)
    ensures Sum(a + b) == Sum(a) + Sum(b)
  {
    if a == [] {
      assert a + b == b;
    } else {
      assert (a + b)[1..] == a[1..] + b;
    }
  }

  lemma SumUpdate(w: seq<U16>, i: nat, v: U16)
    requires i < |w|
    ensures Sum(w[i := v]) == Sum(w) - w[i] + v
  {
    assert w == w[..i] + [w[i]] + w[i + 1..];
    assert w[i := v] == w[..i] + [v] + w[i + 1..];
    SumConcat(w[..i] + [w[i]], w[i + 1..]);
    SumConcat(w[..i] + [v], w[i + 1..]);
    SumConcat(w[..i], [w[i]]);
    SumConcat(w[..i], [v]);
    assert Sum([v]) == v && Sum([w[i]]) == w[i];
  }

  lemma SumBound(w: seq<U16>)
    ensures Sum(w) <= |w| * (M16 - 1)
  {
  }

  lemma WordsConcat(a: seq<Byte>, b: seq<Byte>)
    requires |a| % 2 == 0 && |b| % 2 == 0
    ensures |a + b| % 2 == 0 && Words(a + b) == Words(a) + Words(b)
  {
    var s := a + b;
    forall i: nat | i < |s| / 2
      ensures Words(s)[i] == (Words(a) + Words(b))[i]
    {
      if i >= |a| / 2 {
        assert s[2 * i] == b[2 * (i - |a| / 2)] && s[2 * i + 1] == b[2 * (i - |a| / 2) + 1];
      }
    }
  }

  // ----- what the two folds compute ---------------------------------------------------------------

  const MAX_WORDS := 65537

  /** The one's complement of the one's complement sum: the only 16-bit value that completes the sum
      to a multiple of 65535, with 65535 reserved for the sum zero. */
  predicate Completes(sum: nat, r: U16) {
    (sum + r) % 65535 == 0 && (r == 65535 <==> sum == 0)
  }

  lemma CompletesUnique(sum: nat, r: U16, q: U16)
    requires Completes(sum, r) && Completes(sum, q)
    ensures r == q
  {
  }

  lemma TwoFoldsSuffice(sum: nat)
    requires sum < M32
    ensures Completes(sum, Folded(sum))
  {
    var hi, lo := sum / M16, sum % M16;
    var once := hi + lo;
    assert sum == hi * 65535 + once;
    var low := if once < M16 then once else once - 65535;
    assert Folded(sum) == 65535 - low;
    assert sum + Folded(sum) == hi * 65535 + 65535 + (once - low);
    assert (sum + Folded(sum)) % 65535 == 0;
  }

  /** Up to 65537 words the accumulator cannot overflow and the result is the RFC's. */
  lemma ChecksumCorrect(w: seq<U16>)
    requires |w| <= MAX_WORDS
    ensures Sum(w) < M32 && Completes(Sum(w), ChecksumOf(w))
  {
    hide Folded, Completes, Sum;
    SumBound(w);
    assert |w| * 65535 <= MAX_WORDS * 65535;
    TwoFoldsSuffice(Sum(w));
  }

  function Full(n: nat): (w: seq<U16>)
    ensures |w| == n
  {
    seq(n, _ => 65535)
  }

  lemma {:induction false} SumOfFull(n: nat)
    ensures Sum(Full(n)) == n * 65535
  {
    if n > 0 {
      assert Full(n)[1..] == Full(n - 1);
      SumOfFull(n - 1);
    }
  }

  function Empty(n: nat): (w: seq<U16>)
    ensures |w| == n
  {
    seq(n, _ => 0)
  }

  lemma {:induction false} SumOfEmpty(n: nat)
    ensures Sum(Empty(n)) == 0
  {
    if n > 0 {
      assert Empty(n)[1..] == Empty(n - 1);
      SumOfEmpty(n - 1);
    }
  }

  /** 65538 words of all ones wrap the accumulator, whatever zeros follow, and the result is then wrong. */
  lemma OneWordMoreOverflows(n: nat) returns (w: seq<U16>)
    requires n > MAX_WORDS
    ensures |w| == n && Sum(w) >= M32 && !Completes(Sum(w), ChecksumOf(w))
  {
    w := Full(MAX_WORDS + 1) + Empty(n - MAX_WORDS - 1);
    SumConcat(Full(MAX_WORDS + 1), Empty(n - MAX_WORDS - 1));
    SumOfFull(MAX_WORDS + 1);
    SumOfEmpty(n - MAX_WORDS - 1);
    assert Sum(w) == 4295032830;
    assert 4295032830 % M32 == 65534;
    assert Folded(65534) == 1;
  }

  ghost predicate AlwaysRight(n: nat) {
    forall w: seq<U16> | |w| == n :: Completes(Sum(w), ChecksumOf(w))
  }

  /** The checksum of every buffer of n words is right if and only if n is at most 65537. */
  lemma ChecksumIff(n: nat)
    ensures AlwaysRight(n) <==> n <= MAX_WORDS
  {
    hide Completes, ChecksumOf, Sum;
    if n <= MAX_WORDS {
      forall w: seq<U16> | |w| == n
        ensures Completes(Sum(w), ChecksumOf(w))
      {
        ChecksumCorrect(w);
      }
    } else {
      var w := OneWordMoreOverflows(n);
    }
  }

  /** A sender that stores the checksum in a field it summed as zero makes the whole check out. */
  lemma StoredChecksumVerifies(w: seq<U16>, i: nat)
    requires |w| <= MAX_WORDS && i < |w| && w[i] == 0
    ensures ChecksumOf(w[i := ChecksumOf(w)]) == 0
  {
    var r := ChecksumOf(w);
    ChecksumCorrect(w);
    SumUpdate(w, i, r);
    ChecksumCorrect(w[i := r]);
    CompletesUnique(Sum(w[i := r]), ChecksumOf(w[i := r]), 0);
  }

  lemma WordCount(p: seq<Byte>)
    requires |p| % 2 == 0
    ensures |Words(p)| == |p| / 2
  {
  }

  lemma NoWords(w: seq<U16>)
    ensures Sum(w[..0]) == 0
  {
  }

  lemma NextWord(p: seq<Byte>, i: nat)
    requires |p| % 2 == 0 && i < |p| / 2
    ensures i < |Words(p)| && Words(p)[i] == p[2 * i] * M8 + p[2 * i + 1]
  {
  }

  lemma SumNext(w: seq<U16>, i: nat)
    requires i < |w|
    ensures Sum(w[..i + 1]) == Sum(w[..i]) + w[i]
  {
    var one := [w[i]];
    assert w[..i + 1] == w[..i] + one;
    SumConcat(w[..i], one);
    assert one[1..] == [];
  }

  lemma Accumulated(sum: nat, x: nat)
    ensures (sum % M32 + x) % M32 == (sum + x) % M32
  {
  }

  /** ip_checksum. On the little-endian host htons turns each loaded word into network order. */
  method IpChecksum(p: seq<Byte>, n: nat) returns (r: U16)
    requires |p| == 2 * n
    ensures r == ChecksumOf(Words(p))
  {
    hide Words, Sum;
    var cksum := 0;
    ghost var w := Words(p);
    WordCount(p);
    NoWords(w);
    for i := 0 to n
      invariant 0 <= cksum < M32 && cksum == Sum(w[..i]) % M32
    {
      NextWord(p, i);
      SumNext(w, i);
      Accumulated(Sum(w[..i]), w[i]);
      cksum := (cksum + p[2 * i] * M8 + p[2 * i + 1]) % M32;
    }
    assert w[..n] == w;
    cksum := cksum / M16 + cksum % M16;
    cksum := (cksum + cksum / M16) % M32;
    r := M16 - 1 - cksum % M16;
  }

  // ----- the pseudo header ----------------------------------------------------------------------------

  datatype Family = Ipv4 | Ipv6 | Other

  predicate AddressFits(f: Family, a: seq<Byte>) {
    (f == Ipv4 ==> |a| == 4) && (f == Ipv6 ==> |a| == 16)
  }

  function Protocol(tcp: bool): Byte {
    if tcp then 0x06 else 0x11
  }

  /** The pseudo header behind the two addresses. */
  function Trailer(f: Family, tcp: bool, len: nat): seq<Byte>
    requires len < M32
  {
    if f == Ipv6 then Be32(len) + [0, 0, 0, Protocol(tcp)]
    else [0, Protocol(tcp), len / M8 % M8, len % M8]
  }

  function Padded(payload: seq<Byte>): (r: seq<Byte>)
    ensures |r| % 2 == 0 && |r| <= |payload| + 1
  {
    if |payload| % 2 == 0 then payload else payload + [0]
  }

  function Covered(f: Family, src: seq<Byte>, dst: seq<Byte>, tcp: bool, payload: seq<Byte>): (r: seq<Byte>)
    requires f != Other && AddressFits(f, src) && AddressFits(f, dst) && |payload| < M32
    ensures |r| % 2 == 0
  {
    src + dst + Trailer(f, tcp, |payload|) + Padded(payload)
  }

  function TransportChecksum(f: Family, src: seq<Byte>, dst: seq<Byte>, tcp: bool, payload: seq<Byte>): U16
    requires AddressFits(f, src) && AddressFits(f, dst) && |payload| < M32
  {
    if f == Other then 0 else ChecksumOf(Words(Covered(f, src, dst, tcp, payload)))
  }

  lemma CoveredWords(f: Family, src: seq<Byte>, dst: seq<Byte>, tcp: bool, payload: seq<Byte>)
    requires f != Other && AddressFits(f, src) && AddressFits(f, dst) && |payload| < M32
    ensures var head := src + dst + Trailer(f, tcp, |payload|);
            |head| % 2 == 0 && Words(Covered(f, src, dst, tcp, payload)) == Words(head) + Words(Padded(payload))
  {
    WordsConcat(src + dst + Trailer(f, tcp, |payload|), Padded(payload));
  }

  lemma HeadSum(f: Family, src: seq<Byte>, dst: seq<Byte>, t: seq<Byte>)
    requires f != Other && AddressFits(f, src) && AddressFits(f, dst) && |t| % 2 == 0
    ensures |src + dst + t| % 2 == 0
    ensures Sum(Words(src + dst + t)) == Sum(Words(src)) + Sum(Words(dst)) + Sum(Words(t))
  {
    WordsConcat(src, dst);
    WordsConcat(src + dst, t);
    SumConcat(Words(src), Words(dst));
    SumConcat(Words(src + dst), Words(t));
  }

  /** The value of a buffer as a sum of 16-bit words in network order, a last single octet being a high one. */
  function OctetSum(s: seq<Byte>): nat {
    if s == [] then 0 else if |s| == 1 then s[0] * M8 else s[0] * M8 + s[1] + OctetSum(s[2..])
  }

  lemma {:induction false} WordsOfPadded(s: seq<Byte>)
    ensures Sum(Words(Padded(s))) == OctetSum(s)
    decreases |s|
  {
    hide Padded;
    PaddedTurn(s);
    if |s| >= 2 {
      WordsOfPadded(s[2..]);
      OneWord(s[0], s[1]);
      SumOfConcat([s[0], s[1]], Padded(s[2..]));
    } else if |s| == 1 {
      OneWord(s[0], 0);
    } else {
      assert Words([]) == [];
    }
  }

  lemma PaddedTurn(s: seq<Byte>)
    ensures s == [] ==> Padded(s) == []
    ensures |s| == 1 ==> Padded(s) == [s[0], 0]
    ensures |s| >= 2 ==> Padded(s) == [s[0], s[1]] + Padded(s[2..])
  {
  }

  lemma OneWord(a: Byte, b: Byte)
    ensures Sum(Words([a, b])) == a * M8 + b
  {
    var w := Words([a, b]);
    assert w == [a * M8 + b] && w[1..] == [];
  }

  lemma SumOfConcat(a: seq<Byte>, b: seq<Byte>)
    requires |a| % 2 == 0 && |b| % 2 == 0
    ensures |a + b| % 2 == 0 && Sum(Words(a + b)) == Sum(Words(a)) + Sum(Words(b))
  {
    hide Words, Sum;
    WordsConcat(a, b);
    SumConcat(Words(a), Words(b));
  }

  /** What the pseudo header adds to the two addresses: the protocol number and the length, of which IPv4 has 16 bits
      and IPv6 32. */
  function HeaderSum(f: Family, tcp: bool, len: nat): nat {
    (if tcp then 6 else 17) + (if f == Ipv6 then len / M16 else 0) + len % M16
  }

  lemma TrailerSum(f: Family, tcp: bool, len: nat)
    requires f != Other && len < M32
    ensures |Trailer(f, tcp, len)| % 2 == 0 && Sum(Words(Trailer(f, tcp, len))) == HeaderSum(f, tcp, len)
  {
    var n := if tcp then 6 else 17;
    if f == Ipv6 {
      var a, b, c, d := len / 0x100_0000, len / M16 % M8, len / M8 % M8, len % M8;
      assert Trailer(f, tcp, len) == [a, b] + ([c, d] + ([0, 0] + [0, n]));
      LengthWords(len);
      FourWords([a, b], [c, d], [0, 0], [0, n]);
      OneWord(a, b);
      OneWord(c, d);
      OneWord(0, 0);
      OneWord(0, n);
    } else {
      assert Trailer(f, tcp, len) == [0, n] + [len / M8 % M8, len % M8];
      SumOfConcat([0, n], [len / M8 % M8, len % M8]);
      LengthWords(len);
      OneWord(0, n);
      OneWord(len / M8 % M8, len % M8);
    }
  }

  lemma FourWords(a: seq<Byte>, b: seq<Byte>, c: seq<Byte>, d: seq<Byte>)
    requires |a| % 2 == 0 && |b| % 2 == 0 && |c| % 2 == 0 && |d| % 2 == 0
    ensures |a + (b + (c + d))| % 2 == 0
    ensures Sum(Words(a + (b + (c + d)))) == Sum(Words(a)) + Sum(Words(b)) + Sum(Words(c)) + Sum(Words(d))
  {
    hide Words, Sum;
    SumOfConcat(c, d);
    SumOfConcat(b, c + d);
    SumOfConcat(a, b + (c + d));
  }

  lemma LengthWords(len: nat)
    requires len < M32
    ensures len / M8 % M8 * M8 + len % M8 == len % M16
    ensures len / 0x100_0000 * M8 + len / M16 % M8 == len / M16
  {
    TwoBytes(len % M16);
    TwoBytes(len / M16);
    LowWord(len);
    HighWord(len);
  }

  lemma TwoBytes(n: nat)
    ensures n / M8 * M8 + n % M8 == n
  {
  }

  lemma LowWord(len: nat)
    ensures len / M8 % M8 == len % M16 / M8 && len % M8 == len % M16 % M8
  {
    var h, l := len / M16, len % M16;
    assert len == h * M16 + l;
    assert len / M8 == h * M8 + l / M8;
  }

  lemma HighWord(len: nat)
    ensures len / 0x100_0000 == len / M16 / M8
  {
  }

  /** The transport checksum is the one's complement of the one's complement sum of both addresses, the protocol number,
      6 or 17, the length and the payload: the pseudo header of section 3.1 of RFC 793 and section 8.1 of RFC 2460.
      Other families get zero. */
  lemma TransportExact(f: Family, src: seq<Byte>, dst: seq<Byte>, tcp: bool, payload: seq<Byte>)
    requires AddressFits(f, src) && AddressFits(f, dst) && |payload| <= 2 * (MAX_WORDS - 20)
    ensures f != Other ==>
              Completes(OctetSum(src) + OctetSum(dst) + HeaderSum(f, tcp, |payload|) + OctetSum(payload),
                        TransportChecksum(f, src, dst, tcp, payload))
    ensures f == Other ==> TransportChecksum(f, src, dst, tcp, payload) == 0
  {
    hide Words, Sum, Completes, ChecksumOf, Covered, HeaderSum, OctetSum;
    if f != Other {
      CoveredSum(f, src, dst, tcp, payload);
      SizeCovered(f, src, dst, tcp, payload);
      ChecksumCorrect(Words(Covered(f, src, dst, tcp, payload)));
    }
  }

  lemma CoveredSum(f: Family, src: seq<Byte>, dst: seq<Byte>, tcp: bool, payload: seq<Byte>)
    requires f != Other && AddressFits(f, src) && AddressFits(f, dst) && |payload| < M32
    ensures Sum(Words(Covered(f, src, dst, tcp, payload)))
         == OctetSum(src) + OctetSum(dst) + HeaderSum(f, tcp, |payload|) + OctetSum(payload)
  {
    hide Words, Sum, Covered, Padded, Trailer, HeaderSum, OctetSum;
    var t := Trailer(f, tcp, |payload|);
    TrailerSum(f, tcp, |payload|);
    CoveredWords(f, src, dst, tcp, payload);
    HeadSum(f, src, dst, t);
    SumConcat(Words(src + dst + t), Words(Padded(payload)));
    WordsOfPadded(payload);
    WordsOfPadded(src);
    WordsOfPadded(dst);
    EvenPadded(src);
    EvenPadded(dst);
  }

  lemma EvenPadded(s: seq<Byte>)
    ensures |s| % 2 == 0 ==> Padded(s) == s
  {
  }

  lemma SizeCovered(f: Family, src: seq<Byte>, dst: seq<Byte>, tcp: bool, payload: seq<Byte>)
    requires f != Other && AddressFits(f, src) && AddressFits(f, dst) && |payload| <= 2 * (MAX_WORDS - 20)
    ensures |Words(Covered(f, src, dst, tcp, payload))| <= MAX_WORDS
  {
  }

  /** Swapping the addresses changes nothing, which callers that pass the peer first rely on. */
  lemma AddressesCommute(f: Family, src: seq<Byte>, dst: seq<Byte>, tcp: bool, payload: seq<Byte>)
    requires AddressFits(f, src) && AddressFits(f, dst) && |payload| < M32
    ensures TransportChecksum(f, src, dst, tcp, payload) == TransportChecksum(f, dst, src, tcp, payload)
  {
    if f != Other {
      var t := Trailer(f, tcp, |payload|);
      CoveredWords(f, src, dst, tcp, payload);
      CoveredWords(f, dst, src, tcp, payload);
      HeadSum(f, src, dst, t);
      HeadSum(f, dst, src, t);
      SumConcat(Words(src + dst + t), Words(Padded(payload)));
      SumConcat(Words(dst + src + t), Words(Padded(payload)));
    }
  }

  /** The pseudo header, written field by field into a zeroed buffer. */
  method PseudoHeader(temp: array<Byte>, f: Family, src: seq<Byte>, dst: seq<Byte>, tcp: bool, len: nat)
    requires f != Other && AddressFits(f, src) && AddressFits(f, dst) && len < M31
    requires temp.Length >= (if f == Ipv6 then 40 else 12)
    requires forall i | 0 <= i < temp.Length :: temp[i] == 0
    modifies temp
    ensures var n := if f == Ipv6 then 40 else 12;
            && temp[..n] == src + dst + Trailer(f, tcp, len)
            && forall i | n <= i < temp.Length :: temp[i] == 0
  {
    PutAddresses(temp, src, dst);
    ghost var addresses := temp[..2 * |src|];
    if f == Ipv6 {
      temp[32], temp[33], temp[34], temp[35] := len / 0x100_0000, len / M16 % M8, len / M8 % M8, len % M8;
      temp[39] := Protocol(tcp);
      assert temp[32..40] == Trailer(f, tcp, len);
      TwoParts(temp[..40], 32);
      assert temp[..40][..32] == temp[..32] && temp[..40][32..] == temp[32..40];
      assert temp[..32] == addresses;
    } else {
      temp[9], temp[10], temp[11] := Protocol(tcp), len / M8 % M8, len % M8;
      assert temp[8..12] == Trailer(f, tcp, len);
      TwoParts(temp[..12], 8);
      assert temp[..12][..8] == temp[..8] && temp[..12][8..] == temp[8..12];
      assert temp[..8] == addresses;
    }
  }

  lemma TwoParts(s: seq<Byte>, k: nat)
    requires k <= |s|
    ensures s == s[..k] + s[k..]
  {
  }

  method PutAddresses(temp: array<Byte>, src: seq<Byte>, dst: seq<Byte>)
    requires |src| == |dst| && 2 * |src| <= temp.Length
    requires forall i | 0 <= i < temp.Length :: temp[i] == 0
    modifies temp
    ensures temp[..2 * |src|] == src + dst
    ensures forall i | 2 * |src| <= i < temp.Length :: temp[i] == 0
  {
    forall i | 0 <= i < |src| { temp[i] := src[i]; }
    forall i | 0 <= i < |dst| { temp[|src| + i] := dst[i]; }
  }

  /** tcp_udp_checksum: pseudo header and payload in a zeroed buffer of even length, summed. */
  method TcpUdpChecksum(f: Family, src: seq<Byte>, dst: seq<Byte>, tcp: bool, payload: seq<Byte>)
    returns (r: U16)
    requires AddressFits(f, src) && AddressFits(f, dst) && |payload| < M31 - 41
    ensures r == TransportChecksum(f, src, dst, tcp, payload)
  {
    hide ChecksumOf, Trailer, Words;
    r := 0;
    var len := |payload|;
    if f != Other {
      var head := if f == Ipv6 then 40 else 12;
      var temp := new Byte[head + len + len % 2](_ => 0);
      PseudoHeader(temp, f, src, dst, tcp, len);
      ghost var header := temp[..head];
      forall i | 0 <= i < len { temp[head + i] := payload[i]; }
      assert temp[head..] == Padded(payload);
      assert temp[..head] == header;
      assert temp[..] == temp[..head] + temp[head..];
      r := IpChecksum(temp[..], temp.Length / 2);
    }
  }
}
