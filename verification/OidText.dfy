/** Dotted OID strings and their base-128 octets (section 8.19 of X.690): the encoder of
    snmp_elem.cpp, the decoder of snmp.cpp, and the splitting that the OID tree relies on. */
module OidText {
  import opened Bytes

  // ----- decimal numbers ----------------------------------------------------------------------------------

  function Digit(d: nat): char
    requires d < 10
  {
    "0123456789"[d]
  }

  predicate IsDigit(c: char) { '0' <= c <= '9' }

  function Value(c: char): nat
    requires IsDigit(c)
  {
    c as int - '0' as int
  }

  lemma ValueOfDigit(d: nat)
    requires d < 10
    ensures IsDigit(Digit(d)) && Value(Digit(d)) == d
  {
    assert d == 0 || d == 1 || d == 2 || d == 3 || d == 4 || d == 5 || d == 6 || d == 7 || d == 8 || d == 9;
  }

  function Dec(n: nat): string {
    if n < 10 then [Digit(n)] else Dec(n / 10) + [Digit(n % 10)]
  }

  /** The number that the digits at the front spell, up to the first other character. */
  function Atol(s: string, acc: nat): nat
    decreases |s|
  {
    if s == "" || !IsDigit(s[0]) then acc else Atol(s[1..], 10 * acc + Value(s[0]))
  }

  /** What atoll makes of a number: it saturates. */
  function Clamp(n: nat): (r: nat)
    ensures r <= n && r < M64 / 2
  {
    Min(n, M64 / 2 - 1)
  }

  lemma {:induction false} DecIsDigits(n: nat)
    ensures Dec(n) != "" && forall c <- Dec(n) :: IsDigit(c)
  {
    if n < 10 {
      ValueOfDigit(n);
    } else {
      DecIsDigits(n / 10);
      ValueOfDigit(n % 10);
    }
  }

  predicate StopsNumber(rest: string) {
    rest == "" || !IsDigit(rest[0])
  }

  lemma {:induction false} AtolDigits(s: string, t: string, acc: nat)
    requires forall c <- s :: IsDigit(c)
    ensures Atol(s + t, acc) == Atol(t, Atol(s, acc))
    decreases |s|
  {
    if s == "" {
      assert s + t == t;
    } else {
      assert (s + t)[1..] == s[1..] + t;
      AtolDigits(s[1..], t, 10 * acc + Value(s[0]));
    }
  }

  lemma {:induction false} AtolOfDec(n: nat, rest: string)
    requires StopsNumber(rest)
    ensures Atol(Dec(n) + rest, 0) == n
  {
    DecIsDigits(n);
    AtolDigits(Dec(n), rest, 0);
    if n < 10 {
      ValueOfDigit(n);
      assert Dec(n)[1..] == "";
      assert Atol(Dec(n), 0) == n;
    } else {
      DecIsDigits(n / 10);
      ValueOfDigit(n % 10);
      AtolDigits(Dec(n / 10), [Digit(n % 10)], 0);
      AtolOfDec(n / 10, "");
      assert Dec(n / 10) + "" == Dec(n / 10);
      assert [Digit(n % 10)][1..] == "";
      assert Atol([Digit(n % 10)], n / 10) == 10 * (n / 10) + n % 10;
    }
  }

  // ----- dotted strings -------------------------------------------------------------------------------------

  function Dotted(cs: seq<nat>): string {
    if cs == [] then "" else if |cs| == 1 then Dec(cs[0]) else Dec(cs[0]) + "." + Dotted(cs[1..])
  }

  /** Position of the first dot, or the length of the string. */
  function Dot(s: string): (i: nat)
    ensures i <= |s| && '.' !in s[..i]
    ensures i < |s| ==> s[i] == '.'
  {
    if s == "" || s[0] == '.' then 0
    else
      assert s[..1 + Dot(s[1..])] == [s[0]] + s[1..][..Dot(s[1..])];
      1 + Dot(s[1..])
  }

  lemma DotAfterDec(n: nat, rest: string)
    requires rest == "" || rest[0] == '.'
    ensures Dot(Dec(n) + rest) == |Dec(n)|
  {
    DecIsDigits(n);
    DotAfter(Dec(n), rest);
  }

  lemma {:induction false} DotAfter(a: string, rest: string)
    requires '.' !in a && (rest == "" || rest[0] == '.')
    ensures Dot(a + rest) == |a|
  {
    if a != "" {
      assert (a + rest)[1..] == a[1..] + rest;
      DotAfter(a[1..], rest);
    } else {
      assert a + rest == rest;
    }
  }

  /** split(oid, "."). */
  function Split(s: string): seq<string>
    decreases |s|
  {
    var i := Dot(s);
    if i == |s| then (if s == "" then [] else [s])
    else if i + 1 == |s| then [s[..i], ""]
    else [s[..i]] + Split(s[i + 1..])
  }

  function Parts(cs: seq<nat>): seq<string> {
    seq(|cs|, i requires 0 <= i < |cs| => Dec(cs[i]))
  }

  lemma {:induction false} DottedNotEmpty(cs: seq<nat>)
    requires cs != []
    ensures Dotted(cs) != "" && IsDigit(Dotted(cs)[0])
  {
    DecIsDigits(cs[0]);
  }

  lemma SplitFirst(a: string, b: string)
    requires Dot(a + ("." + b)) == |a| && b != ""
    ensures Split(a + ("." + b)) == [a] + Split(b)
  {
    hide Dot;
    var s := a + ("." + b);
    assert s[..|a|] == a && s[|a| + 1..] == b;
  }

  lemma SplitOne(s: string)
    requires Dot(s) == |s| && s != ""
    ensures Split(s) == [s]
  {
    hide Dot;
  }

  /** Splitting a canonical OID string gives the decimal numbers of its components. */
  lemma {:induction false} SplitDotted(cs: seq<nat>)
    ensures Split(Dotted(cs)) == Parts(cs)
  {
    hide Dec, Dot, Split;
    if cs == [] {
      SplitNothing();
    } else if |cs| == 1 {
      DotAfterDec(cs[0], "");
      DottedNotEmpty(cs);
      assert Dec(cs[0]) + "" == Dec(cs[0]);
      SplitOne(Dec(cs[0]));
    } else {
      var rest := Dotted(cs[1..]);
      DotAfterDec(cs[0], "." + rest);
      DottedNotEmpty(cs[1..]);
      SplitDotted(cs[1..]);
      assert Dotted(cs) == Dec(cs[0]) + ("." + rest);
      SplitFirst(Dec(cs[0]), rest);
      assert Parts(cs) == [Dec(cs[0])] + Parts(cs[1..]);
    }
  }

  lemma SplitNothing()
    ensures Split("") == []
  {
  }

  /** Appending a dot and a number, as the tree's loops build the current OID, appends a component. */
  lemma {:induction false} DottedSnoc(cs: seq<nat>, c: nat)
    ensures Dotted(cs + [c]) == if cs == [] then Dec(c) else Dotted(cs) + "." + Dec(c)
  {
    hide Dec;
    if cs != [] {
      DottedSnoc(cs[1..], c);
      assert (cs + [c])[1..] == cs[1..] + [c];
      if |cs| > 1 {
        assert Dec(cs[0]) + "." + (Dotted(cs[1..]) + "." + Dec(c)) == Dec(cs[0]) + "." + Dotted(cs[1..]) + "." + Dec(c);
      }
    }
  }

  /** So two canonical OID strings are equal exactly when their components are. */
  lemma DottedInjective(a: seq<nat>, b: seq<nat>)
    ensures Dotted(a) == Dotted(b) <==> a == b
  {
    if Dotted(a) == Dotted(b) {
      SplitDotted(a);
      SplitDotted(b);
      assert |a| == |Parts(a)| == |b|;
      forall i | 0 <= i < |a|
        ensures a[i] == b[i]
      {
        assert Parts(a)[i] == Parts(b)[i];
        AtolOfDec(a[i], "");
        AtolOfDec(b[i], "");
        assert Dec(a[i]) + "" == Dec(b[i]) + "";
      }
    }
  }

  // ----- base 128 -------------------------------------------------------------------------------------------

  /** The octets of a component, most significant group first; all but the last carry bit 7. */
  function Groups(v: nat, last: bool): seq<Byte> {
    var b := v % 128 + (if last then 0 else 128);
    if v < 128 then [b] else Groups(v / 128, false) + [b]
  }

  function Octets(cs: seq<nat>): seq<Byte> {
    if cs == [] then [] else Groups(Clamp(cs[0]), true) + Octets(cs[1..])
  }

  /** The value of octets in base 128, bit 7 left out. */
  function Base128(q: seq<Byte>): nat {
    var n := |q| - 1;
    if q == [] then 0 else Base128(q[..n]) * 128 + q[n] % 128
  }

  /** Section 8.19.2 of X.690: base 128, most significant first, bit 7 set in all octets but the last, and no leading
      zero group. */
  lemma {:induction false} GroupsExact(v: nat, last: bool)
    ensures var g := Groups(v, last);
            && g != [] && Base128(g) == v
            && (forall i | 0 <= i < |g| - 1 :: g[i] >= 128) && (g[|g| - 1] < 128 <==> last)
            && (|g| > 1 ==> g[0] != 128)
    decreases v
  {
    if v >= 128 {
      GroupsExact(v / 128, false);
      var g, high := Groups(v, last), Groups(v / 128, false);
      assert g[..|g| - 1] == high;
      if |high| == 1 {
        assert Base128(high) == Base128(high[..0]) * 128 + high[0] % 128;
      }
    } else {
      var g := Groups(v, last);
      assert g[..0] == [];
    }
  }

  /** What is encoded of a component: itself, up to the largest value atoll returns. */
  lemma ComponentEncoded(c: nat)
    ensures Base128(Groups(Clamp(c), true)) == if c < 0x8000_0000_0000_0000 then c else 0x7FFF_FFFF_FFFF_FFFF
  {
    GroupsExact(Clamp(c), true);
  }

  /** Groups of seven bits are never more than decimal digits. */
  lemma {:induction false} GroupsFit(v: nat, w: nat, last: bool)
    requires v <= w
    ensures |Groups(v, last)| <= |Dec(w)|
    decreases v
  {
    if v >= 128 {
      assert v / 128 <= w / 10;
      GroupsFit(v / 128, w / 10, false);
    }
  }

  /** The encoder never writes more octets than the string has characters. */
  lemma {:induction false} OctetsFit(cs: seq<nat>)
    ensures |Octets(cs)| <= |Dotted(cs)|
  {
    if cs != [] {
      GroupsFit(Clamp(cs[0]), cs[0], true);
      OctetsFit(cs[1..]);
      if |cs| == 1 {
        assert Octets(cs[1..]) == [];
      }
    }
  }

  const PREFIX := "1.3."

  /** snmp_oid on a canonical string: 43 for a leading "1.3.", then each number up to its dot in
      base 128. The buffer, sized by the string, is never overrun. */
  method Encode(oid: string, ghost cs: seq<nat>) returns (out: seq<Byte>)
    requires if PREFIX <= oid then oid == PREFIX + Dotted(cs) else oid == Dotted(cs)
    ensures out == (if PREFIX <= oid then [43] else []) + Octets(cs)
    ensures |out| <= |oid|
  {
    hide Dotted, Atol, Dot;
    out := [];
    var work := oid;
    if |work| >= 4 && work[..4] == PREFIX {
      out := out + [43];
      work := work[4..];
    }
    ghost var head := out;
    assert head == if PREFIX <= oid then [43] else [];
    assert work == Dotted(cs);
    OctetsFit(cs);
    ghost var k := 0;
    assert cs[0..] == cs;
    while work != ""
      invariant 0 <= k <= |cs| && work == Dotted(cs[k..])
      invariant out + Octets(cs[k..]) == head + Octets(cs)
      decreases |work|
    {
      HeadOfDotted(cs[k..]);
      var v := Clamp(Atol(work, 0));
      assert v == Clamp(cs[k]) && cs[k..][1..] == cs[k + 1..];
      var groups := Put(v);
      out := out + groups;
      var dot := Dot(work);
      k := k + 1;
      if dot == |work| {
        break;
      }
      work := work[dot + 1..];
    }
    EndOfDotted(cs[k..]);
    assert Octets(cs[k..]) == [] && out + [] == out;
  }

  lemma HeadOfDotted(cs: seq<nat>)
    requires Dotted(cs) != ""
    ensures cs != [] && Atol(Dotted(cs), 0) == cs[0]
    ensures var s := Dotted(cs); var d := Dot(s);
            if |cs| == 1 then d == |s| else d < |s| && s[d + 1..] == Dotted(cs[1..])
  {
    hide Dec, Atol, Dot;
    var rest := if |cs| == 1 then "" else "." + Dotted(cs[1..]);
    AtolOfDec(cs[0], rest);
    DotAfterDec(cs[0], rest);
    var s := Dec(cs[0]) + rest;
    assert Dotted(cs) == s;
    if |cs| > 1 {
      assert s[|Dec(cs[0])| + 1..] == Dotted(cs[1..]);
    }
  }

  lemma EndOfDotted(cs: seq<nat>)
    requires Dotted(cs) == "" || cs == []
    ensures cs == []
  {
    if cs != [] {
      DottedNotEmpty(cs);
    }
  }

  type Seven = n: int | 0 <= n < 128

  /** Base-128 digits, least significant first: what the first inner loop leaves in `temp`. */
  ghost function Digits(v: nat): (r: seq<Seven>)
    ensures |r| > 0
  {
    if v < 128 then [v] else [v % 128] + Digits(v / 128)
  }

  function Marked(d: Seven, last: bool): Byte {
    if last then d else d + 128
  }

  /** Digits in the order they are written, all but the final one marked. */
  ghost function Written(d: seq<Seven>, last: bool): seq<Byte> {
    if d == [] then [] else Written(d[1..], false) + [Marked(d[0], last)]
  }

  lemma {:induction false} WrittenDigits(v: nat, last: bool)
    ensures Written(Digits(v), last) == Groups(v, last)
  {
    if v >= 128 {
      WrittenDigits(v / 128, false);
      assert Digits(v)[1..] == Digits(v / 128);
    } else {
      assert Digits(v)[1..] == [];
    }
  }

  lemma {:induction false} WrittenFront(d: seq<Seven>, last: bool)
    requires d != []
    ensures var n := |d| - 1;
            Written(d, last) == [Marked(d[n], n == 0 && last)] + Written(d[..n], last)
  {
    var n := |d| - 1;
    if n > 0 {
      WrittenFront(d[1..], false);
      assert d[1..][..n - 1] == d[..n][1..];
    } else {
      assert d[1..] == [];
    }
  }

  lemma {:induction false} DigitsFit(v: nat, k: nat)
    requires v < Pow128(k) && k > 0
    ensures |Digits(v)| <= k
    decreases k
  {
    if v >= 128 {
      assert Pow128(k) == 128 * Pow128(k - 1);
      if k > 1 {
        DigitsFit(v / 128, k - 1);
      }
    }
  }

  function Pow128(k: nat): nat {
    if k == 0 then 1 else 128 * Pow128(k - 1)
  }

  /** The first inner loop of the encoder: base-128 digits into `temp`, which has room for ten. */
  method Collect(v0: nat) returns (temp: seq<Seven>)
    requires v0 < M64 / 2
    ensures temp == Digits(v0) && |temp| <= 10
  {
    assert Pow128(9) == M64 / 2 by {
      assert Pow128(3) == 0x20_0000 && Pow128(6) == 0x20_0000 * 0x20_0000;
    }
    DigitsFit(v0, 9);
    temp := [];
    var v: nat := v0;
    if v == 0 {
      return [0];
    }
    while v > 0
      invariant if v == 0 then temp == Digits(v0) else temp + Digits(v) == Digits(v0)
      decreases v
    {
      temp := temp + [v % 128];
      v := v / 128;
    }
  }

  /** The second: out again in reverse, all but the final one marked. */
  method Put(v0: nat) returns (out: seq<Byte>)
    requires v0 < M64 / 2
    ensures out == Groups(v0, true)
  {
    hide Digits, Marked;
    var temp := Collect(v0);
    out := [];
    var o := |temp|;
    assert temp[..o] == temp;
    while o > 0
      invariant 0 <= o <= |temp|
      invariant out + Written(temp[..o], true) == Written(temp, true)
    {
      WrittenFront(temp[..o], true);
      o := o - 1;
      assert temp[..o + 1][..o] == temp[..o];
      out := out + [Marked(temp[o], o == 0)];
    }
    WrittenDigits(v0, true);
  }

  // ----- the decoder ----------------------------------------------------------------------------------------

  /** "%d" of a 32-bit value. */
  function Signed(v: U32): string {
    if v < M31 then Dec(v) else "-" + Dec(M32 - v)
  }

  function Piece(v: U32, first: bool): string {
    if first && v == 43 then "1.3" else "." + Signed(v)
  }

  /** The rest of the text, `v` being the bits collected and `first` whether this is octet 0. */
  function TextFrom(p: seq<Byte>, first: bool, v: U32): string
    decreases |p|
  {
    if p == [] then ""
    else
      var w := (v * 128 + p[0] % 128) % M32;
      if p[0] < 128 then Piece(w, first) + TextFrom(p[1..], false, 0) else TextFrom(p[1..], false, w)
  }

  /** The bits left over at the end; the decoder accepts when there are none. */
  function LeftOver(p: seq<Byte>, v: U32): U32
    decreases |p|
  {
    if p == [] then v
    else LeftOver(p[1..], if p[0] < 128 then 0 else (v * 128 + p[0] % 128) % M32)
  }

  lemma TextStep(p: seq<Byte>, first: bool, v: U32)
    requires p != []
    ensures var w := (v * 128 + p[0] % 128) % M32;
            && TextFrom(p, first, v) == (if p[0] < 128 then Piece(w, first) + TextFrom(p[1..], false, 0) else TextFrom(p[1..], false, w))
            && LeftOver(p, v) == LeftOver(p[1..], if p[0] < 128 then 0 else w)
  {
    hide Piece;
  }

  /** The octets behind the last one that ends a component. */
  function Unfinished(p: seq<Byte>): seq<Byte> {
    var n := |p| - 1;
    if p == [] || p[n] < 128 then [] else Unfinished(p[..n]) + [p[n]]
  }

  lemma {:induction false} LeftOverSnoc(p: seq<Byte>, b: Byte, v: U32)
    ensures LeftOver(p + [b], v) == if b < 128 then 0 else (LeftOver(p, v) * 128 + b % 128) % M32
    decreases |p|
  {
    if p == [] {
      assert [] + [b] == [b] && [b][1..] == [];
    } else {
      assert (p + [b])[1..] == p[1..] + [b];
      LeftOverSnoc(p[1..], b, if p[0] < 128 then 0 else (v * 128 + p[0] % 128) % M32);
    }
  }

  lemma Carried(m: nat, d: nat)
    ensures (m % M32 * 128 + d) % M32 == (m * 128 + d) % M32
  {
    var q := m / M32;
    assert m == q * M32 + m % M32;
    assert m * 128 + d == m % M32 * 128 + d + q * 128 * M32;
    SameRemainder(m % M32 * 128 + d, q * 128);
  }

  /** Octets are accepted if and only if what stands behind the last complete component is, in 32 bits, zero: in
      particular when they end with a complete component. */
  lemma {:induction false} LeftOverExact(p: seq<Byte>)
    ensures LeftOver(p, 0) == Base128(Unfinished(p)) % M32
    ensures p == [] || p[|p| - 1] < 128 ==> LeftOver(p, 0) == 0
    decreases |p|
  {
    if p != [] {
      var n := |p| - 1;
      LeftOverExact(p[..n]);
      LeftOverSnoc(p[..n], p[n], 0);
      assert p == p[..n] + [p[n]];
      if p[n] >= 128 {
        var q := Unfinished(p[..n]);
        assert (q + [p[n]])[..|q|] == q;
        Carried(Base128(q), p[n] % 128);
      }
    }
  }

  /** get_OID. */
  method GetOid(p: seq<Byte>) returns (ok: bool, oid: string)
    ensures oid == TextFrom(p, true, 0) && ok == (LeftOver(p, 0) == 0)
  {
    hide TextFrom, LeftOver, Signed;
    oid := "";
    var v: U32 := 0;
    assert p[0..] == p;
    for i := 0 to |p|
      invariant oid + TextFrom(p[i..], i == 0, v) == TextFrom(p, true, 0)
      invariant LeftOver(p[i..], v) == LeftOver(p, 0)
    {
      TextStep(p[i..], i == 0, v);
      assert p[i..][1..] == p[i + 1..];
      v := (v * 128 + p[i] % 128) % M32;
      if p[i] < 128 {
        oid := oid + (if i == 0 && v == 43 then "1.3" else "." + Signed(v));
        v := 0;
      }
    }
    TextEnd(v);
    assert p[|p|..] == [];
    ok := v == 0;
  }

  lemma TextEnd(v: U32)
    ensures TextFrom([], true, v) == "" && TextFrom([], false, v) == "" && LeftOver([], v) == v
  {
  }

  /** An octet with bit 7 adds its seven bits; one without ends the number. */
  lemma HighOctet(b: Byte, rest: seq<Byte>, first: bool, v: U32, w: U32)
    requires b >= 128 && w == (v * 128 + (b - 128)) % M32
    ensures TextFrom([b] + rest, first, v) == TextFrom(rest, false, w)
    ensures LeftOver([b] + rest, v) == LeftOver(rest, w)
  {
    hide TextFrom, LeftOver;
    TextStep([b] + rest, first, v);
    assert ([b] + rest)[1..] == rest;
  }

  lemma LowOctet(b: Byte, rest: seq<Byte>, first: bool, v: U32, w: U32)
    requires b < 128 && w == (v * 128 + b) % M32
    ensures TextFrom([b] + rest, first, v) == Piece(w, first) + TextFrom(rest, false, 0)
    ensures LeftOver([b] + rest, v) == LeftOver(rest, 0)
  {
    hide TextFrom, LeftOver, Piece;
    TextStep([b] + rest, first, v);
    assert ([b] + rest)[1..] == rest;
  }

  /** The decoder collects the component modulo 2^32. */
  lemma Shifted(u: nat)
    ensures (u / 128 % M32 * 128 + u % 128) % M32 == u % M32
  {
    var a := u / 128;
    var q := a / M32;
    assert a == q * M32 + a % M32;
    assert u == 128 * a + u % 128;
    assert u == (a % M32 * 128 + u % 128) + 128 * q * M32;
    SameRemainder(a % M32 * 128 + u % 128, 128 * q);
  }

  lemma {:induction false} HighGroups(u: nat, rest: seq<Byte>, first: bool)
    ensures TextFrom(Groups(u, false) + rest, first, 0) == TextFrom(rest, false, u % M32)
    ensures LeftOver(Groups(u, false) + rest, 0) == LeftOver(rest, u % M32)
    decreases u
  {
    hide TextFrom, LeftOver;
    var b := u % 128 + 128;
    if u >= 128 {
      assert Groups(u, false) + rest == Groups(u / 128, false) + ([b] + rest);
      HighGroups(u / 128, [b] + rest, first);
      Shifted(u);
      HighOctet(b, rest, false, u / 128 % M32, u % M32);
    } else {
      HighOctet(b, rest, first, 0, u);
    }
  }

  lemma OneComponent(c: nat, rest: seq<Byte>)
    ensures TextFrom(Groups(c, true) + rest, false, 0) == "." + Signed(c % M32) + TextFrom(rest, false, 0)
    ensures LeftOver(Groups(c, true) + rest, 0) == LeftOver(rest, 0)
  {
    hide TextFrom, LeftOver, Signed;
    var b := c % 128;
    if c >= 128 {
      assert Groups(c, true) + rest == Groups(c / 128, false) + ([b] + rest);
      HighGroups(c / 128, [b] + rest, false);
      Shifted(c);
      LowOctet(b, rest, false, c / 128 % M32, c % M32);
    } else {
      LowOctet(b, rest, false, 0, c);
    }
  }

  predicate Representable(cs: seq<nat>) {
    forall i | 0 <= i < |cs| :: cs[i] < M31
  }

  /** What the decoder prints for a component. */
  function Printed(c: nat): string {
    Signed(Clamp(c) % M32)
  }

  function PrintedAll(cs: seq<nat>): string {
    if cs == [] then "" else "." + Printed(cs[0]) + PrintedAll(cs[1..])
  }

  lemma {:induction false} Components(cs: seq<nat>)
    ensures TextFrom(Octets(cs), false, 0) == PrintedAll(cs)
    ensures LeftOver(Octets(cs), 0) == 0
  {
    hide TextFrom, LeftOver, Signed, Groups;
    if cs == [] {
      TextEnd(0);
    } else {
      OneComponent(Clamp(cs[0]), Octets(cs[1..]));
      Components(cs[1..]);
    }
  }

  lemma DecInjective(a: nat, b: nat)
    requires Dec(a) == Dec(b)
    ensures a == b
  {
    hide Dec, Atol;
    AtolOfDec(a, "");
    AtolOfDec(b, "");
  }

  lemma SignedExact(w: U32, c: nat)
    ensures Signed(w) == Dec(c) <==> w == c && w < M31
    ensures '.' !in Signed(w) && '.' !in Dec(c)
  {
    hide Dec;
    DecIsDigits(c);
    DecIsDigits(w);
    if w >= M31 {
      DecIsDigits(M32 - w);
      assert Signed(w)[0] == '-' && IsDigit(Dec(c)[0]);
    } else if Dec(w) == Dec(c) {
      DecInjective(w, c);
    }
  }

  /** A printed component is the component's decimal exactly below 2^31. */
  lemma PrintedExact(c: nat)
    ensures Printed(c) == Dec(c) <==> c < M31
    ensures '.' !in Printed(c) && '.' !in Dec(c)
  {
    hide Dec, Signed;
    SignedExact(Clamp(c) % M32, c);
  }

  predicate AtDot(s: string) {
    s == "" || s[0] == '.'
  }

  lemma FrontsEqual(a: string, b: string, r: string, t: string)
    requires '.' !in a && '.' !in b && AtDot(r) && AtDot(t)
    ensures a + r == b + t <==> a == b && r == t
  {
    hide Dot;
    if a + r == b + t {
      DotAfter(a, r);
      DotAfter(b, t);
      assert (a + r)[..|a|] == a && (b + t)[..|b|] == b;
      assert (a + r)[|a|..] == r && (b + t)[|b|..] == t;
    }
  }

  /** The components behind their dots. */
  function Behind(cs: seq<nat>): string {
    if cs == [] then "" else "." + Dotted(cs)
  }

  lemma BehindStep(cs: seq<nat>)
    requires cs != []
    ensures Behind(cs) == "." + (Dec(cs[0]) + Behind(cs[1..]))
  {
    hide Dec;
    if |cs| == 1 {
      assert cs[1..] == [];
      assert Dec(cs[0]) + "" == Dec(cs[0]);
    } else {
      assert Dec(cs[0]) + "." + Dotted(cs[1..]) == Dec(cs[0]) + ("." + Dotted(cs[1..]));
    }
  }

  lemma {:induction false} PrintedAllExact(cs: seq<nat>)
    ensures PrintedAll(cs) == Behind(cs) <==> Representable(cs)
    ensures AtDot(PrintedAll(cs)) && AtDot(Behind(cs))
  {
    hide Printed, Dec, Dotted;
    if cs != [] {
      BehindStep(cs);
      PrintedExact(cs[0]);
      PrintedAllExact(cs[1..]);
      FrontsEqual(Printed(cs[0]), Dec(cs[0]), PrintedAll(cs[1..]), Behind(cs[1..]));
      var p, d := Printed(cs[0]) + PrintedAll(cs[1..]), Dec(cs[0]) + Behind(cs[1..]);
      assert PrintedAll(cs) == "." + p;
      assert ("." + p)[1..] == p && ("." + d)[1..] == d;
      RepresentableStep(cs);
    }
  }

  lemma RepresentableStep(cs: seq<nat>)
    requires cs != []
    ensures Representable(cs) <==> cs[0] < M31 && Representable(cs[1..])
  {
    assert forall i | 0 < i < |cs| :: cs[i] == cs[1..][i - 1];
  }

  /** For every canonical OID under 1.3, get_OID of what snmp_oid wrote is the same string if and only if all
      components are below 2^31. It never notices otherwise. */
  lemma DecodeEncodeIff(cs: seq<nat>)
    requires cs != []
    ensures TextFrom([43] + Octets(cs), true, 0) == PREFIX + Dotted(cs) <==> Representable(cs)
    ensures LeftOver([43] + Octets(cs), 0) == 0
  {
    hide TextFrom, LeftOver, Dotted, Octets, PrintedAll, Representable;
    LowOctet(43, Octets(cs), true, 0, 43);
    Components(cs);
    PrintedAllExact(cs);
    assert PREFIX + Dotted(cs) == "1.3" + Behind(cs);
    assert ("1.3" + PrintedAll(cs))[3..] == PrintedAll(cs) && ("1.3" + Behind(cs))[3..] == Behind(cs);
  }

  /** Both directions as the program runs them. */
  method RoundTrip(cs: seq<nat>) returns (ok: bool, oid: string)
    requires cs != []
    ensures ok && (oid == PREFIX + Dotted(cs) <==> Representable(cs))
  {
    hide TextFrom, LeftOver, Dotted, Octets, Representable;
    var octets := Encode(PREFIX + Dotted(cs), cs);
    ok, oid := GetOid(octets);
    DecodeEncodeIff(cs);
  }
}
