/** Octets, fixed-width unsigned integers and big-endian fields: the vocabulary every other
    module shares. Numbers are mathematical integers; wrap-around is written out. */
module Bytes {
  const M8 := 0x100
  const M16 := 0x1_0000
  const M31 := 0x8000_0000
  const M32 := 0x1_0000_0000
  const M64 := 0x1_0000_0000_0000_0000

  type Byte = b: int | 0 <= b < M8
  type U16 = n: int | 0 <= n < M16
  type U32 = n: int | 0 <= n < M32

  datatype Option<T> = None | Some(value: T)

  function Min(a: int, b: int): int {
    if a <= b then a else b
  }

  /** uint32_t addition and subtraction. */
  function Add32(a: int, b: int): U32 {
    (a + b) % M32
  }

  function Sub32(a: int, b: int): U32 {
    (a - b) % M32
  }

  /** Conversion of an unsigned value to a 32-bit signed int. */
  function AsInt32(n: int): (r: int)
    ensures -M31 <= r < M31
  {
    var m := n % M32;
    if m < M31 then m else m - M32
  }

  lemma AsInt32Exact(n: int)
    requires -M31 <= n < M31
    ensures AsInt32(n) == n
  {
  }

  lemma Sub32OfAdd32(base: int, k: int)
    requires 0 <= k < M32
    ensures Sub32(Add32(base, k), base) == k
  {
    var q := (base + k) / M32;
    assert Add32(base, k) - base == k - q * M32;
  }

  lemma Add32Add32(base: int, j: int, k: int)
    ensures Add32(Add32(base, j), k) == Add32(base, j + k)
  {
    var q := (base + j) / M32;
    assert Add32(base, j) + k == (base + j + k) - q * M32;
  }

  lemma SameRemainder(x: int, k: int)
    ensures (x + k * M32) % M32 == x % M32
  {
  }

  /** The signed distance between two modular counters is the true distance when that is below 2^31. */
  lemma SignedDistance(base: int, j: int, k: int)
    requires -M31 <= k - j < M31
    ensures AsInt32(Add32(base, k) - Add32(base, j)) == k - j
  {
    var p, q := (base + j) / M32, (base + k) / M32;
    assert Add32(base, k) - Add32(base, j) == (k - j) - (q - p) * M32;
    assert ((k - j) - (q - p) * M32) % M32 == (k - j) % M32;
  }

  function Be16(n: U16): seq<Byte> {
    [n / M8, n % M8]
  }

  function Be32(n: U32): seq<Byte> {
    [n / 0x100_0000, n / M16 % M8, n / M8 % M8, n % M8]
  }

  function Get16(s: seq<Byte>, o: nat): U16
    requires o + 2 <= |s|
  {
    s[o] * M8 + s[o + 1]
  }

  function Get32(s: seq<Byte>, o: nat): U32
    requires o + 4 <= |s|
  {
    s[o] * 0x100_0000 + s[o + 1] * M16 + s[o + 2] * M8 + s[o + 3]
  }

  lemma TwoOctets(n: U16)
    ensures |Be16(n)| == 2
  {
  }

  lemma FourOctets(n: U32)
    ensures |Be32(n)| == 4
  {
  }

  lemma Get16OfBe16(n: U16, before: seq<Byte>, after: seq<Byte>)
    ensures Get16(before + Be16(n) + after, |before|) == n
  {
  }

  lemma Get32OfBe32(n: U32, before: seq<Byte>, after: seq<Byte>)
    ensures Get32(before + Be32(n) + after, |before|) == n
  {
    hide Be32;
    Get32Back(n);
    var s, o := before + Be32(n) + after, |before|;
    assert s[o] == Be32(n)[0] && s[o + 1] == Be32(n)[1] && s[o + 2] == Be32(n)[2] && s[o + 3] == Be32(n)[3];
  }

  lemma Get32Back(n: U32)
    ensures |Be32(n)| == 4 && Get32(Be32(n), 0) == n
  {
    var b, c := n / M16, n / M8;
    assert n == c * M8 + n % M8;
    assert c == b * M8 + c % M8;
    assert b == n / 0x100_0000 * M8 + b % M8;
  }
}
