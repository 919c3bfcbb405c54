/** UTF-8 as Python's `str.encode('utf-8')` and strict `bytes.decode('utf-8')` do it:
    shortest forms only, no encoded surrogates, nothing above U+10FFFF. */
module Utf8 {
  import opened Wrappers
  import opened Strings

  function EncodeChar(c: char): (r: seq<Byte>)
    ensures 1 <= |r| <= 4
  {
    var n := c as int;
    if n < 0x80 then [n]
    else if n < 0x800 then [0xC0 + n / 64, 0x80 + n % 64]
    else if n < 0x10000 then [0xE0 + n / 4096, 0x80 + (n / 64) % 64, 0x80 + n % 64]
    else [0xF0 + n / 262144, 0x80 + (n / 4096) % 64, 0x80 + (n / 64) % 64, 0x80 + n % 64]
  }

  /** `s.encode('utf-8')`. */
  function Encode(s: string): seq<Byte>
  {
    if s == [] then [] else EncodeChar(s[0]) + Encode(s[1..])
  }

  predicate InRange(b: Byte, lo: int, hi: int) {
    lo <= b <= hi
  }

  /** The scalar value of a well-formed sequence at the start of `b` and its length in bytes,
      or `None` when the first bytes are not a well-formed sequence. */
  function DecodeChar(b: seq<Byte>): (r: Option<(char, nat)>)
    ensures r.Some? ==> 1 <= r.value.1 <= |b| && r.value.1 <= 4
  {
    if b == [] then None
    else if b[0] < 0x80 then Some((b[0] as char, 1))
    else if InRange(b[0], 0xC2, 0xDF) then
      if |b| >= 2 && InRange(b[1], 0x80, 0xBF) then
        Some((((b[0] as int - 0xC0) * 64 + (b[1] as int - 0x80)) as char, 2))
      else None
    else if InRange(b[0], 0xE0, 0xEF) then
      var lo := if b[0] == 0xE0 then 0xA0 else 0x80;
      var hi := if b[0] == 0xED then 0x9F else 0xBF;
      if |b| >= 3 && InRange(b[1], lo, hi) && InRange(b[2], 0x80, 0xBF) then
        Some((((b[0] as int - 0xE0) * 4096 + (b[1] as int - 0x80) * 64 + (b[2] as int - 0x80)) as char, 3))
      else None
    else if InRange(b[0], 0xF0, 0xF4) then
      var lo := if b[0] == 0xF0 then 0x90 else 0x80;
      var hi := if b[0] == 0xF4 then 0x8F else 0xBF;
      if |b| >= 4 && InRange(b[1], lo, hi) && InRange(b[2], 0x80, 0xBF) && InRange(b[3], 0x80, 0xBF) then
        Some((((b[0] as int - 0xF0) * 262144 + (b[1] as int - 0x80) * 4096 + (b[2] as int - 0x80) * 64 + (b[3] as int - 0x80)) as char, 4))
      else None
    else None
  }

  /** `b.decode('utf-8')`; `None` is the `UnicodeDecodeError`. */
  function Decode(b: seq<Byte>): Option<string>
    decreases |b|
  {
    if b == [] then Some([])
    else match DecodeChar(b)
      case None => None
      case Some((c, n)) =>
        match Decode(b[n..])
        case None => None
        case Some(rest) => Some([c] + rest)
  }

  lemma DecodeTwoBytes(n: int, rest: seq<Byte>)
    requires 0x80 <= n < 0x800
    ensures DecodeChar([0xC0 + n / 64, 0x80 + n % 64] + rest) == Some((n as char, 2))
  {
    var b := [0xC0 + n / 64, 0x80 + n % 64] + rest;
    assert InRange(b[0], 0xC2, 0xDF) && InRange(b[1], 0x80, 0xBF);
    assert (b[0] as int - 0xC0) * 64 + (b[1] as int - 0x80) == n;
  }

  lemma DecodeThreeBytes(n: int, rest: seq<Byte>)
    requires 0x800 <= n < 0x10000 && !(0xD800 <= n < 0xE000)
    ensures DecodeChar([0xE0 + n / 4096, 0x80 + (n / 64) % 64, 0x80 + n % 64] + rest) == Some((n as char, 3))
  {
    var b := [0xE0 + n / 4096, 0x80 + (n / 64) % 64, 0x80 + n % 64] + rest;
    var q, m := n / 4096, (n / 64) % 64;
    assert n == q * 4096 + m * 64 + n % 64;
    assert q == 0 ==> m >= 32;
    assert q == 13 ==> m < 32;
    assert InRange(b[0], 0xE0, 0xEF) && InRange(b[2], 0x80, 0xBF);
    assert (b[0] as int - 0xE0) * 4096 + (b[1] as int - 0x80) * 64 + (b[2] as int - 0x80) == n;
  }

  /** The four base-64 digits of a scalar value below 2^24 put it back together. */
  lemma Digits64(n: nat)
    ensures n == (n / 262144) * 262144 + ((n / 4096) % 64) * 4096 + ((n / 64) % 64) * 64 + n % 64
  {
    var d1, r1 := n / 64, n % 64;
    var d2, r2 := d1 / 64, d1 % 64;
    var d3, r3 := d2 / 64, d2 % 64;
    assert n == d1 * 64 + r1 && d1 == d2 * 64 + r2 && d2 == d3 * 64 + r3;
    assert d2 == n / 4096;
    assert d3 == n / 262144;
  }

  lemma DecodeFour(q: int, m: int, l: int, r: int, rest: seq<Byte>)
    requires 0 <= q <= 4 && 0 <= m < 64 && 0 <= l < 64 && 0 <= r < 64
    requires q == 0 ==> m >= 16
    requires q == 4 ==> m < 16
    ensures DecodeChar([0xF0 + q, 0x80 + m, 0x80 + l, 0x80 + r] + rest)
            == Some(((q * 262144 + m * 4096 + l * 64 + r) as char, 4))
  {
    var b := [0xF0 + q, 0x80 + m, 0x80 + l, 0x80 + r] + rest;
    assert InRange(b[0], 0xF0, 0xF4) && InRange(b[2], 0x80, 0xBF) && InRange(b[3], 0x80, 0xBF);
  }

  lemma DecodeFourBytes(n: int, rest: seq<Byte>)
    requires 0x10000 <= n < 0x110000
    ensures DecodeChar([0xF0 + n / 262144, 0x80 + (n / 4096) % 64, 0x80 + (n / 64) % 64, 0x80 + n % 64] + rest)
            == Some((n as char, 4))
  {
    Digits64(n);
    var q, m := n / 262144, (n / 4096) % 64;
    assert q == 0 ==> m >= 16;
    assert q == 4 ==> m < 16;
    DecodeFour(q, m, (n / 64) % 64, n % 64, rest);
  }

  /** Each character's encoding is read back as that character. */
  lemma DecodeEncodeChar(c: char, rest: seq<Byte>)
    ensures DecodeChar(EncodeChar(c) + rest) == Some((c, |EncodeChar(c)|))
  {
    var n := c as int;
    if n < 0x80 {
    } else if n < 0x800 {
      DecodeTwoBytes(n, rest);
    } else if n < 0x10000 {
      DecodeThreeBytes(n, rest);
    } else {
      DecodeFourBytes(n, rest);
    }
  }

  /** Decoding an encoding gives the text back. */
  lemma {:induction false} DecodeEncode(s: string)
    ensures Decode(Encode(s)) == Some(s)
  {
    if s != [] {
      var e := EncodeChar(s[0]);
      DecodeEncodeChar(s[0], Encode(s[1..]));
      assert Encode(s) == e + Encode(s[1..]);
      assert (e + Encode(s[1..]))[|e|..] == Encode(s[1..]);
      DecodeEncode(s[1..]);
      assert [s[0]] + s[1..] == s;
    }
  }
}
