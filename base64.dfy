/** Base64 as Python's `base64.b64encode` and `base64.b64decode` do it: the standard
    alphabet of section 4 of RFC 4648 with `=` padding for encoding, and, for decoding,
    CPython's non-strict `binascii.a2b_base64` (CPython 3.11 and later), which skips
    every character outside the alphabet and stops at the first complete padding. */
module Base64 {
  import opened Wrappers
  import opened Strings

  /** The character for a 6-bit value. */
  function Symbol(v: nat): (c: char)
    requires v < 64
  {
    if v < 26 then (('A' as int) + v) as char
    else if v < 52 then (('a' as int) + (v - 26)) as char
    else if v < 62 then (('0' as int) + (v - 52)) as char
    else if v == 62 then '+'
    else '/'
  }

  /** Characters of the alphabet (padding excluded). */
  predicate IsAlphabet(c: char) {
    ('A' <= c <= 'Z') || ('a' <= c <= 'z') || ('0' <= c <= '9') || c == '+' || c == '/'
  }

  /** The 6-bit value of an alphabet character. */
  function Value(c: char): (v: nat)
    requires IsAlphabet(c)
    ensures v < 64 && Symbol(v) == c
  {
    if 'A' <= c <= 'Z' then (c as int) - ('A' as int)
    else if 'a' <= c <= 'z' then (c as int) - ('a' as int) + 26
    else if '0' <= c <= '9' then (c as int) - ('0' as int) + 52
    else if c == '+' then 62
    else 63
  }

  lemma SymbolValue(v: nat)
    requires v < 64
    ensures IsAlphabet(Symbol(v)) && Value(Symbol(v)) == v
  {
  }

  // ---------------------------------------------------------------- encoding

  function EncodeTriple(x: Byte, y: Byte, z: Byte): string
  {
    [Symbol(x / 4), Symbol((x % 4) * 16 + y / 16), Symbol((y % 16) * 4 + z / 64), Symbol(z % 64)]
  }

  /** `base64.b64encode(b)`, read as text. */
  function Encode(b: seq<Byte>): string
    decreases |b|
  {
    if |b| == 0 then ""
    else if |b| == 1 then [Symbol(b[0] / 4), Symbol((b[0] % 4) * 16), '=', '=']
    else if |b| == 2 then [Symbol(b[0] / 4), Symbol((b[0] % 4) * 16 + b[1] / 16), Symbol((b[1] % 16) * 4), '=']
    else EncodeTriple(b[0], b[1], b[2]) + Encode(b[3..])
  }

  /** Every character of an encoding is in the alphabet or is `=`. */
  predicate IsEncodingChar(c: char) {
    IsAlphabet(c) || c == '='
  }

  lemma TripleShape(x: Byte, y: Byte, z: Byte)
    ensures |EncodeTriple(x, y, z)| == 4
    ensures forall i :: 0 <= i < 4 ==> IsEncodingChar(EncodeTriple(x, y, z)[i])
  {
    SymbolValue(x / 4);
    SymbolValue((x % 4) * 16 + y / 16);
    SymbolValue((y % 16) * 4 + z / 64);
    SymbolValue(z % 64);
  }

  /** An encoding has a length divisible by four and uses only the alphabet and `=`; in
      particular it never holds `_`, `\n` or `<`. */
  lemma {:induction false} EncodeShape(b: seq<Byte>)
    ensures |Encode(b)| % 4 == 0
    ensures forall i :: 0 <= i < |Encode(b)| ==> IsEncodingChar(Encode(b)[i])
    decreases |b|
  {
    if |b| >= 3 {
      EncodeShape(b[3..]);
      TripleShape(b[0], b[1], b[2]);
      var t, r := EncodeTriple(b[0], b[1], b[2]), Encode(b[3..]);
      assert Encode(b) == t + r;
      forall i | 0 <= i < |t + r| ensures IsEncodingChar((t + r)[i]) {
        if i >= 4 {
          assert (t + r)[i] == r[i - 4];
        } else {
          assert (t + r)[i] == t[i];
        }
      }
    } else if |b| == 1 {
      SymbolValue(b[0] / 4);
      SymbolValue((b[0] % 4) * 16);
    } else if |b| == 2 {
      SymbolValue(b[0] / 4);
      SymbolValue((b[0] % 4) * 16 + b[1] / 16);
      SymbolValue((b[1] % 16) * 4);
    }
  }

  // ---------------------------------------------------------------- decoding

  /** The decoder's registers: the position inside the current quad, the bits left over
      from the previous character, and the `=` seen since the last data character. */
  datatype DecodeState = DecodeState(quadPos: nat, leftChar: nat, pads: nat)

  predicate ValidState(st: DecodeState) {
    && st.quadPos < 4
    && (st.quadPos == 0 ==> st.leftChar == 0)
    && (st.quadPos == 1 ==> st.leftChar < 64)
    && (st.quadPos == 2 ==> st.leftChar < 16)
    && (st.quadPos == 3 ==> st.leftChar < 4)
  }

  const Start := DecodeState(0, 0, 0)

  /** Runs the decoder over `s` from state `st`, with `acc` the bytes written so far.
      `None` is the `binascii.Error` raised for a dangling quad. */
  function DecodeFrom(s: string, st: DecodeState, acc: seq<Byte>): Option<seq<Byte>>
    requires ValidState(st)
    decreases |s|
  {
    if s == [] then
      if st.quadPos == 0 then Some(acc) else None
    else if s[0] == '=' then
      if st.quadPos >= 2 && st.quadPos + st.pads + 1 >= 4 then Some(acc)
      else DecodeFrom(s[1..], st.(pads := if st.quadPos >= 2 then st.pads + 1 else st.pads), acc)
    else if !IsAlphabet(s[0]) then
      DecodeFrom(s[1..], st, acc)
    else
      var v := Value(s[0]);
      if st.quadPos == 0 then DecodeFrom(s[1..], DecodeState(1, v, 0), acc)
      else if st.quadPos == 1 then DecodeFrom(s[1..], DecodeState(2, v % 16, 0), acc + [st.leftChar * 4 + v / 16])
      else if st.quadPos == 2 then DecodeFrom(s[1..], DecodeState(3, v % 4, 0), acc + [st.leftChar * 16 + v / 4])
      else DecodeFrom(s[1..], Start, acc + [st.leftChar * 64 + v])
  }

  /** `base64.b64decode(s)`; `None` when it raises. */
  function Decode(s: string): Option<seq<Byte>>
  {
    DecodeFrom(s, Start, [])
  }

  // One data character read in each position of a quad.

  lemma ReadFirst(s: string, acc: seq<Byte>)
    requires s != [] && IsAlphabet(s[0])
    ensures DecodeFrom(s, Start, acc) == DecodeFrom(s[1..], DecodeState(1, Value(s[0]), 0), acc)
  {
  }

  lemma ReadSecond(s: string, left: nat, acc: seq<Byte>)
    requires s != [] && IsAlphabet(s[0]) && left < 64
    ensures DecodeFrom(s, DecodeState(1, left, 0), acc)
            == DecodeFrom(s[1..], DecodeState(2, Value(s[0]) % 16, 0), acc + [left * 4 + Value(s[0]) / 16])
  {
  }

  lemma ReadThird(s: string, left: nat, acc: seq<Byte>)
    requires s != [] && IsAlphabet(s[0]) && left < 16
    ensures DecodeFrom(s, DecodeState(2, left, 0), acc)
            == DecodeFrom(s[1..], DecodeState(3, Value(s[0]) % 4, 0), acc + [left * 16 + Value(s[0]) / 4])
  {
  }

  lemma ReadFourth(s: string, left: nat, acc: seq<Byte>)
    requires s != [] && IsAlphabet(s[0]) && left < 4
    ensures DecodeFrom(s, DecodeState(3, left, 0), acc) == DecodeFrom(s[1..], Start, acc + [left * 64 + Value(s[0])])
  {
  }

  /** The 6-bit groups of three bytes put them back together. */
  lemma TripleGroups(x: Byte, y: Byte, z: Byte)
    ensures (x / 4) * 4 + ((x % 4) * 16 + y / 16) / 16 == x
    ensures (((x % 4) * 16 + y / 16) % 16) * 16 + ((y % 16) * 4 + z / 64) / 4 == y
    ensures (((y % 16) * 4 + z / 64) % 4) * 64 + z % 64 == z
  {
  }

  lemma DecodeTriple(x: Byte, y: Byte, z: Byte, rest: string, acc: seq<Byte>)
    ensures DecodeFrom(EncodeTriple(x, y, z) + rest, Start, acc) == DecodeFrom(rest, Start, acc + [x, y, z])
  {
    var v0, v1, v2, v3 := x / 4, (x % 4) * 16 + y / 16, (y % 16) * 4 + z / 64, z % 64;
    SymbolValue(v0);
    SymbolValue(v1);
    SymbolValue(v2);
    SymbolValue(v3);
    TripleGroups(x, y, z);
    var s0 := EncodeTriple(x, y, z) + rest;
    var s1, s2, s3 := s0[1..], s0[2..], s0[3..];
    assert s0[0] == Symbol(v0) && s1[0] == Symbol(v1) && s2[0] == Symbol(v2) && s3[0] == Symbol(v3);
    assert s2 == s1[1..] && s3 == s2[1..] && rest == s3[1..];
    ReadFirst(s0, acc);
    ReadSecond(s1, v0, acc);
    ReadThird(s2, v1 % 16, acc + [x]);
    ReadFourth(s3, v2 % 4, acc + [x] + [y]);
    assert acc + [x] + [y] + [z] == acc + [x, y, z];
  }

  lemma DecodeOne(x: Byte, acc: seq<Byte>)
    ensures DecodeFrom(Encode([x]), Start, acc) == Some(acc + [x])
  {
    var v0, v1 := x / 4, (x % 4) * 16;
    SymbolValue(v0);
    SymbolValue(v1);
    var s0 := Encode([x]);
    var s1, s2, s3 := s0[1..], s0[2..], s0[3..];
    assert s0[0] == Symbol(v0) && s1[0] == Symbol(v1) && s2[0] == '=' && s3[0] == '=';
    assert s2 == s1[1..] && s3 == s2[1..];
    assert v0 * 4 + v1 / 16 == x;
    ReadFirst(s0, acc);
    ReadSecond(s1, v0, acc);
    assert DecodeFrom(s2, DecodeState(2, v1 % 16, 0), acc + [x]) == DecodeFrom(s3, DecodeState(2, v1 % 16, 1), acc + [x]);
  }

  lemma DecodeTwo(x: Byte, y: Byte, acc: seq<Byte>)
    ensures DecodeFrom(Encode([x, y]), Start, acc) == Some(acc + [x, y])
  {
    var v0, v1, v2 := x / 4, (x % 4) * 16 + y / 16, (y % 16) * 4;
    SymbolValue(v0);
    SymbolValue(v1);
    SymbolValue(v2);
    TripleGroups(x, y, 0);
    var s0 := Encode([x, y]);
    var s1, s2, s3 := s0[1..], s0[2..], s0[3..];
    assert s0[0] == Symbol(v0) && s1[0] == Symbol(v1) && s2[0] == Symbol(v2) && s3[0] == '=';
    assert s2 == s1[1..] && s3 == s2[1..];
    ReadFirst(s0, acc);
    ReadSecond(s1, v0, acc);
    ReadThird(s2, v1 % 16, acc + [x]);
    assert acc + [x] + [y] == acc + [x, y];
  }

  lemma {:induction false} DecodeEncodeFrom(b: seq<Byte>, acc: seq<Byte>)
    ensures DecodeFrom(Encode(b), Start, acc) == Some(acc + b)
    decreases |b|
  {
    if |b| == 0 {
      assert acc + b == acc;
    } else if |b| == 1 {
      DecodeOne(b[0], acc);
      assert b == [b[0]];
    } else if |b| == 2 {
      DecodeTwo(b[0], b[1], acc);
      assert b == [b[0], b[1]];
    } else {
      DecodeTriple(b[0], b[1], b[2], Encode(b[3..]), acc);
      DecodeEncodeFrom(b[3..], acc + [b[0], b[1], b[2]]);
      assert acc + [b[0], b[1], b[2]] + b[3..] == acc + b;
    }
  }

  /** Decoding an encoding gives the bytes back. */
  lemma DecodeEncode(b: seq<Byte>)
    ensures Decode(Encode(b)) == Some(b)
  {
    DecodeEncodeFrom(b, []);
    assert [] + b == b;
  }
}
