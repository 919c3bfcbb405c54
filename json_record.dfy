/** The JSON text inside a document id (RFC 8259): the three-field object that Python's
    `json.dumps` writes with its defaults (`ensure_ascii=True`, separators `", "` and
    `": "`), and a reader of JSON objects whose member values are strings, as `json.loads`
    reads them. */
module JsonRecord {
  import opened Wrappers
  import opened Strings
  import Utf8

  /** The decoded fields of a document id. */
  datatype Record = Record(userId: string, documentName: string, timestamp: string)

  /** Why `json.loads(...)[key]` raised: the text is not a JSON object of the kind read
      here, or the object has no such key (`KeyError`). */
  datatype LoadError = Malformed | MissingKey(key: string)

  // ---------------------------------------------------------------- hexadecimal

  function HexDigit(d: nat): (c: char)
    requires d < 16
  {
    if d < 10 then (('0' as int) + d) as char else (('a' as int) + d - 10) as char
  }

  predicate IsHex(c: char) {
    ('0' <= c <= '9') || ('a' <= c <= 'f') || ('A' <= c <= 'F')
  }

  function HexValue(c: char): (d: nat)
    requires IsHex(c)
    ensures d < 16
  {
    if '0' <= c <= '9' then (c as int) - ('0' as int)
    else if 'a' <= c <= 'f' then (c as int) - ('a' as int) + 10
    else (c as int) - ('A' as int) + 10
  }

  /** Four lower-case hexadecimal digits, as `'{0:04x}'.format(v)`. */
  function Hex4(v: nat): (r: string)
    requires v < 0x10000
    ensures |r| == 4
  {
    [HexDigit(v / 16 / 16 / 16), HexDigit(v / 16 / 16 % 16), HexDigit(v / 16 % 16), HexDigit(v % 16)]
  }

  predicate StartsWithHex4(s: string) {
    |s| >= 4 && IsHex(s[0]) && IsHex(s[1]) && IsHex(s[2]) && IsHex(s[3])
  }

  function Hex4Value(s: string): (v: nat)
    requires StartsWithHex4(s)
    ensures v < 0x10000
  {
    HexValue(s[0]) * 4096 + HexValue(s[1]) * 256 + HexValue(s[2]) * 16 + HexValue(s[3])
  }

  lemma HexDigitValue(d: nat)
    requires d < 16
    ensures IsHex(HexDigit(d)) && HexValue(HexDigit(d)) == d
  {
  }

  lemma Hex4RoundTrip(v: nat, rest: string)
    requires v < 0x10000
    ensures StartsWithHex4(Hex4(v) + rest) && Hex4Value(Hex4(v) + rest) == v
  {
    var s := Hex4(v) + rest;
    var a := v / 16;
    var b := a / 16;
    var d0, d1, d2, d3 := b / 16, b % 16, a % 16, v % 16;
    HexDigitValue(d0);
    HexDigitValue(d1);
    HexDigitValue(d2);
    HexDigitValue(d3);
    assert s[0] == HexDigit(d0) && s[1] == HexDigit(d1) && s[2] == HexDigit(d2) && s[3] == HexDigit(d3);
    assert v == a * 16 + d3 && a == b * 16 + d2 && b == d0 * 16 + d1;
  }

  // ---------------------------------------------------------------- writing

  /** The escape `json.dumps` writes for one character. Printable ASCII other than `"` and
      `\` stands for itself; a character above U+FFFF is written as a surrogate pair. */
  function EscapeChar(c: char): string
  {
    var n := c as int;
    if c == '"' then "\\\""
    else if c == '\\' then "\\\\"
    else if c == '\n' then "\\n"
    else if c == '\r' then "\\r"
    else if c == '\t' then "\\t"
    else if n == 0x08 then "\\b"
    else if n == 0x0c then "\\f"
    else if 0x20 <= n <= 0x7e then [c]
    else if n < 0x10000 then "\\u" + Hex4(n)
    else
      var m := n - 0x10000;
      "\\u" + Hex4(0xD800 + m / 1024) + "\\u" + Hex4(0xDC00 + m % 1024)
  }

  /** The body of a JSON string literal for `s`. */
  function Escape(s: string): string
  {
    if s == [] then "" else EscapeChar(s[0]) + Escape(s[1..])
  }

  function Quote(s: string): string
  {
    "\"" + Escape(s) + "\""
  }

  /** A member `"key": "value"` as `json.dumps` writes it, followed by `rest`. */
  function MemberText(key: string, value: string, rest: string): string
  {
    Quote(key) + ": " + Quote(value) + rest
  }

  /** `json.dumps({"userId": u, "document_name": n, "timestamp": t})`: keys in insertion
      order, separated by `", "`, keys and values quoted by the same escaper. */
  function Dumps(r: Record): string
  {
    "{" + MemberText("userId", r.userId, ", " + MemberText("document_name", r.documentName,
      ", " + MemberText("timestamp", r.timestamp, "}")))
  }

  // ---------------------------------------------------------------- reading

  /** JSON's insignificant whitespace. */
  predicate IsJsonSpace(c: char) {
    c == ' ' || c == '\t' || c == '\n' || c == '\r'
  }

  function SkipSpace(s: string): (r: string)
    ensures |r| <= |s| && r == s[|s| - |r|..]
    ensures r == [] || !IsJsonSpace(r[0])
  {
    if s != [] && IsJsonSpace(s[0]) then SkipSpace(s[1..]) else s
  }

  /** The character of a one-letter escape `\x`, if `x` names one. */
  function SimpleEscape(x: char): Option<char>
  {
    if x == '"' then Some('"')
    else if x == '\\' then Some('\\')
    else if x == '/' then Some('/')
    else if x == 'b' then Some(8 as char)
    else if x == 'f' then Some(12 as char)
    else if x == 'n' then Some('\n')
    else if x == 'r' then Some('\r')
    else if x == 't' then Some('\t')
    else None
  }

  /** The character of a `\u` escape whose four digits start `s`, and what follows it. A high
      surrogate must be followed by `\u` and a low surrogate, which together name one
      character; a surrogate left alone has no Dafny character and reads as `None`. */
  function ScanUnicode(s: string): (r: Option<(char, string)>)
    ensures r.Some? ==> |r.value.1| < |s|
  {
    if !StartsWithHex4(s) then None
    else
      var v := Hex4Value(s);
      if 0xD800 <= v <= 0xDBFF then
        if |s| >= 10 && s[4] == '\\' && s[5] == 'u' && StartsWithHex4(s[6..]) then
          var w := Hex4Value(s[6..]);
          if 0xDC00 <= w <= 0xDFFF then
            Some(((0x10000 + (v - 0xD800) * 1024 + (w - 0xDC00)) as char, s[10..]))
          else None
        else None
      else if 0xDC00 <= v <= 0xDFFF then None
      else Some((v as char, s[4..]))
  }

  /** A scan result with `c` put in front of the text read. */
  function Prefixed(c: char, r: Option<(string, string)>): Option<(string, string)>
  {
    match r
    case None => None
    case Some((t, after)) => Some(([c] + t, after))
  }

  /** Reads a string literal whose opening quote is already consumed: its text and what
      follows the closing quote. `None` for an unterminated literal, a bad escape, or a raw
      control character (the default strict scanner refuses those). */
  function ScanString(s: string): (r: Option<(string, string)>)
    ensures r.Some? ==> |r.value.1| < |s|
    decreases |s|
  {
    if s == [] then None
    else if s[0] == '"' then Some(("", s[1..]))
    else if s[0] == '\\' then
      if |s| < 2 then None
      else if s[1] == 'u' then
        match ScanUnicode(s[2..])
        case None => None
        case Some((c, rest)) => Prefixed(c, ScanString(rest))
      else
        match SimpleEscape(s[1])
        case None => None
        case Some(c) => Prefixed(c, ScanString(s[2..]))
    else if (s[0] as int) < 0x20 then None
    else Prefixed(s[0], ScanString(s[1..]))
  }

  /** A string literal at the start of `s`: its text and what follows it. */
  function StringToken(s: string): (r: Option<(string, string)>)
    ensures r.Some? ==> |r.value.1| < |s|
  {
    if s == [] || s[0] != '"' then None else ScanString(s[1..])
  }

  /** One `"key": "value"` member at the start of `s`, and what follows it after whitespace. */
  function ParseMember(s: string): (r: Option<(string, string, string)>)
    ensures r.Some? ==> |r.value.2| < |s|
  {
    match StringToken(s)
    case None => None
    case Some((key, r1)) =>
      var r2 := SkipSpace(r1);
      if r2 == [] || r2[0] != ':' then None
      else
        match StringToken(SkipSpace(r2[1..]))
        case None => None
        case Some((value, r3)) => Some((key, value, SkipSpace(r3)))
  }

  /** Reads members separated by commas up to the closing brace, starting at a key. A
      repeated key keeps its last value, as a Python `dict` built in order does. */
  function ParseMembers(s: string, fields: map<string, string>): (r: Option<(map<string, string>, string)>)
    decreases |s|
  {
    match ParseMember(s)
    case None => None
    case Some((key, value, rest)) =>
      var fs := fields[key := value];
      if rest == [] then None
      else if rest[0] == '}' then Some((fs, rest[1..]))
      else if rest[0] == ',' then ParseMembers(SkipSpace(rest[1..]), fs)
      else None
  }

  /** An object at the start of `t`: its members and what follows the closing brace. */
  function ObjectBody(t: string): Option<(map<string, string>, string)>
  {
    if t == [] || t[0] != '{' then None
    else
      var u := SkipSpace(t[1..]);
      if u != [] && u[0] == '}' then Some((map[], u[1..])) else ParseMembers(u, map[])
  }

  /** `json.loads(text)` when the text is one object whose values are strings, surrounded
      by optional whitespace. */
  function ParseObject(text: string): Option<map<string, string>>
  {
    match ObjectBody(SkipSpace(text))
    case None => None
    case Some((fields, rest)) => if SkipSpace(rest) == [] then Some(fields) else None
  }

  /** `data = json.loads(text)` followed by `data["userId"]`, `data["document_name"]`,
      `data["timestamp"]`, in that order. */
  function Loads(text: string): (r: Result<Record, LoadError>)
    ensures r.Ok? <==> ParseObject(text).Some? && "userId" in ParseObject(text).value
                       && "document_name" in ParseObject(text).value
                       && "timestamp" in ParseObject(text).value
    ensures r.Ok? ==> r.value == Record(ParseObject(text).value["userId"],
                                        ParseObject(text).value["document_name"],
                                        ParseObject(text).value["timestamp"])
  {
    match ParseObject(text)
    case None => Err(Malformed)
    case Some(fields) =>
      if "userId" !in fields then Err(MissingKey("userId"))
      else if "document_name" !in fields then Err(MissingKey("document_name"))
      else if "timestamp" !in fields then Err(MissingKey("timestamp"))
      else Ok(Record(fields["userId"], fields["document_name"], fields["timestamp"]))
  }

  // ---------------------------------------------------------------- round trip

  lemma ScanShortEscape(c: char, tail: string)
    requires c == '"' || c == '\\' || c == '\n' || c == '\r' || c == '\t' || c as int == 0x08 || c as int == 0x0c
    ensures ScanString(EscapeChar(c) + tail) == Prefixed(c, ScanString(tail))
  {
    var s := EscapeChar(c) + tail;
    assert |EscapeChar(c)| == 2 && EscapeChar(c)[0] == '\\' && EscapeChar(c)[1] != 'u';
    assert SimpleEscape(s[1]) == Some(c);
    assert s[2..] == tail;
  }

  lemma ScanPrintable(c: char, tail: string)
    requires 0x20 <= c as int <= 0x7e && c != '"' && c != '\\'
    ensures ScanString(EscapeChar(c) + tail) == Prefixed(c, ScanString(tail))
  {
    var s := EscapeChar(c) + tail;
    assert EscapeChar(c) == [c];
    assert s[1..] == tail;
  }

  /** `ScanString` on a `\\u` escape that `ScanUnicode` reads as `c`. */
  lemma ScanUnicodeEscape(s: string, c: char, after: string)
    requires |s| >= 2 && s[0] == '\\' && s[1] == 'u' && ScanUnicode(s[2..]) == Some((c, after))
    ensures ScanString(s) == Prefixed(c, ScanString(after))
  {
  }

  lemma ScanBasicPlane(c: char, tail: string)
    requires (c as int < 0x20 || 0x7e < c as int < 0x10000) && c as int != 0x08 && c as int != 0x0c
    requires c != '\n' && c != '\r' && c != '\t'
    ensures ScanString(EscapeChar(c) + tail) == Prefixed(c, ScanString(tail))
  {
    var n := c as int;
    var u := Hex4(n) + tail;
    assert EscapeChar(c) == "\\u" + Hex4(n);
    Regroup("\\u", Hex4(n), tail, []);
    Hex4RoundTrip(n, tail);
    assert u[4..] == tail;
    assert (EscapeChar(c) + tail)[2..] == u;
    ScanUnicodeEscape(EscapeChar(c) + tail, c, tail);
  }

  /** `ScanUnicode` on a high and a low surrogate escape. */
  lemma ScanPair(u: string, hi: nat, lo: nat, tail: string)
    requires 0xD800 <= hi <= 0xDBFF && 0xDC00 <= lo <= 0xDFFF
    requires StartsWithHex4(u) && Hex4Value(u) == hi
    requires |u| >= 10 && u[4] == '\\' && u[5] == 'u'
    requires StartsWithHex4(u[6..]) && Hex4Value(u[6..]) == lo && u[10..] == tail
    ensures ScanUnicode(u) == Some(((0x10000 + (hi - 0xD800) * 1024 + (lo - 0xDC00)) as char, tail))
  {
  }

  lemma ScanSurrogatePair(hi: nat, lo: nat, tail: string)
    requires 0xD800 <= hi <= 0xDBFF && 0xDC00 <= lo <= 0xDFFF
    ensures ScanUnicode(Hex4(hi) + "\\u" + Hex4(lo) + tail)
            == Some(((0x10000 + (hi - 0xD800) * 1024 + (lo - 0xDC00)) as char, tail))
  {
    var l := Hex4(lo) + tail;
    var after := "\\u" + l;
    var u := Hex4(hi) + after;
    assert Hex4(hi) + "\\u" + Hex4(lo) + tail == u;
    Hex4RoundTrip(hi, after);
    Hex4RoundTrip(lo, tail);
    assert u[4..] == after;
    assert u[6..] == l;
    assert u[10..] == tail;
    ScanPair(u, hi, lo, tail);
  }

  /** The escape of a character above U+FFFF: its surrogate pair. */
  lemma EscapeAstral(c: char)
    requires c as int >= 0x10000
    ensures var m := c as int - 0x10000;
      EscapeChar(c) == "\\u" + (Hex4(0xD800 + m / 1024) + "\\u" + Hex4(0xDC00 + m % 1024))
  {
  }

  lemma ScanAstral(c: char, tail: string)
    requires c as int >= 0x10000
    ensures ScanString(EscapeChar(c) + tail) == Prefixed(c, ScanString(tail))
  {
    var n := c as int;
    var m := n - 0x10000;
    var hi, lo := 0xD800 + m / 1024, 0xDC00 + m % 1024;
    var u := Hex4(hi) + "\\u" + Hex4(lo) + tail;
    var s := EscapeChar(c) + tail;
    EscapeAstral(c);
    Regroup("\\u", Hex4(hi) + "\\u" + Hex4(lo), tail, []);
    assert s[2..] == u;
    assert 0x10000 + (hi - 0xD800) * 1024 + (lo - 0xDC00) == n;
    ScanSurrogatePair(hi, lo, tail);
    ScanUnicodeEscape(s, c, tail);
  }

  /** One escaped character is read back as that character. */
  lemma ScanEscapeChar(c: char, tail: string)
    ensures ScanString(EscapeChar(c) + tail) == Prefixed(c, ScanString(tail))
  {
    var n := c as int;
    if c == '"' || c == '\\' || c == '\n' || c == '\r' || c == '\t' || n == 0x08 || n == 0x0c {
      ScanShortEscape(c, tail);
    } else if 0x20 <= n <= 0x7e {
      ScanPrintable(c, tail);
    } else if n < 0x10000 {
      ScanBasicPlane(c, tail);
    } else {
      ScanAstral(c, tail);
    }
  }

  /** A quoted string is read back as the string, whatever follows it. */
  lemma {:induction false} ScanEscape(s: string, rest: string)
    ensures ScanString(Escape(s) + "\"" + rest) == Some((s, rest))
  {
    if s == [] {
      assert (Escape(s) + "\"" + rest)[1..] == rest;
    } else {
      var e := EscapeChar(s[0]);
      ScanEscape(s[1..], rest);
      ScanEscapeChar(s[0], Escape(s[1..]) + "\"" + rest);
      Regroup(e, Escape(s[1..]), "\"", rest);
      assert [s[0]] + s[1..] == s;
    }
  }

  lemma QuotedToken(s: string, rest: string)
    ensures StringToken(Quote(s) + rest) == Some((s, rest))
  {
    ScanEscape(s, rest);
    assert (Quote(s) + rest)[1..] == Escape(s) + "\"" + rest;
  }

  lemma SkipNoSpace(s: string)
    requires s == [] || !IsJsonSpace(s[0])
    ensures SkipSpace(s) == s
  {
  }

  lemma SkipOneSpace(s: string)
    requires s == [] || !IsJsonSpace(s[0])
    ensures SkipSpace(" " + s) == s
  {
    assert (" " + s)[1..] == s;
  }

  /** `ParseMember` from its three tokens. */
  lemma ParseMemberOf(s: string, key: string, r1: string, value: string, rest: string)
    requires StringToken(s) == Some((key, r1)) && r1 != [] && r1[0] == ':'
    requires StringToken(SkipSpace(r1[1..])) == Some((value, rest))
    ensures ParseMember(s) == Some((key, value, SkipSpace(rest)))
  {
    SkipNoSpace(r1);
  }

  /** A member as `json.dumps` writes it is read back. */
  lemma MemberOf(key: string, value: string, rest: string)
    requires rest == [] || !IsJsonSpace(rest[0])
    ensures ParseMember(MemberText(key, value, rest)) == Some((key, value, rest))
  {
    var r3 := Quote(value) + rest;
    var r1 := ": " + r3;
    assert MemberText(key, value, rest) == Quote(key) + r1;
    QuotedToken(key, r1);
    assert r1[1..] == " " + r3;
    assert r3[0] == '"';
    SkipOneSpace(r3);
    QuotedToken(value, rest);
    ParseMemberOf(MemberText(key, value, rest), key, r1, value, rest);
    SkipNoSpace(rest);
  }

  lemma CommaThen(next: string)
    requires next == [] || !IsJsonSpace(next[0])
    ensures (", " + next)[0] == ',' && !IsJsonSpace((", " + next)[0])
    ensures SkipSpace((", " + next)[1..]) == next
  {
    assert (", " + next)[1..] == " " + next;
    SkipOneSpace(next);
  }

  lemma MembersComma(s: string, fields: map<string, string>, key: string, value: string, rest: string)
    requires ParseMember(s) == Some((key, value, rest)) && rest != [] && rest[0] == ','
    ensures ParseMembers(s, fields) == ParseMembers(SkipSpace(rest[1..]), fields[key := value])
  {
  }

  lemma {:induction false} MembersThen(key: string, value: string, next: string, fields: map<string, string>)
    requires next == [] || !IsJsonSpace(next[0])
    ensures ParseMembers(MemberText(key, value, ", " + next), fields) == ParseMembers(next, fields[key := value])
  {
    var rest := ", " + next;
    CommaThen(next);
    MemberOf(key, value, rest);
    MembersComma(MemberText(key, value, rest), fields, key, value, rest);
  }

  lemma MembersClose(s: string, fields: map<string, string>, key: string, value: string, rest: string)
    requires ParseMember(s) == Some((key, value, rest)) && rest != [] && rest[0] == '}'
    ensures ParseMembers(s, fields) == Some((fields[key := value], rest[1..]))
  {
  }

  lemma {:induction false} MembersEnd(key: string, value: string, fields: map<string, string>)
    ensures ParseMembers(MemberText(key, value, "}"), fields) == Some((fields[key := value], []))
  {
    MemberOf(key, value, "}");
    MembersClose(MemberText(key, value, "}"), fields, key, value, "}");
    assert "}"[1..] == [];
  }

  lemma ObjectBodyOf(a: string)
    requires a != [] && a[0] == '"'
    ensures ObjectBody("{" + a) == ParseMembers(a, map[])
  {
    var t := "{" + a;
    assert t[0] == '{' && t[1..] == a;
    SkipNoSpace(a);
  }

  lemma ObjectFrom(text: string, fields: map<string, string>)
    requires SkipSpace(text) == text && ObjectBody(text) == Some((fields, []))
    ensures ParseObject(text) == Some(fields)
  {
    assert SkipSpace([]) == [];
  }

  lemma ObjectOf(a: string, fields: map<string, string>)
    requires a != [] && a[0] == '"' && ParseMembers(a, map[]) == Some((fields, []))
    ensures ParseObject("{" + a) == Some(fields)
  {
    SkipNoSpace("{" + a);
    ObjectBodyOf(a);
    ObjectFrom("{" + a, fields);
  }

  lemma MemberTextStart(key: string, value: string, rest: string)
    ensures MemberText(key, value, rest) != [] && MemberText(key, value, rest)[0] == '"'
  {
  }

  lemma LoadsOf(text: string, u: string, n: string, t: string)
    requires ParseObject(text) == Some(map["userId" := u]["document_name" := n]["timestamp" := t])
    ensures Loads(text) == Ok(Record(u, n, t))
  {
  }

  /** Three members as `json.dumps` writes them are read back, in order. */
  lemma {:induction false} MembersOfThree(k1: string, v1: string, k2: string, v2: string, k3: string, v3: string)
    ensures ParseMembers(MemberText(k1, v1, ", " + MemberText(k2, v2, ", " + MemberText(k3, v3, "}"))), map[])
            == Some((map[k1 := v1][k2 := v2][k3 := v3], []))
  {
    var c := MemberText(k3, v3, "}");
    var b := MemberText(k2, v2, ", " + c);
    MemberTextStart(k3, v3, "}");
    MemberTextStart(k2, v2, ", " + c);
    MembersEnd(k3, v3, map[k1 := v1][k2 := v2]);
    MembersThen(k2, v2, c, map[k1 := v1]);
    MembersThen(k1, v1, b, map[]);
  }

  /** The members `json.dumps` wrote for a record are read back as its three fields. */
  lemma MembersOfRecord(r: Record)
    ensures ParseMembers(MemberText("userId", r.userId, ", " + MemberText("document_name", r.documentName,
              ", " + MemberText("timestamp", r.timestamp, "}"))), map[])
            == Some((map["userId" := r.userId]["document_name" := r.documentName]["timestamp" := r.timestamp], []))
  {
    MembersOfThree("userId", r.userId, "document_name", r.documentName, "timestamp", r.timestamp);
  }

  lemma {:induction false} ParseDumps(r: Record)
    ensures ParseObject(Dumps(r))
            == Some(map["userId" := r.userId]["document_name" := r.documentName]["timestamp" := r.timestamp])
  {
    var a := MemberText("userId", r.userId, ", " + MemberText("document_name", r.documentName,
               ", " + MemberText("timestamp", r.timestamp, "}")));
    MemberTextStart("userId", r.userId, ", " + MemberText("document_name", r.documentName,
      ", " + MemberText("timestamp", r.timestamp, "}")));
    MembersOfRecord(r);
    ObjectOf(a, map["userId" := r.userId]["document_name" := r.documentName]["timestamp" := r.timestamp]);
  }

  /** What `json.dumps` wrote, `json.loads` reads back. */
  lemma {:induction false} LoadsDumps(r: Record)
    ensures Loads(Dumps(r)) == Ok(r)
  {
    ParseDumps(r);
    LoadsOf(Dumps(r), r.userId, r.documentName, r.timestamp);
  }
}
