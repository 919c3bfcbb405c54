/** Python `str` behaviour that the pipeline relies on, over Dafny strings (`seq<char>`):
    whitespace, `strip`, `split`, `join`, `replace`, `startswith`, `in`, `splitlines`,
    decimal rendering with `str(int)` and parsing with `int(...)`. */
module Strings {

  /** A byte of a Python `bytes` value. */
  type Byte = b: int | 0 <= b < 256

  /** `str.isspace()` for one character: the set Python's `str.split()`, `str.strip()`
      and the regular-expression class `\s` treat as whitespace. */
  predicate IsSpace(c: char) {
    var n := c as int;
    n == 0x20 || (0x09 <= n <= 0x0d) || (0x1c <= n <= 0x1f) || n == 0x85 || n == 0xa0
    || n == 0x1680 || (0x2000 <= n <= 0x200a) || n == 0x2028 || n == 0x2029
    || n == 0x202f || n == 0x205f || n == 0x3000
  }

  /** The regular-expression class `\d`, restricted to ASCII digits. */
  predicate IsDigit(c: char) {
    '0' <= c <= '9'
  }

  predicate AllDigits(s: string) {
    forall i :: 0 <= i < |s| ==> IsDigit(s[i])
  }

  predicate AllSpace(s: string) {
    forall i :: 0 <= i < |s| ==> IsSpace(s[i])
  }

  predicate StartsWith(s: string, prefix: string) {
    |prefix| <= |s| && s[..|prefix|] == prefix
  }

  predicate EndsWith(s: string, suffix: string) {
    |suffix| <= |s| && s[|s| - |suffix|..] == suffix
  }

  /** `sub` occurs in `s` starting at index `i`. */
  predicate OccursAt(s: string, sub: string, i: nat) {
    i + |sub| <= |s| && s[i..i + |sub|] == sub
  }

  /** Python's `sub in s`. */
  predicate Contains(s: string, sub: string) {
    exists i :: 0 <= i <= |s| - |sub| && OccursAt(s, sub, i)
  }

  /** Concatenation regrouped to the right. */
  lemma Regroup(a: string, b: string, c: string, d: string)
    ensures a + b + c + d == a + (b + c + d)
    ensures (a + b) + c == a + (b + c)
  {
  }

  /** A prefix one element longer is the prefix with that element appended. */
  lemma SliceSnoc<T>(s: seq<T>, j: nat)
    requires j < |s|
    ensures s[..j + 1] == s[..j] + [s[j]]
  {
  }

  /** A prefix of a prefix is a prefix. */
  lemma PrefixPrefix<T>(s: seq<T>, i: nat, j: nat)
    requires i <= j <= |s|
    ensures s[..j][..i] == s[..i]
  {
  }

  /** The prefix as long as the sequence is the sequence. */
  lemma SliceFull<T>(s: seq<T>)
    ensures s[..|s|] == s
  {
  }

  /** The last element and the rest of a concatenation with a non-empty second part. */
  lemma ConcatInit<T>(a: seq<T>, b: seq<T>)
    requires b != []
    ensures (a + b)[..|a + b| - 1] == a + b[..|b| - 1]
    ensures (a + b)[|a + b| - 1] == b[|b| - 1]
  {
  }

  /** Concatenation of three sequences regroups. */
  lemma ConcatAssoc<T>(a: seq<T>, b: seq<T>, c: seq<T>)
    ensures (a + b) + c == a + (b + c)
  {
  }

  /** Appending one element after a concatenation regroups to the right. */
  lemma ConcatSnoc<T>(a: seq<T>, b: seq<T>, x: T)
    ensures (a + b) + [x] == a + (b + [x])
  {
  }

  /** Equal concatenations around a common prefix and suffix have equal middles. */
  lemma MiddleCancel<T>(p: seq<T>, a: seq<T>, b: seq<T>, e: seq<T>)
    requires p + a + e == p + b + e
    ensures a == b
  {
    assert |a| == |b|;
    assert a == (p + a + e)[|p|..|p| + |a|];
    assert b == (p + b + e)[|p|..|p| + |b|];
  }

  /** The two parts of a concatenation are its prefix and suffix at the seam. */
  lemma ConcatParts<T>(a: seq<T>, b: seq<T>)
    ensures (a + b)[..|a|] == a && (a + b)[|a|..] == b
  {
  }

  /** A suffix of a concatenation that starts in the second part is a suffix of it. */
  lemma ConcatDrop<T>(a: seq<T>, b: seq<T>, j: nat)
    requires |a| <= j <= |a| + |b|
    ensures (a + b)[j..] == b[j - |a|..]
  {
  }

  lemma AppendStartsWith(a: string, b: string)
    ensures StartsWith(a + b, a)
  {
    assert (a + b)[..|a|] == a;
  }

  lemma AppendEndsWith(a: string, b: string)
    ensures EndsWith(a + b, b)
  {
    assert (a + b)[|a + b| - |b|..] == b;
  }

  // ---------------------------------------------------------------- strip

  /** `s.lstrip()`: drops the leading whitespace. */
  function LStrip(s: string): (r: string)
    ensures |r| <= |s|
  {
    if s != [] && IsSpace(s[0]) then LStrip(s[1..]) else s
  }

  /** `s.rstrip()`: drops the trailing whitespace. */
  function RStrip(s: string): string
  {
    if s != [] && IsSpace(s[|s| - 1]) then RStrip(s[..|s| - 1]) else s
  }

  /** What `lstrip` drops is all whitespace, and what it keeps is a suffix that does not
      start with whitespace. */
  lemma {:induction false} LStripParts(s: string)
    ensures var r := LStrip(s);
      && r == s[|s| - |r|..]
      && AllSpace(s[..|s| - |r|])
      && (r == [] || !IsSpace(r[0]))
  {
    if s != [] && IsSpace(s[0]) {
      LStripParts(s[1..]);
      var r := LStrip(s);
      assert s[1..][|s| - 1 - |r|..] == s[|s| - |r|..];
    }
  }

  /** What `rstrip` drops is all whitespace, and what it keeps is a prefix that does not
      end with whitespace. */
  lemma {:induction false} RStripParts(s: string)
    ensures var r := RStrip(s);
      && |r| <= |s| && r == s[..|r|]
      && AllSpace(s[|r|..])
      && (r == [] || !IsSpace(r[|r| - 1]))
  {
    if s != [] && IsSpace(s[|s| - 1]) {
      var t := s[..|s| - 1];
      RStripParts(t);
      var r := RStrip(s);
      assert t[..|r|] == s[..|r|];
      assert forall i :: |r| <= i < |s| - 1 ==> s[i] == t[i];
    }
  }

  /** `str.strip()` with no argument. */
  function Strip(s: string): string
  {
    RStrip(LStrip(s))
  }

  /** `strip` keeps a slice of the text: empty exactly when the text is all whitespace, and
      otherwise neither starting nor ending with whitespace. */
  lemma StripParts(s: string)
    ensures var r := Strip(s);
      && (r == [] <==> AllSpace(s))
      && (r == [] || (!IsSpace(r[0]) && !IsSpace(r[|r| - 1])))
      && |r| <= |s| - |LStrip(s)| + |r| <= |s|
      && r == s[|s| - |LStrip(s)|..][..|r|]
  {
    var t := LStrip(s);
    LStripParts(s);
    RStripParts(t);
    var r := RStrip(t);
    var lo := |s| - |t|;
    assert s == s[..lo] + t;
    if r == [] {
      assert t[|r|..] == t;
      AllSpaceConcat(s[..lo], t);
    } else {
      assert t[0] == r[0];
    }
    if t != [] {
      assert s[lo] == t[0];
    }
  }

  /** Stripping twice strips nothing more. */
  lemma StripIdempotent(s: string)
    ensures Strip(Strip(s)) == Strip(s)
  {
    StripParts(s);
  }

  lemma AllSpaceConcat(a: string, b: string)
    requires AllSpace(a) && AllSpace(b)
    ensures AllSpace(a + b)
  {
  }

  // ---------------------------------------------------------------- split on one character

  /** `s.split(sep)` for a one-character separator: always at least one piece. */
  function SplitOn(s: string, sep: char): (r: seq<string>)
    ensures |r| >= 1
  {
    if s == [] then [""]
    else
      var rest := SplitOn(s[1..], sep);
      if s[0] == sep then [""] + rest else [[s[0]] + rest[0]] + rest[1..]
  }

  /** `sep.join(parts)`. */
  function Join(parts: seq<string>, sep: string): string
  {
    if |parts| == 0 then ""
    else if |parts| == 1 then parts[0]
    else parts[0] + sep + Join(parts[1..], sep)
  }

  predicate Excludes(s: string, c: char) {
    forall i :: 0 <= i < |s| ==> s[i] != c
  }

  lemma {:induction false} SplitOnNoSep(s: string, sep: char)
    requires Excludes(s, sep)
    ensures SplitOn(s, sep) == [s]
  {
    if s != [] {
      SplitOnNoSep(s[1..], sep);
      assert [s[0]] + s[1..] == s;
    }
  }

  lemma {:induction false} SplitOnHead(a: string, sep: char, b: string)
    requires Excludes(a, sep)
    ensures SplitOn(a + [sep] + b, sep) == [a] + SplitOn(b, sep)
  {
    if a == [] {
      assert a + [sep] + b == [sep] + b;
      assert ([sep] + b)[1..] == b;
    } else {
      assert (a + [sep] + b)[1..] == a[1..] + [sep] + b;
      SplitOnHead(a[1..], sep, b);
      assert [a[0]] + a[1..] == a;
    }
  }

  /** Splitting a join on a separator that no piece contains gives the pieces back. */
  lemma {:induction false} SplitJoin(parts: seq<string>, sep: char)
    requires |parts| >= 1
    requires forall k :: 0 <= k < |parts| ==> Excludes(parts[k], sep)
    ensures SplitOn(Join(parts, [sep]), sep) == parts
  {
    if |parts| == 1 {
      SplitOnNoSep(parts[0], sep);
    } else {
      SplitJoin(parts[1..], sep);
      SplitOnHead(parts[0], sep, Join(parts[1..], [sep]));
      assert [parts[0]] + parts[1..] == parts;
    }
  }

  lemma {:induction false} JoinAppend(parts: seq<string>, last: string, sep: string)
    requires |parts| >= 1
    ensures Join(parts + [last], sep) == Join(parts, sep) + sep + last
  {
    if |parts| == 1 {
      assert parts + [last] == [parts[0], last];
    } else {
      assert (parts + [last])[1..] == parts[1..] + [last];
      JoinAppend(parts[1..], last, sep);
    }
  }

  lemma {:induction false} JoinConcat(a: seq<string>, b: seq<string>, sep: string)
    requires |a| >= 1 && |b| >= 1
    ensures Join(a + b, sep) == Join(a, sep) + sep + Join(b, sep)
  {
    if |a| == 1 {
      assert a + b == [a[0]] + b;
      assert ([a[0]] + b)[1..] == b;
    } else {
      assert (a + b)[1..] == a[1..] + b;
      JoinConcat(a[1..], b, sep);
    }
  }

  /** Splitting at a separator character splits each side on its own. */
  lemma {:induction false} SplitOnConcat(a: string, sep: char, b: string)
    ensures SplitOn(a + [sep] + b, sep) == SplitOn(a, sep) + SplitOn(b, sep)
  {
    if a == [] {
      assert a + [sep] + b == [sep] + b;
      assert ([sep] + b)[1..] == b;
    } else {
      assert (a + [sep] + b)[1..] == a[1..] + [sep] + b;
      SplitOnConcat(a[1..], sep, b);
    }
  }

  /** Joining the pieces of a split with the separator gives the text back. */
  lemma {:induction false} JoinSplit(s: string, sep: char)
    ensures Join(SplitOn(s, sep), [sep]) == s
  {
    if s != [] {
      JoinSplit(s[1..], sep);
      var rest := SplitOn(s[1..], sep);
      if s[0] != sep && |rest| > 1 {
        assert ([[s[0]] + rest[0]] + rest[1..])[1..] == rest[1..];
      }
      assert [s[0]] + s[1..] == s;
    }
  }

  /** The first piece of a split ends at the first separator. */
  lemma SplitOnIndex(s: string, sep: char)
    ensures IndexOf(s, sep) == |s| ==> SplitOn(s, sep) == [s]
    ensures IndexOf(s, sep) < |s| ==>
      SplitOn(s, sep) == [s[..IndexOf(s, sep)]] + SplitOn(s[IndexOf(s, sep) + 1..], sep)
  {
    var n := IndexOf(s, sep);
    if n == |s| {
      SplitOnNoSep(s, sep);
    } else {
      assert s == s[..n] + [sep] + s[n + 1..];
      SplitOnHead(s[..n], sep, s[n + 1..]);
    }
  }

  /** The first piece of a split is the text before the first separator. */
  lemma FirstPiece(s: string, sep: char)
    ensures SplitOn(s, sep)[0] == s[..IndexOf(s, sep)]
  {
    SplitOnIndex(s, sep);
    SliceFull(s);
  }

  /** With a separator present, the second piece of a split is the first piece of the
      text after the first separator. */
  lemma SecondPiece(s: string, sep: char)
    requires IndexOf(s, sep) < |s|
    ensures |SplitOn(s, sep)| >= 2
    ensures SplitOn(s, sep)[1] == SplitOn(s[IndexOf(s, sep) + 1..], sep)[0]
  {
    SplitOnIndex(s, sep);
  }

  /** A sub-string occurring at some index is contained. */
  lemma OccursContains(s: string, sub: string, i: nat)
    requires OccursAt(s, sub, i)
    ensures Contains(s, sub)
  {
  }

  /** An occurrence of `pat` in `a + mid + b` lies inside `a` or inside `b` when no
      character of `mid` occurs in `pat`. */
  lemma NoStraddle(a: string, mid: string, b: string, pat: string)
    requires mid != [] && pat != []
    requires forall j :: 0 <= j < |mid| ==> Excludes(pat, mid[j])
    ensures Contains(a + mid + b, pat) ==> Contains(a, pat) || Contains(b, pat)
  {
    var s := a + mid + b;
    if Contains(s, pat) {
      var i :| 0 <= i <= |s| - |pat| && OccursAt(s, pat, i);
      var p := if i < |a| then |a| else i;
      var c := s[p];
      if i + |pat| <= |a| {
        assert a[i..i + |pat|] == s[i..i + |pat|];
        OccursContains(a, pat, i);
      } else if i >= |a| + |mid| {
        var k := i - |a| - |mid|;
        assert b[k..k + |pat|] == s[i..i + |pat|];
        OccursContains(b, pat, k);
      } else {
        // the occurrence would cover `mid[p - |a|]`, which `pat` excludes
        assert false;
      }
    }
  }

  // ---------------------------------------------------------------- split on whitespace

  /** Index of the first whitespace character of `s`, or `|s|`. */
  function WordEnd(s: string): (n: nat)
    ensures n <= |s|
    ensures forall i :: 0 <= i < n ==> !IsSpace(s[i])
    ensures n < |s| ==> IsSpace(s[n])
  {
    if s == [] || IsSpace(s[0]) then 0 else 1 + WordEnd(s[1..])
  }

  /** A non-empty run of non-whitespace characters. */
  predicate IsWord(w: string) {
    w != [] && forall i :: 0 <= i < |w| ==> !IsSpace(w[i])
  }

  /** `s.split()` with no argument: the maximal runs of non-whitespace, in order. */
  function Words(s: string): (r: seq<string>)
    ensures forall k :: 0 <= k < |r| ==> IsWord(r[k])
    decreases |s|
  {
    var t := LStrip(s);
    LStripParts(s);
    if t == [] then []
    else
      var n := WordEnd(t);
      assert n > 0;
      var w := t[..n];
      assert IsWord(w);
      [w] + Words(t[n..])
  }

  /** A single word splits into itself. */
  lemma WordsOfWord(w: string)
    requires IsWord(w)
    ensures Words(w) == [w]
  {
    assert LStrip(w) == w;
    assert WordEnd(w) == |w|;
    assert w[..|w|] == w;
    assert w[|w|..] == [];
  }

  /** A word followed by a space is the first piece of `split()`. */
  lemma WordsCons(w: string, rest: string)
    requires IsWord(w)
    ensures Words(w + " " + rest) == [w] + Words(rest)
  {
    var s := w + " " + rest;
    assert LStrip(s) == s;
    var n := WordEnd(s);
    assert s[|w|] == ' ';
    assert n == |w|;
    assert s[..n] == w;
    assert s[n..] == " " + rest;
    assert LStrip(" " + rest) == LStrip(rest) by {
      assert (" " + rest)[1..] == rest;
    }
  }

  // ---------------------------------------------------------------- replace

  /** `s.replace(pat, repl)`: a left-to-right scan replacing non-overlapping occurrences. */
  function ReplaceAll(s: string, pat: string, repl: string): string
    requires pat != []
    decreases |s|
  {
    if |s| < |pat| then s
    else if s[..|pat|] == pat then repl + ReplaceAll(s[|pat|..], pat, repl)
    else [s[0]] + ReplaceAll(s[1..], pat, repl)
  }

  /** `s.replace(pat, "")`. */
  function RemoveAll(s: string, pat: string): string
    requires pat != []
  {
    ReplaceAll(s, pat, "")
  }

  /** An occurrence at the front is replaced and the scan goes on after it. */
  lemma ReplaceFront(s: string, pat: string, repl: string)
    requires pat != [] && StartsWith(s, pat)
    ensures ReplaceAll(s, pat, repl) == repl + ReplaceAll(s[|pat|..], pat, repl)
  {
  }

  /** A string does not start with a prefix it differs from at some index. */
  lemma DiffersAt(s: string, prefix: string, i: nat)
    requires i < |s| && i < |prefix| && s[i] != prefix[i]
    ensures !StartsWith(s, prefix)
  {
  }

  /** A first character that does not start an occurrence is kept. */
  lemma ReplaceKeep(s: string, pat: string, repl: string)
    requires pat != [] && s != [] && !StartsWith(s, pat)
    ensures ReplaceAll(s, pat, repl) == [s[0]] + ReplaceAll(s[1..], pat, repl)
  {
  }

  /** Dropping the first character keeps the positions free of occurrences free. */
  lemma NoOccurrenceShift(a: string, b: string, pat: string)
    requires a != []
    requires forall i :: 0 <= i < |a| ==> !OccursAt(a + b, pat, i)
    ensures forall i :: 0 <= i < |a| - 1 ==> !OccursAt(a[1..] + b, pat, i)
  {
    var s := a + b;
    assert s[1..] == a[1..] + b;
    forall i | 0 <= i < |a| - 1
      ensures !OccursAt(a[1..] + b, pat, i)
    {
      assert !OccursAt(s, pat, i + 1);
      if i + |pat| <= |s[1..]| {
        assert s[1..][i..i + |pat|] == s[i + 1..i + 1 + |pat|];
      }
    }
  }

  /** A front part in which no occurrence starts is kept as it is. */
  lemma {:induction false} ReplaceAfter(a: string, b: string, pat: string, repl: string)
    requires pat != []
    requires forall i :: 0 <= i < |a| ==> !OccursAt(a + b, pat, i)
    ensures ReplaceAll(a + b, pat, repl) == a + ReplaceAll(b, pat, repl)
    decreases |a|
  {
    if a == [] {
      assert a + b == b;
    } else {
      var s := a + b;
      assert !OccursAt(s, pat, 0);
      assert s[1..] == a[1..] + b;
      NoOccurrenceShift(a, b, pat);
      ReplaceAfter(a[1..], b, pat, repl);
      if |s| >= |pat| {
        assert s[..|pat|] == s[0..|pat|];
        ReplaceKeep(s, pat, repl);
      } else {
        assert ReplaceAll(b, pat, repl) == b;
      }
      assert [s[0]] + (a[1..] + ReplaceAll(b, pat, repl)) == a + ReplaceAll(b, pat, repl);
    }
  }

  /** A string without the pattern is left as it is. */
  lemma {:induction false} ReplaceAbsent(s: string, pat: string, repl: string)
    requires pat != []
    requires !Contains(s, pat)
    ensures ReplaceAll(s, pat, repl) == s
  {
    if |s| >= |pat| {
      assert !OccursAt(s, pat, 0);
      forall i | 0 <= i <= |s| - 1 - |pat|
        ensures !OccursAt(s[1..], pat, i)
      {
        assert !OccursAt(s, pat, i + 1);
        assert s[1..][i..i + |pat|] == s[i + 1..i + 1 + |pat|];
      }
      ReplaceAbsent(s[1..], pat, repl);
      assert [s[0]] + s[1..] == s;
    }
  }

  /** Replacing never brings in a character that neither the text nor the replacement has. */
  lemma {:induction false} ReplaceExcludes(s: string, pat: string, repl: string, d: char)
    requires pat != [] && Excludes(s, d) && Excludes(repl, d)
    ensures Excludes(ReplaceAll(s, pat, repl), d)
    decreases |s|
  {
    if |s| >= |pat| {
      if s[..|pat|] == pat {
        ReplaceExcludes(s[|pat|..], pat, repl, d);
      } else {
        ReplaceExcludes(s[1..], pat, repl, d);
      }
    }
  }

  /** Removing a one-character pattern leaves none of that character. */
  lemma {:induction false} RemoveCharExcludes(s: string, c: char)
    ensures Excludes(RemoveAll(s, [c]), c)
    decreases |s|
  {
    if |s| >= 1 {
      RemoveCharExcludes(s[1..], c);
      assert s[..1] == [s[0]];
    }
  }

  /** Stripping keeps a character out. */
  lemma StripExcludes(s: string, d: char)
    requires Excludes(s, d)
    ensures Excludes(Strip(s), d)
  {
    StripParts(s);
  }

  // ---------------------------------------------------------------- str.splitlines()

  /** The line boundaries of `str.splitlines()`. */
  predicate IsLineBreak(c: char) {
    var n := c as int;
    (0x0a <= n <= 0x0d) || (0x1c <= n <= 0x1e) || n == 0x85 || n == 0x2028 || n == 0x2029
  }

  function LineEnd(s: string): (n: nat)
    ensures n <= |s|
    ensures forall i :: 0 <= i < n ==> !IsLineBreak(s[i])
    ensures n < |s| ==> IsLineBreak(s[n])
  {
    if s == [] || IsLineBreak(s[0]) then 0 else 1 + LineEnd(s[1..])
  }

  /** `s.splitlines()`: lines without their boundaries, `\r\n` counting as one boundary,
      and no trailing empty line. */
  function SplitLines(s: string): (r: seq<string>)
    ensures forall k :: 0 <= k < |r| ==> forall i :: 0 <= i < |r[k]| ==> !IsLineBreak(r[k][i])
    decreases |s|
  {
    if s == [] then []
    else
      var n := LineEnd(s);
      if n == |s| then [s]
      else
        var w := if s[n] == '\r' && n + 1 < |s| && s[n + 1] == '\n' then 2 else 1;
        [s[..n]] + SplitLines(s[n + w..])
  }

  // ---------------------------------------------------------------- os.path.splitext

  predicate OnlyDots(s: string) {
    forall i :: 0 <= i < |s| ==> s[i] == '.'
  }

  /** POSIX `os.path.splitext(p)`: the extension starts at the last `.` of the last path
      segment, unless everything before that dot in the segment is dots. */
  function SplitExt(p: string): (r: (string, string))
  {
    var sep := LastIndexOf(p, '/');
    var dot := LastIndexOf(p, '.');
    if dot > sep && !OnlyDots(p[sep + 1..dot]) then (p[..dot], p[dot..]) else (p, "")
  }

  /** A suffix past the last `c` holds no `c`. */
  lemma ExcludesAfter(s: string, c: char, n: int, from: nat)
    requires -1 <= n < from <= |s|
    requires forall i :: n < i < |s| ==> s[i] != c
    ensures Excludes(s[from..], c)
  {
    forall i | 0 <= i < |s| - from ensures s[from..][i] != c {
      assert s[from..][i] == s[from + i];
    }
  }

  /** The two parts of `splitext` put back together give the path, and a non-empty
      extension is one dot followed by neither `/` nor `.`. */
  lemma SplitExtParts(p: string)
    ensures SplitExt(p).0 + SplitExt(p).1 == p
    ensures var ext := SplitExt(p).1;
      ext == [] || (ext[0] == '.' && Excludes(ext, '/') && Excludes(ext[1..], '.'))
  {
    var sep := LastIndexOf(p, '/');
    var dot := LastIndexOf(p, '.');
    if dot > sep && !OnlyDots(p[sep + 1..dot]) {
      var ext := p[dot..];
      assert p[..dot] + ext == p;
      ExcludesAfter(p, '/', sep, dot);
      ExcludesAfter(p, '.', dot, dot + 1);
      assert ext[1..] == p[dot + 1..];
    }
  }

  // ---------------------------------------------------------------- numbers

  function DigitChar(d: nat): (c: char)
    requires d < 10
    ensures IsDigit(c) && (c as int) - ('0' as int) == d
  {
    (('0' as int) + d) as char
  }

  /** `str(n)` for a non-negative integer. */
  function NatToString(n: nat): (r: string)
    ensures r != [] && AllDigits(r)
    ensures |r| > 1 ==> r[0] != '0'
  {
    if n < 10 then [DigitChar(n)] else NatToString(n / 10) + [DigitChar(n % 10)]
  }

  /** `str(i)` for any integer. */
  function IntToString(i: int): string
  {
    if i < 0 then "-" + NatToString(-i) else NatToString(i)
  }

  /** `int(s)` for a non-empty run of ASCII digits; leading zeros are allowed. */
  function DigitsValue(s: string): nat
    requires AllDigits(s)
  {
    if s == [] then 0 else 10 * DigitsValue(s[..|s| - 1]) + ((s[|s| - 1] as int) - ('0' as int))
  }

  lemma {:induction false} DigitsValueOfNatToString(n: nat)
    ensures DigitsValue(NatToString(n)) == n
  {
    if n >= 10 {
      var r := NatToString(n);
      assert r[..|r| - 1] == NatToString(n / 10);
      DigitsValueOfNatToString(n / 10);
    }
  }

  /** Two decimal renderings are equal only for equal numbers. */
  lemma NatToStringInjective(m: nat, n: nat)
    requires NatToString(m) == NatToString(n)
    ensures m == n
  {
    DigitsValueOfNatToString(m);
    DigitsValueOfNatToString(n);
  }

  // ---------------------------------------------------------------- search

  /** Index of the first `c` in `s`, as `str.find`, or `|s|` when there is none. */
  function IndexOf(s: string, c: char): (n: nat)
    ensures n <= |s|
    ensures forall i :: 0 <= i < n ==> s[i] != c
    ensures n < |s| ==> s[n] == c
  {
    if s == [] || s[0] == c then 0 else 1 + IndexOf(s[1..], c)
  }

  /** Past a text without `c`, the first `c` is found where it is in the rest. */
  lemma {:induction false} IndexOfPast(a: string, b: string, c: char)
    requires Excludes(a, c)
    ensures IndexOf(a + b, c) == |a| + IndexOf(b, c)
  {
    if a != [] {
      assert (a + b)[1..] == a[1..] + b;
      IndexOfPast(a[1..], b, c);
    } else {
      assert a + b == b;
    }
  }

  /** Index of the last `c` in `s`, as `str.rfind`, or -1. */
  function LastIndexOf(s: string, c: char): (n: int)
    ensures -1 <= n < |s|
    ensures forall i :: n < i < |s| ==> s[i] != c
    ensures n >= 0 ==> s[n] == c
  {
    if s == [] then -1
    else if s[|s| - 1] == c then |s| - 1
    else LastIndexOf(s[..|s| - 1], c)
  }
}
