/** The chunker reads back exactly what the vectorisation extractor writes: every page of a
    document becomes one entry `PAGE_<n>` holding the page's cleaned text, in page order,
    and the chunks are those of that document. */
module MarkerRoundTrip {
  import opened Wrappers
  import opened Strings
  import E = ExtractionEngine
  import C = Chunker

  // ---------------------------------------------------------------- splitting the joined text

  /** Every part split on `sep`, the pieces concatenated in order. */
  function SplitAll(parts: seq<string>, sep: char): seq<string>
  {
    if parts == [] then [] else SplitOn(parts[0], sep) + SplitAll(parts[1..], sep)
  }

  lemma {:induction false} SplitAllConcat(a: seq<string>, b: seq<string>, sep: char)
    ensures SplitAll(a + b, sep) == SplitAll(a, sep) + SplitAll(b, sep)
  {
    if a == [] {
      assert a + b == b;
    } else {
      assert (a + b)[0] == a[0] && (a + b)[1..] == a[1..] + b;
      SplitAllConcat(a[1..], b, sep);
    }
  }

  /** Splitting a join on its one-character separator splits every part on its own. */
  lemma {:induction false} SplitOnJoin(parts: seq<string>, sep: char)
    requires |parts| >= 1
    ensures SplitOn(Join(parts, [sep]), sep) == SplitAll(parts, sep)
  {
    if |parts| == 1 {
      assert parts[1..] == [];
    } else {
      SplitOnJoin(parts[1..], sep);
      SplitOnConcat(parts[0], sep, Join(parts[1..], [sep]));
    }
  }

  // ---------------------------------------------------------------- what each marker line is

  /** A document name the header and footer lines carry through unchanged. */
  predicate ReadableName(name: string) {
    Excludes(name, '<') && Excludes(name, '>') && Excludes(name, '\n')
    && !Contains(name, "CONTENTS STARTS HERE")
  }

  /** A page whose cleaned text has no line that the chunker would take for a marker. */
  predicate PlainPage(text: string) {
    var lines := SplitOn(E.CleanPage(text), '\n');
    forall k :: 0 <= k < |lines| ==> !C.IsMarker(lines[k])
  }

  /** No window of `s` starts with the first character of `pat`. */
  lemma NotContainsByFirst(s: string, pat: string)
    requires pat != []
    requires forall i :: 0 <= i <= |s| - |pat| ==> s[i] != pat[0]
    ensures !Contains(s, pat)
  {
    forall i | 0 <= i <= |s| - |pat|
      ensures !OccursAt(s, pat, i)
    {
      assert s[i..i + |pat|][0] == s[i];
    }
  }

  lemma DigitsNoNewline(d: string)
    requires d != [] && AllDigits(d)
    ensures Excludes(d, '\n')
    ensures IsWord(d)
    ensures forall j :: 0 <= j < |d| ==> Excludes("STARTS HERE", d[j])
  {
  }

  /** The header opens a document and the chunker reads the name back from it. */
  lemma HeaderLine(name: string)
    requires ReadableName(name)
    ensures Excludes(E.Header(name), '\n')
    ensures C.IsDocStart(E.Header(name))
    ensures C.HeaderName(E.Header(name)) == Ok(name)
  {
    HeaderIsStart(name);
    HeaderNameOf(name);
  }

  lemma HeaderIsStart(name: string)
    ensures C.IsDocStart(E.Header(name))
  {
    var m := " <" + name + "> ";
    assert E.Header(name) == "DOCUMENT" + m + "CONTENTS STARTS HERE";
    HeadTail("DOCUMENT", m, "CONTENTS STARTS HERE");
  }

  /** The name between the header's brackets is read back. */
  lemma HeaderNameOf(name: string)
    requires ReadableName(name)
    ensures C.HeaderName(E.Header(name)) == Ok(name)
  {
    var b := "> CONTENTS STARTS HERE";
    assert E.Header(name) == "DOCUMENT " + ("<" + (name + b));
    NameBetween("DOCUMENT ", name, b);
  }

  /** The name read from `a<name>...` is `name`, when `a` has no `<` and the name has
      neither bracket. */
  lemma NameBetween(a: string, name: string, b: string)
    requires Excludes(a, '<') && Excludes(name, '<') && Excludes(name, '>')
    requires b != [] && b[0] == '>'
    ensures C.HeaderName(a + ("<" + (name + b))) == Ok(name)
  {
    var line := a + ("<" + (name + b));
    var rest := name + b;
    IndexOfPast(a, "<" + rest, '<');
    C.HeaderNameParts(line);
    ConcatDrop(a, "<" + rest, |a| + 1);
    ConcatParts("<", rest);
    ConcatParts(name, b);
    var found := C.HeaderName(line).value;
    StopAt(rest, |found|);
    StopAt(rest, |name|);
  }

  /** Whether `c` ends a header name. */
  predicate IsStop(c: char) {
    c == '<' || c == '>'
  }

  /** Index of the first `<` or `>` of `s`, or `|s|`. */
  function StopIndex(s: string): (n: nat)
    ensures n <= |s|
  {
    if s == [] || IsStop(s[0]) then 0 else 1 + StopIndex(s[1..])
  }

  /** An index with no stop before it and a stop (or the end) at it is the stop index. */
  lemma {:induction false} StopAt(s: string, n: nat)
    requires n <= |s|
    requires forall k :: 0 <= k < n ==> !IsStop(s[k])
    requires n == |s| || IsStop(s[n])
    ensures StopIndex(s) == n
  {
    if n > 0 {
      assert !IsStop(s[0]);
      StopAt(s[1..], n - 1);
    }
  }

  /** A page start line is taken for a page start. */
  lemma PageStartLine(n: nat)
    ensures Excludes(E.PageStart(n), '\n')
    ensures !C.IsDocStart(E.PageStart(n))
    ensures C.IsPageStart(E.PageStart(n))
  {
    var d := NatToString(n);
    DigitsNoNewline(d);
    var s := E.PageStart(n);
    assert s[0] == 'P';
    assert s[..11] == "PAGE NUMBER";
    var at := 13 + |d|;
    assert s[at..at + 11] == "STARTS HERE";
    OccursContains(s, "STARTS HERE", at);
  }

  /** The third word of `a b c rest` is `c`. */
  lemma ThirdWord(s: string, a: string, b: string, c: string, rest: string)
    requires IsWord(a) && IsWord(b) && IsWord(c)
    requires s == a + " " + (b + " " + (c + " " + rest))
    ensures |Words(s)| >= 3 && Words(s)[2] == c
  {
    WordsCons(a, b + " " + (c + " " + rest));
    WordsCons(b, c + " " + rest);
    WordsCons(c, rest);
  }

  /** The third word of a page start line is the page number, so it opens `PAGE_<n>`. */
  lemma PageStartKey(n: nat)
    ensures C.PageKey(E.PageStart(n)) == Ok("PAGE_" + NatToString(n))
  {
    var d := NatToString(n);
    DigitsNoNewline(d);
    assert IsWord("PAGE") && IsWord("NUMBER");
    assert "PAGE NUMBER " == ("PAGE" + " ") + ("NUMBER" + " ");
    assert " STARTS HERE" == " " + "STARTS HERE";
    WordsRegroup("PAGE", " ", "NUMBER", d, "STARTS HERE");
    ThirdWord(E.PageStart(n), "PAGE", "NUMBER", d, "STARTS HERE");
  }

  /** Three words and a rest, each followed by the same separator, regroup to the right. */
  lemma WordsRegroup<T>(a: seq<T>, sp: seq<T>, b: seq<T>, c: seq<T>, rest: seq<T>)
    ensures ((a + sp) + (b + sp)) + c + (sp + rest) == a + sp + (b + sp + (c + sp + rest))
  {
  }

  /** A page end line is taken for nothing but a page end. */
  lemma PageEndLine(n: nat)
    ensures Excludes(E.PageEnd(n), '\n')
    ensures !C.IsDocStart(E.PageEnd(n)) && !C.IsPageStart(E.PageEnd(n))
    ensures C.IsPageEnd(E.PageEnd(n))
  {
    var d := NatToString(n);
    DigitsNoNewline(d);
    var s := E.PageEnd(n);
    assert s[0] == 'P';
    assert s[..11] == "PAGE NUMBER";
    var at := 13 + |d|;
    assert s[at..at + 9] == "ENDS HERE";
    OccursContains(s, "ENDS HERE", at);
    assert s == "PAGE NUMBER " + d + " ENDS HERE";
    NoStraddle("PAGE NUMBER ", d, " ENDS HERE", "STARTS HERE");
    NotContainsByFirst("PAGE NUMBER ", "STARTS HERE");
  }

  /** The footer is taken for nothing but a document end. */
  lemma FooterLine(name: string)
    requires ReadableName(name)
    ensures Excludes(E.Footer(name), '\n')
    ensures !C.IsDocStart(E.Footer(name)) && !C.IsPageStart(E.Footer(name)) && !C.IsPageEnd(E.Footer(name))
    ensures C.IsDocEnd(E.Footer(name))
  {
    FooterEnds(name);
    FooterNoStart(name);
    FooterNotPage(name);
  }

  lemma FooterEnds(name: string)
    requires ReadableName(name)
    ensures Excludes(E.Footer(name), '\n')
    ensures C.IsDocEnd(E.Footer(name))
  {
    FooterIsEnd(name);
  }

  lemma FooterIsEnd(name: string)
    ensures C.IsDocEnd(E.Footer(name))
  {
    var m := " <" + name + "> ";
    assert E.Footer(name) == "DOCUMENT" + m + "CONTENTS ENDS HERE";
    HeadTail("DOCUMENT", m, "CONTENTS ENDS HERE");
  }

  /** `a + m + t` starts with `a` and contains `t`. */
  lemma HeadTail(a: string, m: string, t: string)
    ensures StartsWith(a + m + t, a) && Contains(a + m + t, t)
  {
    var s := a + m + t;
    assert s[..|a|] == a;
    assert s[|a| + |m|..|s|] == t;
    OccursContains(s, t, |a| + |m|);
  }

  lemma FooterNotPage(name: string)
    ensures !C.IsPageStart(E.Footer(name)) && !C.IsPageEnd(E.Footer(name))
  {
    assert E.Footer(name)[0] == 'D';
  }

  lemma FooterNoStart(name: string)
    requires ReadableName(name)
    ensures !C.IsDocStart(E.Footer(name))
  {
    var s := E.Footer(name);
    var pat := "CONTENTS STARTS HERE";
    var b := name + ">" + " CONTENTS ENDS HERE";
    assert s == "DOCUMENT " + "<" + b;
    NoStraddle("DOCUMENT ", "<", b, pat);
    NoStraddle(name, ">", " CONTENTS ENDS HERE", pat);
  }

  // ---------------------------------------------------------------- the lines and the pages

  /** The lines the chunker sees for the pages: each page's start marker, the lines of its
      cleaned text and its end marker. */
  function PageLines(pages: seq<string>): seq<string>
  {
    if pages == [] then []
    else
      var n := |pages|;
      PageLines(pages[..n - 1]) + ([E.PageStart(n)] + (SplitOn(E.CleanPage(pages[n - 1]), '\n') + [E.PageEnd(n)]))
  }

  lemma SplitAllBlock(a: string, b: string, c: string, sep: char)
    requires Excludes(a, sep) && Excludes(c, sep)
    ensures SplitAll([a, b, c], sep) == [a] + (SplitOn(b, sep) + [c])
  {
    SplitOnNoSep(a, sep);
    SplitOnNoSep(c, sep);
    assert [c][1..] == [];
    assert SplitAll([c], sep) == [c];
    assert [b, c][1..] == [c];
    assert SplitAll([b, c], sep) == SplitOn(b, sep) + [c];
    assert [a, b, c][1..] == [b, c];
  }

  lemma {:induction false} BlockLines(pages: seq<string>)
    ensures SplitAll(E.PageBlocks(pages), '\n') == PageLines(pages)
  {
    if pages != [] {
      var n := |pages|;
      var clean := E.CleanPage(pages[n - 1]);
      BlockLines(pages[..n - 1]);
      SplitAllConcat(E.PageBlocks(pages[..n - 1]), [E.PageStart(n), clean, E.PageEnd(n)], '\n');
      PageStartLine(n);
      PageEndLine(n);
      SplitAllBlock(E.PageStart(n), clean, E.PageEnd(n), '\n');
    }
  }

  /** The page dictionary the chunker builds: page `n` under `PAGE_<n>`, in page order. */
  function NumberedPages(pages: seq<string>): (d: C.PageMap)
    ensures |d| == |pages|
    ensures forall i :: 0 <= i < |d| ==> d[i] == ("PAGE_" + NatToString(i + 1), E.CleanPage(pages[i]))
  {
    if pages == [] then []
    else
      var n := |pages|;
      var init := pages[..n - 1];
      var d := NumberedPages(init) + [("PAGE_" + NatToString(n), E.CleanPage(pages[n - 1]))];
      assert forall i :: 0 <= i < n - 1 ==> pages[i] == init[i];
      d
  }

  /** The key of a new page is not among the keys of the pages before it. */
  lemma FreshKey(pages: seq<string>)
    requires pages != []
    ensures "PAGE_" + NatToString(|pages|) !in C.Keys(NumberedPages(pages[..|pages| - 1]))
  {
    var n := |pages|;
    var keys := C.Keys(NumberedPages(pages[..n - 1]));
    if "PAGE_" + NatToString(n) in keys {
      var i :| 0 <= i < |keys| && keys[i] == "PAGE_" + NatToString(n);
      assert ("PAGE_" + NatToString(i + 1))[5..] == NatToString(i + 1);
      assert ("PAGE_" + NatToString(n))[5..] == NatToString(n);
      NatToStringInjective(i + 1, n);
    }
  }

  /** The last page's lines, which the chunker still holds after its end marker. */
  function Leftover(pages: seq<string>): seq<string>
  {
    if pages == [] then [] else SplitOn(E.CleanPage(pages[|pages| - 1]), '\n')
  }

  /** Inside a document, the page lines fill the dictionary with the numbered pages and
      emit nothing. */
  lemma {:induction false} PagesRun(name: string, pages: seq<string>, split: C.Splitter)
    requires forall k :: 0 <= k < |pages| ==> PlainPage(pages[k])
    ensures C.Run(C.ChunkState(None, [], Some(name), [], []), PageLines(pages), split)
         == Ok(C.ChunkState(None, Leftover(pages), Some(name), NumberedPages(pages), []))
  {
    if pages != [] {
      var n := |pages|;
      var init := pages[..n - 1];
      var st := C.ChunkState(None, [], Some(name), [], []);
      assert forall k :: 0 <= k < |init| ==> init[k] == pages[k];
      PagesRun(name, init, split);
      C.RunConcat(st, PageLines(init), PageTail(pages), split);
      OnePage(name, pages, split);
    }
  }

  /** The lines of the last page: its start marker, its text's lines, its end marker. */
  function PageTail(pages: seq<string>): seq<string>
    requires pages != []
  {
    var n := |pages|;
    [E.PageStart(n)] + (SplitOn(E.CleanPage(pages[n - 1]), '\n') + [E.PageEnd(n)])
  }

  /** The lines of the last page add it to the dictionary under its key. */
  lemma OnePage(name: string, pages: seq<string>, split: C.Splitter)
    requires pages != [] && PlainPage(pages[|pages| - 1])
    ensures var init := pages[..|pages| - 1];
      C.Run(C.ChunkState(None, Leftover(init), Some(name), NumberedPages(init), []), PageTail(pages), split)
      == Ok(C.ChunkState(None, Leftover(pages), Some(name), NumberedPages(pages), []))
  {
    var n := |pages|;
    var init := pages[..n - 1];
    var mid := C.ChunkState(None, Leftover(init), Some(name), NumberedPages(init), []);
    var body := SplitOn(E.CleanPage(pages[n - 1]), '\n');
    var started := mid.(page := Some("PAGE_" + NatToString(n)), text := []);
    PageStartStep(mid, n, split);
    RunCons(mid, E.PageStart(n), body + [E.PageEnd(n)], split);
    C.RunConcat(started, body, [E.PageEnd(n)], split);
    C.PlainLines(started, body, split);
    assert [] + body == body;
    PageEndStep(name, started.(text := body), pages, split);
  }

  /** Running over a first line and the rest is a step and a run. */
  lemma RunCons(st: C.ChunkState, line: string, rest: seq<string>, split: C.Splitter)
    requires C.Step(st, line, split).Ok?
    ensures C.Run(st, [line] + rest, split) == C.Run(C.Step(st, line, split).value, rest, split)
  {
    assert ([line] + rest)[0] == line && ([line] + rest)[1..] == rest;
  }

  /** A page start marker opens the page under its key, with no page open before. */
  lemma PageStartStep(st: C.ChunkState, n: nat, split: C.Splitter)
    requires st.page.None?
    ensures C.Step(st, E.PageStart(n), split) == Ok(st.(page := Some("PAGE_" + NatToString(n)), text := []))
  {
    PageStartLine(n);
    PageStartKey(n);
  }

  /** The page end marker stores the open page's text under its fresh key. */
  lemma PageEndStep(name: string, filled: C.ChunkState, pages: seq<string>, split: C.Splitter)
    requires pages != []
    requires var n := |pages|;
      filled == C.ChunkState(Some("PAGE_" + NatToString(n)), SplitOn(E.CleanPage(pages[n - 1]), '\n'), Some(name),
                             NumberedPages(pages[..n - 1]), [])
    ensures C.Run(filled, [E.PageEnd(|pages|)], split)
         == Ok(C.ChunkState(None, Leftover(pages), Some(name), NumberedPages(pages), []))
  {
    var n := |pages|;
    PageEndLine(n);
    PageFlush(name, filled, pages);
    RunCons(filled, E.PageEnd(n), [], split);
    assert [E.PageEnd(n)] + [] == [E.PageEnd(n)];
  }

  /** Closing the last page's text adds it to the dictionary under its fresh key. */
  lemma PageFlush(name: string, filled: C.ChunkState, pages: seq<string>)
    requires pages != []
    requires var n := |pages|;
      filled == C.ChunkState(Some("PAGE_" + NatToString(n)), SplitOn(E.CleanPage(pages[n - 1]), '\n'), Some(name),
                             NumberedPages(pages[..n - 1]), [])
    ensures C.Flush(filled) == NumberedPages(pages)
  {
    var n := |pages|;
    JoinSplit(E.CleanPage(pages[n - 1]), '\n');
    FreshKey(pages);
  }

  /** The lines the chunker sees: the header, the page lines, the footer. */
  lemma TextLines(name: string, pages: seq<string>)
    requires ReadableName(name)
    ensures SplitOn(Join(E.VectorisationLines(name, pages), "\n"), '\n')
         == [E.Header(name)] + (PageLines(pages) + [E.Footer(name)])
  {
    var header := E.Header(name);
    var footer := E.Footer(name);
    var blocks := E.PageBlocks(pages);
    SplitOnJoin(E.VectorisationLines(name, pages), '\n');
    SplitAllConcat([header] + blocks, [footer], '\n');
    SplitAllConcat([header], blocks, '\n');
    HeaderLine(name);
    FooterLine(name);
    SplitAllOne(header, '\n');
    SplitAllOne(footer, '\n');
    BlockLines(pages);
    ConcatAssoc([header], PageLines(pages), [footer]);
  }

  /** A part without the separator splits into itself. */
  lemma SplitAllOne(x: string, sep: char)
    requires Excludes(x, sep)
    ensures SplitAll([x], sep) == [x]
  {
    SplitOnNoSep(x, sep);
    assert [x][1..] == [];
  }

  /** The round trip: the chunker, given the extractor's text for one document, builds the
      dictionary of its numbered, cleaned pages and emits exactly that document's chunks;
      a document with an empty name emits nothing. */
  lemma RoundTrip(name: string, pages: seq<string>, split: C.Splitter)
    requires ReadableName(name)
    requires forall k :: 0 <= k < |pages| ==> PlainPage(pages[k])
    ensures C.MarkedChunks(Join(E.VectorisationLines(name, pages), "\n"), split)
         == Ok(if name == [] then [] else C.Finalized(name, NumberedPages(pages), split))
  {
    var footer := E.Footer(name);
    TextLines(name, pages);
    HeaderStep(name, PageLines(pages) + [footer], split);
    var st := C.ChunkState(None, [], Some(name), [], []);
    C.RunConcat(st, PageLines(pages), [footer], split);
    PagesRun(name, pages, split);
    FooterStep(name, Leftover(pages), NumberedPages(pages), split);
  }

  /** The header opens the document with nothing emitted. */
  lemma HeaderStep(name: string, rest: seq<string>, split: C.Splitter)
    requires ReadableName(name)
    ensures C.Run(C.Init, [E.Header(name)] + rest, split)
         == C.Run(C.ChunkState(None, [], Some(name), [], []), rest, split)
  {
    HeaderLine(name);
    var lines := [E.Header(name)] + rest;
    assert lines[0] == E.Header(name) && lines[1..] == rest;
    assert C.Step(C.Init, E.Header(name), split) == Ok(C.ChunkState(None, [], Some(name), [], []));
  }

  /** The footer finalises the document when its name is not empty and resets the state. */
  lemma FooterStep(name: string, text: seq<string>, pages: C.PageMap, split: C.Splitter)
    requires ReadableName(name)
    ensures var out := if name == [] then [] else C.Finalized(name, pages, split);
      C.Run(C.ChunkState(None, text, Some(name), pages, []), [E.Footer(name)], split)
      == Ok(C.ChunkState(None, [], None, [], out))
  {
    FooterLine(name);
    assert [E.Footer(name)][1..] == [];
    assert [] + C.Finalized(name, pages, split) == C.Finalized(name, pages, split);
  }
}
