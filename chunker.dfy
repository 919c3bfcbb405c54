/** The chunker: a line-driven state machine that groups the vectorisation text back into
    documents and pages, and the marker format of the chunks it emits. The text splitter is
    a parameter and stays uninterpreted. */
module Chunker {
  import opened Wrappers
  import opened Strings

  // ---------------------------------------------------------------- the page dictionary

  /** The `pdf_extracted_text` dictionary: page keys with their texts, in insertion order. */
  type PageMap = seq<(string, string)>

  function Keys(d: PageMap): (ks: seq<string>)
    ensures |ks| == |d| && forall i :: 0 <= i < |d| ==> ks[i] == d[i].0
  {
    seq(|d|, i requires 0 <= i < |d| => d[i].0)
  }

  predicate DistinctKeys(d: PageMap) {
    forall i, j :: 0 <= i < j < |d| ==> d[i].0 != d[j].0
  }

  /** `d[k] = v`: a key already present keeps its position and gets the new text, every
      other entry is unchanged, and a new key goes last. */
  function Assign(d: PageMap, k: string, v: string): (r: PageMap)
    ensures Keys(r) == if k in Keys(d) then Keys(d) else Keys(d) + [k]
    ensures forall i :: 0 <= i < |d| ==> r[i].1 == if d[i].0 == k then v else d[i].1
    ensures k !in Keys(d) ==> r == d + [(k, v)]
    ensures DistinctKeys(d) ==> DistinctKeys(r)
  {
    if k in Keys(d) then
      var r := seq(|d|, i requires 0 <= i < |d| => if d[i].0 == k then (k, v) else d[i]);
      assert Keys(r) == Keys(d);
      r
    else
      var r := d + [(k, v)];
      assert Keys(r) == Keys(d) + [k];
      r
  }

  // ---------------------------------------------------------------- finalize_document_chunks

  /** The splitter, left uninterpreted. */
  type Splitter = string -> seq<string>

  /** The marked chunk for one piece of a page. */
  function Marker(name: string, total: nat, page: string, piece: string): string
  {
    "Document_Name " + name + ", Total_Pages " + NatToString(total) + ", " + page + "\n--" + piece + "=="
  }

  function PageChunks(name: string, total: nat, page: string, pieces: seq<string>): seq<string>
  {
    seq(|pieces|, j requires 0 <= j < |pieces| => Marker(name, total, page, pieces[j]))
  }

  /** The chunks of the given pages, every marker naming `total` pages. */
  function ChunksOf(name: string, total: nat, pages: PageMap, split: Splitter): seq<string>
  {
    if pages == [] then []
    else
      var last := pages[|pages| - 1];
      ChunksOf(name, total, pages[..|pages| - 1], split) + PageChunks(name, total, last.0, split(last.1))
  }

  /** What `finalize_document_chunks` returns for a document. */
  function Finalized(name: string, pages: PageMap, split: Splitter): seq<string>
  {
    ChunksOf(name, |pages|, pages, split)
  }

  /** Pages keep their order: the chunks of two runs of pages are the chunks of the first
      followed by the chunks of the second. */
  lemma {:induction false} ChunksOfConcat(name: string, total: nat, a: PageMap, b: PageMap, split: Splitter)
    ensures ChunksOf(name, total, a + b, split) == ChunksOf(name, total, a, split) + ChunksOf(name, total, b, split)
    decreases |b|
  {
    if b == [] {
      assert a + b == a;
    } else {
      var b0 := b[..|b| - 1];
      var last := b[|b| - 1];
      ConcatInit(a, b);
      ChunksOfConcat(name, total, a, b0, split);
      ConcatAssoc(ChunksOf(name, total, a, split), ChunksOf(name, total, b0, split),
                  PageChunks(name, total, last.0, split(last.1)));
    }
  }

  /** Piece `j` of page `k` is the marker of that piece, that page's key, the document's
      name and the number of pages, and it comes after the chunks of the pages before. */
  lemma ChunkAt(name: string, pages: PageMap, split: Splitter, k: nat, j: nat)
    requires k < |pages| && j < |split(pages[k].1)|
    ensures var chunks := Finalized(name, pages, split);
      var at := |ChunksOf(name, |pages|, pages[..k], split)| + j;
      at < |chunks| && chunks[at] == Marker(name, |pages|, pages[k].0, split(pages[k].1)[j])
  {
    var total := |pages|;
    assert pages == pages[..k] + ([pages[k]] + pages[k + 1..]);
    ChunksOfConcat(name, total, pages[..k], [pages[k]] + pages[k + 1..], split);
    ChunksOfConcat(name, total, [pages[k]], pages[k + 1..], split);
    assert [pages[k]][..0] == [];
  }

  /** The nested loop of `finalize_document_chunks`. */
  method FinalizeDocumentChunks(name: string, pages: PageMap, split: Splitter) returns (marked: seq<string>)
    ensures marked == Finalized(name, pages, split)
  {
    marked := [];
    var i := 0;
    while i < |pages|
      invariant 0 <= i <= |pages|
      invariant marked == ChunksOf(name, |pages|, pages[..i], split)
    {
      var (page, text) := pages[i];
      var chunks := split(text);
      var j := 0;
      while j < |chunks|
        invariant 0 <= j <= |chunks|
        invariant marked == ChunksOf(name, |pages|, pages[..i], split) + PageChunks(name, |pages|, page, chunks[..j])
      {
        marked := marked + [Marker(name, |pages|, page, chunks[j])];
        j := j + 1;
      }
      assert chunks[..j] == chunks;
      assert pages[..i + 1][..i] == pages[..i];
      i := i + 1;
    }
    assert pages[..i] == pages;
  }

  // ---------------------------------------------------------------- the grouping state machine

  /** The loop's variables: the open page, the lines gathered for it, the document name,
      the page dictionary and the chunks emitted so far. */
  datatype ChunkState = ChunkState(page: Option<string>, text: seq<string>, name: Option<string>,
                                   pages: PageMap, out: seq<string>)

  const Init := ChunkState(None, [], None, [], [])

  /** The `IndexError`s the loop can raise: a document header without `<`, and a page start
      line with fewer than three words. */
  datatype ChunkError = NoNameBracket | ShortPageLine

  /** `if document_name:`: a name is set and not empty. */
  predicate Truthy(name: Option<string>) {
    name.Some? && name.value != []
  }

  predicate IsDocStart(line: string) {
    StartsWith(line, "DOCUMENT") && Contains(line, "CONTENTS STARTS HERE")
  }

  predicate IsPageStart(line: string) {
    StartsWith(line, "PAGE NUMBER") && Contains(line, "STARTS HERE")
  }

  predicate IsPageEnd(line: string) {
    StartsWith(line, "PAGE NUMBER") && Contains(line, "ENDS HERE")
  }

  predicate IsDocEnd(line: string) {
    StartsWith(line, "DOCUMENT") && Contains(line, "CONTENTS ENDS HERE")
  }

  /** A line that one of the four branches takes; every other line is page text. */
  predicate IsMarker(line: string) {
    IsDocStart(line) || IsPageStart(line) || IsPageEnd(line) || IsDocEnd(line)
  }

  /** `line.split("<")[1].split(">")[0]`; `HeaderNameParts` says what it picks out. */
  function HeaderName(line: string): Result<string, ChunkError>
  {
    var parts := SplitOn(line, '<');
    if |parts| < 2 then Err(NoNameBracket) else Ok(SplitOn(parts[1], '>')[0])
  }

  /** The header fails without a `<`; otherwise the name is the text after the first `<`
      up to the next `>` or `<`, or to the end of the line. */
  lemma HeaderNameParts(line: string)
    ensures HeaderName(line).Err? <==> IndexOf(line, '<') == |line|
    ensures HeaderName(line).Ok? ==>
      var rest := line[IndexOf(line, '<') + 1..];
      var name := HeaderName(line).value;
      && StartsWith(rest, name)
      && Excludes(name, '<') && Excludes(name, '>')
      && (|name| == |rest| || rest[|name|] == '<' || rest[|name|] == '>')
  {
    var i := IndexOf(line, '<');
    SplitOnIndex(line, '<');
    if i < |line| {
      var rest := line[i + 1..];
      SecondPiece(line, '<');
      FirstPiece(rest, '<');
      var m := IndexOf(rest, '<');
      var piece := rest[..m];
      FirstPiece(piece, '>');
      var n := IndexOf(piece, '>');
      PrefixPrefix(rest, n, m);
      assert HeaderName(line) == Ok(rest[..n]);
      if n < |piece| {
        assert rest[n] == piece[n];
      }
    }
  }

  /** `"PAGE_" + line.split()[2]`. */
  function PageKey(line: string): (r: Result<string, ChunkError>)
    ensures r.Err? <==> |Words(line)| < 3
    ensures r.Ok? ==> r.value == "PAGE_" + Words(line)[2]
  {
    var words := Words(line);
    if |words| < 3 then Err(ShortPageLine) else Ok("PAGE_" + words[2])
  }

  /** `pdf_extracted_text[current_page] = "\n".join(current_text)` when a page is open. */
  function Flush(st: ChunkState): PageMap
  {
    if st.page.Some? then Assign(st.pages, st.page.value, Join(st.text, "\n")) else st.pages
  }

  /** One pass of the loop. A new document header finalises the previous document
      only when its name is truthy, and leaves the open page as it is. */
  function Step(st: ChunkState, line: string, split: Splitter): Result<ChunkState, ChunkError>
  {
    if IsDocStart(line) then
      var st1 :=
        if Truthy(st.name) then st.(pages := [], text := [], out := st.out + Finalized(st.name.value, Flush(st), split))
        else st;
      match HeaderName(line)
      case Err(e) => Err(e)
      case Ok(name) => Ok(st1.(name := Some(name)))
    else if IsPageStart(line) then
      match PageKey(line)
      case Err(e) => Err(e)
      case Ok(key) => Ok(st.(pages := Flush(st), page := Some(key), text := []))
    else if IsPageEnd(line) then
      Ok(st.(pages := Flush(st), page := None))
    else if IsDocEnd(line) then
      var out := if Truthy(st.name) then st.out + Finalized(st.name.value, Flush(st), split) else st.out;
      Ok(ChunkState(None, [], None, [], out))
    else
      Ok(st.(text := st.text + [line]))
  }

  /** The loop over `lines`; the first error ends it. */
  function Run(st: ChunkState, lines: seq<string>, split: Splitter): Result<ChunkState, ChunkError>
    decreases |lines|
  {
    if lines == [] then Ok(st)
    else
      match Step(st, lines[0], split)
      case Err(e) => Err(e)
      case Ok(next) => Run(next, lines[1..], split)
  }

  /** After the loop: a document is finalised only if its name is truthy and a page is
      still open. */
  function Finish(st: ChunkState, split: Splitter): seq<string>
  {
    if Truthy(st.name) && st.page.Some? then st.out + Finalized(st.name.value, Flush(st), split) else st.out
  }

  /** What `create_optimized_marked_chunks` returns or raises. */
  function MarkedChunks(text: string, split: Splitter): Result<seq<string>, ChunkError>
  {
    match Run(Init, SplitOn(text, '\n'), split)
    case Err(e) => Err(e)
    case Ok(st) => Ok(Finish(st, split))
  }

  /** Running over two runs of lines is running over the first and then the second. */
  lemma {:induction false} RunConcat(st: ChunkState, a: seq<string>, b: seq<string>, split: Splitter)
    ensures Run(st, a + b, split) == match Run(st, a, split)
      case Err(e) => Err(e)
      case Ok(mid) => Run(mid, b, split)
    decreases |a|
  {
    if a == [] {
      assert a + b == b;
    } else {
      assert (a + b)[0] == a[0] && (a + b)[1..] == a[1..] + b;
      match Step(st, a[0], split)
      case Err(e) =>
      case Ok(next) => RunConcat(next, a[1..], b, split);
    }
  }

  /** Lines that are not markers are gathered as page text and change nothing else. */
  lemma {:induction false} PlainLines(st: ChunkState, lines: seq<string>, split: Splitter)
    requires forall k :: 0 <= k < |lines| ==> !IsMarker(lines[k])
    ensures Run(st, lines, split) == Ok(st.(text := st.text + lines))
    decreases |lines|
  {
    if lines == [] {
      assert st.text + lines == st.text;
    } else {
      assert !IsMarker(lines[0]);
      PlainLines(st.(text := st.text + [lines[0]]), lines[1..], split);
      assert st.text + [lines[0]] + lines[1..] == st.text + lines;
    }
  }

  /** Lines after a page's end marker are gathered but never stored: the next page start
      drops them, and the dictionary is the same as if they had not been there. */
  lemma DroppedBetweenPages(st: ChunkState, lines: seq<string>, start: string, split: Splitter)
    requires st.page.None?
    requires forall k :: 0 <= k < |lines| ==> !IsMarker(lines[k])
    requires IsPageStart(start) && !IsDocStart(start) && PageKey(start).Ok?
    ensures Run(st, lines + [start], split) == Ok(st.(page := Some(PageKey(start).value), text := []))
  {
    RunConcat(st, lines, [start], split);
    PlainLines(st, lines, split);
  }

  /** Every step keeps the page keys distinct, so `Total_Pages` counts distinct keys. */
  lemma StepKeepsDistinct(st: ChunkState, line: string, split: Splitter)
    requires DistinctKeys(st.pages)
    ensures Step(st, line, split).Ok? ==> DistinctKeys(Step(st, line, split).value.pages)
  {
  }

  /** Every step keeps the chunks already emitted and may only add after them. */
  lemma StepExtendsOut(st: ChunkState, line: string, split: Splitter)
    ensures Step(st, line, split).Ok? ==>
      var out := Step(st, line, split).value.out;
      |st.out| <= |out| && out[..|st.out|] == st.out
  {
    var out := st.out + Finalized(if st.name.Some? then st.name.value else [], Flush(st), split);
    assert out[..|st.out|] == st.out;
  }

  /** Over any run of lines the page keys stay distinct and the emitted chunks only grow:
      documents come out in input order. */
  lemma {:induction false} RunInvariant(st: ChunkState, lines: seq<string>, split: Splitter)
    requires DistinctKeys(st.pages)
    ensures Run(st, lines, split).Ok? ==>
      var last := Run(st, lines, split).value;
      && DistinctKeys(last.pages)
      && |st.out| <= |last.out| && last.out[..|st.out|] == st.out
    decreases |lines|
  {
    if lines != [] {
      StepKeepsDistinct(st, lines[0], split);
      StepExtendsOut(st, lines[0], split);
      match Step(st, lines[0], split)
      case Err(_) =>
      case Ok(next) =>
        RunInvariant(next, lines[1..], split);
        var last := Run(next, lines[1..], split);
        if last.Ok? {
          assert last.value.out[..|next.out|][..|st.out|] == last.value.out[..|st.out|];
        }
    }
  }

  /** A document whose last page was closed but whose end line never came emits nothing
      at the end of the input. */
  lemma UnclosedDocumentDropped(st: ChunkState, split: Splitter)
    requires st.page.None?
    ensures Finish(st, split) == st.out
  {
  }

  /** The loop of `create_optimized_marked_chunks`, with the dictionary reassigned or
      extended in place and the chunks accumulated; an `IndexError` ends it. */
  method CreateOptimizedMarkedChunks(extractedText: string, split: Splitter) returns (r: Result<seq<string>, ChunkError>)
    ensures r == MarkedChunks(extractedText, split)
  {
    var allDocumentsChunks: seq<string> := [];
    var lines := SplitOn(extractedText, '\n');
    var currentPage: Option<string> := None;
    var currentText: seq<string> := [];
    var documentName: Option<string> := None;
    var pdfExtractedText: PageMap := [];
    var i := 0;
    while i < |lines|
      invariant 0 <= i <= |lines|
      invariant Run(Init, lines, split) ==
        Run(ChunkState(currentPage, currentText, documentName, pdfExtractedText, allDocumentsChunks), lines[i..], split)
    {
      ghost var st := ChunkState(currentPage, currentText, documentName, pdfExtractedText, allDocumentsChunks);
      var line := lines[i];
      assert lines[i..][0] == line && lines[i..][1..] == lines[i + 1..];
      if IsDocStart(line) {
        if Truthy(documentName) {
          if currentPage.Some? {
            pdfExtractedText := Assign(pdfExtractedText, currentPage.value, Join(currentText, "\n"));
          }
          var finalized := FinalizeDocumentChunks(documentName.value, pdfExtractedText, split);
          allDocumentsChunks := allDocumentsChunks + finalized;
          pdfExtractedText := [];
          currentText := [];
        }
        var parts := SplitOn(line, '<');
        if |parts| < 2 {
          return Err(NoNameBracket);
        }
        documentName := Some(SplitOn(parts[1], '>')[0]);
      } else if IsPageStart(line) {
        if currentPage.Some? {
          pdfExtractedText := Assign(pdfExtractedText, currentPage.value, Join(currentText, "\n"));
        }
        var words := Words(line);
        if |words| < 3 {
          return Err(ShortPageLine);
        }
        currentPage := Some("PAGE_" + words[2]);
        currentText := [];
      } else if IsPageEnd(line) {
        if currentPage.Some? {
          pdfExtractedText := Assign(pdfExtractedText, currentPage.value, Join(currentText, "\n"));
        }
        currentPage := None;
      } else if IsDocEnd(line) {
        if currentPage.Some? {
          pdfExtractedText := Assign(pdfExtractedText, currentPage.value, Join(currentText, "\n"));
        }
        if Truthy(documentName) {
          var finalized := FinalizeDocumentChunks(documentName.value, pdfExtractedText, split);
          allDocumentsChunks := allDocumentsChunks + finalized;
        }
        pdfExtractedText := [];
        currentText := [];
        currentPage := None;
        documentName := None;
      } else {
        currentText := currentText + [line];
      }
      assert Step(st, line, split) == Ok(ChunkState(currentPage, currentText, documentName, pdfExtractedText, allDocumentsChunks));
      i := i + 1;
    }
    if Truthy(documentName) && currentPage.Some? {
      pdfExtractedText := Assign(pdfExtractedText, currentPage.value, Join(currentText, "\n"));
      var finalized := FinalizeDocumentChunks(documentName.value, pdfExtractedText, split);
      allDocumentsChunks := allDocumentsChunks + finalized;
    }
    r := Ok(allDocumentsChunks);
  }
}
