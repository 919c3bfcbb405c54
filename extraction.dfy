/** The extraction engine, with the PDF library's output given as data: the text that the
    chunker reads back (page markers around cleaned page texts), the helper table of
    numbered text lines with their bounding boxes, and the naming and numbering of the
    stored table and image crops. */
module ExtractionEngine {
  import opened Wrappers
  import opened Strings
  import DocumentEncoder

  // ---------------------------------------------------------------- vectorisation text

  function Header(name: string): string {
    "DOCUMENT <" + name + "> CONTENTS STARTS HERE"
  }

  function Footer(name: string): string {
    "DOCUMENT <" + name + "> CONTENTS ENDS HERE"
  }

  function PageStart(k: nat): string {
    "PAGE NUMBER " + NatToString(k) + " STARTS HERE"
  }

  function PageEnd(k: nat): string {
    "PAGE NUMBER " + NatToString(k) + " ENDS HERE"
  }

  /** A page's text with every `©` and every U+FFFD removed, then stripped: none of the
      two characters is left, and the text neither starts nor ends with whitespace. */
  function CleanPage(text: string): (r: string)
    ensures Excludes(r, '©') && Excludes(r, '\U{FFFD}')
    ensures r == [] || (!IsSpace(r[0]) && !IsSpace(r[|r| - 1]))
  {
    var noCopyright := RemoveAll(text, "©");
    RemoveCharExcludes(text, '©');
    var noReplacement := RemoveAll(noCopyright, "\U{FFFD}");
    RemoveCharExcludes(noCopyright, '\U{FFFD}');
    ReplaceExcludes(noCopyright, "\U{FFFD}", "", '©');
    StripExcludes(noReplacement, '©');
    StripExcludes(noReplacement, '\U{FFFD}');
    StripParts(noReplacement);
    Strip(noReplacement)
  }

  /** Three lines for each page, pages numbered from 1: `start` of the page's number, `body`
      of its text, `end` of its number. */
  function Triples(pages: seq<string>, start: nat -> string, body: string -> string, end: nat -> string): seq<string>
  {
    if pages == [] then []
    else Triples(pages[..|pages| - 1], start, body, end) + [start(|pages|), body(pages[|pages| - 1]), end(|pages|)]
  }

  /** The three lines written for each page. */
  function PageBlocks(pages: seq<string>): seq<string>
  {
    Triples(pages, PageStart, CleanPage, PageEnd)
  }

  /** The lines joined into the vectorisation text. */
  function VectorisationLines(name: string, pages: seq<string>): seq<string>
  {
    [Header(name)] + PageBlocks(pages) + [Footer(name)]
  }

  /** Page `k` (0-based) occupies lines `3k + 1` to `3k + 3`: its start marker, its cleaned
      text and its end marker; the header comes first and the footer last. */
  lemma {:induction false} VectorisationLayout(name: string, pages: seq<string>)
    ensures var lines := VectorisationLines(name, pages);
      && |lines| == 3 * |pages| + 2
      && lines[0] == Header(name)
      && lines[|lines| - 1] == Footer(name)
      && forall k :: 0 <= k < |pages| ==>
           && lines[3 * k + 1] == PageStart(k + 1)
           && lines[3 * k + 2] == CleanPage(pages[k])
           && lines[3 * k + 3] == PageEnd(k + 1)
  {
    BlocksLayout(pages);
    Framed(Header(name), PageBlocks(pages), Footer(name));
  }

  /** The elements of a sequence between a first and a last element are shifted by one. */
  lemma Framed<T>(first: T, middle: seq<T>, last: T)
    ensures var s := [first] + middle + [last];
      && |s| == |middle| + 2 && s[0] == first && s[|s| - 1] == last
      && forall i :: 0 <= i < |middle| ==> s[i + 1] == middle[i]
  {
  }

  lemma BlocksLayout(pages: seq<string>)
    ensures |PageBlocks(pages)| == 3 * |pages|
    ensures forall k :: 0 <= k < |pages| ==>
      && PageBlocks(pages)[3 * k] == PageStart(k + 1)
      && PageBlocks(pages)[3 * k + 1] == CleanPage(pages[k])
      && PageBlocks(pages)[3 * k + 2] == PageEnd(k + 1)
  {
    TriplesLayout(pages, PageStart, CleanPage, PageEnd);
  }

  lemma {:induction false} TriplesLayout(pages: seq<string>, start: nat -> string, body: string -> string, end: nat -> string)
    ensures |Triples(pages, start, body, end)| == 3 * |pages|
    ensures forall k :: 0 <= k < |pages| ==>
      && Triples(pages, start, body, end)[3 * k] == start(k + 1)
      && Triples(pages, start, body, end)[3 * k + 1] == body(pages[k])
      && Triples(pages, start, body, end)[3 * k + 2] == end(k + 1)
  {
    if pages != [] {
      var init := pages[..|pages| - 1];
      TriplesLayout(init, start, body, end);
      forall k | 0 <= k < |pages|
        ensures Triples(pages, start, body, end)[3 * k] == start(k + 1)
        ensures Triples(pages, start, body, end)[3 * k + 1] == body(pages[k])
        ensures Triples(pages, start, body, end)[3 * k + 2] == end(k + 1)
      {
        if k < |init| {
          assert pages[k] == init[k];
        }
      }
    }
  }

  /** The text assembly of the vectorisation extractor: the header, the three lines of
      every page in order, the footer, joined with newlines. */
  method ExtractTextForVectorisation(pdfName: string, pageTexts: seq<string>) returns (output: string)
    ensures output == Join(VectorisationLines(pdfName, pageTexts), "\n")
  {
    var extractedText := [Header(pdfName)];
    var pageNum := 0;
    while pageNum < |pageTexts|
      invariant 0 <= pageNum <= |pageTexts|
      invariant extractedText == [Header(pdfName)] + PageBlocks(pageTexts[..pageNum])
    {
      var pageText := RemoveAll(RemoveAll(pageTexts[pageNum], "©"), "\U{FFFD}");
      extractedText := extractedText + [PageStart(pageNum + 1)];
      extractedText := extractedText + [Strip(pageText)];
      extractedText := extractedText + [PageEnd(pageNum + 1)];
      assert pageTexts[..pageNum + 1][..pageNum] == pageTexts[..pageNum];
      pageNum := pageNum + 1;
    }
    assert pageTexts[..pageNum] == pageTexts;
    extractedText := extractedText + [Footer(pdfName)];
    output := Join(extractedText, "\n");
  }

  // ---------------------------------------------------------------- highlight helper table

  /** A text span with its bounding box `(x0, y0, x1, y1)`; coordinates are reals. */
  datatype Span = Span(text: string, bbox: (real, real, real, real))

  /** A text line of the page dictionary. */
  datatype Line = Line(spans: seq<Span>)

  /** A block's lines (`block.get("lines", [])`: a block without lines has none). */
  type Block = seq<Line>

  datatype HelperRow = HelperRow(pageNumber: nat, lineNumber: nat, content: string, coordinates: (real, real, real, real))

  function SpanTexts(spans: seq<Span>): seq<string>
  {
    seq(|spans|, i requires 0 <= i < |spans| => spans[i].text)
  }

  /** The span texts joined by single spaces and stripped; a line without spans has no text. */
  function LineText(line: Line): (r: string)
    ensures line.spans == [] ==> r == []
  {
    Strip(Join(SpanTexts(line.spans), " "))
  }

  function Coordinate(s: Span, k: nat): real
    requires k < 4
  {
    if k == 0 then s.bbox.0 else if k == 1 then s.bbox.1 else if k == 2 then s.bbox.2 else s.bbox.3
  }

  /** The least `k`-th coordinate over the spans: a lower bound that one span attains. */
  function MinCoordinate(spans: seq<Span>, k: nat): (r: real)
    requires spans != [] && k < 4
    ensures forall j :: 0 <= j < |spans| ==> r <= Coordinate(spans[j], k)
    ensures exists j :: 0 <= j < |spans| && r == Coordinate(spans[j], k)
  {
    if |spans| == 1 then Coordinate(spans[0], k)
    else
      var rest := MinCoordinate(spans[1..], k);
      assert forall j :: 1 <= j < |spans| ==> spans[j] == spans[1..][j - 1];
      if Coordinate(spans[0], k) <= rest then Coordinate(spans[0], k) else rest
  }

  /** The greatest `k`-th coordinate over the spans: an upper bound that one span attains. */
  function MaxCoordinate(spans: seq<Span>, k: nat): (r: real)
    requires spans != [] && k < 4
    ensures forall j :: 0 <= j < |spans| ==> Coordinate(spans[j], k) <= r
    ensures exists j :: 0 <= j < |spans| && r == Coordinate(spans[j], k)
  {
    if |spans| == 1 then Coordinate(spans[0], k)
    else
      var rest := MaxCoordinate(spans[1..], k);
      assert forall j :: 1 <= j < |spans| ==> spans[j] == spans[1..][j - 1];
      if Coordinate(spans[0], k) >= rest then Coordinate(spans[0], k) else rest
  }

  /** The line's box: the least `x0` and `y0` and the greatest `x1` and `y1` of its spans. */
  function LineBox(spans: seq<Span>): (real, real, real, real)
    requires spans != []
  {
    (MinCoordinate(spans, 0), MinCoordinate(spans, 1), MaxCoordinate(spans, 2), MaxCoordinate(spans, 3))
  }

  /** The lines of all blocks of a page, in order. */
  function Flatten(blocks: seq<Block>): seq<Line>
  {
    if blocks == [] then [] else Flatten(blocks[..|blocks| - 1]) + blocks[|blocks| - 1]
  }

  /** The helper rows of one page: a row per line whose text is not empty, numbered
      1, 2, ... in order. */
  function PageRows(page: nat, lines: seq<Line>): (r: seq<HelperRow>)
    ensures forall k :: 0 <= k < |r| ==> r[k].pageNumber == page && r[k].lineNumber == k + 1 && r[k].content != []
  {
    if lines == [] then []
    else
      var rows := PageRows(page, lines[..|lines| - 1]);
      var line := lines[|lines| - 1];
      var text := LineText(line);
      if text == [] then rows
      else rows + [HelperRow(page, |rows| + 1, text, LineBox(line.spans))]
  }

  lemma PageRowsSnoc(page: nat, lines: seq<Line>, line: Line)
    ensures var rows := PageRows(page, lines);
      PageRows(page, lines + [line]) ==
        if LineText(line) == [] then rows
        else rows + [HelperRow(page, |rows| + 1, LineText(line), LineBox(line.spans))]
  {
    assert (lines + [line])[..|lines|] == lines;
  }

  /** The lines of a page that give a row, with their texts. */
  function NonEmptyTexts(lines: seq<Line>): seq<string>
  {
    if lines == [] then []
    else if LineText(lines[0]) == [] then NonEmptyTexts(lines[1..])
    else [LineText(lines[0])] + NonEmptyTexts(lines[1..])
  }

  lemma {:induction false} NonEmptyTextsAppend(lines: seq<Line>, line: Line)
    ensures NonEmptyTexts(lines + [line]) ==
      NonEmptyTexts(lines) + (if LineText(line) == [] then [] else [LineText(line)])
  {
    if lines != [] {
      assert (lines + [line])[1..] == lines[1..] + [line];
      NonEmptyTextsAppend(lines[1..], line);
    } else {
      assert [line][1..] == [];
    }
  }

  /** A page has exactly one row per line with non-empty text, holding that text, in order. */
  lemma {:induction false} PageRowsContents(page: nat, lines: seq<Line>)
    ensures |PageRows(page, lines)| == |NonEmptyTexts(lines)|
    ensures forall k :: 0 <= k < |PageRows(page, lines)| ==> PageRows(page, lines)[k].content == NonEmptyTexts(lines)[k]
  {
    if lines != [] {
      var init := lines[..|lines| - 1];
      PageRowsContents(page, init);
      NonEmptyTextsAppend(init, lines[|lines| - 1]);
      assert init + [lines[|lines| - 1]] == lines;
    }
  }

  /** Rows of all pages, pages numbered from 1; each page's rows are numbered on their own. */
  function HelperRows(pages: seq<seq<Block>>): (r: seq<HelperRow>)
    ensures forall k :: 0 <= k < |r| ==> 1 <= r[k].pageNumber <= |pages|
  {
    if pages == [] then []
    else HelperRows(pages[..|pages| - 1]) + PageRows(|pages|, Flatten(pages[|pages| - 1]))
  }

  /** Items numbered from 1 on each page, pages in increasing order: the first item is
      number 1, and each next item is the next number of the same page or number 1 of a
      later page. */
  ghost predicate NumberedPerPage<T>(r: seq<T>, page: T -> nat, number: T -> nat) {
    && (r != [] ==> number(r[0]) == 1)
    && forall j, k :: 0 <= j && k == j + 1 && k < |r| ==>
         if page(r[j]) == page(r[k]) then number(r[k]) == number(r[j]) + 1
         else page(r[j]) < page(r[k]) && number(r[k]) == 1
  }

  /** Appending the items of a later page, numbered 1, 2, ..., keeps the numbering. */
  lemma NumberedAppend<T>(a: seq<T>, b: seq<T>, page: T -> nat, number: T -> nat, p: nat)
    requires NumberedPerPage(a, page, number)
    requires forall k :: 0 <= k < |a| ==> page(a[k]) < p
    requires forall k :: 0 <= k < |b| ==> page(b[k]) == p && number(b[k]) == k + 1
    ensures NumberedPerPage(a + b, page, number)
  {
    var r := a + b;
    forall j, k | 0 <= j && k == j + 1 && k < |r|
      ensures if page(r[j]) == page(r[k]) then number(r[k]) == number(r[j]) + 1
              else page(r[j]) < page(r[k]) && number(r[k]) == 1
    {
      if k < |a| {
        assert r[j] == a[j] && r[k] == a[k];
      } else if j >= |a| {
        assert r[j] == b[j - |a|] && r[k] == b[k - |a|];
      } else {
        assert r[j] == a[j] && r[k] == b[0];
      }
    }
  }

  /** Line numbers restart at 1 on each page and go up by one within a page: the first row
      is line 1, and each next row is the next line of the same page or line 1 of a later
      page. */
  lemma {:induction false} HelperNumbering(pages: seq<seq<Block>>)
    ensures var r := HelperRows(pages);
      && (r != [] ==> r[0].lineNumber == 1)
      && forall j, k :: 0 <= j && k == j + 1 && k < |r| ==>
           if r[j].pageNumber == r[k].pageNumber then r[k].lineNumber == r[j].lineNumber + 1
           else r[j].pageNumber < r[k].pageNumber && r[k].lineNumber == 1
  {
    RowsNumbered(pages);
  }

  lemma {:induction false} RowsNumbered(pages: seq<seq<Block>>)
    ensures NumberedPerPage(HelperRows(pages), (h: HelperRow) => h.pageNumber, (h: HelperRow) => h.lineNumber)
  {
    if pages != [] {
      RowsNumbered(pages[..|pages| - 1]);
      NumberedAppend(HelperRows(pages[..|pages| - 1]), PageRows(|pages|, Flatten(pages[|pages| - 1])),
                     (h: HelperRow) => h.pageNumber, (h: HelperRow) => h.lineNumber, |pages|);
    }
  }

  /** The helper-table loop: pages in order, each page's rows built by the page loop. */
  method BuildHelperTable(pages: seq<seq<Block>>) returns (table: seq<HelperRow>)
    ensures table == HelperRows(pages)
  {
    table := [];
    var pageNum := 0;
    while pageNum < |pages|
      invariant 0 <= pageNum <= |pages|
      invariant table == HelperRows(pages[..pageNum])
    {
      var pageRows := BuildPageRows(pageNum + 1, pages[pageNum]);
      assert pages[..pageNum + 1][..pageNum] == pages[..pageNum];
      table := table + pageRows;
      pageNum := pageNum + 1;
    }
    assert pages[..pageNum] == pages;
  }

  /** The loop over one page's blocks, with the line counter starting at 1 and going up
      after each row. */
  method BuildPageRows(page: nat, blocks: seq<Block>) returns (pageRows: seq<HelperRow>)
    ensures pageRows == PageRows(page, Flatten(blocks))
  {
    var lineCounter := 1;
    pageRows := [];
    var b := 0;
    while b < |blocks|
      invariant 0 <= b <= |blocks|
      invariant pageRows == PageRows(page, Flatten(blocks[..b]))
      invariant lineCounter == |pageRows| + 1
    {
      pageRows, lineCounter := AddBlockRows(page, blocks[b], Flatten(blocks[..b]), pageRows, lineCounter);
      assert blocks[..b + 1][..b] == blocks[..b];
      b := b + 1;
    }
    assert blocks[..b] == blocks;
  }

  /** The loop over one block's lines: a row for each line with text, numbered on from the
      page's rows so far. */
  method AddBlockRows(page: nat, lines: seq<Line>, ghost done: seq<Line>, rows: seq<HelperRow>, counter: nat)
    returns (pageRows: seq<HelperRow>, lineCounter: nat)
    requires rows == PageRows(page, done) && counter == |rows| + 1
    ensures pageRows == PageRows(page, done + lines) && lineCounter == |pageRows| + 1
  {
    pageRows, lineCounter := rows, counter;
    ghost var seen := done;
    var j := 0;
    while j < |lines|
      invariant 0 <= j <= |lines|
      invariant seen == done + lines[..j]
      invariant pageRows == PageRows(page, seen)
      invariant lineCounter == |pageRows| + 1
    {
      var line := lines[j];
      var lineText := LineText(line);
      PageRowsSnoc(page, seen, line);
      if lineText != [] {
        var box := LineBox(line.spans);
        pageRows := pageRows + [HelperRow(page, lineCounter, lineText, box)];
        lineCounter := lineCounter + 1;
      }
      SliceSnoc(lines, j);
      ConcatSnoc(done, lines[..j], line);
      seen := seen + [line];
      j := j + 1;
    }
    SliceFull(lines);
  }

  /** Where the helper table is uploaded. */
  function HelperTableKey(userId: string, pdfName: string): string
  {
    DocumentEncoder.UserRoot(userId) + "highlight_helper_tables/" + pdfName + ".csv"
  }

  /** The extractor uploads the helper table to the key the encoder derives from the
      document's id, when the name it is given has no `.pdf` in it. */
  lemma HelperTableKeyAgrees(userId: string, pdfName: string, timestamp: string)
    requires !Contains(pdfName, ".pdf")
    ensures DocumentEncoder.HighlightHelperTableFileKey(DocumentEncoder.EncodeDocumentId(userId, pdfName, timestamp))
            == Ok(HelperTableKey(userId, pdfName))
  {
    DocumentEncoder.DecodeEncodeDocumentId(userId, pdfName, timestamp);
    ReplaceAbsent(pdfName, ".pdf", "");
  }

  // ---------------------------------------------------------------- table crops

  /** The key the crop of table `table` of page `page` is stored under. */
  function TableKey(userId: string, documentName: string, page: nat, table: nat): string
  {
    "DB/USERS/" + userId + "/document_tables/" + documentName + "/page_" + NatToString(page)
    + "_table_" + NatToString(table) + ".png"
  }

  /** The crop keys of one document, by page and table number. */
  function TableKeys(userId: string, documentName: string): (nat, nat) -> string
  {
    (page: nat, table: nat) => TableKey(userId, documentName, page, table)
  }

  /** The table metadata record; its id is the crop's key. */
  datatype TableRecord = TableRecord(id: string, documentId: string, pageNumber: nat, tableNumber: nat)

  function PageTables(keyOf: (nat, nat) -> string, documentId: string, page: nat, count: nat): seq<TableRecord>
  {
    seq(count, i requires 0 <= i < count => TableRecord(keyOf(page, i + 1), documentId, page, i + 1))
  }

  /** The records of all detected tables, `boxes[p]` being the number of boxes the detector
      finds on page `p + 1`: every record's id is the key of its page and table numbers,
      and the table number is at most the page's box count. */
  function TableRecords(keyOf: (nat, nat) -> string, documentId: string, boxes: seq<nat>): (r: seq<TableRecord>)
    ensures forall k :: 0 <= k < |r| ==>
      && r[k].id == keyOf(r[k].pageNumber, r[k].tableNumber)
      && r[k].documentId == documentId
      && 1 <= r[k].pageNumber <= |boxes|
      && 1 <= r[k].tableNumber <= boxes[r[k].pageNumber - 1]
  {
    if boxes == [] then []
    else
      var before := TableRecords(keyOf, documentId, boxes[..|boxes| - 1]);
      var page := PageTables(keyOf, documentId, |boxes|, boxes[|boxes| - 1]);
      before + page
  }

  /** Tables are numbered from 1 on each page, in detection order: the first record is
      table 1, and each next record is the next table of the same page or table 1 of a
      later page. */
  lemma TableNumbering(keyOf: (nat, nat) -> string, documentId: string, boxes: seq<nat>)
    ensures var r := TableRecords(keyOf, documentId, boxes);
      && (r != [] ==> r[0].tableNumber == 1)
      && forall j, k :: 0 <= j && k == j + 1 && k < |r| ==>
           if r[j].pageNumber == r[k].pageNumber then r[k].tableNumber == r[j].tableNumber + 1
           else r[j].pageNumber < r[k].pageNumber && r[k].tableNumber == 1
  {
    TablesNumbered(keyOf, documentId, boxes);
  }

  lemma {:induction false} TablesNumbered(keyOf: (nat, nat) -> string, documentId: string, boxes: seq<nat>)
    ensures NumberedPerPage(TableRecords(keyOf, documentId, boxes),
                            (t: TableRecord) => t.pageNumber, (t: TableRecord) => t.tableNumber)
  {
    if boxes != [] {
      TablesNumbered(keyOf, documentId, boxes[..|boxes| - 1]);
      NumberedAppend(TableRecords(keyOf, documentId, boxes[..|boxes| - 1]),
                     PageTables(keyOf, documentId, |boxes|, boxes[|boxes| - 1]),
                     (t: TableRecord) => t.pageNumber, (t: TableRecord) => t.tableNumber, |boxes|);
    }
  }

  function Ids(records: seq<TableRecord>): (ids: seq<string>)
    ensures |ids| == |records| && forall k :: 0 <= k < |records| ==> ids[k] == records[k].id
  {
    if records == [] then [] else [records[0].id] + Ids(records[1..])
  }

  /** Why table extraction raises: the PDF or the detector fails, or a crop's upload or
      its record's save fails. */
  datatype TableError = PdfUnreadable | SaveFailed(key: string)

  /** The table loop, with the detector's box counts per page (`None` when the PDF cannot be
      opened) and the set of keys whose upload or record save raises. It stops at the
      first failure and raises it; the records saved before it stay saved. */
  method ExtractAndSaveTables(userId: string, documentName: string, documentId: string,
                              boxes: Option<seq<nat>>, failing: set<string>)
    returns (r: Result<seq<string>, TableError>, saved: seq<TableRecord>)
    ensures boxes.None? ==> r == Err(PdfUnreadable) && saved == []
    ensures boxes.Some? ==>
      var all := TableRecords(TableKeys(userId, documentName), documentId, boxes.value);
      && |saved| <= |all| && saved == all[..|saved|]
      && (forall k :: 0 <= k < |saved| ==> saved[k].id !in failing)
      && (r.Ok? <==> |saved| == |all|)
      && (r.Ok? ==> r.value == Ids(all))
      && (r.Err? ==> r.error == SaveFailed(all[|saved|].id) && all[|saved|].id in failing)
  {
    saved := [];
    if boxes.None? {
      return Err(PdfUnreadable), saved;
    }
    var keyOf := TableKeys(userId, documentName);
    r, saved := SaveTables(keyOf, documentId, boxes.value, failing);
  }

  /** The loop over the pages, for any key naming. */
  method SaveTables(keyOf: (nat, nat) -> string, documentId: string, counts: seq<nat>, failing: set<string>)
    returns (r: Result<seq<string>, TableError>, saved: seq<TableRecord>)
    ensures var all := TableRecords(keyOf, documentId, counts);
      && |saved| <= |all| && saved == all[..|saved|]
      && (forall k :: 0 <= k < |saved| ==> saved[k].id !in failing)
      && (r.Ok? <==> |saved| == |all|)
      && (r.Ok? ==> r.value == Ids(all))
      && (r.Err? ==> r.error == SaveFailed(all[|saved|].id) && all[|saved|].id in failing)
  {
    saved := [];
    ghost var all := TableRecords(keyOf, documentId, counts);
    var extractedTables: seq<string> := [];
    var pageNum := 0;
    while pageNum < |counts|
      invariant 0 <= pageNum <= |counts|
      invariant saved == TableRecords(keyOf, documentId, counts[..pageNum])
      invariant extractedTables == Ids(saved)
      invariant forall k :: 0 <= k < |saved| ==> saved[k].id !in failing
    {
      var ok, pageRecords := SavePageTables(keyOf, documentId, pageNum + 1, counts[pageNum], failing);
      if !ok {
        TablesPrefix(keyOf, documentId, counts, pageNum, |pageRecords|);
        var key := keyOf(pageNum + 1, |pageRecords| + 1);
        NoneFailingConcat(saved, pageRecords, failing);
        saved := saved + pageRecords;
        return Err(SaveFailed(key)), saved;
      }
      IdsAppend(saved, pageRecords);
      NoneFailingConcat(saved, pageRecords, failing);
      TableRecordsSnoc(keyOf, documentId, counts, pageNum);
      extractedTables := extractedTables + Ids(pageRecords);
      saved := saved + pageRecords;
      pageNum := pageNum + 1;
    }
    SliceFull(counts);
    SliceFull(all);
    r := Ok(extractedTables);
  }

  lemma NoneFailingConcat(a: seq<TableRecord>, b: seq<TableRecord>, failing: set<string>)
    requires forall k :: 0 <= k < |a| ==> a[k].id !in failing
    requires forall k :: 0 <= k < |b| ==> b[k].id !in failing
    ensures forall k :: 0 <= k < |a + b| ==> (a + b)[k].id !in failing
  {
  }

  lemma TableRecordsSnoc(keyOf: (nat, nat) -> string, documentId: string, counts: seq<nat>, p: nat)
    requires p < |counts|
    ensures TableRecords(keyOf, documentId, counts[..p + 1])
            == TableRecords(keyOf, documentId, counts[..p]) + PageTables(keyOf, documentId, p + 1, counts[p])
  {
    PrefixPrefix(counts, p, p + 1);
  }

  /** The detections of one page, numbered from 1; stops at the first failing save. */
  method SavePageTables(keyOf: (nat, nat) -> string, documentId: string, page: nat, count: nat,
                        failing: set<string>)
    returns (ok: bool, records: seq<TableRecord>)
    ensures |records| <= count
    ensures records == PageTables(keyOf, documentId, page, |records|)
    ensures forall k :: 0 <= k < |records| ==> records[k].id !in failing
    ensures ok <==> |records| == count
    ensures !ok ==> keyOf(page, |records| + 1) in failing
  {
    records := [];
    var i := 0;
    while i < count
      invariant 0 <= i <= count && |records| == i
      invariant records == PageTables(keyOf, documentId, page, i)
      invariant forall k :: 0 <= k < i ==> records[k].id !in failing
    {
      var s3Key := keyOf(page, i + 1);
      if s3Key in failing {
        return false, records;
      }
      records := records + [TableRecord(s3Key, documentId, page, i + 1)];
      i := i + 1;
    }
    ok := true;
  }

  lemma {:induction false} IdsAppend(a: seq<TableRecord>, b: seq<TableRecord>)
    ensures Ids(a + b) == Ids(a) + Ids(b)
  {
    if a != [] {
      assert (a + b)[1..] == a[1..] + b;
      IdsAppend(a[1..], b);
    } else {
      assert a + b == b;
    }
  }

  /** The tables of the pages before `page` and the first `i` tables of `page` start the
      full list, and the next one is table `i + 1` of `page`. */
  lemma TablesPrefix(keyOf: (nat, nat) -> string, documentId: string, counts: seq<nat>, page: nat, i: nat)
    requires page < |counts| && i < counts[page]
    ensures var all := TableRecords(keyOf, documentId, counts);
      var done := TableRecords(keyOf, documentId, counts[..page]) + PageTables(keyOf, documentId, page + 1, i);
      && |done| < |all| && done == all[..|done|]
      && all[|done|] == TableRecord(keyOf(page + 1, i + 1), documentId, page + 1, i + 1)
  {
    TablesExtend(keyOf, documentId, counts, page + 1);
    TableRecordsSnoc(keyOf, documentId, counts, page);
    var whole := PageTables(keyOf, documentId, page + 1, counts[page]);
    assert PageTables(keyOf, documentId, page + 1, i) == whole[..i];
    PrefixOfConcat(TableRecords(keyOf, documentId, counts), TableRecords(keyOf, documentId, counts[..page]), whole, i);
  }

  /** A prefix of `all` that ends with `b` can be cut inside `b`. */
  lemma PrefixOfConcat<T>(all: seq<T>, a: seq<T>, b: seq<T>, i: nat)
    requires |a + b| <= |all| && a + b == all[..|a + b|] && i < |b|
    ensures |a + b[..i]| < |all| && a + b[..i] == all[..|a + b[..i]|] && all[|a + b[..i]|] == b[i]
  {
    assert all[|a| + i] == (a + b)[|a| + i];
  }

  /** The records of the first pages start the records of all pages. */
  lemma {:induction false} TablesExtend(keyOf: (nat, nat) -> string, documentId: string, counts: seq<nat>, n: nat)
    requires n <= |counts|
    ensures var prefix := TableRecords(keyOf, documentId, counts[..n]);
      var all := TableRecords(keyOf, documentId, counts);
      |prefix| <= |all| && prefix == all[..|prefix|]
    decreases |counts| - n
  {
    if n < |counts| {
      TablesExtend(keyOf, documentId, counts, n + 1);
      TableRecordsSnoc(keyOf, documentId, counts, n);
    } else {
      SliceFull(counts);
    }
  }

  // ---------------------------------------------------------------- image crops

  /** The stored file name of image `index` of page `page`. */
  function ImageFileName(page: nat, index: nat, ext: string): string
  {
    ("pg" + NatToString(page)) + "_" + ("img" + NatToString(index) + "." + ext)
  }

  function ImageKey(userId: string, pdfName: string, fileName: string): string
  {
    "DB/USERS/" + userId + "/document_images/" + pdfName + "/" + fileName
  }

  /** The image's record id: the PDF name, `_`, the stored file name. */
  function ImageId(pdfName: string, fileName: string): string
  {
    pdfName + "_" + fileName
  }

  /** The image listing splits an id on `_` and joins the last two pieces with `_`: that
      gives back the stored file name whenever the extension has no `_`, whatever the
      PDF name holds. */
  lemma ImageNameRecovered(pdfName: string, page: nat, index: nat, ext: string)
    requires Excludes(ext, '_')
    ensures var parts := SplitOn(ImageId(pdfName, ImageFileName(page, index, ext)), '_');
      && |parts| >= 3
      && parts[|parts| - 2] + "_" + parts[|parts| - 1] == ImageFileName(page, index, ext)
  {
    var a := "pg" + NatToString(page);
    var b := "img" + NatToString(index) + "." + ext;
    assert Excludes(a, '_');
    assert Excludes(b, '_');
    SplitOnNoSep(a, '_');
    SplitOnNoSep(b, '_');
    SplitOnConcat(a, '_', b);
    SplitOnConcat(pdfName, '_', a + "_" + b);
    assert ImageId(pdfName, ImageFileName(page, index, ext)) == pdfName + "_" + (a + "_" + b);
  }

  datatype ImageRecord = ImageRecord(id: string, documentId: string)

  /** Where an image is stored and the id its record gets. */
  datatype PlannedImage = PlannedImage(key: string, id: string)

  function PlannedAt(userId: string, pdfName: string, page: nat, index: nat, ext: string): PlannedImage
  {
    var name := ImageFileName(page, index, ext);
    PlannedImage(ImageKey(userId, pdfName, name), ImageId(pdfName, name))
  }

  /** The images of one page, numbered from 1 in the order the PDF lists them. */
  function PageImages(userId: string, pdfName: string, page: nat, exts: seq<string>): seq<PlannedImage>
  {
    seq(|exts|, i requires 0 <= i < |exts| => PlannedAt(userId, pdfName, page, i + 1, exts[i]))
  }

  /** The images of all pages, `exts[p]` listing the extensions of the images of page
      `p + 1` in order. */
  function ImagePlan(userId: string, pdfName: string, exts: seq<seq<string>>): seq<PlannedImage>
  {
    if exts == [] then []
    else ImagePlan(userId, pdfName, exts[..|exts| - 1]) + PageImages(userId, pdfName, |exts|, exts[|exts| - 1])
  }

  /** `saved` holds the records of the first images of the plan, none of whose keys fails. */
  ghost predicate SavedPrefix(saved: seq<ImageRecord>, plan: seq<PlannedImage>, documentId: string, failing: set<string>)
  {
    |saved| <= |plan| &&
    forall k :: 0 <= k < |saved| ==> saved[k] == ImageRecord(plan[k].id, documentId) && plan[k].key !in failing
  }

  lemma SavedPrefixConcat(a: seq<ImageRecord>, pa: seq<PlannedImage>, b: seq<ImageRecord>, pb: seq<PlannedImage>,
                          documentId: string, failing: set<string>)
    requires SavedPrefix(a, pa, documentId, failing) && |a| == |pa| && SavedPrefix(b, pb, documentId, failing)
    ensures SavedPrefix(a + b, pa + pb, documentId, failing)
  {
  }

  lemma SavedPrefixWiden(saved: seq<ImageRecord>, plan: seq<PlannedImage>, all: seq<PlannedImage>,
                         documentId: string, failing: set<string>)
    requires SavedPrefix(saved, plan, documentId, failing) && |plan| <= |all| && plan == all[..|plan|]
    ensures SavedPrefix(saved, all, documentId, failing)
  {
    forall k | 0 <= k < |saved| ensures all[k] == plan[k] {
    }
  }

  /** The image loop, with the image extensions per page (`None` when the PDF cannot be
      opened) and the set of keys whose upload or record save raises. The name used in
      keys and ids is the document name without its extension. Nothing is raised: the
      result is `true` exactly when every image was stored, and otherwise the image after
      the stored ones is the one whose save failed. */
  method ExtractAndSaveImages(userId: string, documentName: string, documentId: string,
                              exts: Option<seq<seq<string>>>, failing: set<string>)
    returns (ok: bool, saved: seq<ImageRecord>)
    ensures exts.None? ==> !ok && saved == []
    ensures exts.Some? ==>
      var plan := ImagePlan(userId, SplitExt(documentName).0, exts.value);
      && SavedPrefix(saved, plan, documentId, failing)
      && (ok <==> |saved| == |plan|)
      && (!ok ==> plan[|saved|].key in failing)
  {
    saved := [];
    if exts.None? {
      return false, saved;
    }
    var pdfName := SplitExt(documentName).0;
    var pages := exts.value;
    ghost var all := ImagePlan(userId, pdfName, pages);
    var pageNum := 0;
    while pageNum < |pages|
      invariant 0 <= pageNum <= |pages|
      invariant SavedPrefix(saved, ImagePlan(userId, pdfName, pages[..pageNum]), documentId, failing)
      invariant |saved| == |ImagePlan(userId, pdfName, pages[..pageNum])|
    {
      var pageOk, records := SavePageImages(userId, pdfName, documentId, pageNum + 1, pages[pageNum], failing);
      ghost var before := ImagePlan(userId, pdfName, pages[..pageNum]);
      ghost var page := PageImages(userId, pdfName, pageNum + 1, pages[pageNum]);
      SavedPrefixConcat(saved, before, records, page, documentId, failing);
      assert pages[..pageNum + 1][..pageNum] == pages[..pageNum];
      assert ImagePlan(userId, pdfName, pages[..pageNum + 1]) == before + page;
      saved := saved + records;
      if !pageOk {
        PlanExtend(userId, pdfName, pages, pageNum + 1);
        SavedPrefixWiden(saved, before + page, all, documentId, failing);
        assert all[|saved|] == (before + page)[|saved|];
        return false, saved;
      }
      pageNum := pageNum + 1;
    }
    assert pages[..pageNum] == pages;
    ok := true;
  }

  /** The images of one page; stops at the first failing save. */
  method SavePageImages(userId: string, pdfName: string, documentId: string, page: nat, exts: seq<string>,
                        failing: set<string>)
    returns (ok: bool, records: seq<ImageRecord>)
    ensures SavedPrefix(records, PageImages(userId, pdfName, page, exts), documentId, failing)
    ensures ok <==> |records| == |exts|
    ensures !ok ==> PageImages(userId, pdfName, page, exts)[|records|].key in failing
  {
    records := [];
    var imgIndex := 0;
    while imgIndex < |exts|
      invariant 0 <= imgIndex <= |exts| && |records| == imgIndex
      invariant SavedPrefix(records, PageImages(userId, pdfName, page, exts), documentId, failing)
    {
      var imageFilename := ImageFileName(page, imgIndex + 1, exts[imgIndex]);
      var s3Key := ImageKey(userId, pdfName, imageFilename);
      if s3Key in failing {
        return false, records;
      }
      var imageId := ImageId(pdfName, imageFilename);
      records := records + [ImageRecord(imageId, documentId)];
      imgIndex := imgIndex + 1;
    }
    ok := true;
  }

  /** Image `i` of page `p + 1` sits in the plan right after the images of the pages
      before it and the images before it on its page. */
  lemma ImagePlanAt(userId: string, pdfName: string, pages: seq<seq<string>>, p: nat, i: nat)
    requires p < |pages| && i < |pages[p]|
    ensures var plan := ImagePlan(userId, pdfName, pages);
      var k := |ImagePlan(userId, pdfName, pages[..p])| + i;
      k < |plan| && plan[k] == PlannedAt(userId, pdfName, p + 1, i + 1, pages[p][i])
  {
    PlanExtend(userId, pdfName, pages, p + 1);
    assert pages[..p + 1][..p] == pages[..p];
  }

  /** The plan of the first pages starts the plan of all pages. */
  lemma {:induction false} PlanExtend(userId: string, pdfName: string, pages: seq<seq<string>>, n: nat)
    requires n <= |pages|
    ensures var prefix := ImagePlan(userId, pdfName, pages[..n]);
      var all := ImagePlan(userId, pdfName, pages);
      |prefix| <= |all| && prefix == all[..|prefix|]
    decreases |pages| - n
  {
    if n < |pages| {
      PlanExtend(userId, pdfName, pages, n + 1);
      assert pages[..n + 1][..n] == pages[..n];
    } else {
      assert pages[..n] == pages;
    }
  }
}
