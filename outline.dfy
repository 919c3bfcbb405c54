/** Generating a document outline and locating its sources: the marked text given to the
    model, the page images and hints the vision model answers for, the search of a hint's
    start words among a page's words, the highlighted word ranges, the ids of the
    highlighted page images, and the failure policy of the whole step. The PDF library,
    the models and the database are parameters. */
module Outline {
  import opened Wrappers
  import opened Strings
  import DocumentEncoder
  import OutlineParsing
  import JsonRecord

  // ---------------------------------------------------------------- extract_text_from_pdf_data

  /** A page's text with every `©` and every U+FFFD removed; it is not stripped here. */
  function CleanPageText(text: string): string
  {
    RemoveAll(RemoveAll(text, "©"), "\U{FFFD}")
  }

  function PageOpening(k: nat): string
  {
    "PAGE NUMBER " + NatToString(k) + " STARTS HERE\n"
  }

  function PageClosing(k: nat): string
  {
    "\nPAGE NUMBER " + NatToString(k) + " ENDS HERE\n"
  }

  /** The section of the `k`-th page, counting from 1. */
  function PageSection(k: nat, text: string): string
  {
    PageOpening(k) + CleanPageText(text) + PageClosing(k)
  }

  /** The sections of the pages, numbered from 1. */
  function Sections(pages: seq<string>): string
  {
    if pages == [] then [] else Sections(pages[..|pages| - 1]) + PageSection(|pages|, pages[|pages| - 1])
  }

  /** The text before the blank lines are dropped. */
  function RawText(name: string, pages: seq<string>): string
  {
    DocumentOpening(name) + Sections(pages) + DocumentClosing(name)
  }

  function DocumentOpening(name: string): string
  {
    "\nDOCUMENT <" + name + "> CONTENTS STARTS HERE\n"
  }

  function DocumentClosing(name: string): string
  {
    "\nDOCUMENT <" + name + "> CONTENTS ENDS HERE\n"
  }

  /** The lines that are not blank, in order. */
  function NonBlank(lines: seq<string>): (kept: seq<string>)
    ensures |kept| <= |lines|
    ensures forall k :: 0 <= k < |kept| ==> !AllSpace(kept[k]) && kept[k] in lines
    ensures forall k :: 0 <= k < |lines| && !AllSpace(lines[k]) ==> lines[k] in kept
  {
    if lines == [] then []
    else
      var rest := NonBlank(lines[1..]);
      assert forall k :: 1 <= k < |lines| ==> lines[k] == lines[1..][k - 1];
      if AllSpace(lines[0]) then rest else [lines[0]] + rest
  }

  /** Every line followed by `\n`, concatenated: empty, or ending with a `\n`. */
  function Terminated(lines: seq<string>): (r: string)
    ensures r == [] <==> lines == []
    ensures r != [] ==> r[|r| - 1] == '\n'
  {
    if lines == [] then [] else lines[0] + "\n" + Terminated(lines[1..])
  }

  /** `''.join(line + '\n' for line in text.splitlines() if line.strip())`. */
  function CleanedText(raw: string): string
  {
    Terminated(NonBlank(SplitLines(raw)))
  }

  lemma {:induction false} TerminatedLines(lines: seq<string>)
    requires forall k :: 0 <= k < |lines| ==> Excludes(lines[k], '\n')
    ensures SplitOn(Terminated(lines), '\n') == lines + [""]
  {
    if lines != [] {
      TerminatedLines(lines[1..]);
      SplitOnConcat(lines[0], '\n', Terminated(lines[1..]));
      SplitOnNoSep(lines[0], '\n');
      assert [lines[0]] + (lines[1..] + [""]) == lines + [""];
    }
  }

  /** The cleaned text splits on `\n` into the text's non-blank lines and a final empty
      piece: no line is blank and every line ends with `\n`. */
  lemma CleanedTextLines(raw: string)
    ensures var text := CleanedText(raw);
      var lines := SplitOn(text, '\n');
      && lines == NonBlank(SplitLines(raw)) + [""]
      && (forall k :: 0 <= k < |lines| - 1 ==> !AllSpace(lines[k]))
      && (text == [] || text[|text| - 1] == '\n')
  {
    var kept := NonBlank(SplitLines(raw));
    forall k | 0 <= k < |kept|
      ensures Excludes(kept[k], '\n')
    {
      var j :| 0 <= j < |SplitLines(raw)| && SplitLines(raw)[j] == kept[k];
    }
    TerminatedLines(kept);
  }

  /** The loop of `extract_text_from_pdf_data` that grows the raw text page by page, then the
      removal of blank lines. */
  method ExtractTextFromPdfData(pdfName: string, pageTexts: seq<string>) returns (cleanedText: string)
    ensures cleanedText == CleanedText(RawText(pdfName, pageTexts))
  {
    var rawText := "";
    rawText := rawText + DocumentOpening(pdfName);
    var pageNum := 0;
    while pageNum < |pageTexts|
      invariant 0 <= pageNum <= |pageTexts|
      invariant rawText == DocumentOpening(pdfName) + Sections(pageTexts[..pageNum])
    {
      ghost var before := rawText;
      var pageText := CleanPageText(pageTexts[pageNum]);
      rawText := rawText + PageOpening(pageNum + 1);
      rawText := rawText + pageText;
      rawText := rawText + PageClosing(pageNum + 1);
      Regroup(before, PageOpening(pageNum + 1), pageText, PageClosing(pageNum + 1));
      ghost var done := pageTexts[..pageNum + 1];
      assert done[..|done| - 1] == pageTexts[..pageNum] && done[|done| - 1] == pageTexts[pageNum];
      assert Sections(done) == Sections(pageTexts[..pageNum]) + PageSection(pageNum + 1, pageTexts[pageNum]);
      Regroup(DocumentOpening(pdfName), Sections(pageTexts[..pageNum]), PageSection(pageNum + 1, pageTexts[pageNum]), []);
      pageNum := pageNum + 1;
    }
    assert pageTexts[..pageNum] == pageTexts;
    rawText := rawText + DocumentClosing(pdfName);
    cleanedText := CleanedText(rawText);
  }

  // ---------------------------------------------------------------- page images and hints

  /** `extract_page_image`: no image for a page outside `1..pageCount`; otherwise the
      rendering, which is `None` when the library raised. */
  function PageImage(page: int, pageCount: nat, rendered: Option<seq<Byte>>): (r: Option<seq<Byte>>)
    ensures r.Some? <==> 1 <= page <= pageCount && rendered.Some?
    ensures r.Some? ==> r == rendered
  {
    if page < 1 || page > pageCount then None else rendered
  }

  /** A JSON value as the highlighter uses it: a string, an integer, a boolean, a float, or
      anything else (null, an array, an object). */
  datatype Value = Str(text: string) | Int(number: int) | Bool(flag: bool) | Float(float: Float) | Other

  /** A Python float as `json.loads` produces it: a finite value, taken exactly, one of the
      two infinities, or NaN. */
  datatype Float = Finite(x: real) | Infinity(negative: bool) | NaN

  /** A number Python computed: an integer or a float. */
  datatype Number = Integer(n: int) | Floating(f: Float)

  /** `hint['word_count'] + 5`: an integer stays an integer, a boolean is added as 0 or 1, a
      float gives a float, and anything else raises `TypeError` (`None`). */
  function PlusFive(v: Value): (r: Option<Number>)
    ensures r.None? <==> v.Str? || v.Other?
    ensures v.Int? ==> r == Some(Integer(v.number + 5))
    ensures v.Bool? ==> r.Some? && r.value.Integer? && 5 <= r.value.n <= 6
    ensures v.Float? ==> r.Some? && r.value.Floating?
  {
    match v
    case Int(n) => Some(Integer(n + 5))
    case Bool(b) => Some(Integer(if b then 6 else 5))
    case Float(f) => Some(Floating(AddTo(5, f)))
    case _ => None
  }

  /** `k + f` for an integer `k` and a float `f`: the infinities and NaN absorb `k`. */
  function AddTo(k: int, f: Float): Float
  {
    match f
    case Finite(x) => Finite(k as real + x)
    case _ => f
  }

  /** `n < f` as Python compares an integer with a float: false for NaN. */
  predicate Below(n: int, f: Float)
  {
    match f
    case Finite(x) => (n as real) < x
    case Infinity(negative) => !negative
    case NaN => false
  }

  /** The vision model's answer: the call raised, the text is not JSON, it is JSON but not an
      object, or an object with its values in order. */
  datatype Reply = CallFailed | NotJson | NotObject | Object(values: seq<Value>)

  /** `{"page_number": .., "start_text": .., "word_count": ..}`. */
  datatype Hint = Hint(pageNumber: int, startText: Value, wordCount: Value)

  /** `process_page_hint`: a hint only when the page has a non-empty image and the answer is
      an object with at least two values, the first two taken by position. */
  function ProcessPageHint(page: int, pageCount: nat, rendered: Option<seq<Byte>>, reply: Reply): (r: Option<Hint>)
    ensures r.Some? <==> && 1 <= page <= pageCount && rendered.Some? && rendered.value != []
                         && reply.Object? && |reply.values| >= 2
    ensures r.Some? ==> r.value == Hint(page, reply.values[0], reply.values[1])
  {
    var image := PageImage(page, pageCount, rendered);
    if image.None? || image.value == [] then None
    else match reply
      case Object(values) => if |values| < 2 then None else Some(Hint(page, values[0], values[1]))
      case _ => None
  }

  /** The hints of the requested pages, in page order, the failed ones dropped. The page at
      position `k` of the list is rendered by `render` and answered by `ask(k)`: a page listed
      twice is asked twice. */
  function PageHints(pages: seq<nat>, pageCount: nat, render: int -> Option<seq<Byte>>, ask: nat -> Reply): (hints: seq<Hint>)
    ensures |hints| <= |pages|
    ensures forall k :: 0 <= k < |hints| ==> 1 <= hints[k].pageNumber <= pageCount
  {
    if pages == [] then []
    else
      var n := |pages| - 1;
      var before := PageHints(pages[..n], pageCount, render, ask);
      match ProcessPageHint(pages[n], pageCount, render(pages[n]), ask(n))
      case None => before
      case Some(h) => before + [h]
  }

  /** The replies to the requests after the first `k`. */
  function Later(ask: nat -> Reply, k: nat): nat -> Reply
  {
    (i: nat) => ask(k + i)
  }

  /** Hints keep the order of their pages: the pages after `a` are answered by the replies
      after the first `|a|`. */
  lemma {:induction false} PageHintsConcat(a: seq<nat>, b: seq<nat>, pageCount: nat,
                                          render: int -> Option<seq<Byte>>, ask: nat -> Reply)
    ensures PageHints(a + b, pageCount, render, ask)
         == PageHints(a, pageCount, render, ask) + PageHints(b, pageCount, render, Later(ask, |a|))
    decreases |b|
  {
    if b == [] {
      assert a + b == a;
    } else {
      var n := |b| - 1;
      assert (a + b)[..|a + b| - 1] == a + b[..n];
      assert (a + b)[|a + b| - 1] == b[n];
      assert Later(ask, |a|)(n) == ask(|a + b| - 1);
      PageHintsConcat(a, b[..n], pageCount, render, ask);
    }
  }

  // ---------------------------------------------------------------- locating the start words

  /** The page's words from `i` on are the start words. */
  predicate MatchesAt(words: seq<string>, start: seq<string>, i: nat) {
    i + |start| <= |words| && words[i..i + |start|] == start
  }

  /** The first index from `i` at which the start words occur. */
  function FirstMatch(words: seq<string>, start: seq<string>, i: nat): (r: Option<nat>)
    ensures r.Some? ==> i <= r.value && MatchesAt(words, start, r.value)
    ensures r.Some? ==> forall j :: i <= j < r.value ==> !MatchesAt(words, start, j)
    ensures r.None? ==> forall j :: i <= j ==> !MatchesAt(words, start, j)
    decreases |words| - i
  {
    if i + |start| > |words| then None
    else if words[i..i + |start|] == start then Some(i)
    else FirstMatch(words, start, i + 1)
  }

  /** Empty start text matches at the first word, even on a page without words. */
  lemma EmptyStartMatchesFirst(words: seq<string>)
    ensures FirstMatch(words, [], 0) == Some(0)
  {
    assert words[0..0] == [];
  }

  /** The search loop of `highlight_text_in_pdf_with_vision`, leaving at the first match. */
  method FindStart(words: seq<string>, start: seq<string>) returns (startIndex: Option<nat>)
    ensures startIndex == FirstMatch(words, start, 0)
  {
    startIndex := None;
    var i := 0;
    while i < |words| - |start| + 1
      invariant 0 <= i
      invariant i <= |words| - |start| + 1 || i == 0
      invariant FirstMatch(words, start, 0) == FirstMatch(words, start, i)
    {
      if words[i..i + |start|] == start {
        startIndex := Some(i);
        return;
      }
      i := i + 1;
    }
  }

  // ---------------------------------------------------------------- the highlighted words

  /** `min(base + count, n)`, the end `range` is given for the words after the start words:
      `None` when `min` hands back the float, which `range` refuses with `TypeError`. `min`
      keeps its first argument unless the second is smaller, so a float sum wins a tie. */
  function RangeEnd(n: nat, base: nat, count: Number): (r: Option<int>)
    ensures count.Integer? ==> r.Some? && r.value <= n && r.value <= base + count.n
                               && (r.value == n || r.value == base + count.n)
    ensures count.Floating? ==> (r.Some? <==> Below(n, AddTo(base, count.f)))
    ensures count.Floating? && r.Some? ==> r.value == n
  {
    match count
    case Integer(k) => Some(if base + k < n then base + k else n)
    case Floating(f) => if Below(n, AddTo(base, f)) then Some(n) else None
  }

  /** The end of the highlighted words: the start words, then the words up to the end
      `range` was given, which lies within the page. */
  function HighlightEnd(n: nat, i: nat, length: nat, bound: int): (hi: nat)
    requires i + length <= n && bound <= n
    ensures i + length <= hi <= n
    ensures bound >= i + length ==> hi == bound
  {
    if bound < i + length then i + length else bound
  }

  /** One annotated word: its page, from 1, and its index among the page's words. */
  datatype Mark = Mark(page: nat, word: nat)

  /** The annotations one hint adds; `None` when the hint raises, which abandons the whole
      highlighting step: adding 5 to its word count raises, or, for a found start, `range`
      is handed a float end. */
  function HintMarks(h: Hint, pageWords: seq<seq<string>>): (r: Option<set<Mark>>)
    requires 1 <= h.pageNumber <= |pageWords|
    ensures PlusFive(h.wordCount).None? ==> r.None?
    ensures r.None? ==> PlusFive(h.wordCount).None? || PlusFive(h.wordCount).value.Floating?
    ensures r.Some? ==> forall m :: m in r.value ==> m.page == h.pageNumber && m.word < |pageWords[h.pageNumber - 1]|
  {
    var count := PlusFive(h.wordCount);
    if count.None? then None
    else if !h.startText.Str? then Some({})
    else
      var words := pageWords[h.pageNumber - 1];
      var start := Words(h.startText.text);
      match FirstMatch(words, start, 0)
      case None => Some({})
      case Some(i) =>
        var page: nat := h.pageNumber;
        match RangeEnd(|words|, i + |start|, count.value)
        case None => None
        case Some(bound) =>
          var hi := HighlightEnd(|words|, i, |start|, bound);
          Some(set j: nat | i <= j < hi :: Mark(page, j))
  }

  /** A hint whose start text is not a string or is not found marks nothing and never raises,
      whatever its word count. A found hint with an integer count marks its start words and
      up to count plus five more words, stopping at the end of the page; with a float count it
      raises unless the float sum passes the end of the page, and then marks every word from
      the start words to the end of the page. */
  lemma HintMarksRange(h: Hint, pageWords: seq<seq<string>>)
    requires 1 <= h.pageNumber <= |pageWords| && PlusFive(h.wordCount).Some?
    ensures var words := pageWords[h.pageNumber - 1];
      if h.startText.Str? && FirstMatch(words, Words(h.startText.text), 0).Some? then
        var start := Words(h.startText.text);
        var i := FirstMatch(words, start, 0).value;
        var count := PlusFive(h.wordCount).value;
        var page: nat := h.pageNumber;
        && (count.Integer? ==>
              && HintMarks(h, pageWords).Some?
              && forall j: nat :: Mark(page, j) in HintMarks(h, pageWords).value <==>
                   i <= j < i + |start| || (i + |start| <= j < i + |start| + count.n && j < |words|))
        && (count.Floating? ==>
              && (HintMarks(h, pageWords).Some? <==> Below(|words|, AddTo(i + |start|, count.f)))
              && (HintMarks(h, pageWords).Some? ==>
                    forall j: nat :: Mark(page, j) in HintMarks(h, pageWords).value <==> i <= j < |words|))
      else HintMarks(h, pageWords) == Some({})
  {
  }

  /** The annotations of all hints, hint by hint; `None` once one hint abandons the step. */
  function Marks(hints: seq<Hint>, pageWords: seq<seq<string>>): (r: Option<set<Mark>>)
    requires forall k :: 0 <= k < |hints| ==> 1 <= hints[k].pageNumber <= |pageWords|
    ensures r.Some? ==> forall m :: m in r.value ==> 1 <= m.page <= |pageWords|
  {
    if hints == [] then Some({})
    else
      var n := |hints| - 1;
      match Marks(hints[..n], pageWords)
      case None => None
      case Some(before) =>
        match HintMarks(hints[n], pageWords)
        case None => None
        case Some(added) => Some(before + added)
  }

  /** Once a hint abandons the step, no later hint brings it back. */
  lemma {:induction false} MarksAbandoned(hints: seq<Hint>, pageWords: seq<seq<string>>, k: nat)
    requires forall i :: 0 <= i < |hints| ==> 1 <= hints[i].pageNumber <= |pageWords|
    requires k <= |hints| && Marks(hints[..k], pageWords).None?
    ensures Marks(hints, pageWords).None?
    decreases |hints| - k
  {
    if k < |hints| {
      assert hints[..k + 1][..k] == hints[..k];
      MarksAbandoned(hints, pageWords, k + 1);
    } else {
      assert hints[..k] == hints;
    }
  }

  /** A hint that marks nothing leaves the other hints' annotations as they are. */
  lemma SkippedHint(hints: seq<Hint>, h: Hint, pageWords: seq<seq<string>>)
    requires forall k :: 0 <= k < |hints| ==> 1 <= hints[k].pageNumber <= |pageWords|
    requires 1 <= h.pageNumber <= |pageWords| && HintMarks(h, pageWords) == Some({})
    ensures Marks(hints + [h], pageWords) == Marks(hints, pageWords)
  {
    assert (hints + [h])[..|hints|] == hints;
    if Marks(hints, pageWords).Some? {
      assert Marks(hints, pageWords).value + {} == Marks(hints, pageWords).value;
    }
  }

  /** The pages that received at least one annotation. */
  function PagesOf(marks: set<Mark>): set<nat>
  {
    set m | m in marks :: m.page
  }

  /** `{"id": f"{document_id}_PN{page}_DOSI", "page_number": page}`. */
  datatype SourceImage = SourceImage(id: string, pageNumber: nat)

  /** The pages the entries are for. */
  function PageSet(ids: seq<SourceImage>): (pages: set<nat>)
    ensures forall k :: 0 <= k < |ids| ==> ids[k].pageNumber in pages
    ensures forall p :: p in pages ==> exists k :: 0 <= k < |ids| && ids[k].pageNumber == p
  {
    if ids == [] then {} else PageSet(ids[..|ids| - 1]) + {ids[|ids| - 1].pageNumber}
  }

  /** One entry per page of `pages`, in any order, each with `idOf` of its page. */
  predicate Listed(ids: seq<SourceImage>, pages: set<nat>, idOf: nat -> string) {
    && PageSet(ids) == pages
    && (forall j, k :: 0 <= j < k < |ids| ==> ids[j].pageNumber != ids[k].pageNumber)
    && (forall k :: 0 <= k < |ids| ==> ids[k].id == idOf(ids[k].pageNumber))
  }

  /** The id of a page's highlighted image. */
  function ImageIdOf(documentId: string): nat -> string
  {
    (page: nat) => DocumentEncoder.OutlineSourceImageId(documentId, page)
  }

  /** One entry per highlighted page, in any order, each with the id of that page. */
  predicate SourceImagesFor(ids: seq<SourceImage>, documentId: string, pages: set<nat>) {
    Listed(ids, pages, ImageIdOf(documentId))
  }

  /** The two highlighting loops for one found hint, the second one up to `bound`. */
  method HighlightWords(page: nat, i: nat, length: nat, bound: int, n: nat, marks: set<Mark>)
    returns (marked: set<Mark>)
    requires i + length <= n && bound <= n
    ensures marked == marks + set j: nat | i <= j < HighlightEnd(n, i, length, bound) :: Mark(page, j)
  {
    marked := marks;
    var j := 0;
    while j < length
      invariant 0 <= j <= length
      invariant marked == marks + set k: nat | i <= k < i + j :: Mark(page, k)
    {
      marked := marked + {Mark(page, i + j)};
      j := j + 1;
    }
    var k := i + length;
    while k < bound
      invariant i + length <= k
      invariant k <= bound || k == i + length
      invariant marked == marks + set m: nat | i <= m < k :: Mark(page, m)
    {
      marked := marked + {Mark(page, k)};
      k := k + 1;
    }
    assert k == HighlightEnd(n, i, length, bound);
  }

  /** One pass of the hint loop: the hint's words are searched and annotated, or the hint
      raises (`None`). */
  method HighlightHint(hint: Hint, pageWords: seq<seq<string>>, marks: set<Mark>) returns (r: Option<set<Mark>>)
    requires 1 <= hint.pageNumber <= |pageWords|
    ensures HintMarks(hint, pageWords).None? ==> r.None?
    ensures HintMarks(hint, pageWords).Some? ==> r == Some(marks + HintMarks(hint, pageWords).value)
  {
    var count := PlusFive(hint.wordCount);
    if count.None? {
      return None;
    }
    if !hint.startText.Str? {
      assert marks + {} == marks;
      return Some(marks);
    }
    var words := pageWords[hint.pageNumber - 1];
    var startWords := Words(hint.startText.text);
    var startIndex := FindStart(words, startWords);
    if startIndex.None? {
      assert marks + {} == marks;
      return Some(marks);
    }
    var bound := RangeEnd(|words|, startIndex.value + |startWords|, count.value);
    if bound.None? {
      return None;
    }
    var marked := HighlightWords(hint.pageNumber as nat, startIndex.value, |startWords|, bound.value, |words|, marks);
    return Some(marked);
  }

  /** `highlight_text_in_pdf_with_vision`: every hint is searched on its page and its words
      are annotated; the ids of the annotated pages are returned, whether or not their
      uploads succeed, and none once a hint raises. The pages of the hints are in range, as
      `process_page_hint` guarantees. */
  method HighlightTextInPdfWithVision(documentId: string, hints: seq<Hint>, pageWords: seq<seq<string>>)
    returns (ids: seq<SourceImage>, marks: set<Mark>)
    requires forall k :: 0 <= k < |hints| ==> 1 <= hints[k].pageNumber <= |pageWords|
    ensures Marks(hints, pageWords).None? ==> ids == []
    ensures Marks(hints, pageWords).Some? ==>
      marks == Marks(hints, pageWords).value && SourceImagesFor(ids, documentId, PagesOf(marks))
  {
    marks := {};
    var k := 0;
    while k < |hints|
      invariant 0 <= k <= |hints|
      invariant Marks(hints[..k], pageWords) == Some(marks)
    {
      var hint := hints[k];
      assert hints[..k + 1][..k] == hints[..k] && hints[..k + 1][k] == hint;
      var next := HighlightHint(hint, pageWords, marks);
      if next.None? {
        MarksAbandoned(hints, pageWords, k + 1);
        return [], marks;
      }
      marks := next.value;
      k := k + 1;
    }
    assert hints[..k] == hints;
    ids := SourceImages(documentId, PagesOf(marks));
  }

  /** The upload loop over the set of highlighted pages, in the order the set yields them. */
  method SourceImages(documentId: string, pages: set<nat>) returns (ids: seq<SourceImage>)
    ensures SourceImagesFor(ids, documentId, pages)
  {
    var idOf := ImageIdOf(documentId);
    ids := [];
    var remaining := pages;
    while remaining != {}
      invariant PageSet(ids) + remaining == pages && PageSet(ids) !! remaining
      invariant Listed(ids, PageSet(ids), idOf)
      decreases |remaining|
    {
      var page :| page in remaining;
      var image := SourceImage(idOf(page), page);
      ListedAppend(ids, idOf, image);
      MovePage(PageSet(ids), remaining, pages, page);
      ids := ids + [image];
      remaining := remaining - {page};
    }
  }

  /** Moving one page from the pages still to do to those done keeps the two a partition. */
  lemma MovePage(done: set<nat>, remaining: set<nat>, pages: set<nat>, page: nat)
    requires done + remaining == pages && done !! remaining && page in remaining
    ensures (done + {page}) + (remaining - {page}) == pages
    ensures (done + {page}) !! (remaining - {page})
    ensures |remaining - {page}| < |remaining|
  {
  }

  /** Appending the entry of a page not yet listed keeps the entries one per page. */
  lemma ListedAppend(ids: seq<SourceImage>, idOf: nat -> string, image: SourceImage)
    requires Listed(ids, PageSet(ids), idOf)
    requires image.pageNumber !in PageSet(ids)
    requires image.id == idOf(image.pageNumber)
    ensures PageSet(ids + [image]) == PageSet(ids) + {image.pageNumber}
    ensures Listed(ids + [image], PageSet(ids + [image]), idOf)
  {
    assert (ids + [image])[..|ids|] == ids;
  }

  /** The folder the highlighted page images are uploaded to. */
  function SourceUploadFolder(userId: string, pdfName: string): string
  {
    "DB/USERS/" + userId + "/document_outline_sources/" + pdfName
  }

  /** The key a highlighted page image is uploaded under. */
  function SourceUploadKey(userId: string, pdfName: string, page: nat): string
  {
    SourceUploadFolder(userId, pdfName) + "/Page_" + NatToString(page) + ".png"
  }

  /** The id returned for a highlighted page leads back, through the document id, to the key
      its image was uploaded under, when the name given to the highlighter is the name the
      id records. */
  lemma SourceImageKeyAgrees(userId: string, documentName: string, timestamp: string, page: nat)
    ensures var id := DocumentEncoder.EncodeDocumentId(userId, documentName, timestamp);
      DocumentEncoder.OutlineSourceImageFileKey(DocumentEncoder.OutlineSourceImageId(id, page))
      == Ok(Some(SourceUploadKey(userId, RemoveAll(documentName, ".pdf"), page)))
  {
    DocumentEncoder.OutlineSourceKeyOfId(userId, documentName, timestamp, page);
    UploadKeyIsSourceKey(JsonRecord.Record(userId, RemoveAll(documentName, ".pdf"), timestamp), page);
  }

  /** The upload key spelled by the highlighter is the outline-source key of the record. */
  lemma UploadKeyIsSourceKey(r: JsonRecord.Record, page: nat)
    ensures DocumentEncoder.OutlineSourceImageKey(r, page) == SourceUploadKey(r.userId, r.documentName, page)
  {
    var d := NatToString(page);
    assert DocumentEncoder.OutlineSourceImageKey(r, page) == DocumentEncoder.OutlineSourceFolder(r) + ("Page_" + d + ".png");
    SlashSpelling(r.userId, r.documentName, d);
  }

  lemma SlashSpelling(u: string, n: string, d: string)
    ensures "DB/USERS/" + u + "/" + "document_outline_sources/" + n + "/" + ("Page_" + d + ".png")
         == "DB/USERS/" + u + "/document_outline_sources/" + n + "/Page_" + d + ".png"
  {
    assert "/document_outline_sources/" == "/" + "document_outline_sources/";
    assert "/Page_" == "/" + "Page_";
  }

  // ---------------------------------------------------------------- generate_and_save_document_outline

  const OutlineFallback := "It seems the document you provided is so hefty, I couldn't quite digest it all to generate a document outline!"

  /** What is written to the database. */
  datatype SavedOutline = SavedOutline(outline: string, sources: seq<SourceImage>)

  /** `generate_and_save_document_outline`. The page texts are `None` when the PDF reader
      raised; the language model is `generate`, `None` when its call raised; the vision
      model's answers are `ask`; the page renderings are `render`; the database write
      succeeds when `saveOk`. */
  method GenerateAndSaveDocumentOutline(pdfName: string, documentId: string, pageTexts: Option<seq<string>>,
                                        generate: string -> Option<string>, render: int -> Option<seq<Byte>>,
                                        ask: nat -> Reply, pageWords: seq<seq<string>>, saveOk: bool)
    returns (ok: bool, saved: Option<SavedOutline>)
    ensures pageTexts.None? ==> !ok && saved.None?
    ensures pageTexts.Some? ==> saved.Some? && ok == saveOk
    ensures pageTexts.Some? ==>
      var reply := generate(CleanedText(RawText(pdfName, pageTexts.value)));
      && (reply.None? ==> saved.value == SavedOutline(OutlineFallback, []))
      && (reply.Some? ==>
            var (pages, outline) := OutlineParsing.ParseOutline(reply.value);
            var hints := PageHints(pages, |pageWords|, render, ask);
            && saved.value.outline == outline
            && (pages == [] ==> saved.value.sources == [])
            && (pages != [] && Marks(hints, pageWords).None? ==> saved.value.sources == [])
            && (pages != [] && Marks(hints, pageWords).Some? ==>
                  SourceImagesFor(saved.value.sources, documentId, PagesOf(Marks(hints, pageWords).value))))
  {
    if pageTexts.None? {
      return false, None;
    }
    var pdfText := ExtractTextFromPdfData(pdfName, pageTexts.value);
    var sources: seq<SourceImage> := [];
    var outline: string;
    var reply := generate(pdfText);
    if reply.None? {
      outline := OutlineFallback;
    } else {
      var (pages, rest) := OutlineParsing.ParseOutline(reply.value);
      outline := rest;
      if pages != [] {
        var hints := PageHints(pages, |pageWords|, render, ask);
        var marks;
        sources, marks := HighlightTextInPdfWithVision(documentId, hints, pageWords);
      }
    }
    saved := Some(SavedOutline(outline, sources));
    ok := saveOk;
  }
}
