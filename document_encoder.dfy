/** Document identifiers and the storage keys derived from them.

    A document id is the base64 text of the UTF-8 bytes of the JSON record
    `{"userId": .., "document_name": .., "timestamp": ..}`. Every storage key is a string
    built from the fields of the decoded record; two derived ids carry a suffix
    (`_PN<page>_TN<table>` for a table image, `_PN<page>_DOSI` for an outline source image)
    that is matched by a regular expression before the id in front of it is decoded. */
module DocumentEncoder {
  import opened Wrappers
  import opened Strings
  import Base64
  import Utf8
  import opened JsonRecord

  /** Which step of `decode_document_id` raised: `base64.b64decode`, `bytes.decode('utf-8')`,
      or `json.loads` and the key lookups. */
  datatype DecodeError = Base64Error | Utf8Error | JsonError(cause: LoadError)

  // ---------------------------------------------------------------- the id codec

  /** `encode_document_id(user_id, document_name)`. The clock reading
      `datetime.now(Europe/Madrid).isoformat()` is the parameter `timestamp`. Every `.pdf`
      in the name is removed, wherever it occurs. */
  function EncodeDocumentId(userId: string, documentName: string, timestamp: string): string
  {
    var data := Dumps(Record(userId, RemoveAll(documentName, ".pdf"), timestamp));
    Base64.Encode(Utf8.Encode(data))
  }

  /** `decode_document_id(id)`. The id's UTF-8 bytes are decoded non-strictly: a non-ASCII
      character becomes bytes outside the alphabet, which the decoder skips just as it
      skips such a character here. */
  function DecodeDocumentId(id: string): (r: Result<Record, DecodeError>)
    ensures r.Ok? ==> Base64.Decode(id).Some? && Utf8.Decode(Base64.Decode(id).value).Some?
                      && Loads(Utf8.Decode(Base64.Decode(id).value).value) == Ok(r.value)
  {
    match Base64.Decode(id)
    case None => Err(Base64Error)
    case Some(bytes) =>
      match Utf8.Decode(bytes)
      case None => Err(Utf8Error)
      case Some(text) =>
        match Loads(text)
        case Err(e) => Err(JsonError(e))
        case Ok(record) => Ok(record)
  }

  /** The three decoding steps undo the three encoding steps. */
  lemma DecodeEncoded(data: string, record: Record)
    requires Loads(data) == Ok(record)
    ensures DecodeDocumentId(Base64.Encode(Utf8.Encode(data))) == Ok(record)
  {
    Base64.DecodeEncode(Utf8.Encode(data));
    Utf8.DecodeEncode(data);
  }

  /** Decoding an id gives back the user, the name without `.pdf`, and the timestamp. */
  lemma DecodeEncodeDocumentId(userId: string, documentName: string, timestamp: string)
    ensures DecodeDocumentId(EncodeDocumentId(userId, documentName, timestamp))
            == Ok(Record(userId, RemoveAll(documentName, ".pdf"), timestamp))
  {
    var record := Record(userId, RemoveAll(documentName, ".pdf"), timestamp);
    LoadsDumps(record);
    DecodeEncoded(Dumps(record), record);
  }

  /** A base64 text holds neither `_` nor a line break. */
  lemma EncodingExcludes(b: seq<Byte>)
    ensures |Base64.Encode(b)| % 4 == 0
    ensures forall i :: 0 <= i < |Base64.Encode(b)| ==> Base64.IsEncodingChar(Base64.Encode(b)[i])
    ensures Excludes(Base64.Encode(b), '_') && Excludes(Base64.Encode(b), '\n')
  {
    Base64.EncodeShape(b);
  }

  /** An id uses only the base64 alphabet and `=`, its length is a multiple of four, and so it
      holds no `_` (which makes the `_PN` suffixes unambiguous) and no line break. */
  lemma EncodedIdAlphabet(userId: string, documentName: string, timestamp: string)
    ensures var id := EncodeDocumentId(userId, documentName, timestamp);
            && |id| % 4 == 0
            && (forall i :: 0 <= i < |id| ==> Base64.IsEncodingChar(id[i]))
            && Excludes(id, '_') && Excludes(id, '\n')
  {
    var data := Dumps(Record(userId, RemoveAll(documentName, ".pdf"), timestamp));
    EncodingExcludes(Utf8.Encode(data));
  }

  /** The removal is case-sensitive, removes every occurrence and not only a suffix, and makes
      a single pass, so that a `.pdf` can survive it. */
  lemma PdfRemovalSuffix()
    ensures RemoveAll("doc.pdf", ".pdf") == "doc"
  {
    DiffersAt("doc.pdf", ".pdf", 0);
    ReplaceKeep("doc.pdf", ".pdf", "");
    ReplaceKeep("oc.pdf", ".pdf", "");
    ReplaceKeep("c.pdf", ".pdf", "");
    ReplaceFront(".pdf", ".pdf", "");
  }

  lemma PdfRemovalInside()
    ensures RemoveAll("a.pdf.b", ".pdf") == "a.b"
  {
    DiffersAt("a.pdf.b", ".pdf", 0);
    ReplaceKeep("a.pdf.b", ".pdf", "");
    ReplaceFront(".pdf.b", ".pdf", "");
    ReplaceKeep(".b", ".pdf", "");
  }

  lemma PdfRemovalCase()
    ensures RemoveAll("X.PDF", ".pdf") == "X.PDF"
  {
    DiffersAt("X.PDF", ".pdf", 0);
    ReplaceKeep("X.PDF", ".pdf", "");
    DiffersAt(".PDF", ".pdf", 1);
    ReplaceKeep(".PDF", ".pdf", "");
  }

  lemma PdfRemovalSinglePass()
    ensures RemoveAll("a.p.pdfdf", ".pdf") == "a.pdf"
  {
    DiffersAt("a.p.pdfdf", ".pdf", 0);
    ReplaceKeep("a.p.pdfdf", ".pdf", "");
    DiffersAt(".p.pdfdf", ".pdf", 2);
    ReplaceKeep(".p.pdfdf", ".pdf", "");
    ReplaceKeep("p.pdfdf", ".pdf", "");
    ReplaceFront(".pdfdf", ".pdf", "");
  }

  // ---------------------------------------------------------------- keys

  /** The storage folder of one user. */
  function UserRoot(userId: string): string
  {
    "DB/USERS/" + userId + "/"
  }

  /** `get_thumbnail_image_id(id)`. */
  function ThumbnailImageId(id: string): string
  {
    id + "_thumb"
  }

  /** The folder `DB/USERS/<user>/<area><name>/` of one kind of artefact of a decoded record. */
  function Folder(r: Record, area: string): (folder: string)
    ensures StartsWith(folder, UserRoot(r.userId) + area)
    ensures EndsWith(folder, "/")
  {
    var prefix := UserRoot(r.userId) + area + r.documentName;
    assert prefix + "/" == (UserRoot(r.userId) + area) + (r.documentName + "/");
    AppendStartsWith(UserRoot(r.userId) + area, r.documentName + "/");
    AppendEndsWith(prefix, "/");
    prefix + "/"
  }

  /** The folder of the preview images of a decoded record. */
  function PreviewFolder(r: Record): string
  {
    Folder(r, "doc_preview_images/")
  }

  /** The folder of the table images of a decoded record. */
  function TableFolder(r: Record): string
  {
    Folder(r, "docs_tables/")
  }

  /** The folder of the outline source images of a decoded record. */
  function OutlineSourceFolder(r: Record): string
  {
    Folder(r, "document_outline_sources/")
  }

  /** The key of page `page` of the preview images of a decoded record. */
  function PreviewPageKey(r: Record, page: int): (key: string)
    ensures StartsWith(key, PreviewFolder(r)) && EndsWith(key, ".png")
  {
    var name := "Page " + IntToString(page) + ".png";
    AppendStartsWith(PreviewFolder(r), name);
    AppendEndsWith(PreviewFolder(r) + "Page " + IntToString(page), ".png");
    PreviewFolder(r) + name
  }

  /** `get_thumbnail_image_file_key(id)`. */
  function ThumbnailImageFileKey(id: string): (r: Result<string, DecodeError>)
    ensures r.Err? <==> DecodeDocumentId(id).Err?
    ensures r.Ok? ==> StartsWith(r.value, PreviewFolder(DecodeDocumentId(id).value)) && EndsWith(r.value, "Page 1.png")
  {
    match DecodeDocumentId(id)
    case Err(e) => Err(e)
    case Ok(rec) =>
      AppendStartsWith(PreviewFolder(rec), "Page 1.png");
      AppendEndsWith(PreviewFolder(rec), "Page 1.png");
      Ok(PreviewFolder(rec) + "Page 1.png")
  }

  /** `get_original_document_file_key(id)`. */
  function OriginalDocumentFileKey(id: string): (r: Result<string, DecodeError>)
    ensures r.Err? <==> DecodeDocumentId(id).Err?
    ensures r.Ok? ==> EndsWith(r.value, ".pdf")
  {
    match DecodeDocumentId(id)
    case Err(e) => Err(e)
    case Ok(rec) =>
      var prefix := UserRoot(rec.userId) + "docs/" + rec.documentName;
      AppendEndsWith(prefix, ".pdf");
      Ok(prefix + ".pdf")
  }

  /** `get_preview_images_folder_key(id)`. */
  function PreviewImagesFolderKey(id: string): (r: Result<string, DecodeError>)
    ensures r.Err? <==> DecodeDocumentId(id).Err?
    ensures r.Ok? ==> EndsWith(r.value, "/")
  {
    match DecodeDocumentId(id)
    case Err(e) => Err(e)
    case Ok(rec) => Ok(PreviewFolder(rec))
  }

  /** `get_preview_images_file_key(id, page_number)`. */
  function PreviewImagesFileKey(id: string, page: int): (r: Result<string, DecodeError>)
    ensures r.Err? <==> DecodeDocumentId(id).Err?
    ensures r.Ok? ==> EndsWith(r.value, ".png")
  {
    match DecodeDocumentId(id)
    case Err(e) => Err(e)
    case Ok(rec) => Ok(PreviewPageKey(rec, page))
  }

  /** `get_table_images_folder_key(id)`. */
  function TableImagesFolderKey(id: string): (r: Result<string, DecodeError>)
    ensures r.Err? <==> DecodeDocumentId(id).Err?
    ensures r.Ok? ==> EndsWith(r.value, "/")
  {
    match DecodeDocumentId(id)
    case Err(e) => Err(e)
    case Ok(rec) => Ok(TableFolder(rec))
  }

  /** `get_document_outline_source_images_folder_key(id)`. */
  function OutlineSourceImagesFolderKey(id: string): (r: Result<string, DecodeError>)
    ensures r.Err? <==> DecodeDocumentId(id).Err?
    ensures r.Ok? ==> EndsWith(r.value, "/")
  {
    match DecodeDocumentId(id)
    case Err(e) => Err(e)
    case Ok(rec) => Ok(OutlineSourceFolder(rec))
  }

  /** `get_highlight_helper_table_file_key(id)`. */
  function HighlightHelperTableFileKey(id: string): (r: Result<string, DecodeError>)
    ensures r.Err? <==> DecodeDocumentId(id).Err?
    ensures r.Ok? ==> EndsWith(r.value, ".csv")
  {
    match DecodeDocumentId(id)
    case Err(e) => Err(e)
    case Ok(rec) =>
      var prefix := UserRoot(rec.userId) + "highlight_helper_tables/" + rec.documentName;
      AppendEndsWith(prefix, ".csv");
      Ok(prefix + ".csv")
  }

  /** The thumbnail is the preview image of page 1. */
  lemma ThumbnailIsFirstPreview(id: string)
    ensures ThumbnailImageFileKey(id) == PreviewImagesFileKey(id, 1)
  {
    match DecodeDocumentId(id)
    case Err(_) =>
    case Ok(rec) => FirstPageName();
  }

  lemma FirstPageName()
    ensures "Page " + IntToString(1) + ".png" == "Page 1.png"
  {
    assert IntToString(1) == "1";
  }

  /** The preview folder key is a prefix of every preview page key of the same id. */
  lemma PreviewFolderIsPrefix(id: string, page: int)
    requires DecodeDocumentId(id).Ok?
    ensures StartsWith(PreviewImagesFileKey(id, page).value, PreviewImagesFolderKey(id).value)
  {
  }

  /** The table folder key is a prefix of every table image key of the same id. */
  lemma TableFolderIsPrefix(id: string, page: string, table: string)
    requires DecodeDocumentId(id).Ok?
    ensures StartsWith(TableImageKey(DecodeDocumentId(id).value, page, table), TableImagesFolderKey(id).value)
  {
  }

  /** The outline-source folder key is a prefix of every outline-source image key of the
      same id. */
  lemma OutlineSourceFolderIsPrefix(id: string, page: nat)
    requires DecodeDocumentId(id).Ok?
    ensures StartsWith(OutlineSourceImageKey(DecodeDocumentId(id).value, page), OutlineSourceImagesFolderKey(id).value)
  {
  }

  /** A name with one `.pdf` at its end loses exactly that `.pdf`. */
  lemma RemovePdfSuffix(stem: string)
    requires !Contains(stem, ".pdf")
    ensures RemoveAll(stem + ".pdf", ".pdf") == stem
  {
    var s := stem + ".pdf";
    forall i | 0 <= i < |stem|
      ensures !OccursAt(s, ".pdf", i)
    {
      if i + 4 <= |stem| {
        assert stem[i..i + 4] == s[i..i + 4];
        assert !OccursAt(stem, ".pdf", i);
      } else {
        assert s[i..i + 4][|stem| - i] == '.';
        assert ".pdf"[|stem| - i] != '.';
      }
    }
    ReplaceAfter(stem, ".pdf", ".pdf", "");
    ReplaceFront(".pdf", ".pdf", "");
    assert stem + "" == stem;
  }

  /** The upload of `<stem>.pdf` is stored under `DB/USERS/<user>/docs/<stem>.pdf`, and the
      id made for it leads back to that key when the stem holds no other `.pdf`. */
  lemma OriginalKeyOfUpload(userId: string, stem: string, timestamp: string)
    requires !Contains(stem, ".pdf")
    ensures OriginalDocumentFileKey(EncodeDocumentId(userId, stem + ".pdf", timestamp))
            == Ok(UserRoot(userId) + "docs/" + stem + ".pdf")
  {
    RemovePdfSuffix(stem);
    DecodeEncodeDocumentId(userId, stem + ".pdf", timestamp);
    OriginalKeyOfDecoded(EncodeDocumentId(userId, stem + ".pdf", timestamp), Record(userId, stem, timestamp));
  }

  lemma OriginalKeyOfDecoded(id: string, rec: Record)
    requires DecodeDocumentId(id) == Ok(rec)
    ensures OriginalDocumentFileKey(id) == Ok(UserRoot(rec.userId) + "docs/" + rec.documentName + ".pdf")
  {
  }

  /** An upload named `X.PDF` keeps its name in the id, so the key derived from the id gets a
      second extension and is not the key the upload was stored under. */
  lemma UppercaseExtensionKey(userId: string, timestamp: string)
    ensures OriginalDocumentFileKey(EncodeDocumentId(userId, "X.PDF", timestamp))
            == Ok(UserRoot(userId) + "docs/" + "X.PDF" + ".pdf")
    ensures OriginalDocumentFileKey(EncodeDocumentId(userId, "X.PDF", timestamp)).value
            != UserRoot(userId) + "docs/" + "X.PDF"
  {
    PdfRemovalCase();
    DecodeEncodeDocumentId(userId, "X.PDF", timestamp);
    OriginalKeyOfDecoded(EncodeDocumentId(userId, "X.PDF", timestamp), Record(userId, "X.PDF", timestamp));
  }

  // ---------------------------------------------------------------- suffix grammars

  /** Length of the run of ASCII digits that starts `s`. */
  function DigitRun(s: string): (n: nat)
    ensures n <= |s| && AllDigits(s[..n])
    ensures n < |s| ==> !IsDigit(s[n])
  {
    if s == [] || !IsDigit(s[0]) then 0
    else
      var n := 1 + DigitRun(s[1..]);
      assert s[..n] == [s[0]] + s[1..][..n - 1];
      n
  }

  /** The tail `_PN(\d+)_TN(\d+)` of the table-id pattern, matched at the start of `s` with
      nothing required after it: the page and table digit strings. Each `\d+` takes the whole
      run of digits, which is the only way the pattern can go on after it. */
  function TableSuffix(s: string): Option<(string, string)>
  {
    if !StartsWith(s, "_PN") then None
    else
      var rest := s[3..];
      var n := DigitRun(rest);
      if n == 0 || !StartsWith(rest[n..], "_TN") then None
      else
        var tail := rest[n + 3..];
        var m := DigitRun(tail);
        if m == 0 then None else Some((rest[..n], tail[..m]))
  }

  /** The last split point `i` in `lo..k` at which `tail` reads `s[i..]`, the points tried
      from `k` down: how a greedy group in front of a fixed tail is matched. */
  function LastSplit(s: string, k: nat, lo: nat, tail: string -> bool): Option<nat>
    requires k <= |s|
  {
    if k < lo then None
    else if tail(s[k..]) then Some(k)
    else if k == 0 then None
    else LastSplit(s, k - 1, lo, tail)
  }

  lemma {:induction false} LastSplitLast(s: string, k: nat, lo: nat, tail: string -> bool)
    requires k <= |s|
    ensures var j := LastSplit(s, k, lo, tail);
      && (j.Some? ==> lo <= j.value <= k && tail(s[j.value..]) && forall i :: j.value < i <= k ==> !tail(s[i..]))
      && (j.None? ==> forall i :: lo <= i <= k ==> !tail(s[i..]))
  {
    if lo <= k && !tail(s[k..]) && k > 0 {
      LastSplitLast(s, k - 1, lo, tail);
    }
  }

  /** The search stops at the last split point that reads a tail. */
  lemma LastSplitAt(s: string, k: nat, bound: nat, lo: nat, tail: string -> bool)
    requires lo <= k <= bound <= |s| && tail(s[k..])
    requires forall j :: k < j <= bound ==> !tail(s[j..])
    ensures LastSplit(s, bound, lo, tail) == Some(k)
  {
    LastSplitLast(s, bound, lo, tail);
  }

  predicate HasTableSuffix(s: string) {
    TableSuffix(s).Some?
  }

  /** `re.match(r"(.+)_PN(\d+)_TN(\d+)", s)`: the greedy group `(.+)` is the longest
      non-empty prefix without a line break after which the tail matches. */
  function MatchTableId(s: string): (m: Option<(string, string, string)>)
    ensures m.Some? ==> && |m.value.0| >= 1 && StartsWith(s, m.value.0) && Excludes(m.value.0, '\n')
                        && TableSuffix(s[|m.value.0|..]) == Some((m.value.1, m.value.2))
                        && forall j :: |m.value.0| < j <= IndexOf(s, '\n') ==> TableSuffix(s[j..]).None?
    ensures m.None? <==> forall j :: 1 <= j <= IndexOf(s, '\n') ==> TableSuffix(s[j..]).None?
  {
    LastSplitLast(s, IndexOf(s, '\n'), 1, HasTableSuffix);
    match LastSplit(s, IndexOf(s, '\n'), 1, HasTableSuffix)
    case None => None
    case Some(k) =>
      var (page, table) := TableSuffix(s[k..]).value;
      Some((s[..k], page, table))
  }

  /** The key of a table image of a decoded record; the digit strings are copied as matched. */
  function TableImageKey(r: Record, page: string, table: string): (key: string)
    ensures StartsWith(key, TableFolder(r)) && EndsWith(key, ".png")
  {
    var name := "Page " + page + " Table " + table + ".png";
    AppendStartsWith(TableFolder(r), name);
    AppendEndsWith(TableFolder(r) + "Page " + page + " Table " + table, ".png");
    TableFolder(r) + name
  }

  /** `get_extracted_table_image_file_key(table_image_id)`: `Ok(None)` when the pattern does
      not match; when it matches, the id in front is decoded unguarded and may raise. */
  function ExtractedTableImageFileKey(tableImageId: string): (r: Result<Option<string>, DecodeError>)
    ensures MatchTableId(tableImageId).None? ==> r == Ok(None)
    ensures MatchTableId(tableImageId).Some? ==>
              (r.Err? <==> DecodeDocumentId(MatchTableId(tableImageId).value.0).Err?)
    ensures r.Ok? && r.value.Some? ==> EndsWith(r.value.value, ".png")
  {
    match MatchTableId(tableImageId)
    case None => Ok(None)
    case Some((id, page, table)) =>
      match DecodeDocumentId(id)
      case Err(e) => Err(e)
      case Ok(rec) => Ok(Some(TableImageKey(rec, page, table)))
  }

  /** The tail `_PN(\d+)_DOSI$` of the outline-source pattern at the start of `s`: the page
      digit string. `$` matches at the end and also before a final line break. */
  function OutlineSourceSuffix(s: string): Option<string>
  {
    if !StartsWith(s, "_PN") then None
    else
      var rest := s[3..];
      var n := DigitRun(rest);
      if n > 0 && (rest[n..] == "_DOSI" || rest[n..] == "_DOSI\n") then Some(rest[..n]) else None
  }

  predicate HasOutlineSourceSuffix(s: string) {
    OutlineSourceSuffix(s).Some?
  }

  /** `re.match(r"^(.*)_PN(\d+)_DOSI$", s)`: the greedy group `(.*)` is the longest prefix
      without a line break after which the tail matches. */
  function MatchOutlineSourceId(s: string): (m: Option<(string, string)>)
    ensures m.Some? ==> && StartsWith(s, m.value.0) && Excludes(m.value.0, '\n')
                        && OutlineSourceSuffix(s[|m.value.0|..]) == Some(m.value.1)
                        && forall j :: |m.value.0| < j <= IndexOf(s, '\n') ==> OutlineSourceSuffix(s[j..]).None?
    ensures m.None? <==> forall j :: 0 <= j <= IndexOf(s, '\n') ==> OutlineSourceSuffix(s[j..]).None?
  {
    LastSplitLast(s, IndexOf(s, '\n'), 0, HasOutlineSourceSuffix);
    match LastSplit(s, IndexOf(s, '\n'), 0, HasOutlineSourceSuffix)
    case None => None
    case Some(k) => Some((s[..k], OutlineSourceSuffix(s[k..]).value))
  }

  /** The key of an outline source image: the page is rendered from `int(...)` of the digits. */
  function OutlineSourceImageKey(r: Record, page: nat): (key: string)
    ensures StartsWith(key, OutlineSourceFolder(r)) && EndsWith(key, ".png")
  {
    var name := "Page_" + NatToString(page) + ".png";
    AppendStartsWith(OutlineSourceFolder(r), name);
    AppendEndsWith(OutlineSourceFolder(r) + "Page_" + NatToString(page), ".png");
    OutlineSourceFolder(r) + name
  }

  /** `get_document_outline_source_image_file_key(id)`: `Ok(None)` when the pattern does not
      match; when it matches, the id in front is decoded unguarded and may raise. */
  function OutlineSourceImageFileKey(sourceImageId: string): (r: Result<Option<string>, DecodeError>)
    ensures MatchOutlineSourceId(sourceImageId).None? ==> r == Ok(None)
    ensures MatchOutlineSourceId(sourceImageId).Some? ==>
              (r.Err? <==> DecodeDocumentId(MatchOutlineSourceId(sourceImageId).value.0).Err?)
    ensures r.Ok? && r.value.Some? ==> EndsWith(r.value.value, ".png")
  {
    match MatchOutlineSourceId(sourceImageId)
    case None => Ok(None)
    case Some((id, digits)) =>
      match DecodeDocumentId(id)
      case Err(e) => Err(e)
      case Ok(rec) => Ok(Some(OutlineSourceImageKey(rec, DigitsValue(digits))))
  }

  // ---------------------------------------------------------------- suffix round trips

  /** The id the outline highlighter gives the image of page `page`. */
  function OutlineSourceImageId(id: string, page: nat): string
  {
    id + DosiTail(NatToString(page), "")
  }

  /** The tail of a table-image id is read back as its page and table numbers. */
  lemma TableTailOf(page: string, table: string, trailing: string)
    requires page != [] && AllDigits(page) && table != [] && AllDigits(table)
    requires trailing == [] || !IsDigit(trailing[0])
    ensures TableSuffix(TableTail(page, table, trailing)) == Some((page, table))
  {
    var after := "_TN" + (table + trailing);
    var rest := page + after;
    var tail := "_PN" + rest;
    AppendStartsWith("_PN", rest);
    assert tail[3..] == rest;
    DigitRunOf(page, after);
    assert rest[|page|..] == after;
    AppendStartsWith("_TN", table + trailing);
    assert rest[|page| + 3..] == table + trailing;
    DigitRunOf(table, trailing);
  }

  /** The suffix `_PN<page>_TN<table>` and whatever follows it. */
  function TableTail(page: string, table: string, trailing: string): string
  {
    "_PN" + (page + ("_TN" + (table + trailing)))
  }

  /** No later split point reads a table tail: the only `_` after the first one is the
      one of `_TN`, which is not followed by `P`. */
  lemma NoLaterTableTail(page: string, table: string, trailing: string, m: nat)
    requires AllDigits(page) && AllDigits(table) && Excludes(trailing, '_')
    requires 0 < m <= |TableTail(page, table, trailing)|
    ensures TableSuffix(TableTail(page, table, trailing)[m..]).None?
  {
    var tail := TableTail(page, table, trailing);
    var p := |page|;
    if m == 3 + p {
      assert tail[m..][1] == 'T';
      DiffersAt(tail[m..], "_PN", 1);
    } else if m < |tail| {
      if m < 3 {
      } else if m < 3 + p {
        assert tail[m] == page[m - 3];
      } else if m < 6 + p {
      } else if m < 6 + p + |table| {
        assert tail[m] == table[m - 6 - p];
      } else {
        assert tail[m] == trailing[m - 6 - p - |table|];
      }
      DiffersAt(tail[m..], "_PN", 0);
    }
  }

  /** A table-image id built from an id without line breaks is split back into its parts,
      whatever follows the table number, as long as it does not go on with a digit or hold
      a `_`. */
  lemma MatchTableIdOf(id: string, page: string, table: string, trailing: string)
    requires id != [] && Excludes(id, '\n')
    requires page != [] && AllDigits(page) && table != [] && AllDigits(table)
    requires (trailing == [] || !IsDigit(trailing[0])) && Excludes(trailing, '_')
    ensures MatchTableId(id + TableTail(page, table, trailing)) == Some((id, page, table))
  {
    var s := id + TableTail(page, table, trailing);
    TableSplitOf(id, page, table, trailing);
    assert s[..|id|] == id && s[|id|..] == TableTail(page, table, trailing);
    TableTailOf(page, table, trailing);
  }

  /** The search for the table tail stops right after the id. */
  lemma TableSplitOf(id: string, page: string, table: string, trailing: string)
    requires id != [] && Excludes(id, '\n')
    requires page != [] && AllDigits(page) && table != [] && AllDigits(table)
    requires (trailing == [] || !IsDigit(trailing[0])) && Excludes(trailing, '_')
    ensures var s := id + TableTail(page, table, trailing);
      LastSplit(s, IndexOf(s, '\n'), 1, HasTableSuffix) == Some(|id|)
  {
    var tail := TableTail(page, table, trailing);
    var s := id + tail;
    var k := |id|;
    ConcatParts(id, tail);
    TableTailOf(page, table, trailing);
    assert HasTableSuffix(s[k..]);
    NoLineBreakBefore(s, k);
    var bound := IndexOf(s, '\n');
    forall j | k < j <= bound
      ensures !HasTableSuffix(s[j..])
    {
      ConcatDrop(id, tail, j);
      NoLaterTableTail(page, table, trailing, j - k);
    }
    LastSplitAt(s, k, bound, 1, HasTableSuffix);
  }

  /** The suffix `_PN<digits>_DOSI`, optionally followed by the one line break `$` allows. */
  function DosiTail(digits: string, trailing: string): string
  {
    "_PN" + (digits + ("_DOSI" + trailing))
  }

  /** The tail of an outline-source id is read back as its page digits. */
  lemma DosiTailOf(digits: string, trailing: string)
    requires digits != [] && AllDigits(digits)
    requires trailing == "" || trailing == "\n"
    ensures OutlineSourceSuffix(DosiTail(digits, trailing)) == Some(digits)
  {
    var after := "_DOSI" + trailing;
    var rest := digits + after;
    var tail := "_PN" + rest;
    AppendStartsWith("_PN", rest);
    assert tail[3..] == rest;
    DigitRunOf(digits, after);
    assert rest[|digits|..] == after;
  }

  /** No later split point reads an outline-source tail: the only `_` after the first one
      is followed by `D`. */
  lemma NoLaterDosiTail(digits: string, trailing: string, m: nat)
    requires AllDigits(digits) && (trailing == "" || trailing == "\n")
    requires 0 < m <= |DosiTail(digits, trailing)|
    ensures OutlineSourceSuffix(DosiTail(digits, trailing)[m..]).None?
  {
    var tail := DosiTail(digits, trailing);
    var p := |digits|;
    if m == 3 + p {
      assert tail[m..][1] == 'D';
      DiffersAt(tail[m..], "_PN", 1);
    } else if m < |tail| {
      if m < 3 {
      } else if m < 3 + p {
        assert tail[m] == digits[m - 3];
      } else if m < 8 + p {
      } else {
        assert tail[m] == trailing[m - 8 - p];
      }
      DiffersAt(tail[m..], "_PN", 0);
    }
  }

  /** An outline-source id built from an id without line breaks is split back into the id and
      the page digits, with or without one final line break. */
  lemma MatchOutlineSourceIdOf(id: string, digits: string, trailing: string)
    requires Excludes(id, '\n')
    requires digits != [] && AllDigits(digits)
    requires trailing == "" || trailing == "\n"
    ensures MatchOutlineSourceId(id + DosiTail(digits, trailing)) == Some((id, digits))
  {
    var s := id + DosiTail(digits, trailing);
    DosiSplitOf(id, digits, trailing);
    assert s[..|id|] == id && s[|id|..] == DosiTail(digits, trailing);
    DosiTailOf(digits, trailing);
  }

  /** The search for the outline-source tail stops right after the id. */
  lemma DosiSplitOf(id: string, digits: string, trailing: string)
    requires Excludes(id, '\n')
    requires digits != [] && AllDigits(digits)
    requires trailing == "" || trailing == "\n"
    ensures var s := id + DosiTail(digits, trailing);
      LastSplit(s, IndexOf(s, '\n'), 0, HasOutlineSourceSuffix) == Some(|id|)
  {
    var tail := DosiTail(digits, trailing);
    var s := id + tail;
    var k := |id|;
    assert s[..k] == id;
    assert s[k..] == tail;
    DosiTailOf(digits, trailing);
    assert HasOutlineSourceSuffix(s[k..]);
    NoLineBreakBefore(s, k);
    var bound := IndexOf(s, '\n');
    forall j | k < j <= bound
      ensures !HasOutlineSourceSuffix(s[j..])
    {
      assert s[j..] == tail[j - k..];
      NoLaterDosiTail(digits, trailing, j - k);
    }
    LastSplitAt(s, k, bound, 0, HasOutlineSourceSuffix);
  }

  /** The outline-source image of page `page` of a document is looked up under the key of the
      decoded owner and name and of that page. */
  lemma OutlineSourceKeyOfId(userId: string, documentName: string, timestamp: string, page: nat)
    ensures var id := EncodeDocumentId(userId, documentName, timestamp);
            OutlineSourceImageFileKey(OutlineSourceImageId(id, page))
            == Ok(Some(OutlineSourceImageKey(Record(userId, RemoveAll(documentName, ".pdf"), timestamp), page)))
  {
    var id := EncodeDocumentId(userId, documentName, timestamp);
    EncodedIdAlphabet(userId, documentName, timestamp);
    DecodeEncodeDocumentId(userId, documentName, timestamp);
    OutlineSourceKeyOf(id, NatToString(page), "", Record(userId, RemoveAll(documentName, ".pdf"), timestamp));
    DigitsValueOfNatToString(page);
  }

  /** For an outline-source id in front of which stands a valid id, the key is built from the
      decoded record and the value of the page digits, so leading zeros are dropped. */
  lemma OutlineSourceKeyOf(id: string, digits: string, trailing: string, rec: Record)
    requires Excludes(id, '\n') && DecodeDocumentId(id) == Ok(rec)
    requires digits != [] && AllDigits(digits)
    requires trailing == "" || trailing == "\n"
    ensures OutlineSourceImageFileKey(id + DosiTail(digits, trailing))
            == Ok(Some(OutlineSourceImageKey(rec, DigitsValue(digits))))
  {
    MatchOutlineSourceIdOf(id, digits, trailing);
  }

  /** For a table-image id in front of which stands a valid id, the key is built from the
      decoded record and the digit strings as they are, leading zeros included, when what
      follows the table number holds no `_` and does not start with a digit. */
  lemma TableKeyOf(id: string, page: string, table: string, trailing: string, rec: Record)
    requires Excludes(id, '\n') && id != [] && DecodeDocumentId(id) == Ok(rec)
    requires page != [] && AllDigits(page) && table != [] && AllDigits(table)
    requires (trailing == [] || !IsDigit(trailing[0])) && Excludes(trailing, '_')
    ensures ExtractedTableImageFileKey(id + TableTail(page, table, trailing))
            == Ok(Some(TableImageKey(rec, page, table)))
  {
    MatchTableIdOf(id, page, table, trailing);
  }

  /** `int("007")` is 7. */
  lemma LeadingZerosValue()
    ensures DigitsValue("007") == 7
  {
    assert "007"[..2] == "00" && "00"[..1] == "0" && "0"[..0] == "";
  }

  /** A text that is not an id: one base64 character is a dangling quad. */
  lemma NotAnId()
    ensures DecodeDocumentId("x") == Err(Base64Error)
  {
    Base64.ReadFirst("x", []);
    assert "x"[1..] == [];
    assert Base64.Decode("x").None?;
  }

  /** When the suffix matches, the id in front of it is decoded without a guard: a prefix that
      is not an id makes the key function raise instead of answering `None`. */
  lemma UnguardedTableDecode()
    ensures ExtractedTableImageFileKey("x" + TableTail("1", "2", "")) == Err(Base64Error)
  {
    MatchTableIdOf("x", "1", "2", "");
    NotAnId();
  }

  lemma UnguardedOutlineSourceDecode()
    ensures OutlineSourceImageFileKey("x" + DosiTail("1", "")) == Err(Base64Error)
  {
    MatchOutlineSourceIdOf("x", "1", "");
    NotAnId();
  }

  lemma DigitRunOf(digits: string, rest: string)
    requires AllDigits(digits)
    requires rest == [] || !IsDigit(rest[0])
    ensures DigitRun(digits + rest) == |digits|
    ensures (digits + rest)[..|digits|] == digits
  {
  }

  lemma NoLineBreakBefore(s: string, k: nat)
    requires k <= |s| && Excludes(s[..k], '\n')
    ensures k <= IndexOf(s, '\n')
  {
  }
}
