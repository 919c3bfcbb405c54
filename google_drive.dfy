/** The Google Drive source: a Drive file becomes a `DriveDocument` with id `drive_<file id>`,
    the folder is listed page by page with a query over the supported MIME types, and syncing
    indexes the PDF and plain-text files whose text is not blank. The Drive API, the download,
    PDF text extraction and indexing are parameters: an API answer is given as data, and a
    call that raises is `None` or `false`. */
module GoogleDrive {
  import opened Wrappers
  import opened Strings
  import Utf8
  import CT = ContentType

  /** A listed file as the API returns it: field name to value. */
  type FileMeta = map<string, string>

  /** `DriveDocument`; `size` is the API's `size` field when the file has one. */
  datatype DriveDocument = DriveDocument(fileId: string, name: string, mimeType: string,
                                         modifiedTime: string, webViewLink: string, size: Option<string>)
  {
    /** The id the document is indexed under. */
    function DocumentId(): string {
      "drive_" + fileId
    }
  }

  /** What `to_dict` stores. */
  datatype DriveRecord = DriveRecord(fileId: string, documentId: string, name: string, mimeType: string,
                                     modifiedTime: string, webViewLink: string, size: Option<string>,
                                     sourceType: string)

  /** `to_dict`. */
  function ToDict(d: DriveDocument): (r: DriveRecord)
    ensures r.documentId == "drive_" + d.fileId && r.sourceType == "google_drive"
    ensures StartsWith(r.documentId, "drive_")
  {
    DriveRecord(d.fileId, d.DocumentId(), d.name, d.mimeType, d.modifiedTime, d.webViewLink, d.size,
                "google_drive")
  }

  /** Reads a stored record back as a document. */
  function FromDict(r: DriveRecord): DriveDocument {
    DriveDocument(r.fileId, r.name, r.mimeType, r.modifiedTime, r.webViewLink, r.size)
  }

  /** A stored record holds everything the document had. */
  lemma FromToDict(d: DriveDocument)
    ensures FromDict(ToDict(d)) == d
    ensures ToDict(FromDict(ToDict(d))) == ToDict(d)
  {
  }

  /** Different Drive files never share a document id. */
  lemma DocumentIdInjective(d: DriveDocument, e: DriveDocument)
    ensures d.DocumentId() == e.DocumentId() <==> d.fileId == e.fileId
  {
    if d.DocumentId() == e.DocumentId() {
      assert d.fileId == d.DocumentId()[6..];
      assert e.fileId == e.DocumentId()[6..];
    }
  }

  /** `_supported_mime_types`: MIME type to file extension. */
  const SupportedMimeTypes: CT.Entries<string> := [
    ("application/pdf", ".pdf"),
    ("application/vnd.openxmlformats-officedocument.wordprocessingml.document", ".docx"),
    ("application/msword", ".doc"),
    ("application/vnd.openxmlformats-officedocument.spreadsheetml.sheet", ".xlsx"),
    ("application/vnd.ms-excel", ".xls"),
    ("image/png", ".png"),
    ("image/jpeg", ".jpg"),
    ("image/gif", ".gif"),
    ("text/plain", ".txt")
  ]

  /** `is_supported_format`. */
  predicate IsSupportedFormat(mimeType: string) {
    mimeType in CT.Keys(SupportedMimeTypes)
  }

  /** Nine MIME types are supported, each listed once, and a type is supported exactly when
      the table gives it an extension. */
  lemma SupportedFormats(mimeType: string)
    ensures |CT.Keys(SupportedMimeTypes)| == 9
    ensures IsSupportedFormat(mimeType) <==> CT.Get(SupportedMimeTypes, mimeType).Some?
  {
  }

  /** `mimeType='<type>'`. */
  function MimeClause(mimeType: string): string {
    "mimeType='" + mimeType + "'"
  }

  function MimeClauses(types: seq<string>): (r: seq<string>)
    ensures |r| == |types|
    ensures forall i :: 0 <= i < |types| ==> r[i] == MimeClause(types[i])
  {
    if types == [] then [] else [MimeClause(types[0])] + MimeClauses(types[1..])
  }

  /** The query of `list_medical_documents`. */
  function Query(folder: string, types: seq<string>): string {
    "'" + folder + "' in parents and (" + Join(MimeClauses(types), " or ") + ") and trashed=false"
  }

  /** An occurrence in `b` is an occurrence in `a + b`, shifted by `|a|`. */
  lemma OccursAfter(a: string, b: string, sub: string, j: nat)
    requires OccursAt(b, sub, j)
    ensures OccursAt(a + b, sub, |a| + j)
  {
    assert (a + b)[|a| + j..|a| + j + |sub|] == b[j..j + |sub|];
  }

  /** An occurrence in `a` is an occurrence in `a + b`. */
  lemma OccursBefore(a: string, b: string, sub: string, j: nat)
    requires OccursAt(a, sub, j)
    ensures OccursAt(a + b, sub, j)
  {
    assert (a + b)[j..j + |sub|] == a[j..j + |sub|];
  }

  /** Every part of a join occurs in it. */
  lemma {:induction false} JoinContains(parts: seq<string>, sep: string, i: nat)
    requires i < |parts|
    ensures exists j :: 0 <= j <= |Join(parts, sep)| - |parts[i]| && OccursAt(Join(parts, sep), parts[i], j)
  {
    assert OccursAt(parts[i], parts[i], 0);
    if |parts| == 1 {
      assert Join(parts, sep) == parts[i];
    } else {
      var rest := Join(parts[1..], sep);
      assert Join(parts, sep) == parts[0] + sep + rest;
      if i == 0 {
        OccursBefore(parts[0], sep + rest, parts[0], 0);
        assert parts[0] + (sep + rest) == Join(parts, sep);
      } else {
        JoinContains(parts[1..], sep, i - 1);
        var j :| 0 <= j <= |rest| - |parts[i]| && OccursAt(rest, parts[1..][i - 1], j);
        OccursAfter(parts[0] + sep, rest, parts[i], j);
      }
    }
  }

  /** The query names the folder, ends with the trash filter and asks for every given type. */
  lemma QueryMentions(folder: string, types: seq<string>, i: nat)
    requires i < |types|
    ensures StartsWith(Query(folder, types), "'" + folder + "' in parents and (")
    ensures EndsWith(Query(folder, types), ") and trashed=false")
    ensures Contains(Query(folder, types), MimeClause(types[i]))
  {
    var head := "'" + folder + "' in parents and (";
    var mid := Join(MimeClauses(types), " or ");
    var tail := ") and trashed=false";
    assert Query(folder, types) == head + mid + tail;
    AppendStartsWith(head, mid + tail);
    AppendEndsWith(head + mid, tail);
    JoinContains(MimeClauses(types), " or ", i);
    var j :| 0 <= j <= |mid| - |MimeClause(types[i])| && OccursAt(mid, MimeClause(types[i]), j);
    OccursAfter(head, mid, MimeClause(types[i]), j);
    OccursBefore(head + mid, tail, MimeClause(types[i]), |head| + j);
  }

  /** The listing query asks for every supported type. */
  lemma QueryAsksSupported(folder: string, mimeType: string)
    requires IsSupportedFormat(mimeType)
    ensures Contains(Query(folder, CT.Keys(SupportedMimeTypes)), MimeClause(mimeType))
  {
    var types := CT.Keys(SupportedMimeTypes);
    var i :| 0 <= i < |types| && types[i] == mimeType;
    QueryMentions(folder, types, i);
  }

  /** One answer of `files().list`: its files and its `nextPageToken`. */
  datatype Page = Page(files: seq<FileMeta>, nextPageToken: Option<string>)

  /** `not page_token`: no token, or an empty one. */
  predicate Last(p: Page) {
    p.nextPageToken.None? || p.nextPageToken.value == ""
  }

  /** Some answer ends the listing. */
  predicate Ends(pages: seq<Page>) {
    exists i :: 0 <= i < |pages| && Last(pages[i])
  }

  /** The index of the answer that ends the listing. */
  function Stop(pages: seq<Page>): (n: nat)
    requires Ends(pages)
    ensures n < |pages| && Last(pages[n])
    ensures forall i :: 0 <= i < n ==> !Last(pages[i])
  {
    if Last(pages[0]) then 0
    else
      assert Ends(pages[1..]) by {
        var i :| 0 <= i < |pages| && Last(pages[i]);
        assert pages[1..][i - 1] == pages[i];
      }
      var n := Stop(pages[1..]);
      assert forall i :: 1 <= i < n + 1 ==> pages[i] == pages[1..][i - 1];
      n + 1
  }

  /** The files of the given answers, in order. */
  function Flatten(pages: seq<Page>): seq<FileMeta> {
    if pages == [] then [] else Flatten(pages[..|pages| - 1]) + pages[|pages| - 1].files
  }

  /** The files the listing collects: those of every answer up to the one that ends it. */
  function Listed(pages: seq<Page>): seq<FileMeta>
    requires Ends(pages)
  {
    Flatten(pages[..Stop(pages) + 1])
  }

  /** `_list_files`: the `n`-th request answers `pages[n]`. The loop sends the token of the
      previous answer (none at first), collects the files in order and stops at the first
      answer without a token. */
  method ListFiles(pages: seq<Page>) returns (files: seq<FileMeta>, tokens: seq<Option<string>>)
    requires Ends(pages)
    ensures files == Listed(pages)
    ensures |tokens| == Stop(pages) + 1 && tokens[0] == None
    ensures forall i :: 0 < i < |tokens| ==> tokens[i] == pages[i - 1].nextPageToken
  {
    files := [];
    tokens := [];
    var pageToken: Option<string> := None;
    var n := 0;
    while true
      invariant n <= Stop(pages)
      invariant files == Flatten(pages[..n])
      invariant |tokens| == n && (n > 0 ==> tokens[0] == None)
      invariant forall i :: 0 < i < n ==> tokens[i] == pages[i - 1].nextPageToken
      invariant pageToken == if n == 0 then None else pages[n - 1].nextPageToken
      decreases Stop(pages) - n
    {
      tokens := tokens + [pageToken];
      var results := pages[n];
      assert pages[..n + 1][..n] == pages[..n];
      files := files + results.files;
      pageToken := results.nextPageToken;
      if pageToken.None? || pageToken.value == "" {
        return;
      }
      n := n + 1;
    }
  }

  /** Answers after the one that ends the listing are never read. */
  lemma ListedIgnoresLater(pages: seq<Page>, later: seq<Page>)
    requires Ends(pages)
    ensures Ends(pages[..Stop(pages) + 1] + later)
    ensures Listed(pages[..Stop(pages) + 1] + later) == Listed(pages)
  {
    var n := Stop(pages);
    var q := pages[..n + 1] + later;
    assert q[n] == pages[n];
    assert forall i :: 0 <= i <= n ==> q[i] == pages[i];
    assert Last(q[n]);
    assert forall i :: 0 <= i < n ==> !Last(q[i]);
    var m := Stop(q);
    assert q[..m + 1] == pages[..n + 1];
  }

  /** One file as a document, `None` when a field the constructor reads is missing (the
      `KeyError` ends the listing with no documents). */
  function ToDocument(file: FileMeta): (r: Option<DriveDocument>)
    ensures r.Some? <==> "id" in file && "name" in file && "mimeType" in file
                          && "modifiedTime" in file && "webViewLink" in file
    ensures r.Some? ==> r.value.fileId == file["id"] && r.value.mimeType == file["mimeType"]
  {
    if "id" in file && "name" in file && "mimeType" in file && "modifiedTime" in file && "webViewLink" in file
    then Some(DriveDocument(file["id"], file["name"], file["mimeType"], file["modifiedTime"],
                            file["webViewLink"], if "size" in file then Some(file["size"]) else None))
    else None
  }

  /** Every file as a document, in order; `None` when one of them lacks a field. */
  function Documents(files: seq<FileMeta>): (r: Option<seq<DriveDocument>>)
    ensures r.Some? <==> forall i :: 0 <= i < |files| ==> ToDocument(files[i]).Some?
    ensures r.Some? ==> |r.value| == |files|
                        && forall i :: 0 <= i < |files| ==> Some(r.value[i]) == ToDocument(files[i])
  {
    if files == [] then Some([])
    else
      var last := files[|files| - 1];
      match Documents(files[..|files| - 1])
      case None => None
      case Some(docs) =>
        match ToDocument(last)
        case None => None
        case Some(d) => Some(docs + [d])
  }

  /** The conversion loop of `list_medical_documents`. */
  method ConvertFiles(files: seq<FileMeta>) returns (r: Option<seq<DriveDocument>>)
    ensures r == Documents(files)
  {
    var documents := [];
    var i := 0;
    while i < |files|
      invariant 0 <= i <= |files|
      invariant Documents(files[..i]) == Some(documents)
    {
      assert files[..i + 1][..i] == files[..i];
      var doc := ToDocument(files[i]);
      if doc.None? {
        assert forall j :: 0 <= j <= i ==> files[..i + 1][j] == files[j];
        assert Documents(files[..i + 1]).None?;
        PrefixNone(files, i + 1);
        return None;
      }
      documents := documents + [doc.value];
      i := i + 1;
    }
    assert files[..i] == files;
    r := Some(documents);
  }

  /** A file without a field in a prefix empties the whole conversion. */
  lemma PrefixNone(files: seq<FileMeta>, n: nat)
    requires n <= |files| && Documents(files[..n]).None?
    ensures Documents(files).None?
  {
    var i :| 0 <= i < n && ToDocument(files[..n][i]).None?;
    assert files[..n][i] == files[i];
  }

  /** The Drive settings: whether Drive is configured, and the default folder. */
  datatype Settings = Settings(isConfigured: bool, folderId: string)

  /** `list_medical_documents`. `authenticated` says whether a service exists or
      authentication succeeds; `api` answers a query with its pages, or `None` when the API
      raises. Every failure yields no documents. */
  method ListMedicalDocuments(settings: Settings, authenticated: bool, folderId: Option<string>,
                              api: string -> Option<seq<Page>>)
    returns (docs: seq<DriveDocument>)
    requires forall q :: api(q).Some? ==> Ends(api(q).value)
    ensures !settings.isConfigured || !authenticated ==> docs == []
    ensures var folder := if folderId.Some? && folderId.value != "" then folderId.value else settings.folderId;
      && (folder == "" ==> docs == [])
      && (settings.isConfigured && authenticated && folder != "" ==>
            var answer := api(Query(folder, CT.Keys(SupportedMimeTypes)));
            && (answer.None? ==> docs == [])
            && (answer.Some? ==>
                  var converted := Documents(Listed(answer.value));
                  docs == if converted.Some? then converted.value else []))
  {
    if !settings.isConfigured {
      return [];
    }
    if !authenticated {
      return [];
    }
    var folder := if folderId.Some? && folderId.value != "" then folderId.value else settings.folderId;
    if folder == "" {
      return [];
    }
    var query := Query(folder, CT.Keys(SupportedMimeTypes));
    var answer := api(query);
    if answer.None? {
      return [];
    }
    var files, _ := ListFiles(answer.value);
    var converted := ConvertFiles(files);
    if converted.None? {
      return [];
    }
    docs := converted.value;
  }

  /** The outside calls of one sync: `download` gives a file's bytes and name (`None` when
      the download fails), `extractPdf` the text of PDF bytes (`None` when extraction raises),
      and `indexes` whether indexing a text under an id completes without raising. */
  datatype SyncOracles = SyncOracles(download: string -> Option<(seq<Byte>, string)>,
                                     extractPdf: (seq<Byte>, string) -> Option<string>,
                                     indexes: (string, string) -> bool)

  /** The text extracted from a document, `None` when the document is skipped before
      indexing: failed download, failed extraction or decoding, a type without extraction,
      or only whitespace. */
  function ExtractedText(doc: DriveDocument, o: SyncOracles): (r: Option<string>)
    ensures r.Some? ==> (doc.mimeType == "application/pdf" || doc.mimeType == "text/plain")
    ensures r.Some? ==> o.download(doc.fileId).Some? && !AllSpace(r.value)
  {
    match o.download(doc.fileId)
    case None => None
    case Some(downloaded) =>
      var text :=
        if doc.mimeType == "application/pdf" then o.extractPdf(downloaded.0, downloaded.1)
        else if doc.mimeType == "text/plain" then Utf8.Decode(downloaded.0)
        else None;
      if text.None? then None
      else
        StripBlank(text.value);
        if Strip(text.value) == "" then None else text
  }

  /** A string whose strip is not empty has a character that is not whitespace. */
  lemma StripBlank(s: string)
    ensures Strip(s) == "" <==> AllSpace(s)
  {
    StripParts(s);
  }

  /** The ids `sync_drive_documents` reports for the listed documents, in listing order. */
  function SyncedIds(docs: seq<DriveDocument>, o: SyncOracles): (r: seq<string>)
    ensures |r| <= |docs|
  {
    if docs == [] then []
    else
      var d := docs[|docs| - 1];
      var earlier := SyncedIds(docs[..|docs| - 1], o);
      match ExtractedText(d, o)
      case Some(text) => if o.indexes(text, d.DocumentId()) then earlier + [d.DocumentId()] else earlier
      case None => earlier
  }

  /** `sync_drive_documents` over the listed documents: each is downloaded, its text
      extracted (PDF) or decoded (plain text), and the id reported once indexing succeeds. */
  method SyncDriveDocuments(documents: seq<DriveDocument>, o: SyncOracles) returns (syncedIds: seq<string>)
    ensures syncedIds == SyncedIds(documents, o)
  {
    syncedIds := [];
    var i := 0;
    while i < |documents|
      invariant 0 <= i <= |documents|
      invariant syncedIds == SyncedIds(documents[..i], o)
    {
      var doc := documents[i];
      assert documents[..i + 1][..i] == documents[..i];
      assert documents[..i + 1][i] == doc;
      var contentResult := o.download(doc.fileId);
      i := i + 1;
      if contentResult.None? {
        continue;
      }
      var content, filename := contentResult.value.0, contentResult.value.1;
      var extractedText := "";
      if doc.mimeType == "application/pdf" {
        var extracted := o.extractPdf(content, filename);
        if extracted.None? {
          continue;
        }
        extractedText := extracted.value;
      } else if doc.mimeType == "text/plain" {
        var decoded := Utf8.Decode(content);
        if decoded.None? {
          continue;
        }
        extractedText := decoded.value;
      } else {
        continue;
      }
      if Strip(extractedText) == "" {
        continue;
      }
      if !o.indexes(extractedText, doc.DocumentId()) {
        continue;
      }
      syncedIds := syncedIds + [doc.DocumentId()];
    }
    assert documents[..i] == documents;
  }

  /** Every reported id is the id of a listed PDF or plain-text document that downloaded,
      whose text is not blank and whose indexing succeeded; ids keep the listing order. */
  lemma {:induction false} SyncedFrom(docs: seq<DriveDocument>, o: SyncOracles, k: nat)
    requires k < |SyncedIds(docs, o)|
    ensures exists i :: 0 <= i < |docs| && docs[i].DocumentId() == SyncedIds(docs, o)[k]
                        && ExtractedText(docs[i], o).Some?
                        && o.indexes(ExtractedText(docs[i], o).value, docs[i].DocumentId())
  {
    var init := docs[..|docs| - 1];
    var d := docs[|docs| - 1];
    if k < |SyncedIds(init, o)| {
      SyncedFrom(init, o, k);
      var i :| 0 <= i < |init| && init[i].DocumentId() == SyncedIds(init, o)[k]
               && ExtractedText(init[i], o).Some?
               && o.indexes(ExtractedText(init[i], o).value, init[i].DocumentId());
      assert docs[i] == init[i];
    } else {
      assert docs[|docs| - 1] == d;
    }
  }

  /** A document is reported exactly when its own outcome is success, whatever the others do:
      adding a document adds its id at the end or nothing. */
  lemma SyncedAppend(docs: seq<DriveDocument>, d: DriveDocument, o: SyncOracles)
    ensures var text := ExtractedText(d, o);
      SyncedIds(docs + [d], o)
        == SyncedIds(docs, o) + (if text.Some? && o.indexes(text.value, d.DocumentId()) then [d.DocumentId()] else [])
  {
    assert (docs + [d])[..|docs|] == docs;
  }
}
