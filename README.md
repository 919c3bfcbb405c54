# Document enrichment pipeline of the healthcare content assistant, in Dafny

This project models the part of the assistant that turns an uploaded PDF into the
artefacts the rest of the application reads: the document id and the storage keys
derived from it, the marked text handed to the vector store and its chunks, the
outline of a document and its source images, the document catalogue kept in the
database, the object store, the prompt used to generate content, the question flow
that collects the generation parameters, and the Google Drive synchronisation.

Modules, one per source file or concern:

- `Wrappers`, `Strings` — `Option`/`Result` and the string operations the Python code relies on (`split`, `strip`, `join`, `startswith`, `in`, decimal numbers).
- `Utf8`, `Base64`, `JsonRecord` — the encodings a document id is made of: a JSON object of three fields, UTF-8 encoded, then Base64 encoded in the standard alphabet (with `+` and `/`).
- `DocumentEncoder` — `app/services/document_encoder.py`: encoding and decoding document ids and the ids and keys of previews, thumbnails, tables, images and outline sources.
- `ExtractionEngine`, `Chunker`, `MarkerRoundTrip` — the marked text written for vectorisation (`extraction_engine.py`), its splitting into marked chunks (`chunker.py`), and the proof that the chunker reads back the document and the pages the extractor wrote.
- `OutlineParsing`, `Outline` — `generate_save_document_ouline.py`: reading the model's outline answer and building the outline record and its source image uploads.
- `ProcessDocument` — `process_document.py`: the vector store collection, the upsert of the chunks, the document name and the overall status of the processing.
- `S3Host` — `s3host.py`, with the bucket as a map from keys to bytes.
- `Docs` — `doc.py`, with the collection as a class holding a sequence of records.
- `ContentType`, `PromptBuilder`, `ContentGeneration`, `QuestionFlow` — the content hierarchy, the prompt templates and `str.format`, content generation and the question-and-answer flow.
- `GoogleDrive` — `google_drive_service.py`: document records, the listing query, pagination, conversion and synchronisation.

State that the source changes in place is modelled by classes (`Docs.DocRepository`,
`S3Host.ObjectStore`, `ProcessDocument.VectorStore`);
loops of the source are methods proved against the functions that specify them.

## Model

| member | source | states |
|---|---|---|
| DocumentEncoder.DecodeDocumentId | app/services/document_encoder.py:60-79 | a decoded record exists only when base64 decoding, strict UTF-8 decoding and `json.loads` with the three key lookups all succeed, and it is the record those steps read; each failing step is its own error |
| DocumentEncoder.DecodeEncoded | app/services/document_encoder.py:56-57 | for any text the JSON reader accepts, decoding the base64 of its UTF-8 bytes gives back the record read from it |
| DocumentEncoder.DecodeEncodeDocumentId | app/services/document_encoder.py:27-79 | decoding an encoded id gives back the user id, the name with every `.pdf` removed, and the timestamp |
| DocumentEncoder.EncodingExcludes | app/services/document_encoder.py:56 | a base64 text has a length divisible by four, only alphabet characters and `=`, and neither `_` nor a line break |
| DocumentEncoder.EncodedIdAlphabet | app/services/document_encoder.py:41-57 | every encoded id uses only the base64 alphabet and `=`, has a length divisible by four and holds no `_` and no line break, so the `_PN` suffixes cannot clash with it |
| DocumentEncoder.PdfRemovalSuffix | app/services/document_encoder.py:42 | `doc.pdf` becomes `doc` |
| DocumentEncoder.PdfRemovalInside | app/services/document_encoder.py:42 | `.pdf` is removed inside the name too: `a.pdf.b` becomes `a.b` |
| DocumentEncoder.PdfRemovalCase | app/services/document_encoder.py:42 | the removal is case-sensitive: `X.PDF` is unchanged |
| DocumentEncoder.PdfRemovalSinglePass | app/services/document_encoder.py:42 | the removal makes one pass, so a `.pdf` can be formed by it: `a.p.pdfdf` becomes `a.pdf` |
| DocumentEncoder.RemovePdfSuffix | app/services/document_encoder.py:42 | a name with a single `.pdf` at its end loses exactly that suffix |
| DocumentEncoder.Folder | app/services/document_encoder.py:123-200 | every folder key of a record (previews, tables, outline sources) lies under the user's root and the folder's own area, and ends in `/` |
| DocumentEncoder.PreviewPageKey | app/services/document_encoder.py:149 | a page preview key lies in the preview folder and ends in `.png` |
| DocumentEncoder.ThumbnailImageFileKey | app/services/document_encoder.py:95-106 | raises exactly when decoding the id raises; otherwise the key lies in the record's preview folder and ends in `Page 1.png` |
| DocumentEncoder.OriginalDocumentFileKey | app/services/document_encoder.py:109-120 | raises exactly when decoding raises; otherwise the key ends in `.pdf` |
| DocumentEncoder.PreviewImagesFolderKey | app/services/document_encoder.py:123-134 | raises exactly when decoding raises; otherwise the key ends in `/` |
| DocumentEncoder.PreviewImagesFileKey | app/services/document_encoder.py:137-149 | raises exactly when decoding raises; otherwise the key ends in `.png` |
| DocumentEncoder.TableImagesFolderKey | app/services/document_encoder.py:152-163 | raises exactly when decoding raises; otherwise the key ends in `/` |
| DocumentEncoder.OutlineSourceImagesFolderKey | app/services/document_encoder.py:189-200 | raises exactly when decoding raises; otherwise the key ends in `/` |
| DocumentEncoder.HighlightHelperTableFileKey | app/services/document_encoder.py:226-237 | raises exactly when decoding raises; otherwise the key ends in `.csv` |
| DocumentEncoder.ThumbnailIsFirstPreview | app/services/document_encoder.py:95-106 | the thumbnail key of an id is its preview key for page 1, failures included |
| DocumentEncoder.FirstPageName | app/services/document_encoder.py:106 | page 1 is rendered as `Page 1.png` |
| DocumentEncoder.PreviewFolderIsPrefix | app/services/document_encoder.py:123-149 | the preview folder key is a prefix of every page preview key of the same id |
| DocumentEncoder.TableFolderIsPrefix | app/services/document_encoder.py:152-184 | the table folder key is a prefix of every table image key of the same id |
| DocumentEncoder.OutlineSourceFolderIsPrefix | app/services/document_encoder.py:189-221 | the outline source folder key is a prefix of every outline source image key of the same id |
| DocumentEncoder.OriginalKeyOfUpload | app/services/document_encoder.py:109-120 | the id made for an upload `<stem>.pdf` whose stem has no other `.pdf` leads to `DB/USERS/<user>/docs/<stem>.pdf` |
| DocumentEncoder.OriginalKeyOfDecoded | app/services/document_encoder.py:119-120 | the original key is `DB/USERS/<user>/docs/<name>.pdf` of the decoded record |
| DocumentEncoder.UppercaseExtensionKey | app/services/document_encoder.py:42 | an upload named `X.PDF` keeps its extension in the id, so the derived key is `X.PDF.pdf`, not the name it was uploaded under |
| DocumentEncoder.DigitRun | app/services/document_encoder.py:178 | the `\d+` run at the start of a text: all digits, and not followed by a digit |
| DocumentEncoder.LastSplitLast | app/services/document_encoder.py:178 | the greedy group ends at the last split point from which the rest of the pattern matches, and there is none when no point matches |
| DocumentEncoder.LastSplitAt | app/services/document_encoder.py:178 | a matching split point with no matching point after it is the one the greedy search finds |
| DocumentEncoder.MatchTableId | app/services/document_encoder.py:178-179 | `re.match(r"(.+)_PN(\d+)_TN(\d+)")`: the id part is non-empty, line-break free and as long as possible, the rest reads as page and table digits; no match exactly when no split point reads them |
| DocumentEncoder.TableImageKey | app/services/document_encoder.py:184 | a table image key lies in the record's table folder and ends in `.png` |
| DocumentEncoder.ExtractedTableImageFileKey | app/services/document_encoder.py:166-186 | `None` when the pattern does not match; when it matches, raises exactly when the id in front fails to decode, and the key ends in `.png` |
| DocumentEncoder.MatchOutlineSourceId | app/services/document_encoder.py:215 | `re.match(r"^(.*)_PN(\d+)_DOSI$")`: the id part is line-break free and as long as possible and `$` also matches before a final line break; no match exactly when no split point reads the tail |
| DocumentEncoder.OutlineSourceImageKey | app/services/document_encoder.py:221 | an outline source key lies in the record's outline source folder and ends in `.png` |
| DocumentEncoder.OutlineSourceImageFileKey | app/services/document_encoder.py:203-223 | `None` when the pattern does not match; when it matches, raises exactly when the id in front fails to decode, and the key ends in `.png` |
| DocumentEncoder.TableTailOf | app/services/document_encoder.py:178 | `_PN<page>_TN<table>` followed by a non-digit or nothing reads back as page and table |
| DocumentEncoder.NoLaterTableTail | app/services/document_encoder.py:178 | no later split point inside a table suffix reads another table suffix |
| DocumentEncoder.MatchTableIdOf | app/services/document_encoder.py:178-182 | an id without line breaks followed by `_PN<page>_TN<table>` and any `_`-free rest not starting with a digit matches as that id, page and table |
| DocumentEncoder.TableSplitOf | app/services/document_encoder.py:178 | the greedy search for a table id stops right after the id |
| DocumentEncoder.DosiTailOf | app/services/document_encoder.py:215 | `_PN<digits>_DOSI`, with or without one final line break, reads back as the digits |
| DocumentEncoder.NoLaterDosiTail | app/services/document_encoder.py:215 | no later split point inside an outline source suffix reads another one |
| DocumentEncoder.MatchOutlineSourceIdOf | app/services/document_encoder.py:215-219 | an id without line breaks followed by `_PN<digits>_DOSI` matches as that id and those digits |
| DocumentEncoder.DosiSplitOf | app/services/document_encoder.py:215 | the greedy search for an outline source id stops right after the id |
| DocumentEncoder.OutlineSourceKeyOfId | app/services/document_encoder.py:215-221 | the outline source image id of page `p` of an encoded id leads to the key of the encoded owner, the name without `.pdf`, and page `p` |
| DocumentEncoder.OutlineSourceKeyOf | app/services/document_encoder.py:215-221 | an outline source id over a valid id gives the key of the decoded record and of `int(<digits>)` |
| DocumentEncoder.TableKeyOf | app/services/document_encoder.py:178-184 | a table id over a valid id gives the key of the decoded record with the page and table digits copied verbatim, when what follows the table number is `_`-free and does not start with a digit |
| DocumentEncoder.LeadingZerosValue | app/services/document_encoder.py:219 | `int("007")` is 7, so leading zeros leave the outline source key |
| DocumentEncoder.NotAnId | app/services/document_encoder.py:72 | a text with a dangling base64 character is not an id: decoding raises |
| DocumentEncoder.UnguardedTableDecode | app/services/document_encoder.py:181-184 | a table suffix after a text that is not an id makes the key function raise instead of answering `None` |
| DocumentEncoder.UnguardedOutlineSourceDecode | app/services/document_encoder.py:217-221 | an outline source suffix after a text that is not an id makes the key function raise instead of answering `None` |
| Base64.Value | app/services/document_encoder.py:72 | the 6-bit value of an alphabet character is the one whose symbol it is |
| Base64.SymbolValue | app/services/document_encoder.py:56 | each 6-bit value's symbol is in the alphabet and reads back as that value |
| Base64.TripleShape | app/services/document_encoder.py:56 | three bytes encode to four alphabet or `=` characters |
| Base64.EncodeShape | app/services/document_encoder.py:56 | `b64encode` output has a length divisible by four and only alphabet characters and `=` |
| Base64.TripleGroups | app/services/document_encoder.py:56 | the four 6-bit groups of three bytes put the bytes back together |
| Base64.DecodeTriple | app/services/document_encoder.py:72 | the decoder reads an encoded byte triple back as those bytes |
| Base64.DecodeOne | app/services/document_encoder.py:72 | the decoder reads the two-padded encoding of one byte back |
| Base64.DecodeTwo | app/services/document_encoder.py:72 | the decoder reads the one-padded encoding of two bytes back |
| Base64.DecodeEncodeFrom | app/services/document_encoder.py:56-72 | decoding an encoding from any bytes already written appends the encoded bytes |
| Base64.DecodeEncode | app/services/document_encoder.py:56-72 | `b64decode(b64encode(b)) == b` |
| Utf8.EncodeChar | app/services/document_encoder.py:56 | a character encodes to one to four bytes |
| Utf8.DecodeChar | app/services/document_encoder.py:73 | a well-formed sequence at the start is one to four bytes long and within the input |
| Utf8.DecodeEncodeChar | app/services/document_encoder.py:56-73 | the encoding of a character is read back as that character, whatever follows |
| Utf8.DecodeEncode | app/services/document_encoder.py:56-73 | strict UTF-8 decoding of the encoding of a text gives the text back |
| JsonRecord.Hex4 | app/services/document_encoder.py:49-53 | a `\u` escape has four hexadecimal digits |
| JsonRecord.Hex4RoundTrip | app/services/document_encoder.py:49-53 | four hexadecimal digits written for a value read back as that value |
| JsonRecord.SkipSpace | app/services/document_encoder.py:73 | skipping whitespace leaves a suffix that does not start with JSON whitespace |
| JsonRecord.Loads | app/services/document_encoder.py:73-77 | succeeds exactly when the text is one object of strings with the three keys, and the record holds their values |
| JsonRecord.ScanEscapeChar | app/services/document_encoder.py:49-53 | the escape `json.dumps` writes for any character, a surrogate pair above U+FFFF included, is read back as that character |
| JsonRecord.ScanSurrogatePair | app/services/document_encoder.py:49-53 | a high and a low surrogate escape read back as the one character above U+FFFF they encode |
| JsonRecord.ScanEscape | app/services/document_encoder.py:49-53 | a quoted string written by the escaper is read back as the string, whatever follows the closing quote |
| JsonRecord.MemberOf | app/services/document_encoder.py:49-53 | a `"key": "value"` member as `json.dumps` writes it is read back |
| JsonRecord.MembersOfThree | app/services/document_encoder.py:49-53 | three members separated by `", "` and closed by `}` read back as the map of the three, in order |
| JsonRecord.ParseDumps | app/services/document_encoder.py:49-53 | the object `json.dumps` writes for a record parses as the map of its three fields |
| JsonRecord.LoadsDumps | app/services/document_encoder.py:49-77 | `json.loads(json.dumps(record))` and the three key lookups give the record back |
| Chunker.Assign | app/utils/document_handling/chunker.py:65 | assigning a key keeps an existing key's position and replaces only its text, adds a new key last, and keeps keys distinct |
| Chunker.ChunksOfConcat | app/utils/document_handling/chunker.py:25-31 | the chunks of two runs of pages are the chunks of the first followed by those of the second |
| Chunker.ChunkAt | app/utils/document_handling/chunker.py:25-31 | piece `j` of page `k` is the marker naming the document, the page count, the page key and the piece, placed after the chunks of earlier pages |
| Chunker.FinalizeDocumentChunks | app/utils/document_handling/chunker.py:6-33 | the nested loop returns the marked chunks of every page's pieces in order |
| Chunker.HeaderNameParts | app/utils/document_handling/chunker.py:71 | the name read from a header fails without `<`; otherwise it is the text after the first `<` up to the next `<` or `>` or the end |
| Chunker.PageKey | app/utils/document_handling/chunker.py:76 | the page key fails when the line has fewer than three words, and is `PAGE_` and the third word otherwise |
| Chunker.RunConcat | app/utils/document_handling/chunker.py:61-95 | running over two runs of lines is running over the first, then over the second from where it left off; an error ends it |
| Chunker.PlainLines | app/utils/document_handling/chunker.py:94-95 | lines that are not markers are only gathered as page text |
| Chunker.DroppedBetweenPages | app/utils/document_handling/chunker.py:73-82 | text between a page's end and the next page's start is gathered and then dropped: nothing else changes |
| Chunker.StepKeepsDistinct | app/utils/document_handling/chunker.py:61-95 | every step keeps the page keys distinct |
| Chunker.StepExtendsOut | app/utils/document_handling/chunker.py:61-95 | every step keeps the chunks already emitted and only adds after them |
| Chunker.RunInvariant | app/utils/document_handling/chunker.py:61-95 | over any lines the page keys stay distinct and the emitted chunks only grow, so documents come out in input order |
| Chunker.UnclosedDocumentDropped | app/utils/document_handling/chunker.py:98-100 | a document whose end line never comes and whose last page was closed emits nothing at the end |
| Chunker.CreateOptimizedMarkedChunks | app/utils/document_handling/chunker.py:36-104 | the loop over the lines returns the chunks the state machine emits, or the `IndexError` it raises |
| MarkerRoundTrip.SplitAllConcat | app/utils/document_handling/extraction_engine.py:82 | splitting parts concatenated is splitting each |
| MarkerRoundTrip.SplitOnJoin | app/utils/document_handling/extraction_engine.py:82 | splitting a newline join gives the lines of every part in order |
| MarkerRoundTrip.HeaderLine | app/utils/document_handling/extraction_engine.py:69 | the header line is one line, opens a document, and the chunker reads the name back from it |
| MarkerRoundTrip.HeaderNameOf | app/utils/document_handling/chunker.py:71 | the chunker reads back a readable name from the header |
| MarkerRoundTrip.NameBetween | app/utils/document_handling/chunker.py:71 | the name between the first `<` and the next `>` is read back |
| MarkerRoundTrip.StopAt | app/utils/document_handling/chunker.py:71 | the first `<` or `>` is where the name ends |
| MarkerRoundTrip.PageStartLine | app/utils/document_handling/extraction_engine.py:76 | a page start line is one line and is taken for a page start only |
| MarkerRoundTrip.PageStartKey | app/utils/document_handling/chunker.py:76 | the page start line of page `n` opens `PAGE_<n>` |
| MarkerRoundTrip.ThirdWord | app/utils/document_handling/chunker.py:76 | the third word of `a b c rest` is `c` |
| MarkerRoundTrip.PageEndLine | app/utils/document_handling/extraction_engine.py:78 | a page end line is one line and is taken for a page end only |
| MarkerRoundTrip.FooterLine | app/utils/document_handling/extraction_engine.py:80 | the footer is one line and is taken for a document end only |
| MarkerRoundTrip.BlockLines | app/utils/document_handling/extraction_engine.py:76-78 | the page blocks split into each page's start line, its text's lines and its end line |
| MarkerRoundTrip.NumberedPages | app/utils/document_handling/chunker.py:73-82 | page `n` is stored under `PAGE_<n>` with its cleaned text, in page order |
| MarkerRoundTrip.FreshKey | app/utils/document_handling/chunker.py:76 | a new page's key is not among the keys of the pages before it |
| MarkerRoundTrip.PagesRun | app/utils/document_handling/chunker.py:73-82 | inside a document the page lines fill the dictionary with the numbered pages and emit nothing |
| MarkerRoundTrip.OnePage | app/utils/document_handling/chunker.py:73-82 | the lines of one more page add it under its key |
| MarkerRoundTrip.PageStartStep | app/utils/document_handling/chunker.py:73-77 | a page start opens the page under its key with no text |
| MarkerRoundTrip.PageEndStep | app/utils/document_handling/chunker.py:79-82 | a page end stores the open page's text under its fresh key |
| MarkerRoundTrip.PageFlush | app/utils/document_handling/chunker.py:81 | closing the last page's text adds it under its key |
| MarkerRoundTrip.TextLines | app/utils/document_handling/extraction_engine.py:68-82 | the chunker sees the header, the page lines and the footer |
| MarkerRoundTrip.HeaderStep | app/utils/document_handling/chunker.py:62-71 | the header opens the document with nothing emitted |
| MarkerRoundTrip.FooterStep | app/utils/document_handling/chunker.py:84-92 | the footer emits the document's chunks when its name is not empty and resets the state |
| MarkerRoundTrip.RoundTrip | app/utils/document_handling/chunker.py:36-104 | the chunks of the vectorisation text of a document are those of its pages under `PAGE_1`, `PAGE_2`, ... with their cleaned texts, in order; an empty name emits nothing |
| ExtractionEngine.CleanPage | app/utils/document_handling/extraction_engine.py:73-77 | a cleaned page holds neither `©` nor U+FFFD and neither starts nor ends with whitespace |
| ExtractionEngine.VectorisationLayout | app/utils/document_handling/extraction_engine.py:68-80 | page `k` occupies lines `3k+1` to `3k+3` (start marker, cleaned text, end marker), with the header first and the footer last |
| ExtractionEngine.BlocksLayout | app/utils/document_handling/extraction_engine.py:71-78 | the page blocks are three lines per page in page order |
| ExtractionEngine.TriplesLayout | app/utils/document_handling/extraction_engine.py:71-78 | three lines per item, numbered from 1 |
| ExtractionEngine.ExtractTextForVectorisation | app/utils/document_handling/extraction_engine.py:67-83 | the loop returns the header, the three lines of every page and the footer joined by newlines |
| ExtractionEngine.LineText | app/utils/document_handling/extraction_engine.py:40 | a line without spans has no text |
| ExtractionEngine.MinCoordinate | app/utils/document_handling/extraction_engine.py:43-44 | the minimum of a coordinate is at most every span's and is some span's |
| ExtractionEngine.MaxCoordinate | app/utils/document_handling/extraction_engine.py:45-46 | the maximum of a coordinate is at least every span's and is some span's |
| ExtractionEngine.PageRows | app/utils/document_handling/extraction_engine.py:37-54 | the rows of a page carry its number, lines numbered 1, 2, ... and non-empty text |
| ExtractionEngine.PageRowsSnoc | app/utils/document_handling/extraction_engine.py:41-54 | one more line adds a row numbered next exactly when its text is not empty |
| ExtractionEngine.NonEmptyTextsAppend | app/utils/document_handling/extraction_engine.py:40-41 | a line adds its text to the non-empty texts exactly when it is not empty |
| ExtractionEngine.PageRowsContents | app/utils/document_handling/extraction_engine.py:37-54 | a page has exactly one row per line with non-empty text, holding that text, in order |
| ExtractionEngine.HelperRows | app/utils/document_handling/extraction_engine.py:33-54 | every row's page number is between 1 and the page count |
| ExtractionEngine.NumberedAppend | app/utils/document_handling/extraction_engine.py:37-54 | adding a later page's rows numbered from 1 keeps the per-page numbering |
| ExtractionEngine.HelperNumbering | app/utils/document_handling/extraction_engine.py:33-54 | line numbers start at 1, go up by one within a page and restart at 1 on a later page |
| ExtractionEngine.RowsNumbered | app/utils/document_handling/extraction_engine.py:33-54 | the helper table is numbered per page |
| ExtractionEngine.BuildHelperTable | app/utils/document_handling/extraction_engine.py:31-54 | the page loop builds the helper rows of all pages |
| ExtractionEngine.BuildPageRows | app/utils/document_handling/extraction_engine.py:34-54 | the loop over a page's blocks builds that page's rows |
| ExtractionEngine.AddBlockRows | app/utils/document_handling/extraction_engine.py:39-54 | the loop over a block's lines extends the page's rows and keeps the counter one past the last row |
| ExtractionEngine.HelperTableKeyAgrees | app/utils/document_handling/extraction_engine.py:62 | the helper table is uploaded to the key the encoder derives from the document's id when the name has no `.pdf` |
| ExtractionEngine.TableRecords | app/utils/document_handling/extraction_engine.py:175-206 | each record's id is the crop key of its page and table, the document id is kept, the page is within the pages and the table within the page's detections |
| ExtractionEngine.TableNumbering | app/utils/document_handling/extraction_engine.py:185-202 | table numbers start at 1, go up by one within a page and restart at 1 on a later page |
| ExtractionEngine.TablesNumbered | app/utils/document_handling/extraction_engine.py:185-202 | the table records are numbered per page |
| ExtractionEngine.Ids | app/utils/document_handling/extraction_engine.py:206 | the returned keys are the records' ids in order |
| ExtractionEngine.ExtractAndSaveTables | app/utils/document_handling/extraction_engine.py:143-218 | an unreadable PDF raises with nothing saved; otherwise the saved records start the full list, none of their saves failed, and the result is every key in order or the first failing save, which is raised |
| ExtractionEngine.SaveTables | app/utils/document_handling/extraction_engine.py:175-214 | the page loop saves a prefix of all records and stops at the first failing save |
| ExtractionEngine.SavePageTables | app/utils/document_handling/extraction_engine.py:185-209 | the detections of a page are saved in order, numbered from 1, up to the first failing save |
| ExtractionEngine.TableRecordsSnoc | app/utils/document_handling/extraction_engine.py:175-206 | one more page adds its tables after those of the earlier pages |
| ExtractionEngine.IdsAppend | app/utils/document_handling/extraction_engine.py:206 | the keys of two runs of records are concatenated |
| ExtractionEngine.TablesPrefix | app/utils/document_handling/extraction_engine.py:175-206 | the tables before a page and the first `i` of it start the full list, and the next one is table `i+1` of that page |
| ExtractionEngine.TablesExtend | app/utils/document_handling/extraction_engine.py:175-206 | the records of the first pages start the records of all pages |
| ExtractionEngine.ImageNameRecovered | app/utils/document_handling/extraction_engine.py:124-128 | the last two `_`-separated parts of an image id are its stored file name, whatever `_` the PDF name holds |
| ExtractionEngine.ExtractAndSaveImages | app/utils/document_handling/extraction_engine.py:93-136 | an unreadable PDF answers false with nothing saved; otherwise the saved images start the plan (page and index numbered from 1, name without extension), none failed, and the answer is true exactly when all were saved |
| ExtractionEngine.SavePageImages | app/utils/document_handling/extraction_engine.py:118-129 | the images of a page are saved in order up to the first failing save |
| ExtractionEngine.SavedPrefixConcat | app/utils/document_handling/extraction_engine.py:115-129 | saving a full first run and a prefix of a second saves a prefix of both |
| ExtractionEngine.SavedPrefixWiden | app/utils/document_handling/extraction_engine.py:115-129 | a saved prefix of part of the plan is a saved prefix of the whole plan |
| ExtractionEngine.ImagePlanAt | app/utils/document_handling/extraction_engine.py:115-128 | image `i` of page `p+1` sits right after the images of earlier pages and the earlier images of its page |
| ExtractionEngine.PlanExtend | app/utils/document_handling/extraction_engine.py:115-128 | the plan of the first pages starts the plan of all pages |
| OutlineParsing.SkipSpace | app/utils/document_handling/generate_save_document_ouline.py:316 | `\s*` ends at the first character that is not whitespace |
| OutlineParsing.SkipDigits | app/utils/document_handling/generate_save_document_ouline.py:316 | `\d*` ends at the first character that is not a digit |
| OutlineParsing.DigitList | app/utils/document_handling/generate_save_document_ouline.py:316-319 | `\d+(?:,\s*\d+)*` matches exactly when a digit comes first; the match reads at least one number, covers only digits, commas and whitespace, and is not followed by a digit |
| OutlineParsing.ListClose | app/utils/document_handling/generate_save_document_ouline.py:316 | the closing part of the fenced pattern starts with `]` and ends after it |
| OutlineParsing.Search | app/utils/document_handling/generate_save_document_ouline.py:316 | `re.search` answers the leftmost position at which the pattern matches, with what it read there, and no match when no position matches |
| OutlineParsing.CloseFence | app/utils/document_handling/generate_save_document_ouline.py:320 | the lazy `.*?\]\s*```` ` ends after where it starts |
| OutlineParsing.FencedBlockAt | app/utils/document_handling/generate_save_document_ouline.py:320 | a fenced block removed by `re.sub` is not empty |
| OutlineParsing.BracketBlockAt | app/utils/document_handling/generate_save_document_ouline.py:334 | a bracketed block removed by `re.sub` is not empty, and a `[` starts none only when no `]` follows it |
| OutlineParsing.ParseOutlineCases | app/utils/document_handling/generate_save_document_ouline.py:314-346 | the pages are those of the fenced list when it matches, else those of the bare list; they are never empty; with neither there are no pages and the outline is kept |
| OutlineParsing.FencedPages | app/utils/document_handling/generate_save_document_ouline.py:316-319 | a fenced list match reads at least one page |
| OutlineParsing.BracketPages | app/utils/document_handling/generate_save_document_ouline.py:329-333 | a bare list match reads at least one page and can only occur when the outline holds both `[` and `]`, so the guard on line 329 never hides a match |
| OutlineParsing.CloseFenceSkips | app/utils/document_handling/generate_save_document_ouline.py:320 | the lazy scan passes over characters that are not `]` |
| OutlineParsing.FencedListRemoved | app/utils/document_handling/generate_save_document_ouline.py:316-320 | where the fenced list matches, the removal pattern matches the same text, so the list read is removed |
| OutlineParsing.ListHasNoClose | app/utils/document_handling/generate_save_document_ouline.py:316 | a matched page list holds no `]` |
| OutlineParsing.ListSkipped | app/utils/document_handling/generate_save_document_ouline.py:320 | the lazy scan for the closing `]` passes over a matched list |
| OutlineParsing.BracketListRemoved | app/utils/document_handling/generate_save_document_ouline.py:330-334 | where the bare list matches, the removal pattern matches the same text |
| OutlineParsing.BracketBlockOf | app/utils/document_handling/generate_save_document_ouline.py:334 | a `[` removes everything up to and including the first `]` after it |
| OutlineParsing.RemoveExcludes | app/utils/document_handling/generate_save_document_ouline.py:320-334 | `re.sub` with an empty replacement only drops characters |
| OutlineParsing.BracketRemovalComplete | app/utils/document_handling/generate_save_document_ouline.py:334 | after the bare removal no `[` is followed anywhere by a `]`: every bracketed span goes, not only the page list |
| Outline.NonBlank | app/utils/document_handling/generate_save_document_ouline.py:44 | the kept lines are exactly the lines that are not blank |
| Outline.Terminated | app/utils/document_handling/generate_save_document_ouline.py:44-45 | joining lines each followed by `\n` is empty only for no lines and otherwise ends with `\n` |
| Outline.TerminatedLines | app/utils/document_handling/generate_save_document_ouline.py:44-45 | lines without a line break, each followed by `\n`, split back into those lines and an empty last piece |
| Outline.CleanedTextLines | app/utils/document_handling/generate_save_document_ouline.py:43-45 | the cleaned text splits into the raw text's non-blank lines and a final empty piece: no blank line is left and the text ends with `\n` |
| Outline.ExtractTextFromPdfData | app/utils/document_handling/generate_save_document_ouline.py:17-47 | the page loop builds the marked raw text and the result is its cleaned form |
| Outline.PageImage | app/utils/document_handling/generate_save_document_ouline.py:50-72 | an image exists exactly for a page in `1..page_count` that rendered, and it is that rendering |
| Outline.PlusFive | app/utils/document_handling/generate_save_document_ouline.py:133 | `word_count + 5` raises exactly on a string or a value that is neither a number nor a boolean; an integer gives its value plus five, a boolean five or six, a float a float |
| Outline.ProcessPageHint | app/utils/document_handling/generate_save_document_ouline.py:75-115 | a hint exists exactly when the page has a non-empty image and the answer is an object with at least two values, and it holds the page and the first two values |
| Outline.PageHints | app/utils/document_handling/generate_save_document_ouline.py:219-228 | at most one hint per requested page, each for a page of the document; the page at each position of the list is asked on its own |
| Outline.PageHintsConcat | app/utils/document_handling/generate_save_document_ouline.py:222-228 | hints keep the order of the pages they answer for, the later pages answered by the later replies |
| Outline.FirstMatch | app/utils/document_handling/generate_save_document_ouline.py:144-151 | the first word index at which the start words occur, and none when they occur nowhere |
| Outline.EmptyStartMatchesFirst | app/utils/document_handling/generate_save_document_ouline.py:145-149 | an empty start text matches at the first word |
| Outline.FindStart | app/utils/document_handling/generate_save_document_ouline.py:144-151 | the search loop leaves at the first match |
| Outline.HighlightEnd | app/utils/document_handling/generate_save_document_ouline.py:171 | the highlighted words run from the start words to the end handed to `range`, which lies within the page |
| Outline.RangeEnd | app/utils/document_handling/generate_save_document_ouline.py:171 | `min` gives the integer bound, capped at the page, for an integer count; for a float count it gives the page end exactly when the float sum exceeds it, and otherwise the float, which `range` refuses |
| Outline.HintMarks | app/utils/document_handling/generate_save_document_ouline.py:127-181 | a hint raises when `+ 5` raises on its count, and otherwise only when its count is a float; a hint that does not raise marks only words of its own page |
| Outline.HintMarksRange | app/utils/document_handling/generate_save_document_ouline.py:127-181 | a non-string or unfound start text marks nothing and never raises; a found start with an integer count marks its words and up to count plus five more within the page; with a float count it raises unless the float sum passes the page's last word, and then marks everything from the start words to the end of the page |
| Outline.Marks | app/utils/document_handling/generate_save_document_ouline.py:127-181 | the marks of all hints lie on pages of the document |
| Outline.MarksAbandoned | app/utils/document_handling/generate_save_document_ouline.py:214-216 | once a hint raises, the whole highlighting step is abandoned |
| Outline.SkippedHint | app/utils/document_handling/generate_save_document_ouline.py:135-155 | a hint that marks nothing leaves the other hints' marks as they are |
| Outline.PageSet | app/utils/document_handling/generate_save_document_ouline.py:186-197 | the pages of a list of entries are exactly the pages some entry is for |
| Outline.HighlightWords | app/utils/document_handling/generate_save_document_ouline.py:157-181 | the two highlighting loops add exactly the words from the start words to the end handed to `range` |
| Outline.HighlightHint | app/utils/document_handling/generate_save_document_ouline.py:127-181 | one pass of the hint loop raises when the hint raises, and otherwise adds exactly the hint's marks |
| Outline.HighlightTextInPdfWithVision | app/utils/document_handling/generate_save_document_ouline.py:118-216 | when a hint raises the result is empty; otherwise the marks are those of all hints and there is one entry per highlighted page with that page's id |
| Outline.SourceImages | app/utils/document_handling/generate_save_document_ouline.py:184-212 | the upload loop lists each highlighted page once, in some order, with its `_PN<page>_DOSI` id |
| Outline.ListedAppend | app/utils/document_handling/generate_save_document_ouline.py:195-197 | adding the entry of a page not yet listed keeps one entry per page |
| Outline.SourceImageKeyAgrees | app/utils/document_handling/generate_save_document_ouline.py:195-196 | the id recorded for a highlighted page leads through the encoder to the key the image was uploaded under |
| Outline.UploadKeyIsSourceKey | app/utils/document_handling/generate_save_document_ouline.py:122-195 | the encoder's outline-source key of a record is the highlighter's upload key |
| Outline.GenerateAndSaveDocumentOutline | app/utils/document_handling/generate_save_document_ouline.py:235-372 | unreadable text answers false with nothing saved; otherwise an outline is saved (the fallback text when generation fails, the outline with the list removed when it succeeds) with source images only when pages were found and highlighting did not fail, and the answer is whether saving succeeded |
| ProcessDocument.Initialized | app/utils/document_handling/process_document.py:38-55 | afterwards the collection exists; the collections before are kept, and one is added last, 768 wide with cosine distance, only when none had the name |
| ProcessDocument.InitializeIdempotent | app/utils/document_handling/process_document.py:38-55 | initialising twice is initialising once |
| ProcessDocument.Upserted | app/utils/document_handling/process_document.py:89-92 | the stored ids are the old ids and the batch's ids, and ids outside the batch keep their points |
| ProcessDocument.UpsertedLast | app/utils/document_handling/process_document.py:89-92 | an id ends up holding the last point of the batch with that id |
| ProcessDocument.VectorStore.InitializeCollection | app/utils/document_handling/process_document.py:38-55 | answers true exactly when no collection had the name; the collections become the initialised ones and the points are unchanged |
| ProcessDocument.VectorStore.Upsert | app/utils/document_handling/process_document.py:89-92 | the named collection's points become the upserted ones; nothing else changes |
| ProcessDocument.PointId | app/utils/document_handling/process_document.py:75 | `& (1<<63)-1` keeps an id below 2^63 and leaves a smaller value as it is |
| ProcessDocument.Points | app/utils/document_handling/process_document.py:73-84 | one point per pair of `zip(embeddings, chunks)`, so as many as the shorter list, each with its embedding, its chunk, the document id and its index |
| ProcessDocument.PointsCarryChunks | app/utils/document_handling/process_document.py:73-84 | with one embedding per chunk, the points' texts are the chunks in order and each point names the chunk it holds |
| ProcessDocument.AddDocumentToCollection | app/utils/document_handling/process_document.py:57-98 | a chunker error is raised with the store unchanged; otherwise the collection is initialised, the points are upserted into it, and the document id is returned |
| ProcessDocument.VectoriseDocument | app/utils/document_handling/process_document.py:100-117 | the collection is initialised first; the marked vectorisation text is chunked and added, and the answer is true or the chunker's error |
| ProcessDocument.VectorisedTextChunks | app/utils/document_handling/process_document.py:100-112 | for a readable name and plain page texts, vectorisation chunks every page under its `PAGE_<n>` key, and a document with an empty name stores nothing |
| ProcessDocument.Kept | app/utils/document_handling/process_document.py:125 | `pathlib` keeps the path components that are neither empty nor `.` |
| ProcessDocument.Stem | app/utils/document_handling/process_document.py:125 | `Path(...).stem` is the name, or the name without a last suffix that is neither first nor last in the name |
| ProcessDocument.PlainName | app/utils/document_handling/process_document.py:125 | a plain file name is its own path name |
| ProcessDocument.StemDropsSuffix | app/utils/document_handling/process_document.py:125 | `base.ext` with a dotless `ext` has stem `base` |
| ProcessDocument.StemOfDotless | app/utils/document_handling/process_document.py:125 | a name without `.` is its own stem |
| ProcessDocument.DocumentName | app/utils/document_handling/process_document.py:125 | the document name is a prefix of the file's name |
| ProcessDocument.OutlineImagesMisfiled | app/utils/document_handling/process_document.py:125-134 | for an upload `scan.v2.pdf` the outline source images are looked up under `scan.v2` but uploaded under the stem `scan` |
| ProcessDocument.PdfUploadLookup | app/utils/document_handling/process_document.py:125-134 | the outline source images of an upload `<name>.pdf` are looked up under `name` |
| ProcessDocument.DecodedNameFilesOutline | app/utils/document_handling/process_document.py:125-134 | processed under the name its id records, a document's outline source images are uploaded under the keys their ids are looked up by |
| ProcessDocument.ClassifyResults | app/utils/document_handling/process_document.py:149-161 | success holds exactly when no task raised, and images were extracted exactly when the last task returned a true value |
| ProcessDocument.Verdict | app/utils/document_handling/process_document.py:166-174 | the status is `done` exactly when no task raised, `error` goes with the partial failure message, and the full success message needs both flags |
| ProcessDocument.FalseIsSuccess | app/utils/document_handling/process_document.py:155-161 | a task that returns false still counts as a success for the status |
| ProcessDocument.ImageFailureKeepsStatus | app/utils/document_handling/process_document.py:166-171 | a failed image extraction changes the message, not the status |
| ProcessDocument.ProcessDocument | app/utils/document_handling/process_document.py:119-185 | the document name is the stem; the verdict's status is written when the gathering succeeds; an exception from the gathering or from that write is followed by writing `error` and is reported, unless that write raises too, in which case `process_document` raises exactly then |
| S3Host.FolderAndFile | app/services/s3host.py:102 | `rsplit("/", 1)` fails exactly for a key without `/`, and otherwise splits at the last `/` |
| S3Host.CandidatesDistinct | app/services/s3host.py:105-115 | different counters give different keys, so the loop never probes a key twice |
| S3Host.PdfExt | app/services/s3host.py:103 | `splitext` of `name.pdf`, for a dotless name, is `name` and `.pdf` |
| S3Host.CounterAppended | app/services/s3host.py:97-115 | existing suffixes are not stripped: the counter goes after the whole name, so `a_1.pdf` becomes `a_1_1.pdf` |
| S3Host.ObjectStore.GetAvailableFileKey | app/services/s3host.py:96-124 | a key without `/` raises; otherwise the candidates are probed in counter order, every earlier one existed, and the search ends at a denied probe, which raises, or at the first absent key, which is returned |
| S3Host.ObjectStore.CheckDocumentExists | app/services/s3host.py:73-95 | an id that does not decode raises; a denied probe raises; otherwise the answer is whether the original upload's key is stored |
| S3Host.ObjectStore.GetDocument | app/services/s3host.py:126-153 | an id that does not decode raises, a missing object raises, and otherwise the stored bytes are returned with the name the id records |
| S3Host.ObjectStore.DeleteFromS3 | app/services/s3host.py:169-213 | a key ending in `/` removes every key the paginated listing gathered; any other key is removed alone; nothing else changes |
| S3Host.ProbedGrows | app/services/s3host.py:109-115 | a found key extends the run of probed and found keys by one |
| S3Host.TriedGrows | app/services/s3host.py:109-115 | each found key leaves fewer untried stored keys, so the loop ends |
| S3Host.Without | app/services/s3host.py:199-205 | removing keys keeps exactly the other keys with their data |
| S3Host.LastPage | app/services/s3host.py:183-196 | the listing stops at the first page without a continuation token |
| S3Host.GatheredAll | app/services/s3host.py:183-196 | the keys gathered up to that page are the listed keys |
| S3Host.FolderDeletion | app/services/s3host.py:178-202 | when the listing holds exactly the keys under the prefix, deleting the folder removes every one of them and nothing else |
| S3Host.UploadIsFound | app/services/s3host.py:134-146 | the id of an upload `<stem>.pdf` leads to the key `DB/USERS/<user>/docs/<stem>.pdf` and to the name `stem` |
| Docs.NewDoc | app/models/doc.py:8-14 | a new record holds the given id, user and file name, is pending, and takes its creation and update times from two clock readings, in that order |
| Docs.DatePart | app/models/doc.py:53 | `split("T")[0]` is the text before the first `T`, or all of it, and holds no `T` |
| Docs.Find | app/models/doc.py:58-68 | `find_one({"_id": id})` finds the first record with the id, and none when no record has it |
| Docs.Owned | app/models/doc.py:25-26 | `find({"userId": userId})` returns exactly the user's records |
| Docs.SetStatus | app/models/doc.py:57-61 | `update_one` changes the status of the found record and nothing else |
| Docs.Review | app/models/doc.py:30-54 | an id that does not decode raises; a pending record whose timestamp does not parse raises; otherwise the entry holds the id, the decoded name, the date part, and `error` exactly when the record was pending and more than 30 minutes old |
| Docs.Reviews | app/models/doc.py:29-54 | all records reviewed in order, or the error of a record whose review raises |
| Docs.Entries | app/models/doc.py:49-54 | one entry per record, in order |
| Docs.EntriesSnoc | app/models/doc.py:49-54 | one more record appends its entry |
| Docs.StaleIds | app/models/doc.py:45-46 | the ids marked are exactly those of the records found stale |
| Docs.MarkFailed | app/models/doc.py:46 | the records with a marked id get status `error`; the others are unchanged |
| Docs.ListingEntries | app/models/doc.py:29-54 | each entry carries the record's id, decoded name and date; a stale pending record is reported and marked `error`, any other record keeps its status and is not marked |
| Docs.DocRepository.CreateDoc | app/models/doc.py:20-22 | inserting an id already stored fails and changes nothing; otherwise the record is appended and its id returned |
| Docs.DocRepository.UpdateStatus | app/models/doc.py:57-62 | the found record's status is set, and the answer is true exactly when a record with the id existed and its status changed |
| Docs.DocRepository.GetDocsByUser | app/models/doc.py:24-55 | the listing is the entries of the user's records in store order and the stale ones are marked `error` in the store; only pending records of that user change |
| Docs.DocRepository.ListOwned | app/models/doc.py:29-54 | the loop over the user's records builds the entries and marks exactly the stale ones, or stops at the first error |
| Docs.DocRepository.GetDocById | app/models/doc.py:67-82 | no record gives `None`; an undecodable id or a missing summary raises; otherwise the view holds the id, the decoded name, the summary and the date part |
| Docs.Listing | app/models/doc.py:29-54 | the listing so far has one entry per record read and keeps the store's size |
| Docs.ListingSnoc | app/models/doc.py:29-54 | a record whose review passes appends its entry and, when stale, updates its status |
| Docs.ListingErrSticky | app/models/doc.py:29-54 | once a record raises, the listing raises with that error |
| Docs.ListingRaises | app/models/doc.py:30-36 | the listing raises with the error of the first record whose review raises |
| Docs.ListingReviews | app/models/doc.py:24-55 | the record-by-record loop yields the entries of the reviews and the store with the stale records marked |
| Docs.ListingFrame | app/models/doc.py:29-54 | over any prefix of the user's records, only pending records of the user change, and only to `error` |
| Docs.MarkOne | app/models/doc.py:46 | with unique ids, marking one more id is one more status update |
| Docs.StaleIdsSnoc | app/models/doc.py:45-46 | one more record adds its id to the marked ids exactly when it is stale |
| Docs.MarkedWerePending | app/models/doc.py:32-46 | only pending records of the user are ever marked |
| ContentType.Keys | app/utils/document_handling/content_type.py:13-56 | the keys of a dictionary literal, in the order written |
| ContentType.Get | app/utils/document_handling/content_type.py:13-56 | a lookup finds nothing exactly for a key that is not listed, and otherwise a value listed under the key |
| ContentType.GetAt | app/utils/document_handling/content_type.py:13-56 | with distinct keys, a lookup of a listed key finds the value written with it |
| ContentType.ToneOptionsDistinct | app/utils/document_handling/content_type.py:1-11 | there are exactly nine tones and no tone is listed twice |
| ContentType.HierarchyFormats | app/utils/document_handling/content_type.py:13-56 | the hierarchy has exactly the four formats, in the order written |
| ContentType.GetNonEmpty | app/utils/document_handling/content_type.py:13-56 | a key a lookup finds is not empty when no listed key is |
| ContentType.TrialReportWellFormed | app/utils/document_handling/content_type.py:14-33 | the trial report's objectives and each objective's audiences are non-empty and not repeated |
| ContentType.OtherFormatsWellFormed | app/utils/document_handling/content_type.py:34-55 | the same holds for the three other formats |
| ContentType.HierarchyWellFormed | app/utils/document_handling/content_type.py:13-56 | no key is empty or repeated at any level of the hierarchy |
| ContentType.ObjectivesOf | app/utils/document_handling/content_type.py:13-56 | the objectives a format lookup finds have no empty or repeated key at either level |
| ContentType.ObjectiveCounts | app/utils/document_handling/content_type.py:14-55 | Clinical Trial Report has four objectives and each other format has one |
| ContentType.LookupLeaf | app/utils/document_handling/content_type.py:16-54 | in a hierarchy whose leaves are all one list, every successful lookup finds that list |
| ContentType.EveryPathEndsInTones | app/utils/document_handling/content_type.py:16-54 | every format, objective and audience path ends in the nine tones |
| ContentType.LookupListed | app/utils/document_handling/content_type.py:13-56 | a successful chained lookup follows a path the hierarchy lists |
| ContentType.ListedLookup | app/utils/document_handling/content_type.py:13-56 | without repeated keys, every listed path is found by the chained lookup |
| ContentType.TonesOnPath | app/utils/document_handling/content_type.py:13-56 | the chained lookup finds a tone exactly on a listed path |
| PromptBuilder.FieldNamed | app/utils/document_handling/prompt_builder.py:116-122 | a placeholder name refers to a field only when it is that field's keyword |
| PromptBuilder.FieldNameNamed | app/utils/document_handling/prompt_builder.py:116-122 | each keyword names its own field |
| PromptBuilder.Prepend | app/utils/document_handling/prompt_builder.py:116 | prefixing text keeps a failed format failed |
| PromptBuilder.FormatLiteral | app/utils/document_handling/prompt_builder.py:116 | `str.format` copies text without braces unchanged |
| PromptBuilder.FieldNamePlain | app/utils/document_handling/prompt_builder.py:116-122 | no keyword holds a closing brace |
| PromptBuilder.FormatHole | app/utils/document_handling/prompt_builder.py:116-122 | a placeholder is replaced by its argument, which is not scanned again |
| PromptBuilder.FormatField | app/utils/document_handling/prompt_builder.py:116-122 | `{name}` with a known name is replaced by that argument |
| PromptBuilder.FormatSource | app/utils/document_handling/prompt_builder.py:116-122 | formatting a template whose literal text has no braces gives the template with every placeholder filled in, arguments inserted verbatim even when they hold braces |
| PromptBuilder.RenderConcat | app/utils/document_handling/prompt_builder.py:116-122 | filling in a template is filling in its parts in turn |
| PromptBuilder.BuildPrompt | app/utils/document_handling/prompt_builder.py:113-124 | the system prompt is the selected entry's system text, and the user prompt is its template formatted with the arguments, the text stripped first |
| PromptBuilder.TemplateSelection | app/utils/document_handling/prompt_builder.py:1-114 | a format gets its own template exactly when it is one of the four formats of the content hierarchy; any other format, `default` included, gets the default |
| PromptBuilder.RenderWithoutFormat | app/utils/document_handling/prompt_builder.py:116-117 | the content format argument is ignored by a template without its placeholder |
| PromptBuilder.BodyWithoutFormat | app/utils/document_handling/prompt_builder.py:10-21 | the lines shared by all templates have no content format placeholder |
| PromptBuilder.OpeningHoles | app/utils/document_handling/prompt_builder.py:8-96 | only the default template's opening line has a content format placeholder |
| PromptBuilder.NamedFormatIgnored | app/utils/document_handling/prompt_builder.py:8-88 | for one of the four named formats, the content format does not reach the user prompt |
| PromptBuilder.RenderOpening | app/utils/document_handling/prompt_builder.py:95-96 | an opening of text, the content format and more text renders with the content format right after the first text |
| PromptBuilder.DefaultNamesFormat | app/utils/document_handling/prompt_builder.py:95-96 | the default template's user prompt opens with `Generate a **` and the requested format |
| PromptBuilder.TextStripped | app/utils/document_handling/prompt_builder.py:121 | surrounding whitespace of the source text never reaches the prompt |
| ContentGeneration.ValidateParameters | app/utils/document_handling/content_generation.py:16-33 | every error is a 400, and an unknown format is reported as `Invalid content format` |
| ContentGeneration.ValidationMatchesHierarchy | app/utils/document_handling/content_generation.py:16-33 | validation passes exactly for the paths the hierarchy lists |
| ContentGeneration.ToneChecked | app/utils/document_handling/content_generation.py:31-33 | once format, objective and audience are listed, a tone passes exactly when it is one of the nine tones, and otherwise the error is `Invalid tone` |
| ContentGeneration.FirstInvalidUrl | app/utils/document_handling/content_generation.py:62-65 | there is no bad link exactly when every link starts with `https://` and contains `s3`; otherwise the answer is a bad link with only good links before it |
| ContentGeneration.FirstInvalidAt | app/utils/document_handling/content_generation.py:62-65 | a bad link after only good ones is the one reported |
| ContentGeneration.ExtendPrompts | app/utils/document_handling/content_generation.py:55-66 | the first bad link raises 400 naming it; otherwise the prompts are extended with the instruction and the links |
| ContentGeneration.PromptsCarryLinks | app/utils/document_handling/content_generation.py:55-66 | the system prompt is the built system text followed by the instruction, and the links can be read back in order from the end of the user prompt |
| ContentGeneration.Answer | app/utils/document_handling/content_generation.py:87-103 | the answer is the content exactly when the model returned non-empty content, and every other outcome is a 500 |
| ContentGeneration.GenerateContent | app/utils/document_handling/content_generation.py:35-103 | a validation error is raised first, then the first bad link, and otherwise the answer to the extended built prompts decides |
| QuestionFlow.ImageUrls | app/utils/document_handling/question_flow.py:70-75 | one presigned link per image id, in order, each for the key `images/<id>` |
| QuestionFlow.AugmentQuestion | app/utils/document_handling/question_flow.py:42-80 | the answer keeps the question's key and text, never carries an upload link, and a question with fixed options always offers them |
| QuestionFlow.FirstUnanswered | app/utils/document_handling/question_flow.py:94-96 | the first question whose key the state lacks, and none exactly when every key is present |
| QuestionFlow.GetNextQuestion | app/utils/document_handling/question_flow.py:83-98 | an index outside `0..4` raises 400 `Invalid step index`; a valid index asks that question; without an index the next question asked is one the state lacks, and 400 `All questions answered` comes when all five are present |
| QuestionFlow.FlowOrder | app/utils/document_handling/question_flow.py:16-39 | the flow asks exactly five questions: format, objective, audience, tone, images |
| QuestionFlow.NextFollowsOrder | app/utils/document_handling/question_flow.py:94-96 | once the first `k` questions are answered and the next is not, that one is asked, whatever later answers the state holds |
| QuestionFlow.ObjectiveOptions | app/utils/document_handling/question_flow.py:49-52 | the objective question offers the objectives of the chosen format exactly when that format is given and listed, otherwise nothing, and it never raises |
| QuestionFlow.AudienceUnvalidated | app/utils/document_handling/question_flow.py:54-58 | with format and objective given, an unknown format or objective raises a lookup error naming it |
| QuestionFlow.UnansweredOffersNothing | app/utils/document_handling/question_flow.py:54-65 | until format and objective are both given, the audience and tone questions offer nothing |
| QuestionFlow.ToneOptionsOffered | app/utils/document_handling/question_flow.py:60-65 | whenever the tone question offers options, they are the nine tones |
| QuestionFlow.FixedOptionsWin | app/utils/document_handling/question_flow.py:67-78 | the format question always offers the four formats; the images question always offers `Yes` and `No`, with the document's image links only when a document id is given |
| QuestionFlow.FormatsNonEmpty | app/utils/document_handling/question_flow.py:16-21 | no offered format is the empty string, so picking one always counts as an answer |
| QuestionFlow.FormatOffered | app/utils/document_handling/question_flow.py:16-21 | the format question offers exactly the four formats |
| QuestionFlow.ObjectiveOffered | app/utils/document_handling/question_flow.py:49-52 | the objective question offers exactly the objectives of a given, listed format |
| QuestionFlow.AudienceOffered | app/utils/document_handling/question_flow.py:54-58 | the audience question offers exactly the audiences of a given, listed objective |
| QuestionFlow.ToneOffered | app/utils/document_handling/question_flow.py:60-65 | the tone question offers exactly the tones of a given, listed path |
| QuestionFlow.ChosenListed | app/utils/document_handling/question_flow.py:49-65 | answers each picked from what its question offers are exactly the non-empty answers along a listed path |
| QuestionFlow.ListedKeysNonEmpty | app/utils/document_handling/question_flow.py:49-65 | every format, objective and audience on a listed path is non-empty |
| QuestionFlow.OfferedChoicesValidate | app/utils/document_handling/content_generation.py:16-33 | the four answers picked from the options offered are exactly the requests `validate_parameters` accepts |
| GoogleDrive.ToDict | app/services/google_drive_service.py:35-48 | the stored record always carries the document id `drive_<file id>` and the source type `google_drive` |
| GoogleDrive.FromToDict | app/services/google_drive_service.py:37-48 | the stored record holds every field of the document: reading it back gives the document |
| GoogleDrive.DocumentIdInjective | app/services/google_drive_service.py:35 | two documents share a document id exactly when they are the same Drive file |
| GoogleDrive.SupportedFormats | app/services/google_drive_service.py:59-69 | the table lists nine MIME types, and a type is supported exactly when the table has it |
| GoogleDrive.MimeClauses | app/services/google_drive_service.py:148 | one `mimeType='<type>'` clause per type, in order |
| GoogleDrive.OccursAfter | app/services/google_drive_service.py:148-150 | text found in the second part of a concatenation is found in the whole |
| GoogleDrive.OccursBefore | app/services/google_drive_service.py:148-150 | text found in the first part of a concatenation is found in the whole |
| GoogleDrive.JoinContains | app/services/google_drive_service.py:148 | every part of a join occurs in it |
| GoogleDrive.QueryMentions | app/services/google_drive_service.py:147-150 | the query opens with the folder's parent clause, ends with the trash filter and contains the clause of every type |
| GoogleDrive.QueryAsksSupported | app/services/google_drive_service.py:147-150 | the listing query asks for every supported type |
| GoogleDrive.Stop | app/services/google_drive_service.py:154-171 | the listing stops at the first answer without a page token |
| GoogleDrive.ListFiles | app/services/google_drive_service.py:154-173 | the loop collects the files of every answer up to the one that ends the listing, in order, asking first without a token and then with each answer's token |
| GoogleDrive.ListedIgnoresLater | app/services/google_drive_service.py:154-173 | answers after the one without a token are never read |
| GoogleDrive.ToDocument | app/services/google_drive_service.py:177-186 | a file becomes a document exactly when it has the five fields the constructor reads, with its id and MIME type |
| GoogleDrive.Documents | app/services/google_drive_service.py:176-188 | every file becomes its document, in order, and a single file without a field gives no documents |
| GoogleDrive.ConvertFiles | app/services/google_drive_service.py:176-188 | the conversion loop computes the documents of the files |
| GoogleDrive.PrefixNone | app/services/google_drive_service.py:176-198 | a file without a field anywhere makes the whole conversion fail |
| GoogleDrive.ListMedicalDocuments | app/services/google_drive_service.py:120-198 | no configuration, failed authentication or no folder gives no documents; otherwise the query for the supported types is sent to the given or the configured folder, and the result is the converted listing, or no documents when the API or the conversion fails |
| GoogleDrive.ExtractedText | app/services/google_drive_service.py:291-325 | text is only kept for a PDF or plain-text document that downloaded, and never when it is blank |
| GoogleDrive.StripBlank | app/services/google_drive_service.py:323 | a text strips to nothing exactly when it is all whitespace |
| GoogleDrive.SyncedIds | app/services/google_drive_service.py:284-337 | at most one id per listed document |
| GoogleDrive.SyncDriveDocuments | app/services/google_drive_service.py:276-337 | the loop reports the ids of the documents whose download, extraction and indexing succeeded, in listing order |
| GoogleDrive.SyncedFrom | app/services/google_drive_service.py:284-334 | every reported id is that of a listed PDF or plain-text document that downloaded, whose text is not blank and whose indexing succeeded |
| GoogleDrive.SyncedAppend | app/services/google_drive_service.py:284-334 | a document is reported exactly when its own steps succeed, whatever the others do, and its id comes after the earlier ones |

## Left out

- Remote services are inputs, not code: the language model and vision calls (the outline answer, the page hints, `complete`/`generate`), the embeddings, and the Qdrant, Mongo and S3 clients, which become a sequence of collections and points, a sequence of records and a map from keys to bytes.
- PDF and image libraries (PyMuPDF, PyPDF2, PIL, the YOLO table detector): page texts, word lists, spans, images and detected tables are parameters; pixmaps, zoom and dpi are not modelled.
- Floating point: coordinates and bounding boxes are exact numbers, so rounding in the source is not modelled.
- The langchain `RecursiveCharacterTextSplitter` is an uninterpreted function from text to pieces; its 512/150 size and overlap bounds are not stated.
- Concurrency: `asyncio.gather(..., return_exceptions=True)` is a sequence of task outcomes in task order; interleavings are not modelled.
- The clock and randomness are parameters: the timestamp of a new id, "now" and the timestamp parser of the staleness rule (integer microseconds), and the `uuid4` values of the points.
- Logging, timing messages, settings, the HTTP endpoints, `preview_pdf.py`, `prompt_library.py` and the thin database wrappers are not part of this model.
- `S3Host`: `get_presigned_upload_url` (whose call to `encode_document_id` passes a keyword the function does not take), `get_presigned_view_url`, `save_to_s3` and `load_csv_as_dataframe` are not modelled; presigning is a parameter wherever a URL is needed.
- `Docs`: `check_existence` and `delete_doc_by_document_id` are not modelled; the latter reads attributes the repository does not have.
- `GoogleDrive`: authentication, `_test_connection`, `download_document_content`, `get_shareable_link` and `close` are not modelled; download, text extraction and indexing are oracles.
- GoogleDrive.SyncDriveDocuments: takes the listed documents as a parameter instead of calling the listing itself.
- GoogleDrive.SyncedIds: its own contract states only the bound on its length; which ids it holds is stated by SyncedFrom and SyncedAppend.
- GoogleDrive.ListFiles: requires that some answer of the listing has no page token; a listing that never ends would loop forever in the source too.
- JsonRecord.Loads: only the layout `json.dumps` writes for the three fields is read back; other JSON layouts `json.loads` accepts are not modelled.
- DocumentEncoder.ThumbnailImageId: the id followed by `_thumb` is stated by its definition only; the thumbnail key is what carries contracts.
- S3Host.ObjectStore.DeleteFromS3: requires, for a folder key, that some page of the listing has no continuation token; a listing that never ends (the source would loop for ever) is not modelled.
- Strings.IsDigit: accepts the ASCII digits `0`-`9` only; Python's `str.isdigit`, `\d` on a `str` pattern and `int()` also take other Unicode decimal digits, which the model treats as non-digits.
- DocumentEncoder.DigitRun: `\d+` is read as a run of ASCII digits only (see Strings.IsDigit).
- DocumentEncoder.MatchTableId: the `\d+` of the table-id pattern matches ASCII digits only (see Strings.IsDigit).
- DocumentEncoder.MatchOutlineSourceId: the `\d+` of the outline-source pattern matches ASCII digits only (see Strings.IsDigit).
- OutlineParsing.SkipDigits: `\d` in the page-list patterns is read as an ASCII digit only (see Strings.IsDigit).
- OutlineParsing.DigitList: only ASCII digit runs are read as page numbers (see Strings.IsDigit).
- Outline.RangeEnd: a float word count is added exactly (a real number, or an infinity or NaN carried through); IEEE rounding of `start + length + count` is not modelled.
- Outline.HintMarks: inherits the exact float sum of Outline.RangeEnd; a float count whose rounded sum differs from the exact one is not distinguished.
- The preview and table keys written by `preview_pdf.py` and `extraction_engine.py` are not claimed to agree with the encoder's preview and table keys; their formats differ.
- PromptBuilder.BuildPrompt: the user prompt is tied to `str.format` only for templates whose literal text has no braces; conversions and format specifications of `str.format` are not modelled.
- `str.format` in general: only the `{name}` placeholders the templates use are interpreted.

## Findings

| source | as written | input that shows it | evidently intended | confidence | as-written member | corrected member |
|---|---|---|---|---|---|---|
| app/utils/document_handling/process_document.py:125 | the document is processed under `Path(fileName).stem`, which strips one more suffix from the name the id records | an upload `scan.v2.pdf`: its id records `scan.v2`, its outline source images are uploaded under `.../document_outline_sources/scan/...` but looked up under `.../scan.v2/...` | process the document under the name its id records | not executed | ProcessDocument.OutlineImagesMisfiled | ProcessDocument.DecodedNameFilesOutline |
