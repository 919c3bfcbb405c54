/** The S3 object store as the rest of the system uses it: choosing a free key for an
    upload, deleting a key or everything under a folder, and reading an uploaded document
    back by its id. The bucket is the `ObjectStore` class, a map from keys to bytes; keys
    whose `head_object` fails with an error other than 404 are a parameter, and the
    listing pages of `list_objects_v2` are given as the responses S3 sends. */
module S3Host {
  import opened Wrappers
  import opened Strings
  import DocumentEncoder
  import JsonRecord

  /** Why a call raises. */
  datatype S3Error =
    | NoFolder(key: string)                            // `key.rsplit("/", 1)` has one part
    | Denied(key: string)                              // `head_object` failed with another code than 404
    | NoSuchKey(key: string)                           // `get_object` of a missing key
    | Undecodable(cause: DocumentEncoder.DecodeError)  // the document id does not decode

  /** `key.rsplit("/", 1)`: the folder and the file name around the last `/`. */
  function FolderAndFile(key: string): (r: Option<(string, string)>)
    ensures r.None? <==> Excludes(key, '/')
    ensures r.Some? ==> key == r.value.0 + "/" + r.value.1 && Excludes(r.value.1, '/')
  {
    var i := LastIndexOf(key, '/');
    if i < 0 then
      assert Excludes(key, '/');
      None
    else
      assert key == key[..i] + "/" + key[i + 1..];
      ExcludesAfter(key, '/', i, i + 1);
      Some((key[..i], key[i + 1..]))
  }

  /** The `k`-th key tried for a file of the folder: the key itself, then
      `<folder>/<name>_<k><ext>` with `name` and `ext` from `os.path.splitext`. */
  function Candidate(folder: string, file: string, k: nat): string
  {
    if k == 0 then folder + "/" + file
    else
      var (name, ext) := SplitExt(file);
      folder + "/" + name + "_" + NatToString(k) + ext
  }

  /** Different counters give different keys, so the search never repeats a key. */
  lemma CandidatesDistinct(folder: string, file: string, j: nat, k: nat)
    requires j != k
    ensures Candidate(folder, file, j) != Candidate(folder, file, k)
  {
    SplitExtParts(file);
    var name, ext := SplitExt(file).0, SplitExt(file).1;
    if j == 0 || k == 0 {
      var c := if j == 0 then k else j;
      assert |Candidate(folder, file, c)| == |folder| + 1 + |name| + 1 + |NatToString(c)| + |ext|;
    } else if Candidate(folder, file, j) == Candidate(folder, file, k) {
      MiddleCancel(folder + "/" + name + "_", NatToString(j), NatToString(k), ext);
      NatToStringInjective(j, k);
    }
  }

  /** A `.pdf` name without another dot splits into its name and `.pdf`. */
  lemma PdfExt(name: string)
    requires name != [] && Excludes(name, '.') && Excludes(name, '/')
    ensures SplitExt(name + ".pdf") == (name, ".pdf")
  {
    var s := name + ".pdf";
    assert s[|name|] == '.';
    assert s[|name| + 1] == 'p' && s[|name| + 2] == 'd' && s[|name| + 3] == 'f';
    forall i | 0 <= i < |name| ensures s[i] != '/' && s[i] != '.' {
      assert s[i] == name[i];
    }
    assert LastIndexOf(s, '/') == -1;
    assert LastIndexOf(s, '.') == |name|;
    assert s[0..|name|] == name && s[..|name|] == name && s[|name|..] == ".pdf";
    assert !OnlyDots(name) by {
      assert name[0] != '.';
    }
  }

  /** The counter is appended to the whole name before the extension, so a name that
      already carries a counter, such as `a_1.pdf`, gets a second one (`a_1_1.pdf`). */
  lemma CounterAppended(folder: string, name: string, k: nat)
    requires name != [] && Excludes(name, '.') && Excludes(name, '/') && k > 0
    ensures Candidate(folder, name + ".pdf", k) == folder + "/" + name + "_" + NatToString(k) + ".pdf"
  {
    PdfExt(name);
  }

  /** The outcome of `head_object` on the key: raises for a denied key, else whether it
      exists. */
  predicate Probed(objects: map<string, seq<Byte>>, denied: set<string>, key: string) {
    key !in denied && key in objects
  }

  class ObjectStore {
    /** The objects of the bucket, by key. */
    var objects: map<string, seq<Byte>>

    constructor ()
      ensures objects == map[]
    {
      objects := map[];
    }

    /** `get_available_file_key`: the first key, in the order of `Candidate`, that is
        absent, after only existing keys; a key without `/` or a denied probe raises. */
    method GetAvailableFileKey(key: string, denied: set<string>) returns (r: Result<string, S3Error>)
      ensures FolderAndFile(key).None? ==> r == Err(NoFolder(key))
      ensures FolderAndFile(key).Some? ==>
        exists k: nat :: SearchEnds(objects, denied, FolderAndFile(key).value.0, FolderAndFile(key).value.1, k, r)
    {
      var parts := FolderAndFile(key);
      if parts.None? {
        return Err(NoFolder(key));
      }
      var folder, file := parts.value.0, parts.value.1;
      var counter := 0;
      var newKey := key;
      while true
        invariant newKey == Candidate(folder, file, counter)
        invariant AllProbed(objects, denied, folder, file, counter)
        invariant Tried(folder, file, counter) <= objects.Keys
        decreases |objects.Keys - Tried(folder, file, counter)|
      {
        if newKey in denied {
          r := Err(Denied(newKey));
          assert SearchEnds(objects, denied, folder, file, counter, r);
          return;
        }
        if newKey !in objects {
          r := Ok(newKey);
          assert SearchEnds(objects, denied, folder, file, counter, r);
          return;
        }
        TriedGrows(objects.Keys, folder, file, counter);
        ProbedGrows(objects, denied, folder, file, counter);
        counter := counter + 1;
        newKey := Candidate(folder, file, counter);
      }
    }

    /** `check_document_exists`: whether the original upload of the document is stored; an
        id that does not decode and a denied probe raise. */
    method CheckDocumentExists(documentId: string, denied: set<string>) returns (r: Result<bool, S3Error>)
      ensures DocumentEncoder.OriginalDocumentFileKey(documentId).Err? ==>
        r == Err(Undecodable(DocumentEncoder.OriginalDocumentFileKey(documentId).error))
      ensures DocumentEncoder.OriginalDocumentFileKey(documentId).Ok? ==>
        var key := DocumentEncoder.OriginalDocumentFileKey(documentId).value;
        && (key in denied ==> r == Err(Denied(key)))
        && (key !in denied ==> r == Ok(key in objects))
    {
      var key := DocumentEncoder.OriginalDocumentFileKey(documentId);
      if key.Err? {
        return Err(Undecodable(key.error));
      }
      if key.value in denied {
        return Err(Denied(key.value));
      }
      r := Ok(key.value in objects);
    }

    /** `get_document`: the bytes stored under the original-upload key of the id, with the
        document name the id records. */
    method GetDocument(documentId: string) returns (r: Result<(seq<Byte>, string), S3Error>)
      ensures DocumentEncoder.DecodeDocumentId(documentId).Err? ==>
        r == Err(Undecodable(DocumentEncoder.DecodeDocumentId(documentId).error))
      ensures DocumentEncoder.DecodeDocumentId(documentId).Ok? ==>
        var key := DocumentEncoder.OriginalDocumentFileKey(documentId).value;
        && (key !in objects ==> r == Err(NoSuchKey(key)))
        && (key in objects ==> r == Ok((objects[key], DocumentEncoder.DecodeDocumentId(documentId).value.documentName)))
    {
      var key := DocumentEncoder.OriginalDocumentFileKey(documentId);
      if key.Err? {
        return Err(Undecodable(key.error));
      }
      var record := DocumentEncoder.DecodeDocumentId(documentId);
      if key.value !in objects {
        return Err(NoSuchKey(key.value));
      }
      r := Ok((objects[key.value], record.value.documentName));
    }

    /** `delete_from_s3`: a key ending in `/` is a folder, and every key listed under it,
        across the listing pages up to the first without a continuation token, is deleted;
        any other key is deleted alone. */
    method DeleteFromS3(key: string, responses: seq<ListResponse>)
      requires EndsWith(key, "/") ==> exists i :: 0 <= i < |responses| && !responses[i].hasNext
      modifies this
      ensures EndsWith(key, "/") ==> objects == Without(old(objects), Listed(responses))
      ensures !EndsWith(key, "/") ==> objects == Without(old(objects), {key})
    {
      if EndsWith(key, "/") {
        var toDelete: seq<string> := [];
        var i := 0;
        while true
          invariant i < |responses| && (forall j :: 0 <= j < i ==> responses[j].hasNext)
          invariant toDelete == Gathered(responses, i)
          decreases |responses| - i
        {
          toDelete := toDelete + responses[i].contents;
          if !responses[i].hasNext {
            break;
          }
          i := i + 1;
          if i == |responses| {
            assert false;
          }
        }
        GatheredAll(responses, i);
        if toDelete != [] {
          objects := Without(objects, KeySet(toDelete));
        } else {
          assert Listed(responses) == {};
          assert Without(objects, {}) == objects;
        }
      } else {
        objects := Without(objects, {key});
      }
    }
  }

  /** How the search of `get_available_file_key` ends at counter `k`: every earlier key
      exists, and key `k` is denied (the call raises) or is absent (and is returned). */
  predicate SearchEnds(objects: map<string, seq<Byte>>, denied: set<string>, folder: string, file: string, k: nat,
                       r: Result<string, S3Error>)
  {
    && AllProbed(objects, denied, folder, file, k)
    && (Candidate(folder, file, k) in denied ==> r == Err(Denied(Candidate(folder, file, k))))
    && (Candidate(folder, file, k) !in denied ==> r == Ok(Candidate(folder, file, k)) && Candidate(folder, file, k) !in objects)
  }

  /** Every key before counter `k` was probed and found. */
  predicate AllProbed(objects: map<string, seq<Byte>>, denied: set<string>, folder: string, file: string, k: nat) {
    forall j :: 0 <= j < k ==> Probed(objects, denied, Candidate(folder, file, j))
  }

  /** A found key at counter `k` extends the probed run by one. */
  lemma ProbedGrows(objects: map<string, seq<Byte>>, denied: set<string>, folder: string, file: string, k: nat)
    requires AllProbed(objects, denied, folder, file, k)
    requires Probed(objects, denied, Candidate(folder, file, k))
    ensures AllProbed(objects, denied, folder, file, k + 1)
  {}

  /** The keys tried before counter `k`. */
  ghost function Tried(folder: string, file: string, k: nat): set<string>
  {
    set j | 0 <= j < k :: Candidate(folder, file, j)
  }

  /** One more existing key tried leaves fewer untried keys in the store. */
  lemma TriedGrows(keys: set<string>, folder: string, file: string, k: nat)
    requires Tried(folder, file, k) <= keys && Candidate(folder, file, k) in keys
    ensures Tried(folder, file, k + 1) <= keys
    ensures |keys - Tried(folder, file, k + 1)| < |keys - Tried(folder, file, k)|
  {
    var c := Candidate(folder, file, k);
    assert Tried(folder, file, k + 1) == Tried(folder, file, k) + {c};
    forall j | 0 <= j < k ensures Candidate(folder, file, j) != c {
      CandidatesDistinct(folder, file, j, k);
    }
    assert keys - Tried(folder, file, k + 1) == (keys - Tried(folder, file, k)) - {c};
  }

  /** The store without the given keys. */
  function Without(objects: map<string, seq<Byte>>, gone: set<string>): (r: map<string, seq<Byte>>)
    ensures r.Keys == objects.Keys - gone
    ensures forall k :: k in r ==> r[k] == objects[k]
  {
    map k | k in objects && k !in gone :: objects[k]
  }

  /** One response of `list_objects_v2`: the keys of the page and whether a continuation
      token came with it. */
  datatype ListResponse = ListResponse(contents: seq<string>, hasNext: bool)

  /** The keys of the first `n` pages. */
  function Gathered(responses: seq<ListResponse>, n: nat): seq<string>
    requires n <= |responses|
  {
    if n == 0 then [] else Gathered(responses, n - 1) + responses[n - 1].contents
  }

  /** Index of the last page read: the first without a continuation token. */
  function LastPage(responses: seq<ListResponse>): (n: nat)
    requires exists i :: 0 <= i < |responses| && !responses[i].hasNext
    ensures n < |responses| && !responses[n].hasNext
    ensures forall j :: 0 <= j < n ==> responses[j].hasNext
  {
    if !responses[0].hasNext then 0
    else
      var i :| 0 <= i < |responses| && !responses[i].hasNext;
      assert !responses[1..][i - 1].hasNext;
      var n := LastPage(responses[1..]);
      assert forall j :: 1 <= j < n + 1 ==> responses[j] == responses[1..][j - 1];
      n + 1
  }

  /** The keys of a listing, as a set. */
  function KeySet(keys: seq<string>): set<string>
  {
    set k | k in keys
  }

  /** The set of keys the pagination loop collects. */
  function Listed(responses: seq<ListResponse>): set<string>
    requires exists i :: 0 <= i < |responses| && !responses[i].hasNext
  {
    var n := LastPage(responses);
    KeySet(Gathered(responses, n + 1))
  }

  /** The loop stops at the first page without a token, having gathered `Listed`. */
  lemma GatheredAll(responses: seq<ListResponse>, i: nat)
    requires i < |responses| && !responses[i].hasNext
    requires forall j :: 0 <= j < i ==> responses[j].hasNext
    ensures exists j :: 0 <= j < |responses| && !responses[j].hasNext
    ensures Listed(responses) == KeySet(Gathered(responses, i + 1))
  {
    assert LastPage(responses) == i;
  }

  /** The listing S3 gives for a prefix: the pages read hold exactly the keys under it. */
  predicate FaithfulListing(objects: map<string, seq<Byte>>, prefix: string, responses: seq<ListResponse>)
    requires exists i :: 0 <= i < |responses| && !responses[i].hasNext
  {
    Listed(responses) == set k | k in objects && StartsWith(k, prefix)
  }

  /** Deleting a folder whose listing is faithful removes every key under it and nothing
      else. */
  lemma FolderDeletion(objects: map<string, seq<Byte>>, prefix: string, responses: seq<ListResponse>)
    requires exists i :: 0 <= i < |responses| && !responses[i].hasNext
    requires FaithfulListing(objects, prefix, responses)
    ensures var after := Without(objects, Listed(responses));
      && (forall k :: k in objects && StartsWith(k, prefix) ==> k !in after)
      && (forall k :: k in objects && !StartsWith(k, prefix) ==> k in after && after[k] == objects[k])
  {
  }

  /** A document uploaded as `<stem>.pdf` into the user's folder is found by the id made for
      that name: the existence check and the read use its key, and the read gives back the
      stem as the document name. */
  lemma UploadIsFound(userId: string, stem: string, timestamp: string)
    requires !Contains(stem, ".pdf")
    ensures var id := DocumentEncoder.EncodeDocumentId(userId, stem + ".pdf", timestamp);
      && DocumentEncoder.OriginalDocumentFileKey(id) == Ok(DocumentEncoder.UserRoot(userId) + "docs/" + stem + ".pdf")
      && DocumentEncoder.DecodeDocumentId(id).Ok?
      && DocumentEncoder.DecodeDocumentId(id).value.documentName == stem
  {
    DocumentEncoder.OriginalKeyOfUpload(userId, stem, timestamp);
    DocumentEncoder.RemovePdfSuffix(stem);
    DocumentEncoder.DecodeEncodeDocumentId(userId, stem + ".pdf", timestamp);
  }
}
