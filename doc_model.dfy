/** The `docs` collection: the record of every uploaded document and its processing status,
    the listing of a user's documents that marks stale pending ones as failed, the status
    update and the lookup by id. The database is the sequence of records in its natural
    order; clocks and ISO timestamp parsing are parameters. */
module Docs {
  import opened Wrappers
  import opened Strings
  import opened DocumentEncoder
  import opened JsonRecord

  /** `Literal['pending', 'done', 'error']`: no other status can be stored. */
  datatype Status = Pending | Done | Error

  /** A stored record. Times are microseconds since the epoch, in UTC. */
  datatype Doc = Doc(id: string, userId: string, filename: string, status: Status, createdAt: int, updatedAt: int)

  /** `DocModel(_id=id, userId=userId, filename=filename)`: a new record is pending, and
      each time field has its own default factory, so the clock is read twice, first for
      `createdAt` (`created`) and then for `updatedAt` (`updated`). */
  function NewDoc(id: string, userId: string, filename: string, created: int, updated: int): (d: Doc)
    ensures d.status == Pending
    ensures d.id == id && d.userId == userId && d.filename == filename
    ensures d.createdAt == created && d.updatedAt == updated
  {
    Doc(id, userId, filename, Pending, created, updated)
  }

  /** Thirty minutes, in microseconds. */
  const StaleAfter: int := 30 * 60 * 1_000_000

  /** More than thirty minutes have passed since `createdAt`. */
  predicate Stale(createdAt: int, now: int) {
    now - createdAt > StaleAfter
  }

  /** `createdAt.split("T")[0]`: the text before the first `T`, or all of it. */
  function DatePart(timestamp: string): (date: string)
    ensures date == timestamp[..IndexOf(timestamp, 'T')]
    ensures Excludes(date, 'T')
  {
    SplitOnIndex(timestamp, 'T');
    SplitOn(timestamp, 'T')[0]
  }

  /** The index of the first record with the id, as `find_one({"_id": id})` finds it. */
  function Find(docs: seq<Doc>, id: string): (r: Option<nat>)
    ensures r.Some? ==> r.value < |docs| && docs[r.value].id == id
    ensures r.Some? ==> forall i :: 0 <= i < r.value ==> docs[i].id != id
    ensures r.None? ==> forall i :: 0 <= i < |docs| ==> docs[i].id != id
  {
    if docs == [] then None
    else if docs[0].id == id then Some(0)
    else match Find(docs[1..], id)
      case None => None
      case Some(i) => Some(i + 1)
  }

  /** The records of the user, in store order: `find({"userId": userId})`. */
  function Owned(docs: seq<Doc>, userId: string): (owned: seq<Doc>)
    ensures |owned| <= |docs|
    ensures forall k :: 0 <= k < |owned| ==> owned[k].userId == userId && owned[k] in docs
    ensures forall d :: d in docs && d.userId == userId ==> d in owned
  {
    if docs == [] then []
    else
      var rest := Owned(docs[1..], userId);
      assert forall d :: d in docs[1..] ==> d in docs;
      if docs[0].userId == userId then [docs[0]] + rest else rest
  }

  /** The store after `update_one({"_id": id}, {"$set": {"status": status}})`. */
  function SetStatus(docs: seq<Doc>, id: string, status: Status): (r: seq<Doc>)
    ensures |r| == |docs|
    ensures forall i :: 0 <= i < |docs| ==>
      r[i] == if Find(docs, id) == Some(i) then docs[i].(status := status) else docs[i]
  {
    match Find(docs, id)
    case None => docs
    case Some(i) => docs[i := docs[i].(status := status)]
  }

  // ---------------------------------------------------------------- the listing

  /** One entry of `get_docs_by_user`. */
  datatype DocEntry = DocEntry(id: string, filename: string, status: Status, createdAt: string)

  /** Why the listing raises: an id that does not decode, or a timestamp that does not parse. */
  datatype DocsError = Undecodable(id: string) | BadTimestamp(id: string)

  /** The entry of one record, given its decoded id, and whether the record is found stale;
      the timestamp is read only for a pending record. */
  function Review(doc: Doc, decoded: Result<Record, DecodeError>, now: int, parse: string -> Option<int>)
    : (r: Result<(DocEntry, bool), DocsError>)
    ensures decoded.Err? ==> r == Err(Undecodable(doc.id))
    ensures decoded.Ok? && doc.status == Pending && parse(decoded.value.timestamp).None? ==> r == Err(BadTimestamp(doc.id))
    ensures r.Ok? ==>
      var rec := decoded.value;
      && decoded.Ok?
      && (doc.status == Pending ==> parse(rec.timestamp).Some?)
      && (r.value.1 <==> doc.status == Pending && Stale(parse(rec.timestamp).value, now))
      && r.value.0 == DocEntry(doc.id, rec.documentName, if r.value.1 then Error else doc.status, DatePart(rec.timestamp))
  {
    if decoded.Err? then Err(Undecodable(doc.id))
    else
      var rec := decoded.value;
      if doc.status != Pending then Ok((DocEntry(doc.id, rec.documentName, doc.status, DatePart(rec.timestamp)), false))
      else if parse(rec.timestamp).None? then Err(BadTimestamp(doc.id))
      else
        var stale := Stale(parse(rec.timestamp).value, now);
        Ok((DocEntry(doc.id, rec.documentName, if stale then Error else Pending, DatePart(rec.timestamp)), stale))
  }

  /** The reviews of the records in order, each id decoded by `decode`, up to the first
      review that raises. */
  function Reviews(docs: seq<Doc>, decode: string -> Result<Record, DecodeError>, now: int, parse: string -> Option<int>)
    : (r: Result<seq<(DocEntry, bool)>, DocsError>)
    ensures r.Ok? ==> |r.value| == |docs|
    ensures r.Ok? ==> forall k :: 0 <= k < |docs| ==> Review(docs[k], decode(docs[k].id), now, parse) == Ok(r.value[k])
    ensures r.Err? ==> exists k :: 0 <= k < |docs| && Review(docs[k], decode(docs[k].id), now, parse) == Err(r.error)
  {
    if docs == [] then Ok([])
    else
      var n := |docs| - 1;
      match Reviews(docs[..n], decode, now, parse)
      case Err(e) => Err(e)
      case Ok(before) =>
        match Review(docs[n], decode(docs[n].id), now, parse)
        case Err(e) => Err(e)
        case Ok(x) => Ok(before + [x])
  }

  function Entries(reviews: seq<(DocEntry, bool)>): (entries: seq<DocEntry>)
    ensures |entries| == |reviews| && forall k :: 0 <= k < |reviews| ==> entries[k] == reviews[k].0
  {
    seq(|reviews|, k requires 0 <= k < |reviews| => reviews[k].0)
  }

  lemma EntriesSnoc(reviews: seq<(DocEntry, bool)>, review: (DocEntry, bool))
    ensures Entries(reviews + [review]) == Entries(reviews) + [review.0]
  {
  }

  /** The ids of the records found stale. */
  function StaleIds(docs: seq<Doc>, reviews: seq<(DocEntry, bool)>): (ids: set<string>)
    requires |reviews| == |docs|
    ensures forall k :: 0 <= k < |docs| && reviews[k].1 ==> docs[k].id in ids
    ensures forall id :: id in ids ==> exists k :: 0 <= k < |docs| && reviews[k].1 && docs[k].id == id
  {
    set k | 0 <= k < |docs| && reviews[k].1 :: docs[k].id
  }

  /** The store with every record whose id is listed set to `"error"`. */
  function MarkFailed(docs: seq<Doc>, ids: set<string>): (r: seq<Doc>)
    ensures |r| == |docs|
    ensures forall i :: 0 <= i < |docs| ==> r[i] == if docs[i].id in ids then docs[i].(status := Error) else docs[i]
  {
    seq(|docs|, i requires 0 <= i < |docs| => if docs[i].id in ids then docs[i].(status := Error) else docs[i])
  }

  /** Every listed entry reports its record, by position: the decoded name, the date part of
      the decoded timestamp, and `"error"` for a pending record created more than thirty
      minutes ago; any other record keeps its status and is not written. */
  lemma ListingEntries(docs: seq<Doc>, decode: string -> Result<Record, DecodeError>, now: int, parse: string -> Option<int>, k: nat)
    requires Reviews(docs, decode, now, parse).Ok? && k < |docs|
    ensures var reviews := Reviews(docs, decode, now, parse).value;
      var entry := Entries(reviews)[k];
      var rec := decode(docs[k].id).value;
      && decode(docs[k].id).Ok?
      && entry.id == docs[k].id && entry.filename == rec.documentName
      && entry.createdAt == DatePart(rec.timestamp)
      && (docs[k].status == Pending && Stale(parse(rec.timestamp).value, now) ==> entry.status == Error && reviews[k].1)
      && (docs[k].status != Pending ==> entry.status == docs[k].status && !reviews[k].1)
      && (docs[k].status == Pending && !Stale(parse(rec.timestamp).value, now) ==> entry.status == Pending && !reviews[k].1)
  {
  }

  // ---------------------------------------------------------------- the repository

  class DocRepository {
    /** The `docs` collection, in natural order. */
    var docs: seq<Doc>

    /** `_id` is unique in the collection. */
    predicate Valid()
      reads this
    {
      forall i, j :: 0 <= i < j < |docs| ==> docs[i].id != docs[j].id
    }

    constructor ()
      ensures docs == [] && Valid()
    {
      docs := [];
    }

    /** `create_doc`: the insert fails on an id already stored, as `_id` is unique. */
    method CreateDoc(doc: Doc) returns (r: Option<string>)
      requires Valid()
      modifies this
      ensures Valid()
      ensures Find(old(docs), doc.id).Some? ==> r.None? && docs == old(docs)
      ensures Find(old(docs), doc.id).None? ==> r == Some(doc.id) && docs == old(docs) + [doc]
    {
      if Find(docs, doc.id).Some? {
        return None;
      }
      docs := docs + [doc];
      r := Some(doc.id);
    }

    /** `update_status`: true iff a record was modified, which needs a record with the id
        whose status differs from the new one. */
    method UpdateStatus(documentId: string, status: Status) returns (modified: bool)
      requires Valid()
      modifies this
      ensures Valid()
      ensures docs == SetStatus(old(docs), documentId, status)
      ensures modified <==> Find(old(docs), documentId).Some? && old(docs)[Find(old(docs), documentId).value].status != status
    {
      var found := Find(docs, documentId);
      modified := found.Some? && docs[found.value].status != status;
      docs := SetStatus(docs, documentId, status);
    }

    /** `get_docs_by_user`: one entry per record of the user in store order; each pending
        record created more than thirty minutes before `now` is set to `"error"` in the
        store as it is reached. */
    method GetDocsByUser(userId: string, now: int, parse: string -> Option<int>) returns (r: Result<seq<DocEntry>, DocsError>)
      requires Valid()
      modifies this
      ensures Valid()
      ensures var reviews := Reviews(Owned(old(docs), userId), DecodeDocumentId, now, parse);
        && (reviews.Ok? ==> r == Ok(Entries(reviews.value))
                            && docs == MarkFailed(old(docs), StaleIds(Owned(old(docs), userId), reviews.value)))
        && (reviews.Err? ==> r == Err(reviews.error))
      ensures |docs| == |old(docs)|
      ensures forall i :: 0 <= i < |docs| ==>
        docs[i] == old(docs)[i] || (old(docs)[i].status == Pending && old(docs)[i].userId == userId && docs[i] == old(docs)[i].(status := Error))
    {
      r := ListOwned(Owned(docs, userId), userId, DecodeDocumentId, now, parse);
    }

    /** The loop of `get_docs_by_user` over the records `owned` of the user, for any decoder
        of document ids. */
    method ListOwned(owned: seq<Doc>, userId: string, decode: string -> Result<Record, DecodeError>, now: int, parse: string -> Option<int>)
      returns (r: Result<seq<DocEntry>, DocsError>)
      requires Valid()
      requires forall k :: 0 <= k < |owned| ==> owned[k] in docs && owned[k].userId == userId
      modifies this
      ensures Valid()
      ensures var reviews := Reviews(owned, decode, now, parse);
        && (reviews.Ok? ==> r == Ok(Entries(reviews.value)) && docs == MarkFailed(old(docs), StaleIds(owned, reviews.value)))
        && (reviews.Err? ==> r == Err(reviews.error))
      ensures |docs| == |old(docs)|
      ensures forall i :: 0 <= i < |docs| ==>
        docs[i] == old(docs)[i] || (old(docs)[i].status == Pending && old(docs)[i].userId == userId && docs[i] == old(docs)[i].(status := Error))
    {
      ghost var start := docs;
      var entries: seq<DocEntry> := [];
      var k := 0;
      while k < |owned|
        invariant 0 <= k <= |owned| && Valid()
        invariant Listing(start, owned[..k], decode, now, parse) == Ok((entries, docs))
      {
        var doc := owned[k];
        var review := Review(doc, decode(doc.id), now, parse);
        if review.Err? {
          ListingRaises(start, owned, decode, now, parse, k);
          ListingReviews(start, owned, decode, now, parse);
          ListingFrame(start, owned, userId, decode, now, parse, k);
          return Err(review.error);
        }
        ghost var before := docs;
        if review.value.1 {
          var _ := UpdateStatus(doc.id, Error);
        }
        ListingSnoc(start, owned, decode, now, parse, k, entries, before);
        entries := entries + [review.value.0];
        k := k + 1;
      }
      assert owned[..k] == owned;
      ListingReviews(start, owned, decode, now, parse);
      ListingFrame(start, owned, userId, decode, now, parse, k);
      r := Ok(entries);
    }

    /** `get_doc_by_id`: no record gives `None`; otherwise the decoded name, the stored
        summary and the date part of the decoded timestamp. A record without a summary
        raises, as indexing the missing summary does. */
    method GetDocById<S>(documentId: string, summaryOf: string -> Option<S>) returns (r: Result<Option<DocView<S>>, ViewError>)
      ensures Find(docs, documentId).None? <==> r == Ok(None)
      ensures Find(docs, documentId).Some? && DecodeDocumentId(documentId).Err? ==> r == Err(NotDecodable)
      ensures Find(docs, documentId).Some? && DecodeDocumentId(documentId).Ok? ==>
        var rec := DecodeDocumentId(documentId).value;
        r == match summaryOf(documentId)
          case None => Err(NoSummary)
          case Some(s) => Ok(Some(DocView(documentId, rec.documentName, s, DatePart(rec.timestamp))))
    {
      if Find(docs, documentId).None? {
        return Ok(None);
      }
      match DecodeDocumentId(documentId)
      case Err(_) => r := Err(NotDecodable);
      case Ok(rec) =>
        match summaryOf(documentId)
        case None => r := Err(NoSummary);
        case Some(s) => r := Ok(Some(DocView(documentId, rec.documentName, s, DatePart(rec.timestamp))));
    }
  }

  /** What `get_doc_by_id` returns for a record. */
  datatype DocView<S> = DocView(id: string, filename: string, summary: S, creationDate: string)

  datatype ViewError = NotDecodable | NoSummary

  // ---------------------------------------------------------------- proof steps of the listing

  /** The listing as the loop of `get_docs_by_user` builds it, record by record: the entries
      so far and the store after the status updates so far, or the first error. */
  function Listing(start: seq<Doc>, owned: seq<Doc>, decode: string -> Result<Record, DecodeError>, now: int, parse: string -> Option<int>)
    : (r: Result<(seq<DocEntry>, seq<Doc>), DocsError>)
    ensures r.Ok? ==> |r.value.0| == |owned| && |r.value.1| == |start|
  {
    if owned == [] then Ok(([], start))
    else
      var n := |owned| - 1;
      match Listing(start, owned[..n], decode, now, parse)
      case Err(e) => Err(e)
      case Ok(sofar) =>
        match Review(owned[n], decode(owned[n].id), now, parse)
        case Err(e) => Err(e)
        case Ok(review) =>
          Ok((sofar.0 + [review.0], if review.1 then SetStatus(sofar.1, owned[n].id, Error) else sofar.1))
  }

  /** One more record whose review passes: its entry is appended and, when stale, its
      status is set. */
  lemma ListingSnoc(start: seq<Doc>, owned: seq<Doc>, decode: string -> Result<Record, DecodeError>, now: int, parse: string -> Option<int>,
                    k: nat, entries: seq<DocEntry>, docs: seq<Doc>)
    requires k < |owned| && Listing(start, owned[..k], decode, now, parse) == Ok((entries, docs))
    requires Review(owned[k], decode(owned[k].id), now, parse).Ok?
    ensures var review := Review(owned[k], decode(owned[k].id), now, parse).value;
      Listing(start, owned[..k + 1], decode, now, parse)
        == Ok((entries + [review.0], if review.1 then SetStatus(docs, owned[k].id, Error) else docs))
  {
    assert owned[..k + 1][..k] == owned[..k] && owned[..k + 1][k] == owned[k];
  }

  /** Once a record raises, the listing raises with that error whatever follows. */
  lemma {:induction false} ListingErrSticky(start: seq<Doc>, owned: seq<Doc>, decode: string -> Result<Record, DecodeError>, now: int, parse: string -> Option<int>, k: nat)
    requires k <= |owned| && Listing(start, owned[..k], decode, now, parse).Err?
    ensures Listing(start, owned, decode, now, parse) == Listing(start, owned[..k], decode, now, parse)
    decreases |owned| - k
  {
    if k < |owned| {
      assert owned[..k + 1][..k] == owned[..k];
      ListingErrSticky(start, owned, decode, now, parse, k + 1);
    } else {
      assert owned[..k] == owned;
    }
  }

  /** The listing raises with the error of the first record whose review raises. */
  lemma ListingRaises(start: seq<Doc>, owned: seq<Doc>, decode: string -> Result<Record, DecodeError>, now: int, parse: string -> Option<int>, k: nat)
    requires k < |owned| && Listing(start, owned[..k], decode, now, parse).Ok?
    requires Review(owned[k], decode(owned[k].id), now, parse).Err?
    ensures Listing(start, owned, decode, now, parse) == Err(Review(owned[k], decode(owned[k].id), now, parse).error)
  {
    assert owned[..k + 1][..k] == owned[..k] && owned[..k + 1][k] == owned[k];
    ListingErrSticky(start, owned, decode, now, parse, k + 1);
  }

  /** The listing built record by record is the listing of the reviews: it raises exactly
      when a review raises, with the first error, and otherwise holds the entries of the
      reviews and the store with the stale records marked. */
  lemma {:induction false} ListingReviews(start: seq<Doc>, owned: seq<Doc>, decode: string -> Result<Record, DecodeError>, now: int, parse: string -> Option<int>)
    requires forall i, j :: 0 <= i < j < |start| ==> start[i].id != start[j].id
    ensures var reviews := Reviews(owned, decode, now, parse);
      && (reviews.Ok? ==> Listing(start, owned, decode, now, parse)
                            == Ok((Entries(reviews.value), MarkFailed(start, StaleIds(owned, reviews.value)))))
      && (reviews.Err? ==> Listing(start, owned, decode, now, parse) == Err(reviews.error))
  {
    if owned == [] {
      assert MarkFailed(start, StaleIds(owned, [])) == start;
    } else {
      var n := |owned| - 1;
      ListingReviews(start, owned[..n], decode, now, parse);
      var prior := Reviews(owned[..n], decode, now, parse);
      if prior.Ok? {
        var review := Review(owned[n], decode(owned[n].id), now, parse);
        if review.Ok? {
          var stale := StaleIds(owned[..n], prior.value);
          EntriesSnoc(prior.value, review.value);
          StaleIdsStep(owned, n, prior.value, review.value);
          assert owned[..n + 1] == owned;
          if review.value.1 {
            MarkOne(start, stale, owned[n].id);
          }
        }
      }
    }
  }

  /** Only pending records of the user are marked by the listing of a prefix of the user's
      records, and nothing else changes. */
  lemma ListingFrame(start: seq<Doc>, owned: seq<Doc>, userId: string, decode: string -> Result<Record, DecodeError>, now: int, parse: string -> Option<int>, k: nat)
    requires forall i, j :: 0 <= i < j < |start| ==> start[i].id != start[j].id
    requires forall j :: 0 <= j < |owned| ==> owned[j] in start && owned[j].userId == userId
    requires k <= |owned| && Listing(start, owned[..k], decode, now, parse).Ok?
    ensures var docs := Listing(start, owned[..k], decode, now, parse).value.1;
      forall i :: 0 <= i < |docs| ==>
        docs[i] == start[i] || (start[i].status == Pending && start[i].userId == userId && docs[i] == start[i].(status := Error))
  {
    var done := owned[..k];
    ListingReviews(start, done, decode, now, parse);
    var reviews := Reviews(done, decode, now, parse).value;
    MarkedWerePending(start, done, reviews, userId, decode, now, parse);
  }

  /** Marking one more id is one more status update, when ids are unique. */
  lemma MarkOne(start: seq<Doc>, ids: set<string>, id: string)
    requires forall i, j :: 0 <= i < j < |start| ==> start[i].id != start[j].id
    ensures SetStatus(MarkFailed(start, ids), id, Error) == MarkFailed(start, ids + {id})
  {
    var marked := MarkFailed(start, ids);
    forall i | 0 <= i < |start|
      ensures SetStatus(marked, id, Error)[i] == MarkFailed(start, ids + {id})[i]
    {
      if start[i].id == id {
        var j := Find(marked, id).value;
        assert marked[j].id == start[j].id;
        assert j == i;
      }
    }
  }

  lemma StaleIdsSnoc(docs: seq<Doc>, reviews: seq<(DocEntry, bool)>, doc: Doc, review: (DocEntry, bool))
    requires |reviews| == |docs|
    ensures StaleIds(docs + [doc], reviews + [review]) == StaleIds(docs, reviews) + (if review.1 then {doc.id} else {})
  {
    var a := StaleIds(docs + [doc], reviews + [review]);
    var b := StaleIds(docs, reviews) + (if review.1 then {doc.id} else {});
    forall id | id in a ensures id in b {
      var k :| 0 <= k < |docs| + 1 && (reviews + [review])[k].1 && (docs + [doc])[k].id == id;
      if k < |docs| {
        assert reviews[k].1 && docs[k].id == id;
      }
    }
    forall id | id in b ensures id in a {
      if id in StaleIds(docs, reviews) {
        var k :| 0 <= k < |docs| && reviews[k].1 && docs[k].id == id;
        assert (reviews + [review])[k].1 && (docs + [doc])[k].id == id;
      } else {
        assert (reviews + [review])[|docs|].1 && (docs + [doc])[|docs|].id == id;
      }
    }
  }

  /** `StaleIdsSnoc` for the prefixes of one sequence. */
  lemma StaleIdsStep(docs: seq<Doc>, k: nat, reviews: seq<(DocEntry, bool)>, review: (DocEntry, bool))
    requires k < |docs| && |reviews| == k
    ensures review.1 ==> StaleIds(docs[..k + 1], reviews + [review]) == StaleIds(docs[..k], reviews) + {docs[k].id}
    ensures !review.1 ==> StaleIds(docs[..k + 1], reviews + [review]) == StaleIds(docs[..k], reviews)
  {
    assert docs[..k + 1] == docs[..k] + [docs[k]];
    StaleIdsSnoc(docs[..k], reviews, docs[k], review);
  }

  /** Only records of the user that were pending are ever marked. */
  lemma MarkedWerePending(start: seq<Doc>, done: seq<Doc>, reviews: seq<(DocEntry, bool)>,
                          userId: string, decode: string -> Result<Record, DecodeError>, now: int, parse: string -> Option<int>)
    requires forall i, j :: 0 <= i < j < |start| ==> start[i].id != start[j].id
    requires |reviews| == |done|
    requires forall k :: 0 <= k < |done| ==> done[k] in start && done[k].userId == userId
    requires forall k :: 0 <= k < |done| ==> Review(done[k], decode(done[k].id), now, parse) == Ok(reviews[k])
    ensures forall i :: 0 <= i < |start| && start[i].id in StaleIds(done, reviews) ==>
      start[i].status == Pending && start[i].userId == userId
  {
    forall i | 0 <= i < |start| && start[i].id in StaleIds(done, reviews)
      ensures start[i].status == Pending && start[i].userId == userId
    {
      var k :| 0 <= k < |done| && reviews[k].1 && done[k].id == start[i].id;
      var j :| 0 <= j < |start| && start[j] == done[k];
      assert j == i;
    }
  }
}
