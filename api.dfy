/** The request handlers of the FastAPI generation (`src/app.py`) that change
    the ledger, the upload directory or the model list. The upload directory
    is the set of file names in it; a file's digest is given with the upload. */
module Api {
  import opened Wrappers
  import opened Text
  import opened Json
  import opened Sorting
  import opened Ledger
  import opened ModelConfig

  /** The body of the upload response. */
  datatype Uploaded = Uploaded(id: int, filename: string, duplicate: bool)

  /** How a handler that first reads the document ends: it succeeds, answers
      404 for a missing id, or the read raises and the request ends in a
      500 before anything is written. */
  datatype Status = Success | Missing | ReadRaised

  /** `[d for d in docs if d.get("favorite") != 1]`, keeping the listing order. */
  function Unfavorited(docs: map<int, DocRow>, order: seq<int>): (r: seq<int>)
    requires forall i :: 0 <= i < |order| ==> order[i] in docs
    ensures forall i :: 0 <= i < |r| ==> r[i] in docs && docs[r[i]].favorite != 1
    ensures forall id :: id in r <==> id in order && docs[id].favorite != 1
    ensures Distinct(order) ==> Distinct(r)
  {
    if order == [] then []
    else
      var init := order[..|order| - 1];
      var last := order[|order| - 1];
      assert forall id :: id in order <==> id in init || id == last;
      Unfavorited(docs, init) + (if docs[last].favorite != 1 then [last] else [])
  }

  /** The ids of the rows that are not favourites. */
  function NonFavourites(docs: map<int, DocRow>): set<int> {
    set id | id in docs && docs[id].favorite != 1
  }

  /** A list without repeats has as many members as elements. */
  lemma {:induction false} DistinctCard(s: seq<int>)
    requires Distinct(s)
    ensures |set x | x in s| == |s|
  {
    if s != [] {
      var init, last := s[..|s| - 1], s[|s| - 1];
      DistinctCard(init);
      assert (set x | x in s) == (set x | x in init) + {last};
      assert last !in init;
    }
  }

  /** The rows of `docs` not listed in `ids`. */
  ghost function Without(docs: map<int, DocRow>, ids: seq<int>): map<int, DocRow> {
    map id | id in docs && id !in ids :: docs[id]
  }

  /** The file names of the listed rows. */
  function FilenamesOf(docs: map<int, DocRow>, ids: seq<int>): set<string>
    requires forall i :: 0 <= i < |ids| ==> ids[i] in docs
  {
    set id | id in ids :: docs[id].filename
  }

  lemma CleanupStep(docs: map<int, DocRow>, ids: seq<int>, id: int)
    requires id in docs && forall i :: 0 <= i < |ids| ==> ids[i] in docs
    ensures Without(docs, ids + [id]) == Without(docs, ids) - {id}
    ensures FilenamesOf(docs, ids + [id]) == FilenamesOf(docs, ids) + {docs[id].filename}
  {
    assert forall x :: x in ids + [id] <==> x in ids || x == id;
  }

  /** The listing of the non-favourites holds exactly the non-favourites, once each. */
  lemma UnfavoritedListing(docs: map<int, DocRow>, next: int)
    requires IdsBelow(docs.Keys, next)
    ensures var unfav := Unfavorited(docs, AllDocuments(docs, next));
            (forall id :: id in unfav <==> id in NonFavourites(docs)) && |unfav| == |NonFavourites(docs)|
  {
    var unfav := Unfavorited(docs, AllDocuments(docs, next));
    assert (set x | x in unfav) == NonFavourites(docs);
    DistinctCard(unfav);
  }

  /** Deleting the non-favourites leaves the favourites. */
  lemma CleanupDone(docs: map<int, DocRow>, unfav: seq<int>)
    requires forall i :: 0 <= i < |unfav| ==> unfav[i] in docs
    requires forall id :: id in unfav <==> id in NonFavourites(docs)
    ensures Without(docs, unfav) == map id | id in docs && docs[id].favorite == 1 :: docs[id]
    ensures FilenamesOf(docs, unfav) == set id | id in NonFavourites(docs) :: docs[id].filename
  {
    forall id | id in docs
      ensures id !in unfav <==> docs[id].favorite == 1
    {
      assert id in NonFavourites(docs) <==> docs[id].favorite != 1;
    }
  }

  /** `cleanup_documents`: when `get_all_documents` raises on some row, the
      request fails (`None`) before anything is deleted; otherwise every row
      that is not a favourite is deleted with its file, favourites are kept
      as they are, and the number deleted is returned. */
  method Cleanup(db: Database, files: set<string>) returns (remaining: set<string>, count: Option<nat>)
    requires db.Valid()
    modifies db`docs
    ensures db.Valid()
    ensures count.None? <==> ListingRaises(old(db.docs))
    ensures count.None? ==> db.docs == old(db.docs) && remaining == files
    ensures count.Some? ==>
              db.docs == (map id | id in old(db.docs) && old(db.docs)[id].favorite == 1 :: old(db.docs)[id])
              && remaining == files - (set id | id in NonFavourites(old(db.docs)) :: old(db.docs)[id].filename)
              && count.value == |NonFavourites(old(db.docs))|
  {
    if exists id :: id in db.docs && StationsRaise(db.docs[id]) {
      return files, None;
    }
    var unfav := Unfavorited(db.docs, AllDocuments(db.docs, db.nextDocId));
    UnfavoritedListing(db.docs, db.nextDocId);
    CleanupDone(db.docs, unfav);
    var n;
    remaining, n := DeleteAll(db, files, unfav);
    count := Some(n);
  }

  /** The loop of `cleanup_documents`: each listed row is deleted with its file. */
  method DeleteAll(db: Database, files: set<string>, ids: seq<int>) returns (remaining: set<string>, count: nat)
    requires db.Valid()
    requires forall i :: 0 <= i < |ids| ==> ids[i] in db.docs
    modifies db`docs
    ensures db.Valid()
    ensures db.docs == Without(old(db.docs), ids)
    ensures remaining == files - FilenamesOf(old(db.docs), ids)
    ensures count == |ids|
  {
    var snapshot := db.docs;
    remaining, count := files, 0;
    var i := 0;
    while i < |ids|
      invariant 0 <= i <= |ids|
      invariant db.Valid()
      invariant db.docs == Without(snapshot, ids[..i])
      invariant remaining == files - FilenamesOf(snapshot, ids[..i])
      invariant count == i
    {
      var id := ids[i];
      assert ids[..i + 1] == ids[..i] + [id];
      CleanupStep(snapshot, ids[..i], id);
      remaining := remaining - {snapshot[id].filename};
      db.DeleteDocument(id);
      count := count + 1;
      i := i + 1;
    }
    assert ids[..i] == ids;
  }

  /** A row inserted with digest `h` where no row had it is the one the next
      upload of the same bytes is reported against. */
  lemma InsertedDigestFound(docs: map<int, DocRow>, next: int, next': int, id: int, row: DocRow, h: string)
    requires IdsBelow(docs.Keys, next) && IdsBelow(docs[id := row].Keys, next')
    requires DocumentByHash(docs, next, h).None?
    requires row.fileHash == Some(h)
    ensures DocumentByHash(docs[id := row], next', h) == Some(id)
  {
    assert docs[id := row][id].fileHash == Some(h);
  }

  /** The name an upload is stored under: its digest and the original
      name's suffix, case kept. */
  function StoredName(digest: string, filename: string): string {
    digest + Suffix(filename)
  }

  class App {
    const db: Database
    const settings: ModelSettings
    /** The names of the files in `upload_dir`. */
    var files: set<string>

    constructor (db: Database, settings: ModelSettings, files: set<string>)
      ensures this.db == db && this.settings == settings && this.files == files
    {
      this.db := db;
      this.settings := settings;
      this.files := files;
    }

    /** `upload_document` for a file named `filename` whose MD5 digest is
        `digest`: bytes already stored are reported as a duplicate of the
        first row with that digest and nothing is written, unless reading
        that row raises, when the request fails (`None`) and nothing is
        written either; otherwise the file is stored under the digest plus
        the original suffix (case kept) and a new row records it and its
        digest. */
    method Upload(digest: string, filename: string, now: nat) returns (r: Option<Uploaded>)
      requires db.Valid()
      modifies db, this`files
      ensures db.Valid()
      ensures db.locations == old(db.locations) && db.durations == old(db.durations)
      ensures var found := DocumentByHash(old(db.docs), old(db.nextDocId), digest);
              r.None? <==> found.Some? && StationsRaise(old(db.docs)[found.value])
      ensures r.None? ==> db.docs == old(db.docs) && files == old(files)
      ensures DocumentByHash(old(db.docs), old(db.nextDocId), digest).Some? && r.Some? ==>
                var id := DocumentByHash(old(db.docs), old(db.nextDocId), digest).value;
                r.value == Uploaded(id, old(db.docs)[id].filename, true)
                && db.docs == old(db.docs) && files == old(files)
      ensures DocumentByHash(old(db.docs), old(db.nextDocId), digest).None? ==>
                var saved := StoredName(digest, filename);
                r == Some(Uploaded(old(db.nextDocId), filename, false)) && r.value.id !in old(db.docs)
                && files == old(files) + {saved}
                && db.docs == old(db.docs)[r.value.id := DocRow(saved, now, Pending, None, Pending, None, 0, 0, None, Some(digest))]
      ensures r.Some? && !r.value.duplicate ==> DocumentByHash(db.docs, db.nextDocId, digest) == Some(r.value.id)
    {
      var existing := DocumentByHash(db.docs, db.nextDocId, digest);
      if existing.Some? {
        if StationsRaise(db.docs[existing.value]) {
          return None;
        }
        return Some(Uploaded(existing.value, db.docs[existing.value].filename, true));
      }
      var id := Store(StoredName(digest, filename), digest, now);
      r := Some(Uploaded(id, filename, false));
      InsertedDigestFound(old(db.docs), old(db.nextDocId), db.nextDocId, id, db.docs[id], digest);
    }

    /** The new-file branch of `upload_document`: the file is written under
        `saved` and a row records it with the digest. */
    method Store(saved: string, digest: string, now: nat) returns (id: int)
      requires db.Valid()
      modifies db, this`files
      ensures db.Valid()
      ensures db.locations == old(db.locations) && db.durations == old(db.durations)
      ensures id == old(db.nextDocId) && id !in old(db.docs) && files == old(files) + {saved}
      ensures db.docs == old(db.docs)[id := DocRow(saved, now, Pending, None, Pending, None, 0, 0, None, Some(digest))]
    {
      files := files + {saved};
      id := db.CreateDocument(saved, now);
      db.UpdateFileHash(id, digest);
    }

    /** `update_document`: the given properties are stored as a finished
        extraction with no model recorded. */
    method UpdateDocument(id: int, properties: Props)
      requires db.Valid()
      modifies db`docs
      ensures db.Valid()
      ensures id !in old(db.docs) ==> db.docs == old(db.docs)
      ensures id in old(db.docs) ==> db.docs == old(db.docs)[id := old(db.docs)[id].(
                llmStatus := Done, properties := Some(properties), extractedModel := None)]
    {
      db.UpdateLlmStatus(id, Done, Some(properties), None);
    }

    /** `retry_llm`: 404 for a missing id, a 500 when `get_document` raises
        on the row, otherwise the LLM stage is reset. */
    method RetryLlm(id: int) returns (s: Status)
      requires db.Valid()
      modifies db`docs
      ensures db.Valid()
      ensures s == Missing <==> id !in old(db.docs)
      ensures s == ReadRaised <==> id in old(db.docs) && StationsRaise(old(db.docs)[id])
      ensures s != Success ==> db.docs == old(db.docs)
      ensures s == Success ==> db.docs == old(db.docs)[id := old(db.docs)[id].(llmStatus := Pending, properties := None)]
    {
      if id !in db.docs {
        return Missing;
      }
      if StationsRaise(db.docs[id]) {
        return ReadRaised;
      }
      db.ResetLlmStatus(id);
      s := Success;
    }

    /** `retry_ocr`: 404 for a missing id, a 500 when `get_document` raises
        on the row, otherwise both stages are reset. */
    method RetryOcr(id: int) returns (s: Status)
      requires db.Valid()
      modifies db`docs
      ensures db.Valid()
      ensures s == Missing <==> id !in old(db.docs)
      ensures s == ReadRaised <==> id in old(db.docs) && StationsRaise(old(db.docs)[id])
      ensures s != Success ==> db.docs == old(db.docs)
      ensures s == Success ==> db.docs == old(db.docs)[id := old(db.docs)[id].(
                ocrStatus := Pending, ocrText := None, llmStatus := Pending, properties := None)]
    {
      if id !in db.docs {
        return Missing;
      }
      if StationsRaise(db.docs[id]) {
        return ReadRaised;
      }
      db.ResetOcrStatus(id);
      s := Success;
    }

    /** `cleanup_documents` on this application's ledger and upload
        directory: a 500 (`None`) with nothing deleted when some row makes
        the listing raise. */
    method CleanupDocuments() returns (count: Option<nat>)
      requires db.Valid()
      modifies db`docs, this`files
      ensures db.Valid()
      ensures count.None? <==> ListingRaises(old(db.docs))
      ensures count.None? ==> db.docs == old(db.docs) && files == old(files)
      ensures count.Some? ==>
                db.docs == (map id | id in old(db.docs) && old(db.docs)[id].favorite == 1 :: old(db.docs)[id])
                && files == old(files) - (set id | id in NonFavourites(old(db.docs)) :: old(db.docs)[id].filename)
                && count.value == |NonFavourites(old(db.docs))|
    {
      files, count := Cleanup(db, files);
    }
  }
}
