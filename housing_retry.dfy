/** The OCR retry manager of the thread-based generation
    (`src/housing_ocr/retry_manager.py`): which documents it picks up for
    another OCR attempt, and what one attempt does to the row. It keeps its
    own set of documents in hand, apart from the queue manager's. */
module HousingRetry {
  import opened Wrappers
  import opened Json
  import opened Sorting
  import opened OcrFailure
  import opened HousingDb
  import opened HousingOcr

  /** `get_failed_documents` picks a row whose count is below the limit,
      that is not in hand, and whose stored text (`extracted_text or ""`)
      counts as failed by the manager's failure test. */
  predicate RetryCandidate(test: FailureTest, d: HDoc, id: int, current: set<int>, maxRetries: int) {
    d.ocrRetryCount < maxRetries && id !in current && Fails(test, d.extractedText.GetOr(""))
  }

  /** The row after a retry whose OCR call returned `text`, given what the
      extraction returned for it. A recognised text whose extraction holds a
      value the driver cannot bind fails the commit, which is rolled back. */
  function AfterRetry(test: FailureTest, d: HDoc, text: string, info: Props): HDoc {
    if Fails(test, text) then d.(ocrRetryCount := d.ocrRetryCount + 1, extractedText := Some(text))
    else if ColumnsBindable(info) then
      d.(ocrRetryCount := 0, extractedText := Some(text), status := Processed, props := CopiedColumns(info))
    else d
  }

  /** A retry commits: the text is a failure, or its extraction can be bound. */
  predicate RetryCommits(test: FailureTest, text: string, info: Props) {
    Fails(test, text) || ColumnsBindable(info)
  }

  /** A failed retry counts one more failure and keeps the failure text; a
      successful one resets the count, keeps the text, marks the row
      processed and sets every property column from the extraction; one
      whose commit fails leaves the row as it was. None touches the OCR or
      LLM stage states. */
  lemma RetryResult(test: FailureTest, d: HDoc, text: string, info: Props)
    ensures var e := AfterRetry(test, d, text, info);
            e.ocrStatus == d.ocrStatus && e.llmStatus == d.llmStatus
            && (RetryCommits(test, text, info) ==> e.extractedText == Some(text))
            && (Fails(test, text) ==> e.ocrRetryCount == d.ocrRetryCount + 1 && e.status == d.status && e.props == d.props)
            && (!Fails(test, text) && ColumnsBindable(info) ==>
                  e.ocrRetryCount == 0 && e.status == Processed
                  && forall f :: f in PropertyColumns ==> f in e.props && e.props[f] == Get(info, f) && Bindable(e.props[f]))
            && (!RetryCommits(test, text, info) ==> e == d)
  {
  }

  /** Once its count reaches the limit a row is not picked again, and a
      further failed attempt keeps it there. */
  lemma ExhaustedStaysOut(test: FailureTest, d: HDoc, id: int, current: set<int>, maxRetries: int, text: string, info: Props)
    requires d.ocrRetryCount >= maxRetries
    ensures !RetryCandidate(test, d, id, current, maxRetries)
    ensures Fails(test, text) ==> !RetryCandidate(test, AfterRetry(test, d, text, info), id, current, maxRetries)
  {
  }

  /** A failed attempt stores failure text, so a row below the limit after it
      is picked again; a successful attempt stores text that is not a
      failure, so the row is not picked; a rolled-back attempt leaves the
      row to be picked exactly as before. */
  lemma RetryThenPick(test: FailureTest, d: HDoc, id: int, current: set<int>, maxRetries: int, text: string, info: Props)
    requires id !in current
    ensures var e := AfterRetry(test, d, text, info);
            RetryCandidate(test, e, id, current, maxRetries)
            <==> (Fails(test, text) && d.ocrRetryCount + 1 < maxRetries)
                 || (!RetryCommits(test, text, info) && RetryCandidate(test, d, id, current, maxRetries))
  {
  }

  /** A row fresh from an upload, with no text yet, is picked too: the empty
      text counts as a failure under either test. */
  lemma FreshRowPicked(test: FailureTest, original: string, hashed: string, path: string, fileType: string,
                       size: nat, hash: string, model: Option<string>, id: int, current: set<int>)
    requires id !in current
    ensures RetryCandidate(test, NewDocument(original, hashed, path, fileType, size, hash, model), id, current, 3)
  {
    FailsOrdered(test, "");
  }

  /** A row whose stored text is a request-error reply lacking the
      lower-case keywords is never picked as written, and is picked with
      the corrected test while it has tries left. */
  lemma RequestErrorRowPicked(d: HDoc, detail: string, id: int, current: set<int>, maxRetries: int)
    requires d.extractedText == Some(ErrorMarker + detail)
    requires NoPlainKeyword(ErrorMarker + detail)
    ensures !RetryCandidate(AsWritten, d, id, current, maxRetries)
    ensures RetryCandidate(Corrected, d, id, current, maxRetries) <==> d.ocrRetryCount < maxRetries && id !in current
  {
    ErrorReplySplitsTests(detail);
  }

  /** The candidates among the listed rows, in list order. */
  function Picked(test: FailureTest, docs: map<int, HDoc>, rows: seq<int>, current: set<int>, maxRetries: int): seq<int>
    requires forall i :: 0 <= i < |rows| ==> rows[i] in docs
  {
    if rows == [] then []
    else
      var id := rows[|rows| - 1];
      Picked(test, docs, rows[..|rows| - 1], current, maxRetries)
        + (if RetryCandidate(test, docs[id], id, current, maxRetries) then [id] else [])
  }

  /** Over increasing rows, the picked ones are exactly the candidates among
      them, still increasing. */
  lemma {:induction false} PickedExact(test: FailureTest, docs: map<int, HDoc>, rows: seq<int>, current: set<int>, maxRetries: int)
    requires forall i :: 0 <= i < |rows| ==> rows[i] in docs
    requires forall a, b :: 0 <= a < b < |rows| ==> rows[a] < rows[b]
    ensures var r := Picked(test, docs, rows, current, maxRetries);
            (forall id :: id in r <==> id in rows && RetryCandidate(test, docs[id], id, current, maxRetries))
            && (forall a, b :: 0 <= a < b < |r| ==> r[a] < r[b])
  {
    if rows != [] {
      var init, id := rows[..|rows| - 1], rows[|rows| - 1];
      PickedExact(test, docs, init, current, maxRetries);
      var r0 := Picked(test, docs, init, current, maxRetries);
      assert forall x :: x in rows <==> x in init || x == id;
      assert forall k :: 0 <= k < |r0| ==> r0[k] in init;
      assert forall x :: x in init ==> x < id;
    }
  }

  /** The loop of `get_failed_documents` over the rows of its query. */
  method Select(test: FailureTest, docs: map<int, HDoc>, rows: seq<int>, current: set<int>, maxRetries: int) returns (ids: seq<int>)
    requires forall i :: 0 <= i < |rows| ==> rows[i] in docs
    ensures ids == Picked(test, docs, rows, current, maxRetries)
  {
    ids := [];
    var i := 0;
    while i < |rows|
      invariant 0 <= i <= |rows|
      invariant ids == Picked(test, docs, rows[..i], current, maxRetries)
    {
      var id := rows[i];
      assert rows[..i + 1][..i] == rows[..i];
      if RetryCandidate(test, docs[id], id, current, maxRetries) {
        ids := ids + [id];
      }
      i := i + 1;
    }
    assert rows[..i] == rows;
  }

  class OcrRetryManager {
    const table: DocumentTable
    /** `max_retries` */
    const maxRetries: int
    /** The failure test the manager applies: the source's `is_ocr_failed`
        is `AsWritten`. */
    const failureTest: FailureTest
    /** `current_processing` */
    var currentProcessing: set<int>

    constructor (table: DocumentTable, maxRetries: int, failureTest: FailureTest)
      ensures this.table == table && this.maxRetries == maxRetries && this.failureTest == failureTest
      ensures currentProcessing == {}
    {
      this.table := table;
      this.maxRetries := maxRetries;
      this.failureTest := failureTest;
      currentProcessing := {};
    }

    /** `get_failed_documents`: the candidates, in id order. */
    method GetFailedDocuments() returns (ids: seq<int>)
      requires table.Valid()
      ensures forall id :: id in ids <==> id in table.docs && RetryCandidate(failureTest, table.docs[id], id, currentProcessing, maxRetries)
      ensures forall a, b :: 0 <= a < b < |ids| ==> ids[a] < ids[b]
    {
      var rows := Ascending(table.docs.Keys, 1, table.nextId);
      ids := Select(failureTest, table.docs, rows, currentProcessing, maxRetries);
      PickedExact(failureTest, table.docs, rows, currentProcessing, maxRetries);
    }

    /** `process_document_retry(doc_id)`, where `outcome` is what
        `process_document` does for the row's file and `info` what the
        extraction returns for the new text. A missing row or one in hand is
        refused, an exception rolls back; the row leaves
        `current_processing` on every exit. */
    method ProcessDocumentRetry(id: int, outcome: Outcome, info: Props) returns (success: bool)
      requires table.Valid()
      modifies this`currentProcessing, table`docs
      ensures table.Valid()
      ensures currentProcessing == old(currentProcessing) - {id}
      ensures success <==> id in old(table.docs) && id !in old(currentProcessing)
                           && outcome.Returned? && !Fails(failureTest, outcome.text) && ColumnsBindable(info)
      ensures id !in old(table.docs) || id in old(currentProcessing) || outcome.Raised? ==>
                table.docs == old(table.docs)
      ensures id in old(table.docs) && id !in old(currentProcessing) && outcome.Returned? ==>
                table.docs == old(table.docs)[id := AfterRetry(failureTest, old(table.docs)[id], outcome.text, info)]
    {
      if id !in table.docs || id in currentProcessing {
        currentProcessing := currentProcessing - {id};
        return false;
      }
      currentProcessing := currentProcessing + {id};
      var d := table.docs[id];
      match outcome {
        case Raised(_) =>
          success := false;
        case Returned(text) =>
          if Fails(failureTest, text) {
            table.Put(id, d.(ocrRetryCount := d.ocrRetryCount + 1, extractedText := Some(text)));
            success := false;
          } else if ColumnsBindable(info) {
            table.Put(id, d.(ocrRetryCount := 0, extractedText := Some(text), status := Processed,
                             props := CopiedColumns(info)));
            success := true;
          } else {
            success := false;
          }
      }
      currentProcessing := currentProcessing - {id};
    }
  }
}
