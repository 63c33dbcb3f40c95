/** The older `DocumentProcessor` (`processor.py`): `process_document` on one
    document, and one sweep of `process_queue` over the pending list. The
    adapters' behaviour is given as their outcome for each document. */
module LegacyProcessor {
  import opened Wrappers
  import opened Text
  import opened Json
  import opened Sorting
  import opened Ledger
  import opened Processor

  /** The LLM stage is entered: the entry snapshot shows OCR done and LLM
      pending or processing (a stale "processing" is simply run again). */
  predicate LegacyLlmGate(r: DocRow) {
    r.ocrStatus == Done && (r.llmStatus == Pending || r.llmStatus == Processing)
  }

  /** The row one call leaves behind, given the row at entry. */
  function LegacyProcessed(r: DocRow, ocr: OcrOutcome, llm: LlmOutcome): DocRow {
    if r.ocrStatus == Pending then
      match ocr
      case OcrRaised => r.(retryCount := r.retryCount + 1)
      case OcrText(t) => if IsBlank(t) then r else r.(ocrStatus := Done, ocrText := Some(t))
    else if !LegacyLlmGate(r) then r
    else if IsBlank(r.ocrText.GetOr("")) then r.(ocrStatus := Pending, llmStatus := Pending, extractedModel := None)
    else
      match llm
      case LlmRaised => r.(llmStatus := Pending, extractedModel := None, retryCount := r.retryCount + 1)
      case LlmProps(p) => r.(llmStatus := Done, properties := Some(p - {ModelTag}), extractedModel := ModelColumn(Get(p, ModelTag)))
  }

  /** An adapter raised during the call. */
  predicate LegacyRaised(r: DocRow, ocr: OcrOutcome, llm: LlmOutcome) {
    (r.ocrStatus == Pending && ocr.OcrRaised?)
    || (LegacyLlmGate(r) && !IsBlank(r.ocrText.GetOr("")) && llm.LlmRaised?)
  }

  /** The retry count grows by one exactly when an adapter raised; the call
      never writes "failed" or leaves a stage processing that was not. */
  lemma LegacyProcessedRetry(r: DocRow, ocr: OcrOutcome, llm: LlmOutcome)
    ensures var p := LegacyProcessed(r, ocr, llm);
      p.retryCount == r.retryCount + (if LegacyRaised(r, ocr, llm) then 1 else 0)
      && p.favorite == r.favorite && p.uploadTime == r.uploadTime && p.filename == r.filename
      && (p.ocrStatus == Processing ==> r.ocrStatus == Processing)
      && (p.llmStatus == Processing ==> r.llmStatus == Processing && r.ocrStatus != Done)
      && (p.ocrStatus == Failed ==> r.ocrStatus == Failed)
      && (p.llmStatus == Failed ==> r.llmStatus == Failed)
  {
  }

  /** OCR runs only on a snapshot showing pending: text is stored with OCR
      done, blank text or a raise leaves it pending, and the LLM columns stay
      as they were, so the LLM never starts in the same call. */
  lemma LegacyOcrStage(r: DocRow, ocr: OcrOutcome, llm: LlmOutcome)
    requires r.ocrStatus == Pending
    ensures var p := LegacyProcessed(r, ocr, llm);
      (ocr.OcrText? && !IsBlank(ocr.text) ==> p.ocrStatus == Done && p.ocrText == Some(ocr.text))
      && (ocr.OcrRaised? || IsBlank(ocr.text) ==> p.ocrStatus == Pending && p.ocrText == r.ocrText)
      && p.llmStatus == r.llmStatus && p.properties == r.properties && p.extractedModel == r.extractedModel
  {
  }

  /** The LLM stage: a stale "processing" LLM is run again; blank stored text
      sends both stages back to pending; a reply is stored without its tag. */
  lemma LegacyLlmStage(r: DocRow, ocr: OcrOutcome, llm: LlmOutcome)
    requires LegacyLlmGate(r)
    ensures var p := LegacyProcessed(r, ocr, llm);
      (IsBlank(r.ocrText.GetOr("")) ==> p.ocrStatus == Pending && p.llmStatus == Pending && p.properties == r.properties)
      && (!IsBlank(r.ocrText.GetOr("")) && llm.LlmProps? ==>
            p.llmStatus == Done && p.properties == Some(llm.props - {ModelTag})
            && ModelTag !in p.properties.value && p.extractedModel == ModelColumn(Get(llm.props, ModelTag)))
      && (!IsBlank(r.ocrText.GetOr("")) && llm.LlmRaised? ==> p.llmStatus == Pending && p.properties == r.properties)
  {
  }

  /** A stale OCR "processing" is never picked up again: the call leaves the
      row exactly as it was, while the newer processor always clears it. */
  lemma LegacyStaleOcrStuck(r: DocRow, ocr: OcrOutcome, llm: LlmOutcome)
    requires r.ocrStatus == Processing
    ensures LegacyProcessed(r, ocr, llm) == r
    ensures Processed(r, ocr, llm).ocrStatus != Processing
  {
    ProcessedSettles(r, ocr, llm);
  }

  /** On a row with no stage processing and LLM not failed, both generations
      of `process_document` leave the same row behind; a failed LLM is retried
      only by the newer one. */
  lemma {:induction false} LegacyAgreesWithProcessor(r: DocRow, ocr: OcrOutcome, llm: LlmOutcome)
    requires r.ocrStatus != Processing && r.llmStatus != Processing
    ensures r.llmStatus != Failed ==> LegacyProcessed(r, ocr, llm) == Processed(r, ocr, llm)
    ensures r.ocrStatus == Done && r.llmStatus == Failed ==> LegacyProcessed(r, ocr, llm) == r
  {
    assert Unstuck(r) == r;
  }

  class LegacyDocumentProcessor {
    const db: Database

    constructor (db: Database)
      ensures this.db == db
    {
      this.db := db;
    }

    /** `process_document(doc_id)`: a missing document is left alone; when
        the entry read `get_document` raises, before the `try`, the error
        leaves the call (`raised`) and nothing is written; otherwise its row
        becomes `LegacyProcessed` of its row at entry. The later reads see
        the same properties, so they cannot raise where the first did not. */
    method ProcessDocument(id: int, ocr: OcrOutcome, llm: LlmOutcome) returns (raised: bool)
      requires db.Valid()
      modifies db`docs
      ensures db.Valid()
      ensures raised <==> id in old(db.docs) && StationsRaise(old(db.docs)[id])
      ensures id !in old(db.docs) || raised ==> db.docs == old(db.docs)
      ensures id in old(db.docs) && !raised ==> db.docs == old(db.docs)[id := LegacyProcessed(old(db.docs)[id], ocr, llm)]
    {
      if id !in db.docs {
        return false;
      }
      if StationsRaise(db.docs[id]) {
        return true;
      }
      raised := false;
      var doc := db.docs[id];
      if doc.ocrStatus == Pending {
        OcrStep(id, ocr);
      } else if LegacyLlmGate(doc) {
        LlmStep(id, llm);
      }
    }

    /** The OCR branch on a pending row, with the exception handler. */
    method OcrStep(id: int, ocr: OcrOutcome)
      requires db.Valid() && id in db.docs && db.docs[id].ocrStatus == Pending
      modifies db`docs
      ensures db.Valid()
      ensures db.docs == old(db.docs)[id := LegacyProcessed(old(db.docs)[id], ocr, LlmRaised)]
    {
      db.UpdateOcrStatus(id, Processing, None);
      match ocr
      case OcrRaised =>
        Recover(id);
      case OcrText(t) =>
        if IsBlank(t) {
          db.UpdateOcrStatus(id, Pending, None);
        } else {
          db.UpdateOcrStatus(id, Done, Some(t));
        }
    }

    /** The LLM branch on a row that passes the gate, with the exception handler. */
    method LlmStep(id: int, llm: LlmOutcome)
      requires db.Valid() && id in db.docs && LegacyLlmGate(db.docs[id])
      modifies db`docs
      ensures db.Valid()
      ensures db.docs == old(db.docs)[id := LegacyProcessed(old(db.docs)[id], OcrRaised, llm)]
    {
      var text := db.docs[id].ocrText.GetOr("");
      if IsBlank(text) {
        db.UpdateOcrStatus(id, Pending, None);
        db.UpdateLlmStatus(id, Pending, None, None);
        return;
      }
      db.UpdateLlmStatus(id, Processing, None, None);
      match llm
      case LlmRaised =>
        Recover(id);
      case LlmProps(p) =>
        db.UpdateLlmStatus(id, Done, Some(p - {ModelTag}), ModelColumn(Get(p, ModelTag)));
    }

    /** The exception handler: one more retry, then the stage left processing
        (OCR first) goes back to pending. */
    method Recover(id: int)
      requires db.Valid() && id in db.docs
      modifies db`docs
      ensures db.Valid()
      ensures var row := old(db.docs)[id].(retryCount := old(db.docs)[id].retryCount + 1);
        db.docs == old(db.docs)[id :=
          if row.ocrStatus == Processing then row.(ocrStatus := Pending)
          else if row.llmStatus == Processing then row.(llmStatus := Pending, extractedModel := None)
          else row]
    {
      db.IncrementRetry(id);
      var current := db.docs[id];
      if current.ocrStatus == Processing {
        db.UpdateOcrStatus(id, Pending, None);
      } else if current.llmStatus == Processing {
        db.UpdateLlmStatus(id, Pending, None, None);
      }
    }

    /** One pass of the `process_queue` loop: the pending list is read once
        and each listed document is processed in turn with its own adapter
        outcomes; an error from a call is caught and the loop goes on. Every
        listed row whose read does not raise becomes `LegacyProcessed` of its
        row before the pass, and every other row is unchanged. */
    method Sweep(ocr: int -> OcrOutcome, llm: int -> LlmOutcome) returns (order: seq<int>)
      requires db.Valid()
      modifies db`docs
      ensures db.Valid()
      ensures order == PendingDocuments(old(db.docs), db.nextDocId)
      ensures db.docs.Keys == old(db.docs).Keys
      ensures forall id :: id in db.docs ==>
                db.docs[id] == if id in order && !StationsRaise(old(db.docs)[id])
                               then LegacyProcessed(old(db.docs)[id], ocr(id), llm(id)) else old(db.docs)[id]
    {
      order := PendingDocuments(db.docs, db.nextDocId);
      ProcessEach(order, ocr, llm);
      SweptShape(old(db.docs), order, ocr, llm);
    }

    /** The `for doc in pending_docs` loop: each listed id is processed once, in order. */
    method ProcessEach(order: seq<int>, ocr: int -> OcrOutcome, llm: int -> LlmOutcome)
      requires db.Valid() && Distinct(order)
      modifies db`docs
      ensures db.Valid()
      ensures db.docs == Swept(old(db.docs), order, ocr, llm)
    {
      var i := 0;
      while i < |order|
        invariant 0 <= i <= |order|
        invariant db.Valid()
        invariant db.docs == Swept(old(db.docs), order[..i], ocr, llm)
      {
        var id := order[i];
        assert id !in order[..i] by {
          forall k | 0 <= k < i ensures order[..i][k] != id {
            assert order[..i][k] == order[k];
          }
        }
        SweptStep(old(db.docs), order[..i], id, ocr, llm);
        var raised := ProcessDocument(id, ocr(id), llm(id));
        assert order[..i + 1] == order[..i] + [id];
        i := i + 1;
      }
      assert order[..i] == order;
    }
  }

  /** The row one call of `process_document` leaves: as it was when the
      entry read raises, `LegacyProcessed` of it otherwise. */
  function LegacyCall(r: DocRow, ocr: OcrOutcome, llm: LlmOutcome): DocRow {
    if StationsRaise(r) then r else LegacyProcessed(r, ocr, llm)
  }

  /** The table after processing each listed id once from its row in `docs`. */
  ghost function Swept(docs: map<int, DocRow>, ids: seq<int>, ocr: int -> OcrOutcome, llm: int -> LlmOutcome): map<int, DocRow> {
    map id | id in docs :: if id in ids then LegacyCall(docs[id], ocr(id), llm(id)) else docs[id]
  }

  /** Listed rows are processed, the rest kept, and no row appears or disappears. */
  lemma SweptShape(docs: map<int, DocRow>, ids: seq<int>, ocr: int -> OcrOutcome, llm: int -> LlmOutcome)
    ensures Swept(docs, ids, ocr, llm).Keys == docs.Keys
    ensures forall id :: id in docs ==>
              Swept(docs, ids, ocr, llm)[id] == if id in ids && !StationsRaise(docs[id])
                                                 then LegacyProcessed(docs[id], ocr(id), llm(id)) else docs[id]
  {
  }

  /** Processing one more id not yet listed updates exactly its row. */
  lemma SweptStep(docs: map<int, DocRow>, ids: seq<int>, id: int, ocr: int -> OcrOutcome, llm: int -> LlmOutcome)
    requires id !in ids
    ensures id in docs ==> Swept(docs, ids + [id], ocr, llm) == Swept(docs, ids, ocr, llm)[id := LegacyCall(docs[id], ocr(id), llm(id))]
    ensures id in docs ==> Swept(docs, ids, ocr, llm)[id] == docs[id]
    ensures id !in docs ==> Swept(docs, ids + [id], ocr, llm) == Swept(docs, ids, ocr, llm)
  {
    assert forall x :: x in ids + [id] <==> x in ids || x == id;
  }
}
