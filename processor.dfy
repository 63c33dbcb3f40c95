/** One call of `DocumentProcessor.process_document` of the FastAPI
    generation: a sequence of guarded ledger writes per document. The OCR and
    LLM adapters are given as their outcome for this call. */
module Processor {
  import opened Wrappers
  import opened Text
  import opened Json
  import opened Ledger

  /** What the OCR adapter did: returned a text, or raised. */
  datatype OcrOutcome = OcrText(text: string) | OcrRaised

  /** What the LLM adapter did: returned a property dictionary, or raised. */
  datatype LlmOutcome = LlmProps(props: Props) | LlmRaised

  /** The key under which the LLM adapter names the model that answered. */
  const ModelTag := "_extracted_by_model"

  /** The `extracted_model` column written for the popped tag value. */
  function ModelColumn(v: Value): (r: Option<string>)
    ensures v.Str? ==> r == Some(v.s)
    ensures !v.Str? ==> r.None?
  {
    if v.Str? then Some(v.s) else None
  }

  /** `_get_display_filename`: the original name when it is non-empty, else the
      stored name, else "unknown". */
  function DisplayFilename(original: Option<string>, filename: Option<string>): (r: string)
    ensures original.Some? && original.value != "" ==> r == original.value
    ensures (original.None? || original.value == "") && filename.Some? ==> r == filename.value
    ensures (original.None? || original.value == "") && filename.None? ==> r == "unknown"
  {
    if original.Some? && original.value != "" then original.value
    else filename.GetOr("unknown")
  }

  /** The OCR stage runs: the entry snapshot shows OCR pending, or processing
      (which is first reset to pending). */
  predicate OcrRuns(r: DocRow) {
    r.ocrStatus == Pending || r.ocrStatus == Processing
  }

  /** The LLM stage is entered: the entry snapshot shows OCR done and LLM
      pending or failed (a processing LLM is first reset to pending). */
  predicate LlmGate(r: DocRow) {
    r.ocrStatus == Done && (r.llmStatus == Pending || r.llmStatus == Processing || r.llmStatus == Failed)
  }

  /** The LLM adapter is called: the gate is open and the stored text is not blank. */
  predicate LlmCalled(r: DocRow) {
    LlmGate(r) && !IsBlank(r.ocrText.GetOr(""))
  }

  /** An adapter raised during the call. */
  predicate Raised(r: DocRow, ocr: OcrOutcome, llm: LlmOutcome) {
    (OcrRuns(r) && ocr.OcrRaised?) || (LlmCalled(r) && llm.LlmRaised?)
  }

  /** The row after the stuck-state resets at the start of the call. */
  function Unstuck(r: DocRow): (u: DocRow)
    ensures u.ocrStatus != Processing && u.llmStatus != Processing
    ensures u.retryCount == r.retryCount && u.favorite == r.favorite && u.ocrText == r.ocrText
    ensures u.properties == r.properties
  {
    var o := if r.ocrStatus == Processing then r.(ocrStatus := Pending) else r;
    if o.llmStatus == Processing then o.(llmStatus := Pending, extractedModel := None) else o
  }

  /** The row a call leaves behind, given the row at entry and the adapters'
      outcomes. */
  function Processed(r: DocRow, ocr: OcrOutcome, llm: LlmOutcome): DocRow {
    var u := Unstuck(r);
    if OcrRuns(r) then
      match ocr
      case OcrRaised => u.(ocrStatus := Pending, retryCount := u.retryCount + 1)
      case OcrText(t) => if IsBlank(t) then u.(ocrStatus := Pending) else u.(ocrStatus := Done, ocrText := Some(t))
    else if !LlmGate(r) then u
    else if IsBlank(r.ocrText.GetOr("")) then u.(ocrStatus := Pending, llmStatus := Pending, extractedModel := None)
    else
      match llm
      case LlmRaised => u.(llmStatus := Pending, extractedModel := None, retryCount := u.retryCount + 1)
      case LlmProps(p) => u.(llmStatus := Done, properties := Some(p - {ModelTag}), extractedModel := ModelColumn(Get(p, ModelTag)))
  }

  /** No stage is left processing, and the call never writes "failed". */
  lemma ProcessedSettles(r: DocRow, ocr: OcrOutcome, llm: LlmOutcome)
    ensures var p := Processed(r, ocr, llm);
      p.ocrStatus != Processing && p.llmStatus != Processing
      && (p.ocrStatus == Failed ==> r.ocrStatus == Failed)
      && (p.llmStatus == Failed ==> r.llmStatus == Failed)
  {
  }

  /** The retry count grows by one exactly when an adapter raised, and the
      favourite flag, upload time, stored name and hash never change. */
  lemma ProcessedRetry(r: DocRow, ocr: OcrOutcome, llm: LlmOutcome)
    ensures var p := Processed(r, ocr, llm);
      p.retryCount == r.retryCount + (if Raised(r, ocr, llm) then 1 else 0)
      && p.favorite == r.favorite && p.uploadTime == r.uploadTime
      && p.filename == r.filename && p.fileHash == r.fileHash
  {
  }

  /** The OCR stage: non-blank text is stored with OCR done, blank text or a
      raise leaves OCR pending; the LLM columns see only the stuck-state reset,
      so OCR finishing in a call does not start the LLM in the same call. */
  lemma ProcessedOcrStage(r: DocRow, ocr: OcrOutcome, llm: LlmOutcome)
    requires OcrRuns(r)
    ensures var p := Processed(r, ocr, llm);
      (ocr.OcrText? && !IsBlank(ocr.text) ==> p.ocrStatus == Done && p.ocrText == Some(ocr.text))
      && (ocr.OcrText? && IsBlank(ocr.text) ==> p.ocrStatus == Pending && p.ocrText == r.ocrText)
      && (ocr.OcrRaised? ==> p.ocrStatus == Pending && p.ocrText == r.ocrText)
      && p.properties == r.properties
      && p.llmStatus == (if r.llmStatus == Processing then Pending else r.llmStatus)
  {
  }

  /** The LLM stage: blank stored text sends both stages back to pending
      without a call; a reply is stored without its model tag, the tag becomes
      `extracted_model` and the stage is done; a raise leaves it pending. */
  lemma ProcessedLlmStage(r: DocRow, ocr: OcrOutcome, llm: LlmOutcome)
    requires LlmGate(r)
    ensures var p := Processed(r, ocr, llm);
      (!LlmCalled(r) ==> p.ocrStatus == Pending && p.llmStatus == Pending && p.properties == r.properties)
      && (LlmCalled(r) && llm.LlmProps? ==>
            p.ocrStatus == Done && p.llmStatus == Done && p.properties == Some(llm.props - {ModelTag})
            && ModelTag !in p.properties.value
            && p.extractedModel == ModelColumn(Get(llm.props, ModelTag)))
      && (LlmCalled(r) && llm.LlmRaised? ==> p.ocrStatus == Done && p.llmStatus == Pending && p.properties == r.properties)
  {
  }

  /** Neither stage runs: only the stuck-state resets apply. */
  lemma ProcessedIdle(r: DocRow, ocr: OcrOutcome, llm: LlmOutcome)
    requires !OcrRuns(r) && !LlmGate(r)
    ensures Processed(r, ocr, llm) == Unstuck(r)
  {
  }

  /** As written, both stages `await` the plain value the synchronous
      adapters return, which raises `TypeError` once the call has been made:
      the step is then that of adapters that raise. No row reaches OCR
      "done" that was not there already, no row gains text or properties,
      and every call of an adapter counts one more retry. */
  lemma AwaitedAdaptersRaise(r: DocRow)
    ensures var p := Processed(r, OcrRaised, LlmRaised);
      (p.ocrStatus == Done ==> r.ocrStatus == Done) && (p.llmStatus == Done ==> r.llmStatus == Done)
      && p.ocrText == r.ocrText && p.properties == r.properties
      && p.retryCount == r.retryCount + (if OcrRuns(r) || LlmCalled(r) then 1 else 0)
  {
  }

  class DocumentProcessor {
    const db: Database

    constructor (db: Database)
      ensures this.db == db
    {
      this.db := db;
    }

    /** `process_document(doc_id)`: a missing document is left alone; when
        the entry read `get_document` raises, before the `try`, the error
        leaves the call (`raised`) and nothing is written; otherwise the row
        becomes `Processed` of its row at entry, and no other row changes.
        The later reads of the same row see the same properties, so they
        cannot raise where the first did not. */
    method ProcessDocument(id: int, ocr: OcrOutcome, llm: LlmOutcome) returns (raised: bool)
      requires db.Valid()
      modifies db`docs
      ensures db.Valid()
      ensures raised <==> id in old(db.docs) && StationsRaise(old(db.docs)[id])
      ensures id !in old(db.docs) || raised ==> db.docs == old(db.docs)
      ensures id in old(db.docs) && !raised ==> db.docs == old(db.docs)[id := Processed(old(db.docs)[id], ocr, llm)]
    {
      if id !in db.docs {
        return false;
      }
      if StationsRaise(db.docs[id]) {
        return true;
      }
      raised := false;
      var doc := db.docs[id];
      if OcrRuns(doc) {
        OcrPath(id, ocr, llm);
      } else if LlmGate(doc) {
        LlmPath(id, ocr, llm);
      } else {
        ResetStuck(id);
      }
    }

    /** `process_document` on a row whose OCR stage runs. */
    method OcrPath(id: int, ocr: OcrOutcome, llm: LlmOutcome)
      requires db.Valid() && id in db.docs && OcrRuns(db.docs[id])
      modifies db`docs
      ensures db.Valid()
      ensures db.docs == old(db.docs)[id := Processed(old(db.docs)[id], ocr, llm)]
    {
      ResetStuck(id);
      var raised := OcrStage(id, ocr);
      if raised {
        Recover(id);
      }
    }

    /** `process_document` on a row that passes the LLM gate. */
    method LlmPath(id: int, ocr: OcrOutcome, llm: LlmOutcome)
      requires db.Valid() && id in db.docs && LlmGate(db.docs[id])
      modifies db`docs
      ensures db.Valid()
      ensures db.docs == old(db.docs)[id := Processed(old(db.docs)[id], ocr, llm)]
    {
      ResetStuck(id);
      var raised := LlmStage(id, llm);
      if raised {
        Recover(id);
      }
    }

    /** The stuck-state resets at the start of `process_document`. */
    method ResetStuck(id: int)
      requires db.Valid() && id in db.docs
      modifies db`docs
      ensures db.Valid()
      ensures db.docs == old(db.docs)[id := Unstuck(old(db.docs)[id])]
    {
      if db.docs[id].ocrStatus == Processing {
        db.UpdateOcrStatus(id, Pending, None);
      }
      if db.docs[id].llmStatus == Processing {
        db.UpdateLlmStatus(id, Pending, None, None);
      }
    }

    /** The OCR stage on a pending row: processing while the adapter runs,
        then done with non-blank text, or pending again. */
    method OcrStage(id: int, ocr: OcrOutcome) returns (raised: bool)
      requires db.Valid() && id in db.docs && db.docs[id].ocrStatus == Pending
      modifies db`docs
      ensures db.Valid()
      ensures raised == ocr.OcrRaised?
      ensures ocr.OcrText? && !IsBlank(ocr.text) ==>
                db.docs == old(db.docs)[id := old(db.docs)[id].(ocrStatus := Done, ocrText := Some(ocr.text))]
      ensures ocr.OcrRaised? || IsBlank(ocr.text) ==> db.docs == old(db.docs)
    {
      db.UpdateOcrStatus(id, Processing, None);
      match ocr
      case OcrRaised =>
        db.UpdateOcrStatus(id, Pending, None);
        raised := true;
      case OcrText(t) =>
        raised := false;
        if IsBlank(t) {
          db.UpdateOcrStatus(id, Pending, None);
        } else {
          db.UpdateOcrStatus(id, Done, Some(t));
        }
    }

    /** The LLM stage on a row whose OCR is done: blank stored text resets both
        stages; otherwise the adapter's reply is stored, or the stage is left
        processing when it raised. */
    method LlmStage(id: int, llm: LlmOutcome) returns (raised: bool)
      requires db.Valid() && id in db.docs && db.docs[id].ocrStatus == Done
      modifies db`docs
      ensures db.Valid()
      ensures var text := old(db.docs)[id].ocrText.GetOr("");
        var row := old(db.docs)[id];
        raised == (!IsBlank(text) && llm.LlmRaised?)
        && db.docs == old(db.docs)[id :=
          if IsBlank(text) then row.(ocrStatus := Pending, llmStatus := Pending, extractedModel := None)
          else if llm.LlmRaised? then row.(llmStatus := Processing, extractedModel := None)
          else row.(llmStatus := Done, properties := Some(llm.props - {ModelTag}),
                    extractedModel := ModelColumn(Get(llm.props, ModelTag)))]
    {
      var current := db.docs[id];
      var text := current.ocrText.GetOr("");
      if IsBlank(text) {
        db.UpdateOcrStatus(id, Pending, None);
        db.UpdateLlmStatus(id, Pending, None, None);
        return false;
      }
      db.UpdateLlmStatus(id, Processing, None, None);
      match llm
      case LlmRaised =>
        raised := true;
      case LlmProps(p) =>
        raised := false;
        db.UpdateLlmStatus(id, Done, Some(p - {ModelTag}), ModelColumn(Get(p, ModelTag)));
    }

    /** The exception handler: one more retry, then the stage left processing
        (OCR first) goes back to pending. */
    method Recover(id: int)
      requires db.Valid() && id in db.docs
      modifies db`docs
      ensures db.Valid()
      ensures var row := old(db.docs)[id].(retryCount := old(db.docs)[id].retryCount + 1);
        db.docs == old(db.docs)[id :=
          if row.ocrStatus == Processing then row.(ocrStatus := Pending)
          else if row.llmStatus == Processing then row.(llmStatus := Pending, extractedModel := None)
          else row]
    {
      db.IncrementRetry(id);
      var current := db.docs[id];
      if current.ocrStatus == Processing {
        db.UpdateOcrStatus(id, Pending, None);
      } else if current.llmStatus == Processing {
        db.UpdateLlmStatus(id, Pending, None, None);
      }
    }
  }
}
