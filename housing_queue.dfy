/** The background queues of the thread-based generation
    (`src/housing_ocr/queue_manager.py`): an OCR queue and an LLM queue of
    prioritised tasks, the set of documents being processed, and the
    handling of one OCR or LLM task. The worker threads are left out: each
    handler is given the task a worker took and the result of the call it
    makes. */
module HousingQueue {
  import opened Wrappers
  import opened Text
  import opened Json
  import opened Sorting
  import opened OcrFailure
  import opened HousingDb
  import opened HousingOcr

  /** A queued task: the document, its priority, and whether a user asked for it. */
  datatype Task = Task(docId: int, priority: int, manual: bool)

  /** `Task.__lt__`: a manual task comes before any other, and otherwise
      the smaller priority comes first. */
  predicate TaskLess(a: Task, b: Task) {
    if a.manual != b.manual then a.manual else a.priority < b.priority
  }

  /** The order key of a task: manual ones rank 0, the others 1. */
  function Rank(t: Task): (r: int)
    ensures r == 0 <==> t.manual
  {
    if t.manual then 0 else 1
  }

  /** `__lt__` is the lexicographic order on (rank, priority). */
  lemma TaskLessIsKeyOrder(a: Task, b: Task)
    ensures TaskLess(a, b) <==> Rank(a) < Rank(b) || (Rank(a) == Rank(b) && a.priority < b.priority)
  {
  }

  /** `__lt__` is a strict order whose incomparable tasks are those with the
      same key. */
  lemma TaskLessStrictOrder(a: Task, b: Task, c: Task)
    ensures !TaskLess(a, a)
    ensures TaskLess(a, b) ==> !TaskLess(b, a)
    ensures TaskLess(a, b) && TaskLess(b, c) ==> TaskLess(a, c)
    ensures !TaskLess(a, b) && !TaskLess(b, a) <==> a.manual == b.manual && a.priority == b.priority
  {
  }

  /** `t` may be what the priority queue hands out next: no queued task is
      smaller. */
  predicate IsNext(q: multiset<Task>, t: Task) {
    t in q && forall u :: u in q ==> !TaskLess(u, t)
  }

  /** While a manual task is queued, no other kind is handed out, whatever
      its priority. */
  lemma ManualFirst(q: multiset<Task>, t: Task, m: Task)
    requires IsNext(q, t) && m in q && m.manual
    ensures t.manual && t.priority <= m.priority
  {
    assert !TaskLess(m, t);
  }

  /** `text[:n]` */
  function Truncated(text: string, n: nat): (r: string)
    ensures |r| <= n && |r| <= |text| && r == text[..|r|]
    ensures |text| <= n ==> r == text
  {
    if |text| <= n then text else text[..n]
  }

  /** Failures before an OCR document is given up on. */
  const OcrMaxRetries: int := 3

  /** The document after `process_ocr_task` handled it, given what
      `process_document` did and the failure test the manager applies. */
  function AfterOcr(test: FailureTest, d: HDoc, outcome: Outcome): HDoc {
    match outcome
    case Raised(e) => d.(ocrStatus := OcrFailed, ocrError := Some(e))
    case Returned(text) =>
      if Fails(test, text) then
        var n := d.ocrRetryCount + 1;
        d.(ocrStatus := if n < OcrMaxRetries then OcrPending else OcrFailed,
           ocrError := Some(Truncated(text, 500)), ocrRetryCount := n)
      else
        d.(ocrStatus := OcrCompleted, ocrError := None, ocrRetryCount := 0,
           extractedText := Some(text), status := Processed)
  }

  /** The OCR task re-queued after a failure with tries left. */
  function OcrRequeue(test: FailureTest, d: HDoc, outcome: Outcome, id: int): multiset<Task> {
    if outcome.Returned? && Fails(test, outcome.text) && d.ocrRetryCount + 1 < OcrMaxRetries
    then multiset{Task(id, 3, false)} else multiset{}
  }

  /** The LLM task queued after a recognised text. */
  function LlmFollowUp(test: FailureTest, outcome: Outcome, id: int): multiset<Task> {
    if outcome.Returned? && !Fails(test, outcome.text) then multiset{Task(id, 5, false)} else multiset{}
  }

  /** `process_ocr_task` returns at once for a missing document, one being
      processed, or one whose OCR is complete. */
  predicate OcrSkips(docs: map<int, HDoc>, current: set<int>, id: int) {
    id !in docs || id in current || docs[id].ocrStatus == OcrCompleted
  }

  /** A recognised text completes the OCR stage: the text is stored, the
      error cleared, the retry count reset, the row marked processed, and
      exactly one LLM task at priority 5 is queued and no OCR task. */
  lemma OcrSuccess(test: FailureTest, d: HDoc, text: string, id: int)
    requires !Fails(test, text)
    ensures var e := AfterOcr(test, d, Returned(text));
            e.ocrStatus == OcrCompleted && e.ocrError.None? && e.ocrRetryCount == 0
            && e.extractedText == Some(text) && e.status == Processed
            && e.llmStatus == d.llmStatus && e.props == d.props
    ensures OcrRequeue(test, d, Returned(text), id) == multiset{}
    ensures LlmFollowUp(test, Returned(text), id) == multiset{Task(id, 5, false)}
  {
  }

  /** A failed text counts one more failure and keeps its first 500
      characters as the error; with tries left the document is pending
      again and one priority-3 OCR task is re-queued, otherwise it stays
      failed and nothing is queued. */
  lemma OcrFailedText(test: FailureTest, d: HDoc, text: string, id: int)
    requires Fails(test, text)
    ensures var e := AfterOcr(test, d, Returned(text));
            e.ocrRetryCount == d.ocrRetryCount + 1
            && e.ocrError.Some? && |e.ocrError.value| <= 500 && StartsWith(text, e.ocrError.value)
            && e.extractedText == d.extractedText && e.status == d.status
            && (e.ocrRetryCount < OcrMaxRetries ==>
                  e.ocrStatus == OcrPending && OcrRequeue(test, d, Returned(text), id) == multiset{Task(id, 3, false)})
            && (e.ocrRetryCount >= OcrMaxRetries ==>
                  e.ocrStatus == OcrFailed && OcrRequeue(test, d, Returned(text), id) == multiset{})
    ensures LlmFollowUp(test, Returned(text), id) == multiset{}
  {
  }

  /** The documents and the number of OCR tasks re-queued after a run of
      failed texts, each handled in turn. */
  function FailureRun(test: FailureTest, d: HDoc, texts: seq<string>, id: int): (HDoc, nat) {
    if texts == [] then (d, 0)
    else
      var (before, n) := FailureRun(test, d, texts[..|texts| - 1], id);
      var last := Returned(texts[|texts| - 1]);
      (AfterOcr(test, before, last), n + |OcrRequeue(test, before, last, id)|)
  }

  /** However many failures in a row a document meets, it is re-queued at
      most `3 - 1 - retries` times: a fresh document gets at most two
      retries. */
  lemma {:induction false} FailureRunBounded(test: FailureTest, d: HDoc, texts: seq<string>, id: int)
    requires d.ocrRetryCount >= 0
    requires forall i :: 0 <= i < |texts| ==> Fails(test, texts[i])
    ensures FailureRun(test, d, texts, id).0.ocrRetryCount == d.ocrRetryCount + |texts|
    ensures FailureRun(test, d, texts, id).1 <= if d.ocrRetryCount >= OcrMaxRetries - 1 then 0 else OcrMaxRetries - 1 - d.ocrRetryCount
    ensures FailureRun(test, d, texts, id).1 <= |texts|
  {
    if texts != [] {
      var init := texts[..|texts| - 1];
      assert forall i :: 0 <= i < |init| ==> init[i] == texts[i];
      FailureRunBounded(test, d, init, id);
      var (before, n) := FailureRun(test, d, init, id);
      OcrFailedText(test, before, texts[|texts| - 1], id);
    }
  }

  /** An exception from `process_document` marks the OCR stage failed with
      its message and changes no count and queues nothing. */
  lemma OcrRaised(test: FailureTest, d: HDoc, e: string, id: int)
    ensures AfterOcr(test, d, Raised(e)) == d.(ocrStatus := OcrFailed, ocrError := Some(e))
    ensures OcrRequeue(test, d, Raised(e), id) == multiset{} && LlmFollowUp(test, Raised(e), id) == multiset{}
  {
  }

  /** The OCR client's reply for a request error whose message lacks the
      lower-case keywords, such as an HTTP 500 answer: as written,
      `process_ocr_task` takes it for recognised text, completes the OCR
      stage with it as the document's text and queues an LLM task; with the
      corrected test it counts a failure and, with tries left, re-queues
      the document instead. */
  lemma RequestErrorReply(d: HDoc, detail: string, id: int)
    requires NoPlainKeyword(ErrorMarker + detail)
    ensures var text := ErrorMarker + detail;
            var w := AfterOcr(AsWritten, d, Returned(text));
            w.ocrStatus == OcrCompleted && w.extractedText == Some(text) && w.status == Processed
            && LlmFollowUp(AsWritten, Returned(text), id) == multiset{Task(id, 5, false)}
    ensures var text := ErrorMarker + detail;
            var c := AfterOcr(Corrected, d, Returned(text));
            c.ocrRetryCount == d.ocrRetryCount + 1 && c.extractedText == d.extractedText
            && LlmFollowUp(Corrected, Returned(text), id) == multiset{}
  {
    ErrorReplySplitsTests(detail);
  }

  const LlmFailureMsg: string := "LLM提取失败或无API Key"

  /** `process_llm_task` returns at once for a missing document, one being
      processed, a manual edit, an OCR stage not complete, or a completed
      extraction that the task does not ask to redo. */
  predicate LlmSkips(docs: map<int, HDoc>, current: set<int>, task: Task) {
    task.docId !in docs || task.docId in current
    || docs[task.docId].llmStatus == ManualEdit
    || docs[task.docId].ocrStatus != OcrCompleted
    || (docs[task.docId].llmStatus == LlmCompleted && !task.manual)
  }

  /** The document after `process_llm_task` handled it, given what
      `extract_property_info` returned. A result holding a value the driver
      cannot bind makes the commit raise: the session is rolled back and the
      stage is marked failed with the error's text, `err`. */
  function AfterLlm(d: HDoc, info: Props, err: string): HDoc {
    if info == map[] then d.(llmStatus := LlmFailed, llmError := Some(LlmFailureMsg))
    else if ColumnsBindable(info) then d.(llmStatus := LlmCompleted, llmError := None, props := CopiedColumns(info))
    else d.(llmStatus := LlmFailed, llmError := Some(err))
  }

  /** A non-empty result whose columns can be bound completes the LLM stage
      and sets every property column from it; an empty one fails it with the
      fixed message, and one whose commit raises fails it with the error's
      text; both keep the columns. None touches the OCR stage. */
  lemma LlmResult(d: HDoc, info: Props, err: string)
    ensures var e := AfterLlm(d, info, err);
            e.ocrStatus == d.ocrStatus && e.extractedText == d.extractedText
            && e.ocrRetryCount == d.ocrRetryCount && e.status == d.status
            && (e.llmStatus == LlmCompleted <==> info != map[] && ColumnsBindable(info))
            && (e.llmStatus == LlmCompleted ==>
                  e.llmError.None?
                  && forall f :: f in PropertyColumns ==> f in e.props && e.props[f] == Get(info, f) && Bindable(e.props[f]))
            && (info == map[] ==> e.llmStatus == LlmFailed && e.llmError == Some(LlmFailureMsg) && e.props == d.props)
            && (info != map[] && !ColumnsBindable(info) ==>
                  e.llmStatus == LlmFailed && e.llmError == Some(err) && e.props == d.props)
  {
  }

  /** A list value, such as a "shopping_nearby" list of shop names, in a
      property column makes the commit fail: the stage ends failed with the
      commit's error and no column is written. */
  lemma ListValueFailsCommit(d: HDoc, info: Props, err: string, f: string, items: seq<Value>)
    requires f in PropertyColumns && f in info && info[f] == List(items)
    ensures AfterLlm(d, info, err) == d.(llmStatus := LlmFailed, llmError := Some(err))
  {
    assert !Bindable(Get(info, f));
  }

  /** Which queue a document is waiting for. */
  datatype Stage = OcrStage | LlmStage

  /** A document `load_pending_tasks` queues for the stage: OCR pending, or
      LLM pending after a completed OCR. */
  predicate Waiting(d: HDoc, s: Stage) {
    match s
    case OcrStage => d.ocrStatus == OcrPending
    case LlmStage => d.llmStatus == LlmPending && d.ocrStatus == OcrCompleted
  }

  function StagePriority(d: HDoc, s: Stage): int {
    match s
    case OcrStage => d.ocrPriority
    case LlmStage => d.llmPriority
  }

  /** The tasks queued for the listed documents waiting for the stage, in order. */
  function LoadTasks(docs: map<int, HDoc>, ids: seq<int>, s: Stage): seq<Task>
    requires forall i :: 0 <= i < |ids| ==> ids[i] in docs
  {
    if ids == [] then []
    else
      var id := ids[|ids| - 1];
      LoadTasks(docs, ids[..|ids| - 1], s)
        + (if Waiting(docs[id], s) then [Task(id, StagePriority(docs[id], s), false)] else [])
  }

  /** The task a waiting document gets. */
  function Loaded(docs: map<int, HDoc>, id: int, s: Stage): Task
    requires id in docs
  {
    Task(id, StagePriority(docs[id], s), false)
  }

  /** Over ids without repeats, each waiting document gets exactly one task,
      non-manual and at its stored priority, and no other task is queued. */
  lemma {:induction false} LoadTasksExact(docs: map<int, HDoc>, ids: seq<int>, s: Stage, t: Task)
    requires forall i :: 0 <= i < |ids| ==> ids[i] in docs
    requires Distinct(ids)
    ensures multiset(LoadTasks(docs, ids, s))[t] ==
              if t.docId in ids && Waiting(docs[t.docId], s) && t == Loaded(docs, t.docId, s) then 1 else 0
  {
    if ids != [] {
      var init, id := ids[..|ids| - 1], ids[|ids| - 1];
      assert forall i :: 0 <= i < |init| ==> init[i] == ids[i];
      assert forall x :: x in ids <==> x in init || x == id;
      LoadTasksExact(docs, init, s, t);
      assert id !in init;
    }
  }

  class QueueManager {
    const table: DocumentTable
    /** The failure test `process_ocr_task` applies: the source's
        `is_ocr_failed` is `AsWritten`. */
    const failureTest: FailureTest
    var ocrQueue: multiset<Task>
    var llmQueue: multiset<Task>
    /** `current_processing`: the documents a worker is handling. */
    var currentProcessing: set<int>

    constructor (table: DocumentTable, failureTest: FailureTest)
      ensures this.table == table && this.failureTest == failureTest
      ensures ocrQueue == multiset{} && llmQueue == multiset{} && currentProcessing == {}
    {
      this.table := table;
      this.failureTest := failureTest;
      ocrQueue := multiset{};
      llmQueue := multiset{};
      currentProcessing := {};
    }

    /** `add_ocr_task` */
    method AddOcrTask(docId: int, priority: int, manual: bool)
      modifies this`ocrQueue
      ensures ocrQueue == old(ocrQueue) + multiset{Task(docId, priority, manual)}
    {
      ocrQueue := ocrQueue + multiset{Task(docId, priority, manual)};
    }

    /** `add_llm_task` */
    method AddLlmTask(docId: int, priority: int, manual: bool)
      modifies this`llmQueue
      ensures llmQueue == old(llmQueue) + multiset{Task(docId, priority, manual)}
    {
      llmQueue := llmQueue + multiset{Task(docId, priority, manual)};
    }

    /** `process_ocr_task(task)`, where `outcome` is what `process_document`
        does for the document's file. The document leaves
        `current_processing` on every exit, the early ones included. */
    method ProcessOcrTask(task: Task, outcome: Outcome)
      requires table.Valid()
      modifies this`ocrQueue, this`llmQueue, this`currentProcessing, table`docs
      ensures table.Valid()
      ensures currentProcessing == old(currentProcessing) - {task.docId}
      ensures OcrSkips(old(table.docs), old(currentProcessing), task.docId) ==>
                table.docs == old(table.docs) && ocrQueue == old(ocrQueue) && llmQueue == old(llmQueue)
      ensures !OcrSkips(old(table.docs), old(currentProcessing), task.docId) ==>
                var d := old(table.docs)[task.docId];
                table.docs == old(table.docs)[task.docId := AfterOcr(failureTest, d, outcome)]
                && ocrQueue == old(ocrQueue) + OcrRequeue(failureTest, d, outcome, task.docId)
                && llmQueue == old(llmQueue) + LlmFollowUp(failureTest, outcome, task.docId)
    {
      var id := task.docId;
      if id !in table.docs || id in currentProcessing || table.docs[id].ocrStatus == OcrCompleted {
        currentProcessing := currentProcessing - {id};
        return;
      }
      var d := table.docs[id];
      currentProcessing := currentProcessing + {id};
      table.Put(id, d.(ocrStatus := OcrProcessing));
      match outcome {
        case Raised(e) =>
          table.Put(id, d.(ocrStatus := OcrFailed, ocrError := Some(e)));
        case Returned(text) =>
          if Fails(failureTest, text) {
            var n := d.ocrRetryCount + 1;
            var failed := d.(ocrStatus := OcrFailed, ocrError := Some(Truncated(text, 500)), ocrRetryCount := n);
            if n < OcrMaxRetries {
              failed := failed.(ocrStatus := OcrPending);
              AddOcrTask(id, 3, false);
            }
            table.Put(id, failed);
          } else {
            table.Put(id, d.(ocrStatus := OcrCompleted, ocrError := None, ocrRetryCount := 0,
                             extractedText := Some(text), status := Processed));
            AddLlmTask(id, 5, false);
          }
      }
      currentProcessing := currentProcessing - {id};
    }

    /** `process_llm_task(task)`, where `info` is what
        `extract_property_info` returns for the document's text and model,
        and `err` the text of the error a failed commit raises. */
    method ProcessLlmTask(task: Task, info: Props, err: string)
      requires table.Valid()
      modifies this`currentProcessing, table`docs
      ensures table.Valid()
      ensures currentProcessing == old(currentProcessing) - {task.docId}
      ensures LlmSkips(old(table.docs), old(currentProcessing), task) ==> table.docs == old(table.docs)
      ensures !LlmSkips(old(table.docs), old(currentProcessing), task) ==>
                table.docs == old(table.docs)[task.docId := AfterLlm(old(table.docs)[task.docId], info, err)]
    {
      var id := task.docId;
      if id !in table.docs || id in currentProcessing || table.docs[id].llmStatus == ManualEdit
         || table.docs[id].ocrStatus != OcrCompleted || (table.docs[id].llmStatus == LlmCompleted && !task.manual) {
        currentProcessing := currentProcessing - {id};
        return;
      }
      var d := table.docs[id];
      currentProcessing := currentProcessing + {id};
      table.Put(id, d.(llmStatus := LlmProcessing));
      if info == map[] {
        table.Put(id, d.(llmStatus := LlmFailed, llmError := Some(LlmFailureMsg)));
      } else if ColumnsBindable(info) {
        table.Put(id, d.(llmStatus := LlmCompleted, llmError := None, props := CopiedColumns(info)));
      } else {
        // the commit raised: rolled back to the "processing" row, then failed
        table.Put(id, d.(llmStatus := LlmFailed, llmError := Some(err)));
      }
      currentProcessing := currentProcessing - {id};
    }

    /** `load_pending_tasks`: rows are read in id order; one OCR task per
        OCR-pending document and one LLM task per document waiting for the
        LLM stage, each at the document's stored priority. */
    method LoadPendingTasks()
      requires table.Valid()
      modifies this`ocrQueue, this`llmQueue
      ensures ocrQueue == old(ocrQueue) + multiset(LoadTasks(table.docs, Ascending(table.docs.Keys, 1, table.nextId), OcrStage))
      ensures llmQueue == old(llmQueue) + multiset(LoadTasks(table.docs, Ascending(table.docs.Keys, 1, table.nextId), LlmStage))
    {
      var ids := Ascending(table.docs.Keys, 1, table.nextId);
      var ocrTasks := Enqueued(table.docs, ids, OcrStage);
      ocrQueue := ocrQueue + multiset(ocrTasks);
      var llmTasks := Enqueued(table.docs, ids, LlmStage);
      llmQueue := llmQueue + multiset(llmTasks);
    }
  }

  /** The loop of `load_pending_tasks` over the rows of one query. */
  method Enqueued(docs: map<int, HDoc>, ids: seq<int>, s: Stage) returns (tasks: seq<Task>)
    requires forall i :: 0 <= i < |ids| ==> ids[i] in docs
    ensures tasks == LoadTasks(docs, ids, s)
  {
    tasks := [];
    var i := 0;
    while i < |ids|
      invariant 0 <= i <= |ids|
      invariant tasks == LoadTasks(docs, ids[..i], s)
    {
      var id := ids[i];
      assert ids[..i + 1][..i] == ids[..i];
      if Waiting(docs[id], s) {
        tasks := tasks + [Task(id, StagePriority(docs[id], s), false)];
      }
      i := i + 1;
    }
    assert ids[..i] == ids;
  }
}
