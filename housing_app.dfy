/** The web handlers of the thread-based generation
    (`src/housing_ocr/app.py`): which uploads are accepted and what row and
    task each one creates, the manual re-OCR and LLM retry, the manual edit
    of the property columns, and the property listing with its filters. */
module HousingApp {
  import opened Wrappers
  import opened Text
  import opened Json
  import opened HousingDb
  import opened HousingQueue

  /** `ALLOWED_EXTENSIONS` */
  const AllowedExtensions: set<string> := {"pdf", "jpg", "jpeg", "png"}

  /** The model recorded for an upload whose form names none. */
  const DefaultModel: string := "rednote-hilab/dots.ocr"

  /** `filename.rsplit(".", 1)[1]`: the text after the last '.'. */
  function AfterLastDot(filename: string): (r: string)
    requires '.' in filename
    ensures '.' !in r && EndsWith(filename, r) && |r| < |filename|
    ensures filename[|filename| - |r| - 1] == '.'
  {
    var k := RFind(filename, '.');
    filename[k + 1..]
  }

  /** `allowed_file` */
  predicate AllowedFile(filename: string) {
    filename != "" && '.' in filename && Lower(AfterLastDot(filename)) in AllowedExtensions
  }

  /** The text after a '.' that no later '.' follows is what `rsplit`
      returns. */
  lemma LastDotIsRSplit(filename: string, k: nat)
    requires k < |filename| && filename[k] == '.' && '.' !in filename[k + 1..]
    ensures '.' in filename && AfterLastDot(filename) == filename[k + 1..]
  {
    assert forall j :: k < j < |filename| ==> filename[j] == filename[k + 1..][j - k - 1];
    RFindAt(filename, '.', k);
  }

  /** A name is accepted exactly when it has a '.' and the text after its
      last '.' is one of the four extensions, whatever its letter case; the
      rest of the name does not matter, and a name without '.' is refused. */
  lemma AllowedByExtension(stem: string, ext: string)
    requires '.' !in ext
    ensures AllowedFile(stem + "." + ext) <==> Lower(ext) in AllowedExtensions
  {
    var f := stem + "." + ext;
    assert f[|stem|] == '.' && f[|stem| + 1..] == ext;
    LastDotIsRSplit(f, |stem|);
  }

  lemma NoDotRefused(filename: string)
    requires '.' !in filename
    ensures !AllowedFile(filename)
  {
  }

  /** One file of an upload request: the name the client sent, the name
      `secure_filename` makes of it, the SHA-256 hex digest and the size of
      its bytes. */
  datatype UploadItem = UploadItem(filename: string, secured: string, hash: string, size: nat)

  /** `Path(original_filename).suffix.lower()[1:]` */
  function FileType(secured: string): (r: string)
    ensures r == [] <==> Suffix(secured) == []
    ensures r != [] ==> Lower(Suffix(secured))[0] == '.' && Lower(Suffix(secured))[1..] == r
  {
    var e := Lower(Suffix(secured));
    if e == [] then [] else e[1..]
  }

  /** The row `upload_file` creates for an accepted item. */
  function StoredRow(it: UploadItem, dir: string, model: string): HDoc {
    var hashed := GenerateHashedFilename(it.secured, it.hash);
    NewDocument(it.secured, hashed, dir + "/" + hashed, FileType(it.secured), it.size, it.hash, Some(model))
  }

  /** With a hex digest, the stored file carries the type recorded in its
      row (`StoredRow` records both): its suffix is a '.' and the type, or
      both are empty. A name that
      `secure_filename` has stripped of its extension gives a row with an
      empty type and a stored name without suffix. */
  lemma StoredTypeAgrees(secured: string, hash: string)
    requires |hash| >= 16 && '.' !in hash[..16] && '/' !in hash[..16]
    ensures var t := FileType(secured);
            var stored := GenerateHashedFilename(secured, hash);
            (t == [] <==> Suffix(stored) == []) && (t != [] ==> Suffix(stored)[0] == '.' && Suffix(stored)[1..] == t)
  {
    StoredNameKeepsSuffix(secured, hash);
  }

  /** What the upload handler has done so far: the table, its counter, the
      names in the upload folder, and the OCR tasks queued. */
  datatype Store = Store(docs: map<int, HDoc>, nextId: int, files: set<string>, queued: seq<Task>)

  /** What `upload_file` makes of one item: nothing for an item without a
      name or with a disallowed one, otherwise the row to commit. */
  function Prepare(it: UploadItem, dir: string, model: string): Option<HDoc> {
    if it.filename == "" || !AllowedFile(it.filename) then None else Some(StoredRow(it, dir, model))
  }

  /** One item of `upload_file`'s loop, given what it makes of the item. The
      file is saved under its secured name and renamed to its stored name,
      replacing a file of that name; the row is committed unless its stored
      name is taken, and only a committed row gets a priority-5 OCR task. */
  function Commit(s: Store, secured: string, p: Option<HDoc>): Store {
    match p
    case None => s
    case Some(d) =>
      var files := s.files - {secured} + {d.hashedFilename};
      if HasHashed(s.docs, d.hashedFilename) then s.(files := files)
      else Store(s.docs[s.nextId := d], s.nextId + 1, files, s.queued + [Task(s.nextId, 5, false)])
  }

  function UploadOne(s: Store, it: UploadItem, dir: string, model: string): Store {
    Commit(s, it.secured, Prepare(it, dir, model))
  }

  /** The whole loop over the request's files. */
  function Uploads(s: Store, items: seq<UploadItem>, dir: string, model: string): Store {
    if items == [] then s
    else UploadOne(Uploads(s, items[..|items| - 1], dir, model), items[|items| - 1], dir, model)
  }

  /** A row as an upload creates it: every stage waiting, no retries. */
  predicate FreshRow(d: HDoc, model: string) {
    d.status == Unprocessed && d.ocrStatus == OcrPending && d.llmStatus == LlmPending
    && d.ocrRetryCount == 0 && d.ocrPriority == 5 && d.llmModel == Some(model)
  }

  /** Over a table whose ids lie below its counter, the uploads keep every
      existing row, add rows under consecutive ids from the counter, each
      fresh, and queue exactly one non-manual priority-5 OCR task per added
      row, in id order. */
  lemma {:induction false} UploadsShape(s: Store, items: seq<UploadItem>, dir: string, model: string)
    requires s.queued == [] && forall id :: id in s.docs ==> id < s.nextId
    ensures var r := Uploads(s, items, dir, model);
            r.nextId == s.nextId + |r.queued|
            && (forall k :: 0 <= k < |r.queued| ==> r.queued[k] == Task(s.nextId + k, 5, false))
            && (forall id :: id in r.docs <==> id in s.docs || s.nextId <= id < r.nextId)
            && (forall id :: id in s.docs ==> r.docs[id] == s.docs[id])
            && (forall id :: s.nextId <= id < r.nextId ==> FreshRow(r.docs[id], model))
  {
    if items != [] {
      var init := items[..|items| - 1];
      UploadsShape(s, init, dir, model);
      var before := Uploads(s, init, dir, model);
      var it := items[|items| - 1];
      var p := Prepare(it, dir, model);
      PrepareFresh(it, dir, model);
      CommitShape(before, it.secured, p);
      var r := Uploads(s, items, dir, model);
      assert r == Commit(before, it.secured, p);
      if r.nextId != before.nextId {
        assert forall id :: id in r.docs <==> id in before.docs || id == before.nextId;
        forall k | 0 <= k < |r.queued| ensures r.queued[k] == Task(s.nextId + k, 5, false) {
          if k < |before.queued| { assert r.queued[k] == before.queued[k]; }
        }
      }
    }
  }

  /** Committing leaves the table as it was or adds the row under the
      counter and queues that row's task. */
  lemma CommitShape(s: Store, secured: string, p: Option<HDoc>)
    ensures var r := Commit(s, secured, p);
            (r.nextId == s.nextId && r.docs == s.docs && r.queued == s.queued)
            || (p.Some? && r.nextId == s.nextId + 1 && r.docs == s.docs[s.nextId := p.value]
                && r.queued == s.queued + [Task(s.nextId, 5, false)])
  {
  }

  /** The loop's next item extends the fold by one commit. */
  lemma UploadsSnoc(s: Store, items: seq<UploadItem>, i: nat, dir: string, model: string)
    requires i < |items|
    ensures Uploads(s, items[..i + 1], dir, model)
            == Commit(Uploads(s, items[..i], dir, model), items[i].secured, Prepare(items[i], dir, model))
  {
    assert items[..i + 1][..i] == items[..i];
  }

  /** Committing does not depend on the tasks queued before. */
  lemma CommitIgnoresQueued(s: Store, secured: string, p: Option<HDoc>)
    ensures var r := Commit(s, secured, p);
            var t := Commit(Store(s.docs, s.nextId, s.files, []), secured, p);
            r.docs == t.docs && r.nextId == t.nextId && r.files == t.files && r.queued == s.queued + t.queued
  {
  }

  /** The row an accepted item makes is fresh. */
  lemma PrepareFresh(it: UploadItem, dir: string, model: string)
    ensures Prepare(it, dir, model).Some? ==> FreshRow(Prepare(it, dir, model).value, model)
  {
  }

  /** Items that are all skipped change nothing, the folder included. */
  lemma {:induction false} SkippedChangeNothing(s: Store, items: seq<UploadItem>, dir: string, model: string)
    requires forall i :: 0 <= i < |items| ==> !AllowedFile(items[i].filename)
    ensures Uploads(s, items, dir, model) == s
  {
    if items != [] {
      SkippedChangeNothing(s, items[..|items| - 1], dir, model);
    }
  }

  /** After an accepted item, an accepted item with the same first 16
      digest characters and the same suffix up to letter case, identical
      content in particular, adds no row and queues no task, whether or not
      the first one added a row. */
  lemma DuplicateAddsNothing(s: Store, a: UploadItem, b: UploadItem, dir: string, model: string)
    requires a.filename != "" && AllowedFile(a.filename) && b.filename != "" && AllowedFile(b.filename)
    requires |a.hash| >= 16 && |b.hash| >= 16
    requires a.hash[..16] == b.hash[..16] && Lower(Suffix(a.secured)) == Lower(Suffix(b.secured))
    ensures var s1 := UploadOne(s, a, dir, model);
            var s2 := UploadOne(s1, b, dir, model);
            s2.docs == s1.docs && s2.nextId == s1.nextId && s2.queued == s1.queued
  {
    SameStoredName(a.secured, a.hash, b.secured, b.hash);
    var hashed := GenerateHashedFilename(a.secured, a.hash);
    var s1 := UploadOne(s, a, dir, model);
    if !HasHashed(s.docs, hashed) {
      assert s1.docs[s.nextId].hashedFilename == hashed;
    }
    assert HasHashed(s1.docs, hashed);
  }

  /** `api_reocr`'s reset of a row. */
  function Reocr(d: HDoc): HDoc {
    d.(ocrStatus := OcrPending, ocrPriority := 1, ocrRetryCount := 0, ocrError := None, llmStatus := LlmPending)
  }

  /** A reset row waits for OCR again, at priority 1, with a full set of
      tries, and no longer for the LLM until the OCR completes; its OCR task
      is not skipped unless a worker has it in hand; its text, properties and
      status stay. */
  lemma ReocrRequeues(docs: map<int, HDoc>, id: int, current: set<int>)
    requires id in docs
    ensures var e := docs[id := Reocr(docs[id])];
            Waiting(e[id], OcrStage) && !Waiting(e[id], LlmStage)
            && Loaded(e, id, OcrStage) == Task(id, 1, false)
            && e[id].ocrRetryCount == 0 && e[id].ocrError.None?
            && (!OcrSkips(e, current, id) <==> id !in current)
            && e[id].extractedText == docs[id].extractedText && e[id].props == docs[id].props
            && e[id].status == docs[id].status
  {
  }

  /** `api_retry_llm`'s reset of a row. */
  function RetryLlm(d: HDoc): HDoc {
    d.(llmStatus := LlmPending, llmPriority := 1, llmError := None)
  }

  /** The LLM reset leaves every OCR field alone, and its manual task is
      handled exactly when the OCR stage is complete and no worker has the
      row, a manual edit or a completed extraction notwithstanding. */
  lemma RetryLlmRuns(docs: map<int, HDoc>, id: int, current: set<int>)
    requires id in docs
    ensures var d := docs[id];
            var e := docs[id := RetryLlm(d)];
            e[id].ocrStatus == d.ocrStatus && e[id].ocrPriority == d.ocrPriority
            && e[id].ocrRetryCount == d.ocrRetryCount && e[id].ocrError == d.ocrError
            && e[id].extractedText == d.extractedText && e[id].props == d.props
            && (!LlmSkips(e, current, Task(id, 1, true)) <==> id !in current && d.ocrStatus == OcrCompleted)
  {
  }

  /** The property columns after a manual edit: each listed column present
      in the body takes the body's value, in list order. */
  function Edited(p: Props, data: Props, fields: seq<string>): Props {
    if fields == [] then p
    else
      var q := Edited(p, data, fields[..|fields| - 1]);
      var f := fields[|fields| - 1];
      if f in data then q[f := data[f]] else q
  }

  /** A manual edit overwrites exactly the listed columns the body holds and
      keeps every other column as it was; keys outside the list are
      ignored. */
  lemma {:induction false} EditedExact(p: Props, data: Props, fields: seq<string>)
    ensures var r := Edited(p, data, fields);
            (forall f :: f in r <==> f in p || (f in data && f in fields))
            && (forall f :: f in data && f in fields ==> r[f] == data[f])
            && (forall f :: f in p && !(f in data && f in fields) ==> r[f] == p[f])
  {
    if fields != [] {
      var init := fields[..|fields| - 1];
      EditedExact(p, data, init);
      assert forall f :: f in fields <==> f in init || f == fields[|fields| - 1];
    }
  }

  /** Every listed column the body sets can be bound by the driver. */
  predicate EditBindable(data: Props) {
    forall f :: f in PropertyColumns && f in data ==> Bindable(data[f])
  }

  /** A manually edited row is skipped by every LLM task and is not queued
      for the LLM again by `load_pending_tasks`. */
  lemma ManualEditSticks(docs: map<int, HDoc>, id: int, current: set<int>, task: Task)
    requires id in docs && docs[id].llmStatus == ManualEdit && task.docId == id
    ensures LlmSkips(docs, current, task) && !Waiting(docs[id], LlmStage)
  {
  }

  /** The query parameters of `/api/properties`; `None` when absent. */
  datatype Query = Query(propertyType: Option<string>, prefecture: Option<string>, city: Option<string>,
                         minPrice: Option<string>, maxPrice: Option<string>)

  /** `if param:` on a query parameter. */
  predicate Given(a: Option<string>) {
    a.Some? && a.value != ""
  }

  /** `int(s)` on text: surrounding white space, an optional sign and a run
      of digits; anything else raises (`None`). */
  function PyInt(s: string): Option<int> {
    SignedDigits(Strip(s))
  }

  /** An optional sign and a non-empty run of digits, and nothing else. */
  function SignedDigits(t: string): Option<int> {
    var signed := t != "" && (t[0] == '-' || t[0] == '+');
    var digits := if signed then t[1..] else t;
    if digits == "" || !AllDigits(digits) then None
    else if signed && t[0] == '-' then Some(-(DigitsValue(digits) as int))
    else Some(DigitsValue(digits))
  }

  /** A text without white space at either end strips to itself. */
  lemma StripUntrimmed(s: string)
    requires s != [] && !IsSpace(s[0]) && !IsSpace(s[|s| - 1])
    ensures Strip(s) == s
  {
  }

  /** An ASCII digit is not white space. */
  lemma DigitNotSpace(c: char)
    requires '0' <= c <= '9'
    ensures !IsSpace(c) && IsDigit(c)
  {
  }

  /** A run of ASCII digits reads as its value. */
  lemma PyIntOfDigits(d: string)
    requires d != [] && forall i :: 0 <= i < |d| ==> '0' <= d[i] <= '9'
    ensures AllDigits(d) && PyInt(d) == Some(DigitsValue(d) as int)
  {
    DigitNotSpace(d[0]);
    DigitNotSpace(d[|d| - 1]);
    StripUntrimmed(d);
  }

  /** A minus sign followed by a run of ASCII digits reads as the negated
      value of the run. */
  lemma PyIntOfNegatedDigits(m: string)
    requires |m| >= 2 && m[0] == '-' && forall i :: 1 <= i < |m| ==> '0' <= m[i] <= '9'
    ensures AllDigits(m[1..]) && PyInt(m) == Some(-(DigitsValue(m[1..]) as int))
  {
    DigitNotSpace(m[|m| - 1]);
    StripUntrimmed(m);
  }

  /** A text with a '.' in it is not an integer: `int("12.5")` raises. */
  lemma PyIntRejectsFraction(s: string, k: nat)
    requires k < |s| && s[k] == '.'
    ensures PyInt(s).None?
  {
    assert !IsSpace('.');
    StripKeeps(s, k);
    var t := Strip(s);
    var j :| 0 <= j < |t| && t[j] == '.';
    if t[0] == '-' || t[0] == '+' {
      assert t[1..][j - 1] == '.';
    }
  }

  /** The price bounds: absent when the parameter is not given. */
  datatype Bounds = Bounds(lo: Option<int>, hi: Option<int>)

  /** The bounds of a query, or `None` when a given one is not an integer
      (the handler then fails with a server error). */
  function BoundsOf(q: Query): (r: Option<Bounds>)
    ensures r.None? <==> (Given(q.minPrice) && PyInt(q.minPrice.value).None?)
                         || (Given(q.maxPrice) && PyInt(q.maxPrice.value).None?)
    ensures r.Some? ==> (r.value.lo.Some? <==> Given(q.minPrice)) && (r.value.hi.Some? <==> Given(q.maxPrice))
    ensures r.Some? && r.value.lo.Some? ==> PyInt(q.minPrice.value) == r.value.lo
    ensures r.Some? && r.value.hi.Some? ==> PyInt(q.maxPrice.value) == r.value.hi
  {
    var lo := if Given(q.minPrice) then PyInt(q.minPrice.value) else None;
    var hi := if Given(q.maxPrice) then PyInt(q.maxPrice.value) else None;
    if (Given(q.minPrice) && lo.None?) || (Given(q.maxPrice) && hi.None?) then None
    else Some(Bounds(lo, hi))
  }

  /** An equality filter on a text column: no filter, or the stored value
      is that text. */
  predicate ColumnIs(p: Props, f: string, a: Option<string>) {
    !Given(a) || Get(p, f) == Str(a.value)
  }

  /** The price filters: a NULL or non-integer price fails any given bound. */
  predicate PriceWithin(p: Props, b: Bounds) {
    var v := Get(p, "price");
    (b.lo.None? || (v.Int? && b.lo.value <= v.i)) && (b.hi.None? || (v.Int? && v.i <= b.hi.value))
  }

  /** A row the listing shows. */
  predicate Listed(d: HDoc, q: Query, b: Bounds) {
    d.status == Processed
    && ColumnIs(d.props, "property_type", q.propertyType)
    && ColumnIs(d.props, "prefecture", q.prefecture)
    && ColumnIs(d.props, "city", q.city)
    && PriceWithin(d.props, b)
  }

  /** The listed ids in `[lo, hi)`, newest first. */
  function Newest(docs: map<int, HDoc>, q: Query, b: Bounds, lo: int, hi: int): (r: seq<int>)
    ensures forall id :: id in r <==> id in docs && lo <= id < hi && Listed(docs[id], q, b)
    ensures forall i, j :: 0 <= i < j < |r| ==> r[i] > r[j]
    decreases hi - lo
  {
    if hi <= lo then []
    else
      var rest := Newest(docs, q, b, lo, hi - 1);
      assert forall k :: 0 <= k < |rest| ==> rest[k] in rest;
      if hi - 1 in docs && Listed(docs[hi - 1], q, b) then [hi - 1] + rest else rest
  }

  /** `api_properties`: the processed rows matching every given filter,
      newest first, or `None` when a price bound is not an integer. */
  function ApiProperties(docs: map<int, HDoc>, nextId: int, q: Query): (r: Option<seq<int>>)
    ensures r.None? <==> BoundsOf(q).None?
    ensures r.Some? ==> forall id :: id in r.value <==> id in docs && 1 <= id < nextId && Listed(docs[id], q, BoundsOf(q).value)
    ensures r.Some? ==> forall i, j :: 0 <= i < j < |r.value| ==> r.value[i] > r.value[j]
  {
    match BoundsOf(q)
    case None => None
    case Some(b) => Some(Newest(docs, q, b, 1, nextId))
  }

  /** A listed row is processed, matches each given text filter exactly,
      and has an integer price within each given bound, both inclusive. */
  lemma ListedMeans(d: HDoc, q: Query, b: Bounds)
    requires Listed(d, q, b)
    ensures d.status == Processed
    ensures Given(q.propertyType) ==> Get(d.props, "property_type") == Str(q.propertyType.value)
    ensures Given(q.prefecture) ==> Get(d.props, "prefecture") == Str(q.prefecture.value)
    ensures Given(q.city) ==> Get(d.props, "city") == Str(q.city.value)
    ensures b.lo.Some? ==> Get(d.props, "price").Int? && b.lo.value <= Get(d.props, "price").i
    ensures b.hi.Some? ==> Get(d.props, "price").Int? && Get(d.props, "price").i <= b.hi.value
  {
  }

  /** Without filters every processed row is listed. */
  lemma NoFilterListsProcessed(docs: map<int, HDoc>, nextId: int)
    requires forall id :: id in docs ==> 1 <= id < nextId
    ensures var r := ApiProperties(docs, nextId, Query(None, None, None, None, None));
            r.Some? && forall id :: id in r.value <==> id in docs && docs[id].status == Processed
  {
  }

  /** `property_name or original_filename`: the name the listing shows. */
  function DisplayName(d: HDoc): (v: Value)
    ensures Truthy(Get(d.props, "property_name")) ==> v == Get(d.props, "property_name")
    ensures !Truthy(Get(d.props, "property_name")) ==> v == Str(d.originalFilename)
  {
    var n := Get(d.props, "property_name");
    if Truthy(n) then n else Str(d.originalFilename)
  }

  /** The application: the table, the queue manager it feeds, and the
      upload folder. */
  class HousingApp {
    const table: DocumentTable
    const queue: QueueManager
    /** `UPLOAD_FOLDER` */
    const dir: string
    /** The names of the files in the upload folder. */
    var files: set<string>

    constructor (table: DocumentTable, queue: QueueManager, dir: string, files: set<string>)
      ensures this.table == table && this.queue == queue && this.dir == dir && this.files == files
    {
      this.table := table;
      this.queue := queue;
      this.dir := dir;
      this.files := files;
    }

    /** One accepted or skipped item of the upload loop. */
    method UploadItemStep(it: UploadItem, model: string)
      requires table.Valid()
      modifies table, queue`ocrQueue, this`files
      ensures table.Valid()
      ensures var r := Commit(Store(old(table.docs), old(table.nextId), old(files), []), it.secured,
                              Prepare(it, dir, model));
              table.docs == r.docs && table.nextId == r.nextId && files == r.files
              && queue.ocrQueue == old(queue.ocrQueue) + multiset(r.queued)
    {
      CommitRow(it.secured, Prepare(it, dir, model));
    }

    /** Files the prepared row, when there is one, under `secured`'s place in
        the upload folder, and queues its OCR when the insert succeeds. */
    method CommitRow(secured: string, p: Option<HDoc>)
      requires table.Valid()
      modifies table, queue`ocrQueue, this`files
      ensures table.Valid()
      ensures var r := Commit(Store(old(table.docs), old(table.nextId), old(files), []), secured, p);
              table.docs == r.docs && table.nextId == r.nextId && files == r.files
              && queue.ocrQueue == old(queue.ocrQueue) + multiset(r.queued)
    {
      if p.None? {
        return;
      }
      var d := p.value;
      files := files - {secured} + {d.hashedFilename};
      var id := table.Insert(d);
      if id.Some? {
        queue.AddOcrTask(id.value, 5, false);
      }
    }

    /** `upload_file`: every item of the request in turn; `model` is the
        form's model field. */
    method UploadFile(items: seq<UploadItem>, model: Option<string>)
      requires table.Valid()
      modifies table, queue`ocrQueue, this`files
      ensures table.Valid()
      ensures var r := Uploads(Store(old(table.docs), old(table.nextId), old(files), []), items, dir,
                               model.GetOr(DefaultModel));
              table.docs == r.docs && table.nextId == r.nextId && files == r.files
              && queue.ocrQueue == old(queue.ocrQueue) + multiset(r.queued)
    {
      var m := model.GetOr(DefaultModel);
      ghost var s0 := Store(table.docs, table.nextId, files, []);
      ghost var q0 := queue.ocrQueue;
      var i := 0;
      while i < |items|
        invariant 0 <= i <= |items|
        invariant table.Valid()
        invariant var r := Uploads(s0, items[..i], dir, m);
                  table.docs == r.docs && table.nextId == r.nextId && files == r.files
                  && queue.ocrQueue == q0 + multiset(r.queued)
      {
        UploadsSnoc(s0, items, i, dir, m);
        CommitIgnoresQueued(Uploads(s0, items[..i], dir, m), items[i].secured, Prepare(items[i], dir, m));
        UploadItemStep(items[i], m);
        i := i + 1;
      }
      assert items[..i] == items;
    }

    /** `api_reocr(doc_id)`: 404 for a missing row; otherwise the reset and
        a manual priority-1 OCR task. */
    method ApiReocr(id: int) returns (code: int)
      requires table.Valid()
      modifies table`docs, queue`ocrQueue
      ensures table.Valid()
      ensures code == (if id in old(table.docs) then 200 else 404)
      ensures id !in old(table.docs) ==> table.docs == old(table.docs) && queue.ocrQueue == old(queue.ocrQueue)
      ensures id in old(table.docs) ==>
                table.docs == old(table.docs)[id := Reocr(old(table.docs)[id])]
                && queue.ocrQueue == old(queue.ocrQueue) + multiset{Task(id, 1, true)}
    {
      if id !in table.docs {
        return 404;
      }
      table.Put(id, Reocr(table.docs[id]));
      queue.AddOcrTask(id, 1, true);
      code := 200;
    }

    /** `api_retry_llm(doc_id)`: 404 for a missing row; otherwise the LLM
        reset and a manual priority-1 LLM task. */
    method ApiRetryLlm(id: int) returns (code: int)
      requires table.Valid()
      modifies table`docs, queue`llmQueue
      ensures table.Valid()
      ensures code == (if id in old(table.docs) then 200 else 404)
      ensures id !in old(table.docs) ==> table.docs == old(table.docs) && queue.llmQueue == old(queue.llmQueue)
      ensures id in old(table.docs) ==>
                table.docs == old(table.docs)[id := RetryLlm(old(table.docs)[id])]
                && queue.llmQueue == old(queue.llmQueue) + multiset{Task(id, 1, true)}
    {
      if id !in table.docs {
        return 404;
      }
      table.Put(id, RetryLlm(table.docs[id]));
      queue.AddLlmTask(id, 1, true);
      code := 200;
    }

    /** `api_update_property(doc_id)`, where `data` is the decoded body
        (`None` when there is none, which fails the handler and rolls back):
        404 for a missing row; a 500 with nothing written when a listed
        column present in the body holds a value the driver cannot bind, so
        that the commit raises; otherwise each listed column present in the
        body is set, one by one, and the row is marked as manually edited. */
    method ApiUpdateProperty(id: int, data: Option<Props>) returns (code: int)
      requires table.Valid()
      modifies table`docs
      ensures table.Valid()
      ensures code == (if id !in old(table.docs) then 404
                       else if data.None? || !EditBindable(data.value) then 500 else 200)
      ensures code != 200 ==> table.docs == old(table.docs)
      ensures code == 200 ==>
                var d := old(table.docs)[id];
                table.docs == old(table.docs)[id := d.(props := Edited(d.props, data.value, PropertyColumns),
                                                       llmStatus := ManualEdit)]
    {
      if id !in table.docs {
        return 404;
      }
      if data.None? {
        return 500;
      }
      var d := table.docs[id];
      var props := d.props;
      for i := 0 to |PropertyColumns|
        invariant props == Edited(d.props, data.value, PropertyColumns[..i])
      {
        assert PropertyColumns[..i + 1][..i] == PropertyColumns[..i];
        var f := PropertyColumns[i];
        if f in data.value {
          props := props[f := data.value[f]];
        }
      }
      assert PropertyColumns[..|PropertyColumns|] == PropertyColumns;
      if !EditBindable(data.value) {
        return 500;
      }
      table.Put(id, d.(props := props, llmStatus := ManualEdit));
      code := 200;
    }
  }
}
