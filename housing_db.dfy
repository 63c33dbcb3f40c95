/** The document table of the thread-based generation
    (`src/housing_ocr/database.py`): one row per uploaded file, its OCR and
    LLM stage states, and the 31 extracted property columns. */
module HousingDb {
  import opened Wrappers
  import opened Text
  import opened Json

  /** `ocr_status`: "pending", "processing", "completed" or "failed". */
  datatype OcrState = OcrPending | OcrProcessing | OcrCompleted | OcrFailed

  /** `llm_status`, which a manual edit sets to "manual_edit". */
  datatype LlmState = LlmPending | LlmProcessing | LlmCompleted | LlmFailed | ManualEdit

  /** `status`: "pending" until the OCR text is in, then "processed". */
  datatype DocStatus = Unprocessed | Processed

  /** A `documents` row. The time stamps are left out; `props` holds the
      property columns by name. */
  datatype HDoc = HDoc(
    originalFilename: string,
    hashedFilename: string,
    filePath: string,
    fileType: string,
    fileSize: nat,
    fileHash: string,
    extractedText: Option<string>,
    status: DocStatus,
    ocrRetryCount: int,
    ocrStatus: OcrState,
    ocrPriority: int,
    ocrError: Option<string>,
    llmStatus: LlmState,
    llmPriority: int,
    llmError: Option<string>,
    llmModel: Option<string>,
    props: Props)

  /** The 31 extracted property columns, in declaration order. */
  const PropertyColumns: seq<string> := [
    "property_type", "property_name", "room_number", "address", "prefecture",
    "city", "town", "current_status", "handover_date", "is_renovated",
    "renovation_date", "year_built", "structure", "total_floors", "floor_number",
    "room_layout", "orientation", "price", "management_fee", "repair_fund",
    "exclusive_area", "land_area", "building_area", "balcony_area",
    "nearest_station", "nearest_line", "walking_time", "multiple_stations",
    "has_parking", "shopping_nearby", "pets_allowed"]

  /** The property columns of a new row: all NULL. */
  function Unset(): (p: Props)
    ensures forall f :: f in p <==> f in PropertyColumns
    ensures forall f :: f in p ==> p[f] == Null
  {
    map f | f in PropertyColumns :: Null
  }

  /** The property columns as `setattr(document, field, info.get(field))`
      over a result dictionary sets them: a field the result lacks becomes
      NULL, and keys outside the columns are ignored. */
  function CopiedColumns(info: Props): (p: Props)
    ensures forall f :: f in p <==> f in PropertyColumns
    ensures forall f :: f in p ==> p[f] == Get(info, f)
  {
    map f | f in PropertyColumns :: Get(info, f)
  }

  /** A value the `sqlite3` driver binds as a statement parameter: NULL, a
      boolean, an integer that fits in 64 bits, a float or a text. A list or
      an object (no column is a JSON column) or a wider integer makes the
      flush of `session.commit()` raise. */
  predicate Bindable(v: Value) {
    match v
    case Int(i) => -0x8000_0000_0000_0000 <= i < 0x8000_0000_0000_0000
    case List(_) => false
    case Obj(_) => false
    case _ => true
  }

  /** Every property column `setattr(document, field, info.get(field))`
      writes from `info` can be bound. */
  predicate ColumnsBindable(info: Props) {
    forall f :: f in PropertyColumns ==> Bindable(Get(info, f))
  }

  /** A new row for an upload, with the column defaults: `status`,
      `ocr_status` and `llm_status` pending, both priorities 5, no retries,
      no text, no errors and no properties. */
  function NewDocument(original: string, hashed: string, path: string, fileType: string,
                       size: nat, hash: string, model: Option<string>): (d: HDoc)
    ensures d.status == Unprocessed && d.ocrStatus == OcrPending && d.llmStatus == LlmPending
    ensures d.ocrPriority == 5 && d.llmPriority == 5 && d.ocrRetryCount == 0
    ensures d.extractedText.None? && d.ocrError.None? && d.llmError.None?
    ensures d.originalFilename == original && d.hashedFilename == hashed && d.fileHash == hash
    ensures d.llmModel == model && forall f :: f in d.props ==> d.props[f] == Null
  {
    HDoc(original, hashed, path, fileType, size, hash, None, Unprocessed, 0,
         OcrPending, 5, None, LlmPending, 5, None, model, Unset())
  }

  /** The first 16 characters of a text (all of it when shorter). */
  function Prefix16(s: string): (r: string)
    ensures |r| == if |s| < 16 then |s| else 16
    ensures StartsWith(s, r)
  {
    if |s| < 16 then s else s[..16]
  }

  /** `generate_hashed_filename`: the first 16 characters of the hash, then
      the original name's suffix lower-cased. */
  function GenerateHashedFilename(original: string, hash: string): (r: string)
    ensures StartsWith(r, Prefix16(hash))
    ensures r[|Prefix16(hash)|..] == Lower(Suffix(original))
  {
    var ext := Lower(Suffix(original));
    var p := Prefix16(hash);
    assert (p + ext)[|p|..] == ext;
    p + ext
  }

  /** Two uploads get the same stored name exactly when their hashes agree
      on the first 16 characters and their suffixes agree up to letter
      case. */
  lemma SameStoredName(o1: string, h1: string, o2: string, h2: string)
    requires |h1| >= 16 && |h2| >= 16
    ensures GenerateHashedFilename(o1, h1) == GenerateHashedFilename(o2, h2)
            <==> h1[..16] == h2[..16] && Lower(Suffix(o1)) == Lower(Suffix(o2))
  {
    var r1, r2 := GenerateHashedFilename(o1, h1), GenerateHashedFilename(o2, h2);
    if r1 == r2 {
      assert r1[..16] == h1[..16] && r2[..16] == h2[..16];
    }
  }

  /** The shape of a suffix: empty, or a '.' and at least one more
      character, with no further '.' and no '/'. */
  predicate SuffixShaped(e: string) {
    e == [] || (e[0] == '.' && |e| >= 2 && '.' !in e[1..] && '/' !in e)
  }

  /** Lower-casing keeps the shape of a suffix. */
  lemma LowerKeepsSuffixShape(e: string)
    requires SuffixShaped(e)
    ensures SuffixShaped(Lower(e))
  {
    var low := Lower(e);
    if e != [] {
      assert '/' !in low by {
        forall i | 0 <= i < |low| ensures low[i] != '/' { assert e[i] != '/'; }
      }
      assert '.' !in low[1..] by {
        forall i | 0 <= i < |low| - 1 ensures low[1..][i] != '.' { assert e[1..][i] == e[i + 1]; }
      }
    }
  }

  /** The last occurrence of `c` is at `i` when nothing after `i` is `c`. */
  lemma {:induction false} RFindAt(r: string, c: char, i: nat)
    requires i < |r| && r[i] == c && forall j :: i < j < |r| ==> r[j] != c
    ensures RFind(r, c) == i
  {
    if i < |r| - 1 {
      var init := r[..|r| - 1];
      assert forall j :: i < j < |init| ==> init[j] == r[j];
      RFindAt(init, c, i);
    }
  }

  /** A name with no '.' or '/' followed by a suffix-shaped text has that
      text as its suffix. */
  lemma SuffixOfJoined(p: string, e: string)
    requires p != [] && '.' !in p && '/' !in p && SuffixShaped(e)
    ensures Suffix(p + e) == e
  {
    var r := p + e;
    assert '/' !in r by {
      forall i | 0 <= i < |r| ensures r[i] != '/' {
        if i >= |p| { assert r[i] == e[i - |p|]; } else { assert r[i] == p[i]; }
      }
    }
    assert PathName(r) == r by {
      assert RFind(r, '/') == -1;
    }
    if e == [] {
      assert r == p;
    } else {
      assert r[|p|] == '.';
      assert forall j :: |p| < j < |r| ==> r[j] == e[1..][j - |p| - 1];
      RFindAt(r, '.', |p|);
      assert r[|p|..] == e;
    }
  }

  /** The stored name's own suffix is the original's, lower-cased, when the
      hash holds no '.' or '/' (a hex digest): the file keeps its type. */
  lemma StoredNameKeepsSuffix(original: string, hash: string)
    requires |hash| >= 16 && '.' !in hash[..16] && '/' !in hash[..16]
    ensures Suffix(GenerateHashedFilename(original, hash)) == Lower(Suffix(original))
  {
    LowerKeepsSuffixShape(Suffix(original));
    SuffixOfJoined(hash[..16], Lower(Suffix(original)));
  }

  /** No two rows share a stored name (`hashed_filename` is unique). */
  predicate UniqueHashed(docs: map<int, HDoc>) {
    forall a, b :: a in docs && b in docs && docs[a].hashedFilename == docs[b].hashedFilename ==> a == b
  }

  /** Some row is stored under `name`. */
  predicate HasHashed(docs: map<int, HDoc>, name: string) {
    exists id :: id in docs && docs[id].hashedFilename == name
  }

  /** The `documents` table with its auto-increment counter. */
  class DocumentTable {
    var docs: map<int, HDoc>
    var nextId: int

    ghost predicate Valid()
      reads this
    {
      1 <= nextId && (forall id :: id in docs ==> 1 <= id < nextId) && UniqueHashed(docs)
    }

    constructor ()
      ensures Valid() && docs == map[] && nextId == 1
    {
      docs := map[];
      nextId := 1;
    }

    /** `session.add(document); session.commit()`: a row whose stored name is
        taken violates the unique constraint and is rolled back (`None`);
        otherwise it gets the next id. */
    method Insert(d: HDoc) returns (id: Option<int>)
      requires Valid()
      modifies this
      ensures Valid()
      ensures id.None? <==> HasHashed(old(docs), d.hashedFilename)
      ensures id.None? ==> docs == old(docs) && nextId == old(nextId)
      ensures id.Some? ==> id.value == old(nextId) && id.value !in old(docs)
                           && docs == old(docs)[id.value := d] && nextId == old(nextId) + 1
    {
      if exists k :: k in docs && docs[k].hashedFilename == d.hashedFilename {
        return None;
      }
      id := Some(nextId);
      docs := docs[nextId := d];
      nextId := nextId + 1;
    }

    /** A commit of changed columns of a row; the stored name never changes. */
    method Put(id: int, d: HDoc)
      requires Valid() && id in docs && d.hashedFilename == docs[id].hashedFilename
      modifies this`docs
      ensures Valid()
      ensures docs == old(docs)[id := d]
    {
      docs := docs[id := d];
    }
  }
}
