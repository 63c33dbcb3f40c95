/** The request handlers of the first web generation (`app.py`): uploads
    deduplicated by file name, the model-list and cleanup handlers it shares
    with the later generation, and the station-duration handlers with their
    input checks. */
module LegacyApi {
  import opened Wrappers
  import opened Text
  import opened Json
  import opened Ledger
  import opened ModelConfig
  import opened Api

  /** One station-duration entry of a request body: `station_name` (the
      empty text when absent), and `location_id` and `duration`, `None` when
      absent or null. */
  datatype StationEntry = StationEntry(name: string, locationId: Option<int>, duration: Option<int>)

  /** Why a station-duration request is refused (each with status 400). */
  datatype StationError = BlankName | MissingLocation | MissingDuration

  /** The checks of `set_station_duration`, in its order: a blank name, then a
      missing location, then a missing duration; an accepted entry gives the
      stripped name, the location and the duration. */
  function CheckedEntry(e: StationEntry): (r: Result<(string, int, int), StationError>)
    ensures Strip(e.name) == [] ==> r == Err(BlankName)
    ensures Strip(e.name) != [] && e.locationId.None? ==> r == Err(MissingLocation)
    ensures Strip(e.name) != [] && e.locationId.Some? && e.duration.None? ==> r == Err(MissingDuration)
    ensures r.Ok? <==> Strip(e.name) != [] && e.locationId.Some? && e.duration.Some?
    ensures r.Ok? ==> r.value == (Strip(e.name), e.locationId.value, e.duration.value)
  {
    var name := Strip(e.name);
    if name == [] then Err(BlankName)
    else if e.locationId.None? then Err(MissingLocation)
    else if e.duration.None? then Err(MissingDuration)
    else Ok((name, e.locationId.value, e.duration.value))
  }

  /** What an entry writes: its key and duration when accepted. */
  function Accepted(e: StationEntry): (w: Option<((string, int), int)>)
    ensures w.Some? <==> CheckedEntry(e).Ok?
    ensures w.Some? ==> w.value == ((CheckedEntry(e).value.0, CheckedEntry(e).value.1), CheckedEntry(e).value.2)
  {
    match CheckedEntry(e)
    case Ok((name, location, duration)) => Some(((name, location), duration))
    case Err(_) => None
  }

  /** The writes of the entries, in order. */
  function Writes(entries: seq<StationEntry>): (ws: seq<Option<((string, int), int)>>)
    ensures |ws| == |entries| && forall i :: 0 <= i < |entries| ==> ws[i] == Accepted(entries[i])
  {
    seq(|entries|, i requires 0 <= i < |entries| => Accepted(entries[i]))
  }

  /** The table after a sequence of upserts, applied in order; a missing
      write is skipped. */
  function Upserted(durations: map<(string, int), int>, ws: seq<Option<((string, int), int)>>): map<(string, int), int> {
    if ws == [] then durations
    else
      var before := Upserted(durations, ws[..|ws| - 1]);
      var w := ws[|ws| - 1];
      if w.Some? then before[w.value.0 := w.value.1] else before
  }

  /** The position of the last write to `key`, if any. */
  function LastWrite(ws: seq<Option<((string, int), int)>>, key: (string, int)): (r: Option<nat>)
    ensures r.None? <==> forall i :: 0 <= i < |ws| ==> ws[i].None? || ws[i].value.0 != key
    ensures r.Some? ==> r.value < |ws| && ws[r.value].Some? && ws[r.value].value.0 == key
                        && forall j :: r.value < j < |ws| ==> ws[j].None? || ws[j].value.0 != key
  {
    if ws == [] then None
    else
      var i := |ws| - 1;
      if ws[i].Some? && ws[i].value.0 == key then Some(i)
      else
        assert forall j :: 0 <= j < i ==> ws[..i][j] == ws[j];
        LastWrite(ws[..i], key)
  }

  /** After the upserts, each key holds the duration of the last write to it;
      a key nothing wrote keeps its old state. */
  lemma {:induction false} UpsertedLastWins(durations: map<(string, int), int>, ws: seq<Option<((string, int), int)>>, key: (string, int))
    ensures LastWrite(ws, key).Some? ==>
              key in Upserted(durations, ws) && Upserted(durations, ws)[key] == ws[LastWrite(ws, key).value].value.1
    ensures LastWrite(ws, key).None? ==>
              (key in Upserted(durations, ws) <==> key in durations)
              && (key in durations ==> Upserted(durations, ws)[key] == durations[key])
  {
    if ws != [] {
      var i := |ws| - 1;
      var init := ws[..i];
      UpsertedLastWins(durations, init, key);
      if !(ws[i].Some? && ws[i].value.0 == key) {
        assert forall j :: 0 <= j < i ==> init[j] == ws[j];
        assert LastWrite(ws, key) == LastWrite(init, key);
      }
    }
  }

  /** The batch upsert: for each key, the last accepted entry naming it wins,
      and refused entries leave no trace. */
  lemma BatchLastWins(durations: map<(string, int), int>, entries: seq<StationEntry>, key: (string, int))
    ensures var ws, after := Writes(entries), Upserted(durations, Writes(entries));
            (LastWrite(ws, key).Some? ==>
               var k := LastWrite(ws, key).value;
               CheckedEntry(entries[k]).Ok? && key in after && after[key] == CheckedEntry(entries[k]).value.2
               && (CheckedEntry(entries[k]).value.0, CheckedEntry(entries[k]).value.1) == key)
            && (LastWrite(ws, key).None? ==>
                  (key in after <==> key in durations) && (key in durations ==> after[key] == durations[key]))
  {
    UpsertedLastWins(durations, Writes(entries), key);
  }

  lemma WritesSnoc(entries: seq<StationEntry>, e: StationEntry)
    ensures Writes(entries + [e]) == Writes(entries) + [Accepted(e)]
  {
    var a, b := Writes(entries + [e]), Writes(entries) + [Accepted(e)];
    assert |a| == |b|;
    forall i | 0 <= i < |a| ensures a[i] == b[i] {
      if i < |entries| {
        assert (entries + [e])[i] == entries[i];
      }
    }
  }

  /** A refused entry leaves the table as it was. */
  lemma BatchSkipsRefused(durations: map<(string, int), int>, entries: seq<StationEntry>, e: StationEntry)
    requires CheckedEntry(e).Err?
    ensures Upserted(durations, Writes(entries + [e])) == Upserted(durations, Writes(entries))
  {
    var ws := Writes(entries);
    WritesSnoc(entries, e);
    assert (ws + [None])[..|ws|] == ws;
  }

  /** A row inserted under file name `f` is found by a lookup of that name. */
  lemma InsertedNameFound(docs: map<int, DocRow>, next: int, id: int, row: DocRow, f: string)
    requires IdsBelow(docs[id := row].Keys, next)
    requires row.filename == f
    ensures DocumentByFilename(docs[id := row], next, f).Some?
  {
    assert docs[id := row][id].filename == f;
  }

  class LegacyApp {
    const db: Database
    const settings: ModelSettings
    /** The names of the files in `upload_dir`. */
    var files: set<string>

    constructor (db: Database, settings: ModelSettings, files: set<string>)
      ensures this.db == db && this.settings == settings && this.files == files
    {
      this.db := db;
      this.settings := settings;
      this.files := files;
    }

    /** `upload_document`: a duplicate only when a file of that name is in the
        upload directory and a row has that file name (the first such row is
        reported); otherwise the file is (over)written and a new row is made,
        whatever its bytes. */
    method Upload(filename: string, now: nat) returns (r: Uploaded)
      requires db.Valid()
      modifies db, this`files
      ensures db.Valid()
      ensures db.locations == old(db.locations) && db.durations == old(db.durations)
      ensures r.duplicate <==> filename in old(files) && DocumentByFilename(old(db.docs), old(db.nextDocId), filename).Some?
      ensures r.duplicate ==>
                r == Uploaded(DocumentByFilename(old(db.docs), old(db.nextDocId), filename).value, filename, true)
                && db.docs == old(db.docs) && files == old(files)
      ensures !r.duplicate ==>
                r == Uploaded(old(db.nextDocId), filename, false) && r.id !in old(db.docs)
                && files == old(files) + {filename}
                && db.docs == old(db.docs)[r.id := DocRow(filename, now, Pending, None, Pending, None, 0, 0, None, None)]
      ensures filename in files && DocumentByFilename(db.docs, db.nextDocId, filename).Some?
    {
      if filename in files {
        var existing := DocumentByFilename(db.docs, db.nextDocId, filename);
        if existing.Some? {
          return Uploaded(existing.value, filename, true);
        }
      }
      files := files + {filename};
      var id := db.CreateDocument(filename, now);
      r := Uploaded(id, filename, false);
      InsertedNameFound(old(db.docs), db.nextDocId, id, db.docs[id], filename);
    }

    /** `cleanup_documents`, as in the later generation: a 500 (`None`) with
        nothing deleted when some row makes the listing raise. */
    method CleanupDocuments() returns (count: Option<nat>)
      requires db.Valid()
      modifies db`docs, this`files
      ensures db.Valid()
      ensures count.None? <==> ListingRaises(old(db.docs))
      ensures count.None? ==> db.docs == old(db.docs) && files == old(files)
      ensures count.Some? ==>
                db.docs == (map id | id in old(db.docs) && old(db.docs)[id].favorite == 1 :: old(db.docs)[id])
                && files == old(files) - (set id | id in NonFavourites(old(db.docs)) :: old(db.docs)[id].filename)
                && count.value == |NonFavourites(old(db.docs))|
    {
      files, count := Cleanup(db, files);
    }

    /** `set_station_duration`: a refused entry changes nothing; an accepted
        one is upserted under its stripped name. */
    method SetStationDuration(e: StationEntry) returns (r: Result<(string, int, int), StationError>)
      requires db.Valid()
      modifies db`durations
      ensures db.Valid()
      ensures r == CheckedEntry(e)
      ensures r.Err? ==> db.durations == old(db.durations)
      ensures r.Ok? ==> db.durations == old(db.durations)[(r.value.0, r.value.1) := r.value.2]
    {
      r := CheckedEntry(e);
      if r.Ok? {
        db.SetStationDuration(r.value.0, r.value.1, r.value.2);
      }
    }

    /** `set_station_durations_batch`: a body whose `durations` is not a list
        (`None`) is refused with 400 and nothing changes; otherwise the
        entries are upserted in order and refused ones skipped. */
    method SetStationDurationsBatch(entries: Option<seq<StationEntry>>) returns (accepted: bool)
      requires db.Valid()
      modifies db`durations
      ensures db.Valid()
      ensures accepted <==> entries.Some?
      ensures entries.None? ==> db.durations == old(db.durations)
      ensures entries.Some? ==> db.durations == Upserted(old(db.durations), Writes(entries.value))
    {
      if entries.None? {
        return false;
      }
      var es := entries.value;
      ghost var ws := Writes(es);
      var i := 0;
      while i < |es|
        invariant 0 <= i <= |es|
        invariant db.Valid()
        invariant db.durations == Upserted(old(db.durations), ws[..i])
      {
        assert ws[..i + 1][..i] == ws[..i];
        var c := CheckedEntry(es[i]);
        if c.Ok? {
          db.SetStationDuration(c.value.0, c.value.1, c.value.2);
        }
        i := i + 1;
      }
      assert ws[..i] == ws;
      accepted := true;
    }

    /** `delete_station_duration`: a blank name or a missing location is
        refused and nothing changes; otherwise the row for the stripped name
        and the location is removed. */
    method DeleteStationDuration(name: string, locationId: Option<int>) returns (r: Result<(string, int), StationError>)
      requires db.Valid()
      modifies db`durations
      ensures db.Valid()
      ensures IsBlank(name) ==> r == Err(BlankName)
      ensures !IsBlank(name) && locationId.None? ==> r == Err(MissingLocation)
      ensures r.Ok? <==> !IsBlank(name) && locationId.Some?
      ensures r.Err? ==> db.durations == old(db.durations)
      ensures r.Ok? ==> r.value == (Strip(name), locationId.value) && db.durations == old(db.durations) - {r.value}
    {
      BlankIffStripEmpty(name);
      var stripped := Strip(name);
      if stripped == [] {
        return Err(BlankName);
      }
      if locationId.None? {
        return Err(MissingLocation);
      }
      db.DeleteStationDuration(stripped, locationId.value);
      r := Ok((stripped, locationId.value));
    }
  }
}
