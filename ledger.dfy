/** The document ledger of the FastAPI generation: the SQLite tables
    `documents`, `locations` and `station_durations` held as maps keyed by
    their primary (or unique) keys, with the updates and queries of class
    `Database`. */
module Ledger {
  import opened Wrappers
  import opened Text
  import opened Json
  import opened Sorting

  /** The values the pipeline writes to `ocr_status` and `llm_status`. */
  datatype Stage = Pending | Processing | Done | Failed

  /** One row of `documents`. `upload_time` is an ISO timestamp of one fixed
      format, so its text order is its time order; it is held as a number. */
  datatype DocRow = DocRow(
    filename: string,
    uploadTime: nat,
    ocrStatus: Stage,
    ocrText: Option<string>,
    llmStatus: Stage,
    properties: Option<Props>,
    retryCount: int,
    favorite: int,
    extractedModel: Option<string>,
    fileHash: Option<string>)

  /** One row of `locations`. */
  datatype Location = Location(name: string, displayOrder: int, showInTag: int)

  /** One row of the join of `station_durations` with `locations`. */
  datatype TravelTime = TravelTime(
    stationName: string, locationId: int, duration: int, locationName: string, showInTag: int)

  /** Every key of `m` is a valid AUTOINCREMENT id below `next`. */
  predicate IdsBelow(ids: set<int>, next: int) {
    forall id :: id in ids ==> 1 <= id < next
  }

  /** The `UNIQUE` constraint on `locations.name`. */
  predicate UniqueNames(locations: map<int, Location>) {
    forall a, b :: a in locations && b in locations && a != b ==> locations[a].name != locations[b].name
  }

  // ---------------------------------------------------------------- queries

  /** The `WHERE` clause of `get_pending_documents`. */
  predicate IsPendingWork(r: DocRow) {
    r.ocrStatus == Pending
    || (r.ocrStatus == Done && r.llmStatus == Pending)
    || (r.ocrStatus == Processing && r.retryCount < 5)
    || (r.llmStatus == Processing && r.retryCount < 5)
  }

  /** `ORDER BY favorite DESC, upload_time ASC`, ties by id. */
  function PendingKey(docs: map<int, DocRow>): int -> Key {
    id => if id in docs then Key(-docs[id].favorite, docs[id].uploadTime, id, 0) else Key(0, 0, id, 0)
  }

  /** The candidates of `get_pending_documents`, in its order. */
  function PendingOrder(docs: map<int, DocRow>, next: int): (r: seq<int>)
    requires IdsBelow(docs.Keys, next)
    ensures Distinct(r) && SortedBy(r, PendingKey(docs))
    ensures forall id :: id in r <==> id in docs && IsPendingWork(docs[id])
    ensures forall i :: 0 <= i < |r| ==> r[i] in docs && IsPendingWork(docs[r[i]])
  {
    OrderBy(set id | id in docs.Keys && IsPendingWork(docs[id]), 1, next, PendingKey(docs))
  }

  /** `get_pending_documents` (`LIMIT 10`): at most ten distinct rows of pending work. */
  function PendingDocuments(docs: map<int, DocRow>, next: int): (r: seq<int>)
    requires IdsBelow(docs.Keys, next)
    ensures |r| <= 10 && Distinct(r)
    ensures forall i :: 0 <= i < |r| ==> r[i] in docs && IsPendingWork(docs[r[i]])
  {
    var r := Take(PendingOrder(docs, next), 10);
    assert forall i :: 0 <= i < |r| ==> r[i] == PendingOrder(docs, next)[i];
    r
  }

  /** The selected rows come favourites first, and oldest first among equal
      favourite values. */
  lemma PendingDocumentsOrdered(docs: map<int, DocRow>, next: int, i: int, j: int)
    requires IdsBelow(docs.Keys, next)
    requires 0 <= i < j < |PendingDocuments(docs, next)|
    ensures var a, b := docs[PendingDocuments(docs, next)[i]], docs[PendingDocuments(docs, next)[j]];
      a.favorite > b.favorite || (a.favorite == b.favorite && a.uploadTime <= b.uploadTime)
  {
    var all := PendingOrder(docs, next);
    var r := PendingDocuments(docs, next);
    assert r[i] == all[i] && r[j] == all[j];
    assert KeyLeq(PendingKey(docs)(all[i]), PendingKey(docs)(all[j]));
  }

  /** A row of pending work is left out only when ten rows were selected, each
      of which sorts no later than it. */
  lemma PendingDocumentsComplete(docs: map<int, DocRow>, next: int, id: int)
    requires IdsBelow(docs.Keys, next)
    requires id in docs && IsPendingWork(docs[id]) && id !in PendingDocuments(docs, next)
    ensures |PendingDocuments(docs, next)| == 10
    ensures forall i :: 0 <= i < 10 ==>
              KeyLeq(PendingKey(docs)(PendingDocuments(docs, next)[i]), PendingKey(docs)(id))
  {
    var all := PendingOrder(docs, next);
    assert id in all;
    var k :| 0 <= k < |all| && all[k] == id;
    TakeLeavesLater(all, PendingKey(docs), k);
  }

  /** An element `Take` leaves out of a sorted sequence comes after all ten
      it takes. */
  lemma TakeLeavesLater(all: seq<int>, key: int -> Key, k: nat)
    requires SortedBy(all, key) && k < |all| && all[k] !in Take(all, 10)
    ensures |Take(all, 10)| == 10
    ensures forall i :: 0 <= i < 10 ==> KeyLeq(key(Take(all, 10)[i]), key(all[k]))
  {
    var r := Take(all, 10);
    assert forall i :: 0 <= i < |r| ==> r[i] == all[i] && r[i] in r;
    assert k >= |r|;
  }

  /** The `CASE` rank of `get_all_documents`. */
  function StatusRank(r: DocRow): (rank: int)
    ensures 1 <= rank <= 4
  {
    if r.llmStatus == Done then 1
    else if r.ocrStatus == Pending || r.llmStatus == Pending then 2
    else if r.ocrStatus == Processing || r.llmStatus == Processing then 3
    else 4
  }

  /** `ORDER BY favorite DESC, rank, upload_time DESC`, ties by id. */
  function ListingKey(docs: map<int, DocRow>): int -> Key {
    id => if id in docs then Key(-docs[id].favorite, StatusRank(docs[id]), -(docs[id].uploadTime as int), id)
          else Key(0, 0, 0, id)
  }

  /** `get_all_documents`: every document once, in listing order. */
  function AllDocuments(docs: map<int, DocRow>, next: int): (r: seq<int>)
    requires IdsBelow(docs.Keys, next)
    ensures Distinct(r) && forall id :: id in r <==> id in docs
    ensures SortedBy(r, ListingKey(docs))
  {
    OrderBy(docs.Keys, 1, next, ListingKey(docs))
  }

  /** In the listing, favourites come before non-favourites; among equal
      favourite values, finished documents come before unfinished ones, and
      among equal rank newer uploads come first. */
  lemma AllDocumentsOrder(docs: map<int, DocRow>, next: int, i: int, j: int)
    requires IdsBelow(docs.Keys, next)
    requires 0 <= i < j < |AllDocuments(docs, next)|
    ensures var a, b := docs[AllDocuments(docs, next)[i]], docs[AllDocuments(docs, next)[j]];
      a.favorite >= b.favorite
      && (a.favorite == b.favorite ==> StatusRank(a) <= StatusRank(b))
      && (a.favorite == b.favorite && StatusRank(a) == StatusRank(b) ==> a.uploadTime >= b.uploadTime)
  {
    var r := AllDocuments(docs, next);
    assert r[i] in r && r[j] in r;
    assert KeyLeq(ListingKey(docs)(r[i]), ListingKey(docs)(r[j]));
  }

  /** `get_document_by_hash`: the first row (in id order) whose `file_hash` is `h`. */
  function DocumentByHash(docs: map<int, DocRow>, next: int, h: string): (r: Option<int>)
    requires IdsBelow(docs.Keys, next)
    ensures r.None? <==> forall id :: id in docs ==> docs[id].fileHash != Some(h)
    ensures r.Some? ==>
              r.value in docs && docs[r.value].fileHash == Some(h)
              && forall id :: id in docs && id < r.value ==> docs[id].fileHash != Some(h)
  {
    FirstDoc(docs, 1, next, (row: DocRow) => row.fileHash == Some(h))
  }

  /** `get_document_by_filename`: the first row (in id order) whose `filename` is `f`. */
  function DocumentByFilename(docs: map<int, DocRow>, next: int, f: string): (r: Option<int>)
    requires IdsBelow(docs.Keys, next)
    ensures r.None? <==> forall id :: id in docs ==> docs[id].filename != f
    ensures r.Some? ==>
              r.value in docs && docs[r.value].filename == f
              && forall id :: id in docs && id < r.value ==> docs[id].filename != f
  {
    FirstDoc(docs, 1, next, (row: DocRow) => row.filename == f)
  }

  /** The smallest id in `[lo, hi)` whose row satisfies `p`. */
  function FirstDoc(docs: map<int, DocRow>, lo: int, hi: int, p: DocRow -> bool): (r: Option<int>)
    ensures r.None? <==> forall id :: id in docs && lo <= id < hi ==> !p(docs[id])
    ensures r.Some? ==>
              lo <= r.value < hi && r.value in docs && p(docs[r.value])
              && forall id :: id in docs && lo <= id < r.value ==> !p(docs[id])
    decreases hi - lo
  {
    if hi <= lo then None
    else if lo in docs && p(docs[lo]) then Some(lo)
    else FirstDoc(docs, lo + 1, hi, p)
  }

  /** The largest `display_order` among locations with id in `[lo, hi)`, if any. */
  function MaxDisplayOrder(locations: map<int, Location>, lo: int, hi: int): (r: Option<int>)
    ensures r.None? <==> forall id :: id in locations ==> !(lo <= id < hi)
    ensures r.Some? ==>
              (exists id :: id in locations && lo <= id < hi && locations[id].displayOrder == r.value)
              && forall id :: id in locations && lo <= id < hi ==> locations[id].displayOrder <= r.value
    decreases hi - lo
  {
    if hi <= lo then None
    else
      var rest := MaxDisplayOrder(locations, lo + 1, hi);
      if lo !in locations then rest
      else if rest.Some? && rest.value >= locations[lo].displayOrder then rest
      else Some(locations[lo].displayOrder)
  }

  /** `COALESCE((SELECT MAX(display_order) + 1 FROM locations), 1)`. */
  function NextDisplayOrder(locations: map<int, Location>, next: int): (r: int)
    requires IdsBelow(locations.Keys, next)
    ensures (forall id :: id !in locations) ==> r == 1
    ensures forall id :: id in locations ==> locations[id].displayOrder < r
    ensures (exists id :: id in locations) ==> exists id :: id in locations && locations[id].displayOrder == r - 1
  {
    match MaxDisplayOrder(locations, 1, next)
    case None => 1
    case Some(m) => m + 1
  }

  /** `ORDER BY l.display_order, l.id` */
  function LocationKey(locations: map<int, Location>): int -> Key {
    id => if id in locations then Key(locations[id].displayOrder, id, 0, 0) else Key(0, id, 0, 0)
  }

  /** `get_travel_times_for_station(name)`: the duration rows of station
      `name` whose location exists, joined with that location, in location
      display order. */
  function TravelTimesFor(durations: map<(string, int), int>, locations: map<int, Location>, next: int, name: string)
    : (r: seq<TravelTime>)
    requires IdsBelow(locations.Keys, next)
    ensures forall i :: 0 <= i < |r| ==>
              var t := r[i];
              t.stationName == name && t.locationId in locations && (name, t.locationId) in durations
              && t.duration == durations[(name, t.locationId)]
              && t.locationName == locations[t.locationId].name && t.showInTag == locations[t.locationId].showInTag
    ensures forall lid :: lid in locations && (name, lid) in durations ==>
              exists i :: 0 <= i < |r| && r[i].locationId == lid
    ensures forall i, j :: 0 <= i < j < |r| ==>
              r[i].locationId != r[j].locationId
              && locations[r[i].locationId].displayOrder <= locations[r[j].locationId].displayOrder
  {
    var lids := set lid | lid in locations.Keys && (name, lid) in durations;
    var order := OrderBy(lids, 1, next, LocationKey(locations));
    JoinedTimes(order, name, durations, locations);
    JoinLocations(order, name, durations, locations)
  }

  /** Joining a sorted list of distinct locations that have a time for the
      station gives one entry per location, in the same order, each with
      that location's time, name and tag flag. */
  lemma JoinedTimes(order: seq<int>, name: string, durations: map<(string, int), int>, locations: map<int, Location>)
    requires forall k :: 0 <= k < |order| ==> order[k] in locations && (name, order[k]) in durations
    requires SortedBy(order, LocationKey(locations)) && Distinct(order)
    requires forall lid :: lid in locations && (name, lid) in durations ==> lid in order
    ensures var r := JoinLocations(order, name, durations, locations);
            (forall i :: 0 <= i < |r| ==>
              var t := r[i];
              t.stationName == name && t.locationId in locations && (name, t.locationId) in durations
              && t.duration == durations[(name, t.locationId)]
              && t.locationName == locations[t.locationId].name && t.showInTag == locations[t.locationId].showInTag)
            && (forall lid :: lid in locations && (name, lid) in durations ==>
                 exists i :: 0 <= i < |r| && r[i].locationId == lid)
            && (forall i, j :: 0 <= i < j < |r| ==>
                 r[i].locationId != r[j].locationId
                 && locations[r[i].locationId].displayOrder <= locations[r[j].locationId].displayOrder)
  {
    var r := JoinLocations(order, name, durations, locations);
    forall lid | lid in locations && (name, lid) in durations
      ensures exists i :: 0 <= i < |r| && r[i].locationId == lid
    {
      var k :| 0 <= k < |order| && order[k] == lid;
      assert r[k].locationId == lid;
    }
    forall i, j | 0 <= i < j < |r|
      ensures locations[r[i].locationId].displayOrder <= locations[r[j].locationId].displayOrder
    {
      assert KeyLeq(LocationKey(locations)(order[i]), LocationKey(locations)(order[j]));
    }
  }

  /** The joined row for each location id of `order`, in that order. */
  function JoinLocations(order: seq<int>, name: string, durations: map<(string, int), int>,
                         locations: map<int, Location>): (r: seq<TravelTime>)
    requires forall k :: 0 <= k < |order| ==> order[k] in locations && (name, order[k]) in durations
    ensures |r| == |order|
    ensures forall k :: 0 <= k < |order| ==>
              r[k] == TravelTime(name, order[k], durations[(name, order[k])],
                                 locations[order[k]].name, locations[order[k]].showInTag)
  {
    seq(|order|, k requires 0 <= k < |order| =>
      TravelTime(name, order[k], durations[(name, order[k])], locations[order[k]].name, locations[order[k]].showInTag))
  }

  /** The rows `get_doc_station_durations` gathers for a list of station
      objects: for each station whose "name" is a non-blank string, that
      station's travel times, in list order. None when a station is not an
      object (its `.get` raises, and the error is not caught). */
  function StationListDurations(stations: seq<Value>, durations: map<(string, int), int>,
                                locations: map<int, Location>, next: int): (r: Option<seq<TravelTime>>)
    requires IdsBelow(locations.Keys, next)
    ensures r.None? <==> exists i :: 0 <= i < |stations| && !stations[i].Obj?
  {
    if stations == [] then Some([])
    else
      var init := StationListDurations(stations[..|stations| - 1], durations, locations, next);
      var last := stations[|stations| - 1];
      assert forall i :: 0 <= i < |stations| - 1 ==> stations[..|stations| - 1][i] == stations[i];
      if init.None? || !last.Obj? then None
      else Some(init.value + StationRows(last, durations, locations, next))
  }

  /** The station name `get_doc_station_durations` looks up: the object's
      "name" when it is a non-blank string. */
  function StationName(station: Value): (r: Option<string>)
    requires station.Obj?
    ensures var name := ObjGet(station.entries, "name");
            (r.Some? <==> name.Str? && !IsBlank(name.s)) && (r.Some? ==> r.value == name.s)
  {
    var name := ObjGet(station.entries, "name");
    if name.Str? && name.s != "" && !IsBlank(name.s) then Some(name.s) else None
  }

  /** The rows one station object contributes. */
  function StationRows(station: Value, durations: map<(string, int), int>, locations: map<int, Location>, next: int)
    : seq<TravelTime>
    requires IdsBelow(locations.Keys, next)
    requires station.Obj?
  {
    match StationName(station)
    case Some(name) => TravelTimesFor(durations, locations, next, name)
    case None => []
  }

  /** The looked-up names of a list of station objects. */
  function NamesOf(stations: seq<Value>): (r: set<string>)
    ensures forall n :: n in r ==> !IsBlank(n)
  {
    if stations == [] then {}
    else
      var last := stations[|stations| - 1];
      NamesOf(stations[..|stations| - 1])
        + if last.Obj? && StationName(last).Some? then {StationName(last).value} else {}
  }

  /** A joined row agrees with the tables. */
  predicate Agrees(t: TravelTime, durations: map<(string, int), int>, locations: map<int, Location>) {
    t.locationId in locations && (t.stationName, t.locationId) in durations
    && t.duration == durations[(t.stationName, t.locationId)]
    && t.locationName == locations[t.locationId].name
  }

  /** Every row gathered for a document is for one of its stations' looked-up
      names, and agrees with the tables. */
  lemma {:induction false} StationListDurationsSound(stations: seq<Value>, durations: map<(string, int), int>,
                                                     locations: map<int, Location>, next: int)
    requires IdsBelow(locations.Keys, next)
    requires StationListDurations(stations, durations, locations, next).Some?
    ensures var rows := StationListDurations(stations, durations, locations, next).value;
      forall k :: 0 <= k < |rows| ==> rows[k].stationName in NamesOf(stations) && Agrees(rows[k], durations, locations)
  {
    if stations != [] {
      var front := stations[..|stations| - 1];
      var last := stations[|stations| - 1];
      StationListDurationsSound(front, durations, locations, next);
      var init := StationListDurations(front, durations, locations, next).value;
      var tail := StationRows(last, durations, locations, next);
      var names := NamesOf(stations);
      assert NamesOf(front) <= names;
      ForallConcat(init, tail, (t: TravelTime) => t.stationName in names && Agrees(t, durations, locations));
    }
  }

  /** The rows gathered for the first j stations are a prefix of those
      gathered for the whole list. */
  lemma {:induction false} StationListDurationsPrefix(stations: seq<Value>, durations: map<(string, int), int>,
                                                      locations: map<int, Location>, next: int, j: nat)
    requires IdsBelow(locations.Keys, next)
    requires StationListDurations(stations, durations, locations, next).Some?
    requires j <= |stations|
    ensures StationListDurations(stations[..j], durations, locations, next).Some?
    ensures StationListDurations(stations[..j], durations, locations, next).value
            <= StationListDurations(stations, durations, locations, next).value
  {
    if j < |stations| {
      var front := stations[..|stations| - 1];
      assert StationListDurations(stations, durations, locations, next).value
             == StationListDurations(front, durations, locations, next).value
                + StationRows(stations[|stations| - 1], durations, locations, next);
      StationListDurationsPrefix(front, durations, locations, next, j);
      assert front[..j] == stations[..j];
    } else {
      assert stations[..j] == stations;
    }
  }

  /** Every station object contributes all its travel times, as one block,
      right after the rows of the stations before it: a station whose "name"
      is a non-blank string brings every row `TravelTimesFor` gives its
      name, in display order, and the blocks follow the list order. */
  lemma {:induction false} StationListDurationsComplete(stations: seq<Value>, durations: map<(string, int), int>,
                                     locations: map<int, Location>, next: int, i: nat)
    requires IdsBelow(locations.Keys, next)
    requires StationListDurations(stations, durations, locations, next).Some?
    requires i < |stations|
    ensures stations[i].Obj?
    ensures var rows := StationListDurations(stations, durations, locations, next).value;
            var off := |StationListDurations(stations[..i], durations, locations, next).value|;
            var own := StationRows(stations[i], durations, locations, next);
            off + |own| <= |rows| && rows[off..off + |own|] == own
            && (StationName(stations[i]).Some? ==>
                  own == TravelTimesFor(durations, locations, next, StationName(stations[i]).value))
  {
    StationListDurationsPrefix(stations, durations, locations, next, i + 1);
    StationListDurationsPrefix(stations, durations, locations, next, i);
    var rows := StationListDurations(stations, durations, locations, next).value;
    var front := stations[..i + 1];
    assert front[..|front| - 1] == stations[..i];
    assert front[|front| - 1] == stations[i];
    var before := StationListDurations(stations[..i], durations, locations, next).value;
    var own := StationRows(stations[i], durations, locations, next);
    var upto := StationListDurations(front, durations, locations, next).value;
    assert upto == before + own;
    assert upto <= rows;
    assert rows[|before|..|before| + |own|] == upto[|before|..] == own;
  }

  /** `get_doc_station_durations` raises for this row: its properties hold
      a "stations" list with a member that is not an object, whose `.get`
      raises an `AttributeError` the handler's `except` does not name.
      `get_document`, `get_document_by_hash` and `get_all_documents` all
      end with this read, so they raise with it. */
  predicate StationsRaise(r: DocRow) {
    r.properties.Some?
    && var stations := Get(r.properties.value, "stations");
       stations.List? && exists i :: 0 <= i < |stations.items| && !stations.items[i].Obj?
  }

  /** Some row makes `get_all_documents` raise. */
  predicate ListingRaises(docs: map<int, DocRow>) {
    exists id :: id in docs && StationsRaise(docs[id])
  }

  /** The position of the last occurrence of `x` in `s`. */
  function LastIndexOf(s: seq<int>, x: int): (r: int)
    requires x in s
    ensures 0 <= r < |s| && s[r] == x
    ensures forall k :: r < k < |s| ==> s[k] != x
  {
    if s[|s| - 1] == x then |s| - 1
    else
      assert x in s[..|s| - 1] by {
        var k :| 0 <= k < |s| && s[k] == x;
        assert s[..|s| - 1][k] == x;
      }
      LastIndexOf(s[..|s| - 1], x)
  }

  /** With no repeated id, `reorder_locations` gives the id at position i the
      display order i + 1. */
  lemma LastIndexOfDistinct(s: seq<int>, i: int)
    requires Distinct(s) && 0 <= i < |s|
    ensures LastIndexOf(s, s[i]) == i
  {
  }

  /** The favourite value `toggle_favorite` writes over `v`: 0 becomes 1,
      anything else 0. */
  function Toggled(v: int): (r: int)
    ensures r == 0 || r == 1
    ensures r == 1 <==> v == 0
  {
    if v == 0 then 1 else 0
  }

  /** Toggling twice gives back a 0/1 value; any other value is lost, as
      the first toggle turns it into 0. */
  lemma ToggleTwice(v: int)
    ensures v == 0 || v == 1 ==> Toggled(Toggled(v)) == v
    ensures v != 0 && v != 1 ==> Toggled(Toggled(v)) == 1
  {
  }

  // ---------------------------------------------------------------- tables

  class Database {
    var docs: map<int, DocRow>
    var nextDocId: int
    var locations: map<int, Location>
    var nextLocationId: int
    var durations: map<(string, int), int>

    ghost predicate Valid()
      reads this
    {
      1 <= nextDocId && IdsBelow(docs.Keys, nextDocId)
      && 1 <= nextLocationId && IdsBelow(locations.Keys, nextLocationId)
      && UniqueNames(locations)
    }

    constructor ()
      ensures Valid()
      ensures docs == map[] && locations == map[] && durations == map[]
    {
      docs, nextDocId := map[], 1;
      locations, nextLocationId := map[], 1;
      durations := map[];
    }

    /** `create_document`: a new row with every other column at its default. */
    method CreateDocument(filename: string, now: nat) returns (id: int)
      requires Valid()
      modifies this
      ensures Valid()
      ensures id >= 1 && id !in old(docs) && id == old(nextDocId)
      ensures id in docs && docs[id] == DocRow(filename, now, Pending, None, Pending, None, 0, 0, None, None)
      ensures docs == old(docs)[id := docs[id]]
      ensures locations == old(locations) && durations == old(durations) && nextLocationId == old(nextLocationId)
    {
      id := nextDocId;
      docs := docs[id := DocRow(filename, now, Pending, None, Pending, None, 0, 0, None, None)];
      nextDocId := nextDocId + 1;
    }

    /** `update_ocr_status`: writes `ocr_status`, and `ocr_text` only when text is given. */
    method UpdateOcrStatus(id: int, status: Stage, text: Option<string>)
      requires Valid()
      modifies this`docs
      ensures Valid()
      ensures id !in old(docs) ==> docs == old(docs)
      ensures id in old(docs) ==> docs == old(docs)[id := old(docs)[id].(
                ocrStatus := status, ocrText := if text.Some? then text else old(docs)[id].ocrText)]
    {
      if id in docs {
        var row := docs[id];
        if text.Some? {
          docs := docs[id := row.(ocrStatus := status, ocrText := text)];
        } else {
          docs := docs[id := row.(ocrStatus := status)];
        }
      }
    }

    /** `update_llm_status`: writes `llm_status` and `extracted_model`, and
        `properties` only when properties are given. */
    method UpdateLlmStatus(id: int, status: Stage, properties: Option<Props>, model: Option<string>)
      requires Valid()
      modifies this`docs
      ensures Valid()
      ensures id !in old(docs) ==> docs == old(docs)
      ensures id in old(docs) ==> docs == old(docs)[id := old(docs)[id].(
                llmStatus := status, extractedModel := model,
                properties := if properties.Some? then properties else old(docs)[id].properties)]
    {
      if id in docs {
        var row := docs[id];
        if properties.Some? {
          docs := docs[id := row.(llmStatus := status, properties := properties, extractedModel := model)];
        } else {
          docs := docs[id := row.(llmStatus := status, extractedModel := model)];
        }
      }
    }

    /** `increment_retry` */
    method IncrementRetry(id: int)
      requires Valid()
      modifies this`docs
      ensures Valid()
      ensures id !in old(docs) ==> docs == old(docs)
      ensures id in old(docs) ==> docs == old(docs)[id := old(docs)[id].(retryCount := old(docs)[id].retryCount + 1)]
    {
      if id in docs {
        docs := docs[id := docs[id].(retryCount := docs[id].retryCount + 1)];
      }
    }

    /** `toggle_favorite`: 0 becomes 1, anything else 0; a missing id gives 0. */
    method ToggleFavorite(id: int) returns (f: int)
      requires Valid()
      modifies this`docs
      ensures Valid()
      ensures f == (if id in old(docs) then Toggled(old(docs)[id].favorite) else 0)
      ensures id !in old(docs) ==> docs == old(docs)
      ensures id in old(docs) ==> docs == old(docs)[id := old(docs)[id].(favorite := f)]
    {
      if id in docs {
        f := Toggled(docs[id].favorite);
        docs := docs[id := docs[id].(favorite := f)];
      } else {
        f := 0;
      }
    }

    /** `delete_document` (the file itself is removed by the caller's file store). */
    method DeleteDocument(id: int)
      requires Valid()
      modifies this`docs
      ensures Valid()
      ensures docs == old(docs) - {id}
    {
      docs := docs - {id};
    }

    /** `reset_llm_status` */
    method ResetLlmStatus(id: int)
      requires Valid()
      modifies this`docs
      ensures Valid()
      ensures id !in old(docs) ==> docs == old(docs)
      ensures id in old(docs) ==> docs == old(docs)[id := old(docs)[id].(llmStatus := Pending, properties := None)]
    {
      if id in docs {
        docs := docs[id := docs[id].(llmStatus := Pending, properties := None)];
      }
    }

    /** `reset_ocr_status` */
    method ResetOcrStatus(id: int)
      requires Valid()
      modifies this`docs
      ensures Valid()
      ensures id !in old(docs) ==> docs == old(docs)
      ensures id in old(docs) ==> docs == old(docs)[id := old(docs)[id].(
                ocrStatus := Pending, ocrText := None, llmStatus := Pending, properties := None)]
    {
      if id in docs {
        docs := docs[id := docs[id].(ocrStatus := Pending, ocrText := None, llmStatus := Pending, properties := None)];
      }
    }

    /** `update_file_hash` */
    method UpdateFileHash(id: int, h: string)
      requires Valid()
      modifies this`docs
      ensures Valid()
      ensures id !in old(docs) ==> docs == old(docs)
      ensures id in old(docs) ==> docs == old(docs)[id := old(docs)[id].(fileHash := Some(h))]
    {
      if id in docs {
        docs := docs[id := docs[id].(fileHash := Some(h))];
      }
    }

    /** `add_location`: a new location after all others in display order.
        A name already present violates `UNIQUE` and nothing is inserted. */
    method AddLocation(name: string) returns (id: Option<int>)
      requires Valid()
      modifies this`locations, this`nextLocationId
      ensures Valid()
      ensures id.None? <==> exists l :: l in old(locations) && old(locations)[l].name == name
      ensures id.None? ==> locations == old(locations) && nextLocationId == old(nextLocationId)
      ensures id.Some? ==>
                id.value == old(nextLocationId) && id.value !in old(locations)
                && locations == old(locations)[id.value := Location(name, NextDisplayOrder(old(locations), old(nextLocationId)), 0)]
    {
      if exists l :: l in locations && locations[l].name == name {
        id := None;
      } else {
        var order := NextDisplayOrder(locations, nextLocationId);
        id := Some(nextLocationId);
        locations := locations[nextLocationId := Location(name, order, 0)];
        nextLocationId := nextLocationId + 1;
      }
    }

    /** `delete_location`: removes the location and its station durations. */
    method DeleteLocation(id: int)
      requires Valid()
      modifies this`locations, this`durations
      ensures Valid()
      ensures locations == old(locations) - {id}
      ensures forall k :: k in durations <==> k in old(durations) && k.1 != id
      ensures forall k :: k in durations ==> durations[k] == old(durations)[k]
    {
      locations := locations - {id};
      durations := map k | k in durations && k.1 != id :: durations[k];
    }

    /** `reorder_locations`: the location at list position i gets display
        order i + 1; for an id listed twice the later position wins; ids not
        listed, and ids with no location, change nothing. */
    method ReorderLocations(ids: seq<int>)
      requires Valid()
      modifies this`locations
      ensures Valid()
      ensures locations.Keys == old(locations).Keys
      ensures forall l :: l in locations ==>
                locations[l] == if l in ids then old(locations)[l].(displayOrder := LastIndexOf(ids, l) + 1)
                                else old(locations)[l]
    {
      var i := 0;
      while i < |ids|
        invariant 0 <= i <= |ids|
        invariant Valid()
        invariant locations.Keys == old(locations).Keys
        invariant forall l :: l in locations ==>
                    locations[l] == if l in ids[..i] then old(locations)[l].(displayOrder := LastIndexOf(ids[..i], l) + 1)
                                    else old(locations)[l]
      {
        var lid := ids[i];
        if lid in locations {
          locations := locations[lid := locations[lid].(displayOrder := i + 1)];
        }
        assert ids[..i + 1] == ids[..i] + [lid];
        forall l | l in locations
          ensures locations[l] == if l in ids[..i + 1] then old(locations)[l].(displayOrder := LastIndexOf(ids[..i + 1], l) + 1)
                                  else old(locations)[l]
        {
          if l == lid {
            assert LastIndexOf(ids[..i + 1], l) == i;
          } else {
            assert l in ids[..i + 1] <==> l in ids[..i];
            if l in ids[..i] {
              assert ids[..i] == ids[..i + 1][..i];
              assert LastIndexOf(ids[..i + 1], l) == LastIndexOf(ids[..i], l);
            }
          }
        }
        i := i + 1;
      }
      assert ids[..i] == ids;
    }

    /** `set_station_duration`: an upsert on the (station name, location id) key. */
    method SetStationDuration(station: string, location: int, duration: int)
      requires Valid()
      modifies this`durations
      ensures Valid()
      ensures durations == old(durations)[(station, location) := duration]
    {
      durations := durations[(station, location) := duration];
    }

    /** `delete_station_duration` */
    method DeleteStationDuration(station: string, location: int)
      requires Valid()
      modifies this`durations
      ensures Valid()
      ensures durations == old(durations) - {(station, location)}
    {
      durations := durations - {(station, location)};
    }

    /** `get_doc_station_durations`: the travel times of every station listed in
        the document's "stations" property. A missing document, NULL
        properties, or a "stations" value that is not a non-empty list give
        no rows; a station that is not an object raises (None). */
    method DocStationDurations(id: int) returns (rows: Option<seq<TravelTime>>)
      requires Valid()
      ensures rows.None? <==> id in docs && StationsRaise(docs[id])
      ensures id !in docs || docs[id].properties.None? ==> rows == Some([])
      ensures id in docs && docs[id].properties.Some? ==>
                var stations := Get(docs[id].properties.value, "stations");
                rows == if stations.List? && stations.items != []
                        then StationListDurations(stations.items, durations, locations, nextLocationId)
                        else Some([])
    {
      if id !in docs || docs[id].properties.None? {
        return Some([]);
      }
      var stations := Get(docs[id].properties.value, "stations");
      if !(stations.List? && stations.items != []) {
        return Some([]);
      }
      var items := stations.items;
      var all: seq<TravelTime> := [];
      var i := 0;
      while i < |items|
        invariant 0 <= i <= |items|
        invariant StationListDurations(items[..i], durations, locations, nextLocationId) == Some(all)
      {
        if !items[i].Obj? {
          return None;
        }
        assert items[..i + 1][..i] == items[..i];
        all := all + StationRows(items[i], durations, locations, nextLocationId);
        i := i + 1;
      }
      assert items[..i] == items;
      rows := Some(all);
    }
  }
}
