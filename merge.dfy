/**
 * The record merge of `loadMergedData`: the `vacancies` tree (building id
 * to vacancy key to vacancy entry) is flattened, in iteration order, into
 * one list of listing records, each completed with the facts the
 * `buildings` tree holds for its building.
 */
module Merge {
  import opened Wrappers

  datatype Coordinates = Coordinates(lat: real, lng: real)

  /**
   * One entry of the `buildings` tree. A field holds `None` when it is
   * absent or `null`; every text field is read through `|| ''`.
   */
  datatype BuildingFacts = BuildingFacts(
    address: Option<string>,
    nearbyStation: Option<string>,
    coordinates: Option<Coordinates>,
    region: Option<string>,
    completionYear: Option<string>,
    totalFloors: Option<string>,
    typicalFloorArea: Option<string>)

  /** One entry under a building of the `vacancies` tree: an object, or any other JSON value. */
  datatype RawVacancy =
    | NonObject
    | VacancyObject(
        buildingName: Option<string>,
        floor: Option<string>,
        exclusiveArea: Option<real>,
        rentArea: Option<real>,
        source: Option<string>,
        pageImageUrl: Option<string>,
        pageNum: Option<int>,
        documentId: Option<string>,
        moveInDate: Option<string>,
        publishDate: Option<string>,
        depositPy: Option<string>,
        rentPy: Option<string>,
        maintenancePy: Option<string>)

  /** The `vacancies` tree, its two levels as key/value sequences in iteration order. */
  type VacancyTree = seq<(string, seq<(string, RawVacancy)>)>

  /** One merged listing record. */
  datatype Listing = Listing(
    id: string,
    buildingId: string,
    vacancyKey: string,
    buildingName: string,
    floor: string,
    exclusiveArea: real,
    rentArea: real,
    source: string,
    pageImageUrl: string,
    pageNum: int,
    documentId: string,
    moveInDate: string,
    publishDate: string,
    depositPy: string,
    rentPy: string,
    maintenancePy: string,
    address: string,
    nearbyStation: string,
    coordinates: Option<Coordinates>,
    region: string,
    completionYear: string,
    totalFloors: string,
    typicalFloorArea: string)

  const SchemaKey: string := "_schema"

  /** JavaScript truthiness of an optional text value. */
  predicate Truthy(x: Option<string>) {
    x.Some? && x.value != ""
  }

  /** `x || ''`. */
  function TextOr(x: Option<string>): string {
    if x.Some? then x.value else ""
  }

  /** `x || 0` for a number. */
  function NumberOr(x: Option<real>): real {
    if x.Some? then x.value else 0.0
  }

  /** `x || 1`: a missing or zero page number reads as page 1. */
  function PageNumOr(x: Option<int>): int {
    if x.Some? && x.value != 0 then x.value else 1
  }

  /** `buildings[buildingId]`, absent when the tree has no such key. */
  function Lookup(buildings: map<string, BuildingFacts>, buildingId: string): Option<BuildingFacts> {
    if buildingId in buildings then Some(buildings[buildingId]) else None
  }

  /** The entry yields a record: not under `_schema`, an object, with a non-empty `buildingName`. */
  predicate Emits(buildingId: string, v: RawVacancy) {
    buildingId != SchemaKey && v.VacancyObject? && Truthy(v.buildingName)
  }

  function MakeListing(buildingId: string, vacancyKey: string, v: RawVacancy, info: Option<BuildingFacts>): Listing
    requires v.VacancyObject?
  {
    var b := info.GetOr(BuildingFacts(None, None, None, None, None, None, None));
    Listing(
      buildingId + "_" + vacancyKey, buildingId, vacancyKey,
      TextOr(v.buildingName), TextOr(v.floor),
      NumberOr(v.exclusiveArea), NumberOr(v.rentArea),
      TextOr(v.source), TextOr(v.pageImageUrl), PageNumOr(v.pageNum),
      TextOr(v.documentId), TextOr(v.moveInDate), TextOr(v.publishDate),
      TextOr(v.depositPy), TextOr(v.rentPy), TextOr(v.maintenancePy),
      TextOr(b.address), TextOr(b.nearbyStation), b.coordinates, TextOr(b.region),
      TextOr(b.completionYear), TextOr(b.totalFloors), TextOr(b.typicalFloorArea))
  }

  /** The records one building's entries yield, in entry order. */
  function BuildingRecords(buildingId: string, entries: seq<(string, RawVacancy)>, info: Option<BuildingFacts>): seq<Listing>
  {
    if entries == [] then []
    else
      var last := entries[|entries| - 1];
      BuildingRecords(buildingId, entries[..|entries| - 1], info) +
        (if Emits(buildingId, last.1) then [MakeListing(buildingId, last.0, last.1, info)] else [])
  }

  /** The merged list: every building's records, buildings in tree order. */
  function MergedRecords(vacancies: VacancyTree, buildings: map<string, BuildingFacts>): seq<Listing>
  {
    if vacancies == [] then []
    else
      var last := vacancies[|vacancies| - 1];
      MergedRecords(vacancies[..|vacancies| - 1], buildings) +
        BuildingRecords(last.0, last.1, Lookup(buildings, last.0))
  }

  /** The nested `for...of` loops of `loadMergedData`, pushing into `mergedList`. */
  method MergeData(vacancies: VacancyTree, buildings: map<string, BuildingFacts>) returns (merged: seq<Listing>)
    ensures merged == MergedRecords(vacancies, buildings)
  {
    merged := [];
    var i := 0;
    while i < |vacancies|
      invariant 0 <= i <= |vacancies|
      invariant merged == MergedRecords(vacancies[..i], buildings)
    {
      var (buildingId, vacancyData) := vacancies[i];
      assert vacancies[..i + 1][..i] == vacancies[..i];
      if buildingId == SchemaKey {
        SchemaSkipped(vacancyData, Lookup(buildings, buildingId));
      } else {
        var info := if buildingId in buildings then Some(buildings[buildingId]) else None;
        var j := 0;
        while j < |vacancyData|
          invariant 0 <= j <= |vacancyData|
          invariant merged == MergedRecords(vacancies[..i], buildings) + BuildingRecords(buildingId, vacancyData[..j], info)
        {
          var (vacancyKey, vacancy) := vacancyData[j];
          assert vacancyData[..j + 1][..j] == vacancyData[..j];
          if vacancy.VacancyObject? && Truthy(vacancy.buildingName) {
            merged := merged + [MakeListing(buildingId, vacancyKey, vacancy, info)];
          }
          j := j + 1;
        }
        assert vacancyData[..j] == vacancyData;
      }
      i := i + 1;
    }
    assert vacancies[..i] == vacancies;
  }

  /** The `_schema` entry yields nothing. */
  lemma {:induction false} SchemaSkipped(entries: seq<(string, RawVacancy)>, info: Option<BuildingFacts>)
    ensures BuildingRecords(SchemaKey, entries, info) == []
  {
    if entries != [] {
      SchemaSkipped(entries[..|entries| - 1], info);
    }
  }

  /** A building's records are exactly the listings of its emitting entries. */
  lemma {:induction false} BuildingRecordsMember(buildingId: string, entries: seq<(string, RawVacancy)>,
                                                 info: Option<BuildingFacts>, l: Listing)
    ensures l in BuildingRecords(buildingId, entries, info) <==>
      exists j :: 0 <= j < |entries| && Emits(buildingId, entries[j].1) &&
                  l == MakeListing(buildingId, entries[j].0, entries[j].1, info)
  {
    if entries != [] {
      var init := entries[..|entries| - 1];
      BuildingRecordsMember(buildingId, init, info, l);
      assert forall j :: 0 <= j < |init| ==> entries[j] == init[j];
    }
  }

  /**
   * A record is in the merged list exactly when some entry `(buildingId,
   * vacancyKey)` of the tree emits it, completed with its building's facts.
   */
  lemma {:induction false} MergedMember(vacancies: VacancyTree, buildings: map<string, BuildingFacts>, l: Listing)
    ensures l in MergedRecords(vacancies, buildings) <==>
      exists i, j :: 0 <= i < |vacancies| && 0 <= j < |vacancies[i].1| && Emits(vacancies[i].0, vacancies[i].1[j].1) &&
                     l == MakeListing(vacancies[i].0, vacancies[i].1[j].0, vacancies[i].1[j].1, Lookup(buildings, vacancies[i].0))
  {
    if vacancies != [] {
      var init, last := vacancies[..|vacancies| - 1], vacancies[|vacancies| - 1];
      MergedMember(init, buildings, l);
      BuildingRecordsMember(last.0, last.1, Lookup(buildings, last.0), l);
      assert forall i :: 0 <= i < |init| ==> vacancies[i] == init[i];
      if l in BuildingRecords(last.0, last.1, Lookup(buildings, last.0)) {
        var j :| 0 <= j < |last.1| && Emits(last.0, last.1[j].1) &&
                 l == MakeListing(last.0, last.1[j].0, last.1[j].1, Lookup(buildings, last.0));
        assert vacancies[|vacancies| - 1].1[j] == last.1[j];
      }
    }
  }

  /** Records keep tree order: the list for a concatenation of trees is the concatenation of their lists. */
  lemma {:induction false} MergedAppend(a: VacancyTree, b: VacancyTree, buildings: map<string, BuildingFacts>)
    ensures MergedRecords(a + b, buildings) == MergedRecords(a, buildings) + MergedRecords(b, buildings)
    decreases |b|
  {
    if b == [] {
      assert a + b == a;
    } else {
      assert (a + b)[..|a + b| - 1] == a + b[..|b| - 1];
      MergedAppend(a, b[..|b| - 1], buildings);
    }
  }

  /** Within a building, records keep entry order. */
  lemma {:induction false} BuildingRecordsAppend(buildingId: string, a: seq<(string, RawVacancy)>,
                                                 b: seq<(string, RawVacancy)>, info: Option<BuildingFacts>)
    ensures BuildingRecords(buildingId, a + b, info) == BuildingRecords(buildingId, a, info) + BuildingRecords(buildingId, b, info)
    decreases |b|
  {
    if b == [] {
      assert a + b == a;
    } else {
      assert (a + b)[..|a + b| - 1] == a + b[..|b| - 1];
      BuildingRecordsAppend(buildingId, a, b[..|b| - 1], info);
    }
  }

  /** One entry alone: one record exactly when it emits, and nothing otherwise. */
  lemma SingleEntry(buildingId: string, vacancyKey: string, v: RawVacancy, info: Option<BuildingFacts>)
    ensures BuildingRecords(buildingId, [(vacancyKey, v)], info) ==
      if Emits(buildingId, v) then [MakeListing(buildingId, vacancyKey, v, info)] else []
  {
    assert [(vacancyKey, v)][..0] == [];
  }

  /**
   * The fields of a record: its id joins building id and vacancy key with
   * `_`; a building the tree lacks leaves every building field empty and
   * the coordinates `null`; absent areas are 0 and an absent or zero page
   * number is 1.
   */
  lemma ListingDefaults(buildingId: string, vacancyKey: string, v: RawVacancy, info: Option<BuildingFacts>)
    requires v.VacancyObject?
    ensures var l := MakeListing(buildingId, vacancyKey, v, info);
      && l.id == buildingId + "_" + vacancyKey
      && l.buildingId == buildingId && l.vacancyKey == vacancyKey
      && (info.None? ==> l.address == "" && l.nearbyStation == "" && l.coordinates.None? && l.region == "" &&
                         l.completionYear == "" && l.totalFloors == "" && l.typicalFloorArea == "")
      && (v.exclusiveArea.None? ==> l.exclusiveArea == 0.0)
      && (v.rentArea.None? ==> l.rentArea == 0.0)
      && l.pageNum != 0
      && (v.pageNum.None? ==> l.pageNum == 1)
      && (Truthy(v.buildingName) ==> l.buildingName == v.buildingName.value)
  {
  }
}
