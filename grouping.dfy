/**
 * The views that group the merged list by document, issue or publisher:
 * `getDocumentPages`, `getArchivesBySourceAndBuilding`,
 * `getOtherSourcesForBuilding`, `getAllForBuilding` and
 * `getLastUpdateTime`. Dates are month indices from `ParsePublishDate`;
 * every sort is the stable `SortDesc`, so records that compare equal
 * keep their list order.
 */
module Grouping {
  import opened Wrappers
  import opened Collections
  import opened Merge
  import opened PublishDates

  function DateOf(item: Listing): int { ParsePublishDate(item.publishDate) }

  function SourceOf(item: Listing): string { item.source }

  function PageNumOf(item: Listing): int { item.pageNum }

  predicate HasImage(item: Listing) { item.pageImageUrl != "" }

  // ----- pages of one document -----

  predicate OnDocument(item: Listing, documentId: string) {
    item.documentId == documentId && HasImage(item)
  }

  function DocumentTest(documentId: string): Listing -> bool {
    item => OnDocument(item, documentId)
  }

  /** The pages of one document, in list order and before the sort. */
  function DocumentPageList(data: seq<Listing>, documentId: string): seq<Listing> {
    Filter(data, DocumentTest(documentId))
  }

  /**
   * Sorted by ascending page number (the comparator
   * `(a.pageNum || 0) - (b.pageNum || 0)`; `|| 0` leaves every number as
   * it is), then the first record per page number.
   */
  function DocumentPages(data: seq<Listing>, documentId: string): seq<Listing> {
    if documentId == "" then []
    else FirstPerKey(SortDesc(DocumentPageList(data, documentId), Negate(PageNumOf)), PageNumOf)
  }

  method GetDocumentPages(data: seq<Listing>, documentId: string) returns (uniquePages: seq<Listing>)
    ensures uniquePages == DocumentPages(data, documentId)
  {
    if documentId == "" {
      return [];
    }
    var pages := SortDesc(Filter(data, DocumentTest(documentId)), Negate(PageNumOf));
    uniquePages := KeepFirstPerKey(pages, PageNumOf);
  }

  /**
   * No document id gives nothing; every page belongs to the document and
   * has an image, and page numbers strictly increase.
   */
  lemma DocumentPagesShape(data: seq<Listing>, documentId: string)
    ensures documentId == "" ==> DocumentPages(data, documentId) == []
    ensures var r := DocumentPages(data, documentId);
      forall i :: 0 <= i < |r| ==> r[i] in data && r[i].documentId == documentId && HasImage(r[i])
    ensures var r := DocumentPages(data, documentId);
      forall i, j :: 0 <= i < j < |r| ==> r[i].pageNum < r[j].pageNum
  {
    if documentId != "" {
      var f := DocumentPageList(data, documentId);
      var s := SortDesc(f, Negate(PageNumOf));
      var r := FirstPerKey(s, PageNumOf);
      FirstPerKeySorted(s, PageNumOf, Negate(PageNumOf));
      forall i | 0 <= i < |r| ensures r[i] in data && r[i].documentId == documentId && HasImage(r[i]) {
        SortDescMember(f, Negate(PageNumOf), r[i]);
      }
      forall i, j | 0 <= i < j < |r| ensures r[i].pageNum < r[j].pageNum {
        assert Negate(PageNumOf)(r[i]) >= Negate(PageNumOf)(r[j]) && PageNumOf(r[i]) != PageNumOf(r[j]);
      }
    }
  }

  /** Every page number the document has in the list is offered. */
  lemma DocumentPagesComplete(data: seq<Listing>, documentId: string, j: nat)
    requires documentId != "" && j < |data| && OnDocument(data[j], documentId)
    ensures var r := DocumentPages(data, documentId);
      exists i :: 0 <= i < |r| && r[i].pageNum == data[j].pageNum
  {
    FilterKeeps(data, DocumentTest(documentId), j);
    FirstPerKeyOfSortedComplete(DocumentPageList(data, documentId), Negate(PageNumOf), PageNumOf, data[j]);
    var r := DocumentPages(data, documentId);
    var i :| 0 <= i < |r| && PageNumOf(r[i]) == PageNumOf(data[j]);
    assert r[i].pageNum == data[j].pageNum;
  }

  /**
   * Duplicate page numbers: the page kept is the first of the document's
   * pages, in list order, with that number (stable sort, then first seen).
   */
  lemma DocumentPageIsEarliest(data: seq<Listing>, documentId: string, i: nat)
    requires i < |DocumentPages(data, documentId)|
    ensures var f := DocumentPageList(data, documentId);
      var n := DocumentPages(data, documentId)[i].pageNum;
      IndexOfKey(f, PageNumOf, n) < |f| && DocumentPages(data, documentId)[i] == f[IndexOfKey(f, PageNumOf, n)]
  {
    FirstPerKeyAscending(DocumentPageList(data, documentId), PageNumOf, i);
  }

  // ----- back issues of one publisher and building -----

  predicate SameSeries(item: Listing, source: string, buildingName: string) {
    item.source == source && item.buildingName == buildingName && HasImage(item)
  }

  function SeriesTest(source: string, buildingName: string): Listing -> bool {
    item => SameSeries(item, source, buildingName)
  }

  /** The issue key `${publishDate}_${documentId}`. */
  function ArchiveKey(item: Listing): string {
    item.publishDate + "_" + item.documentId
  }

  function SeriesRecords(data: seq<Listing>, source: string, buildingName: string): seq<Listing> {
    Filter(data, SeriesTest(source, buildingName))
  }

  /** The first record per issue key, newest first. */
  function Archives(data: seq<Listing>, source: string, buildingName: string): seq<Listing> {
    if source == "" || buildingName == "" then []
    else SortDesc(FirstPerKey(SeriesRecords(data, source, buildingName), ArchiveKey), DateOf)
  }

  method GetArchivesBySourceAndBuilding(data: seq<Listing>, source: string, buildingName: string)
    returns (sorted: seq<Listing>)
    ensures sorted == Archives(data, source, buildingName)
  {
    if source == "" || buildingName == "" {
      return [];
    }
    var archives := Filter(data, SeriesTest(source, buildingName));
    var uniqueArchives := KeepFirstPerKey(archives, ArchiveKey);
    sorted := SortDesc(uniqueArchives, DateOf);
  }

  /**
   * Missing source or building name gives nothing; every issue is of that
   * publisher and building and has an image, no issue key repeats, and
   * the list is newest first.
   */
  lemma ArchivesShape(data: seq<Listing>, source: string, buildingName: string)
    ensures source == "" || buildingName == "" ==> Archives(data, source, buildingName) == []
    ensures var r := Archives(data, source, buildingName);
      forall i :: 0 <= i < |r| ==> r[i] in data && SameSeries(r[i], source, buildingName)
    ensures DistinctKeys(Archives(data, source, buildingName), ArchiveKey)
    ensures SortedDesc(Archives(data, source, buildingName), DateOf)
  {
    if source != "" && buildingName != "" {
      var u := FirstPerKey(SeriesRecords(data, source, buildingName), ArchiveKey);
      DistinctKeysPerm(u, SortDesc(u, DateOf), ArchiveKey);
      forall i | 0 <= i < |SortDesc(u, DateOf)| ensures SortDesc(u, DateOf)[i] in data && SameSeries(SortDesc(u, DateOf)[i], source, buildingName) {
        SortDescMember(u, DateOf, SortDesc(u, DateOf)[i]);
      }
    }
  }

  /**
   * Each issue is the first record of the series, in list order, with its
   * issue key, and every issue key of the series is listed.
   */
  lemma ArchivesFirstAndComplete(data: seq<Listing>, source: string, buildingName: string, i: nat)
    requires i < |Archives(data, source, buildingName)|
    ensures var c := SeriesRecords(data, source, buildingName);
      var x := Archives(data, source, buildingName)[i];
      IndexOfKey(c, ArchiveKey, ArchiveKey(x)) < |c| && x == c[IndexOfKey(c, ArchiveKey, ArchiveKey(x))]
  {
    SortedFirstPerKeyIsFirst(SeriesRecords(data, source, buildingName), ArchiveKey, DateOf, i);
  }

  lemma ArchivesComplete(data: seq<Listing>, source: string, buildingName: string, j: nat)
    requires source != "" && buildingName != "" && j < |data| && SameSeries(data[j], source, buildingName)
    ensures var r := Archives(data, source, buildingName);
      exists i :: 0 <= i < |r| && ArchiveKey(r[i]) == ArchiveKey(data[j])
  {
    var c := SeriesRecords(data, source, buildingName);
    FilterKeeps(data, SeriesTest(source, buildingName), j);
    SortedFirstPerKeyComplete(c, ArchiveKey, DateOf, data[j]);
    var r := Archives(data, source, buildingName);
    var i :| 0 <= i < |r| && ArchiveKey(r[i]) == ArchiveKey(data[j]);
  }

  // ----- latest record per publisher -----

  /**
   * The latest record per publisher, newest first: the `sourceMap` loop
   * shared by `getOtherSourcesForBuilding` and the viewer's
   * `findSameBuildingOtherSources` (a record replaces the one kept for its
   * publisher only when its date is strictly later), then the sort.
   */
  function NewestPerSource(items: seq<Listing>): seq<Listing> {
    NewestPerKey(items, SourceOf, DateOf)
  }

  /**
   * One record per publisher, the publisher's latest (a later record of
   * the same date does not replace it), newest first, and every publisher
   * of `items` is present.
   */
  lemma NewestPerSourceShape(items: seq<Listing>)
    ensures DistinctKeys(NewestPerSource(items), SourceOf)
    ensures SortedDesc(NewestPerSource(items), DateOf)
    ensures forall i :: 0 <= i < |NewestPerSource(items)| ==> NewestPerSource(items)[i] in items
    ensures forall j :: 0 <= j < |items| ==>
      exists i :: 0 <= i < |NewestPerSource(items)| && NewestPerSource(items)[i].source == items[j].source
  {
    NewestPerKeyShape(items, SourceOf, DateOf);
  }

  lemma NewestPerSourceIsLatest(items: seq<Listing>, i: nat)
    requires i < |NewestPerSource(items)|
    ensures var x := NewestPerSource(items)[i];
      (forall j :: 0 <= j < |items| && items[j].source == x.source ==> DateOf(items[j]) <= DateOf(x)) &&
      exists j :: 0 <= j < |items| && items[j] == x &&
        forall l :: 0 <= l < j && items[l].source == x.source ==> DateOf(items[l]) < DateOf(x)
  {
    NewestPerKeyIsLatest(items, SourceOf, DateOf, i);
  }

  // ----- other publishers of one building -----

  predicate OtherSource(item: Listing, buildingName: string, excludeSource: string) {
    item.buildingName == buildingName && item.source != excludeSource && HasImage(item)
  }

  function OtherSourceTest(buildingName: string, excludeSource: string): Listing -> bool {
    item => OtherSource(item, buildingName, excludeSource)
  }

  function OtherSources(data: seq<Listing>, buildingName: string, excludeSource: string): seq<Listing> {
    if buildingName == "" then [] else NewestPerSource(Filter(data, OtherSourceTest(buildingName, excludeSource)))
  }

  method GetOtherSourcesForBuilding(data: seq<Listing>, buildingName: string, excludeSource: string)
    returns (sorted: seq<Listing>)
    ensures sorted == OtherSources(data, buildingName, excludeSource)
  {
    if buildingName == "" {
      return [];
    }
    var otherSources := Filter(data, OtherSourceTest(buildingName, excludeSource));
    var latestBySource := KeepLatestPerKey(otherSources, SourceOf, DateOf);
    sorted := SortDesc(latestBySource, DateOf);
  }

  /**
   * Every record is of the building, has an image and is not of the
   * excluded publisher; one per publisher, that publisher's latest, newest
   * first.
   */
  lemma OtherSourcesShape(data: seq<Listing>, buildingName: string, excludeSource: string)
    ensures buildingName == "" ==> OtherSources(data, buildingName, excludeSource) == []
    ensures var r := OtherSources(data, buildingName, excludeSource);
      forall i :: 0 <= i < |r| ==> r[i] in data && OtherSource(r[i], buildingName, excludeSource)
    ensures DistinctKeys(OtherSources(data, buildingName, excludeSource), SourceOf)
    ensures SortedDesc(OtherSources(data, buildingName, excludeSource), DateOf)
    ensures var r := OtherSources(data, buildingName, excludeSource);
      forall i, j ::
        (0 <= i < |r| && 0 <= j < |data| && OtherSource(data[j], buildingName, excludeSource) &&
         data[j].source == r[i].source) ==>
        DateOf(data[j]) <= DateOf(r[i])
  {
    if buildingName != "" {
      var c := Filter(data, OtherSourceTest(buildingName, excludeSource));
      var r := NewestPerSource(c);
      NewestPerSourceShape(c);
      forall i, j | 0 <= i < |r| && 0 <= j < |data| && OtherSource(data[j], buildingName, excludeSource) &&
        data[j].source == r[i].source
        ensures DateOf(data[j]) <= DateOf(r[i])
      {
        NewestPerSourceIsLatest(c, i);
        FilterKeeps(data, OtherSourceTest(buildingName, excludeSource), j);
      }
    }
  }

  // ----- every record of one building -----

  predicate OfBuilding(item: Listing, buildingName: string) {
    item.buildingName == buildingName && HasImage(item)
  }

  function BuildingTest(buildingName: string): Listing -> bool {
    item => OfBuilding(item, buildingName)
  }

  function AllForBuilding(data: seq<Listing>, buildingName: string): seq<Listing> {
    if buildingName == "" then [] else SortDesc(Filter(data, BuildingTest(buildingName)), DateOf)
  }

  /**
   * Exactly the building's records with an image (as a multiset), newest
   * first, records of the same month in list order.
   */
  lemma AllForBuildingShape(data: seq<Listing>, buildingName: string, d: int)
    ensures buildingName == "" ==> AllForBuilding(data, buildingName) == []
    ensures buildingName != "" ==>
      multiset(AllForBuilding(data, buildingName)) == multiset(Filter(data, BuildingTest(buildingName)))
    ensures SortedDesc(AllForBuilding(data, buildingName), DateOf)
    ensures buildingName != "" ==>
      WithDate(AllForBuilding(data, buildingName), DateOf, d) == WithDate(Filter(data, BuildingTest(buildingName)), DateOf, d)
  {
    if buildingName != "" {
      SortDescStable(Filter(data, BuildingTest(buildingName)), DateOf, d);
    }
  }

  // ----- last update -----

  predicate Dated(item: Listing) { item.publishDate != "" }

  /** The latest date over the records with a non-empty `publishDate`. */
  function LatestDate(data: seq<Listing>): Option<int> {
    MaxDate(data, Dated, DateOf)
  }

  method GetLastUpdateTime(data: seq<Listing>) returns (text: string)
    ensures text == LastUpdateText(LatestDate(data))
  {
    var latestTime := FindMaxDate(data, Dated, DateOf);
    text := LastUpdateText(latestTime);
  }

  /**
   * None exactly when no record has a publish date; otherwise an upper
   * bound of every dated record's date that some dated record attains.
   */
  lemma LatestDateIsMax(data: seq<Listing>)
    ensures LatestDate(data).None? <==> forall j :: 0 <= j < |data| ==> data[j].publishDate == ""
    ensures LatestDate(data).Some? ==>
      (forall j :: 0 <= j < |data| && data[j].publishDate != "" ==> DateOf(data[j]) <= LatestDate(data).value) &&
      exists j :: 0 <= j < |data| && data[j].publishDate != "" && DateOf(data[j]) == LatestDate(data).value
  {
    MaxDateIsMax(data, Dated, DateOf);
  }
}
