/**
 * The search page's controller, `LeasingSearchApp`: the results table
 * (search, page slice, selection) and the image viewer. The viewer shows
 * one record's page image and moves along three axes: to another page of
 * the same document by probing neighbouring file names, to another issue
 * of the same publisher (the archive select), and to another publisher's
 * latest record for the same building.
 *
 * The merged record list that `loadMergedData` returns is a parameter
 * (`data`) of the operations that read it, and whether an image exists is
 * the oracle `imageExists`.
 */
module SearchApp {
  import opened Wrappers
  import opened Collections
  import opened Merge
  import opened Query
  import opened Grouping
  import opened PageUrls
  import opened ResultsTable
  import opened SourceColors

  /** The page counter text `${source} ${page}페이지`. */
  datatype PageInfo = PageInfo(source: string, page: int)

  /**
   * The publisher navigation: the "i / n 회사" badge, the neighbouring
   * publishers named beside the buttons (none reads "처음"/"마지막", or
   * "-" when there is no other publisher), and the two buttons' state.
   */
  datatype SourceNav = SourceNav(
    counter: Option<(int, int)>,
    prevItem: Option<Listing>,
    nextItem: Option<Listing>,
    prevDisabled: bool,
    nextDisabled: bool)

  /** `updateOtherSourcesNavigation`. */
  function SourceNavigation(sources: seq<Listing>, index: int): (n: SourceNav)
    requires |sources| > 1 ==> -1 <= index < |sources|
    ensures |sources| <= 1 ==> n == SourceNav(None, None, None, true, true)
    ensures |sources| > 1 ==> (n.counter == Some((index + 1, |sources|)) &&
      (n.prevDisabled <==> index <= 0) && (n.nextDisabled <==> index >= |sources| - 1))
    ensures n.prevItem.Some? <==> !n.prevDisabled
    ensures n.prevItem.Some? ==> 0 < index < |sources| && n.prevItem.value == sources[index - 1]
    ensures n.nextItem.Some? <==> !n.nextDisabled
    ensures n.nextItem.Some? ==> -1 <= index < |sources| - 1 && n.nextItem.value == sources[index + 1]
  {
    var total := |sources|;
    if total <= 1 then SourceNav(None, None, None, true, true)
    else
      var prev := if index > 0 then Some(sources[index - 1]) else None;
      var next := if index < total - 1 then Some(sources[index + 1]) else None;
      SourceNav(Some((index + 1, total)), prev, next, index <= 0, !(index < total - 1))
  }

  /**
   * On a cursor that points at a publisher, a button is disabled exactly
   * when its move does nothing, and every move stays on the list.
   */
  lemma NavigationMatchesMoves(sources: seq<Listing>, index: int)
    requires 0 <= index < |sources|
    ensures SourceNavigation(sources, index).prevDisabled <==> PrevIndex(index).None?
    ensures SourceNavigation(sources, index).nextDisabled <==> NextIndex(index, |sources|).None?
    ensures PrevIndex(index).Some? ==> 0 <= PrevIndex(index).value < |sources|
    ensures NextIndex(index, |sources|).Some? ==> 0 <= NextIndex(index, |sources|).value < |sources|
  {
  }

  /** `item.pageNum || 1`. */
  function DisplayPage(item: Listing): (n: int)
    ensures n != 0 && (item.pageNum != 0 ==> n == item.pageNum)
  {
    if item.pageNum != 0 then item.pageNum else 1
  }

  /**
   * `onArchiveSelect`'s copy of the viewed record: the issue's image,
   * date, document and page, everything else kept.
   */
  function WithArchive(item: Listing, archive: Listing): (r: Listing)
    ensures r.pageImageUrl == archive.pageImageUrl && r.publishDate == archive.publishDate
    ensures r.documentId == archive.documentId && r.pageNum == DisplayPage(archive)
    ensures r.(pageImageUrl := item.pageImageUrl, publishDate := item.publishDate,
      documentId := item.documentId, pageNum := item.pageNum) == item
  {
    item.(pageImageUrl := archive.pageImageUrl, publishDate := archive.publishDate,
      documentId := archive.documentId, pageNum := DisplayPage(archive))
  }

  /** `item => item.source === source`. */
  function SourceTest(source: string): Listing -> bool {
    (item: Listing) => item.source == source
  }

  /**
   * `findSameBuildingOtherSources`: the records of the results with the
   * same building name and an image, the latest per publisher, newest
   * first.
   */
  function SameBuilding(results: seq<Listing>, item: Listing): seq<Listing> {
    NewestPerSource(Filter(results, BuildingTest(item.buildingName)))
  }

  /**
   * One record per publisher, each of the building, with an image and
   * from the results, newest first.
   */
  lemma SameBuildingShape(results: seq<Listing>, item: Listing)
    ensures var r := SameBuilding(results, item);
      DistinctKeys(r, SourceOf) && SortedDesc(r, DateOf) &&
      forall i :: 0 <= i < |r| ==> r[i] in results && OfBuilding(r[i], item.buildingName)
  {
    var c := Filter(results, BuildingTest(item.buildingName));
    var r := NewestPerSource(c);
    NewestPerSourceShape(c);
    forall i | 0 <= i < |r| ensures r[i] in results && OfBuilding(r[i], item.buildingName) {
      assert r[i] in c;
    }
  }

  /** A record the view button opens (one of the results, with an image) finds its own publisher. */
  lemma SameBuildingFindsOwnSource(results: seq<Listing>, item: Listing)
    requires item in results && HasImage(item)
    ensures 0 <= FindIndex(SameBuilding(results, item), SourceTest(item.source))
  {
    var c := Filter(results, BuildingTest(item.buildingName));
    var r := NewestPerSource(c);
    NewestPerSourceShape(c);
    var j :| 0 <= j < |results| && results[j] == item;
    FilterKeeps(results, BuildingTest(item.buildingName), j);
    var m :| 0 <= m < |c| && c[m] == item;
    var i :| 0 <= i < |r| && r[i].source == c[m].source;
    FindIndexHit(r, SourceTest(item.source), i);
    assert r == SameBuilding(results, item);
  }

  /**
   * The outcome of one page step from `url` showing page `n`: the first
   * probe with an image, and the counter moved by its distance, or, when
   * no probe finds one, no change.
   */
  ghost predicate PageStepped(url: string, n: int, d: int, imageExists: string -> bool, url': string, n': int) {
    (exists k: nat :: FirstHitAt(url, d, imageExists, k) && url' == Probe(url, d, k).value && n' == n + k * d) ||
    (NoHit(url, d, imageExists) && url' == url && n' == n)
  }

  /** A page step has exactly one outcome. */
  lemma PageSteppedUnique(url: string, n: int, d: int, imageExists: string -> bool,
                          u1: string, n1: int, u2: string, n2: int)
    requires PageStepped(url, n, d, imageExists, u1, n1) && PageStepped(url, n, d, imageExists, u2, n2)
    ensures u1 == u2 && n1 == n2
  {
    FirstHitOrNoHit(url, d, imageExists);
    if !NoHit(url, d, imageExists) {
      var k1: nat :| FirstHitAt(url, d, imageExists, k1) && u1 == Probe(url, d, k1).value && n1 == n + k1 * d;
      var k2: nat :| FirstHitAt(url, d, imageExists, k2) && u2 == Probe(url, d, k2).value && n2 == n + k2 * d;
      FirstHitUnique(url, d, imageExists, k1, k2);
    }
  }

  /**
   * A page step keeps the counter in line with the file name: if it showed
   * the page number in the URL before, it does after.
   */
  lemma PageSteppedTracksFile(url: string, n: int, d: int, imageExists: string -> bool, url': string, n': int)
    requires PageStepped(url, n, d, imageExists, url', n')
    requires PageNumber(url).Some? && PageNumber(url).value == n
    ensures PageNumber(url').Some? && PageNumber(url').value == n'
  {
    if !(NoHit(url, d, imageExists) && url' == url && n' == n) {
      var k: nat :| FirstHitAt(url, d, imageExists, k) && url' == Probe(url, d, k).value && n' == n + k * d;
      ProbePageNumber(url, d, k);
    }
  }

  /**
   * A publisher cursor the navigation can draw: on the list, or -1 when
   * the viewed record's publisher is not on it (0 before any viewing).
   */
  predicate CursorOn(sources: seq<Listing>, index: int) {
    -1 <= index && (sources != [] ==> index < |sources|) && (sources == [] ==> index <= 0)
  }

  /**
   * The viewer modal's content: title, caption, image (the download link
   * carries the same URL), page counter and publisher navigation.
   */
  datatype Display = Display(
    title: string,
    info: string,
    imageSrc: string,
    pageInfo: Option<PageInfo>,
    sourceNav: Option<SourceNav>)

  /** What `updateImageViewer` draws for `item` shown at page `page`. */
  function Drawn(item: Listing, page: int, sources: seq<Listing>, index: int): Display
    requires CursorOn(sources, index)
  {
    Display(ViewTitle(item), ViewInfo(item), item.pageImageUrl, Some(PageInfo(item.source, page)),
      Some(SourceNavigation(sources, index)))
  }

  class LeasingSearchApp {
    var currentResults: seq<Listing>
    var selectedItems: map<string, Listing>
    var currentPage: int
    var pageSize: int
    var currentDisplayPageNum: int
    var archiveList: seq<Listing>
    var sameBuildingOtherSources: seq<Listing>
    var currentSourceIndex: int
    var isSearchingPage: bool
    var sourceColorCache: map<string, string>
    var currentViewItem: Option<Listing>
    var display: Display

    /**
     * What the table handlers keep: a positive page size and page, and
     * selected records under their own ids. The viewer handlers do not
     * modify these fields, so they keep this by their frames.
     */
    predicate TableValid()
      reads this`pageSize, this`currentPage, this`selectedItems
    {
      pageSize >= 1 && currentPage >= 1 && KeyedById(selectedItems)
    }

    /**
     * What the viewer handlers keep: a publisher cursor the navigation can
     * draw, and archives only for a viewed record. The table handlers do
     * not modify these fields.
     */
    predicate ViewerValid()
      reads this`sameBuildingOtherSources, this`currentSourceIndex, this`archiveList, this`currentViewItem
    {
      CursorOn(sameBuildingOtherSources, currentSourceIndex) &&
      (archiveList != [] ==> currentViewItem.Some?)
    }

    /**
     * The colour memo agrees with `SourceColorOf`. Only `GetSourceColor`
     * modifies the memo, so every other method keeps this by its frame.
     */
    predicate ColorsValid()
      reads this`sourceColorCache
    {
      forall s :: s in sourceColorCache ==> sourceColorCache[s] == SourceColorOf(s)
    }

    constructor ()
      ensures TableValid() && ViewerValid() && ColorsValid()
      ensures currentResults == [] && selectedItems == map[] && currentPage == 1 && pageSize == DefaultPageSize
      ensures currentDisplayPageNum == 1 && archiveList == [] && sameBuildingOtherSources == []
      ensures currentSourceIndex == 0 && !isSearchingPage && sourceColorCache == map[]
      ensures currentViewItem.None? && display == Display("", "", "", None, None)
    {
      currentResults := [];
      selectedItems := map[];
      currentPage := 1;
      pageSize := DefaultPageSize;
      currentDisplayPageNum := 1;
      archiveList := [];
      sameBuildingOtherSources := [];
      currentSourceIndex := 0;
      isSearchingPage := false;
      sourceColorCache := map[];
      currentViewItem := None;
      display := Display("", "", "", None, None);
    }

    // ----- publisher colours -----

    /** `hashString`: the loop over the code units, then `Math.abs`. */
    method HashString(str: string) returns (h: nat)
      ensures h == HashOf(str)
    {
      var units := Utf16(str);
      var hash := 0;
      for i := 0 to |units|
        invariant hash == HashFold(units[..i])
      {
        var code := units[i];
        assert units[..i + 1][..i] == units[..i];
        hash := ToInt32(ToInt32(hash * 32) - hash + code);
      }
      assert units[..|units|] == units;
      h := if hash < 0 then -hash else hash;
    }

    /** `getSourceColor`: the palette entry for a publisher, memoised per name. */
    method GetSourceColor(source: string) returns (color: string)
      requires ColorsValid()
      modifies this`sourceColorCache
      ensures ColorsValid()
      ensures color == SourceColorOf(source) && color in Palette
      ensures source == "" ==> sourceColorCache == old(sourceColorCache)
      ensures source != "" ==> sourceColorCache == old(sourceColorCache)[source := color]
    {
      if source == "" {
        return Palette[0];
      }
      if source in sourceColorCache {
        color := sourceColorCache[source];
        assert sourceColorCache == sourceColorCache[source := color];
        return;
      }
      var hash := HashString(source);
      var colorIndex := hash % |Palette|;
      color := Palette[colorIndex];
      sourceColorCache := sourceColorCache[source := color];
    }

    // ----- the results table -----

    /**
     * `performSearch` on the form's current values: nothing when no
     * option is truthy, otherwise the results are the search over `data`
     * and the table goes back to page 1.
     */
    method PerformSearch(t: SearchType, f: SearchForm, data: seq<Listing>) returns (searched: bool)
      requires TableValid()
      modifies this`currentResults, this`currentPage
      ensures TableValid()
      ensures searched == HasCondition(BuildSearchOptions(t, f))
      ensures searched ==> currentResults == SearchVacancies(data, BuildSearchOptions(t, f)) && currentPage == 1
      ensures !searched ==> currentResults == old(currentResults) && currentPage == old(currentPage)
    {
      var options := BuildSearchOptions(t, f);
      if !HasCondition(options) {
        return false;
      }
      currentResults := SearchVacancies(data, options);
      currentPage := 1;
      return true;
    }

    /** `loadAll`: every merged record becomes the results, shown from page 1. */
    method LoadAll(data: seq<Listing>)
      requires TableValid()
      modifies this`currentResults, this`currentPage
      ensures TableValid() && currentResults == data && currentPage == 1
    {
      currentResults := data;
      currentPage := 1;
    }

    /** `resetSearch`: the results are emptied and page 1 is shown; the selection stays. */
    method ResetSearch()
      requires TableValid()
      modifies this`currentResults, this`currentPage
      ensures TableValid() && currentResults == [] && currentPage == 1
    {
      currentResults := [];
      currentPage := 1;
    }

    /** The page-size select: a new size starts again at page 1. */
    method ChangePageSize(size: int)
      requires TableValid() && size >= 1
      modifies this`pageSize, this`currentPage
      ensures TableValid() && pageSize == size && currentPage == 1
    {
      pageSize := size;
      currentPage := 1;
    }

    /** A click on a pagination link to `page`. */
    method ClickPageLink(page: int)
      requires TableValid()
      modifies this`currentPage
      ensures TableValid()
      ensures currentPage == ClickPage(old(currentPage), page, TotalPages(|currentResults|, pageSize))
    {
      var totalPages := TotalPages(|currentResults|, pageSize);
      if page >= 1 && page <= totalPages {
        currentPage := page;
      }
    }

    /** A row checkbox changing to `checked`. */
    method ToggleItem(id: string, checked: bool)
      requires TableValid()
      modifies this`selectedItems
      ensures TableValid() && selectedItems == Toggle(old(selectedItems), currentResults, id, checked)
    {
      var i := FindIndex(currentResults, IdTest(id));
      if checked && i >= 0 {
        selectedItems := selectedItems[id := currentResults[i]];
      } else {
        selectedItems := selectedItems - {id};
      }
    }

    /** `removeSelected`. */
    method RemoveSelected(id: string)
      requires TableValid()
      modifies this`selectedItems
      ensures TableValid() && selectedItems == Unselect(old(selectedItems), id)
    {
      selectedItems := selectedItems - {id};
    }

    // ----- the viewer -----

    /**
     * `showImageViewer`: view `item`, find its other publishers and its
     * archive, and draw. The publisher lookup reads only the results and
     * `item` and writes only the publisher list and cursor, so running it
     * before the assignments of the viewed record and page leaves the same
     * state; what follows it is then exactly the steps of `switchToSource`.
     */
    method ShowImageViewer(item: Listing, data: seq<Listing>)
      requires ViewerValid()
      modifies this`currentViewItem, this`currentDisplayPageNum, this`sameBuildingOtherSources,
        this`currentSourceIndex, this`archiveList, this`display
      ensures ViewerValid()
      ensures currentViewItem == Some(item) && currentDisplayPageNum == DisplayPage(item)
      ensures sameBuildingOtherSources == SameBuilding(currentResults, item)
      ensures currentSourceIndex == FindIndex(sameBuildingOtherSources, SourceTest(item.source))
      ensures archiveList == Archives(data, item.source, item.buildingName)
      ensures display == Drawn(item, DisplayPage(item), sameBuildingOtherSources, currentSourceIndex)
    {
      FindSameBuildingOtherSources(item);
      SwitchToSource(item, data);
    }

    /** `findSameBuildingOtherSources`: the publisher list and the cursor on the viewed record's publisher. */
    method FindSameBuildingOtherSources(currentItem: Listing)
      modifies this`sameBuildingOtherSources, this`currentSourceIndex
      ensures sameBuildingOtherSources == SameBuilding(currentResults, currentItem)
      ensures currentSourceIndex == FindIndex(sameBuildingOtherSources, SourceTest(currentItem.source))
      ensures CursorOn(sameBuildingOtherSources, currentSourceIndex)
    {
      var sameBuildingItems := Filter(currentResults, BuildingTest(currentItem.buildingName));
      var latest := KeepLatestPerKey(sameBuildingItems, SourceOf, DateOf);
      sameBuildingOtherSources := SortDesc(latest, DateOf);
      currentSourceIndex := FindIndex(sameBuildingOtherSources, SourceTest(currentItem.source));
    }

    /** `loadArchives`: the issues of a record's publisher and building. */
    method LoadArchives(item: Listing, data: seq<Listing>)
      modifies this`archiveList
      ensures archiveList == Archives(data, item.source, item.buildingName)
    {
      archiveList := GetArchivesBySourceAndBuilding(data, item.source, item.buildingName);
    }

    /** `updateImageViewer`: redraw for the viewed record; nothing without one. */
    method UpdateImageViewer()
      requires CursorOn(sameBuildingOtherSources, currentSourceIndex)
      modifies this`display
      ensures currentViewItem.Some? ==>
        display == Drawn(currentViewItem.value, currentDisplayPageNum, sameBuildingOtherSources, currentSourceIndex)
      ensures currentViewItem.None? ==> display == old(display)
    {
      if currentViewItem.None? {
        return;
      }
      var item := currentViewItem.value;
      display := display.(title := ViewTitle(item), info := ViewInfo(item), imageSrc := item.pageImageUrl,
        pageInfo := Some(PageInfo(item.source, currentDisplayPageNum)));
      UpdateOtherSourcesNavigation();
    }

    /** `updateOtherSourcesNavigation`. */
    method UpdateOtherSourcesNavigation()
      requires CursorOn(sameBuildingOtherSources, currentSourceIndex)
      modifies this`display
      ensures display == old(display).(sourceNav := Some(SourceNavigation(sameBuildingOtherSources, currentSourceIndex)))
    {
      display := display.(sourceNav := Some(SourceNavigation(sameBuildingOtherSources, currentSourceIndex)));
    }

    /** `updatePageInfo`: the counter text, when a record is viewed. */
    method UpdatePageInfo()
      modifies this`display
      ensures display == if currentViewItem.Some?
        then old(display).(pageInfo := Some(PageInfo(currentViewItem.value.source, currentDisplayPageNum)))
        else old(display)
    {
      if currentViewItem.Some? {
        display := display.(pageInfo := Some(PageInfo(currentViewItem.value.source, currentDisplayPageNum)));
      }
    }

    /**
     * `onArchiveSelect`: an issue on the archive list replaces the viewed
     * record's image, date, document and page, and the display follows;
     * an index off the list changes nothing. The publisher list and the
     * archive list stay as they are.
     */
    method OnArchiveSelect(index: int)
      requires ViewerValid()
      modifies this`currentViewItem, this`currentDisplayPageNum, this`display
      ensures ViewerValid()
      ensures !(0 <= index < |archiveList|) ==> (currentViewItem == old(currentViewItem) &&
        currentDisplayPageNum == old(currentDisplayPageNum) && display == old(display))
      ensures 0 <= index < |archiveList| ==> (old(currentViewItem).Some? &&
        currentViewItem == Some(WithArchive(old(currentViewItem).value, archiveList[index])) &&
        currentDisplayPageNum == DisplayPage(archiveList[index]) &&
        display == Drawn(currentViewItem.value, currentDisplayPageNum, sameBuildingOtherSources, currentSourceIndex))
    {
      if !(0 <= index < |archiveList|) {
        return;
      }
      var archive := archiveList[index];
      currentViewItem := Some(WithArchive(currentViewItem.value, archive));
      currentDisplayPageNum := DisplayPage(archive);
      UpdateImageViewer();
    }

    // ----- moving between publishers -----

    /** `switchToSource`: view a copy of `sourceItem`, load its archive and draw. */
    method SwitchToSource(sourceItem: Listing, data: seq<Listing>)
      requires CursorOn(sameBuildingOtherSources, currentSourceIndex)
      modifies this`currentViewItem, this`currentDisplayPageNum, this`archiveList, this`display
      ensures currentViewItem == Some(sourceItem) && currentDisplayPageNum == DisplayPage(sourceItem)
      ensures archiveList == Archives(data, sourceItem.source, sourceItem.buildingName)
      ensures display == Drawn(sourceItem, DisplayPage(sourceItem), sameBuildingOtherSources, currentSourceIndex)
    {
      currentViewItem := Some(sourceItem);
      currentDisplayPageNum := DisplayPage(sourceItem);
      LoadArchives(sourceItem, data);
      UpdateImageViewer();
    }

    /** `showPrevOtherSource`: view the previous publisher's record; nothing at the first. */
    method ShowPrevOtherSource(data: seq<Listing>)
      requires ViewerValid()
      modifies this`currentSourceIndex, this`currentViewItem, this`currentDisplayPageNum, this`archiveList,
        this`display
      ensures ViewerValid()
      ensures PrevIndex(old(currentSourceIndex)).None? ==> (currentSourceIndex == old(currentSourceIndex) &&
        currentViewItem == old(currentViewItem) && currentDisplayPageNum == old(currentDisplayPageNum) &&
        archiveList == old(archiveList) && display == old(display))
      ensures PrevIndex(old(currentSourceIndex)).Some? ==> (
        currentSourceIndex == PrevIndex(old(currentSourceIndex)).value &&
        currentViewItem == Some(sameBuildingOtherSources[currentSourceIndex]) &&
        currentDisplayPageNum == DisplayPage(sameBuildingOtherSources[currentSourceIndex]) &&
        archiveList == Archives(data, currentViewItem.value.source, currentViewItem.value.buildingName) &&
        display == Drawn(currentViewItem.value, currentDisplayPageNum, sameBuildingOtherSources, currentSourceIndex))
    {
      if currentSourceIndex <= 0 {
        return;
      }
      currentSourceIndex := currentSourceIndex - 1;
      SwitchToSource(sameBuildingOtherSources[currentSourceIndex], data);
    }

    /** `showNextOtherSource`: view the next publisher's record; nothing at the last. */
    method ShowNextOtherSource(data: seq<Listing>)
      requires ViewerValid()
      modifies this`currentSourceIndex, this`currentViewItem, this`currentDisplayPageNum, this`archiveList,
        this`display
      ensures ViewerValid()
      ensures NextIndex(old(currentSourceIndex), |sameBuildingOtherSources|).None? ==> (
        currentSourceIndex == old(currentSourceIndex) && currentViewItem == old(currentViewItem) &&
        currentDisplayPageNum == old(currentDisplayPageNum) && archiveList == old(archiveList) &&
        display == old(display))
      ensures NextIndex(old(currentSourceIndex), |sameBuildingOtherSources|).Some? ==> (
        currentSourceIndex == NextIndex(old(currentSourceIndex), |sameBuildingOtherSources|).value &&
        currentViewItem == Some(sameBuildingOtherSources[currentSourceIndex]) &&
        currentDisplayPageNum == DisplayPage(sameBuildingOtherSources[currentSourceIndex]) &&
        archiveList == Archives(data, currentViewItem.value.source, currentViewItem.value.buildingName) &&
        display == Drawn(currentViewItem.value, currentDisplayPageNum, sameBuildingOtherSources, currentSourceIndex))
    {
      if currentSourceIndex >= |sameBuildingOtherSources| - 1 {
        return;
      }
      currentSourceIndex := currentSourceIndex + 1;
      SwitchToSource(sameBuildingOtherSources[currentSourceIndex], data);
    }

    // ----- moving between pages -----

    /** `showPrevPage`. */
    method ShowPrevPage(imageExists: string -> bool)
      modifies this`isSearchingPage, this`currentDisplayPageNum, this`display
      ensures old(isSearchingPage) ==> (isSearchingPage && display == old(display) &&
        currentDisplayPageNum == old(currentDisplayPageNum))
      ensures !old(isSearchingPage) ==> (!isSearchingPage &&
        PageStepped(old(display.imageSrc), old(currentDisplayPageNum), -1, imageExists,
          display.imageSrc, currentDisplayPageNum))
      ensures !old(isSearchingPage) && NoHit(old(display.imageSrc), -1, imageExists) ==>
        display == old(display)
      ensures !old(isSearchingPage) && !NoHit(old(display.imageSrc), -1, imageExists) ==>
        display == old(display).(imageSrc := display.imageSrc, pageInfo := if currentViewItem.Some?
          then Some(PageInfo(currentViewItem.value.source, currentDisplayPageNum)) else old(display.pageInfo))
    {
      StepPage(-1, imageExists);
    }

    /** `showNextPage`. */
    method ShowNextPage(imageExists: string -> bool)
      modifies this`isSearchingPage, this`currentDisplayPageNum, this`display
      ensures old(isSearchingPage) ==> (isSearchingPage && display == old(display) &&
        currentDisplayPageNum == old(currentDisplayPageNum))
      ensures !old(isSearchingPage) ==> (!isSearchingPage &&
        PageStepped(old(display.imageSrc), old(currentDisplayPageNum), 1, imageExists,
          display.imageSrc, currentDisplayPageNum))
      ensures !old(isSearchingPage) && NoHit(old(display.imageSrc), 1, imageExists) ==>
        display == old(display)
      ensures !old(isSearchingPage) && !NoHit(old(display.imageSrc), 1, imageExists) ==>
        display == old(display).(imageSrc := display.imageSrc, pageInfo := if currentViewItem.Some?
          then Some(PageInfo(currentViewItem.value.source, currentDisplayPageNum)) else old(display.pageInfo))
    {
      StepPage(1, imageExists);
    }

    /**
     * The body both page buttons share, for `direction` -1 or 1: ignored
     * while a step is in progress or when the shown URL has no adjacent
     * page; otherwise the adjacent page if its image exists, else the
     * first one `findNextValidPage` finds, else no change. A move replaces
     * the image and the page counter and nothing else on display.
     */
    method StepPage(direction: int, imageExists: string -> bool)
      modifies this`isSearchingPage, this`currentDisplayPageNum, this`display
      ensures old(isSearchingPage) ==> (isSearchingPage && display == old(display) &&
        currentDisplayPageNum == old(currentDisplayPageNum))
      ensures !old(isSearchingPage) ==> (!isSearchingPage &&
        PageStepped(old(display.imageSrc), old(currentDisplayPageNum), direction, imageExists,
          display.imageSrc, currentDisplayPageNum))
      ensures !old(isSearchingPage) && NoHit(old(display.imageSrc), direction, imageExists) ==>
        display == old(display)
      ensures !old(isSearchingPage) && !NoHit(old(display.imageSrc), direction, imageExists) ==>
        display == old(display).(imageSrc := display.imageSrc, pageInfo := if currentViewItem.Some?
          then Some(PageInfo(currentViewItem.value.source, currentDisplayPageNum)) else old(display.pageInfo))
    {
      if isSearchingPage {
        return;
      }
      var currentUrl := display.imageSrc;
      var newUrl := AdjacentPageUrl(currentUrl, direction);
      if newUrl.None? {
        NoAdjacentNoHit(currentUrl, direction, imageExists);
        return;
      }
      isSearchingPage := true;
      ProbeOne(currentUrl, direction);
      FirstHitOrNoHit(currentUrl, direction, imageExists);
      if imageExists(newUrl.value) {
        assert FirstHitAt(currentUrl, direction, imageExists, 1);
        currentDisplayPageNum := currentDisplayPageNum + direction;
        display := display.(imageSrc := newUrl.value);
        UpdatePageInfo();
      } else {
        var result := FindNextValidPage(currentUrl, direction, imageExists);
        if result.Some? {
          var k: nat :| FirstHitAt(currentUrl, direction, imageExists, k) &&
            result.value == PageHit(Probe(currentUrl, direction, k).value, k * direction);
          currentDisplayPageNum := currentDisplayPageNum + result.value.pageOffset;
          display := display.(imageSrc := result.value.url);
          UpdatePageInfo();
        }
      }
      isSearchingPage := false;
    }
  }
}
