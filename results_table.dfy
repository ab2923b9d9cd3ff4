/**
 * The results table both search pages share: the search form and its
 * "no condition" guard, the table's page slice, the pagination window and
 * its click rule, the map of checked rows, and the viewer's caption and
 * cursor moves. All of it is arithmetic and map updates on values; the two
 * app classes call these functions.
 */
module ResultsTable {
  import opened Wrappers
  import opened Text
  import opened Collections
  import opened Merge
  import opened Query

  /** The page size the app starts with. */
  const DefaultPageSize: nat := 20

  // ----- pagination -----

  /** `Math.ceil(n / size)`: the fewest pages of `size` rows that hold `n` rows. */
  function TotalPages(n: nat, size: nat): (r: nat)
    requires size >= 1
    ensures r * size >= n
    ensures r > 0 ==> (r - 1) * size < n
    ensures r == 0 <==> n == 0
  {
    var q := (n + size - 1) / size;
    var rem := (n + size - 1) % size;
    assert n + size - 1 == q * size + rem && 0 <= rem < size;
    assert (q - 1) * size == q * size - size;
    q
  }

  /** The first row of page `page`. */
  function PageStart(page: nat, size: nat): nat
    requires page >= 1
  {
    (page - 1) * size
  }

  /**
   * `results.slice(start, Math.min(start + size, results.length))` with
   * `start = (page - 1) * size`: the rows of page `page`, in order.
   */
  function PageItems<T>(s: seq<T>, page: nat, size: nat): (r: seq<T>)
    requires page >= 1 && size >= 1
    ensures PageStart(page, size) >= |s| ==> r == []
    ensures PageStart(page, size) < |s| ==>
      |r| == (if PageStart(page, size) + size <= |s| then size else |s| - PageStart(page, size))
    ensures forall i :: 0 <= i < |r| ==> PageStart(page, size) + i < |s| && r[i] == s[PageStart(page, size) + i]
  {
    var start := PageStart(page, size);
    var end := if start + size < |s| then start + size else |s|;
    if start >= |s| then [] else s[start..end]
  }

  /** Every row is shown on exactly one page: row `j` is entry `j % size` of page `j / size + 1`. */
  lemma PageOfRow<T>(s: seq<T>, size: nat, j: nat)
    requires size >= 1 && j < |s|
    ensures 1 <= j / size + 1 <= TotalPages(|s|, size)
    ensures var page := PageItems(s, j / size + 1, size);
      j % size < |page| && page[j % size] == s[j]
  {
    var p, i := j / size, j % size;
    assert j == p * size + i && 0 <= i < size;
    assert PageStart(p + 1, size) == p * size;
    MulMonotone(TotalPages(|s|, size), p, size);
  }

  /** Scaling by a positive factor keeps order. */
  lemma MulMonotone(a: int, b: int, c: nat)
    requires a * c > b * c
    ensures a > b
  {
  }

  /** Pages `1..TotalPages` are the non-empty ones, and all but the last are full. */
  lemma PageSizes<T>(s: seq<T>, page: nat, size: nat)
    requires page >= 1 && size >= 1
    ensures PageItems(s, page, size) != [] <==> page <= TotalPages(|s|, size)
    ensures page < TotalPages(|s|, size) ==> |PageItems(s, page, size)| == size
  {
    var t := TotalPages(|s|, size);
    var start := PageStart(page, size);
    if page <= t {
      assert start <= (t - 1) * size;
    } else {
      assert start >= t * size;
    }
    if page < t {
      assert start + size == page * size <= (t - 1) * size;
    }
  }

  /** The numbered links: pages `first..last` inclusive. */
  datatype Window = Window(first: int, last: int)

  predicate InWindow(w: Window, p: int) { w.first <= p <= w.last }

  /** `startPage = max(1, current - 2)`, `endPage = min(totalPages, current + 2)`. */
  function PageWindow(current: int, total: nat): Window {
    Window(if current - 2 > 1 then current - 2 else 1,
           if current + 2 < total then current + 2 else total)
  }

  /**
   * The window shows the current page and the pages up to two either side
   * of it that exist, so never more than five; the current page is one of
   * them when it exists.
   */
  lemma PageWindowSpec(current: int, total: nat)
    ensures var w := PageWindow(current, total);
      forall p :: InWindow(w, p) <==> 1 <= p <= total && current - 2 <= p <= current + 2
    ensures var w := PageWindow(current, total);
      w.last - w.first <= 4 && (1 <= current <= total ==> w.first <= current <= w.last)
  {
  }

  /** The prev link is greyed out on page 1; the next link on the last page. */
  predicate PrevDisabled(current: int) { current == 1 }

  predicate NextDisabled(current: int, total: nat) { current == total }

  /** A click on the link to `page`: it is followed only for `1 <= page <= total`. */
  function ClickPage(current: int, page: int, total: nat): (r: int)
    ensures r == page <==> (1 <= page <= total || page == current)
    ensures r != page ==> r == current
  {
    if 1 <= page && page <= total then page else current
  }

  /**
   * The greyed-out look is backed by the click rule: on a valid page the
   * prev and next links do nothing exactly when they are disabled, and
   * otherwise step by one.
   */
  lemma PrevNextLinks(current: int, total: nat)
    requires 1 <= current <= total
    ensures ClickPage(current, current - 1, total) == (if PrevDisabled(current) then current else current - 1)
    ensures ClickPage(current, current + 1, total) == (if NextDisabled(current, total) then current else current + 1)
  {
  }

  /** Every numbered link in the window leads to its own page, whatever the current page. */
  lemma WindowLinksFollowed(current: int, total: nat, p: int)
    requires InWindow(PageWindow(current, total), p)
    ensures ClickPage(current, p, total) == p && 1 <= p <= total
  {
  }

  /** Pagination is drawn only when there is more than one page. */
  predicate PaginationShown(n: nat, size: nat)
    requires size >= 1
  {
    TotalPages(n, size) > 1
  }

  /** After a new search, a page-size change or a reset, page 1 is shown: it holds the first rows. */
  lemma FirstPageIsPrefix<T>(s: seq<T>, size: nat)
    requires size >= 1
    ensures PageItems(s, 1, size) == Take(s, size)
  {
  }

  // ----- selection -----

  /** `r => r.id === id`. */
  function IdTest(id: string): Listing -> bool {
    (r: Listing) => r.id == id
  }

  /** Every selected record sits under its own id. */
  predicate KeyedById(selected: map<string, Listing>) {
    forall k :: k in selected ==> selected[k].id == k
  }

  /**
   * The checkbox handler: a checked box whose id is among the results maps
   * the id to the first such result; anything else deletes the id.
   */
  function Toggle(selected: map<string, Listing>, results: seq<Listing>, id: string, checked: bool)
    : (r: map<string, Listing>)
    ensures forall k :: k != id ==> (k in r <==> k in selected)
    ensures forall k :: k != id && k in r ==> r[k] == selected[k]
    ensures id in r <==> checked && exists i :: 0 <= i < |results| && results[i].id == id
    ensures id in r ==> exists i :: (0 <= i < |results| && r[id] == results[i] &&
      forall i' :: 0 <= i' < i ==> results[i'].id != id)
    ensures KeyedById(selected) ==> KeyedById(r)
  {
    var i := FindIndex(results, IdTest(id));
    if checked && i >= 0 then selected[id := results[i]]
    else selected - {id}
  }

  /** `removeSelected(id)`: the id goes, nothing else changes. */
  function Unselect(selected: map<string, Listing>, id: string): (r: map<string, Listing>)
    ensures id !in r
    ensures forall k :: k != id ==> (k in r <==> k in selected) && (k in r ==> r[k] == selected[k])
    ensures KeyedById(selected) ==> KeyedById(r)
  {
    selected - {id}
  }

  /** Checking then unchecking a box leaves the selection as it had been without that id. */
  lemma ToggleUndo(selected: map<string, Listing>, results: seq<Listing>, id: string)
    ensures Toggle(Toggle(selected, results, id, true), results, id, false) == Unselect(selected, id)
  {
  }

  // ----- the search form -----

  /** The `searchType` select. */
  datatype SearchType = Building | District | Station | Area | Complex

  /**
   * The form's fields as read: the three text inputs verbatim, the walking
   * time as `parseInt` gives it and the two areas as `parseFloat` gives
   * them, `None` standing for NaN.
   */
  datatype SearchForm = SearchForm(
    buildingName: string,
    districtName: string,
    stationName: string,
    walkingTime: Option<int>,
    areaFrom: Option<real>,
    areaTo: Option<real>)

  /** The keys each search type sets; 'complex' sets all of them. */
  predicate SetsBuilding(t: SearchType) { t == Building || t == Complex }

  predicate SetsDistrict(t: SearchType) { t == District || t == Complex }

  predicate SetsStation(t: SearchType) { t == Station || t == Complex }

  predicate SetsArea(t: SearchType) { t == Area || t == Complex }

  /**
   * `performSearch`'s options object: trimmed text, and `|| 0` on the
   * numbers. `source` is never set.
   */
  function BuildSearchOptions(t: SearchType, f: SearchForm): (o: SearchOptions)
    ensures o.buildingName.Some? <==> SetsBuilding(t)
    ensures o.district.Some? <==> SetsDistrict(t)
    ensures o.station.Some? <==> SetsStation(t) && (o.walkingTime.Some? <==> SetsStation(t))
    ensures o.areaFrom.Some? <==> SetsArea(t) && (o.areaTo.Some? <==> SetsArea(t))
    ensures o.source.None?
  {
    SearchOptions(
      if SetsBuilding(t) then Some(Trim(f.buildingName)) else None,
      if SetsDistrict(t) then Some(Trim(f.districtName)) else None,
      if SetsStation(t) then Some(Trim(f.stationName)) else None,
      if SetsStation(t) then Some(f.walkingTime.GetOr(0)) else None,
      if SetsArea(t) then Some(NumberOr(f.areaFrom)) else None,
      if SetsArea(t) then Some(NumberOr(f.areaTo)) else None,
      None)
  }

  /** 'complex' takes each key exactly as the search type that owns it would. */
  lemma ComplexCollectsAll(f: SearchForm)
    ensures var o := BuildSearchOptions(Complex, f);
      o.buildingName == BuildSearchOptions(Building, f).buildingName &&
      o.district == BuildSearchOptions(District, f).district &&
      o.station == BuildSearchOptions(Station, f).station &&
      o.walkingTime == BuildSearchOptions(Station, f).walkingTime &&
      o.areaFrom == BuildSearchOptions(Area, f).areaFrom &&
      o.areaTo == BuildSearchOptions(Area, f).areaTo
  {
  }

  /** A number option is truthy when present and non-zero. */
  predicate TruthyNumber(x: Option<int>) { x.Some? && x.value != 0 }

  predicate TruthyReal(x: Option<real>) { x.Some? && x.value != 0.0 }

  /** `Object.values(options).some(v => v)`. */
  predicate HasCondition(o: SearchOptions) {
    Truthy(o.buildingName) || Truthy(o.district) || Truthy(o.station) ||
    TruthyNumber(o.walkingTime) || TruthyReal(o.areaFrom) || TruthyReal(o.areaTo) ||
    Truthy(o.source)
  }

  /** The guard stops only searches that would have returned every record. */
  lemma GuardStopsOnlyVacuous(data: seq<Listing>, t: SearchType, f: SearchForm)
    requires !HasCondition(BuildSearchOptions(t, f))
    ensures SearchVacancies(data, BuildSearchOptions(t, f)) == data
  {
    var o := BuildSearchOptions(t, f);
    forall i | 0 <= i < |data| ensures MatchesTest(o)(data[i]) {
      assert Matches(data[i], o);
    }
    FilterAll(data, MatchesTest(o));
  }

  /** A building-name search goes ahead exactly when the input holds something other than white space. */
  lemma BuildingGuard(f: SearchForm)
    ensures HasCondition(BuildSearchOptions(Building, f)) <==>
      exists k :: 0 <= k < |f.buildingName| && !IsSpace(f.buildingName[k])
  {
    TrimEmpty(f.buildingName);
  }

  /** Likewise for a district search. */
  lemma DistrictGuard(f: SearchForm)
    ensures HasCondition(BuildSearchOptions(District, f)) <==>
      exists k :: 0 <= k < |f.districtName| && !IsSpace(f.districtName[k])
  {
    TrimEmpty(f.districtName);
  }

  /**
   * A station search with a blank station name but a walking time passes
   * the guard, and since the walking time filters nothing, it returns every
   * record.
   */
  lemma WalkingTimeAlone(data: seq<Listing>, f: SearchForm)
    requires Trim(f.stationName) == "" && TruthyNumber(f.walkingTime)
    ensures HasCondition(BuildSearchOptions(Station, f))
    ensures SearchVacancies(data, BuildSearchOptions(Station, f)) == data
  {
    var o := BuildSearchOptions(Station, f);
    forall i | 0 <= i < |data| ensures MatchesTest(o)(data[i]) {
      assert Matches(data[i], o);
    }
    FilterAll(data, MatchesTest(o));
  }

  // ----- the image viewer -----

  /** The viewer title `${buildingName} - ${floor}`. */
  function ViewTitle(item: Listing): string {
    item.buildingName + " - " + item.floor
  }

  /** The viewer caption `출처: ${source} | 발행: ${publishDate}`. */
  function ViewInfo(item: Listing): string {
    "출처: " + item.source + " | 발행: " + item.publishDate
  }

  /** The viewer's "previous" move on a cursor: none at or before the first entry. */
  function PrevIndex(index: int): (r: Option<int>)
    ensures r.Some? <==> index > 0
    ensures r.Some? ==> r.value == index - 1
  {
    if index <= 0 then None else Some(index - 1)
  }

  /** The viewer's "next" move on a cursor over `total` entries: none at or after the last. */
  function NextIndex(index: int, total: nat): (r: Option<int>)
    ensures r.Some? <==> index < total - 1
    ensures r.Some? ==> r.value == index + 1
  {
    if index >= total - 1 then None else Some(index + 1)
  }
}
