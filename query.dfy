/**
 * `searchVacancies`: an AND of the active criteria over the merged list,
 * keeping list order. A criterion is active when its option is truthy;
 * text criteria are case-insensitive substring tests.
 */
module Query {
  import opened Wrappers
  import opened Text
  import opened Collections
  import opened Merge

  /**
   * The options object. A field is `None` when the key is absent, and the
   * destructuring default ('' or 0) applies.
   */
  datatype SearchOptions = SearchOptions(
    buildingName: Option<string>,
    district: Option<string>,
    station: Option<string>,
    walkingTime: Option<int>,
    areaFrom: Option<real>,
    areaTo: Option<real>,
    source: Option<string>)

  const NoOptions: SearchOptions := SearchOptions(None, None, None, None, None, None, None)

  /** `(field || '').toLowerCase().includes(term.toLowerCase())`. */
  predicate TextMatches(field: string, term: string) {
    Includes(Lower(field), Lower(term))
  }

  /**
   * The filter callback, with its early returns: each active criterion in
   * turn may reject the record.
   */
  predicate Matches(item: Listing, options: SearchOptions) {
    var buildingName := options.buildingName.GetOr("");
    var district := options.district.GetOr("");
    var station := options.station.GetOr("");
    var areaFrom := options.areaFrom.GetOr(0.0);
    var areaTo := options.areaTo.GetOr(0.0);
    var source := options.source.GetOr("");
    if buildingName != "" && !TextMatches(item.buildingName, buildingName) then false
    else if district != "" && !TextMatches(item.address, district) then false
    else if station != "" && !TextMatches(item.nearbyStation, station) then false
    else if areaFrom > 0.0 && item.exclusiveArea < areaFrom then false
    else if areaTo > 0.0 && item.exclusiveArea > areaTo then false
    else if source != "" && !TextMatches(item.source, source) then false
    else true
  }

  /** The search: the records the callback keeps, in list order. */
  function SearchVacancies(data: seq<Listing>, options: SearchOptions): (r: seq<Listing>)
    ensures forall i :: 0 <= i < |r| ==> r[i] in data && Matches(r[i], options)
    ensures forall i :: 0 <= i < |data| && Matches(data[i], options) ==> data[i] in r
  {
    FilterKeepsAll(data, MatchesTest(options));
    Filter(data, MatchesTest(options))
  }

  function MatchesTest(options: SearchOptions): Listing -> bool {
    item => Matches(item, options)
  }

  /**
   * The criteria as a conjunction, one clause per option: an empty text or a
   * bound not above zero imposes nothing, and area bounds are inclusive.
   */
  predicate AllCriteriaHold(item: Listing, o: SearchOptions) {
    && (Truthy(o.buildingName) ==> TextMatches(item.buildingName, o.buildingName.value))
    && (Truthy(o.district) ==> TextMatches(item.address, o.district.value))
    && (Truthy(o.station) ==> TextMatches(item.nearbyStation, o.station.value))
    && (o.areaFrom.Some? && o.areaFrom.value > 0.0 ==> o.areaFrom.value <= item.exclusiveArea)
    && (o.areaTo.Some? && o.areaTo.value > 0.0 ==> item.exclusiveArea <= o.areaTo.value)
    && (Truthy(o.source) ==> TextMatches(item.source, o.source.value))
  }

  /** The early-return chain accepts exactly the records meeting every criterion. */
  lemma MatchesIsConjunction(item: Listing, o: SearchOptions)
    ensures Matches(item, o) <==> AllCriteriaHold(item, o)
  {
  }

  /** The search keeps exactly the records of the list meeting every criterion. */
  lemma SearchMember(data: seq<Listing>, o: SearchOptions, item: Listing)
    ensures item in SearchVacancies(data, o) <==> item in data && AllCriteriaHold(item, o)
  {
    MatchesIsConjunction(item, o);
    var r := SearchVacancies(data, o);
    if item in r {
      var i :| 0 <= i < |r| && r[i] == item;
    }
    if item in data && AllCriteriaHold(item, o) {
      var i :| 0 <= i < |data| && data[i] == item;
    }
  }

  /** The search keeps list order: it distributes over concatenation. */
  lemma SearchAppend(a: seq<Listing>, b: seq<Listing>, o: SearchOptions)
    ensures SearchVacancies(a + b, o) == SearchVacancies(a, o) + SearchVacancies(b, o)
  {
    FilterAppend(a, b, MatchesTest(o));
  }

  /** `walkingTime` is read from the options and never used. */
  lemma WalkingTimeIgnored(data: seq<Listing>, o: SearchOptions, w: Option<int>)
    ensures SearchVacancies(data, o.(walkingTime := w)) == SearchVacancies(data, o)
  {
    FilterExt(data, MatchesTest(o.(walkingTime := w)), MatchesTest(o));
  }

  /** With no active criterion the whole list comes back. */
  lemma EmptyOptionsMatchAll(data: seq<Listing>)
    ensures SearchVacancies(data, NoOptions) == data
  {
    FilterAll(data, MatchesTest(NoOptions));
  }

  /** Lower-casing a character twice is lower-casing it once. */
  lemma {:induction false} LowerIdempotent(s: string)
    ensures Lower(Lower(s)) == Lower(s)
  {
    assert forall i :: 0 <= i < |s| ==> LowerChar(LowerChar(s[i])) == LowerChar(s[i]);
  }

  /** Text criteria ignore the letter case of the search term. */
  lemma CaseInsensitive(field: string, term: string)
    ensures TextMatches(field, Lower(term)) == TextMatches(field, term)
  {
    LowerIdempotent(term);
  }
}
