/**
 * The autocomplete sources `getBuildingNameSuggestions`,
 * `getDistrictSuggestions` and `getStationSuggestions`, and the publisher
 * list of `getSourceList`. Each scans the merged list once, filling a Map
 * or a Set in encounter order.
 */
module Suggestions {
  import opened Wrappers
  import opened Text
  import opened Collections
  import opened Merge
  import opened Tokens

  /** The `slice(0, 10)` cap on every suggestion list. */
  const MaxSuggestions: nat := 10

  // ----- building names -----

  datatype BuildingSuggestion = BuildingSuggestion(name: string, address: string, buildingId: string)

  function NameOf(item: Listing): string { item.buildingName }

  /** `item.buildingName && item.buildingName.toLowerCase().includes(searchTerm)`. */
  predicate NameMatches(item: Listing, query: string) {
    item.buildingName != "" && Includes(Lower(item.buildingName), Lower(query))
  }

  function NameTest(query: string): Listing -> bool {
    item => NameMatches(item, query)
  }

  function Suggest(item: Listing): BuildingSuggestion {
    BuildingSuggestion(item.buildingName, item.address, item.buildingId)
  }

  function SuggestAll(items: seq<Listing>): (r: seq<BuildingSuggestion>)
    ensures |r| == |items| && forall i :: 0 <= i < |items| ==> r[i] == Suggest(items[i])
  {
    seq(|items|, i requires 0 <= i < |items| => Suggest(items[i]))
  }

  /** The first matching record for each building name, in encounter order, at most ten. */
  function BuildingNameSuggestions(data: seq<Listing>, query: string): seq<BuildingSuggestion> {
    if query == "" then []
    else Take(SuggestAll(FirstPerKey(Filter(data, NameTest(query)), NameOf)), MaxSuggestions)
  }

  /** One record's effect on the Map of first records per building name. */
  function NameStep(unique: seq<Listing>, item: Listing, query: string): seq<Listing> {
    if NameMatches(item, query) && IndexOfKey(unique, NameOf, item.buildingName) == |unique| then unique + [item]
    else unique
  }

  lemma NameStepIsFirstPerKey(prefix: seq<Listing>, item: Listing, query: string)
    ensures FirstPerKey(Filter(prefix + [item], NameTest(query)), NameOf) ==
      NameStep(FirstPerKey(Filter(prefix, NameTest(query)), NameOf), item, query)
  {
    var f := Filter(prefix, NameTest(query));
    FilterSnoc(prefix, item, NameTest(query));
    FirstPerKeySnoc(f, item, NameOf);
    if NameMatches(item, query) {
      assert Filter(prefix + [item], NameTest(query)) == f + [item];
    } else {
      assert Filter(prefix + [item], NameTest(query)) == f;
    }
  }

  method GetBuildingNameSuggestions(data: seq<Listing>, query: string) returns (r: seq<BuildingSuggestion>)
    ensures r == BuildingNameSuggestions(data, query)
  {
    if query == "" {
      return [];
    }
    var searchTerm := Lower(query);
    var uniqueBuildings: seq<Listing> := [];
    var i := 0;
    while i < |data|
      invariant 0 <= i <= |data|
      invariant uniqueBuildings == FirstPerKey(Filter(data[..i], NameTest(query)), NameOf)
    {
      var item := data[i];
      PrefixSnoc(data, i);
      NameStepIsFirstPerKey(data[..i], item, query);
      ghost var next := NameStep(uniqueBuildings, item, query);
      if item.buildingName != "" && Includes(Lower(item.buildingName), searchTerm) {
        if IndexOfKey(uniqueBuildings, NameOf, item.buildingName) == |uniqueBuildings| {
          uniqueBuildings := uniqueBuildings + [item];
        }
      }
      assert uniqueBuildings == next;
      i := i + 1;
    }
    PrefixAll(data);
    r := Take(SuggestAll(uniqueBuildings), MaxSuggestions);
  }

  /**
   * An empty query gives nothing; at most ten suggestions, no name twice,
   * and every name is non-empty and contains the query without regard to case.
   */
  lemma BuildingSuggestionsShape(data: seq<Listing>, query: string)
    ensures query == "" ==> BuildingNameSuggestions(data, query) == []
    ensures |BuildingNameSuggestions(data, query)| <= MaxSuggestions
    ensures var r := BuildingNameSuggestions(data, query);
      forall i, j :: 0 <= i < j < |r| ==> r[i].name != r[j].name
    ensures var r := BuildingNameSuggestions(data, query);
      forall i :: 0 <= i < |r| ==> r[i].name != "" && Includes(Lower(r[i].name), Lower(query))
  {
    if query != "" {
      var f := Filter(data, NameTest(query));
      var u := FirstPerKey(f, NameOf);
      assert forall i :: 0 <= i < |u| ==> u[i] in f && NameMatches(u[i], query);
      assert forall i, j :: 0 <= i < j < |u| ==> NameOf(u[i]) != NameOf(u[j]);
    }
  }

  /** Each suggestion is taken from the first record in the list with that building name. */
  lemma BuildingSuggestionIsFirst(data: seq<Listing>, query: string, i: nat)
    requires i < |BuildingNameSuggestions(data, query)|
    ensures var r := BuildingNameSuggestions(data, query);
      IndexOfKey(data, NameOf, r[i].name) < |data| &&
      r[i] == Suggest(data[IndexOfKey(data, NameOf, r[i].name)])
  {
    var f := Filter(data, NameTest(query));
    var u := FirstPerKey(f, NameOf);
    var name := u[i].buildingName;
    FirstPerKeyIsFirst(f, NameOf, i);
    assert u[i] in f;
    assert NameMatches(u[i], query);
    FilterFirstKey(data, NameTest(query), NameOf, name);
  }

  /** A matching building name is missing only when ten suggestions were already found. */
  lemma BuildingSuggestionsComplete(data: seq<Listing>, query: string, j: nat)
    requires query != "" && j < |data| && NameMatches(data[j], query)
    ensures var r := BuildingNameSuggestions(data, query);
      |r| == MaxSuggestions || exists i :: 0 <= i < |r| && r[i].name == data[j].buildingName
  {
    var f := Filter(data, NameTest(query));
    var u := FirstPerKey(f, NameOf);
    FilterKeeps(data, NameTest(query), j);
    var t :| 0 <= t < |f| && f[t] == data[j];
    FirstPerKeyComplete(f, NameOf);
    var p := IndexOfKey(u, NameOf, NameOf(f[t]));
    var r := BuildingNameSuggestions(data, query);
    if p < MaxSuggestions {
      assert r[p].name == data[j].buildingName;
    }
  }

  // ----- districts -----

  /** The token a pattern finds, kept when it contains the query without regard to case. */
  function Keep(t: Option<string>, query: string): (r: seq<string>)
    ensures |r| <= 1 && (|r| == 1 ==> t == Some(r[0]) && Includes(Lower(r[0]), Lower(query)))
  {
    if t.Some? && Includes(Lower(t.value), Lower(query)) then [t.value] else []
  }

  /**
   * The district candidates one record contributes: the first district,
   * neighbourhood and road token of its address, in that order, each when
   * it contains the query; none when the address is empty.
   */
  function AddressCandidates(item: Listing, query: string): seq<string> {
    if item.address == "" then []
    else
      Keep(FirstToken(item.address, HangulBody(), GuEnd()), query) +
      Keep(FirstToken(item.address, HangulBody(), DongEnd()), query) +
      Keep(FirstToken(item.address, RoadBody(), RoadEnd()), query)
  }

  /** A candidate contains the query and is a district, neighbourhood or road token of the address. */
  lemma AddressCandidate(item: Listing, query: string, t: string)
    requires t in AddressCandidates(item, query)
    ensures Includes(Lower(t), Lower(query)) && Includes(item.address, t)
    ensures IsToken(t, HangulBody(), GuEnd()) || IsToken(t, HangulBody(), DongEnd()) || IsToken(t, RoadBody(), RoadEnd())
  {
    var gu := Keep(FirstToken(item.address, HangulBody(), GuEnd()), query);
    var dong := Keep(FirstToken(item.address, HangulBody(), DongEnd()), query);
    var road := Keep(FirstToken(item.address, RoadBody(), RoadEnd()), query);
    assert t in gu || t in dong || t in road;
  }

  /** All district candidates, in encounter order, repetitions included. */
  function DistrictCandidates(data: seq<Listing>, query: string): seq<string> {
    if data == [] then []
    else DistrictCandidates(data[..|data| - 1], query) + AddressCandidates(data[|data| - 1], query)
  }

  /** The distinct candidates sorted by the default string order, then the first ten. */
  function DistrictSuggestions(data: seq<Listing>, query: string): seq<string> {
    if query == "" then [] else Take(SortLex(Dedup(DistrictCandidates(data, query))), MaxSuggestions)
  }

  /** The Set after offering it one pattern's token. */
  function AddKept(acc: seq<string>, t: Option<string>, query: string): seq<string> {
    if t.Some? && Includes(Lower(t.value), Lower(query)) then SetAdd(acc, t.value) else acc
  }

  lemma AddAllKeep(acc: seq<string>, t: Option<string>, query: string)
    ensures AddAll(acc, Keep(t, query)) == AddKept(acc, t, query)
  {
    if t.Some? && Includes(Lower(t.value), Lower(query)) {
      AddAllSingle(acc, t.value);
    }
  }

  lemma DistrictCandidatesSnoc(data: seq<Listing>, i: nat, query: string)
    requires i < |data|
    ensures DistrictCandidates(data[..i + 1], query) == DistrictCandidates(data[..i], query) + AddressCandidates(data[i], query)
  {
    PrefixSnoc(data, i);
  }

  /** One record's effect on the Set of districts. */
  lemma DistrictStep(before: seq<string>, item: Listing, query: string)
    ensures Dedup(before + AddressCandidates(item, query)) ==
      if item.address == "" then Dedup(before)
      else
        AddKept(AddKept(AddKept(Dedup(before),
          FirstToken(item.address, HangulBody(), GuEnd()), query),
          FirstToken(item.address, HangulBody(), DongEnd()), query),
          FirstToken(item.address, RoadBody(), RoadEnd()), query)
  {
    var gu := FirstToken(item.address, HangulBody(), GuEnd());
    var dong := FirstToken(item.address, HangulBody(), DongEnd());
    var road := FirstToken(item.address, RoadBody(), RoadEnd());
    DedupAppend(before, AddressCandidates(item, query));
    if item.address == "" {
      assert before + [] == before;
    } else {
      var d := Dedup(before);
      AddAllAppend(d, Keep(gu, query) + Keep(dong, query), Keep(road, query));
      AddAllAppend(d, Keep(gu, query), Keep(dong, query));
      AddAllKeep(d, gu, query);
      AddAllKeep(AddKept(d, gu, query), dong, query);
      AddAllKeep(AddKept(AddKept(d, gu, query), dong, query), road, query);
    }
  }

  /** The `forEach` callback: offers the record's three address tokens to the Set. */
  method VisitAddress(districts: seq<string>, item: Listing, query: string, searchTerm: string) returns (r: seq<string>)
    requires searchTerm == Lower(query)
    ensures r == if item.address == "" then districts
      else
        AddKept(AddKept(AddKept(districts,
          FirstToken(item.address, HangulBody(), GuEnd()), query),
          FirstToken(item.address, HangulBody(), DongEnd()), query),
          FirstToken(item.address, RoadBody(), RoadEnd()), query)
  {
    r := districts;
    if item.address != "" {
      var guMatch := FirstToken(item.address, HangulBody(), GuEnd());
      if guMatch.Some? && Includes(Lower(guMatch.value), searchTerm) {
        if guMatch.value !in r { r := r + [guMatch.value]; }
      }
      var dongMatch := FirstToken(item.address, HangulBody(), DongEnd());
      if dongMatch.Some? && Includes(Lower(dongMatch.value), searchTerm) {
        if dongMatch.value !in r { r := r + [dongMatch.value]; }
      }
      var roadMatch := FirstToken(item.address, RoadBody(), RoadEnd());
      if roadMatch.Some? && Includes(Lower(roadMatch.value), searchTerm) {
        if roadMatch.value !in r { r := r + [roadMatch.value]; }
      }
    }
  }

  method GetDistrictSuggestions(data: seq<Listing>, query: string) returns (r: seq<string>)
    ensures r == DistrictSuggestions(data, query)
  {
    if query == "" {
      return [];
    }
    var searchTerm := Lower(query);
    var districts: seq<string> := [];
    var i := 0;
    while i < |data|
      invariant 0 <= i <= |data|
      invariant districts == Dedup(DistrictCandidates(data[..i], query))
    {
      DistrictCandidatesSnoc(data, i, query);
      DistrictStep(DistrictCandidates(data[..i], query), data[i], query);
      districts := VisitAddress(districts, data[i], query, searchTerm);
      i := i + 1;
    }
    PrefixAll(data);
    r := Take(SortLex(districts), MaxSuggestions);
  }

  /** Adding one more candidate to the Set. */
  lemma AddStep(before: seq<string>, added: seq<string>, t: string)
    ensures Dedup(before + (added + [t])) == SetAdd(Dedup(before + added), t)
  {
    assert before + (added + [t]) == (before + added) + [t];
    DedupSnoc(before + added, t);
  }

  /**
   * An empty query gives nothing; at most ten suggestions, sorted, no
   * repetitions, each containing the query and cut from some record's
   * address by one of the three patterns.
   */
  lemma DistrictSuggestionsShape(data: seq<Listing>, query: string)
    ensures query == "" ==> DistrictSuggestions(data, query) == []
    ensures |DistrictSuggestions(data, query)| <= MaxSuggestions
    ensures SortedLex(DistrictSuggestions(data, query))
    ensures Distinct(DistrictSuggestions(data, query))
    ensures var r := DistrictSuggestions(data, query);
      forall i :: 0 <= i < |r| ==> (Includes(Lower(r[i]), Lower(query)) &&
        exists j :: 0 <= j < |data| && r[i] in AddressCandidates(data[j], query))
  {
    if query != "" {
      var c := DistrictCandidates(data, query);
      var d := Dedup(c);
      var u := SortLex(d);
      var r := Take(u, MaxSuggestions);
      DedupMember(c);
      DistinctPerm(d, u);
      forall i | 0 <= i < |r|
        ensures Includes(Lower(r[i]), Lower(query)) && exists j :: 0 <= j < |data| && r[i] in AddressCandidates(data[j], query)
      {
        assert r[i] in multiset(u);
        assert r[i] in c;
        CandidateSource(data, query, r[i]);
      }
    }
  }

  /** Every candidate comes from one record's address. */
  lemma {:induction false} CandidateSource(data: seq<Listing>, query: string, t: string)
    requires t in DistrictCandidates(data, query)
    ensures Includes(Lower(t), Lower(query))
    ensures exists j :: 0 <= j < |data| && t in AddressCandidates(data[j], query)
  {
    var n := |data| - 1;
    var init := data[..n];
    assert DistrictCandidates(data, query) == DistrictCandidates(init, query) + AddressCandidates(data[n], query);
    if t in DistrictCandidates(init, query) {
      CandidateSource(init, query, t);
      var j :| 0 <= j < |init| && t in AddressCandidates(init[j], query);
      assert data[j] == init[j];
    } else {
      AddressCandidate(data[n], query, t);
    }
  }

  /**
   * Sorting comes before the cut: a candidate left out is preceded by ten
   * suggestions, each at most it in string order.
   */
  lemma DistrictSortedBeforeTruncation(data: seq<Listing>, query: string, t: string)
    requires query != "" && t in DistrictCandidates(data, query) && t !in DistrictSuggestions(data, query)
    ensures |DistrictSuggestions(data, query)| == MaxSuggestions
    ensures var r := DistrictSuggestions(data, query); forall i :: 0 <= i < |r| ==> LexLe(r[i], t)
  {
    var c := DistrictCandidates(data, query);
    var d := Dedup(c);
    var u := SortLex(d);
    var r := Take(u, MaxSuggestions);
    DedupMember(c);
    assert t in multiset(u);
    var p :| 0 <= p < |u| && u[p] == t;
    assert p >= MaxSuggestions;
    forall i | 0 <= i < |r| ensures LexLe(r[i], t) {
      SortedLexPairs(u, i, p);
    }
  }

  // ----- stations -----

  /** `item.nearbyStation && item.nearbyStation.toLowerCase().includes(searchTerm)`: the whole station text is tested. */
  predicate StationMatches(item: Listing, query: string) {
    item.nearbyStation != "" && Includes(Lower(item.nearbyStation), Lower(query))
  }

  /** `item.nearbyStation.match(/[가-힣A-Za-z0-9]+역/g)`, none standing for `null`. */
  function StationTokens(item: Listing): seq<string> {
    AllTokens(item.nearbyStation, 0, StationBody(), StationEnd())
  }

  function StationCandidates(data: seq<Listing>, query: string): seq<string> {
    if data == [] then []
    else
      var last := data[|data| - 1];
      StationCandidates(data[..|data| - 1], query) + (if StationMatches(last, query) then StationTokens(last) else [])
  }

  /** The distinct station tokens in encounter order, at most ten; not sorted. */
  function StationSuggestions(data: seq<Listing>, query: string): seq<string> {
    if query == "" then [] else Take(Dedup(StationCandidates(data, query)), MaxSuggestions)
  }

  method GetStationSuggestions(data: seq<Listing>, query: string) returns (r: seq<string>)
    ensures r == StationSuggestions(data, query)
  {
    if query == "" {
      return [];
    }
    var searchTerm := Lower(query);
    var stations: seq<string> := [];
    var i := 0;
    while i < |data|
      invariant 0 <= i <= |data|
      invariant stations == Dedup(StationCandidates(data[..i], query))
    {
      var item := data[i];
      PrefixSnoc(data, i);
      ghost var before := StationCandidates(data[..i], query);
      if item.nearbyStation != "" && Includes(Lower(item.nearbyStation), searchTerm) {
        var stationMatches := AllTokens(item.nearbyStation, 0, StationBody(), StationEnd());
        var j := 0;
        assert before + stationMatches[..0] == before;
        while j < |stationMatches|
          invariant 0 <= j <= |stationMatches|
          invariant stations == Dedup(before + stationMatches[..j])
        {
          var s := stationMatches[j];
          PrefixSnoc(stationMatches, j);
          AddStep(before, stationMatches[..j], s);
          if s !in stations {
            stations := stations + [s];
          }
          j := j + 1;
        }
        PrefixAll(stationMatches);
      } else {
        assert before + [] == before;
      }
      i := i + 1;
    }
    PrefixAll(data);
    r := Take(stations, MaxSuggestions);
  }

  /**
   * An empty query gives nothing; at most ten suggestions, no repetitions,
   * each a station token found in the station text of a record whose
   * station text contains the query.
   */
  lemma StationSuggestionsShape(data: seq<Listing>, query: string)
    ensures query == "" ==> StationSuggestions(data, query) == []
    ensures |StationSuggestions(data, query)| <= MaxSuggestions
    ensures Distinct(StationSuggestions(data, query))
    ensures var r := StationSuggestions(data, query);
      forall i :: 0 <= i < |r| ==> (IsToken(r[i], StationBody(), StationEnd()) &&
        exists j :: 0 <= j < |data| && StationMatches(data[j], query) && Includes(data[j].nearbyStation, r[i]))
  {
    if query != "" {
      var c := StationCandidates(data, query);
      var r := StationSuggestions(data, query);
      DedupMember(c);
      forall i | 0 <= i < |r|
        ensures IsToken(r[i], StationBody(), StationEnd()) &&
          exists j :: 0 <= j < |data| && StationMatches(data[j], query) && Includes(data[j].nearbyStation, r[i])
      {
        assert r[i] in Dedup(c);
        StationSource(data, query, r[i]);
      }
    }
  }

  lemma {:induction false} StationSource(data: seq<Listing>, query: string, t: string)
    requires t in StationCandidates(data, query)
    ensures IsToken(t, StationBody(), StationEnd())
    ensures exists j :: 0 <= j < |data| && StationMatches(data[j], query) && Includes(data[j].nearbyStation, t)
  {
    var init, last := data[..|data| - 1], data[|data| - 1];
    if t in StationCandidates(init, query) {
      StationSource(init, query, t);
      var j :| 0 <= j < |init| && StationMatches(init[j], query) && Includes(init[j].nearbyStation, t);
      assert data[j] == init[j];
    } else {
      var c := StationTokens(last);
      assert t in c;
      var m :| 0 <= m < |c| && c[m] == t;
      assert data[|data| - 1] == last;
    }
  }

  /** Every token of every matching record is a candidate. */
  lemma {:induction false} StationCandidatesComplete(data: seq<Listing>, query: string, j: nat, t: string)
    requires j < |data| && StationMatches(data[j], query) && t in StationTokens(data[j])
    ensures t in StationCandidates(data, query)
  {
    var init, last := data[..|data| - 1], data[|data| - 1];
    assert StationCandidates(data, query) ==
      StationCandidates(init, query) + (if StationMatches(last, query) then StationTokens(last) else []);
    if j < |data| - 1 {
      assert init[j] == data[j];
      StationCandidatesComplete(init, query, j, t);
    }
  }

  /** A station token of a matching record is missing only when ten suggestions were already found. */
  lemma StationSuggestionsComplete(data: seq<Listing>, query: string, j: nat, t: string)
    requires query != "" && j < |data| && StationMatches(data[j], query) && t in StationTokens(data[j])
    ensures var r := StationSuggestions(data, query);
      |r| == MaxSuggestions || t in r
  {
    var c := StationCandidates(data, query);
    StationCandidatesComplete(data, query, j, t);
    DedupMember(c);
    var u := Dedup(c);
    if |u| <= MaxSuggestions {
      assert StationSuggestions(data, query) == u;
    }
  }

  lemma StationCandidatesSingle(item: Listing, query: string)
    ensures StationCandidates([item], query) == if StationMatches(item, query) then StationTokens(item) else []
  {
    assert [item][..0] == [];
  }

  lemma GangnamInText()
    ensures Includes(Lower("강남역 역삼역"), Lower("강남"))
  {
    assert Lower("강남역 역삼역") == "강남역 역삼역";
    assert Lower("강남") == "강남";
    assert OccursAt("강남역 역삼역", "강남", 0);
  }

  lemma GangnamNotInYeoksam()
    ensures !Includes(Lower("역삼역"), Lower("강남"))
  {
    var other, query := "역삼역", "강남";
    assert Lower(other) == other;
    assert Lower(query) == query;
    assert other[0..2] != query by { assert other[0..2][0] == '역'; }
    assert other[1..3] != query by { assert other[1..3][0] == '삼'; }
  }

  lemma GangnamCandidates(item: Listing)
    requires item.nearbyStation == "강남역 역삼역"
    ensures StationCandidates([item], "강남") == ["강남역", "역삼역"]
  {
    GangnamInText();
    TwoStations();
    StationCandidatesSingle(item, "강남");
  }

  /**
   * The whole station text is tested, not each station: a record near
   * "강남역 역삼역" offers "역삼역" to the query "강남", which it does not contain.
   */
  lemma StationSuggestionWithoutQuery(item: Listing)
    requires item.nearbyStation == "강남역 역삼역"
    ensures StationSuggestions([item], "강남") == ["강남역", "역삼역"]
    ensures !Includes(Lower("역삼역"), Lower("강남"))
  {
    GangnamCandidates(item);
    GangnamNotInYeoksam();
    assert "강남역"[0] != "역삼역"[0];
    DedupPair("강남역", "역삼역");
  }

  // ----- publishers -----

  /** The non-empty `source` values, in encounter order, repetitions included. */
  function Sources(data: seq<Listing>): seq<string> {
    if data == [] then []
    else
      var last := data[|data| - 1];
      Sources(data[..|data| - 1]) + (if last.source != "" then [last.source] else [])
  }

  /** `getSourceList`: the distinct non-empty publishers, sorted. */
  function SourceList(data: seq<Listing>): seq<string> {
    SortLex(Dedup(Sources(data)))
  }

  lemma SourcesSnoc(data: seq<Listing>, i: nat)
    requires i < |data|
    ensures Sources(data[..i + 1]) == Sources(data[..i]) + (if data[i].source != "" then [data[i].source] else [])
  {
    PrefixSnoc(data, i);
  }

  method GetSourceList(data: seq<Listing>) returns (r: seq<string>)
    ensures r == SourceList(data)
  {
    var sources: seq<string> := [];
    var i := 0;
    while i < |data|
      invariant 0 <= i <= |data|
      invariant sources == Dedup(Sources(data[..i]))
    {
      var item := data[i];
      SourcesSnoc(data, i);
      if item.source != "" {
        DedupSnoc(Sources(data[..i]), item.source);
        if item.source !in sources {
          sources := sources + [item.source];
        }
      } else {
        assert Sources(data[..i]) + [] == Sources(data[..i]);
      }
      i := i + 1;
    }
    PrefixAll(data);
    r := SortLex(sources);
  }

  lemma {:induction false} SourcesMember(data: seq<Listing>, s: string)
    ensures s in Sources(data) <==> s != "" && exists j :: 0 <= j < |data| && data[j].source == s
  {
    if data != [] {
      var init, last := data[..|data| - 1], data[|data| - 1];
      SourcesMember(init, s);
      assert forall j :: 0 <= j < |init| ==> data[j].source == init[j].source;
    }
  }

  /** The publisher list is sorted, has no repetitions, and names exactly the non-empty sources in the list. */
  lemma SourceListShape(data: seq<Listing>)
    ensures SortedLex(SourceList(data)) && Distinct(SourceList(data))
    ensures forall s :: s in SourceList(data) <==> s != "" && exists j :: 0 <= j < |data| && data[j].source == s
  {
    var c := Sources(data);
    DedupMember(c);
    DistinctPerm(Dedup(c), SourceList(data));
    forall s ensures s in SourceList(data) <==> s != "" && exists j :: 0 <= j < |data| && data[j].source == s {
      SourcesMember(data, s);
      assert s in SourceList(data) <==> s in multiset(SourceList(data));
      assert s in Dedup(c) <==> s in multiset(Dedup(c));
    }
  }
}
