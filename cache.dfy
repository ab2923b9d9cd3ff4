/**
 * The module-level caches of `loadBuildings`, `loadVacancies` and
 * `loadMergedData`. Each is served only while the time since the last
 * vacancies fetch is below five minutes. The clock reading and the
 * database snapshot a fetch would return are parameters; `None` stands for
 * `null`, the snapshot of a missing tree.
 */
module Cache {
  import opened Wrappers
  import opened Merge

  /** `CACHE_DURATION`: five minutes in milliseconds. */
  const CacheDuration: int := 5 * 60 * 1000

  /**
   * The cache test `cache && lastFetchTime && (Date.now() - lastFetchTime < CACHE_DURATION)`:
   * the cache is set, the fetch time is set and non-zero, and less than five minutes have passed.
   */
  predicate Fresh(cacheSet: bool, lastFetchTime: Option<int>, now: int) {
    cacheSet && lastFetchTime.Some? && lastFetchTime.value != 0 && now - lastFetchTime.value < CacheDuration
  }

  /** A cache set at fetch time `t` is served for the next five minutes and not afterwards. */
  lemma FreshWindow(t: int, now: int)
    requires t > 0 && now >= t
    ensures Fresh(true, Some(t), now) <==> now < t + 300000
  {
  }

  /**
   * What a loader returns: the cache while fresh, else the fetched
   * snapshot, else the stale cache, else an empty tree.
   */
  function LoadedValue<T>(cache: Option<T>, lastFetchTime: Option<int>, now: int, fetched: Option<T>, empty: T): T {
    if Fresh(cache.Some?, lastFetchTime, now) then cache.value
    else (if fetched.Some? then fetched else cache).GetOr(empty)
  }

  class FirebaseService {
    var buildingsCache: Option<map<string, BuildingFacts>>
    var vacanciesCache: Option<VacancyTree>
    var mergedDataCache: Option<seq<Listing>>
    var lastFetchTime: Option<int>

    /** Page load: every cache and the fetch time start out `null`. */
    constructor ()
      ensures buildingsCache.None? && vacanciesCache.None? && mergedDataCache.None? && lastFetchTime.None?
    {
      buildingsCache := None;
      vacanciesCache := None;
      mergedDataCache := None;
      lastFetchTime := None;
    }

    /**
     * `loadBuildings`: the cached tree while it is fresh; otherwise the
     * fetched snapshot, which replaces the cache unless it is `null`. The
     * fetch time is left alone.
     */
    method LoadBuildings(now: int, fetched: Option<map<string, BuildingFacts>>) returns (buildings: map<string, BuildingFacts>)
      modifies this`buildingsCache
      ensures Fresh(old(buildingsCache).Some?, lastFetchTime, now) ==>
        buildingsCache == old(buildingsCache) && buildings == old(buildingsCache).value
      ensures !Fresh(old(buildingsCache).Some?, lastFetchTime, now) ==>
        buildingsCache == (if fetched.Some? then fetched else old(buildingsCache)) &&
        buildings == buildingsCache.GetOr(map[])
    {
      if Fresh(buildingsCache.Some?, lastFetchTime, now) {
        return buildingsCache.value;
      }
      if fetched.Some? {
        buildingsCache := fetched;
      }
      buildings := buildingsCache.GetOr(map[]);
    }

    /**
     * `loadVacancies`: the same cache rule; on a miss the fetch time is
     * reset, whether or not the snapshot was `null`, to the clock reading
     * `fetchedAt` taken once the snapshot has arrived (the freshness test
     * reads the clock as `now`, before the fetch). It is the only
     * operation that sets the fetch time.
     */
    method LoadVacancies(now: int, fetched: Option<VacancyTree>, fetchedAt: int) returns (vacancies: VacancyTree)
      modifies this`vacanciesCache, this`lastFetchTime
      ensures Fresh(old(vacanciesCache).Some?, old(lastFetchTime), now) ==>
        vacanciesCache == old(vacanciesCache) && lastFetchTime == old(lastFetchTime) &&
        vacancies == old(vacanciesCache).value
      ensures !Fresh(old(vacanciesCache).Some?, old(lastFetchTime), now) ==>
        vacanciesCache == (if fetched.Some? then fetched else old(vacanciesCache)) &&
        lastFetchTime == Some(fetchedAt) &&
        vacancies == vacanciesCache.GetOr([])
    {
      if Fresh(vacanciesCache.Some?, lastFetchTime, now) {
        return vacanciesCache.value;
      }
      if fetched.Some? {
        vacanciesCache := fetched;
      }
      lastFetchTime := Some(fetchedAt);
      vacancies := vacanciesCache.GetOr([]);
    }

    /**
     * `loadMergedData`: the cached list while it is fresh; otherwise both
     * trees are loaded (each under its own cache rule, both tested against
     * the fetch time as it was on entry) and merged afresh. After a miss
     * the merged list is served from the cache by every call within five
     * minutes of `fetchedAt`.
     */
    method LoadMergedData(now: int, fetchedBuildings: Option<map<string, BuildingFacts>>,
                          fetchedVacancies: Option<VacancyTree>, fetchedAt: int) returns (merged: seq<Listing>)
      modifies this
      ensures Fresh(old(mergedDataCache).Some?, old(lastFetchTime), now) ==>
        merged == old(mergedDataCache).value &&
        buildingsCache == old(buildingsCache) && vacanciesCache == old(vacanciesCache) &&
        mergedDataCache == old(mergedDataCache) && lastFetchTime == old(lastFetchTime)
      ensures !Fresh(old(mergedDataCache).Some?, old(lastFetchTime), now) ==>
        merged == MergedRecords(
          LoadedValue(old(vacanciesCache), old(lastFetchTime), now, fetchedVacancies, []),
          LoadedValue(old(buildingsCache), old(lastFetchTime), now, fetchedBuildings, map[])) &&
        mergedDataCache == Some(merged) &&
        buildingsCache == (if Fresh(old(buildingsCache).Some?, old(lastFetchTime), now) then old(buildingsCache)
          else if fetchedBuildings.Some? then fetchedBuildings else old(buildingsCache)) &&
        vacanciesCache == (if Fresh(old(vacanciesCache).Some?, old(lastFetchTime), now) then old(vacanciesCache)
          else if fetchedVacancies.Some? then fetchedVacancies else old(vacanciesCache)) &&
        lastFetchTime == (if Fresh(old(vacanciesCache).Some?, old(lastFetchTime), now) then old(lastFetchTime)
          else Some(fetchedAt))
      ensures (!Fresh(old(mergedDataCache).Some?, old(lastFetchTime), now) &&
               !Fresh(old(vacanciesCache).Some?, old(lastFetchTime), now) && fetchedAt > 0) ==>
        forall later :: fetchedAt <= later < fetchedAt + CacheDuration ==> Fresh(mergedDataCache.Some?, lastFetchTime, later)
    {
      if Fresh(mergedDataCache.Some?, lastFetchTime, now) {
        return mergedDataCache.value;
      }
      var buildings := LoadBuildings(now, fetchedBuildings);
      var vacancies := LoadVacancies(now, fetchedVacancies, fetchedAt);
      merged := MergeData(vacancies, buildings);
      mergedDataCache := Some(merged);
      if lastFetchTime == Some(fetchedAt) && fetchedAt > 0 {
        forall later | fetchedAt <= later < fetchedAt + CacheDuration
          ensures Fresh(mergedDataCache.Some?, lastFetchTime, later)
        {
          FreshWindow(fetchedAt, later);
        }
      }
    }
  }
}
