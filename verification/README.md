# Verification model of the itinerary planner's core services

A Dafny model of the parts of the planner that keep shared state or compute with it, and proofs about them.
Distances, solver results, H3 cells, spatial index answers and the clock are inputs; floating-point numbers are
exact reals or integers.  A class stands where the source has an object that its methods update; each of its
methods is proved against a function of the old state, and the promises are proved about that function or over
all runs.

| module | models |
|---|---|
| `LazyGraphCache`, `LazyGraphCacheSafety`, `LazyGraphCacheProgress`, `LazyGraphCacheResults`, `LazyGraphCacheWitnesses` | lazy loading with double-checked locking and concurrent clearing, one atomic step per shared read or write |
| `GraphRouter` | the same methods called from one thread, tied to the protocol's steps |
| `Apportionment`, `DayDistribution`, `DayQuotas` | proportional days with half-to-even rounding and a correction, and the exact quotas they follow |
| `DaySchedules`, `CitySequence`, `Itinerary` | slicing points of interest into days, the greedy order, the whole pipeline |
| `MultiCountry`, `MultiCountryTheorems` | grouping by country and merging the countries' tours |
| `HotelStays` | hotel stays and their re-sequencing |
| `MatrixFill`, `DistanceCache`, `DistanceCacheTheorems`, `DistanceCacheRuns`, `DistanceCacheKeys` | distance matrices, their cache with time to live and capacity, and what its key leaves out |
| `NearestNeighbourTour` | the nearest-neighbour tour and its distance from the optimum |
| `SpeedProfile`, `RoadGraph`, `RoadGraphRows`, `AStarHeuristic`, `NearestNode` | the partitioned road graph, the A* heuristic, snapping to the road |
| `CircuitBreaker` | the circuit breaker under overlapping calls |
| `ParallelStats` | batches and running statistics |
| `DurationText`, `FallbackDays` | duration texts and the fallback split into days |
| `Wrappers`, `Sets`, `Sequences`, `Sorting`, `Cities` | shared helpers |

Where the code and its documentation or an expectation differ, the code is modelled and the difference is a
lemma: the cache key sorts the places (services/ortools_distance_cache.py:99) although its description says the
order is part of the key (line 87), and it leaves out the preferred source; the parallel fill takes roads for
symmetric; enough days for all cities means more than n(n-1)/2, not n, and with 0 days for a city the fallback of
services/multi_city_optimizer.py:447 divides by zero; a trip through several countries begins in the start city's
country but not in the start city; the countries' blocks need not add up to the days asked for; the loser of two
racing clearers leaves through a KeyError; a check-in day falls behind the itinerary after a one-day city; the two
road services drive at different speeds; raceways, and any speed limit above 120 km/h, break the heuristic's
assumption; calls other than the test of recovery can close the half-open breaker; worker health is kept under
names that no result carries, unless a process id happens to be a small worker index; a floating-point sum of
minutes is printed so that its own endpoint cannot read it; a load that moves an indexed node makes a memoised
answer wrong.

## Model

| member | source | states |
|---|---|---|
| `LazyGraphCache.RunsKeepInv` | services/chile_multimodal_router.py:60-109 | after every run of any number of threads, with one step per shared access, the lock is held by exactly the thread inside the `with` block, and data, flag and counters stand in the relation each program point relies on |
| `LazyGraphCacheSafety.MutualExclusion` | services/chile_multimodal_router.py:73-78 | two threads inside the lock of one mode are the same thread |
| `LazyGraphCacheSafety.OnlyTheOwnerWrites` | services/chile_multimodal_router.py:97-99 | a step that changes a mode's data or flag is made by the holder of that mode's lock |
| `LazyGraphCacheSafety.FlagMatchesData` | services/chile_multimodal_router.py:165-176 | lock free implies flag set iff data present; flag without data occurs only while a clearer stands between its two writes, data without flag only while a loader does |
| `LazyGraphCacheSafety.LoadsMinusClears` | services/chile_multimodal_router.py:98 | in every reachable state, graphs stored minus graphs deleted is 1 if the mode is in memory and 0 if not |
| `LazyGraphCacheSafety.HitsNeverExceedCompleted` | services/chile_multimodal_router.py:70 | with the increment split into read and write, the stored hits never exceed the completed ones |
| `LazyGraphCacheSafety.LosingClearer` | services/chile_multimodal_router.py:165-168 | a single-mode clear raises iff it finds the data gone under the lock, and then writes nothing; its next step leaves the `with` block, frees the lock and lets the error escape |
| `LazyGraphCacheSafety.LosesIff` | services/chile_multimodal_router.py:165-168 | told by the run: a clearer that has found the mode in memory and now holds its lock raises iff since then a deletion has not been followed by a store |
| `LazyGraphCacheSafety.ClearAllNeverRaises` | services/chile_multimodal_router.py:172-176 | clearing all modes tests under the lock, and its deletion always finds the data |
| `LazyGraphCacheSafety.FastReader` | services/chile_multimodal_router.py:69-71 | a reader that passed the unlocked check gets nothing exactly if the data is gone when it reads, which takes a deletion since, or a clear caught between its writes |
| `LazyGraphCacheSafety.FastCheckRecords` | services/chile_multimodal_router.py:69 | what the unlocked check has seen is what its later steps rely on |
| `LazyGraphCacheSafety.ClearFreeLoadsOnce` | services/chile_multimodal_router.py:73-105 | without clearing, a mode is stored from disk at most once, however many threads race |
| `LazyGraphCacheSafety.ClearFreeFastReader` | services/chile_multimodal_router.py:69-71 | without clearing, a reader that passes the unlocked check always gets the data |
| `LazyGraphCacheSafety.ClearFreeCallersShare` | services/chile_multimodal_router.py:60-109 | without clearing, all callers that get a graph of a mode get the same one |
| `LazyGraphCacheResults.FlagUnderLockReturns` | services/chile_multimodal_router.py:73-78 | after any run, a load that holds the lock and finds the flag set returns exactly the graph in memory then, and there is one, whatever other threads do until it returns |
| `LazyGraphCacheResults.SlowGetReturns` | services/chile_multimodal_router.py:76-78 | what it finds in memory after counting its hit is what it returns |
| `LazyGraphCacheResults.DiskReadReturns` | services/chile_multimodal_router.py:80-109 | a load that goes to the disk returns exactly what its own read delivers |
| `LazyGraphCacheResults.ReturnsNothingIff` | services/chile_multimodal_router.py:60-109 | after any run, a call that has returned has no graph iff its own read of the disk failed, or it passed the unlocked check and then found the mode gone |
| `LazyGraphCacheResults.ClearFreeReturnsNothingIff` | services/chile_multimodal_router.py:60-109 | without clearing, iff its own read of the disk failed |
| `LazyGraphCacheResults.ReturnedGraphWasInMemory` | services/chile_multimodal_router.py:60-109 | a graph that a call returns was in memory at some moment of the call |
| `LazyGraphCacheResults.EveryFindCountsOnce` | services/chile_multimodal_router.py:69-78 | every load that finds the flag set, with the lock or without, counts one hit: the finds are the completed counts and those under way |
| `LazyGraphCacheResults.ClearAllDropsAll` | services/chile_multimodal_router.py:171-177 | clearing all modes returns without an error, and by then has dropped data and flag of each of the three under its lock |
| `LazyGraphCacheSafety.HitsAreExactIff` | services/chile_multimodal_router.py:70 | after any run the stored hits of a mode are the completed ones iff every write of its counter found the value its own read had found |
| `LazyGraphCacheSafety.SerialisedHitsAreExact` | services/chile_multimodal_router.py:70 | in particular they are exact if increments never overlap |
| `LazyGraphCacheProgress.NoDeadlock` | services/chile_multimodal_router.py:74 | in every reachable state, a call that has not returned can move, or the holder of the lock it waits for can |
| `LazyGraphCacheProgress.EveryScheduleEnds` | services/chile_multimodal_router.py:60-177 | once no further call starts, any schedule makes at most as many further moves as the calls have left |
| `LazyGraphCacheProgress.StuckMeansFinished` | services/chile_multimodal_router.py:60-177 | when no thread can move, every call has returned |
| `LazyGraphCacheWitnesses.LostHit` | services/chile_multimodal_router.py:70 | a run in which two hits complete and one is counted |
| `LazyGraphCacheWitnesses.FastReaderGetsNothing` | services/chile_multimodal_router.py:69-71 | a run in which a counted hit returns nothing because a clear overtook it |
| `LazyGraphCacheWitnesses.LoserRaises` | services/chile_multimodal_router.py:165-167 | a run in which the second of two clearers leaves through a KeyError, and lock, data and flag are as they should be |
| `GraphRouter.Router.LoadCacheForMode` | services/chile_multimodal_router.py:60-109 | the method over its dictionaries: its result and new state are those of an uninterrupted load, other modes untouched |
| `GraphRouter.Router.PreloadCache` | services/chile_multimodal_router.py:136-142 | true iff the mode is in memory afterwards, which is iff it was before or the disk delivers it |
| `GraphRouter.Router.GetRoute` | services/chile_multimodal_router.py:223-237 | counts the request, loads, and tells whether the graph is in memory afterwards |
| `GraphRouter.Router.ClearMemoryCache` | services/chile_multimodal_router.py:163-169 | drops data and flag of one mode; a mode that is not in memory is left alone |
| `GraphRouter.Router.ClearAll` | services/chile_multimodal_router.py:171-176 | drops data and flag of every mode and keeps the counters |
| `GraphRouter.Router.OptimizeMemory` | services/chile_multimodal_router.py:380-389 | exactly the modes in memory with fewer than 5 requests and a hit ratio below one half are cleared |
| `GraphRouter.StaysIff` | services/chile_multimodal_router.py:380-389 | a mode is kept iff it is not in memory, at least 5 requests have asked for it, or of one or more at least half were hits |
| `GraphRouter.LoadRunsAsCall` | services/chile_multimodal_router.py:60-109 | the steps of a load that nothing interrupts, from the start of the call on, have the effect of the method |
| `GraphRouter.RouteRunsAsCall` | services/chile_multimodal_router.py:223-237 | the steps of a request that nothing interrupts count it and then have the effect of the load |
| `GraphRouter.ClearRunsAsCall` | services/chile_multimodal_router.py:163-169 | the steps of a single-mode clear that nothing interrupts have the effect of the method and never raise |
| `GraphRouter.ClearAllRunsAsCall` | services/chile_multimodal_router.py:171-176 | one mode's turn in clearing all modes has the effect of one iteration of the loop |
| `Apportionment.RoundHalfEven` | services/multi_city_optimizer_simple.py:243 | Python's `round` of a quotient: within one half, and even at a half |
| `Apportionment.RoundIsMonotone` | services/multi_city_optimizer_simple.py:243 | rounding keeps order |
| `Apportionment.SharesAreMonotone` | services/multi_city_optimizer_simple.py:243-244 | before the correction, a larger weight never gets fewer days |
| `Apportionment.ApportionSums` | services/multi_city_optimizer_simple.py:241-250 | the apportionment adds up to the total, and only the first heaviest city is corrected |
| `Apportionment.AllGetADay` | services/multi_city_optimizer_simple.py:246-250 | every city keeps at least one day iff the other cities' shares leave one |
| `Apportionment.EnoughDays` | services/multi_city_optimizer_simple.py:241-250 | more than n(n-1)/2 days give each of n cities at least one, the corrected one included |
| `Apportionment.BoundIsSharp` | services/multi_city_optimizer_simple.py:241-250 | 4k equal cities and exactly n(n-1)/2 days leave the corrected city without a day (4 cities, 6 days) |
| `Apportionment.SharesNearTotal` | services/multi_city_optimizer.py:526-528 | uncorrected shares miss the total by less than one day each |
| `Apportionment.ScalingKeepsShares` | services/multi_city_optimizer.py:387-390 | multiplying all weights by a constant changes no share, so that the bonus of 1.5 may be counted in halves |
| `DayDistribution.Keys` | services/multi_city_optimizer_simple.py:233-236 | the dictionary's keys are the distinct names |
| `DayDistribution.DistinctKeys` | services/multi_city_optimizer_simple.py:233-236 | with distinct names the dictionary lists the cities themselves, in order |
| `DayDistribution.DistinctWeights` | services/multi_city_optimizer_simple.py:233-236 | with distinct names every city has its own weight |
| `DayDistribution.CollectWeights` | services/multi_city_optimizer_simple.py:233-236 | the weight dictionary the loop builds, a later city of the same name replacing an earlier one |
| `DayDistribution.LastOfNameCounts` | services/multi_city_optimizer_simple.py:233-236 | of several cities of one name the last one's points of interest count |
| `DayDistribution.HeaviestKey` | services/multi_city_optimizer_simple.py:249 | the first key with the largest weight |
| `DayDistribution.DistributeDaysAmongCities` | services/multi_city_optimizer_simple.py:227-253 | the in-place correction of one entry yields exactly the apportionment, for both versions of the weights |
| `DayDistribution.DistributeDaysAmongCountries` | services/multi_city_optimizer.py:514-530 | every country gets its uncorrected share |
| `DayQuotas.DaysNearQuota` | services/multi_city_optimizer.py:379-409 | for cities with distinct names, every city but the corrected one gets its quota, the total times its points of interest over all of them, to within one half and at least one day; with the bonus a known name, in any letter case, counts half as much again |
| `DayQuotas.MorePoisNoFewerDays` | services/multi_city_optimizer_simple.py:233-244 | of two cities that are not corrected, one with more points of interest, and as well known, gets no fewer days |
| `DayQuotas.CountryDaysNearQuota` | services/multi_city_optimizer.py:514-530 | every country gets its quota, the total times the points of interest of its cities over all of them, to within one half and at least one day |
| `DaySchedules.SimpleDailyDistribution` | services/multi_city_optimizer_simple.py:255-268 | the slices of a city's points of interest, none for a city without any |
| `DaySchedules.DailyDistribution` | services/multi_city_optimizer.py:445-455 | the same slices, but zero days divide by zero |
| `DaySchedules.SlicesCover` | services/multi_city_optimizer_simple.py:263-266 | the slices of at least one day, concatenated, are the points of interest in order, each once |
| `DaySchedules.SlicesAreEven` | services/multi_city_optimizer_simple.py:260-266 | with at least as many points as days, all days but the last have the same number, and the last at most days - 1 more |
| `DaySchedules.OnePoiADay` | services/multi_city_optimizer_simple.py:260-266 | with more days than points of interest, each of the first days holds the next one and the later days none |
| `DaySchedules.LaidInOrder` | services/multi_city_optimizer_simple.py:189-201 | stays that keep to their lengths, laid one after the other, give their contents in order over days 1 to the sum of the lengths |
| `DaySchedules.StayOwnsItsDays` | services/multi_city_optimizer_simple.py:197-201 | each stay owns a contiguous block of days, day by day |
| `DaySchedules.FirstStaysFull` | services/multi_city_optimizer_simple.py:197-201 | stays without gaps leave no gap: the days are exactly 1 to the total |
| `DaySchedules.LayingAddsNothing` | services/multi_city_optimizer_simple.py:197-201 | laying stays out never adds a point of interest, also where days overlap or are negative |
| `CitySequence.FindOptimalCitySequence` | services/intercity_service.py:276-319 | the greedy order: it starts at the named city or the first, and each hop goes to the first, in the order of the request, of the nearest remaining cities |
| `CitySequence.StartAt` | services/intercity_service.py:291-294 | the start is the first city of the given name, or the first of all if none has it or no name is given |
| `CitySequence.SequenceVisits` | services/intercity_service.py:294-300 | it visits exactly the start city and the cities of other names |
| `CitySequence.SequenceVisitsAll` | services/intercity_service.py:299-310 | with distinct names the order is a permutation of the cities |
| `Itinerary.PutDays` | services/multi_city_optimizer_simple.py:196-199 | copying a city's days moves its schedule to the current day |
| `Itinerary.OptimizeIntercityHybridSimple` | services/multi_city_optimizer_simple.py:175-217 | the pipeline's order, days, schedule and distance are those of its stages |
| `Itinerary.LengthJoins` | services/multi_city_optimizer_simple.py:204-208 | the distance of a trip is that of its two parts and the hop between them |
| `Itinerary.CityOwnsItsDays` | services/multi_city_optimizer_simple.py:192-201 | when every city has a day, day d of city i is the d-th day after the cities before it and holds its d-th slice |
| `Itinerary.CompleteIffDaysForAll` | services/multi_city_optimizer_simple.py:189-201 | when every city has points of interest, the schedule holds each of them once, in order, over exactly the days given, iff every city has a day |
| `Itinerary.DaysGiven` | services/multi_city_optimizer_simple.py:227-253 | the days of the cities add up to the total; each has one iff the others leave one |
| `Itinerary.TripIsComplete` | services/multi_city_optimizer_simple.py:175-217 | end to end, for distinct names: every city once, and the schedule complete over exactly the asked days when the other cities leave a day for the heaviest (more than n(n-1)/2 days suffice), and only then |
| `MultiCountry.OptimizeIntercityHybrid` | services/multi_city_optimizer.py:237-294 | order, days and schedule of one country; it raises iff the shares of the other names take all days asked for and the tour visits a city of the heaviest name that has points of interest |
| `MultiCountry.DistinctFailsIff` | services/multi_city_optimizer.py:379-447 | for distinct names: it raises iff the other cities' shares add up to the total and the heaviest city has points of interest |
| `MultiCountry.FourEqualCitiesFail` | services/multi_city_optimizer.py:400-447 | four equal cities and 6 days raise the ZeroDivisionError |
| `MultiCountry.GroupCitiesByCountry` | services/multi_city_optimizer.py:485-492 | the countries in order of first appearance with their cities in order |
| `MultiCountry.OrderIsKept` | services/multi_city_optimizer.py:485-492 | a country's cities keep the order of the request, and the countries that of their first cities |
| `MultiCountry.GroupsPartition` | services/multi_city_optimizer.py:485-492 | the groups partition the cities |
| `MultiCountry.InCountryIsHomogeneous` | services/multi_city_optimizer.py:488-491 | a group has cities of its country only |
| `MultiCountry.OptimizeCountrySequence` | services/multi_city_optimizer.py:494-512 | the countries in their order, but the first one that has a city of the start city's name moves to the front and the others keep their order |
| `MultiCountry.WeighCountry` | services/multi_city_optimizer.py:519-521 | a country weighs its points of interest, at least 1 |
| `MultiCountry.OptimizeMultiCountry` | services/multi_city_optimizer.py:296-357 | the merged trip: countries in that order with the days and the tour of each, laid out one after the other; it raises iff the tour of some country does, with the days that country is given, as told by a condition on the request |
| `MultiCountry.FourCitiesOneCountryFail` | services/multi_city_optimizer.py:296-357 | a trip of 6 days through four equal cities of one country raises |
| `MultiCountryTheorems.TripBeginsInStartCountry` | services/multi_city_optimizer.py:494-512 | a trip asked to start in a city begins in the first country that has it, but there with the first city listed, whichever city was named |
| `MultiCountryTheorems.BlocksNearTotal` | services/multi_city_optimizer.py:523-528 | m countries' blocks add up to within less than m days of the total |
| `MultiCountryTheorems.BlocksAddUpIff` | services/multi_city_optimizer.py:523-528 | they add up to the total iff as many countries are rounded up as whole days are left of the countries' quotas, for example if all quotas are whole |
| `MultiCountryTheorems.FourDaysForThree` | services/multi_city_optimizer.py:523-528 | a request for 3 days in two countries, one city each with equally many points of interest, makes a trip that fills 4 days |
| `MultiCountryTheorems.TripVisitsEveryCity` | services/multi_city_optimizer.py:321-344 | with distinct names the merged trip visits every city once |
| `MultiCountryTheorems.TourDays` | services/multi_city_optimizer.py:379-409 | a tour's days add up to its country's |
| `MultiCountryTheorems.DaysForAllIff` | services/multi_city_optimizer.py:379-409 | every city of a country has a day iff the others' shares leave one of the country's days for the heaviest |
| `MultiCountryTheorems.PlentyForCountry` | services/multi_city_optimizer.py:379-409 | which more than n(n-1)/2 days for n cities ensure |
| `MultiCountryTheorems.TourIsComplete` | services/multi_city_optimizer.py:267-280 | a tour that gives every city a day keeps to its country's days and holds its points of interest in order |
| `MultiCountryTheorems.TripKeepsItsPromise` | services/multi_city_optimizer.py:325-344 | when every country's share of the total is enough for its cities, the countries' blocks are disjoint, consecutive and each its country's tour, and together hold every point of interest, country after country and city after city, once; if all cities of the request have points of interest they leave no day out, and conserve them only then; and a large enough total, country by country, makes the shares enough |
| `MultiCountryTheorems.EnoughNeverFails` | services/multi_city_optimizer.py:325-344 | a trip whose shares are enough never raises |
| `HotelStays.AccommodationPlan.AccommodationSequence` | services/hotel_recommender.py:55-57 | the cities in check-in order, those of the same day in the plan's order; for disjoint stays it is the plan's own order |
| `HotelStays.OnlyOneOrder` | services/hotel_recommender.py:55-57 | disjoint stays sorted by check-in are in their own order |
| `HotelStays.PlanMultiCityAccommodations` | services/hotel_recommender.py:777-836 | the planned stays, their total of nights and their number |
| `HotelStays.PlannedStaysApart` | services/hotel_recommender.py:43-53 | every stay added begins at least a day after every earlier one has ended |
| `HotelStays.PlannedIff` | services/hotel_recommender.py:794-829 | the plan has a stay of so many nights in a city iff a city of that name is given one day more, which is at least two, and has a hotel |
| `HotelStays.NightsOfPlan` | services/hotel_recommender.py:817-829 | the nights of a plan are the days of its booked cities less one each |
| `HotelStays.CheckInDays` | services/hotel_recommender.py:799-801 | a booked city's check-in is its first itinerary day less the days of the one-day cities before it, hence that day iff there is none |
| `HotelStays.OptimizeAccommodationSequence` | services/hotel_recommender.py:875-909 | the stays of a travel sequence from day 1 on, and the copied totals |
| `HotelStays.ResequencedStaysApart` | services/hotel_recommender.py:893-899 | along any travel sequence re-sequenced stays are disjoint |
| `HotelStays.OwnOrderChangesNothing` | services/hotel_recommender.py:887-899 | re-sequencing a plan by its own order changes nothing iff its stays follow each other without a gap |
| `HotelStays.OwnOrderOfPlan` | services/hotel_recommender.py:794-899 | for planned stays that is iff no city of several days lacks a hotel before a booked one |
| `HotelStays.PermutedPlan` | services/hotel_recommender.py:887-899 | any permutation of its cities keeps a plan's nights and keeps the stays disjoint |
| `HotelStays.CopiedTotalIsRight` | services/hotel_recommender.py:902-907 | along a sequence without repetitions the copied total of nights is right iff it names every city of the plan |
| `Sorting.SortBy` | services/ortools_distance_cache.py:400-403 | the library's stable sort: ordered by the key, the same elements, and those with equal keys in their old order |
| `DistanceCache.Millionths` | services/ortools_distance_cache.py:93-94 | a coordinate rounded to six decimals: within one half of a millionth, and even at a half |
| `DistanceCache.SpotOf` | services/ortools_distance_cache.py:91-97 | the key keeps a place's name and its two coordinates to within half a millionth of a degree |
| `DistanceCache.SortSpots` | services/ortools_distance_cache.py:98-99 | the sorted places of the key are the same places |
| `DistanceCacheKeys.SortOrders` | services/ortools_distance_cache.py:98-99 | they stand in the order of latitude, and on the same latitude of longitude |
| `DistanceCacheKeys.SortIsStable` | services/ortools_distance_cache.py:98-99 | places that share coordinates keep their order |
| `DistanceCacheKeys.SortedKeyIff` | services/ortools_distance_cache.py:98-102 | two requests share the sorted key iff at every pair of coordinates they have the same places in the same order |
| `DistanceCache.ORToolsDistanceCache.LookUp` | services/ortools_distance_cache.py:122-139 | a hit answers the stored entry; a miss is counted and drops an expired entry |
| `DistanceCache.ORToolsDistanceCache.GetFromCache` | services/ortools_distance_cache.py:163-177 | the entry of a key if it is present and not expired; an expired one is deleted |
| `DistanceCache.ORToolsDistanceCache.SaveToCache` | services/ortools_distance_cache.py:356-380 | a save into a full cache cleans it up first, then stores under the key and counts |
| `DistanceCache.ORToolsDistanceCache.CleanupCache` | services/ortools_distance_cache.py:384-411 | expired entries go; if that is not enough a fifth of the others, at least one, go, none younger than one kept |
| `DistanceCache.ORToolsDistanceCache.DropOldest` | services/ortools_distance_cache.py:398-409 | deletes exactly the first fifth by age |
| `DistanceCache.ORToolsDistanceCache.GetDistanceMatrix` | services/ortools_distance_cache.py:104-161 | a whole request: the stored matrix on a hit, else the computed one, saved |
| `DistanceCacheTheorems.CleanupMakesRoom` | services/ortools_distance_cache.py:384-411 | after a cleanup the cache is strictly below its bound, and holds only entries of before that are no older than the time to live |
| `DistanceCacheTheorems.RunsKeepInvariants` | services/ortools_distance_cache.py:104-161 | over every run of interleaved lookups, saves and invalidations, the cache keeps its bound and every entry was saved in the run by a request with its key |
| `DistanceCacheRuns.HitIff` | services/ortools_distance_cache.py:122-177 | over every run, told by the actions and their times: a lookup is counted as a hit iff its key was saved no longer ago than the time to live, and since then neither saved anew, nor invalidated, nor evicted, nor looked up too late; every other lookup is counted as a miss |
| `DistanceCacheRuns.HitAnswersSaved` | services/ortools_distance_cache.py:122-177 | and the entry it answers is what that last save stored |
| `DistanceCacheRuns.SaveDrops` | services/ortools_distance_cache.py:356-411 | a save drops entries of other keys only if the cache is full: then all that are older than the time to live, and others only if as many as the cache may hold are left, and of those the oldest |
| `DistanceCacheRuns.SaveLeaves` | services/ortools_distance_cache.py:384-411 | a save of a new key into a full cache drops no unexpired entry if there is room without, else one of every five, and at least one |
| `DistanceCacheTheorems.HitsAreFreshIff` | services/ortools_distance_cache.py:122-136 | over all runs, hits are what a fresh computation of the request, with its own preference, may give iff any two requests with the same key, preferences included, are computed alike |
| `DistanceCacheKeys.ServicesAreFreshIff` | services/ortools_distance_cache.py:84-206 | for given services and either key: that is iff both sources agree (and, with the parallel fill, are symmetric, and zero if tasks may fail) and the key suits the distances: the documented key those it can see, the sorted key of the code only distances that are all equal |
| `DistanceCacheKeys.PreferenceIsForgotten` | services/ortools_distance_cache.py:90-102 | wherever road and geodesic matrices differ, a request for geodesic distances is answered with the road matrix an earlier request left behind, under either key |
| `DistanceCacheKeys.TwoKilometresForOne` | services/ortools_distance_cache.py:90-102 | for example when roads take 2 km for 1 km |
| `DistanceCacheKeys.HitsPermuteIff` | services/ortools_distance_cache.py:84-206 | over all runs and for either key, hits are rearrangements of what a fresh computation of the request, with its own preference, may give iff distances depend on places as the key sees them and both sources agree; with the sorted key this is exactly when the documented key would be fresh outright |
| `DistanceCacheKeys.WrongSourceNoRearrangement` | services/ortools_distance_cache.py:90-102 | two places, roads twice as long and no parallel fill: a request for geodesic distances gets the road matrix, no rearrangement of its own |
| `DistanceCacheKeys.SortedKeyPermutesIff` | services/ortools_distance_cache.py:98-206 | hit by hit, under the sorted key: it is the matrix computed for an earlier request for the same places, and a rearrangement of the direct matrix that this earlier request's source has for the places asked for now, iff that computation was not parallel, or its roads are symmetric and its failures harmless |
| `DistanceCacheKeys.FillPermutesIff` | services/ortools_distance_cache.py:265-298 | the parallel matrix of one order is any rearrangement of the direct matrix of another iff roads between the places are symmetric and failures harmless |
| `DistanceCacheKeys.OrdersAgreeIff` | services/ortools_distance_cache.py:265-298 | without failures, the parallel matrices of all orders of the same places are rearrangements of each other iff the roads are symmetric |
| `DistanceCacheKeys.OneWayRoads` | services/ortools_distance_cache.py:193-298 | more than ten places with one-way roads: the hit for another order is no rearrangement of its direct matrix |
| `DistanceCacheKeys.ReorderingsShareKey` | services/ortools_distance_cache.py:98-102 | requests for the same places in different orders share the sorted key if no two share coordinates |
| `DistanceCacheKeys.OneOrderOnly` | services/ortools_distance_cache.py:98-102 | for one-way distances between two or more places, a matrix under a shared sorted key is right iff the order is the same |
| `DistanceCacheKeys.OneOrderOnlyForMetrics` | services/ortools_distance_cache.py:98-102 | for metrics and different places it is right iff there are at most two places or the order is the same |
| `DistanceCacheKeys.SortedKeyIsNotExact` | services/ortools_distance_cache.py:98-102 | three places asked for again in another order get a wrong matrix for some metric, while the documented key would be exact |
| `DistanceCacheTheorems.StatisticsAreExact` | services/ortools_distance_cache.py:432-441 | over every run hits + misses are the lookups, saves are counted, and the reported size is the real one plus the keyed invalidations it has not noticed |
| `MatrixFill.CalculateOsrmSequential` | services/ortools_distance_cache.py:238-263 | rows in request order: zero on the diagonal, the road distance where the service answers a positive one, else the geodesic one |
| `MatrixFill.CalculateGeodesicMatrix` | services/ortools_distance_cache.py:336-354 | the same with geodesic distances |
| `MatrixFill.CreateTasks` | services/ortools_distance_cache.py:271-277 | the tasks are the pairs of the upper triangle, all of them |
| `MatrixFill.CalculateOsrmParallel` | services/ortools_distance_cache.py:265-298 | the in-place fill: both cells of a pair hold what its task delivered, and zero if it failed |
| `MatrixFill.ParallelIsDirectIff` | services/ortools_distance_cache.py:265-298 | the parallel matrix is the sequential one iff roads are as long both ways and tasks fail between places at distance zero only |
| `MatrixFill.ParallelIsSymmetric` | services/ortools_distance_cache.py:288-296 | it is symmetric with a zero diagonal, whatever fails |
| `MatrixFill.FailureIsLocal` | services/ortools_distance_cache.py:288-296 | a failed task spoils its own two cells and no other |
| `MatrixFill.CalculateDistanceMatrix` | services/ortools_distance_cache.py:179-236 | the source chosen by preference, number of places and availability, and its matrix, direct or filled in parallel |
| `MatrixFill.WhichMatrix` | services/ortools_distance_cache.py:179-236 | roads are taken when they are preferred, or from the sixth place on when the choice is open, if there is a road service; from the eleventh place on their matrix is filled in parallel if that is switched on |
| `MatrixFill.ComputedIsDirectIff` | services/ortools_distance_cache.py:179-236 | it is the direct matrix of that source iff it is not filled in parallel, or roads are symmetric and failures harmless |
| `NearestNeighbourTour.OptimizeTspBasic` | services/hybrid_architecture_integrator.py:301-344 | for at least one place the route is a permutation from place 0 on that always goes on to a nearest unvisited place, and the totals are the sums along it, zero if infinite; without places it is still [0] |
| `NearestNeighbourTour.AlongJoins` | services/hybrid_architecture_integrator.py:331-341 | the total along a route is that of its two parts and the hop between them, infinite if one is |
| `NearestNeighbourTour.HopsAtMostPath` | services/hybrid_architecture_integrator.py:324-330 | in a metric no hop is longer than any path through all places |
| `NearestNeighbourTour.RouteIsBounded` | services/hybrid_architecture_integrator.py:324-330 | the whole route is at most 1 + 1 + 1/2 + ... + 1/(n-2) times any path through all places |
| `NearestNeighbourTour.TourIsNearOptimal` | services/hybrid_architecture_integrator.py:324-341 | the reported distance is at most 1 + H(n-2) times, hence at most n - 1 times, the length of any path through all places |
| `SpeedProfile.OnlyRacewaysAreFaster` | services/optimized_city2graph_service_clean.py:45-86 | without a readable limit all speeds are positive and only raceways of the lazy service exceed 120 km/h; the hybrid service never exceeds 150 |
| `SpeedProfile.SameTimeIff` | services/hybrid_city2graph_service.py:86-110 | the two services' travel times over a road are the same iff there is no distance or their speeds are the same |
| `RoadGraph.LazyRoadTime` | services/optimized_city2graph_service_clean.py:74-94 | the lazy service gives a row of d metres a time t with t * v = 3.6 * d for a limit of v km/h, or of v / 1.60934 mph in any letters; an unreadable limit gives the time of an absent one, which is by the type of road, or by 50 km/h for an unknown type |
| `RoadGraph.HybridRoadTime` | services/hybrid_city2graph_service.py:86-110 | the hybrid service does so with the smaller of the limit and 150 km/h; a limit in capital letters gives the time of an absent one, by 40 km/h for an unknown type |
| `RoadGraph.AgreeingTypes` | services/hybrid_city2graph_service.py:53-83 | without limits their speeds are the same on nine types of road only |
| `RoadGraph.OptimizedService.LoadPartitions` | services/optimized_city2graph_service_clean.py:259-339 | loads exactly the requested cells that are missing; a remembered request changes nothing and is loaded; the counts are the rows read |
| `RoadGraph.OptimizedService.LoadNodes` | services/optimized_city2graph_service_clean.py:283-290 | the node rows of a cell, written in order |
| `RoadGraph.OptimizedService.LoadEdges` | services/optimized_city2graph_service_clean.py:299-332 | the edge rows of a cell, in both directions unless one-way |
| `RoadGraph.BuiltReflects` | services/optimized_city2graph_service_clean.py:288-330 | nodes, edges and coordinates are exactly those some row wrote, with the data of one of the rows |
| `RoadGraphRows.RoadsAreRows` | services/optimized_city2graph_service_clean.py:276-334 | the roads of a graph read from some cells are those along which their rows lead, back as well unless one-way, each with distance, type, limit and time of one of its rows |
| `RoadGraphRows.NodesAreRows` | services/optimized_city2graph_service_clean.py:276-334 | its nodes are those that a row gives coordinates or that a row begins or ends at; only the former have coordinates, and known coordinates are those and the index's |
| `RoadGraph.LazyIsEager` | services/optimized_city2graph_service_clean.py:276-334 | whatever the order of requests, the nodes and edges are those of one eager load of the same cells, and the whole graph is, if the files agree |
| `RoadGraph.OrderIsFreeIff` | services/optimized_city2graph_service_clean.py:276-334 | the whole graph is the same in every order of loading iff any two cells agree on the roads and coordinates each leaves behind |
| `RoadGraph.BuildOptimizedGraph` | services/hybrid_city2graph_service.py:161-207 | the eager build with the hybrid service's own speeds: all nodes, then all edges |
| `RoadGraph.ServicesDifferInTimes` | services/hybrid_city2graph_service.py:171-201 | from the same rows, the graph of one service is that of the other with its own travel times |
| `RoadGraph.LoadedIsBuilt` | services/optimized_city2graph_service_clean.py:147-339 | a lazy service that has loaded all cells has the nodes and edges the hybrid service builds; if the files agree, also their coordinates, distances, types and limits; and the whole graph iff the two speeds agree on the rows written and the prefilled index knows only the country's nodes |
| `AStarHeuristic.PathIsSlower` | services/optimized_city2graph_service_clean.py:426-432 | no path takes less time than the straight line at 120 km/h |
| `AStarHeuristic.HeuristicIsAdmissible` | services/optimized_city2graph_service_clean.py:426-432 | if no road beats the straight line at 120 km/h, the heuristic is at most the time of every path to the destination, also where unknown nodes give 0 |
| `AStarHeuristic.HeuristicIsAdmissibleIff` | services/optimized_city2graph_service_clean.py:426-432 | where the nodes that roads leave from are known, it is admissible for all paths iff no road beats the straight line |
| `AStarHeuristic.BuiltRoadIff` | services/optimized_city2graph_service_clean.py:88-94 | a built road does not beat it iff straight line times speed is at most 120 times the road's length |
| `AStarHeuristic.RacewayIsInadmissible` | services/optimized_city2graph_service_clean.py:63 | a straight raceway between any two places is a path the heuristic overestimates |
| `AStarHeuristic.HeuristicIsConsistent` | services/optimized_city2graph_service_clean.py:426-432 | plausible roads into known nodes make it consistent |
| `AStarHeuristic.HeuristicIsConsistentIff` | services/optimized_city2graph_service_clean.py:426-432 | it is consistent iff no road between known nodes beats the straight line, and every road from a known node into an unknown one takes as long as the straight line to any destination |
| `AStarHeuristic.Measure` | services/optimized_city2graph_service_clean.py:445-455 | the totals, road types and speed of a path |
| `AStarHeuristic.SpeedIsBetween` | services/optimized_city2graph_service_clean.py:455 | the reported speed lies between the slowest and the fastest road |
| `NearestNode.FindByIndex` | services/hybrid_city2graph_service.py:242-266 | the first nearest candidate of the box, if within the radius and not number 0 |
| `NearestNode.FindByScan` | services/hybrid_city2graph_service.py:267-277 | the first nearest node strictly within the radius, if not number 0 |
| `NearestNode.FirstNearestIsFirst` | services/hybrid_city2graph_service.py:256-277 | of several nearest nodes the first is taken |
| `NearestNode.BranchesAgreeIff` | services/hybrid_city2graph_service.py:238-288 | with a box that holds the ball, both branches find the same distance or none iff: some node is strictly within the radius, and number 0 is the first of the nearest for both or for neither; or none is, and no node lies exactly on the radius or number 0 is the first that does |
| `NearestNode.BranchesAgreeWithoutZero` | services/hybrid_city2graph_service.py:238-288 | without a number 0 that is iff the nearest node does not lie exactly on the radius |
| `NearestNode.IndexFindsNearest` | services/hybrid_city2graph_service.py:256-286 | what the index finds is in the box and within the radius, and nothing in the box is nearer |
| `NearestNode.NodeZeroIsLost` | services/hybrid_city2graph_service.py:279 | node 0 is never found, even as the nearest |
| `NearestNode.SearchFindsNearest` | services/optimized_city2graph_service_clean.py:361-375 | the lazy service's search finds a nearest known candidate within the radius, if there is one |
| `NearestNode.SearchFindsFirst` | services/optimized_city2graph_service_clean.py:361-375 | and of several nearest the first |
| `NearestNode.Snapper.FindNearestNode` | services/optimized_city2graph_service_clean.py:341-375 | a memoised answer is the one a search would give now |
| `NearestNode.Snapper.Load` | services/optimized_city2graph_service_clean.py:285-290 | loading coordinates that agree on the index's nodes keeps every memoised answer right |
| `NearestNode.LoadsAgree` | services/optimized_city2graph_service_clean.py:285-290 | loading cells whose nodes agree with the index leaves the indexed coordinates as they were |
| `NearestNode.MemoStaysRightIff` | services/optimized_city2graph_service_clean.py:285-375 | where indexed nodes are answered for their own places and share none, loads keep every answer the memo may hold right iff they leave the coordinates of every indexed node as they were |
| `NearestNode.MemoGoesStale` | services/optimized_city2graph_service_clean.py:285-290 | for example, a node whose coordinates a loaded cell changes is remembered wrongly |
| `CircuitBreaker.ORToolsCircuitBreaker.Begin` | services/city2graph_ortools_service.py:73-82 | begins a call: the specification's answer and new state |
| `CircuitBreaker.ORToolsCircuitBreaker.Succeed` | services/city2graph_ortools_service.py:89-94 | a success closes a half-open breaker |
| `CircuitBreaker.ORToolsCircuitBreaker.Fail` | services/city2graph_ortools_service.py:103-111 | a failure is counted and timed, and opens at the threshold |
| `CircuitBreaker.ORToolsCircuitBreaker.End` | services/city2graph_ortools_service.py:84-113 | what follows the optimiser's answer; a monitor that raises makes a failure of a success |
| `CircuitBreaker.ORToolsCircuitBreaker.ExecuteOrtools` | services/city2graph_ortools_service.py:69-113 | a whole call that no other overlaps |
| `CircuitBreaker.ClosedIff` | services/city2graph_ortools_service.py:73-113 | under any interleaving of overlapping calls, closed iff the counted failures are below the threshold |
| `CircuitBreaker.CallsAreConserved` | services/city2graph_ortools_service.py:82-104 | every admitted call is in flight or has ended in one of four ways, and successes are counted |
| `CircuitBreaker.SuccessesAndFailures` | services/city2graph_ortools_service.py:82-104 | successes, failures and calls in flight add up to the executions iff as many calls were cancelled as had a raising monitor |
| `CircuitBreaker.FailuresAreCounted` | services/city2graph_ortools_service.py:92-105 | the counter is the number of failures since the last recovery, and the time that of the latest failure |
| `CircuitBreaker.TripsAtThreshold` | services/city2graph_ortools_service.py:104-111 | a closed breaker opens at exactly the failure that makes the failures since the last recovery reach the threshold |
| `CircuitBreaker.OpenIsLeftLate` | services/city2graph_ortools_service.py:73-76 | an open breaker is left only to half-open, by a call more than the timeout after the latest failure |
| `CircuitBreaker.OpenAdmitsIff` | services/city2graph_ortools_service.py:73-82 | after every run that leaves the breaker open, a call is admitted, in flight, and half-opens the breaker iff it begins more than the timeout after the latest failure; otherwise nothing changes |
| `CircuitBreaker.OthersAdmitAll` | services/city2graph_ortools_service.py:73-82 | a breaker that is not open admits every call |
| `CircuitBreaker.NoCallSoonAfterFailure` | services/city2graph_ortools_service.py:73-79 | while open, no call is admitted within the timeout after any failure so far |
| `CircuitBreaker.RateIsRatio` | services/city2graph_ortools_service.py:135 | the reported success rate is the share of the admitted calls that succeeded, 0 before any call |
| `CircuitBreaker.HalfOpenCloses` | services/city2graph_ortools_service.py:84-113 | a half-open breaker closes exactly when any call in flight succeeds (and, if its monitor raises, the threshold is above 1) |
| `CircuitBreaker.ReopensIff` | services/city2graph_ortools_service.py:103-111 | it opens again exactly when a call in flight fails (or succeeds with a raising monitor under a threshold of 1) |
| `CircuitBreaker.TestDecidesIff` | services/city2graph_ortools_service.py:73-92 | only the call that tests recovery, or one begun after it, can close the breaker iff no other call is in flight when it half-opens |
| `CircuitBreaker.LaterCallCloses` | services/city2graph_ortools_service.py:73-92 | a half-open breaker admits further calls, and any of them may close it while the test is in flight |
| `CircuitBreaker.StaleCallCloses` | services/city2graph_ortools_service.py:89-92 | a run in which a call begun before the breaker opened closes it while the test is in flight |
| `DurationText.PrintedIsRead` | api.py:1967-1968 | for every number of minutes the hybrid itinerary's text is read as its whole minutes, by its own parser (line 2009) and by that of the other endpoint (line 3352) |
| `DurationText.PrintedText` | api.py:1967-1968 | minutes alone below an hour, hours alone for whole hours, else hours and the whole minutes past them |
| `DurationText.SumIsReadIff` | api.py:3331-3332 | the other endpoint's own text, a plain sum of minutes, is read back iff the sum is an integer; a floating-point sum raises, even a whole one |
| `DurationText.ParseByParts` | api.py:2009-2023 | the first parser, step by step |
| `DurationText.ParseMinutes` | api.py:3360-3361 | minutes alone |
| `DurationText.ParseHours` | api.py:3358-3359 | hours alone |
| `DurationText.ParseHoursMinutes` | api.py:3355-3357 | hours and minutes |
| `DurationText.PrintTellsMinutes` | api.py:1967-1968 | durations with the same text have the same whole minutes |
| `DurationText.ParsersAgreeIff` | api.py:3352-3362 | on texts of minutes the two parsers agree; on texts of hours, and of hours and minutes, iff no number is missing, as in every printed text |
| `FallbackDays.SplitPlaces` | api.py:1308-1322 | the fallback's days hold every place once, in order, and differ by at most one place; without days all places are lost |
| `ParallelStats.ProcessParallel` | services/ortools_parallel_optimizer.py:177-228 | one result for each task in order under any mix of success, error and timeout, with the worker's time and name, half a minute after a timeout, and no time after an error |
| `ParallelStats.ProcessSequential` | services/ortools_parallel_optimizer.py:277-336 | one result for each task in order; errors for all if the optimiser is not available |
| `ParallelStats.ParallelOptimizer.OptimizeParallel` | services/ortools_parallel_optimizer.py:139-175 | every batch keeps parallel + sequential = total, and all statistics the exact ratios over all history |
| `ParallelStats.ParallelOptimizer.UpdateGlobalStats` | services/ortools_parallel_optimizer.py:338-366 | the incrementally weighted success rate and averages are the exact ones |
| `ParallelStats.ParallelOptimizer.UpdateWorkerStats` | services/ortools_parallel_optimizer.py:368-410 | one more result of a worker |
| `ParallelStats.RunningIsExact` | services/ortools_parallel_optimizer.py:384-399 | updating a worker's averages one result after the other gives the exact averages |
| `ParallelStats.WorkersAreExact` | services/ortools_parallel_optimizer.py:364-399 | every worker's statistics are the exact averages over its results in all history |
| `ParallelStats.WeightedRate` | services/ortools_parallel_optimizer.py:349-356 | weighting two rates by their counts gives the rate of both together |
| `ParallelStats.UnhealthyIff` | services/ortools_parallel_optimizer.py:401-410 | a worker for which health is kept is found unhealthy from its fourth failure on |
| `ParallelStats.OthersHurtNoWorker` | services/ortools_parallel_optimizer.py:401-410 | a worker whose name no result carries stays healthy, however many optimisations fail; results carry process ids and health is kept under small indices, so this concerns every worker unless a process id equals such an index |

## Left out

- Floating-point rounding: quotients, distances, times and averages are exact, so that rounding of `weight / total_weight`, of sums of distances and of running averages is not covered.
- Files, pickle, parquet, HTTP, geocoding, logging and process pools: a disk read, a road distance or a worker's answer is an input that may fail.
- Mode names other than the three of the router: an unknown mode changes nothing in the cache; `get_route` of one raises and is answered with no route.
- The thread scheduler's fairness: every schedule is covered, and progress is stated as the absence of deadlock and of endless schedules.
- The solver branch of services/multi_city_optimizer.py: `optimize_itinerary` is not a method of the integrator, so that the call raises and the fallback distribution is what runs.
- Intercity routes, accommodations' scores and costs, confidence values, clustering of points of interest into cities: they do not influence order, days or schedules.
- Trigonometry of geodesic and haversine distance: distances are functions, and metric where a property needs it; that the box of 111000 m per degree holds the ball of the radius is a hypothesis of `NearestNode.BranchesAgreeIff`.
- H3, R-tree, NetworkX and OR-Tools: the index's candidates are inputs, and the shortest-path search itself is not modelled.
- MD5 and JSON in the cache key: different normalised places have different keys in the model.
- `avg_calculation_time_ms` and `avg_execution_time`: averages of the clock that no other state depends on.
- DistanceCache.ORToolsDistanceCache.CleanupCache: reads the clock once, where the code reads it for every entry; entries of the same age may go in any order, where the code keeps the dictionary's.
- MatrixFill.CalculateOsrmParallel: the tasks' concurrency is not modelled; `gather` returns their results in the order of the tasks.
- MatrixFill.CalculateDistanceMatrix: geodesic distances never fail, and no task is cancelled from outside, which would raise while the results are taken apart and be answered with the geodesic matrix; so the last fallback to it is not reached.
- SpeedProfile: a speed limit is given by its kind and number, not as text, and is never a bare number or not-a-number; a limit of zero, which would divide by zero, is excluded by the type of edge rows.
- RoadGraph.OptimizedService.LoadPartitions: a read that fails in the middle of a cell is not modelled.
- NearestNode.Snapper.FindNearestNode: the order in which a full memo forgets answers is left open.
- NearestNeighbourTour.OptimizeTspBasic: not-a-number entries are not modelled; the answer for fewer than two places names its totals differently in the code.
- DurationText: Python's `int` also reads signs, underscores and other scripts' digits, and sums beyond 10^16 print an exponent; none of them is modelled.
- ParallelStats: task priorities, the times of the last optimisation and failure, and the pool's set-up.
- GraphRouter.Router.OptimizeMemory: modelled for one thread; run beside other threads, its clear may be the losing one, whose KeyError then escapes from it.
- GraphRouter.Router.LoadCacheForMode: called from one thread, the check under the lock finds what the check before it found, and is an assertion; `LazyGraphCache` has both checks as steps.
- Methods split into several where a loop nests another (`LoadPartitions`, `CleanupCache`, `OptimizeMultiCountry`, `UpdateGlobalStats`): the parts have contracts of their own.
- Synthetic suggestions, hotel scoring, city names guessed from text, settings, schemas, endpoints and diagnostic scripts: no property of the core depends on them.
