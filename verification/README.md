# Verified model of the MCRIT similarity plugin

The plugin compares functions of open binaries through an MCRIT server. This project models the parts of it whose
guarantees rest on loops, shared state or interleavings, and proves what they promise.

* **Painting a diff** (`Blocks`, `Similarity`, `Anchoring`, `Pairing`, `Painting`, `Coverage`, `Changes`,
  `Remainder`, `Identical`, `Alignment`, `DiffOrder`): blocks of two functions are anchored by digest, leftovers are
  paired by similarity, and what differs inside a pair is painted.
* **The weighted LRU cache** (`Cache`, `CacheRuns`, `CacheLimits`), the same cache shared by threads (`SingleFlight`,
  `SharedRuns`, `Calls`), and two of its users: the sample cache (`Samples`) and the function lookup
  (`FunctionLookup`, `LookupRuns`).
* **Reports of open files** (`Reports`, `ReportRuns`, `ReportLimits`, `ReportAnswers`, `ExportStops`, `ExportHistory`):
  session keys, reports in memory and reports on disk.
* **Matches** (`Scoring`, `Parse`, `Ranking`, `Placement`): filter, group, rank, the statistics behind `margin`, and
  scores as bytes.
* **Addresses and entities** (`Mapping`, `Visits`): the index with Thumb aliases, its growth over visits, and the
  pairing of matches.
* **Jobs and the disk** (`Jobs`, `DiskCache`, `GcPause`): polling a server that may answer anything, pruning the
  folder of stored reports, and pausing the collector.

`Collections` and `Sorting` hold shared vocabulary. Run `dafny verify dfyconfig.toml` to check everything.

Code that updates state in loops is a method or a class, proved equal to a function of its inputs or of the old state;
the promises are lemmas about those functions. Arithmetic on scores is over exact reals.

Some results sharpen or correct what one would expect of the code:

* A function lookup through the cache gives what an uncached request gives *exactly when* the answerable ids fit the
  cache (`FunctionLookup.CompleteIffItFits`).
* The waits of `await_job` are the capped doubling *exactly when* the start delay is within the cap; otherwise the
  first wait exceeds it (`Jobs.DelaysDoubleIffCapped`). Its poll bound is the best possible (`Jobs.BoundIsReached`).
* Growing the target index in place answers like indexing all entities afresh *exactly when* the matches make no entity
  at an odd address, since growth adds no alias (`Mapping.GrowthIsRebuildIffEven`). So an even address with a function
  and without entities at it or one above resolves differently in later visits *exactly when* a match one above it comes
  before every match at it and is followed by one (`Visits.ResolutionsLastUnlessOvertaken`, `Visits.OvertakenExample`).
* The remembered export of a session is meant to keep the stored report of an earlier analysis from standing in for a
  later one. No later export of the session loads it (`ExportHistory.LaterExportsLoadNothing`), but it does stand in when
  another session has brought it into memory under the key the file has now (`ExportHistory.StoredStandsInIffHeld`,
  `ExportHistory.StoredStandsIn`).
* A remembered cold miss never hides a report that is in memory, but it does hide a small, current report on disk once
  the copy in memory is evicted (`ReportAnswers.StoredIsShownIffNotMissed`, `ReportAnswers.EvictedExportIsHidden`).

## Model

| member | source | states |
|---|---|---|
| Cache.TrimIsLongestSettledSuffix | mcrit_similarity/cache.py:35-49 | eviction keeps the longest most-recent suffix that satisfies the limits or has one element, and never loses the newest entry |
| Cache.PutKeepsWellFormed | mcrit_similarity/cache.py:40-49 | a store keeps keys distinct and exactly the held keys weighed, each with its value's weight |
| Cache.LockedCache.constructor | mcrit_similarity/cache.py:19-33 | a new cache holds nothing and is valid |
| Cache.LockedCache.Evict | mcrit_similarity/cache.py:47-49 | the loop with the running total ends with exactly the longest settled suffix, and the total stays the sum over held keys |
| Cache.LockedCache.Store | mcrit_similarity/cache.py:40-49 | the whole new contents: value, weight and newest place for the key, then eviction; the running total stays exact |
| Cache.LockedCache.Get | mcrit_similarity/cache.py:51-56 | a hit returns the value and makes the key the newest; a miss changes nothing |
| Cache.LockedCache.Clear | mcrit_similarity/cache.py:58-62 | nothing is held and the total is zero |
| Cache.LockedCache.Set | mcrit_similarity/cache.py:64-72 | stores with the policy's weight and returns the value |
| Cache.LockedCache.GetOrSet | mcrit_similarity/cache.py:74-115 | for one caller alone: hit, stop, failed build, and build with or without caching of empty values |
| CacheRuns.EveryRunIsWellFormed | mcrit_similarity/cache.py:35-115 | over every run, weights are exact and each held value is the one last stored under its key since the last clear |
| CacheRuns.EveryStoreIsExact | mcrit_similarity/cache.py:35-49 | after any store the order is the longest settled suffix of the touched order, with the new key last |
| CacheRuns.HoldsNewestKeys | mcrit_similarity/cache.py:35-56 | a cache bounded only by count holds, after every run, exactly the newest distinct keys of its access log, in recency order |
| CacheRuns.NewestAreRecentlyUsed | mcrit_similarity/cache.py:35-56 | being among the newest n distinct keys of a log means that fewer than n other keys were used since the last use |
| CacheRuns.HeldIffRecentlyUsed | mcrit_similarity/cache.py:35-56 | a key is held exactly when fewer than `max_items` other keys were accessed since its last access |
| CacheRuns.BuiltIsRememberedIffNotEmpty | mcrit_similarity/cache.py:102-111 | a built value is returned, and remembered exactly if it is not empty or empty values are to be cached; otherwise the cache is as it was |
| CacheRuns.EmptyIsBuiltAgain | mcrit_similarity/cache.py:102-111 | after an empty value the next call builds again and answers with what it builds |
| CacheLimits.EveryRunIsWithinLimits | mcrit_similarity/cache.py:35-49 | after every run a cache that holds more than one key holds at most `max_items` keys, and their values weigh at most `max_weight` together, where these are given |
| CacheLimits.EveryStoreEvictsNoMoreThanItMust | mcrit_similarity/cache.py:40-49 | of the keys with the stored one moved to the newest place, a store keeps the values of a suffix ending with that key; every longer suffix has several keys and is more than `max_items` or weighs more than `max_weight` |
| CacheLimits.LoadAdds | mcrit_similarity/cache.py:44-46 | what keys weigh together is the sum of what the weigher says of each value |
| SingleFlight.EveryRunKeepsInvariant | mcrit_similarity/cache.py:74-115 | over every interleaving of get, set, clear and get_or_set, with failing factories and failing weighing, each in-flight event has one owner and each waiter's event is set or still registered |
| SingleFlight.OneFlightPerKey | mcrit_similarity/cache.py:74-115 | no two threads are between claim and release of one key; a blocked waiter's event is set or has an owner that has yet to release it |
| SingleFlight.OwnerCanStep | mcrit_similarity/cache.py:100-115 | an owner is never blocked |
| SingleFlight.OwnerAdvances | mcrit_similarity/cache.py:100-115 | no step of another thread takes an event from its owner, and each own step brings the release closer |
| SingleFlight.OwnerSetsItsEvent | mcrit_similarity/cache.py:100-115 | after at most three own steps, whatever the others do, the owner's event is set |
| SingleFlight.AloneIsSequential | mcrit_similarity/cache.py:74-115 | run by one thread with no build in flight, the steps end in the answer and the cache of the sequential `GetOrSet` |
| SharedRuns.SharedCacheIsARun | mcrit_similarity/cache.py:40-115 | in every reached state of every interleaving the cache is that of the sequential run of the threads' effects |
| SharedRuns.SharedCacheIsExact | mcrit_similarity/cache.py:35-115 | so in every reached state weights are exact and each held value is the one last stored under its key |
| SharedRuns.SharedHeldIffRecentlyUsed | mcrit_similarity/cache.py:35-115 | and a cache bounded only by count holds a key exactly if fewer than `max_items` other keys were accessed since, by whichever thread |
| SharedRuns.StoredIffNotEmpty | mcrit_similarity/cache.py:102-111 | among threads too a built value is stored exactly if it is not empty or empty values are to be cached |
| SharedRuns.EmptyIsClaimedAgain | mcrit_similarity/cache.py:83-115 | once the builder of an empty value has handed it out and released the key, another thread that wants the key may claim it |
| CacheLimits.SharedCacheIsWithinLimits | mcrit_similarity/cache.py:35-115 | in every state that threads reach, a cache that holds more than one key is within both limits |
| Calls.EveryCallEndsOnce | mcrit_similarity/cache.py:74-115 | in every state of every interleaving a thread is idle exactly if all its calls have ended, and otherwise all but one; they end in the order they are made, each under its own key, and only a call with `should_stop` ends cancelled |
| Calls.OnlyOwnFailures | mcrit_similarity/cache.py:102-115 | the calls of a thread that fail are exactly those whose own factory or weigher raised, but for one about to be released |
| Calls.OwnValueIsReturned | mcrit_similarity/cache.py:102-111 | a call whose own factory returned is answered with what that returned |
| Calls.AnsweredIsHandedOut | mcrit_similarity/cache.py:83-111 | the keys and values recorded as answered are those of the calls that ended with a value, in the order they ended |
| Calls.WaiterIsServed | mcrit_similarity/cache.py:83-100 | a waiter whose event is set can only wake; two steps of its own then give it the held value, or, if the key is not held, it waits for whoever builds the key, or else claims it |
| Calls.WaiterWaitsOn | mcrit_similarity/cache.py:95-100 | no step ends the wait of a thread but its own, waking once the event is set or giving up |
| Calls.NobodyIsStuck | mcrit_similarity/cache.py:74-115 | in every reached state a thread inside a call can take a step, or waits for an event whose owner is another thread; at the loop head with its key held it can only be given the held value |
| Samples.EveryRunBuildsOncePerKey | mcrit_similarity/provider.py:258-271 | over every run of visits, a completed sample is held or about to be stored, and nobody builds a completed key |
| Samples.OneSamplePerKey | mcrit_similarity/provider.py:258-271 | `ensure_sample` completes at most once per server and hash, and every visit that gets a sample gets that one |
| FunctionLookup.TargetFunctions | mcrit_similarity/provider.py:58-71 | the answer and the cache left behind, as functions of the cache found and the server's reply |
| FunctionLookup.LookupIsTransparent | mcrit_similarity/provider.py:58-71 | if cached entries agree with the server and the capacity covers the distinct ids asked for or returned, the answer is that of one uncached request, and the cache still agrees |
| FunctionLookup.FittingLookupIsTransparent | mcrit_similarity/provider.py:58-71 | the same when only the ids that are hit or stored are counted against the capacity |
| FunctionLookup.OnlyMissingAreFetched | mcrit_similarity/provider.py:62-65 | the outcome depends on the server only through its reply to one request for exactly the ids not cached, and on nothing if all are cached |
| FunctionLookup.CompleteIffItFits | mcrit_similarity/provider.py:58-71 | when the server returns only what was asked, the answer is complete exactly if the answerable ids fit the cache |
| LookupRuns.EveryLookupIsTransparent | mcrit_similarity/provider.py:58-71 | over every run of lookups on any servers through one cache that starts empty, each with room for its ids, each answer is that of one uncached request |
| Similarity.CommonSubsequenceBounds | mcrit_similarity/picblocks.py:115-122 | a common subsequence is no longer than the shared character multiset, which is no larger than either string |
| Similarity.CheapTestsLoseNothing | mcrit_similarity/picblocks.py:115-122 | the early exits accept exactly the pairs of non-empty text whose full ratio reaches the threshold, and then return that ratio |
| Anchoring.Unanchored | mcrit_similarity/picblocks.py:125-156 | the slot-popping loops leave, on both sides, exactly the blocks that are not anchored, in order, entries last |
| Anchoring.SurplusIsExact | mcrit_similarity/picblocks.py:134-152 | each digest leaves max(0, own count - other count) blocks, entries set aside when both exist |
| Anchoring.LeftOverMembers | mcrit_similarity/picblocks.py:134-156 | the leftovers are exactly the blocks not anchored, each once |
| Anchoring.LeftOversShareNoDigest | mcrit_similarity/picblocks.py:134-152 | leftovers of the two sides other than entries set aside never share a digest |
| Anchoring.EntriesTogether | mcrit_similarity/picblocks.py:131-155 | entries are set aside on both sides or neither, and are both anchored or both left over |
| Anchoring.EarliestAreAnchored | mcrit_similarity/picblocks.py:134-147 | of equal blocks the earliest are the anchored ones |
| Anchoring.AnchoringIsOneToOne | mcrit_similarity/picblocks.py:134-147 | each digest anchors as many blocks on one side as on the other |
| Anchoring.NothingLeftIffComplete | mcrit_similarity/picblocks.py:125-156 | nothing is left over on either side exactly when the functions anchor completely |
| Pairing.PickGreedily | mcrit_similarity/picblocks.py:187-196 | the loop over used-sets takes each candidate whose blocks are both free |
| Pairing.FindChangedPairs | mcrit_similarity/picblocks.py:159-196 | greedy pairs within the work budget, positional pairs above it, none when a side has no leftovers |
| Pairing.GreedyIsOneToOne | mcrit_similarity/picblocks.py:187-196 | no block is in two chosen pairs |
| Pairing.LeftOutIsBeaten | mcrit_similarity/picblocks.py:186-196 | a candidate left out shares a block with a chosen pair that sorts before it |
| Pairing.GreedyIsHalfOptimal | mcrit_similarity/picblocks.py:186-196 | no one-to-one pairing of the same candidates has more than twice the total similarity |
| Pairing.GreedyPairing | mcrit_similarity/picblocks.py:177-196 | all of the above for the leftovers themselves, and no two unpaired leftovers are still similar enough to pair |
| Pairing.PositionalMembers | mcrit_similarity/picblocks.py:170-176 | above the budget, a pair is taken exactly when its blocks stand at equal places and are similar |
| Pairing.ChangedPairsIsMatching | mcrit_similarity/picblocks.py:159-196 | on both paths the pairs match distinct leftovers of one side with distinct leftovers of the other |
| Pairing.PairingByBudget | mcrit_similarity/picblocks.py:159-196 | within forty million character comparisons the pairs are a greedy pairing with all its guarantees, beyond them exactly the similar leftovers at equal places |
| Alignment.ChoiceByBudget | mcrit_similarity/picblocks.py:108-196 | with the ratio and both thresholds written out: within forty million character comparisons a one-to-one choice of blocks with 4 * matched >= both lengths together, in the order of ratio, source and target, that outdoes every such pair and reaches half of any other choice; beyond that, exactly such blocks at equal places, in order |
| Painting.ScriptDiff | mcrit_similarity/picblocks.py:210-220 | the loop over opcodes paints every instruction outside the equal ranges, as changed in a replace |
| Painting.InstructionDiff | mcrit_similarity/picblocks.py:199-220 | a pair is painted whole when a side has no instructions, and by the edit script otherwise |
| Painting.FindPairs | mcrit_similarity/picblocks.py:265-274 | leftover entries are paired first, the rest by similarity |
| Painting.Annotations | mcrit_similarity/picblocks.py:258-283 | unpaired leftovers whole, then each pair's differences, entry annotations turned into changes |
| Painting.AnnotationBlocks | mcrit_similarity/picblocks.py:235-253 | nothing for an empty function, else what `Annotations` gives |
| Alignment.DrawnPairs | mcrit_similarity/picblocks.py:258-283 | what is painted on both sides is drawn from pairs: the first left-over entries, if both sides have one, and then such a choice among all other leftovers; a leftover in no pair is painted whole, a pair by its difference |
| Alignment.RemovedAndAddedDiffer | mcrit_similarity/picblocks.py:159-283 | within the budget no block painted as removed and none painted as added have non-empty texts with a ratio of at least a half |
| Alignment.PaintedAsRemovedAndAddedDiffer | mcrit_similarity/picblocks.py:159-283 | the same of any two annotations returned for the two sides |
| DiffOrder.FirstEntryIsSetAside | mcrit_similarity/picblocks.py:131-133 | the entry set aside is the first entry block of a function, and that only if the other function has an entry block too |
| DiffOrder.LeftOverInOrder | mcrit_similarity/picblocks.py:148-156 | blocks are left over in the order of the function, the entry set aside last |
| DiffOrder.MarksInOrder | mcrit_similarity/picblocks.py:275-283 | a side is painted in order: first, as whole blocks, the leftovers without a partner as they are left over, then the blocks of the pairs, pair by pair |
| Coverage.PaintedExactlyOnce | mcrit_similarity/picblocks.py:258-283 | anchored blocks are never painted, an unpaired leftover once and whole, a paired one by its one pair only |
| Coverage.PaintedRangesAreDisjoint | mcrit_similarity/picblocks.py:199-283 | if blocks are disjoint and instructions disjoint inside them, painted ranges are pairwise disjoint and inside leftover blocks |
| Changes.PaintedPlace | mcrit_similarity/picblocks.py:199-232 | every painted range is an unpaired block, a whole paired block, or an instruction in an opcode that is not equal; at the start of an entry block it is always a change |
| Changes.ChangedMeansCounterpart | mcrit_similarity/picblocks.py:199-232 | any other range is a change exactly if it has a counterpart painted on the other side, the other block of the pair or an instruction in the same opcode, and then some counterpart is a change too |
| Remainder.PairKeepsEqualText | mcrit_similarity/picblocks.py:199-220 | what a pair leaves unpainted is the same text on both sides |
| Remainder.UnpaintedRemaindersAgree | mcrit_similarity/picblocks.py:235-283 | for every text, as many source blocks as target blocks keep it once everything painted on them is erased: the multisets of non-empty remainders are equal |
| Remainder.ErasingAnnotationsAgrees | mcrit_similarity/picblocks.py:235-283 | the same when the annotations are erased by their values, if no two blocks or instructions coincide in all fields |
| Identical.EntriesStayTogether | mcrit_similarity/picblocks.py:125-156 | two entries are anchored to each other or paired with each other, and with nothing else |
| Identical.PairedDigestsDiffer | mcrit_similarity/picblocks.py:258-274 | a pair never joins blocks of one digest |
| Identical.NothingPaintedIffComplete | mcrit_similarity/picblocks.py:235-283 | on both pairing paths, nothing is painted on either side exactly when the functions anchor completely |
| Scoring.RoundIsNearest | mcrit_similarity/scoring.py:19-25 | rounding moves a value by at most a half, and a tie goes to the even integer |
| Scoring.SimilarityIsMonotone | mcrit_similarity/scoring.py:19-25 | a higher score never has a lower similarity, and both are bytes |
| Scoring.SimilarityIsNearestByte | mcrit_similarity/scoring.py:19-25 | a score between 0 and 100 maps to the nearest byte of 2.55 times it, and saturates outside |
| Scoring.UniquenessIsMonotone | mcrit_similarity/scoring.py:28-32 | the weight grows with the lead between a quarter and one, exceeds a half exactly for a positive lead and is one exactly from ten points |
| Scoring.ConfidenceIsMonotone | mcrit_similarity/scoring.py:35-47 | at one size, a higher score with no smaller lead never has a lower confidence, and both are bytes |
| Scoring.ConfidenceAgainstSimilarity | mcrit_similarity/scoring.py:28-47 | without a PicHash, confidence never exceeds similarity, equals it at full size for a sole or clearly leading candidate, is half of it for a tie, and is zero without bytes |
| Scoring.ConfidenceIsNearestProduct | mcrit_similarity/scoring.py:9-47 | without a PicHash, confidence is the nearest integer to similarity times size / 64 within 0 and 1, times 0.5 + lead / 20 within 0.25 and 1 |
| Scoring.FlagBits | mcrit_similarity/scoring.py:5-7 | the PicHash flag is the second lowest bit and the library flag the third lowest, of any integer |
| Parse.OffsetsAreTheSources | mcrit_similarity/mcrit/parse.py:70-107 | the offsets grouped by are distinct and exactly those with an accepted candidate |
| Parse.GroupRows | mcrit_similarity/mcrit/parse.py:78-107 | the row loop adds every accepted row of a summary to its group, in order |
| Parse.GroupMatches | mcrit_similarity/mcrit/parse.py:67-107 | the loops over the payload build exactly the groups of accepted rows, in order of first appearance |
| Parse.CandidateStats | mcrit_similarity/mcrit/parse.py:112-130 | one pass finds the candidate count, the two best scores and the PicHash count |
| Parse.ParseVsResult | mcrit_similarity/mcrit/parse.py:59-132 | the parser's loops compute the filter, grouping, stable sort, statistics and truncation that the lemmas of Ranking are about |
| Ranking.TallyIgnoresOrder | mcrit_similarity/mcrit/parse.py:112-130 | the statistics are the same for every order of the candidates |
| Ranking.MarginIsLead | mcrit_similarity/mcrit/parse.py:33-39 | `margin` is the score minus the maximum of all other candidates, and none exactly for a sole candidate |
| Ranking.MarginsAreLeads | mcrit_similarity/mcrit/parse.py:33-132 | every parsed match is an accepted candidate of its function and carries its lead over all the other candidates |
| Ranking.AcceptedIff | mcrit_similarity/mcrit/parse.py:71-107 | the candidates are exactly the decoded rows with a finite score of at least the minimum, no library match when those are excluded, and of the target sample, each with the fields of its row and summary |
| Placement.AcceptedAreTheRows | mcrit_similarity/mcrit/parse.py:71-107 | the candidates are the rows asked for, each exactly once and in the order of the payload |
| Placement.FunctionsInOrder | mcrit_similarity/mcrit/parse.py:93-131 | of two parsed matches of different functions, that of the function whose first candidate comes first in the payload comes first |
| Ranking.ParsedMeetsQuery | mcrit_similarity/mcrit/parse.py:59-132 | every parsed match is such a row |
| Ranking.OrderAndLimitDoNotMatter | mcrit_similarity/mcrit/parse.py:108-131 | a match is given the same statistics for every payload order and every `max_results` |
| Ranking.AtMostOneIsUnique | mcrit_similarity/mcrit/parse.py:33-39 | of several candidates at most one has a uniqueness weight above one half |
| Ranking.ConfidenceFollowsScore | mcrit_similarity/mcrit/parse.py:108-131 | among one function's candidates of equal size that are not PicHash, a higher score never has a lower confidence |
| Ranking.PicHashIsCertainIffSole | mcrit_similarity/scoring.py:42-43 | a PicHash match has confidence 255 if it is the only PicHash candidate of its function before truncation, and 128 otherwise |
| Ranking.SliceIsBestFirst | mcrit_similarity/mcrit/parse.py:55-131 | a function's matches are the first min(max(1, `max_results`), candidates) of its candidates: PicHash first, then by falling score, then by falling size, ties in payload order |
| Ranking.SmallerLimitIsPrefix | mcrit_similarity/mcrit/parse.py:107-131 | results for a smaller limit are, function by function, prefixes of those for a larger one |
| Ranking.SplitEqualsDirect | mcrit_similarity/mcrit/parse.py:66-132 | parsing a corpus result for one sample equals parsing a payload already reduced to that sample's rows |
| Mapping.LookupEntity | mcrit_similarity/mapping.py:43-48 | the loop over aliases finds the entity at the address, else at the cleared address |
| Mapping.IndexEntities | mcrit_similarity/mapping.py:35-40 | the loops build the index in which the first entity of each alias wins |
| Mapping.LookupIsScan | mcrit_similarity/mapping.py:30-48 | an even address resolves to the first entity at it or one above, an odd one to the first at it or else the first one below |
| Mapping.TargetNode.AddMatchOnlyEntity | mcrit_similarity/provider.py:115-135 | one match creates an entity exactly when its offset is known, does not resolve and has a function in the view |
| Mapping.TargetNode.AddMatchOnlyEntities | mcrit_similarity/provider.py:113-136 | the entities created and the index grown in place, over all matches |
| Mapping.CreatedAreFresh | mcrit_similarity/provider.py:123-135 | each entity is created at an address that resolved to nothing when it was created |
| Mapping.CreatedFromMatches | mcrit_similarity/provider.py:115-135 | each created entity is at the offset of a match, in the order of the matches, where the view has a function at it or at the even address; it has the name of that offset and the next id |
| Mapping.GrowthKeepsLookups | mcrit_similarity/provider.py:113-136 | an address that resolves keeps its entity however many match-only entities are added |
| Mapping.GrowthIsComplete | mcrit_similarity/provider.py:113-136 | after growth every match with a function in the view resolves |
| Mapping.GrowthIsLocal | mcrit_similarity/provider.py:113-136 | growth changes no lookup where the view has no function |
| Mapping.EvenIsCreatedIff | mcrit_similarity/provider.py:115-135 | an entity is created at an even offset exactly if it is not in the index, has a function, and some match is at it |
| Mapping.OddIsCreatedIff | mcrit_similarity/provider.py:115-135 | an entity is created at an odd offset exactly if neither it nor the one below is in the index, either has a function, and some match at it comes before any at the one below, where that one has a function |
| Mapping.GrowthIsRebuildIffEven | mcrit_similarity/provider.py:131-135 | the grown index answers like one rebuilt from all entities exactly when the index, the matches and the view make no entity at an odd offset |
| Visits.CreatedAddressesAreNew | mcrit_similarity/provider.py:407-410 | over every run of visits to a node, no entity is created at the address of another |
| Visits.LookupsStay | mcrit_similarity/provider.py:407-410 | what an address resolves to at the start of a visit it resolves to after any later visits |
| Visits.OvertakenIff | mcrit_similarity/provider.py:113-136 | an entity one above an even address is created before one at it exactly if neither is in the index, the even one has a function, and a match one above comes before every match at it and is followed by one |
| Visits.ResolutionsLastUnlessOvertaken | mcrit_similarity/provider.py:407-411 | what the grown index of a visit resolves an address to, later visits resolve it to exactly unless that condition holds of the index, the matches and the view before the visit |
| Visits.OvertakenExample | mcrit_similarity/provider.py:113-136 | a function matched first at its Thumb address and then at its even one is created twice, and the next visit resolves the even address to the other entity |
| Mapping.PairMatches | mcrit_similarity/mapping.py:51-89 | the loop's two lists are the pairs and the unresolved matches, with the similarity and confidence of each pair |
| Mapping.PairingPartitions | mcrit_similarity/mapping.py:51-89 | paired, unresolved and unscheduled matches partition the matches, each part in the order of the matches |
| Mapping.PairedIffFound | mcrit_similarity/mapping.py:60-88 | a match is paired exactly if a scheduled source entity and a target entity are found, and the pair names them and carries the match's similarity and confidence |
| Mapping.UnresolvedIffAbsent | mcrit_similarity/mapping.py:60-69 | after growth a match is unresolved exactly when it has no target offset, no source entity, or neither a target entity nor a function in the view |
| Jobs.AwaitJob | mcrit_similarity/mcrit/jobs.py:90-152 | for every server and any number of polls made: the outcome is the first decisive one, or the wait still goes on; with L live answers it comes within (L + M) * M polls; one sleep between any two polls, of its exact length |
| Jobs.WaitIsBounded | mcrit_similarity/mcrit/jobs.py:110-152 | with L live answers and M missing ones allowed, a wait that goes on has made fewer than (L + M) * M polls |
| Jobs.EndlessOnlyIfEndlesslyLive | mcrit_similarity/mcrit/jobs.py:110-152 | a wait goes on for ever only if the server gives live answers without end |
| Jobs.BoundIsReached | mcrit_similarity/mcrit/jobs.py:110-152 | for every L and M some server makes the wait need every one of those polls |
| Jobs.DelaysDoubleIffCapped | mcrit_similarity/mcrit/jobs.py:106-152 | the k-th live wait is min(max, start * 2^k) for all k exactly when start is within max |
| Jobs.OnlyResultsAreReturned | mcrit_similarity/mcrit/jobs.py:125-147 | a value is returned exactly for a job that finished, was neither terminated nor failed, and has that value as its result |
| Jobs.LiveMeansNotEnded | mcrit_similarity/mcrit/jobs.py:47-87 | the three tests over the job's fields together let a wait go on exactly while nothing says that the job has ended |
| Jobs.FailureMeansNoAttemptsLeft | mcrit_similarity/mcrit/jobs.py:47-87 | which fields of a job end a wait as terminated and which as failed |
| Jobs.RunIsMissing | mcrit_similarity/mcrit/jobs.py:114-120 | a run of n missing answers, on which a wait gives up, is n consecutive missing answers |
| Jobs.GoneMeansMissing | mcrit_similarity/mcrit/jobs.py:110-120 | a wait ends with the job not found exactly at the end of as many missing answers in a row as allowed, but at least one |
| Jobs.NeverWrittenMeansEnded | mcrit_similarity/mcrit/jobs.py:130-141 | a wait ends without a result exactly when a job that ended has given none, whichever way it is asked for, as many times as allowed, but at least once |
| DiskCache.Folder.ScanFolder | mcrit_similarity/diskcache.py:131-143 | lists the readable reports and deletes exactly the stale temporary files it can |
| DiskCache.Folder.Evict | mcrit_similarity/diskcache.py:145-154 | the loop with running total and count deletes exactly the victims it can |
| DiskCache.Folder.Prune | mcrit_similarity/diskcache.py:121-154 | the files left, for any caps and any failing deletions |
| DiskCache.VictimsAreShortestRun | mcrit_similarity/diskcache.py:147-154 | victims are the shortest run from the front, skipping the kept file, that meets the caps, or all but the kept file |
| DiskCache.PruningIsSufficientAndMinimal | mcrit_similarity/diskcache.py:121-154 | for any caps both hold or nothing but the kept file remains; no shorter oldest-first run would do; no survivor but the kept file is older than a removed one |
| DiskCache.PruningMeetsTheCaps | mcrit_similarity/diskcache.py:29-154 | the same for the caps as given, or 512 MiB and a thousand files where not, of the readable reports, in the order of time, size and path |
| DiskCache.FailingDeletionsKeepFiles | mcrit_similarity/diskcache.py:121-154 | whichever deletions fail, a file stays exactly if it would stay were they to succeed, or cannot be deleted |
| DiskCache.PruningSparesTheRest | mcrit_similarity/diskcache.py:121-154 | the kept report and every file that is no readable report survive, but for readable temporary files of more than a day |
| GcPause.Collector.Pause | mcrit_similarity/diskcache.py:58-62 | the first caller remembers and switches off, every caller counts |
| GcPause.Collector.Unpause | mcrit_similarity/diskcache.py:65-69 | the last caller switches on again if it was on |
| GcPause.PausedExactlyWhileInside | mcrit_similarity/diskcache.py:54-69 | however callers overlap, collection is off while any is inside and otherwise as it was found |
| Reports.ReportStore.constructor | mcrit_similarity/export.py:26-36 | the caches start empty beside the folder as it is |
| Reports.ReportStore.RawSha256Cached | mcrit_similarity/export.py:60-65 | the file's hash, and the hash cache left behind |
| Reports.ReportStore.ColdSha256 | mcrit_similarity/export.py:76-88 | the remembered hash, or the hash of a file of at most 4 MiB, or the empty string, and what is remembered |
| Reports.ReportStore.LoadCurrentReport | mcrit_similarity/export.py:154-170 | the stored report unless missing, unreadable (then dropped) or drifted from the view |
| Reports.ReportStore.LoadSmallReport | mcrit_similarity/export.py:173-182 | the same for stored files of at most 768 KiB |
| Reports.ReportStore.CachedReport | mcrit_similarity/export.py:83-102 | the report shown and all caches left behind, with others acting between any two accesses |
| Reports.ReportStore.PreloadReport | mcrit_similarity/export.py:130-151 | all caches left behind by a preload, with its limits and early returns |
| Reports.ReportStore.LoadOrBuildReport | mcrit_similarity/export.py:200-209 | only a first export may take the report from disk; a built one is stored |
| Reports.ReportStore.JoinBuild | mcrit_similarity/cache.py:83-100 | waits for other threads' builds of the report while it is not held, and gives up when asked to stop |
| Reports.ReportStore.ExportSmdaReport | mcrit_similarity/export.py:212-226 | the answer and all caches left behind by an export, cancelled, failed or done |
| ReportRuns.RenderIsCoherent | mcrit_similarity/export.py:83-102 | a render keeps the caches coherent and shows only a report made from the file's bytes |
| ReportRuns.PreloadIsCoherent | mcrit_similarity/export.py:130-151 | a preload keeps the caches coherent |
| ReportRuns.ExportIsCoherent | mcrit_similarity/export.py:200-226 | an export keeps the caches coherent and answers with a report of the file's bytes |
| ReportRuns.LoadIsCoherent | mcrit_similarity/export.py:154-182 | a report taken from disk was stored for the view's bytes, has as many functions as that view keeps, give or take eight or a fiftieth, and is marked as tested against it |
| ReportRuns.EveryRunIsCoherent | mcrit_similarity/export.py:83-226 | over all runs on many files, with evictions and other threads between any two accesses: session keys name their file's hash, and reports in memory are of the bytes they are held for |
| ReportRuns.HeldReportsAreAccountedFor | mcrit_similarity/export.py:83-226 | over all such runs every report in memory was built by an export of the run from a view, or came from disk with as many functions as a view of the very bytes it is held for kept, give or take eight or a fiftieth |
| ReportLimits.RenderKeeps | mcrit_similarity/export.py:83-102 | whatever property of the caches no single access breaks and others keep, a render keeps |
| ReportLimits.PreloadKeeps | mcrit_similarity/export.py:130-151 | and a preload |
| ReportLimits.ExportKeeps | mcrit_similarity/export.py:200-226 | and an export |
| ReportLimits.HeldReportsAreFew | mcrit_similarity/cache.py:118-126 | over all runs, with others acting within the limits, at most one report is in memory, or at most sixteen of together at most five million instructions; each session cache remembers at most 1024 |
| ReportLimits.RoomForSixteen | mcrit_similarity/cache.py:118-122 | a store evicts no report while there are at most sixteen of together at most five million instructions |
| ReportLimits.RoomForSessions | mcrit_similarity/cache.py:123-126 | nor does a session cache forget anything while it has at most 1024 entries |
| ReportRuns.MissHidesNoExport | mcrit_similarity/export.py:83-102 | whatever misses are remembered, a render shows the report an export returned while its entries are held |
| ReportAnswers.ExportAnswers | mcrit_similarity/export.py:200-226 | in a call alone an export answers with the report in memory under its key, else for a session without a remembered export with the stored one, if its functions are those the view keeps give or take eight or a fiftieth, else with one built now |
| ReportAnswers.ExportLeavesAlone | mcrit_similarity/export.py:213-222 | an export stopped before its view settles, or of a view without bytes, leaves every cache and the folder alone |
| ReportAnswers.BuiltIsStored | mcrit_similarity/export.py:206-209 | a built report is answered and is the stored one afterwards; of the other files those are left that pruning did not take |
| ExportStops.CancelledIffStopped | mcrit_similarity/export.py:200-226 | in a call alone an export is cancelled exactly if a stop is asked for before its view has settled, or later while its report is not in memory |
| ExportStops.JoinedBuildIsAnswered | mcrit_similarity/export.py:212-226 | an export answers with the report another thread has built by the end of a wait for it |
| ExportHistory.ExportIsRemembered | mcrit_similarity/export.py:223-226 | whatever others do, an export that returns leaves its session and key remembered |
| ExportHistory.RememberedExportLoadsNothing | mcrit_similarity/export.py:200-209 | while an export of its session is remembered, an export answers with a report in memory or one it builds |
| ExportHistory.LaterExportsLoadNothing | mcrit_similarity/export.py:200-226 | over every run, after an export of a session each later one loads nothing from disk, unless the remembered export was evicted in between |
| ExportHistory.StoredStandsInIffHeld | mcrit_similarity/export.py:200-226 | in a call alone by a session with a remembered export, the answer is a report from disk exactly if such a report is held in memory under the key the file has now |
| ExportHistory.StoredStandsIn | mcrit_similarity/export.py:130-151 | when another session has preloaded the same bytes at the function count the file has now, a later export is answered with the stored report of the earlier analysis |
| ExportHistory.StoredStandsInAt100And103 | mcrit_similarity/export.py:130-226 | the same at 100 and then 103 functions |
| ReportAnswers.RenderAnswers | mcrit_similarity/export.py:83-102 | in a call alone a render shows the report in memory; else nothing once a miss is remembered; else the stored report if it has at most 768 KiB and the functions the view keeps, give or take eight or a fiftieth; and nothing of a file neither bound, remembered nor of at most 4 MiB |
| ReportAnswers.ColdRenderIsBounded | mcrit_similarity/export.py:76-102 | what a render shows came from memory or from a stored file of at most 768 KiB |
| ReportAnswers.RenderLeavesShown | mcrit_similarity/export.py:93-102 | a render that shows a report leaves it in memory, bound to the file |
| ReportAnswers.RenderDropsUnreadable | mcrit_similarity/export.py:94-99 | a render that comes upon a small stored file that does not load shows nothing, drops the file and remembers the miss |
| ReportAnswers.PreloadAnswers | mcrit_similarity/export.py:130-151 | after a preload of an unbound file of at most 64 MiB a render shows the held report, or else the stored one if its functions are those the view keeps give or take eight or a fiftieth, whatever its size and whatever misses are remembered; the file stays unbound exactly when there is neither |
| ReportAnswers.PreloadLeavesAlone | mcrit_similarity/export.py:131-140 | a preload of a raw, empty, large, foreign or already bound view, or without a folder, holds and binds nothing |
| ReportAnswers.HashesAreRemembered | mcrit_similarity/export.py:60-88 | hashing remembers the hash under session and length, and a cold lookup its hash, or that there is none, under the session |
| ReportAnswers.PreloadRemembersHash | mcrit_similarity/export.py:141-143 | a preload leaves the hash of a file of at most 4 MiB for renders, and of no larger file |
| ReportAnswers.StoredIsShownIffNotMissed | mcrit_similarity/export.py:94-99 | a small current stored report that is not in memory is shown exactly if no miss is remembered for it |
| ReportAnswers.EvictedExportIsHidden | mcrit_similarity/export.py:94-99 | a file rendered before anything is stored, then exported, then evicted from memory is shown as nothing although its stored report is small and current |

## Left out

- Network, URLs, tokens, retries, uploads and the rest of the client: server answers are arbitrary inputs.
- Binary Ninja, SMDA, rendering, settings, keychain, logging: foreign interfaces.
- Floating-point error: scores, ratios and weights are exact reals; a `num_bytes` that is not finite is not modelled.
- difflib, SHA-256, gzip and JSON: only their contracts. The edit script tiles both sequences and its equal ranges are equal, the matched characters form a common subsequence, a digest is a function of the text, and a file loads as stored or not at all.
- Coercion of malformed JSON: rows and summaries are decoded or invalid.
- Time: sleeps are recorded events, file times are numbers; `on_progress` and the queue announcement of `await_job` are not modelled, nor exceptions raised by the client.
- `with_target_offsets`, `unique_target_function_ids`, `corpus_label`, `decode_offset`, `applied_overrides`: easy members.
- The memoization of `_annotations` and the digest computation of `hash_escaped_block`: results do not depend on them. What `hash_smda_function` guarantees appears as the hypotheses `Hashed`, `DigestOfText` and `AtMostOneEntry`.
- Remainder.UnpaintedRemaindersAgree: assumes that the digest separates the block texts.
- Remainder.ErasingAnnotationsAgrees: assumes besides that no two blocks of a function, and no two instructions of a block, are equal in all fields, as their addresses make sure.
- Cache.LockedCache.GetOrSet: one caller at a time, with a factory that does not use the cache and a weigher that does not raise; threads and a raising weigher are in SingleFlight.
- FunctionLookup.TargetFunctions: a call that is not interleaved with others on the same cache; LookupRuns is about one call after another.
- Jobs.AwaitJob: makes the first `horizon` polls of a wait, for any horizon, since a wait on a job that stays live does not end.
- DiskCache.PruningIsSufficientAndMinimal: assumes that every deletion succeeds; FailingDeletionsKeepFiles covers failing ones. Paths are numbers that sort like the paths.
- DiskCache.PruningMeetsTheCaps: the same assumption.
- Reports.ReportStore.ExportSmdaReport: how many builds by other threads are waited for is a parameter, and the questions to stop during one wait count as one; the pruning after a store is any removal of other files.
- ReportRuns.EveryRunIsCoherent: other threads are any changes between accesses that keep coherence, which the accesses of every call are proved to do; the reports that their exports build are listed with the event.
- ReportLimits.HeldReportsAreFew: other threads are any changes between accesses that keep the caches within their limits, which the accesses of every call are proved to do.
- ReportAnswers.RenderAnswers: a call alone; with others acting in between, ReportRuns says what is kept.
- Visits.CreatedAddressesAreNew: between visits no other entity appears on the node.
- Visits.LookupsStay: a node lists the entities created on it after all earlier ones, in the order of creation; the same is assumed by Visits.ResolutionsLastUnlessOvertaken. In another order a later visit may resolve an address to another entity.
- Visits.ResolutionsLastUnlessOvertaken: assumes that listing order too.
- Caches in Reports are the values that LockedCache objects hold, so the identity of the cache objects is not captured.
