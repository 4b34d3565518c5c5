# Verification model of Periplus

Periplus is an in-memory cache for vector databases. It partitions the vector space into the
cells of an inverted file index, loads and evicts whole cells, and answers a query only when
the cells the query needs are in residence. This project models the C++ cache core, the
command protocol around it, the wire format, and the Python client's encoders and readers,
and proves what the system is for: a cache hit answers exactly like the index with every cell
loaded, in every state that any interleaving of sessions can reach.

`dafny verify dfyconfig.toml` checks everything.

## The files

| file | content |
|---|---|
| `Bytes.dfy` | byte strings, little-endian integers, opaque 4-byte floats, C strings |
| `Ranking.dfy` | sorting hits and taking the best k, as the library's searches do |
| `CoreState.dfy` | the core as a value: five structures and what each operation makes of them |
| `CoreInvariants.dfy` | the global invariant behind the core's asserts, and its preservation |
| `CoreAdds.dfy` | which cell, place and number each id of an ADD gets |
| `CoreLoads.dfy` | multi-cell loads, partial failure, retry, undoing and reordering, which cells are reached |
| `CoreSync.dfy` | what a resident cell holds when the database agrees with the ADDs |
| `CoreSearch.dfy` | what a search answers: the nearest stored records; hits refine the full index |
| `Core.dfy` | class `Core` in the source's form, proved against the state functions |
| `Commands.dfy` | commands, statuses and the fall-through switch |
| `Server.dfy` | all sessions and the shared cache as a step relation; results over all runs |
| `Scenarios.dfy` | runs from boot that end where the documentation is not met |
| `Cache.dfy` | class `Cache`: every handler is a step of `Server.dfy`, search also replies |
| `Args.dfy` | the commands on the wire, their parsers, and round trips |
| `Readers.dfy` | the stream readers in the source's form, proved against the parsers |
| `Framing.dfy` | how a session cuts commands out of arrivals; fragmentation |
| `Session.dfy` | class `Session`: pending read, buffer and handlers |
| `Sessions.dfy` | byte streams and server runs together |
| `World.dfy` | the whole process: connections, arrivals and handlers as events, over server and sessions |
| `Reply.dfy` | the search reply: format, round trip, serialization, chunking, reply loop |
| `Layout.dfy` | which byte of a request or reply is which |
| `Client.dfy` | the Python client: request encoders and reply readers |

## How the model is set up

* FAISS is a contract. The quantizer ranks all cells by an integer distance of query and
  centroid; the index returns the best k of the probed lists by an integer score of query and
  stored vector. Ties go to the smaller number. Distances and scores are arbitrary functions
  fixed at construction, so flat and quantized indexes are not told apart.
* The database is a function from cells to replies. A reply is an HTTP failure or one record
  per id asked for, in any order, with any embedding. Coherence, the equality of hits with the
  full index, and lists staying within snapshots ask for no more. Results that name the records
  a cell or a hit contains also ask that records agree with the embeddings ADDed
  (`Regime.truth`). Only the absence of failed asserts and the judgement of freshness by the
  counters ask that ADDs bring new ids (`Regime.newIds`).
* Every handler runs to its end on the one event-loop thread. Acceptance and execution of a
  command are separate steps, and other sessions' steps come in between.
* A failed assert, an exception nobody catches, a rethrow without an exception, a missing core
  and a quantizer without centroids are outcomes of the model, not preconditions. What the code
  leaves to its callers is `Server.Owed`: `1 <= nprobe <= nCells`, `nload` and `nevict` at most
  `nCells`, arrays as long as the counts say.

## Where the code does not do what its documentation says

* `src/core.cpp:139` searches from offset `i` instead of `i * d`. As written, the answer of
  query i is the documented one for i = 0 or d = 1, and the two slices differ for every other i
  and d (`CoreSearch.SearchedSliceIsTheRow`, `CoreSearch.FirstQueryAnswersLikeFullIndex`). For
  any call whose slice the index tells from the query, whatever the metrics,
  `Scenarios.LaterQueriesCanAnswerWrongly` gives a run from boot that leads to a wrong answer.
* `src/args.h:158` gives ADD a static size of 9 bytes; 17 are read. An ADD is decoded exactly
  when no arrival ends inside the 17 bytes after its command line
  (`Framing.DecodesUnlessCutInAddHeader`, `Framing.CutAddIsLost`).
* `src/core.cpp:201` registers an id in its cell even when it is known. An absent cell with an
  id registered twice can never be loaded again: an assert fails. Against a database that agrees
  with the ADDs that is the exact condition (`CoreSync.LoadableIffNoRepeats`,
  `Server.ReachableLoadsAbortIff`), and every second ADD of an id brings it about
  (`CoreSync.SecondAddBreaksLoad`).
* An ADD to a resident cell does not refresh it. Hits answer over the ids known when the cell
  was loaded (`CoreSync.SnapshotPrefix`). They answer over the whole registered collection
  exactly when every probed cell holds every id registered in it
  (`CoreSearch.ScanAnswersCollectionIff`); with ids registered once the counters tell
  (`CoreSearch.HitAnswersCollectionIff`). `Scenarios.AddAfterLoadIsMissed` is a run from boot
  that ends in a hit missing a vector.
* The client's `train` says TRAIN cannot be repeated after ADD
  (`clients/python/periplus_client/client.py:97-98`). A READY server accepts it and changes
  nothing (`Commands.AcceptanceTable`, `Server.RetrainIsAccepted`).
* README.md:102 ties the hit guarantee to equal `n_load` and `n_probe`; any `n_probe` up to
  `n_load` will do (`Server.LoadGuaranteesHits`).
* The client reads each length and count with a single receive
  (`clients/python/periplus_client/client.py:306-332`). A reply is read exactly when all its
  bytes are there and no arriving piece ends inside a length or a count
  (`Client.Periplus.DeserializeQueryResults`, `Client.CutsMatter`).

## Model

| member | source | states |
|---|---|---|
| CoreState.RankIsPermutation | src/core.cpp:53-55 | the quantizer's ranking of a vector names every cell exactly once, by increasing distance of its centroid, ties by number |
| CoreState.ProbeIsNearest | src/core.cpp:120-123 | the centroid of a cell in a probe is no farther than that of a cell left out, and a tie goes to the smaller number |
| CoreState.NearestIsNearest | src/core.cpp:95 | no centroid is at a smaller distance than that of the cell a vector is routed to |
| CoreState.ProbedIffFewCloser | src/core.cpp:53-55 | a cell is among the m probed exactly when fewer than m centroids are nearer |
| CoreState.RowIs | src/core.cpp:192-196 | vector i of a flattened array is floats i * d to i * d + d |
| Ranking.SortAscends | src/core.cpp:139 | sorting hits gives an ascending rearrangement of them |
| Ranking.BestIsBest | src/core.cpp:139 | the labels of an index search are in the pool, ascending, at most k, and nothing left out comes before one taken |
| Ranking.BestIsUnique | src/core.cpp:139 | a pool has only one best-k list, so answers depend on the set of stored vectors alone |
| CoreClass.Core.constructor | src/core.cpp:19-37 | a new core has nCells empty cells, none resident, nothing registered |
| CoreInvariants.BlankIsCoherent | src/core.cpp:19-37 | INITIALIZE leads to a state that satisfies the whole invariant, with the dimension, the number of cells and the metrics asked for |
| CoreClass.Core.Train | src/core.cpp:41-50 | trains only an untrained index and copies the quantizer's centroids |
| CoreInvariants.TrainIsSticky | src/core.cpp:41-50 | the first training sets the centroids of an empty core and keeps its metrics and coherence; any later one changes nothing |
| CoreClass.Core.IsNullTerminated | src/core.cpp:182-189 | true exactly when the C string in the buffer is shorter than the limit |
| CoreClass.Core.CheckId | src/core.cpp:199 | the assert on an id's buffer holds exactly for ids of under 100 bytes |
| CoreClass.Core.Add | src/core.cpp:192-206 | registers id i in the cell nearest to floats i * d to i * d + d, in order, or aborts exactly when some id has 100 bytes or more |
| CoreAdds.AddRegisters | src/core.cpp:192-206 | ADD changes no list, record, residency or centroid; each cell gets exactly the ids whose vectors are nearest to it |
| CoreAdds.AddPlaces | src/core.cpp:198-201 | id i stands in the cell nearest to vector i, right after the earlier ids of that ADD that belong there; every cell grows by the number of its vectors |
| CoreAdds.AddedRowsRegister | src/core.cpp:192-201 | the same in terms of the flattened array, at offset i * d |
| CoreAdds.AddNumbersInOrder | src/core.cpp:202-203 | an id seen for the first time at place i gets the counter's value plus i |
| CoreClass.Core.RegisterAll | src/core.cpp:198-204 | the loop equals the fold of single registrations |
| CoreClass.Core.Register | src/core.cpp:200-203 | the id joins its cell in any case, an existing number stays, the counter always advances |
| CoreInvariants.AddKeepsCoherence | src/core.cpp:192-206 | ADD keeps the whole invariant, also with ids registered before |
| CoreInvariants.AddKeepsNumbers | src/core.cpp:198-204 | existing mappings never change, each row uses up one number, exactly the given ids become known |
| CoreInvariants.AddKeepsDistinct | src/core.cpp:198-204 | with new ids no id is ever registered twice, in any cell |
| CoreClass.Core.LoadCellWithVec | src/core.cpp:52-65 | loads the nload nearest cells in order, skips residents, stops at the first failure with the state reached |
| CoreClass.Core.LoadCell | src/core.cpp:80-114 | a refusal changes nothing; otherwise done or aborted exactly as `Loadable` says, with the exact new state |
| CoreClass.Core.LoadRecord | src/core.cpp:93-110 | one record: filtered by its nearest cell, or one of the two asserts fails and the reply was not loadable |
| CoreClass.Core.Insert | src/core.cpp:102-105 | record map and inverted list grow by the same number and nothing else changes |
| CoreInvariants.ConformingIds | src/core.cpp:82-84 | a conforming reply has as many records as ids asked for, of the same ids |
| CoreInvariants.LoadNeverAborts | src/core.cpp:93-101 | ids registered once and a conforming reply: no assert of loadCell can fail, even with drifted embeddings |
| CoreInvariants.LoadAbortsIff | src/core.cpp:97-101 | an assert fails on a conforming reply exactly when two kept records share an id or a kept id is stored already |
| CoreInvariants.LoadKeepsCoherence | src/core.cpp:80-114 | a load keeps the whole invariant whatever embeddings the database returns |
| CoreLoads.RepeatedIdBreaksLoad | src/core.cpp:93-101 | a cell with an id registered twice cannot be loaded while its records are still routed there |
| CoreSync.LoadableIffNoRepeats | src/core.cpp:93-101 | against a faithful database an absent cell can be loaded exactly when no id is registered in it twice |
| CoreSync.LoadCellsAbortIff | src/core.cpp:52-65 | an answered multi-cell load completes exactly when no absent cell it asks for has an id registered twice; otherwise it aborts |
| CoreSync.SecondAddBreaksLoad | src/core.cpp:192-206 | an ADD of an id known from an earlier ADD, or repeated within it, leaves a repetition in its cell, which then cannot be loaded |
| CoreSync.AddGrows | src/core.cpp:201 | registrations are only appended, so a repetition never goes away |
| CoreLoads.LoadCellsKeeps | src/core.cpp:52-65 | however a multi-cell load ends: coherence, registry, residents and other cells kept; if it ends well all listed cells are resident |
| CoreLoads.LoadCellsKeepsRecords | src/core.cpp:99-102 | a load, however it ends, drops and replaces no stored record |
| CoreLoads.PartialLoad | src/core.cpp:57-64 | on a refusal exactly the earlier cells are resident, as if only they had been asked for; the refused and later cells are unchanged |
| CoreLoads.RefusedAt | src/core.cpp:83-89 | a failed load stopped at an absent cell the database refused |
| CoreLoads.LoadReachesNearest | src/core.cpp:53-64 | a LOAD makes resident exactly the cells with fewer than nload centroids nearer, or, when the database refuses, those with fewer than the refused cell has; all others are as before |
| CoreLoads.LoadStores | src/core.cpp:93-112 | loading a cell stores every record of the reply that is nearest to it, under its id's number and in its list, and nothing else, whatever the database holds |
| CoreLoads.RetryCompletes | src/cache.cpp:134-144 | retrying after the database recovers reaches the state of one uninterrupted load |
| CoreClass.Core.EvictCellWithVec | src/core.cpp:67-77 | evicts the resident ones of the nevict nearest cells; the throw of evictCell is unreachable |
| CoreClass.Core.EvictCell | src/core.cpp:159-179 | throws exactly on an absent cell; else drops the cell's list, its records and its residency only |
| CoreInvariants.EvictKeepsCoherence | src/core.cpp:159-179 | evicting any cell keeps the whole invariant |
| CoreInvariants.NotInTwoLists | src/core.cpp:167-175 | the inverted lists are disjoint, so an eviction erases no other cell's record |
| CoreLoads.EvictCellsKeeps | src/core.cpp:67-77 | exactly the listed cells end empty and absent, all others and the registry are unchanged |
| CoreLoads.EvictReachesNearest | src/core.cpp:67-77 | an EVICT empties exactly the cells with fewer than nevict centroids nearer |
| CoreLoads.EvictUndoesLoad | src/core.cpp:80-179 | evicting a cell just loaded restores the state exactly |
| CoreLoads.LoadsCommute | src/core.cpp:80-114 | loads of different cells can be swapped: same success, same state |
| CoreLoads.LoadEvictCommute | src/core.cpp:80-179 | a load and an eviction of different cells can be swapped |
| CoreLoads.EvictsCommute | src/core.cpp:159-179 | two evictions can be swapped |
| CoreSync.AddKeepsSync | src/core.cpp:192-206 | ADDs that agree with the database keep the core synchronized; snapshots do not move |
| CoreSync.LoadKeepsSync | src/core.cpp:93-112 | a faithful load puts exactly the cell's registered records in it |
| CoreSync.EvictKeepsSync | src/core.cpp:159-179 | evictions keep the core synchronized with the database |
| CoreSync.SnapshotPrefix | src/core.cpp:93-112 | against a faithful database a cell's list is, as a multiset, the numbers of its first residence_statuses[c] ids, also after ids were registered again |
| CoreSync.ListWithinSnapshot | src/core.cpp:93-112 | whatever the database answers, a cell's list is contained, as a multiset, in the numbers of those ids |
| CoreSync.LoadKeepsOnce | src/core.cpp:93-112 | a faithful load that completes shows that no id was registered twice in the cell |
| CoreClass.Core.Search | src/core.cpp:117-157 | per query, as sliced by the code: on a hit slot j holds the record under label j and the rest are empty, on a miss -1 and the slots as before; other slots untouched; the assert can fail only in an incoherent core |
| CoreClass.Core.AnswerSpelled | src/core.cpp:123-148 | in floats and slots: floats i * d to i * d + d decide residency, floats i to i + d are searched for, and on a hit slots i * k on hold the k best stored records in reach |
| CoreClass.Core.SlotsAreNearestStored | src/core.cpp:136-151 | the slots of a hit up to its count are the k best stored records in reach of the slice |
| CoreClass.Core.SearchOne | src/core.cpp:124-156 | one query writes its own slots and count only |
| CoreClass.Core.CheckResidency | src/core.cpp:125-133 | hit exactly when the nearest cell, and under require_all each probed cell, is resident |
| CoreClass.Core.FillSlots | src/core.cpp:136-151 | slot j holds the record under label j for every label, the rest are empty; fails exactly on a label without a record |
| CoreSearch.HitProbesResidents | src/core.cpp:125-133 | the hit conditions in terms of resident cells, both directions |
| CoreSearch.HitIffNearestResident | src/core.cpp:125-133 | a require_all hit exactly when every cell with fewer than nprobe nearer centroids is resident; otherwise when the one with none is |
| CoreSearch.HitReturnsNearestStored | src/core.cpp:139-149 | a hit returns, for each label, the record stored under it; together the k best stored records of the nprobe cells nearest to the slice, each once, best first |
| CoreSearch.ScoresAscend | src/core.cpp:139 | their scores never decrease, and nothing in reach that is left out has a smaller score |
| CoreSearch.OneNearestStored | src/core.cpp:139-149 | there is only one such list of records |
| CoreSearch.HitReturnsTruth | src/core.cpp:147-149 | against a faithful database record j is the database's record of the id whose number is label j, and no record comes twice |
| CoreSearch.ScanIsStored | src/core.cpp:139-149 | every label has a record, and that record was loaded into a probed resident cell under an id registered there |
| CoreSearch.ScanAnswersSnapshot | src/core.cpp:139-149 | a scan is the best k over the snapshots of the resident probed cells |
| CoreSearch.ScanAnswersCollectionIff | src/core.cpp:139-149 | a scan is the best k of the whole registered collection in the probed cells, for every k, exactly when those cells hold every id registered in them |
| CoreSearch.StaleScanMisses | src/core.cpp:139-149 | if one of them grew since it was loaded, every k above the snapshots' size misses something |
| CoreSearch.HitAnswersCollectionIff | README.md:15 | for a require_all hit on cells without repeated ids the condition is that each probed cell's residence status equals its number of ids |
| CoreSearch.SameSnapshotsSameAnswer | README.md:15 | the answer depends on the probed cells' snapshots only, whatever else is resident |
| CoreSearch.FullIndexIsFull | README.md:15 | against a faithful database the load of all cells completes and leaves resident cells alone |
| CoreSearch.HitAnswersLikeFullIndex | README.md:15 | a require_all hit of any coherent core returns, record for record, what this core returns with every other cell loaded, whatever a conforming database answers, drifted embeddings included |
| CoreSearch.SearchedSliceIsTheRow | src/core.cpp:139 | the slice searched is the query's row for every array exactly when i = 0 or d = 1 |
| CoreSearch.FirstQueryAnswersLikeFullIndex | src/core.cpp:117-157 | the code as written does so for i = 0 or d = 1 |
| CoreSearch.SlicesDiffer | src/core.cpp:139 | for every other i and d there is a call of zeros and a single one whose two slices differ |
| Scenarios.LaterQueriesCanAnswerWrongly | src/core.cpp:139 | for any metrics, any centroids of any number and any call whose slice the metrics tell from the query, a run from boot reaches a search whose answer as written is not the full index's |
| Scenarios.OneAmongZerosIsAnsweredWrongly | src/core.cpp:139 | so every later query of two or more dimensions has a call that is answered wrongly |
| Scenarios.AddAfterLoadIsMissed | src/core.cpp:192-206 | INITIALIZE, TRAIN, ADD, LOAD, ADD, SEARCH with any centroids of any number: a hit that is not the best k of the registered collection |
| Commands.ProcessCommand | src/cache.cpp:15-62 | the fall-through switch gives what that table says for every status and every line |
| Commands.WordsDiffer | src/cache.cpp:19-56 | the six command words are different |
| Commands.WordsSpelled | src/cache.cpp:21-53 | the bytes of each command word |
| Commands.AcceptanceTable | src/cache.cpp:19-61 | READY takes each of the six words, INITIALIZED exactly TRAIN and INITIALIZE, UNINITIALIZED only INITIALIZE; any other line is refused |
| Server.OnCoreKeepsSound | src/cache.cpp:65-90 | no handler breaks the core's invariant; with new ids none fails an assert |
| Server.StepKeepsSound | src/cache.cpp:15-132 | acceptance and execution in any session keep the server's invariant |
| Server.ExecutionOutcomes | src/cache.cpp:65-190 | command by command, what execution makes of status, core and process: a refused LOAD keeps both status and process, an ADD fails exactly on an id of 100 bytes or more |
| Server.RetrainIsAccepted | src/cache.cpp:44-50 | a READY server takes TRAIN from any session with nothing pending, and its execution leaves the whole server as it was |
| Server.RunKeepsSound | src/driver.cpp:37-43 | every run of every session keeps it |
| Server.ReachableServersAreSound | src/core.cpp:80-206 | in every reachable state the core is coherent and trained exactly when READY; no command ran on a missing core; with new ids no assert failed |
| Server.ReachableCellsHoldSnapshots | src/core.cpp:93-112 | the snapshot-prefix law in every reachable state of every faithful regime, ids added again included |
| Server.ReachableCellsStayWithinSnapshots | src/core.cpp:93-112 | containment in the snapshot in every reachable state of every regime |
| Server.ReachableHitsAnswerLikeFullIndex | README.md:15 | in every reachable state of every regime a require_all hit of a call's first query (any query for d = 1) is the full index's answer |
| Server.ReachableHitsAnswerSnapshots | README.md:103 | in every reachable state of a faithful regime a hit, with or without require_all, is the best k of the snapshots of the resident probed cells |
| Server.ReachableHitsReturnRecords | src/core.cpp:117-157 | in every reachable state of every regime a SEARCH changes nothing and a hit returns the record under each label, the k best stored in reach, none twice; in a faithful regime those are the database's records of the ids with those numbers |
| Server.ReachableHitsAnswerCollectionIff | README.md:15 | in every reachable state of every faithful regime a search is the best k of the registered collection, for every k, exactly when the probed cells hold every id registered in them; with new ids the counters of a hit tell |
| Server.ReachableLoadsAbortIff | src/core.cpp:52-65 | in every reachable state of a faithful regime an answered LOAD ends the process exactly when an absent cell it asks for has an id registered twice |
| Server.UntrainedIffInitialized | src/cache.cpp:65-90 | a command with anything to do finds an untrained core exactly when the status is INITIALIZED, and then an INITIALIZE ran since its acceptance |
| Server.InitsCounted | src/cache.cpp:99-117 | the count of INITIALIZEs rises only by executing one |
| Server.PendingStays | src/session.cpp:35-82 | other sessions never touch an accepted command |
| Server.UntrainedOnlyAfterAnothersInitialize | src/cache.cpp:15-132 | a SEARCH, ADD, LOAD or EVICT finds an untrained core only if another session executed INITIALIZE after its acceptance |
| Server.AnothersInitializeBreaksSearch | src/cache.cpp:15-132 | and that does happen to every pending SEARCH of one or more queries |
| Server.StepContinues | src/cache.cpp:99-132 | short of INITIALIZE the status does not fall, routing and numbers stay |
| Server.BetweenInitializes | src/cache.cpp:99-132 | the same over every run without INITIALIZE |
| Server.RunKeepsCells | src/core.cpp:67-77 | resident cells stay resident over every run that neither evicts them nor initializes |
| Server.RunKeepsAbsence | src/core.cpp:52-65 | an absent cell stays absent over every run that neither loads it nor initializes |
| Server.LoadGuaranteesHits | README.md:102 | after a completed LOAD every later search of that vector with nprobe up to nload hits, until eviction or INITIALIZE |
| Server.EvictGuaranteesMisses | README.md:104 | after an EVICT every search of that vector misses until its nearest cell is loaded again |
| CacheClass.Cache.constructor | src/cache.cpp:12 | starts UNINITIALIZED without a core |
| CacheClass.Cache.ProcessCommand | src/cache.cpp:15-62 | the switch on the cache's own status |
| CacheClass.Cache.ProcessArgs | src/cache.cpp:65-91 | running a complete command is exactly the server's step for it |
| CacheClass.Cache.Initialize | src/cache.cpp:99-117 | a fresh blank core and status INITIALIZED |
| CacheClass.Cache.Train | src/cache.cpp:119-132 | trains the core and becomes READY |
| CacheClass.Cache.Load | src/cache.cpp:134-144 | a database failure is caught: cache up, status kept, partial load kept |
| CacheClass.Cache.Evict | src/cache.cpp:173-180 | evicts and keeps the status |
| CacheClass.Cache.Add | src/cache.cpp:182-190 | adds and keeps the status |
| CacheClass.Cache.Search | src/cache.cpp:146-171 | what is sent encodes hit counts and slots that report exactly the core's answers, query by query |
| CacheClass.Cache.SearchCore | src/cache.cpp:147-152 | the two arrays after the core's search form such a reply |
| CacheClass.RepliesFit | src/cache.cpp:148-156 | every reported record is in its query's own slots, counts fit an int and never exceed k |
| CacheClass.AnswersSpelled | src/cache.cpp:147-156 | the answer reported for query i is what the core finds for floats i * d to i * d + d and i to i + d |
| CacheClass.ReplyDeliversQueries | src/cache.cpp:146-171 | end to end: reading the reply gives each query exactly the core's answer, nothing for a miss, nothing left over |
| Args.StaticSizesAgreeExceptAdd | src/args.h:94-168 | reading the static part succeeds exactly with the bytes it needs; that is the declared size for every command but ADD, 17 against 9 |
| Args.StaticRoundTrip | src/args.cpp:6-78 | decoding the static part of any command gives its fields and stops at the dynamic part |
| Args.IdsRoundTrip | src/args.cpp:80-90 | length-prefixed ids of any lengths come back; totalSize is exactly their bytes |
| Args.FloatsRoundTrip | src/args.cpp:27-72 | any floats come back behind any size that counts their bytes |
| Args.AddRoundTrip | src/args.cpp:80-98 | decoding the client's ADD gives the same ids and floats; num_floats is exact and does not wrap |
| Args.DynamicRoundTrip | src/args.cpp:16-98 | for all six commands decoding gives the arguments and consumes exactly the declared size and the delimiter |
| Args.BodyRoundTrip | src/args.cpp:6-98 | what follows a command line decodes, static and dynamic part together, to the arguments sent |
| Layout.Digits | clients/python/periplus_client/client.py:72 | byte j of a number is its j-th digit to base 256 |
| Layout.FloatAt | src/args.h:43-58 | float i takes bytes 4 * i to 4 * i + 4 |
| Layout.InitializeLayout | clients/python/periplus_client/client.py:72-75 | the offsets of d, max_mem, n_records, use_flat, the url's length and the url |
| Layout.SearchLayout | clients/python/periplus_client/client.py:387-390 | the offsets of n, k, n_probe, require_all, the size and the floats |
| Layout.TrainLayout | clients/python/periplus_client/client.py:117-121 | the offsets of the size and the floats |
| Layout.LoadLayout | clients/python/periplus_client/client.py:256-260 | the offsets of n_load, the size and the floats |
| Layout.EvictLayout | clients/python/periplus_client/client.py:430-433 | the offsets of n_evict, the size and the floats |
| Layout.AddLayout | clients/python/periplus_client/client.py:181-212 | the offsets of the number of ids, the size, the ids and the floats |
| Layout.IdAt | clients/python/periplus_client/client.py:188-196 | id i stands behind its length, after all earlier ids with theirs |
| Readers.InStream.ReadBool | src/args.h:60-70 | one byte, any non-zero value true |
| Readers.InStream.ReadChars | src/args.h:43-58 | exactly the requested characters in order, or failure exactly when there are fewer |
| Readers.InStream.ReadFloats | src/args.h:43-58 | the same for floats |
| Readers.InStream.ReadIds | src/args.cpp:80-90 | the id loop with its running totalSize is the parser's recursion |
| Readers.InStream.DeserializeStatic | src/args.cpp:6-78 | fields and stream position as the parser says, failure exactly when it fails |
| Readers.InStream.DeserializeFourFields | src/args.cpp:6-53 | the same for INITIALIZE and SEARCH |
| Readers.InStream.DeserializeDynamic | src/args.cpp:16-98 | arguments and stream position as the parser says, failure exactly when it fails |
| Readers.InStream.DeserializeAdd | src/args.cpp:80-98 | the same for ADD, wrap-around of the float count included |
| Framing.LineOf | src/session.cpp:18-26 | a line end is found exactly when the buffer reaches past the command line, and the line is the command, whatever bytes follow |
| Framing.CommandFires | src/session.cpp:16-32 | reading a command line consumes exactly that line |
| Framing.StaticFires | src/session.cpp:35-60 | with the needed bytes buffered the static part is decoded and exactly consumed |
| Framing.DynamicFires | src/session.cpp:62-82 | the handler decodes the command and stops at the next frame |
| Framing.SettledIff | src/session.cpp:16-82 | a waiting session has lost its way exactly when the bytes so far end inside an ADD header |
| Framing.SettleFollows | src/session.cpp:16-82 | running all handlers keeps the session at its place in the stream unless the arrival ends there |
| Framing.DoomedStays | src/session.cpp:48-58 | such a session never recovers: 9 bytes are awaited, 17 read |
| Framing.DeliverFollows | src/session.cpp:16-82 | the same over any sequence of arrivals |
| Framing.DecodesUnlessCutInAddHeader | src/session.cpp:16-82 | for any commands and any cutting of their bytes exactly those commands are decoded with nothing left, if and only if each is allowed when its line is read and no arrival ends in an ADD header |
| Framing.DecodesWithoutAdd | src/session.cpp:16-82 | the other five commands survive every fragmentation, also with CRLF in payloads |
| Framing.DeliverAdmits | src/cache.cpp:15-62 | nothing is ever decoded that was not allowed when its command line was read |
| Framing.ArrivingAtOnceDecodes | src/session.cpp:16-82 | any commands, ADD included, are decoded when all their bytes are buffered |
| Framing.CutAddIsLost | src/args.h:158 | an ADD cut after 9 to 16 bytes of its header ends the process |
| SessionClass.Session.constructor | src/session.cpp:10-14 | a new session waits for a command with an empty buffer |
| SessionClass.Session.OnLine | src/session.cpp:19-31 | the handler of a line asks the cache and goes on to where the session must end up |
| SessionClass.Session.ReadArgs | src/session.cpp:35-60 | goes on at once when the declared size is buffered, else waits for it |
| SessionClass.Session.OnStatic | src/session.cpp:40-55 | the handler of the static part |
| SessionClass.Session.ReadDynamicArgs | src/session.cpp:62-82 | goes on at once when size + 2 bytes are buffered, else waits for them |
| SessionClass.Session.OnDynamic | src/session.cpp:65-76 | the handler of the dynamic part |
| SessionClass.Session.OnRead | src/session.cpp:16-82 | any arrival leaves the session exactly where the framing function says |
| Sessions.ExecutionsWereAllowed | src/cache.cpp:15-91 | in every run each execution of a session answers to one of its command lines, in order, and was allowed by the status there |
| Sessions.SessionsDecodeWhatTheyExecute | src/session.cpp:16-82 | the bytes of the commands a session executes in a run of the server decode to exactly those, under that run's statuses, if and only if no arrival ends in an ADD header |
| World.ProcessRunsServer | src/driver.cpp:37-43 | every run of the process, arrivals and handlers of all connections interleaved, contains a legal run of the server that takes the cache to the same state |
| World.NextLinked | src/session.cpp:16-82 | a session waits for arguments exactly of the command the cache has accepted from it, in every step |
| World.DecodedIsExecuted | src/cache.cpp:65-91 | each session executes exactly the commands it decodes, in order |
| World.AliveMeansFollowing | src/session.cpp:16-82 | while the process is alive every session is at its place in what its client sends, wherever the bytes are cut |
| World.SentIsExecuted | src/session.cpp:16-82 | end to end: once all bytes of a sequence of commands have arrived and the session waits with the process alive, exactly those commands were decoded and executed, in order, each with the fields sent |
| Reply.RecordRoundTrip | src/data.cpp:68-95 | a serialized record reads back with any fields, and stops at its end |
| Reply.ReplyRoundTrip | src/cache.cpp:154-170 | for any counts and slots each query reads back exactly the first cacheHits[i] records of its own slots, none for a negative count, no byte left |
| Layout.CountBytes | src/cache.cpp:155 | the bytes of a miss's -1 and of small counts |
| Layout.RecordLayout | src/data.cpp:68-95 | the offsets of id, embedding, document and metadata and of their lengths |
| Layout.RecordsInOrder | src/cache.cpp:156-168 | records follow one another in order |
| Layout.AnswersInOrder | src/cache.cpp:154-170 | answers follow one another in the order of the queries, each its count and then its records |
| Layout.ReportedAt | src/cache.cpp:154-168 | what is read for query i is slots i * k to i * k + cacheHits[i], nothing for a negative count |
| Reply.CopyInto | src/data.cpp:73-95 | memcpy at an index: prefix, copy and suffix |
| Reply.Serialize | src/data.cpp:68-95 | the array filled at an advancing index is exactly the record's encoding |
| Reply.Output.SyncWrite | src/session.cpp:125-135 | sends the first bytes of the buffer, never beyond its 1024 |
| Reply.Output.SendChunks | src/cache.cpp:157-167 | chunks concatenate to the bytes, all but the last are 1024 long, the last is the rest; the guard's difference never wraps |
| Reply.Output.SendAnswers | src/cache.cpp:154-170 | both loops together send exactly the reply's encoding |
| Reply.Output.SendAnswer | src/cache.cpp:155-168 | one query's count and records |
| Client.Connection.Receive | clients/python/periplus_client/connection.py:58-62 | up to the bytes asked for, stopping early only where an arriving piece or the stream ends |
| Client.Periplus.ReceiveField | clients/python/periplus_client/client.py:306-307 | one receive and one unpack: the field exactly when it is there and no piece ends inside it |
| Client.Periplus.ReadString | clients/python/periplus_client/client.py:275-285 | for any fragmentation exactly the requested bytes in order; an error exactly when the stream ends early |
| Client.Periplus.ReadFloats | clients/python/periplus_client/client.py:287-299 | the same for floats |
| Client.Periplus.DeserializeRecord | clients/python/periplus_client/client.py:302-326 | four fields in order, exactly when they are there and no piece ends inside a length |
| Client.Periplus.DeserializeRecords | clients/python/periplus_client/client.py:335-337 | as many records as counted |
| Client.Periplus.DeserializeAnswer | clients/python/periplus_client/client.py:332-337 | a signed count and its records; a negative count brings none |
| Client.Periplus.DeserializeQueryResults | clients/python/periplus_client/client.py:329-339 | a result is what was sent; it comes exactly when all bytes are there and no piece ends inside a length or a count |
| Client.Periplus.ReadReply | clients/python/periplus_client/client.py:329-339 | read against the server's reply: each query's own records with nothing left over, exactly when no piece ends inside a length or a count |
| Client.CutsMatter | clients/python/periplus_client/client.py:332-333 | a piece that ends inside the first count breaks any reading, a single piece breaks none |
| Client.FormatIsFrame | clients/python/periplus_client/client.py:12-13 | the client's message format is the frame the server parses, for every command |
| Client.Periplus.Initialize | clients/python/periplus_client/client.py:56-77 | sends exactly the INITIALIZE frame, or raises exactly when a number does not fit |
| Client.Periplus.Train | clients/python/periplus_client/client.py:111-123 | sends exactly the TRAIN frame, or raises exactly on an empty or uneven list or an unfit size |
| Client.Periplus.Load | clients/python/periplus_client/client.py:247-262 | sends exactly the LOAD frame, or raises |
| Client.Periplus.Evict | clients/python/periplus_client/client.py:421-435 | sends exactly the EVICT frame, or raises |
| Client.Periplus.Search | clients/python/periplus_client/client.py:370-392 | sends exactly the SEARCH frame, or raises; with vectors of one length the server decodes the caller's k, n_probe and require_all, and as its row i the caller's i-th vector |
| Client.Periplus.Add | clients/python/periplus_client/client.py:156-212 | raises exactly on unequal or empty lists or unfit sizes; what it sends is the ADD frame exactly when the vectors add up to the declared size; with vectors of one length the server decodes id i together with vector i |
| Client.FlatAt | clients/python/periplus_client/client.py:384 | vectors of one length d, flattened, are found at multiples of d, in order |
| Client.SearchDelivers | clients/python/periplus_client/client.py:384-392 | the SEARCH frame decodes to the caller's numbers and vectors |
| Client.FrameOfAdd | clients/python/periplus_client/client.py:181-212 | the ADD frame decodes to the caller's ids and, place by place, the caller's vectors |
| Client.Periplus.SizeOfIds | clients/python/periplus_client/client.py:163-166 | the loop adds up the ids' lengths |
| Client.AddMessages | clients/python/periplus_client/client.py:161-212 | the messages joined are the ADD frame if and only if the declared size is right |

## Left out

- FAISS internals: k-means, product quantization codebooks, heap order among equal scores (ties by number are assumed).
- `DBClient`: HTTP and JSON handling; a reply with more records than ids, or with missing ones, is outside what is owed to a LOAD.
- Sockets, asio completion details, reconnecting, logging, argument parsing of the driver; `Session::read_static_args` has no caller.
- Sessions.SessionsDecodeWhatTheyExecute: relates a session's bytes to a run by order and status; in `World.SentIsExecuted` the arrivals themselves are events.
- `Session.async_write` and the text replies, error texts and the client's comparison with them.
- Ownership and lifetime of C++ objects, and reuse of `output_buf` while an asynchronous write is pending.
- Floating-point arithmetic: distances and scores are integers, floats on the wire are 4-byte words, and `residence_statuses` holds integers, so the rounding of counts above 2^24 is not modelled.
- Integer widths other than those on the wire and in the size computations; `next_id` is unbounded.
- `determineNCells`: the number of cells is a parameter of INITIALIZE.
- After an abort the state of the core is not described: the process is gone.
- CacheClass.Cache.Search: the handler's arrays on the stack are heap arrays here, so an exhausted stack is not modelled.
- Client.Periplus.Add: the ids are taken as byte strings, so `str(id)` and a failing latin1 encoding are not modelled.
- Options and their defaults, UTF-8 and latin1 decoding, the proxy package, examples and benchmarks.
