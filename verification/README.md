# Open-Falcon in Dafny

A model of the parts of Open-Falcon whose behaviour is decided by non-trivial code, with proofs of
what those parts guarantee. One module per component:

| module | component |
|---|---|
| `GraphQuery`, `TimeGrid` | the graph server's `Query`: cached samples laid over points read from disk, on a dense time grid |
| `GraphStore` | the graph server's memory cache: sharded map of newest-first lists with flags, and the ordering guard for incoming items |
| `Migration` | one cache key under data migration: flush passes, queued pulls, sends that fail and restore, the exclusive create of a pulled file |
| `JudgeHistory` | the judge's bounded history per series and the windows cut from it |
| `JudgeFunctions`, `Statistics` | the window functions, and mean and standard deviation |
| `JudgeEvents`, `SteadyAlarms` | the PROBLEM/OK state machine, its runs, and how many alarms steady trouble sends |
| `ExpressionIndex` | the tag index over alarm expressions |
| `Templates`, `Inheritance` | template ancestor chains, their pruning, and strategy override |
| `Aggregator` | the aggregator's expression language: accept, parse, compute |
| `Tags` | the canonical tag string and its two parsers |
| `Nodata` | the no-data mock generator |
| `Sequences`, `Options` | reversal of sequences; optional values |

## How the source is modelled

- Floats are exact reals; NaN in a query response is an explicit `Missing`. The square root is a
  parameter that inverts squaring. Integers are unbounded.
- The remainder of Go truncates toward zero and is written out (`TimeGrid.GoMod`).
- Iterating over a Go map is an arbitrary choice at every step, so what is proved holds for every
  iteration order.
- Cached timestamps are step-aligned, as the transfer sends them
  (`modules/transfer/sender/sender.go:321`).
- Locked methods are atomic. The migration protocol, with migration enabled, is a state machine
  whose steps interleave freely; serving the file to a peer is the same step as a forced flush, and
  the pair "clear the flag, then commit" after a pull that found no remote file is one step. A peer
  that answers "no such file" is modelled as the source means it; an error that comes over RPC is a
  plain string there, so only the local write can take that branch. The extra step enlarges the set
  of runs, and no run given below as an example uses it.
- A remote call is a parameter that says whether it was acknowledged; the clock is a parameter. Items
  that arrive while a call is under way are a parameter of the sending method.
- Hash functions are parameters without any assumption.
- The rules that concern a series have distinct event ids, as `modules/judge/store/judge.go` builds
  them from the kind and id of the rule and the series.

## What the code does not do

Where a property one would expect does not hold for all inputs, the code is modelled as it is, a
lemma gives an input (or all inputs) for which it fails, and another says exactly when it holds.

- A host in two groups bound to the same template gets that template id twice
  (`modules/hbs/db/template.go:78-105` does not remove duplicates). Pruning then may keep a chain
  that another chain subsumes, and the parent's strategy is returned next to the child's that should
  override it. Pruning keeps exactly the maximal chains iff no doubly bound template with a bound
  descendant is listed before all of those descendants (`Templates.KeepsMaximalIff`), and override
  works for every set of strategies iff the same holds (`Inheritance.OverrideWorksIff`). Inputs that
  fail: `Templates.DuplicateBindingKeepsSubsumedChain`, `Inheritance.DuplicateBindingDefeatsOverride`.
- `stddev(#n)` with factor r can trigger on some history iff n >= 2 and (r < 0 or r*r < n-1). The
  documented example `stddev(#10) = 3` lies on the bound and can never trigger
  (`JudgeFunctions.StdDevPossibleIff`, `JudgeFunctions.StdDevNeverTriggers`).
- The exclusive create of a pulled file can collide. In every reachable state in which a pull can
  begin, some course of events makes it collide iff the key is not flagged missing at that moment
  (`Migration.PullCanCollideIff`); of two pulls queued for one missing key the second can
  (`Migration.SecondPullCollides`).
- A key flagged missing can have a file: a forced flush writes one
  (`Migration.ForcedFlushOfMissingKey`). It never does along a run iff no forced flush writes a file
  for a missing key (`Migration.MissingHasNoFileIff`).
- The ordering guard of incoming items looks at the cached list only, which is empty while a send is
  in flight (`Migration.ArrivalDuringSendUnordered`); memory stays ordered iff accepted items are also
  newer than those in flight (`Migration.MemoryOrderedIff`).
- The judge can apply an expression of another metric. It can for a given pair of metric names iff
  one name continues the other at a '/' (`ExpressionIndex.ForeignSelectedIff`,
  `ExpressionIndex.SlashInMetricSelectsForeignExpression`).
- A counter name with a '$' is accepted by the aggregator and read as something else; parsing
  recovers the parts of an expression iff its names have no '$' (`Aggregator.ParseInvertsPrintIff`,
  `Aggregator.DollarInNameIsMisread`).
- Each of the two tag parsers recovers a map from its canonical string iff keys have no '=', ',' or
  space and values no ',' or space (`Tags.RoundTripIffClean`, `Tags.StrictRoundTripIffClean`,
  `Tags.CommaInValueIsMisread`).

## Model

| member | source | states |
|---|---|---|
| `GraphQuery.Query` | modules/graph/api/graph.go:142-314 | an unknown counter or an empty window answers nothing; a consolidated window or an empty cache answers the disk points; otherwise point i is at start + i*step and carries the cached value there, else the disk value, else missing, for every overlap, gap and empty source |
| `GraphQuery.MergeWindow` | modules/graph/api/graph.go:201-308 | the merging block equals the pointwise overlay of cache over disk on the whole grid of the window |
| `GraphQuery.QueryTimes` | modules/graph/api/graph.go:142-314 | for times from zero on, a query that merges answers exactly the grid times after start minus a step and up to end, for a gauge one more; it merges when something is cached, a grid time lies in (start, end] and none in (start + 720 steps, now] |
| `GraphQuery.QueryOtherwise` | modules/graph/api/graph.go:142-200 | an unknown counter or a window without a grid time answers nothing; without cached items or reaching further back than 720 steps the disk points are the answer |
| `GraphQuery.GaugeSampleAnswered` | modules/graph/api/graph.go:229-308 | every gauge sample cached within the window is in the answer, the newest included |
| `GraphQuery.CounterRateAnswered` | modules/graph/api/graph.go:207-308 | every pair of counter samples a step apart and not falling is in the answer as a rate that times the step is their difference |
| `GraphQuery.DiskPointAnswered` | modules/graph/api/graph.go:247-308 | every disk point of the window of which the cache says nothing is in the answer |
| `GraphQuery.NothingElseAnswered` | modules/graph/api/graph.go:290-308 | any other point of the answer is missing |
| `GraphQuery.FormatGauge` | modules/graph/api/graph.go:229-244 | the formatted cache is the stretch of grid points in the window carrying the gauge samples, missing where there is none |
| `GraphQuery.FormatCounter` | modules/graph/api/graph.go:207-228 | a counter's grid point carries the rate to the next sample exactly when that is one step later and not smaller, else missing |
| `GraphQuery.FormatCache` | modules/graph/api/graph.go:203-245 | other data source types contribute nothing |
| `GraphQuery.CachedRateNonNegative` | modules/graph/api/graph.go:213-217 | no negative rate is ever produced from the cache |
| `GraphQuery.FilterWindow` | modules/graph/api/graph.go:247-255 | the kept disk points are exactly those of the window, and begin at its start |
| `GraphQuery.FindJunction` | modules/graph/api/graph.go:258-268 | the last disk point before the cache begins, or -1 when there is none |
| `GraphQuery.FillGap` | modules/graph/api/graph.go:270-273 | the missing points fill exactly the stretch between the junction and the cache |
| `GraphQuery.LayCached` | modules/graph/api/graph.go:275-286 | cached points overwrite or extend; a missing cached point does not hide a disk point |
| `GraphQuery.MergeCached` | modules/graph/api/graph.go:257-288 | two grids that represent cache and disk merge into one that represents the overlay |
| `GraphQuery.MergeRepresents` | modules/graph/api/graph.go:257-288 | the same on sequences: nothing outside the merged stretch has a value |
| `GraphQuery.Regrid` | modules/graph/api/graph.go:290-307 | the result has a point for every grid time, carrying the represented value |
| `GraphQuery.RetSizeExact` | modules/graph/api/graph.go:290-294 | the points reach exactly to the end of the window, for a gauge one further |
| `TimeGrid.AlignDown` | modules/graph/api/graph.go:149-150 | the result is a multiple of the step less than one step away, also for negative times |
| `GraphStore.SafeLinkedList.PushFront` | modules/graph/store/linkedlist.go:35-39 | puts the item in front |
| `GraphStore.SafeLinkedList.PopAll` | modules/graph/store/linkedlist.go:72-93 | empties the list and returns it oldest first |
| `GraphStore.SafeLinkedList.PushAll` | modules/graph/store/linkedlist.go:95-106 | appends the popped items behind what arrived since |
| `GraphStore.SafeLinkedList.FetchAll` | modules/graph/store/linkedlist.go:108-122 | returns the list oldest first and its flag, changing nothing |
| `GraphStore.FailedSendInvisible` | modules/graph/store/linkedlist.go:75-106 | pop, any pushes, and push back leave the list as if nothing had been popped |
| `GraphStore.RestoredOrderedIff` | modules/graph/store/linkedlist.go:95-106 | the restored list is ordered iff both parts are and the arrivals are newer than what was popped |
| `GraphStore.FetchedIncreasing` | modules/graph/store/linkedlist.go:108-122 | a fetched list is strictly increasing iff the list is strictly newest-first |
| `GraphStore.AdmitsIffOrdered` | modules/graph/api/graph.go:112-117 | the guard lets in exactly the items that keep an ordered list ordered |
| `GraphStore.GraphItemMap.constructor` | modules/graph/store/store.go:236-249 | a new cache is empty |
| `GraphStore.GraphItemMap.Get` | modules/graph/store/store.go:37-43 | looking in the key's shard is looking in the whole map |
| `GraphStore.GraphItemMap.Set` | modules/graph/store/store.go:67-72 | updates one key of the whole map; a list not held before leaves every list under one key |
| `GraphStore.GraphItemMap.Remove` | modules/graph/store/store.go:45-57 | removes one key of the whole map and says whether it was there |
| `GraphStore.GraphItemMap.First` | modules/graph/store/store.go:84-99 | the newest item of the key, if any |
| `GraphStore.GraphItemMap.PopAll` | modules/graph/store/store.go:136-145 | empties the key's list and no other; nothing for an unknown key |
| `GraphStore.GraphItemMap.PushAll` | modules/graph/store/store.go:101-111 | restores the key's list and no other; an error for an unknown key |
| `GraphStore.GraphItemMap.GetFlag` | modules/graph/store/store.go:113-122 | the key's flag, or an error |
| `GraphStore.GraphItemMap.SetFlag` | modules/graph/store/store.go:124-134 | sets the key's flag and nothing else; an error for an unknown key |
| `GraphStore.GraphItemMap.PushFront` | modules/graph/store/store.go:173-188 | pushes onto the key's list; a new list is flagged missing iff migration is on and there is no file |
| `GraphStore.GraphItemMap.HandleItem` | modules/graph/api/graph.go:112-117 | accepts an item iff it is newer than the newest cached one, keeps an ordered list ordered and the flag as it is, and touches no other key |
| `GraphStore.GraphItemMap.SendData` | modules/graph/rrdtool/migrate.go:257-299 | succeeds iff there is nothing to send or one of three attempts is acknowledged; a failed send leaves the list as if nothing had been popped, with the items that arrived meanwhile in front; the sending flag is always cleared |
| `GraphStore.ServeQuery` | modules/graph/api/graph.go:159-161 | a query over a list kept ordered by the guard meets what merging needs and answers the overlay |
| `Migration.InvStep` | modules/graph/rrdtool/rrdtool.go:290-312 | a step keeps the invariant iff it is not a flush that writes a file for a missing key |
| `Migration.MissingHasNoFileIff` | modules/graph/rrdtool/migrate.go:176-203 | along a whole run, begun with or without a file, a key flagged missing has no local file, except between a successful pull and the storing of its flag, iff no forced flush writes a file for a missing key |
| `Migration.ForcedFlushOfMissingKey` | modules/graph/rrdtool/rrdtool.go:290-312 | a run in which a forced flush leaves a missing key next to its file |
| `Migration.PulledFileCannotCollide` | modules/graph/rrdtool/migrate.go:301-354 | a pull that began on a missing key finds no file, creates it, and clears the flag |
| `Migration.PullCanCollideIff` | modules/graph/rrdtool/migrate.go:301-354 | in every reachable state in which a pull can begin, some course of events before the pull ends makes its exclusive create find a file iff the key is not flagged missing |
| `Migration.SecondPullCollides` | modules/graph/rrdtool/rrdtool.go:261-288 | with two pulls queued for one key there is a run in which the second finds the file |
| `Migration.Conservation` | modules/graph/rrdtool/migrate.go:257-299 | in every run each accepted item is in exactly one of cache, flight, flushed, acknowledged, dropped |
| `Migration.FailedSendsLoseNothing` | modules/graph/rrdtool/migrate.go:280-298 | without discards and failed flushes nothing is dropped, however many sends and fetches fail |
| `Migration.Ledger` | modules/graph/rrdtool/migrate.go:160-299 | in every run the flushed items are those the well-ended flushes found cached, the delivered ones those in flight at the acknowledged sends, the dropped ones those the lossy steps lost |
| `Migration.NothingDeliveredUnacknowledged` | modules/graph/rrdtool/migrate.go:280-298 | without an acknowledged send nothing counts as delivered |
| `Migration.SendOutcomes` | modules/graph/rrdtool/migrate.go:280-298 | a failed send of a cached key leaves memory as it was, an acknowledged one exactly what is cached |
| `Migration.PullOutcomes` | modules/graph/rrdtool/migrate.go:176-203 | a pull of a file the peer does not have stores the cached items locally and ends the key's being missing; one that fails otherwise changes neither items, file nor flag |
| `Migration.FailedWriteKeepsMissing` | modules/graph/rrdtool/migrate.go:337-354 | a pulled file that could not be written leaves the items and the flag |
| `Migration.MissingKeyIsPulled` | modules/graph/rrdtool/rrdtool.go:290-312 | an unforced pass queues a pull for a missing key with items and flushes nothing |
| `Migration.DiscardOutcomes` | modules/graph/index/index.go:63-78 | deleting an item empties its list and removes its file; removing a key keeps the file |
| `Migration.BusyFlagsMeanWork` | modules/graph/rrdtool/migrate.go:257-354 | in every run a key is flagged as sending or fetching only while its worker does so |
| `Migration.WorkShowsInFlag` | modules/graph/rrdtool/migrate.go:257-320 | a worker that begins to send or fetch sets the flag, and sends exactly the cached items |
| `Migration.MemoryOrderedIff` | modules/graph/api/graph.go:112-117 | cached and in-flight items stay strictly ordered along a run iff every accepted item is newer than both |
| `Migration.ArrivalDuringSendUnordered` | modules/graph/api/graph.go:112-117 | a run in which an older item is accepted while a newer one is being sent |
| `JudgeHistory.SafeLinkedList.constructor` | modules/judge/store/history.go:96-98 | a new list holds the first sample |
| `JudgeHistory.SafeLinkedList.PushFrontAndMaintain` | modules/judge/store/linkedlist.go:115-141 | drops repeated, late and non-positive timestamps, else pushes and trims to the newest |
| `JudgeHistory.SafeLinkedList.HistoryData` | modules/judge/store/linkedlist.go:43-107 | the newest values of a gauge or rates of a counter, and whether there are enough; no division by zero |
| `JudgeHistory.JudgeItemMap.PushFrontAndMaintain` | modules/judge/store/history.go:89-102 | changes one series only and says whether it must be judged |
| `JudgeHistory.JudgeItemMap.CleanStale` | modules/judge/store/history.go:70-87 | removes exactly the series whose newest sample is older than the bound |
| `JudgeHistory.HistoryIsNewestAccepted` | modules/judge/store/linkedlist.go:115-141 | after any run of pushes the list is the newest `remain` accepted samples, newest first |
| `JudgeHistory.AcceptedIncreasing` | modules/judge/store/linkedlist.go:120-126 | the accepted samples of any run are strictly increasing in time |
| `JudgeHistory.HistoryDescending` | modules/judge/store/linkedlist.go:115-141 | the list of any run is strictly decreasing in time |
| `JudgeHistory.WindowTelescopes` | modules/judge/store/linkedlist.go:83-104 | in a counter window the rates times the gaps add up to newest minus oldest raw value |
| `JudgeFunctions.MaxOf` | modules/judge/store/func.go:43-48 | the maximum of the window |
| `JudgeFunctions.MinOf` | modules/judge/store/func.go:68-73 | the minimum of the window |
| `JudgeFunctions.CheckAll` | modules/judge/store/func.go:93-99 | every point passes the test |
| `JudgeFunctions.CheckLookup` | modules/judge/store/func.go:121-129 | at least `num` points pass the test, `num` being at least one |
| `JudgeFunctions.CheckDiff` | modules/judge/store/func.go:201-211 | some older point differs from the newest by a value that passes, and that value is reported |
| `JudgeFunctions.CheckPDiff` | modules/judge/store/func.go:270-293 | some non-zero older point differs from the newest by a percentage that passes, and that percentage is reported |
| `JudgeFunctions.SumOf` | modules/judge/store/func.go:147-150 | the sum of the window |
| `JudgeFunctions.CheckKDiff` | modules/judge/store/func.go:365-382 | no point of the zero guard is zero and every old/new pair passes |
| `JudgeFunctions.CheckStdDeviation` | modules/judge/store/func.go:239-258 | the newest point lies outside mean plus or minus the factor times the standard deviation |
| `JudgeFunctions.Compute` | modules/judge/store/func.go:26-53 | asks for the right window, and when it is complete triggers exactly as the function means and reports the value that decided |
| `JudgeFunctions.OrderTests` | modules/judge/store/func.go:444-452 | the order tests split all pairs of values, mirror each other, are monotone, and differ exactly at equal values |
| `JudgeFunctions.EqualityTests` | modules/judge/store/func.go:438-443 | "=" and "==" agree, hold at equal values and exclude "!="; both fail exactly at distance 0.0001 |
| `JudgeFunctions.UnknownOperatorNeverTriggers` | modules/judge/store/func.go:438-455 | any other operator never triggers |
| `JudgeFunctions.ComplementaryAnswers` | modules/judge/store/func.go:37-178 | max, min, sum and avg answer complementary tests complementarily |
| `JudgeFunctions.PointsNeeded` | modules/judge/store/func.go:37-400 | how many points of a gauge each function needs |
| `JudgeFunctions.DiffLooksBack` | modules/judge/store/func.go:187-214 | diff(#n) triggers iff the newest point minus one of the n before it passes |
| `JudgeFunctions.PDiffLooksBack` | modules/judge/store/func.go:269-296 | pdiff(#n) triggers iff such a difference, in percent of a non-zero older point, passes |
| `JudgeFunctions.KDiffCompares` | modules/judge/store/func.go:354-384 | kdiff(#s,c) triggers iff none of the s newest points is zero and each of the c newest minus each of the s before them passes |
| `JudgeFunctions.AllIffLookupAll` | modules/judge/store/func.go:87-132 | all(#n) and lookup(#n,n) decide alike |
| `JudgeFunctions.LookupCounts` | modules/judge/store/func.go:112-132 | lookup(#k,n) triggers iff some k of the points pass |
| `JudgeFunctions.AllIffMinAbove` | modules/judge/store/func.go:62-103 | above a threshold all(#n) and min(#n) decide alike |
| `JudgeFunctions.AllIffMaxBelow` | modules/judge/store/func.go:37-103 | below a threshold all(#n) and max(#n) decide alike |
| `JudgeFunctions.SomeIffMaxAbove` | modules/judge/store/func.go:37-132 | above a threshold max(#n) and lookup(#1,n) decide alike |
| `JudgeFunctions.AverageBetween` | modules/judge/store/func.go:37-178 | the average of a window lies between its minimum and its maximum |
| `JudgeFunctions.AllThenAverageThenMax` | modules/judge/store/func.go:37-178 | above a threshold all(#n) implies avg(#n), and avg(#n) implies max(#n) |
| `JudgeFunctions.SumIsScaledAverage` | modules/judge/store/func.go:141-178 | sum(#n) against n times a threshold and avg(#n) against the threshold decide alike |
| `JudgeFunctions.StdDevNeverTriggers` | modules/judge/store/func.go:223-259 | with r >= 0 and r*r >= n-1 a stddev(#n) rule triggers on no history |
| `JudgeFunctions.StdDevPossibleIff` | modules/judge/store/func.go:223-259 | for every n and r a stddev(#n) rule triggers on some history iff n >= 2 and (r < 0 or r*r < n-1) |
| `JudgeFunctions.StdDevReachableIff` | modules/judge/store/func.go:223-259 | exactly then it triggers on the list left by some run of pushes |
| `Statistics.ComputeMean` | common/utils/statistics.go:19-27 | the loop computes the mean |
| `Statistics.ComputeStdDeviation` | common/utils/statistics.go:29-51 | the loop computes the root of the population variance |
| `Statistics.SamuelsonBound` | common/utils/statistics.go:29-51 | the squared deviation of a sample's first point is at most n-1 times its variance |
| `Statistics.NeverOutlier` | modules/judge/store/func.go:248-256 | at or above the bound no sample has its newest point outside the band |
| `Statistics.OutlierPossibleIff` | modules/judge/store/func.go:248-256 | some sample of n points has its newest point outside the band iff n >= 2 and (r < 0 or r*r < n-1) |
| `JudgeEvents.EventCenter.SendEvent` | modules/judge/store/judge.go:82-97 | remembers the event as the id's last one and queues it |
| `JudgeEvents.EventCenter.SendEventIfNeed` | modules/judge/store/judge.go:205-249 | sends a first alarm, a due repeat or a recovery, and touches no other id |
| `JudgeEvents.JudgeItemWithRule` | modules/judge/store/judge.go:58-80 | without enough points nothing happens, else the window decides |
| `JudgeEvents.Receive` | modules/judge/store/history.go:89-102 | receiving a sample on the heap is one step of the run of every rule that concerns its series, and changes no other series and no other event id |
| `JudgeEvents.CleanUp` | modules/judge/store/history.go:70-87 | a stale cleanup on the heap is the cleanup step of the run of every series and rule |
| `JudgeEvents.RunLogOk` | modules/judge/store/judge.go:205-249 | in every run each event rests on a window of accepted samples and follows lawfully from the one before |
| `JudgeEvents.EventsFormEpisodes` | modules/judge/store/judge.go:205-249 | the events of every run are episodes PROBLEM 1..k within the limit, each closed by at most one OK |
| `JudgeEvents.StatusTracksTrigger` | modules/judge/store/judge.go:205-249 | after every judged sample the id is in alarm iff the sample triggered, unless the limit is zero, which silences it |
| `JudgeEvents.FirstAndLastSent` | modules/judge/store/judge.go:205-249 | outside an alarm a judged sample sends the first alarm iff it triggers and the limit is not zero; in an alarm one that does not trigger sends the recovery |
| `JudgeEvents.RepeatSentIff` | modules/judge/store/judge.go:222-240 | in an alarm a judged, triggering sample sends the next alarm iff the count is not used up, its whole window is later than the last alarm and the minimal interval has passed since |
| `JudgeEvents.RepeatsKeepInterval` | modules/judge/store/judge.go:234-240 | a repeat is sent at least the minimal interval after the previous alarm's event time and counts one up |
| `JudgeEvents.AlarmWindowsDisjoint` | modules/judge/store/judge.go:228-232 | consecutive alarms of an episode rest on disjoint windows |
| `JudgeEvents.AlarmNeedsEvidence` | modules/judge/store/judge.go:205-240 | an alarm with step k over windows of w points needs k*w distinct accepted timestamps, all of them pushed, also across stale cleanups |
| `SteadyAlarms.EvidenceYieldsAlarms` | modules/judge/store/judge.go:205-240 | conversely, when every judged window of ever later samples triggers and the clock allows it, q full windows of w points send exactly the alarms 1, 2, .. up to q or the limit |
| `ExpressionIndex.RebuildExpressionMap` | modules/judge/cron/strategy.go:82-96 | an expression is entered under exactly the keys of its tags |
| `ExpressionIndex.BuildKeys` | modules/judge/store/judge.go:126-132 | one key per tag and one for the endpoint |
| `ExpressionIndex.IsRelated` | modules/judge/store/judge.go:144-161 | all tags of the expression match the sample's, the endpoint counting as a tag unless the sample has one of that name |
| `ExpressionIndex.FilterRelated` | modules/judge/store/judge.go:134-167 | keeps exactly the matching expressions |
| `ExpressionIndex.CheckExpression` | modules/judge/store/judge.go:99-124 | judges exactly what is found under the sample's keys and matches, each id once |
| `ExpressionIndex.JudgeSample` | modules/judge/store/judge.go:99-178 | with unique ids the judged expressions are exactly the selected ones, each once, in any map order |
| `ExpressionIndex.ScanIsFound` | modules/judge/store/judge.go:126-178 | the index misses nothing a full scan selects |
| `ExpressionIndex.ScanSelectsIff` | modules/judge/store/judge.go:144-178 | an expression fits a sample iff each of its tags is one of the sample's, or it is the endpoint and the sample has no tag of that name |
| `ExpressionIndex.ForeignSelectedIff` | modules/judge/store/judge.go:126-132 | for two metric names there is an expression of the one and a sample of the other that the index selects against the scan iff one name continues the other at a '/' |
| `ExpressionIndex.IndexIsScan` | modules/judge/store/judge.go:99-178 | with metric names free of '/' index and scan select the same |
| `ExpressionIndex.SlashInMetricSelectsForeignExpression` | modules/judge/store/judge.go:126-132 | a metric with a '/' for which an expression of another metric is selected |
| `Templates.ParentIds` | modules/hbs/cache/strategies.go:103-136 | the root-first ancestor path when it has at most 9 templates, else nothing, for unknown, longer and cyclic chains |
| `Templates.PathUnique` | modules/hbs/cache/strategies.go:103-136 | a template has at most one ancestor path |
| `Templates.PathDuplicateFree` | modules/hbs/cache/strategies.go:103-136 | no template occurs twice in an ancestor path |
| `Templates.ChainLimit` | modules/hbs/cache/strategies.go:103-136 | a template gets its ancestor path iff that has up to nine templates, all with positive ids, and nothing otherwise |
| `Templates.CollectBuckets` | modules/hbs/rpc/hbs.go:110-117 | the non-empty chains of the bound templates, in order |
| `Templates.SliceIntEq` | modules/hbs/rpc/hbs.go:209-219 | equality of slices |
| `Templates.SliceIntLt` | modules/hbs/rpc/hbs.go:221-228 | every element of one is in the other |
| `Templates.WithinIsPrefix` | modules/hbs/rpc/hbs.go:221-228 | between ancestor paths containment, containment of the leaf and being a prefix agree |
| `Templates.IsValid` | modules/hbs/rpc/hbs.go:129-142 | a bucket is dropped iff a different containing bucket comes before any equal one |
| `Templates.Prune` | modules/hbs/rpc/hbs.go:127-146 | keeps the buckets that are not dropped, in order |
| `Templates.KeptCovers` | modules/hbs/rpc/hbs.go:127-146 | every bucket is a prefix of a kept one, with or without duplicates |
| `Templates.KeepsMaximalIff` | modules/hbs/rpc/hbs.go:127-146 | pruning keeps exactly the maximal chains iff no doubly bound template with a bound descendant comes before all of those |
| `Templates.DistinctKeepsMaximal` | modules/hbs/rpc/hbs.go:127-146 | with distinct bound templates a chain is dropped iff another bound template with a chain descends from its template |
| `Templates.DuplicateBindingKeepsSubsumedChain` | modules/hbs/rpc/hbs.go:135-137 | a double binding for which a subsumed chain is kept |
| `Inheritance.Tpl2Strategies` | modules/hbs/rpc/hbs.go:86-99 | each strategy with a template is listed under it, once per id |
| `Inheritance.GroupByUuid` | modules/hbs/rpc/hbs.go:159-171 | groups a template's strategies by metric and canonical tags |
| `Inheritance.BucketStrategies` | modules/hbs/rpc/hbs.go:154-177 | the map of a chain holds exactly the strategies no younger template of the chain overrides |
| `Inheritance.EmitGroups` | modules/hbs/rpc/hbs.go:179-194 | each new id is emitted once, moved to the youngest template, in any key order |
| `Inheritance.CalcInheritStrategies` | modules/hbs/rpc/hbs.go:101-198 | ids are distinct; each result wins along the first kept chain that yields its id and carries that chain's youngest template; every winner's id is there |
| `Inheritance.ReturnedIffWins` | modules/hbs/rpc/hbs.go:148-198 | a strategy is returned iff its template is the youngest one defining its key in some kept chain |
| `Inheritance.KeptIffYoungest` | modules/hbs/rpc/hbs.go:127-146 | unless a doubly bound template precedes its bound descendants, a template's chain is kept iff no other bound template descends from it |
| `Inheritance.ReturnedIffYoungestWins` | modules/hbs/rpc/hbs.go:101-198 | unless a doubly bound template precedes its bound descendants, a strategy is returned iff it wins along the chain of a bound template that no other bound template descends from |
| `Inheritance.ReturnedForDistinctBindings` | modules/hbs/rpc/hbs.go:101-198 | with distinct bound templates the same needs no condition |
| `Inheritance.OverrideWorksIff` | modules/hbs/rpc/hbs.go:101-198 | for all sets of strategies the kept chains and the chains of the youngest bound templates have the same winners, iff no doubly bound template with a bound descendant comes before all of those |
| `Inheritance.AnswersAgree` | modules/hbs/rpc/hbs.go:148-198 | the returned strategies do not depend on any map order |
| `Inheritance.AnswersAreBound` | modules/hbs/rpc/hbs.go:179-194 | every returned strategy carries a bound template whose kept chain it wins along |
| `Inheritance.UuidInjective` | modules/hbs/rpc/hbs.go:164-164 | keys separate metric and tags when metrics have no '/' and tags are clean |
| `Inheritance.DuplicateBindingDefeatsOverride` | modules/hbs/rpc/hbs.go:135-137 | with the parent bound twice before its child, the parent's strategy is returned whatever the child defines |
| `Aggregator.PrintedIsAccepted` | modules/aggregator/cron/run.go:194-231 | every printed expression is accepted |
| `Aggregator.AcceptedIff` | modules/aggregator/cron/run.go:194-231 | the accepted strings are exactly "$#", digit strings and printed expressions, without full-width parentheses |
| `Aggregator.Parse` | modules/aggregator/cron/run.go:152-176 | the items between first and last are the operands and operators in turn, the last is the comparison |
| `Aggregator.SplitPrinted` | modules/aggregator/cron/run.go:157-163 | splitting a printed expression yields its names, operators and comparison |
| `Aggregator.ComparisonIsRecovered` | modules/aggregator/cron/run.go:157-176 | parsing a printed expression gives back its comparison, also when a name has a '$' |
| `Aggregator.ParseInvertsPrintIff` | modules/aggregator/cron/run.go:152-176 | parsing gives back the parts of a printed expression iff its names have no '$' |
| `Aggregator.DollarInNameIsMisread` | modules/aggregator/cron/run.go:162-163 | an accepted expression that is read as a different one |
| `Aggregator.QueryOperands` | modules/aggregator/cron/computer.go:74-83 | as many values as operands iff every operand has one, and then the values in order |
| `Aggregator.PrintedComparisonHolds` | modules/aggregator/cron/computer.go:54-72 | a printed comparison is decided as the comparison of the sum with its decimal value |
| `Aggregator.AcceptedIsComputable` | modules/aggregator/cron/computer.go:54-72 | every accepted text that is parsed leaves enough operators and a comparison with a sign and a literal, so no failed match is indexed |
| `Aggregator.Compute` | modules/aggregator/cron/computer.go:23-52 | an error iff there is no operand or one has no value, else the left-to-right sum, or 1 or 0 for a comparison |
| `Aggregator.EvaluateText` | modules/aggregator/cron/computer.go:23-52 | parsing and computing a printed expression yields the meaning of the expression |
| `Aggregator.MeaningIs` | modules/aggregator/cron/computer.go:23-72 | the meaning is the sum of the counters, each negated iff behind a '-', or whether that sum is greater than, at least, less than, at most or equal to the literal |
| `Aggregator.DigitsReadBack` | modules/aggregator/cron/computer.go:60-60 | reading the digits of a number gives the number |
| `Aggregator.DecimalIsScaled` | modules/aggregator/cron/computer.go:60-60 | a literal with k digits behind the point, times 10 to the k, is the number of all its digits |
| `Tags.SortedTags` | common/utils/tags.go:24-67 | the canonical string, in any map order |
| `Tags.EnumerationUnique` | common/utils/tags.go:55-55 | a set of keys has one sorted enumeration |
| `Tags.LessIff` | common/utils/tags.go:55-55 | keys are ordered by the smaller character where they first differ, a prefix first |
| `Tags.DictedTagstring` | common/utils/tags.go:69-87 | reads the parts left to right, skipping those without '=' |
| `Tags.PartsReadInTurn` | common/utils/tags.go:69-110 | a pair sets its key, whatever was there, and a part without '=' is skipped |
| `Tags.SplitTagsString` | common/utils/tags.go:89-110 | reads all parts, or stops at the first without '=' keeping what came before |
| `Tags.RoundTripIffClean` | common/utils/tags.go:69-87 | the lenient parser gives back the map from its canonical string iff its keys and values are clean |
| `Tags.StrictRoundTripIffClean` | common/utils/tags.go:89-110 | the strict parser accepts the canonical string and gives back the map iff its keys and values are clean, the empty map included |
| `Tags.CommaInValueIsMisread` | common/utils/tags.go:69-110 | a map with a comma in a value that neither parser gives back |
| `Tags.CanonicalInjective` | common/utils/tags.go:24-67 | different clean maps have different canonical strings |
| `TimeGrid.AlignDownSpreads` | modules/nodata/judge/judge_cron.go:103-109 | times a step apart are moved to grid times a step apart |
| `Nodata.NodataJudge.TurnOk` | modules/nodata/judge/status.go:47-67 | resets the count and takes the time |
| `Nodata.NodataJudge.TurnNodata` | modules/nodata/judge/status.go:69-89 | counts one up and takes the time |
| `Nodata.NodataJudge.JudgeKey` | modules/nodata/judge/judge_cron.go:61-95 | generates a mock iff the data was fetched, is a mock or expired, and a step has passed; touches no other key |
| `Nodata.NodataJudge.Judge` | modules/nodata/judge/judge_cron.go:57-96 | every configured key with data is judged from its own previous status, the others stay |
| `Nodata.MocksStepApart` | modules/nodata/judge/judge_cron.go:57-109 | for every step the configuration loader lets through (`modules/nodata/config/service/mockcfg.go:172-174`), with any clock that never goes back the mocks of a key are at least one step apart |
| `Nodata.MinuteMocksApart` | modules/nodata/judge/judge_cron.go:32-109 | with passes a minute apart, as the job is scheduled, the mocks of a key are at least one placing step apart and strictly increasing, for every configured step |
| `Nodata.PassOutcomes` | modules/nodata/judge/judge_cron.go:57-117 | a pass generates a mock iff the data was fetched within the larger of 180 seconds and three steps, its value is the mock or older than that, and a step has passed since the last change of status |
| `Nodata.SilentSeriesIsMocked` | modules/nodata/judge/judge_cron.go:57-96 | a silent series gets a mock at every pass that is a step apart, and the status counts them |
| `Nodata.MockPlacement` | modules/nodata/judge/judge_cron.go:86-117 | a mock is at the aligned time two to three steps ago, a step below one counting as a minute, and one for expired data is later than the last collected point |

## Left out

- The RRD file format, disk access and the I/O workers: the points a fetch delivers are an input that is contiguous and begins at or before the window, as `modules/graph/api/graph.go:178-181` and `:252` say.
- Validation of incoming items, and the updates of index and history after an item is accepted.
- RPC dialing, reconnection, timeouts, Redis, MySQL and HTTP handlers; a failed remote call that was in fact delivered is not told apart from one that was not.
- Rounding, infinities and NaN arithmetic.
- Data races between the steps of one locked operation, in particular a removal of the key between the two halves of a commit.
- JudgeFunctions.Compute: covers all functions but kpdiff, which is kdiff on percentages and divides by points it has not checked for zero, so that its meaning needs infinities. Parsing of function strings starts from parsed functions; negative arguments of kdiff, on which the source indexes out of range, are excluded by type.
- Event fields that decide nothing (endpoint, tags, note, the reported value) and strategy lookup by endpoint and metric (`CheckStrategy`, `rebuildStrategyMap`, `syncFilter`), which is a simpler form of the expression index.
- Aggregator.Compute: requires a sign and a literal, because the source indexes a failed match otherwise; every accepted text meets this (`Aggregator.AcceptedIsComputable`).
- The aggregator's host loop, whitespace cleaning and the reading of numeric constants in `WorkerRun`.
- Agent collectors, alarm senders, configuration, command line and the Prometheus relay.
