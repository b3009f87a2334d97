# A verified model of NetAlert

NetAlert watches network flows, compares traffic rates with thresholds, raises alerts with
hysteresis and proposes BGP Flow Spec rules. This project models that pipeline in Dafny and
proves what it decides, from single flows up to whole runs.

| File | What it holds |
|---|---|
| `Network.dfy`, `Flows.dfy`, `Config.dfy` | addresses, prefixes, flow records, categories, configuration |
| `PrefixDescent.dfy` | the descent of the binary prefix tree, proved optimal |
| `Candidates.dfy` | field sets, groups and the search for the best candidate, proved an argmax |
| `Mitigation.dfy` | the rule-emitting loop, specified by the list of its rounds |
| `RuleMeaning.dfy` | what an emitted rule matches, inbound and outbound |
| `Coverage.dfy`, `Tightness.dfy` | conservation, decay, when rules appear, what a rule still selects |
| `RingBuffer.dfy`, `FlowSums.dfy` | the ring buffer against direct sums over the flow history |
| `Captures.dfy`, `Processor.dfy` | the capture deque, the prefix index, the fan-out of flows, reload |
| `Alert.dfy`, `Episodes.dfy` | one alert over whole runs; ticks and reloads over all alerts |
| `TickDrains.dfy`, `AlertManager.dfy` | the memoised drain, one tick, building and carrying over alerts |
| `DaemonRuns.dfy`, `DaemonCaptures.dfy`, `AlertIds.dfy`, `SharedKeys.dfy` | runs of the daemon as values: alerts traced back to the flows, captures handed out once, fresh ids, shared keys |
| `Pipeline.dfy` | the daemon itself, whose state is proved to be where its run leads; what payloads carry |

How to read the model:

- Hash maps are iterated in an arbitrary order (`:|`), so results hold for every order.
- An address is a number below 2^32 or 2^128; a prefix is an address and a length, host bits
  allowed. Prefix strings are kept as prefixes: printing and parsing are inverse and left out.
- Ratios are compared without division: `bytes * 10 >= total` for 0.1, `bytes * 5 >= total * 4`
  for 0.8, and `bytes * (2 + fields)` for `coverage * (1 + 0.5 * fields)`. Rates are exact reals.
- A rule is the conjunction of the components present, as in section 4.2 of RFC 8955; TCP flag
  names (section 4.2.2.9 of RFC 8955) are read as "all the named flags are set".
- `ring_buffer.rs`, `processor.rs` and `alert.rs` are classes over arrays, sequences and maps; each
  method is proved against functions of the flow history, of the captures or of the list of
  evaluations.

What the code does differently from its comments or its documentation, each with its exact condition:

- An outbound rule's destination is built from the candidate's source address or from the rule's own
  prefix, so it matches none of the flows it was derived from
  (`OutboundRulesMatchNothingCaptured`, `OutboundPayloadMatchesNothing`).
- An inbound rule says exactly "the candidate inside the narrowed prefix" if and only if the
  candidate uses no flag without a name (0x40, 0x80) and the filter is not `Icmp`, whose rules leave
  ICMPv6 out (`InboundRuleExactIff`).
- A DNS rule without a protocol, and no other rule, touches traffic outside its category
  (`RuleStaysInCategoryIff`).
- The stop rule estimates what is left by what the candidates leave. An inbound rule matches no more than
  its candidate, within the category, if and only if the candidate uses no flag without a name
  (`RuleWithinCandidateIff`); then, and always for outbound captures, the estimate is a lower bound on
  what survives the rules (`EstimateIsALowerBound`). With such a flag it can be too high: after an ECN SYN (0xC2) the rule
  names only `syn` and also takes plain SYN flows that are counted as left (`EstimateCanBeTooHigh`).
  If no captured flow of the category uses 0x40 or 0x80, no candidate does (`CapturedFlagsAreNamed`).
- An inbound rule over flows inside the rule prefix may select nothing that was captured although its
  candidate holds a fifth of the bytes (`AFifthIsNotEnough`); with more than a fifth it selects a captured flow (`InboundRuleSelects`).
- Below a positive threshold there are rules if and only if flows of the category were captured that
  carry no bytes and the category forces a field: then the stop rule is skipped and the fallback
  applies (`RulesBelowThresholdIff`, and for Update payloads `UpdateBelowTriggerIff`).
- The ring buffer equals the direct window sum if and only if no queried second was overwritten
  (`RingIsExactIff`); before second `window - 1` it counts second 0 again (`StartUpIsExactIff`). So late
  flows can keep an alert from firing (`LateSampleErases`) but, past start-up, never make it fire
  (`FireMeansFlowsStayedOver`); with all ticks settled it fires exactly by the flows
  (`FireIffFlowsStayedOver`).
- Alerts that share a key lose state on reload: reloads to the same keys keep every past if and only if
  the keys are unique (`SameKeysReloadIsLosslessIff`). They also break the order of the key's notices:
  every run of a configuration keeps the episodes if and only if its keys are unique
  (`EpisodesHoldIff`), which is the case if and only if no two rules with one prefix share a metric
  (`KeysAreUniqueIff`, `ConfigurationKeepsEpisodesIff`); the breaking run can be made of real flows
  (`SharedKeysBreakSomeRun`, `DaemonKeepsEpisodesIff`).

## Model

| member | source | states |
|---|---|---|
| Network.WithinIsInclusion | src/mitigation.rs:208-210 | the prefix order used throughout is inclusion of address sets, in both directions |
| Network.NestedIfOverlapping | src/mitigation.rs:198-202 | prefixes form a tree: two that share an address are nested |
| Network.ChildrenPartition | src/mitigation.rs:200-202 | the two subnets of a prefix contain each of its addresses exactly once |
| Network.StrictlyWithinAChild | src/mitigation.rs:200-202 | every longer prefix inside a prefix lies inside one of its two subnets |
| Network.Trunc | src/mitigation.rs:198 | truncation clears host bits and keeps the set of addresses |
| Network.Child | src/mitigation.rs:200-202 | the subnets of the next length are aligned halves inside the address space |
| Network.ContainsIsRange | src/mitigation.rs:208-210 | a prefix of length len holds exactly the 2^(width - len) addresses of its family from its first one on |
| Network.AlignedIff | src/processor.rs:44-75 | a prefix has no host bits iff it is written with its first address |
| Flows.ClassifyIsExact | src/config.rs:56-83 | the classification lists exactly the categories a flow belongs to, without repetition |
| Flows.SumBytes | src/flow.rs:35-37 | the total of the sampled bytes of a list of flows |
| Flows.BytesAreSampled | src/flow.rs:35-37 | all byte totals count the bytes of a flow times its sampling rate |
| PrefixDescent.ComputeDestinationPrefix | src/mitigation.rs:173-226 | with no bytes the rule prefix as configured; otherwise a prefix inside it, carrying 4/5 if narrowed, and inside every strict sub-prefix that carries 4/5 |
| PrefixDescent.NarrowedOutright | src/mitigation.rs:199-223 | the same with the arithmetic written out: bytes * 5 >= total * 4 over the flows that end in the prefix |
| PrefixDescent.DescentIsOptimal | src/mitigation.rs:199-223 | stopping when neither half carries 4/5 is globally optimal, not only along the path taken |
| PrefixDescent.DominantAreNested | src/mitigation.rs:217-221 | two prefixes that each carry 4/5 share a flow and are nested |
| PrefixDescent.NarrowestDominantIsUnique | src/mitigation.rs:164-172 | the specification of the narrowed prefix leaves exactly one answer |
| PrefixDescent.CountBytes | src/mitigation.rs:184-191 | the hash map holds, for each endpoint, the bytes of its flows |
| PrefixDescent.BytesUnder | src/mitigation.rs:206-213 | summing the hash map in any order gives the bytes of the flows that end in the prefix |
| Candidates.AllCombinations | src/mitigation.rs:47-61 | every non-empty field set without excluded fields, once, by field count and then by bits |
| Candidates.SortByCount | src/mitigation.rs:58-59 | the stable sort by field count keeps the members and orders ties by bits |
| Candidates.CandidateCoversItsGroup | src/mitigation.rs:75-104 | a candidate matches every flow of its group, although flags are matched as a mask |
| Candidates.FindBestCandidate | src/mitigation.rs:279-348 | the result is an argmax over all groups of all allowed field sets that reach the floor; ties go to the first field set |
| Candidates.BestIsArgmax | src/mitigation.rs:308-343 | with the arithmetic written out: without a winner every allowed group has bytes * 10 < total; a winner has bytes * 10 >= total, and no group that does reaches a higher bytes * (fields + 2), or the same with an earlier field set |
| Candidates.GroupMembersIff | src/mitigation.rs:117-161 | who is in a group: the key names the flow's own non-zero values in exactly the fields of the set, and the count is their number |
| Candidates.NothingFoundIff | src/mitigation.rs:284-313 | None exactly when there are no bytes or no group reaches the floor |
| Candidates.BestUpToTies | src/mitigation.rs:315-343 | the hash map's order can only choose between groups of one field set that hold the same bytes |
| Candidates.BestHasAFlow | src/mitigation.rs:300-322 | the winner's group is not empty |
| Candidates.WinnerIsSpecific | src/mitigation.rs:324-343 | every coarsening of a k-field winner to j fields loses strictly: bytes * (j+2) < winner bytes * (k+2) |
| Candidates.CoarserGroupContains | src/mitigation.rs:117-161 | a flow of a group belongs to the coarser group over any subset of its fields |
| Candidates.AtMostTenGroupsReachTheFloor | src/mitigation.rs:308-313 | at most ten groups of one field set reach the 0.1 floor |
| Candidates.GroupFlows | src/mitigation.rs:298-306 | the hash map holds exactly the byte total of each non-empty group |
| Mitigation.TcpFlagNames | src/mitigation.rs:252-273 | the names are exactly those of the set flags among the six named ones, in bit order |
| Mitigation.AssembleRule | src/mitigation.rs:474-536 | the rule that the loop puts together list by list is the one whose meaning is proved |
| Mitigation.FilterCategory | src/mitigation.rs:382-393 | the flows of the category, in order, each once |
| Mitigation.Retain | src/mitigation.rs:538-539 | the flows that the candidate does not match, in order |
| Mitigation.EmitRules | src/mitigation.rs:429-542 | the loop over the filtered flows yields the rules of a valid and finished chain of rounds; `Coverage.NextRuleIff` says exactly when it goes on |
| Mitigation.AnalyzeFlows | src/mitigation.rs:364-543 | the rules are those of a valid chain of rounds that ended for one of the four reasons the loop has |
| RuleMeaning.ProtocolNameInjective | src/mitigation.rs:240-250 | different protocol numbers have different names |
| RuleMeaning.ProtocolNamesAre | src/mitigation.rs:240-250 | the six words for 1, 6, 17, 47, 50 and 58, and decimal digits that denote the number otherwise |
| RuleMeaning.NamedFlagsMeanLowBits | src/mitigation.rs:252-273 | the named flags are all set exactly when the flow's low six bits cover the candidate's, and each of the six names stands for its bit |
| RuleMeaning.InboundRuleMeaning | src/mitigation.rs:470-536 | an inbound rule matches what the nameable part of its candidate matches inside the narrowed prefix, less ICMPv6 under Icmp; TcpSyn rules name syn |
| RuleMeaning.InboundRuleExactIff | src/mitigation.rs:470-536 | the rule equals candidate and prefix on its category iff all its flags have names and the filter is not Icmp |
| RuleMeaning.InboundRuleExactOnCaptured | src/mitigation.rs:470-536 | on the captured flows, with nameable flags, ICMPv6 under Icmp is the only difference |
| RuleMeaning.RuleWithinCandidateIff | src/mitigation.rs:470-539 | within the category an inbound rule matches only what its candidate matches iff the candidate uses no flag without a name |
| RuleMeaning.CapturedFlagsAreNamed | src/mitigation.rs:252-273 | if no captured flow of the category uses a flag without a name, no candidate does |
| RuleMeaning.RuleStaysInCategoryIff | src/mitigation.rs:403-412 | a rule touches only its own category unless it is a DNS rule without a protocol |
| RuleMeaning.OutboundRuleMeaning | src/mitigation.rs:513-527 | what an outbound rule matches, with the destination taken from the candidate's source or the rule prefix |
| RuleMeaning.OutboundRulesMatchNothingCaptured | src/mitigation.rs:513-527 | no outbound rule matches any flow captured as outbound |
| Coverage.RoundsPartitionTheFlows | src/mitigation.rs:429-540 | removed flows and leftovers are the filtered flows, as multisets and in bytes |
| Coverage.EachCandidateAddsAFlow | src/mitigation.rs:429-540 | every candidate matches a captured flow that no earlier candidate matches |
| Coverage.RemainingDecays | src/mitigation.rs:429-540 | after k rules remaining * 10^k <= total * 9^k |
| Coverage.TenRulesLeaveLessThan35Percent | src/mitigation.rs:372-373 | ten rules leave less than 35% of the bytes |
| Coverage.NextRuleIff | src/mitigation.rs:429-468 | after i rules another one follows iff i < 10, flows are left, rate * left >= threshold * total (for a positive threshold and total), and a group of the usable fields holds a tenth of their bytes or it is the first rule of a category that forces a field |
| Coverage.StopsOnlyIf | src/mitigation.rs:429-468 | fewer than ten rules with flows left over: the scaled rate is below the threshold, the rest carries no bytes, or no group holds a tenth of it |
| Coverage.AllowedIff | src/mitigation.rs:403-427 | the fields that the search may use for a category |
| Coverage.RuleCountNeedsRate | src/mitigation.rs:434-444 | rule k is emitted only at a rate of at least threshold * (10/9)^k |
| Coverage.CategoryAlertGetsRuleIff | src/mitigation.rs:446-468 | at or above the threshold a category alert gets a rule exactly when a captured flow is of its category |
| Coverage.AnyAlertGetsRuleIff | src/mitigation.rs:446-468 | at or above the threshold an Any alert gets none exactly when there are no bytes or no group reaches the floor |
| Coverage.RulesBelowThresholdIff | src/mitigation.rs:434-468 | below a positive threshold there are rules iff captured flows of the category carry no bytes and the category forces a field |
| Coverage.FallbackStandsAlone | src/mitigation.rs:448-466 | the fallback rule is the only rule and empties the remaining flows |
| Coverage.OutsideIsAtMostAFifth | src/mitigation.rs:470-471 | at most a fifth of the bytes lie outside the narrowed prefix |
| Coverage.SelectionInsidePrefix | src/mitigation.rs:470-471 | any selection of the remaining flows loses at most a fifth of all bytes inside the narrowed prefix |
| Coverage.CandidateInsidePrefix | src/mitigation.rs:446-472 | candidate and prefix together select the candidate's bytes less a fifth of all |
| Coverage.InboundRuleSelects | src/mitigation.rs:446-536 | the emitted inbound rule selects at least the candidate's bytes (under Icmp those outside ICMPv6) less a fifth of all, so with more than a fifth it selects a captured flow |
| Coverage.EstimateIsALowerBound | src/mitigation.rs:434-444 | for outbound captures, and inbound if the candidates use no flags without names, the flows counted as remaining all survive the emitted rules |
| Tightness.AFifthIsNotEnough | src/mitigation.rs:446-539 | a round over flows inside the rule prefix whose candidate holds exactly a fifth and whose rule selects nothing captured |
| Tightness.EstimateCanBeTooHigh | src/mitigation.rs:434-444 | a round whose rule takes flows that the stop rule counts as left; below ten times the threshold it is the whole analysis |
| RingBuffers.RingBuffer.constructor | src/ring_buffer.rs:24-28 | all buckets start empty |
| RingBuffers.RingBuffer.GetOrResetBucket | src/ring_buffer.rs:34-43 | the slot of the second, restarted if it held another second; other slots unchanged |
| RingBuffers.RingBuffer.AddInstantFlow | src/ring_buffer.rs:45-50 | the buckets are those of the history with the sample appended |
| RingBuffers.RingBuffer.ComputeRates | src/ring_buffer.rs:52-82 | bps * window is 8 times the byte count, pps * window the packet count and fps * window the flow count of the ring total of the history; zero for a window of 0 |
| RingBuffers.KeptIsExactIff | src/ring_buffer.rs:34-50 | a second's bucket never exceeds its direct sum, and holds all of it iff the second was not overwritten |
| RingBuffers.KeptIsSinceRestart | src/ring_buffer.rs:34-50 | for every arrival order a bucket holds exactly the samples of its second that arrived after the second was last evicted |
| RingBuffers.RingNeverExceeds | src/ring_buffer.rs:52-71 | for every arrival order and query time the ring never exceeds the window sum plus the repeats of second 0 |
| RingBuffers.RingIsExactIff | src/ring_buffer.rs:52-71 | the ring answers that sum iff no second it looks at was overwritten |
| RingBuffers.RingIsExact | src/ring_buffer.rs:30-82 | with lateness below the window and a query at or after all samples, the answer is the window sum |
| RingBuffers.StartUpIsExactIff | src/ring_buffer.rs:59-62 | before second window-1 the answer is the window sum iff second 0 is empty |
| RingBuffers.LateSampleErases | src/ring_buffer.rs:34-43 | a sample one window late erases the newer second of its slot |
| FlowSums.RingEqualsDirectSum | src/processor.rs:135-190 | a buffer's ring answers the direct sum over the flows with exactly one relevant endpoint inside, of the category, in the window |
| FlowSums.RingMeasuresFlows | src/processor.rs:135-190 | past start-up and with timely flows: bps * w is 8 times the sampled bytes, pps * w the sampled packets and fps * w the number of the flows that count in the window |
| FlowSums.DirectRatesMeasureFlows | src/ring_buffer.rs:76-79 | the same for the direct rates, without any condition on the order of the flows |
| FlowSums.RingIsAtMostDirectSum | src/ring_buffer.rs:52-71 | past start-up, however late flows come, a buffer's ring never answers more than the direct sum of the window |
| FlowSums.CategoriesNest | src/config.rs:56-83 | the five protocols sum to at most Any, TcpSyn and Https to at most Tcp, Dns to at most Tcp and Udp |
| FlowSums.RingTotalsNest | src/processor.rs:210-231 | the same order between the answers of the rings |
| FlowSums.HistoryIsTimely | src/processor.rs:180-188 | a buffer's samples inherit the lateness bound of the flows |
| Captures.Run | src/processor.rs:171-208 | over any mix of arrivals and drains: bounded, in order, delivered at most once, and the last arrivals are there unless delivered |
| Captures.ArriveIsSafe | src/processor.rs:171-178 | an arrival keeps these properties |
| Captures.DrainIsSafe | src/processor.rs:198-204 | a drain of one direction keeps these properties |
| Captures.DrainHoldsAll | src/processor.rs:198-204 | retaining the other direction keeps exactly the arrivals with those numbers |
| Processor.ProcessedRule.Record | src/processor.rs:163-189 | the buffers and the deque of one rule after one update |
| Processor.ProcessedRule.Capture | src/processor.rs:171-178 | the oldest entry leaves a full deque, the new one is last |
| Processor.ProcessedRule.Drain | src/processor.rs:198-204 | the entries of the direction are handed out in order, the others stay in order |
| Processor.FromConfig | src/processor.rs:44-75 | one empty buffer for each configured protocol and direction; prefixes with host bits are rejected |
| Processor.ExtendIndex | src/processor.rs:111-116 | adding a rule keeps the index: every rule under its own network, once |
| Processor.FlowProcessor.constructor | src/processor.rs:87-93 | no rules and an empty index |
| Processor.FlowProcessor.ReloadConfig | src/processor.rs:95-125 | on success fresh rules, index and window as configured; on a rejected prefix nothing changes |
| Processor.FlowProcessor.MatchingRules | src/processor.rs:127-133 | each rule whose network contains the address exactly once |
| Processor.FlowProcessor.CollectUpdates | src/processor.rs:141-160 | exactly the rules with one endpoint inside, with the direction that gives, each once |
| Processor.FlowProcessor.ProcessFlow | src/processor.rs:135-190 | every buffer of every rule has received exactly the flows that count for it, and each deque took the flow if due |
| Processor.FlowProcessor.DrainCapturedFlows | src/processor.rs:192-208 | all captures of the prefix and direction in order; all others stay in order |
| Processor.DeliveredByOne | src/processor.rs:194-208 | a rule that is the only one of its prefix hands out the flows of its entries of the direction, in their order |
| Processor.FlowProcessor.ComputeAllRates | src/processor.rs:210-231 | as many snapshots for each prefix and key as there are buffers for them, and no others; past start-up and with timely flows each measures the flows, metric by metric |
| Alert.AlertInstance.Evaluate | src/alert.rs:80-125 | state and action of one evaluation; `FireIff`, `ResolveIff` and `UpdateIff` say when which action is taken, with the times written out |
| Alert.AlertInstance.constructor | src/alert.rs:282-295 | a new alert is Normal with the nil id |
| Alert.FireIff | src/alert.rs:82-98 | Fire at an evaluation iff an unbroken stretch over the trigger began in Normal and now >= start + trigger time there for the first time |
| Alert.ResolveIff | src/alert.rs:100-122 | Resolve iff an unbroken stretch under the recover threshold began in Firing and now >= start + recover time there for the first time |
| Alert.UpdateIff | src/alert.rs:100-111 | Update iff the alert stayed at or above the recover threshold and now >= last time + interval for the first time |
| Alert.FiresTakeTime | src/alert.rs:88-123 | n Fires take at least (n-1) * (trigger time + recover time), across changes of thresholds |
| Alert.FiresAreSpaced | src/alert.rs:88-123 | any two Fires are at least trigger time + recover time apart |
| Alert.UpdatesAreSpaced | src/alert.rs:100-116 | an Update comes at least the interval after the last Fire or Update of its episode, also through Recovering |
| Alert.NoticeIsRemembered | src/alert.rs:88-123 | an episode is open exactly in Firing and Recovering |
| Episodes.EpisodesHoldOverRuns | src/alert.rs:180-246 | over all interleavings of ticks and reloads with unique keys, each key's notices form (Fire Update* Resolve)* with one id per episode |
| Episodes.TickKeepsEpisodes | src/alert.rs:319-331 | a tick keeps the episodes of all keys |
| Episodes.ReloadKeepsEpisodes | src/alert.rs:180-246 | a reload keeps the episodes of the keys that stay configured |
| Episodes.NoticeIsJustified | src/alert.rs:88-122 | in any run of the manager a Fire ends an unbroken stretch over the trigger that spans the trigger time, and a Resolve one under the recover threshold that spans the recover time |
| Episodes.RunsAdvance | src/alert.rs:180-246 | a clock that does not go back over ticks and reloads does not go back in any alert's run, so the spacing of Fires and Updates holds for every alert across reloads |
| Episodes.SameKeysReloadIsLosslessIff | src/alert.rs:181-246 | reloads to the same keys keep every alert's state and id, whatever they are, iff keys are unique |
| Episodes.FirstTakesOverLast | src/alert.rs:181-246 | also with shared keys: the first new alert of a key takes over state, id and run of the last old one |
| Episodes.OthersStayNew | src/alert.rs:205-245 | all other new alerts stay as they were built |
| Episodes.DuplicatesBreakSomeRun | src/alert.rs:319-331 | if two alerts share a key, a manager's run of one reload and two ticks, with rates as given, breaks the order of that key's notices |
| Episodes.EpisodesHoldIff | src/alert.rs:180-246 | all runs of a configuration, with any ticks and reloads of it, keep the episodes iff its keys are unique |
| TickDrains.FreshDrainDelivers | src/alert.rs:313-362 | the first drain of a key in a tick hands out what the tick's start held |
| TickDrains.DrainExtends | src/alert.rs:313-362 | after it exactly that key's captures are gone |
| AlertManagers.FindRate | src/alert.rs:486-504 | bps, pps or fps, by the metric, of the first snapshot of the prefix and buffer, or 0 |
| AlertManagers.RateForAgrees | src/alert.rs:486-504 | which matching snapshot comes first does not matter if they agree |
| AlertManagers.DrainOnce | src/alert.rs:355-362 | the remembered or newly drained captures are in both cases those of the tick's start, and only that key is drained in addition |
| AlertManagers.AnalyzeCaptured | src/alert.rs:355-397 | the analysis of an alert uses the captures of the tick's start, whether drained now or before |
| AlertManagers.EvaluateAlert | src/alert.rs:319-400 | state, id and payload of one alert in a tick |
| AlertManagers.AlertManager.Evaluate | src/alert.rs:303-401 | all alerts advance, payloads report exactly the notices, analyses use the tick's start, and exactly the drained keys are emptied |
| AlertManagers.DrainedIff | src/alert.rs:355-362 | a tick drains exactly the prefixes and directions of alerts that fire or send an update |
| AlertManagers.CollectOrigins | src/alert.rs:205-233 | every configured metric of every rule exactly once |
| AlertManagers.AddMetricAlerts | src/alert.rs:263-298 | one alert for each metric that has a threshold |
| AlertManagers.BuildAlerts | src/alert.rs:205-233 | new alerts with the thresholds and durations of their place in the configuration |
| AlertManagers.ReloadedAsConfigured | src/alert.rs:196-298 | after a reload every alert has the trigger and recover threshold of its metric (the trigger if no recover is given), the durations of the named policy or 10 s and 20 s, and the configured interval; without a past it starts in Normal |
| AlertManagers.KeysAreUniqueIff | src/alert.rs:205-245 | keys are unique iff no two rules with one prefix share a metric |
| AlertManagers.ConfigurationKeepsEpisodesIff | src/alert.rs:180-246 | the episodes of a configuration hold in all runs iff no two rules with one prefix share a metric |
| AlertManagers.AlertManager.Remember | src/alert.rs:181-193 | the map keeps the last alert of each key |
| AlertManagers.AlertManager.ReloadConfig | src/alert.rs:180-246 | the first new alert of each key takes over state and id of the last old one |
| DaemonRuns.RingRateIsFlowRate | src/main.rs:384-391 | past start-up and with timely flows the rate of a key is the direct rate of the flows seen |
| DaemonRuns.FlowRateMeasuresFlows | src/alert.rs:486-504 | the rate of a key times the window is 8 times the sampled bytes, the sampled packets or the number of the flows that count, by its metric |
| DaemonRuns.RingRateIsAtMostFlowRate | src/main.rs:384-391 | past start-up the rate of a key never exceeds the direct rate, in whatever order flows came |
| DaemonRuns.AlertsSawTheFlows | src/main.rs:384-393 | over all runs of the four steps, an alert's evaluations are exactly the last ticks, each with the rate the rings report of the flows seen by then, which is the flows' own once settled |
| DaemonRuns.FireIffRatesStayedOver | src/alert.rs:82-98 | over all runs an alert fires in a tick iff in every tick of an unbroken stretch the rings reported its trigger rate and the trigger time has now passed |
| DaemonRuns.ResolveIffRatesStayedUnder | src/alert.rs:100-122 | the same for Resolve with the recover threshold and time |
| DaemonRuns.FireIffFlowsStayedOver | src/alert.rs:82-98 | if all ticks of the alert's run were settled, it fires in a tick iff in every tick of an unbroken stretch the flows carried its trigger rate and the trigger time has now passed |
| DaemonRuns.ResolveIffFlowsStayedUnder | src/alert.rs:100-122 | the same for Resolve: the flows stayed under the recover threshold for the recover time |
| DaemonRuns.FireMeansFlowsStayedOver | src/alert.rs:82-98 | no false alarm: past start-up, however late flows came, a Fire means that in every tick of the stretch the flows really carried the trigger rate |
| DaemonRuns.DaemonKeepsEpisodes | src/main.rs:226-236 | over all runs of the four steps with unique keys the notices of each configured key form episodes |
| DaemonCaptures.DequesStaySound | src/processor.rs:171-208 | over all runs each deque is bounded and in arrival order, its past is the rule's arrivals among the flows seen, each arrival is handed out at most once, and one of the last arrivals is missing only if it was handed out |
| DaemonCaptures.ArrivesIff | src/processor.rs:141-178 | a rule captures exactly the flows with one endpoint inside its prefix in a direction for which it has a buffer |
| DaemonCaptures.CapturesAreSeenFlows | src/processor.rs:171-208 | over all runs the deques hold only flows seen since the last reload of the processor, with their direction |
| DaemonCaptures.TickEmptiesExactlyTheDrained | src/alert.rs:355-362 | after a tick nothing is left of the prefixes and directions that fired or sent an update, and every other direction is untouched |
| DaemonCaptures.HandedOutOnce | src/processor.rs:192-208 | what a tick hands out of a drained direction are its held arrivals in order, none handed out before |
| AlertIds.FireIdsAreFresh | src/alert.rs:328-331 | over all runs no two Fires have the same id, of whatever alerts |
| SharedKeys.SharedKeysBreakSomeRun | src/alert.rs:319-331 | if two alerts of an accepted configuration share a key, a run of the daemon with real flows breaks the order of that key's notices |
| SharedKeys.DaemonKeepsEpisodesIff | src/alert.rs:180-246 | all runs of the daemon with an accepted configuration and a positive window keep the episodes iff no two rules with one prefix share a metric |
| Pipeline.AlertRateIsDirect | src/main.rs:384-391 | an alert's rate is the direct rate over the flows since the reload, or 0 if nothing is measured |
| Pipeline.DeliveredFlowsCross | src/processor.rs:148-178 | drained flows have exactly the relevant endpoint inside the prefix |
| Pipeline.AnalysedFlowsWereSeen | src/processor.rs:171-208 | whatever a payload analyses was processed since the processor's last reload |
| Pipeline.FirePayloadHasRulesIff | src/alert.rs:355-375 | a Fire payload of a category alert carries a rule iff a flow of its category was captured |
| Pipeline.RecentArrivalGetsRule | src/alert.rs:355-375 | over all runs a Fire payload of a category alert carries a rule if one of the last arrivals of a rule with its prefix is of its direction and category and was not handed out before |
| Pipeline.UpdateBelowTriggerIff | src/alert.rs:355-375 | an Update below a positive trigger carries rules iff flows of its category were captured that carry no bytes, and the alert is not for Any |
| Pipeline.OutboundPayloadMatchesNothing | src/alert.rs:355-375 | no rule of an outbound payload matches the flows it was derived from |
| Pipeline.Daemon.HandleFlow | src/main.rs:350-356 | a flow is one step of the run: it joins the history and the deques it is due in, and leaves the alerts alone |
| Pipeline.Daemon.Tick | src/main.rs:384-393 | a tick is one step of the run: ring rates for all keys, all alerts advanced, payloads about the captures of its start, exactly the drained captures gone |
| Pipeline.Daemon.ReloadProcessor | src/main.rs:226-232 | the first reload step: new rules, window, empty deques and history, or nothing at all if a prefix is rejected |
| Pipeline.Daemon.ReloadAlerts | src/main.rs:233-236 | the second reload step: the alerts of the configuration, carried over by key |

## Left out

- Receivers, channels, tasks, signals and the command line in `src/main.rs`; it gives the granularity of the steps only.
- Script execution, JSON, logging, the Prometheus endpoint, labels and `Config::validate`: input, output and formatting.
- Rounding of `f64`: ratios and rates are exact, so ties and near-ties of floats are outside the model.
- Overflow of `u64` in sampled bytes and sums: numbers are unbounded.
- `dominant_ratio` and `min_coverage_ratio` as parameters: every caller passes 0.8 and 0.1, which are built in.
- The order of the two reloads: the modelled runs take them in any order, while the source reloads the alerts only after the processor accepted the same configuration; statements over all runs cover that.
- Printing of prefixes and TCP flags: prefixes stand for their strings and flags for their names; protocol names are strings, because rules compare them.
- `IpNetworkTable`, `ipnet` and `Uuid`: a map with all containing networks in any order, aligned halves, and a counter that gives each alert of a tick a number of its own. That `IpNetwork` rejects prefixes with host bits is assumed of that library.
- The nested map of thresholds is one map keyed by (protocol, direction).
- Buckets and alert snapshots are values; the array of buckets and the fields of the alerts are updated in place.
- RingBuffers.RingBuffer.AddInstantFlow: requires a positive window, because the source divides by it and would panic.
- Processor.FlowProcessor.ProcessFlow: requires a positive window, for the same reason.
- AlertManagers.AlertManager.ReloadConfig: does not model the warning about active alerts that a reload removes, which is logging.
- Episodes.EpisodesHoldOverRuns: reloads with duplicate keys are excluded, because there the statement is false; `Episodes.EpisodesHoldIff` states the exact condition.
- Alert.FiresAreSpaced: needs a clock that does not go back, which the source's monotonic clock guarantees.
