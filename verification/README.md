# Verified models of the proxy core

These Dafny modules model the hardest parts of the proxy core and prove what those parts are for:
the expiring map and its background goroutine, the dependency-ordered start of outbounds and DNS
transports, the outbound registry and the tags of providers, DNS rule matching with retries and
followed aliases, the DNS cache with its TTLs, round robin and in-flight locks, the service's
start/reload/close machine, the connection event stream, the racing dialers, the geosite file format,
and the ClientHello parser.

Code that changes state in place is a class or a method with loops, proved against a specification
function. Protocols with several goroutines (wake-up, in-flight locks, service lifecycle, dial race)
are state machines over their atomic steps; their theorems hold after every legal sequence of events.
Parsers are proved equal to reference functions on all inputs, and those functions are proved to
invert the writers. Clocks, random choices, the network, and the results of foreign calls are
parameters or free choices.

Where a natural property is false of the code, the code is modelled as it is, a lemma names an input
that shows the failure, and another states exactly when the property holds:

- clocks read before the lock: `TimedMap.OutOfOrderClocksLoseAValue` and `TimedMap.PlainTimedMapIff`,
  `TimedMap.EarlySweepIsVisible` and `TimedMap.SweepsAreInvisibleIff`,
  `WakeProtocol.LateStoreOversleeps` and `WakeProtocol.AlwaysInTimeIff`;
- endpoints reported as missing: `StartOrder.ListedEndpointReportedMissing` and
  `StartOrder.MissingReportsAreRightIff`, `StartOrder.MissingReportIsRightIff`;
- a replaced default: `OutboundManager.ReplacedDefaultGoesOn` and `OutboundManager.DefaultStaysListedIff`;
- an outbound reused for another option: `ProviderReuse.DuplicateTakesOverAnother`,
  `ProviderReuse.RenamedTakesOverAnother`, `ProviderReuse.UntaggedTakesOverAnother` and
  `ProviderReuse.ReuseIsRightIff`;
- lazily extended TTLs: `CacheTtl.LazyAnswersShowAnotherTTL` and `CacheTtl.NoLongerThanUpstreamIff`;
- an instance lost in a reload: `ServiceLifecycle.ErrorDuringReloadLeaks` and `ServiceLifecycle.NeverLeaksIff`;
- a start that was overtaken: `ServiceLifecycle.OvertakenStartMarksAnother` and
  `ServiceLifecycle.AlwaysHonestIff`;
- connections listed as open and closed: `ConnectionStream.ListedTwiceDisagrees` and
  `ConnectionStream.StrictClientAgreesIff`;
- lists announced too long in a ClientHello: `ClientHelloFormat.OverAnnouncedPanics` and
  `ClientHelloFormat.SegmentPanicsIff`.

`dafny verify dfyconfig.toml` checks the whole project.

## Model

| member | source | states |
|---|---|---|
| `ExpiringMap.Map.constructor` | common/expiringmap/map.go:60-72 | A new map is empty, open and satisfies the invariant: heap ordered by expiry, every entry at its recorded index, queue and map holding the same entries, mapPeak at least the map size. |
| `ExpiringMap.RootIsEarliest` | common/expiringmap/map.go:16-44 | In an ordered heap nothing expires before the root. |
| `ExpiringMap.Map.Swap` | common/expiringmap/map.go:24-28 | Exchanges two places and keeps every entry's index equal to its place; the entries are the same multiset. |
| `ExpiringMap.Map.Up` | common/expiringmap/map.go:16-44 | Sifting an entry up from a place that is wrong only towards the root restores the heap order, by permuting the entries and keeping their indices. |
| `ExpiringMap.Map.Down` | common/expiringmap/map.go:16-44 | Sifting down from a place that is wrong only at its own edges restores the order, or reports that nothing moved and the fault can only be above. |
| `ExpiringMap.Map.HeapPush` | common/expiringmap/map.go:30-34 | Pushing adds exactly the new entry and keeps heap order and indices. |
| `ExpiringMap.Map.HeapRemove` | common/expiringmap/map.go:36-44 | Removing place i takes out exactly that entry, gives it index -1, and keeps heap order and indices. |
| `ExpiringMap.Map.HeapPop` | common/expiringmap/map.go:36-44 | Popping takes out exactly the root and keeps heap order and indices. |
| `ExpiringMap.Map.HeapFix` | common/expiringmap/map.go:110-114 | After one entry changed its expiry, fixing its place restores the heap on the same entries. |
| `ExpiringMap.Map.Compact` | common/expiringmap/map.go:244-262 | Rebuilding the map changes no entry; the peak becomes zero, stays, or drops to the size exactly under the source's thresholds, and stays at least the size. |
| `ExpiringMap.Map.Remove` | common/expiringmap/map.go:238-242 | Removes exactly that entry's key from the abstract table and keeps the invariant. |
| `ExpiringMap.Map.RemoveExpired` | common/expiringmap/map.go:226-236 | The table afterwards is the old one without exactly the entries whose expiry is not after now. |
| `ExpiringMap.Map.StoreIf` | common/expiringmap/map.go:86-127 | One step of the timed-map specification, for every predicate and clock, open or closed; the wake-up is asked for exactly when a new entry goes into an empty queue. |
| `ExpiringMap.Map.LoadKey` | common/expiringmap/map.go:129-148 | One Load step of the specification, removal of the expired entry included. |
| `ExpiringMap.Map.LoadAndRefresh` | common/expiringmap/map.go:150-172 | One Refresh step of the specification. |
| `ExpiringMap.Map.Len` | common/expiringmap/map.go:174-178 | The number of entries still in the table. |
| `ExpiringMap.Map.Shut` | common/expiringmap/map.go:180-191 | Closing empties the table, once; the invariant stays. |
| `TimedMap.RunTracks` | common/expiringmap/map.go:82-172 | After every run the table holds exactly the last accepted writes that no call has yet found expired. |
| `TimedMap.OutputsAreExact` | common/expiringmap/map.go:82-172 | Every output of every run, with clock values in any order, is the one a history-only definition dictates. |
| `TimedMap.PlainTimedMapIff` | common/expiringmap/map.go:82-172 | For clocks in any order: a load at t finds a value exactly when the last accepted store or refresh of its key expires after t, and StoreIf sees an expired value as absent, throughout a run exactly when no call in it is late, that is, served after a later clock found its value expired, in a way its condition can tell. |
| `TimedMap.MonotoneIsPunctual` | common/expiringmap/map.go:82-172 | In particular when clocks do not go back. |
| `TimedMap.SweepsAreInvisibleIff` | common/expiringmap/map.go:193-236 | For clocks in any order: deleting every background sweep from a run changes no caller's result exactly when no call is late on account of a sweep alone. |
| `TimedMap.SweepsAreInvisible` | common/expiringmap/map.go:193-236 | In particular in every run without late calls. |
| `TimedMap.EarlySweepIsVisible` | common/expiringmap/map.go:193-236 | Counterexample: a sweep with a later clock, served first, takes a value from a load with an earlier one. |
| `TimedMap.OutOfOrderClocksLoseAValue` | common/expiringmap/map.go:129-143 | Counterexample: the clock is read before the lock, so a load with a later clock served first takes away a value that the earlier clock should still find. |
| `WakeProtocol.StepKeepsInv` | common/expiringmap/map.go:117-126 | Every step of storers, closers and the runner keeps the hand-over invariant. |
| `WakeProtocol.ReachableInv` | common/expiringmap/map.go:180-224 | The invariant holds after every interleaving. |
| `WakeProtocol.NoLostWakeUp` | common/expiringmap/map.go:193-224 | In every interleaving, a runner blocked with no token and nobody between unlock and notify means an empty queue and an open map. |
| `WakeProtocol.SleepsNoLongerThanDue` | common/expiringmap/map.go:193-224 | A sleeping runner's deadline is at most any queued expiry plus that store's wait for the lock, or the moment the wait was computed if later, plus the time from computing the wait to starting the timer. |
| `WakeProtocol.InTimeStepIff` | common/expiringmap/map.go:86-224 | From a state in which the runner will be awake for every queued expiry, a step keeps that exactly if a new expiry it queues is not before the deadline, and a timer it starts is not too late. |
| `WakeProtocol.AlwaysInTimeIff` | common/expiringmap/map.go:86-224 | Over every run: the runner never sleeps past a queued expiry exactly when every step is so. |
| `WakeProtocol.AtomicDeadline` | common/expiringmap/map.go:193-224 | When clock reads are atomic with their locked sections, the deadline is no later than every queued expiry. |
| `WakeProtocol.LateStoreOversleeps` | common/expiringmap/map.go:86-90 | Counterexample without atomic clock reads: a store that waited for the lock is slept past. |
| `WakeProtocol.CloseReachesEnd` | common/expiringmap/map.go:180-191 | After Close has notified, the runner always has a step, each one brings it nearer its end, and no other event takes it back. |
| `WakeProtocol.RunRefines` | common/expiringmap/map.go:86-236 | In every interleaving the queue and the closed flag are what the timed map makes of the same stores, loads, refreshes, sweeps and close in the same order. |
| `WakeProtocol.NotifyOwedIff` | common/expiringmap/map.go:106-126 | A store owes a notify exactly when its entry is new and then the only one. |
| `WakeProtocol.CanStepIff` | common/expiringmap/map.go:193-224 | The goroutine has a step exactly when it is running, its timer has run out or a wake is there for it, and no caller takes a step away from it. |
| `WakeProtocol.QueuedMeansWork` | common/expiringmap/map.go:193-224 | In every run, while anything is queued the goroutine has a step, or gets one from a notify on its way, unless it sleeps unwoken before its deadline. |
| `WakeProtocol.LockSweeps` | common/expiringmap/map.go:195-206 | A sweep takes exactly the entries due by its clock and keeps all others as they are. |
| `WakeProtocol.StepsShrink` | common/expiringmap/map.go:193-224 | Every step of the goroutine but the locked one brings it nearer to the lock: a timer or a wake leads out of the sleep. |
| `WakeProtocol.ThreeStepsSweep` | common/expiringmap/map.go:193-236 | In every run, from any state: three steps of the goroutine whose sweeps read the entry's expiry or a later clock remove a queued entry, whatever callers do but write that key again. |
| `StartOrder.Sweep` | adapter/outbound/manager.go:96-143 | One pass starts only ready tags, each after its dependencies; a pass that starts nothing proves the rest is stuck; a failing Start is the last of the order. |
| `StartOrder.StartAll` | adapter/outbound/manager.go:96-166 | Terminates, and succeeds exactly when tags are distinct, every dependency is listed, the graph has no cycle and no Start fails; every tag is then started once, after its dependencies; every report comes from the lint walk and is truthful when the tag map lists listed outbounds. |
| `StartOrder.StartedIsForced` | adapter/outbound/manager.go:99-143 | What gets started does not depend on the list's order: it lies in every set closed under readiness. |
| `StartOrder.CompleteIsAcyclic` | adapter/outbound/manager.go:99-143 | A complete start order rules out every dependency cycle. |
| `StartOrder.CompleteIsClosed` | adapter/outbound/manager.go:99-143 | A complete start order rules out every unlisted dependency. |
| `StartOrder.StuckHasCycle` | adapter/outbound/manager.go:144-163 | If all dependencies are listed, being stuck proves a cycle. |
| `StartOrder.Lint` | adapter/outbound/manager.go:147-163 | The walk terminates and ends in one of the two reports. |
| `StartOrder.LintIsTruthful` | adapter/outbound/manager.go:144-163 | "Circular" comes with a path that closes a real cycle; "not found" only for a tag absent from the tag map, wanted by a listed outbound. |
| `StartOrder.FullMapBlamesTheMissing` | dns/transport_manager.go:124-143 | For DNS transports, whose map covers the list, "not found" names a tag that is not listed, and anything else is a cycle. |
| `StartOrder.ListedEndpointReportedMissing` | adapter/outbound/manager.go:147-163 | Counterexample: endpoints are in the list but not in the tag map, so a blocked endpoint is reported as not found. |
| `StartOrder.MissingReportsAreRightIff` | adapter/outbound/manager.go:147-163 | When stuck, no node's walk reports a listed tag as not found, exactly when every unstarted node's first unstarted dependency is itself, in the tag map, or not listed: no other endpoint. |
| `StartOrder.MissingReportIsRightIff` | adapter/outbound/manager.go:144-163 | The one report that is made is right exactly when the path of first unstarted dependencies from its node does not end at a node whose next one is listed but not in the tag map. |
| `OutboundManager.CreateAgrees` | adapter/outbound/manager.go:280-298 | Registering, new or in place of another, keeps list and tag map holding the same outbounds under their own tags. |
| `OutboundManager.RemoveAgrees` | adapter/outbound/manager.go:217-232 | So does removing. |
| `OutboundManager.CloseAgreesIff` | adapter/outbound/manager.go:168-193 | Close leaves the tag map behind, so the agreement survives it exactly when the list was empty. |
| `OutboundManager.DefaultStaysListedIff` | adapter/outbound/manager.go:280-308 | A registered default is still registered after Create exactly when the new outbound has another tag or is the configured default; otherwise the replaced one stays the default. |
| `OutboundManager.ReplacedDefaultGoesOn` | adapter/outbound/manager.go:280-308 | Counterexample: with no configured default, replacing the first outbound leaves the replaced one as the default. |
| `OutboundManager.AgreementFeedsTheScheduler` | adapter/outbound/manager.go:81-83 | The agreement gives the scheduler what its truthful reports rest on, for any endpoints. |
| `OutboundManager.NotedMembers` | adapter/outbound/manager.go:299-302 | After Create the outbound is a dependent of exactly its dependencies and no other dependent is lost. |
| `OutboundManager.ForgettingUndoesNotingIff` | adapter/outbound/manager.go:245-254 | For one dependency, Remove restores what Create recorded exactly when there was no empty list and no earlier mention. |
| `OutboundManager.Manager.constructor` | adapter/outbound/manager.go:36-45 | A new manager is empty, not started, and in agreement. |
| `OutboundManager.Manager.Create` | adapter/outbound/manager.go:261-310 | The whole new state on success, with the new outbound as the default exactly when it has the configured tag, or none is configured and there was none; nothing changed on any error, which error in which case, and a panic exactly when the mapped outbound is not in the list, which agreement excludes. |
| `OutboundManager.DefaultOfRun` | adapter/outbound/manager.go:303-308 | After any registrations on a new manager, a configured default is the last outbound made under its tag or absent, and an unconfigured one is the first outbound made. |
| `OutboundManager.Manager.CreateAll` | adapter/outbound/manager.go:261-310 | So over any sequence of Create calls, failing ones included; before the start a call fails only for want of a tag or an outbound. |
| `OutboundManager.CompleteStartsInOrder` | adapter/outbound/manager.go:96-143 | A complete start order starts every outbound, and each one after everything it depends on. |
| `OutboundManager.Manager.Remove` | adapter/outbound/manager.go:217-259 | The outbound leaves list and map even when the call ends in the "depended by" error; the default moves to the first of the list only if it was the removed one; which error in which case. |
| `OutboundManager.Manager.SettleDefault` | adapter/outbound/manager.go:58-79 | The default is kept, found among the endpoints, or the fallback, which is then registered; which failure in which case; agreement kept. |
| `OutboundManager.Manager.StartStage` | adapter/outbound/manager.go:51-83 | Succeeds exactly when a default is found and the outbounds with the endpoints have distinct tags, listed dependencies, no cycle and no failing Start; the order is then complete and valid. |
| `OutboundManager.Manager.Close` | adapter/outbound/manager.go:168-193 | Empties the list of a started manager and touches neither the tag map nor the default. |
| `ProviderTags.CandidatesDiffer` | adapter/provider/adapter.go:130-132 | Two different numbers give two different candidate names. |
| `ProviderTags.TakenAreFew` | adapter/provider/adapter.go:130-132 | Pigeonhole: a finite set of seen names cannot hold more candidates than it has elements. |
| `ProviderTags.FirstFree` | adapter/provider/adapter.go:129-132 | The renaming loop terminates within one more attempt than there are seen names, at the first candidate not seen. |
| `ProviderTags.LiteralNames` | adapter/provider/adapter.go:119-140 | Names as written: provider, slash and tag or place, and a number in parentheses from the second on. |
| `ProviderTags.ResolvedIsDistinct` | adapter/provider/adapter.go:119-140 | Tags resolved from the options are pairwise distinct. |
| `ProviderTags.ResolvedIsUnique` | adapter/provider/adapter.go:119-140 | The options determine the tags. |
| `ProviderTags.KeptAsWrittenIff` | adapter/provider/adapter.go:133-135 | An option keeps its own name exactly when no earlier option ended up with it. |
| `ProviderTags.ResolveTags` | adapter/provider/adapter.go:119-140 | One tag per option, each the first free candidate after the earlier ones, pairwise distinct; the endpoint form differs only in the automatic name. |
| `ProviderTags.Adapter.RemoveUseless` | adapter/provider/adapter.go:467-487 | Unregisters exactly the provider's tags that are no longer listed. |
| `ProviderTags.UpdatedOneSays` | adapter/provider/adapter.go:155-178 | What one option comes to, case by case: the registered outbound, the endpoint of its tag, a new one, or nothing. |
| `ProviderTags.Adapter.UpdateOne` | adapter/provider/adapter.go:155-178 | The option comes to the registered outbound when it is this provider's and unchanged, else to a new one if it can be built, else to nothing; no other tag changes. |
| `ProviderTags.Adapter.Rebuild` | adapter/provider/adapter.go:155-181 | The new list is exactly what the options come to, in option order, and agrees with the new tag map and the manager. |
| `ProviderTags.Adapter.UpdateOutbounds` | adapter/provider/adapter.go:142-190 | From the state before the call: distinct tags, list exactly what the options come to in option order, agreement of list and tag map, dropped tags gone from the manager, all foreign tags untouched. |
| `ProviderReuse.ReuseIsRightIff` | adapter/provider/adapter.go:119-178 | If every active outbound was built from its own option, then no update to whatever options, tagged, untagged or renamed, gives an option an outbound built from another, exactly when in the old options whoever holds a name that the last option of a tag can get equals that option, and whoever holds a name that an untagged option can get equals the last untagged one. |
| `ProviderReuse.RightReuseCarries` | adapter/provider/adapter.go:155-181 | An update without such a reuse leaves every outbound built from its own option, as the next update needs it. |
| `ProviderReuse.DuplicateTakesOverAnother` | adapter/provider/adapter.go:150-158 | Counterexample: of two old options with one tag the first holds the name and the last is compared, so the update gives the last what the first built. |
| `ProviderReuse.RenamedTakesOverAnother` | adapter/provider/adapter.go:150-158 | Counterexample: a new option that is renamed gets the name, and the outbound, of another old one. |
| `ProviderReuse.UntaggedTakesOverAnother` | adapter/provider/adapter.go:124-128 | Counterexample: untagged options are named by their place and compared with the last untagged one. |
| `CnameChain.FinishedChainIsUnique` | dns/router.go:514-550 | At most one simple chain of first CNAMEs from a name reaches an end. |
| `CnameChain.LoopHasNoEnd` | dns/router.go:533-537 | A chain that runs back into itself has no end. |
| `CnameChain.ChaseFindsEnd` | dns/router.go:520-543 | The loop terminates and finds the end of the chain exactly if there is one. |
| `CnameChain.FirstCnameIff` | dns/router.go:514-530 | The next name is the target of the first CNAME record of that name. |
| `CnameChain.LastTargetIsChainEnd` | dns/router.go:514-550 | A non-empty result is the end of the simple chain from the name, not the name itself, with no CNAME and no address of its own; and every such end is the result. |
| `CnameChain.FindLastTarget` | dns/router.go:514-550 | The loop over records and visited names computes that result on any record list. |
| `CnameChain.AliasStep` | dns/client.go:840-859 | Following an alias is refused exactly when its target is the source or already in the chain; otherwise the chain strictly grows. |
| `DnsRules.MatchDNS` | dns/router.go:130-227 | The loop starts after the rejected rule and returns the right match: the first rule that is enabled, allowed for the query type, matching, and rejects, answers or names a usable server; that server or the default; each option from the last patch on the way, else the caller, else the server. |
| `DnsRules.MatchedRight` | dns/router.go:130-227 | The recursive match is right in that sense, read off the rules' own fields. |
| `DnsRules.RightMatchIsUnique` | dns/router.go:130-227 | There is only one right match. |
| `DnsRules.MatchFacts` | dns/router.go:130-227 | A matched rule applies and decides; no transport exactly for reject and predefined actions; a fake-IP server only when allowed, and then uncached. |
| `DnsRouter.RewritingKeepsTargets` | route/rule/rule_action.go:568-578 | Rewriting a predefined answer keeps its CNAME targets. |
| `DnsRouter.FollowingShrinks` | dns/router.go:552-599 | Each followed alias is new in a finite universe of targets, which strictly shrinks. |
| `DnsRouter.TurnFacts` | dns/router.go:229-300 | A retry strictly raises the rule index and needs an address-limited rule that matched; a follow strictly grows the chain. |
| `DnsRouter.ExchangeLoop` | dns/router.go:229-300 | The loop and the recursion through aliases terminate under (targets left, rules left), compute the reference resolution, and end in the outcome that the events, the rules and the upstream's replies alone explain. |
| `DnsRouter.ResolutionIsExplained` | dns/router.go:229-300 | Every resolution is explained: each question goes where the right match says; a reply is handed on as it is unless an address limit rejected it; a reject rule gives a drop, or its own code, the configured one or REFUSED; a predefined answer is its records, wildcards filled in, and exactly the alias answer's records of the asked type and CNAMEs in order when that succeeded. |
| `DnsTrace.OutcomeOfAsks` | dns/router.go:275-300 | With no alias followed, all questions but the last were rejected by an address limit; the last reply is the outcome, unless it was rejected too and a later rule decided. |
| `DnsTrace.ExplainedOnce` | dns/router.go:229-300 | The rules and the upstream leave no choice: at most one outcome and one list of events is explained. |
| `DnsRouter.Decided` | dns/router.go:243-273 | A reject rule or a predefined answer, with its alias followed, gives the reference turn. |
| `DnsRouter.ResolutionIsOrderly` | dns/router.go:229-300 | In the trace of every resolution, consecutive questions at one depth raise the rule index after an address-limited rule, and each follow opens a deeper loop. |
| `DnsRouter.AsksAreBounded` | dns/router.go:229-300 | Upstream is asked at most once per remaining rule plus the default, for each alias not yet in the chain. |
| `DnsRouter.AliasesAreNew` | dns/router.go:552-570 | No alias is followed twice, nor one already in the chain. |
| `DnsRouter.AliasesAvoidFakeIP` | dns/router.go:570-590 | Behind an alias no rule sends a query to a fake-IP server. |
| `DnsRouter.PredefinedComesFirst` | dns/router.go:552-599 | A predefined rule answers with its own code and its own records first; following its alias only appends records of the asked type and CNAMEs. |
| `RoundRobin.RotatedIsPermutation` | dns/client.go:36-42 | Rotating keeps every element. |
| `RoundRobin.PermutationIff` | dns/client.go:62-95 | The result is a permutation of the stored answers exactly when every record's Go type and header type let it come out once. |
| `RoundRobin.HonestMeansPermutation` | dns/client.go:62-95 | With headers that tell the type, it always is. |
| `RoundRobin.FixedAnswersAreHonest` | dns/client.go:875-911 | The answers that transports build themselves have such headers. |
| `RoundRobin.RotationOrder` | dns/client.go:62-95 | Other records keep their relative order, and each address family comes out rotated by its own index. |
| `RoundRobin.EveryAddressEveryPlaceOnce` | dns/client.go:36-42 | Rotating n > 1 addresses by the next n indices puts every address at every place in exactly one of the rotations. |
| `RoundRobin.HitsAreFair` | dns/client.go:62-95 | As many consecutive hits of one message as it has A records show each A record at each place among the A records, the first included, exactly once; likewise AAAA. |
| `RoundRobin.CachedMsg.Hits` | dns/client.go:62-95 | Consecutive hits advance the indices one by one, keep them in range, and are fair in that sense. |
| `RoundRobin.CachedMsg.Hit` | dns/client.go:54-95 | One hit advances both indices, keeps them in range, and returns the stored message with its answers rotated by them. |
| `RoundRobin.Remaining` | dns/client.go:44-52 | What is left after removing one header type, in order. |
| `CacheTtl.LowestIsLeastPositive` | dns/client.go:515-527 | The scan finds the least positive TTL of the records, and zero only when there is none. |
| `CacheTtl.ChooseTTL` | dns/client.go:509-535 | One TTL: the SOA's for negative answers, else the least, clamped to the configured range, unless a rule rewrites it. |
| `CacheTtl.NegativeIsSmaller` | dns/client.go:227-239 | The first SOA limits a negative answer to the smaller of its own TTL and its minimum. |
| `CacheTtl.UpstreamIsRight` | dns/client.go:509-527 | An empty answer with a positive such limit takes it; any other takes the least positive TTL of its records other than OPT, or zero. |
| `CacheTtl.StaleIsMadeStale` | dns/client.go:759-780 | A stale answer has the same records at five seconds, and one more OPT exactly when there was none. |
| `CacheTtl.StampedIsUniform` | dns/client.go:536-543 | Afterwards every record but OPT carries that TTL. |
| `CacheTtl.WrappedCountdown` | dns/client.go:781-791 | The 32-bit subtraction restores the seconds left, whether they are fewer or more than the stored TTL. |
| `CacheTtl.DownMsgUniform` | dns/client.go:747-800 | A message with one TTL is counted down to one TTL, the seconds left. |
| `CacheTtl.RotationUniform` | dns/client.go:702-708 | Round robin keeps one common TTL. |
| `CacheTtl.Client.constructor` | dns/client.go:137-173 | The configured range of TTLs, with the source's defaults and its repair of a maximum below the minimum. |
| `CacheTtl.Client.Store` | dns/client.go:626-655 | The entry's whole lifetime: fresh until now plus the TTL, expired at that plus the lazy extension; a zero TTL is not stored; other keys stay. |
| `CacheTtl.Client.Finish` | dns/client.go:509-546 | One TTL on the whole response, which otherwise keeps its code and all records and is stored with its lifetime exactly when caching is allowed and the TTL is positive. |
| `CacheTtl.Client.Load` | dns/client.go:710-803 | Missing, expired and removed, stale with the fixed TTL, or fresh with every counted record at exactly the whole seconds left to expiry modulo 2^32; record by record the stored message in kind, name, type and data, its answers rotated by the next index when round robin is on. |
| `CacheTtl.FieldIsExactIff` | dns/client.go:781-800 | The 32-bit field holds the seconds left exactly while they are below 2^32. |
| `CacheTtl.FreshHitTTL` | dns/client.go:736-801 | A fresh hit shows the lazy extension plus the whole seconds the answer itself has left. |
| `CacheTtl.NoLongerThanUpstreamIff` | dns/client.go:736-801 | So the 32-bit TTL shown is at most what the answer has left exactly without a lazy extension, or with one so long that the two together wrap. |
| `CacheTtl.LazyAnswersShowAnotherTTL` | dns/client.go:626-655 | Counterexamples: ten seconds and an hour of extension show 3610; ten seconds and the longest extension show 9. |
| `CacheTtl.OptFieldKeptIff` | dns/client.go:759-800 | The countdown leaves OPT records alone; the stale path overwrites their flags unless they happen to equal the stale TTL. |
| `InFlight.ReachableInv` | dns/client.go:336-402 | In every interleaving of Exchange calls, lock owners, channels and refreshes stay in their discipline. |
| `InFlight.OneOwnerPerKey` | dns/client.go:336-402 | At most one Exchange owns a key's lock channel. |
| `InFlight.ClosedOnce` | dns/client.go:360-402 | No channel is closed twice. |
| `InFlight.WaitersAreWoken` | dns/client.go:360-402 | Every waited-on channel is closed, or its owner is still running and its next step leads to closing it. |
| `InFlight.WokenAfterOwner` | dns/client.go:360-402 | And nobody is woken while the channel's owner is still at work. |
| `InFlight.EntersBehindHolder` | dns/client.go:360-402 | In every interleaving a call that enters waits on the channel of whoever holds its key, and otherwise holds the key itself. |
| `InFlight.EveryStepMovesOn` | dns/client.go:336-402 | Every step moves its own call on and touches no other, so none takes more than three. |
| `InFlight.EndsIff` | dns/client.go:336-402 | A call ends exactly by giving up its wait, returning from its own query, closing its channel, ending its refresh, or finding one under way. |
| `InFlight.OneRefreshPerKey` | dns/client.go:336-358 | At most one refresh per key runs, and its mark is set exactly while it does. |
| `InFlight.NothingLeftBehind` | dns/client.go:336-402 | When every call has returned, no lock, no open channel and no mark is left. |
| `ServiceLifecycle.StepKeepsInstance` | daemon/started_service.go:168-248 | Every step of start, reload, close and error, with the lock dropped in between, keeps the instance invariant. |
| `ServiceLifecycle.ReachableSound` | daemon/started_service.go:168-248 | It holds after every interleaving, together with the lock discipline. |
| `ServiceLifecycle.RunningHasInstance` | daemon/started_service.go:168-248 | Whenever the lock is free and the status is STARTING or STARTED there is an instance. |
| `ServiceLifecycle.RunningIsOpen` | daemon/started_service.go:168-248 | And then nobody has closed that instance, and no reload is closing it. |
| `ServiceLifecycle.LockIsBalanced` | daemon/started_service.go:114-248 | Every call unlocks exactly what it locked, on every path. |
| `ServiceLifecycle.LeakIff` | daemon/started_service.go:184-189 | An instance gets lost exactly at a step that overwrites an open one. |
| `ServiceLifecycle.NeverLeaksIff` | daemon/started_service.go:168-248 | Over every run: no instance is ever unaccounted for exactly when no step overwrites an open one. |
| `ServiceLifecycle.QuietRunsLoseNothing` | daemon/started_service.go:168-248 | Unless an error is reported while a reload is closing the old instance, every instance ever built is current, held by a call, or closed. |
| `ServiceLifecycle.ErrorDuringReloadLeaks` | daemon/started_service.go:168-248 | Counterexample: an error in that window lets a second reload in, and the first instance built is never closed. |
| `ServiceLifecycle.OvertakenStartMarksAnother` | daemon/started_service.go:195-208 | Counterexample: a start overtaken by a close and a second start marks the second one STARTED. |
| `ServiceLifecycle.OnlyMarksCanLie` | daemon/started_service.go:168-248 | No step but the last status update of a start can make STARTED untrue. |
| `ServiceLifecycle.ReachableWatched` | daemon/started_service.go:168-248 | After every interleaving: each instance has at most one call responsible for starting it, which has not run its Start if it still has to, and a STARTING service's instance has run, is still to be started, or is being replaced. |
| `ServiceLifecycle.MarkIsHonestIff` | daemon/started_service.go:195-208 | In every reachable state, marking the service STARTED is right exactly when no call still has to start the current instance, or to report that its Start failed. |
| `ServiceLifecycle.AlwaysHonestIff` | daemon/started_service.go:168-248 | Over every run: STARTED is true all along exactly when every mark comes in its turn. |
| `ServiceLifecycle.FatalIff` | daemon/started_service.go:120-248 | A failed build, start or close and a reported error always make the status FATAL, and nothing else does. |
| `ServiceLifecycle.FatalMeansFailed` | daemon/started_service.go:120-248 | Over every run: a FATAL status goes back to such a failure and has been FATAL since. |
| `ConnectionStream.Subscriber.BuildInitialState` | daemon/started_service.go:774-800 | The first message: the open connections, then the closed ones; the snapshot holds exactly the counters read, and the client's counters equal the snapshot's. |
| `ConnectionStream.Subscriber.ApplyNotice` | daemon/started_service.go:802-840 | A notice adds or drops exactly its connection, on both sides alike, and keeps right counters right. |
| `ConnectionStream.NoticeStaysInStep` | daemon/started_service.go:802-840 | A notice keeps client and server in step, and right every connection that was right or is new. |
| `ConnectionStream.Subscriber.ObserveOne` | daemon/started_service.go:847-906 | One connection at a tick: new, moved, gone quiet, still quiet, or counters that went back. |
| `ConnectionStream.ObserveExactIff` | daemon/started_service.go:847-906 | A tick keeps a connection's replayed counters equal to the snapshot exactly when its counters did not go back; others are untouched. |
| `ConnectionStream.ObserveSays` | daemon/started_service.go:847-906 | A tick tells the client what a connection moved, or one zero when it stopped moving, or nothing. |
| `ConnectionStream.NoticeSays` | daemon/started_service.go:802-840 | A notice gives the client its connection or takes it away, and touches no other. |
| `ConnectionStream.NewShowsItsReading` | daemon/started_service.go:802-870 | A NEW shows the totals of its own reading; the drift is what moved between that and the snapshot. |
| `ConnectionStream.OpenShowsReadings` | daemon/started_service.go:774-790 | So does every NEW of the first message. |
| `ConnectionStream.Subscriber.BuildTrafficUpdates` | daemon/started_service.go:842-938 | After every tick the snapshot holds exactly the counters read, the set a client obtains by replay equals the active ids, and each connection's replayed counters are right exactly if they did not go back. |
| `ConnectionStream.Subscriber.Serve` | daemon/started_service.go:774-938 | A whole subscription: after the first message and any notices and ticks the client holds exactly the live connections, and unless a counter went back its counters are the last ones read; a client that takes a NEW with a closing time for a closing holds the same connections once none of them is one first listed as closed. |
| `ConnectionStream.StrictLacksOnlyListed` | experimental/libbox/command_types.go:112-140 | Such a client never holds more, and lacks only connections that were listed as closed. |
| `ConnectionStream.AnsweredAreSeparated` | daemon/started_service.go:847-906 | The subscriber's invariant, kept by every message, means that between two zero updates of a connection there is always one that moved data. |
| `ConnectionStream.ShownIsClientPlusDrift` | daemon/started_service.go:847-906 | Totals shown from NEW differ from the snapshot by what moved between the two readings of the counters, and by nothing else. |
| `ConnectionStream.StrictClientAgreesIff` | daemon/started_service.go:774-800 | A client that takes a NEW with a closing time for a closing agrees with the server after the first message exactly when no connection was listed as both. |
| `ConnectionStream.ListedTwiceDisagrees` | daemon/started_service.go:774-800 | Counterexample: a connection that closed between the two listings. |
| `DialRace.ReachableInv` | common/dialer/default_parallel_interface.go:25-88 | The state of every racer, the loop and the timer stays consistent in every schedule. |
| `DialRace.AllDialAtFirst` | common/dialer/default_parallel_network.go:86-105 | At first every primary dials, fallbacks only in a fast dial, and a timer runs exactly when there are fallbacks to hold back. |
| `DialRace.UnlaunchedIff` | common/dialer/default_parallel_network.go:86-129 | In every schedule exactly the fallbacks wait, and only until the one launch. |
| `DialRace.HurriedMustFireAgain` | common/dialer/default_parallel_network.go:106-129 | A failed primary stops a pending timer and resets it, and what had fired is not taken twice. |
| `DialRace.ConnectionsAreConserved` | common/dialer/default_parallel_interface.go:25-88 | Every opened connection is the returned one, or closed, or still held by its racer, and only one of these. |
| `DialRace.NothingLeaks` | common/dialer/default_parallel_network.go:59-130 | Once the dial has returned and its racers are through, what was opened is what was closed plus what was returned. |
| `DialRace.FallbackLaunchedOnce` | common/dialer/default_parallel_network.go:106-129 | Fallback racers are launched at most once, whatever the timer's Stop reports. |
| `DialRace.ErrorMeansAllFailed` | common/dialer/default_parallel_interface.go:75-88 | An error is returned only after every primary and fallback racer was launched and failed. |
| `DialRace.LoopIsNeverStuck` | common/dialer/default_parallel_network.go:106-129 | While the dial loops, every racer that has not failed is on its way or has a timer that will launch it, and there is such a racer. |
| `DialRace.SchedulesAreBounded` | common/dialer/default_parallel_interface.go:67-88 | No schedule has more than 3n + 2 steps for n racers. |
| `DialRace.EveryScheduleEndsClean` | common/dialer/default_parallel_interface.go:99-148 | A schedule that cannot go on has returned, leaves no racer blocked, and leaves open only the returned connection; fast fallback included. |
| `Uvarint.RoundTripIff` | common/geosite/reader.go:149-153 | A written length is read back, with whatever follows it, exactly when it fits 64 bits. |
| `Uvarint.DecodedIs64Bits` | common/geosite/reader.go:62-65 | Whatever the bytes, a length that is read fits 64 bits. |
| `Geosite.KeysAreUnique` | common/geosite/writer.go:11-15 | The sorted list of a set of codes is unique. |
| `Geosite.WriteIsDeterministic` | common/geosite/writer.go:10-64 | So the file does not depend on the order in which the map is walked. |
| `Geosite.WriteContent` | common/geosite/writer.go:17-31 | The content buffer and, for every code, the offset of its items in it. |
| `Geosite.WriteEntries` | common/geosite/writer.go:43-56 | The metadata entries in key order. |
| `Geosite.Write` | common/geosite/writer.go:10-64 | The bytes of the file for the sorted codes. |
| `GeositeFormat.LiteralFile` | common/geosite/writer.go:10-73 | A file of one code with one item, byte by byte. |
| `GeositeFormat.StringRoundTrip` | common/geosite/writer.go:66-73 | A written string is read back and nothing more is consumed. |
| `GeositeFormat.ItemsRoundTrip` | common/geosite/reader.go:114-128 | A code's items are read back in order from its bytes. |
| `GeositeFormat.EntryRoundTripIff` | common/geosite/reader.go:74-88 | A metadata entry is accepted exactly if both its numbers fit 31 bits, and refused under its own name otherwise. |
| `GeositeFormat.OversizedIsRefused` | common/geosite/reader.go:86-88 | The first entry over the limits is the one complained about. |
| `GeositeFormat.HeaderRoundTripIff` | common/geosite/reader.go:52-97 | A written file opens exactly when every offset and count fits 31 bits, with the written tables and the content starting where the header ends. |
| `GeositeFormat.AnswerRoundTrip` | common/geosite/reader.go:99-130 | Reading at the content's start plus the stored offset gives exactly the items written for the code; other codes are unknown. |
| `Geosite.BufReader.ReadByte` | common/geosite/reader.go:136-147 | For every way of filling the buffer the bytes come in file order, and the counter follows the file position. |
| `Geosite.BufReader.ReadString` | common/geosite/reader.go:149-164 | The string parser on the remaining bytes, errors included. |
| `Geosite.BufReader.ReadHeader` | common/geosite/reader.go:52-97 | The metadata parser on the remaining bytes, errors included. |
| `Geosite.NewReader` | common/geosite/reader.go:37-50 | Fails exactly as the metadata does; else keeps its tables, the position where the content starts as bytes counted minus bytes buffered, and lists every code once. |
| `Geosite.Reader.Read` | common/geosite/reader.go:99-130 | Whatever was read before, the answer is a function of the file, the tables and the code. |
| `Geosite.WriteOpenRead` | common/geosite/geosite_test.go:12-34 | Write, open, then read any codes in any order and any number of times: it opens exactly within the 31-bit limits, lists exactly the codes, and every answer is what was written. |
| `Geosite.ItemsWhereverPut` | common/geosite/reader.go:99-111 | A file put anywhere in the data has its items at the same places counted from where it starts. |
| `ClientHelloFormat.SegmentRoundTrip` | common/ja3/parser.go:53-82 | Parsing inverts serialisation for every valid ClientHello record and whatever follows it, repeated extensions included. |
| `ClientHelloFormat.HelloIsRead` | common/ja3/parser.go:53-288 | With one extension of each type: exactly its version, suites, extension types in order, groups, point formats, versions, signature algorithms and name, and nothing for what it does not have. |
| `ClientHelloFormat.BodyRoundTrip` | common/ja3/parser.go:197-278 | Each extension body yields what was put into it. |
| `ClientHelloFormat.RecordBytes` | common/ja3/parser.go:53-110 | Where type, versions, lengths, random and session stand in a record, byte by byte. |
| `ClientHelloFormat.NameAcceptedIff` | common/ja3/parser.go:198-219 | Which server-name bodies are accepted, and the name they give; the list length is ignored. |
| `ClientHelloFormat.GroupsAcceptedIff` | common/ja3/parser.go:220-241 | Which group lists are accepted, and every group they give. |
| `ClientHelloFormat.FormatsAcceptedIff` | common/ja3/parser.go:242-261 | Which point-format lists are accepted, and what they give. |
| `ClientHelloFormat.VersionsAre43` | common/ja3/parser.go:262-269 | A literal supported-versions extension, by its number. |
| `ClientHelloFormat.AlgorithmsAre13` | common/ja3/parser.go:270-277 | A literal signature-algorithms extension, by its number. |
| `ClientHelloFormat.AcceptedIsTiled` | common/ja3/parser.go:179-280 | Any extension bytes that are accepted are a row of type-length-body blocks, and the reported types are theirs in order. |
| `ClientHelloFormat.SegmentIsFramed` | common/ja3/parser.go:53-152 | Any bytes that get the parser as far as the extensions are a record that holds a framed handshake, and what follows it. |
| `ClientHelloFormat.BodyPanicsIff` | common/ja3/parser.go:262-277 | For any body: a slice leaves its bounds exactly for a list of versions or algorithms whose announced length, rounded up to even, exceeds the body. |
| `ClientHelloFormat.BlocksPanicIff` | common/ja3/parser.go:179-280 | For any extension bytes: the loop panics exactly on accepted blocks followed by one that overruns so. |
| `ClientHelloFormat.SegmentPanicsIff` | common/ja3/parser.go:53-288 | For any bytes at all: parsing panics exactly on a framed record whose extensions have such an overrun. |
| `ClientHelloFormat.OverAnnouncedPanics` | common/ja3/parser.go:262-269 | Counterexample: a record whose versions extension announces two versions and holds one. |
| `ClientHelloFormat.AdvanceIff` | common/ja3/parser.go:279-279 | The 16-bit sum of header and length is exact except for the last four lengths, which no record can hold. |
| `ClientHello.ReadUnchecked` | common/ja3/parser.go:266-277 | The loop of step two over an unchecked list leaves the slice exactly when the list, rounded up to pairs, is longer than the body. |
| `ClientHello.ReadBlocks` | common/ja3/parser.go:155-288 | The extension loop terminates, its 16-bit cursor never wraps within a record, and it computes the reference parse. |
| `ClientHello.ClientHello.ReadExtensions` | common/ja3/parser.go:155-288 | Fields are assigned only after the whole block was accepted; the announced length is only a lower bound. |
| `ClientHello.ClientHello.ReadHandshake` | common/ja3/parser.go:85-152 | The handshake parse, with version and suites already assigned when a later part is refused. |
| `ClientHello.ClientHello.ReadSegment` | common/ja3/parser.go:53-82 | For any bytes at all: the outcome and the whole resulting object of the reference parse. |

## Left out

- JSON options, registries, command-line code, sockets, platform code, gRPC plumbing, logging and exact error texts.
- Real-time liveness: state safety, enabledness and bounds on steps only.
- `container/heap` is not part of this model's source; its Push, Pop, Remove and Fix are modelled from their documented sift-up and sift-down.
- Internals of the LRU cache: a map without eviction; entries evicted early are only further misses.
- TTL seconds are whole numbers: the source goes through floating-point seconds, whose rounding is not modelled.
- Integer widths other than the 16-, 31-, 32- and 64-bit ones named above.
- RoundRobin.CachedMsg.Hit: sequential hits only; concurrent hits share atomics in the source and may repeat a rotation.
- Rule matching itself and address-limit checks are free predicates; a retry forgets the route options of the rules before the rejected one, as in the source.
- The extended-error option that a stale answer adds inside its OPT record.
- DNS upstream answers, truncation, padding, client subnet, reverse mapping, RDRC storage, Lookup and Exchange wrappers.
- The default-replacement branch of the DNS transport Remove, and the later start stages of both managers.
- The "already started" panic of Start, and the concurrent use of a manager between its locked sections.
- UpdateEndpoints: the same code as UpdateOutbounds over another manager.
- Health checks, provider callbacks and detour rewriting.
- Interface selection, the serial dialers, and which of several errors the racing dialers report.
- A geosite reader opened past the start of its data, which no caller does: it counts from there and seeks from the start.
- I/O errors of the geosite file and its use from several goroutines, which its lock makes sequential.
- `marshalJA3`, its hash, and comparing fingerprints: string building.
- The compilation of geosite items into rules.
- ProviderTags.Adapter.RemoveUseless: the manager's errors are only logged by the source, so none is modelled.
