# Verified model of the TiKV client's caching, retry and coordination core

This project models, in Dafny, the parts of the Rust TiKV client that keep shared state under
concurrency or do exact arithmetic, and proves what they promise over whole runs.

* **Region cache** (`Regions`, `RegionIndex`, `RegionCache`, `CacheRuns`). Three maps (version id,
  start key, id) updated in place; an addition evicts by a backward scan that stops early, a lookup
  is one predecessor search. The class is proved equal to whole-set functions, and these to a set of
  pairwise disjoint ranges in which an empty end key means "+inf". Over every run the cache content
  is read off the history of operations.
* **TTL refresh** (`Ttl`, `TtlRefresh`). The compare-and-swap loop with any number of interleaved
  readers: linearizable, monotone, and finished after a bounded number of steps.
* **Single-flight loading** (`SingleFlight`). Tasks, in-flight markers, `Notify` objects, placement
  driver calls and concurrent cache users, interleaved at every lock.
* **Key codec and routing** (`Keys`, `Codec`, `Routing`, `RangeGroups`). The memcomparable encoding
  is an order-embedding with an exact decoder; a region found for an encoded key decodes to one that
  contains the key; key ranges are cut at region boundaries and grouped without loss.
* **Local latches** (`Latches`, `LatchMemory`, `LatchScheduler`). Commit serialization by per-key
  latches: mutual exclusion, no lost wake-up, no deadlock, in every interleaving; a commit is
  remembered until its key is recycled, and exactly when a forgotten commit can overtake a lock.
* **Sleep budgets** (`BackoffFn`, `Contexts`, `Budget`, `Backoffers`, `BudgetRuns`,
  `BudgetHistory`, `BudgetFns`). Per-config back-off, the excluded busy bucket, clone, fork, merge and the
  cancellation forest; what a merge forgets is read off the calls each side accepted.
* **Attempt-budgeted back-off, timestamps, interceptor chains** (`AttemptBackoff`, `Timestamps`,
  `Interceptors`).

## Assumptions

* The placement driver returns regions that hold at least one key, answers a key with a region that
  contains it and an id with a region of that id, and never changes a
  region's range without changing its epoch (a missing epoch counts as zero). The last point matters: `RegionIndex.AddRegionKeepsIff` shows that `add_region` keeps its
  invariant exactly when no region cached under the same version id lies elsewhere. In
  transactional mode its boundaries are encoded keys or empty.
* Time, random draws and iteration orders of hash maps are arbitrary inputs. A draw from `0..n` is
  `draw % n`, so that every value of the range is covered, and `n > 0` is an obligation.
* Loads run to completion (no cancelled futures). Looking a region up and refreshing its TTL is one
  step of `SingleFlight`; `TtlRefresh.ReturnsAtomically` is what allows this.
* Joining a load and registering on its `Notify` are two steps, as in the code, so a wake-up can be
  lost between them: `SingleFlight.LostWakeupRun` is such a run, `StrandedIffLateRegister` says
  exactly which runs lose one, and `AtomicJoinsLoseNoWakeup` that none does if the two steps are one.

## Model

| member | source | states |
|---|---|---|
| `Regions.GoodRangeIffStart` | src/region.rs:38-43 | a region contains its own start key, and any key at all, exactly when its end is empty or after its start |
| `Regions.TouchesIffShared` | src/region_cache.rs:354-387 | on non-empty ranges the scan's boundary comparisons hold exactly when some key lies in both regions, "+inf" ends included |
| `Regions.VerIdIff` | src/region.rs:57-69 | a version id is a region's id and epoch, a missing epoch counting as zero, so it tells regions apart exactly by these |
| `RegionIndex.RegionsDetermineIndex` | src/region_cache.rs:127-141 | under the invariant the set of cached regions determines the start-key and id indexes |
| `RegionIndex.AddRegionContents` | src/region_cache.rs:341-407 | from any invariant state, adding R leaves exactly the regions disjoint from R with another id, unchanged, plus R with its new TTL |
| `RegionIndex.AddRegionKeepsIff` | src/region_cache.rs:341-407 | `add_region` keeps indexes mutually inverse and ranges disjoint if and only if R holds a key and no region cached under R's version id is disjoint from R |
| `RegionIndex.AddedIsNamed` | src/region_cache.rs:341-436 | after an addition, a leader update or invalidation by the region's id and epoch changes or removes exactly that region |
| `RegionIndex.ClashBreaksIndex` | src/region.rs:57-69 | any two regions without epoch, of one id and with disjoint ranges: adding both leaves the first one's start key naming the second, which starts elsewhere |
| `RegionIndex.ClashExists` | src/region.rs:57-69 | such regions exist |
| `RegionIndex.UpdateLeaderKeeps` | src/region_cache.rs:409-424 | `update_leader` keeps the invariant |
| `RegionIndex.InvalidateKeeps` | src/region_cache.rs:426-436 | `invalidate_region_cache` keeps the invariant and removes exactly that version id |
| `RegionIndex.CandidateIsTheOne` | src/region_cache.rs:187-199 | a region contains the key exactly when the predecessor lookup yields it and it passes `contains`; it is the only one |
| `RegionIndex.LookupByKeyExact` | src/region_cache.rs:181-200 | a key lookup hits exactly when an unexpired cached region contains the key, returns it, and moves only the TTL of the nearest region that starts at or before the key, even on a miss |
| `RegionIndex.LookupByIdExact` | src/region_cache.rs:255-268 | an id lookup hits exactly when an unexpired cached region has the id, returns it, and moves only its TTL |
| `RegionCache.RegionCache.ScanOverlaps` | src/region_cache.rs:354-387 | the early-stopping backward scan collects all and only the touching regions and meets no stale start key |
| `RegionCache.RegionCache.RemoveAll` | src/region_cache.rs:391-398 | removing the doomed regions one by one, in any order, equals filtering the three maps |
| `RegionCache.RegionCache.Add` | src/region_cache.rs:341-407 | the imperative `add_region` equals the whole-set update, and says exactly when it keeps the invariant |
| `RegionCache.RegionCache.SetLeader` | src/region_cache.rs:409-424 | in-place leader and TTL update, invariant kept |
| `RegionCache.RegionCache.InvalidateRegion` | src/region_cache.rs:426-436 | in-place removal from the three maps, invariant kept |
| `RegionCache.RegionCache.HitByKey` | src/region_cache.rs:184-200 | the hit path equals the value-level lookup; it hits iff an unexpired cached region contains the key |
| `RegionCache.RegionCache.HitById` | src/region_cache.rs:258-268 | the hit path equals the value-level lookup; a hit has the id |
| `CacheRuns.RunsKeepInv` | src/region_cache.rs:127-141 | after every sequence of additions, leader updates, invalidations and lookups the invariant holds |
| `CacheRuns.CachedIsLive` | src/region_cache.rs:341-436 | every cached region was added by some operation and neither invalidated nor displaced since |
| `CacheRuns.LiveIsCached` | src/region_cache.rs:341-436 | every region added and not dropped since is cached, with the leader of its latest update |
| `CacheRuns.ApplyTtl` | src/region_cache.rs:345-346 | additions and leader updates set the TTL anew, lookups only raise it and only inside the refresh window, nothing else touches it |
| `CacheRuns.LookupSeesHistory` | src/region_cache.rs:181-200 | after every run a key lookup answers with the live, unexpired region that contains the key, and only then |
| `CacheRuns.LookupByIdSeesHistory` | src/region_cache.rs:255-268 | after every run an id lookup answers with the live, unexpired region of that id, and only then |
| `Ttl.TtlConfig.CheckAndRefresh` | src/region_cache.rs:83-111 | the loop-free meaning: valid iff disabled or unexpired; the TTL moves, up, exactly inside the window |
| `Ttl.NextTtlReaches` | src/region_cache.rs:66-81 | every TTL from now plus base up to the jitter, saturated, is set for some draw |
| `TtlRefresh.ReturnsAtomically` | src/region_cache.rs:88-110 | linearization: the step at which a reader returns does what the loop-free function does at that instant; every other step leaves the TTL alone |
| `TtlRefresh.StepKeeps` | src/region_cache.rs:88-110 | no step, in particular no successful compare-and-swap, lowers the TTL |
| `TtlRefresh.DrawsOnce` | src/region_cache.rs:88-110 | a reader draws a TTL once and tries to write that one until it returns |
| `TtlRefresh.CasWrites` | src/region_cache.rs:103-108 | a compare-and-swap writes the drawn TTL and returns iff nobody moved the TTL since the load; else the reader loads again with the same draw |
| `TtlRefresh.RefreshRuns` | src/region_cache.rs:88-110 | in every interleaving a reader returns within a bounded number of its own steps, since each lost race raised the TTL towards its horizon |
| `TtlRefresh.EntryBudget` | src/region_cache.rs:97-99 | for a reader entering on an unexpired region the bound is two steps per second of base TTL, plus three |
| `SingleFlight.StepKeepsGood` | src/region_cache.rs:181-318 | every step keeps the cache invariant, unique loaders, owned markers and served listeners |
| `SingleFlight.SingleFlightSafety` | src/region_cache.rs:202-250 | in every interleaving a marker exists for a request iff exactly one task owns it, so at most one fetch per request is outstanding |
| `SingleFlight.ClearedBeforeWoken` | src/region_cache.rs:231-250 | a marker is gone before its waiters are woken |
| `SingleFlight.RepliesAnswer` | src/region_cache.rs:181-318 | in every interleaving an `Ok` for a key contains the key, an `Ok` for an id has the id, and its range is the one its version id names |
| `SingleFlight.FinishedReplies` | src/region_cache.rs:181-333 | in every interleaving a finished task replies `Ok(r)` iff it fetched r or found r in the cache, and fails iff its own fetch failed |
| `SingleFlight.CacheIsHistory` | src/region_cache.rs:181-436 | in every interleaving the cache is the sequential cache after the lookups, additions and other operations in the order in which they happened, so the history theorems apply |
| `SingleFlight.FetchedIsAdded` | src/region_cache.rs:243-250 | in every interleaving whoever fetched a region and went on has added it to the cache |
| `SingleFlight.FetchedIsCached` | src/region_cache.rs:320-333 | a fetched region is cached, with a new TTL, under its id, epoch and start key |
| `SingleFlight.RepliesAnswerLoosely` | src/region_cache.rs:181-318 | whatever the cache holds at each step, reused version ids included, an `Ok` for a key contains the key; for an id the cache's entries need only carry their own ids |
| `SingleFlight.StrandedIffNoLoader` | src/region_cache.rs:215-218 | a waiter has missed its wake-up exactly when its load has no loader left |
| `SingleFlight.StrandedForever` | src/region_cache.rs:215-218 | once that has happened the waiter never wakes |
| `SingleFlight.StrandedIffLateRegister` | src/region_cache.rs:203-218 | a run ends with a lost wake-up if and only if some task registered on a `Notify` that had already fired |
| `SingleFlight.StrandedIffNotifyBetween` | src/region_cache.rs:203-250 | read off the schedule: a run ends with a lost wake-up iff some loader's `Notify` falls between a task's `Join` of that load and its `Register` |
| `SingleFlight.AtomicJoinsLoseNoWakeup` | src/region_cache.rs:203-218 | if joining and registering are one step no run loses a wake-up |
| `SingleFlight.LostWakeupRun` | src/region_cache.rs:203-218 | with two steps a run exists in which a task waits for ever, nobody loading |
| `SingleFlight.NeverStuck` | src/region_cache.rs:202-250 | nothing else blocks: an unfinished task can step, or waits for a loader that can |
| `SingleFlight.LoadsEnd` | src/region_cache.rs:220-250 | a loader ends its load within five steps of its own in every interleaving |
| `SingleFlight.ListenersAreWoken` | src/region_cache.rs:245-250 | the end of a load wakes everyone listening on it |
| `Codec.EncodeLength` | src/kv/codec.rs:14-16 | the encoded length is exactly the advertised maximum |
| `Codec.EncodedByte` | src/kv/codec.rs:22-51 | every byte of the encoding: key bytes in groups of eight, zeros behind the end, and a marker of 255 less the number of zeros |
| `Codec.DecodeIff` | src/kv/codec.rs:73-120 | the decoder answers with a key exactly on inputs that start with its encoding (the empty input standing for the empty key) |
| `Codec.DecodeOrderRoundTrip` | src/kv/codec.rs:22-120 | decoding undoes encoding in either order |
| `Codec.EncodeOrders` | src/kv/codec.rs:22-51 | encoded keys compare exactly like the keys |
| `Codec.DescendingReverses` | src/kv/codec.rs:22-51 | descending encodings compare the other way round |
| `Codec.EncodeBytes` | src/kv/codec.rs:22-51 | the group-by-group loop writes the specified encoding |
| `Codec.DecodeBytesInPlace` | src/kv/codec.rs:73-120 | the in-place loop computes the specified decoding, errors included, and leaves it in the buffer; an error leaves the groups seen so far moved down and the rest as it came |
| `Routing.DecodingKeepsMembershipIff` | src/pd/client.rs:213-219 | a decoded region contains the keys whose encodings the region contains, if and only if its end is not the encoding of the empty key |
| `Routing.RegionForKey` | src/pd/client.rs:255-265 | in every interleaving the decoded region returned for an encoded key contains the key |
| `RangeGroups.GroupRanges` | src/pd/client.rs:175-204 | the loop on the reversed vector computes the specified group and rest |
| `RangeGroups.StreamConserves` | src/pd/client.rs:162-211 | whatever regions answer at each turn, every key is covered by the groups handed out and what is left together exactly as often as by the ranges asked for |
| `RangeGroups.StreamWithin` | src/pd/client.rs:162-211 | every key covered by a group is in the region the group is handed out with |
| `RangeGroups.StreamEnds` | src/pd/client.rs:162-211 | with finitely many region boundaries the stream ends, within one turn for each range and for each boundary after its start |
| `RangeGroups.TurnIsMaximal` | src/pd/client.rs:189-203 | a group is as large as it can be: what is left starts at the region's end or outside |
| `RangeGroups.StrayIff` | src/pd/client.rs:189-203 | a group holds a range whose start key is outside its region iff the first range ends inside and the loop then reaches one that starts exactly at the region's end |
| `RangeGroups.AdjacentStray` | src/pd/client.rs:189-203 | two adjacent ranges that meet at a region boundary do that |
| `Latches.StepKeeps` | src/transaction/latch.rs:180-325 | every acquire, release, hand-over and recycling step keeps ownership, waiting lists, served waiters and stale detection consistent |
| `Latches.MutualExclusion` | src/transaction/latch.rs:193-224 | two granted, non-stale locks share no key, and no newer commit is on record for their keys |
| `LatchMemory.NoNewerCommit` | src/transaction/latch.rs:193-325 | a granted, non-stale lock holds a key on which a non-stale lock has given up the key with a newer commit only if, after that, the key was recycled at a clock two minutes past the commit |
| `LatchMemory.StaleOnlyIfCommitted` | src/transaction/latch.rs:193-294 | in every interleaving a lock is stale only if some lock gave up one of its keys with a commit newer than its start |
| `LatchMemory.AcquireDecides` | src/transaction/latch.rs:193-224 | a newer commit turns the lock away, a free key is taken, and at a key another lock has the lock waits behind all others |
| `LatchMemory.AcquireEnds` | src/transaction/latch.rs:180-191 | a stale lock, or one that has all its keys, gets its guard and nothing else changes |
| `LatchScheduler.TickStartsIff` | src/transaction/latch.rs:108-120 | a release starts a recycler iff the lock committed after its start and over a minute after the last clock or over 50,000 releases on |
| `LatchScheduler.SlotRecyclesIff` | src/transaction/latch.rs:202-204 | an acquire recycles a key iff there are at least five nodes and the key is free and two minutes older than the lock's start |
| `LatchScheduler.ClocksAreCommits` | src/transaction/latch.rs:99-122 | in every run the recyclers' clocks are commits, newer than their starts, of released locks |
| `LatchScheduler.TraceIsRun` | src/transaction/latch.rs:99-122 | the runs of the scheduler, whose recyclers carry the commit of a released lock or the start of an acquiring one, are runs of the latches |
| `LatchScheduler.OvertakingRun` | src/transaction/latch.rs:99-122 | a scheduler run, for any start, commit and clock two minutes past the commit, in which the commit overtakes a lock of that start |
| `LatchScheduler.OvertakenIff` | src/transaction/latch.rs:99-325 | with recycling clocks up to T a lock started at S can be overtaken by a commit at C iff S < C and C is two minutes older than T |
| `LatchScheduler.SafeIff` | src/transaction/latch.rs:99-325 | so it is safe from every commit iff no recycling clock is two minutes past S + 1 |
| `Latches.NoLostWakeup` | src/transaction/latch.rs:236-296 | a key someone waits for is owned, or a woken lock that is not overtaken is about to take it |
| `Latches.NoDeadlock` | src/transaction/latch.rs:167-191 | whenever a lock waits, a lock that does not wait owns or is about to take the greatest awaited key, and it can step |
| `Latches.ReleaseOwnsItsKey` | src/transaction/latch.rs:251-268 | the wrong-owner and no-owner branches of a release are never taken |
| `BackoffFn.ExpoExact` | src/backoffer.rs:256-259 | `expo` is min(cap, base * 2^attempts) over unbounded integers for every input |
| `BackoffFn.ExpoMonotone` | src/backoffer.rs:256-259 | and monotone in the attempts |
| `BackoffFn.Sleep` | src/backoffer.rs:224-246 | every random range is non-empty, nothing overflows, and each jitter stays in its documented range, up to saturation |
| `BackoffFn.SleepReaches` | src/backoffer.rs:224-246 | every value of that range is slept for some draw |
| `BackoffFn.RunSleepsExponentially` | src/backoffer.rs:210-254 | call k of a run without jitter sleeps min(cap, base * 2^(k mod 2^32)), cut to its limit |
| `BackoffFn.DocumentedSleepIff` | src/backoffer.rs:251-259 | that is min(cap, base * 2^k) iff the 32-bit attempt counter has not wrapped or what is left of it already reaches the cap |
| `Contexts.StrictlyAboveIsOrder` | src/backoffer.rs:311-320 | "strict ancestor" is irreflexive, transitive and follows creation order |
| `Contexts.CancelHitsSubtree` | src/backoffer.rs:300-332 | canceling a handle cancels exactly the contexts at or below it |
| `Contexts.ForkSitsBelow` | src/backoffer.rs:287-298 | a fork's strict ancestors are its parent and those above it; no other context is disturbed |
| `Contexts.ContextForest.NewRoot` | src/backoffer.rs:274-285 | a new context has no ancestor, is not canceled, and changes no other |
| `Contexts.ContextForest.IsCanceled` | src/backoffer.rs:300-309 | the upward walk ends and answers whether any context on the chain was canceled |
| `Contexts.ContextForest.StrictHasAncestor` | src/backoffer.rs:311-320 | the upward walk ends and decides strict ancestry |
| `Budget.AcceptBalanced` | src/backoffer.rs:516-535 | an accepted call keeps total = sum of sleeps, excluded = busy entry, errors = sum of counts |
| `Budget.ExcludedWithinTotal` | src/backoffer.rs:500-501 | the subtraction of the excluded sleep never underflows |
| `Budget.LongestIff` | src/backoffer.rs:444-462 | over all iteration orders of the map the two loops return exactly the longest-sleeping non-excluded configs, in their first record, and nothing iff none slept or a longest one is not on record |
| `Budget.LongestAnswersIff` | src/backoffer.rs:444-462 | the loops answer in every iteration order iff a non-excluded config slept and every longest one is on record |
| `Budget.LongestOfKeyed` | src/backoffer.rs:444-462 | without merges it answers iff a non-excluded config was accepted, with the maximum |
| `Budget.MergeKeyedIff` | src/backoffer.rs:433-442 | a merge keeps the names that slept equal to the names on record iff both sides have the same names on record |
| `Backoffers.Backoffer.LongestSleepCfg` | src/backoffer.rs:444-462 | the two loops, in any map order, return a longest non-excluded config with its first record |
| `Backoffers.Backoffer.Backoff` | src/backoffer.rs:480-538 | one call: canceled, noop, exhausted or accepted, with the exact new state; the books stay balanced |
| `Backoffers.Backoffer.UpdateUsingForked` | src/backoffer.rs:433-442 | nothing changes unless the argument's context is a strict descendant; balance is kept |
| `Backoffers.Backoffer.Fork` | src/backoffer.rs:413-431 | the child copies the books into a context strictly below |
| `BudgetRuns.BoundedOvershoot` | src/backoffer.rs:500-533 | over a run, counted sleep stays within max - 1 + largest cap, excluded sleep within max(limit, max) - 1 + busy cap |
| `BudgetRuns.NoOverflow` | src/backoffer.rs:530-535 | hence no sleep counter overflows 64 bits when limits and caps leave room, nor any call counter where each call has slept |
| `BudgetRuns.RunNoOverflow` | src/backoffer.rs:530-535 | over a whole run from a new budget whose calls sleep for sure no counter overflows, call counters included |
| `BudgetRuns.AcceptedCallsBounded` | src/backoffer.rs:480-538 | a run without full jitter or zero limits accepts at most max counted calls and max(limit, max) busy ones |
| `BudgetRuns.AcceptedIff` | src/backoffer.rs:480-538 | a call is accepted iff its caller is not canceled and there is no maximum or the sleep so far, read off the run, is below the limits; a refusal changes nothing and says why |
| `BudgetRuns.NoopRefuses` | src/backoffer.rs:359-373 | a no-op budget refuses every call and never changes |
| `BudgetRuns.BoundedIffSleepsForSure` | src/backoffer.rs:472-538 | over all runs from a new budget the accepted calls are bounded iff the effective maximum is positive and the call has neither full jitter nor a zero limit |
| `BudgetRuns.FreeCallsNeverEnd` | src/backoffer.rs:224-253 | calls that cost nothing (no maximum, zero limit, or full jitter drawing zero) are accepted for ever |
| `BudgetRuns.TableSleepsForSure` | src/backoffer.rs:123-170 | the client's own configs sleep for sure when called without a limit |
| `BudgetRuns.SpentStaysSpent` | src/backoffer.rs:500-514 | once the counted budget is spent every later call is refused and changes nothing |
| `BudgetRuns.ExceededNamesDominant` | src/backoffer.rs:507-514 | in a run from a new budget a budget-exceeded error carries the kind of a longest-sleeping accepted config, exactly when there is one |
| `BudgetRuns.LedgerIsHistory` | src/backoffer.rs:516-535 | errors, configs, counts and sleeps are exactly those of the accepted calls |
| `BudgetRuns.FamilyRuns` | src/backoffer.rs:397-442 | over every run of calls, clones, forks, merges and cancellations all members stay balanced and bounded |
| `BudgetRuns.KeyedWithoutMerges` | src/backoffer.rs:516-535 | without merges the keys of the sleep map are exactly the names on record |
| `BudgetFns.RunSleeps` | src/backoffer.rs:516-535 | an accepted call sleeps what a back-off function made by the first call on its name sleeps after the calls accepted on that name since |
| `BudgetFns.RunSleepsByAttempt` | src/backoffer.rs:210-259 | so after j accepted calls on its config it sleeps in its jitter's range for min(cap, base * 2^(j mod 2^32)), floors and lock-fast base included, cut to its limit |
| `BudgetFns.RestartedSleeps` | src/backoffer.rs:397-431 | a clone or fork starts over: only the calls it accepted itself count, whatever is merged |
| `BudgetFns.TableSchedule` | src/backoffer.rs:123-170 | the client's configs have distinct names, and each its own schedule in milliseconds, jitter and error kind |
| `BudgetFns.DefaultVars` | src/backoffer.rs:191-198 | without variables a budget allows twice the sleep asked for and sleeps from 10 ms on a fast lock |
| `BudgetHistory.BooksAreHistory` | src/backoffer.rs:397-442 | over every run of calls, clones, forks, merges and cancellations each member's total, errors, sleeps and configs are those of the accepted calls its two histories hold |
| `BudgetHistory.KeyedIff` | src/backoffer.rs:433-442 | a member's sleep map names exactly its recorded configs iff the two histories name the same ones |
| `BudgetHistory.MergeLowersIff` | src/backoffer.rs:433-442 | in any run a merge lowers the total iff the calls on the fork's books slept less than those on the parent's |
| `BudgetHistory.MergeAnswersIff` | src/backoffer.rs:433-462 | in any run `longest_sleep_cfg` answers after a merge, in every order, iff the fork slept on a non-excluded config and the parent has on record each one on which it slept longest |
| `BudgetHistory.ForkMergeLowersIff` | src/backoffer.rs:413-442 | merging a fork back takes effect, and lowers the total iff the calls the parent accepted since the fork slept longer than the fork's |
| `BudgetHistory.ForkMergeAnswersIff` | src/backoffer.rs:413-462 | and leaves `longest_sleep_cfg` answering iff there is a config that slept longest for the fork and the parent has each such one on record from before the fork or from a call accepted since |
| `BudgetHistory.ForgottenSleepRun` | src/backoffer.rs:433-442 | a run in which a merge brings a positive total back to zero |
| `BudgetHistory.ForgottenConfigRun` | src/backoffer.rs:433-462 | a run after which a merged parent has slept and no iteration order can say on what |
| `BudgetHistory.MergesUnboundCalls` | src/backoffer.rs:413-442 | with merges a member can accept any number of calls: it sleeps, and the merge of an unslept fork takes the sleep off its books |
| `BudgetHistory.MemberCallsBounded` | src/backoffer.rs:413-538 | while no merge into a member lowers its counted or excluded sleep, it accepts at most max counted calls and max(limit, max) busy ones |
| `BudgetHistory.CanceledForever` | src/backoffer.rs:300-332 | once a context is canceled no member in it or below it, also none forked later, accepts a call |
| `AttemptBackoff.CurrentAfter` | src/backoff.rs:38-62 | after k calls the delay word is base * 2^k modulo 2^64 |
| `AttemptBackoff.NthDelay` | src/backoff.rs:30-62 | call k without jitter is min(max, word); under jitter it panics exactly when the word is 0 |
| `AttemptBackoff.NoJitterDelays` | src/backoff.rs:107-120 | in the caller's arguments: call k hands out min(max, base * 2^k mod 2^64), then stop from call `max_attempts` on |
| `AttemptBackoff.FullJitterDelays` | src/backoff.rs:122-145 | in the caller's arguments, floors included: exactly which outcomes call k can have under full jitter |
| `AttemptBackoff.EqualJitterDelays` | src/backoff.rs:147-170 | the same under equal jitter |
| `AttemptBackoff.DecorrelatedDelays` | src/backoff.rs:172-194 | the same under decorrelated jitter, in terms of the delay before |
| `AttemptBackoff.DocumentedDelayIff` | src/backoff.rs:102-120 | the documented delay comes out iff base * 2^k fits in 64 bits or what is left still reaches the maximum |
| `AttemptBackoff.DocumentedRanges` | src/backoff.rs:122-170 | while the product fits, jittered ranges are non-empty and the documented ones |
| `AttemptBackoff.JitterRange` | src/backoff.rs:44-62 | over all draws a jittered call hands out exactly the delays documented for its delay word |
| `AttemptBackoff.DocumentedRangesIff` | src/backoff.rs:122-170 | these are the documented ones of min(max, base * 2^k) iff the product fits or what is left of it reaches the maximum (its half, under equal jitter) |
| `AttemptBackoff.FullJitterCanPanic` | src/backoff.rs:44-50 | a base of 1 panics under full jitter at its 65th call |
| `AttemptBackoff.DelayReaches` | src/backoff.rs:44-77 | every delay of the range is handed out for some draw |
| `AttemptBackoff.DecorrelatedStays` | src/backoff.rs:63-76 | decorrelated delays stay in [base, max], below three times the previous one up to saturation, without overflow |
| `AttemptBackoff.StopsExactly` | src/backoff.rs:29-34 | exactly the first `max_attempts` calls are served, then none for ever |
| `AttemptBackoff.Backoff.NextDelayDuration` | src/backoff.rs:30-78 | the in-place update equals the value-level step |
| `Timestamps.PartsRebuild` | src/timestamp.rs:26-42 | every u64 is rebuilt from its extracted parts |
| `Timestamps.ComposeRecovers` | src/timestamp.rs:26-42 | composing succeeds iff the sum is in range; the parts come back iff the logical part fits 18 bits, else it carries |
| `Timestamps.OrderIsLexicographic` | src/timestamp.rs:35-42 | numeric order is lexicographic order of the parts |
| `Timestamps.VersionRoundTripIff` | src/timestamp.rs:99-113 | `version(from_version(v))` is v exactly below 2^63 and 0 above |
| `Timestamps.TimestampRoundTripIff` | src/timestamp.rs:99-113 | a timestamp comes back from its version iff its logical part fits and the version is below 2^63 |
| `Timestamps.TryRoundTripIff` | src/timestamp.rs:99-122 | a timestamp comes back through `try_from_version` iff it does through `from_version` with a version above 0; none comes back iff the sum is out of range or 0 |
| `Timestamps.DecodersAgree` | src/timestamp.rs:35-113 | the extractors and `from_version` agree exactly below 2^63 |
| `Interceptors.LinkAllKeepsLast` | src/interceptor.rs:143-155 | any sequence of links, nested chains included, is the flattened list with the last of each name kept |
| `Interceptors.KeepLastPositions` | src/interceptor.rs:140-155 | what is kept are the interceptors at the kept positions |
| `Interceptors.KeptPositionsIncrease` | src/interceptor.rs:140-155 | these keep their order |
| `Interceptors.KeptIffLast` | src/interceptor.rs:140-155 | and are exactly those whose name does not recur |
| `Interceptors.FlattenPreservesWrap` | src/interceptor.rs:157-188 | flattening preserves the meaning of `wrap` for arbitrary interceptors |
| `Interceptors.DefaultsRunInOrder` | src/interceptor.rs:71-77 | a chain of defaults applies each `before_send` once in order, then `next` once |
| `Interceptors.LinkedChainRuns` | src/interceptor.rs:143-169 | end to end: linking any nested structure of defaults runs the last of each name, in order, then `next` |
| `Interceptors.RpcInterceptorChain.Link` | src/interceptor.rs:143-155 | the recursive, mutating `link` equals the value-level one |
| `Interceptors.RpcInterceptorChain.WrapWith` | src/interceptor.rs:157-163 | the reversed loop builds the onion |
| `Interceptors.ChainRpcInterceptors` | src/interceptor.rs:191-201 | the result is the chain of last occurrences of the flattened arguments |

## Left out

- Latches: the acquire and release loops appear as machine steps, one critical section each, not as mutable objects; a slot's waiting list is the part of one global list that hashes to it, and the hash itself is not modelled.
- LatchScheduler: a slot counts as possibly full once the latches hold five nodes, and locks may be released side by side; both allow more runs than the code has, and the run that shows overtaking needs neither.
- RangeGroups: grouping single keys and listing the regions of one range, which are simpler walks of the same kind.
- SingleFlight: the loader's read lock held while it clears its marker on a double-check hit is not modelled; the machine allows more interleavings than the code.
- SingleFlight: cancelled futures and scheduling fairness; a waiter that keeps losing its region can loop.
- BackoffFn.BackoffMs: the 32-bit attempt counter wraps, as in builds without overflow checks; that builds with them panic at call 2^32 instead is not modelled.
- Backoffers: sleep counters are unbounded; `BudgetRuns.NoOverflow` says when 64 bits suffice.
- RegionCache: the store cache, the store filter and the read-through wrappers, which are I/O around a map.
- Timestamps: conversions to and from the system clock.
- Interceptors: request metadata and the provided override-priority interceptor, which only set fields.
- Retry plans, transactions, raw requests, keyspaces, TLS, metrics, tracing and generated messages: not modelled.
