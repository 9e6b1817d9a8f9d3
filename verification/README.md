# A verified model of the TarsCpp client RPC runtime

This project models the parts of TarsCpp's client side that carry state over many calls, and proves what they keep:

- weighted routing: weight scaling, the smooth weighted round robin that fills the router caches, and the rotating walk
  over them (`SmoothSchedule`, `KeyBound`, `WeightedRouter`, `EndpointRouter`);
- hash selection: the consistent-hash ring, the four tables and the retry loop around it, and the plain hash it falls back
  to (`HashRing`, `ConsistentHash`, `ModuloHash`);
- the life of a request: the timeout queue, serial and parallel connections, and the object's own queue (`TimeoutQueue`,
  `Connection`, `RequestEffects`, `SerialPairing`, `NoOvertaking`, `AdapterRequests`, `RequestLifecycle`);
- the circuit breaker of a node and the timed queries to the registry (`CircuitBreaker`, `RegistryRefresh`);
- futures as lock sections of racing threads, `WhenAll`, and chains of `then` (`Promise`, `WhenAll`, `ThenChain`);
- the sequence-number allocator, packet framing, and statistics reporting (`SeqManager`, `Framing`, `StatReport`).

Code that works on fields in place is a class whose methods are proved against functions on values; the main theorems are
about those functions, over all inputs, runs or interleavings. Clocks, `rand()`, the transport's answers, the registry's
answers, MD5 digests and whether a proxy passes `checkActive` are parameters. `Collections` holds what several modules
need. To verify: `dafny verify dfyconfig.toml`.

## Results a reader may not expect

The model follows the code; in these places the code does something else than its comments or its purpose suggest, and a
theorem says exactly when:

- `HashRing.GetNodeName`: the ring's binary search ends one past the last point, which is then read, exactly when the hash
  code equals that of the last point and exceeds the first. `HashRing.FollowsTheRule`: between two neighbours the code of
  a point is answered by the next point, so the usual rule holds if and only if the code is no such point's.
- `ConsistentHash.EndpointManager.OnlyHostIsNotRetried`: the comment at line 1482 of `EndpointManager.cpp` says that a
  struck host is put back and retried. It is not when the plain ring is empty while its snapshot names just the indexed
  hosts: the tables look current and no lookup is made. This state, `Stranded`, is the only one in which the ring is not
  current (`CurrentUnless`), and plain calls do not leave it. Among the ways into it: the only indexed host fails; all
  hosts fail and an update leaves just the last one (`AnUpdateStrandsTheRing`), or a weighted search takes the others out
  of the shared index; and an update without active hosts, a call, and an update that lists the hosts of before
  (`ARestoredListStrandsTheRing`). `UpdateEndpoints` and `GetConHashProxy`, in both modes, state as an if and only if
  whether it holds afterwards.
- `ConsistentHash.StrikingSparesOthers`: a host leaving the ring moves no code that another host answered, except one: the
  code of a point that is now the first was answered by the next point and is now answered by that one.
- `SerialPairing.DirectSendFindsEmptyQueue`: the failure branch at lines 340 to 348 of `AdapterProxy.cpp` clears the
  request although it was sent; it cannot be reached, so serial pairing needs no assumption that ids are fresh.
- `Connection.LostOnlyByThrowing`: a request sent directly while the transport throws is neither queued nor finished. All
  conservation results carry such requests in a log of their own; `NothingIsLost` is the result without such a throw.
- `RequestLifecycle.GoesExactlyToLastPick`: `prepareConnection` keeps the adapter selected for a hashed request for the
  requests behind it, so a waiting request goes to the adapter that connected if and only if no other was selected last;
  `LaterRequestsFollow` is a queue where one was.
- `Promise.LostExactlyInTheWindow`: a watcher is lost if and only if its appender looks before completion and queues after
  the swap; `Promise.AWatcherIsLost` is such a run.
- `CircuitBreaker.BlockingSetsRetryTime`: a node that becomes blocked has its retry time set if and only if it was not
  blocked by a failing connection attempt of `checkActive`; `NextAttemptAfterBlocking` says exactly when it can be tried
  next, and `FirstFailureSetsNoRetryTime` is a history where that is at once.
- `RegistryRefresh.WeightChangeIsMissed`: a registry answer that only changes weights is dropped, because endpoints are
  compared by type, host and port. `RegistryRefresh.ValidAfterFourFailures`: the limit of three failures acts on the
  fourth, where the comment at line 580 says three. Of cached endpoints the inactive list, read last, decides whether
  weights are static. The default refresh interval is given as the text `60*1000` (line 50); its conversion to a number
  is not part of this model.
- `StatReport.MergeKeepsLeastSample`: `addMicMsg` takes the plain minimum where `submit` skips zeros, so merging keeps the
  least response time if and only if all records of a head have one or none has.
- `StatReport.Reporter.ReportMicMsg`: a first record that does not fit by itself is preceded by an empty batch.

## Model

| member | source | states |
|---|---|---|
| `SmoothSchedule.CreditClosedForm` | servant/libservant/EndpointManager.cpp:1767-1792 | after t rounds the running key of node i is w_i * (t + 1) minus W for every time it was picked, W being the sum of the scaled weights |
| `SmoothSchedule.PicksArePositive` | servant/libservant/EndpointManager.cpp:1767-1792 | only nodes of positive scaled weight are ever picked; the others keep the key zero |
| `SmoothSchedule.CreditsSumToTotal` | servant/libservant/EndpointManager.cpp:1774-1788 | conservation: at every pick the running keys sum to W, whatever ties were broken how |
| `SmoothSchedule.PickedCreditPositive` | servant/libservant/EndpointManager.cpp:1774-1781 | the key that is picked is positive |
| `SmoothSchedule.CreditLowerBound` | servant/libservant/EndpointManager.cpp:1780-1785 | at every pick key i is greater than w_i - W |
| `SmoothSchedule.CreditUpperBound` | servant/libservant/EndpointManager.cpp:1780-1785 | at every pick key i is at most w_i + (n - 1)(W - 1), n counting the positive nodes |
| `SmoothSchedule.PrefixFairness` | servant/libservant/EndpointManager.cpp:1767-1792 | every prefix of t picks selects node i fewer than w_i * t / W + 1 times and at least w_i * t / W - (n - 1)(W - 1) / W times, n counting the positive nodes |
| `SmoothSchedule.HitsAtMostWeight` | servant/libservant/EndpointManager.cpp:1767-1792 | W rounds pick no node more often than its scaled weight |
| `SmoothSchedule.FullRoundIsExact` | servant/libservant/EndpointManager.cpp:1767-1792 | W rounds pick every node exactly as often as its scaled weight, by counting against the sum |
| `SmoothSchedule.FullRoundRestoresCredits` | servant/libservant/EndpointManager.cpp:1767-1792 | after W rounds the keys are the weights they started from |
| `KeyBound.AnySetIsCapped` | servant/libservant/EndpointManager.cpp:1774-1788 | at every pick the running keys of any k nodes sum to at most W * (k * (H(n) - H(k)) + 1), H being the harmonic numbers |
| `KeyBound.KeyAtMostHarmonic` | servant/libservant/EndpointManager.cpp:1780-1785 | at every pick no running key exceeds W * H(n), whatever ties were broken how |
| `KeyBound.HarmonicAtMostHalvings` | servant/libservant/EndpointManager.cpp:1780-1785 | H(n) is at most the number of binary digits of n |
| `KeyBound.KeyAtMostHalvings` | servant/libservant/EndpointManager.cpp:1780-1785 | in whole numbers: no running key exceeds W times the number of binary digits of n |
| `KeyBound.PickedOftenEnough` | servant/libservant/EndpointManager.cpp:1767-1792 | every prefix of t picks selects node i at least w_i * (t + 1) / W times less the number of binary digits of n |
| `WeightedRouter.Extremes` | servant/libservant/EndpointManager.cpp:1713-1729 | the loop finds the largest and the least weight |
| `WeightedRouter.Scale` | servant/libservant/EndpointManager.cpp:1731-1745 | ratio between the limits 10 and 100 and divisor, also for a least weight of zero |
| `WeightedRouter.ScalingKeepsOrder` | servant/libservant/EndpointManager.cpp:1731-1749 | scaled weights are at most the ratio, the largest weight scales to the ratio, order is kept, and a weight scales to zero exactly when weight * ratio is below the largest |
| `WeightedRouter.ScaledIsFloor` | servant/libservant/EndpointManager.cpp:1747-1749 | every scaled weight is weight * ratio / maximum, rounded down |
| `WeightedRouter.RatioIsClamped` | servant/libservant/EndpointManager.cpp:1731-1745 | the ratio is 10 while the maximum is below 11 times the minimum, 100 from 100 times on, and the quotient rounded down between |
| `WeightedRouter.ZeroSwitchesScalingOff` | servant/libservant/EndpointManager.cpp:1731-1749 | with a weight of zero among them all weights stay as they are |
| `WeightedRouter.CacheShares` | servant/libservant/EndpointManager.cpp:1747-1792 | so in the cache a node occurs weight * ratio / maximum times, rounded down, but once at least |
| `WeightedRouter.ScaleAll` | servant/libservant/EndpointManager.cpp:1747-1749 | every weight of the list is scaled in its place; `ScaledIsFloor` says to what |
| `WeightedRouter.PickedKeyIsExact` | servant/libservant/EndpointManager.cpp:1780-1780 | the picked node's key is computed in size_t, may wrap below zero, and converts back to the int it should be whenever that is in range |
| `WeightedRouter.CreditFits` | servant/libservant/EndpointManager.cpp:1780-1784 | no key of any round leaves the int range, given only that W times the number of binary digits of n is below 2^31 |
| `WeightedRouter.Insert` | servant/libservant/EndpointManager.cpp:1757-1757 | inserting into the multimap keeps key order and the ids distinct and loses nothing |
| `WeightedRouter.UpperBound` | servant/libservant/EndpointManager.cpp:1780-1784 | where std::multimap puts an equal key: behind its equals |
| `WeightedRouter.LastIsPick` | servant/libservant/EndpointManager.cpp:1771-1778 | the last entry in key order is a node of the greatest running key |
| `WeightedRouter.Round` | servant/libservant/EndpointManager.cpp:1767-1792 | one round picks a node of greatest key, and the rebuilt multimap holds exactly the next running keys |
| `WeightedRouter.Seed` | servant/libservant/EndpointManager.cpp:1747-1765 | the multimap starts with the weights of the positive nodes, the cache with the zero nodes |
| `WeightedRouter.Enter` | servant/libservant/EndpointManager.cpp:1751-1758 | entering one node keeps the multimap equal to the weights entered so far |
| `WeightedRouter.ZeroNodesHitOnce` | servant/libservant/EndpointManager.cpp:1759-1762 | each node scaled to zero is in the cache's head exactly once and no other is |
| `WeightedRouter.CacheIsExact` | servant/libservant/EndpointManager.cpp:1747-1792 | the whole cache holds a node of positive scaled weight w exactly w times and a node scaled to zero exactly once |
| `WeightedRouter.Fill` | servant/libservant/EndpointManager.cpp:1767-1792 | all W rounds: the cache is the zero nodes followed by a smooth schedule of W picks |
| `WeightedRouter.Spread` | servant/libservant/EndpointManager.cpp:1704-1792 | the body common to both routers, scaling included, for any numbering of the nodes; `CacheShares` says how often each node comes out |
| `EndpointRouter.FewNodesFit` | servant/libservant/EndpointManager.cpp:1747-1792 | up to 1,048,575 nodes of whatever weights satisfy KeysFit, so no running key overflows |
| `EndpointRouter.RotationClosedForm` | servant/libservant/EndpointManager.cpp:1538-1541 | the slot on step k of a walk, without recursion |
| `EndpointRouter.RotatedAt` | servant/libservant/EndpointManager.cpp:1538-1543 | the walk visits the slots in rotated order |
| `EndpointRouter.FullTurnKeepsHits` | servant/libservant/EndpointManager.cpp:1536-1543 | from any position one turn visits every slot once, so the counts stay |
| `EndpointRouter.NonePassesAt` | servant/libservant/EndpointManager.cpp:1536-1555 | the walk has not stopped by step n exactly if at every step before it the proxy met did not pass |
| `EndpointRouter.CollectedAt` | servant/libservant/EndpointManager.cpp:1536-1555 | a proxy has been collected by step n exactly if it was met and usable at some step before |
| `EndpointRouter.Walk` | servant/libservant/EndpointManager.cpp:1536-1555 | the walk stops at the first slot behind the position whose proxy passes when it is met there, having collected those usable when met; if none passes it is back where it started. A proxy in several slots may answer differently at each |
| `EndpointRouter.SelectFrom` | servant/libservant/EndpointManager.cpp:1529-1591 | first passing proxy, else a usable one, else any with its retry time reset, the position then being kept; a position left from a longer list is handled |
| `EndpointRouter.StaleStart` | servant/libservant/EndpointManager.cpp:1598-1600 | a rotation position beyond the list behaves like the last position |
| `EndpointRouter.FilterPositive` | servant/libservant/EndpointManager.cpp:1643-1651 | the proxies of positive weight, in order |
| `EndpointRouter.IndexesOfPositive` | servant/libservant/EndpointManager.cpp:1188-1199 | the remembered indexes name exactly the filtered proxies |
| `EndpointRouter.IndexesAreComplete` | servant/libservant/EndpointManager.cpp:1188-1199 | an index is remembered if and only if its weight is positive |
| `EndpointRouter.RemapHits` | servant/libservant/EndpointManager.cpp:1256-1283 | remapping through vIndex moves every count to its registered index |
| `EndpointRouter.RemappedIsExact` | servant/libservant/EndpointManager.cpp:1250-1283 | counts of the hash router cache after remapping, and no other index occurs |
| `EndpointRouter.HashReachesThePositive` | servant/libservant/EndpointManager.cpp:1174-1299 | the hash router reaches exactly the registered nodes of positive weight |
| `EndpointRouter.EndpointManager.UpdateEndpoints` | servant/libservant/EndpointManager.cpp:712-808 | an update replaces the proxy lists and leaves the built cache and its proxies, so entries keep indexing inside them |
| `EndpointRouter.EndpointManager.DispatchEndpointCache` | servant/libservant/EndpointManager.cpp:1686-1793 | the static router cache holds each node as often as its scaled weight, and once if that is zero, whatever the tie-breaking; an empty list changes nothing; the rotation restarts |
| `EndpointRouter.EndpointManager.UpdateStaticWeighted` | servant/libservant/EndpointManager.cpp:1671-1684 | the cache belongs to the weighted proxies, keeping the invariant |
| `EndpointRouter.EndpointManager.UpdateProxyWeighted` | servant/libservant/EndpointManager.cpp:1633-1669 | rebuilds only when endpoints changed, with the positive proxies; all four early exits |
| `EndpointRouter.EndpointManager.UpdateHashProxyWeighted` | servant/libservant/EndpointManager.cpp:1174-1299 | the hash router cache is exact over the registered indexes; empty and all-zero inputs |
| `EndpointRouter.EndpointManager.Slots` | servant/libservant/EndpointManager.cpp:1543-1547 | in every reachable state each cache entry indexes inside the weighted proxies |
| `EndpointRouter.EndpointManager.SlotsCoverProxies` | servant/libservant/EndpointManager.cpp:1543-1547 | every proxy of the build is in some slot and nothing else is |
| `EndpointRouter.EndpointManager.GetNextValidProxy` | servant/libservant/EndpointManager.cpp:860-907 | plain round robin: first passing behind the position, else retry rules |
| `EndpointRouter.EndpointManager.Rebuild` | servant/libservant/EndpointManager.cpp:1511-1524 | the timed rebuild and its next time, five seconds later the first time |
| `EndpointRouter.EndpointManager.SelectFromCache` | servant/libservant/EndpointManager.cpp:1534-1591 | selection over the cache keeps the invariant and moves the position to the chosen slot |
| `EndpointRouter.EndpointManager.GetWeightedForNormal` | servant/libservant/EndpointManager.cpp:1502-1631 | when the cache is rebuilt, which proxy is returned from which position, and the fallback to round robin |
| `EndpointRouter.EndpointManager.PassingCall` | servant/libservant/EndpointManager.cpp:1534-1548 | with every proxy passing one call takes the next slot |
| `EndpointRouter.EndpointManager.PassingCalls` | servant/libservant/EndpointManager.cpp:1534-1548 | with every proxy passing any number of calls take the next slots in turn |
| `EndpointRouter.EndpointManager.FullTurn` | servant/libservant/EndpointManager.cpp:1502-1547 | as many as the cache is long: consecutive calls from any position return node i exactly max(1, scaled weight) times and restore the position |
| `HashRing.HasPoint` | util/src/tc_consistent_hash_new.cpp:147-178 | a host of weight w owns the four digest words of each of its w virtual names |
| `HashRing.PointOf` | util/src/tc_consistent_hash_new.cpp:147-178 | every point of a host is a digest word of one of its virtual names |
| `HashRing.GetNodeName` | util/src/tc_consistent_hash_new.cpp:252-284 | the binary search: where it settles, when it finds nothing, and that it ends past the last point exactly when the code is that of the last point and above the first |
| `HashRing.FollowsTheRule` | util/src/tc_consistent_hash_new.cpp:263-282 | a lookup obeys the ring's rule (first point at or after the code) if and only if the code is not that of a point behind the first |
| `HashRing.OwnPointIsMissed` | util/src/tc_consistent_hash_new.cpp:270-282 | concrete ring where a point's own code is answered by the next point |
| `HashRing.TopSettlesNowhere` | util/src/tc_consistent_hash_new.cpp:263-282 | the code of the last point is answered by no point |
| `HashRing.OthersKeepTheirCodes` | util/src/tc_consistent_hash_new.cpp:252-284 | taking a host out of the ring leaves a code that another host answered at its point if and only if it is not the code of the new first point that was not first before |
| `HashRing.OthersAreFound` | util/src/tc_consistent_hash_new.cpp:263-282 | when a host is taken out, a code that another host answered is still answered: the search does not run past the end |
| `HashRing.OthersKeepTheirHosts` | util/src/tc_consistent_hash_new.cpp:252-284 | where no two hosts share a code, so does the host that answers it, with the exact exception |
| `HashRing.SortPoints` | util/src/tc_consistent_hash_new.cpp:100-103 | the points sorted by code, none lost |
| `ModuloHash.TriesArePermutation` | servant/libservant/EndpointManager.cpp:1394-1409 | hashing again and again over the shrinking list tries every active proxy exactly once |
| `ModuloHash.SlotIsRemainder` | servant/libservant/EndpointManager.cpp:1390-1409 | the slot a code names is the code modulo the number of slots |
| `ModuloHash.TriesFrom` | servant/libservant/EndpointManager.cpp:1394-1409 | first the proxy the code names modulo their number, then the tries among the others, which stay in order |
| `ModuloHash.KeepOfConcat` | servant/libservant/EndpointManager.cpp:1402-1409 | the usable proxies are kept in the order in which they were tried |
| `ModuloHash.Rehash` | servant/libservant/EndpointManager.cpp:1390-1409 | the do-while loop returns the first passing proxy in that order, else has collected the usable ones in that order |
| `ModuloHash.GetHashProxyForNormal` | servant/libservant/EndpointManager.cpp:1363-1432 | all outcomes: the proxy the code names, the first passing rehash, the usable one the code picks, any with its retry time reset, or none |
| `ConsistentHash.ByHostKeepsFirst` | servant/libservant/EndpointManager.cpp:761-763 | of several endpoints with one host the index keeps the first |
| `ConsistentHash.KeptOfConcat` | servant/libservant/EndpointManager.cpp:734-744 | all endpoints are kept, or with static weights those of positive weight, in their order |
| `ConsistentHash.EndpointManager.constructor` | servant/libservant/EndpointManager.cpp:652-663 | what it was given, empty tables, snapshots and rings, and a current ring |
| `ConsistentHash.EndpointManager.SetWeight` | servant/servant/AdapterProxy.h:180-185 | a changed weight is flagged |
| `ConsistentHash.EndpointManager.AddAllActive` | servant/libservant/EndpointManager.cpp:734-767 | active endpoints: lists, index and sorted copy in step, registry flag set, weights entered and every changed one flagged |
| `ConsistentHash.EndpointManager.AddAllInactive` | servant/libservant/EndpointManager.cpp:769-797 | inactive endpoints clear the registry flag, also of an indexed proxy; their weights are entered and every changed one is flagged |
| `ConsistentHash.EndpointManager.UpdateEndpoints` | servant/libservant/EndpointManager.cpp:712-808 | index, copy and weights are rebuilt, every changed weight is flagged, snapshots and rings stay, the inclusion chain holds; afterwards the plain ring is current unless it is empty and its snapshot names just the indexed hosts |
| `ConsistentHash.EndpointManager.CheckConHashChange` | servant/libservant/EndpointManager.cpp:1119-1172 | every struck host is put back; true if and only if the host sets differ or, weighted, an indexed proxy's weight is flagged |
| `ConsistentHash.AddNodes` | servant/libservant/EndpointManager.cpp:1312-1330 | a point is on the ring if and only if it is one of the four digest words of virtual name j of a host, j below 25 on a plain ring, and below a quarter of the weight or zero on a weighted one for a positive weight; so a host owns 100 points, or its weight rounded down to a multiple of four but four at least |
| `ConsistentHash.AddedAreOnRing` | servant/libservant/EndpointManager.cpp:1312-1330 | the points added for a host are exactly those that belong on the ring for it |
| `ConsistentHash.RingHosts` | servant/libservant/EndpointManager.cpp:1312-1330 | the hosts of a ring are exactly the eligible ones, each point being a digest word of a virtual name |
| `ConsistentHash.EndpointManager.UpdateConHash` | servant/libservant/EndpointManager.cpp:1301-1361 | rebuilds ring and snapshot from the sorted hosts, with exactly those points and shares, 100 points a host on the plain ring; with none it empties the ring and leaves the snapshot |
| `ConsistentHash.EndpointManager.Refresh` | servant/libservant/EndpointManager.cpp:1442-1451 | afterwards sorted hosts are indexed hosts, and the ring is that of their points if they changed, a weight is flagged (weighted), or it is a plain ring with any point |
| `ConsistentHash.EndpointManager.Strike` | servant/libservant/EndpointManager.cpp:1475-1484 | a failed host leaves the sorted hosts, and the index only if the registry calls it inactive; the new ring has exactly the points of the others |
| `ConsistentHash.StrikingSparesOthers` | servant/libservant/EndpointManager.cpp:1475-1484 | striking a host leaves every code that another host answered at its point, except the code of a point that became the first (if and only if) |
| `ConsistentHash.EndpointManager.TryOnce` | servant/libservant/EndpointManager.cpp:1453-1493 | one lookup: the host is the one the ring answers the code with, and it is always indexed, so the "not found" branch is dead |
| `ConsistentHash.EndpointManager.TryNext` | servant/libservant/EndpointManager.cpp:1453-1493 | one round: the host looked up is chosen if it will do, else struck, which shrinks the sorted hosts |
| `ConsistentHash.TriedInTurn` | servant/libservant/EndpointManager.cpp:1453-1493 | each host tried is the one that the ring of the hosts not tried before it answers the code with |
| `ConsistentHash.EndpointManager.TryRing` | servant/libservant/EndpointManager.cpp:1453-1492 | the loop terminates by the sorted hosts, tries each host at most once and in turn, and returns only a registry-active proxy that passes and that the ring of the hosts left answers the code with |
| `ConsistentHash.CurrentAfterwards` | servant/libservant/EndpointManager.cpp:1301-1308 | a search leaves its ring current unless it emptied it and the last host struck is the only one still indexed |
| `ConsistentHash.EndpointManager.SearchRing` | servant/libservant/EndpointManager.cpp:1442-1492 | check, rebuild and search together, and what becomes of a ring that was not current |
| `ConsistentHash.EndpointManager.GetConHashProxy` | servant/libservant/EndpointManager.cpp:1434-1495 | all outcomes of the plain and the weighted selection; every host tried, and the one chosen, is the one that the ring of the hosts left answers the code with (on a weighted ring from the second on); the plain one falls back only after trying every indexed host if its ring was current, and without a lookup if it was not; in either mode, and as an if and only if over ring, snapshot and index, whether the plain ring is current afterwards |
| `ConsistentHash.EndpointManager.OnlyHostIsNotRetried` | servant/libservant/EndpointManager.cpp:1482-1484 | the only indexed host, once failed, is not looked up by the next call although it is healthy again, against the comment there |
| `ConsistentHash.EndpointManager.AnUpdateStrandsTheRing` | servant/libservant/EndpointManager.cpp:1119-1172 | for any number of hosts: all fail in one call, an update leaves just the one tried last, and the next call does not look it up although it is healthy again |
| `ConsistentHash.EndpointManager.ARestoredListStrandsTheRing` | servant/libservant/EndpointManager.cpp:1119-1172 | an update without active hosts, a call, an update that lists the hosts of before: no host is looked up by the next call, whichever of them pass |
| `ConsistentHash.EndpointManager.CurrentUnless` | servant/libservant/EndpointManager.cpp:1119-1172 | in every reachable state the plain ring fails to be current if and only if it is empty while its snapshot names just the indexed hosts and there is one |
| `SeqManager.WalkIsQueue` | servant/libservant/ServantProxy.cpp:37-108 | following next from the head visits the linked ids in order and ends at the sentinel |
| `SeqManager.AppendKeepsLinks` | servant/libservant/ServantProxy.cpp:97-107 | linking a returned id behind the tail |
| `SeqManager.Manager.constructor` | servant/libservant/ServantProxy.cpp:37-56 | a fresh manager has every id free in order |
| `SeqManager.Manager.Get` | servant/libservant/ServantProxy.cpp:67-88 | takes the head of the free list; the asserts at lines 73 and 79 hold |
| `SeqManager.Manager.Del` | servant/libservant/ServantProxy.cpp:90-108 | puts the id behind the tail, or starts a new list |
| `SeqManager.Manager.FreeListIsExact` | servant/libservant/ServantProxy.cpp:67-108 | the walk from _free visits precisely the free-flagged slots, once each, and ends at _freeTail |
| `SeqManager.FirstInFirstOut` | servant/libservant/ServantProxy.cpp:67-108 | over any run ids are issued in the order in which they became free |
| `SeqManager.StepKeepsSound` | servant/libservant/ServantProxy.cpp:67-108 | free and held ids are disjoint, distinct, and together num, after each operation |
| `SeqManager.RunsKeepSound` | servant/libservant/ServantProxy.cpp:67-108 | the same holds after every run |
| `SeqManager.FreshManagerIssues` | servant/libservant/ServantProxy.cpp:37-88 | the k-th id a fresh manager issues: k for the first num, then the released ids in order |
| `Framing.NetworkOrderReadsBack` | servant/servant/AppProtocol.h:40-51 | a 32-bit length written in network order reads back modulo 2^32 |
| `Framing.HighByteDecides` | servant/servant/AppProtocol.h:40-51 | network order puts the most significant byte first |
| `Framing.FrontIsStable` | servant/servant/AppProtocol.h:86-116 | more bytes never change a verdict once there is one |
| `Framing.FrontExactly` | servant/servant/AppProtocol.h:83-125 | every verdict on a complete length field: bad if it is too small to hold itself or above the limit, however much is there; else awaited, then framed; in either byte order |
| `Framing.IncompleteNeedsMore` | servant/servant/AppProtocol.h:83-92 | an incomplete length field needs more |
| `Framing.DecodeContinues` | servant/servant/AppProtocol.h:83-125 | decoding a stream in two parts is decoding it whole |
| `Framing.TarsRequest` | servant/libservant/AppProtocol.cpp:48-66 | reserve, write the body, overwrite the length: the array is the length-prefixed body |
| `Framing.DecodeInvertsEncode` | servant/libservant/AppProtocol.cpp:48-66 | decoding any concatenation of encoded bodies that fit yields exactly those packets, in order, with nothing left |
| `Framing.ComesBackIffFits` | servant/servant/AppProtocol.h:107-111 | one encoded body comes back if and only if it fits the package limit |
| `Framing.NetWorkBuffer.AddBuffer` | util/src/tc_network_buffer.cpp:180-186 | a chunk goes behind the content |
| `Framing.NetWorkBuffer.GetHeader` | util/src/tc_network_buffer.cpp:454-471 | the first len bytes across chunks, or nothing |
| `Framing.NetWorkBuffer.MoveHeader` | util/src/tc_network_buffer.cpp:473-508 | drops exactly len bytes across chunks, or nothing |
| `Framing.ParseStream` | servant/servant/AppProtocol.h:83-125 | consumes a whole frame or nothing, and which of the three verdicts it gives |
| `Framing.ParsePacket` | servant/servant/AppProtocol.h:83-125 | each call takes one packet off the decoding of the content |
| `Framing.Drain` | servant/servant/AppProtocol.h:83-125 | calling it until it stops yields the decoding of the content |
| `Framing.Receive` | servant/servant/AppProtocol.h:83-125 | for every cutting of a stream into chunks the packets are those of the whole stream |
| `StatReport.Reporter.ReportMicMsg` | servant/libservant/StatReport.cpp:401-464 | the batches concatenate to the collected records, none exceeds the limit unless it is a single record, each is closed only because the next record did not fit; the first may be empty |
| `StatReport.GreedyIsUnique` | servant/libservant/StatReport.cpp:417-444 | these properties leave only one way of cutting |
| `StatReport.SizeIsTextLength` | servant/libservant/StatReport.cpp:420-421 | the estimated size of a record is 100 and the length of its six names |
| `StatReport.AddCounts` | servant/libservant/StatReport.cpp:635-650 | interval counts are added per interval |
| `StatReport.AddMicMsg` | servant/libservant/StatReport.cpp:617-661 | merging in place equals the pointwise merge |
| `StatReport.MergeCommutes` | servant/libservant/StatReport.cpp:617-661 | merging commutes |
| `StatReport.MergeAssociates` | servant/libservant/StatReport.cpp:617-661 | the pointwise merge is associative on every field |
| `StatReport.OrderDoesNotMatter` | servant/libservant/StatReport.cpp:617-661 | folding any list of maps gives the same result in every order |
| `StatReport.MergeSums` | servant/libservant/StatReport.cpp:630-652 | counts, times and every interval are summed over all maps, for every head |
| `StatReport.MergeExtremes` | servant/libservant/StatReport.cpp:654-658 | the merged record of a head holds the longest and the shortest time of all its records |
| `StatReport.PlainMinLosesSamples` | servant/libservant/StatReport.cpp:657-658 | the merged minRspTime differs from the least-sample rule of submit (lines 388-391) exactly when one of two records has no sample |
| `StatReport.MergeKeepsLeastSample` | servant/libservant/StatReport.cpp:617-661 | over any list of maps the merged minRspTime of a head is the least sample if and only if all its records have a sample or none has |
| `Promise.FutureImpl.MarkFinish` | servant/promise/promise.h:294-306 | the first lock section: completes once, a second completion throws and changes nothing |
| `Promise.FutureImpl.SwapWatchers` | servant/promise/promise.h:416-420 | the second: the queued watchers are taken out, all of them |
| `Promise.FutureImpl.PushWatcher` | servant/promise/promise.h:407-410 | a watcher goes behind the queue |
| `Promise.FutureImpl.Complete` | servant/promise/promise.h:374-394 | completion with no other thread about runs every queued watcher once, in order |
| `Promise.FutureImpl.AppendWatcher` | servant/promise/promise.h:396-411 | append with no other thread about runs or queues, never both |
| `Promise.StepKeeps` | servant/promise/promise.h:374-428 | every step of every thread keeps the invariant: one winner, and each watcher in one place with the times to match |
| `Promise.RunsKeep` | servant/promise/promise.h:374-428 | every interleaving keeps the invariant |
| `Promise.OutcomeIsFixed` | servant/promise/promise.h:296-303 | an outcome once set never changes |
| `Promise.RunsAtMostOnce` | servant/promise/promise.h:410-428 | in every interleaving each watcher runs at most once, and only after completion |
| `Promise.QueueingGoesBehind` | servant/promise/promise.h:397-411 | a queued watcher goes behind the others |
| `Promise.WatchersRunInOrder` | servant/promise/promise.h:415-428 | the setter that completed the future takes all queued watchers and runs them in their order |
| `Promise.OneSetterSucceeds` | servant/promise/promise.h:374-394 | of all racing setters exactly one succeeds, the others throw, and the outcome is the one it wanted |
| `Promise.LostExactlyInTheWindow` | servant/promise/promise.h:396-428 | at rest a watcher has not run if and only if its appender looked before completion and queued after the swap |
| `Promise.NeverDoneNeverRun` | servant/promise/promise.h:407-410 | a future nobody completes keeps every watcher and runs none |
| `Promise.AtomicAppendLosesNothing` | servant/promise/promise.h:396-411 | with looking and queueing in one lock section every watcher runs exactly once |
| `Promise.AWatcherIsLost` | servant/promise/promise.h:396-428 | a run of five steps that loses a watcher |
| `WhenAll.StepKeeps` | servant/promise/when_all.h:142-155 | every step keeps: slots written match the callbacks run, the count is that of the callbacks to come, one firing in all |
| `WhenAll.RunsKeep` | servant/promise/when_all.h:142-155 | every interleaving keeps the invariant |
| `WhenAll.SetAtMostOnce` | servant/promise/when_all.h:142-155 | the combined promise is set at most once, and then every slot k holds future k |
| `WhenAll.TheLastOneSets` | servant/promise/when_all.h:145-151 | it is set by the callback that found the count at one, and nothing is written or decremented afterwards |
| `WhenAll.SetExactlyOnce` | servant/promise/when_all.h:142-155 | it is set exactly once if and only if all callbacks returned |
| `WhenAll.ParallelCallback.constructor` | servant/promise/when_all.h:134-138 | slots and count for n futures |
| `WhenAll.ParallelCallback.OnFuture` | servant/promise/when_all.h:142-155 | one callback taken whole, of any future not yet in, in whatever order: its slot alone is written, and the last one sets the promise to the full slots |
| `WhenAll.WhenAllDone` | servant/promise/when_all.h:173-191 | over futures already done the promise is set to all of them; over none, to the empty vector |
| `ThenChain.StepKeeps` | servant/promise/promise.h:519-599 | whatever is completed has its meaning; a forwarding future will get it |
| `ThenChain.QuiescentIsComplete` | servant/promise/promise.h:688-700 | when nothing can happen any more every future is completed |
| `ThenChain.Confluent` | servant/promise/promise.h:519-599 | in every order of registration and completion each future gets the fold of its watchers: inner futures flattened, exceptions kept |
| `ThenChain.RestIsConsistent` | servant/promise/promise.h:519-599 | at rest, told from the outcomes alone: each future has what its watcher made of the outcome of its parent, an inner future being handed on and an exception staying one |
| `ThenChain.OrderDoesNotMatter` | servant/promise/promise.h:519-599 | two runs that came to rest agree on every future |
| `ThenChain.RunsAreFinite` | servant/promise/promise.h:688-700 | no run is longer than three steps a future |
| `ThenChain.ChainIsFold` | servant/promise/promise.h:688-700 | a straight chain of thens is the fold of its watchers over the first outcome |
| `TimeoutQueue.PushKeeps` | util/include/util/tc_timeout_queue_new.h:238-262 | pushing keeps the unsent list exactly the unsent messages, each once |
| `TimeoutQueue.EraseKeeps` | util/include/util/tc_timeout_queue_new.h:324-341 | erasing keeps the unsent list exactly the unsent messages |
| `TimeoutQueue.PopKeeps` | util/include/util/tc_timeout_queue_new.h:190-202 | taking the oldest unsent off the list keeps it exact |
| `TimeoutQueue.TimeoutQueueNew.GenerateId` | util/include/util/tc_timeout_queue_new.h:228-236 | ids are 32 bits wide, wrap and skip zero |
| `TimeoutQueue.IdsDiffer` | util/include/util/tc_timeout_queue_new.h:228-236 | all 2^32 - 1 ids are issued before one comes again |
| `TimeoutQueue.TimeoutQueueNew.GetSend` | util/include/util/tc_timeout_queue_new.h:175-187 | the oldest unsent message, never a sent one |
| `TimeoutQueue.TimeoutQueueNew.Push` | util/include/util/tc_timeout_queue_new.h:238-262 | a taken id is refused and changes nothing; else the message is filed under the id with the deadline given, unsent at the end of the list, and nothing else changes |
| `TimeoutQueue.TimeoutQueueNew.PopSend` | util/include/util/tc_timeout_queue_new.h:190-202 | the oldest leaves the list, marked as sent, or with del the data and the deadlines too; no other entry changes |
| `TimeoutQueue.TimeoutQueueNew.Erase` | util/include/util/tc_timeout_queue_new.h:324-341 | a known id leaves all three structures, and nothing else does |
| `TimeoutQueue.TimeoutQueueNew.Timeout` | util/include/util/tc_timeout_queue_new.h:283-300 | takes out a message exactly if one is due, and then one of the earliest deadline |
| `Connection.InvokeSerialKeepsLedger` | servant/libservant/AdapterProxy.cpp:322-380 | every branch of the serial invoke puts the message in one place |
| `Connection.InvokeParallelKeepsLedger` | servant/libservant/AdapterProxy.cpp:382-447 | every branch of the parallel invoke puts the message in one place |
| `Connection.InvokeKeepsLedger` | servant/libservant/AdapterProxy.cpp:449-486 | invoke, with its limit and id generation, puts the message in one place |
| `Connection.FlushKeepsLedger` | servant/libservant/AdapterProxy.cpp:524-561 | sending queued messages keeps the ledger |
| `Connection.FlushSerialKeepsLedger` | servant/libservant/AdapterProxy.cpp:488-522 | sending one queued message in serial mode keeps the ledger |
| `Connection.StepKeepsLedger` | servant/libservant/AdapterProxy.cpp:322-561 | every step keeps it: each message is in the queue, finished or lost, in one of them only, and finished at most once |
| `Connection.StepKeepsFiled` | servant/libservant/AdapterProxy.cpp:322-561 | every step keeps each queued message filed under its own id and its own deadline |
| `Connection.Final` | servant/libservant/AdapterProxy.cpp:322-561 | the ledger holds after every run |
| `Connection.RunsKeepFiled` | servant/libservant/AdapterProxy.cpp:322-561 | after every run each queued message is filed under its own id and deadline |
| `Connection.LostOnlyByThrowing` | util/src/tc_transceiver.cpp:1016-1031 | a message is lost exactly when it is sent directly and the transport throws |
| `Connection.NothingIsLost` | servant/libservant/AdapterProxy.cpp:322-849 | without such a throw every message is queued or finished, never both |
| `Connection.AThrownMessageIsLost` | util/src/tc_transceiver.cpp:1027-1031 | a message whose direct send throws is in no queue and never finished |
| `RequestEffects.InvokeSends` | servant/libservant/AdapterProxy.cpp:322-486 | a request is sent if and only if the unsent list is within its limit, nothing is ahead of it and the transport takes it; what becomes of the id generator, the request of serial mode and the wire |
| `RequestEffects.InvokeQueues` | servant/libservant/AdapterProxy.cpp:322-486 | it stays queued, under its id and own deadline, if and only if it is not refused, not one-way and sent, the connection did not fail and its id is free; no other entry changes |
| `RequestEffects.InvokeFinishes` | servant/libservant/AdapterProxy.cpp:322-486 | otherwise it is over at once: lost if the transport threw, else finished |
| `RequestEffects.AnswerFinishesItsRequest` | servant/libservant/AdapterProxy.cpp:798-849 | in parallel mode a reply finishes exactly the request it names and takes just that out of the queue; any other changes nothing |
| `RequestEffects.TimeoutFinishesItsRequest` | servant/libservant/AdapterProxy.cpp:965-1001 | a timeout finishes exactly its message, and closes the connection if and only if that was the request of serial mode |
| `RequestEffects.ClosingKeepsRequests` | servant/libservant/AdapterProxy.cpp:322-561 | closing the connection touches no request |
| `RequestEffects.SerialFlush` | servant/libservant/AdapterProxy.cpp:488-522 | serial mode sends the oldest waiting request when there is no other, for every answer of the transport |
| `RequestEffects.ParallelFlush` | servant/libservant/AdapterProxy.cpp:524-561 | parallel mode sends the waiting requests oldest first, exactly as many as the transport takes; the rest waits on in order |
| `RequestEffects.ParallelFlushWire` | servant/libservant/AdapterProxy.cpp:524-561 | they are what the peer then has to answer, unless the connection failed |
| `RequestEffects.ParallelFlushMarks` | servant/libservant/AdapterProxy.cpp:524-561 | each of them is marked as sent, or finished and gone if one-way; no other entry changes |
| `RequestEffects.ParallelFlushSendsAll` | servant/libservant/AdapterProxy.cpp:524-561 | a transport that takes everything leaves nothing unsent |
| `RequestEffects.RunsKeepShort` | servant/libservant/AdapterProxy.cpp:449-462 | in every run at most one request more than the limit waits to be sent |
| `SerialPairing.DirectSendFindsEmptyQueue` | servant/libservant/AdapterProxy.cpp:333-348 | when a message is sent directly the queue is empty, so the failure branch after a successful send cannot be reached |
| `SerialPairing.StepKeepsOne` | servant/libservant/AdapterProxy.cpp:322-522 | every step of serial mode keeps one request at most on a live connection |
| `SerialPairing.RunsKeepOne` | servant/libservant/AdapterProxy.cpp:322-522 | every run of invoke, send, reply, close, reconnect and timeout keeps one request at most |
| `SerialPairing.AtMostOneOutstanding` | servant/libservant/AdapterProxy.cpp:322-522 | after every run at most one request is outstanding |
| `SerialPairing.AnswersArePaired` | servant/libservant/AdapterProxy.cpp:761-796 | an answer finishes the request it answers, and the asserts at lines 783 to 786 hold, after every run |
| `SerialPairing.NothingSentMeanwhile` | servant/libservant/AdapterProxy.cpp:488-495 | a request left over from a closed connection holds back all sending until it is answered or times out |
| `SerialPairing.StrayReply` | servant/libservant/AdapterProxy.cpp:765-775 | a reply nobody asked for is dropped if and only if there is no request; else it is taken for the answer |
| `SerialPairing.AStrayReplyCanBeMistaken` | servant/libservant/AdapterProxy.cpp:765-794 | a concrete run where a stray reply is taken for the answer |
| `NoOvertaking.SubWithout` | servant/libservant/AdapterProxy.cpp:524-561 | striking one element keeps a sequence a subsequence |
| `NoOvertaking.UnsentAfterErase` | util/include/util/tc_timeout_queue_new.h:324-341 | taking a message out of the queue keeps the order of the others |
| `NoOvertaking.InvokeKeepsOrder` | servant/libservant/AdapterProxy.cpp:382-447 | a direct or queued message goes behind all earlier ones |
| `NoOvertaking.FlushKeepsOrder` | servant/libservant/AdapterProxy.cpp:524-561 | flushing moves the oldest unsent to the end of the accepted |
| `NoOvertaking.StepKeepsOrder` | servant/libservant/AdapterProxy.cpp:382-561 | every step keeps accepted followed by unsent in the order of invoke |
| `NoOvertaking.AcceptedInOrder` | servant/libservant/AdapterProxy.cpp:382-561 | in every run what the transport accepted is a subsequence of what invoke received |
| `AdapterRequests.AdapterProxy.InvokeConnectionSerial` | servant/libservant/AdapterProxy.cpp:322-380 | the method, on fields and queue object, does what Connection.InvokeSerial does, about which the ledger and pairing theorems speak |
| `AdapterRequests.AdapterProxy.InvokeConnectionParallel` | servant/libservant/AdapterProxy.cpp:382-447 | the method does what Connection.InvokeParallel does, about which the ledger and order theorems speak |
| `AdapterRequests.AdapterProxy.Invoke` | servant/libservant/AdapterProxy.cpp:449-486 | the method does what Connection.Invoke does, with limit and id generation |
| `AdapterRequests.AdapterProxy.DoInvokeSerial` | servant/libservant/AdapterProxy.cpp:488-522 | the method does what Connection.DoInvokeSerial does, for every answer of the transport |
| `AdapterRequests.AdapterProxy.DoInvokeParallel` | servant/libservant/AdapterProxy.cpp:524-561 | the loop over the unsent list does what Connection.DoInvokeParallel does, for any answers of the transport |
| `AdapterRequests.AdapterProxy.FinishInvoke` | servant/libservant/AdapterProxy.cpp:761-849 | a reply in either mode; in parallel mode the request it names is finished and leaves the queue, and nothing else changes; a push message, id zero, leaves the requests alone and throws if there is no push callback; the serial asserts hold |
| `AdapterRequests.AdapterProxy.TimeoutOne` | servant/libservant/AdapterProxy.cpp:965-1001 | one message past its own deadline, of the earliest deadline, is finished; its connection is closed if it was the request |
| `AdapterRequests.AdapterProxy.DoTimeout` | servant/libservant/AdapterProxy.cpp:965-1001 | exactly the messages past their own deadlines leave the queue and are finished, earliest deadline first; the others stay as they are |
| `AdapterRequests.ExpiringKeepsLedger` | servant/libservant/AdapterProxy.cpp:965-1001 | timing out any messages keeps the ledger |
| `AdapterRequests.ExpiredAreFinished` | servant/libservant/AdapterProxy.cpp:965-1001 | timing out messages finishes each once, in order, and takes just them out of the queue |
| `RequestLifecycle.InOnePlace` | servant/libservant/ObjectProxy.cpp:111-196 | a submitted request waits, was finished here, or is in one adapter and there in one place |
| `RequestLifecycle.QueuedOrOver` | servant/libservant/ObjectProxy.cpp:315-340 | a request is queued somewhere if and only if it is not over |
| `RequestLifecycle.TakingKeeps` | servant/libservant/ObjectProxy.cpp:166-169 | a request taken out of the object queue is nowhere else |
| `RequestLifecycle.GivingKeeps` | servant/libservant/ObjectProxy.cpp:157-193 | giving it to an adapter keeps every request in one place |
| `RequestLifecycle.ObjectProxy.Invoke` | servant/libservant/ObjectProxy.cpp:111-158 | where a request goes for each answer of the endpoint manager, and with which deadline |
| `RequestLifecycle.ObjectProxy.PrepareOne` | servant/libservant/ObjectProxy.cpp:164-193 | one round: a hashed request without adapter selects one, or is finished and ends the loop |
| `RequestLifecycle.ObjectProxy.PrepareConnection` | servant/libservant/ObjectProxy.cpp:160-196 | the waiting requests move on in order until the loop ends, the rest keep waiting; none is lost or doubled |
| `RequestLifecycle.RoundGoesOn` | servant/libservant/ObjectProxy.cpp:164-193 | the loop goes on exactly if the request got an adapter and its direct send did not throw; no other adapter is touched |
| `RequestLifecycle.GoesToLastPick` | servant/libservant/ObjectProxy.cpp:164-193 | a request the loop gives away goes to the adapter at hand: the last one selected by a hashed request up to it, or else the one that connected |
| `RequestLifecycle.OthersWaitOrFail` | servant/libservant/ObjectProxy.cpp:164-193 | a request the loop does not give away waits on, or was finished because no adapter was selected for it |
| `RequestLifecycle.PreparedKeeps` | servant/libservant/ObjectProxy.cpp:160-196 | every run of the loop keeps every request in one place |
| `RequestLifecycle.GoesExactlyToLastPick` | servant/libservant/ObjectProxy.cpp:160-196 | request k goes to adapter a if and only if the loop gives it away and a is the adapter at hand then |
| `RequestLifecycle.LaterRequestsFollow` | servant/libservant/ObjectProxy.cpp:172-193 | a queue where that is another one than the one connected: a plain request follows a hashed one |
| `RequestLifecycle.ObjectProxy.TimeoutAdapters` | servant/libservant/ObjectProxy.cpp:323-331 | in every adapter exactly the messages past their own deadlines are out and finished |
| `RequestLifecycle.ObjectProxy.DoTimeout` | servant/libservant/ObjectProxy.cpp:315-340 | exactly what is past its deadline is out of its queue and finished, the waiting requests earliest deadline first, and the rest waits on in order; an object not yet initialised does nothing |
| `RequestLifecycle.ObjectProxy.AdapterStep` | servant/libservant/AdapterProxy.cpp:524-1001 | replies, sends and closes at any adapter keep every request in one place |
| `CircuitBreaker.AdapterProxy.FinishInvoke` | servant/libservant/AdapterProxy.cpp:575-677 | the counters and both blocking rules as the step function has them, about which the theorems over histories speak |
| `CircuitBreaker.AdapterProxy.CheckActive` | servant/libservant/AdapterProxy.cpp:688-739 | when checkActive attempts a connection and what it answers |
| `CircuitBreaker.AdapterProxy.AddConnExc` | servant/libservant/AdapterProxy.cpp:1193-1219 | connection failures block once, a connection clears |
| `CircuitBreaker.TimeoutsAtMostTotal` | servant/libservant/AdapterProxy.cpp:575-677 | after every history _timeoutInvoke is at most _totalInvoke |
| `CircuitBreaker.CountIsStreak` | servant/libservant/AdapterProxy.cpp:612-648 | after every history the failure count is the length of a streak of counted failures without a success, and the fail time is minFrequenceFailTime after its first; blocking and reconnecting do not interrupt it |
| `CircuitBreaker.FrequencyRuleNeedsAStreak` | servant/libservant/AdapterProxy.cpp:626-648 | the frequency rule blocks only at the end of such a streak, with at least frequenceFailInvoke failures and minFrequenceFailTime after the first |
| `CircuitBreaker.CountsTheStreak` | servant/libservant/AdapterProxy.cpp:612-648 | after every history the failure count is that of the counted failures since the last success, and the fail time belongs to the first of them |
| `CircuitBreaker.CountsTheWindow` | servant/libservant/AdapterProxy.cpp:575-676 | after every history the counters are the replies and counted failures since the last window ended or the node came back, and the next time is an interval after that |
| `CircuitBreaker.FailureBlocksExactly` | servant/libservant/AdapterProxy.cpp:612-676 | a counted failure blocks the node if and only if the frequency rule or the share rule says so, both told from the events |
| `CircuitBreaker.FirstFailureIsNoLargeShare` | servant/libservant/AdapterProxy.cpp:655-676 | with the default settings a first failure since counting started never blocks |
| `CircuitBreaker.ActiveExactly` | servant/libservant/AdapterProxy.cpp:575-1219 | for every event, when the node is active afterwards, as an if and only if over the events so far: replies, attempts, connection failures, blocking by another adapter |
| `CircuitBreaker.OneFailureNeverBlocks` | servant/libservant/AdapterProxy.cpp:634-634 | with the default settings: an earlier counted failure, five seconds or more before |
| `CircuitBreaker.RetryTimeStays` | servant/libservant/AdapterProxy.cpp:679-713 | once an event has set the retry time an interval ahead, it stays at least there as long as it is not reset to now |
| `CircuitBreaker.RetryTimeMoves` | servant/libservant/AdapterProxy.cpp:575-745 | the retry time moves exactly with a blocking or an attempt on a blocked node, an interval ahead, and with a reset, to now |
| `CircuitBreaker.AttemptsAreApart` | servant/libservant/AdapterProxy.cpp:704-713 | any two attempts on a blocked node are tryTimeInterval apart, whatever happens between, unless resetRetryTime(false) ran |
| `CircuitBreaker.BlockingSetsRetryTime` | servant/libservant/AdapterProxy.cpp:575-745 | whatever blocks an active node sets the retry time an interval ahead, if and only if it is not a failing attempt of checkActive or the old retry time was as late |
| `CircuitBreaker.AttemptsAfterBlocking` | servant/libservant/AdapterProxy.cpp:575-745 | over histories: after a node is blocked, attempts before a reset are an interval away, except after such a failing attempt |
| `CircuitBreaker.NextAttemptAfterBlocking` | servant/libservant/AdapterProxy.cpp:704-713 | exactly when the event after the blocking one can be an attempt: an interval later, or after a failing attempt from the old retry time on |
| `CircuitBreaker.FirstFailureSetsNoRetryTime` | servant/libservant/AdapterProxy.cpp:717-730 | a fresh node, the failing attempt that blocks it, and the next attempt in the same second |
| `CircuitBreaker.ComesBackOnlyOn` | servant/libservant/AdapterProxy.cpp:582-605 | a blocked node that is active again has had a successful reply or a connection in between |
| `RegistryRefresh.QueryEpBase.constructor` | servant/libservant/EndpointManager.cpp:27-319 | the refresh interval is the configured one but at least five seconds; given or cached endpoints, active and inactive, are taken over; when the data is valid at once; the inactive list, if there is one, decides on static weights |
| `RegistryRefresh.QueryEpBase.DoEndpointsExp` | servant/libservant/EndpointManager.cpp:570-591 | a failure: next query in two seconds, after more than three in a row in thirty and the data declared valid |
| `RegistryRefresh.QueryEpBase.DoEndpoints` | servant/libservant/EndpointManager.cpp:454-568 | what an answer changes, and that endpoints are passed on exactly when their addresses changed |
| `RegistryRefresh.QueryEpBase.RefreshReg` | servant/libservant/EndpointManager.cpp:321-360 | outer update, timeout and guard, in this order |
| `RegistryRefresh.Collect` | servant/libservant/EndpointManager.cpp:489-539 | the loop over a reply: first endpoint per address; static weights if and only if all endpoints say so and there is one |
| `RegistryRefresh.GuardStaysShut` | servant/libservant/EndpointManager.cpp:331-345 | after a pass the guard stays shut for the failure interval, whatever comes |
| `RegistryRefresh.PassesAreApart` | servant/libservant/EndpointManager.cpp:331-345 | two passes of the guard are at least _failInterval apart despite timeouts, late callbacks and outer updates |
| `RegistryRefresh.NotifiesAtMostOnce` | servant/libservant/EndpointManager.cpp:563-591 | _valid never falls back, and doNotify is called at most once |
| `RegistryRefresh.NeverEmptied` | servant/libservant/EndpointManager.cpp:467-475 | for other than interface requests no answer empties a non-empty active set |
| `RegistryRefresh.FailuresCount` | servant/libservant/EndpointManager.cpp:331-591 | as long as no answer succeeds the failure count is the number of failed answers and of timeouts |
| `RegistryRefresh.FailureDelaysQuery` | servant/libservant/EndpointManager.cpp:570-591 | after a failure, answer or timeout, the next query is due in two seconds, from the fourth in a row on in thirty |
| `RegistryRefresh.ValidAfterFourFailures` | servant/libservant/EndpointManager.cpp:570-591 | without outer updates data not yet valid becomes so if and only if more than three failures came in a row |
| `RegistryRefresh.SuccessSchedules` | servant/libservant/EndpointManager.cpp:454-568 | after a success the next query is due after the refresh interval, or in ten seconds without active endpoints; which lists are then held, the inactive one included |
| `RegistryRefresh.PassesExactly` | servant/libservant/EndpointManager.cpp:331-345 | a query is made if and only if its time has come and none is on its way |
| `RegistryRefresh.GivenUpAfterFiveSeconds` | servant/libservant/EndpointManager.cpp:331-345 | an unanswered query is given up by the first refresh more than five seconds later, and no other is made before |
| `RegistryRefresh.OuterCounts` | servant/libservant/EndpointManager.cpp:679-710 | an update from outside makes the data valid with the next refresh, without a notification, and puts the next query off by the refresh interval |
| `RegistryRefresh.HeldAsAnswered` | servant/libservant/EndpointManager.cpp:536-556 | an answer is held as given if and only if its addresses are new or it is what is held already |
| `RegistryRefresh.WeightChangeIsMissed` | servant/libservant/EndpointInfo.cpp:60-66 | an answer that only changes a weight is dropped, because endpoints are compared by address |

## Left out

- EndpointRouter.EndpointManager.GetWeightedForNormal: requires at most MAX_NODES (1,048,575) active proxies, up to which no running key can leave the source's `int`; beyond that the source may overflow, which the model does not follow.
- EndpointRouter.EndpointManager.UpdateHashProxyWeighted: requires at most MAX_NODES (1,048,575) registered proxies, up to which no running key can leave the source's `int`.
- EndpointRouter.EndpointManager.UpdateStaticWeighted: requires at most MAX_NODES (1,048,575) weighted proxies, up to which no running key can leave the source's `int`.
- EndpointRouter.EndpointManager.UpdateProxyWeighted: requires at most MAX_NODES (1,048,575) active proxies, up to which no running key can leave the source's `int`.
- EndpointRouter.EndpointManager.Rebuild: requires at most MAX_NODES (1,048,575) active proxies, up to which no running key can leave the source's `int`.
- EndpointRouter.EndpointManager.PassingCall: requires at most MAX_NODES (1,048,575) active proxies, up to which no running key can leave the source's `int`.
- EndpointRouter.EndpointManager.PassingCalls: requires at most MAX_NODES (1,048,575) active proxies, up to which no running key can leave the source's `int`.
- EndpointRouter.EndpointManager.FullTurn: requires at most MAX_NODES (1,048,575) active proxies, up to which no running key can leave the source's `int`.
- EndpointRouter.EndpointManager.DispatchEndpointCache: requires KeysFit, W times the number of binary digits of n below 2^31, which bounds every key (`KeyBound.KeyAtMostHalvings`); a larger W may overflow the source's `int`.
- WeightedRouter.Round: requires KeysFit, for the same reason.
- WeightedRouter.Seed: requires KeysFit, for the same reason.
- WeightedRouter.Fill: requires KeysFit, for the same reason.
- EndpointRouter.EndpointManager.UpdateEndpoints: takes the filtered, ordered proxy lists as they result from the registry's sets; `ConsistentHash` models the filtering.
- EndpointRouter.EndpointManager.constructor: `_first` and `_lastBuildWeightTime` are not initialised by the source and start as any values.
- WeightedRouter.Spread: one function for the body that the source has twice; its scaling loop runs in two passes. It requires KeysFit of the scaled weights.
- ConsistentHash.EndpointManager.UpdateEndpoints: the order of `_vRegProxys` (by description) is any order without repetition.
- ConsistentHash.EndpointManager.GetConHashProxy: one method for the two copies of the loop. That the weighted ring is up to date with the weights at its first lookup is not claimed: it is rebuilt exactly when hosts changed or an indexed node is flagged (`CheckConHashChange`), and a plain rebuild clears the flags (`UpdateConHash`).
- HashRing.SortPoints: equal codes come out in one possible order; the digest (MD5) is an arbitrary function.
- ModuloHash.GetHashProxyForNormal: `getHashProxyForWeight` repeats its fallback and adds an index into the hash router cache; it is not modelled.
- Connection.StepKeepsLedger: a callback that runs on the network thread and calls back into the same proxy (reentrancy) is not modelled, nor is a change between serial and parallel mode on a live proxy.
- SerialPairing.StepKeepsOne: excludes one-way messages as the source's assert does; `doKeepAlive` sends one-way pings and would violate that assert in serial mode.
- AdapterRequests.AdapterProxy.FinishInvoke: the message a push starts is dispatched at once and is in no queue; its callback is left out.
- RequestLifecycle.ObjectProxy.PrepareConnection: adapters are values in a sequence rather than shared objects, so aliasing between adapters is not captured; `AdapterRequests` has the adapter as an object.
- RequestLifecycle.ObjectProxy.DoTimeout: adapters time out their messages in any order; the object's queue in order of deadline.
- CircuitBreaker.TimeoutsAtMostTotal: counters are unbounded where the source has 32 bits; reaching the wrap takes four thousand million replies within one interval.
- CircuitBreaker.AdapterProxy.FinishInvoke: the share of failures is compared in `real`, the source uses `float`.
- RegistryRefresh.QueryEpBase.RefreshReg: which registry function is called and the endpoint cache file are left out, and so is what `doNotify` and `notifyEndpoints` set in motion.
- RegistryRefresh.QueryEpBase.constructor: takes given and cached endpoints as parsed lists; that an unparsable endpoint is skipped is left out, and so is an invalid locator.
- ThenChain.Confluent: appending a watcher is one step; module `Promise` has the two lock sections. Cyclic waits, where a watcher returns a future that waits for its own result, are excluded by numbering.
- WhenAll.SetExactlyOnce: starts from registered callbacks; a callback lost in the window of `appendWacther` never runs. The tuple form of WhenAll has the same steps and is not modelled separately.
- Framing.ParseStream: for `uint32_t` lengths, at any offset and in either byte order; other widths are left out.
- StatReport.OrderDoesNotMatter: sums are unbounded integers. `submit` and `getIntervCount`, which fill the maps, are left out.
- Sockets, epoll, SSL, authentication, coroutine scheduling, thread start and join.
- Payload codecs (Tars, TUP, JSON, HTTP) and the shared-memory containers.
- Configuration, logging, admin commands, generated code, demos, plain getters and setters.
