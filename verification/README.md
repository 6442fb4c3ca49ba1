# OpenWire: verified models of admission, pooling, dialing, follow-ups and caching

OpenWire is an HTTP client that keeps request admission, connection limits, connection
pooling, route racing, follow-up requests and caching in its own hands. This project models
those parts in Dafny and proves what they promise over every input, every run and every
interleaving. Where the source changes state in place the model is a class or a method with
loops, proved against a specification function or relation; what holds over whole runs is
proved about that specification.

| file | what it covers |
|---|---|
| `SchedulerSpec`, `SchedulerRuns`, `SchedulerGuards`, `Scheduler` | request admission: the abstract machine, its runs, callers with their guards, and the class with slab, ordered set, FIFO and counters that refines it |
| `Limiter`, `LimiterReclaim` | per-address and global connection permits under arbitrary interleaving, one atomic access at a time, and when unused semaphores are reclaimed |
| `Connections`, `Pool`, `PoolIndex`, `ConnectionPools` | pooled connections, pruning, the two indexes, and the pool's operations |
| `AuthChallenge`, `AuthRoundTrip`, `AuthLaws` | the challenge parser, the renderings it is proved to read, and what it accepts told by the grammar |
| `ConnectionHeader` | the scanner for `Connection: close` |
| `ConnectTunnel` | reading the reply to CONNECT and replaying the bytes read ahead |
| `DialRace`, `RouteOrder` | racing the routes of a plan, and the order in which addresses are raced |
| `FollowUpPolicy`, `FollowUp`, `FollowUpRuns`, `FollowUpLaws` | retries, redirects and authentication: the policies, the loop, its runs, and exactly when each kind of follow-up is made |
| `Cache`, `CacheStore`, `CacheRuns`, `CacheLaws` | the cache's rules, the memory store, calls interleaved at every wait, and exactly when it answers, validates, stores and removes |
| `Planning`, `HttpTokens`, `Wrappers` | shared types |

## Results worth knowing

- One promotion per freed slot is enough to keep the scheduler work-conserving; the test that
  a queued request blocks a new one (`queue_blocks_priority`) is therefore never true when
  there is room.
- The limiter does not always reclaim a semaphore nobody uses. `LimiterReclaim` has three runs
  that leave an entry behind: two overlapping drops, a refused caller that still has its
  handle, and a limit of zero. It says exactly when an entry stays, and that with a positive
  limit and uses of an address one after the other it never does.
- A 304 whose fields make a stored response vary by a new name moves the request it is compared
  with: later requests must agree with the validating one (`CacheRuns.ValidationMovesReference`).
- The pool's clean-up of a coalescing bucket during a lookup never finds anything to remove.
- A wildcard name accepts an empty label: `*.example.org` matches the host `.example.org`.
  `Connections.ServerNameMatchIsOneLabel` says exactly what matches.
- The CONNECT reader's limit is not a limit on the head alone. A head that ends within 8193
  bytes is accepted under every chunking, one that ends after 8704 bytes under none, and for
  the 511 positions between them the outcome depends on how the bytes arrive.

## Model

| member | source | states |
|---|---|---|
| SchedulerRuns.EveryRunKeepsInv | crates/openwire/src/connection/scheduler.rs:212-380 | in every reachable state: running counts are permits plus admitted waiters and within both caps, the queue is within its bound, queue order, sequence numbers and enqueue times agree, slab keys name one waiter, and a free global slot means no queued waiter could use it |
| SchedulerSpec.PromoteRestores | crates/openwire/src/connection/scheduler.rs:294-356 | one promotion after one freed slot restores caps and work conservation |
| SchedulerSpec.ApplyConservesWork | crates/openwire/src/connection/scheduler.rs:212-356 | each poll, collection, drop and cancellation keeps caps and work conservation |
| SchedulerSpec.ApplyKeepsOrder | crates/openwire/src/connection/scheduler.rs:125-155 | each step keeps the queue in arrival order and live slab keys distinct, although keys are reused |
| SchedulerRuns.OvertakingIsJustified | crates/openwire/src/connection/scheduler.rs:406-430 | a promotion passes over an older eligible waiter only for a strictly more urgent one, while the older one is younger than the aging wait and fewer than eight high-urgency promotions were made in a row |
| SchedulerRuns.UrgencyYieldsOnlyToAge | crates/openwire/src/connection/scheduler.rs:406-430 | a promotion passes over a more urgent waiter that could run only for the oldest one that can, and only if that one has waited 250 milliseconds or the streak is eight or more |
| SchedulerRuns.UrgencyIsHonoured | crates/openwire/src/connection/scheduler.rs:336-430 | over every run: among waiters that could run and are equally urgent the first to arrive is promoted; a more urgent one is passed over only for the oldest, aged by 250 milliseconds or after eight high-urgency promotions in a row |
| SchedulerRuns.FreeSlotMeansAddressesFull | crates/openwire/src/connection/scheduler.rs:235-356 | in every reachable state permits and admitted waiters are within the global cap and, per address, within that cap; while a global slot is free every address with a queued request is at its cap |
| SchedulerRuns.FreedSlotIsUsed | crates/openwire/src/connection/scheduler.rs:336-356 | a freed slot that some queued waiter could use is given to a waiter |
| SchedulerRuns.AgedWaiterIsNotOvertaken | crates/openwire/src/connection/scheduler.rs:235-356 | once a waiter has waited 250 milliseconds, no slot it could use goes to a later request, by promotion or by immediate admission |
| SchedulerRuns.OvertakingIsBounded | crates/openwire/src/connection/scheduler.rs:336-356 | an aged waiter still queued has been passed over at most as often as there were waiters ahead of it when it aged |
| SchedulerRuns.DominatorLeavesFirst | crates/openwire/src/connection/scheduler.rs:212-356 | of two requests for one address, a later and no more urgent one is never admitted before the earlier one has left the queue, over whole runs |
| SchedulerRuns.StaysUnlessItLeaves | crates/openwire/src/connection/scheduler.rs:308-356 | a waiter leaves the queue exactly by its own promotion or its own cancellation |
| SchedulerRuns.NeverComesBack | crates/openwire/src/connection/scheduler.rs:235-263 | a ticket queued at two points of a run was queued all along between them: once gone it never returns, although its slab key may |
| SchedulerGuards.GuardsNameTheirWaiters | crates/openwire/src/connection/scheduler.rs:190-210 | in every reachable state live guards and waiters correspond one to one: a guard's key names its own caller's ticket, although keys are reused |
| SchedulerGuards.CallersTouchOnlyTheirOwn | crates/openwire/src/connection/scheduler.rs:366-380 | through its guard a caller collects a permit for its own address or ends its own wait, and every other caller still has its waiter |
| SchedulerRuns.StreakCountsPromotions | crates/openwire/src/connection/scheduler.rs:336-356 | the saturating streak counter is the number of high-urgency promotions since the last other one |
| SchedulerRuns.StreakServesOldest | crates/openwire/src/connection/scheduler.rs:406-430 | after eight high-urgency promotions in a row each further promotion goes to the oldest eligible waiter |
| Scheduler.RequestScheduler.PollAcquire | crates/openwire/src/connection/scheduler.rs:232-277 | a first poll refines the abstract step; it is `Ready` exactly when both caps have room and is refused exactly when they do not and the queue is full |
| Scheduler.RequestScheduler.Repoll | crates/openwire/src/connection/scheduler.rs:219-233 | a repeated poll collects the permit exactly when the waiter was admitted, and changes nothing otherwise |
| Scheduler.RequestScheduler.Release | crates/openwire/src/connection/scheduler.rs:294-306 | dropping a permit refines the abstract drop: counters, slab, ordered set and FIFO stay in agreement |
| Scheduler.RequestScheduler.CancelWaiter | crates/openwire/src/connection/scheduler.rs:308-334 | dropping a guard gives an admitted waiter's slot back and promotes, or takes a queued waiter out of all three structures; unknown ids change nothing |
| Scheduler.RequestScheduler.TryPromote | crates/openwire/src/connection/scheduler.rs:336-356 | moves the selected waiter from the queue to the admitted ones and bumps both counters |
| Scheduler.RequestScheduler.SelectWaiter | crates/openwire/src/connection/scheduler.rs:406-430 | the walks over ordered set and FIFO find the waiter the abstract selection names, which `SchedulerRuns.UrgencyIsHonoured` characterises by urgency, arrival, age and streak |
| Limiter.EveryRunKeepsInv | crates/openwire/src/connection/limits.rs:372-437 | under every interleaving of lookup, acquire, refusal, return, check, lock, re-check, removal and dropping of handles: usable handles are to the current semaphore of their address, locks exclude, a remover is alone, and permits are neither lost nor made up |
| Limiter.OneSemaphorePerAddress | crates/openwire/src/connection/limits.rs:384-437 | two usable handles for one address are handles to one semaphore, in spite of reclaim |
| Limiter.CapsHold | crates/openwire/src/connection/limits.rs:145-166 | live connection permits never exceed the per-address or the global cap |
| Limiter.RefusalMeansFull | crates/openwire/src/connection/limits.rs:145-166 | a caller is refused only when the permits of that semaphore are all held at that moment |
| Limiter.NothingLeaks | crates/openwire/src/connection/limits.rs:408-437 | when all clients are done every semaphore in the map and the global one have all their permits back |
| LimiterReclaim.UnusedEntryStaysExactly | crates/openwire/src/connection/limits.rs:417-437 | under every interleaving, a semaphore nobody has a handle to is still in the map exactly if the last client to leave it was refused, or read that permits were out or a count other than two |
| LimiterReclaim.SeparateUsesAreReclaimed | crates/openwire/src/connection/limits.rs:372-437 | with a positive limit and no overlapping uses of an address, its entry exists only while some client has a handle to it |
| LimiterReclaim.ZeroLimitNeverReclaims | crates/openwire/src/connection/limits.rs:372-398 | with a limit of zero no entry ever goes |
| LimiterReclaim.OverlappingDropsLeaveEntry | crates/openwire/src/connection/limits.rs:417-437 | a run in which two overlapping drops both read a count of three and leave the entry |
| LimiterReclaim.RefusedHandleLeavesEntry | crates/openwire/src/connection/limits.rs:372-382 | a run in which a refused caller's handle makes the last holder leave the entry |
| LimiterReclaim.ZeroLimitLeavesEntry | crates/openwire/src/connection/limits.rs:372-398 | a run of one client that leaves an entry when the limit is zero |
| Connections.RealConnection.TryAcquire | crates/openwire/src/connection/real_connection.rs:172-196 | takes one stream exactly when healthy and idle for HTTP/1, healthy and below the stream cap (at least one) for HTTP/2, and stops the idle clock |
| Connections.RealConnection.Release | crates/openwire/src/connection/real_connection.rs:198-210 | gives back one stream exactly when one is out; the last one starts the idle clock |
| Connections.ServerNameMatchIsOneLabel | crates/openwire/src/connection/mod.rs:78-91 | a verified name matches a host exactly if it is the host, or a wildcard whose star stands for one dotless label |
| Connections.WildcardAcceptsEmptyLabel | crates/openwire/src/connection/mod.rs:78-91 | that label may be empty |
| Connections.MatchIsNonemptyLabelUnlessDotted | crates/openwire/src/connection/mod.rs:78-91 | unless the host is the pattern without its star, a match is equality or one nonempty label in the star's place |
| Pool.LongestIdle | crates/openwire/src/connection/pool.rs:582-628 | picks exactly as many entries as asked for, in the order of the stable sort: what is idle longer, or as long and listed first, is picked first |
| Pool.EnforceMaxIdle | crates/openwire/src/connection/pool.rs:582-628 | closes and drops connections until the idle count is exactly the cap, each before every idle survivor in the order of idle time and then of place, and touches no other |
| Pool.PruneConnections | crates/openwire/src/connection/pool.rs:449-496 | the two passes together: nothing in use is closed; what stays is in order, untouched and within the idle cap, and if idle it is healthy and younger than the idle timeout and the lifetime limit; what goes was due, or was over the cap and first in the order of idle time and place |
| Pool.PruningIsExact | crates/openwire/src/connection/pool.rs:449-524 | connection by connection, by health, streams and times: one in use stays; an idle one stays only if healthy, not idle for the timeout and not past its lifetime; a healthy idle one within both goes only if the idle cap is reached by others idle no longer than it |
| PoolIndex.RemoveKeepsTargets | crates/openwire/src/connection/pool.rs:644-660 | taking one connection out of the coalescing index leaves it indexing exactly the others |
| PoolIndex.AddKeepsTargets | crates/openwire/src/connection/pool.rs:374-383 | adding one leaves it indexing exactly the old ones and the new one |
| PoolIndex.CandidatesAreIndexed | crates/openwire/src/connection/pool.rs:526-580 | every connection that may be coalesced is found under one of the plan's direct targets |
| PoolIndex.CoalescingIsExact | crates/openwire/src/connection/pool.rs:526-580 | a connection may be coalesced exactly if it is HTTP/2 over https without proxy, the request is https without proxy and not limited to HTTP/1, ports agree and hosts differ, one of its verified names is the host or covers it by one label, and its direct target is a direct target of the plan |
| PoolIndex.DirectRouteTargets | crates/openwire/src/connection/pool.rs:630-642 | the direct targets of a plan, each once |
| PoolIndex.PruneCoalescingBucket | crates/openwire/src/connection/pool.rs:662-677 | the clean-up of an index bucket changes nothing while the index agrees with the pool |
| PoolIndex.CollectCandidates | crates/openwire/src/connection/pool.rs:213-230 | the candidates found through the index are exactly the connections of the whole pool under those targets that may be coalesced, each once, in the order of the targets and of the index |
| ConnectionPools.ConnectionPool.Insert | crates/openwire/src/connection/pool.rs:105-122 | afterwards both indexes agree with the buckets and nothing pooled is closed, also when the new connection is evicted at once; its bucket is a pruning of the old one with the new connection at the end |
| ConnectionPools.ConnectionPool.Acquire | crates/openwire/src/connection/pool.rs:124-134 | after pruning that address, adds one stream to the first connection there that can take it, and to nothing else; fails only if none can |
| ConnectionPools.ConnectionPool.AcquireCoalesced | crates/openwire/src/connection/pool.rs:180-235 | a result is a healthy pooled HTTP/2 connection over https without proxy, with room for a stream, the request's port and another host, a verified name that covers the request's host, and a direct target that the plan has too; none is returned exactly if no connection of the pool is like that after pruning the candidate addresses; the first such connection in the order of the plan's targets and of the index gets one stream; other addresses are not touched |
| ConnectionPools.ConnectionPool.CandidateAddressesAre | crates/openwire/src/connection/pool.rs:180-211 | the addresses pruned for a coalesced lookup are exactly those of pooled HTTP/2 connections over https without proxy whose direct target is in the plan |
| ConnectionPools.ConnectionPool.ValidMeans | crates/openwire/src/connection/pool.rs:374-403 | what every operation keeps: each pooled connection is under its own address and in the id index, ids are unique, the coalescing index lists exactly the pooled HTTP/2 connections over https without proxy under their direct targets, no bucket is empty, nothing pooled is closed or over its stream cap |
| ConnectionPools.ConnectionPool.Release | crates/openwire/src/connection/pool.rs:237-248 | gives back one stream and prunes that address; an unhealthy connection survives every release but its last, which removes it |
| ConnectionPools.ConnectionPool.Remove | crates/openwire/src/connection/pool.rs:294-336 | finds a connection exactly by the id index, closes it, and takes it out of its bucket and both indexes |
| ConnectionPools.ConnectionPool.PruneAll | crates/openwire/src/connection/pool.rs:362-372 | every bucket is pruned and the indexes agree again |
| ConnectionPools.ConnectionPool.PruneAddress | crates/openwire/src/connection/pool.rs:428-447 | prunes one bucket, drops it when empty, and leaves all other addresses alone |
| ConnectionPools.ConnectionPool.FinishRemovals | crates/openwire/src/connection/pool.rs:385-403 | takes the removed connections, and only them, out of both indexes |
| AuthRoundTrip.EveryRenderingParses | crates/openwire-core/src/auth.rs:241-415 | every way of writing a list of challenges is read as that list: values as tokens or quoted strings with any escapes, blanks around elements, around equals signs and after schemes, empty list elements |
| AuthRoundTrip.RoundTrip | crates/openwire-core/src/auth.rs:241-415 | parsing the canonical print of any list of well-formed challenges, with arbitrary parameter values, gives the list back |
| AuthRoundTrip.ParseIsStable | crates/openwire-core/src/auth.rs:241-312 | for every header value the parsed challenges are well formed, and printing and parsing them again changes nothing |
| AuthLaws.ParamIsExact | crates/openwire-core/src/auth.rs:303-340 | a text is read as a parameter exactly if it is one of that parameter's renderings, with blanks around it |
| AuthLaws.StartIsExact | crates/openwire-core/src/auth.rs:271-294 | a piece opens a challenge exactly if it is a token followed by nothing or by a blank; what follows is its token68 or its first parameter |
| AuthLaws.PartsReadApart | crates/openwire-core/src/auth.rs:241-269 | a value can be read in parts wherever a piece is no parameter: the challenges of the whole are those of the parts |
| AuthLaws.UnreadablePieceIsSkipped | crates/openwire-core/src/auth.rs:241-269 | a piece that is neither a parameter nor the start of a challenge contributes nothing and does not spoil what follows |
| AuthLaws.ParamsJoinTheirChallenge | crates/openwire-core/src/auth.rs:241-269 | parameters after the start of a challenge are added to it in order |
| AuthLaws.SplitIsExact | crates/openwire-core/src/auth.rs:342-367 | the pieces of any value rejoin to it; each is made of characters other than quotes and commas and of whole quoted strings, except that the last may have a quote that is never closed |
| AuthLaws.BalancedIsExact | crates/openwire-core/src/auth.rs:342-367 | the scan leaves a text outside quotes, having met no comma there, exactly if the text is made of such characters and whole quoted strings |
| AuthChallenge.Token68CharsAre | crates/openwire-core/src/auth.rs:399-415 | token68 characters are the slash and the token characters without ten signs |
| HttpTokens.TokenCharsAreNoDelimiters | crates/openwire-core/src/auth.rs:378-397 | token characters are the visible ASCII characters that are no delimiters |
| AuthRoundTrip.ChallengeParsesBack | crates/openwire-core/src/auth.rs:241-294 | the elements of a challenge close the challenge before it and rebuild it, whatever was open |
| AuthRoundTrip.ParamParsesBack | crates/openwire-core/src/auth.rs:303-321 | a parameter parses back from each of its renderings |
| AuthRoundTrip.UnquoteQuoted | crates/openwire-core/src/auth.rs:323-340 | unquoting undoes every way of quoting a string |
| AuthRoundTrip.ParamIsNoToken68 | crates/openwire-core/src/auth.rs:287-291 | no rendering of a parameter is taken for a token68 |
| AuthRoundTrip.SplitJoin | crates/openwire-core/src/auth.rs:342-367 | splitting finds any list of balanced pieces joined by commas again |
| AuthRoundTrip.PiecesRejoin | crates/openwire-core/src/auth.rs:342-367 | the pieces of any value, with commas between them, are the value: nothing is lost or moved |
| AuthChallenge.ParseAuthChallengeHeader | crates/openwire-core/src/auth.rs:241-269 | the loop with its open challenge computes the parse |
| AuthChallenge.SplitTopLevelCommas | crates/openwire-core/src/auth.rs:342-367 | the flag loop computes the pieces between commas outside quoted strings |
| AuthChallenge.ParseQuotedString | crates/openwire-core/src/auth.rs:323-340 | the loop computes the unquoted content and the rest |
| AuthChallenge.ScanToken68 | crates/openwire-core/src/auth.rs:399-415 | the flag loop accepts exactly one or more token68 characters followed by padding |
| ConnectionHeader.HeaderRequestsClose | crates/openwire/src/transport/protocol.rs:293-298 | close is reported exactly if some value is unreadable, or has a nonempty element that is no token or is `close` in any case |
| ConnectionHeader.ValueRequestsClose | crates/openwire/src/transport/protocol.rs:300-345 | an unreadable value is an error; otherwise the verdict is that of the first element that settles it |
| ConnectionHeader.Scan | crates/openwire/src/transport/protocol.rs:300-345 | the index loop computes that verdict from the comma-separated elements |
| ConnectionHeader.VerdictIsExact | crates/openwire/src/transport/protocol.rs:293-345 | the verdict is "no" exactly if no element asks to close |
| ConnectTunnel.ReadConnectResponse | crates/openwire/src/transport/connect.rs:861-889 | the read loop computes the specified outcome for every chunking, and head plus prefetched bytes are what was read |
| ConnectTunnel.OutcomeIs | crates/openwire/src/transport/connect.rs:861-889 | the outcome for every chunking, by where the first blank line ends |
| ConnectTunnel.AcceptedUnderEveryChunking | crates/openwire/src/transport/connect.rs:861-889 | accepted however the bytes arrive exactly if the first blank line ends within 8193 bytes |
| ConnectTunnel.AcceptedUnderSomeChunking | crates/openwire/src/transport/connect.rs:861-889 | accepted for some arrival exactly if it ends within 8704 bytes |
| ConnectTunnel.FindEnd | crates/openwire/src/transport/connect.rs:1190-1195 | the position after the first blank line, or none if there is no blank line |
| ConnectTunnel.PrefetchedTunnelBytes.Read | crates/openwire/src/transport/connect.rs:715-736 | each read hands out the next unread bytes; an empty read means no room or nothing left |
| ConnectTunnel.Drain | crates/openwire/src/transport/connect.rs:715-736 | reading to the end with any nonempty buffers delivers everything unread, in order |
| ConnectTunnel.HeadThenTunnel | crates/openwire/src/transport/connect.rs:792-797 | the head followed by what the tunnel delivers is the proxy's byte stream |
| DialRace.DialRoutePlan | crates/openwire/src/connection/fast_fallback.rs:273-370 | the first message that is a success or a failure that is not retryable decides, and only retryable failures come before it; without one the last error is the outcome; on success there is one win, one loss for every other route, nobody pending or running, failures stay failures; otherwise nobody won and exactly the failed routes were reported lost |
| DialRace.HeardIsLast | crates/openwire/src/connection/fast_fallback.rs:273-370 | what is known of a route is what its last message said, or that it is pending |
| DialRace.OrderIsPairwise | crates/openwire/src/connection/fast_fallback.rs:175-230 | among the messages of a race a route has at most one start and then at most one finish |
| DialRace.LastErrorIs | crates/openwire/src/connection/fast_fallback.rs:333-370 | the error reported at the end is that of the last failure, and there is none exactly if nothing failed |
| DialRace.Win | crates/openwire/src/connection/fast_fallback.rs:304-332 | settles the race for the route whose success was received |
| DialRace.CleanupLosers | crates/openwire/src/connection/fast_fallback.rs:527-552 | reports one canceled loss for each route that lost to the winner and for no other |
| DialRace.EmitCanceledLossIfNeeded | crates/openwire/src/connection/fast_fallback.rs:554-586 | reports a route at most once, and never the winner or a failed route |
| DialRace.ConnectPlan.PromoteWinner | crates/openwire/src/connection/planning.rs:602-621 | the winner has won, everyone pending or running has lost to it, failures are kept; an unknown index changes nothing |
| DialRace.FailureRecorded | crates/openwire/src/connection/fast_fallback.rs:333-361 | a failure gives its route one loss with the reason of its stage and leaves the others as they were |
| RouteOrder.OrderForFastFallback | crates/openwire/src/connection/planning.rs:776-823 | every address is kept, each family in its own order; families alternate while both have addresses; IPv6 goes first if there is any |
| RouteOrder.InterleaveIsFair | crates/openwire/src/connection/planning.rs:800-820 | taking turns keeps both queues' orders and alternates until one is out |
| FollowUp.Call | crates/openwire/src/policy/follow_up.rs:86-326 | the loop terminates, makes at most one call more than the budgets left allow, its hops are a run, and the outcome is what the end of that run decides: a failure before the first call, the failure of a hop that cannot be sent, or the last decision; `FollowUpLaws.HopsFollowExactly` and `EndIsExact` say which decisions those are |
| FollowUp.FollowUpSpendsBudget | crates/openwire/src/policy/follow_up.rs:108-323 | each follow-up of any kind uses up exactly one unit of one budget that was not exhausted, and raises the attempt number by one |
| FollowUpLaws.HopsFollowExactly | crates/openwire/src/policy/follow_up.rs:86-326 | over every run: a hop was made by authentication exactly if the answer before it was a 401 or, through a proxy, a 407, attempts were left, the body could be sent again and the authenticator of that kind returned it for that request without the jar's cookies; by a retry exactly if the error or answer invites one; by a redirect exactly if the answer points to it and may be followed; and what the request of each kind is |
| FollowUpLaws.AuthFollowsExactly | crates/openwire/src/policy/follow_up.rs:383-436 | the decision to authenticate, its request and counters, exactly by status, proxy, authenticator, attempts and body |
| FollowUpLaws.RetryFollowsExactly | crates/openwire/src/policy/follow_up.rs:161-323 | the decision to retry, its request and counters, exactly by error or answer; a retried 421 bans coalescing |
| FollowUpLaws.RedirectFollowsExactly | crates/openwire/src/policy/follow_up.rs:222-323 | the decision to follow a redirect, its request and counters, exactly by status, location, budget, security and body |
| FollowUpLaws.EndIsExact | crates/openwire/src/policy/follow_up.rs:108-323 | which outcome a call ends with, for every answer and error, and when it goes on instead |
| FollowUpLaws.RetriedErrorsAre | crates/openwire/src/policy/defaults.rs:101-186 | an error is retried exactly if the body can be sent again, retries are left, it is not a committed request that may not be repeated, and its kind, phase, stage and the policy's switches call it passing |
| FollowUpLaws.RetriedAnswersAre | crates/openwire/src/policy/defaults.rs:188-215 | an answer is retried exactly if the body can be sent again, retries are left, the method may be repeated or the policy allows it anyway, and it is a 408 that asks for no delay or a 503 that asks for none explicitly |
| FollowUpLaws.RebuiltIsRedirected | crates/openwire/src/policy/follow_up.rs:648-724 | the redirected request by status and origin: which method, body and fields it has, and that there is none exactly for a streaming body under 307 and 308 |
| FollowUpLaws.SameOriginIs | crates/openwire/src/policy/follow_up.rs:800-835 | two URIs have one origin exactly if schemes agree, hosts agree ignoring case, and ports agree with 80 and 443 as defaults |
| FollowUpLaws.HopsAreHttp | crates/openwire/src/policy/follow_up.rs:738-767 | everything sent goes to an http or https URI with a host and without user information |
| FollowUpLaws.CredentialsStayAtOrigin | crates/openwire/src/policy/follow_up.rs:837-857 | over every run without authentication, a credential field other than the cookie that is sent at some hop is the caller's own, and every URI up to there has the scheme, host and port of the first |
| FollowUpRuns.AttemptsAreAccountedFor | crates/openwire/src/policy/follow_up.rs:86-326 | along every run the attempt number is its start plus the increases of the three counters |
| FollowUpRuns.CallsAreBounded | crates/openwire/src/policy/defaults.rs:101-110 | from zero counters at most 1 + max retries + max redirects + max auth attempts calls are made |
| FollowUpRuns.SensitiveFieldsAreConfined | crates/openwire/src/policy/follow_up.rs:648-724 | between authentication follow-ups a listed field is carried to a hop exactly if every URI on the way has the origin it started at |
| FollowUpRuns.WireIsConfined | crates/openwire/src/policy/follow_up.rs:364-381 | what is sent: a caller's sensitive field only while at its origin; without a caller's cookie just the jar's answer for that attempt's URI |
| FollowUpRuns.CookiesOnlyAdd | crates/openwire/src/policy/follow_up.rs:364-381 | jar cookies change nothing but the `cookie` field, and only if it is absent |
| FollowUpRuns.RequestsAreContinued | crates/openwire/src/policy/follow_up.rs:621-724 | between authentication follow-ups every other field but `host` and the content fields arrives unchanged, and the request stays the caller's: same verb with its body or without, or a GET without body and content fields |
| FollowUpRuns.RedirectsRewrite | crates/openwire/src/policy/follow_up.rs:648-692 | 307 and 308 repeat verb and body; the other redirects keep GET and HEAD and turn everything else into a GET without body and content fields |
| FollowUpRuns.MisdirectedBansCoalescing | crates/openwire/src/policy/follow_up.rs:161-191 | once a 421 was retried, no later hop may use a coalesced connection |
| FollowUpRuns.RunsStaySecure | crates/openwire/src/policy/defaults.rs:303-331 | unless allowed, retries and redirects never lead from https to http |
| FollowUpRuns.StreamingBodyIsSentOnce | crates/openwire/src/policy/follow_up.rs:648-692 | after a hop with a streaming body only a redirect without a body can follow |
| FollowUpRuns.CommittedIsNotRepeated | crates/openwire/src/policy/defaults.rs:101-110 | a request that is not idempotent is not sent again after an error that left it committed |
| FollowUpRuns.SnapshotsSuffice | crates/openwire/src/policy/follow_up.rs:534-619 | the light capture is never asked for the headers it left out, nor a snapshot for a body it could not clone |
| Cache.CaptureVary | crates/openwire-cache/src/lib.rs:369-392 | the loops over `Vary` values and elements compute the captured fields |
| Cache.CaptureIsExact | crates/openwire-cache/src/lib.rs:369-392 | capturing fails exactly if a `Vary` value is unreadable or lists the star or something that is no field name; otherwise exactly the listed names, in lower case, are tracked, each once |
| Cache.CaptureMatches | crates/openwire-cache/src/lib.rs:369-426 | captured fields match the request they were captured from |
| Cache.IncludeMatches | crates/openwire-cache/src/lib.rs:394-404 | including a field keeps that and tracks the field |
| Cache.FindCandidate | crates/openwire-cache/src/lib.rs:68-84 | the backward search finds the candidate that matches and has no matching one after it, and none exactly if nothing matches |
| Cache.LastMatchIsNewest | crates/openwire-cache/src/lib.rs:68-84 | the specified choice is the newest match, and none exactly if nothing matches |
| Cache.MergeIsFieldwise | crates/openwire-cache/src/lib.rs:964-982 | field by field, a 304 replaces the stored values except of the three fields that describe the payload, and a stored age goes |
| Cache.ServableOnlyBefore | crates/openwire-cache/src/lib.rs:662-719 | whatever the request allows, an entry that is usable later was usable earlier; `CacheLaws.HitIsExact` says when it is usable |
| CacheLaws.HitIsExact | crates/openwire-cache/src/lib.rs:53-90 | an entry answers a request exactly if it is a GET without body and without no-cache, the entry is the newest for its key that agrees on what it varies by and on credentials, need not be validated, and is fresh by its lifetime, max-age and min-fresh, or stale within max-stale and not must-revalidate |
| CacheLaws.UnsatisfiableIsExact | crates/openwire-cache/src/lib.rs:85-89 | the gateway timeout is the answer exactly for only-if-cached requests nothing stored answers |
| CacheLaws.ValidationIsExact | crates/openwire-cache/src/lib.rs:66-98 | the newest match is validated exactly if it does not answer, may be asked about, has an entity tag or a modification date, and the request brings no condition of its own |
| CacheLaws.AnsweredAtOnceExactly | crates/openwire-cache/src/lib.rs:53-90 | over every interleaved run: a call is served from the store when it begins exactly if such an entry is stored then, and gets its body |
| CacheLaws.StoresExactly | crates/openwire-cache/src/lib.rs:130-213 | a network answer is stored exactly if it is a 200 to a GET without body and no-store, sets no cookie, does not forbid storing, allows it for credentials, has a validator if it cannot be used fresh, and has a usable `Vary`; what is stored is that response with its times, directives and the request's varying fields |
| CacheLaws.ValidatesExactly | crates/openwire-cache/src/lib.rs:108-128 | a 304 answers with the stored body, and stores the updated entry exactly if it may still be stored, or removes that variant |
| CacheLaws.InvalidatesExactly | crates/openwire-cache/src/lib.rs:100-106 | a call that is no GET removes exactly its own key and those it invalidates, if its method is unsafe and its status 200 to 399, and stores nothing |
| CacheLaws.OthersLeaveStoreAlone | crates/openwire-cache/src/lib.rs:130-213 | a GET answer that is not stored and does not make the stored one outdated changes nothing |
| CacheLaws.OutdatedIsRemoved | crates/openwire-cache/src/lib.rs:826-850 | over every run: before the caller gets an answer that outdates what is stored and cannot be stored, the key has been out of the store, or with credentials the validated variant |
| CacheLaws.OutdatedMatchesAreRemoved | crates/openwire-cache/src/lib.rs:826-850 | over every run: with credentials and nothing validated, each candidate read that the request selects has had its variant out of the store |
| CacheStore.MemoryCacheStore.PutCandidate | crates/openwire-cache/src/lib.rs:569-585 | an oversized body changes nothing; otherwise the variant is replaced or added, whole keys are evicted only if a limit is exceeded, and both limits hold |
| CacheStore.MemoryCacheStore.EnforceLimits | crates/openwire-cache/src/lib.rs:519-540 | drops whole keys until both limits hold, and none if they held |
| CacheStore.MemoryCacheStore.RemoveCandidate | crates/openwire-cache/src/lib.rs:587-596 | removes exactly the candidates of that variant, and the key with the last one |
| CacheStore.ReplaceMembers | crates/openwire-cache/src/lib.rs:575-583 | replacing a variant keeps all the others and adds nothing else |
| CacheStore.ReplaceIsInPlace | crates/openwire-cache/src/lib.rs:575-583 | the candidate of the same variant is replaced where it stands; a new variant goes to the end |
| CacheStore.ReplaceVariants | crates/openwire-cache/src/lib.rs:575-583 | replacing keeps variants distinct |
| CacheStore.TotalWithout | crates/openwire-cache/src/lib.rs:511-517 | the total of body bytes does not depend on the order of the map |
| CacheRuns.CacheIsIsolated | crates/openwire-cache/src/lib.rs:53-213 | over every interleaved history, a body served from the cache, directly or after a 304, was fetched before for the same key with the same `Authorization` values, or with none |
| CacheRuns.CacheRespectsVary | crates/openwire-cache/src/lib.rs:53-213 | over every interleaved history, a body is served or validated only for a request that agrees, on every field the response varies by, with an earlier one that stored or validated it |
| CacheRuns.ValidationMovesReference | crates/openwire-cache/src/lib.rs:752-790 | a 304 that adds a name to `Vary` moves the reference: the entry then matches the validating request and not the one that differs from it there |
| CacheRuns.StoredResponsesMayBeStored | crates/openwire-cache/src/lib.rs:806-824 | every stored response was fetched for its key with status 200, sets no cookie, does not forbid storing, has a validator if it cannot be used fresh, carries the lifetime, age and directives of its own fields, and if fetched with credentials allowed it |
| CacheRuns.UnsafeCallsInvalidate | crates/openwire-cache/src/lib.rs:100-106 | before the caller of a method other than GET, HEAD, OPTIONS and TRACE gets an answer with status 200 to 399, each key it invalidates has been out of the store |
| CacheRuns.EveryRunKeepsInv | crates/openwire-cache/src/lib.rs:53-213 | store, validations in flight and pending store operations only hold what was fetched for that key, with the credentials they track and a reference request that selects them |
| CacheRuns.FreshenedIsGood | crates/openwire-cache/src/lib.rs:752-790 | freshening keeps the body and the credentials the entry is tied to, and makes the validating request its reference |
| CacheRuns.MatchMeansSameAuth | crates/openwire-cache/src/lib.rs:721-730 | an entry that matches a request was fetched with exactly its `Authorization` values |
| CacheRuns.OpKeepsStore | crates/openwire-cache/src/lib.rs:556-596 | store operations, evictions included, keep the store sound and free of anything that was not fetched |

## Left out

- Scheduler: wakers, `poll_ready` and its waiters; the model decides who is admitted, not how a task is woken. The slab's choice of a vacant key is a parameter, sequence numbers are unbounded, and clamping of urgencies to 0-7 is not needed.
- Limiter: `ConnectionAvailability` and its notifications; `can_acquire`, which only looks. It is a state machine on values rather than a class because its subject is the interleaving.
- Pool operations are atomic and read the clock once; the stable sort by idle time is a repeated choice of the next entry in its order; the interleaving of their separate locks is not modelled. `acquire_with_in_use_hint`, `acquire_by_id`, `get_by_id`, `stats` and the `has_` queries would only add members like `Acquire`. The eviction hook and availability notifications are outside.
- AuthChallenge: `parse_auth_challenges` over several header fields is a concatenation of single results; looking up a parameter by name is not modelled. Characters are Unicode scalar values.
- ConnectTunnel: parsing of the status line and the headers of the head, read errors, time-outs, and the write side.
- DialRace: the route tasks, their staggered start and their cancellation; the messages they send are an input, each route starting at most once and then finishing at most once. Failing to spawn a task is not modelled.
- FollowUp: custom policies, request-scoped overrides, extensions other than the coalescing ban, draining of intermediate bodies and listener calls. The network, the jar, the authenticators and URL joining are arbitrary functions of the attempt number and what they are given. Counters are unbounded; the narrowing of the retry maximum to 32 bits is modelled.
- Cache: parsing of `Cache-Control` and `Pragma`, HTTP dates and the arithmetic of lifetimes and ages are arbitrary functions of the headers and the time; URIs are represented by their normalised keys. Custom stores, listener events and the revalidation headers put on the request are not modelled. Map iteration order is arbitrary.
- DNS, TCP, TLS, SOCKS5, protocol bindings, WebSocket, cookie-store internals and decompression are not part of this model.
