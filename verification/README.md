# Mir: buffer protocol, culling, frame timing and window policies, verified

This project models the parts of the Mir display server whose correctness is hardest to see from the
code, and proves what they promise, in Dafny 4.11. `dafny verify dfyconfig.toml` checks all of it.

**The client buffer protocol** (`Books`, `VaultProtocol`, `VaultInvariant`, `VaultGuarantees`, `VaultEffects`,
`Depository`, `DepositoryGuarantees`, `LostCallback`, `BufferVaults`, `BufferDepositories`). A
`BufferVault` keeps a ledger of who owns each buffer, a queue of promises for producers that found
none, a deferred swap callback with a wait handle, and two counters, while size, swap interval and
connection change under it and several methods drop the mutex between updating the ledger and
allocating or freeing. The protocol is modelled twice. First as a transition system: one action is
one section run while the mutex is held, or one call made after it is dropped, so every interleaving
of any number of threads is a sequence of actions. A size read after the unlock is an allocation
`OfSizeWhenIssued`, so that race is in the model. Second as classes with the source's methods and
loops, each proved to perform a legal run of the first. The environment is assumed to behave: an id
the server adds is new and answers an outstanding request of that size, the server returns only
buffers it holds, the RPC layer inserts a buffer in the surface map and marks it received before it
calls the vault, and one thread produces. Nothing is assumed about timing or order, nor about when a
resize, an interval change or a disconnection comes, except where the third column below says that
resizes are gentle. A method of the classes is one call made without interference; what other
threads do in the middle of one is in the transition system.

**Occlusion culling** (`Occlusion`): the elements removed before compositing never change a pixel,
and which elements are removed is characterised exactly.

**Frame timing** (`FrameTiming`): bounds, phase and drift of `next_frame_after`, with C++ truncating
arithmetic.

**Window policies** (`TilingLayout`, `TilingWindows`, `Workspaces`), **allocation replies**
(`BufferFactories`) and **running statistics** (`Histogram`).

Four claims one might make of the code are false, and the exact condition is proved instead.

* A pending swap callback can be overwritten, and its result never reported, when a resize lands
  between the two last sections of a submit and restores the size of a buffer that the submit had
  just found unusable (`src/client/buffer_vault.cpp:273-281`, `src/client/buffer_stream.cpp:197-199`).
  Any other resize is called gentle. `LostCallback.ResizeIsSafeIffGentle` proves that a resize can cost
  a callback, in some later run of gentle resizes, if and only if it is not gentle itself;
  `LostCallback.UngentleResizeIsReachable` gives a run that meets one.
* The assertion at `src/client/frame_clock.cpp:79` fails after `set_period` shortens the period below
  the stored phase, although the result is then recomputed and correct.
  `FrameTiming.PhaseAssertionHoldsIff` says exactly when it holds.
* A retiled window can leave its tile for the origin of the screen when it is empty
  (`TilingWindows.EmptyWindowEscapes`); `TilingWindows.RetiledInsideIff` says exactly when it does not.
* A maximized window need not fill its tile after a layout made while its application is not in the
  list of tiles, because `update_tiles` passes on a stale old tile
  (`examples/example-server-lib/tiling_window_manager.cpp:518-525`).
  `TilingWindows.StaleLayoutKeepsFullIff` gives the condition, `TilingWindows.StaleLayoutShrinksWindow`
  a case that fails it.

Counters, coordinates and times are unbounded integers; the unsigned buffer counter is proved never
to go below zero, so it never wraps that way.

## Model

| member | source | states |
|---|---|---|
| VaultProtocol.AvailableBuffer | src/client/buffer_vault.cpp:180-193 | a usable buffer is found exactly when there is one |
| VaultProtocol.LastReceivedIsLastResort | src/client/buffer_vault.cpp:180-193 | the buffer received last is chosen only if nothing else is usable, otherwise the least id |
| Books.AddKeeps | src/client/connection_surface_map.cpp:91-95 | a new buffer enters the surface map owned and is tracked; the accounts stay exact |
| Books.ForgetKeeps | src/client/connection_surface_map.cpp:97-101 | freeing an id that left the ledger removes it from the surface map and nothing else is affected |
| Books.SendKeeps | src/client/buffer.cpp:47-55 | a buffer being submitted is in the map; afterwards it is unowned exactly because the server holds it |
| Books.ReturnKeeps | src/client/buffer.cpp:57-80 | a buffer the server returns becomes owned again and is still tracked |
| VaultInvariant.InitInv | src/client/buffer_vault.cpp:58-78 | a new vault satisfies the invariant with all initial allocations committed |
| VaultInvariant.WithdrawKeeps | src/client/buffer_vault.cpp:195-244 | the locked part of withdraw keeps conservation, accounts, order of waiters and callbacks |
| VaultInvariant.RejectedInboundStep | src/client/buffer_vault.cpp:300-325 | turning a buffer away (wrong size or surplus) keeps the invariant |
| VaultInvariant.AcceptedInboundStep | src/client/buffer_vault.cpp:326-340 | keeping a buffer and serving the oldest waiter keeps the invariant |
| VaultInvariant.StepInv | src/client/buffer_vault.cpp:143-410 | every action of every thread and of the server keeps the whole invariant |
| VaultInvariant.RunInv | src/client/buffer_vault.cpp:143-410 | the invariant holds after every legal interleaving |
| VaultGuarantees.BuffersAreConserved | src/client/buffer_vault.cpp:195-410 | in every reachable state the counter equals tracked buffers plus outstanding requests plus committed allocations, covers every decrement, and the needed count is the initial one plus one iff the interval is zero |
| VaultGuarantees.LedgerMapAndFlagAgree | src/client/buffer_vault.cpp:153-160 | in every reachable state the surface map holds exactly the ids in the ledger, arriving or about to be freed, and a buffer is unowned only while the ledger says Server |
| VaultGuarantees.NoInternalFault | src/client/buffer_vault.cpp:168-178 | neither "no buffer in map" nor "cannot submit unowned buffer" is ever thrown |
| VaultGuarantees.FreedOnlyWhenHeldHere | src/client/buffer_vault.cpp:310-325 | an id is freed only from Self or on arrival, owned, and after leaving the ledger |
| VaultGuarantees.GrantsAreFair | src/client/buffer_vault.cpp:218-243 | whoever is given a buffer is next in line, gets it with the vault's size at that moment, as its only holder |
| VaultGuarantees.GrantsSurviveRuns | src/client/buffer_vault.cpp:332-337 | what a future holds never changes |
| VaultGuarantees.NobodyOvertakes | src/client/buffer_vault.cpp:332-337 | no withdrawal overtakes an earlier one, and a non-empty queue means no buffer is owned by Self |
| VaultGuarantees.ExcessStep | src/client/buffer_vault.cpp:378-410 | no action raises the excess of current over needed, except a switch from interval zero, by one; a known buffer coming back, or found by the loop, lowers a positive excess by one |
| VaultGuarantees.SurplusIsPaidFor | src/client/buffer_vault.cpp:312-324 | over every run, the excess at the end plus the buffers given back is at most the excess at the start plus the switches from interval zero |
| VaultGuarantees.SurplusConverges | src/client/buffer_vault.cpp:312-324 | over every run that offers as many known buffers as there was excess, none is left but what the switches in that run caused |
| VaultGuarantees.DisconnectionIsAbsorbing | src/client/buffer_vault.cpp:342-348 | after a disconnection, whatever follows, nobody waits and no callback is pending |
| VaultGuarantees.CallbacksRunAtMostOnce | src/client/buffer_vault.cpp:350-359 | over every run a callback runs at most once and never while still pending |
| VaultGuarantees.WhenCallbacksAreForgone | src/client/buffer_vault.cpp:270-282 | whatever happens, a callback is thrown away only by its own submit finding the connection lost, and overwritten only by a submit that defers while another is pending |
| VaultGuarantees.SubmitSettlesCallback | src/client/buffer_vault.cpp:270-282 | a submit runs its callback at once exactly if connected and a buffer of ours has the vault's size, and keeps it for later exactly if connected and none has |
| VaultGuarantees.TakenCallbackRuns | src/client/buffer_vault.cpp:350-359 | a callback taken out runs once and then reports one result |
| VaultGuarantees.NoneDropped | src/client/buffer_vault.cpp:270-282 | over every run, while connected no callback has been thrown away |
| VaultEffects.WithdrawFreesMisfits | src/client/buffer_vault.cpp:202-216 | exactly the buffers of ours without the vault's size leave the ledger and are freed |
| VaultEffects.WithdrawServesOrQueues | src/client/buffer_vault.cpp:218-239 | a withdrawal is served at once, with a fitting buffer of ours, iff there is one; otherwise it queues last and one buffer of the vault's size is ordered iff fewer than needed are counted |
| VaultEffects.WithdrawLeavesAlone | src/client/buffer_vault.cpp:195-244 | everything else stays, and after a disconnection everything does |
| VaultEffects.InboundTurnsAway | src/client/buffer_vault.cpp:300-325 | the whole state after a buffer is turned away; the replacement is ordered in the size the vault has when the order goes out |
| VaultEffects.InboundKeepsIt | src/client/buffer_vault.cpp:326-340 | the whole state after a buffer is kept: oldest waiter served, or ours; pending callback taken out |
| VaultEffects.ProducerHandsOver | src/client/buffer_vault.cpp:246-268 | the whole state after deposit and after each part of the outbound transfer |
| VaultEffects.MisplacedCallsThrow | src/client/buffer_vault.cpp:246-268 | deposit and transfer of a buffer that is elsewhere throw and change nothing |
| VaultEffects.SetIntervalSteps | src/client/buffer_vault.cpp:378-395 | nothing for the same interval; to zero one more is needed, counted and ordered; to another, surplus goes back |
| VaultEffects.ShrinkGivesBack | src/client/buffer_vault.cpp:396-408 | a pass frees the buffer of ours with the least id iff more are counted than needed, and only then |
| VaultEffects.OrdersGoOut | src/client/buffer_vault.cpp:143-151 | an order goes out in the size it was made for, or in the vault's size at that moment |
| VaultEffects.OtherCalls | src/client/buffer_vault.cpp:342-376 | the whole state after a resize, a disconnection, and a wait for results |
| Depository.ClaimRunInv | src/client/buffer_stream.cpp:188-203 | over every run, resizes at any moment included, the producer has exactly one claim and the invariant of the vault holds |
| Depository.SystemRunInv | src/client/buffer_stream.cpp:188-203 | over every run in which resizes are gentle, a pending callback also waits with the producer and none was lost |
| DepositoryGuarantees.ProducerNeverFaults | src/client/buffer_stream.cpp:188-203 | in every reachable state the producer's calls throw nothing but the loss of the connection |
| DepositoryGuarantees.OneClaimPerDepository | src/client/buffer_stream.cpp:146-203 | in every reachable state between submits while connected, buffers with the producer plus queued promises make exactly one, and none is SelfWithContent |
| DepositoryGuarantees.SwapsCompleteExactlyOnce | src/client/buffer_vault.cpp:257-283 | over every run of gentle resizes no callback is lost; each is in exactly one of ran, taken, pending, thrown, and while connected none is thrown; expected minus received results is the pending one plus those taken |
| DepositoryGuarantees.NoStalledProducer | src/client/buffer_vault.cpp:229-239 | in every reachable state, with at least one initial buffer and connected, an unresolved withdrawal means a buffer is with the server, arriving, requested or committed |
| DepositoryGuarantees.Progress | src/client/buffer_vault.cpp:285-340 | each action of the server's side serves the waiter or brings it strictly nearer; no other action but a resize, a disconnection or a switch to interval zero takes it further away |
| DepositoryGuarantees.WaiterIsServed | src/client/buffer_vault.cpp:285-340 | from every reachable state, every run without a resize or disconnection serves the waiter within six server-side actions per counted buffer, plus three per switch to interval zero |
| DepositoryGuarantees.Serve | src/client/buffer_vault.cpp:285-340 | whatever the server's side chooses, it can go on until the waiter is served |
| DepositoryGuarantees.WaitersCanAlwaysBeServed | src/client/buffer_vault.cpp:285-340 | after every run, across resizes and interval changes of any kind, the server's side alone can still serve a waiting producer, in a bounded number of actions |
| LostCallback.DoomedLoses | src/client/buffer_vault.cpp:270-281 | if a callback is pending while a buffer is usable, the producer's own calls end in overwriting it |
| LostCallback.ResizeIsSafeIffGentle | src/client/buffer_vault.cpp:367-376 | no later run of gentle actions loses a callback if and only if the resize is gentle |
| LostCallback.UngentleResizeIsReachable | src/client/buffer_stream.cpp:197-199 | a concrete legal run to a state where a resize is not gentle |
| BufferVaults.BufferVault.constructor | src/client/buffer_vault.cpp:58-78 | a new vault has issued every initial allocation, and nothing else has happened |
| BufferVaults.BufferVault.FindOurs | src/client/buffer_vault.cpp:398-399 | the search over the ledger finds the least matching id, or none |
| BufferVaults.BufferVault.FindAvailable | src/client/buffer_vault.cpp:180-193 | the two searches compute AvailableBuffer |
| BufferVaults.BufferVault.TakeOutStale | src/client/buffer_vault.cpp:202-216 | the loop takes out exactly the wrongly sized buffers of ours, lists each once, and the counter does not wrap |
| BufferVaults.BufferVault.ClaimBuffer | src/client/buffer_vault.cpp:218-235 | takes the available buffer, or queues a promise and commits an allocation iff short |
| BufferVaults.BufferVault.Withdraw | src/client/buffer_vault.cpp:195-244 | performs one protocol action and then the allocation, iff short, and exactly the frees of wrongly sized buffers; throws iff disconnected, changing nothing |
| BufferVaults.BufferVault.Deposit | src/client/buffer_vault.cpp:246-255 | succeeds iff the buffer is with the producer |
| BufferVaults.BufferVault.FinishOutbound | src/client/buffer_vault.cpp:270-282 | the callback is among those run, or pending, or thrown away, as a buffer is usable, none is, or the connection is lost; the result says which |
| BufferVaults.BufferVault.WireTransferOutbound | src/client/buffer_vault.cpp:257-283 | performs the three actions of an outbound transfer, or throws and changes nothing if the buffer has no content |
| BufferVaults.BufferVault.GiveBack | src/client/buffer_vault.cpp:313-325 | a surplus buffer leaves every record and the counter, and is not replaced |
| BufferVaults.BufferVault.Replace | src/client/buffer_vault.cpp:302-325 | a buffer of the wrong size leaves every record and a new one is ordered; the counter stays |
| BufferVaults.BufferVault.WireTransferInbound | src/client/buffer_vault.cpp:285-340 | keeps the buffer iff it fits and is not surplus, for the oldest waiter or as ours; the whole history, ledger, queue and counter in each case |
| BufferVaults.BufferVault.BufferAdded | src/client/rpc/mir_protobuf_rpc_channel.cpp:363-367 | a new buffer is kept iff it has the vault's size, and then goes to the oldest waiter or is ours |
| BufferVaults.BufferVault.BufferReturned | src/client/rpc/mir_protobuf_rpc_channel.cpp:368-375 | a returned buffer is kept iff it has the vault's size and is not surplus, and then goes to the oldest waiter or is ours |
| BufferVaults.BufferVault.Disconnected | src/client/buffer_vault.cpp:342-359 | drops the queue and runs the pending callback |
| BufferVaults.BufferVault.SetSize | src/client/buffer_vault.cpp:367-376 | changes the size and nothing else |
| BufferVaults.BufferVault.SetInterval | src/client/buffer_vault.cpp:378-410 | to zero orders one more buffer; from zero gives buffers back until the count fits or none is ours |
| BufferVaults.BufferVault.GiveBackSurplus | src/client/buffer_vault.cpp:396-408 | the loop stops only when the count fits or none is ours, never goes below what is needed, and leaves nothing it took out unfreed |
| BufferDepositories.BufferDepository.constructor | src/client/buffer_stream.cpp:146-158 | a new depository has asked for all its buffers and waits with its one claim |
| BufferDepositories.BufferDepository.AdvanceCurrentBuffer | src/client/buffer_stream.cpp:164-170 | yields the buffer of the future, or throws iff the promise was dropped |
| BufferDepositories.BufferDepository.SubmitBuffer | src/client/buffer_stream.cpp:188-203 | while connected the buffer ends up with the server and the producer with the next claim; otherwise throws as the source does |
| BufferDepositories.BufferDepository.BufferAdded | src/client/buffer_vault.cpp:285-340 | a new buffer of the right size becomes a waiting producer's, and no other future changes |
| BufferDepositories.BufferDepository.BufferReturned | src/client/buffer_vault.cpp:285-340 | a returned buffer of the right size, unless surplus, becomes a waiting producer's |
| BufferDepositories.BufferDepository.SetSize | src/client/buffer_stream.cpp:205-212 | sets both sizes and keeps the claim |
| BufferDepositories.BufferDepository.SetInterval | src/client/buffer_stream.cpp:233-238 | clamps the interval to 0 or 1 and keeps the claim |
| BufferDepositories.BufferDepository.LostConnection | src/client/buffer_stream.cpp:220-223 | keeps the claim and every settled future; no callback stays pending |
| BufferDepositories.BufferDepository.Sound | src/client/buffer_stream.cpp:144-249 | a depository is always in a reachable state of the system, and while resizes are gentle it has lost no callback |
| BufferDepositories.FirstSwap | src/client/buffer_stream.cpp:144-203 | from the constructor, one arrival of the right size is enough for a successful submit |
| BufferFactories.BufferFactory.ExpectBuffer | src/client/buffer_factory.cpp:59-86 | appends the request |
| BufferFactories.BufferFactory.GenerateBuffer | src/client/buffer_factory.cpp:88-140 | computes Generate |
| BufferFactories.BufferFactory.CancelRequestsWithContext | src/client/buffer_factory.cpp:142-153 | no request of the context is left, every other is there as often as before, and in the same order |
| BufferFactories.WithoutKeepsOthers | src/client/buffer_factory.cpp:142-153 | how often each request is there after a cancellation |
| BufferFactories.WithoutKeepsOrder | src/client/buffer_factory.cpp:142-153 | what is left is a subsequence of what was there |
| BufferFactories.GenerateServesOldest | src/client/buffer_factory.cpp:88-140 | a reply consumes the oldest request of its size, leaves other sizes alone, and is refused iff there is none |
| BufferFactories.CancelEachQueue | src/client/buffer_factory.cpp:142-153 | on each size's queue, cancelling leaves the requests of other contexts, as an independent filter from the newest end does |
| BufferFactories.FactoryRefinesQueues | src/client/buffer_factory.cpp:59-153 | over every run the single vector returns what independent queues, one per size, return |
| BufferFactories.ErrorIdsDecrease | src/client/buffer_factory.cpp:101-106 | error ids strictly decrease from minus one, so they are negative and distinct |
| Geometry.Rectangle.IntersectionWith | src/core/geometry/rectangle.cpp:74-87 | holds exactly the shared pixels, and is the default rectangle if there are none |
| Geometry.ContainsPixels | src/core/geometry/rectangle.cpp:41-72 | for non-empty rectangles, containing is containing every pixel and overlapping is sharing one |
| Occlusion.RenderableIsOccluded | examples/mir_demo_server/server_example_adorning_compositor.cpp:125-156 | the loop over the coverage computes the decision and the new coverage whose meaning CullingRemovesExactlyTheInvisible gives |
| Occlusion.SceneElementSequence.RemoveOcclusions | examples/mir_demo_server/server_example_adorning_compositor.cpp:158-176 | the in-place reverse loop leaves the kept elements and notifies the others |
| Occlusion.CullingKeepsPicture | examples/mir_demo_server/server_example_adorning_compositor.cpp:158-226 | for every scene, area, pixel, background and any blending, painting the kept elements gives the colour of painting all, where the compositor blends iff shaped or alpha below one (or transformed) |
| Occlusion.CullingRemovesExactlyTheInvisible | src/server/compositor/occlusion.cpp:32-89 | an element goes iff it is untransformed and shows nothing in the area or only what one opaque element above shows; order is kept |
| Occlusion.CullingIsIdempotent | src/server/compositor/occlusion.cpp:66-89 | a second pass removes nothing |
| FrameTiming.FrameClock.SetPeriod | src/client/frame_clock.cpp:40-45 | sets the period and makes a resynchronisation due |
| FrameTiming.FrameClock.SetResyncCallback | src/client/frame_clock.cpp:47-52 | makes a resynchronisation due |
| FrameTiming.FrameClock.NextFrameAfter | src/client/frame_clock.cpp:65-164 | with period zero returns `when` and changes nothing; otherwise no change is pending afterwards and the phase is the vsync's iff the server was asked |
| FrameTiming.TargetFromVsync | src/client/frame_clock.cpp:136-151 | the target is in phase with the vsync, after now and not before the vsync, and either the vsync itself or less than a period away from now |
| FrameTiming.PhaseAssertionHoldsIff | src/client/frame_clock.cpp:76-79 | the first assertion holds iff the phase fits the period and `when` is not a period before the epoch, or the phase is zero |
| FrameTiming.PreviousIsItselfIff | src/client/frame_clock.cpp:76-78 | a time in phase is left in place iff it is not before the epoch or the phase is zero |
| FrameTiming.ShorterPeriodBreaksAssertion | src/client/frame_clock.cpp:40-45 | a period set below the stored phase makes that assertion fail |
| FrameTiming.TargetIsTimely | src/client/frame_clock.cpp:81-161 | every target is in phase, later than now minus one period, and after now on a resynchronisation |
| FrameTiming.ResyncTargetsNextVsync | src/client/frame_clock.cpp:136-150 | whatever the vsync, the target is the least time in phase with it that is after now and not before it |
| FrameTiming.ResyncsIff | src/client/frame_clock.cpp:103-114 | the server is asked iff the configuration changed or the frame of `when` started three periods ago |
| FrameTiming.TargetOtherwise | src/client/frame_clock.cpp:76-161 | otherwise the clock stays as it is and the target is the next frame, or the one after it if that one started a period ago |
| FrameTiming.NewPeriodResyncs | src/client/frame_clock.cpp:40-45 | after a change of period the server is asked again |
| FrameTiming.TargetIsAfterWhen | src/client/frame_clock.cpp:76-161 | with no configuration change pending the target is after `when` |
| FrameTiming.TargetIsFirstNotLate | src/client/frame_clock.cpp:89-103 | from a time in phase, the target is the first in-phase time after it that is less than a period late: one period on, or two |
| FrameTiming.NoDrift | src/client/frame_clock.cpp:76-161 | n calls without resynchronisation advance k whole periods with n <= k <= 2n |
| FrameTiming.TargetsIncrease | src/client/frame_clock.cpp:65-164 | with no configuration change, the targets of any run, resyncs included, strictly increase |
| FrameTiming.FallbackClocksAgree | src/client/frame_clock.cpp:54-63 | without a callback every target is a multiple of the period in force, so equal periods share a grid |
| TilingLayout.MRUTileList.Push | examples/example-server-lib/tiling_window_manager.cpp:54-58 | moves the tile to the end, without duplicates |
| TilingLayout.MRUTileList.Erase | examples/example-server-lib/tiling_window_manager.cpp:60-63 | removes the tile, without duplicates |
| TilingLayout.ListIsByRecency | examples/example-server-lib/tiling_window_manager.cpp:54-69 | after any history the list holds the tiles last pushed, ordered by their last use |
| TilingLayout.StackGap | examples/example-server-lib/tiling_window_manager.cpp:508-511 | a stacked tile ends at the next one's top or one pixel above |
| TilingLayout.TilesAreInside | examples/example-server-lib/tiling_window_manager.cpp:478-516 | for every count, width and height each tile is within the screen |
| TilingLayout.TilesAreDisjoint | examples/example-server-lib/tiling_window_manager.cpp:478-516 | no two tiles share a pixel |
| TilingLayout.TilesAreByRecency | examples/example-server-lib/tiling_window_manager.cpp:478-516 | the most recently used has the left edge and full height, the others are right of it, stacked downwards by recency, all of one size |
| TilingLayout.FewTilesCover | examples/example-server-lib/tiling_window_manager.cpp:480-493 | one or two tiles cover every pixel |
| TilingLayout.ManyTilesAlmostCover | examples/example-server-lib/tiling_window_manager.cpp:494-516 | with three or more, a pixel outside the tiles is in the last column of an odd width or in the one row after a stacked tile |
| TilingLayout.Tiles.UpdateTiles | examples/example-server-lib/tiling_window_manager.cpp:478-516 | every listed tile gets its place by recency and remembers its old place; others are untouched |
| TilingWindows.ConstrainSizeAndPlace | examples/example-server-lib/tiling_window_manager.cpp:203-243 | the in-place updates compute Constrain |
| TilingWindows.ConstrainedInsideIff | examples/example-server-lib/tiling_window_manager.cpp:216-242 | a request lands in the tile iff nothing it leaves unchanged sticks out |
| TilingWindows.ConstrainedStaysInside | examples/example-server-lib/tiling_window_manager.cpp:203-243 | any request on a window in its tile leaves it there, filling it if maximized |
| TilingWindows.RequestIsClipped | examples/example-server-lib/tiling_window_manager.cpp:216-242 | the exact size and place a request gets: clipped to the tile, moved back by what hangs over; a place is set iff it changes |
| TilingWindows.ModifyKeepsMaximized | examples/example-server-lib/tiling_window_manager.cpp:187-194 | a maximized top-level window stays maximized, any other gets the state asked for |
| TilingWindows.FittingRequestIsGranted | examples/example-server-lib/tiling_window_manager.cpp:216-242 | a request that fits is granted as asked |
| TilingWindows.ConstrainIsIdempotent | examples/example-server-lib/tiling_window_manager.cpp:203-243 | constraining twice is constraining once |
| TilingWindows.MoveIsClamped | examples/example-server-lib/tiling_window_manager.cpp:642-652 | a drag or inherited move never resizes and goes as far as the tile allows |
| TilingWindows.RetiledStaysInside | examples/example-server-lib/tiling_window_manager.cpp:538-557 | a non-empty window put in a non-empty tile is non-empty and inside |
| TilingWindows.RetiledExactly | examples/example-server-lib/tiling_window_manager.cpp:538-553 | all four edges of a retiled window, for any old tile |
| TilingWindows.FullWindowStaysFull | examples/example-server-lib/tiling_window_manager.cpp:544-553 | a window equal to its old tile becomes equal to the new one |
| TilingWindows.FittingWindowKeepsOffset | examples/example-server-lib/tiling_window_manager.cpp:538-553 | a smaller window that fits keeps its offset and size |
| TilingWindows.RetiledInsideIff | examples/example-server-lib/tiling_window_manager.cpp:538-553 | a retiled window is inside a non-empty tile iff in each dimension it is not empty or as large as the old tile, or the tile reaches the origin |
| TilingWindows.EmptyWindowEscapes | examples/example-server-lib/tiling_window_manager.cpp:550-553 | an empty window can leave its tile |
| TilingWindows.StaleLayoutKeepsFullIff | examples/example-server-lib/tiling_window_manager.cpp:518-553 | a window filling its tile survives a layout with a stale old tile iff the corners are equal or a whole tile apart |
| TilingWindows.StaleLayoutShrinksWindow | examples/example-server-lib/tiling_window_manager.cpp:621-631 | an application laid out before it is in the list can lose part of its tile |
| TilingWindows.ToggleHidesOrRestores | examples/example-server-lib/tiling_window_manager.cpp:245-257 | toggling to hidden or minimized hides, or restores a window in that very state; to anything else restores |
| TilingWindows.EventsAndTiles | examples/example-server-lib/tiling_window_manager.cpp:478-525 | a layout of a listed application remembers the tile before; a stale one leaves both |
| TilingWindows.WindowsStayInTheirTile | examples/example-server-lib/tiling_window_manager.cpp:179-276 | after any sequence of requests, moves, toggles and layouts, stale ones included, a top-level window is non-empty and in its tile |
| TilingWindows.MaximizedWindowsFill | examples/example-server-lib/tiling_window_manager.cpp:203-214 | over every run without a harmful stale layout a maximized window fills its tile, and stays maximized until toggled |
| Workspaces.FloatingPolicy.ApplyHiddenTo | examples/example-server-lib/floating_window_manager.cpp:607-621 | hides a window once, saving its state |
| Workspaces.FloatingPolicy.ApplyVisibleTo | examples/example-server-lib/floating_window_manager.cpp:623-635 | shows a hidden window in its saved state |
| Workspaces.FloatingPolicy.AdviseNewWindow | examples/example-server-lib/floating_window_manager.cpp:244-257 | performs the opening that OpenPutsWindow describes |
| Workspaces.OpenPutsWindow | src/miral/basic_window_manager.cpp:137-151 | a window opens in the state asked for, a child directly below its parent in its tree and workspace, any other as a root in the active one, visible iff that is active; nothing else changes |
| Workspaces.EventFrame | examples/example-server-lib/floating_window_manager.cpp:503-647 | what closing, requests, focus and switching leave alone |
| Workspaces.FloatingPolicy.HandleModifyWindow | examples/example-server-lib/floating_window_manager.cpp:637-647 | a hidden window's requested state is kept for later, another's applied |
| Workspaces.FloatingPolicy.MoveTree | examples/example-server-lib/floating_window_manager.cpp:571-572 | the taken tree, and nothing else, moves and is shown |
| Workspaces.FloatingPolicy.SwitchWorkspaceTo | examples/example-server-lib/floating_window_manager.cpp:544-605 | the steps add up, window by window, to Switched |
| Workspaces.SwitchMovesOnlyTheTakenTree | examples/example-server-lib/floating_window_manager.cpp:571-604 | switching moves and shows exactly the tree of a focused window taken along, leaves other decorations alone, and remembers a focused window left behind |
| Workspaces.ChildrenFollow | src/miral/basic_window_manager.cpp:2285-2330 | over every run, while neither is closed, a window opened under another is in its tree and workspace, and a switch that takes the parent takes and shows it |
| Workspaces.CloseSplitsTree | src/miral/basic_window_manager.cpp:313-322 | when a window closes, each of its children becomes the root of what was below it, and other windows keep their root |
| Workspaces.TreesTogether | src/miral/basic_window_manager.cpp:2285-2330 | windows with one root are in one workspace |
| Workspaces.OnlyActiveWorkspaceIsVisible | examples/example-server-lib/floating_window_manager.cpp:503-635 | in every state of every run a window that is no decoration is hidden iff its workspace is not active |
| Workspaces.LogicalStateFollowsClient | examples/example-server-lib/floating_window_manager.cpp:607-647 | over every run a window's logical state is what its client last asked for |
| Workspaces.ComingBackRestores | examples/example-server-lib/floating_window_manager.cpp:544-635 | a window back in the active workspace shows the state its client last asked for, or the one it had |
| Histogram.MVSD.AddSample | benchmarks/text_histogram/__init__.py:39-52 | after the update the fields are the count, the mean and the sum of squared deviations from it of all samples seen, the new one included |
| Histogram.MVSD.Variance | benchmarks/text_histogram/__init__.py:56-57 | is the mean squared deviation from the mean |
| Histogram.OnePassIsExact | benchmarks/text_histogram/__init__.py:39-63 | after any input the running mean and sum of squares are the two-pass ones |
| Histogram.CountBuckets | benchmarks/text_histogram/__init__.py:152-168 | each count is the number of samples of its bucket, and counts plus skipped make samples |
| Histogram.CountAll | benchmarks/text_histogram/__init__.py:117-168 | for equal-width and custom boundaries each count is the number of samples in the range printed for it, skipped is the number outside, and together they make the samples; raises iff the range is empty or the number of buckets is negative |
| Histogram.SortedPermutes | benchmarks/text_histogram/__init__.py:126 | sorting keeps every custom boundary, each as often as given |
| Histogram.CustomBoundaries | benchmarks/text_histogram/__init__.py:124-141 | below the maximum the boundaries are the user's inside the range, each as often as given, less the largest if the maximum replaces it |
| Histogram.EqualBoundaries | benchmarks/text_histogram/__init__.py:142-150 | as many boundaries as asked for, ten by default, one width apart, filling the range |
| Histogram.BuiltEndsAtMax | benchmarks/text_histogram/__init__.py:121-150 | both kinds of boundaries end at the maximum, so no value in range falls through |
| Histogram.BucketIsItsRange | benchmarks/text_histogram/__init__.py:161-168 | a bucket holds exactly the values above the boundary before it, up to its own |

## Left out

- RPC, protobuf, EGL and GL calls, and the demo clients: input and output, and foreign libraries.
- The path where an allocation fails and an error buffer reaches the vault (`src/client/error_buffer.cpp`): allocations are taken to succeed.
- The vault's destructor and its workaround for a lock inversion; promises are one-shot cells.
- `set_scale`, and the tiling policy's `resize`: floating-point scaling.
- The memory between a thrown "no buffer in map" and the caller: the state at that throw is not modelled, because the throw is proved unreachable.
- Overflow of counters, coordinates and times beyond their machine width.
- A period or callback set while `next_frame_after` is inside its unlocked resynchronisation, and clocks with different ids.
- FrameTiming.FrameClock.NextFrameAfter: the two readings of the time are in order and a vsync timestamp is not before the epoch.
- Which thread runs when inside the depository's own mutex: the depository class is called one method at a time.
- Focus: which window becomes active after a switch is left open within the active workspace, and `select_active_window` restoring a minimized window (`src/miral/basic_window_manager.cpp:1560-1569`) is not modelled.
- TilingWindows.WindowsStayInTheirTile: `modify_window` is taken to apply the given specification, windows start placed inside their tile, and cascading placement of new windows is not modelled.
- `adopted_by` and `unadopted_by`, `median`, `keep_window_within_constraints`, blobs, display configuration and event accessors: they would add easy members only.
- Histogram.MVSD.AddSample: weights other than 1, for which the source's mean update ignores the weight, and rounding of decimal arithmetic.
