/** What the invariant means for the users of a vault, over every run. */
module VaultGuarantees {
  import opened Collections
  import opened Geometry
  import opened Books
  import opened VaultProtocol
  import opened VaultInvariant

  /** Buffer conservation: in every reachable state the counter equals ledger entries (with those
      arriving), plus outstanding requests, plus committed allocations; it is never below the size
      of the ledger, and no step can take it below zero. */
  lemma BuffersAreConserved(size: Size, n: nat, run: seq<Action>)
    requires Legal(Init(size, n), run)
    ensures var s := After(Init(size, n), run);
            && s.pool.current == |s.books.ledger.Keys + s.books.arriving| + |s.pool.requests| + |s.pool.committed|
            && s.pool.current >= |s.books.ledger.Keys| >= |Stale(s.books, s.size)| >= 0
            && s.pool.needed == n + (if s.pool.interval == 0 then 1 else 0)
  {
    var s := After(Init(size, n), run);
    InitInv(size, n);
    RunInv(Init(size, n), run);
    InitialCountFixed(Init(size, n), run);
    SubsetSize(s.books.ledger.Keys, Tracked(s.books));
    SubsetSize(Stale(s.books, s.size), s.books.ledger.Keys);
  }

  lemma StepKeepsInitialCount(s: State, a: Action)
    ensures Step(s, a).pool.initial == s.pool.initial
  {
    match a
    case Withdraw =>
    case Deposit(_) =>
    case Transfer(_) =>
    case Submit(_) =>
    case Complete =>
    case Inbound(_) =>
    case Disconnect =>
    case Resize(_) =>
    case SetInterval(_) =>
    case Shrink =>
    case IssueAllocation(_) =>
    case IssueFree(_) =>
    case RunCallback(_) =>
    case WaitForAll =>
    case WaitForOne =>
    case ServerAdds(_, _) =>
    case ServerReturns(_) =>
  }

  lemma {:induction false} InitialCountFixed(s: State, run: seq<Action>)
    requires Legal(s, run)
    ensures After(s, run).pool.initial == s.pool.initial
    decreases |run|
  {
    if run != [] {
      StepKeepsInitialCount(s, run[0]);
      InitialCountFixed(Step(s, run[0]), run[1..]);
    }
  }

  /** Ledger, surface map and ownership flag agree in every reachable state: the map holds exactly the
      ids in the ledger, arriving at it, or about to be freed; a buffer that is ours or with the
      producer is owned; and an unowned one is in the ledger as the server's. */
  lemma LedgerMapAndFlagAgree(size: Size, n: nat, run: seq<Action>, b: Books)
    requires Legal(Init(size, n), run) && b == After(Init(size, n), run).books
    ensures b.surfaceMap.Keys == b.ledger.Keys + b.arriving + b.freeing
    ensures forall id :: id in b.freeing ==> id !in b.ledger && id !in b.arriving
    ensures forall id :: id in b.ledger && b.ledger[id] != Server ==> id in b.surfaceMap && b.surfaceMap[id].owned
    ensures forall id :: id in b.surfaceMap && !b.surfaceMap[id].owned ==> id in b.ledger && b.ledger[id] == Server
  {
    InitInv(size, n);
    RunInv(Init(size, n), run);
    MapIsAccounted(b);
    FlagIsAccounted(b);
  }

  /** In a well-behaved run nobody meets "no buffer in map" or "cannot submit unowned buffer". */
  lemma NoInternalFault(s: State, a: Action)
    requires Inv(s) && Enabled(s, a)
    ensures Fault(s, a) != Some(NoBufferInMap) && Fault(s, a) != Some(CannotSubmitUnowned)
  {
    match a
    case Submit(id) => SendKeeps(s.books, id);
    case Withdraw => assert forall id :: id in s.books.ledger ==> id in s.books.surfaceMap;
    case Complete => assert forall id :: id in OwnedBy(s.books, Self) ==> id in s.books.surfaceMap;
    case _ =>
  }

  /** What is up for freeing was already, or was ours, or has just arrived. */
  ghost predicate FreesOnlyOurs(b: Books, b': Books) {
    forall id :: id in b'.freeing ==> id in b.freeing || id in b.arriving || id in OwnedBy(b, Self)
  }

  lemma WithdrawFrees(s: State)
    ensures FreesOnlyOurs(s.books, WithdrawSection(s).books)
  {
  }

  lemma ShrinkFrees(s: State)
    ensures FreesOnlyOurs(s.books, ShrinkPass(s).books)
  {
  }

  lemma InboundFrees(s: State, id: int)
    requires Enabled(s, Inbound(id))
    ensures FreesOnlyOurs(s.books, Step(s, Inbound(id)).books)
  {
  }

  lemma HandlingFreesNone(s: State, a: Action)
    requires a.Deposit? || a.Transfer? || a.Submit? || a.IssueFree? || a.ServerAdds? || a.ServerReturns?
    ensures FreesOnlyOurs(s.books, Step(s, a).books)
  {
  }

  lemma WhatIsFreed(s: State, a: Action)
    requires Inv(s) && Enabled(s, a)
    ensures FreesOnlyOurs(s.books, Step(s, a).books)
  {
    match a
    case Withdraw => WithdrawFrees(s);
    case Shrink => ShrinkFrees(s.(pool := s.pool.(shrinkers := s.pool.shrinkers - 1)));
    case SetInterval(i) => ShrinkFrees(s.(pool := s.pool.(interval := i, needed := s.pool.initial)));
    case Inbound(_) => InboundFrees(s, a.id);
    case _ =>
      if SparesBooks(a) {
        BooksSpared(s, a);
      } else {
        HandlingFreesNone(s, a);
      }
  }

  /** A buffer is freed only if it was ours, or just arrived; and it has left the ledger by then. */
  lemma FreedOnlyWhenHeldHere(s: State, a: Action, id: int)
    requires Inv(s) && Enabled(s, a)
    requires id in Step(s, a).books.freeing && id !in s.books.freeing
    ensures id in s.books.arriving || id in OwnedBy(s.books, Self)
    ensures id in s.books.surfaceMap && s.books.surfaceMap[id].owned
    ensures id !in Step(s, a).books.ledger
  {
    WhatIsFreed(s, a);
    StepInv(s, a);
  }

  // ----- what an action leaves alone

  predicate SparesBooks(a: Action) {
    a.Complete? || a.Disconnect? || a.Resize? || a.IssueAllocation? || a.RunCallback? || a.WaitForAll? || a.WaitForOne?
  }

  predicate SparesPool(a: Action) {
    || a.Deposit? || a.Transfer? || a.Submit? || a.Complete? || a.Disconnect? || a.Resize?
    || a.IssueFree? || a.RunCallback? || a.WaitForAll? || a.WaitForOne? || a.ServerReturns?
  }

  predicate SparesGrants(a: Action) {
    !a.Withdraw? && !a.Inbound?
  }

  lemma BooksSpared(s: State, a: Action)
    requires SparesBooks(a)
    ensures Step(s, a).books == s.books
  {
  }

  lemma PoolSpared(s: State, a: Action)
    requires SparesPool(a)
    ensures Step(s, a).pool == s.pool
  {
  }

  lemma GrantsSpared(s: State, a: Action)
    requires SparesGrants(a)
    ensures Step(s, a).queue.granted == s.queue.granted
  {
  }

  // ----- withdrawals

  lemma WithdrawGrantsUsable(s: State)
    requires Accounted(s.books)
    ensures var t := WithdrawSection(s);
            t.queue.granted != s.queue.granted ==>
              && t.queue == GrantNow(s.queue, t.queue.granted[s.queue.tickets])
              && var id := t.queue.granted[s.queue.tickets];
                 && id in s.books.ledger && s.books.ledger[id] == Self
                 && id in t.books.ledger && t.books.ledger[id] == ContentProducer
                 && id in t.books.surfaceMap && t.books.surfaceMap[id].size == s.size
  {
  }

  lemma InboundGrantsFitting(s: State, id: int)
    requires Accounted(s.books) && id in s.books.arriving && id in s.books.surfaceMap
    ensures var t := InboundSection(s, id);
            t.queue.granted != s.queue.granted ==>
              && s.queue.promises != [] && t.queue == GrantOldest(s.queue, id)
              && (id in s.books.ledger ==> s.books.ledger[id] == Server)
              && id in t.books.ledger && t.books.ledger[id] == ContentProducer
              && id in t.books.surfaceMap && t.books.surfaceMap[id].size == s.size
  {
  }

  /** Whoever gets a buffer is next in line, gets it with the vault's size at that moment, and is
      recorded as its only holder. */
  lemma GrantsAreFair(s: State, a: Action, t: nat)
    requires Inv(s) && Enabled(s, a)
    requires t in Step(s, a).queue.granted && t !in s.queue.granted
    ensures t == s.queue.tickets - |s.queue.promises|
    ensures var s' := Step(s, a);
            var id := s'.queue.granted[t];
            && id in s'.books.ledger && s'.books.ledger[id] == ContentProducer
            && id in s'.books.surfaceMap && s'.books.surfaceMap[id].size == s.size
            && (id in s.books.ledger ==> s.books.ledger[id] != ContentProducer)
  {
    if a.Withdraw? {
      if s.queue.promises != [] {
        WaitersAreEnqueued(s);
      }
      WithdrawGrantsUsable(s);
    } else if a.Inbound? {
      InboundGrantsFitting(s, a.id);
    }
  }

  /** What a future holds never changes. */
  lemma GrantsAreFinal(s: State, a: Action, t: nat)
    requires Inv(s) && Enabled(s, a) && t in s.queue.granted
    ensures t in Step(s, a).queue.granted && Step(s, a).queue.granted[t] == s.queue.granted[t]
  {
    match a
    case Withdraw =>
    case Inbound(_) =>
    case _ => GrantsSpared(s, a);
  }

  lemma {:induction false} GrantsSurviveRuns(s: State, run: seq<Action>, t: nat)
    requires Inv(s) && Legal(s, run) && t in s.queue.granted
    ensures t in After(s, run).queue.granted && After(s, run).queue.granted[t] == s.queue.granted[t]
    decreases |run|
  {
    if run != [] {
      StepInv(s, run[0]);
      GrantsAreFinal(s, run[0], t);
      GrantsSurviveRuns(Step(s, run[0]), run[1..], t);
    }
  }

  /** No withdrawal overtakes an earlier one, and nobody waits while a buffer of ours lies idle. */
  lemma NobodyOvertakes(size: Size, n: nat, run: seq<Action>, s: State)
    requires Legal(Init(size, n), run) && s == After(Init(size, n), run) && !s.disconnected
    ensures forall early: nat, late: nat :: early < late && late in s.queue.granted ==> early in s.queue.granted
    ensures s.queue.promises != [] ==> NoneOurs(s.books)
  {
    InitInv(size, n);
    RunInv(Init(size, n), run);
  }

  // ----- the size of the pool

  ghost function Excess(p: Pool): nat {
    if p.current > p.needed then p.current - p.needed else 0
  }

  lemma WithdrawKeepsExcess(s: State)
    ensures Excess(WithdrawSection(s).pool) <= Excess(s.pool)
  {
  }

  lemma InboundKeepsExcess(s: State, id: int)
    requires id in s.books.surfaceMap
    ensures Excess(InboundSection(s, id).pool) <= Excess(s.pool)
  {
  }

  lemma ShrinkKeepsExcess(s: State)
    ensures Excess(ShrinkPass(s).pool) <= Excess(s.pool)
  {
  }

  lemma SetIntervalExcess(s: State, i: int)
    requires NeededMatchesInterval(s.pool)
    ensures Excess(SetIntervalSection(s, i).pool) <= Excess(s.pool) + if i != 0 && s.pool.interval == 0 then 1 else 0
  {
    if i != 0 && i != s.pool.interval {
      ShrinkKeepsExcess(s.(pool := s.pool.(interval := i, needed := s.pool.initial)));
    }
  }

  /** A switch from interval zero, after which one buffer fewer is needed. */
  predicate LeavesZero(s: State, a: Action) {
    a.SetInterval? && a.newInterval != 0 && s.pool.interval == 0
  }

  /** A known buffer comes back, or a pass of the loop in set_interval finds one of ours. */
  predicate OffersBuffer(s: State, a: Action) {
    || (a.Inbound? && a.id in s.books.ledger && a.id in s.books.surfaceMap)
    || (a.Shrink? && s.pool.shrinkers > 0 && OwnedBy(s.books, Self) != {})
  }

  function One(b: bool): nat {
    if b then 1 else 0
  }

  function LessOne(n: nat, b: bool): nat {
    if b && n > 0 then n - 1 else n
  }

  lemma OfferLowersExcess(s: State, a: Action)
    requires OffersBuffer(s, a)
    ensures Excess(Step(s, a).pool) <= LessOne(Excess(s.pool), true)
  {
  }

  lemma ShrinkStepKeepsExcess(s: State)
    requires s.pool.shrinkers > 0
    ensures Excess(Step(s, Shrink).pool) <= Excess(s.pool)
  {
    ShrinkKeepsExcess(s.(pool := s.pool.(shrinkers := s.pool.shrinkers - 1)));
  }

  lemma FaultSparesPool(s: State, a: Action)
    requires Fault(s, a).Some?
    ensures Step(s, a).pool == s.pool
  {
  }

  lemma OrdersKeepExcess(s: State, a: Action)
    requires a.IssueAllocation? || a.ServerAdds?
    ensures Excess(Step(s, a).pool) == Excess(s.pool)
  {
  }

  lemma ServingKeepsExcess(s: State, a: Action)
    requires a.Withdraw? || a.Inbound?
    ensures Excess(Step(s, a).pool) <= Excess(s.pool)
  {
    if Fault(s, a).Some? {
      FaultSparesPool(s, a);
    } else if a.Withdraw? {
      WithdrawKeepsExcess(s);
    } else {
      InboundKeepsExcess(s, a.id);
    }
  }

  /** Only a switch from interval zero can raise the excess, by one; while there is excess, each
      buffer offered lowers it by one. */
  lemma ExcessStep(s: State, a: Action)
    requires Inv(s) && Enabled(s, a)
    ensures Excess(Step(s, a).pool) <= LessOne(Excess(s.pool), OffersBuffer(s, a)) + One(LeavesZero(s, a))
  {
    if OffersBuffer(s, a) {
      OfferLowersExcess(s, a);
    } else if a.Withdraw? || a.Inbound? {
      ServingKeepsExcess(s, a);
    } else if a.Shrink? {
      ShrinkStepKeepsExcess(s);
    } else if a.SetInterval? {
      SetIntervalExcess(s, a.newInterval);
    } else if a.IssueAllocation? || a.ServerAdds? {
      OrdersKeepExcess(s, a);
    } else {
      PoolSpared(s, a);
    }
  }

  ghost function SwitchesFromZero(s: State, run: seq<Action>): nat
    decreases |run|
  {
    if run == [] then 0 else One(LeavesZero(s, run[0])) + SwitchesFromZero(Step(s, run[0]), run[1..])
  }

  /** Buffers offered, in a run. */
  ghost function Offered(s: State, run: seq<Action>): nat
    decreases |run|
  {
    if run == [] then 0 else One(OffersBuffer(s, run[0])) + Offered(Step(s, run[0]), run[1..])
  }

  /** Buffers offered while there was excess, each of which is given back. */
  ghost function GivenBack(s: State, run: seq<Action>): nat
    decreases |run|
  {
    if run == [] then 0
    else One(OffersBuffer(s, run[0]) && Excess(s.pool) > 0) + GivenBack(Step(s, run[0]), run[1..])
  }

  /** Over every run, whatever is given back is paid for by the excess there was and by the
      switches from interval zero. */
  lemma {:induction false} SurplusIsPaidFor(s: State, run: seq<Action>)
    requires Inv(s) && Legal(s, run)
    ensures Excess(After(s, run).pool) + GivenBack(s, run) <= Excess(s.pool) + SwitchesFromZero(s, run)
    decreases |run|
  {
    if run != [] {
      ExcessStep(s, run[0]);
      StepInv(s, run[0]);
      SurplusIsPaidFor(Step(s, run[0]), run[1..]);
    }
  }

  /** Interval changes converge: every run that offers as many buffers as there was excess leaves
      none but what its own switches caused. */
  lemma {:induction false} SurplusConverges(s: State, run: seq<Action>)
    requires Inv(s) && Legal(s, run)
    ensures Excess(After(s, run).pool) <=
            (if Offered(s, run) < Excess(s.pool) then Excess(s.pool) - Offered(s, run) else 0) + SwitchesFromZero(s, run)
    decreases |run|
  {
    if run != [] {
      ExcessStep(s, run[0]);
      StepInv(s, run[0]);
      SurplusConverges(Step(s, run[0]), run[1..]);
    }
  }

  // ----- losing the connection

  lemma {:induction false} DisconnectionIsFinal(s: State, run: seq<Action>)
    requires Legal(s, run) && s.disconnected
    ensures After(s, run).disconnected
    decreases |run|
  {
    if run != [] {
      DisconnectionIsFinal(Step(s, run[0]), run[1..]);
    }
  }

  /** Once disconnected, in every later state nobody waits and no callback is pending. */
  lemma DisconnectionIsAbsorbing(s: State, run: seq<Action>)
    requires Inv(s) && Legal(s, [Disconnect] + run)
    ensures var t := After(s, [Disconnect] + run);
            t.disconnected && t.queue.promises == [] && t.calls.deferred == None
  {
    var whole := [Disconnect] + run;
    assert whole[0] == Disconnect && whole[1..] == run;
    StepInv(s, Disconnect);
    RunInv(Step(s, Disconnect), run);
    DisconnectionIsFinal(Step(s, Disconnect), run);
  }

  // ----- swap callbacks

  /** Only the end of a submit, an arrival, a disconnection, a callback that runs and somebody who waits
      for results have to do with callbacks. */
  predicate SparesCalls(a: Action) {
    !a.Complete? && !a.Inbound? && !a.Disconnect? && !a.RunCallback? && !a.WaitForAll? && !a.WaitForOne?
  }

  lemma IntervalSparesCalls(s: State, a: Action)
    requires a.SetInterval? || a.Shrink?
    ensures Step(s, a).calls == s.calls
  {
  }

  lemma CallsSpared(s: State, a: Action)
    requires SparesCalls(a)
    ensures Step(s, a).calls == s.calls
  {
    match a
    case Withdraw => WithdrawFrame(s);
    case SetInterval(_) => IntervalSparesCalls(s, a);
    case Shrink => IntervalSparesCalls(s, a);
    case _ =>
  }

  lemma CompletionForgoes(s: State)
    requires Inv(s)
    ensures Step(s, Complete).calls.dropped ==
            s.calls.dropped + if s.disconnected then multiset{s.calls.dones} else multiset{}
    ensures Step(s, Complete).calls.lost ==
            s.calls.lost + if !s.disconnected && s.calls.deferred.Some? && Usable(s.books, s.size) == {}
                           then multiset{s.calls.deferred.value} else multiset{}
  {
    NoInternalFault(s, Complete);
    assert Step(s, Complete) == CompleteSection(s);
  }

  lemma OthersForgoNone(s: State, a: Action)
    requires !SparesCalls(a) && !a.Complete?
    ensures Step(s, a).calls.dropped == s.calls.dropped && Step(s, a).calls.lost == s.calls.lost
  {
  }

  /** A callback is thrown away only by a submit that finds the connection lost, and then only its
      own; one is overwritten only by a submit that defers while another is pending. */
  lemma WhenCallbacksAreForgone(s: State, a: Action)
    requires Inv(s) && Enabled(s, a)
    ensures Step(s, a).calls.dropped ==
            s.calls.dropped + if a.Complete? && s.disconnected then multiset{s.calls.dones} else multiset{}
    ensures Step(s, a).calls.lost ==
            s.calls.lost + if a.Complete? && !s.disconnected && s.calls.deferred.Some? && Usable(s.books, s.size) == {}
                           then multiset{s.calls.deferred.value} else multiset{}
  {
    if SparesCalls(a) {
      CallsSpared(s, a);
    } else if a.Complete? {
      CompletionForgoes(s);
    } else {
      OthersForgoNone(s, a);
    }
  }

  /** What a submit does with its callback: thrown away if the connection is lost, run at once if a
      buffer of ours has the vault's size, and otherwise kept until one comes. */
  lemma SubmitSettlesCallback(s: State, d: nat)
    requires Inv(s) && d == s.calls.dones
    ensures var c, c' := s.calls, Step(s, Complete).calls;
            var usable := exists id :: id in s.books.ledger && s.books.ledger[id] == Self && s.books.surfaceMap[id].size == s.size;
            && c'.dones == d + 1 && c'.received == c.received && c'.taken == c.taken
            && c'.ran == c.ran + (if !s.disconnected && usable then multiset{d} else multiset{})
            && c'.deferred == (if !s.disconnected && !usable then Some(d) else c.deferred)
            && c'.expecting == c.expecting + if !s.disconnected && !usable then 1 else 0
  {
    NoInternalFault(s, Complete);
    if AvailableBuffer(s.books, s.size, s.lastReceived).Some? {
      var id := AvailableBuffer(s.books, s.size, s.lastReceived).value;
      assert id in s.books.ledger && s.books.ledger[id] == Self && s.books.surfaceMap[id].size == s.size;
    } else {
      assert forall id :: id in s.books.ledger && s.books.ledger[id] == Self && s.books.surfaceMap[id].size == s.size ==>
                            id in Usable(s.books, s.size);
    }
  }

  /** A callback taken out by an arrival or a disconnection runs, and then reports its result. */
  lemma TakenCallbackRuns(s: State, d: nat)
    requires d in s.calls.taken
    ensures var c, c' := s.calls, Step(s, RunCallback(d)).calls;
            && c'.ran == c.ran + multiset{d} && c'.taken == c.taken - multiset{d}
            && c'.received == c.received + 1 && c'.expecting == c.expecting && c'.deferred == c.deferred
  {
  }

  lemma {:induction false} NoneDropped(s: State, run: seq<Action>)
    requires Inv(s) && Legal(s, run) && (!s.disconnected ==> s.calls.dropped == multiset{})
    ensures !After(s, run).disconnected ==> After(s, run).calls.dropped == multiset{}
    decreases |run|
  {
    if run != [] {
      WhenCallbacksAreForgone(s, run[0]);
      StepInv(s, run[0]);
      NoneDropped(Step(s, run[0]), run[1..]);
    }
  }

  /** Over every run, a callback runs at most once, and never while it is still pending. */
  lemma CallbacksRunAtMostOnce(size: Size, n: nat, run: seq<Action>, d: nat)
    requires Legal(Init(size, n), run)
    ensures var c := After(Init(size, n), run).calls;
            && c.ran[d] <= 1
            && (d in c.ran ==> d < c.dones && c.deferred != Some(d) && d !in c.taken)
  {
    InitInv(size, n);
    RunInv(Init(size, n), run);
    var c := After(Init(size, n), run).calls;
    assert Copies(c, d) <= 1;
    if c.deferred == Some(d) {
      assert PendingDone(c)[d] == 1;
    }
  }
}
