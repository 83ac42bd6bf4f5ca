/** What every interleaving of the vault's threads, the RPC layer and the server keeps. */
module VaultInvariant {
  import opened Collections
  import opened Geometry
  import opened Books
  import opened VaultProtocol

  /** Each buffer that `current_buffer_count` counts is in the ledger or arriving at it, requested
      from the server, or promised to be requested. */
  ghost predicate Conserved(s: State) {
    s.pool.current == |Tracked(s.books)| + |s.pool.requests| + |s.pool.committed|
  }

  ghost predicate NeededMatchesInterval(p: Pool) {
    p.needed == p.initial + (if p.interval == 0 then 1 else 0)
  }

  ghost predicate NoneOurs(b: Books) {
    forall id :: id in b.ledger ==> b.ledger[id] != Self
  }

  /** A waiter never waits beside a buffer it could have had, nor for a pool shrunk to nothing. */
  ghost predicate WaitersStarveHonestly(s: State) {
    s.queue.promises != [] ==> NoneOurs(s.books) && (s.pool.initial > 0 ==> s.pool.current > 0)
  }

  /** The tickets served come before the first one waiting, the waiting ones are consecutive, and
      while connected nobody before the first one waiting was skipped. */
  ghost predicate ServedInOrder(q: Queue, connected: bool) {
    && |q.promises| <= q.tickets
    && (forall i :: 0 <= i < |q.promises| ==> q.promises[i] == q.tickets - |q.promises| + i)
    && (forall t :: t in q.granted ==> t < q.tickets - |q.promises|)
    && (connected ==> forall t: nat :: t < q.tickets - |q.promises| ==> t in q.granted)
  }

  ghost predicate QuietOnceDisconnected(s: State) {
    s.disconnected ==> s.queue.promises == [] && s.calls.deferred == None
  }

  /** How many places a callback is in. */
  ghost function Copies(c: Calls, d: nat): nat {
    c.ran[d] + c.taken[d] + PendingDone(c)[d] + c.lost[d] + c.dropped[d]
  }

  /** Every callback handed over is in exactly one place, once. */
  ghost predicate EachDoneOnce(c: Calls) {
    forall d: nat :: Copies(c, d) == if d < c.dones then 1 else 0
  }

  /** The wait handle is short by one result for each callback that was deferred and has not
      reported. */
  ghost predicate ResultsBalanced(c: Calls) {
    && c.expecting - c.received == |c.taken| + |PendingDone(c)| + |c.lost|
    && 0 <= c.received
  }

  ghost predicate CallbacksBalanced(c: Calls) {
    EachDoneOnce(c) && ResultsBalanced(c)
  }

  ghost predicate Inv(s: State) {
    && Conserved(s)
    && Accounted(s.books)
    && NeededMatchesInterval(s.pool)
    && WaitersStarveHonestly(s)
    && ServedInOrder(s.queue, !s.disconnected)
    && QuietOnceDisconnected(s)
    && CallbacksBalanced(s.calls)
  }

  lemma InitInv(size: Size, n: nat)
    ensures Inv(Init(size, n))
  {
    assert multiset{}[OfSize(size) := n] - multiset{} == multiset{}[OfSize(size) := n];
  }

  // ----- withdraw

  lemma CleanUpKeeps(s: State)
    requires Conserved(s) && Accounted(s.books)
    ensures Conserved(CleanUp(s)) && Accounted(CleanUp(s).books)
  {
    var stale := Stale(s.books, s.size);
    assert stale <= OwnedBy(s.books, Self);
    EvictKeeps(s.books, stale);
  }

  /** After the cleanup, a buffer of ours is a usable one. */
  lemma CleanUpLeavesUsable(b: Books, size: Size)
    requires Accounted(b)
    ensures var c := Evict(b, Stale(b, size));
            && (Usable(c, size) == {} ==> NoneOurs(c))
            && (NoneOurs(b) ==> forall id :: id !in Usable(c, size))
  {
    var c := Evict(b, Stale(b, size));
    if Usable(c, size) == {} {
      forall id | id in c.ledger
        ensures c.ledger[id] != Self
      {
        assert id !in Stale(b, size) && id !in Usable(c, size);
      }
    }
  }

  lemma WithdrawKeepsBooks(s: State)
    requires Conserved(s) && Accounted(s.books)
    ensures Conserved(WithdrawSection(s)) && Accounted(WithdrawSection(s).books)
  {
    CleanUpKeeps(s);
    var c := CleanUp(s);
    var found := AvailableBuffer(c.books, c.size, c.lastReceived);
    if found.Some? {
      ReownKeeps(c.books, found.value, ContentProducer);
    } else {
      assert WithdrawSection(s).books == c.books;
    }
  }

  lemma EnqueueKeepsOrder(q: Queue)
    requires ServedInOrder(q, true)
    ensures ServedInOrder(Enqueue(q), true)
  {
  }

  lemma GrantNowKeepsOrder(q: Queue, id: int)
    requires ServedInOrder(q, true) && q.promises == []
    ensures ServedInOrder(GrantNow(q, id), true)
  {
  }

  lemma WaitersAreEnqueued(s: State)
    requires Accounted(s.books) && WaitersStarveHonestly(s) && s.queue.promises != []
    ensures WithdrawSection(s).queue == Enqueue(s.queue)
  {
    CleanUpLeavesUsable(s.books, s.size);
  }

  lemma CommitKeepsSome(p: Pool, a: Allocation)
    requires NeededMatchesInterval(p) && p.initial > 0 && p.current >= 0
    ensures CommitIfShort(p, a).current > 0
  {
  }

  lemma WithdrawKeepsWaiters(s: State)
    requires Conserved(s) && Accounted(s.books) && WaitersStarveHonestly(s) && NeededMatchesInterval(s.pool)
    ensures WaitersStarveHonestly(WithdrawSection(s))
  {
    CleanUpKeeps(s);
    var c := CleanUp(s);
    var found := AvailableBuffer(c.books, c.size, c.lastReceived);
    if found.Some? {
      if s.queue.promises != [] {
        WaitersAreEnqueued(s);
      }
    } else {
      CleanUpLeavesUsable(s.books, s.size);
      if s.pool.initial > 0 {
        CommitKeepsSome(c.pool, OfSize(s.size));
      }
    }
  }

  lemma WithdrawKeepsOrder(s: State)
    requires Accounted(s.books) && WaitersStarveHonestly(s) && ServedInOrder(s.queue, true)
    ensures ServedInOrder(WithdrawSection(s).queue, true)
  {
    var found := AvailableBuffer(CleanUp(s).books, s.size, s.lastReceived);
    if s.queue.promises != [] {
      WaitersAreEnqueued(s);
      EnqueueKeepsOrder(s.queue);
    } else if found.Some? {
      GrantNowKeepsOrder(s.queue, found.value);
    } else {
      EnqueueKeepsOrder(s.queue);
    }
  }

  /** Nothing else changes. */
  lemma WithdrawFrame(s: State)
    ensures var t := WithdrawSection(s);
            && t.calls == s.calls && t.disconnected == s.disconnected
            && t.pool.needed == s.pool.needed && t.pool.initial == s.pool.initial && t.pool.interval == s.pool.interval
  {
  }

  lemma WithdrawKeeps(s: State)
    requires Inv(s) && !s.disconnected
    ensures Inv(WithdrawSection(s))
  {
    WithdrawKeepsBooks(s);
    WithdrawKeepsWaiters(s);
    WithdrawKeepsOrder(s);
    WithdrawFrame(s);
  }

  lemma WithdrawStep(s: State)
    requires Inv(s)
    ensures Inv(Step(s, Withdraw))
  {
    if Fault(s, Withdraw).None? {
      assert Step(s, Withdraw) == WithdrawSection(s);
      WithdrawKeeps(s);
    }
  }

  // ----- wire_transfer_inbound

  lemma GrantOldestKeepsOrder(q: Queue, id: int, connected: bool)
    requires ServedInOrder(q, connected)
    ensures ServedInOrder(GrantOldest(q, id), connected)
  {
  }

  lemma TriggerKeeps(c: Calls)
    requires CallbacksBalanced(c)
    ensures CallbacksBalanced(TriggerCallback(c))
  {
    forall d: nat
      ensures Copies(TriggerCallback(c), d) == Copies(c, d)
    {
    }
  }

  lemma RejectedInboundStep(s: State, id: int)
    requires Inv(s) && id in s.books.arriving && id in s.books.surfaceMap
    requires (id in s.books.ledger && s.pool.current > s.pool.needed) || s.books.surfaceMap[id].size != s.size
    ensures Inv(InboundSection(s, id))
  {
    RejectKeeps(s.books, id);
  }

  lemma AcceptedInboundStep(s: State, id: int)
    requires Inv(s) && id in s.books.arriving && id in s.books.surfaceMap
    requires !(id in s.books.ledger && s.pool.current > s.pool.needed) && s.books.surfaceMap[id].size == s.size
    ensures Inv(InboundSection(s, id))
  {
    AcceptKeeps(s.books, id);
    ReownKeeps(Accept(s.books, id), id, ContentProducer);
    GrantOldestKeepsOrder(s.queue, id, !s.disconnected);
    TriggerKeeps(s.calls);
  }

  lemma InboundKeeps(s: State, id: int)
    requires Inv(s) && id in s.books.arriving && id in s.books.surfaceMap
    ensures Inv(InboundSection(s, id))
  {
    if (id in s.books.ledger && s.pool.current > s.pool.needed) || s.books.surfaceMap[id].size != s.size {
      RejectedInboundStep(s, id);
    } else {
      AcceptedInboundStep(s, id);
    }
  }

  lemma InboundStep(s: State, id: int)
    requires Inv(s) && id in s.books.arriving
    ensures Inv(Step(s, Inbound(id)))
  {
    if id in s.books.surfaceMap {
      assert Step(s, Inbound(id)) == InboundSection(s, id);
      InboundKeeps(s, id);
    }
  }

  lemma DisconnectStep(s: State)
    requires Inv(s)
    ensures Inv(Step(s, Disconnect))
  {
    TriggerKeeps(s.calls);
  }

  // ----- deposit and wire_transfer_outbound

  lemma DepositStep(s: State, id: int)
    requires Inv(s)
    ensures Inv(Step(s, Deposit(id)))
  {
    if Fault(s, Deposit(id)).None? {
      ReownKeeps(s.books, id, SelfWithContent);
    }
  }

  lemma TransferStep(s: State, id: int)
    requires Inv(s)
    ensures Inv(Step(s, Transfer(id)))
  {
    if Fault(s, Transfer(id)).None? {
      MarkKeeps(s.books, id);
    }
  }

  lemma SubmitStep(s: State, id: int)
    requires Inv(s) && id in s.books.submitting
    ensures Inv(Step(s, Submit(id)))
  {
    SendKeeps(s.books, id);
  }

  lemma RunNowKeeps(c: Calls)
    requires CallbacksBalanced(c)
    ensures CallbacksBalanced(RunNow(c))
  {
    forall d: nat
      ensures Copies(RunNow(c), d) == Copies(c, d) + if d == c.dones then 1 else 0
    {
    }
  }

  lemma DropKeeps(c: Calls)
    requires CallbacksBalanced(c)
    ensures CallbacksBalanced(Drop(c))
  {
    forall d: nat
      ensures Copies(Drop(c), d) == Copies(c, d) + if d == c.dones then 1 else 0
    {
    }
  }

  lemma DeferKeeps(c: Calls)
    requires CallbacksBalanced(c)
    ensures CallbacksBalanced(Defer(c))
  {
    forall d: nat
      ensures Copies(Defer(c), d) == Copies(c, d) + if d == c.dones then 1 else 0
    {
    }
  }

  lemma CompleteStep(s: State)
    requires Inv(s)
    ensures Inv(Step(s, Complete))
  {
    if s.disconnected {
      DropKeeps(s.calls);
    } else if AvailableBuffer(s.books, s.size, s.lastReceived).Some? {
      RunNowKeeps(s.calls);
    } else {
      DeferKeeps(s.calls);
    }
  }

  lemma RunCallbackKeeps(c: Calls, d: nat)
    requires CallbacksBalanced(c) && d in c.taken
    ensures CallbacksBalanced(c.(taken := c.taken - multiset{d}, ran := c.ran + multiset{d},
                                 received := c.received + 1))
  {
    var c' := c.(taken := c.taken - multiset{d}, ran := c.ran + multiset{d}, received := c.received + 1);
    OneFewer(c.taken, d);
    forall e: nat
      ensures Copies(c', e) == Copies(c, e)
    {
    }
  }

  lemma RunCallbackStep(s: State, d: nat)
    requires Inv(s) && d in s.calls.taken
    ensures Inv(Step(s, RunCallback(d)))
  {
    RunCallbackKeeps(s.calls, d);
    var c := s.calls.(taken := s.calls.taken - multiset{d}, ran := s.calls.ran + multiset{d},
                      received := s.calls.received + 1);
    assert Step(s, RunCallback(d)) == s.(calls := c);
  }

  // ----- set_interval

  lemma ShrinkKeeps(s: State)
    requires Inv(s)
    ensures Inv(ShrinkPass(s))
  {
    var ours := OwnedBy(s.books, Self);
    if ours != {} {
      EvictKeeps(s.books, {Least(ours)});
    }
  }

  lemma SetIntervalStep(s: State, i: int)
    requires Inv(s)
    ensures Inv(Step(s, SetInterval(i)))
  {
    assert Step(s, SetInterval(i)) == SetIntervalSection(s, i);
    if i != s.pool.interval && i != 0 {
      ShrinkKeeps(s.(pool := s.pool.(interval := i, needed := s.pool.initial)));
    }
  }

  lemma ShrinkStep(s: State)
    requires Inv(s)
    ensures Inv(Step(s, Shrink))
  {
    if s.pool.shrinkers > 0 {
      ShrinkKeeps(s.(pool := s.pool.(shrinkers := s.pool.shrinkers - 1)));
    }
  }

  // ----- the wire

  lemma IssueAllocationStep(s: State, al: Allocation)
    requires Inv(s) && al in s.pool.committed
    ensures Inv(Step(s, IssueAllocation(al)))
  {
    OneFewer(s.pool.committed, al);
  }

  lemma IssueFreeStep(s: State, id: int)
    requires Inv(s) && id in s.books.freeing
    ensures Inv(Step(s, IssueFree(id)))
  {
    ForgetKeeps(s.books, id);
  }

  lemma ServerAddsConserves(s: State, id: int, sz: Size)
    requires Conserved(s) && Accounted(s.books) && id !in s.books.surfaceMap && sz in s.pool.requests
    ensures |Tracked(AddFromServer(s.books, id, sz))| + |s.pool.requests - multiset{sz}| + |s.pool.committed|
            == s.pool.current
  {
    AddKeeps(s.books, id, sz);
    OneFewer(s.pool.requests, sz);
  }

  lemma ServerAddsStep(s: State, id: int, sz: Size)
    requires Inv(s) && id !in s.books.surfaceMap && sz in s.pool.requests
    ensures Inv(Step(s, ServerAdds(id, sz)))
  {
    var t := s.(books := AddFromServer(s.books, id, sz),
                pool := s.pool.(requests := s.pool.requests - multiset{sz}));
    assert Step(s, ServerAdds(id, sz)) == t;
    AddKeeps(s.books, id, sz);
    ServerAddsConserves(s, id, sz);
    assert Inv(t);
  }

  lemma ServerReturnsStep(s: State, id: int)
    requires Inv(s) && id in s.books.serverHeld
    ensures Inv(Step(s, ServerReturns(id)))
  {
    ReturnKeeps(s.books, id);
    var t := s.(books := ReturnFromServer(s.books, id));
    assert Step(s, ServerReturns(id)) == t;
    assert Conserved(t) && WaitersStarveHonestly(t);
  }

  lemma ResizeStep(s: State, sz: Size)
    requires Inv(s)
    ensures Inv(Step(s, Resize(sz)))
  {
  }

  /** Waiting takes as much from what is expected as from what was received. */
  lemma WaitKeeps(c: Calls, n: int)
    requires CallbacksBalanced(c) && n <= c.received
    ensures CallbacksBalanced(c.(expecting := c.expecting - n, received := c.received - n))
  {
    var c' := c.(expecting := c.expecting - n, received := c.received - n);
    assert forall d: nat :: Copies(c', d) == Copies(c, d);
  }

  lemma CallsStep(s: State, c: Calls)
    requires Inv(s) && CallbacksBalanced(c) && c.deferred == s.calls.deferred
    ensures Inv(s.(calls := c))
  {
  }

  lemma WaitStep(s: State, a: Action)
    requires Inv(s) && Enabled(s, a) && (a.WaitForAll? || a.WaitForOne?)
    ensures Inv(Step(s, a))
  {
    var n := if a.WaitForAll? then s.calls.received else 1;
    var c := s.calls.(expecting := s.calls.expecting - n, received := s.calls.received - n);
    WaitKeeps(s.calls, n);
    CallsStep(s, c);
    assert Step(s, a) == s.(calls := c);
  }

  // ----- every action, every run

  /** Every action, in every state, keeps the invariant. */
  lemma StepInv(s: State, a: Action)
    requires Inv(s) && Enabled(s, a)
    ensures Inv(Step(s, a))
  {
    match a
    case Withdraw => WithdrawStep(s);
    case Deposit(id) => DepositStep(s, id);
    case Transfer(id) => TransferStep(s, id);
    case Submit(id) => SubmitStep(s, id);
    case Complete => CompleteStep(s);
    case Inbound(id) => InboundStep(s, id);
    case Disconnect => DisconnectStep(s);
    case SetInterval(i) => SetIntervalStep(s, i);
    case Shrink => ShrinkStep(s);
    case IssueAllocation(al) => IssueAllocationStep(s, al);
    case IssueFree(id) => IssueFreeStep(s, id);
    case RunCallback(d) => RunCallbackStep(s, d);
    case ServerAdds(id, sz) => ServerAddsStep(s, id, sz);
    case ServerReturns(id) => ServerReturnsStep(s, id);
    case Resize(sz) => ResizeStep(s, sz);
    case _ => WaitStep(s, a);
  }

  /** The invariant holds after every legal run from a freshly constructed vault. */
  lemma {:induction false} RunInv(s: State, run: seq<Action>)
    requires Inv(s) && Legal(s, run)
    ensures Inv(After(s, run))
    decreases |run|
  {
    if run != [] {
      StepInv(s, run[0]);
      RunInv(Step(s, run[0]), run[1..]);
    }
  }
}
