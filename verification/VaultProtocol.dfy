/** The buffer-ownership protocol of src/client/buffer_vault.cpp as a transition system.

    One action is one section that a thread runs while it holds the vault's mutex, or one of the
    calls it makes after dropping it (issue an allocation, issue a free, submit to the server, run
    a swap callback).  Actions are deterministic, so a run is a sequence of actions, and every
    interleaving of any number of threads is one such sequence. */
module VaultProtocol {
  import opened Collections
  import opened Geometry
  import opened Books

  /** An allocation a thread has committed to under the lock but not issued.  `withdraw` captures
      the size under the lock; the other callers read the vault's size when they issue it. */
  datatype Allocation = OfSize(size: Size) | OfSizeWhenIssued

  datatype Pool = Pool(
    current: int,                      // current_buffer_count
    needed: int,                       // needed_buffer_count
    initial: nat,                      // initial_buffer_count
    interval: int,
    committed: multiset<Allocation>,   // allocations decided and not issued
    requests: multiset<Size>,          // allocations issued and not answered
    shrinkers: nat                     // threads inside the loop of set_interval
  )

  datatype Queue = Queue(
    promises: seq<nat>,                // tickets of withdrawals still waiting, oldest first
    tickets: nat,                      // withdrawals that got a future so far
    granted: map<nat, int>             // ticket -> buffer put in its future
  )

  datatype Calls = Calls(
    deferred: Option<nat>,             // the pending swap callback
    expecting: int,                    // the wait handle's counters
    received: int,
    taken: multiset<nat>,              // callbacks moved out by trigger_callback, not yet run
    dones: nat,                        // callbacks handed to wire_transfer_outbound so far
    ran: multiset<nat>,                // callbacks run
    lost: multiset<nat>,               // callbacks overwritten while pending
    dropped: multiset<nat>             // callbacks whose call threw on a lost connection
  )

  datatype State = State(
    books: Books,
    pool: Pool,
    queue: Queue,
    calls: Calls,
    size: Size,
    disconnected: bool,
    lastReceived: int
  )

  datatype Error =
    | ServerDisconnected
    | NoBufferInMap
    | CannotDeposit
    | CannotTransfer
    | CannotSubmitUnowned
    | BrokenPromise             // a future whose promise was dropped on a lost connection

  datatype Action =
    | Withdraw
    | Deposit(id: int)
    | Transfer(id: int)              // wire_transfer_outbound, up to the unlock
    | Submit(id: int)                // submitted() and submit_buffer(), unlocked
    | Complete                       // wire_transfer_outbound, after relocking
    | Inbound(id: int)
    | Disconnect
    | Resize(newSize: Size)
    | SetInterval(newInterval: int)
    | Shrink                         // one more pass of the loop in set_interval
    | IssueAllocation(allocation: Allocation)
    | IssueFree(id: int)
    | RunCallback(done: nat)
    | WaitForAll
    | WaitForOne
    | ServerAdds(id: int, bufferSize: Size)
    | ServerReturns(id: int)

  /** The state the constructor leaves: every initial allocation committed, none issued. */
  function Init(size: Size, initialCount: nat): State {
    State(Books(map[], map[], {}, {}, {}, {}),
          Pool(initialCount, initialCount, initialCount, 1,
               multiset{}[OfSize(size) := initialCount], multiset{}, 0),
          Queue([], 0, map[]),
          Calls(None, 0, 0, multiset{}, 0, multiset{}, multiset{}, multiset{}),
          size, false, 0)
  }

  // ----- the lock-held sections

  /** Buffers of ours that no longer have the vault's size. */
  function Stale(b: Books, size: Size): set<int> {
    set id | id in b.ledger && b.ledger[id] == Self && id in b.surfaceMap && b.surfaceMap[id].size != size
  }

  /** Buffers of ours that a withdrawal may take. */
  function Usable(b: Books, size: Size): set<int> {
    set id | id in b.ledger && b.ledger[id] == Self && id in b.surfaceMap && b.surfaceMap[id].size == size
  }

  /** available_buffer: the usable buffer with the least id, avoiding the one received last. */
  function AvailableBuffer(b: Books, size: Size, lastReceived: int): (r: Option<int>)
    ensures r.None? <==> Usable(b, size) == {}
    ensures r.Some? ==> r.value in Usable(b, size)
  {
    var usable := Usable(b, size);
    var preferred := usable - {lastReceived};
    if preferred != {} then Some(Least(preferred))
    else if usable != {} then Some(Least(usable))
    else None
  }

  /** The buffer received last is taken only if nothing else is usable; otherwise the least id is. */
  lemma LastReceivedIsLastResort(b: Books, size: Size, lastReceived: int)
    ensures var r := AvailableBuffer(b, size, lastReceived);
            && (r == Some(lastReceived) ==> forall id :: id in Usable(b, size) ==> id == lastReceived)
            && (r.Some? ==> forall id :: id in Usable(b, size) && id != lastReceived ==> r.value <= id)
  {
    var preferred := Usable(b, size) - {lastReceived};
    assert forall id :: id in Usable(b, size) && id != lastReceived ==> id in preferred;
  }

  function CleanUp(s: State): State {
    var stale := Stale(s.books, s.size);
    s.(books := Evict(s.books, stale), pool := s.pool.(current := s.pool.current - |stale|))
  }

  function CommitIfShort(p: Pool, a: Allocation): Pool {
    if p.current < p.needed
    then p.(current := p.current + 1, committed := p.committed + multiset{a})
    else p
  }

  function GrantNow(q: Queue, id: int): Queue {
    q.(granted := q.granted[q.tickets := id], tickets := q.tickets + 1)
  }

  function Enqueue(q: Queue): Queue {
    q.(promises := q.promises + [q.tickets], tickets := q.tickets + 1)
  }

  function GrantOldest(q: Queue, id: int): Queue {
    if q.promises == [] then q
    else q.(granted := q.granted[q.promises[0] := id], promises := q.promises[1..])
  }

  function WithdrawSection(s0: State): State {
    var s := CleanUp(s0);
    match AvailableBuffer(s.books, s.size, s.lastReceived)
    case Some(id) =>
      s.(books := Reown(s.books, id, ContentProducer), queue := GrantNow(s.queue, id))
    case None =>
      s.(queue := Enqueue(s.queue), pool := CommitIfShort(s.pool, OfSize(s.size)))
  }

  function PendingDone(c: Calls): multiset<nat> {
    if c.deferred.Some? then multiset{c.deferred.value} else multiset{}
  }

  function RunNow(c: Calls): Calls {
    c.(dones := c.dones + 1, ran := c.ran + multiset{c.dones})
  }

  function Defer(c: Calls): Calls {
    c.(dones := c.dones + 1, expecting := c.expecting + 1, deferred := Some(c.dones),
       lost := c.lost + PendingDone(c))
  }

  function Drop(c: Calls): Calls {
    c.(dones := c.dones + 1, dropped := c.dropped + multiset{c.dones})
  }

  function TriggerCallback(c: Calls): Calls {
    c.(deferred := None, taken := c.taken + PendingDone(c))
  }

  function CompleteSection(s: State): State {
    if s.disconnected then s.(calls := Drop(s.calls))
    else if AvailableBuffer(s.books, s.size, s.lastReceived).Some? then s.(calls := RunNow(s.calls))
    else s.(calls := Defer(s.calls))
  }

  function InboundSection(s: State, id: int): State
    requires id in s.books.surfaceMap
  {
    if id in s.books.ledger && s.pool.current > s.pool.needed then
      s.(lastReceived := id, books := Reject(s.books, id),
         pool := s.pool.(current := s.pool.current - 1))
    else if s.books.surfaceMap[id].size != s.size then
      s.(lastReceived := id, books := Reject(s.books, id),
         pool := s.pool.(committed := s.pool.committed + multiset{OfSizeWhenIssued}))
    else
      var kept := Accept(s.books, id);
      s.(lastReceived := id,
         books := if s.queue.promises == [] then kept else Reown(kept, id, ContentProducer),
         queue := GrantOldest(s.queue, id),
         calls := TriggerCallback(s.calls))
  }

  function DisconnectSection(s: State): State {
    s.(disconnected := true, queue := s.queue.(promises := []), calls := TriggerCallback(s.calls))
  }

  /** One pass of the loop that gives back surplus buffers. */
  function ShrinkPass(s: State): State {
    var ours := OwnedBy(s.books, Self);
    if s.pool.current > s.pool.needed && ours != {} then
      s.(books := Evict(s.books, {Least(ours)}),
         pool := s.pool.(current := s.pool.current - 1, shrinkers := s.pool.shrinkers + 1))
    else s
  }

  function SetIntervalSection(s: State, i: int): State {
    if i == s.pool.interval then s
    else if i == 0 then
      s.(pool := s.pool.(interval := i, current := s.pool.current + 1, needed := s.pool.needed + 1,
                         committed := s.pool.committed + multiset{OfSizeWhenIssued}))
    else ShrinkPass(s.(pool := s.pool.(interval := i, needed := s.pool.initial)))
  }

  function Issue(p: Pool, a: Allocation, size: Size): Pool {
    p.(committed := p.committed - multiset{a},
       requests := p.requests + multiset{if a.OfSize? then a.size else size})
  }

  // ----- actions

  /** What the threads, the RPC layer and the server may do next.  The last two lines are the
      assumptions about the server: an id it adds is new and answers an outstanding request of
      that size, and it returns only buffers it holds. */
  predicate Enabled(s: State, a: Action) {
    match a
    case Submit(id) => id in s.books.submitting
    case Inbound(id) => id in s.books.arriving
    case Shrink => s.pool.shrinkers > 0
    case IssueAllocation(al) => al in s.pool.committed
    case IssueFree(id) => id in s.books.freeing
    case RunCallback(d) => d in s.calls.taken
    case WaitForAll => s.calls.received == s.calls.expecting
    case WaitForOne => s.calls.received != 0
    case ServerAdds(id, sz) => id !in s.books.surfaceMap && sz in s.pool.requests
    case ServerReturns(id) => id in s.books.serverHeld && id in s.books.surfaceMap
    case _ => true
  }

  /** The exception an action ends in, if any. */
  function Fault(s: State, a: Action): Option<Error> {
    match a
    case Withdraw =>
      if s.disconnected then Some(ServerDisconnected)
      else if !(s.books.ledger.Keys <= s.books.surfaceMap.Keys) then Some(NoBufferInMap)
      else None
    case Deposit(id) =>
      if id !in s.books.ledger || s.books.ledger[id] != ContentProducer then Some(CannotDeposit)
      else if id !in s.books.surfaceMap then Some(NoBufferInMap)
      else None
    case Transfer(id) =>
      if id !in s.books.ledger || s.books.ledger[id] != SelfWithContent then Some(CannotTransfer) else None
    case Submit(id) =>
      if id !in s.books.surfaceMap || !s.books.surfaceMap[id].owned then Some(CannotSubmitUnowned) else None
    case Complete =>
      if s.disconnected then Some(ServerDisconnected)
      else if !(OwnedBy(s.books, Self) <= s.books.surfaceMap.Keys) then Some(NoBufferInMap)
      else None
    case Inbound(id) =>
      if id !in s.books.surfaceMap then Some(NoBufferInMap) else None
    case _ => None
  }

  function Step(s: State, a: Action): State {
    if Fault(s, a).Some? then
      (if a.Complete? && s.disconnected then CompleteSection(s) else s)
    else
      match a
      case Withdraw => WithdrawSection(s)
      case Deposit(id) => s.(books := Reown(s.books, id, SelfWithContent))
      case Transfer(id) => s.(books := MarkForServer(s.books, id))
      case Submit(id) => s.(books := SendToServer(s.books, id))
      case Complete => CompleteSection(s)
      case Inbound(id) => InboundSection(s, id)
      case Disconnect => DisconnectSection(s)
      case Resize(sz) => s.(size := sz)
      case SetInterval(i) => SetIntervalSection(s, i)
      case Shrink =>
        if s.pool.shrinkers == 0 then s
        else ShrinkPass(s.(pool := s.pool.(shrinkers := s.pool.shrinkers - 1)))
      case IssueAllocation(al) => s.(pool := Issue(s.pool, al, s.size))
      case IssueFree(id) => s.(books := Forget(s.books, id))
      case RunCallback(d) =>
        s.(calls := s.calls.(taken := s.calls.taken - multiset{d},
                             ran := s.calls.ran + multiset{d},
                             received := s.calls.received + 1))
      case WaitForAll => s.(calls := s.calls.(expecting := 0, received := 0))
      case WaitForOne =>
        s.(calls := s.calls.(expecting := s.calls.expecting - 1, received := s.calls.received - 1))
      case ServerAdds(id, sz) =>
        s.(books := AddFromServer(s.books, id, sz),
           pool := s.pool.(requests := s.pool.requests - multiset{sz}))
      case ServerReturns(id) =>
        if id !in s.books.surfaceMap then s else s.(books := ReturnFromServer(s.books, id))
  }

  // ----- runs

  ghost predicate Legal(s: State, run: seq<Action>)
    decreases |run|
  {
    run == [] || (Enabled(s, run[0]) && Legal(Step(s, run[0]), run[1..]))
  }

  ghost function After(s: State, run: seq<Action>): State
    decreases |run|
  {
    if run == [] then s else After(Step(s, run[0]), run[1..])
  }

  /** A run can be followed by one more action. */
  lemma {:induction false} Extend(s: State, run: seq<Action>, a: Action)
    requires Legal(s, run) && Enabled(After(s, run), a)
    ensures Legal(s, run + [a])
    ensures After(s, run + [a]) == Step(After(s, run), a)
    decreases |run|
  {
    var longer := run + [a];
    if run == [] {
      assert longer == [a] && longer[1..] == [];
    } else {
      Extend(Step(s, run[0]), run[1..], a);
      assert longer[0] == run[0] && longer[1..] == run[1..] + [a];
    }
  }

  /** A run is the run of its first part and then of the rest. */
  lemma {:induction false} SplitRun(s: State, first: seq<Action>, rest: seq<Action>)
    requires Legal(s, first + rest)
    ensures Legal(s, first) && Legal(After(s, first), rest)
    ensures After(s, first + rest) == After(After(s, first), rest)
    decreases |first|
  {
    if first == [] {
      assert first + rest == rest;
    } else {
      assert (first + rest)[0] == first[0] && (first + rest)[1..] == first[1..] + rest;
      SplitRun(Step(s, first[0]), first[1..], rest);
    }
  }
}
