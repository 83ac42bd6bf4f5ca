/** The vault as the object it is in src/client/buffer_vault.cpp: fields, loops over the ledger in
    key order, and calls made after the mutex is dropped.  Every method is proved to perform a
    legal run of the protocol, so what is proved of all runs holds of every sequence of calls. */
module BufferVaults {
  import opened Collections
  import opened Geometry
  import opened Books
  import opened VaultProtocol
  import opened VaultInvariant
  import opened VaultGuarantees

  datatype Outcome<+T> = Success(value: T) | Failure(error: Error)

  /** Every element of the set once. */
  ghost predicate Lists(ids: seq<int>, s: set<int>) {
    && (forall id :: id in s <==> id in ids)
    && forall i, j :: 0 <= i < j < |ids| ==> ids[i] != ids[j]
  }

  lemma ListedIsIn(ids: seq<int>, s: set<int>)
    requires Lists(ids, s)
    ensures forall i :: 0 <= i < |ids| ==> ids[i] in s
  {
    forall i | 0 <= i < |ids|
      ensures ids[i] in s
    {
      assert ids[i] in ids;
    }
  }

  lemma ListsOneMore(ids: seq<int>, s: set<int>, id: int)
    requires Lists(ids, s) && id !in s
    ensures Lists(ids + [id], s + {id})
  {
  }

  lemma EvictOneMore(b: Books, out: set<int>, id: int)
    ensures Evict(Evict(b, out), {id}) == Evict(b, out + {id})
  {
    assert b.ledger - out - {id} == b.ledger - (out + {id});
    assert b.freeing + out + {id} == b.freeing + (out + {id});
  }

  lemma EvictNothing(b: Books)
    ensures Evict(b, {}) == b
  {
    assert b.ledger - {} == b.ledger;
  }

  /** Visiting one more entry of the ledger as it is by then: it is taken out exactly if it was stale
      at the start. */
  lemma VisitEntry(b: Books, size: Size, todo: set<int>, id: int, ids: seq<int>)
    requires id in todo && id in b.ledger && id in b.surfaceMap && Lists(ids, Stale(b, size) - todo)
    ensures var stale := Stale(b, size);
            var out, out' := stale - todo, stale - (todo - {id});
            && id in Evict(b, out).ledger
            && (id in stale <==> Evict(b, out).ledger[id] == Self && b.surfaceMap[id].size != size)
            && (id in stale ==> Evict(Evict(b, out), {id}) == Evict(b, out') && |out'| == |out| + 1
                                && |out'| <= |stale| && Lists(ids + [id], out'))
            && (id !in stale ==> out' == out)
  {
    var stale := Stale(b, size);
    VisitOne(stale, todo, id);
    if id in stale {
      EvictOneMore(b, stale - todo, id);
      ListsOneMore(ids, stale - todo, id);
      SubsetSize(stale - (todo - {id}), stale);
    }
  }

  /** A known buffer that is not needed any more. */
  predicate Surplus(s: State, id: int) {
    id in s.books.ledger && s.pool.current > s.pool.needed
  }

  predicate Keeps(s: State, id: int) {
    !Surplus(s, id) && id in s.books.surfaceMap && s.books.surfaceMap[id].size == s.size
  }

  /** The books with a buffer kept for the oldest waiter, or as ours if nobody waits. */
  function Kept(b: Books, q: Queue, id: int): Books {
    b.(ledger := b.ledger[id := if q.promises == [] then Self else ContentProducer], arriving := b.arriving - {id})
  }

  /** What wire_transfer_inbound does once it has dropped the mutex. */
  function InboundTail(s: State, id: int): seq<Action> {
    if Keeps(s, id) then (if s.calls.deferred.Some? then [RunCallback(s.calls.deferred.value)] else [])
    else if Surplus(s, id) then [IssueFree(id)]
    else [IssueFree(id)] + [IssueAllocation(OfSizeWhenIssued)]
  }

  /** Whether withdraw, finding nothing, orders a buffer. */
  predicate OrdersOne(s: State) {
    Usable(CleanUp(s).books, s.size) == {} && CleanUp(s).pool.current < s.pool.needed
  }

  /** The books after an outbound transfer. */
  function Sent(b: Books, id: int): Books
    requires id in b.surfaceMap
  {
    SendToServer(MarkForServer(b, id), id)
  }

  /** What wire_transfer_inbound leaves when it keeps a buffer. */
  function AfterKept(s: State, id: int): State {
    State(Kept(s.books, s.queue, id), s.pool, GrantOldest(s.queue, id), TriggerCallback(s.calls), s.size, s.disconnected, id)
  }

  lemma KeptSection(s: State, id: int)
    requires Keeps(s, id)
    ensures Step(s, Inbound(id)) == AfterKept(s, id)
  {
  }

  lemma ExtendByKept(made: State, run: seq<Action>, s: State, id: int)
    requires Legal(made, run) && s == After(made, run) && id in s.books.arriving && Keeps(s, id)
    ensures Legal(made, run + [Inbound(id)]) && After(made, run + [Inbound(id)]) == AfterKept(s, id)
  {
    Extend(made, run, Inbound(id));
    KeptSection(s, id);
  }

  lemma NoFaultInWithdraw(s: State)
    requires Inv(s) && !s.disconnected
    ensures Step(s, Action.Withdraw) == WithdrawSection(s)
  {
    NoInternalFault(s, Action.Withdraw);
  }

  lemma WithdrawalLeaves(s: State)
    ensures WithdrawSection(s).books.freeing == s.books.freeing + Stale(s.books, s.size)
    ensures WithdrawSection(s).books.serverHeld == s.books.serverHeld
    ensures OrdersOne(s) ==> OfSize(s.size) in WithdrawSection(s).pool.committed
    ensures WithdrawSection(s).pool.requests == s.pool.requests
    ensures WithdrawSection(s).pool.committed == s.pool.committed + (if OrdersOne(s) then multiset{OfSize(s.size)} else multiset{})
  {
  }

  lemma StaleAreCounted(s: State)
    requires Inv(s)
    ensures |Stale(s.books, s.size)| <= s.pool.current
  {
    SubsetSize(Stale(s.books, s.size), Tracked(s.books));
  }

  /** Buffers of ours, of the wanted size if one is given, except one. */
  ghost function Candidates(b: Books, wanted: Option<Size>, avoid: Option<int>): set<int> {
    set id | id in b.ledger && b.ledger[id] == Self && Some(id) != avoid
             && (wanted.Some? ==> id in b.surfaceMap && b.surfaceMap[id].size == wanted.value)
  }

  lemma CandidatesAre(b: Books, size: Size, last: int)
    ensures Candidates(b, Some(size), Some(last)) == Usable(b, size) - {last}
    ensures Candidates(b, Some(size), None) == Usable(b, size)
    ensures Candidates(b, None, None) == OwnedBy(b, Self)
  {
  }

  /** After a pass that took out `id`, freeing it and going round again makes the next pass. */
  lemma NextPass(s: State, id: int)
    requires s.pool.current > s.pool.needed && OwnedBy(s.books, Self) != {} && id == Least(OwnedBy(s.books, Self))
    ensures var t := ShrinkPass(s);
            && id in t.books.freeing
            && Enabled(Step(t, IssueFree(id)), Shrink)
            && Step(Step(t, IssueFree(id)), Shrink)
               == ShrinkPass(s.(pool := s.pool.(current := s.pool.current - 1),
                                books := Forget(Evict(s.books, {id}), id)))
  {
  }

  lemma ExtendByPass(made: State, run: seq<Action>, s: State, id: int)
    requires Legal(made, run) && After(made, run) == ShrinkPass(s)
    requires s.pool.current > s.pool.needed && OwnedBy(s.books, Self) != {} && id == Least(OwnedBy(s.books, Self))
    ensures var longer := run + [IssueFree(id)] + [Shrink];
            && Legal(made, longer)
            && After(made, longer)
               == ShrinkPass(s.(pool := s.pool.(current := s.pool.current - 1),
                                books := Forget(Evict(s.books, {id}), id)))
  {
    NextPass(s, id);
    Extend(made, run, IssueFree(id));
    Extend(made, run + [IssueFree(id)], Shrink);
  }

  /** The calls to free_buffer for these ids. */
  ghost function Freeing(ids: seq<int>): seq<Action> {
    seq(|ids|, i requires 0 <= i < |ids| => IssueFree(ids[i]))
  }

  /** The second history continues the first with frees and further passes of the loop only. */
  ghost predicate OnlyGivesBack(before: seq<Action>, after: seq<Action>) {
    before <= after && forall k :: |before| <= k < |after| ==> after[k].IssueFree? || after[k].Shrink?
  }

  lemma GivesBackOneMore(before: seq<Action>, after: seq<Action>, id: int)
    requires OnlyGivesBack(before, after)
    ensures OnlyGivesBack(before, after + [IssueFree(id)] + [Shrink])
  {
  }

  // ----- the initial allocations

  ghost function Ordering(size: Size, n: nat): seq<Action> {
    seq(n, i => IssueAllocation(OfSize(size)))
  }

  /** A new vault that has issued so many of its initial allocations. */
  ghost function PartlyOrdered(size: Size, initialCount: nat, issued: nat): State
    requires issued <= initialCount
  {
    var s := Init(size, initialCount);
    s.(pool := s.pool.(committed := multiset{}[OfSize(size) := initialCount - issued],
                       requests := multiset{}[size := issued]))
  }

  ghost function AllOrdered(size: Size, initialCount: nat): State {
    var s := Init(size, initialCount);
    s.(pool := s.pool.(committed := multiset{}, requests := multiset{}[size := initialCount]))
  }

  lemma NothingOrdered(size: Size, n: nat)
    ensures PartlyOrdered(size, n, 0) == Init(size, n) && Ordering(size, 0) == []
  {
    assert multiset{}[size := 0] == multiset{};
  }

  lemma OneMoreOrdered(size: Size, n: nat, i: nat)
    requires i < n
    ensures var p := PartlyOrdered(size, n, i).pool;
            OfSize(size) in p.committed && Issue(p, OfSize(size), size) == PartlyOrdered(size, n, i + 1).pool
    ensures Ordering(size, i + 1) == Ordering(size, i) + [IssueAllocation(OfSize(size))]
  {
    assert multiset{}[OfSize(size) := n - i] - multiset{OfSize(size)} == multiset{}[OfSize(size) := n - i - 1];
    assert multiset{}[size := i] + multiset{size} == multiset{}[size := i + 1];
  }

  lemma EverythingOrdered(size: Size, n: nat)
    ensures PartlyOrdered(size, n, n) == AllOrdered(size, n)
  {
    assert multiset{}[OfSize(size) := 0] == multiset{};
  }

  class BufferVault {
    // The fields of the C++ object, grouped by what they are about; the groups also carry what
    // other threads and the server have still to do.
    var books: Books
    var pool: Pool
    var queue: Queue
    var calls: Calls
    var size: Size
    var disconnected: bool
    var lastReceivedId: int

    ghost function View(): State
      reads this
    {
      State(books, pool, queue, calls, size, disconnected, lastReceivedId)
    }

    // How the object was Made(), and what it has done since.
    ghost const initialSize: Size
    ghost const initialCount: nat
    ghost var history: seq<Action>

    ghost function Made(): State {
      Init(initialSize, initialCount)
    }

    /** The object's state is the result of a legal run of the protocol from a new vault. */
    ghost predicate Valid()
      reads this
    {
      Legal(Made(), history) && View() == After(Made(), history)
    }

    /** So it satisfies the invariant. */
    lemma Sound()
      requires Valid()
      ensures Inv(View())
    {
      InitInv(initialSize, initialCount);
      RunInv(Made(), history);
    }

    lemma BooksAccounted()
      requires Valid()
      ensures Accounted(books)
    {
      Sound();
    }

    /** A new vault has asked the server for all its initial buffers. */
    constructor (size: Size, initialBufferCount: nat)
      ensures Valid() && initialSize == size && initialCount == initialBufferCount
      ensures history == Ordering(size, initialBufferCount)
      ensures View() == AllOrdered(size, initialBufferCount)
      ensures pool.committed == multiset{} && pool.requests == multiset{}[size := initialBufferCount]
      ensures pool.current == pool.needed == pool.initial == initialBufferCount && pool.interval == 1
      ensures books.ledger == map[] && books.surfaceMap == map[] && queue.promises == [] && calls.deferred == None
      ensures this.size == size && !disconnected
    {
      var s := Init(size, initialBufferCount);
      initialSize, initialCount, history := size, initialBufferCount, [];
      books, pool, queue, calls := s.books, s.pool, s.queue, s.calls;
      this.size, disconnected, lastReceivedId := size, false, 0;
      new;
      NothingOrdered(size, initialBufferCount);
      for i := 0 to initialBufferCount
        invariant Valid() && history == Ordering(size, i)
        invariant View() == PartlyOrdered(size, initialBufferCount, i)
      {
        AllocBuffer(OfSize(size));
        OneMoreOrdered(size, initialBufferCount, i);
      }
      EverythingOrdered(size, initialBufferCount);
    }

    // ----- reading the ledger

    /** The first buffer of ours in key order that passes the test, as std::find_if over std::map. */
    method FindOurs(wanted: Option<Size>, avoid: Option<int>) returns (found: Option<int>)
      requires forall id :: id in books.ledger ==> id in books.surfaceMap
      ensures var candidates := Candidates(books, wanted, avoid);
              found == if candidates == {} then None else Some(Least(candidates))
    {
      ghost var candidates := Candidates(books, wanted, avoid);
      var todo := books.ledger.Keys;
      while todo != {}
        invariant candidates <= todo <= books.ledger.Keys
        decreases todo
      {
        var id := Least(todo);
        if books.ledger[id] == Self && Some(id) != avoid
           && (wanted.Some? ==> books.surfaceMap[id].size == wanted.value) {
          assert id in candidates;
          return Some(id);
        }
        todo := todo - {id};
      }
      return None;
    }

    /** available_buffer */
    method FindAvailable() returns (found: Option<int>)
      requires Accounted(books)
      ensures found == AvailableBuffer(books, size, lastReceivedId)
    {
      CandidatesAre(books, size, lastReceivedId);
      found := FindOurs(Some(size), Some(lastReceivedId));
      if found == None {
        found := FindOurs(Some(size), None);
      }
    }

    // ----- calls made without the mutex

    /** alloc_buffer: the factory is told to expect the buffer, then the server is asked for it. */
    method AllocBuffer(allocation: Allocation)
      requires Valid() && allocation in pool.committed
      modifies this`pool, this`history
      ensures Valid() && history == old(history) + [IssueAllocation(allocation)]
      ensures pool == Issue(old(pool), allocation, size)
    {
      Extend(Made(), history, IssueAllocation(allocation));
      var bufferSize := if allocation.OfSize? then allocation.size else size;
      pool := pool.(committed := pool.committed - multiset{allocation},
                    requests := pool.requests + multiset{bufferSize});
      history := history + [IssueAllocation(allocation)];
    }

    /** free_buffer: the server is told, then the surface map forgets the id. */
    method FreeBuffer(id: int)
      requires Valid() && id in books.freeing
      modifies this`books, this`history
      ensures Valid() && history == old(history) + [IssueFree(id)]
      ensures books == Forget(old(books), id)
    {
      Extend(Made(), history, IssueFree(id));
      books := books.(surfaceMap := books.surfaceMap - {id}, freeing := books.freeing - {id});
      history := history + [IssueFree(id)];
    }

    // ----- withdraw

    /** The loop that takes wrongly sized buffers of ours out of the ledger, one at a time; the
        counter, which is unsigned, does not wrap. */
    static method TakeOutStale(b: Books, count: nat, size: Size)
      returns (b': Books, count': nat, freeIds: seq<int>)
      requires forall id :: id in b.ledger ==> id in b.surfaceMap
      requires |Stale(b, size)| <= count
      ensures b' == Evict(b, Stale(b, size)) && count' == count - |Stale(b, size)|
      ensures Lists(freeIds, Stale(b, size))
    {
      b', count', freeIds := b, count, [];
      ghost var stale := Stale(b, size);
      EvictNothing(b);
      var todo := b.ledger.Keys;
      assert forall id :: id !in stale - todo;
      while todo != {}
        invariant todo <= b.ledger.Keys && b' == Evict(b, stale - todo)
        invariant count' == count - |stale - todo| && Lists(freeIds, stale - todo)
        decreases todo
      {
        var id := Least(todo);
        VisitEntry(b, size, todo, id, freeIds);
        if b'.ledger[id] == Self && b'.surfaceMap[id].size != size {
          count' := count' - 1;
          freeIds := freeIds + [id];
          b' := b'.(ledger := b'.ledger - {id}, freeing := b'.freeing + {id});
        }
        todo := todo - {id};
      }
      assert stale - {} == stale;
    }

    method CleanUpLedger() returns (freeIds: seq<int>)
      requires forall id :: id in books.ledger ==> id in books.surfaceMap
      requires |Stale(books, size)| <= pool.current
      modifies this`books, this`pool
      ensures View() == CleanUp(old(View()))
      ensures Lists(freeIds, Stale(old(books), size))
    {
      var b, count, ids := TakeOutStale(books, pool.current, size);
      books, pool, freeIds := b, pool.(current := count), ids;
    }

    /** The part of withdraw after the cleanup: take a buffer, or queue and maybe order one. */
    method ClaimBuffer() returns (allocate: bool)
      requires Accounted(books)
      modifies this`books, this`pool, this`queue
      ensures var found := AvailableBuffer(old(books), size, lastReceivedId);
              && books == (if found.Some? then Reown(old(books), found.value, ContentProducer) else old(books))
              && queue == (if found.Some? then GrantNow(old(queue), found.value) else Enqueue(old(queue)))
              && pool == (if found.Some? then old(pool) else CommitIfShort(old(pool), OfSize(size)))
      ensures allocate <==> Usable(old(books), size) == {} && old(pool).current < old(pool).needed
    {
      var found := FindAvailable();
      allocate := false;
      if found.Some? {
        books := books.(ledger := books.ledger[found.value := ContentProducer]);
        queue := queue.(granted := queue.granted[queue.tickets := found.value], tickets := queue.tickets + 1);
      } else {
        queue := queue.(promises := queue.promises + [queue.tickets], tickets := queue.tickets + 1);
        allocate := pool.current < pool.needed;
        if allocate {
          pool := pool.(current := pool.current + 1, committed := pool.committed + multiset{OfSize(size)});
        }
      }
    }

    /** withdraw while the mutex is held. */
    method WithdrawLocked() returns (allocate: bool, freeIds: seq<int>)
      requires Accounted(books) && |Stale(books, size)| <= pool.current
      modifies this`books, this`pool, this`queue
      ensures View() == WithdrawSection(old(View()))
      ensures allocate <==> OrdersOne(old(View()))
      ensures Lists(freeIds, Stale(old(books), size))
    {
      assert Stale(books, size) <= OwnedBy(books, Self);
      EvictKeeps(books, Stale(books, size));
      freeIds := CleanUpLedger();
      allocate := ClaimBuffer();
    }

    /** withdraw while the mutex is held, as one action of the protocol. */
    method WithdrawAction() returns (allocate: bool, freeIds: seq<int>)
      requires Valid() && !disconnected
      modifies this`books, this`pool, this`queue, this`history
      ensures Valid() && history == old(history) + [Action.Withdraw]
      ensures View() == WithdrawSection(old(View()))
      ensures allocate <==> OrdersOne(old(View()))
      ensures allocate ==> OfSize(size) in pool.committed
      ensures pool.requests == old(pool).requests
      ensures pool.committed == old(pool).committed + (if allocate then multiset{OfSize(size)} else multiset{})
      ensures Lists(freeIds, Stale(old(books), size))
      ensures forall i :: 0 <= i < |freeIds| ==> freeIds[i] in books.freeing
    {
      Sound();
      StaleAreCounted(View());
      NoFaultInWithdraw(View());
      Extend(Made(), history, Action.Withdraw);
      allocate, freeIds := WithdrawLocked();
      WithdrawalLeaves(old(View()));
      ListedIsIn(freeIds, Stale(old(books), size));
      history := history + [Action.Withdraw];
    }

    /** The frees that withdraw owes once it has dropped the mutex. */
    method FreeAll(ids: seq<int>)
      requires Valid()
      requires forall i, j :: 0 <= i < j < |ids| ==> ids[i] != ids[j]
      requires forall i :: 0 <= i < |ids| ==> ids[i] in books.freeing
      modifies this`books, this`history
      ensures Valid() && history == old(history) + Freeing(ids)
      ensures books.serverHeld == old(books).serverHeld
      ensures forall i :: 0 <= i < |ids| ==> ids[i] !in books.surfaceMap
    {
      for i := 0 to |ids|
        invariant Valid() && history == old(history) + Freeing(ids[..i])
        invariant books.serverHeld == old(books).serverHeld
        invariant forall k :: i <= k < |ids| ==> ids[k] in books.freeing
        invariant forall k :: 0 <= k < i ==> ids[k] !in books.surfaceMap
      {
        FreeBuffer(ids[i]);
        assert Freeing(ids[..i + 1]) == Freeing(ids[..i]) + [IssueFree(ids[i])];
      }
      assert ids[..|ids|] == ids;
    }

    /** withdraw: one action under the mutex, then the allocation and the frees it decided on.  On
        success the caller holds the next ticket. */
    method Withdraw() returns (r: Outcome<nat>, ordered: bool, freed: seq<int>)
      requires Valid()
      modifies this`books, this`pool, this`queue, this`history
      ensures Valid()
      ensures old(disconnected) ==> r == Failure(ServerDisconnected) && View() == old(View())
      ensures !old(disconnected) ==>
                && r == Success(old(queue).tickets)
                && queue == WithdrawSection(old(View())).queue
                && books.serverHeld == old(books).serverHeld
                && (ordered <==> OrdersOne(old(View())))
                && pool.committed == old(pool).committed
                && pool.requests == old(pool).requests + (if ordered then multiset{size} else multiset{})
                && Lists(freed, Stale(old(books), size))
                && (forall i :: 0 <= i < |freed| ==> freed[i] !in books.surfaceMap)
                && history == old(history) + [Action.Withdraw]
                              + (if ordered then [IssueAllocation(OfSize(size))] else []) + Freeing(freed)
    {
      if disconnected {
        return Failure(ServerDisconnected), false, [];
      }
      r := Success(queue.tickets);
      WithdrawalLeaves(View());
      ordered, freed := WithdrawAction();
      OrderAndFree(ordered, freed);
    }

    /** The calls withdraw makes once it has dropped the mutex. */
    method OrderAndFree(order: bool, ids: seq<int>)
      requires Valid() && (order ==> OfSize(size) in pool.committed)
      requires forall i, j :: 0 <= i < j < |ids| ==> ids[i] != ids[j]
      requires forall i :: 0 <= i < |ids| ==> ids[i] in books.freeing
      modifies this`books, this`pool, this`history
      ensures Valid() && books.serverHeld == old(books).serverHeld
      ensures history == old(history) + (if order then [IssueAllocation(OfSize(size))] else []) + Freeing(ids)
      ensures order ==> pool.committed == old(pool).committed - multiset{OfSize(size)}
                        && pool.requests == old(pool).requests + multiset{size}
      ensures !order ==> pool == old(pool)
      ensures forall i :: 0 <= i < |ids| ==> ids[i] !in books.surfaceMap
    {
      if order {
        AllocBuffer(OfSize(size));
      }
      FreeAll(ids);
    }

    // ----- deposit and wire_transfer_outbound

    method Deposit(id: int) returns (r: Outcome<()>)
      requires Valid()
      modifies this`books, this`history
      ensures Valid() && history == old(history) + [Action.Deposit(id)]
      ensures r.Success? <==> id in old(books).ledger && old(books).ledger[id] == ContentProducer
      ensures r.Success? ==> books == Reown(old(books), id, SelfWithContent)
      ensures r.Failure? ==> r.error == CannotDeposit && books == old(books)
    {
      Sound();
      NoInternalFault(View(), Action.Deposit(id));
      Extend(Made(), history, Action.Deposit(id));
      if id !in books.ledger || books.ledger[id] != ContentProducer {
        r := Failure(CannotDeposit);
      } else {
        books := books.(ledger := books.ledger[id := SelfWithContent]);
        r := Success(());
      }
      history := history + [Action.Deposit(id)];
    }

    /** The first section of wire_transfer_outbound and the calls made before relocking. */
    method HandToServer(id: int) returns (r: Outcome<()>)
      requires Valid()
      modifies this`books, this`history
      ensures Valid()
      ensures r.Success? <==> id in old(books).ledger && old(books).ledger[id] == SelfWithContent
      ensures r.Success? ==>
                && history == old(history) + [Transfer(id)] + [Submit(id)]
                && id in old(books).surfaceMap && books == Sent(old(books), id)
      ensures r.Failure? ==> r.error == CannotTransfer && View() == old(View())
    {
      if id !in books.ledger || books.ledger[id] != SelfWithContent {
        return Failure(CannotTransfer);
      }
      Extend(Made(), history, Transfer(id));
      books := books.(ledger := books.ledger[id := Server], submitting := books.submitting + {id});
      history := history + [Transfer(id)];
      SubmitToServer(id);
      r := Success(());
    }

    /** Buffer::submitted, which never meets an unowned buffer here, then submit_buffer. */
    method SubmitToServer(id: int)
      requires Valid() && id in books.submitting
      modifies this`books, this`history
      ensures Valid() && history == old(history) + [Submit(id)]
      ensures id in old(books).surfaceMap && books == SendToServer(old(books), id)
    {
      Sound();
      NoInternalFault(View(), Submit(id));
      Extend(Made(), history, Submit(id));
      books := books.(surfaceMap := books.surfaceMap[id := books.surfaceMap[id].(owned := false)],
                      submitting := books.submitting - {id}, serverHeld := books.serverHeld + {id});
      history := history + [Submit(id)];
    }

    /** The second section of wire_transfer_outbound: run `done` now, or keep it for later. */
    method FinishOutbound() returns (r: Outcome<bool>)
      requires Valid()
      modifies this`calls, this`history
      ensures Valid() && history == old(history) + [Complete]
      ensures r == if disconnected then Failure(ServerDisconnected) else Success(Usable(books, size) != {})
      ensures calls.dones == old(calls).dones + 1
      ensures calls.ran == old(calls).ran + (if r == Success(true) then multiset{old(calls).dones} else multiset{})
      ensures calls.deferred == if r == Success(false) then Some(old(calls).dones) else old(calls).deferred
      ensures calls.dropped == old(calls).dropped + (if r.Failure? then multiset{old(calls).dones} else multiset{})
    {
      Sound();
      NoInternalFault(View(), Complete);
      Extend(Made(), history, Complete);
      if disconnected {
        calls := Drop(calls);
        r := Failure(ServerDisconnected);
      } else {
        var found := FindAvailable();
        calls := if found.Some? then RunNow(calls) else Defer(calls);
        r := Success(found.Some?);
      }
      history := history + [Complete];
    }

    /** wire_transfer_outbound: on success the result says whether `done` has already run. */
    method WireTransferOutbound(id: int) returns (r: Outcome<bool>)
      requires Valid()
      modifies this`books, this`calls, this`history
      ensures Valid()
      ensures !(id in old(books).ledger && old(books).ledger[id] == SelfWithContent) ==>
                r == Failure(CannotTransfer) && View() == old(View())
      ensures id in old(books).ledger && old(books).ledger[id] == SelfWithContent ==>
                && history == old(history) + [Transfer(id)] + [Submit(id)] + [Complete]
                && id in old(books).surfaceMap && books == Sent(old(books), id)
                && (r.Failure? <==> disconnected) && (r.Failure? ==> r.error == ServerDisconnected)
    {
      var handed := HandToServer(id);
      if handed.Failure? {
        return Failure(handed.error);
      }
      r := FinishOutbound();
    }

    // ----- wire_transfer_inbound

    /** The callback taken out under the mutex runs, then reports to the wait handle. */
    method RunTaken(d: nat)
      requires Valid() && d in calls.taken
      modifies this`calls, this`history
      ensures Valid() && history == old(history) + [RunCallback(d)] && calls.deferred == old(calls).deferred
      ensures calls.ran == old(calls).ran + multiset{d} && calls.received == old(calls).received + 1
    {
      Extend(Made(), history, RunCallback(d));
      calls := calls.(taken := calls.taken - multiset{d}, ran := calls.ran + multiset{d},
                      received := calls.received + 1);
      history := history + [RunCallback(d)];
    }

    /** The branch for a surplus buffer: out of the ledger, then freed. */
    method GiveBack(id: int)
      requires Valid() && id in books.arriving && id in books.surfaceMap && Surplus(View(), id)
      modifies this`books, this`pool, this`lastReceivedId, this`history
      ensures Valid() && history == old(history) + [Inbound(id)] + InboundTail(old(View()), id) && lastReceivedId == id
      ensures books == Forget(Reject(old(books), id), id) && pool == old(pool).(current := old(pool).current - 1)
    {
      Extend(Made(), history, Inbound(id));
      lastReceivedId := id;
      books := Reject(books, id);
      pool := pool.(current := pool.current - 1);
      history := history + [Inbound(id)];
      FreeBuffer(id);
    }

    /** The branch for a buffer of the wrong size: out of the ledger, then freed and replaced. */
    method Replace(id: int)
      requires Valid() && id in books.arriving && id in books.surfaceMap
      requires !Surplus(View(), id) && books.surfaceMap[id].size != size
      modifies this`books, this`pool, this`lastReceivedId, this`history
      ensures Valid() && lastReceivedId == id
      ensures history == old(history) + [Inbound(id)] + InboundTail(old(View()), id)
      ensures books == Forget(Reject(old(books), id), id) && pool.current == old(pool).current
      ensures pool.committed == old(pool).committed && pool.requests == old(pool).requests + multiset{size}
    {
      ghost var before := history + [Inbound(id)];
      ReplaceLocked(id);
      FreeBuffer(id);
      AllocBuffer(OfSizeWhenIssued);
      assert before + [IssueFree(id)] + [IssueAllocation(OfSizeWhenIssued)]
          == before + ([IssueFree(id)] + [IssueAllocation(OfSizeWhenIssued)]);
    }

    method ReplaceLocked(id: int)
      requires Valid() && id in books.arriving && id in books.surfaceMap
      requires !Surplus(View(), id) && books.surfaceMap[id].size != size
      modifies this`books, this`pool, this`lastReceivedId, this`history
      ensures Valid() && history == old(history) + [Inbound(id)] && lastReceivedId == id
      ensures books == Reject(old(books), id)
      ensures pool == old(pool).(committed := old(pool).committed + multiset{OfSizeWhenIssued})
    {
      Extend(Made(), history, Inbound(id));
      lastReceivedId := id;
      books := Reject(books, id);
      pool := pool.(committed := pool.committed + multiset{OfSizeWhenIssued});
      history := history + [Inbound(id)];
    }

    /** A buffer kept: it goes to the oldest waiter if there is one, and wakes the swapper. */
    method Keep(id: int)
      requires Valid() && id in books.arriving && Keeps(View(), id)
      modifies this`books, this`queue, this`calls, this`lastReceivedId, this`history
      ensures Valid() && history == old(history) + [Inbound(id)] && lastReceivedId == id
      ensures calls == TriggerCallback(old(calls)) && queue == GrantOldest(old(queue), id)
      ensures books == Kept(old(books), old(queue), id)
    {
      ghost var s := View();
      var owner := if queue.promises == [] then Self else ContentProducer;
      books := books.(ledger := books.ledger[id := owner], arriving := books.arriving - {id});
      queue, calls, lastReceivedId := GrantOldest(queue, id), TriggerCallback(calls), id;
      assert View() == AfterKept(s, id);
      ExtendByKept(Made(), history, s, id);
      history := history + [Inbound(id)];
    }

    /** wire_transfer_inbound, called by the RPC layer for a buffer it has marked received.  A buffer
        kept is the oldest waiter's, or ours; one turned away is in no record any more. */
    method WireTransferInbound(id: int) returns (kept: bool)
      requires Valid() && id in books.arriving
      modifies this`books, this`pool, this`queue, this`calls, this`lastReceivedId, this`history
      ensures Valid() && history == old(history) + [Inbound(id)] + InboundTail(old(View()), id)
      ensures kept <==> Keeps(old(View()), id)
      ensures queue == if kept then GrantOldest(old(queue), id) else old(queue)
      ensures kept ==> books == Kept(old(books), old(queue), id)
      ensures !kept ==> books == Forget(Reject(old(books), id), id)
      ensures pool.current == old(pool).current - if Surplus(old(View()), id) then 1 else 0
      ensures pool.committed == old(pool).committed
      ensures pool.requests == old(pool).requests
                               + if kept || Surplus(old(View()), id) then multiset{} else multiset{size}
      ensures !kept ==> calls == old(calls)
      ensures kept ==> calls.deferred == None && calls.ran == old(calls).ran + PendingDone(old(calls))
      ensures lastReceivedId == id
    {
      BooksAccounted();
      assert id in books.surfaceMap;
      if id in books.ledger && pool.current > pool.needed {
        GiveBack(id);
        return false;
      }
      if books.surfaceMap[id].size != size {
        Replace(id);
        return false;
      }
      var pending := calls.deferred;
      Keep(id);
      if pending.Some? {
        RunTaken(pending.value);
      }
      return true;
    }

    /** The surface map's insert of a new buffer, and Buffer::received. */
    method InsertBuffer(id: int, bufferSize: Size)
      requires Valid() && id !in books.surfaceMap && bufferSize in pool.requests
      modifies this`books, this`pool, this`history
      ensures Valid() && View() == Step(old(View()), ServerAdds(id, bufferSize))
      ensures history == old(history) + [ServerAdds(id, bufferSize)]
    {
      Extend(Made(), history, ServerAdds(id, bufferSize));
      books := AddFromServer(books, id, bufferSize);
      pool := pool.(requests := pool.requests - multiset{bufferSize});
      history := history + [ServerAdds(id, bufferSize)];
    }

    /** Buffer::received of a buffer the server held. */
    method ReceiveBuffer(id: int)
      requires Valid() && id in books.serverHeld && id in books.surfaceMap
      modifies this`books, this`history
      ensures Valid() && View() == Step(old(View()), ServerReturns(id))
      ensures history == old(history) + [ServerReturns(id)]
    {
      Extend(Made(), history, ServerReturns(id));
      books := ReturnFromServer(books, id);
      history := history + [ServerReturns(id)];
    }

    /** The RPC layer on a new buffer: insert it in the surface map, mark it received, call back.  A
        buffer of the vault's size is always kept. */
    method BufferAdded(id: int, bufferSize: Size) returns (kept: bool)
      requires Valid() && id !in books.surfaceMap && bufferSize in pool.requests
      modifies this`books, this`pool, this`queue, this`calls, this`lastReceivedId, this`history
      ensures Valid()
      ensures history == old(history) + [ServerAdds(id, bufferSize)] + [Inbound(id)]
                         + InboundTail(Step(old(View()), ServerAdds(id, bufferSize)), id)
      ensures kept <==> bufferSize == size
      ensures queue == if kept then GrantOldest(old(queue), id) else old(queue)
      ensures kept ==> books.ledger == old(books).ledger[id := if old(queue).promises == [] then Self else ContentProducer]
      ensures !kept ==> id !in books.ledger && id !in books.surfaceMap
    {
      BooksAccounted();
      assert id !in books.ledger;
      InsertBuffer(id, bufferSize);
      kept := WireTransferInbound(id);
    }

    /** The RPC layer on a returned buffer: mark it received, call back.  It is kept unless it is of
        the wrong size or there are more than needed. */
    method BufferReturned(id: int) returns (kept: bool)
      requires Valid() && id in books.serverHeld
      modifies this`books, this`pool, this`queue, this`calls, this`lastReceivedId, this`history
      ensures Valid()
      ensures history == old(history) + [ServerReturns(id)] + [Inbound(id)]
                         + InboundTail(Step(old(View()), ServerReturns(id)), id)
      ensures id in old(books).surfaceMap
      ensures kept <==> old(books).surfaceMap[id].size == size && old(pool).current <= old(pool).needed
      ensures queue == if kept then GrantOldest(old(queue), id) else old(queue)
      ensures kept ==> books.ledger == old(books).ledger[id := if old(queue).promises == [] then Self else ContentProducer]
      ensures !kept ==> id !in books.ledger && id !in books.surfaceMap
    {
      BooksAccounted();
      ReturnKeeps(books, id);
      ReceiveBuffer(id);
      kept := WireTransferInbound(id);
    }

    // ----- disconnected, set_size, set_interval

    method Disconnected()
      requires Valid()
      modifies this`disconnected, this`queue, this`calls, this`history
      ensures Valid() && disconnected && queue == old(queue).(promises := []) && calls.deferred == None
      ensures history == old(history) + [Disconnect]
                         + if old(calls).deferred.Some? then [RunCallback(old(calls).deferred.value)] else []
    {
      Extend(Made(), history, Disconnect);
      var pending := calls.deferred;
      disconnected := true;
      queue := queue.(promises := []);
      calls := TriggerCallback(calls);
      history := history + [Disconnect];
      if pending.Some? {
        RunTaken(pending.value);
      }
    }

    method SetSize(newSize: Size)
      requires Valid()
      modifies this`size, this`history
      ensures Valid() && size == newSize && history == old(history) + [Resize(newSize)]
    {
      Extend(Made(), history, Resize(newSize));
      size := newSize;
      history := history + [Resize(newSize)];
    }

    /** set_interval: to zero, one more buffer is needed and ordered; from zero, buffers of ours go
        back, least id first, until the count fits or none is ours. */
    method SetInterval(newInterval: int)
      requires Valid()
      modifies this`books, this`pool, this`history
      ensures Valid() && pool.interval == newInterval
      ensures newInterval == old(pool).interval ==> View() == old(View()) && history == old(history)
      ensures newInterval != old(pool).interval && newInterval == 0 ==>
                history == old(history) + [Action.SetInterval(0)] + [IssueAllocation(OfSizeWhenIssued)]
      ensures newInterval != old(pool).interval && newInterval != 0 ==>
                && pool.needed == pool.initial
                && (pool.current <= pool.needed || OwnedBy(books, Self) == {})
                && (pool.current == old(pool).current || pool.current >= pool.needed)
                && OnlyGivesBack(old(history) + [Action.SetInterval(newInterval)], history)
    {
      if newInterval == pool.interval {
        return;
      }
      if newInterval == 0 {
        Extend(Made(), history, Action.SetInterval(0));
        pool := pool.(interval := 0, current := pool.current + 1, needed := pool.needed + 1,
                      committed := pool.committed + multiset{OfSizeWhenIssued});
        history := history + [Action.SetInterval(0)];
        AllocBuffer(OfSizeWhenIssued);
      } else {
        Extend(Made(), history, Action.SetInterval(newInterval));
        pool := pool.(interval := newInterval, needed := pool.initial);
        history := history + [Action.SetInterval(newInterval)];
        GiveBackSurplus();
      }
    }

    /** The loop of set_interval.  On entry, and at each turn, the history already holds the pass
        the loop is about to make. */
    method GiveBackSurplus()
      requires Legal(Made(), history) && ShrinkPass(View()) == After(Made(), history)
      modifies this`books, this`pool, this`history
      ensures Valid() && pool.interval == old(pool).interval
      ensures OnlyGivesBack(old(history), history)
      ensures pool.current <= pool.needed || OwnedBy(books, Self) == {}
      ensures pool == old(pool).(current := pool.current)
      ensures pool.current == old(pool).current || pool.current >= pool.needed
      ensures forall id :: id in books.freeing ==> id in old(books).freeing
    {
      while pool.current > pool.needed
        invariant Legal(Made(), history) && ShrinkPass(View()) == After(Made(), history)
        invariant OnlyGivesBack(old(history), history)
        invariant pool == old(pool).(current := pool.current)
        invariant pool.current == old(pool).current || pool.current >= pool.needed
        invariant forall id :: id in books.freeing ==> id in old(books).freeing
        decreases pool.current - pool.needed
      {
        CandidatesAre(books, size, 0);
        LedgerStaysInMap(View(), history);
        var found := FindOurs(None, None);
        if found == None {
          break;
        }
        GivesBackOneMore(old(history), history, found.value);
        FreeOne(found.value);
      }
    }

    /** One turn of the loop: out of the ledger, unlock, free, lock again. */
    method FreeOne(id: int)
      requires Legal(Made(), history) && ShrinkPass(View()) == After(Made(), history)
      requires pool.current > pool.needed && OwnedBy(books, Self) != {} && id == Least(OwnedBy(books, Self))
      modifies this`books, this`pool, this`history
      ensures Legal(Made(), history) && ShrinkPass(View()) == After(Made(), history)
      ensures pool == old(pool).(current := old(pool).current - 1)
      ensures forall x :: x in books.freeing ==> x in old(books).freeing
      ensures history == old(history) + [IssueFree(id)] + [Shrink]
    {
      ExtendByPass(Made(), history, View(), id);
      history := history + [IssueFree(id)] + [Shrink];
      pool := pool.(current := pool.current - 1);
      books := Forget(Evict(books, {id}), id);
    }

    /** In the middle of the loop, too, every ledger id is in the surface map. */
    lemma LedgerStaysInMap(s: State, run: seq<Action>)
      requires Legal(Made(), run) && ShrinkPass(s) == After(Made(), run)
      ensures forall id :: id in s.books.ledger ==> id in s.books.surfaceMap
    {
      InitInv(initialSize, initialCount);
      RunInv(Made(), run);
      var t := ShrinkPass(s);
      forall id | id in s.books.ledger
        ensures id in s.books.surfaceMap
      {
        assert id in t.books.ledger || id in t.books.freeing;
      }
    }
  }
}
