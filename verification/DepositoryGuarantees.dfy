/** What the producer of a buffer stream can rely on, whatever the other threads and the server do. */
module DepositoryGuarantees {
  import opened Collections
  import opened Geometry
  import opened Books
  import opened VaultProtocol
  import opened VaultInvariant
  import opened Depository
  import opened VaultGuarantees

  /** A state some run of the producer, the other threads and the server leads to. */
  ghost predicate Reachable(y: System, initialCount: nat) {
    exists size, run :: LegalRun(Start(size, initialCount), run) && y == Reached(Start(size, initialCount), run)
  }

  lemma ReachableInv(y: System, n: nat)
    requires Reachable(y, n)
    ensures ClaimInv(y) && y.vault.pool.initial == n
  {
    var size, run :| LegalRun(Start(size, n), run) && y == Reached(Start(size, n), run);
    StartInv(size, n);
    ClaimRunInv(Start(size, n), run);
    RunOfVault(Start(size, n), run);
    InitialCountFixed(Init(size, n), run);
  }

  /** The producer meets no exception but the loss of the connection. */
  lemma ProducerNeverFaults(y: System, n: nat, a: Action)
    requires Reachable(y, n) && Allowed(y, a)
    ensures Fault(y.vault, a).None? || (Fault(y.vault, a) == Some(ServerDisconnected) && y.vault.disconnected)
  {
    ReachableInv(y, n);
    NoInternalFault(y.vault, a);
    match a
    case Deposit(id) => DepositClaims(y, id);
    case Transfer(id) => TransferClaims(y, id);
    case _ =>
  }

  lemma HoldersAre(b: Books, empty: set<int>, full: set<int>)
    requires Holds(b, empty, full)
    ensures OwnedBy(b, ContentProducer) == empty && OwnedBy(b, SelfWithContent) == full
  {
    assert forall id :: id in OwnedBy(b, ContentProducer) <==> id in empty;
    assert forall id :: id in OwnedBy(b, SelfWithContent) <==> id in full;
  }

  lemma ClaimIsOne(t: nat, b: Books, q: Queue)
    requires Claim(Claimed(t), b, q, false)
    ensures |OwnedBy(b, ContentProducer)| + |q.promises| == 1
    ensures OwnedBy(b, SelfWithContent) == {}
  {
    if t in q.granted {
      HoldersAre(b, {q.granted[t]}, {});
    } else {
      HoldersAre(b, {}, {});
    }
  }

  /** Between submits, while connected, buffers out to the producer plus queued promises make one. */
  lemma OneClaimPerDepository(y: System, n: nat)
    requires Reachable(y, n) && y.phase.Claimed? && !y.vault.disconnected
    ensures |OwnedBy(y.vault.books, ContentProducer)| + |y.vault.queue.promises| == 1
    ensures OwnedBy(y.vault.books, SelfWithContent) == {}
  {
    ReachableInv(y, n);
    ClaimIsOne(y.phase.ticket, y.vault.books, y.vault.queue);
  }

  /** Swap completion, when resizes are gentle: no callback is ever overwritten; each one handed over
      has run once, or is pending, or has been taken to be run, or its submit threw on a lost
      connection, and exactly one of these; while connected none threw; and the wait handle is short by exactly the pending one
      and the taken ones. */
  lemma SwapsCompleteExactlyOnce(size: Size, n: nat, run: seq<Action>, c: Calls, d: nat)
    requires GentleRun(Start(size, n), run) && c == Reached(Start(size, n), run).vault.calls
    ensures c.lost == multiset{}
    ensures !Reached(Start(size, n), run).vault.disconnected ==> c.dropped == multiset{}
    ensures c.ran[d] + c.taken[d] + (if c.deferred == Some(d) then 1 else 0) + c.dropped[d] == if d < c.dones then 1 else 0
    ensures c.expecting - c.received == |c.taken| + (if c.deferred.Some? then 1 else 0)
  {
    StartInv(size, n);
    SystemRunInv(Start(size, n), run);
    GentleIsLegal(Start(size, n), run);
    RunOfVault(Start(size, n), run);
    NoneDropped(Init(size, n), run);
    assert Copies(c, d) == if d < c.dones then 1 else 0;
  }

  // ----- a waiting producer has something to wait for

  ghost predicate Waiting(y: System, t: nat) {
    && y.phase == Claimed(t) && t !in y.vault.queue.granted
    && !y.vault.disconnected && y.vault.pool.initial > 0
  }

  lemma WaiterHasSource(y: System, t: nat)
    requires ClaimInv(y) && Waiting(y, t)
    ensures y.vault.books.serverHeld != {} || y.vault.books.arriving != {}
            || |y.vault.pool.requests| > 0 || |y.vault.pool.committed| > 0
  {
    var s := y.vault;
    assert s.pool.current > 0;
    if |s.pool.requests| + |s.pool.committed| == 0 {
      var id := SomeElement(Tracked(s.books));
      if id in s.books.ledger {
        assert s.books.ledger[id] == Server;
      }
    }
  }

  /** With at least one initial buffer, an unresolved withdrawal means some buffer is with the server,
      on its way, requested, or about to be requested. */
  lemma NoStalledProducer(y: System, n: nat)
    requires Reachable(y, n) && n > 0 && !y.vault.disconnected
    requires y.phase.Claimed? && y.phase.ticket !in y.vault.queue.granted
    ensures y.vault.books.serverHeld != {} || y.vault.books.arriving != {}
            || |y.vault.pool.requests| > 0 || |y.vault.pool.committed| > 0
  {
    ReachableInv(y, n);
    WaiterHasSource(y, y.phase.ticket);
  }

  // ----- and is served

  /** What the server's side does with a buffer the vault counts. */
  predicate ByServerSide(a: Action) {
    a.IssueAllocation? || a.ServerAdds? || a.ServerReturns? || a.Inbound?
  }

  /** Buffers on the server's side that would be turned away for their size. */
  ghost function WrongBuffers(b: Books, size: Size): set<int> {
    set id | id in b.arriving + b.serverHeld && id in b.surfaceMap && b.surfaceMap[id].size != size
  }

  /** Allocations and requests that would bring such a buffer. */
  ghost function WrongOrders(p: Pool, size: Size): int {
    |p.committed| - p.committed[OfSize(size)] - p.committed[OfSizeWhenIssued] + |p.requests| - p.requests[size]
  }

  /** Actions of the server's side still ahead, by how far each buffer has come: three from a
      commitment to an arrival, and three more if the size is wrong and another must be ordered. */
  ghost function StepsLeft(b: Books, p: Pool, size: Size): int {
    3 * (|WrongBuffers(b, size)| + WrongOrders(p, size))
    + 3 * |p.committed| + 2 * |p.requests| + 2 * |b.serverHeld| + |b.arriving|
  }

  lemma CopiesAreCounted<T>(m: multiset<T>, x: T, y: T)
    requires x != y
    ensures m[x] + m[y] <= |m|
  {
    var both := multiset{}[x := m[x]][y := m[y]];
    assert m == (m - both) + both;
  }

  lemma OnServerSide(b: Books)
    requires Accounted(b)
    ensures |b.serverHeld| + |b.arriving| <= |Tracked(b)|
  {
    assert forall id :: id in b.arriving + b.serverHeld ==> id in Tracked(b);
    SubsetSize(b.arriving + b.serverHeld, Tracked(b));
    if b.arriving * b.serverHeld != {} {
      var id := SomeElement(b.arriving * b.serverHeld);
      assert false;
    }
  }

  /** Never negative, and at most six for each buffer the vault counts. */
  lemma StepsLeftBounds(s: State)
    requires Accounted(s.books) && Conserved(s)
    ensures var n := StepsLeft(s.books, s.pool, s.size);
            && 2 * |s.pool.requests| + 3 * |s.pool.committed| + 2 * |s.books.serverHeld| + |s.books.arriving| <= n
            && n <= 6 * s.pool.current
  {
    OnServerSide(s.books);
    SubsetSize(WrongBuffers(s.books, s.size), s.books.arriving + s.books.serverHeld);
    CopiesAreCounted(s.pool.committed, OfSize(s.size), OfSizeWhenIssued);
    assert s.pool.requests == (s.pool.requests - multiset{}[s.size := s.pool.requests[s.size]])
                              + multiset{}[s.size := s.pool.requests[s.size]];
  }

  /** Wrong buffers change by one arriving, and stay when one is returned or forgotten. */
  lemma WrongBuffersMove(b: Books, size: Size)
    requires Accounted(b)
    ensures forall id, sz :: id !in b.surfaceMap ==>
              WrongBuffers(AddFromServer(b, id, sz), size) == WrongBuffers(b, size) + if sz != size then {id} else {}
    ensures forall id :: id in b.serverHeld && id in b.surfaceMap ==>
              WrongBuffers(ReturnFromServer(b, id), size) == WrongBuffers(b, size)
    ensures forall id :: id in b.freeing ==> WrongBuffers(Forget(b, id), size) == WrongBuffers(b, size)
    ensures forall id :: id in b.arriving ==> WrongBuffers(Reject(b, id), size) == WrongBuffers(b, size) - {id}
  {
  }

  lemma SomeStepsLeft(y: System, t: nat)
    requires ClaimInv(y) && Waiting(y, t)
    ensures StepsLeft(y.vault.books, y.vault.pool, y.vault.size) > 0
  {
    StepsLeftBounds(y.vault);
    WaiterHasSource(y, t);
  }

  lemma IssueTakesAStep(b: Books, p: Pool, size: Size, al: Allocation)
    requires al in p.committed
    ensures StepsLeft(b, Issue(p, al, size), size) == StepsLeft(b, p, size) - 1
  {
    OneFewer(p.committed, al);
  }

  lemma AddTakesAStep(b: Books, p: Pool, size: Size, id: int, sz: Size)
    requires Accounted(b) && id !in b.surfaceMap && sz in p.requests
    ensures StepsLeft(AddFromServer(b, id, sz), p.(requests := p.requests - multiset{sz}), size)
            == StepsLeft(b, p, size) - 1
  {
    OneFewer(p.requests, sz);
    WrongBuffersMove(b, size);
    assert id !in b.arriving && id !in b.serverHeld;
    assert id !in WrongBuffers(b, size);
  }

  lemma ReturnTakesAStep(b: Books, p: Pool, size: Size, id: int)
    requires Accounted(b) && id in b.serverHeld && id in b.surfaceMap
    ensures StepsLeft(ReturnFromServer(b, id), p, size) == StepsLeft(b, p, size) - 1
  {
    WrongBuffersMove(b, size);
    assert id !in b.arriving;
  }

  lemma RejectTakesSteps(b: Books, p: Pool, size: Size, id: int)
    requires Accounted(b) && id in b.arriving && id in b.surfaceMap
    ensures StepsLeft(Reject(b, id), p, size)
            == StepsLeft(b, p, size) - 1 - if b.surfaceMap[id].size != size then 3 else 0
  {
    WrongBuffersMove(b, size);
    assert id in WrongBuffers(b, size) <==> b.surfaceMap[id].size != size;
  }

  lemma OrderCosts(b: Books, p: Pool, size: Size)
    ensures StepsLeft(b, p.(committed := p.committed + multiset{OfSizeWhenIssued}), size) == StepsLeft(b, p, size) + 3
  {
  }

  /** An arrival serves the waiter, or it is turned away and a step has been taken. */
  lemma InboundProgress(s: State, t: nat, id: int)
    requires Accounted(s.books) && id in s.books.arriving && id in s.books.surfaceMap && s.queue.promises == [t]
    ensures var s' := InboundSection(s, id);
            || t in s'.queue.granted
            || (s'.queue == s.queue && s'.disconnected == s.disconnected && s'.size == s.size
                && s'.pool.initial == s.pool.initial
                && StepsLeft(s'.books, s'.pool, s.size) < StepsLeft(s.books, s.pool, s.size))
  {
    RejectTakesSteps(s.books, s.pool, s.size, id);
    OrderCosts(Reject(s.books, id), s.pool, s.size);
  }

  /** A waiter's pool has nothing of ours to shrink by. */
  lemma NothingToShrink(s: State)
    requires NoneOurs(s.books)
    ensures ShrinkPass(s) == s
  {
    if OwnedBy(s.books, Self) != {} {
      var id := SomeElement(OwnedBy(s.books, Self));
      assert false;
    }
  }

  /** Nothing but a resize or a lost connection sends a waiter back. */
  predicate Calm(a: Action) {
    !a.Resize? && !a.Disconnect?
  }

  /** What one action does to the steps a waiter is away from its buffer. */
  ghost predicate Nearer(y: System, t: nat, a: Action) {
    var z := Next(y, a);
    || t in z.vault.queue.granted
    || (Waiting(z, t)
        && StepsLeft(z.vault.books, z.vault.pool, z.vault.size) + (if ByServerSide(a) then 1 else 0)
           <= StepsLeft(y.vault.books, y.vault.pool, y.vault.size) + if a == SetInterval(0) then 3 else 0)
  }

  lemma IssueProgress(y: System, t: nat, al: Allocation)
    requires Waiting(y, t) && al in y.vault.pool.committed
    ensures Nearer(y, t, IssueAllocation(al))
  {
    IssueTakesAStep(y.vault.books, y.vault.pool, y.vault.size, al);
  }

  lemma AddProgress(y: System, t: nat, id: int, sz: Size)
    requires Waiting(y, t) && Accounted(y.vault.books) && Enabled(y.vault, ServerAdds(id, sz))
    ensures Nearer(y, t, ServerAdds(id, sz))
  {
    AddTakesAStep(y.vault.books, y.vault.pool, y.vault.size, id, sz);
  }

  lemma ReturnProgress(y: System, t: nat, id: int)
    requires Waiting(y, t) && Accounted(y.vault.books) && Enabled(y.vault, ServerReturns(id))
    ensures Nearer(y, t, ServerReturns(id))
  {
    ReturnTakesAStep(y.vault.books, y.vault.pool, y.vault.size, id);
  }

  lemma InboundIsNearer(y: System, t: nat, id: int)
    requires Waiting(y, t) && Accounted(y.vault.books) && y.vault.queue.promises == [t] && id in y.vault.books.arriving
    ensures Nearer(y, t, Inbound(id))
  {
    assert id in y.vault.books.surfaceMap;
    InboundProgress(y.vault, t, id);
    assert Step(y.vault, Inbound(id)) == InboundSection(y.vault, id);
  }

  lemma SetIntervalProgress(y: System, t: nat, i: int)
    requires Waiting(y, t) && NoneOurs(y.vault.books)
    ensures Nearer(y, t, SetInterval(i))
  {
    var s := y.vault;
    NothingToShrink(s.(pool := s.pool.(interval := i, needed := s.pool.initial)));
    OrderCosts(s.books, s.pool, s.size);
  }

  lemma ShrinkProgress(y: System, t: nat)
    requires Waiting(y, t) && NoneOurs(y.vault.books) && y.vault.pool.shrinkers > 0
    ensures Nearer(y, t, Shrink)
  {
    NothingToShrink(y.vault.(pool := y.vault.pool.(shrinkers := y.vault.pool.shrinkers - 1)));
  }

  lemma FreeProgress(y: System, t: nat, id: int)
    requires Waiting(y, t) && Accounted(y.vault.books) && id in y.vault.books.freeing
    ensures Nearer(y, t, IssueFree(id))
  {
    WrongBuffersMove(y.vault.books, y.vault.size);
  }

  /** A waiting producer can do nothing itself; the rest of the actions are about callbacks. */
  lemma OtherProgress(y: System, t: nat, a: Action)
    requires Waiting(y, t) && Allowed(y, a) && Calm(a) && !ByServerSide(a)
    requires !a.SetInterval? && !a.Shrink? && !a.IssueFree?
    ensures Nearer(y, t, a)
  {
    assert a.RunCallback? || a.WaitForAll? || a.WaitForOne?;
  }

  lemma Progress(y: System, t: nat, a: Action)
    requires ClaimInv(y) && Waiting(y, t) && Allowed(y, a) && Calm(a)
    ensures Nearer(y, t, a)
  {
    assert y.vault.queue.promises == [t];
    match a
    case IssueAllocation(al) => IssueProgress(y, t, al);
    case ServerAdds(id, sz) => AddProgress(y, t, id, sz);
    case ServerReturns(id) => ReturnProgress(y, t, id);
    case Inbound(id) => InboundIsNearer(y, t, id);
    case SetInterval(i) => SetIntervalProgress(y, t, i);
    case Shrink => ShrinkProgress(y, t);
    case IssueFree(id) => FreeProgress(y, t, id);
    case _ => OtherProgress(y, t, a);
  }

  ghost function ServerSteps(run: seq<Action>): nat {
    if run == [] then 0 else (if ByServerSide(run[0]) then 1 else 0) + ServerSteps(run[1..])
  }

  ghost function SwitchesToZero(run: seq<Action>): nat {
    if run == [] then 0 else (if run[0] == SetInterval(0) then 1 else 0) + SwitchesToZero(run[1..])
  }

  lemma {:induction false} ProgressOverRun(y: System, t: nat, run: seq<Action>)
    requires ClaimInv(y) && Waiting(y, t) && LegalRun(y, run) && forall i :: 0 <= i < |run| ==> Calm(run[i])
    ensures var z := Reached(y, run);
            || t in z.vault.queue.granted
            || (Waiting(z, t) && ClaimInv(z)
                && StepsLeft(z.vault.books, z.vault.pool, z.vault.size) + ServerSteps(run)
                   <= StepsLeft(y.vault.books, y.vault.pool, y.vault.size) + 3 * SwitchesToZero(run))
    decreases |run|
  {
    if run != [] {
      var z := Next(y, run[0]);
      Progress(y, t, run[0]);
      ClaimStepInv(y, run[0]);
      if t in z.vault.queue.granted {
        RunOfVault(z, run[1..]);
        GrantsSurviveRuns(z.vault, run[1..], t);
      } else {
        ProgressOverRun(z, t, run[1..]);
      }
    }
  }

  /** From every reachable state and over every run without a resize, a waiting producer is served
      after at most six actions of the server's side for each buffer the vault counts, and three more
      for each switch to interval zero: whatever the interleaving, and whatever the server chooses. */
  lemma WaiterIsServed(y: System, n: nat, t: nat, run: seq<Action>)
    requires Reachable(y, n) && Waiting(y, t)
    requires LegalRun(y, run) && forall i :: 0 <= i < |run| ==> Calm(run[i])
    requires ServerSteps(run) >= 6 * y.vault.pool.current + 3 * SwitchesToZero(run)
    ensures t in Reached(y, run).vault.queue.granted
  {
    ReachableInv(y, n);
    var z := Reached(y, run);
    ProgressOverRun(y, t, run);
    StepsLeftBounds(y.vault);
    if t !in z.vault.queue.granted {
      SomeStepsLeft(z, t);
      assert false;
    }
  }

  /** While a producer waits, the server's side can act. */
  lemma ServerSideCanAct(y: System, t: nat) returns (a: Action)
    requires ClaimInv(y) && Waiting(y, t)
    ensures Allowed(y, a) && ByServerSide(a)
  {
    WaiterHasSource(y, t);
    var s := y.vault;
    if s.books.arriving != {} {
      var id := SomeElement(s.books.arriving);
      a := Inbound(id);
    } else if s.books.serverHeld != {} {
      var id := SomeElement(s.books.serverHeld);
      ReturnKeeps(s.books, id);
      a := ServerReturns(id);
    } else if |s.pool.requests| > 0 {
      var sz :| sz in s.pool.requests;
      var id := UnusedExists(s.books.surfaceMap.Keys);
      a := ServerAdds(id, sz);
    } else {
      var al :| al in s.pool.committed;
      a := IssueAllocation(al);
    }
  }

  ghost predicate Serves(y: System, t: nat, run: seq<Action>) {
    && LegalRun(y, run)
    && (forall i :: 0 <= i < |run| ==> ByServerSide(run[i]))
    && t in Reached(y, run).vault.queue.granted
  }

  lemma ServeFirst(y: System, t: nat, a: Action, rest: seq<Action>)
    requires Allowed(y, a) && ByServerSide(a) && Serves(Next(y, a), t, rest)
    ensures Serves(y, t, [a] + rest)
  {
    Prepend(y, a, rest);
  }

  /** Any choice of the server's side leads on to one that serves the waiter. */
  lemma {:induction false} Serve(y: System, t: nat) returns (run: seq<Action>)
    requires ClaimInv(y) && Waiting(y, t)
    ensures Serves(y, t, run) && |run| <= StepsLeft(y.vault.books, y.vault.pool, y.vault.size)
    decreases StepsLeft(y.vault.books, y.vault.pool, y.vault.size)
  {
    SomeStepsLeft(y, t);
    var a := ServerSideCanAct(y, t);
    Progress(y, t, a);
    ClaimStepInv(y, a);
    var rest := [];
    if t !in Next(y, a).vault.queue.granted {
      rest := Serve(Next(y, a), t);
    }
    run := [a] + rest;
    ServeFirst(y, t, a, rest);
  }

  /** After every run, across resizes and interval changes, the server's side alone can serve a
      waiting producer: none is ever stranded. */
  lemma WaitersCanAlwaysBeServed(y: System, n: nat, t: nat)
    requires Reachable(y, n) && Waiting(y, t)
    ensures exists run :: Serves(y, t, run) && |run| <= 6 * y.vault.pool.current
  {
    ReachableInv(y, n);
    StepsLeftBounds(y.vault);
    var run := Serve(y, t);
  }
}
