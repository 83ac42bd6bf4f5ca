/** The depository as the object it is in src/client/buffer_stream.cpp:144-249, calling the vault. */
module BufferDepositories {
  import opened Collections
  import opened Geometry
  import opened Books
  import opened VaultProtocol
  import opened VaultInvariant
  import opened VaultGuarantees
  import opened Depository
  import opened DepositoryGuarantees
  import opened BufferVaults

  /** A run of the whole system, of the producer and everybody else, that leads a new vault and its
      producer here; every resize in it was gentle if `safe`. */
  ghost predicate LedHere(start: System, run: seq<Action>, s: State, phase: Phase, safe: bool) {
    && LegalRun(start, run) && Reached(start, run) == System(s, phase)
    && (safe ==> GentleRun(start, run))
  }

  lemma {:induction false} LegalThenLegal(y: System, run: seq<Action>, more: seq<Action>)
    requires LegalRun(y, run)
    ensures Reached(y, run + more) == Reached(Reached(y, run), more)
    ensures LegalRun(Reached(y, run), more) ==> LegalRun(y, run + more)
    ensures GentleRun(y, run) && GentleRun(Reached(y, run), more) ==> GentleRun(y, run + more)
    decreases |run|
  {
    var longer := run + more;
    if run == [] {
      assert longer == more;
    } else {
      assert longer[0] == run[0] && longer[1..] == run[1..] + more;
      LegalThenLegal(Next(y, run[0]), run[1..], more);
    }
  }

  /** Any legal continuation leads on. */
  lemma LedOn(start: System, run: seq<Action>, s: State, phase: Phase, safe: bool, more: seq<Action>)
    requires LedHere(start, run, s, phase, safe)
    requires if safe then GentleRun(System(s, phase), more) else LegalRun(System(s, phase), more)
    ensures var z := Reached(System(s, phase), more);
            LedHere(start, run + more, z.vault, z.phase, safe)
  {
    if safe {
      GentleIsLegal(System(s, phase), more);
    }
    LegalThenLegal(start, run, more);
  }

  lemma LedOnByOne(start: System, run: seq<Action>, s: State, phase: Phase, safe: bool, a: Action)
    requires LedHere(start, run, s, phase, safe) && Allowed(System(s, phase), a) && !a.Resize?
    ensures LedHere(start, run + [a], Step(s, a), NextPhase(System(s, phase), a), safe)
  {
    var y := System(s, phase);
    Prepend(y, a, []);
    assert [a] + [] == [a];
    assert Reached(y, [a]) == Next(y, a);
    LedOn(start, run, s, phase, safe, [a]);
  }

  // ----- what is done by others than the producer

  predicate ByOthers(a: Action) {
    !a.Withdraw? && !a.Deposit? && !a.Transfer? && !a.Submit? && !a.Complete?
  }

  lemma {:induction false} OthersRun(y: System, more: seq<Action>)
    requires Legal(y.vault, more) && y.phase != NeedsClaim && forall i :: 0 <= i < |more| ==> ByOthers(more[i])
    ensures LegalRun(y, more) && GentleRun(y, more) && Reached(y, more) == System(After(y.vault, more), y.phase)
    decreases |more|
  {
    if more != [] {
      OthersRun(Next(y, more[0]), more[1..]);
    }
  }

  /** While the producer is not inside a submit, the others leave it where it is. */
  lemma OthersContinue(start: System, run: seq<Action>, s: State, phase: Phase, safe: bool, more: seq<Action>, t: State)
    requires LedHere(start, run, s, phase, safe) && phase != NeedsClaim
    requires Legal(start.vault, run + more) && t == After(start.vault, run + more)
    requires forall i :: 0 <= i < |more| ==> ByOthers(more[i])
    ensures LedHere(start, run + more, t, phase, safe)
  {
    RunOfVault(start, run);
    SplitRun(start.vault, run, more);
    OthersRun(System(s, phase), more);
    LedOn(start, run, s, phase, safe, more);
  }

  // ----- the producer's calls, one after the other

  lemma LedHereInv(size: Size, n: nat, run: seq<Action>, y: System, safe: bool)
    requires LedHere(Start(size, n), run, y.vault, y.phase, safe)
    ensures ClaimInv(y)
  {
    StartInv(size, n);
    ClaimRunInv(Start(size, n), run);
  }

  lemma DepositNext(size: Size, n: nat, run: seq<Action>, s: State, t: nat, safe: bool)
    requires LedHere(Start(size, n), run, s, Claimed(t), safe) && t in s.queue.granted
    ensures var id := s.queue.granted[t];
            LedHere(Start(size, n), run + [Deposit(id)], Step(s, Deposit(id)), Deposited(id), safe)
    ensures s.queue.tickets == t + 1
  {
    var y, id := System(s, Claimed(t)), s.queue.granted[t];
    LedHereInv(size, n, run, y, safe);
    DepositClaims(y, id);
    LedOnByOne(Start(size, n), run, s, Claimed(t), safe, Deposit(id));
  }

  lemma TransferNext(size: Size, n: nat, run: seq<Action>, s: State, id: int, safe: bool)
    requires LedHere(Start(size, n), run, s, Deposited(id), safe)
    ensures id in s.books.ledger && s.books.ledger[id] == SelfWithContent
    ensures LedHere(Start(size, n), run + [Transfer(id)], Step(s, Transfer(id)), Marked(id), safe)
    ensures Step(s, Transfer(id)).disconnected == s.disconnected
  {
    LedHereInv(size, n, run, System(s, Deposited(id)), safe);
    TransferClaims(System(s, Deposited(id)), id);
    LedOnByOne(Start(size, n), run, s, Deposited(id), safe, Transfer(id));
  }

  lemma SubmitNext(size: Size, n: nat, run: seq<Action>, s: State, id: int, safe: bool)
    requires LedHere(Start(size, n), run, s, Marked(id), safe)
    ensures LedHere(Start(size, n), run + [Submit(id)], Step(s, Submit(id)), Phase.Sent, safe)
    ensures Step(s, Submit(id)).disconnected == s.disconnected
  {
    LedHereInv(size, n, run, System(s, Marked(id)), safe);
    assert id in s.books.submitting;
    SubmitClaims(System(s, Marked(id)), id);
    LedOnByOne(Start(size, n), run, s, Marked(id), safe, Submit(id));
  }

  lemma CompleteNext(size: Size, n: nat, run: seq<Action>, s: State, safe: bool)
    requires LedHere(Start(size, n), run, s, Phase.Sent, safe)
    ensures LedHere(Start(size, n), run + [Complete], Step(s, Complete), if s.disconnected then Failed else NeedsClaim, safe)
  {
    LedHereInv(size, n, run, System(s, Phase.Sent), safe);
    NoInternalFault(s, Complete);
    LedOnByOne(Start(size, n), run, s, Phase.Sent, safe, Complete);
  }

  lemma OutboundNext(size: Size, n: nat, run: seq<Action>, s: State, id: int, safe: bool, t: State)
    requires LedHere(Start(size, n), run, s, Deposited(id), safe)
    requires t == After(Init(size, n), run + [Transfer(id)] + [Submit(id)] + [Complete])
    ensures LedHere(Start(size, n), run + [Transfer(id)] + [Submit(id)] + [Complete], t,
                    if s.disconnected then Failed else NeedsClaim, safe)
  {
    TransferNext(size, n, run, s, id, safe);
    SubmitNext(size, n, run + [Transfer(id)], Step(s, Transfer(id)), id, safe);
    CompleteNext(size, n, run + [Transfer(id)] + [Submit(id)], Step(Step(s, Transfer(id)), Submit(id)), safe);
    RunOfVault(Start(size, n), run + [Transfer(id)] + [Submit(id)] + [Complete]);
  }

  lemma WithdrawNext(size: Size, n: nat, run: seq<Action>, s: State, safe: bool)
    requires LedHere(Start(size, n), run, s, NeedsClaim, safe) && !s.disconnected
    ensures LedHere(Start(size, n), run + [Withdraw], WithdrawSection(s), Claimed(s.queue.tickets), safe)
  {
    LedHereInv(size, n, run, System(s, NeedsClaim), safe);
    NoFaultInWithdraw(s);
    NoInternalFault(s, Withdraw);
    LedOnByOne(Start(size, n), run, s, NeedsClaim, safe, Withdraw);
  }

  /** withdraw and its allocation and frees. */
  lemma ClaimNext(size: Size, n: nat, run: seq<Action>, s: State, safe: bool, tail: seq<Action>, t: State)
    requires LedHere(Start(size, n), run, s, NeedsClaim, safe) && !s.disconnected
    requires Legal(Init(size, n), run + [Withdraw] + tail) && t == After(Init(size, n), run + [Withdraw] + tail)
    requires forall i :: 0 <= i < |tail| ==> tail[i].IssueAllocation? || tail[i].IssueFree?
    ensures LedHere(Start(size, n), run + [Withdraw] + tail, t, Claimed(s.queue.tickets), safe)
    ensures tail == [] ==> t == WithdrawSection(s)
  {
    WithdrawNext(size, n, run, s, safe);
    OthersContinue(Start(size, n), run + [Withdraw], WithdrawSection(s), Claimed(s.queue.tickets), safe, tail, t);
    if tail == [] {
      assert run + [Withdraw] + tail == run + [Withdraw];
    }
  }

  /** The calls withdraw makes after dropping the mutex. */
  ghost function WithdrawTail(ordered: bool, size: Size, freed: seq<int>): (tail: seq<Action>)
    ensures forall i :: 0 <= i < |tail| ==> tail[i].IssueAllocation? || tail[i].IssueFree?
    ensures !ordered && freed == [] ==> tail == []
  {
    (if ordered then [IssueAllocation(OfSize(size))] else []) + Freeing(freed)
  }

  /** A withdrawal that neither orders nor frees. */
  ghost predicate OwesNothing(s: State) {
    !OrdersOne(s) && forall id :: id !in Stale(s.books, s.size)
  }

  lemma QuietTail(s: State, ordered: bool, size: Size, freed: seq<int>)
    requires (ordered <==> OrdersOne(s)) && Lists(freed, Stale(s.books, s.size))
    ensures OwesNothing(s) ==> WithdrawTail(ordered, size, freed) == []
  {
    ListedIsIn(freed, Stale(s.books, s.size));
    if |freed| > 0 {
      var id := freed[0];
      assert id in Stale(s.books, s.size);
    }
  }

  lemma TailAppends(run: seq<Action>, ordered: bool, size: Size, freed: seq<int>)
    ensures run + (if ordered then [IssueAllocation(OfSize(size))] else []) + Freeing(freed)
            == run + WithdrawTail(ordered, size, freed)
  {
  }

  // ----- the first claim

  lemma {:induction false} OrdersRun(y: System, run: seq<Action>)
    requires Legal(y.vault, run) && forall i :: 0 <= i < |run| ==> run[i].IssueAllocation?
    ensures LedHere(y, run, After(y.vault, run), y.phase, true)
    decreases |run|
  {
    if run != [] {
      OrdersRun(Next(y, run[0]), run[1..]);
    }
  }

  /** The first withdrawal from a vault whose buffers are all on order waits. */
  lemma FirstWithdrawal(size: Size, n: nat)
    ensures var s := AllOrdered(size, n);
            OwesNothing(s) && WithdrawSection(s) == s.(queue := Queue([0], 1, map[]))
  {
    var s := AllOrdered(size, n);
    assert Stale(s.books, size) == {};
    EvictNothing(s.books);
    assert CleanUp(s) == s;
    assert Usable(s.books, size) == {};
  }

  /** What set_interval adds to a history. */
  lemma IntervalTail(h: seq<Action>, h': seq<Action>, i: int) returns (more: seq<Action>)
    requires || h' == h
             || h' == h + [Action.SetInterval(0)] + [IssueAllocation(OfSizeWhenIssued)]
             || OnlyGivesBack(h + [Action.SetInterval(i)], h')
    ensures h' == h + more && forall k :: 0 <= k < |more| ==> ByOthers(more[k])
  {
    more := h'[|h|..];
    forall k | 0 <= k < |more|
      ensures ByOthers(more[k])
    {
      assert more[k] == h'[|h| + k];
    }
  }

  // ----- arrivals

  /** A buffer is received, by this action, and offered to the vault. */
  ghost function ArrivalRun(s: State, received: Action, id: int): (run: seq<Action>)
    requires received == ServerReturns(id) || received.ServerAdds?
    ensures forall i :: 0 <= i < |run| ==> ByOthers(run[i])
  {
    [received] + ([Inbound(id)] + InboundTail(Step(s, received), id))
  }

  lemma ArrivalAppends(run: seq<Action>, s: State, received: Action, id: int)
    requires received == ServerReturns(id) || received.ServerAdds?
    ensures run + [received] + [Inbound(id)] + InboundTail(Step(s, received), id) == run + ArrivalRun(s, received, id)
  {
  }

  /** An arrival kept settles the future of a producer that waits, and of no other. */
  lemma ArrivalSettles(size: Size, n: nat, run: seq<Action>, s: State, t: nat, safe: bool, id: int)
    requires LedHere(Start(size, n), run, s, Claimed(t), safe)
    ensures GrantOldest(s.queue, id).granted
            == if t in s.queue.granted || s.disconnected then s.queue.granted else s.queue.granted[t := id]
  {
    LedHereInv(size, n, run, System(s, Claimed(t)), safe);
  }

  class BufferDepository {
    const vault: BufferVault
    var future: nat            // the ticket the producer holds
    var current: Option<int>
    var size: Size

    // Whether every resize so far was gentle.
    ghost var safe: bool

    ghost function Origin(): System {
      Start(vault.initialSize, vault.initialCount)
    }

    /** The vault's history is a legal run of the system that leaves the producer in this phase. */
    ghost predicate InPhase(phase: Phase)
      reads this, vault
    {
      vault.Valid() && LedHere(Origin(), vault.history, vault.View(), phase, safe)
    }

    /** Between calls the producer has its one claim, and `current` is the buffer of its future. */
    ghost predicate Valid()
      reads this, vault
    {
      && InPhase(Claimed(future))
      && (current.Some? ==> future in vault.queue.granted && vault.queue.granted[future] == current.value)
    }

    /** So all that is proved of reachable states holds of it, and while resizes are gentle it has
        lost no callback. */
    lemma Sound()
      requires Valid()
      ensures Reachable(System(vault.View(), Claimed(future)), vault.initialCount)
      ensures safe ==> vault.calls.lost == multiset{}
    {
      if safe {
        SwapsCompleteExactlyOnce(vault.initialSize, vault.initialCount, vault.history, vault.calls, 0);
      }
    }

    /** A new depository waits for its first buffer, and has asked for all of them. */
    constructor (size: Size, initialBufferCount: nat)
      ensures Valid() && fresh(vault) && current == None && this.size == size && safe && future == 0
      ensures vault.View() == AllOrdered(size, initialBufferCount).(queue := Queue([0], 1, map[]))
    {
      vault := new BufferVault(size, initialBufferCount);
      future, current, this.size := 0, None, size;
      safe := true;
      new;
      OrdersRun(Start(size, initialBufferCount), vault.history);
      FirstWithdrawal(size, initialBufferCount);
      future := ClaimAgain();
    }

    /** vault.withdraw(), as the constructor and the end of submit make it. */
    method ClaimAgain() returns (ticket: nat)
      requires InPhase(NeedsClaim) && !vault.disconnected
      modifies vault
      ensures InPhase(Claimed(ticket)) && !vault.disconnected && old(vault.history) <= vault.history
      ensures ticket == old(vault.queue).tickets && vault.books.serverHeld == old(vault.books).serverHeld
      ensures OwesNothing(old(vault.View())) ==> vault.View() == WithdrawSection(old(vault.View()))
    {
      ghost var before, s := vault.history, vault.View();
      var r, ordered, freed := vault.Withdraw();
      ticket := r.value;
      QuietTail(s, ordered, vault.size, freed);
      ghost var tail := WithdrawTail(ordered, vault.size, freed);
      TailAppends(before + [Action.Withdraw], ordered, vault.size, freed);
      ClaimNext(vault.initialSize, vault.initialCount, before, s, safe, tail, vault.View());
    }

    /** advance_current_buffer: the future's buffer, or the exception of a broken promise.  While
        the promise is pending the call blocks, so the caller gets here with it settled. */
    method AdvanceCurrentBuffer() returns (r: Outcome<int>)
      requires Valid() && (future in vault.queue.granted || vault.disconnected)
      modifies this`current
      ensures Valid()
      ensures r.Success? <==> future in vault.queue.granted
      ensures r.Success? ==> current == Some(r.value) && r.value == vault.queue.granted[future]
      ensures r.Failure? ==> r.error == BrokenPromise && current == old(current)
    {
      if current.None? {
        if future !in vault.queue.granted {
          return Failure(BrokenPromise);
        }
        current := Some(vault.queue.granted[future]);
      }
      r := Success(current.value);
    }

    /** The deposit of the producer's buffer never fails. */
    method DepositCurrent(c: int)
      requires InPhase(Claimed(future)) && future in vault.queue.granted && vault.queue.granted[future] == c
      modifies vault
      ensures InPhase(Deposited(c)) && vault.disconnected == old(vault.disconnected) && vault.queue == old(vault.queue)
      ensures vault.history == old(vault.history) + [Deposit(c)] && vault.queue.tickets == future + 1
    {
      ghost var h := vault.history;
      DepositNext(vault.initialSize, vault.initialCount, h, vault.View(), future, safe);
      RunOfVault(Origin(), h + [Deposit(c)]);
      var deposited := vault.Deposit(c);
    }

    /** Nor does its transfer, unless the connection is lost. */
    method SendCurrent(c: int) returns (r: Outcome<bool>)
      requires InPhase(Deposited(c))
      modifies vault
      ensures vault.disconnected == old(vault.disconnected) && vault.queue == old(vault.queue)
      ensures vault.history == old(vault.history) + [Transfer(c)] + [Submit(c)] + [Complete]
      ensures c in vault.books.serverHeld
      ensures if vault.disconnected then r == Failure(ServerDisconnected) && InPhase(Failed)
              else r.Success? && InPhase(NeedsClaim)
    {
      ghost var h, s := vault.history, vault.View();
      TransferNext(vault.initialSize, vault.initialCount, h, s, c, safe);
      r := vault.WireTransferOutbound(c);
      OutboundNext(vault.initialSize, vault.initialCount, h, s, c, safe, vault.View());
    }

    /** deposit and wire_transfer_outbound. */
    method HandOver(c: int) returns (r: Outcome<bool>)
      requires InPhase(Claimed(future)) && future in vault.queue.granted && vault.queue.granted[future] == c
      modifies vault
      ensures vault.disconnected == old(vault.disconnected) && c in vault.books.serverHeld
      ensures vault.history == old(vault.history) + [Deposit(c)] + [Transfer(c)] + [Submit(c)] + [Complete]
      ensures vault.queue == old(vault.queue) && vault.queue.tickets == future + 1
      ensures if vault.disconnected then r == Failure(ServerDisconnected) && InPhase(Failed)
              else r.Success? && InPhase(NeedsClaim)
    {
      DepositCurrent(c);
      r := SendCurrent(c);
    }

    /** submit: while connected it succeeds, hands the producer's buffer to the server, and leaves it
        with the next claim; otherwise it throws, because the promise is broken or after the buffer has
        been handed over. */
    method SubmitBuffer() returns (r: Outcome<bool>)
      requires Valid() && (future in vault.queue.granted || vault.disconnected)
      modifies this`current, this`future, vault
      ensures vault.disconnected == old(vault.disconnected)
      ensures !vault.disconnected ==> Valid() && r.Success? && current == None && future == old(future) + 1
      ensures old(future !in vault.queue.granted) ==> r == Failure(BrokenPromise) && vault.View() == old(vault.View())
      ensures old(future in vault.queue.granted) ==>
                && (vault.disconnected ==> r == Failure(ServerDisconnected) && InPhase(Failed))
                && var id := old(vault.queue.granted)[old(future)];
                   && id in vault.books.serverHeld
                   && old(vault.history) + [Deposit(id)] + [Transfer(id)] + [Submit(id)] + [Complete] <= vault.history
    {
      var advanced := AdvanceCurrentBuffer();
      if advanced.Failure? {
        return Failure(advanced.error);
      }
      var c := advanced.value;
      current := None;
      r := HandOver(c);
      if r.Success? {
        future := ClaimAgain();
      }
    }

    // ----- what happens between the producer's calls

    /** A new buffer arrives.  If it has the vault's size and the producer waits, it is the
        producer's. */
    method BufferAdded(id: int, bufferSize: Size) returns (kept: bool)
      requires Valid() && id !in vault.books.surfaceMap && bufferSize in vault.pool.requests
      modifies vault
      ensures Valid() && vault.disconnected == old(vault.disconnected) && vault.size == old(vault.size)
      ensures kept <==> bufferSize == vault.size
      ensures vault.queue.granted == if kept && old(future !in vault.queue.granted) && !vault.disconnected
                                     then old(vault.queue.granted)[future := id] else old(vault.queue.granted)
    {
      ghost var h, s := vault.history, vault.View();
      ArrivalSettles(vault.initialSize, vault.initialCount, h, s, future, safe, id);
      kept := vault.BufferAdded(id, bufferSize);
      ghost var more := ArrivalRun(s, ServerAdds(id, bufferSize), id);
      ArrivalAppends(h, s, ServerAdds(id, bufferSize), id);
      OthersContinue(Origin(), h, s, Claimed(future), safe, more, vault.View());
    }

    /** A buffer comes back.  If it has the vault's size, is not surplus, and the producer waits, it
        is the producer's. */
    method BufferReturned(id: int) returns (kept: bool)
      requires Valid() && id in vault.books.serverHeld
      modifies vault
      ensures Valid() && vault.disconnected == old(vault.disconnected) && vault.size == old(vault.size)
      ensures id in old(vault.books.surfaceMap)
      ensures kept <==> old(vault.books.surfaceMap)[id].size == vault.size && old(vault.pool.current <= vault.pool.needed)
      ensures vault.queue.granted == if kept && old(future !in vault.queue.granted) && !vault.disconnected
                                     then old(vault.queue.granted)[future := id] else old(vault.queue.granted)
    {
      ghost var h, s := vault.history, vault.View();
      ArrivalSettles(vault.initialSize, vault.initialCount, h, s, future, safe, id);
      kept := vault.BufferReturned(id);
      ghost var more := ArrivalRun(s, ServerReturns(id), id);
      ArrivalAppends(h, s, ServerReturns(id), id);
      OthersContinue(Origin(), h, s, Claimed(future), safe, more, vault.View());
    }

    method SetSize(newSize: Size)
      requires Valid()
      modifies this`size, vault
      ensures Valid() && size == vault.size == newSize
      ensures vault.books == old(vault.books) && vault.queue == old(vault.queue) && vault.pool == old(vault.pool)
    {
      ghost var h, s := vault.history, vault.View();
      size := newSize;
      vault.SetSize(newSize);
      OthersContinue(Origin(), h, s, Claimed(future), safe, [Resize(newSize)], vault.View());
    }

    /** The interval is clamped to 0 or 1 before the vault sees it. */
    method SetInterval(interval: int)
      requires Valid()
      modifies vault
      ensures Valid() && vault.queue == old(vault.queue)
      ensures vault.pool.interval == if interval <= 0 then 0 else 1
    {
      ghost var h, s := vault.history, vault.View();
      var clamped := Max(0, Min(1, interval));
      vault.SetInterval(clamped);
      ghost var more := IntervalTail(h, vault.history, clamped);
      OthersContinue(Origin(), h, s, Claimed(future), safe, more, vault.View());
    }

    method LostConnection()
      requires Valid()
      modifies vault
      ensures Valid() && vault.disconnected && vault.queue.granted == old(vault.queue.granted)
      ensures vault.calls.deferred == None
    {
      ghost var h, s, pending := vault.history, vault.View(), vault.calls.deferred;
      vault.Disconnected();
      ghost var more := [Disconnect] + if pending.Some? then [RunCallback(pending.value)] else [];
      assert vault.history == h + more;
      OthersContinue(Origin(), h, s, Claimed(future), safe, more, vault.View());
    }
  }

  /** From a new depository to its second claim: the first buffer to arrive is the producer's, and it
      can be submitted. */
  method FirstSwap(size: Size, initialBufferCount: nat, id: int) returns (d: BufferDepository, r: Outcome<bool>)
    requires initialBufferCount > 0
    ensures fresh(d) && d.Valid() && r.Success? && d.future == 1 && id in d.vault.books.serverHeld
  {
    d := new BufferDepository(size, initialBufferCount);
    var kept := d.BufferAdded(id, size);
    r := d.SubmitBuffer();
  }
}
