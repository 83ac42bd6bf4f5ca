/** The one producer of a buffer stream (`BufferDepository`, src/client/buffer_stream.cpp:144-249)
    driving the vault while every other thread and the server interfere. */
module Depository {
  import opened Collections
  import opened Geometry
  import opened Books
  import opened VaultProtocol
  import opened VaultInvariant
  import VaultGuarantees

  /** Where the producer stands between two lock-held sections. */
  datatype Phase =
    | NeedsClaim              // before withdraw, in the constructor or at the end of submit
    | Claimed(ticket: nat)    // between submits, with a future
    | Deposited(id: int)      // deposit done
    | Marked(id: int)         // ledger says Server, submitted() not yet called
    | Sent                    // before the second section of wire_transfer_outbound
    | Failed                  // an exception left submit

  datatype System = System(vault: State, phase: Phase)

  function Start(size: Size, initialCount: nat): System {
    System(Init(size, initialCount), NeedsClaim)
  }

  /** The producer keeps to its order of calls; everybody else is free. */
  predicate Allowed(y: System, a: Action) {
    && Enabled(y.vault, a)
    && match a
       case Withdraw => y.phase == NeedsClaim
       case Deposit(id) =>
         y.phase.Claimed? && y.phase.ticket in y.vault.queue.granted
         && y.vault.queue.granted[y.phase.ticket] == id
       case Transfer(id) => y.phase == Deposited(id)
       case Submit(id) => y.phase == Marked(id)
       case Complete => y.phase == Sent
       case _ => true
  }

  function NextPhase(y: System, a: Action): Phase {
    match a
    case Withdraw => if Fault(y.vault, a).Some? then Failed else Claimed(y.vault.queue.tickets)
    case Deposit(id) => if Fault(y.vault, a).Some? then Failed else Deposited(id)
    case Transfer(id) => if Fault(y.vault, a).Some? then Failed else Marked(id)
    case Submit(id) => if Fault(y.vault, a).Some? then Failed else Sent
    case Complete => if Fault(y.vault, a).Some? then Failed else NeedsClaim
    case _ => y.phase
  }

  function Next(y: System, a: Action): System {
    System(Step(y.vault, a), NextPhase(y, a))
  }

  /** Everything the producer, the other threads and the server may do, resizes at any time. */
  ghost predicate LegalRun(y: System, run: seq<Action>)
    decreases |run|
  {
    run == [] || (Allowed(y, run[0]) && LegalRun(Next(y, run[0]), run[1..]))
  }

  ghost function Reached(y: System, run: seq<Action>): System
    decreases |run|
  {
    if run == [] then y else Reached(Next(y, run[0]), run[1..])
  }

  /** A resize between the two last sections of a submit is harmless unless a callback is pending
      and the new size revives a buffer of ours that the submit had just found unusable. */
  predicate Gentle(y: System, a: Action) {
    a.Resize? && y.phase == NeedsClaim && y.vault.calls.deferred.Some? ==>
      Usable(y.vault.books, a.newSize) == {}
  }

  /** A legal run in which every resize is gentle. */
  ghost predicate GentleRun(y: System, run: seq<Action>)
    decreases |run|
  {
    run == [] || (Allowed(y, run[0]) && Gentle(y, run[0]) && GentleRun(Next(y, run[0]), run[1..]))
  }

  lemma {:induction false} GentleIsLegal(y: System, run: seq<Action>)
    requires GentleRun(y, run)
    ensures LegalRun(y, run)
    decreases |run|
  {
    if run != [] {
      GentleIsLegal(Next(y, run[0]), run[1..]);
    }
  }

  lemma Prepend(y: System, a: Action, run: seq<Action>)
    requires Allowed(y, a)
    ensures Reached(y, [a] + run) == Reached(Next(y, a), run)
    ensures LegalRun(Next(y, a), run) ==> LegalRun(y, [a] + run)
    ensures Gentle(y, a) && GentleRun(Next(y, a), run) ==> GentleRun(y, [a] + run)
  {
    var whole := [a] + run;
    assert whole[0] == a && whole[1..] == run;
  }

  // ----- one claim

  /** Exactly these buffers are with the producer, without and with content. */
  ghost predicate Holds(b: Books, empty: set<int>, full: set<int>) {
    && (forall id :: id in empty ==> id in b.ledger && b.ledger[id] == ContentProducer)
    && (forall id :: id in full ==> id in b.ledger && b.ledger[id] == SelfWithContent)
    && (forall id :: id in b.ledger && b.ledger[id] == ContentProducer ==> id in empty)
    && (forall id :: id in b.ledger && b.ledger[id] == SelfWithContent ==> id in full)
  }

  /** The producer has one claim: a buffer, or a place in the queue, or the buffer it is passing
      to the server; and nothing else. */
  ghost predicate Claim(phase: Phase, b: Books, q: Queue, disconnected: bool) {
    match phase
    case Claimed(t) =>
      && t + 1 == q.tickets
      && b.submitting == {}
      && (if t in q.granted
          then q.promises == [] && Holds(b, {q.granted[t]}, {})
          else q.promises == (if disconnected then [] else [t]) && Holds(b, {}, {}))
    case Deposited(id) => q.promises == [] && b.submitting == {} && Holds(b, {}, {id})
    case Marked(id) => q.promises == [] && b.submitting == {id} && Holds(b, {}, {})
    case Failed => disconnected && q.promises == [] && b.submitting == {} && Holds(b, {}, {})
    case _ => q.promises == [] && b.submitting == {} && Holds(b, {}, {})
  }

  ghost predicate OneClaim(y: System) {
    Claim(y.phase, y.vault.books, y.vault.queue, y.vault.disconnected)
  }

  /** A pending callback means the producer is about to wait, or is waiting; none was lost. */
  ghost predicate CallbackWaitsWithProducer(y: System) {
    var s := y.vault;
    && s.calls.lost == multiset{}
    && (s.calls.deferred.Some? ==>
          || (y.phase == NeedsClaim && Usable(s.books, s.size) == {})
          || (y.phase.Claimed? && y.phase.ticket !in s.queue.granted))
  }

  ghost predicate ClaimInv(y: System) {
    Inv(y.vault) && OneClaim(y)
  }

  ghost predicate SystemInv(y: System) {
    ClaimInv(y) && CallbackWaitsWithProducer(y)
  }

  // ----- every action keeps the claim

  /** The producer's buffers are the same. */
  ghost predicate SameHolders(b: Books, b': Books) {
    && b'.submitting == b.submitting
    && (forall id :: id in b.ledger && b.ledger[id] in {ContentProducer, SelfWithContent} ==>
          id in b'.ledger && b'.ledger[id] == b.ledger[id])
    && (forall id :: id in b'.ledger && b'.ledger[id] in {ContentProducer, SelfWithContent} ==>
          id in b.ledger && b'.ledger[id] == b.ledger[id])
  }

  lemma SameHoldersSameClaim(phase: Phase, b: Books, b': Books, q: Queue, disconnected: bool)
    requires Claim(phase, b, q, disconnected) && SameHolders(b, b')
    ensures Claim(phase, b', q, disconnected)
  {
  }

  lemma ArrivalHolds(b: Books, id: int)
    requires Accounted(b) && id in b.arriving
    ensures SameHolders(b, Reject(b, id)) && SameHolders(b, Accept(b, id))
    ensures Holds(b, {}, {}) ==> Holds(Reown(Accept(b, id), id, ContentProducer), {id}, {})
  {
    assert id in b.ledger ==> b.ledger[id] == Server;
  }

  lemma EvictHolds(b: Books, ids: set<int>)
    requires ids <= OwnedBy(b, Self)
    ensures SameHolders(b, Evict(b, ids))
  {
    assert forall id :: id in ids ==> id in OwnedBy(b, Self);
  }

  lemma WithdrawClaims(y: System)
    requires ClaimInv(y) && y.phase == NeedsClaim
    ensures OneClaim(Next(y, Withdraw))
  {
    var s := y.vault;
    VaultGuarantees.NoInternalFault(s, Withdraw);
    if !s.disconnected {
      assert Stale(s.books, s.size) <= OwnedBy(s.books, Self);
      EvictHolds(s.books, Stale(s.books, s.size));
      SameHoldersSameClaim(y.phase, s.books, CleanUp(s).books, s.queue, false);
    }
  }

  lemma DepositClaims(y: System, id: int)
    requires ClaimInv(y) && Allowed(y, Deposit(id))
    ensures Fault(y.vault, Deposit(id)).None?
    ensures OneClaim(Next(y, Deposit(id)))
  {
    VaultGuarantees.NoInternalFault(y.vault, Deposit(id));
  }

  lemma TransferClaims(y: System, id: int)
    requires ClaimInv(y) && Allowed(y, Transfer(id))
    ensures Fault(y.vault, Transfer(id)).None?
    ensures OneClaim(Next(y, Transfer(id)))
  {
  }

  lemma SubmitClaims(y: System, id: int)
    requires ClaimInv(y) && Allowed(y, Submit(id))
    ensures Fault(y.vault, Submit(id)).None?
    ensures OneClaim(Next(y, Submit(id)))
  {
    VaultGuarantees.NoInternalFault(y.vault, Submit(id));
  }

  lemma CompleteClaims(y: System)
    requires ClaimInv(y) && Allowed(y, Complete)
    ensures OneClaim(Next(y, Complete))
  {
    VaultGuarantees.NoInternalFault(y.vault, Complete);
  }

  lemma ServedClaims(phase: Phase, b: Books, q: Queue, id: int)
    requires Claim(phase, b, q, false) && Accounted(b) && id in b.arriving && q.promises != []
    ensures Claim(phase, Reown(Accept(b, id), id, ContentProducer), GrantOldest(q, id), false)
  {
    assert phase.Claimed? && q.promises == [phase.ticket];
    ArrivalHolds(b, id);
  }

  lemma InboundClaims(y: System, id: int)
    requires ClaimInv(y) && Allowed(y, Inbound(id))
    ensures OneClaim(Next(y, Inbound(id)))
  {
    var s := y.vault;
    assert id in s.books.surfaceMap;
    ArrivalHolds(s.books, id);
    if (id in s.books.ledger && s.pool.current > s.pool.needed) || s.books.surfaceMap[id].size != s.size {
      SameHoldersSameClaim(y.phase, s.books, Reject(s.books, id), s.queue, s.disconnected);
    } else if s.queue.promises == [] {
      SameHoldersSameClaim(y.phase, s.books, Accept(s.books, id), s.queue, s.disconnected);
    } else {
      ServedClaims(y.phase, s.books, s.queue, id);
    }
  }

  lemma ShrinkClaims(y: System, t: State)
    requires OneClaim(y) && t.queue == y.vault.queue && t.disconnected == y.vault.disconnected
    requires t.books == y.vault.books
    ensures OneClaim(y.(vault := ShrinkPass(t)))
  {
    var ours := OwnedBy(t.books, Self);
    if ours != {} {
      EvictHolds(t.books, {Least(ours)});
      SameHoldersSameClaim(y.phase, t.books, Evict(t.books, {Least(ours)}), t.queue, t.disconnected);
    }
  }

  lemma IntervalClaims(y: System, a: Action)
    requires ClaimInv(y) && Allowed(y, a) && (a.SetInterval? || a.Shrink?)
    ensures OneClaim(Next(y, a))
  {
    var s := y.vault;
    if a.Shrink? {
      ShrinkClaims(y, s.(pool := s.pool.(shrinkers := s.pool.shrinkers - 1)));
    } else if a.newInterval != s.pool.interval && a.newInterval != 0 {
      ShrinkClaims(y, s.(pool := s.pool.(interval := a.newInterval, needed := s.pool.initial)));
    }
  }

  lemma WireClaims(y: System, a: Action)
    requires ClaimInv(y) && Allowed(y, a)
    requires a.IssueAllocation? || a.IssueFree? || a.ServerAdds? || a.ServerReturns?
    ensures OneClaim(Next(y, a))
  {
  }

  lemma PlainClaims(y: System, a: Action)
    requires ClaimInv(y) && Allowed(y, a)
    requires a.Resize? || a.Disconnect? || a.RunCallback? || a.WaitForAll? || a.WaitForOne?
    ensures OneClaim(Next(y, a))
  {
  }

  lemma StepClaims(y: System, a: Action)
    requires ClaimInv(y) && Allowed(y, a)
    ensures OneClaim(Next(y, a))
  {
    match a
    case Withdraw => WithdrawClaims(y);
    case Deposit(id) => DepositClaims(y, id);
    case Transfer(id) => TransferClaims(y, id);
    case Submit(id) => SubmitClaims(y, id);
    case Complete => CompleteClaims(y);
    case Inbound(id) => InboundClaims(y, id);
    case SetInterval(_) => IntervalClaims(y, a);
    case Shrink => IntervalClaims(y, a);
    case IssueAllocation(_) => WireClaims(y, a);
    case IssueFree(_) => WireClaims(y, a);
    case ServerAdds(_, _) => WireClaims(y, a);
    case ServerReturns(_) => WireClaims(y, a);
    case _ => PlainClaims(y, a);
  }

  // ----- every action keeps the callback with the producer

  /** Nothing but a buffer accepted from the server, or a resize, makes a buffer usable. */
  lemma UsableOnlyShrinks(b: Books, size: Size)
    requires Accounted(b)
    ensures forall ids :: ids <= OwnedBy(b, Self) ==> Usable(Evict(b, ids), size) <= Usable(b, size)
    ensures forall id :: id in b.arriving ==> Usable(Reject(b, id), size) <= Usable(b, size)
    ensures forall id :: id in b.freeing ==> Usable(Forget(b, id), size) <= Usable(b, size)
    ensures forall id, sz :: id !in b.surfaceMap ==> Usable(AddFromServer(b, id, sz), size) <= Usable(b, size)
    ensures forall id :: id in b.serverHeld && id in b.surfaceMap ==>
              Usable(ReturnFromServer(b, id), size) <= Usable(b, size)
  {
  }

  lemma WithdrawWaits(y: System)
    requires SystemInv(y) && y.phase == NeedsClaim
    ensures CallbackWaitsWithProducer(Next(y, Withdraw))
  {
    var s := y.vault;
    VaultGuarantees.NoInternalFault(s, Withdraw);
    if !s.disconnected && s.calls.deferred.Some? {
      assert forall id :: id in Usable(CleanUp(s).books, s.size) ==> id in Usable(s.books, s.size);
      assert s.queue.tickets !in s.queue.granted;
    }
  }

  lemma InboundWaits(y: System, id: int)
    requires SystemInv(y) && Allowed(y, Inbound(id))
    ensures CallbackWaitsWithProducer(Next(y, Inbound(id)))
  {
    UsableOnlyShrinks(y.vault.books, y.vault.size);
  }

  lemma ShrinkWaits(y: System, t: State)
    requires CallbackWaitsWithProducer(y) && Accounted(y.vault.books)
    requires t.books == y.vault.books && t.queue == y.vault.queue && t.calls == y.vault.calls && t.size == y.vault.size
    ensures CallbackWaitsWithProducer(y.(vault := ShrinkPass(t)))
  {
    var ours := OwnedBy(t.books, Self);
    if ours != {} {
      assert forall id :: id in Usable(Evict(t.books, {Least(ours)}), t.size) ==> id in Usable(t.books, t.size);
    }
  }

  lemma IntervalWaits(y: System, a: Action)
    requires SystemInv(y) && Allowed(y, a) && (a.SetInterval? || a.Shrink?)
    ensures CallbackWaitsWithProducer(Next(y, a))
  {
    var s := y.vault;
    if a.Shrink? {
      ShrinkWaits(y, s.(pool := s.pool.(shrinkers := s.pool.shrinkers - 1)));
    } else if a.newInterval != s.pool.interval && a.newInterval != 0 {
      ShrinkWaits(y, s.(pool := s.pool.(interval := a.newInterval, needed := s.pool.initial)));
    }
  }

  lemma WireWaits(y: System, a: Action)
    requires SystemInv(y) && Allowed(y, a)
    requires a.IssueAllocation? || a.IssueFree? || a.ServerAdds? || a.ServerReturns?
    ensures CallbackWaitsWithProducer(Next(y, a))
  {
    UsableOnlyShrinks(y.vault.books, y.vault.size);
  }

  lemma OutboundWaits(y: System, a: Action)
    requires SystemInv(y) && Allowed(y, a) && (a.Deposit? || a.Transfer? || a.Submit? || a.Complete?)
    ensures CallbackWaitsWithProducer(Next(y, a))
  {
    VaultGuarantees.NoInternalFault(y.vault, a);
  }

  lemma PlainWaits(y: System, a: Action)
    requires SystemInv(y) && Allowed(y, a) && Gentle(y, a)
    requires a.Resize? || a.Disconnect? || a.RunCallback? || a.WaitForAll? || a.WaitForOne?
    ensures CallbackWaitsWithProducer(Next(y, a))
  {
  }

  lemma StepWaits(y: System, a: Action)
    requires SystemInv(y) && Allowed(y, a) && Gentle(y, a)
    ensures CallbackWaitsWithProducer(Next(y, a))
  {
    match a
    case Withdraw => WithdrawWaits(y);
    case Deposit(_) => OutboundWaits(y, a);
    case Transfer(_) => OutboundWaits(y, a);
    case Submit(_) => OutboundWaits(y, a);
    case Complete => OutboundWaits(y, a);
    case Inbound(id) => InboundWaits(y, id);
    case SetInterval(_) => IntervalWaits(y, a);
    case Shrink => IntervalWaits(y, a);
    case IssueAllocation(_) => WireWaits(y, a);
    case IssueFree(_) => WireWaits(y, a);
    case ServerAdds(_, _) => WireWaits(y, a);
    case ServerReturns(_) => WireWaits(y, a);
    case _ => PlainWaits(y, a);
  }

  // ----- every run

  lemma ClaimStepInv(y: System, a: Action)
    requires ClaimInv(y) && Allowed(y, a)
    ensures ClaimInv(Next(y, a))
  {
    StepInv(y.vault, a);
    StepClaims(y, a);
  }

  /** Over every run, whatever the resizes, the producer has its one claim. */
  lemma {:induction false} ClaimRunInv(y: System, run: seq<Action>)
    requires ClaimInv(y) && LegalRun(y, run)
    ensures ClaimInv(Reached(y, run))
    decreases |run|
  {
    if run != [] {
      ClaimStepInv(y, run[0]);
      ClaimRunInv(Next(y, run[0]), run[1..]);
    }
  }

  /** The system's vault goes through the same run of the vault's protocol. */
  lemma {:induction false} RunOfVault(y: System, run: seq<Action>)
    requires LegalRun(y, run)
    ensures Legal(y.vault, run) && Reached(y, run).vault == After(y.vault, run)
    decreases |run|
  {
    if run != [] {
      RunOfVault(Next(y, run[0]), run[1..]);
    }
  }

  lemma SystemStepInv(y: System, a: Action)
    requires SystemInv(y) && Allowed(y, a) && Gentle(y, a)
    ensures SystemInv(Next(y, a))
  {
    ClaimStepInv(y, a);
    StepWaits(y, a);
  }

  lemma StartInv(size: Size, n: nat)
    ensures SystemInv(Start(size, n))
  {
    InitInv(size, n);
  }

  /** Over every run of gentle resizes, a pending callback waits with the producer, too. */
  lemma {:induction false} SystemRunInv(y: System, run: seq<Action>)
    requires SystemInv(y) && GentleRun(y, run)
    ensures SystemInv(Reached(y, run))
    decreases |run|
  {
    if run != [] {
      SystemStepInv(y, run[0]);
      SystemRunInv(Next(y, run[0]), run[1..]);
    }
  }
}
