/** The one way a swap callback can be lost: a resize between the two last lock-held sections of a
    submit that makes a buffer usable which the submit had just found unusable.  The condition is
    exact, and a run that meets it is given. */
module LostCallback {
  import opened Collections
  import opened Geometry
  import opened Books
  import opened VaultProtocol
  import opened VaultInvariant
  import opened VaultGuarantees
  import opened Depository
  import opened DepositoryGuarantees

  /** A callback is pending while the producer can go on swapping. */
  ghost predicate Doomed(y: System) {
    && ClaimInv(y) && !y.vault.disconnected && y.vault.calls.deferred.Some?
    && y.phase != Failed
    && (y.phase == NeedsClaim ==> Usable(y.vault.books, y.vault.size) != {})
    && (y.phase.Claimed? ==> y.phase.ticket in y.vault.queue.granted)
  }

  /** The producer's next call. */
  ghost function ProducerCall(y: System): Action
    requires y.phase.Claimed? ==> y.phase.ticket in y.vault.queue.granted
  {
    match y.phase
    case Claimed(t) => Deposit(y.vault.queue.granted[t])
    case Deposited(id) => Transfer(id)
    case Marked(id) => Submit(id)
    case Sent => Complete
    case _ => Withdraw
  }

  ghost function CallsLeft(y: System): nat {
    5 * |Usable(y.vault.books, y.vault.size)| +
    match y.phase
    case Claimed(t) => 4
    case Deposited(id) => 3
    case Marked(id) => 2
    case Sent => 1
    case _ => 0
  }

  lemma FewerUsable(b: Books, b': Books, size: Size, id: int)
    requires id in Usable(b, size) && id !in Usable(b', size) && Usable(b', size) <= Usable(b, size)
    ensures |Usable(b', size)| < |Usable(b, size)|
  {
    SubsetSize(Usable(b', size), Usable(b, size) - {id});
  }

  lemma DoomedWithdraws(y: System)
    requires Doomed(y) && y.phase == NeedsClaim
    ensures Doomed(Next(y, Withdraw)) && CallsLeft(Next(y, Withdraw)) < CallsLeft(y)
  {
    var s := y.vault;
    NoInternalFault(s, Withdraw);
    ClaimStepInv(y, Withdraw);
    var c := CleanUp(s);
    assert Usable(c.books, s.size) == Usable(s.books, s.size);
    var id := AvailableBuffer(c.books, s.size, s.lastReceived).value;
    var t := Step(s, Withdraw);
    assert t.books.ledger == c.books.ledger[id := ContentProducer];
    FewerUsable(s.books, t.books, s.size, id);
  }

  lemma DoomedDeposits(y: System, id: int)
    requires Doomed(y) && Allowed(y, Deposit(id))
    ensures Doomed(Next(y, Deposit(id))) && CallsLeft(Next(y, Deposit(id))) < CallsLeft(y)
  {
    ClaimStepInv(y, Deposit(id));
    DepositClaims(y, id);
    assert Usable(Step(y.vault, Deposit(id)).books, y.vault.size) == Usable(y.vault.books, y.vault.size);
  }

  lemma DoomedTransfers(y: System, id: int)
    requires Doomed(y) && Allowed(y, Transfer(id))
    ensures Doomed(Next(y, Transfer(id))) && CallsLeft(Next(y, Transfer(id))) < CallsLeft(y)
  {
    ClaimStepInv(y, Transfer(id));
    TransferClaims(y, id);
    assert Usable(Step(y.vault, Transfer(id)).books, y.vault.size) == Usable(y.vault.books, y.vault.size);
  }

  lemma DoomedSubmits(y: System, id: int)
    requires Doomed(y) && Allowed(y, Submit(id))
    ensures Doomed(Next(y, Submit(id))) && CallsLeft(Next(y, Submit(id))) < CallsLeft(y)
  {
    ClaimStepInv(y, Submit(id));
    SubmitClaims(y, id);
    assert Usable(Step(y.vault, Submit(id)).books, y.vault.size) == Usable(y.vault.books, y.vault.size);
  }

  lemma DoomedCompletes(y: System)
    requires Doomed(y) && y.phase == Sent
    ensures Allowed(y, Complete)
    ensures Next(y, Complete).vault.calls.lost != multiset{}
            || (Doomed(Next(y, Complete)) && CallsLeft(Next(y, Complete)) < CallsLeft(y))
  {
    NoInternalFault(y.vault, Complete);
    ClaimStepInv(y, Complete);
    if Usable(y.vault.books, y.vault.size) == {} {
      assert y.vault.calls.deferred.value in Next(y, Complete).vault.calls.lost;
    }
  }

  /** Left alone, the producer goes on until it overwrites the pending callback. */
  lemma {:induction false} DoomedLoses(y: System) returns (run: seq<Action>)
    requires Doomed(y)
    ensures GentleRun(y, run) && Reached(y, run).vault.calls.lost != multiset{}
    decreases CallsLeft(y)
  {
    var a := ProducerCall(y);
    if y.phase == NeedsClaim {
      DoomedWithdraws(y);
    } else if y.phase == Sent {
      DoomedCompletes(y);
    } else if y.phase.Claimed? {
      DoomedDeposits(y, a.id);
    } else if y.phase.Deposited? {
      DoomedTransfers(y, a.id);
    } else {
      DoomedSubmits(y, a.id);
    }
    var rest := [];
    if Next(y, a).vault.calls.lost == multiset{} {
      rest := DoomedLoses(Next(y, a));
    }
    Prepend(y, a, rest);
    run := [a] + rest;
  }

  /** A resize keeps every later swap safe exactly when it is gentle. */
  lemma ResizeIsSafeIffGentle(y: System, sz: Size)
    requires SystemInv(y)
    ensures Gentle(y, Resize(sz)) <==>
            forall run :: GentleRun(Next(y, Resize(sz)), run) ==>
                            Reached(Next(y, Resize(sz)), run).vault.calls.lost == multiset{}
  {
    var z := Next(y, Resize(sz));
    if Gentle(y, Resize(sz)) {
      SystemStepInv(y, Resize(sz));
      forall run | GentleRun(z, run)
        ensures Reached(z, run).vault.calls.lost == multiset{}
      {
        SystemRunInv(z, run);
      }
    } else {
      ClaimStepInv(y, Resize(sz));
      var run := DoomedLoses(z);
    }
  }

  // ----- and such a resize can be met

  const SMALL := Size(640, 480)
  const LARGE := Size(1280, 960)

  /** A vault made for two small buffers, with no callback and nobody waiting. */
  ghost function Snapshot(b: Books, committed: multiset<Allocation>, requests: multiset<Size>,
                          granted: map<nat, int>, size: Size, lastReceived: int, phase: Phase): System {
    System(State(b, Pool(2, 2, 2, 1, committed, requests, 0), Queue([], |granted|, granted),
                 Calls(None, 0, 0, multiset{}, 0, multiset{}, multiset{}, multiset{}),
                 size, false, lastReceived),
           phase)
  }

  const FRESH := Buffer(SMALL, true)

  ghost function BothRequested(): System {
    Snapshot(Books(map[], map[], {}, {}, {}, {}), multiset{}, multiset{SMALL, SMALL}, map[], SMALL, 0, NeedsClaim)
  }

  ghost function FirstArrived(): System {
    Snapshot(Books(map[1 := Self], map[1 := FRESH], {}, {}, {}, {}), multiset{}, multiset{SMALL}, map[], SMALL, 1, NeedsClaim)
  }

  ghost function BothArrived(): System {
    Snapshot(Books(map[1 := Self, 2 := Self], map[1 := FRESH, 2 := FRESH], {}, {}, {}, {}),
             multiset{}, multiset{}, map[], SMALL, 2, NeedsClaim)
  }

  ghost function ProducerHoldsFirst(size: Size): System {
    Snapshot(Books(map[1 := ContentProducer, 2 := Self], map[1 := FRESH, 2 := FRESH], {}, {}, {}, {}),
             multiset{}, multiset{}, map[0 := 1], size, 2, Claimed(0))
  }

  ghost function FirstMarked(): System {
    Snapshot(Books(map[1 := Server, 2 := Self], map[1 := FRESH, 2 := FRESH], {}, {}, {1}, {}),
             multiset{}, multiset{}, map[0 := 1], LARGE, 2, Marked(1))
  }

  lemma RequestsGoOut()
    ensures var a := IssueAllocation(OfSize(SMALL));
            var y := Start(SMALL, 2);
            && Allowed(y, a) && Allowed(Next(y, a), a)
            && Next(Next(y, a), a) == BothRequested()
  {
    var a := IssueAllocation(OfSize(SMALL));
    var y := Start(SMALL, 2);
    assert y.vault.pool.committed == multiset{OfSize(SMALL), OfSize(SMALL)};
    var z := Next(y, a);
    assert z.vault.pool.committed == multiset{OfSize(SMALL)};
    assert Next(z, a).vault.pool.committed == multiset{};
  }

  lemma FirstComes()
    ensures var y := BothRequested();
            var z := Next(y, ServerAdds(1, SMALL));
            Allowed(y, ServerAdds(1, SMALL)) && Allowed(z, Inbound(1)) && Next(z, Inbound(1)) == FirstArrived()
  {
    var y := BothRequested();
    var z := Next(y, ServerAdds(1, SMALL));
    assert z.vault.pool.requests == multiset{SMALL};
    assert z.vault.books == Books(map[], map[1 := FRESH], {1}, {}, {}, {});
    assert Next(z, Inbound(1)).vault.books == FirstArrived().vault.books;
  }

  lemma SecondComes()
    ensures var y := FirstArrived();
            var z := Next(y, ServerAdds(2, SMALL));
            Allowed(y, ServerAdds(2, SMALL)) && Allowed(z, Inbound(2)) && Next(z, Inbound(2)) == BothArrived()
  {
    var y := FirstArrived();
    var z := Next(y, ServerAdds(2, SMALL));
    assert z.vault.pool.requests == multiset{};
    assert z.vault.books == Books(map[1 := Self], map[1 := FRESH, 2 := FRESH], {2}, {}, {}, {});
    assert Next(z, Inbound(2)).vault.books == BothArrived().vault.books;
  }

  lemma FirstIsAvailable()
    ensures var s := BothArrived().vault;
            CleanUp(s) == s && AvailableBuffer(s.books, SMALL, 2) == Some(1)
  {
    var s := BothArrived().vault;
    assert Stale(s.books, SMALL) == {};
    assert CleanUp(s).books == s.books;
    assert Usable(s.books, SMALL) == {1, 2};
    assert {1, 2} - {2} == {1};
  }

  lemma ProducerTakesFirst()
    ensures Allowed(BothArrived(), Withdraw) && Next(BothArrived(), Withdraw) == ProducerHoldsFirst(SMALL)
  {
    var s := BothArrived().vault;
    FirstIsAvailable();
    assert Step(s, Withdraw).books == ProducerHoldsFirst(SMALL).vault.books;
  }

  lemma ProducerSubmitsFirst()
    ensures var y := ProducerHoldsFirst(LARGE);
            var z := Next(y, Deposit(1));
            Allowed(y, Deposit(1)) && Allowed(z, Transfer(1)) && Next(z, Transfer(1)) == FirstMarked()
  {
    var y := ProducerHoldsFirst(LARGE);
    var z := Next(y, Deposit(1));
    assert z.vault.books.ledger == map[1 := SelfWithContent, 2 := Self];
    assert Next(z, Transfer(1)).vault.books == FirstMarked().vault.books;
  }

  /** After the submit a callback is pending and the second buffer would fit the old size. */
  lemma CallbackIsDeferred()
    ensures var y := FirstMarked();
            var z := Next(y, Submit(1));
            && Allowed(y, Submit(1)) && Allowed(z, Complete)
            && !Gentle(Next(z, Complete), Resize(SMALL))
  {
    var y := FirstMarked();
    var z := Next(y, Submit(1));
    assert Usable(z.vault.books, LARGE) == {};
    assert 2 in Usable(z.vault.books, SMALL);
  }

  /** A run of legal, gentle actions leads to a state where restoring the old size is not gentle:
      by ResizeIsSafeIffGentle, a swap callback can then be lost. */
  lemma UngentleResizeIsReachable() returns (run: seq<Action>)
    ensures GentleRun(Start(SMALL, 2), run)
    ensures !Gentle(Reached(Start(SMALL, 2), run), Resize(SMALL))
  {
    RequestsGoOut();
    FirstComes();
    SecondComes();
    ProducerTakesFirst();
    ProducerSubmitsFirst();
    CallbackIsDeferred();
    var issue := IssueAllocation(OfSize(SMALL));
    run := PrependTwo(FirstMarked(), Submit(1), Complete, []);
    run := PrependTwo(ProducerHoldsFirst(LARGE), Deposit(1), Transfer(1), run);
    run := PrependTwo(BothArrived(), Withdraw, Resize(LARGE), run);
    run := PrependTwo(FirstArrived(), ServerAdds(2, SMALL), Inbound(2), run);
    run := PrependTwo(BothRequested(), ServerAdds(1, SMALL), Inbound(1), run);
    run := PrependTwo(Start(SMALL, 2), issue, issue, run);
  }

  lemma PrependTwo(y: System, a: Action, b: Action, run: seq<Action>) returns (longer: seq<Action>)
    requires Allowed(y, a) && Gentle(y, a) && Allowed(Next(y, a), b) && Gentle(Next(y, a), b)
    requires GentleRun(Next(Next(y, a), b), run)
    ensures GentleRun(y, longer) && Reached(y, longer) == Reached(Next(Next(y, a), b), run)
  {
    Prepend(Next(y, a), b, run);
    Prepend(y, a, [b] + run);
    longer := [a] + ([b] + run);
  }
}
