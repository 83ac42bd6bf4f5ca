/** What each section of src/client/buffer_vault.cpp does to the whole state, written out in the
    fields themselves.  The protocol is built from small moves; here each operation is described
    without them, so that a move that did something else would be noticed. */
module VaultEffects {
  import opened Collections
  import opened Geometry
  import opened Books
  import opened VaultProtocol
  import opened VaultInvariant
  import opened VaultGuarantees

  /** A buffer of ours with, or without, the vault's size. */
  ghost predicate OursOfSize(s: State, id: int, fits: bool) {
    && id in s.books.ledger && s.books.ledger[id] == Self
    && id in s.books.surfaceMap && (s.books.surfaceMap[id].size == s.size <==> fits)
  }

  // ----- withdraw

  lemma FitsIsUsable(s: State)
    ensures Usable(s.books, s.size) != {} <==> exists id :: OursOfSize(s, id, true)
  {
    if Usable(s.books, s.size) != {} {
      var id := SomeElement(Usable(s.books, s.size));
      assert OursOfSize(s, id, true);
    }
    if id :| OursOfSize(s, id, true) {
      assert id in Usable(s.books, s.size);
    }
  }

  lemma CleanUpLeaves(s: State)
    ensures var c := CleanUp(s);
            && (forall id :: id in c.books.ledger <==> id in s.books.ledger && !OursOfSize(s, id, false))
            && (forall id :: id in c.books.ledger ==> c.books.ledger[id] == s.books.ledger[id])
            && (forall id :: id in c.books.freeing <==> id in s.books.freeing || OursOfSize(s, id, false))
            && Usable(c.books, s.size) == Usable(s.books, s.size)
  {
    var c := CleanUp(s);
    assert forall id :: id in Stale(s.books, s.size) <==> OursOfSize(s, id, false);
    assert forall id :: id in Usable(c.books, s.size) <==> id in Usable(s.books, s.size);
  }

  /** Which entries withdraw takes out of the ledger and frees: ours of the wrong size. */
  lemma WithdrawFreesMisfits(s: State)
    requires Inv(s) && !s.disconnected
    ensures var t := Step(s, Withdraw);
            && (forall id :: id in t.books.ledger <==> id in s.books.ledger && !OursOfSize(s, id, false))
            && (forall id :: id in t.books.freeing <==> id in s.books.freeing || OursOfSize(s, id, false))
  {
    NoInternalFault(s, Withdraw);
    CleanUpLeaves(s);
  }

  /** Whether it is served: at once, with a fitting buffer of ours, exactly when there is one;
      otherwise it joins the queue, and one is ordered exactly if there are fewer than needed. */
  lemma WithdrawServesOrQueues(s: State)
    requires Inv(s) && !s.disconnected
    ensures var t := Step(s, Withdraw);
            && t.queue.tickets == s.queue.tickets + 1
            && (if exists id :: OursOfSize(s, id, true) then
                  && s.queue.tickets in t.queue.granted
                  && t.queue.promises == s.queue.promises && t.pool.committed == s.pool.committed
                  && var id := t.queue.granted[s.queue.tickets];
                     && OursOfSize(s, id, true) && t.queue.granted == s.queue.granted[s.queue.tickets := id]
                     && id in t.books.ledger && t.books.ledger[id] == ContentProducer
                     && forall v :: v in t.books.ledger && v != id ==> v in s.books.ledger && t.books.ledger[v] == s.books.ledger[v]
                else
                  && t.queue.promises == s.queue.promises + [s.queue.tickets] && t.queue.granted == s.queue.granted
                  && (forall v :: v in t.books.ledger ==> v in s.books.ledger && t.books.ledger[v] == s.books.ledger[v])
                  && (|| (t.pool.committed == s.pool.committed && t.pool.current >= s.pool.needed)
                      || (t.pool.committed == s.pool.committed + multiset{OfSize(s.size)} && t.pool.current <= s.pool.needed)))
  {
    NoInternalFault(s, Withdraw);
    CleanUpLeaves(s);
    FitsIsUsable(s);
  }

  /** What withdraw leaves alone; once disconnected, everything. */
  lemma WithdrawLeavesAlone(s: State)
    ensures var t := Step(s, Withdraw);
            && t == s.(books := s.books.(ledger := t.books.ledger, freeing := t.books.freeing),
                       pool := s.pool.(current := t.pool.current, committed := t.pool.committed), queue := t.queue)
            && (s.disconnected ==> t == s)
  {
  }

  // ----- wire_transfer_inbound

  /** A buffer that comes in and is not wanted: it goes to be freed; the count falls if it was surplus,
      and otherwise one is ordered, of the size the vault will have when the order goes out. */
  lemma InboundTurnsAway(s: State, id: int)
    requires Inv(s) && id in s.books.arriving && id in s.books.surfaceMap
    requires (id in s.books.ledger && s.pool.current > s.pool.needed) || s.books.surfaceMap[id].size != s.size
    ensures var surplus := id in s.books.ledger && s.pool.current > s.pool.needed;
            Step(s, Inbound(id)) ==
            s.(lastReceived := id,
               books := s.books.(ledger := s.books.ledger - {id}, arriving := s.books.arriving - {id},
                                 freeing := s.books.freeing + {id}),
               pool := if surplus then s.pool.(current := s.pool.current - 1)
                       else s.pool.(committed := s.pool.committed + multiset{OfSizeWhenIssued}))
  {
  }

  /** One that is wanted: it is the oldest waiter's, or ours if nobody waits; and the pending callback
      is taken out to be run. */
  lemma InboundKeepsIt(s: State, id: int)
    requires Inv(s) && id in s.books.arriving && id in s.books.surfaceMap
    requires !(id in s.books.ledger && s.pool.current > s.pool.needed) && s.books.surfaceMap[id].size == s.size
    ensures var t := Step(s, Inbound(id));
            && t == s.(lastReceived := id, queue := t.queue, calls := t.calls,
                       books := s.books.(ledger := t.books.ledger, arriving := s.books.arriving - {id}))
            && t.books.ledger == s.books.ledger[id := if s.queue.promises == [] then Self else ContentProducer]
            && (s.queue.promises == [] ==> t.queue == s.queue)
            && (s.queue.promises != [] ==>
                  && t.queue.promises == s.queue.promises[1..] && t.queue.tickets == s.queue.tickets
                  && t.queue.granted == s.queue.granted[s.queue.promises[0] := id])
            && t.calls.deferred == None && t.calls == s.calls.(deferred := None, taken := t.calls.taken)
            && t.calls.taken == s.calls.taken
                                + if s.calls.deferred.Some? then multiset{s.calls.deferred.value} else multiset{}
  {
  }

  // ----- the producer's other calls

  /** deposit, the two sections of wire_transfer_outbound around submitted(), for a buffer that is where
      it should be. */
  lemma ProducerHandsOver(s: State, id: int)
    requires Inv(s) && id in s.books.ledger
    ensures s.books.ledger[id] == ContentProducer ==>
              Step(s, Deposit(id)) == s.(books := s.books.(ledger := s.books.ledger[id := SelfWithContent]))
    ensures s.books.ledger[id] == SelfWithContent ==>
              Step(s, Transfer(id)) == s.(books := s.books.(ledger := s.books.ledger[id := Server],
                                                            submitting := s.books.submitting + {id}))
    ensures id in s.books.submitting ==>
              && id in s.books.surfaceMap
              && Step(s, Submit(id)) ==
                 s.(books := s.books.(surfaceMap := s.books.surfaceMap[id := Buffer(s.books.surfaceMap[id].size, false)],
                                      submitting := s.books.submitting - {id}, serverHeld := s.books.serverHeld + {id}))
  {
    assert id in s.books.surfaceMap;
  }

  /** A call for a buffer that is somewhere else throws and changes nothing. */
  lemma MisplacedCallsThrow(s: State, id: int)
    requires !(id in s.books.ledger && s.books.ledger[id] == ContentProducer)
    ensures Fault(s, Deposit(id)) == Some(CannotDeposit) && Step(s, Deposit(id)) == s
    ensures !(id in s.books.ledger && s.books.ledger[id] == SelfWithContent) ==>
              Fault(s, Transfer(id)) == Some(CannotTransfer) && Step(s, Transfer(id)) == s
  {
  }

  // ----- set_interval

  /** To the interval it has: nothing.  To zero: one more is needed, counted and ordered.  To any other:
      as many as at first are needed, and surplus goes back. */
  lemma SetIntervalSteps(s: State, i: int)
    ensures i == s.pool.interval ==> Step(s, SetInterval(i)) == s
    ensures i == 0 && s.pool.interval != 0 ==>
              Step(s, SetInterval(i)) ==
              s.(pool := s.pool.(interval := 0, current := s.pool.current + 1, needed := s.pool.needed + 1,
                                 committed := s.pool.committed + multiset{OfSizeWhenIssued}))
    ensures i != 0 && i != s.pool.interval ==>
              GivesBack(s.(pool := s.pool.(interval := i, needed := s.pool.initial)), Step(s, SetInterval(i)))
  {
    if i != 0 && i != s.pool.interval {
      IntervalPassGivesBack(s, i);
    }
  }

  lemma IntervalPassGivesBack(s: State, i: int)
    requires i != 0 && i != s.pool.interval
    ensures GivesBack(s.(pool := s.pool.(interval := i, needed := s.pool.initial)), Step(s, SetInterval(i)))
  {
    var t := s.(pool := s.pool.(interval := i, needed := s.pool.initial));
    PassGivesBack(t);
    assert Step(s, SetInterval(i)) == ShrinkPass(t);
  }

  /** One pass: while more are counted than needed, the one of ours with the least id goes to be freed,
      and there will be another pass. */
  ghost predicate GivesBack(s: State, t: State) {
    if s.pool.current > s.pool.needed && exists id :: id in s.books.ledger && s.books.ledger[id] == Self then
      exists least :: (
        && least in s.books.ledger && s.books.ledger[least] == Self
        && (forall id :: id in s.books.ledger && s.books.ledger[id] == Self ==> least <= id)
        && t == s.(books := s.books.(ledger := s.books.ledger - {least}, freeing := s.books.freeing + {least}),
                   pool := s.pool.(current := s.pool.current - 1, shrinkers := s.pool.shrinkers + 1)))
    else t == s
  }

  lemma PassGivesBack(s: State)
    ensures GivesBack(s, ShrinkPass(s))
  {
    var ours := OwnedBy(s.books, Self);
    if ours != {} {
      var least := Least(ours);
      assert least in s.books.ledger && s.books.ledger[least] == Self;
      assert forall id :: id in s.books.ledger && s.books.ledger[id] == Self ==> id in ours;
    } else {
      assert forall id :: id in s.books.ledger && s.books.ledger[id] == Self ==> id in ours;
    }
  }

  lemma ShrinkGivesBack(s: State)
    requires s.pool.shrinkers > 0
    ensures GivesBack(s.(pool := s.pool.(shrinkers := s.pool.shrinkers - 1)), Step(s, Shrink))
  {
    PassGivesBack(s.(pool := s.pool.(shrinkers := s.pool.shrinkers - 1)));
  }

  // ----- the rest

  /** An order goes out for the size it was made for, or for the size the vault has now. */
  lemma OrdersGoOut(s: State, size: Size)
    ensures Step(s, IssueAllocation(OfSize(size))).pool ==
            s.pool.(committed := s.pool.committed - multiset{OfSize(size)}, requests := s.pool.requests + multiset{size})
    ensures Step(s, IssueAllocation(OfSizeWhenIssued)).pool ==
            s.pool.(committed := s.pool.committed - multiset{OfSizeWhenIssued},
                    requests := s.pool.requests + multiset{s.size})
  {
  }

  /** A resize changes the size; losing the connection empties the queue and takes out the callback;
      waiting takes back what was received. */
  lemma OtherCalls(s: State, size: Size)
    ensures Step(s, Resize(size)) == s.(size := size)
    ensures var t := Step(s, Disconnect);
            && t.disconnected && t.queue == s.queue.(promises := []) && t.calls.deferred == None
            && t == s.(disconnected := true, queue := t.queue, calls := t.calls)
            && t.calls == s.calls.(deferred := None, taken := t.calls.taken)
            && t.calls.taken == s.calls.taken
                                + if s.calls.deferred.Some? then multiset{s.calls.deferred.value} else multiset{}
    ensures s.calls.received == s.calls.expecting ==>
              Step(s, WaitForAll) == s.(calls := s.calls.(expecting := 0, received := 0))
    ensures Step(s, WaitForOne) ==
            s.(calls := s.calls.(expecting := s.calls.expecting - 1, received := s.calls.received - 1))
  {
  }
}
