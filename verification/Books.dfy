/** Who holds which buffer: the vault's ledger, the surface map of the connection, and the
    buffers that are between two owners (src/client/buffer_vault.cpp, src/client/buffer.cpp,
    src/client/connection_surface_map.cpp). */
module Books {
  import opened Collections
  import opened Geometry

  datatype Owner = Server | Self | ContentProducer | SelfWithContent

  /** A client buffer: its size and the flag that src/client/buffer.cpp keeps. */
  datatype Buffer = Buffer(size: Size, owned: bool)

  datatype Books = Books(
    ledger: map<int, Owner>,       // the vault's `buffers`
    surfaceMap: map<int, Buffer>,  // this vault's part of the surface map
    arriving: set<int>,            // received() done, callback not yet inside the vault's mutex
    freeing: set<int>,             // out of the ledger, free_buffer not yet called
    submitting: set<int>,          // marked Server, submitted() not yet called
    serverHeld: set<int>           // submitted and not returned
  )

  function OwnedBy(b: Books, o: Owner): set<int> {
    set id | id in b.ledger && b.ledger[id] == o
  }

  /** The buffers the vault counts as existing: in its ledger, or arriving at it. */
  function Tracked(b: Books): set<int> {
    b.ledger.Keys + b.arriving
  }

  /** The surface map holds exactly the buffers somebody will still look up, the ledger says
      `Server` exactly for those on the server's side, and a buffer is unowned exactly while the
      server holds it. */
  ghost predicate Accounted(b: Books) {
    && (forall id :: id in b.surfaceMap <==> id in b.ledger || id in b.arriving || id in b.freeing)
    && (forall id :: id in b.freeing ==> id !in b.ledger && id !in b.arriving)
    && (forall id :: id in b.submitting ==> id in b.ledger && id !in b.serverHeld && id !in b.arriving)
    && (forall id :: id in b.serverHeld ==> id in b.ledger && id !in b.arriving)
    && (forall id :: id in b.ledger ==>
          (b.ledger[id] == Server <==> id in b.submitting || id in b.serverHeld || id in b.arriving))
    && (forall id :: id in b.surfaceMap ==> (b.surfaceMap[id].owned <==> id !in b.serverHeld))
  }

  // ----- the moves

  /** A buffer changes hands on the client's side. */
  function Reown(b: Books, id: int, o: Owner): Books {
    b.(ledger := b.ledger[id := o])
  }

  /** Buffers of ours leave the ledger and will be freed. */
  function Evict(b: Books, ids: set<int>): Books {
    b.(ledger := b.ledger - ids, freeing := b.freeing + ids)
  }

  /** A buffer that arrived enters the ledger, or stays in it, as ours. */
  function Accept(b: Books, id: int): Books {
    b.(ledger := b.ledger[id := Self], arriving := b.arriving - {id})
  }

  /** A buffer that arrived is turned away and will be freed. */
  function Reject(b: Books, id: int): Books {
    b.(ledger := b.ledger - {id}, arriving := b.arriving - {id}, freeing := b.freeing + {id})
  }

  function MarkForServer(b: Books, id: int): Books {
    b.(ledger := b.ledger[id := Server], submitting := b.submitting + {id})
  }

  /** Buffer::submitted followed by submit_buffer. */
  function SendToServer(b: Books, id: int): Books
    requires id in b.surfaceMap
  {
    b.(surfaceMap := b.surfaceMap[id := b.surfaceMap[id].(owned := false)],
       submitting := b.submitting - {id}, serverHeld := b.serverHeld + {id})
  }

  /** free_buffer: the server is told, then the surface map forgets the id. */
  function Forget(b: Books, id: int): Books {
    b.(surfaceMap := b.surfaceMap - {id}, freeing := b.freeing - {id})
  }

  /** A new buffer is inserted in the surface map and marked received. */
  function AddFromServer(b: Books, id: int, size: Size): Books {
    b.(surfaceMap := b.surfaceMap[id := Buffer(size, true)], arriving := b.arriving + {id})
  }

  /** A buffer comes back and is marked received. */
  function ReturnFromServer(b: Books, id: int): Books
    requires id in b.surfaceMap
  {
    b.(surfaceMap := b.surfaceMap[id := b.surfaceMap[id].(owned := true)],
       serverHeld := b.serverHeld - {id}, arriving := b.arriving + {id})
  }

  // ----- what each move does to the accounts

  lemma ReownKeeps(b: Books, id: int, o: Owner)
    requires Accounted(b) && id in b.ledger && b.ledger[id] != Server && o != Server
    ensures Accounted(Reown(b, id, o)) && Tracked(Reown(b, id, o)) == Tracked(b)
  {
  }

  lemma EvictAccounts(b: Books, ids: set<int>)
    requires Accounted(b) && ids <= OwnedBy(b, Self)
    ensures Accounted(Evict(b, ids))
  {
    assert forall id :: id in ids ==> id in OwnedBy(b, Self);
  }

  lemma EvictTracked(b: Books, ids: set<int>)
    requires Accounted(b) && ids <= OwnedBy(b, Self)
    ensures |Tracked(Evict(b, ids))| == |Tracked(b)| - |ids|
  {
    forall id | id in ids
      ensures id in b.ledger && id !in b.arriving
    {
      assert id in OwnedBy(b, Self);
    }
    assert (b.ledger - ids).Keys == b.ledger.Keys - ids;
    UnionWithout(b.ledger.Keys, b.arriving, ids);
  }

  lemma EvictKeeps(b: Books, ids: set<int>)
    requires Accounted(b) && ids <= OwnedBy(b, Self)
    ensures Accounted(Evict(b, ids)) && |Tracked(Evict(b, ids))| == |Tracked(b)| - |ids|
  {
    EvictAccounts(b, ids);
    EvictTracked(b, ids);
  }

  lemma AcceptKeeps(b: Books, id: int)
    requires Accounted(b) && id in b.arriving
    ensures Accounted(Accept(b, id)) && Tracked(Accept(b, id)) == Tracked(b)
  {
  }

  lemma RejectAccounts(b: Books, id: int)
    requires Accounted(b) && id in b.arriving
    ensures Accounted(Reject(b, id))
  {
  }

  lemma RejectTracked(b: Books, id: int)
    requires id in b.arriving
    ensures |Tracked(Reject(b, id))| == |Tracked(b)| - 1
  {
    assert Tracked(Reject(b, id)) == Tracked(b) - {id};
  }

  lemma RejectKeeps(b: Books, id: int)
    requires Accounted(b) && id in b.arriving
    ensures Accounted(Reject(b, id)) && |Tracked(Reject(b, id))| == |Tracked(b)| - 1
  {
    RejectAccounts(b, id);
    RejectTracked(b, id);
  }

  lemma MarkKeeps(b: Books, id: int)
    requires Accounted(b) && id in b.ledger && b.ledger[id] != Server
    ensures Accounted(MarkForServer(b, id)) && Tracked(MarkForServer(b, id)) == Tracked(b)
  {
  }

  lemma SendKeeps(b: Books, id: int)
    requires Accounted(b) && id in b.submitting
    ensures id in b.surfaceMap
    ensures Accounted(SendToServer(b, id)) && Tracked(SendToServer(b, id)) == Tracked(b)
  {
    assert id in b.ledger;
  }

  lemma ForgetKeeps(b: Books, id: int)
    requires Accounted(b) && id in b.freeing
    ensures Accounted(Forget(b, id)) && Tracked(Forget(b, id)) == Tracked(b)
  {
  }

  lemma AddKeeps(b: Books, id: int, size: Size)
    requires Accounted(b) && id !in b.surfaceMap
    ensures Accounted(AddFromServer(b, id, size))
    ensures |Tracked(AddFromServer(b, id, size))| == |Tracked(b)| + 1
  {
    assert Tracked(AddFromServer(b, id, size)) == Tracked(b) + {id} && id !in Tracked(b);
  }

  lemma ReturnKeeps(b: Books, id: int)
    requires Accounted(b) && id in b.serverHeld
    ensures id in b.surfaceMap
    ensures Accounted(ReturnFromServer(b, id)) && Tracked(ReturnFromServer(b, id)) == Tracked(b)
  {
    assert id in b.ledger;
  }

  /** Where the surface map's ids are, as sets. */
  lemma MapIsAccounted(b: Books)
    requires Accounted(b)
    ensures b.surfaceMap.Keys == b.ledger.Keys + b.arriving + b.freeing
    ensures forall id :: id in b.freeing ==> id !in b.ledger && id !in b.arriving
  {
    assert forall id :: id in b.surfaceMap.Keys <==> id in b.ledger.Keys + b.arriving + b.freeing;
  }

  /** Whose buffers are owned. */
  lemma FlagIsAccounted(b: Books)
    requires Accounted(b)
    ensures forall id :: id in b.ledger && b.ledger[id] != Server ==> id in b.surfaceMap && b.surfaceMap[id].owned
    ensures forall id :: id in b.surfaceMap && !b.surfaceMap[id].owned ==> id in b.ledger && b.ledger[id] == Server
  {
  }
}
