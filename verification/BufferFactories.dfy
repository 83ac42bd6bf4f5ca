/** Matching allocation replies to requests (src/client/buffer_factory.cpp).  One vector of requests
    serves every buffer stream of a connection; it is shown to behave, over every run, as one
    first-in first-out queue per size. */
module BufferFactories {
  import opened Collections
  import opened Geometry

  datatype Kind = Software(format: int, usage: int) | Native(format: int, flags: int)

  /** An AllocationRequest; `context` identifies who asked. */
  datatype Request = Request(size: Size, kind: Kind, context: int, connection: int)

  /** A reply: its size, and whether the server reports an error. */
  datatype Reply = Reply(id: int, size: Size, failed: bool)

  datatype MirBuffer = MirBuffer(id: int, request: Request, failed: bool)

  datatype Factory = Factory(requests: seq<Request>, errorId: int)

  // ----- what the code does

  /** The first request of a size, or the end of the vector. */
  function IndexOf(requests: seq<Request>, size: Size): (i: nat)
    ensures i <= |requests|
    ensures i < |requests| ==> requests[i].size == size
    ensures forall k :: 0 <= k < i ==> requests[k].size != size
  {
    if requests == [] || requests[0].size == size then 0 else 1 + IndexOf(requests[1..], size)
  }

  /** generate_buffer; None is the exception "unrequested buffer received". */
  function Generate(f: Factory, reply: Reply): (Factory, Option<MirBuffer>) {
    var i := IndexOf(f.requests, reply.size);
    if i == |f.requests| then (f, None)
    else
      (Factory(f.requests[..i] + f.requests[i + 1..], if reply.failed then f.errorId - 1 else f.errorId),
       Some(MirBuffer(if reply.failed then f.errorId else reply.id, f.requests[i], reply.failed)))
  }

  function Without(requests: seq<Request>, context: int): seq<Request> {
    if requests == [] then []
    else (if requests[0].context != context then [requests[0]] else []) + Without(requests[1..], context)
  }

  /** Cancelling keeps every request of another context as often as it was there, and none of this
      one. */
  ghost predicate OthersAreKept(before: seq<Request>, after: seq<Request>, context: int) {
    forall r :: multiset(after)[r] == if r.context == context then 0 else multiset(before)[r]
  }

  lemma CancelKeepsOthers(requests: seq<Request>, context: int)
    ensures OthersAreKept(requests, Without(requests, context), context)
  {
    forall r
      ensures multiset(Without(requests, context))[r] == if r.context == context then 0 else multiset(requests)[r]
    {
      WithoutKeepsOthers(requests, context, r);
    }
  }

  lemma {:induction false} WithoutKeepsOthers(requests: seq<Request>, context: int, r: Request)
    ensures multiset(Without(requests, context))[r] == if r.context == context then 0 else multiset(requests)[r]
    decreases |requests|
  {
    if requests != [] {
      WithoutKeepsOthers(requests[1..], context, r);
      assert requests == [requests[0]] + requests[1..];
    }
  }

  /** The first sequence can be got from the second by striking elements out. */
  ghost predicate Subsequence(a: seq<Request>, b: seq<Request>)
    decreases |b|
  {
    if a == [] then true
    else b != [] && ((a[0] == b[0] && Subsequence(a[1..], b[1..])) || Subsequence(a, b[1..]))
  }

  /** And in the order they were. */
  lemma {:induction false} WithoutKeepsOrder(requests: seq<Request>, context: int)
    ensures Subsequence(Without(requests, context), requests)
    decreases |requests|
  {
    if requests != [] {
      WithoutKeepsOrder(requests[1..], context);
      if requests[0].context != context {
        assert Without(requests, context)[1..] == Without(requests[1..], context);
      } else {
        assert Without(requests, context) == Without(requests[1..], context);
      }
    }
  }

  class BufferFactory {
    var allocationRequests: seq<Request>
    var errorId: int

    ghost function View(): Factory
      reads this
    {
      Factory(allocationRequests, errorId)
    }

    constructor ()
      ensures View() == Factory([], -1)
    {
      allocationRequests, errorId := [], -1;
    }

    method ExpectBuffer(request: Request)
      modifies this`allocationRequests
      ensures allocationRequests == old(allocationRequests) + [request]
    {
      allocationRequests := allocationRequests + [request];
    }

    method GenerateBuffer(reply: Reply) returns (r: Option<MirBuffer>)
      modifies this
      ensures (View(), r) == Generate(old(View()), reply)
    {
      var it := 0;
      while it < |allocationRequests| && allocationRequests[it].size != reply.size
        invariant 0 <= it <= IndexOf(allocationRequests, reply.size)
      {
        it := it + 1;
      }
      if it == |allocationRequests| {
        return None;
      }
      var request := allocationRequests[it];
      if reply.failed {
        r := Some(MirBuffer(errorId, request, true));
        errorId := errorId - 1;
      } else {
        r := Some(MirBuffer(reply.id, request, false));
      }
      allocationRequests := allocationRequests[..it] + allocationRequests[it + 1..];
    }

    /** cancel_requests_with_context: the requests of this context go, every other stays, in order. */
    method CancelRequestsWithContext(context: int)
      modifies this`allocationRequests
      ensures allocationRequests == Without(old(allocationRequests), context)
      ensures OthersAreKept(old(allocationRequests), allocationRequests, context)
      ensures Subsequence(allocationRequests, old(allocationRequests))
    {
      CancelKeepsOthers(allocationRequests, context);
      WithoutKeepsOrder(allocationRequests, context);
      EraseCancelled(context);
    }

    /** The loop, erasing while iterating. */
    method EraseCancelled(context: int)
      modifies this`allocationRequests
      ensures allocationRequests == Without(old(allocationRequests), context)
    {
      var it := 0;
      while it < |allocationRequests|
        invariant 0 <= it <= |allocationRequests|
        invariant allocationRequests[..it] + Without(allocationRequests[it..], context)
                  == Without(old(allocationRequests), context)
        decreases |allocationRequests| - it
      {
        ghost var was := allocationRequests;
        assert was[it..][1..] == was[it + 1..];
        if allocationRequests[it].context == context {
          allocationRequests := allocationRequests[..it] + allocationRequests[it + 1..];
          assert allocationRequests[..it] == was[..it] && allocationRequests[it..] == was[it + 1..];
        } else {
          assert was[..it + 1] == was[..it] + [was[it]];
          it := it + 1;
        }
      }
      assert allocationRequests[..it] == allocationRequests;
    }
  }

  // ----- a queue per size

  /** The outstanding requests of one size, oldest first. */
  function OfSize(requests: seq<Request>, size: Size): (q: seq<Request>)
  {
    if requests == [] then []
    else (if requests[0].size == size then [requests[0]] else []) + OfSize(requests[1..], size)
  }

  lemma {:induction false} OfSizeConcat(a: seq<Request>, b: seq<Request>, size: Size)
    ensures OfSize(a + b, size) == OfSize(a, size) + OfSize(b, size)
    decreases |a|
  {
    if a == [] {
      assert a + b == b;
    } else {
      assert (a + b)[0] == a[0] && (a + b)[1..] == a[1..] + b;
      OfSizeConcat(a[1..], b, size);
    }
  }

  lemma OfSizeOfOne(r: Request, size: Size)
    ensures OfSize([r], size) == (if r.size == size then [r] else []) && OfSize([], size) == []
  {
    assert [r][1..] == [];
  }

  lemma {:induction false} NoneOfSize(requests: seq<Request>, size: Size)
    requires forall k :: 0 <= k < |requests| ==> requests[k].size != size
    ensures OfSize(requests, size) == []
    decreases |requests|
  {
    if requests != [] {
      NoneOfSize(requests[1..], size);
    }
  }

  lemma OfSizeAround(requests: seq<Request>, i: nat, size: Size)
    requires i < |requests|
    ensures OfSize(requests, size) == OfSize(requests[..i], size) + OfSize([requests[i]], size) + OfSize(requests[i + 1..], size)
    ensures OfSize(requests[..i] + requests[i + 1..], size) == OfSize(requests[..i], size) + OfSize(requests[i + 1..], size)
  {
    assert requests == requests[..i] + [requests[i]] + requests[i + 1..];
    OfSizeConcat(requests[..i] + [requests[i]], requests[i + 1..], size);
    OfSizeConcat(requests[..i], [requests[i]], size);
    OfSizeConcat(requests[..i], requests[i + 1..], size);
  }

  /** A reply consumes the oldest outstanding request of its size and leaves the other sizes alone;
      it is refused exactly when there is none. */
  lemma GenerateServesOldest(f: Factory, reply: Reply, size: Size)
    ensures var (f', r) := Generate(f, reply);
            var q := OfSize(f.requests, reply.size);
            && (r.None? <==> q == [])
            && (r.None? ==> f' == f)
            && (r.Some? ==> r.value.request == q[0] && OfSize(f'.requests, reply.size) == q[1..])
            && (size != reply.size ==> OfSize(f'.requests, size) == OfSize(f.requests, size))
  {
    var i := IndexOf(f.requests, reply.size);
    NoneOfSize(f.requests[..i], reply.size);
    if i < |f.requests| {
      OfSizeAround(f.requests, i, reply.size);
      OfSizeAround(f.requests, i, size);
      assert OfSize([f.requests[i]], reply.size) == [f.requests[i]];
    } else {
      assert f.requests[..i] == f.requests;
    }
  }

  /** A queue's requests whose owner has not cancelled, counted from the newest. */
  ghost function Surviving(queue: seq<Request>, cancelled: int): seq<Request> {
    if queue == [] then []
    else
      var newest := queue[|queue| - 1];
      var older := Surviving(queue[..|queue| - 1], cancelled);
      if newest.context == cancelled then older else older + [newest]
  }

  lemma {:induction false} SurvivingFirst(r: Request, queue: seq<Request>, cancelled: int)
    ensures Surviving([r] + queue, cancelled) == (if r.context == cancelled then [] else [r]) + Surviving(queue, cancelled)
    decreases |queue|
  {
    var whole := [r] + queue;
    if queue == [] {
      assert whole == [r] && [r][..0] == [];
    } else {
      assert whole[..|whole| - 1] == [r] + queue[..|queue| - 1];
      SurvivingFirst(r, queue[..|queue| - 1], cancelled);
    }
  }

  /** Cancelling removes from each queue exactly the requests with that context, keeping order. */
  lemma {:induction false} CancelEachQueue(requests: seq<Request>, context: int, size: Size)
    ensures OfSize(Without(requests, context), size) == Surviving(OfSize(requests, size), context)
    decreases |requests|
  {
    if requests != [] {
      var r, rest := requests[0], requests[1..];
      var queue := OfSize(rest, size);
      CancelEachQueue(rest, context, size);
      var kept := if r.context != context then [r] else [];
      assert Without(requests, context) == kept + Without(rest, context);
      OfSizeConcat(kept, Without(rest, context), size);
      OfSizeOfOne(r, size);
      if r.size == size {
        SurvivingFirst(r, queue, context);
        assert OfSize(requests, size) == [r] + queue;
      } else {
        assert OfSize(requests, size) == queue;
      }
    }
  }

  // ----- every run

  datatype Call = Expect(request: Request) | Receive(reply: Reply) | Cancel(context: int)

  function Perform(f: Factory, call: Call): (Factory, Option<MirBuffer>) {
    match call
    case Expect(request) => (f.(requests := f.requests + [request]), None)
    case Receive(reply) => Generate(f, reply)
    case Cancel(context) => (f.(requests := Without(f.requests, context)), None)
  }

  /** What each call of a run returns. */
  ghost function Returned(f: Factory, calls: seq<Call>): (r: seq<Option<MirBuffer>>)
    ensures |r| == |calls|
    decreases |calls|
  {
    if calls == [] then []
    else
      var (f', r) := Perform(f, calls[0]);
      [r] + Returned(f', calls[1..])
  }

  /** The specification: queues that know nothing of each other. */
  datatype Queues = Queues(of: Size -> seq<Request>, errorId: int)

  ghost function PerformOnQueues(q: Queues, call: Call): (Queues, Option<MirBuffer>) {
    match call
    case Expect(request) =>
      (q.(of := size => q.of(size) + if size == request.size then [request] else []), None)
    case Receive(reply) =>
      var waiting := q.of(reply.size);
      if waiting == [] then (q, None)
      else (Queues(size => if size == reply.size then waiting[1..] else q.of(size),
                   if reply.failed then q.errorId - 1 else q.errorId),
            Some(MirBuffer(if reply.failed then q.errorId else reply.id, waiting[0], reply.failed)))
    case Cancel(context) => (q.(of := size => Surviving(q.of(size), context)), None)
  }

  ghost function ReturnedByQueues(q: Queues, calls: seq<Call>): seq<Option<MirBuffer>>
    decreases |calls|
  {
    if calls == [] then []
    else
      var (q', r) := PerformOnQueues(q, calls[0]);
      [r] + ReturnedByQueues(q', calls[1..])
  }

  ghost predicate Represents(f: Factory, q: Queues) {
    f.errorId == q.errorId && forall size :: q.of(size) == OfSize(f.requests, size)
  }

  lemma CallRefines(f: Factory, q: Queues, call: Call)
    requires Represents(f, q)
    ensures Perform(f, call).1 == PerformOnQueues(q, call).1
    ensures Represents(Perform(f, call).0, PerformOnQueues(q, call).0)
  {
    var (f', r) := Perform(f, call);
    var (q', r') := PerformOnQueues(q, call);
    forall size: Size
      ensures r == r' && f'.errorId == q'.errorId && q'.of(size) == OfSize(f'.requests, size)
    {
      match call
      case Expect(request) => OfSizeConcat(f.requests, [request], size);
      case Receive(reply) => GenerateServesOldest(f, reply, size);
      case Cancel(context) => CancelEachQueue(f.requests, context, size);
    }
    var any := Size(0, 0);
    assert q'.of(any) == OfSize(f'.requests, any);
  }

  /** Over every run the factory returns what the independent queues return. */
  lemma {:induction false} FactoryRefinesQueues(f: Factory, q: Queues, calls: seq<Call>)
    requires Represents(f, q)
    ensures Returned(f, calls) == ReturnedByQueues(q, calls)
    decreases |calls|
  {
    if calls != [] {
      CallRefines(f, q, calls[0]);
      FactoryRefinesQueues(Perform(f, calls[0]).0, PerformOnQueues(q, calls[0]).0, calls[1..]);
    }
  }

  // ----- error ids

  lemma {:induction false} ErrorIdsBelow(f: Factory, calls: seq<Call>, i: nat)
    requires i < |calls| && Returned(f, calls)[i].Some? && Returned(f, calls)[i].value.failed
    ensures Returned(f, calls)[i].value.id <= f.errorId
    decreases |calls|
  {
    if i > 0 {
      ErrorIdsBelow(Perform(f, calls[0]).0, calls[1..], i - 1);
    }
  }

  /** In every run from a new factory, ids given to failed buffers are negative, and each is
      smaller than every earlier one, so no two are equal. */
  lemma {:induction false} ErrorIdsDecrease(f: Factory, calls: seq<Call>, i: nat, j: nat)
    requires i < j < |calls|
    requires var r := Returned(f, calls); r[i].Some? && r[i].value.failed && r[j].Some? && r[j].value.failed
    ensures Returned(f, calls)[j].value.id < Returned(f, calls)[i].value.id <= f.errorId
    decreases |calls|
  {
    var f' := Perform(f, calls[0]).0;
    ErrorIdsBelow(f, calls, i);
    if i == 0 {
      ErrorIdsBelow(f', calls[1..], j - 1);
    } else {
      ErrorIdsDecrease(f', calls[1..], i - 1, j - 1);
    }
  }
}
