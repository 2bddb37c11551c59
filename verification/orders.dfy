/** Completed orders and the processing queue (`Order`, `OrderQueue` in
    DSA.cpp). The linked queue is a sequence whose index 0 is the front
    node and whose last element is the rear node. */
module Orders {
  import opened Wrappers
  import opened Cart

  /** An order as checkout builds it: its id, the cart snapshot and the
      final total. */
  datatype Order = Order(orderId: int, items: Cart, total: real)

  type Queue = seq<Order>

  /** The order `displayFront` shows, or None when the queue is empty. */
  function Front(q: Queue): (r: Option<Order>)
    ensures r.None? <==> |q| == 0
    ensures r.Some? ==> r.value == q[0]
  {
    if |q| == 0 then None else Some(q[0])
  }

  /** `enqueue`: the order joins at the rear. It becomes the front only
      when the queue was empty; otherwise the front is unchanged. */
  function Enqueue(q: Queue, o: Order): (r: Queue)
    ensures |r| == |q| + 1 && r[|q|] == o && r[..|q|] == q
    ensures Front(r) == (if |q| == 0 then Some(o) else Front(q))
  {
    q + [o]
  }

  /** `dequeue`: false on an empty queue; otherwise the front order leaves
      and everything behind it moves up one place. */
  function Dequeue(q: Queue): (r: (Queue, bool))
    ensures r.1 <==> |q| > 0
    ensures r.1 ==> |r.0| == |q| - 1 && forall k :: 0 <= k < |r.0| ==> r.0[k] == q[k + 1]
    ensures !r.1 ==> r.0 == q
  {
    if |q| == 0 then (q, false) else (q[1..], true)
  }

  /** The orders in the order that repeated `displayFront` and `dequeue`
      hand them out until the queue is empty. */
  function Drain(q: Queue): seq<Order>
    decreases |q|
  {
    match Front(q)
    case None => []
    case Some(o) => [o] + Drain(Dequeue(q).0)
  }

  /** Enqueues `os`, first to last. */
  function EnqueueAll(q: Queue, os: seq<Order>): Queue
    decreases |os|
  {
    if |os| == 0 then q else EnqueueAll(Enqueue(q, os[0]), os[1..])
  }

  /** An order enqueued now comes out after everything already waiting. */
  lemma {:induction false} DrainEnqueue(q: Queue, o: Order)
    ensures Drain(Enqueue(q, o)) == Drain(q) + [o]
    decreases |q|
  {
    if |q| == 0 {
      assert Dequeue(Enqueue(q, o)).0 == [];
    } else {
      assert Dequeue(Enqueue(q, o)).0 == Enqueue(Dequeue(q).0, o);
      DrainEnqueue(Dequeue(q).0, o);
    }
  }

  /** FIFO: orders leave the queue in exactly the order they were enqueued,
      after those already waiting. */
  lemma {:induction false} FifoOrder(q: Queue, os: seq<Order>)
    ensures Drain(EnqueueAll(q, os)) == Drain(q) + os
    decreases |os|
  {
    if |os| > 0 {
      FifoOrder(Enqueue(q, os[0]), os[1..]);
      DrainEnqueue(q, os[0]);
      assert [os[0]] + os[1..] == os;
    }
  }
}
