/** The ring buffer of clients waiting for a worker: SocketsSS/TaskThree/server.c.

    `Ring` is the value the globals client_queue, queue_front, queue_rear and
    queue_count hold between two critical sections. `WaitingRoom` is the same
    storage as the source keeps it, an array updated in place. */
module ClientQueue {

  datatype Item = Item(fd: nat, message: string)

  datatype Ring = Ring(slots: seq<Item>, front: nat, rear: nat, count: nat)

  /** Position reached from index i < n after k <= n steps round a ring of n slots. */
  function Wrap(i: nat, k: nat, n: nat): (r: nat)
    requires i < n && k <= n
    ensures r < n
    ensures r == i + k || r == i + k - n
  {
    if i + k < n then i + k else i + k - n
  }

  /** The source writes (i + 1) % QUEUE_SIZE. */
  lemma NextIsWrap(i: nat, n: nat)
    requires i < n
    ensures (i + 1) % n == Wrap(i, 1, n)
  {
    if i + 1 < n {
      assert (i + 1) % n == i + 1;
    } else {
      assert i + 1 == n && n % n == 0;
    }
  }

  ghost predicate WellFormed(r: Ring) {
    && r.front < |r.slots|
    && r.count <= |r.slots|
    && r.rear == Wrap(r.front, r.count, |r.slots|)
  }

  /** The first k entries from the front, oldest first. */
  function Entries(slots: seq<Item>, front: nat, k: nat): (q: seq<Item>)
    requires front < |slots| && k <= |slots|
    ensures |q| == k
    ensures forall j :: 0 <= j < k ==> q[j] == slots[Wrap(front, j, |slots|)]
  {
    seq(k, j requires 0 <= j < k => slots[Wrap(front, j, |slots|)])
  }

  ghost function Contents(r: Ring): seq<Item>
    requires WellFormed(r)
  {
    Entries(r.slots, r.front, r.count)
  }

  /** Writing the slot at the rear changes none of the waiting entries. */
  lemma RearIsFree(slots: seq<Item>, front: nat, k: nat, x: Item)
    requires front < |slots| && k < |slots|
    ensures var rear := Wrap(front, k, |slots|);
            Entries(slots[rear := x], front, k) == Entries(slots, front, k)
  {
  }

  /** Counting the slot at the rear in appends it. */
  lemma CountingInAppends(slots: seq<Item>, front: nat, k: nat)
    requires front < |slots| && k < |slots|
    ensures Entries(slots, front, k + 1)
         == Entries(slots, front, k) + [slots[Wrap(front, k, |slots|)]]
  {
  }

  /** Moving the front index on drops the oldest entry and keeps the rest in order. */
  lemma AdvancingDropsOldest(slots: seq<Item>, front: nat, k: nat)
    requires front < |slots| && 0 < k <= |slots|
    ensures Entries(slots, front, k)
         == [slots[front]] + Entries(slots, Wrap(front, 1, |slots|), k - 1)
  {
    var n := |slots|;
    forall j | 0 <= j < k - 1
      ensures Wrap(Wrap(front, 1, n), j, n) == Wrap(front, j + 1, n)
    {
    }
  }

  /** Advancing the front leaves the rear where it was. */
  lemma AdvancingKeepsRear(front: nat, k: nat, n: nat)
    requires front < n && 0 < k <= n
    ensures Wrap(Wrap(front, 1, n), k - 1, n) == Wrap(front, k, n)
  {
  }

  class WaitingRoom {
    const clientQueue: array<Item>
    var queueFront: nat
    var queueRear: nat
    var queueCount: nat

    ghost function View(): Ring
      reads this, clientQueue
    {
      Ring(clientQueue[..], queueFront, queueRear, queueCount)
    }

    ghost predicate Valid()
      reads this, clientQueue
    {
      WellFormed(View())
    }

    constructor (queueSize: nat)
      requires 0 < queueSize
      ensures Valid() && fresh(clientQueue) && clientQueue.Length == queueSize
      ensures Contents(View()) == []
    {
      clientQueue := new Item[queueSize](_ => Item(0, ""));
      queueFront, queueRear, queueCount := 0, 0, 0;
    }

    /** enqueue_client between lock and unlock; `accepted` is false on the branch
        that answers "Queue full" and closes the connection. */
    method Enqueue(fd: nat, message: string) returns (accepted: bool)
      requires Valid()
      modifies this, clientQueue
      ensures Valid()
      ensures accepted == (old(queueCount) < clientQueue.Length)
      ensures Contents(View()) == if accepted then old(Contents(View())) + [Item(fd, message)]
                                  else old(Contents(View()))
      ensures queueFront == old(queueFront)
      ensures !accepted ==> View() == old(View())
    {
      accepted := queueCount < clientQueue.Length;
      if accepted {
        ghost var before := clientQueue[..];
        clientQueue[queueRear] := clientQueue[queueRear].(fd := fd);
        clientQueue[queueRear] := clientQueue[queueRear].(message := message);
        assert clientQueue[..] == before[queueRear := Item(fd, message)];
        RearIsFree(before, queueFront, queueCount, Item(fd, message));
        CountingInAppends(clientQueue[..], queueFront, queueCount);
        NextIsWrap(queueRear, clientQueue.Length);
        queueRear := (queueRear + 1) % clientQueue.Length;
        queueCount := queueCount + 1;
      }
    }

    /** dequeue_client after its wait loop, so with something to take. */
    method Dequeue() returns (fd: nat, message: string)
      requires Valid() && 0 < queueCount
      modifies this
      ensures Valid()
      ensures [Item(fd, message)] + Contents(View()) == old(Contents(View()))
      ensures queueRear == old(queueRear)
    {
      AdvancingDropsOldest(clientQueue[..], queueFront, queueCount);
      AdvancingKeepsRear(queueFront, queueCount, clientQueue.Length);
      NextIsWrap(queueFront, clientQueue.Length);
      fd := clientQueue[queueFront].fd;
      message := clientQueue[queueFront].message;
      queueFront := (queueFront + 1) % clientQueue.Length;
      queueCount := queueCount - 1;
    }
  }
}
