/** The work queue of HW7/TCP_Server/server.c: a ring of 100 slots that drops what
    does not fit. */
module WorkQueue {

  const QUEUE_SIZE := 100
  const BUFF_SIZE := 4096

  datatype Item = Item(session: int, message: string)

  datatype Ring = Ring(slots: seq<Item>, front: int, rear: int, count: int)

  predicate ValidRing(r: Ring) {
    && |r.slots| == QUEUE_SIZE
    && 0 <= r.front < QUEUE_SIZE && 0 <= r.count <= QUEUE_SIZE
    && r.rear == (r.front + r.count) % QUEUE_SIZE
  }

  /** The queued items, oldest first. */
  function Contents(r: Ring): (s: seq<Item>)
    requires ValidRing(r)
    ensures |s| == r.count
  {
    seq(r.count, k requires 0 <= k < r.count => r.slots[(r.front + k) % QUEUE_SIZE])
  }

  /** An item as it fits into a slot, its message cut to leave room for the terminator. */
  function Stored(item: Item): Item {
    if |item.message| < BUFF_SIZE then item else item.(message := item.message[..BUFF_SIZE - 1])
  }

  function Put(r: Ring, item: Item): Ring
    requires ValidRing(r)
  {
    if r.count < QUEUE_SIZE
    then Ring(r.slots[r.rear := Stored(item)], r.front, (r.rear + 1) % QUEUE_SIZE, r.count + 1)
    else r
  }

  function Oldest(r: Ring): Item
    requires ValidRing(r) && r.count > 0
  {
    r.slots[r.front]
  }

  function Take(r: Ring): Ring
    requires ValidRing(r) && r.count > 0
  {
    r.(front := (r.front + 1) % QUEUE_SIZE, count := r.count - 1)
  }

  lemma SlotsDiffer(front: nat, k: nat, n: nat)
    requires k < n < QUEUE_SIZE
    ensures (front + k) % QUEUE_SIZE != (front + n) % QUEUE_SIZE
  {
  }

  lemma PutKeeps(r: Ring, item: Item, k: nat)
    requires ValidRing(r) && k < r.count < QUEUE_SIZE
    ensures ValidRing(Put(r, item)) && Contents(Put(r, item))[k] == Contents(r)[k]
  {
    hide Stored;
    SlotsDiffer(r.front, k, r.count);
  }

  /** Put appends, or drops the item when the ring holds QUEUE_SIZE items. */
  lemma PutContents(r: Ring, item: Item)
    requires ValidRing(r)
    ensures ValidRing(Put(r, item))
    ensures Contents(Put(r, item)) ==
            if |Contents(r)| < QUEUE_SIZE then Contents(r) + [Stored(item)] else Contents(r)
  {
    hide Stored;
    if r.count < QUEUE_SIZE {
      forall k | 0 <= k < r.count
        ensures Contents(Put(r, item))[k] == Contents(r)[k]
      {
        PutKeeps(r, item, k);
      }
    }
  }

  lemma TakeShifts(r: Ring, k: nat)
    requires ValidRing(r) && k + 1 < r.count
    ensures ValidRing(Take(r)) && Contents(Take(r))[k] == Contents(r)[k + 1]
  {
    assert ((r.front + 1) % QUEUE_SIZE + k) % QUEUE_SIZE == (r.front + (k + 1)) % QUEUE_SIZE;
  }

  lemma TakeContents(r: Ring)
    requires ValidRing(r) && r.count > 0
    ensures ValidRing(Take(r))
    ensures Contents(r) == [Oldest(r)] + Contents(Take(r))
  {
    forall k | 0 <= k < r.count - 1
      ensures Contents(Take(r))[k] == Contents(r)[k + 1]
    {
      TakeShifts(r, k);
    }
  }

  /** The globals work_queue, queue_front, queue_rear and queue_count. */
  class Queue {
    const workQueue: array<Item>
    var queueFront: int
    var queueRear: int
    var queueCount: int
    // everything that was offered, accepted and taken so far
    ghost var offered: seq<Item>
    ghost var accepted: seq<Item>
    ghost var taken: seq<Item>
    ghost var dropped: nat

    ghost function View(): Ring
      reads this, workQueue
    {
      Ring(workQueue[..], queueFront, queueRear, queueCount)
    }

    /** Items come out in the order they were accepted, each once, and every offered
        item was accepted or dropped. */
    ghost predicate Valid()
      reads this, workQueue
    {
      && ValidRing(View())
      && accepted == taken + Contents(View())
      && |offered| == |accepted| + dropped
    }

    constructor (blank: Item)
      ensures Valid() && fresh(workQueue)
      ensures accepted == [] && Contents(View()) == [] && offered == [] && dropped == 0
    {
      workQueue := new Item[QUEUE_SIZE](_ => blank);
      queueFront, queueRear, queueCount := 0, 0, 0;
      offered, accepted, taken, dropped := [], [], [], 0;
    }

    /** enqueue_work; true when the item was queued and queue_cond signalled. */
    method EnqueueWork(session: int, message: string) returns (queued: bool)
      requires Valid()
      modifies this`queueRear, this`queueCount, this`offered, this`accepted, this`dropped, workQueue
      ensures Valid()
      ensures View() == Put(old(View()), Item(session, message))
      ensures queued <==> old(queueCount) < QUEUE_SIZE
      ensures offered == old(offered) + [Item(session, message)]
      ensures accepted == old(accepted) + if queued then
                [Item(session, if |message| < BUFF_SIZE then message else message[..BUFF_SIZE - 1])] else []
      ensures dropped == old(dropped) + if queued then 0 else 1
    {
      hide Contents;
      ghost var was := View();
      PutContents(was, Item(session, message));
      queued := false;
      if queueCount < QUEUE_SIZE {
        workQueue[queueRear] := workQueue[queueRear].(session := session);
        var end := if |message| < BUFF_SIZE - 1 then |message| else BUFF_SIZE - 1;
        workQueue[queueRear] := workQueue[queueRear].(message := message[..end]);
        assert message[..|message|] == message;
        queueRear := (queueRear + 1) % QUEUE_SIZE;
        queueCount := queueCount + 1;
        queued := true;
        accepted := accepted + [Stored(Item(session, message))];
        assert View() == Put(was, Item(session, message));
      } else {
        dropped := dropped + 1;
      }
      offered := offered + [Item(session, message)];
    }

    /** The critical section of worker_thread once the queue is not empty. */
    method DequeueWork() returns (item: Item)
      requires Valid() && queueCount > 0
      modifies this`queueFront, this`queueCount, this`taken
      ensures Valid()
      ensures View() == Take(old(View())) && item == Oldest(old(View()))
      ensures taken == old(taken) + [item] && item == old(accepted)[|old(taken)|]
    {
      hide Contents;
      TakeContents(View());
      item := workQueue[queueFront];
      queueFront := (queueFront + 1) % QUEUE_SIZE;
      queueCount := queueCount - 1;
      taken := taken + [item];
    }
  }
}
