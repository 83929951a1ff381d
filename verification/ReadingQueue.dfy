/** The bounded queue between polling and storage. */
module ReadingQueues {

  import opened Results
  import opened Domain

  datatype QueueError = QueueClosed | QueueFull

  datatype QueueShutdown = QueueShutdown(drained: bool, pendingItems: nat, droppedItems: nat)

  /** What can happen to the queue while a put waits for space: the consumer takes an item, or it is closed. */
  datatype Meanwhile = Take | Shut

  /** What happens before space comes free. */
  function BeforeTake(meanwhile: seq<Meanwhile>): seq<Meanwhile> {
    if meanwhile == [] || meanwhile[0] == Take then [] else [meanwhile[0]] + BeforeTake(meanwhile[1..])
  }

  lemma {:induction false} WaitEnds(meanwhile: seq<Meanwhile>, k: nat)
    requires k <= |meanwhile|
    ensures k > 0 && meanwhile[k - 1] == Take && Take !in meanwhile[..k - 1] ==>
              forall m :: m != Take ==> (m in meanwhile[..k] <==> m in BeforeTake(meanwhile))
    ensures k == |meanwhile| && Take !in meanwhile[..k] ==> BeforeTake(meanwhile) == meanwhile[..k]
  {
    if k > 1 {
      WaitEnds(meanwhile[1..], k - 1);
      assert meanwhile[..k] == [meanwhile[0]] + meanwhile[1..][..k - 1];
      assert meanwhile[..k - 1] == [meanwhile[0]] + meanwhile[1..][..k - 2];
    } else if k == 1 {
      assert meanwhile[..1] == [meanwhile[0]];
      assert meanwhile == [meanwhile[0]] + meanwhile[1..];
    }
  }

  class ReadingQueue {

    const maxSize: nat
    var items: seq<PollResult>
    /** Items put and not yet acknowledged by `TaskDone`. */
    var unfinished: nat
    var closed: bool
    var droppedItems: nat
    var putTimeouts: nat

    /** Everything ever accepted, and everything ever removed, both in order. */
    ghost var accepted: seq<PollResult>
    ghost var removed: seq<PollResult>

    ghost predicate Valid()
      reads this
    {
      && 0 < maxSize
      && |items| <= maxSize
      && accepted == removed + items
    }

    /** Nobody has acknowledged an item that is still queued. */
    ghost predicate Accounted()
      reads this
    {
      |items| <= unfinished
    }

    constructor (maxSize: nat)
      requires maxSize > 0
      ensures Valid() && items == [] && unfinished == 0 && !closed && accepted == []
      ensures this.maxSize == maxSize && droppedItems == 0 && putTimeouts == 0
    {
      this.maxSize := maxSize;
      items, unfinished, closed, droppedItems, putTimeouts := [], 0, false, 0, 0;
      accepted, removed := [], [];
    }

    /** An item comes in where there is space, be the queue closed or not. */
    method Land(item: PollResult)
      requires Valid() && |items| < maxSize
      modifies `items, `unfinished, `accepted
      ensures Valid() && items == old(items) + [item] && unfinished == old(unfinished) + 1
      ensures accepted == old(accepted) + [item]
    {
      items := items + [item];
      unfinished := unfinished + 1;
      accepted := accepted + [item];
    }

    /**
     * A whole put. `closed` is looked at on entry only; a put that finds no space waits while the steps of
     * `meanwhile` happen, until one of them makes space or its time is up. So it fails as full exactly when
     * nothing was taken in time, and it lands behind the items still waiting, closed queue or not.
     */
    method Put(item: PollResult, meanwhile: seq<Meanwhile>) returns (r: Result<(), QueueError>)
      requires Valid()
      modifies `items, `unfinished, `accepted, `removed, `closed, `putTimeouts
      ensures Valid()
      ensures r == Err(QueueClosed) <==> old(closed)
      ensures r == Err(QueueFull) <==> !old(closed) && |old(items)| == maxSize && Take !in meanwhile
      ensures r.Err? ==> items == old(items) && unfinished == old(unfinished)
                         && accepted == old(accepted) && removed == old(removed)
      ensures r.Ok? ==> unfinished == old(unfinished) + 1 && accepted == old(accepted) + [item]
      ensures r.Ok? ==> items == (if |old(items)| < maxSize then old(items) else old(items)[1..]) + [item]
      ensures putTimeouts == old(putTimeouts) + if r == Err(QueueFull) then 1 else 0
      ensures closed == (old(closed) || (|old(items)| == maxSize && Shut in BeforeTake(meanwhile)))
    {
      if closed {
        return Err(QueueClosed);
      }
      var k := 0;
      while |items| == maxSize && k < |meanwhile|
        invariant 0 <= k <= |meanwhile| && Valid()
        invariant unfinished == old(unfinished) && accepted == old(accepted) && putTimeouts == old(putTimeouts)
        invariant |items| == maxSize ==> items == old(items) && removed == old(removed) && Take !in meanwhile[..k]
        invariant |items| < maxSize && |old(items)| == maxSize ==>
                    && items == old(items)[1..]
                    && k > 0 && meanwhile[k - 1] == Take && Take !in meanwhile[..k - 1]
        invariant |old(items)| < maxSize ==> items == old(items) && k == 0
        invariant closed == (|old(items)| == maxSize && Shut in meanwhile[..k])
      {
        match meanwhile[k] {
          case Take =>
            var _ := Get();
          case Shut =>
            var _ := Close();
        }
        assert meanwhile[..k + 1] == meanwhile[..k] + [meanwhile[k]];
        k := k + 1;
      }
      WaitEnds(meanwhile, k);
      if |items| < maxSize {
        Land(item);
        r := Ok(());
      } else {
        putTimeouts := putTimeouts + 1;
        r := Err(QueueFull);
      }
    }

    /** `get` once an item is there; waiting for one is the caller's step. */
    method Get() returns (item: PollResult)
      requires Valid() && items != []
      modifies `items, `removed
      ensures Valid() && item == old(items)[0] && items == old(items)[1..]
      ensures removed == old(removed) + [item]
    {
      item := items[0];
      items := items[1..];
      removed := removed + [item];
    }

    /** Fails, as the wrapped queue does, when called more often than items were put. */
    method TaskDone() returns (ok: bool)
      requires Valid()
      modifies `unfinished
      ensures Valid() && ok == (old(unfinished) > 0)
      ensures unfinished == old(unfinished) - if ok then 1 else 0
    {
      ok := unfinished > 0;
      if ok {
        unfinished := unfinished - 1;
      }
    }

    method Close() returns (s: QueueShutdown)
      requires Valid()
      modifies `closed
      ensures Valid() && closed && s == QueueShutdown(items == [], |items|, 0)
    {
      closed := true;
      s := QueueShutdown(|items| == 0, |items|, 0);
    }

    /** Closes the queue and empties it, acknowledging each dropped item. */
    method DropPending() returns (s: QueueShutdown)
      requires Valid() && Accounted()
      modifies this
      ensures Valid() && closed && items == [] && unfinished == old(unfinished) - |old(items)|
      ensures s == QueueShutdown(true, 0, |old(items)|) && droppedItems == old(droppedItems) + |old(items)|
      ensures removed == old(removed) + old(items) && accepted == old(accepted) && putTimeouts == old(putTimeouts)
    {
      closed := true;
      var dropped := 0;
      while |items| > 0
        invariant Valid() && Accounted() && closed && 0 <= dropped <= |old(items)|
        invariant items == old(items)[dropped..] && removed == old(removed) + old(items)[..dropped]
        invariant unfinished == old(unfinished) - dropped && accepted == old(accepted)
        invariant droppedItems == old(droppedItems) && putTimeouts == old(putTimeouts)
        decreases |items|
      {
        var _ := Get();
        var ok := TaskDone();
        assert ok;
        dropped := dropped + 1;
      }
      droppedItems := droppedItems + dropped;
      s := QueueShutdown(true, 0, dropped);
    }
  }
}
