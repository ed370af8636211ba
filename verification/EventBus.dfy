/** The bounded single-receiver queue: publishing, closing, and a receive loop that checks the queue under
    the lock and then waits, outside it, on a notifier that holds at most one permit. */
module EventBus {
  import opened Wrappers
  import opened Integers

  datatype OverflowPolicy = Reject | DropNewest | DropOldest

  datatype PublishOutcome = Published | DroppedNewest | DroppedOldest

  datatype EventBusError = InvalidCapacity | Full | Closed

  /** Where the receiver stands: outside `recv`; past an unsuccessful check but not waiting yet; waiting;
      or woken and about to check again. */
  datatype Phase = Idle | Armed | Waiting | Woken

  /** An accepted item that left the queue, delivered or pushed out by a newer one. */
  datatype Departure<T> = Delivered(item: T) | PushedOut(item: T)

  /** The shared state, the notifier, the receiver, and the history of the items. */
  datatype Queue<T> = Queue(
    items: seq<T>, closed: bool, capacity: nat, policy: OverflowPolicy,
    accepted: nat, droppedNewest: nat, droppedOldest: nat,
    permit: bool, phase: Phase,
    log: seq<T>, departed: seq<Departure<T>>)

  function Next(counter: nat): nat { (counter + 1) % U64_MODULUS }

  function Empty<T>(capacity: nat, policy: OverflowPolicy): Queue<T> {
    Queue([], false, capacity, policy, 0, 0, 0, false, Idle, [], [])
  }

  /** `notify_one`: a waiting receiver is woken, otherwise one permit is kept. */
  function Notify<T>(q: Queue<T>): Queue<T> {
    if q.phase.Waiting? then q.(phase := Woken) else q.(permit := true)
  }

  function Push<T>(q: Queue<T>, item: T): Queue<T> {
    Notify(q.(items := q.items + [item], accepted := Next(q.accepted), log := q.log + [item]))
  }

  function Publish<T>(q: Queue<T>, item: T): (Queue<T>, Result<PublishOutcome, EventBusError>) {
    if q.closed then (q, Err(Closed))
    else if |q.items| >= q.capacity then
      match q.policy
      case Reject => (q, Err(Full))
      case DropNewest => (q.(droppedNewest := Next(q.droppedNewest)), Ok(DroppedNewest))
      case DropOldest =>
        if q.items == [] then (Push(q.(droppedOldest := Next(q.droppedOldest)), item), Ok(DroppedOldest))
        else
          (Push(q.(items := q.items[1..], departed := q.departed + [PushedOut(q.items[0])],
                   droppedOldest := Next(q.droppedOldest)), item), Ok(DroppedOldest))
    else (Push(q, item), Ok(Published))
  }

  function Close<T>(q: Queue<T>): Queue<T> { Notify(q.(closed := true)) }

  /** One pass of the receive loop under the lock: an item, the end of the queue, or on to waiting. */
  function Check<T>(q: Queue<T>): (Queue<T>, Option<Option<T>>) {
    if q.items != [] then
      var taken := q.items[0];
      (q.(items := q.items[1..], phase := Idle, departed := q.departed + [Delivered(taken)]), Some(Some(taken)))
    else if q.closed then (q.(phase := Idle), Some(None))
    else (q.(phase := Armed), None)
  }

  /** Waiting on the notifier: a kept permit is consumed at once. */
  function Await<T>(q: Queue<T>): Queue<T> {
    if q.permit then q.(permit := false, phase := Woken) else q.(phase := Waiting)
  }

  /** What publishing does in each case. An item is refused by a closed queue and, under the rejecting policy, by
      a full one; it is dropped when the newest goes; otherwise it is queued last, behind all but the oldest
      where that makes room. */
  lemma PublishExactly<T>(q: Queue<T>, item: T)
    ensures var (t, r) := Publish(q, item);
      var full := |q.items| >= q.capacity;
      var enters := !q.closed && (!full || q.policy.DropOldest?);
      var overtaken := enters && full && q.items != [];
      && (r == Err(Closed) <==> q.closed) && (r == Err(Full) <==> !q.closed && full && q.policy == Reject)
      && (r == Ok(DroppedNewest) <==> !q.closed && full && q.policy == DropNewest)
      && (r == Ok(DroppedOldest) <==> enters && full) && (r == Ok(Published) <==> enters && !full)
      && t.items == (if overtaken then q.items[1..] else q.items) + (if enters then [item] else [])
      && t.departed == q.departed + (if overtaken then [PushedOut(q.items[0])] else [])
      && t.log == q.log + (if enters then [item] else [])
      && t.accepted == (if enters then Next(q.accepted) else q.accepted)
      && t.droppedNewest == (if r == Ok(DroppedNewest) then Next(q.droppedNewest) else q.droppedNewest)
      && t.droppedOldest == (if r == Ok(DroppedOldest) then Next(q.droppedOldest) else q.droppedOldest)
      && t.closed == q.closed && t.capacity == q.capacity && t.policy == q.policy
      && t.phase == (if enters && q.phase.Waiting? then Woken else q.phase)
      && (t.permit <==> q.permit || (enters && !q.phase.Waiting?))
  {
  }

  /** The receiver's side: it is handed the oldest item while there is one, then the end of a closed queue,
      and otherwise gets ready to wait; a kept permit saves it the wait. Closing wakes it like an item. */
  lemma ReceiveExactly<T>(q: Queue<T>)
    ensures var (t, r) := Check(q);
      && (q.items != [] ==>
            r == Some(Some(q.items[0])) && t.items == q.items[1..]
            && t.departed == q.departed + [Delivered(q.items[0])])
      && (q.items == [] ==> r == (if q.closed then Some(None) else None) && t.items == [] && t.departed == q.departed)
      && t.phase == (if q.items == [] && !q.closed then Armed else Idle)
      && t == q.(items := t.items, departed := t.departed, phase := t.phase)
    ensures Await(q) == q.(permit := false, phase := if q.permit then Woken else Waiting)
    ensures var t := Close(q);
      && t == q.(closed := true, phase := t.phase, permit := t.permit)
      && t.phase == (if q.phase.Waiting? then Woken else q.phase) && (t.permit <==> q.permit || !q.phase.Waiting?)
  {
  }

  // ---------- every interleaving ----------

  datatype Step<T> = DoPublish(item: T) | DoClose | DoCheck | DoAwait

  /** A step of a publisher or of the receiver; the receiver only takes the step its phase allows. */
  function Take<T>(q: Queue<T>, step: Step<T>): Queue<T> {
    match step
    case DoPublish(item) => Publish(q, item).0
    case DoClose => Close(q)
    case DoCheck => if q.phase.Idle? || q.phase.Woken? then Check(q).0 else q
    case DoAwait => if q.phase.Armed? then Await(q) else q
  }

  function Run<T>(q: Queue<T>, steps: seq<Step<T>>): Queue<T>
    decreases |steps|
  {
    if steps == [] then q else Run(Take(q, steps[0]), steps[1..])
  }

  /** The receiver checks only from outside the wait or after being woken, and waits only when armed. */
  lemma TakeExactly<T>(q: Queue<T>, step: Step<T>)
    ensures Take(q, step) != q && step.DoCheck? ==> q.phase in {Idle, Woken} && Take(q, step) == Check(q).0
    ensures Take(q, step) != q && step.DoAwait? ==> q.phase == Armed && Take(q, step) == Await(q)
    ensures step.DoCheck? && q.phase in {Idle, Woken} ==> Take(q, step) == Check(q).0
    ensures step.DoAwait? && q.phase == Armed ==> Take(q, step) == Await(q)
    ensures step.DoPublish? ==> Take(q, step) == Publish(q, step.item).0
    ensures step.DoClose? ==> Take(q, step) == Close(q)
  {
  }

  /** A blocked receiver means an empty open queue; one about to block will find a permit otherwise. */
  predicate NoLostWakeup<T>(q: Queue<T>) {
    && (q.phase.Waiting? ==> q.items == [] && !q.closed && !q.permit)
    && (q.phase.Armed? && (q.items != [] || q.closed) ==> q.permit)
  }

  function Items<T>(departed: seq<Departure<T>>): seq<T> {
    seq(|departed|, i requires 0 <= i < |departed| => departed[i].item)
  }

  function DeliveredItems<T>(departed: seq<Departure<T>>): seq<T> {
    if departed == [] then []
    else
      var n := |departed| - 1;
      DeliveredItems(departed[..n]) + if departed[n].Delivered? then [departed[n].item] else []
  }

  function PushedOutCount<T>(departed: seq<Departure<T>>): nat {
    if departed == [] then 0
    else PushedOutCount(departed[..|departed| - 1]) + if departed[|departed| - 1].PushedOut? then 1 else 0
  }

  /** The accepted items are, in order, those that departed followed by those still queued; and each counter
      counts its items, modulo the width of a 64-bit word. */
  predicate Conserved<T(==)>(q: Queue<T>) {
    && q.log == Items(q.departed) + q.items
    && q.accepted == |q.log| % U64_MODULUS
    && q.droppedOldest == PushedOutCount(q.departed) % U64_MODULUS
    && |q.items| <= q.capacity && q.capacity > 0
    && (q.policy.DropOldest? || PushedOutCount(q.departed) == 0)
  }

  lemma Depart<T>(departed: seq<Departure<T>>, d: Departure<T>)
    ensures Items(departed + [d]) == Items(departed) + [d.item]
    ensures DeliveredItems(departed + [d]) == DeliveredItems(departed) + if d.Delivered? then [d.item] else []
    ensures PushedOutCount(departed + [d]) == PushedOutCount(departed) + if d.PushedOut? then 1 else 0
  {
    assert (departed + [d])[..|departed|] == departed;
  }

  lemma NextCounts(n: nat)
    ensures Next(n % U64_MODULUS) == (n + 1) % U64_MODULUS
  {
  }

  lemma PushConserves<T>(q: Queue<T>, item: T)
    requires q.log == Items(q.departed) + q.items && q.accepted == |q.log| % U64_MODULUS
    ensures var p := Push(q, item);
      p.log == Items(p.departed) + p.items && p.accepted == |p.log| % U64_MODULUS
  {
    NextCounts(|q.log|);
  }

  lemma AppendConserves<T>(q: Queue<T>, item: T)
    requires Conserved(q)
    ensures |q.items| < q.capacity ==> Conserved(Push(q, item))
    ensures Conserved(q.(droppedNewest := Next(q.droppedNewest)))
  {
    hide Items, PushedOutCount, Next;
    PushConserves(q, item);
  }

  lemma PushOutConserves<T>(q: Queue<T>, item: T)
    requires Conserved(q) && |q.items| >= q.capacity && q.policy.DropOldest?
    ensures q.items != []
    ensures Conserved(Push(q.(items := q.items[1..], departed := q.departed + [PushedOut(q.items[0])],
                              droppedOldest := Next(q.droppedOldest)), item))
  {
    hide Items, PushedOutCount, Next;
    NextCounts(PushedOutCount(q.departed));
    Depart(q.departed, PushedOut(q.items[0]));
    assert q.items == [q.items[0]] + q.items[1..];
    PushConserves(q.(items := q.items[1..], departed := q.departed + [PushedOut(q.items[0])],
                     droppedOldest := Next(q.droppedOldest)), item);
  }

  lemma PublishKeeps<T>(q: Queue<T>, item: T)
    requires NoLostWakeup(q) && Conserved(q)
    ensures NoLostWakeup(Publish(q, item).0) && Conserved(Publish(q, item).0)
  {
    hide Items, PushedOutCount, Next, Conserved;
    if !q.closed && |q.items| >= q.capacity && q.policy.DropOldest? {
      PushOutConserves(q, item);
    } else {
      AppendConserves(q, item);
    }
  }

  lemma CheckKeeps<T>(q: Queue<T>)
    requires NoLostWakeup(q) && Conserved(q)
    ensures NoLostWakeup(Check(q).0) && Conserved(Check(q).0)
  {
    hide Items, PushedOutCount, DeliveredItems;
    if q.items != [] {
      Depart(q.departed, Delivered(q.items[0]));
      assert q.items == [q.items[0]] + q.items[1..];
    }
  }

  lemma TakeKeeps<T>(q: Queue<T>, step: Step<T>)
    requires NoLostWakeup(q) && Conserved(q)
    ensures NoLostWakeup(Take(q, step)) && Conserved(Take(q, step))
  {
    hide Publish, Items, PushedOutCount, DeliveredItems;
    match step
    case DoPublish(item) => PublishKeeps(q, item);
    case DoClose =>
    case DoCheck => CheckKeeps(q);
    case DoAwait =>
  }

  /** Main result: over every interleaving no wake-up is lost and the accepted items are conserved. */
  lemma {:induction false} RunKeeps<T>(q: Queue<T>, steps: seq<Step<T>>)
    requires NoLostWakeup(q) && Conserved(q)
    ensures NoLostWakeup(Run(q, steps)) && Conserved(Run(q, steps))
    decreases |steps|
  {
    if steps != [] {
      TakeKeeps(q, steps[0]);
      RunKeeps(Take(q, steps[0]), steps[1..]);
    }
  }

  lemma {:induction false} DeliveredAndPushedOut<T>(departed: seq<Departure<T>>)
    ensures |departed| == |DeliveredItems(departed)| + PushedOutCount(departed)
  {
    if departed != [] {
      DeliveredAndPushedOut(departed[..|departed| - 1]);
    }
  }

  lemma {:induction false} AllDelivered<T>(departed: seq<Departure<T>>)
    requires PushedOutCount(departed) == 0
    ensures DeliveredItems(departed) == Items(departed)
  {
    if departed != [] {
      AllDelivered(departed[..|departed| - 1]);
    }
  }

  /** In any reachable state: a blocked receiver waits on an empty open queue; accepted items are received,
      pushed out or still queued; and with a policy that drops nothing old, receipt is exact and in order. */
  lemma ReachableQueue<T>(capacity: nat, policy: OverflowPolicy, steps: seq<Step<T>>)
    requires capacity > 0
    ensures var q := Run(Empty(capacity, policy), steps);
      && (q.phase.Waiting? ==> q.items == [] && !q.closed)
      && |q.log| == |DeliveredItems(q.departed)| + PushedOutCount(q.departed) + |q.items|
      && (!q.policy.DropOldest? ==> q.log == DeliveredItems(q.departed) + q.items)
  {
    var empty: Queue<T> := Empty(capacity, policy);
    var q := Run(empty, steps);
    assert Items(empty.departed) + empty.items == empty.log;
    RunKeeps(empty, steps);
    DeliveredAndPushedOut(q.departed);
    if !q.policy.DropOldest? {
      AllDelivered(q.departed);
    }
  }

  /** A receiver inside `recv` with something to receive gets it in at most two of its own steps. */
  lemma ReceiverProgresses<T>(q: Queue<T>)
    requires NoLostWakeup(q) && !q.phase.Idle? && (q.items != [] || q.closed)
    ensures q.phase.Woken? || (q.phase.Armed? && Take(q, DoAwait).phase.Woken?)
    ensures var ready := if q.phase.Armed? then Take(q, DoAwait) else q;
      && ready.phase.Woken?
      && Check(ready).1 == Some(if q.items != [] then Some(q.items[0]) else None)
  {
  }

  // ---------- the queue as an object ----------

  class BoundedQueue<T(==)> {
    const capacity: nat
    const policy: OverflowPolicy
    var items: seq<T>
    var closed: bool
    var accepted: nat
    var droppedNewest: nat
    var droppedOldest: nat
    var permit: bool
    var phase: Phase
    ghost var log: seq<T>
    ghost var departed: seq<Departure<T>>

    constructor (capacity: nat, policy: OverflowPolicy)
      requires capacity > 0
      ensures View() == Empty(capacity, policy) && Valid()
    {
      this.capacity, this.policy := capacity, policy;
      items, closed, accepted, droppedNewest, droppedOldest := [], false, 0, 0, 0;
      permit, phase, log, departed := false, Idle, [], [];
    }

    ghost function View(): Queue<T>
      reads this
    {
      Queue(items, closed, capacity, policy, accepted, droppedNewest, droppedOldest, permit, phase, log, departed)
    }

    ghost predicate Valid()
      reads this
    {
      NoLostWakeup(View()) && Conserved(View())
    }

    method NotifyOne()
      modifies this`permit, this`phase
      ensures View() == Notify(old(View()))
    {
      if phase.Waiting? {
        phase := Woken;
      } else {
        permit := true;
      }
    }

    method Send(item: T) returns (r: Result<PublishOutcome, EventBusError>)
      requires Valid()
      modifies this
      ensures Valid() && (View(), r) == Publish(old(View()), item)
    {
      TakeKeeps(View(), DoPublish(item));
      assert |items| >= capacity ==> items != [];
      hide NoLostWakeup, Conserved, Push;
      if closed { return Err(Closed); }
      var full := |items| >= capacity;
      if full {
        match policy {
          case Reject => return Err(Full);
          case DropNewest =>
            droppedNewest := Next(droppedNewest);
            return Ok(DroppedNewest);
          case DropOldest =>
            departed := departed + [PushedOut(items[0])];
            items := items[1..];
            droppedOldest := Next(droppedOldest);
        }
      }
      PushBack(item);
      return Ok(if full then DroppedOldest else Published);
    }

    method PushBack(item: T)
      modifies this`items, this`accepted, this`log, this`permit, this`phase
      ensures View() == Push(old(View()), item)
    {
      items := items + [item];
      accepted := Next(accepted);
      log := log + [item];
      NotifyOne();
    }

    method Shut()
      requires Valid()
      modifies this
      ensures Valid() && View() == Close(old(View()))
    {
      TakeKeeps(View(), DoClose);
      closed := true;
      NotifyOne();
    }

    /** The part of `recv` under the lock. */
    method Poll() returns (r: Option<Option<T>>)
      requires Valid() && (phase.Idle? || phase.Woken?)
      modifies this
      ensures Valid() && (View(), r) == Check(old(View()))
    {
      CheckKeeps(View());
      hide NoLostWakeup, Conserved;
      if items != [] {
        r := Some(Some(items[0]));
        departed := departed + [Delivered(items[0])];
        items := items[1..];
        phase := Idle;
      } else if closed {
        phase := Idle;
        r := Some(None);
      } else {
        phase := Armed;
        r := None;
      }
    }

    /** The wait behind it. */
    method Notified()
      requires Valid() && phase.Armed?
      modifies this
      ensures Valid() && View() == Await(old(View()))
    {
      TakeKeeps(View(), DoAwait);
      if permit {
        permit := false;
        phase := Woken;
      } else {
        phase := Waiting;
      }
    }
  }

  method OpenQueue<T(==)>(capacity: nat, policy: OverflowPolicy) returns (r: Result<BoundedQueue<T>, EventBusError>)
    ensures r.Err? <==> capacity == 0
    ensures r.Ok? ==> fresh(r.value) && r.value.View() == Empty(capacity, policy) && r.value.Valid()
  {
    if capacity == 0 { return Err(InvalidCapacity); }
    var queue := new BoundedQueue<T>(capacity, policy);
    return Ok(queue);
  }
}
