/** The transmit queue: bounded, ordered by eligibility time, with one packet in flight. */
module Outbound {
  import opened Bytes
  import opened Wrappers
  import opened SeenPackets

  const OUTBOUND_QUEUE_CAPACITY: nat := 16
  const OUTBOUND_MAX_ATTEMPTS: nat := 5

  datatype OutboundError = QueueFull

  datatype QueuedTransmit = QueuedTransmit(
    eligibleAt: u64, attempts: nat, packet: seq<u8>, signature: Option<Signature>, rebootAfterTx: bool)

  /** The first place whose packet is eligible strictly later than `at`. */
  function FirstLater(queue: seq<QueuedTransmit>, at: u64): (i: nat)
    ensures i <= |queue|
    ensures forall j :: 0 <= j < i ==> queue[j].eligibleAt <= at
    ensures i < |queue| ==> at < queue[i].eligibleAt
  {
    if queue == [] || at < queue[0].eligibleAt then 0 else 1 + FirstLater(queue[1..], at)
  }

  function Inserted(queue: seq<QueuedTransmit>, item: QueuedTransmit): (r: seq<QueuedTransmit>)
    ensures |r| == |queue| + 1
  {
    var i := FirstLater(queue, item.eligibleAt);
    queue[..i] + [item] + queue[i..]
  }

  ghost predicate ByEligibility(queue: seq<QueuedTransmit>) {
    forall i, j :: 0 <= i < j < |queue| ==> queue[i].eligibleAt <= queue[j].eligibleAt
  }

  /** Insertion keeps the order, and the new packet lands behind everything eligible no later: first
      come, first served on ties. */
  lemma InsertedIsFifo(queue: seq<QueuedTransmit>, item: QueuedTransmit) returns (i: nat)
    requires ByEligibility(queue)
    ensures i <= |queue| && Inserted(queue, item) == queue[..i] + [item] + queue[i..]
    ensures forall j :: 0 <= j < |queue| ==> (j < i <==> queue[j].eligibleAt <= item.eligibleAt)
    ensures ByEligibility(Inserted(queue, item))
  {
    i := FirstLater(queue, item.eligibleAt);
    InsertedSorted(queue, item, i);
  }

  lemma InsertedSorted(queue: seq<QueuedTransmit>, item: QueuedTransmit, i: nat)
    requires ByEligibility(queue) && i <= |queue|
    requires forall j :: 0 <= j < |queue| ==> (j < i <==> queue[j].eligibleAt <= item.eligibleAt)
    ensures ByEligibility(queue[..i] + [item] + queue[i..])
  {
    var r := queue[..i] + [item] + queue[i..];
    forall j, k | 0 <= j < k < |r|
      ensures r[j].eligibleAt <= r[k].eligibleAt
    {
      assert r[j] == if j < i then queue[j] else if j == i then item else queue[j - 1];
      assert r[k] == if k < i then queue[k] else if k == i then item else queue[k - 1];
    }
  }

  class SortedOutboundChannel {
    const capacity: nat
    var queue: seq<QueuedTransmit>
    var active: nat

    constructor (configuredCapacity: nat)
      ensures capacity == Min(configuredCapacity, OUTBOUND_QUEUE_CAPACITY)
      ensures queue == [] && active == 0
    {
      capacity := Min(configuredCapacity, OUTBOUND_QUEUE_CAPACITY);
      queue := [];
      active := 0;
    }

    method InsertSorted(item: QueuedTransmit)
      modifies this`queue
      ensures queue == Inserted(old(queue), item)
    {
      var i := 0;
      while i < |queue| && queue[i].eligibleAt <= item.eligibleAt
        invariant i <= FirstLater(queue, item.eligibleAt)
      {
        i := i + 1;
      }
      queue := queue[..i] + [item] + queue[i..];
    }

    method TrySend(item: QueuedTransmit) returns (r: Result<(), OutboundError>)
      modifies this`queue
      ensures r == if |old(queue)| + active >= capacity then Err(QueueFull) else Ok(())
      ensures queue == if r.Ok? then Inserted(old(queue), item) else old(queue)
    {
      if |queue| + active >= capacity {
        return Err(QueueFull);
      }
      InsertSorted(item);
      return Ok(());
    }

    method Next() returns (r: Option<QueuedTransmit>)
      ensures r == if queue == [] then None else Some(queue[0])
    {
      r := if queue == [] then None else Some(queue[0]);
    }

    method TakeFirst() returns (r: Option<QueuedTransmit>)
      modifies this
      ensures old(queue) == [] ==> r == None && queue == [] && active == old(active)
      ensures old(queue) != [] ==> r.Some? && old(queue) == [r.value] + queue && active == 1
    {
      if queue == [] {
        return None;
      }
      active := 1;
      r := Some(queue[0]);
      queue := queue[1..];
    }

    /** Puts a failed packet back, unless it has used up its attempts. */
    method RetryCurrent(item: QueuedTransmit, now: u64, retryDelay: u32) returns (retried: bool)
      modifies this
      ensures retried <==> item.attempts + 1 < OUTBOUND_MAX_ATTEMPTS
      ensures retried ==> active == 0
                          && queue == Inserted(old(queue), Retried(item, now, retryDelay))
      ensures !retried ==> active == old(active) && queue == old(queue)
    {
      var attempts := item.attempts + 1;
      if attempts >= OUTBOUND_MAX_ATTEMPTS {
        return false;
      }
      InsertSorted(item.(attempts := attempts, eligibleAt := SatAdd(now, retryDelay)));
      active := 0;
      return true;
    }

    method CompleteCurrent()
      modifies this`active
      ensures active == 0
    {
      active := 0;
    }
  }

  function Retried(item: QueuedTransmit, now: u64, retryDelay: u32): QueuedTransmit {
    item.(attempts := item.attempts + 1, eligibleAt := SatAdd(now, retryDelay))
  }
}
