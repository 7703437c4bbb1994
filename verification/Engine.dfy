/** The forwarding engine: reservations, the transmit queue, the seen cache and the airtime budget,
    changed together by the handler task and the radio task.  Each method is the code between two
    awaits; every clock reading it takes is a parameter. */
module Engine {
  import opened Bytes
  import opened Wrappers
  import opened SeenPackets
  import opened Outbound
  import opened Airtime

  const SEEN_PACKET_TTL_MS: u64 := 15_000

  datatype Profile = Profile(outboundQueueLen: nat, seenCacheLen: nat) {
    function Capacity(): nat {
      Min(outboundQueueLen, OUTBOUND_QUEUE_CAPACITY)
    }
  }

  /** Radio settings, of which only the airtime of a packet of a given length matters here. */
  datatype RadioSettings = RadioSettings(airtime: nat -> u32)

  /** The shared state both tasks change. */
  datatype Core = Core(
    queue: seq<QueuedTransmit>, active: nat, pending: seq<Signature>, seen: seq<Seen>)

  function Position<T(==)>(s: seq<T>, x: T): (i: nat)
    ensures i <= |s| && (i < |s| ==> s[i] == x)
    ensures forall j :: 0 <= j < i ==> s[j] != x
  {
    if s == [] || s[0] == x then 0 else 1 + Position(s[1..], x)
  }

  function Removed<T(==)>(s: seq<T>, x: T): seq<T> {
    var i := Position(s, x);
    if i < |s| then s[..i] + s[i + 1..] else s
  }

  function Reserved(p: Profile, c: Core, s: Signature, now: u64): (Core, Result<bool, OutboundError>) {
    if s in c.pending then (c, Ok(false))
    else
      var c := c.(seen := Pruned(c.seen, SEEN_PACKET_TTL_MS, now));
      if s in Signatures(c.seen) then (c, Ok(false))
      else if |c.pending| >= p.Capacity() then (c, Err(QueueFull))
      else (c.(pending := c.pending + [s]), Ok(true))
  }

  function Released(p: Profile, c: Core, s: Signature, transmitted: bool, now: u64): Core {
    c.(pending := Removed(c.pending, s),
       seen := if transmitted then Touched(c.seen, p.seenCacheLen, s, now) else c.seen)
  }

  function Sent(p: Profile, c: Core, item: QueuedTransmit): (Core, Result<(), OutboundError>) {
    if |c.queue| + c.active >= p.Capacity() then (c, Err(QueueFull))
    else (c.(queue := Inserted(c.queue, item)), Ok(()))
  }

  function Item(packet: seq<u8>, delay: u32, s: Option<Signature>, reboot: bool, now: u64): QueuedTransmit {
    QueuedTransmit(SatAdd(now, delay), 0, packet, s, reboot)
  }

  /** Reserve, then enqueue, undoing the reservation when the queue is full. */
  function Forwarded(p: Profile, c: Core, packet: seq<u8>, delay: u32, s: Signature, t1: u64, t2: u64)
    : (Core, Result<bool, OutboundError>)
  {
    var (c1, reserved) := Reserved(p, c, s, t1);
    if reserved != Ok(true) then (c1, reserved)
    else
      var (c2, sent) := Sent(p, c1, Item(packet, delay, Some(s), false, t2));
      if sent.Err? then (Released(p, c2, s, false, t2), Err(sent.error)) else (c2, Ok(true))
  }

  function Finished(p: Profile, c: Core, s: Option<Signature>, transmitted: bool, now: u64): Core {
    match s
    case None => c
    case Some(s) => Released(p, c, s, transmitted, now)
  }

  /** What the radio task decides before it starts transmitting. */
  datatype Decision = Wait | Discard(item: QueuedTransmit) | Transmit(item: QueuedTransmit)

  function Decided(c: Core, b: Budget, settings: RadioSettings, duty: u8, repeat: bool, now: u64): (Decision, Budget) {
    if c.queue == [] then (Wait, b)
    else
      var head := c.queue[0];
      if head.signature.Some? && !repeat then (Discard(head), b)
      else if head.eligibleAt > now then (Wait, b)
      else
        var required := if duty >= 100 then 0 else settings.airtime(|head.packet|);
        var b := Asked(b, now, duty);
        if ReadyAt(b, now, required, duty) > now then (Wait, b) else (Transmit(head), b)
  }

  /** Taking the head off the queue makes it the packet in flight. */
  function Started(p: Profile, c: Core, d: Decision, now: u64): Core
    requires d != Wait ==> c.queue != []
  {
    match d
    case Wait => c
    case Discard(item) => Finished(p, c.(queue := c.queue[1..], active := 1), item.signature, false, now).(active := 0)
    case Transmit(_) => c.(queue := c.queue[1..], active := 1)
  }

  /** After the radio reports the outcome of a transmission. */
  function Ended(p: Profile, c: Core, item: QueuedTransmit, ok: bool, retryDelay: u32, now: u64): Core {
    if ok then Finished(p, c, item.signature, true, now).(active := 0)
    else if item.attempts + 1 < OUTBOUND_MAX_ATTEMPTS then
      c.(queue := Inserted(c.queue, Retried(item, now, retryDelay)), active := 0)
    else Finished(p, c, item.signature, false, now).(active := 0)
  }

  class AppContext {
    const profile: Profile
    const outbound: SortedOutboundChannel
    const seenPackets: SeenPacketCache
    var pendingForwards: seq<Signature>

    ghost predicate Valid() {
      outbound.capacity == profile.Capacity()
      && seenPackets.maxEntries == profile.seenCacheLen && seenPackets.ttl == SEEN_PACKET_TTL_MS
    }

    function View(): Core
      reads this, outbound, seenPackets
    {
      Core(outbound.queue, outbound.active, pendingForwards, seenPackets.entries)
    }

    constructor (profile: Profile)
      ensures Valid() && this.profile == profile && View() == Core([], 0, [], [])
      ensures fresh(outbound) && fresh(seenPackets)
    {
      this.profile := profile;
      outbound := new SortedOutboundChannel(profile.outboundQueueLen);
      seenPackets := new SeenPacketCache(SEEN_PACKET_TTL_MS, profile.seenCacheLen);
      pendingForwards := [];
    }

    method ReserveForward(s: Signature, now: u64) returns (r: Result<bool, OutboundError>)
      requires Valid()
      modifies this, seenPackets
      ensures (View(), r) == Reserved(profile, old(View()), s, now)
    {
      if s in pendingForwards {
        return Ok(false);
      }
      var seen := seenPackets.Contains(s, now);
      if seen {
        return Ok(false);
      }
      if |pendingForwards| >= profile.Capacity() {
        return Err(QueueFull);
      }
      pendingForwards := pendingForwards + [s];
      return Ok(true);
    }

    method ReleaseForward(s: Signature, transmitted: bool, now: u64)
      requires Valid()
      modifies this, seenPackets
      ensures View() == Released(profile, old(View()), s, transmitted, now)
    {
      hide Touched, Pruned;
      var i := 0;
      while i < |pendingForwards| && pendingForwards[i] != s
        invariant i <= Position(pendingForwards, s)
      {
        i := i + 1;
      }
      if i < |pendingForwards| {
        pendingForwards := pendingForwards[..i] + pendingForwards[i + 1..];
      }
      if transmitted {
        seenPackets.Touch(s, now);
      }
    }

    method EnqueueOutbound(packet: seq<u8>, delay: u32, reboot: bool, s: Option<Signature>, now: u64)
      returns (r: Result<(), OutboundError>)
      requires Valid()
      modifies outbound
      ensures (View(), r) == Sent(profile, old(View()), Item(packet, delay, s, reboot, now))
    {
      r := outbound.TrySend(QueuedTransmit(SatAdd(now, delay), 0, packet, s, reboot));
    }

    method EnqueueForward(packet: seq<u8>, delay: u32, s: Signature, t1: u64, t2: u64)
      returns (r: Result<bool, OutboundError>)
      requires Valid()
      modifies this, outbound, seenPackets
      ensures (View(), r) == Forwarded(profile, old(View()), packet, delay, s, t1, t2)
    {
      r := ReserveForward(s, t1);
      if r != Ok(true) {
        return;
      }
      var sent := EnqueueOutbound(packet, delay, false, Some(s), t2);
      if sent.Err? {
        ReleaseForward(s, false, t2);
        return Err(sent.error);
      }
      return Ok(true);
    }

    method FinishForward(s: Option<Signature>, transmitted: bool, now: u64)
      requires Valid()
      modifies this, seenPackets
      ensures View() == Finished(profile, old(View()), s, transmitted, now)
    {
      match s
      case None =>
      case Some(signature) => ReleaseForward(signature, transmitted, now);
    }

    /** The radio task up to the point where it hands a packet to the radio. */
    method StartTransmit(budget: AirtimeBudget, settings: RadioSettings, duty: u8, repeat: bool, now: u64)
      returns (d: Decision)
      requires Valid()
      modifies this, outbound, seenPackets, budget
      ensures (d, budget.View()) == Decided(old(View()), old(budget.View()), settings, duty, repeat, now)
      ensures d != Wait ==> old(outbound.queue) != []
      ensures View() == Started(profile, old(View()), d, now)
    {
      var next := outbound.Next();
      if next.None? {
        return Wait;
      }
      if next.value.signature.Some? && !repeat {
        var taken := outbound.TakeFirst();
        FinishForward(taken.value.signature, false, now);
        outbound.CompleteCurrent();
        return Discard(taken.value);
      }
      if next.value.eligibleAt > now {
        return Wait;
      }
      var required := if duty >= 100 then 0 else settings.airtime(|next.value.packet|);
      var ready := budget.ReadyAtMs(now, required, duty);
      if ready > now {
        return Wait;
      }
      var taken := outbound.TakeFirst();
      return Transmit(taken.value);
    }

    /** The radio task after the radio answered; the charge uses the settings of the gate. */
    method EndTransmit(budget: AirtimeBudget, settings: RadioSettings, duty: u8, item: QueuedTransmit, ok: bool,
                       retryDelay: u32, t1: u64, t2: u64)
      requires Valid()
      modifies this, outbound, seenPackets, budget
      ensures View() == Ended(profile, old(View()), item, ok, retryDelay, t1)
      ensures budget.View() == if ok then Charged(old(budget.View()), t2, settings.airtime(|item.packet|), duty)
                               else old(budget.View())
    {
      if !ok {
        var retried := outbound.RetryCurrent(item, t1, retryDelay);
        if !retried {
          FinishForward(item.signature, false, t1);
          outbound.CompleteCurrent();
        }
        return;
      }
      FinishForward(item.signature, true, t1);
      outbound.CompleteCurrent();
      budget.RecordTransmit(t2, settings.airtime(|item.packet|), duty);
    }
  }
}
