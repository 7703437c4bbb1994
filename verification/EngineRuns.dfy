/** Whole runs of the engine: any interleaving of handler and radio steps under a clock that never
    goes back. */
module EngineRuns {
  import opened Bytes
  import opened Wrappers
  import opened SeenPackets
  import opened Outbound
  import opened Airtime
  import opened Engine

  datatype RadioTask = Idle | Sending(item: QueuedTransmit, settings: RadioSettings, duty: u8)

  datatype Charge = Charge(at: u64, airtime: u32)

  /** What has happened so far: forwards transmitted (with their frames), airtime charged, and what
      became of accepted packets. */
  datatype Log = Log(touches: seq<Seen>, frames: seq<seq<u8>>, charges: seq<Charge>,
                     accepted: nat, transmitted: nat, dropped: nat)

  datatype System = System(core: Core, budget: Budget, radio: RadioTask, clock: u64, log: Log)

  datatype Event =
    | HandlerForward(packet: seq<u8>, delay: u32, signature: Signature, t1: u64, t2: u64)
    | HandlerReply(packet: seq<u8>, delay: u32, reboot: bool, t1: u64)
    | RadioStart(settings: RadioSettings, duty: u8, repeat: bool, t1: u64)
    | RadioEnd(ok: bool, retryDelay: u32, t1: u64, t2: u64)
    | RadioPoll(duty: u8, t1: u64)

  function Init(now: u64, duty: u8): System {
    System(Core([], 0, [], []), NewBudget(now, duty), Idle, now, Log([], [], [], 0, 0, 0))
  }

  /** The last clock reading of an event. */
  function EndTime(e: Event): u64 {
    if e.HandlerForward? || e.RadioEnd? then e.t2 else e.t1
  }

  /** Clock readings go forward, and the radio task follows its own program order. */
  predicate Enabled(s: System, e: Event) {
    s.clock <= e.t1 <= EndTime(e) < U64_MAX
    && (e.RadioEnd? ==> s.radio.Sending?)
    && (e.RadioStart? || e.RadioPoll? ==> s.radio.Idle?)
  }

  function Step(p: Profile, s: System, e: Event): System
    requires Enabled(s, e)
  {
    match e
    case HandlerForward(packet, delay, sig, t1, t2) =>
      var (core, r) := Forwarded(p, s.core, packet, delay, sig, t1, t2);
      var log := if r == Ok(true) then s.log.(accepted := s.log.accepted + 1) else s.log;
      s.(core := core, clock := t2, log := log)
    case HandlerReply(packet, delay, reboot, t1) =>
      var (core, r) := Sent(p, s.core, Item(packet, delay, None, reboot, t1));
      var log := if r.Ok? then s.log.(accepted := s.log.accepted + 1) else s.log;
      s.(core := core, clock := t1, log := log)
    case RadioStart(settings, duty, repeat, t1) =>
      var (d, budget) := Decided(s.core, s.budget, settings, duty, repeat, t1);
      var s := s.(core := Started(p, s.core, d, t1), budget := budget, clock := t1);
      if d.Transmit? then s.(radio := Sending(d.item, settings, duty))
      else if d.Discard? then s.(log := s.log.(dropped := s.log.dropped + 1))
      else s
    case RadioEnd(ok, retryDelay, t1, t2) =>
      var Sending(item, settings, duty) := s.radio;
      var airtime := settings.airtime(|item.packet|);
      var budget := if ok then Charged(s.budget, t2, airtime, duty) else s.budget;
      s.(core := Ended(p, s.core, item, ok, retryDelay, t1), budget := budget, radio := Idle, clock := t2,
         log := LogEnd(s.log, item, ok, airtime, duty, t1, t2))
    case RadioPoll(duty, t1) =>
      s.(budget := if s.core.queue == [] then s.budget else Asked(s.budget, t1, duty), clock := t1)
  }

  function LogEnd(log: Log, item: QueuedTransmit, ok: bool, airtime: u32, duty: u8, t1: u64, t2: u64): Log {
    if ok then
      var log := log.(transmitted := log.transmitted + 1,
                      charges := if duty >= 100 then log.charges else log.charges + [Charge(t2, airtime)]);
      match item.signature
      case None => log
      case Some(sig) => log.(touches := log.touches + [Seen(sig, t1)], frames := log.frames + [item.packet])
    else if item.attempts + 1 < OUTBOUND_MAX_ATTEMPTS then log
    else log.(dropped := log.dropped + 1)
  }

  // ---------- The invariant ----------

  function CarriedBy(s: Option<Signature>): multiset<Signature> {
    if s.Some? then multiset{s.value} else multiset{}
  }

  function Carried(queue: seq<QueuedTransmit>): multiset<Signature> {
    if queue == [] then multiset{} else CarriedBy(queue[0].signature) + Carried(queue[1..])
  }

  function InFlight(radio: RadioTask): multiset<Signature> {
    if radio.Sending? then CarriedBy(radio.item.signature) else multiset{}
  }

  function Count(pending: seq<Signature>): multiset<Signature> {
    multiset(pending)
  }

  /** No forward was transmitted while the history still remembered its signature. */
  ghost predicate NoEarlyRepeat(touches: seq<Seen>, maxEntries: nat) {
    forall j :: 0 <= j < |touches| ==>
      !Remembers(touches[..j], SEEN_PACKET_TTL_MS, maxEntries, touches[j].signature, touches[j].at)
  }

  /** Reservations are exactly what the queue and the radio carry, once each, and never seen already. */
  ghost predicate ReservationsExact(core: Core, radio: RadioTask) {
    && Count(core.pending) == Carried(core.queue) + InFlight(radio)
    && (forall x: Signature :: Count(core.pending)[x] <= 1)
    && (forall x: Signature :: x in core.pending ==> x !in Signatures(core.seen))
  }

  ghost predicate QueueInOrder(p: Profile, core: Core, radio: RadioTask) {
    && core.active == (if radio.Sending? then 1 else 0)
    && |core.queue| + core.active <= p.Capacity()
    && ByEligibility(core.queue)
    && (forall i :: 0 <= i < |core.queue| ==> core.queue[i].attempts < OUTBOUND_MAX_ATTEMPTS)
    && (radio.Sending? ==> radio.item.attempts < OUTBOUND_MAX_ATTEMPTS)
  }

  ghost predicate BudgetSound(budget: Budget, radio: RadioTask, clock: u64) {
    && Solvent(budget) && budget.lastUpdate <= clock
    && (radio.Sending? && radio.duty < 100 ==>
          radio.settings.airtime(|radio.item.packet|) <= budget.available <= MaxBudget(radio.duty))
  }

  ghost predicate HistorySound(p: Profile, s: System) {
    && Represents(s.core.seen, s.log.touches, SEEN_PACKET_TTL_MS, p.seenCacheLen, s.clock)
    && Sorted(s.log.touches, s.clock) && |s.log.frames| == |s.log.touches|
    && NoEarlyRepeat(s.log.touches, p.seenCacheLen)
  }

  /** Every accepted packet is transmitted, dropped, queued or in flight. */
  ghost predicate Conserved(s: System) {
    s.log.accepted == s.log.transmitted + s.log.dropped + |s.core.queue| + s.core.active
  }

  ghost predicate Inv(p: Profile, s: System) {
    && ReservationsExact(s.core, s.radio) && QueueInOrder(p, s.core, s.radio)
    && BudgetSound(s.budget, s.radio, s.clock) && HistorySound(p, s) && Conserved(s)
  }

  // ---------- Lemmas about the pieces ----------

  lemma {:induction false} CarriedSplit(a: seq<QueuedTransmit>, b: seq<QueuedTransmit>)
    ensures Carried(a + b) == Carried(a) + Carried(b)
  {
    if a == [] {
      assert a + b == b;
    } else {
      assert (a + b)[1..] == a[1..] + b;
      CarriedSplit(a[1..], b);
    }
  }

  lemma CarriedAround(a: seq<QueuedTransmit>, item: QueuedTransmit, b: seq<QueuedTransmit>)
    ensures Carried(a + [item] + b) == Carried(a + b) + CarriedBy(item.signature)
  {
    CarriedSplit(a + [item], b);
    CarriedSplit(a, [item]);
    CarriedSplit(a, b);
    assert Carried([item]) == CarriedBy(item.signature) + multiset{};
    Commute(Carried(a), CarriedBy(item.signature), Carried(b));
  }

  lemma InsertedCarries(queue: seq<QueuedTransmit>, item: QueuedTransmit)
    ensures Carried(Inserted(queue, item)) == Carried(queue) + CarriedBy(item.signature)
  {
    var i := FirstLater(queue, item.eligibleAt);
    CarriedAround(queue[..i], item, queue[i..]);
    assert queue == queue[..i] + queue[i..];
  }

  lemma InsertedOrder(queue: seq<QueuedTransmit>, item: QueuedTransmit)
    requires ByEligibility(queue) && item.attempts < OUTBOUND_MAX_ATTEMPTS
    requires forall i :: 0 <= i < |queue| ==> queue[i].attempts < OUTBOUND_MAX_ATTEMPTS
    ensures ByEligibility(Inserted(queue, item))
    ensures forall i :: 0 <= i < |Inserted(queue, item)| ==> Inserted(queue, item)[i].attempts < OUTBOUND_MAX_ATTEMPTS
  {
    var i := InsertedIsFifo(queue, item);
    var r := Inserted(queue, item);
    assert forall j :: 0 <= j < |r| ==> r[j] == if j < i then queue[j] else if j == i then item else queue[j - 1];
  }

  lemma RemovedOne(s: seq<Signature>, x: Signature)
    requires x in s
    ensures multiset(Removed(s, x)) == multiset(s) - multiset{x}
  {
    var i := Position(s, x);
    assert s == s[..i] + [x] + s[i + 1..];
    assert multiset(s) == multiset(s[..i] + s[i + 1..]) + multiset{x};
  }

  lemma {:induction false} PrunedSubset(entries: seq<Seen>, now: u64)
    ensures Signatures(Pruned(entries, SEEN_PACKET_TTL_MS, now)) <= Signatures(entries)
  {
    if entries != [] && SatSub(now, entries[0].at) > SEEN_PACKET_TTL_MS {
      SplitAt(entries[..1], entries[1..], 0);
      assert entries == entries[..1] + entries[1..];
      PrunedSubset(entries[1..], now);
    }
  }

  lemma RepresentsLater(seen: seq<Seen>, touches: seq<Seen>, maxEntries: nat, clock: u64, now: u64)
    requires Represents(seen, touches, SEEN_PACKET_TTL_MS, maxEntries, clock) && clock <= now
    ensures Represents(seen, touches, SEEN_PACKET_TTL_MS, maxEntries, now)
  {
    forall x: Signature | x !in Signatures(seen)
      ensures !Remembers(touches, SEEN_PACKET_TTL_MS, maxEntries, x, now)
    {
      assert !Remembers(touches, SEEN_PACKET_TTL_MS, maxEntries, x, clock);
    }
  }

  lemma SameHistoryLater(p: Profile, s: System, seen: seq<Seen>, now: u64)
    requires HistorySound(p, s) && s.clock <= now
    requires seen == s.core.seen || seen == Pruned(s.core.seen, SEEN_PACKET_TTL_MS, now)
    ensures Represents(seen, s.log.touches, SEEN_PACKET_TTL_MS, p.seenCacheLen, now)
    ensures Sorted(s.log.touches, now)
  {
    if seen == s.core.seen {
      RepresentsLater(seen, s.log.touches, p.seenCacheLen, s.clock, now);
    } else {
      PruneRepresents(s.core.seen, s.log.touches, SEEN_PACKET_TTL_MS, p.seenCacheLen, s.clock, now);
    }
  }

  // ---------- Every step keeps the invariant ----------

  /** A refused forward changes at most the pruning of the cache; an accepted one adds one reservation
      and one queue entry. */
  lemma ForwardCases(p: Profile, c: Core, packet: seq<u8>, delay: u32, sig: Signature, t1: u64, t2: u64)
    ensures var (d, r) := Forwarded(p, c, packet, delay, sig, t1, t2);
            && d.active == c.active && (d.seen == c.seen || d.seen == Pruned(c.seen, SEEN_PACKET_TTL_MS, t1))
            && (r == Ok(true) ==>
                  && d.pending == c.pending + [sig] && sig !in c.pending && sig !in Signatures(d.seen)
                  && d.queue == Inserted(c.queue, Item(packet, delay, Some(sig), false, t2))
                  && |c.queue| + c.active < p.Capacity())
            && (r != Ok(true) ==> d.pending == c.pending && d.queue == c.queue)
  {
    var (c1, r) := Reserved(p, c, sig, t1);
    if r == Ok(true) {
      assert c1.pending[|c.pending|] == sig;
      assert Position(c1.pending, sig) == |c.pending|;
      assert c1.pending[..|c.pending|] == c.pending;
    }
  }

  function Reserving(pending: seq<Signature>, sig: Option<Signature>): seq<Signature> {
    if sig.Some? then pending + [sig.value] else pending
  }

  lemma ReservedOnce(pending: seq<Signature>, sig: Option<Signature>)
    requires (forall x: Signature :: Count(pending)[x] <= 1) && (sig.Some? ==> sig.value !in pending)
    ensures Count(Reserving(pending, sig)) == Count(pending) + CarriedBy(sig)
    ensures forall x: Signature :: Count(Reserving(pending, sig))[x] <= 1
  {
    assert sig.Some? ==> Count(pending)[sig.value] == 0;
  }

  /** A new packet joins the queue together with its reservation. */
  lemma Enqueued(p: Profile, core: Core, radio: RadioTask, item: QueuedTransmit)
    requires ReservationsExact(core, radio) && QueueInOrder(p, core, radio)
    requires |core.queue| + core.active < p.Capacity() && item.attempts == 0
    requires item.signature.Some? ==> item.signature.value !in core.pending
                                      && item.signature.value !in Signatures(core.seen)
    ensures var core' := core.(queue := Inserted(core.queue, item), pending := Reserving(core.pending, item.signature));
            ReservationsExact(core', radio) && QueueInOrder(p, core', radio)
  {
    InsertedCarries(core.queue, item);
    InsertedOrder(core.queue, item);
    ReservedOnce(core.pending, item.signature);
    Commute(Carried(core.queue), InFlight(radio), CarriedBy(item.signature));
  }

  lemma Commute(x: multiset<Signature>, y: multiset<Signature>, z: multiset<Signature>)
    ensures x + y + z == x + z + y
  {
  }

  lemma SmallerCache(core: Core, radio: RadioTask, seen: seq<Seen>)
    requires ReservationsExact(core, radio) && Signatures(seen) <= Signatures(core.seen)
    ensures ReservationsExact(core.(seen := seen), radio)
  {
  }

  lemma HandlerForwardKeeps(p: Profile, s: System, e: Event)
    requires Inv(p, s) && Enabled(s, e) && e.HandlerForward?
    ensures Inv(p, Step(p, s, e))
  {
    var item := Item(e.packet, e.delay, Some(e.signature), false, e.t2);
    var (core, r) := Forwarded(p, s.core, e.packet, e.delay, e.signature, e.t1, e.t2);
    ForwardCases(p, s.core, e.packet, e.delay, e.signature, e.t1, e.t2);
    PrunedSubset(s.core.seen, e.t1);
    SmallerCache(s.core, s.radio, core.seen);
    assert HistorySound(p, Step(p, s, e)) by {
      SameHistoryLater(p, s, core.seen, e.t1);
      SameHistoryLater(p, s.(core := core, clock := e.t1), core.seen, e.t2);
    }
    if r == Ok(true) {
      Enqueued(p, s.core.(seen := core.seen), s.radio, item);
    }
  }

  lemma HandlerReplyKeeps(p: Profile, s: System, e: Event)
    requires Inv(p, s) && Enabled(s, e) && e.HandlerReply?
    ensures Inv(p, Step(p, s, e))
  {
    SameHistoryLater(p, s, s.core.seen, e.t1);
    if |s.core.queue| + s.core.active < p.Capacity() {
      Enqueued(p, s.core, s.radio, Item(e.packet, e.delay, None, e.reboot, e.t1));
    }
  }

  lemma AskedSound(b: Budget, clock: u64, now: u64, duty: u8)
    requires Solvent(b) && b.lastUpdate <= clock <= now
    ensures var a := Asked(b, now, duty);
            Solvent(a) && a.lastUpdate <= now && (duty < 100 ==> a.available <= MaxBudget(duty))
  {
    UpdatedSolvent(b, now, duty);
  }

  lemma RadioPollKeeps(p: Profile, s: System, e: Event)
    requires Inv(p, s) && Enabled(s, e) && e.RadioPoll?
    ensures Inv(p, Step(p, s, e))
  {
    SameHistoryLater(p, s, s.core.seen, e.t1);
    AskedSound(s.budget, s.clock, e.t1, e.duty);
  }

  /** What is left when a reservation leaves with its packet. */
  lemma ReleaseKeeps(pending: seq<Signature>, sig: Option<Signature>, rest: multiset<Signature>)
    requires Count(pending) == rest + CarriedBy(sig) && forall x: Signature :: Count(pending)[x] <= 1
    ensures var left: seq<Signature> := if sig.Some? then Removed(pending, sig.value) else pending;
            && Count(left) == rest && (forall x: Signature :: Count(left)[x] <= 1)
            && (forall x: Signature :: x in left ==> x in pending && sig != Some(x))
            && (sig.Some? ==> sig.value in pending)
  {
    var left: seq<Signature> := if sig.Some? then Removed(pending, sig.value) else pending;
    if sig.Some? {
      assert sig.value in Count(pending);
      RemovedOne(pending, sig.value);
      assert Count(left) == rest;
    }
    forall x: Signature
      ensures x in left ==> x in pending && sig != Some(x)
    {
      assert x in left <==> Count(left)[x] > 0;
      assert x in pending <==> Count(pending)[x] > 0;
    }
  }

  lemma DequeuedOrder(p: Profile, core: Core, radio: RadioTask)
    requires QueueInOrder(p, core, Idle) && core.queue != []
    requires radio.Sending? ==> radio.item == core.queue[0]
    ensures QueueInOrder(p, core.(queue := core.queue[1..], active := if radio.Sending? then 1 else 0), radio)
  {
  }

  /** Reservations after a packet has left, transmitted or not. */
  lemma Departed(core: Core, radio: RadioTask, item: QueuedTransmit, queue: seq<QueuedTransmit>, seen: seq<Seen>,
      active: nat)
    requires ReservationsExact(core, radio)
    requires Carried(core.queue) + InFlight(radio) == Carried(queue) + CarriedBy(item.signature)
    requires Signatures(seen) <= Signatures(core.seen) + (if item.signature.Some? then {item.signature.value} else {})
    ensures var left := if item.signature.Some? then Removed(core.pending, item.signature.value) else core.pending;
            ReservationsExact(Core(queue, active, left, seen), Idle)
  {
    ReleaseKeeps(core.pending, item.signature, Carried(queue));
  }

  /** The head packet moves from the queue to the radio. */
  lemma Launched(p: Profile, core: Core, radio: RadioTask)
    requires ReservationsExact(core, Idle) && QueueInOrder(p, core, Idle)
    requires core.queue != [] && radio.Sending? && radio.item == core.queue[0]
    ensures var core' := core.(queue := core.queue[1..], active := 1);
            ReservationsExact(core', radio) && QueueInOrder(p, core', radio)
  {
    DequeuedOrder(p, core, radio);
    var x, y := Carried(core.queue[1..]), CarriedBy(core.queue[0].signature);
    assert y + x + multiset{} == x + y;
  }

  /** The head packet is thrown away with its reservation. */
  lemma Discarded(p: Profile, core: Core, now: u64)
    requires ReservationsExact(core, Idle) && QueueInOrder(p, core, Idle) && core.queue != []
    ensures var core' := Started(p, core, Discard(core.queue[0]), now);
            && ReservationsExact(core', Idle) && QueueInOrder(p, core', Idle)
            && core'.seen == core.seen && core'.queue == core.queue[1..] && core'.active == 0
  {
    DequeuedOrder(p, core, Idle);
    Departed(core, Idle, core.queue[0], core.queue[1..], core.seen, 0);
  }

  /** The gate covers the packet it lets through. */
  lemma GateSound(core: Core, b: Budget, clock: u64, settings: RadioSettings, duty: u8, repeat: bool, now: u64)
    requires Solvent(b) && b.lastUpdate <= clock <= now < U64_MAX
    ensures var (d, budget) := Decided(core, b, settings, duty, repeat, now);
            && Solvent(budget) && budget.lastUpdate <= now
            && (d != Wait ==> core.queue != [] && d.item == core.queue[0])
            && (d.Discard? ==> budget == b)
            && (d.Transmit? && duty < 100 ==> settings.airtime(|d.item.packet|) <= budget.available <= MaxBudget(duty))
  {
    AskedSound(b, clock, now, duty);
    var (d, budget) := Decided(core, b, settings, duty, repeat, now);
    if d.Transmit? && duty < 100 {
      GateIsExact(budget, now, settings.airtime(|d.item.packet|), duty);
    }
  }

  /** Dropping a packet keeps everything, whatever the core that is left. */
  lemma DropKeeps(p: Profile, s: System, core: Core, now: u64)
    requires Inv(p, s) && s.radio.Idle? && s.clock <= now
    requires ReservationsExact(core, Idle) && QueueInOrder(p, core, Idle)
    requires core.seen == s.core.seen && |core.queue| == |s.core.queue| - 1
    ensures Inv(p, System(core, s.budget, Idle, now, s.log.(dropped := s.log.dropped + 1)))
  {
    SameHistoryLater(p, s, s.core.seen, now);
  }

  lemma StartDiscards(p: Profile, s: System, e: Event)
    requires Inv(p, s) && Enabled(s, e) && e.RadioStart?
    requires Decided(s.core, s.budget, e.settings, e.duty, e.repeat, e.t1).0.Discard?
    ensures Inv(p, Step(p, s, e))
  {
    hide ReservationsExact, HistorySound, BudgetSound, ByEligibility;
    Discarded(p, s.core, e.t1);
    DropKeeps(p, s, Started(p, s.core, Discard(s.core.queue[0]), e.t1), e.t1);
  }

  lemma StartTransmits(p: Profile, s: System, e: Event)
    requires Inv(p, s) && Enabled(s, e) && e.RadioStart?
    requires Decided(s.core, s.budget, e.settings, e.duty, e.repeat, e.t1).0.Transmit?
    ensures Inv(p, Step(p, s, e))
  {
    var (d, budget) := Decided(s.core, s.budget, e.settings, e.duty, e.repeat, e.t1);
    var radio := Sending(d.item, e.settings, e.duty);
    var s' := System(Started(p, s.core, d, e.t1), budget, radio, e.t1, s.log);
    GateSound(s.core, s.budget, s.clock, e.settings, e.duty, e.repeat, e.t1);
    Launched(p, s.core, radio);
    SameHistoryLater(p, s, s.core.seen, e.t1);
    assert Step(p, s, e) == s';
  }

  lemma RadioStartKeeps(p: Profile, s: System, e: Event)
    requires Inv(p, s) && Enabled(s, e) && e.RadioStart?
    ensures Inv(p, Step(p, s, e))
  {
    var (d, budget) := Decided(s.core, s.budget, e.settings, e.duty, e.repeat, e.t1);
    if d.Discard? {
      StartDiscards(p, s, e);
    } else if d.Transmit? {
      StartTransmits(p, s, e);
    } else {
      SameHistoryLater(p, s, s.core.seen, e.t1);
      GateSound(s.core, s.budget, s.clock, e.settings, e.duty, e.repeat, e.t1);
      assert Step(p, s, e) == s.(budget := budget, clock := e.t1);
    }
  }

  lemma Subtouches(touches: seq<Seen>, touch: Seen, maxEntries: nat)
    requires NoEarlyRepeat(touches, maxEntries)
    requires !Remembers(touches, SEEN_PACKET_TTL_MS, maxEntries, touch.signature, touch.at)
    ensures NoEarlyRepeat(touches + [touch], maxEntries)
  {
    var all := touches + [touch];
    forall j | 0 <= j < |all|
      ensures !Remembers(all[..j], SEEN_PACKET_TTL_MS, maxEntries, all[j].signature, all[j].at)
    {
      assert all[..j] == touches[..j];
      assert touches[..|touches|] == touches;
    }
  }

  lemma SortedPush(touches: seq<Seen>, clock: u64, touch: Seen, now: u64)
    requires Sorted(touches, clock) && clock <= touch.at <= now
    ensures Sorted(touches + [touch], now)
  {
  }

  /** A transmitted forward was reserved, so the history had forgotten it: touching it is no repeat. */
  lemma TransmitHistory(p: Profile, s: System, sig: Signature, t1: u64, t2: u64)
    requires HistorySound(p, s) && s.clock <= t1 <= t2 && sig !in Signatures(s.core.seen)
    ensures var touches := s.log.touches + [Seen(sig, t1)];
            && Represents(Touched(s.core.seen, p.seenCacheLen, sig, t1), touches,
                          SEEN_PACKET_TTL_MS, p.seenCacheLen, t2)
            && Sorted(touches, t2) && NoEarlyRepeat(touches, p.seenCacheLen)
    ensures Signatures(Touched(s.core.seen, p.seenCacheLen, sig, t1)) <= Signatures(s.core.seen) + {sig}
  {
    var touch := Seen(sig, t1);
    var seen := Touched(s.core.seen, p.seenCacheLen, sig, t1);
    RepresentsLater(s.core.seen, s.log.touches, p.seenCacheLen, s.clock, t1);
    Subtouches(s.log.touches, touch, p.seenCacheLen);
    SortedPush(s.log.touches, s.clock, touch, t2);
    TouchRepresents(s.core.seen, s.log.touches, SEEN_PACKET_TTL_MS, p.seenCacheLen, s.clock, touch);
    RepresentsLater(seen, s.log.touches + [touch], p.seenCacheLen, t1, t2);
    WithoutKeeps(s.core.seen, sig, s.clock);
    TouchedSubset(s.core.seen, p.seenCacheLen, touch);
  }

  lemma TouchedSubset(entries: seq<Seen>, maxEntries: nat, touch: Seen)
    requires Distinct(entries) && |entries| <= maxEntries && |Without(entries, touch.signature)| <= |entries|
    ensures Signatures(Touched(entries, maxEntries, touch.signature, touch.at))
            <= Signatures(entries) + {touch.signature}
  {
    var kept := Without(entries, touch.signature) + [touch];
    var d := TouchedIsSuffix(entries, maxEntries, touch);
    MoveToNewest(entries, touch, touch.signature);
    SplitAt(kept[..d], kept[d..], touch.signature);
    assert kept == kept[..d] + kept[d..];
  }

  lemma EndBudget(p: Profile, s: System, e: Event)
    requires Inv(p, s) && Enabled(s, e) && e.RadioEnd?
    ensures BudgetSound(Step(p, s, e).budget, Idle, e.t2)
  {
    var Sending(item, settings, duty) := s.radio;
    if e.ok && duty < 100 {
      ChargeCredit(s.budget, e.t2, settings.airtime(|item.packet|), duty);
    }
  }

  /** The packet in flight leaves with its reservation, and its touch enters the cache. */
  lemma Landed(p: Profile, core: Core, radio: RadioTask, seen: seq<Seen>)
    requires ReservationsExact(core, radio) && QueueInOrder(p, core, radio) && radio.Sending?
    requires Signatures(seen) <= Signatures(core.seen)
                                 + (if radio.item.signature.Some? then {radio.item.signature.value} else {})
    ensures var sig := radio.item.signature;
            var core' := Core(core.queue, 0, if sig.Some? then Removed(core.pending, sig.value)
                                   else core.pending, seen);
            ReservationsExact(core', Idle) && QueueInOrder(p, core', Idle)
  {
    Departed(core, radio, radio.item, core.queue, seen, 0);
  }

  lemma RadioEndOk(p: Profile, s: System, e: Event)
    requires Inv(p, s) && Enabled(s, e) && e.RadioEnd? && e.ok
    ensures Inv(p, Step(p, s, e))
  {
    var Sending(item, settings, duty) := s.radio;
    var core := Ended(p, s.core, item, true, e.retryDelay, e.t1);
    var log := LogEnd(s.log, item, true, settings.airtime(|item.packet|), duty, e.t1, e.t2);
    var s' := System(core, Step(p, s, e).budget, Idle, e.t2, log);
    EndBudget(p, s, e);
    assert Step(p, s, e) == s';
    if item.signature.Some? {
      ReleaseKeeps(s.core.pending, item.signature, Carried(s.core.queue));
      TransmitHistory(p, s, item.signature.value, e.t1, e.t2);
    } else {
      SameHistoryLater(p, s, s.core.seen, e.t2);
    }
    Landed(p, s.core, s.radio, core.seen);
    assert Inv(p, s');
  }

  lemma Requeued(p: Profile, core: Core, radio: RadioTask, again: QueuedTransmit)
    requires ReservationsExact(core, radio) && QueueInOrder(p, core, radio) && radio.Sending?
    requires again.signature == radio.item.signature && again.attempts < OUTBOUND_MAX_ATTEMPTS
    ensures var core' := core.(queue := Inserted(core.queue, again), active := 0);
            ReservationsExact(core', Idle) && QueueInOrder(p, core', Idle)
  {
    InsertedCarries(core.queue, again);
    InsertedOrder(core.queue, again);
  }

  /** A failure that leaves cache and history alone keeps the invariant, whatever queue it leaves. */
  lemma FailedKeeps(p: Profile, s: System, core: Core, log: Log, now: u64)
    requires Inv(p, s) && s.radio.Sending? && s.clock <= now
    requires ReservationsExact(core, Idle) && QueueInOrder(p, core, Idle) && core.seen == s.core.seen
    requires log.touches == s.log.touches && log.frames == s.log.frames
    requires log.accepted == log.transmitted + log.dropped + |core.queue| + core.active
    ensures Inv(p, System(core, s.budget, Idle, now, log))
  {
    hide ReservationsExact, QueueInOrder, Represents, NoEarlyRepeat, Sorted;
    SameHistoryLater(p, s, s.core.seen, now);
  }

  lemma RetryKeeps(p: Profile, s: System, e: Event)
    requires Inv(p, s) && Enabled(s, e) && e.RadioEnd? && !e.ok && s.radio.item.attempts + 1 < OUTBOUND_MAX_ATTEMPTS
    ensures Inv(p, Step(p, s, e))
  {
    hide ReservationsExact, HistorySound, BudgetSound, FirstLater;
    var again := Retried(s.radio.item, e.t1, e.retryDelay);
    Requeued(p, s.core, s.radio, again);
    var core := s.core.(queue := Inserted(s.core.queue, again), active := 0);
    FailedKeeps(p, s, core, s.log, e.t2);
    assert Step(p, s, e) == System(core, s.budget, Idle, e.t2, s.log);
  }

  lemma GiveUpKeeps(p: Profile, s: System, e: Event)
    requires Inv(p, s) && Enabled(s, e) && e.RadioEnd? && !e.ok && s.radio.item.attempts + 1 >= OUTBOUND_MAX_ATTEMPTS
    ensures Inv(p, Step(p, s, e))
  {
    hide ReservationsExact, HistorySound, BudgetSound, Removed;
    var item := s.radio.item;
    var left := if item.signature.Some? then Removed(s.core.pending, item.signature.value) else s.core.pending;
    var core := Core(s.core.queue, 0, left, s.core.seen);
    Landed(p, s.core, s.radio, s.core.seen);
    FailedKeeps(p, s, core, s.log.(dropped := s.log.dropped + 1), e.t2);
    assert Step(p, s, e) == System(core, s.budget, Idle, e.t2, s.log.(dropped := s.log.dropped + 1));
  }

  lemma RadioEndFailed(p: Profile, s: System, e: Event)
    requires Inv(p, s) && Enabled(s, e) && e.RadioEnd? && !e.ok
    ensures Inv(p, Step(p, s, e))
  {
    hide Inv, Step;
    if s.radio.item.attempts + 1 < OUTBOUND_MAX_ATTEMPTS {
      RetryKeeps(p, s, e);
    } else {
      GiveUpKeeps(p, s, e);
    }
  }

  lemma StepKeeps(p: Profile, s: System, e: Event)
    requires Inv(p, s) && Enabled(s, e)
    ensures Inv(p, Step(p, s, e)) && Step(p, s, e).clock == EndTime(e)
  {
    match e
    case HandlerForward(_, _, _, _, _) => HandlerForwardKeeps(p, s, e);
    case HandlerReply(_, _, _, _) => HandlerReplyKeeps(p, s, e);
    case RadioStart(_, _, _, _) => RadioStartKeeps(p, s, e);
    case RadioEnd(_, _, _, _) => if e.ok { RadioEndOk(p, s, e); } else { RadioEndFailed(p, s, e); }
    case RadioPoll(_, _) => RadioPollKeeps(p, s, e);
  }

  // ---------- Runs ----------

  ghost predicate Legal(p: Profile, s: System, es: seq<Event>)
    decreases |es|, 0
  {
    es == [] || (Legal(p, s, Front(es)) && Enabled(Run(p, s, Front(es)), Last(es)))
  }

  ghost function Run(p: Profile, s: System, es: seq<Event>): System
    requires Legal(p, s, es)
    decreases |es|, 1
  {
    if es == [] then s else Step(p, Run(p, s, Front(es)), Last(es))
  }

  lemma InitInv(p: Profile, now: u64, duty: u8)
    ensures Inv(p, Init(now, duty))
  {
  }

  lemma {:induction false} RunKeeps(p: Profile, s: System, es: seq<Event>)
    requires Inv(p, s) && Legal(p, s, es)
    ensures Inv(p, Run(p, s, es))
  {
    if es == [] {
    } else {
      RunKeeps(p, s, Front(es));
      StepKeeps(p, Run(p, s, Front(es)), Last(es));
    }
  }
}
