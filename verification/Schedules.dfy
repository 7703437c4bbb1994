/** When the engine takes a packet, starts, discards or retries it, in terms of queue, clock, budget and
    history; and that over every run nothing leaves before its time. */
module Schedules {
  import opened Bytes
  import opened Wrappers
  import opened SeenPackets
  import opened Outbound
  import opened Airtime
  import opened Engine
  import opened EngineRuns

  // ---------- What each step does ----------

  /** The node still knows the signature: reserved, or transmitted in the last 15 seconds with fewer others
      since than the cache holds. */
  ghost predicate Holds(p: Profile, s: System, sig: Signature, now: u64) {
    sig in s.core.pending || Remembers(s.log.touches, 15_000, p.seenCacheLen, sig, now)
  }

  /** At most sixteen packets, or as many as configured if that is less, are queued or in flight. */
  predicate HasRoom(p: Profile, c: Core) {
    |c.queue| + c.active < Min(p.outboundQueueLen, 16)
  }

  /** The reading plus the delay, unless the clock cannot say it. */
  function Due(at: u64, delay: u32): u64 {
    Min(at + delay, 0xFFFF_FFFF_FFFF_FFFF)
  }

  /** The budget covers the packet: what is left plus the configured percentage, of which 0 counts as 1, of
      the time since, up to that percentage of an hour; at 100 percent everything is covered. */
  predicate Affords(b: Budget, airtime: u32, duty: u8, now: u64) {
    duty >= 100 ||
    var percent := if duty == 0 then 1 else duty;
    airtime <= Min(36_000 * percent, b.available + percent * (now - b.lastUpdate) / 100)
  }

  /** The engine takes the forward into its queue. */
  ghost predicate Accepted(p: Profile, s: System, e: Event)
    requires e.HandlerForward?
  {
    Forwarded(p, s.core, e.packet, e.delay, e.signature, e.t1, e.t2).1 == Ok(true)
  }

  lemma {:induction false} CarriedCount(queue: seq<QueuedTransmit>)
    ensures |Carried(queue)| <= |queue|
  {
    if queue == [] {
    } else {
      CarriedCount(queue[1..]);
    }
  }

  /** Reservations never run out before the queue does. */
  lemma ReservationsFit(p: Profile, core: Core, radio: RadioTask)
    requires ReservationsExact(core, radio) && QueueInOrder(p, core, radio)
    ensures |core.pending| <= |core.queue| + core.active
  {
    CarriedCount(core.queue);
    assert |Count(core.pending)| == |core.pending|;
    assert |InFlight(radio)| <= core.active;
  }

  /** A forward is taken exactly when its signature is neither reserved nor remembered and the queue has
      room; then it is queued as it is, due after its delay, and otherwise queue and reservations stay as
      they were. */
  lemma AcceptedExactly(p: Profile, s: System, e: Event)
    requires Inv(p, s) && Enabled(s, e) && e.HandlerForward?
    ensures Accepted(p, s, e) <==> !Holds(p, s, e.signature, e.t1) && HasRoom(p, s.core)
    ensures var s' := Step(p, s, e);
            if Accepted(p, s, e) then
              && s'.core.pending == s.core.pending + [e.signature] && s'.log.accepted == s.log.accepted + 1
              && s'.core.queue == Inserted(s.core.queue,
                                           QueuedTransmit(Due(e.t2, e.delay), 0, e.packet, Some(e.signature), false))
            else
              s'.core.pending == s.core.pending && s'.core.queue == s.core.queue && s'.log == s.log
  {
    hide ReservationsExact, QueueInOrder, Represents, Remembers;
    ContainsIsRemembers(s.core.seen, s.log.touches, SEEN_PACKET_TTL_MS, p.seenCacheLen, s.clock, e.t1, e.signature);
    ReservationsFit(p, s.core, s.radio);
    ForwardCases(p, s.core, e.packet, e.delay, e.signature, e.t1, e.t2);
    ForwardTaken(p, s.core, e.packet, e.delay, e.signature, e.t1, e.t2);
  }

  lemma ForwardTaken(p: Profile, c: Core, packet: seq<u8>, delay: u32, sig: Signature, t1: u64, t2: u64)
    ensures Forwarded(p, c, packet, delay, sig, t1, t2).1 == Ok(true) <==>
              && sig !in c.pending && sig !in Signatures(Pruned(c.seen, SEEN_PACKET_TTL_MS, t1))
              && |c.pending| < p.Capacity() && |c.queue| + c.active < p.Capacity()
  {
  }

  /** A reply of the node's own is taken exactly when the queue has room, and due after its delay. */
  lemma ReplyExactly(p: Profile, s: System, e: Event)
    requires Enabled(s, e) && e.HandlerReply?
    ensures var s' := Step(p, s, e);
            && s'.core.pending == s.core.pending && s'.core.seen == s.core.seen
            && (if HasRoom(p, s.core) then
                  && s'.log == s.log.(accepted := s.log.accepted + 1)
                  && s'.core.queue == Inserted(s.core.queue,
                                               QueuedTransmit(Due(e.t1, e.delay), 0, e.packet, None, e.reboot))
                else s'.core == s.core && s'.log == s.log)
  {
  }

  /** The head is a forward that is no longer wanted. */
  predicate Unwanted(c: Core, repeat: bool) {
    c.queue != [] && c.queue[0].signature.Some? && !repeat
  }

  /** The head may go out now: wanted, due, and covered by the budget. */
  predicate MayStart(c: Core, b: Budget, settings: RadioSettings, duty: u8, repeat: bool, now: u64) {
    && c.queue != [] && (c.queue[0].signature.Some? ==> repeat)
    && c.queue[0].eligibleAt <= now && Affords(b, settings.airtime(|c.queue[0].packet|), duty, now)
  }

  /** The decision of the radio task: it discards a forward at the head exactly while repeating is off,
      transmits the head exactly when it is wanted, due and covered, and otherwise waits. */
  lemma DecidedExactly(p: Profile, s: System, e: Event)
    requires Inv(p, s) && Enabled(s, e) && e.RadioStart?
    ensures Decided(s.core, s.budget, e.settings, e.duty, e.repeat, e.t1).0 ==
            if Unwanted(s.core, e.repeat) then Discard(s.core.queue[0])
            else if MayStart(s.core, s.budget, e.settings, e.duty, e.repeat, e.t1) then Transmit(s.core.queue[0])
            else Wait
  {
    hide ReservationsExact, QueueInOrder, HistorySound, Conserved, ReadyAt, Updated;
    if s.core.queue != [] && e.duty < 100 {
      var airtime := e.settings.airtime(|s.core.queue[0].packet|);
      RefillExactly(s.budget, e.t1, e.duty);
      UpdatedSolvent(s.budget, e.t1, e.duty);
      GateIsExact(Updated(s.budget, e.t1, e.duty), e.t1, airtime, e.duty);
    } else if s.core.queue != [] {
      UnlimitedExactly(s.budget, e.t1, 0, e.duty);
    }
  }

  /** And what becomes of the state: a discarded forward leaves with its reservation and is not
      remembered, a started packet moves to the radio with its reservation, and waiting changes neither
      queue nor log. */
  lemma StartExactly(p: Profile, s: System, e: Event)
    requires Inv(p, s) && Enabled(s, e) && e.RadioStart?
    ensures var s' := Step(p, s, e);
            if Unwanted(s.core, e.repeat) then
              && s'.core.queue == s.core.queue[1..] && s'.radio == Idle && s'.core.seen == s.core.seen
              && Count(s.core.pending) == Count(s'.core.pending) + multiset{s.core.queue[0].signature.value}
              && s'.log == s.log.(dropped := s.log.dropped + 1)
            else if MayStart(s.core, s.budget, e.settings, e.duty, e.repeat, e.t1) then
              && s'.core == s.core.(queue := s.core.queue[1..], active := 1) && s'.log == s.log
              && s'.radio == Sending(s.core.queue[0], e.settings, e.duty)
            else
              s'.core == s.core && s'.radio == Idle && s'.log == s.log
  {
    hide Inv, Decided, Affords, Removed;
    DecidedExactly(p, s, e);
    IdleIsInactive(p, s);
    if Unwanted(s.core, e.repeat) {
      UnwantedLeaves(s.core, s.radio);
    }
  }

  lemma IdleIsInactive(p: Profile, s: System)
    requires Inv(p, s) && s.radio.Idle?
    ensures s.core.active == 0 && ReservationsExact(s.core, s.radio)
  {
  }

  lemma UnwantedLeaves(core: Core, radio: RadioTask)
    requires ReservationsExact(core, radio) && radio.Idle? && core.queue != [] && core.queue[0].signature.Some?
    ensures var sig := core.queue[0].signature.value;
            Count(core.pending) == Count(Removed(core.pending, sig)) + multiset{sig}
  {
    hide Removed;
    var sig, rest := core.queue[0].signature, Carried(core.queue[1..]);
    assert Count(core.pending) == rest + CarriedBy(sig);
    ReleaseKeeps(core.pending, sig, rest);
  }

  /** The packet's reservation, if it has one, is gone. */
  ghost predicate Left(before: Core, after: Core, item: QueuedTransmit) {
    Count(before.pending) == Count(after.pending) + CarriedBy(item.signature)
  }

  /** A forward is recorded with signature, time and frame; a packet of the node's own is not. */
  predicate Recorded(before: Log, after: Log, item: QueuedTransmit, at: u64) {
    match item.signature
    case None => after.touches == before.touches && after.frames == before.frames
    case Some(sig) => after.touches == before.touches + [Seen(sig, at)] && after.frames == before.frames + [item.packet]
  }

  /** What the radio's answer does.  A success is logged with its frame, remembered under its signature and
      charged; a failure up to the fourth attempt puts the packet back, due after the retry delay, with its
      reservation; the fifth drops both. */
  lemma EndExactly(p: Profile, s: System, e: Event)
    requires Inv(p, s) && Enabled(s, e) && e.RadioEnd?
    ensures var s', item := Step(p, s, e), s.radio.item;
            && s'.radio == Idle && s'.core.active == 0
            && (if e.ok then
                  && s'.core.queue == s.core.queue && s'.log.transmitted == s.log.transmitted + 1
                  && Left(s.core, s'.core, item) && Recorded(s.log, s'.log, item, e.t1)
                  && s'.log.dropped == s.log.dropped && s'.log.accepted == s.log.accepted
                else if item.attempts < 4 then
                  && s'.core.pending == s.core.pending && s'.log == s.log && s'.budget == s.budget
                  && s'.core.queue == Inserted(s.core.queue, item.(attempts := item.attempts + 1,
                                                                   eligibleAt := Due(e.t1, e.retryDelay)))
                else
                  && s'.core.queue == s.core.queue && Left(s.core, s'.core, item) && s'.budget == s.budget
                  && s'.log == s.log.(dropped := s.log.dropped + 1))
  {
    hide Inv, Step, Left, Recorded, Inserted;
    if e.ok {
      SuccessIs(p, s, e);
    } else if s.radio.item.attempts < 4 {
      RetryIs(p, s, e);
    } else {
      FailureIs(p, s, e);
    }
  }

  lemma SuccessIs(p: Profile, s: System, e: Event)
    requires Inv(p, s) && Enabled(s, e) && e.RadioEnd? && e.ok
    ensures var s', item := Step(p, s, e), s.radio.item;
            && s'.radio == Idle && s'.core.active == 0
            && s'.core.queue == s.core.queue && s'.log.transmitted == s.log.transmitted + 1
            && Left(s.core, s'.core, item) && Recorded(s.log, s'.log, item, e.t1)
            && s'.log.dropped == s.log.dropped && s'.log.accepted == s.log.accepted
  {
    hide HistorySound, BudgetSound, Charged, QueueInOrder, Conserved, Removed;
    ReleaseKeeps(s.core.pending, s.radio.item.signature, Carried(s.core.queue));
  }

  lemma RetryIs(p: Profile, s: System, e: Event)
    requires Enabled(s, e) && e.RadioEnd? && !e.ok && s.radio.item.attempts < 4
    ensures var s', item := Step(p, s, e), s.radio.item;
            && s'.radio == Idle && s'.core.active == 0
            && s'.core.pending == s.core.pending && s'.log == s.log && s'.budget == s.budget
            && s'.core.queue == Inserted(s.core.queue, item.(attempts := item.attempts + 1,
                                                             eligibleAt := Due(e.t1, e.retryDelay)))
  {
    hide Inserted, Removed;
  }

  lemma FailureIs(p: Profile, s: System, e: Event)
    requires Inv(p, s) && Enabled(s, e) && e.RadioEnd? && !e.ok && s.radio.item.attempts >= 4
    ensures var s', item := Step(p, s, e), s.radio.item;
            && s'.radio == Idle && s'.core.active == 0 && s'.core.queue == s.core.queue
            && Left(s.core, s'.core, item) && s'.budget == s.budget
            && s'.log == s.log.(dropped := s.log.dropped + 1)
  {
    hide HistorySound, BudgetSound, Charged, QueueInOrder, Conserved, Removed;
    ReleaseKeeps(s.core.pending, s.radio.item.signature, Carried(s.core.queue));
  }

  /** A transmission is charged with its own airtime at its end, and unlimited ones not at all. */
  lemma ChargedExactly(p: Profile, s: System, e: Event)
    requires Inv(p, s) && Enabled(s, e) && e.RadioEnd? && e.ok
    ensures var s', duty, airtime := Step(p, s, e), s.radio.duty, s.radio.settings.airtime(|s.radio.item.packet|);
            if duty >= 100 then s'.log.charges == s.log.charges && s'.budget == s.budget
            else
              && s'.log.charges == s.log.charges + [Charge(e.t2, airtime)]
              && s'.budget.available
                 == var percent := if duty == 0 then 1 else duty;
                    Min(36_000 * percent, s.budget.available + percent * (e.t2 - s.budget.lastUpdate) / 100) - airtime
  {
    hide HistorySound, ReservationsExact, QueueInOrder, Ended;
    if s.radio.duty < 100 {
      ChargeExactly(s.budget, e.t2, s.radio.settings.airtime(|s.radio.item.packet|), s.radio.duty);
    } else {
      UnlimitedExactly(s.budget, e.t2, s.radio.settings.airtime(|s.radio.item.packet|), s.radio.duty);
    }
  }

  // ---------- Over whole runs ----------

  /** The packet that an event puts into the queue, with the time it is due. */
  ghost function Enqueues(p: Profile, s: System, e: Event): Option<QueuedTransmit>
    requires Enabled(s, e)
  {
    match e
    case HandlerForward(packet, delay, sig, t1, t2) =>
      if !Holds(p, s, sig, t1) && HasRoom(p, s.core) then
        Some(QueuedTransmit(Due(t2, delay), 0, packet, Some(sig), false))
      else None
    case HandlerReply(packet, delay, reboot, t1) =>
      if HasRoom(p, s.core) then Some(QueuedTransmit(Due(t1, delay), 0, packet, None, reboot)) else None
    case RadioEnd(ok, retryDelay, t1, _) =>
      if !ok && s.radio.item.attempts < 4 then
        Some(s.radio.item.(attempts := s.radio.item.attempts + 1, eligibleAt := Due(t1, retryDelay)))
      else None
    case _ => None
  }

  /** The packet that the radio task takes off the queue, to transmit or to discard it. */
  function TakesOff(s: System, e: Event): Option<QueuedTransmit> {
    if e.RadioStart? && (Unwanted(s.core, e.repeat)
                         || MayStart(s.core, s.budget, e.settings, e.duty, e.repeat, e.t1)) then Some(s.core.queue[0])
    else None
  }

  function Single(item: Option<QueuedTransmit>): multiset<QueuedTransmit> {
    if item.Some? then multiset{item.value} else multiset{}
  }

  lemma InsertedContents(queue: seq<QueuedTransmit>, item: QueuedTransmit)
    ensures multiset(Inserted(queue, item)) == multiset(queue) + multiset{item}
  {
    var i := FirstLater(queue, item.eligibleAt);
    assert queue == queue[..i] + queue[i..];
  }

  lemma StepMoves(p: Profile, s: System, e: Event)
    requires Inv(p, s) && Enabled(s, e)
    ensures multiset(Step(p, s, e).core.queue) + Single(TakesOff(s, e))
            == multiset(s.core.queue) + Single(Enqueues(p, s, e))
  {
    hide Inv, Step, Enqueues, TakesOff;
    if e.RadioStart? {
      StartMoves(p, s, e);
    } else {
      OthersMove(p, s, e);
    }
  }

  /** Every other event leaves the queue as it was, but for the packet it puts in. */
  lemma OthersMove(p: Profile, s: System, e: Event)
    requires Inv(p, s) && Enabled(s, e) && !e.RadioStart?
    ensures TakesOff(s, e) == None
    ensures multiset(Step(p, s, e).core.queue) == multiset(s.core.queue) + Single(Enqueues(p, s, e))
  {
    hide Inv, Step, Inserted, Holds, HasRoom, Accepted, Left, Recorded;
    if Enqueues(p, s, e).Some? {
      InsertedContents(s.core.queue, Enqueues(p, s, e).value);
    }
    match e
    case HandlerForward(_, _, _, _, _) => AcceptedExactly(p, s, e);
    case HandlerReply(_, _, _, _) => ReplyExactly(p, s, e);
    case RadioEnd(_, _, _, _) => EndExactly(p, s, e);
    case RadioPoll(_, _) => PollKeepsQueue(p, s, e);
  }

  lemma StartMoves(p: Profile, s: System, e: Event)
    requires Inv(p, s) && Enabled(s, e) && e.RadioStart?
    ensures Enqueues(p, s, e) == None
    ensures multiset(Step(p, s, e).core.queue) + Single(TakesOff(s, e)) == multiset(s.core.queue)
  {
    hide Inv, Step, Affords;
    StartExactly(p, s, e);
    if TakesOff(s, e).Some? {
      HeadAndRest(s.core.queue);
    } else {
      assert Step(p, s, e).core.queue == s.core.queue;
    }
  }

  lemma HeadAndRest(queue: seq<QueuedTransmit>)
    requires queue != []
    ensures multiset(queue[1..]) + multiset{queue[0]} == multiset(queue)
  {
    assert queue == [queue[0]] + queue[1..];
  }

  lemma PollKeepsQueue(p: Profile, s: System, e: Event)
    requires Enabled(s, e) && e.RadioPoll?
    ensures Step(p, s, e).core == s.core && Step(p, s, e).log == s.log && Step(p, s, e).radio == s.radio
  {
  }

  ghost function EnqueuedIn(p: Profile, s: System, es: seq<Event>): multiset<QueuedTransmit>
    requires Legal(p, s, es)
  {
    if es == [] then multiset{}
    else EnqueuedIn(p, s, Front(es)) + Single(Enqueues(p, Run(p, s, Front(es)), Last(es)))
  }

  ghost function TakenIn(p: Profile, s: System, es: seq<Event>): multiset<QueuedTransmit>
    requires Legal(p, s, es)
  {
    if es == [] then multiset{} else TakenIn(p, s, Front(es)) + Single(TakesOff(Run(p, s, Front(es)), Last(es)))
  }

  /** Packet for packet, with its due time and its attempt, everything put into the queue is taken off it
      once or still there. */
  lemma {:induction false} QueueConserved(p: Profile, s: System, es: seq<Event>)
    requires Inv(p, s) && Legal(p, s, es)
    ensures multiset(s.core.queue) + EnqueuedIn(p, s, es)
            == multiset(Run(p, s, es).core.queue) + TakenIn(p, s, es)
  {
    hide Inv, Step, Enqueues, TakesOff, Single;
    if es == [] {
    } else {
      var (mid, e) := (Run(p, s, Front(es)), Last(es));
      QueueConserved(p, s, Front(es));
      RunKeeps(p, s, Front(es));
      StepMoves(p, mid, e);
      Balanced(multiset(s.core.queue), EnqueuedIn(p, s, Front(es)), multiset(mid.core.queue),
               TakenIn(p, s, Front(es)), multiset(Step(p, mid, e).core.queue), Single(Enqueues(p, mid, e)),
               Single(TakesOff(mid, e)));
    }
  }

  lemma Balanced<T>(first: multiset<T>, came: multiset<T>, mid: multiset<T>, went: multiset<T>, last: multiset<T>,
      comes: multiset<T>, goes: multiset<T>)
    requires first + came == mid + went && last + goes == mid + comes
    ensures first + (came + comes) == last + (went + goes)
  {
    var (left, right) := (first + (came + comes), last + (went + goes));
    forall x: T
      ensures left[x] == right[x]
    {
      assert (first + came)[x] == (mid + went)[x] && (last + goes)[x] == (mid + comes)[x];
    }
    assert left == right;
  }

  lemma {:induction false} PrefixLegal(p: Profile, s: System, es: seq<Event>, n: nat)
    requires Legal(p, s, es) && n <= |es|
    ensures Legal(p, s, es[..n]) && (n < |es| ==> Enabled(Run(p, s, es[..n]), es[n]))
  {
    if n == |es| {
      assert es[..n] == es;
    } else if n == |es| - 1 {
      assert es[..n] == Front(es);
    } else {
      PrefixLegal(p, s, Front(es), n);
      assert Front(es)[..n] == es[..n];
    }
  }

  /** Event `i` of the run puts the packet into the queue. */
  ghost predicate EnqueuedAt(p: Profile, s: System, es: seq<Event>, i: nat, item: QueuedTransmit)
    requires Legal(p, s, es)
  {
    i < |es| && (PrefixLegal(p, s, es, i); Enqueues(p, Run(p, s, es[..i]), es[i]) == Some(item))
  }

  lemma {:induction false} EnqueuedSomewhere(p: Profile, s: System, es: seq<Event>, item: QueuedTransmit)
    returns (i: nat)
    requires Legal(p, s, es) && item in EnqueuedIn(p, s, es)
    ensures EnqueuedAt(p, s, es, i, item)
  {
    hide Enqueues;
    var front := Front(es);
    if item in EnqueuedIn(p, s, front) {
      i := EnqueuedSomewhere(p, s, front, item);
      assert front[..i] == es[..i] && front[i] == es[i];
      PrefixLegal(p, s, es, i);
      assert EnqueuedAt(p, s, es, i, item);
    } else {
      i := |es| - 1;
      PrefixLegal(p, s, es, i);
      assert es[..i] == front && es[i] == Last(es);
      assert Enqueues(p, Run(p, s, front), Last(es)) == Some(item);
    }
  }

  /** Every transmission starts no earlier than the packet is due: some event before it put this very packet
      into the queue, and the start is not before that event's reading plus the delay given then. */
  lemma StartsWhenDue(p: Profile, start: u64, duty: u8, es: seq<Event>, e: Event) returns (i: nat)
    requires Legal(p, Init(start, duty), es) && Enabled(Run(p, Init(start, duty), es), e) && e.RadioStart?
    requires Step(p, Run(p, Init(start, duty), es), e).radio.Sending?
    ensures var item := Step(p, Run(p, Init(start, duty), es), e).radio.item;
            EnqueuedAt(p, Init(start, duty), es, i, item) && item.eligibleAt <= e.t1
  {
    hide Step, Enqueues, EnqueuedAt, Affords;
    var s0 := Init(start, duty);
    var s := Run(p, s0, es);
    InitInv(p, start, duty);
    RunKeeps(p, s0, es);
    StartExactly(p, s, e);
    QueueConserved(p, s0, es);
    assert s.core.queue[0] in multiset(s.core.queue) + TakenIn(p, s0, es);
    i := EnqueuedSomewhere(p, s0, es, s.core.queue[0]);
  }

  /** The forward recorded as transmission `k` is one of these packets. */
  ghost predicate SentWhenDue(log: Log, k: nat, item: QueuedTransmit) {
    && k < |log.touches| == |log.frames| && item.packet == log.frames[k]
    && item.signature == Some(log.touches[k].signature) && item.eligibleAt <= log.touches[k].at
  }

  ghost predicate WasDue(log: Log, k: nat, items: multiset<QueuedTransmit>) {
    exists item :: item in items && SentWhenDue(log, k, item)
  }

  /** What is in flight was put into the queue and is due, and so was everything recorded. */
  ghost predicate Timely(s: System, items: multiset<QueuedTransmit>) {
    && |s.log.touches| == |s.log.frames|
    && (s.radio.Sending? ==> s.radio.item in items && s.radio.item.eligibleAt <= s.clock)
    && forall k: nat :: k < |s.log.touches| ==> WasDue(s.log, k, items)
  }

  lemma StepTimely(p: Profile, s: System, e: Event, items: multiset<QueuedTransmit>)
    requires Inv(p, s) && Enabled(s, e) && Timely(s, items)
    requires forall item :: item in s.core.queue ==> item in items
    ensures Timely(Step(p, s, e), items + Single(Enqueues(p, s, e)))
  {
    hide Inv, Enqueues, Affords, Single;
    var s', all := Step(p, s, e), items + Single(Enqueues(p, s, e));
    StepKeeps(p, s, e);
    LogGrows(p, s, e);
    if e.RadioStart? {
      StartExactly(p, s, e);
    }
    forall k: nat | k < |s'.log.touches|
      ensures WasDue(s'.log, k, all)
    {
      if k < |s.log.touches| {
        assert WasDue(s.log, k, items);
        var item :| item in items && SentWhenDue(s.log, k, item);
        assert item in all && SentWhenDue(s'.log, k, item);
      } else {
        assert s.radio.item in all && SentWhenDue(s'.log, k, s.radio.item);
      }
    }
  }

  /** The record only grows, by the packet in flight when its transmission succeeds. */
  lemma LogGrows(p: Profile, s: System, e: Event)
    requires Inv(p, s) && Enabled(s, e) && |s.log.touches| == |s.log.frames|
    ensures var before, after := s.log, Step(p, s, e).log;
            || (after.touches == before.touches && after.frames == before.frames)
            || (&& s.radio.Sending? && s.radio.item.signature.Some?
                && after.touches == before.touches + [Seen(s.radio.item.signature.value, e.t1)]
                && after.frames == before.frames + [s.radio.item.packet])
  {
    if e.RadioEnd? {
      EndExactly(p, s, e);
    }
  }

  lemma {:induction false} RunTimely(p: Profile, s: System, es: seq<Event>)
    requires Inv(p, s) && Legal(p, s, es) && s.core.queue == [] && Timely(s, multiset{})
    ensures Timely(Run(p, s, es), EnqueuedIn(p, s, es))
  {
    hide Inv, Step, Timely, Enqueues;
    if es == [] {
    } else {
      var mid := Run(p, s, Front(es));
      RunTimely(p, s, Front(es));
      RunKeeps(p, s, Front(es));
      QueueConserved(p, s, Front(es));
      forall item | item in mid.core.queue
        ensures item in EnqueuedIn(p, s, Front(es))
      {
        assert item in multiset(mid.core.queue) + TakenIn(p, s, Front(es));
      }
      StepTimely(p, mid, Last(es), EnqueuedIn(p, s, Front(es)));
    }
  }

  /** Over every run, each recorded transmission is of a packet that some event put into the queue, at a
      reading not before that event's own reading plus the delay given then. */
  lemma RecordedWhenDue(p: Profile, start: u64, duty: u8, es: seq<Event>, k: nat) returns (i: nat, item: QueuedTransmit)
    requires Legal(p, Init(start, duty), es) && k < |Run(p, Init(start, duty), es).log.touches|
    ensures EnqueuedAt(p, Init(start, duty), es, i, item)
    ensures SentWhenDue(Run(p, Init(start, duty), es).log, k, item)
  {
    hide Run, EnqueuedAt, Enqueues, SentWhenDue;
    InitInv(p, start, duty);
    RunTimely(p, Init(start, duty), es);
    assert WasDue(Run(p, Init(start, duty), es).log, k, EnqueuedIn(p, Init(start, duty), es));
    item :| item in EnqueuedIn(p, Init(start, duty), es) && SentWhenDue(Run(p, Init(start, duty), es).log, k, item);
    i := EnqueuedSomewhere(p, Init(start, duty), es, item);
  }
}
