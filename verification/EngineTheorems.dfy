/** What the engine guarantees over every legal run. */
module EngineTheorems {
  import opened Bytes
  import opened Wrappers
  import opened SeenPackets
  import opened Outbound
  import opened Airtime
  import opened Engine
  import opened EngineRuns

  // ---------- No double forward ----------

  lemma LastTouchAfter(touches: seq<Seen>, clock: u64, i: nat, sig: Signature)
    requires Sorted(touches, clock) && i < |touches| && touches[i].signature == sig
    ensures LastTouch(touches, sig).Some? && LastTouch(touches, sig).value >= touches[i].at
    ensures TouchedSince(touches, sig) <= Signatures(touches[i + 1..]) - {sig}
  {
    var a, b := touches[..i + 1], touches[i + 1..];
    assert touches == a + b;
    assert Front(a) == touches[..i] && Last(a) == touches[i];
    SplitAt(a, b, sig);
    SinceSubset(b, sig);
    if sig in Signatures(b) {
      LastTouchKnown(b, sig);
      LastTouchIsEntry(b, sig);
    }
  }

  lemma RepeatIsLate(touches: seq<Seen>, clock: u64, maxEntries: nat, i: nat, j: nat)
    requires Sorted(touches, clock) && NoEarlyRepeat(touches, maxEntries)
    requires i < j < |touches| && touches[i].signature == touches[j].signature
    ensures touches[j].at - touches[i].at > SEEN_PACKET_TTL_MS
            || |Signatures(touches[i + 1..j]) - {touches[i].signature}| >= maxEntries
  {
    var sig := touches[i].signature;
    var before := touches[..j];
    assert !Remembers(before, SEEN_PACKET_TTL_MS, maxEntries, sig, touches[j].at);
    LastTouchAfter(before, clock, i, sig);
    assert before[i + 1..] == touches[i + 1..j];
    SubsetCount(TouchedSince(before, sig), Signatures(touches[i + 1..j]) - {sig});
  }

  /** Over every interleaving of the handler and the radio, two transmissions of one forward are more
      than the TTL apart, or the cache was full of other signatures transmitted in between. */
  lemma NoDoubleForward(p: Profile, start: u64, duty: u8, es: seq<Event>, i: nat, j: nat)
    requires Legal(p, Init(start, duty), es)
    requires var sent := Run(p, Init(start, duty), es).log.touches;
             i < j < |sent| && sent[i].signature == sent[j].signature
    ensures var sent := Run(p, Init(start, duty), es).log.touches;
            sent[j].at - sent[i].at > 15_000
            || |Signatures(sent[i + 1..j]) - {sent[i].signature}| >= p.seenCacheLen
  {
    InitInv(p, start, duty);
    RunKeeps(p, Init(start, duty), es);
    var s := Run(p, Init(start, duty), es);
    RepeatIsLate(s.log.touches, s.clock, p.seenCacheLen, i, j);
  }

  /** At every await point reservations, queue, flight and cache agree, the queue is in order and
      within capacity, no packet is on more than its fifth attempt, and nothing accepted is lost. */
  lemma AwaitPointInvariant(p: Profile, start: u64, duty: u8, es: seq<Event>)
    requires Legal(p, Init(start, duty), es)
    ensures var s := Run(p, Init(start, duty), es);
            && (forall x: Signature :: Count(s.core.pending)[x] <= 1)
            && Count(s.core.pending) == Carried(s.core.queue) + InFlight(s.radio)
            && (forall x: Signature :: x in s.core.pending ==> x !in Signatures(s.core.seen))
            && ByEligibility(s.core.queue)
            && |s.core.queue| + (if s.radio.Sending? then 1 else 0) <= p.Capacity()
            && (forall k :: 0 <= k < |s.core.queue| ==> s.core.queue[k].attempts < 5)
            && (s.radio.Sending? ==> s.radio.item.attempts < 5)
            && 0 <= s.budget.available <= DUTY_CYCLE_WINDOW_MS
            && s.log.accepted == s.log.transmitted + s.log.dropped + |s.core.queue|
                                  + (if s.radio.Sending? then 1 else 0)
  {
    InitInv(p, start, duty);
    RunKeeps(p, Init(start, duty), es);
  }

  // ---------- Duty cycle ----------

  /** Airtime charged at or after `t0` and no later than `t1`. */
  function ChargedIn(charges: seq<Charge>, t0: u64, t1: u64): (total: nat) {
    if charges == [] then 0
    else ChargedIn(Front(charges), t0, t1) + (if t0 <= Last(charges).at <= t1 then Last(charges).airtime else 0)
  }

  predicate UsesDuty(e: Event, duty: u8) {
    e.RadioStart? || e.RadioPoll? ==> e.duty == duty
  }

  ghost predicate DutyInv(s: System, duty: u8) {
    && s.budget.available <= MaxBudget(duty) && (s.radio.Sending? ==> s.radio.duty == duty)
  }

  /** One step from `(b, charges)` to `(b', charges')` at time `now`: it charges at most once, at its
      own time, and pays for that from the credit. */
  ghost predicate Metered(b: Budget, charges: seq<Charge>, b': Budget, charges': seq<Charge>, now: u64, duty: u8) {
    || (charges' == charges && Credit(b', now, duty) <= Credit(b, now, duty))
    || (charges' != [] && Front(charges') == charges && Last(charges').at == now
        && Credit(b', now, duty) + 100 * Last(charges').airtime <= Credit(b, now, duty))
  }

  lemma EndMetered(p: Profile, s: System, e: Event, duty: u8)
    requires Inv(p, s) && Enabled(s, e) && DutyInv(s, duty) && duty < 100 && e.RadioEnd?
    ensures var s' := Step(p, s, e);
            DutyInv(s', duty) && Metered(s.budget, s.log.charges, s'.budget, s'.log.charges, e.t2, duty)
  {
    if e.ok {
      var airtime := s.radio.settings.airtime(|s.radio.item.packet|);
      ChargeCredit(s.budget, e.t2, airtime, duty);
      assert Front(s.log.charges + [Charge(e.t2, airtime)]) == s.log.charges;
    }
  }

  lemma StepMetered(p: Profile, s: System, e: Event, duty: u8)
    requires Inv(p, s) && Enabled(s, e) && DutyInv(s, duty) && UsesDuty(e, duty) && duty < 100
    ensures var s' := Step(p, s, e);
            DutyInv(s', duty) && Metered(s.budget, s.log.charges, s'.budget, s'.log.charges, EndTime(e), duty)
  {
    hide Inv, Step, Metered, DutyInv;
    if e.RadioEnd? {
      EndMetered(p, s, e, duty);
    } else {
      OtherMetered(p, s, e, duty);
    }
  }

  lemma OtherMetered(p: Profile, s: System, e: Event, duty: u8)
    requires Inv(p, s) && Enabled(s, e) && DutyInv(s, duty) && UsesDuty(e, duty) && duty < 100 && !e.RadioEnd?
    ensures var s' := Step(p, s, e);
            DutyInv(s', duty) && Metered(s.budget, s.log.charges, s'.budget, s'.log.charges, EndTime(e), duty)
  {
    hide Credit, Updated, ReadyAt, ReservationsExact, QueueInOrder, HistorySound, Conserved, Started, Forwarded, Sent;
    var s' := Step(p, s, e);
    UpdateCredit(s.budget, EndTime(e), duty);
    assert s'.log.charges == s.log.charges;
    assert s'.budget == s.budget || s'.budget == Updated(s.budget, EndTime(e), duty);
  }

  /** The bound on what was charged since `t0`, carried from step to step. */
  ghost predicate Spent(b: Budget, charges: seq<Charge>, clock: u64, t0: u64, duty: u8) {
    if clock < t0 then ChargedIn(charges, t0, U64_MAX) == 0
    else 100 * ChargedIn(charges, t0, U64_MAX) + Credit(b, clock, duty)
         <= 100 * MaxBudget(duty) + 99 + Rate(duty) * (clock - t0)
  }

  lemma MeteredSpent(b: Budget, charges: seq<Charge>, clock: u64, b': Budget, charges': seq<Charge>, now: u64,
      t0: u64, duty: u8)
    requires Spent(b, charges, clock, t0, duty) && clock <= now
    requires Metered(b, charges, b', charges', now, duty)
    ensures Spent(b', charges', now, t0, duty)
  {
    if t0 <= clock {
      CreditGrows(b, clock, now, duty);
      Spread(Rate(duty), clock - t0, now - clock);
    } else if t0 <= now {
      CreditGrows(b, t0, now, duty);
    }
  }

  lemma {:induction false} MoreIn(charges: seq<Charge>, t0: u64, t1: u64)
    ensures ChargedIn(charges, t0, t1) <= ChargedIn(charges, t0, U64_MAX)
  {
    if charges == [] {
    } else {
      MoreIn(Front(charges), t0, t1);
    }
  }

  /** The bound for a closed interval, which further steps after its end do not disturb. */
  ghost predicate Bounded(charges: seq<Charge>, t0: u64, t1: u64, duty: u8) {
    100 * ChargedIn(charges, t0, t1) <= 100 * MaxBudget(duty) + 99 + Rate(duty) * (t1 - t0)
  }

  lemma MeteredBounded(b: Budget, charges: seq<Charge>, b': Budget, charges': seq<Charge>, now: u64,
                       t0: u64, t1: u64, duty: u8)
    requires Bounded(charges, t0, t1, duty) && t0 <= t1 && Metered(b, charges, b', charges', now, duty)
    requires Solvent(b') && b'.lastUpdate <= now && Spent(b', charges', now, t0, duty)
    ensures Bounded(charges', t0, t1, duty)
  {
    if t0 <= now <= t1 {
      MoreIn(charges', t0, t1);
      CreditBounds(b', now, duty);
      Scale(Rate(duty), now - t0, t1 - t0);
    }
  }

  lemma {:induction false} RunBounded(p: Profile, s: System, es: seq<Event>, t0: u64, t1: u64, duty: u8)
    requires Inv(p, s) && Legal(p, s, es) && DutyInv(s, duty) && duty < 100 && t0 <= t1
    requires Spent(s.budget, s.log.charges, s.clock, t0, duty) && Bounded(s.log.charges, t0, t1, duty)
    requires forall k :: 0 <= k < |es| ==> UsesDuty(es[k], duty)
    ensures var r := Run(p, s, es);
            && Inv(p, r) && DutyInv(r, duty)
            && Spent(r.budget, r.log.charges, r.clock, t0, duty) && Bounded(r.log.charges, t0, t1, duty)
  {
    if es == [] {
    } else {
      RunBounded(p, s, Front(es), t0, t1, duty);
      var q, e := Run(p, s, Front(es)), Last(es);
      var r := Step(p, q, e);
      StepKeeps(p, q, e);
      StepMetered(p, q, e, duty);
      MeteredSpent(q.budget, q.log.charges, q.clock, r.budget, r.log.charges, r.clock, t0, duty);
      MeteredBounded(q.budget, q.log.charges, r.budget, r.log.charges, r.clock, t0, t1, duty);
    }
  }

  /** In any interval the airtime charged stays below the configured share of an hour, which is a full
      bucket, plus that share of the interval, plus one millisecond.  A configured 0 counts as 1. */
  lemma DutyCycleRespected(p: Profile, start: u64, duty: u8, es: seq<Event>, t0: u64, t1: u64)
    requires Legal(p, Init(start, duty), es) && duty < 100 && t0 <= t1
    requires forall k :: 0 <= k < |es| ==> UsesDuty(es[k], duty)
    ensures var percent := if duty == 0 then 1 else duty;
            100 * ChargedIn(Run(p, Init(start, duty), es).log.charges, t0, t1)
            < 3_600_000 * percent + percent * (t1 - t0) + 100
  {
    InitInv(p, start, duty);
    Scale(Rate(duty), 0, t1 - t0);
    if start >= t0 {
      Scale(Rate(duty), 0, start - t0);
    }
    RunBounded(p, Init(start, duty), es, t0, t1, duty);
  }

  /** In particular any hour carries less than twice the configured share of an hour, plus 1 ms. */
  lemma HourlyAirtime(p: Profile, start: u64, duty: u8, es: seq<Event>, t0: u64)
    requires Legal(p, Init(start, duty), es) && duty < 100 && t0 <= U64_MAX - 3_600_000
    requires forall k :: 0 <= k < |es| ==> UsesDuty(es[k], duty)
    ensures 100 * ChargedIn(Run(p, Init(start, duty), es).log.charges, t0, t0 + 3_600_000)
            < 7_200_000 * (if duty == 0 then 1 else duty) + 100
  {
    hide Run, Legal, ChargedIn, Init;
    DutyCycleRespected(p, start, duty, es, t0, t0 + 3_600_000);
  }

  // ---------- Draining ----------

  function WorkOf(queue: seq<QueuedTransmit>): int {
    if queue == [] then 0 else WorkOf(queue[1..]) + OUTBOUND_MAX_ATTEMPTS - queue[0].attempts
  }

  /** Attempts left over all packets that are queued or in flight. */
  function Work(s: System): int {
    WorkOf(s.core.queue) + if s.radio.Sending? then OUTBOUND_MAX_ATTEMPTS - s.radio.item.attempts else 0
  }

  /** A step in which the radio task completes, retries or discards a packet. */
  predicate Effective(s: System, e: Event) {
    e.RadioEnd? || (e.RadioStart? && Decided(s.core, s.budget, e.settings, e.duty, e.repeat, e.t1).0.Discard?)
  }

  lemma {:induction false} WorkSplit(a: seq<QueuedTransmit>, b: seq<QueuedTransmit>)
    ensures WorkOf(a + b) == WorkOf(a) + WorkOf(b)
  {
    if a == [] {
      assert a + b == b;
    } else {
      assert (a + b)[1..] == a[1..] + b;
      WorkSplit(a[1..], b);
    }
  }

  lemma InsertedWork(queue: seq<QueuedTransmit>, item: QueuedTransmit)
    ensures WorkOf(Inserted(queue, item)) == WorkOf(queue) + OUTBOUND_MAX_ATTEMPTS - item.attempts
  {
    var i := FirstLater(queue, item.eligibleAt);
    WorkSplit(queue[..i] + [item], queue[i..]);
    WorkSplit(queue[..i], [item]);
    WorkSplit(queue[..i], queue[i..]);
    assert queue == queue[..i] + queue[i..];
  }

  lemma EndWork(p: Profile, s: System, e: Event)
    requires Inv(p, s) && Enabled(s, e) && e.RadioEnd?
    ensures Work(Step(p, s, e)) < Work(s)
  {
    var item := s.radio.item;
    if !e.ok && item.attempts + 1 < OUTBOUND_MAX_ATTEMPTS {
      InsertedWork(s.core.queue, Retried(item, e.t1, e.retryDelay));
    } else {
      assert Step(p, s, e).core.queue == s.core.queue;
    }
  }

  lemma StepWork(p: Profile, s: System, e: Event)
    requires Inv(p, s) && Enabled(s, e) && !e.HandlerForward? && !e.HandlerReply?
    ensures Work(Step(p, s, e)) <= Work(s) - if Effective(s, e) then 1 else 0
  {
    if e.RadioEnd? {
      EndWork(p, s, e);
    } else if e.RadioStart? {
      var d := Decided(s.core, s.budget, e.settings, e.duty, e.repeat, e.t1).0;
      assert d != Wait ==> s.core.queue != [] && Step(p, s, e).core.queue == s.core.queue[1..];
    }
  }

  lemma {:induction false} WorkPositive(queue: seq<QueuedTransmit>)
    requires forall k :: 0 <= k < |queue| ==> queue[k].attempts < OUTBOUND_MAX_ATTEMPTS
    ensures |queue| <= WorkOf(queue) <= OUTBOUND_MAX_ATTEMPTS * |queue|
  {
    if queue == [] {
    } else {
      WorkPositive(queue[1..]);
    }
  }

  ghost function EffectiveSteps(p: Profile, s: System, es: seq<Event>): nat
    requires Legal(p, s, es)
  {
    if es == [] then 0
    else EffectiveSteps(p, s, Front(es)) + if Effective(Run(p, s, Front(es)), Last(es)) then 1 else 0
  }

  /** With nothing new accepted, every effective radio step uses up an attempt, so the queue is empty
      after at most as many of them as attempts were left. */
  lemma {:induction false} QueueDrains(p: Profile, s: System, es: seq<Event>)
    requires Inv(p, s) && Legal(p, s, es)
    requires forall k :: 0 <= k < |es| ==> !es[k].HandlerForward? && !es[k].HandlerReply?
    ensures EffectiveSteps(p, s, es) + Work(Run(p, s, es)) <= Work(s) <= 5 * p.Capacity()
    ensures Work(Run(p, s, es)) >= |Run(p, s, es).core.queue|
    ensures EffectiveSteps(p, s, es) == Work(s) ==> Run(p, s, es).core.queue == [] && Run(p, s, es).radio.Idle?
  {
    WorkPositive(s.core.queue);
    if es == [] {
    } else {
      QueueDrains(p, s, Front(es));
      RunKeeps(p, s, Front(es));
      StepWork(p, Run(p, s, Front(es)), Last(es));
      StepKeeps(p, Run(p, s, Front(es)), Last(es));
    }
    RunKeeps(p, s, es);
    WorkPositive(Run(p, s, es).core.queue);
  }

  // ---------- Waking up ----------

  /** The time the radio task sleeps until after a poll at `t`, if nothing changes meanwhile. */
  function WakeTime(s: System, settings: RadioSettings, duty: u8, t: u64): u64
    requires s.core.queue != []
  {
    var head := s.core.queue[0];
    Max(head.eligibleAt, ReadyAt(Asked(s.budget, t, duty), t, settings.airtime(|head.packet|), duty))
  }

  /** The head of the queue can ever be covered. */
  predicate HeadFits(s: System, settings: RadioSettings, duty: u8) {
    s.core.queue != [] &&
    (duty >= 100 || settings.airtime(|s.core.queue[0].packet|) <= 36_000 * if duty == 0 then 1 else duty)
  }

  /** The wake-up is sound: after a poll, with nothing in between, the radio task finds the head ready at
      the time it slept until or at any later one, and transmits or discards it. */
  lemma WakesToWork(p: Profile, s: System, settings: RadioSettings, duty: u8, repeat: bool, t: u64, w: u64)
    requires Inv(p, s) && Enabled(s, RadioPoll(duty, t)) && HeadFits(s, settings, duty)
    requires WakeTime(s, settings, duty, t) <= w && t <= w < U64_MAX
    ensures var s' := Step(p, s, RadioPoll(duty, t));
            && s'.core == s.core && Enabled(s', RadioStart(settings, duty, repeat, w))
            && Decided(s'.core, s'.budget, settings, duty, repeat, w).0 != Wait
  {
    hide ReservationsExact, QueueInOrder, HistorySound, Conserved, Updated;
    var head, s' := s.core.queue[0], Step(p, s, RadioPoll(duty, t));
    if duty < 100 {
      var required := settings.airtime(|head.packet|);
      ReadyStays(s.budget, t, required, duty, w);
      UpdatedSolvent(s.budget, t, duty);
      UpdatedSolvent(s'.budget, w, duty);
      GateIsExact(Updated(s'.budget, w, duty), w, required, duty);
    }
  }

  /** So a queue whose head fits never blocks the radio task: poll, sleep, start, and unless the packet was
      discarded the end of its transmission, make an effective step. */
  lemma WorkContinues(p: Profile, s: System, settings: RadioSettings, duty: u8, repeat: bool, t: u64, w: u64, ok: bool,
      delay: u32) returns (es: seq<Event>)
    requires Inv(p, s) && Enabled(s, RadioPoll(duty, t)) && HeadFits(s, settings, duty)
    requires WakeTime(s, settings, duty, t) <= w && t <= w < U64_MAX
    ensures Legal(p, s, es) && EffectiveSteps(p, s, es) == 1 && Work(Run(p, s, es)) < Work(s)
    ensures forall k :: 0 <= k < |es| ==> es[k].RadioPoll? || es[k].RadioStart? || es[k].RadioEnd?
  {
    hide Inv, Step, Decided, Work, Enabled;
    var poll, start := RadioPoll(duty, t), RadioStart(settings, duty, repeat, w);
    var s1 := Step(p, s, poll);
    WakesToWork(p, s, settings, duty, repeat, t, w);
    StepKeeps(p, s, poll);
    es := [poll, start];
    TwoEvents(p, s, poll, start);
    if !Decided(s1.core, s1.budget, settings, duty, repeat, w).0.Discard? {
      var end := RadioEnd(ok, delay, w, w);
      EndsNext(p, s1, start, end);
      ThreeEvents(p, s, poll, start, end);
      es := [poll, start, end];
    }
    EffectiveRun(p, s, es);
  }

  lemma EffectiveRun(p: Profile, s: System, es: seq<Event>)
    requires Inv(p, s) && Legal(p, s, es) && EffectiveSteps(p, s, es) == 1
    requires forall k :: 0 <= k < |es| ==> !es[k].HandlerForward? && !es[k].HandlerReply?
    ensures Work(Run(p, s, es)) < Work(s)
  {
    hide Inv, Work;
    QueueDrains(p, s, es);
  }

  lemma EndsNext(p: Profile, s: System, start: Event, end: Event)
    requires Enabled(s, start) && start.RadioStart? && end.RadioEnd? && end.t1 == end.t2 == start.t1
    requires Decided(s.core, s.budget, start.settings, start.duty, start.repeat, start.t1).0.Transmit?
    ensures Enabled(Step(p, s, start), end)
  {
  }

  lemma TwoEvents(p: Profile, s: System, a: Event, b: Event)
    requires Enabled(s, a) && Enabled(Step(p, s, a), b)
    ensures Legal(p, s, [a, b]) && Run(p, s, [a, b]) == Step(p, Step(p, s, a), b)
    ensures EffectiveSteps(p, s, [a, b]) ==
            (if Effective(s, a) then 1 else 0) + if Effective(Step(p, s, a), b) then 1 else 0
  {
    hide Step, Enabled, Effective;
    assert Front([a]) == [] && Last([a]) == a && Front([a, b]) == [a] && Last([a, b]) == b;
    assert Legal(p, s, []) && Run(p, s, []) == s && EffectiveSteps(p, s, []) == 0;
    assert Legal(p, s, [a]) && Run(p, s, [a]) == Step(p, s, a);
    assert EffectiveSteps(p, s, [a]) == if Effective(s, a) then 1 else 0;
  }

  lemma ThreeEvents(p: Profile, s: System, a: Event, b: Event, c: Event)
    requires Enabled(s, a) && Enabled(Step(p, s, a), b) && Enabled(Step(p, Step(p, s, a), b), c)
    ensures Legal(p, s, [a, b]) && Legal(p, s, [a, b, c])
    ensures EffectiveSteps(p, s, [a, b, c]) ==
            EffectiveSteps(p, s, [a, b]) + if Effective(Step(p, Step(p, s, a), b), c) then 1 else 0
  {
    hide Step, Enabled, Effective;
    TwoEvents(p, s, a, b);
    assert Front([a, b, c]) == [a, b] && Last([a, b, c]) == c;
  }
}
