/** The duty-cycle budget: a token bucket refilled with elapsed time and spent by transmissions. */
module Airtime {
  import opened Bytes

  const DUTY_CYCLE_WINDOW_MS: u64 := 3_600_000

  /** Milliseconds of airtime in hand, and when the last refill was counted. */
  datatype Budget = Budget(available: i64, lastUpdate: u64)

  /** The configured percentage as used in the arithmetic. */
  function Rate(duty: u8): (d: u64)
    ensures 1 <= d <= 100
  {
    if duty < 1 then 1 else if duty > 100 then 100 else duty
  }

  function MaxBudget(duty: u8): (m: i64)
    ensures 36_000 <= m <= DUTY_CYCLE_WINDOW_MS
  {
    DUTY_CYCLE_WINDOW_MS * Rate(duty) / 100
  }

  function DivCeil(a: u64, b: u64): (q: u64)
    requires b > 0
    ensures (q - 1) * b < a <= q * b
  {
    CeilFits(a, b);
    a / b + (if a % b == 0 then 0 else 1)
  }

  lemma CeilFits(a: u64, b: u64)
    requires b > 0
    ensures a / b * b <= a && a / b + (if a % b == 0 then 0 else 1) <= U64_MAX
  {
    var q := a / b;
    assert a == q * b + a % b;
    Scale(q, if b == 1 then 1 else 2, b);
  }

  lemma Scale(d: int, x: int, y: int)
    requires 0 <= d && x <= y
    ensures d * x <= d * y
  {
  }

  function NewBudget(now: u64, duty: u8): Budget {
    Budget(MaxBudget(duty), now)
  }

  function Refill(lastUpdate: u64, now: u64, duty: u8): u64 {
    SatMul(SatSub(now, lastUpdate), Rate(duty)) / 100
  }

  function Updated(b: Budget, now: u64, duty: u8): Budget {
    if duty >= 100 then Budget(DUTY_CYCLE_WINDOW_MS, now)
    else
      var capped := Min(b.available, MaxBudget(duty));
      var refill := Refill(b.lastUpdate, now, duty);
      if refill > 0 then Budget(Min(ClampI64(capped + Min(refill, I64_MAX)), MaxBudget(duty)), now)
      else Budget(capped, b.lastUpdate)
  }

  /** When the budget will cover `required`, as computed from a budget updated at `now`. */
  function ReadyAt(b: Budget, now: u64, required: u32, duty: u8): u64 {
    if duty >= 100 || b.available >= required then now
    else SatAdd(now, DivCeil(SatMul(Needed(b, required), 100), Rate(duty)))
  }

  function Needed(b: Budget, required: u32): (n: u64)
    requires b.available < required
  {
    ClampI64(required - b.available)
  }

  /** The budget after asking when `required` is ready. */
  function Asked(b: Budget, now: u64, duty: u8): Budget {
    if duty >= 100 then b else Updated(b, now, duty)
  }

  function Charged(b: Budget, now: u64, airtime: u32, duty: u8): Budget {
    if duty >= 100 then b
    else
      var u := Updated(b, now, duty);
      u.(available := ClampI64(u.available - airtime))
  }

  class AirtimeBudget {
    var available: i64
    var lastUpdate: u64

    function View(): Budget
      reads this
    {
      Budget(available, lastUpdate)
    }

    constructor (now: u64, duty: u8)
      ensures View() == NewBudget(now, duty)
    {
      available := MaxBudget(duty);
      lastUpdate := now;
    }

    method Update(now: u64, duty: u8)
      modifies this
      ensures View() == Updated(old(View()), now, duty)
    {
      if duty >= 100 {
        available := DUTY_CYCLE_WINDOW_MS;
        lastUpdate := now;
        return;
      }
      available := Min(available, MaxBudget(duty));
      var elapsed := SatSub(now, lastUpdate);
      var refill := SatMul(elapsed, Rate(duty)) / 100;
      if refill > 0 {
        available := Min(ClampI64(available + Min(refill, I64_MAX)), MaxBudget(duty));
        lastUpdate := now;
      }
    }

    method ReadyAtMs(now: u64, required: u32, duty: u8) returns (at: u64)
      modifies this
      ensures View() == Asked(old(View()), now, duty)
      ensures at == ReadyAt(View(), now, required, duty)
    {
      if duty >= 100 {
        return now;
      }
      Update(now, duty);
      if available >= required {
        return now;
      }
      var needed := ClampI64(required - available);
      return SatAdd(now, DivCeil(SatMul(needed, 100), Rate(duty)));
    }

    method RecordTransmit(now: u64, airtime: u32, duty: u8)
      modifies this
      ensures View() == Charged(old(View()), now, airtime, duty)
    {
      if duty >= 100 {
        return;
      }
      Update(now, duty);
      available := ClampI64(available - airtime);
    }
  }

  // ---------- What the budget guarantees ----------

  /** Between 0 and what any percentage allows. */
  ghost predicate Solvent(b: Budget) {
    0 <= b.available <= DUTY_CYCLE_WINDOW_MS
  }

  /** The gate lets a packet through exactly when the budget covers it, for any clock reading that
      still has a successor. */
  lemma GateIsExact(b: Budget, now: u64, required: u32, duty: u8)
    requires Solvent(b) && now < U64_MAX
    ensures ReadyAt(b, now, required, duty) <= now <==> duty >= 100 || b.available >= required
  {
  }

  /** At the last representable clock reading the saturating sum lets every packet through. */
  lemma GateOpensAtClockEnd()
    ensures ReadyAt(Budget(0, U64_MAX), U64_MAX, 1000, 10) == U64_MAX && Budget(0, U64_MAX).available < 1000
  {
  }

  /** That is the only failure: the gate agrees with the budget exactly when the clock still has a
      successor or there was nothing to hold back. */
  lemma GateFailsOnlyAtClockEnd(b: Budget, now: u64, required: u32, duty: u8)
    requires Solvent(b)
    ensures var covered := duty >= 100 || b.available >= required;
            (ReadyAt(b, now, required, duty) <= now <==> covered) <==> now < U64_MAX || covered
  {
    if now < U64_MAX {
      GateIsExact(b, now, required, duty);
    }
  }

  /** Refill never exceeds the elapsed share of time, and what it leaves uncounted is below 1 ms. */
  lemma RefillBounds(last: u64, now: u64, duty: u8)
    requires last <= now
    ensures 100 * Refill(last, now, duty) <= Rate(duty) * (now - last)
    ensures Rate(duty) * (now - last) < 100 <==> Refill(last, now, duty) == 0
    ensures Rate(duty) * (now - last) < 100 * Refill(last, now, duty) + 100
            || Refill(last, now, duty) > DUTY_CYCLE_WINDOW_MS
  {
    var m := (now - last) * Rate(duty);
    assert m == Rate(duty) * (now - last);
    assert m >= 0;
  }

  lemma UpdatedSolvent(b: Budget, now: u64, duty: u8)
    requires Solvent(b)
    ensures Solvent(Updated(b, now, duty)) && (duty < 100 ==> Updated(b, now, duty).available <= MaxBudget(duty))
    ensures duty < 100 ==> Updated(b, now, duty).available >= Min(b.available, MaxBudget(duty))
  {
  }

  /** What a refill comes to, in the configured percentage, of which 0 counts as 1: a full bucket is that
      share of an hour, and time adds that share of what has passed, up to a full bucket. */
  lemma RefillExactly(b: Budget, now: u64, duty: u8)
    requires Solvent(b) && b.lastUpdate <= now && duty < 100
    ensures var percent := if duty == 0 then 1 else duty;
            && NewBudget(now, duty) == Budget(36_000 * percent, now)
            && Updated(b, now, duty).available
               == Min(36_000 * percent, b.available + percent * (now - b.lastUpdate) / 100)
            && Updated(b, now, duty).lastUpdate
               == if percent * (now - b.lastUpdate) >= 100 then now else b.lastUpdate
  {
    var percent := if duty == 0 then 1 else duty;
    var share := percent * (now - b.lastUpdate);
    RefillBounds(b.lastUpdate, now, duty);
    assert SatSub(now, b.lastUpdate) * Rate(duty) == share;
    assert MaxBudget(duty) == 36_000 * percent;
    if share <= U64_MAX {
      assert Refill(b.lastUpdate, now, duty) == share / 100;
    } else {
      assert share / 100 >= U64_MAX / 100 == Refill(b.lastUpdate, now, duty) > DUTY_CYCLE_WINDOW_MS;
    }
  }

  /** At 100 percent and above the budget is always full, never waited for and never charged. */
  lemma UnlimitedExactly(b: Budget, now: u64, required: u32, duty: u8)
    requires duty >= 100
    ensures NewBudget(now, duty) == Updated(b, now, duty) == Budget(3_600_000, now)
    ensures ReadyAt(b, now, required, duty) == now && Charged(b, now, required, duty) == b
  {
  }

  /** So a charge takes its airtime off exactly what the refill had come to. */
  lemma ChargeExactly(b: Budget, now: u64, airtime: u32, duty: u8)
    requires Solvent(b) && b.lastUpdate <= now && duty < 100
    ensures var percent := if duty == 0 then 1 else duty;
            Charged(b, now, airtime, duty).available
            == Min(36_000 * percent, b.available + percent * (now - b.lastUpdate) / 100) - airtime
  {
    RefillExactly(b, now, duty);
    UpdatedSolvent(b, now, duty);
  }

  /** A charge that the gate let through at an earlier time does not overdraw the budget. */
  lemma ChargeStaysSolvent(b: Budget, gate: u64, now: u64, airtime: u32, duty: u8)
    requires Solvent(b) && gate < U64_MAX
    requires ReadyAt(Asked(b, gate, duty), gate, airtime, duty) <= gate
    ensures Solvent(Charged(Asked(b, gate, duty), now, airtime, duty))
  {
    UpdatedSolvent(b, gate, duty);
    var asked := Asked(b, gate, duty);
    GateIsExact(asked, gate, airtime, duty);
    UpdatedSolvent(asked, now, duty);
  }

  /** The balance at time `t` with the uncounted refill, in hundredths of a millisecond, capped just
      above a full bucket. */
  function Credit(b: Budget, t: u64, duty: u8): int {
    Min(100 * MaxBudget(duty) + 99, 100 * b.available + Rate(duty) * (t - b.lastUpdate))
  }

  lemma Spread(d: int, x: int, y: int)
    ensures d * (x + y) == d * x + d * y
  {
  }

  lemma CreditBounds(b: Budget, t: u64, duty: u8)
    requires Solvent(b) && b.lastUpdate <= t
    ensures 0 <= Credit(b, t, duty) < 100 * MaxBudget(duty) + 100
  {
    Scale(Rate(duty), 0, t - b.lastUpdate);
  }

  /** Time adds credit no faster than the configured rate. */
  lemma CreditGrows(b: Budget, t: u64, now: u64, duty: u8)
    requires t <= now
    ensures Credit(b, now, duty) <= Credit(b, t, duty) + Rate(duty) * (now - t)
  {
    Spread(Rate(duty), t - b.lastUpdate, now - t);
    Scale(Rate(duty), 0, now - t);
  }

  /** An update never adds credit. */
  lemma UpdateCredit(b: Budget, now: u64, duty: u8)
    requires Solvent(b) && b.available <= MaxBudget(duty) && b.lastUpdate <= now && duty < 100
    ensures var u := Updated(b, now, duty);
            && u.lastUpdate <= now && Solvent(u) && u.available <= MaxBudget(duty)
            && Credit(u, now, duty) <= Credit(b, now, duty)
            && Credit(u, now, duty) == 100 * u.available + Rate(duty) * (now - u.lastUpdate)
  {
    Remainder(b, now, duty);
    UpdatedSolvent(b, now, duty);
    RefillBounds(b.lastUpdate, now, duty);
    Scale(Rate(duty), 0, now - b.lastUpdate);
    assert Rate(duty) * (now - now) == 0;
  }

  /** A covered charge spends exactly its airtime. */
  lemma ChargeCredit(b: Budget, now: u64, airtime: u32, duty: u8)
    requires Solvent(b) && airtime <= b.available <= MaxBudget(duty) && b.lastUpdate <= now && duty < 100
    ensures var c := Charged(b, now, airtime, duty);
            && c.lastUpdate <= now && Solvent(c) && c.available <= MaxBudget(duty)
            && Credit(c, now, duty) + 100 * airtime <= Credit(b, now, duty)
  {
    UpdateCredit(b, now, duty);
    UpdatedSolvent(b, now, duty);
  }

  /** After an update less than one millisecond of refill is left uncounted. */
  lemma Remainder(b: Budget, now: u64, duty: u8)
    requires b.lastUpdate <= now && duty < 100
    ensures var u := Updated(b, now, duty); u.lastUpdate <= now && Rate(duty) * (now - u.lastUpdate) < 100
  {
    RefillBounds(b.lastUpdate, now, duty);
  }

  lemma WakeUp(b: Budget, now: u64, required: u32, duty: u8) returns (q: u64)
    requires Solvent(b) && duty < 100 && b.available < required
    ensures ReadyAt(b, now, required, duty) == SatAdd(now, q)
    ensures (q - 1) * Rate(duty) < 100 * (required - b.available) <= q * Rate(duty)
  {
    q := DivCeil(SatMul(Needed(b, required), 100), Rate(duty));
  }

  lemma RefillCovers(last: u64, at: u64, n: nat, duty: u8)
    requires last <= at && n <= DUTY_CYCLE_WINDOW_MS
    ensures Refill(last, at, duty) >= n <==> Rate(duty) * (at - last) >= 100 * n
  {
    assert Rate(duty) * (at - last) == SatSub(at, last) * Rate(duty);
  }

  /** Whether a budget updated at `now` covers `required` at `at` is a question about elapsed time. */
  lemma Covers(u: Budget, at: u64, required: u32, duty: u8)
    requires Solvent(u) && u.available <= MaxBudget(duty) && u.lastUpdate <= at && duty < 100
    requires u.available < required
    ensures Updated(u, at, duty).available >= required <==>
            required <= MaxBudget(duty) && Rate(duty) * (at - u.lastUpdate) >= 100 * (required - u.available)
  {
    if required <= MaxBudget(duty) {
      RefillCovers(u.lastUpdate, at, required - u.available, duty);
    }
  }

  lemma ReadyFrom(u: Budget, now: u64, required: u32, duty: u8)
    requires Solvent(u) && u.available <= MaxBudget(duty) && u.lastUpdate <= now && duty < 100
    requires u.available < required <= MaxBudget(duty) && ReadyAt(u, now, required, duty) < U64_MAX
    ensures var at := ReadyAt(u, now, required, duty);
            at >= now && Updated(u, at, duty).available >= required
  {
    var at := ReadyAt(u, now, required, duty);
    var q := WakeUp(u, now, required, duty);
    Scale(Rate(duty), q, at - u.lastUpdate);
    Covers(u, at, required, duty);
  }

  /** The wake-up time is sound: unless the clock itself saturates, the budget covers `required` then,
      provided nothing touches it in between. */
  lemma ReadyAtIsSound(b: Budget, now: u64, required: u32, duty: u8)
    requires Solvent(b) && b.lastUpdate <= now && duty < 100 && required <= MaxBudget(duty)
    requires ReadyAt(Updated(b, now, duty), now, required, duty) < U64_MAX
    ensures var u := Updated(b, now, duty);
            var at := ReadyAt(u, now, required, duty);
            at >= now && Updated(u, at, duty).available >= required
  {
    var u := Updated(b, now, duty);
    UpdatedSolvent(b, now, duty);
    if u.available < required {
      ReadyFrom(u, now, required, duty);
    } else {
      UpdatedSolvent(u, now, duty);
    }
  }

  /** And it stays so for any later time. */
  lemma ReadyStays(b: Budget, now: u64, required: u32, duty: u8, later: u64)
    requires Solvent(b) && b.lastUpdate <= now && duty < 100 && required <= MaxBudget(duty)
    requires ReadyAt(Updated(b, now, duty), now, required, duty) <= later < U64_MAX && now <= later
    ensures Updated(Updated(b, now, duty), later, duty).available >= required
  {
    var u := Updated(b, now, duty);
    var at := ReadyAt(u, now, required, duty);
    ReadyAtIsSound(b, now, required, duty);
    UpdatedSolvent(b, now, duty);
    if u.available < required {
      Covers(u, at, required, duty);
      Covers(u, later, required, duty);
      Scale(Rate(duty), at - u.lastUpdate, later - u.lastUpdate);
    } else {
      UpdatedSolvent(u, later, duty);
    }
  }

  /** And tight: it is less than 100/rate milliseconds after any time at which the budget covers
      `required`. */
  lemma ReadyAtIsTight(b: Budget, now: u64, required: u32, duty: u8, earlier: u64)
    requires Solvent(b) && b.lastUpdate <= now <= earlier && duty < 100
    requires Updated(Updated(b, now, duty), earlier, duty).available >= required
    ensures Rate(duty) * (ReadyAt(Updated(b, now, duty), now, required, duty) - earlier) < 100
  {
    var u := Updated(b, now, duty);
    var at := ReadyAt(u, now, required, duty);
    UpdatedSolvent(b, now, duty);
    Remainder(b, now, duty);
    if u.available < required {
      var q := WakeUp(u, now, required, duty);
      Covers(u, earlier, required, duty);
      TightSum(Rate(duty), q, now - u.lastUpdate, earlier - u.lastUpdate, 100 * (required - u.available));
      Scale(Rate(duty), at - earlier, now + q - earlier);
    } else {
      Scale(Rate(duty), at - earlier, 0);
    }
  }

  lemma TightSum(d: nat, q: nat, s: nat, e: nat, n: nat)
    requires (q - 1) * d < n && d * s < 100 && d * e >= n
    ensures d * (s + q - e) < 100
  {
    if e < q {
      Scale(d, e, q - 1);
    }
    Scale(d, s + q - e, s);
  }
}
