/**
 * The fare arithmetic of the tariff service: the cost of one bracket, and
 * the walk over a zone's sorted brackets that attributes the parked minutes
 * to brackets. The walk is stated here as functions; the service's loop in
 * NprTarief is proved to compute exactly them.
 */
module FareSchedule {
  import opened Text
  import opened Response

  /** The end duration that marks a bracket without upper bound. */
  const Unbounded: int := 999999

  function Min(a: int, b: int): int { if a <= b then a else b }

  function Max(a: int, b: int): int { if a >= b then a else b }

  /** Python's floor division `a // b`. */
  function FloorDiv(a: int, b: int): int
    requires b != 0
  {
    if b > 0 then a / b else (-a) / (-b)
  }

  /** The number of whole steps of `stepSize` minutes needed to cover `minutes`. */
  function StepsToCover(minutes: int, stepSize: int): (steps: int)
    requires minutes > 0 && stepSize > 0
    ensures steps >= 1 && (steps - 1) * stepSize < minutes <= steps * stepSize
  {
    var q := (minutes + stepSize - 1) / stepSize;
    assert q * stepSize + (minutes + stepSize - 1) % stepSize == minutes + stepSize - 1;
    q
  }

  /**
   * The cost of billing `minutes` in one bracket: every started step costs
   * the bracket's amount, plus the bracket's cumulative amount once. No
   * minutes cost nothing, and a zero step size (a division by zero the
   * service catches) costs nothing.
   */
  function CalculatePartCost(part: TariefPart, minutes: int): (cost: int)
    ensures minutes <= 0 || part.stepSize == 0 ==> cost == 0
  {
    if minutes <= 0 then 0
    else if part.stepSize == 0 then 0
    else FloorDiv(minutes + part.stepSize - 1, part.stepSize) * part.amount + part.cumulativeAmount
  }

  /**
   * For a positive number of minutes and a positive step size, the cost is
   * the bracket's amount for each step needed to cover the minutes, plus
   * the cumulative amount.
   */
  lemma PartCostBySteps(part: TariefPart, minutes: int)
    requires minutes > 0 && part.stepSize > 0
    ensures CalculatePartCost(part, minutes)
         == StepsToCover(minutes, part.stepSize) * part.amount + part.cumulativeAmount
  {
  }

  /** One started minute in a bracket of one-minute steps costs one step plus the cumulative amount. */
  lemma OneMinuteCost(part: TariefPart)
    requires part.stepSize == 1
    ensures CalculatePartCost(part, 1) == part.amount + part.cumulativeAmount
  {
    PartCostBySteps(part, 1);
    assert StepsToCover(1, 1) == 1;
  }

  /** With non-negative amounts a bracket never costs less for more minutes. */
  lemma PartCostMonotone(part: TariefPart, m1: int, m2: int)
    requires part.stepSize > 0 && part.amount >= 0 && part.cumulativeAmount >= 0
    requires m1 <= m2
    ensures 0 <= CalculatePartCost(part, m1) <= CalculatePartCost(part, m2)
  {
    if m1 > 0 {
      var s := part.stepSize;
      var k1, k2 := StepsToCover(m1, s), StepsToCover(m2, s);
      PartCostBySteps(part, m1);
      PartCostBySteps(part, m2);
      if k2 < k1 {
        assert k2 * s <= (k1 - 1) * s by {
          MultiplyMonotone(k2, k1 - 1, s);
        }
        assert false;
      }
      MultiplyMonotone(k1, k2, part.amount);
    }
  }

  lemma MultiplyMonotone(a: int, b: int, c: int)
    requires a <= b && c >= 0
    ensures a * c <= b * c
  {
  }

  /** One bracket's share of the parked duration: the bracket, the minute it was entered at, and the minutes it took. */
  datatype Use = Use(part: TariefPart, from: int, minutes: int)

  /** `min(remaining, end - max(start, consumed))`, with `consumed == duration - remaining`. */
  function MinutesInPart(part: TariefPart, duration: int, remaining: int): int
  {
    Min(remaining, part.endDuration - Max(part.startDuration, duration - remaining))
  }

  /**
   * The brackets the walk bills, from `parts` on, when `remaining` of
   * `duration` minutes are still to be attributed. A bracket whose start the
   * consumed minutes have not reached is passed over; a bracket that would
   * take no minutes is passed over; the walk ends once nothing remains.
   */
  function Uses(parts: seq<TariefPart>, duration: int, remaining: int): seq<Use>
    decreases |parts|
  {
    if parts == [] || remaining <= 0 then []
    else
      var part := parts[0];
      var consumed := duration - remaining;
      if consumed < part.startDuration then Uses(parts[1..], duration, remaining)
      else
        var m := MinutesInPart(part, duration, remaining);
        if m > 0 then [Use(part, consumed, m)] + Uses(parts[1..], duration, remaining - m)
        else Uses(parts[1..], duration, remaining)
  }

  function SumMinutes(us: seq<Use>): int
  {
    if us == [] then 0 else us[0].minutes + SumMinutes(us[1..])
  }

  function SumCost(us: seq<Use>): int
  {
    if us == [] then 0 else CalculatePartCost(us[0].part, us[0].minutes) + SumCost(us[1..])
  }

  lemma SumsCons(u: Use, us: seq<Use>)
    ensures SumMinutes([u] + us) == u.minutes + SumMinutes(us)
    ensures SumCost([u] + us) == CalculatePartCost(u.part, u.minutes) + SumCost(us)
  {
    assert ([u] + us)[1..] == us;
  }

  lemma {:induction false} SumsAppend(us: seq<Use>, u: Use)
    ensures SumMinutes(us + [u]) == SumMinutes(us) + u.minutes
    ensures SumCost(us + [u]) == SumCost(us) + CalculatePartCost(u.part, u.minutes)
  {
    if us != [] {
      SumsAppend(us[1..], u);
      assert (us + [u])[1..] == us[1..] + [u];
    }
  }

  /** The unit information the service reports: the amount per step and the step's text. */
  datatype TariefInfo = TariefInfo(tariefPerEenheid: int, eenheid: string)

  const InitialInfo: TariefInfo := TariefInfo(0, "minuten")

  function UnitText(part: TariefPart): string
  {
    IntToString(part.stepSize) + " minuten"
  }

  /** The unit information after billing `us`: rewritten by each billed bracket while the amount is still 0. */
  function InfoOf(us: seq<Use>): TariefInfo
  {
    if us == [] then InitialInfo
    else
      var before := InfoOf(us[..|us| - 1]);
      var part := us[|us| - 1].part;
      if before.tariefPerEenheid == 0 then TariefInfo(part.amount, UnitText(part)) else before
  }

  /** One step of the walk, seen from bracket `i` on. */
  lemma UsesStep(parts: seq<TariefPart>, i: nat, duration: int, remaining: int)
    requires i < |parts| && remaining > 0
    ensures Uses(parts[i..], duration, remaining) ==
      if duration - remaining < parts[i].startDuration then Uses(parts[i + 1..], duration, remaining)
      else if MinutesInPart(parts[i], duration, remaining) > 0 then
        [Use(parts[i], duration - remaining, MinutesInPart(parts[i], duration, remaining))]
          + Uses(parts[i + 1..], duration, remaining - MinutesInPart(parts[i], duration, remaining))
      else Uses(parts[i + 1..], duration, remaining)
  {
    assert parts[i..][0] == parts[i] && parts[i..][1..] == parts[i + 1..];
  }

  lemma InfoOfAppend(us: seq<Use>, u: Use)
    ensures InfoOf(us + [u]) ==
      if InfoOf(us).tariefPerEenheid == 0 then TariefInfo(u.part.amount, UnitText(u.part)) else InfoOf(us)
  {
    assert (us + [u])[..|us|] == us;
  }

  /**
   * The state of the service's loop before bracket `i`: the brackets billed
   * so far, `done`, followed by the walk from `i` on make up the whole walk,
   * and the remaining duration is what `done` has not attributed.
   */
  predicate WalkAt(parts: seq<TariefPart>, duration: int, i: int, remaining: int, done: seq<Use>)
  {
    && 0 <= i <= |parts|
    && Uses(parts, duration, duration) == done + Uses(parts[i..], duration, remaining)
    && remaining == duration - SumMinutes(done)
    && remaining <= duration
    && (duration >= 0 ==> remaining >= 0)
  }

  lemma WalkStart(parts: seq<TariefPart>, duration: int)
    ensures WalkAt(parts, duration, 0, duration, [])
  {
    assert parts[0..] == parts;
  }

  /** Passing over bracket `i` (not reached yet, or no minutes to take) keeps the state. */
  lemma WalkSkip(parts: seq<TariefPart>, duration: int, i: int, remaining: int, done: seq<Use>)
    requires WalkAt(parts, duration, i, remaining, done) && i < |parts| && remaining > 0
    requires duration - remaining < parts[i].startDuration || MinutesInPart(parts[i], duration, remaining) <= 0
    ensures WalkAt(parts, duration, i + 1, remaining, done)
  {
    UsesStep(parts, i, duration, remaining);
  }

  /** Billing bracket `i` for its minutes extends `done` by one use. */
  lemma WalkTake(parts: seq<TariefPart>, duration: int, i: int, remaining: int, done: seq<Use>)
    requires WalkAt(parts, duration, i, remaining, done) && i < |parts| && remaining > 0
    requires duration - remaining >= parts[i].startDuration && MinutesInPart(parts[i], duration, remaining) > 0
    ensures var m := MinutesInPart(parts[i], duration, remaining);
      var u := Use(parts[i], duration - remaining, m);
      && WalkAt(parts, duration, i + 1, remaining - m, done + [u])
      && SumCost(done + [u]) == SumCost(done) + CalculatePartCost(parts[i], m)
      && InfoOf(done + [u]) == (if InfoOf(done).tariefPerEenheid == 0 then TariefInfo(parts[i].amount, UnitText(parts[i])) else InfoOf(done))
  {
    var m := MinutesInPart(parts[i], duration, remaining);
    var u := Use(parts[i], duration - remaining, m);
    UsesStep(parts, i, duration, remaining);
    SumsAppend(done, u);
    InfoOfAppend(done, u);
    assert done + ([u] + Uses(parts[i + 1..], duration, remaining - m))
        == (done + [u]) + Uses(parts[i + 1..], duration, remaining - m);
  }

  /** Once the brackets or the minutes run out, `done` is the whole walk and the remainder is the leftover. */
  lemma WalkEnd(parts: seq<TariefPart>, duration: int, i: int, remaining: int, done: seq<Use>)
    requires WalkAt(parts, duration, i, remaining, done) && (i == |parts| || remaining <= 0)
    ensures done == Uses(parts, duration, duration) && remaining == Leftover(parts, duration)
  {
    assert Uses(parts[i..], duration, remaining) == [];
  }

  /** Minutes the walk leaves unattributed. */
  function Leftover(parts: seq<TariefPart>, duration: int): int
  {
    duration - SumMinutes(Uses(parts, duration, duration))
  }

  /** Leftover minutes are billed on the last bracket only when that bracket is unbounded. */
  predicate TailBilled(parts: seq<TariefPart>, duration: int)
  {
    Leftover(parts, duration) > 0 && parts != [] && parts[|parts| - 1].endDuration == Unbounded
  }

  /** The total the service charges for `duration` minutes over the sorted brackets `parts`. */
  function TotalCost(parts: seq<TariefPart>, duration: int): int
  {
    SumCost(Uses(parts, duration, duration))
      + (if TailBilled(parts, duration) then CalculatePartCost(parts[|parts| - 1], Leftover(parts, duration)) else 0)
  }

  /** Minutes that end up billed, by a bracket of the walk or by the open-ended tail. */
  function BilledMinutes(parts: seq<TariefPart>, duration: int): int
  {
    SumMinutes(Uses(parts, duration, duration)) + (if TailBilled(parts, duration) then Leftover(parts, duration) else 0)
  }

  /**
   * Each billed bracket is one of `parts`, takes a positive number of
   * minutes, was entered at or after its start, and the minutes it takes
   * end at or before its end.
   */
  lemma {:induction false} UsesWithinBrackets(parts: seq<TariefPart>, duration: int, remaining: int)
    ensures forall i :: 0 <= i < |Uses(parts, duration, remaining)| ==>
      var u := Uses(parts, duration, remaining)[i];
      && u.part in parts && u.minutes > 0
      && u.part.startDuration <= u.from
      && u.from + u.minutes <= u.part.endDuration
    decreases |parts|
  {
    if parts != [] && remaining > 0 {
      UsesWithinBrackets(parts[1..], duration, remaining);
      var m := MinutesInPart(parts[0], duration, remaining);
      if duration - remaining >= parts[0].startDuration && m > 0 {
        UsesWithinBrackets(parts[1..], duration, remaining - m);
      }
    }
  }

  /**
   * The remaining duration never goes below zero and never grows: the walk
   * attributes between 0 and `remaining` minutes.
   */
  lemma {:induction false} UsesBounded(parts: seq<TariefPart>, duration: int, remaining: int)
    ensures 0 <= SumMinutes(Uses(parts, duration, remaining)) <= Max(0, remaining)
    decreases |parts|
  {
    if parts != [] && remaining > 0 {
      var m := MinutesInPart(parts[0], duration, remaining);
      if duration - remaining >= parts[0].startDuration && m > 0 {
        UsesBounded(parts[1..], duration, remaining - m);
        SumsCons(Use(parts[0], duration - remaining, m), Uses(parts[1..], duration, remaining - m));
      } else {
        UsesBounded(parts[1..], duration, remaining);
      }
    }
  }

  /**
   * The billed brackets follow one another without gap or overlap: each
   * is entered at the minute the ones before it have consumed.
   */
  lemma {:induction false} UsesTile(parts: seq<TariefPart>, duration: int, remaining: int)
    ensures forall i :: 0 <= i < |Uses(parts, duration, remaining)| ==>
      Uses(parts, duration, remaining)[i].from
        == duration - remaining + SumMinutes(Uses(parts, duration, remaining)[..i])
    decreases |parts|
  {
    if parts != [] && remaining > 0 {
      var m := MinutesInPart(parts[0], duration, remaining);
      if duration - remaining >= parts[0].startDuration && m > 0 {
        var u := Use(parts[0], duration - remaining, m);
        var rest := Uses(parts[1..], duration, remaining - m);
        UsesTile(parts[1..], duration, remaining - m);
        var us := [u] + rest;
        forall i | 0 < i < |us|
          ensures us[i].from == duration - remaining + SumMinutes(us[..i])
        {
          assert us[..i] == [u] + rest[..i - 1];
          SumsCons(u, rest[..i - 1]);
        }
        assert us[..0] == [];
      } else {
        UsesTile(parts[1..], duration, remaining);
      }
    }
  }

  /** While every billed bracket is free, the unit information is 0 with the unit of the last one billed. */
  lemma {:induction false} InfoOfAllFree(us: seq<Use>)
    requires forall i :: 0 <= i < |us| ==> us[i].part.amount == 0
    ensures InfoOf(us) == if us == [] then InitialInfo else TariefInfo(0, UnitText(us[|us| - 1].part))
  {
    if us != [] {
      var init := us[..|us| - 1];
      assert forall i :: 0 <= i < |init| ==> init[i] == us[i];
      InfoOfAllFree(init);
    }
  }

  /** Once a prefix of the walk has fixed a nonzero amount, later brackets do not change it. */
  lemma {:induction false} InfoOfSettled(us: seq<Use>, j: nat)
    requires j <= |us| && InfoOf(us[..j]).tariefPerEenheid != 0
    ensures InfoOf(us) == InfoOf(us[..j])
    decreases |us|
  {
    if j < |us| {
      var init := us[..|us| - 1];
      assert init[..j] == us[..j];
      InfoOfSettled(init, j);
    } else {
      assert us[..j] == us;
    }
  }

  /**
   * The unit information comes from the first billed bracket whose amount
   * is not 0: its amount and its step size.
   */
  lemma {:induction false} InfoOfFirstPriced(us: seq<Use>, k: nat)
    requires k < |us| && us[k].part.amount != 0
    requires forall i :: 0 <= i < k ==> us[i].part.amount == 0
    ensures InfoOf(us) == TariefInfo(us[k].part.amount, UnitText(us[k].part))
  {
    var pre := us[..k];
    assert forall i :: 0 <= i < |pre| ==> pre[i] == us[i];
    InfoOfAllFree(pre);
    var upto := us[..k + 1];
    assert upto[..k] == pre && upto[k] == us[k];
    assert InfoOf(upto) == TariefInfo(us[k].part.amount, UnitText(us[k].part));
    InfoOfSettled(us, k + 1);
  }

  /** The brackets run from one to the next without gap, each non-empty. */
  predicate Contiguous(parts: seq<TariefPart>)
  {
    && parts != []
    && (forall i :: 0 <= i < |parts| ==> parts[i].startDuration < parts[i].endDuration)
    && (forall i :: 0 <= i < |parts| - 1 ==> parts[i].endDuration == parts[i + 1].startDuration)
  }

  /** Dropping the first bracket keeps a schedule contiguous; the next one starts where the first ends. */
  lemma ContiguousTail(parts: seq<TariefPart>)
    requires Contiguous(parts) && |parts| > 1
    ensures Contiguous(parts[1..]) && parts[1..][0].startDuration == parts[0].endDuration
  {
    assert forall i :: 0 <= i < |parts| - 1 ==> parts[1..][i] == parts[i + 1];
  }

  /** Entering the first bracket at its start bills it for as much of it as remains. */
  lemma EnterFirst(parts: seq<TariefPart>, duration: int, remaining: int)
    requires parts != [] && remaining > 0
    requires duration - remaining == parts[0].startDuration < parts[0].endDuration
    ensures var m := MinutesInPart(parts[0], duration, remaining);
      && m == Min(remaining, parts[0].endDuration - parts[0].startDuration) && m > 0
      && SumMinutes(Uses(parts, duration, remaining)) == m + SumMinutes(Uses(parts[1..], duration, remaining - m))
      && SumCost(Uses(parts, duration, remaining))
         == CalculatePartCost(parts[0], m) + SumCost(Uses(parts[1..], duration, remaining - m))
  {
    var m := MinutesInPart(parts[0], duration, remaining);
    SumsCons(Use(parts[0], duration - remaining, m), Uses(parts[1..], duration, remaining - m));
  }

  lemma {:induction false} ContiguousEnds(parts: seq<TariefPart>)
    requires Contiguous(parts)
    ensures parts[0].endDuration <= parts[|parts| - 1].endDuration
    decreases |parts|
  {
    if |parts| > 1 {
      ContiguousTail(parts);
      ContiguousEnds(parts[1..]);
    }
  }

  /**
   * Over contiguous brackets entered at the first one's start, the walk
   * attributes the remaining minutes up to the last bracket's end.
   */
  lemma {:induction false} ContiguousWalk(parts: seq<TariefPart>, duration: int, remaining: int)
    requires Contiguous(parts) && remaining > 0
    requires duration - remaining == parts[0].startDuration
    ensures SumMinutes(Uses(parts, duration, remaining))
         == Min(remaining, parts[|parts| - 1].endDuration - parts[0].startDuration)
    decreases |parts|
  {
    EnterFirst(parts, duration, remaining);
    var m := MinutesInPart(parts[0], duration, remaining);
    ContiguousEnds(parts);
    if |parts| > 1 && m < remaining {
      ContiguousTail(parts);
      ContiguousWalk(parts[1..], duration, remaining - m);
    } else {
      assert parts[1..] == [] || remaining - m == 0;
    }
  }

  /**
   * Brackets contiguous from minute 0 attribute every parked minute up to
   * the last bracket's end by themselves: nothing is left for the tail.
   */
  lemma ContiguousCoverage(parts: seq<TariefPart>, duration: int)
    requires Contiguous(parts) && parts[0].startDuration == 0
    requires 0 < duration <= parts[|parts| - 1].endDuration
    ensures SumMinutes(Uses(parts, duration, duration)) == duration
    ensures Leftover(parts, duration) == 0 && !TailBilled(parts, duration)
    ensures TotalCost(parts, duration) == SumCost(Uses(parts, duration, duration))
  {
    ContiguousWalk(parts, duration, duration);
  }

  /**
   * Whatever the brackets, an unbounded last bracket takes the minutes the
   * walk leaves over, so every parked minute is billed.
   */
  lemma UnboundedTailBillsAll(parts: seq<TariefPart>, duration: int)
    requires parts != [] && parts[|parts| - 1].endDuration == Unbounded
    requires duration >= 0
    ensures BilledMinutes(parts, duration) == duration
  {
    UsesBounded(parts, duration, duration);
  }

  /**
   * When the last bracket is bounded, minutes beyond its end are billed by
   * nobody: contiguous brackets from 0 bill only up to that end.
   */
  lemma BoundedScheduleDropsMinutes(parts: seq<TariefPart>, duration: int)
    requires Contiguous(parts) && parts[0].startDuration == 0
    requires parts[|parts| - 1].endDuration != Unbounded
    requires duration > 0
    ensures BilledMinutes(parts, duration) == Min(duration, parts[|parts| - 1].endDuration)
    ensures TotalCost(parts, duration) == SumCost(Uses(parts, duration, duration))
  {
    ContiguousWalk(parts, duration, duration);
  }

  /** Every bracket has a positive step size and non-negative amounts. */
  predicate NonNegative(parts: seq<TariefPart>)
  {
    forall i :: 0 <= i < |parts| ==>
      parts[i].stepSize > 0 && parts[i].amount >= 0 && parts[i].cumulativeAmount >= 0
  }

  lemma {:induction false} WalkCostNonNegative(parts: seq<TariefPart>, duration: int, remaining: int)
    requires NonNegative(parts)
    ensures SumCost(Uses(parts, duration, remaining)) >= 0
    decreases |parts|
  {
    if parts != [] && remaining > 0 {
      var m := MinutesInPart(parts[0], duration, remaining);
      if duration - remaining >= parts[0].startDuration && m > 0 {
        WalkCostNonNegative(parts[1..], duration, remaining - m);
        SumsCons(Use(parts[0], duration - remaining, m), Uses(parts[1..], duration, remaining - m));
        PartCostMonotone(parts[0], 0, m);
      } else {
        WalkCostNonNegative(parts[1..], duration, remaining);
      }
    }
  }

  /** Dropping the first bracket keeps a schedule non-negative. */
  lemma NonNegativeTail(parts: seq<TariefPart>)
    requires NonNegative(parts) && parts != []
    ensures NonNegative(parts[1..])
  {
    assert forall i :: 0 <= i < |parts| - 1 ==> parts[1..][i] == parts[i + 1];
  }

  /**
   * Two walks that have consumed the same minutes, the second with at least
   * as many minutes still to attribute: the second never costs less, and
   * when the first leaves minutes over, the second leaves at least as many.
   */
  lemma {:induction false} WalkMonotone(parts: seq<TariefPart>, d1: int, r1: int, d2: int, r2: int)
    requires NonNegative(parts)
    requires 0 <= r1 <= r2 && d1 - r1 == d2 - r2
    ensures SumCost(Uses(parts, d1, r1)) <= SumCost(Uses(parts, d2, r2))
    ensures r1 - SumMinutes(Uses(parts, d1, r1)) > 0 ==>
      r2 - SumMinutes(Uses(parts, d2, r2)) >= r1 - SumMinutes(Uses(parts, d1, r1))
    decreases |parts|
  {
    if parts == [] || r1 == 0 {
      WalkCostNonNegative(parts, d2, r2);
    } else {
      var p := parts[0];
      var consumed := d1 - r1;
      var m1, m2 := MinutesInPart(p, d1, r1), MinutesInPart(p, d2, r2);
      NonNegativeTail(parts);
      if consumed < p.startDuration || m1 <= 0 {
        WalkMonotone(parts[1..], d1, r1, d2, r2);
      } else {
        SumsCons(Use(p, consumed, m1), Uses(parts[1..], d1, r1 - m1));
        SumsCons(Use(p, consumed, m2), Uses(parts[1..], d2, r2 - m2));
        PartCostMonotone(p, m1, m2);
        if m1 < r1 {
          WalkMonotone(parts[1..], d1, r1 - m1, d2, r2 - m2);
        } else {
          assert Uses(parts[1..], d1, r1 - m1) == [];
          WalkCostNonNegative(parts[1..], d2, r2 - m2);
        }
      }
    }
  }

  /** Holding the schedule fixed, a longer stay never costs less when no amount is negative. */
  lemma TotalCostMonotone(parts: seq<TariefPart>, d1: int, d2: int)
    requires NonNegative(parts)
    requires 0 <= d1 <= d2
    ensures TotalCost(parts, d1) <= TotalCost(parts, d2)
  {
    WalkMonotone(parts, d1, d1, d2, d2);
    if parts != [] {
      var last := parts[|parts| - 1];
      if TailBilled(parts, d1) {
        PartCostMonotone(last, Leftover(parts, d1), Leftover(parts, d2));
      } else if TailBilled(parts, d2) {
        PartCostMonotone(last, 0, Leftover(parts, d2));
      }
    }
  }

  /**
   * The worked example of the zone "14_TAR01": one hour in steps of 15
   * minutes at 1.00 and an unbounded tail in steps of 30 minutes at 1.50;
   * 90 minutes cost 4.00 + 1.50.
   */
  lemma ExampleNinetyMinutes()
    ensures var first := TariefPart(14, "TAR01", "20240101", "20991231", 0, 60, 100, 15, 0);
            var tail := TariefPart(14, "TAR01", "20240101", "20991231", 60, Unbounded, 150, 30, 0);
            TotalCost([first, tail], 90) == 550 && BilledMinutes([first, tail], 90) == 90
  {
    var first := TariefPart(14, "TAR01", "20240101", "20991231", 0, 60, 100, 15, 0);
    var tail := TariefPart(14, "TAR01", "20240101", "20991231", 60, Unbounded, 150, 30, 0);
    assert CalculatePartCost(first, 60) == 400;
    assert CalculatePartCost(tail, 30) == 150;
    assert [first, tail][1..] == [tail];
    assert Uses([tail], 90, 30) == [Use(tail, 60, 30)];
    assert Uses([first, tail], 90, 90) == [Use(first, 0, 60), Use(tail, 60, 30)];
    SumsCons(Use(first, 0, 60), [Use(tail, 60, 30)]);
    SumsCons(Use(tail, 60, 30), []);
    assert SumMinutes(Uses([first, tail], 90, 90)) == 90;
    assert SumCost(Uses([first, tail], 90, 90)) == 550;
    assert Leftover([first, tail], 90) == 0;
  }

  /**
   * One minute parked over a schedule whose first bracket starts at 0 in
   * steps of one minute costs one step of that bracket plus its cumulative
   * amount.
   */
  lemma OneMinuteStay(parts: seq<TariefPart>)
    requires parts != [] && parts[0].startDuration == 0 < parts[0].endDuration && parts[0].stepSize == 1
    ensures TotalCost(parts, 1) == parts[0].amount + parts[0].cumulativeAmount
    ensures BilledMinutes(parts, 1) == 1
  {
    var u := Use(parts[0], 0, 1);
    assert Uses(parts[1..], 1, 0) == [];
    assert Uses(parts, 1, 1) == [u];
    SumsCons(u, []);
    OneMinuteCost(parts[0]);
  }
}
