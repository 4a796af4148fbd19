/** The pacing engine: how many episodes a day are needed to reach the
    series total by the deadline, and the day-by-day plan derived from it.
    Dates are day numbers (days since 1970-01-01), so "today + i days" is
    `today + i` and the days left are a plain difference. */
module Pacing {

  /** The plan covers at most this many future days. */
  const Horizon: int := 30

  /** One displayed day of the plan: its date, the cumulative episode to
      have reached by then, and the per-day figure shown beside it. */
  datatype PlanEntry = PlanEntry(date: int, episode: int, episodesToWatch: int)

  function Min(a: int, b: int): int { if a <= b then a else b }

  function Max(a: int, b: int): int { if a <= b then b else a }

  /** `Math.ceil` on an exact rational: the least integer not below `x`. */
  function Ceil(x: real): (r: int)
    ensures x <= r as real < x + 1.0
  {
    -((-x).Floor)
  }

  /** Rounding up keeps the order. */
  lemma CeilMonotone(x: real, y: real)
    requires x <= y
    ensures Ceil(x) <= Ceil(y)
  {
  }

  /** A whole number rounds up to itself. */
  lemma CeilOfInt(n: int)
    ensures Ceil(n as real) == n
  {
  }

  /** Days from `today` to the deadline. */
  function DaysLeft(today: int, deadline: int): int
  {
    deadline - today
  }

  /** Episodes still to watch; negative once the total has been passed. */
  function EpisodesLeft(ep: int, total: int): int
  {
    total - ep
  }

  /** The required pace, NOT clamped: what the plan itself is built from.
      With no day left the whole remainder is due at once. */
  function PerDay(ep: int, total: int, daysLeft: int): real
  {
    if daysLeft > 0 then EpisodesLeft(ep, total) as real / daysLeft as real
    else EpisodesLeft(ep, total) as real
  }

  /** The pace shown to the viewer: the required pace clamped at zero. */
  function DisplayedPace(ep: int, total: int, daysLeft: int): (r: real)
    ensures r >= 0.0 && r >= PerDay(ep, total, daysLeft)
    ensures r == 0.0 || r == PerDay(ep, total, daysLeft)
  {
    var perDay := PerDay(ep, total, daysLeft);
    if perDay > 0.0 then perDay else 0.0
  }

  /** Number of days the plan covers: the days left, at most the horizon,
      and none once the deadline is reached. */
  function PlanLength(daysLeft: int): nat
  {
    if daysLeft <= 0 then 0 else Min(daysLeft, Horizon)
  }

  /** Cumulative target for day offset `i`, rounded up and capped at the total. */
  function Target(ep: int, total: int, perDay: real, i: int): int
  {
    Min(Ceil(ep as real + perDay * i as real), total)
  }

  /** The plan, as a value: entry `i` is day `today + i + 1`. */
  function Plan(ep: int, total: int, today: int, deadline: int): seq<PlanEntry>
  {
    var daysLeft := DaysLeft(today, deadline);
    var perDay := PerDay(ep, total, daysLeft);
    seq(PlanLength(daysLeft), i => PlanEntry(today + i + 1, Target(ep, total, perDay, i + 1), Ceil(perDay)))
  }

  /** Entry `k` of the plan, for the loop that builds it. */
  lemma PlanAt(ep: int, total: int, today: int, deadline: int, k: int)
    requires 0 <= k < PlanLength(DaysLeft(today, deadline))
    ensures var perDay := PerDay(ep, total, DaysLeft(today, deadline));
      |Plan(ep, total, today, deadline)| == PlanLength(DaysLeft(today, deadline))
      && Plan(ep, total, today, deadline)[k] == PlanEntry(today + k + 1, Target(ep, total, perDay, k + 1), Ceil(perDay))
  {
  }

  /** Builds the plan the way the component does, one pushed entry per day
      offset `i` in 1..min(daysLeft, 30), and returns it with the displayed pace. */
  method ComputePlan(ep: int, total: int, today: int, deadline: int) returns (pace: real, plan: seq<PlanEntry>)
    ensures pace == DisplayedPace(ep, total, DaysLeft(today, deadline))
    ensures plan == Plan(ep, total, today, deadline)
  {
    var daysLeft := deadline - today;
    var episodesLeft := total - ep;
    var perDay := if daysLeft > 0 then episodesLeft as real / daysLeft as real else episodesLeft as real;
    assert perDay == PerDay(ep, total, DaysLeft(today, deadline));
    pace := if perDay > 0.0 then perDay else 0.0;
    ghost var full := Plan(ep, total, today, deadline);
    plan := [];
    var i := 1;
    while i <= Min(daysLeft, Horizon)
      invariant 1 <= i <= PlanLength(daysLeft) + 1
      invariant plan == full[..i - 1]
    {
      var episode := Target(ep, total, perDay, i);
      PlanAt(ep, total, today, deadline, i - 1);
      assert full[..i] == full[..i - 1] + [full[i - 1]];
      plan := plan + [PlanEntry(today + i, episode, Ceil(perDay))];
      i := i + 1;
    }
    assert full[..|full|] == full;
  }

  /** The plan as displayed: its first day is dropped when it is today and
      the viewer has already watched today (the component's lookup into the
      history, `History.WatchedToday`). */
  function FilterPlan(plan: seq<PlanEntry>, today: int, watchedToday: bool): seq<PlanEntry>
  {
    if watchedToday && |plan| > 0 && plan[0].date == today then plan[1..] else plan
  }

  /** With a future deadline the required pace, kept up for every day left,
      lands exactly on the total; with none left the whole remainder is due. */
  lemma PerDayMeetsDeadline(ep: int, total: int, daysLeft: int)
    ensures daysLeft > 0 ==> ep as real + PerDay(ep, total, daysLeft) * daysLeft as real == total as real
    ensures daysLeft <= 0 ==> PerDay(ep, total, daysLeft) == EpisodesLeft(ep, total) as real
  {
  }

  /** The displayed pace is zero once the total is reached, and the whole
      remainder (never negative) once the deadline has passed. */
  lemma DisplayedPaceCases(ep: int, total: int, daysLeft: int)
    ensures ep >= total ==> DisplayedPace(ep, total, daysLeft) == 0.0
    ensures daysLeft <= 0 ==> DisplayedPace(ep, total, daysLeft) == Max(total - ep, 0) as real
  {
    if ep >= total && daysLeft > 0 {
      DivNonPositive(total - ep, daysLeft);
    }
  }

  /** Dividing a non-positive amount over positive days gives a non-positive pace. */
  lemma DivNonPositive(a: int, d: int)
    requires a <= 0 < d
    ensures a as real / d as real <= 0.0
  {
  }

  /** The plan covers `max(0, min(daysLeft, 30))` consecutive days starting
      tomorrow, so none of them is today, and all carry the same per-day
      figure: the ceiling of the unclamped pace. */
  lemma PlanDays(ep: int, total: int, today: int, deadline: int)
    ensures var plan := Plan(ep, total, today, deadline);
      && |plan| == Max(0, Min(DaysLeft(today, deadline), Horizon))
      && (|plan| > 0 ==> plan[0].date == today + 1)
      && (forall i :: 0 <= i < |plan| - 1 ==> plan[i + 1].date == plan[i].date + 1)
      && (forall i :: 0 <= i < |plan| ==> today < plan[i].date <= deadline)
      && (forall i :: 0 <= i < |plan| ==> plan[i].episodesToWatch == Ceil(PerDay(ep, total, DaysLeft(today, deadline))))
  {
  }

  /** A plan shown on the day it was computed never holds that day, so the
      display filter never drops an entry from it. */
  lemma FilterPlanKeepsPlan(ep: int, total: int, today: int, deadline: int, watchedToday: bool)
    ensures FilterPlan(Plan(ep, total, today, deadline), today, watchedToday) == Plan(ep, total, today, deadline)
  {
    PlanDays(ep, total, today, deadline);
  }

  /** A plan computed on `planDay` and shown on `today` (the component keeps
      the plan until the episode or the total changes, not when the day
      does) loses its first entry exactly when it is shown the next day, the
      viewer has watched that day, and the plan is not empty. */
  lemma FilterStalePlan(ep: int, total: int, planDay: int, deadline: int, today: int, watchedToday: bool)
    ensures var plan := Plan(ep, total, planDay, deadline);
      FilterPlan(plan, today, watchedToday)
        == if watchedToday && today == planDay + 1 && DaysLeft(planDay, deadline) > 0 then plan[1..] else plan
  {
    PlanDays(ep, total, planDay, deadline);
  }

  /** No target exceeds the series total. */
  lemma PlanTargetsCapped(ep: int, total: int, today: int, deadline: int)
    ensures forall e :: e in Plan(ep, total, today, deadline) ==> e.episode <= total
  {
  }

  /** `a + p * i` grows with `i` when `p` is not negative. */
  lemma ScaleMonotone(a: real, p: real, i: int, j: int)
    requires 0.0 <= p && i <= j
    ensures a + p * i as real <= a + p * j as real
  {
    assert p * j as real - p * i as real == p * (j - i) as real;
  }

  /** Once the viewer has reached or passed the total, every target is the total. */
  lemma PlanCompleteWhenCaughtUp(ep: int, total: int, today: int, deadline: int)
    requires ep >= total
    ensures forall e :: e in Plan(ep, total, today, deadline) ==> e.episode == total
  {
    var daysLeft := DaysLeft(today, deadline);
    var plan := Plan(ep, total, today, deadline);
    forall k | 0 <= k < |plan|
      ensures plan[k].episode == total
    {
      assert plan[k].episode == Target(ep, total, PerDay(ep, total, daysLeft), k + 1);
      CaughtUpTarget(ep, total, daysLeft, k + 1);
    }
  }

  /** Past the total, the (negative) pace never takes a target within the
      days left below the total. */
  lemma CaughtUpTarget(ep: int, total: int, daysLeft: int, i: int)
    requires ep >= total && 1 <= i <= daysLeft
    ensures Target(ep, total, PerDay(ep, total, daysLeft), i) == total
  {
    var perDay := PerDay(ep, total, daysLeft);
    // the surplus shrinks by `q` a day and is gone after `daysLeft` days
    var q := (ep - total) as real / daysLeft as real;
    assert perDay == -q;
    assert q >= 0.0;
    ScaleMonotone(0.0, q, i, daysLeft);
    assert q * daysLeft as real == (ep - total) as real;
    assert perDay * i as real == -(q * i as real);
    assert ep as real + perDay * i as real >= total as real;
    CeilMonotone(total as real, ep as real + perDay * i as real);
    CeilOfInt(total);
  }

  /** Targets at later offsets are never lower when the pace is not negative. */
  lemma TargetMonotone(ep: int, total: int, perDay: real, i: int, j: int)
    requires 0.0 <= perDay && i <= j
    ensures Target(ep, total, perDay, i) <= Target(ep, total, perDay, j)
  {
    ScaleMonotone(ep as real, perDay, i, j);
    CeilMonotone(ep as real + perDay * i as real, ep as real + perDay * j as real);
  }

  /** With a positive pace, every future target is above the current episode. */
  lemma TargetAhead(ep: int, total: int, perDay: real, i: int)
    requires ep < total && 0.0 < perDay && 1 <= i
    ensures ep < Target(ep, total, perDay, i) <= total
  {
    assert perDay * i as real >= perDay by {
      ScaleMonotone(0.0, perDay, 1, i);
    }
  }

  /** While behind with days left, the targets climb without ever falling
      back, each is above the current episode, and the entry for the
      deadline itself (when inside the horizon) is exactly the total. */
  lemma PlanTargetsProgress(ep: int, total: int, today: int, deadline: int)
    requires ep < total && DaysLeft(today, deadline) > 0
    ensures var plan := Plan(ep, total, today, deadline);
      && (forall i, j :: 0 <= i <= j < |plan| ==> plan[i].episode <= plan[j].episode)
      && (forall i :: 0 <= i < |plan| ==> ep < plan[i].episode <= total)
      && (DaysLeft(today, deadline) <= Horizon ==> plan[DaysLeft(today, deadline) - 1].episode == total)
  {
    var daysLeft := DaysLeft(today, deadline);
    var perDay := PerDay(ep, total, daysLeft);
    var plan := Plan(ep, total, today, deadline);
    BehindPacePositive(ep, total, daysLeft);
    forall i, j | 0 <= i <= j < |plan|
      ensures plan[i].episode <= plan[j].episode
    {
      PlanAt(ep, total, today, deadline, i);
      PlanAt(ep, total, today, deadline, j);
      TargetMonotone(ep, total, perDay, i + 1, j + 1);
    }
    forall i | 0 <= i < |plan|
      ensures ep < plan[i].episode <= total
    {
      PlanAt(ep, total, today, deadline, i);
      TargetAhead(ep, total, perDay, i + 1);
    }
    if daysLeft <= Horizon {
      PlanAt(ep, total, today, deadline, daysLeft - 1);
      TargetAtDeadline(ep, total, daysLeft);
    }
  }

  /** Behind the total with days left, the required pace is positive. */
  lemma BehindPacePositive(ep: int, total: int, daysLeft: int)
    requires ep < total && daysLeft > 0
    ensures PerDay(ep, total, daysLeft) > 0.0
  {
  }

  /** Kept up for all the days left, the pace reaches the total exactly. */
  lemma TargetAtDeadline(ep: int, total: int, daysLeft: int)
    requires daysLeft > 0
    ensures Target(ep, total, PerDay(ep, total, daysLeft), daysLeft) == total
  {
    PerDayMeetsDeadline(ep, total, daysLeft);
    CeilOfInt(total);
  }

  /** A worked case: 100 of 1100 watched with ten days left gives a pace of
      100 a day, a first target of 200 and the total on the last day. */
  lemma PlanExample(today: int)
    ensures DisplayedPace(100, 1100, DaysLeft(today, today + 10)) == 100.0
    ensures var plan := Plan(100, 1100, today, today + 10);
      |plan| == 10 && plan[0] == PlanEntry(today + 1, 200, 100) && plan[9].episode == 1100
  {
    var plan := Plan(100, 1100, today, today + 10);
    assert PerDay(100, 1100, 10) == 100.0;
    CeilOfInt(100);
    CeilOfInt(200);
    CeilOfInt(1100);
    assert plan[0].episode == Min(Ceil(100.0 + 100.0 * 1.0), 1100);
    assert plan[9].episode == Min(Ceil(100.0 + 100.0 * 10.0), 1100);
  }

  /** The plan keeps the unclamped pace: past the total, the shown pace is
      zero while every plan entry asks for a negative number of episodes. */
  lemma UnclampedPerDayExample(today: int)
    ensures DisplayedPace(1200, 1100, DaysLeft(today, today + 10)) == 0.0
    ensures forall e :: e in Plan(1200, 1100, today, today + 10) ==> e.episodesToWatch == -10
  {
    assert PerDay(1200, 1100, 10) == -10.0;
    CeilOfInt(-10);
  }
}
