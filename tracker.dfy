/** The progress form's state and the handlers that change it: submitting
    today's episode, changing the series total, and recomputing the plan. */
module Tracker {
  import opened Pacing
  import opened History

  /** The series total used until the stored setting is read. */
  const DefaultTotalEpisodes: int := 1100

  /** The deadline, 2025-11-30, as a day number (days since 1970-01-01). */
  const EndDate: int := 20422

  datatype Option<T> = None | Some(value: T)

  datatype Role = Admin | User

  /** The profile chosen at login. */
  datatype Profile = Profile(name: string, role: Role)

  /** A user document as the store returns it. */
  datatype StoredUser = StoredUser(currentEpisode: int, history: seq<Entry>)

  class ProgressForm {
    const profile: Option<Profile>
    var currentEpisode: int
    var totalEpisodes: int
    var history: seq<Entry>
    var episodesPerDay: real
    var plan: seq<PlanEntry>

    /** The object invariant the upsert keeps: one entry per date. */
    ghost predicate Valid()
      reads this
    {
      DatesUnique(history)
    }

    /** Whether the logged-in profile may log progress. */
    predicate CanSubmit()
    {
      profile.Some? && profile.value.role == User
    }

    /** The plan as shown on `today`: without today's day when the viewer
        has already watched today. */
    function DisplayedPlan(today: int): seq<PlanEntry>
      reads this
    {
      FilterPlan(plan, today, WatchedToday(history, today))
    }

    /** The form once the profile, the stored total and the stored user (if
        any) have been read: a missing or zero episode counts as episode 1,
        a missing history as empty. */
    constructor (p: Option<Profile>, storedTotal: int, user: Option<StoredUser>)
      ensures profile == p && totalEpisodes == storedTotal
      ensures currentEpisode == if user.Some? && user.value.currentEpisode != 0 then user.value.currentEpisode else 1
      ensures history == if user.Some? then user.value.history else []
      ensures episodesPerDay == 0.0 && plan == []
      ensures user.None? || DatesUnique(user.value.history) ==> Valid()
    {
      profile := p;
      totalEpisodes := storedTotal;
      if user.Some? {
        currentEpisode := if user.value.currentEpisode != 0 then user.value.currentEpisode else 1;
        history := user.value.history;
      } else {
        currentEpisode := 1;
        history := [];
      }
      episodesPerDay := 0.0;
      plan := [];
    }

    /** Recomputes the displayed pace and the plan for episode `ep`. */
    method CalculatePlan(ep: int, today: int)
      modifies this
      ensures episodesPerDay == DisplayedPace(ep, totalEpisodes, DaysLeft(today, EndDate))
      ensures plan == Plan(ep, totalEpisodes, today, EndDate)
      ensures DisplayedPlan(today) == plan
      ensures currentEpisode == old(currentEpisode) && totalEpisodes == old(totalEpisodes)
      ensures history == old(history)
    {
      var pace, entries := ComputePlan(ep, totalEpisodes, today, EndDate);
      FilterPlanKeepsPlan(ep, totalEpisodes, today, EndDate, WatchedToday(history, today));
      episodesPerDay := pace;
      plan := entries;
    }

    /** Logs `newEp` as today's episode: rejected unless the profile is a
        viewer and `1 <= newEp <= totalEpisodes`; otherwise today's entry is
        updated in place, or appended when there is none, and the current
        episode becomes `newEp`. */
    method Submit(newEp: int, today: int) returns (accepted: bool)
      modifies this
      ensures accepted <==> CanSubmit() && 1 <= newEp <= totalEpisodes
      ensures accepted ==> currentEpisode == newEp && history == Upsert(old(history), today, newEp)
      ensures !accepted ==> currentEpisode == old(currentEpisode) && history == old(history)
      ensures old(Valid()) ==> Valid()
      ensures totalEpisodes == old(totalEpisodes)
      ensures episodesPerDay == old(episodesPerDay) && plan == old(plan)
    {
      if !CanSubmit() {
        return false;
      }
      if newEp < 1 || newEp > totalEpisodes {
        return false;
      }
      var hist := history;
      var idx := FindIndex(hist, today);
      if idx >= 0 {
        hist := hist[idx := hist[idx].(episode := newEp)];
        UpsertReplaces(history, today, newEp, idx);
      } else {
        hist := hist + [Entry(today, newEp)];
        UpsertAppends(history, today, newEp);
      }
      if DatesUnique(history) {
        UpsertKeepsDatesUnique(history, today, newEp);
      }
      currentEpisode := newEp;
      history := hist;
      accepted := true;
    }

    /** Sets the series total, rejecting values below 1. */
    method ChangeTotal(val: int) returns (accepted: bool)
      modifies this
      ensures accepted <==> val >= 1
      ensures totalEpisodes == if accepted then val else old(totalEpisodes)
      ensures currentEpisode == old(currentEpisode) && history == old(history)
      ensures episodesPerDay == old(episodesPerDay) && plan == old(plan)
    {
      if val < 1 {
        return false;
      }
      totalEpisodes := val;
      accepted := true;
    }
  }

  /** A viewer logging episodes on two days, then correcting the second. */
  method SubmitScenario()
  {
    var form := new ProgressForm(Some(Profile("viewer", User)), DefaultTotalEpisodes, None);
    var ok := form.Submit(5, 20089);
    assert ok && form.history == [Entry(20089, 5)];
    ok := form.Submit(9, 20090);
    assert ok && form.history == [Entry(20089, 5), Entry(20090, 9)];
    ok := form.Submit(8, 20090);
    assert ok && form.history == [Entry(20089, 5), Entry(20090, 8)] && form.currentEpisode == 8;
    ok := form.Submit(0, 20090);
    assert !ok && form.currentEpisode == 8;
    ok := form.Submit(DefaultTotalEpisodes + 1, 20090);
    assert !ok && form.history == [Entry(20089, 5), Entry(20090, 8)];
  }

  /** The page stays open past midnight: the plan computed yesterday is
      kept, the viewer confirms the same episode today, and the displayed
      plan loses its first day, which is today. */
  method StalePlanScenario()
  {
    var form := new ProgressForm(Some(Profile("viewer", User)), DefaultTotalEpisodes, Some(StoredUser(100, [])));
    form.CalculatePlan(form.currentEpisode, 20412);
    var shown := form.plan;
    assert form.DisplayedPlan(20412) == shown;
    var ok := form.Submit(100, 20413);
    assert ok && form.plan == shown && form.history == [Entry(20413, 100)];
    WatchedTodayAfterAppend([], 20413, 100);
    assert [] + [Entry(20413, 100)] == form.history;
    assert WatchedToday(form.history, 20413);
    assert shown == Plan(100, DefaultTotalEpisodes, 20412, EndDate) && DaysLeft(20412, EndDate) == 10;
    FilterStalePlan(100, DefaultTotalEpisodes, 20412, EndDate, 20413, true);
    assert form.DisplayedPlan(20413) == shown[1..];
  }

  /** The admin cannot log progress but can change the total, never below 1. */
  method AdminScenario()
  {
    var form := new ProgressForm(Some(Profile("admin", Admin)), DefaultTotalEpisodes, Some(StoredUser(0, [])));
    assert form.currentEpisode == 1;
    var ok := form.Submit(5, 20089);
    assert !ok && form.history == [] && form.currentEpisode == 1;
    ok := form.ChangeTotal(0);
    assert !ok && form.totalEpisodes == DefaultTotalEpisodes;
    ok := form.ChangeTotal(1000);
    assert ok && form.totalEpisodes == 1000;
  }
}
