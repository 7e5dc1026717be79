/** The water tracker of the frontend/ tree: a glass counter bounded by the
    daily goal whose every change is also written into the per-day map
    under today's date key. */
module FrontendWater {
  import Gauge

  const DailyGoal: nat := 8

  /** The per-day map the component starts with. */
  const InitialWeek: map<string, nat> := map[
    "2023-06-04" := 5, "2023-06-05" := 2, "2023-06-06" := 6, "2023-06-07" := 7,
    "2023-06-08" := 5, "2023-06-09" := 7, "2023-06-10" := 7]

  /** The two state variables the handlers update. */
  datatype Intake = Intake(currentIntake: nat, weeklyData: map<string, nat>)

  /** `weeklyData[dateKey] || 0`: the glasses logged on a day, 0 for a day
      without an entry. */
  function GlassesOn(week: map<string, nat>, dateKey: string): nat {
    if dateKey in week then week[dateKey] else 0
  }

  /** The bar of a day in the weekly chart. */
  function DayPercent(week: map<string, nat>, dateKey: string): (p: real)
    ensures 0.0 <= p <= 100.0
    ensures p == 100.0 <==> GlassesOn(week, dateKey) >= DailyGoal
    ensures dateKey !in week ==> p == 0.0
  {
    Gauge.Percent(GlassesOn(week, dateKey) as real, DailyGoal as real)
  }

  /** Every day other than `today` keeps its entry, and no day but `today`
      gains one. */
  predicate OnlyTodayChanged(before: map<string, nat>, after: map<string, nat>, today: string) {
    && after.Keys <= before.Keys + {today}
    && forall d :: d in before && d != today ==> d in after && after[d] == before[d]
  }

  /** addGlass: below the goal, one more glass, recorded for today; at the
      goal nothing happens. */
  function Add(w: Intake, today: string): (r: Intake)
    ensures w.currentIntake < DailyGoal ==>
      r.currentIntake == w.currentIntake + 1 && GlassesOn(r.weeklyData, today) == r.currentIntake
    ensures w.currentIntake >= DailyGoal ==> r == w
    ensures OnlyTodayChanged(w.weeklyData, r.weeklyData, today)
    ensures w.currentIntake <= DailyGoal ==> r.currentIntake <= DailyGoal
  {
    if w.currentIntake < DailyGoal then
      var n := w.currentIntake + 1;
      Intake(n, w.weeklyData[today := n])
    else w
  }

  /** removeGlass: above 0, one glass less, recorded for today; at 0
      nothing happens. */
  function Remove(w: Intake, today: string): (r: Intake)
    ensures w.currentIntake > 0 ==>
      r.currentIntake == w.currentIntake - 1 && GlassesOn(r.weeklyData, today) == r.currentIntake
    ensures w.currentIntake == 0 ==> r == w
    ensures OnlyTodayChanged(w.weeklyData, r.weeklyData, today)
    ensures w.currentIntake <= DailyGoal ==> r.currentIntake <= DailyGoal
  {
    if w.currentIntake > 0 then
      var n := w.currentIntake - 1;
      Intake(n, w.weeklyData[today := n])
    else w
  }

  /** A glass added and removed again leaves the count where it was, and
      today's entry holds that count. */
  lemma AddThenRemove(w: Intake, today: string)
    requires w.currentIntake < DailyGoal
    ensures Remove(Add(w, today), today) == Intake(w.currentIntake, w.weeklyData[today := w.currentIntake])
  {
    var w' := Add(w, today);
    assert w'.weeklyData[today := w.currentIntake] == w.weeklyData[today := w.currentIntake];
  }

  /** A glass removed and added again: the same, the other way round. */
  lemma RemoveThenAdd(w: Intake, today: string)
    requires 0 < w.currentIntake <= DailyGoal
    ensures Add(Remove(w, today), today) == Intake(w.currentIntake, w.weeklyData[today := w.currentIntake])
  {
    var w' := Remove(w, today);
    assert w'.weeklyData[today := w.currentIntake] == w.weeklyData[today := w.currentIntake];
  }

  /** The buttons are disabled exactly when their handler would do nothing:
      "-" at currentIntake <= 0, "+" at currentIntake >= dailyGoal. */
  lemma ButtonsMatchGuards(w: Intake, today: string)
    ensures Add(w, today) == w <==> w.currentIntake >= DailyGoal
    ensures Remove(w, today) == w <==> w.currentIntake <= 0
  {
  }

  class WaterTracker {
    var currentIntake: nat
    var weeklyData: map<string, nat>

    function State(): Intake
      reads this
    {
      Intake(currentIntake, weeklyData)
    }

    ghost predicate Valid()
      reads this
    {
      currentIntake <= DailyGoal
    }

    constructor ()
      ensures Valid() && State() == Intake(3, InitialWeek)
    {
      currentIntake := 3;
      weeklyData := InitialWeek;
    }

    method AddGlass(today: string)
      requires Valid()
      modifies this
      ensures Valid() && State() == Add(old(State()), today)
    {
      if currentIntake < DailyGoal {
        var newIntake := currentIntake + 1;
        weeklyData := weeklyData[today := newIntake];
        currentIntake := newIntake;
      }
    }

    method RemoveGlass(today: string)
      requires Valid()
      modifies this
      ensures Valid() && State() == Remove(old(State()), today)
    {
      if currentIntake > 0 {
        var newIntake := currentIntake - 1;
        weeklyData := weeklyData[today := newIntake];
        currentIntake := newIntake;
      }
    }

    /** The row of goal slots, the first currentIntake of them filled. */
    function Slots(): (r: seq<bool>)
      reads this
      requires Valid()
      ensures |r| == DailyGoal && Gauge.CountFilled(r) == currentIntake
    {
      Gauge.FilledSlots(currentIntake, DailyGoal);
      Gauge.Slots(currentIntake, DailyGoal)
    }
  }
}
