/** The water tracker of the top-level src/ tree: a glass counter bounded by
    the daily goal. Its per-day map is displayed but never written. */
module RootWater {
  import Gauge

  const DailyGoal: nat := 8

  const InitialWeek: map<string, nat> := map[
    "2023-06-04" := 5, "2023-06-05" := 2, "2023-06-06" := 6, "2023-06-07" := 7,
    "2023-06-08" := 5, "2023-06-09" := 7, "2023-06-10" := 7]

  /** addGlass on the count: one more while below the goal. */
  function Add(n: nat): (m: nat)
    ensures m == n + 1 <==> n < DailyGoal
    ensures m == n <==> n >= DailyGoal
    ensures n <= DailyGoal ==> m <= DailyGoal
  {
    if n < DailyGoal then n + 1 else n
  }

  /** removeGlass on the count: one less while above 0. */
  function Remove(n: nat): (m: nat)
    ensures m + 1 == n <==> n > 0
    ensures m == n <==> n == 0
    ensures n <= DailyGoal ==> m <= DailyGoal
  {
    if n > 0 then n - 1 else n
  }

  /** Adding and then removing a glass below the goal returns to the same
      count, and so does removing and then adding one above 0. */
  lemma RoundTrips(n: nat)
    ensures n < DailyGoal ==> Remove(Add(n)) == n
    ensures 0 < n <= DailyGoal ==> Add(Remove(n)) == n
  {
  }

  /** k presses of "+" from a count within the goal reach min(n + k, goal). */
  function AddTimes(n: nat, k: nat): nat
    decreases k
  {
    if k == 0 then n else AddTimes(Add(n), k - 1)
  }

  lemma {:induction false} AddTimesSaturates(n: nat, k: nat)
    requires n <= DailyGoal
    ensures AddTimes(n, k) == if n + k <= DailyGoal then n + k else DailyGoal
    decreases k
  {
    if k > 0 {
      AddTimesSaturates(Add(n), k - 1);
    }
  }

  class WaterTracker {
    var currentIntake: nat
    const weeklyData: map<string, nat>

    ghost predicate Valid()
      reads this
    {
      currentIntake <= DailyGoal
    }

    constructor ()
      ensures Valid() && currentIntake == 3 && weeklyData == InitialWeek
    {
      currentIntake := 3;
      weeklyData := InitialWeek;
    }

    method AddGlass()
      requires Valid()
      modifies this
      ensures Valid() && currentIntake == Add(old(currentIntake))
    {
      if currentIntake < DailyGoal {
        currentIntake := currentIntake + 1;
      }
    }

    method RemoveGlass()
      requires Valid()
      modifies this
      ensures Valid() && currentIntake == Remove(old(currentIntake))
    {
      if currentIntake > 0 {
        currentIntake := currentIntake - 1;
      }
    }

    /** `weeklyData[dateKey] || 0`, and the bar of that day. */
    function DayPercent(dateKey: string): (p: real)
      reads this
      ensures 0.0 <= p <= 100.0
      ensures dateKey !in weeklyData ==> p == 0.0
      ensures dateKey in weeklyData ==> (p == 100.0 <==> weeklyData[dateKey] >= DailyGoal)
    {
      var glasses := if dateKey in weeklyData then weeklyData[dateKey] else 0;
      Gauge.Percent(glasses as real, DailyGoal as real)
    }

    function Slots(): (r: seq<bool>)
      reads this
      requires Valid()
      ensures |r| == DailyGoal && Gauge.CountFilled(r) == currentIntake
    {
      Gauge.FilledSlots(currentIntake, DailyGoal);
      Gauge.Slots(currentIntake, DailyGoal)
    }
  }
}
