/** The dashboard page: four stat cards of which only the water card has a
    handler, a "+1" button bounded at 8 glasses. */
module Dashboard {
  import opened Wrappers
  import Gauge

  const Glasses: nat := 8

  /** addWaterGlass on the count. */
  function AddWater(n: nat): (m: nat)
    ensures m == n + 1 <==> n < Glasses
    ensures m == n <==> n >= Glasses
    ensures m >= n
  {
    if n < Glasses then n + 1 else n
  }

  /** The count after k presses of "+1". */
  function Presses(n: nat, k: nat): nat
    decreases k
  {
    if k == 0 then n else Presses(AddWater(n), k - 1)
  }

  /** From the initial 3 glasses, any number of presses gives a count in
      [3, 8]; after five presses the card is full and stays full. */
  lemma {:induction false} PressesSaturate(n: nat, k: nat)
    requires n <= Glasses
    ensures Presses(n, k) == if n + k <= Glasses then n + k else Glasses
    decreases k
  {
    if k > 0 {
      PressesSaturate(AddWater(n), k - 1);
    }
  }

  class Dashboard {
    const mood: Option<string>
    var waterIntake: nat
    const sleepHours: real
    const calories: nat

    /** The water count stays in [3, 8]; the other three stats keep the
        values they start with, as nothing ever sets them. */
    ghost predicate Valid()
      reads this
    {
      && 3 <= waterIntake <= Glasses
      && mood == None && sleepHours == 7.5 && calories == 840
    }

    constructor ()
      ensures Valid() && waterIntake == 3
    {
      mood := None;
      waterIntake := 3;
      sleepHours := 7.5;
      calories := 840;
    }

    /** The "+1" button is enabled exactly when a press changes the count. */
    function CanAdd(): (b: bool)
      reads this
      ensures b <==> AddWater(waterIntake) != waterIntake
    {
      !(waterIntake >= Glasses)
    }

    method AddWaterGlass()
      requires Valid()
      modifies this
      ensures Valid() && waterIntake == AddWater(old(waterIntake))
    {
      if waterIntake < Glasses {
        waterIntake := waterIntake + 1;
      }
    }

    /** The eight segments, the first waterIntake of them filled. */
    function Segments(): (r: seq<bool>)
      reads this
      requires Valid()
      ensures |r| == Glasses && Gauge.CountFilled(r) == waterIntake
    {
      Gauge.FilledSlots(waterIntake, Glasses);
      Gauge.Slots(waterIntake, Glasses)
    }

    /** The sleep bar, Math.min(100, sleepHours / 10 * 100): 7.5 hours fill
        three quarters of it. */
    function SleepBar(): (p: real)
      reads this
      requires Valid()
      ensures p == 75.0
    {
      Gauge.Percent(sleepHours, 10.0)
    }

    /** The calorie bar, Math.min(100, calories / 2000 * 100): 840 kcal fill
        42 percent of it. */
    function CalorieBar(): (p: real)
      reads this
      requires Valid()
      ensures p == 42.0
    {
      Gauge.Percent(calories as real, 2000.0)
    }
  }
}
