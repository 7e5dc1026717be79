/** The two display computations the trackers share: a progress bar width
    `Math.min(100, part / whole * 100)` and a row of slots of which the
    first `count` are drawn filled. */
module Gauge {

  /** Math.min(100, (part / whole) * 100), in exact arithmetic. */
  function Percent(part: real, whole: real): (p: real)
    requires whole > 0.0
    ensures p <= 100.0
    ensures p == 100.0 <==> part >= whole
    ensures part < whole ==> p * whole == part * 100.0
    ensures part >= 0.0 ==> p >= 0.0
  {
    var raw := part / whole * 100.0;
    if raw < 100.0 then raw else 100.0
  }

  /** Percent grows with the part. */
  lemma PercentMonotone(a: real, b: real, whole: real)
    requires whole > 0.0 && a <= b
    ensures Percent(a, whole) <= Percent(b, whole)
  {
    assert a / whole <= b / whole;
  }

  /** Array.from({length: slots}).map((_, i) => i < count). */
  function Slots(count: int, slots: nat): (r: seq<bool>)
    ensures |r| == slots
    ensures forall i :: 0 <= i < slots ==> (r[i] <==> i < count)
  {
    seq(slots, i => i < count)
  }

  function CountFilled(r: seq<bool>): nat {
    if r == [] then 0 else CountFilled(r[..|r| - 1]) + (if r[|r| - 1] then 1 else 0)
  }

  /** Exactly min(count, slots) slots are drawn filled: all `count` of them
      when the count is within the row. */
  lemma {:induction false} FilledSlots(count: nat, slots: nat)
    ensures CountFilled(Slots(count, slots)) == if count <= slots then count else slots
    decreases slots
  {
    if slots > 0 {
      FilledSlots(count, slots - 1);
      assert Slots(count, slots)[..slots - 1] == Slots(count, slots - 1);
    }
  }
}
