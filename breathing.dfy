/** Definitions shared by the two copies of the breathing exercise: the
    technique catalog, the fixed four-entry phase-label table, the countdown
    state and the linear circle-size formula. */
module Breathing {

  /** One catalog entry: the seconds of each phase of a cycle and how many
      cycles make a session. */
  datatype Technique = Technique(name: string, pattern: seq<nat>, cycles: nat)

  /** A technique the engines can run: at least one phase, at least one cycle. */
  predicate ValidTechnique(t: Technique) {
    |t.pattern| >= 1 && t.cycles >= 1
  }

  /** The catalog (identical in both copies of the component). */
  const Catalog: seq<Technique> := [
    Technique("4-7-8 Breathing", [4, 7, 8], 4),
    Technique("Box Breathing", [4, 4, 4, 4], 5),
    Technique("Deep Breathing", [5, 0, 5], 6)
  ]

  datatype PhaseName = Inhale | Hold | Exhale

  /** The label table; a phase index p shows Phases[p % 4]. */
  const Phases: seq<PhaseName> := [Inhale, Hold, Exhale, Hold]

  function PhaseNameAt(p: nat): (n: PhaseName)
    ensures n == Inhale <==> p % 4 == 0
    ensures n == Exhale <==> p % 4 == 2
  {
    Phases[p % |Phases|]
  }

  /** Every catalog entry is runnable and has at most four phases, so the
      label of a phase index in range is looked up without wrapping; every
      zero-second phase in the catalog is a Hold. */
  lemma CatalogFacts(i: nat, p: nat)
    requires i < |Catalog| && p < |Catalog[i].pattern|
    ensures ValidTechnique(Catalog[i])
    ensures 2 <= |Catalog[i].pattern| <= |Phases|
    ensures PhaseNameAt(p) == Phases[p]
    ensures Catalog[i].pattern[p] == 0 ==> PhaseNameAt(p) == Hold
  {
  }

  /** The countdown part of the component state. */
  datatype Clock = Clock(isActive: bool, currentPhase: nat, timeLeft: nat, cycleCount: nat)

  /** nextPhase (the same in both copies): move to the following phase with
      its full duration; on the wrap to phase 0 count a cycle, or, when that
      was the last cycle, stop with the cycle count back at 0. */
  function NextPhase(t: Technique, k: Clock): (r: Clock)
    requires ValidTechnique(t) && k.currentPhase < |t.pattern| && k.cycleCount < t.cycles
    ensures r.currentPhase < |t.pattern| && r.cycleCount < t.cycles
    ensures r.timeLeft == t.pattern[r.currentPhase]
  {
    var next := (k.currentPhase + 1) % |t.pattern|;
    if next != 0 then Clock(k.isActive, next, t.pattern[next], k.cycleCount)
    else if k.cycleCount + 1 >= t.cycles then Idle(t)
    else Clock(k.isActive, 0, t.pattern[0], k.cycleCount + 1)
  }

  /** The stopped state a session returns to when its last cycle ends. */
  function Idle(t: Technique): (k: Clock)
    requires ValidTechnique(t)
    ensures !k.isActive && k.currentPhase < |t.pattern| && k.cycleCount < t.cycles
  {
    Clock(false, 0, t.pattern[0], 0)
  }

  /** How many phases of the session lie behind the current one. */
  function PhasesDone(t: Technique, k: Clock): nat {
    k.cycleCount * |t.pattern| + k.currentPhase
  }

  /** Each nextPhase of a running session moves one phase further, so a
      cycle is counted on every wrap; it stops exactly when the phase it
      would reach is the cycles * |pattern|-th, and then it is back at
      phase 0, cycle 0 with the first duration. */
  lemma NextPhaseAdvancesOne(t: Technique, k: Clock)
    requires ValidTechnique(t) && k.currentPhase < |t.pattern| && k.cycleCount < t.cycles && k.isActive
    ensures var r := NextPhase(t, k);
      && (r.isActive <==> PhasesDone(t, k) + 1 < t.cycles * |t.pattern|)
      && (r.isActive ==> PhasesDone(t, r) == PhasesDone(t, k) + 1)
      && (!r.isActive ==> r == Idle(t))
  {
    var n, c, p := |t.pattern|, k.cycleCount, k.currentPhase;
    var r := NextPhase(t, k);
    MulStep(c, n);
    MulMono(c + 1, t.cycles, n);
    assert PhasesDone(t, k) + 1 <= (c + 1) * n <= t.cycles * n;
    if p + 1 < n {
      ModBelow(p + 1, n);
      assert r == Clock(true, p + 1, t.pattern[p + 1], c);
    } else {
      ModSelf(n);
      assert PhasesDone(t, k) + 1 == (c + 1) * n;
      if c + 1 < t.cycles {
        assert r == Clock(true, 0, t.pattern[0], c + 1);
        MulStep(c + 1, n);
        MulMono(c + 2, t.cycles, n);
        assert PhasesDone(t, r) == (c + 1) * n;
      } else {
        assert r == Idle(t);
      }
    }
  }

  lemma ModBelow(a: nat, n: nat)
    requires a < n
    ensures a % n == a
  {
  }

  lemma ModSelf(n: nat)
    requires n > 0
    ensures n % n == 0
  {
  }

  lemma MulStep(a: nat, n: nat)
    ensures (a + 1) * n == a * n + n
  {
  }

  lemma MulMono(a: nat, b: nat, n: nat)
    requires a <= b
    ensures a * n <= b * n
  {
    assert b * n == a * n + (b - a) * n;
  }

  /** Seconds in phases p, p+1, ... of a pattern. */
  function SumFrom(pattern: seq<nat>, p: nat): nat
    requires p <= |pattern|
    decreases |pattern| - p
  {
    if p == |pattern| then 0 else pattern[p] + SumFrom(pattern, p + 1)
  }

  /** The seconds of one full cycle. */
  function CycleSeconds(t: Technique): nat {
    SumFrom(t.pattern, 0)
  }

  lemma {:induction false} CatalogCycleSeconds()
    ensures CycleSeconds(Catalog[0]) == 19
    ensures CycleSeconds(Catalog[1]) == 16
    ensures CycleSeconds(Catalog[2]) == 10
  {
    assert SumFrom([4, 7, 8], 3) == 0;
    assert SumFrom([4, 4, 4, 4], 4) == 0;
    assert SumFrom([5, 0, 5], 3) == 0;
  }

  /** The circle size set by animation frame `step` of a phase animated in
      `steps` frames: Inhale grows from 100 to 100 + span, Exhale shrinks from
      100 + span to 100, Hold keeps the previous size. */
  function CircleSize(name: PhaseName, step: nat, steps: nat, prev: real, span: real): (size: real)
    requires step <= steps && steps > 0 && span >= 0.0
    ensures name == Hold ==> size == prev
    ensures name != Hold ==> 100.0 <= size <= 100.0 + span
    ensures name == Inhale && step == 0 ==> size == 100.0
    ensures name == Inhale && step == steps ==> size == 100.0 + span
    ensures name == Exhale && step == 0 ==> size == 100.0 + span
    ensures name == Exhale && step == steps ==> size == 100.0
  {
    var f := (step as real) / (steps as real);
    FractionBounds(step, steps);
    ScaleBounds(f, span);
    assert step == steps ==> f == 1.0;
    match name
    case Inhale => 100.0 + f * span
    case Exhale => 100.0 + span - f * span
    case Hold => prev
  }

  lemma FractionBounds(step: nat, steps: nat)
    requires step <= steps && steps > 0
    ensures 0.0 <= (step as real) / (steps as real) <= 1.0
  {
  }

  lemma ScaleBounds(f: real, span: real)
    requires 0.0 <= f <= 1.0 && span >= 0.0
    ensures 0.0 <= f * span <= span
  {
    assert span - f * span == (1.0 - f) * span;
  }

  /** Over the frames of one phase the circle never shrinks while inhaling
      and never grows while exhaling. */
  lemma CircleSizeMonotone(name: PhaseName, i: nat, j: nat, steps: nat, prev: real, span: real)
    requires i <= j <= steps && steps > 0 && span >= 0.0
    ensures name == Inhale ==> CircleSize(name, i, steps, prev, span) <= CircleSize(name, j, steps, prev, span)
    ensures name == Exhale ==> CircleSize(name, i, steps, prev, span) >= CircleSize(name, j, steps, prev, span)
  {
    var s := steps as real;
    var fi, fj := (i as real) / s, (j as real) / s;
    FractionMonotone(i, j, steps);
    ScaleMonotone(fi, fj, span);
    var a, b := fi * span, fj * span;
    assert a <= b;
    if name == Inhale {
      calc {
        CircleSize(name, i, steps, prev, span);
        100.0 + a;
      <= 100.0 + b;
        CircleSize(name, j, steps, prev, span);
      }
    } else if name == Exhale {
      calc {
        CircleSize(name, i, steps, prev, span);
        100.0 + span - a;
      >= 100.0 + span - b;
        CircleSize(name, j, steps, prev, span);
      }
    }
  }

  lemma FractionMonotone(i: nat, j: nat, steps: nat)
    requires i <= j && steps > 0
    ensures (i as real) / (steps as real) <= (j as real) / (steps as real)
  {
  }

  lemma ScaleMonotone(x: real, y: real, span: real)
    requires x <= y && span >= 0.0
    ensures x * span <= y * span
  {
    assert y * span - x * span == (y - x) * span;
  }

  /** Seconds in the cycles c, c+1, ... of a session. */
  function RemainingSeconds(t: Technique, c: nat): nat
    decreases t.cycles - c
  {
    if c >= t.cycles then 0 else CycleSeconds(t) + RemainingSeconds(t, c + 1)
  }

  lemma {:induction false} RemainingSecondsIs(t: Technique, c: nat)
    requires c <= t.cycles
    ensures RemainingSeconds(t, c) == (t.cycles - c) * CycleSeconds(t)
    decreases t.cycles - c
  {
    if c < t.cycles {
      RemainingSecondsIs(t, c + 1);
      MulStep(t.cycles - c - 1, CycleSeconds(t));
    }
  }
}
