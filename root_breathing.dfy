/** The breathing exercise of the top-level src/ tree. Its countdown effect
    is keyed on timeLeft and isActive only: while time is left, an interval
    lowers it by one each second, and once it reaches 0 the phase advances
    at once. Nothing skips a zero-second phase: entering one leaves timeLeft
    at 0, the effect's keys do not change, and the session stays there. */
module RootBreathing {
  import opened Breathing

  /** The countdown states the component can be in between two events. A
      running session with no time left is stalled on a zero-second phase. */
  predicate Inv(t: Technique, k: Clock) {
    && ValidTechnique(t)
    && k.currentPhase < |t.pattern|
    && k.cycleCount < t.cycles
    && (k.isActive ==> k.timeLeft <= t.pattern[k.currentPhase])
    && (k.isActive && k.timeLeft == 0 ==> t.pattern[k.currentPhase] == 0)
  }

  /** What activating the session produces: phase 0 and cycle 0 with the
      first duration; the countdown effect advances at once if that is 0. */
  function Start(t: Technique): (k: Clock)
    requires ValidTechnique(t)
    ensures Inv(t, k)
  {
    var k0 := Clock(true, 0, t.pattern[0], 0);
    if t.pattern[0] == 0 then NextPhase(t, k0) else k0
  }

  /** What activating a paused session produces. Both effects keyed on
      isActive run in the same commit: startBreathing queues phase 0, cycle
      0 and the first duration, and the countdown effect, seeing the paused
      timeLeft, runs nextPhase from the paused phase when that timeLeft is 0.
      Its updates are queued last and win, so a session activated with no
      time left starts one phase after the paused one, in cycle 0. */
  function Activate(t: Technique, k: Clock): (r: Clock)
    requires Inv(t, k) && !k.isActive
    ensures Inv(t, r)
  {
    if k.timeLeft == 0 then NextPhase(t, Clock(true, k.currentPhase, 0, 0)) else Start(t)
  }

  /** One second: the interval exists only while the session is active with
      time left; it lowers timeLeft, and reaching 0 runs nextPhase. */
  function OneSecond(t: Technique, k: Clock): (r: Clock)
    requires Inv(t, k)
    ensures Inv(t, r)
  {
    if !k.isActive || k.timeLeft == 0 then k
    else
      var d := k.(timeLeft := k.timeLeft - 1);
      if d.timeLeft == 0 then NextPhase(t, d) else d
  }

  /** The state after n seconds. */
  function Seconds(t: Technique, n: nat, k: Clock): (r: Clock)
    requires Inv(t, k)
    ensures Inv(t, r)
    decreases n
  {
    if n == 0 then k else Seconds(t, n - 1, OneSecond(t, k))
  }

  lemma {:induction false} SecondsAdd(t: Technique, a: nat, b: nat, k: Clock)
    requires Inv(t, k)
    ensures Seconds(t, a + b, k) == Seconds(t, b, Seconds(t, a, k))
    decreases a
  {
    if a > 0 {
      SecondsAdd(t, a - 1, b, OneSecond(t, k));
    }
  }

  /** While time is left, each second lowers timeLeft by exactly one and it
      never goes below 0. */
  lemma {:induction false} CountsDown(t: Technique, k: Clock, d: nat)
    requires Inv(t, k) && k.isActive && d < k.timeLeft
    ensures Seconds(t, d, k) == k.(timeLeft := k.timeLeft - d)
    decreases d
  {
    if d > 0 {
      CountsDown(t, k.(timeLeft := k.timeLeft - 1), d - 1);
    }
  }

  /** A phase with timeLeft >= 1 seconds remaining ends after exactly that
      many seconds with one nextPhase. */
  lemma {:induction false} PhaseLasts(t: Technique, k: Clock)
    requires Inv(t, k) && k.isActive && k.timeLeft >= 1
    ensures Seconds(t, k.timeLeft, k) == NextPhase(t, k)
  {
    CountsDown(t, k, k.timeLeft - 1);
    assert Seconds(t, k.timeLeft - 1, k) == k.(timeLeft := 1);
    SecondsAdd(t, k.timeLeft - 1, 1, k);
  }

  /** A session stalled on a zero-second phase stays exactly as it is. */
  lemma {:induction false} StallIsPermanent(t: Technique, k: Clock, n: nat)
    requires Inv(t, k) && k.isActive && k.timeLeft == 0
    ensures Seconds(t, n, k) == k
    decreases n
  {
    if n > 0 {
      StallIsPermanent(t, k, n - 1);
    }
  }

  /** Every phase lasts at least one second. */
  predicate NoEmptyPhase(t: Technique) {
    forall i :: 0 <= i < |t.pattern| ==> t.pattern[i] >= 1
  }

  /** What the wrap at the end of cycle c produces. */
  function AfterCycle(t: Technique, c: nat): (k: Clock)
    requires ValidTechnique(t) && c < t.cycles
  {
    if c + 1 >= t.cycles then Idle(t) else Clock(true, 0, t.pattern[0], c + 1)
  }

  /** The nextPhase that ends a full phase p of cycle c: the next phase
      with its full duration, or the wrap at the end of the pattern. */
  lemma NextOfPhase(t: Technique, p: nat, c: nat)
    requires ValidTechnique(t) && p < |t.pattern| && c < t.cycles
    ensures p + 1 < |t.pattern| ==>
      NextPhase(t, Clock(true, p, t.pattern[p], c)) == Clock(true, p + 1, t.pattern[p + 1], c)
    ensures p + 1 == |t.pattern| ==> NextPhase(t, Clock(true, p, t.pattern[p], c)) == AfterCycle(t, c)
  {
    if p + 1 < |t.pattern| {
      assert (p + 1) % |t.pattern| == p + 1;
    } else {
      assert (p + 1) % |t.pattern| == 0;
    }
  }

  /** Without empty phases, from the start of phase p the rest of the cycle
      takes exactly the seconds of phases p.. and ends at the wrap. */
  lemma {:induction false} RestOfCycle(t: Technique, p: nat, c: nat)
    requires ValidTechnique(t) && NoEmptyPhase(t) && p < |t.pattern| && c < t.cycles
    ensures Seconds(t, SumFrom(t.pattern, p), Clock(true, p, t.pattern[p], c)) == AfterCycle(t, c)
    decreases |t.pattern| - p
  {
    var k := Clock(true, p, t.pattern[p], c);
    var d := t.pattern[p];
    var rest := SumFrom(t.pattern, p + 1);
    assert d >= 1;
    assert SumFrom(t.pattern, p) == d + rest;
    PhaseLasts(t, k);
    SecondsAdd(t, d, rest, k);
    NextOfPhase(t, p, c);
    if p + 1 < |t.pattern| {
      RestOfCycle(t, p + 1, c);
    } else {
      assert rest == 0;
    }
  }

  /** Without empty phases, from the start of phase p the session is active
      at every second before the wrap. */
  lemma {:induction false} ActiveInCycle(t: Technique, p: nat, c: nat, n: nat)
    requires ValidTechnique(t) && NoEmptyPhase(t) && p < |t.pattern| && c < t.cycles
    requires n < SumFrom(t.pattern, p)
    ensures Seconds(t, n, Clock(true, p, t.pattern[p], c)).isActive
    decreases |t.pattern| - p
  {
    var k := Clock(true, p, t.pattern[p], c);
    var d := t.pattern[p];
    assert d >= 1;
    assert SumFrom(t.pattern, p) == d + SumFrom(t.pattern, p + 1);
    if n < d {
      CountsDown(t, k, n);
    } else {
      assert SumFrom(t.pattern, p + 1) > 0;
      assert p + 1 < |t.pattern|;
      assert (p + 1) % |t.pattern| == p + 1;
      PhaseLasts(t, k);
      SecondsAdd(t, d, n - d, k);
      assert NextPhase(t, k) == Clock(true, p + 1, t.pattern[p + 1], c);
      ActiveInCycle(t, p + 1, c, n - d);
    }
  }

  /** Without empty phases, the cycles c.. take their full length and end
      stopped. */
  lemma {:induction false} CyclesEnd(t: Technique, c: nat)
    requires ValidTechnique(t) && NoEmptyPhase(t) && c < t.cycles
    ensures Seconds(t, RemainingSeconds(t, c), Clock(true, 0, t.pattern[0], c)) == Idle(t)
    decreases t.cycles - c
  {
    var s := CycleSeconds(t);
    var r := RemainingSeconds(t, c + 1);
    var k := Clock(true, 0, t.pattern[0], c);
    assert RemainingSeconds(t, c) == s + r;
    RestOfCycle(t, 0, c);
    SecondsAdd(t, s, r, k);
    if c + 1 < t.cycles {
      assert AfterCycle(t, c) == Clock(true, 0, t.pattern[0], c + 1);
      CyclesEnd(t, c + 1);
    } else {
      assert r == 0;
      assert AfterCycle(t, c) == Idle(t);
    }
  }

  /** Without empty phases, the session is active at every second before
      the cycles c.. are over. */
  lemma {:induction false} CyclesActive(t: Technique, c: nat, n: nat)
    requires ValidTechnique(t) && NoEmptyPhase(t) && c < t.cycles
    requires n < RemainingSeconds(t, c)
    ensures Seconds(t, n, Clock(true, 0, t.pattern[0], c)).isActive
    decreases t.cycles - c
  {
    var s := CycleSeconds(t);
    var r := RemainingSeconds(t, c + 1);
    var k := Clock(true, 0, t.pattern[0], c);
    assert RemainingSeconds(t, c) == s + r;
    if n < s {
      ActiveInCycle(t, 0, c, n);
    } else {
      assert c + 1 < t.cycles;
      RestOfCycle(t, 0, c);
      SecondsAdd(t, s, n - s, k);
      assert AfterCycle(t, c) == Clock(true, 0, t.pattern[0], c + 1);
      CyclesActive(t, c + 1, n - s);
    }
  }

  /** Both together: cycles c.. take their full length, end stopped, and
      are active at every earlier second. */
  lemma RemainingCycles(t: Technique, c: nat, n: nat)
    requires ValidTechnique(t) && NoEmptyPhase(t) && c < t.cycles
    ensures Seconds(t, RemainingSeconds(t, c), Clock(true, 0, t.pattern[0], c)) == Idle(t)
    ensures n < RemainingSeconds(t, c) ==> Seconds(t, n, Clock(true, 0, t.pattern[0], c)).isActive
  {
    CyclesEnd(t, c);
    if n < RemainingSeconds(t, c) {
      CyclesActive(t, c, n);
    }
  }

  /** A technique without empty phases runs for exactly cycles * (sum of
      the pattern) seconds and then stops back at phase 0, cycle 0. */
  lemma SessionLength(t: Technique, n: nat)
    requires ValidTechnique(t) && NoEmptyPhase(t)
    ensures Seconds(t, t.cycles * CycleSeconds(t), Start(t)) == Idle(t)
    ensures n < t.cycles * CycleSeconds(t) ==> Seconds(t, n, Start(t)).isActive
  {
    RemainingSecondsIs(t, 0);
    RemainingCycles(t, 0, n);
  }

  /** 4-7-8 Breathing ends after 76 seconds and Box Breathing after 80. */
  lemma CatalogSessions()
    ensures Seconds(Catalog[0], 76, Start(Catalog[0])) == Clock(false, 0, 4, 0)
    ensures Seconds(Catalog[1], 80, Start(Catalog[1])) == Clock(false, 0, 4, 0)
  {
    CatalogCycleSeconds();
    SessionLength(Catalog[0], 0);
    SessionLength(Catalog[1], 0);
  }

  /** Deep Breathing [5, 0, 5]: after 5 seconds the session enters the
      0-second Hold and stays there, still active, for ever; it never
      completes a cycle. */
  lemma DeepBreathingStalls(n: nat)
    ensures Seconds(Catalog[2], 5 + n, Start(Catalog[2])) == Clock(true, 1, 0, 0)
    ensures Seconds(Catalog[2], n, Start(Catalog[2])).isActive
    ensures Seconds(Catalog[2], n, Start(Catalog[2])).cycleCount == 0
  {
    var t := Catalog[2];
    var k := Start(t);
    assert k == Clock(true, 0, 5, 0);
    PhaseLasts(t, k);
    assert (0 + 1) % 3 == 1;
    var stalled := Clock(true, 1, 0, 0);
    assert Seconds(t, 5, k) == stalled;
    SecondsAdd(t, 5, n, k);
    StallIsPermanent(t, stalled, n);
    if n < 5 {
      CountsDown(t, k, n);
    } else {
      SecondsAdd(t, 5, n - 5, k);
      StallIsPermanent(t, stalled, n - 5);
    }
  }

  /** Without empty phases, a session that starts on phase 1 of cycle 0
      misses only the first phase's seconds of the full session. */
  lemma FromSecondPhase(t: Technique, n: nat)
    requires ValidTechnique(t) && NoEmptyPhase(t) && |t.pattern| >= 2
    ensures var k := Clock(true, 1, t.pattern[1], 0);
      && Seconds(t, t.cycles * CycleSeconds(t) - t.pattern[0], k) == Idle(t)
      && (n < t.cycles * CycleSeconds(t) - t.pattern[0] ==> Seconds(t, n, k).isActive)
  {
    var k := Clock(true, 1, t.pattern[1], 0);
    var s := SumFrom(t.pattern, 1);
    assert CycleSeconds(t) == t.pattern[0] + s;
    RemainingSecondsIs(t, 0);
    assert RemainingSeconds(t, 0) == CycleSeconds(t) + RemainingSeconds(t, 1);
    var r := RemainingSeconds(t, 1);
    assert t.cycles * CycleSeconds(t) - t.pattern[0] == s + r;
    RestOfCycle(t, 1, 0);
    SecondsAdd(t, s, r, k);
    if 1 < t.cycles {
      assert AfterCycle(t, 0) == Clock(true, 0, t.pattern[0], 1);
      CyclesEnd(t, 1);
    } else {
      assert r == 0;
    }
    if n < s {
      ActiveInCycle(t, 1, 0, n);
    } else if n < s + r {
      assert 1 < t.cycles;
      assert AfterCycle(t, 0) == Clock(true, 0, t.pattern[0], 1);
      CyclesActive(t, 1, n - s);
      SecondsAdd(t, s, n - s, k);
    }
  }

  /** The first Start after mount finds timeLeft 0 on 4-7-8 Breathing, so
      the session begins on the 7-second Hold and lasts 72 seconds instead
      of 76, active until its last second. */
  lemma FirstSessionSkipsInhale(n: nat)
    ensures Activate(Catalog[0], Clock(false, 0, 0, 0)) == Clock(true, 1, 7, 0)
    ensures Seconds(Catalog[0], 72, Clock(true, 1, 7, 0)) == Clock(false, 0, 4, 0)
    ensures n < 72 ==> Seconds(Catalog[0], n, Clock(true, 1, 7, 0)).isActive
  {
    assert (0 + 1) % 3 == 1;
    CatalogCycleSeconds();
    FromSecondPhase(Catalog[0], n);
  }

  /** Pausing Deep Breathing while it is stalled on the 0-second Hold and
      starting again moves on to the Exhale in cycle 0; five seconds later
      cycle 1 begins, and five more seconds stall it on the Hold again, so
      the session still never completes. */
  lemma DeepBreathingResume(c: nat, n: nat)
    requires c < 6
    ensures Activate(Catalog[2], Clock(false, 1, 0, c)) == Clock(true, 2, 5, 0)
    ensures Seconds(Catalog[2], 5, Clock(true, 2, 5, 0)) == Clock(true, 0, 5, 1)
    ensures Seconds(Catalog[2], 10 + n, Clock(true, 2, 5, 0)) == Clock(true, 1, 0, 1)
  {
    var t := Catalog[2];
    var k := Clock(true, 2, 5, 0);
    var m := Clock(true, 0, 5, 1);
    var stalled := Clock(true, 1, 0, 1);
    assert (1 + 1) % 3 == 2;
    assert (2 + 1) % 3 == 0;
    assert (0 + 1) % 3 == 1;
    PhaseLasts(t, k);
    PhaseLasts(t, m);
    SecondsAdd(t, 5, 5, k);
    SecondsAdd(t, 10, n, k);
    StallIsPermanent(t, stalled, n);
  }

  /** The component: its state fields, updated by the handlers, the
      countdown interval and the animation loop. */
  class BreathingExercise {
    var isActive: bool
    var currentTechnique: nat
    var currentPhase: nat
    var timeLeft: nat
    var cycleCount: nat
    var circleSize: real
    /** The `step` counter of the running animation loop. */
    var frame: nat

    function Technique(): Technique
      reads this
      requires currentTechnique < |Catalog|
    {
      Catalog[currentTechnique]
    }

    function Countdown(): Clock
      reads this
    {
      Clock(isActive, currentPhase, timeLeft, cycleCount)
    }

    /** Frames the animation of the current phase takes (10 per second). */
    function Steps(): nat
      reads this
      requires currentTechnique < |Catalog| && currentPhase < |Technique().pattern|
    {
      Technique().pattern[currentPhase] * 10
    }

    /** Holds between handler steps. */
    ghost predicate Sound()
      reads this
    {
      && currentTechnique < |Catalog|
      && currentPhase < |Technique().pattern|
      && cycleCount < Technique().cycles
      && 100.0 <= circleSize <= 200.0
      && (!isActive ==> circleSize == 100.0)
    }

    ghost predicate Valid()
      reads this
    {
      && Sound()
      && Inv(Technique(), Countdown())
      && (isActive ==> frame <= Steps() + 1)
      && (isActive && frame > 0 && PhaseNameAt(currentPhase) != Hold ==>
            Steps() > 0 &&
            circleSize == CircleSize(PhaseNameAt(currentPhase), frame - 1, Steps(), 100.0, 100.0))
    }

    constructor ()
      ensures Valid()
      ensures Countdown() == Clock(false, 0, 0, 0) && currentTechnique == 0 && circleSize == 100.0
    {
      isActive, currentTechnique, currentPhase, timeLeft, cycleCount := false, 0, 0, 0, 0;
      circleSize, frame := 100.0, 0;
    }

    /** The label shown in the circle: phases[currentPhase % 4], which for
        every catalog technique is the table entry at the phase index. */
    function PhaseLabel(): (n: PhaseName)
      reads this
      requires Valid()
      ensures n == Phases[currentPhase]
    {
      CatalogFacts(currentTechnique, currentPhase);
      PhaseNameAt(currentPhase)
    }

    /** The n of "Cycle n of N". */
    function CycleShown(): (n: nat)
      reads this
      requires Valid()
      ensures 1 <= n <= Technique().cycles
    {
      cycleCount + 1
    }

    /** nextPhase: move to the following phase, counting a cycle on the wrap
        and stopping after the last one. */
    method NextPhase()
      requires Sound() && isActive
      modifies this
      ensures Sound() && currentTechnique == old(currentTechnique)
      ensures Countdown() == Breathing.NextPhase(Technique(), old(Countdown()))
      ensures frame == 0
    {
      var pattern := Catalog[currentTechnique].pattern;
      var next := (currentPhase + 1) % |pattern|;
      currentPhase := next;
      timeLeft := pattern[next];
      if next == 0 {
        if cycleCount + 1 >= Catalog[currentTechnique].cycles {
          isActive := false;
          cycleCount := 0;
          circleSize := 100.0;
        } else {
          cycleCount := cycleCount + 1;
        }
      }
      frame := 0;
    }

    /** toggleBreathing: pause a running session, keeping its countdown, or
        activate a paused one as Activate says; there is no resume. */
    method Toggle()
      requires Valid()
      modifies this
      ensures Valid() && currentTechnique == old(currentTechnique)
      ensures old(isActive) ==> Countdown() == old(Countdown()).(isActive := false) && circleSize == 100.0
      ensures !old(isActive) ==> Countdown() == Activate(Technique(), old(Countdown())) && frame == 0
    {
      if isActive {
        isActive := false;
        circleSize := 100.0;
      } else if timeLeft == 0 {
        isActive, cycleCount := true, 0;
        NextPhase();
      } else {
        CatalogFacts(currentTechnique, 0);
        isActive, currentPhase, cycleCount := true, 0, 0;
        timeLeft := Catalog[currentTechnique].pattern[0];
        frame := 0;
      }
    }

    /** resetBreathing: stop, back to phase 0 and cycle 0, with the first
        duration of the technique selected when the handler was created. */
    method Reset()
      requires Valid()
      modifies this
      ensures Valid() && currentTechnique == old(currentTechnique)
      ensures Countdown() == Clock(false, 0, Technique().pattern[0], 0) && circleSize == 100.0
    {
      isActive, currentPhase, cycleCount := false, 0, 0;
      timeLeft := Catalog[currentTechnique].pattern[0];
      circleSize := 100.0;
    }

    /** changeTechnique: select another technique and reset; the reset still
        reads the previously selected technique, so timeLeft shows that
        technique's first duration. */
    method ChangeTechnique(index: nat)
      requires Valid() && index < |Catalog|
      modifies this
      ensures Valid() && currentTechnique == index
      ensures Countdown() == Clock(false, 0, Catalog[old(currentTechnique)].pattern[0], 0)
      ensures circleSize == 100.0
    {
      var previous := Catalog[currentTechnique].pattern[0];
      currentTechnique := index;
      isActive, currentPhase, cycleCount := false, 0, 0;
      timeLeft := previous;
      circleSize := 100.0;
    }

    /** One second: the interval lowers timeLeft, and the countdown effect
        runs nextPhase when it reaches 0. */
    method Tick()
      requires Valid()
      modifies this
      ensures Valid() && currentTechnique == old(currentTechnique)
      ensures Countdown() == OneSecond(Technique(), old(Countdown()))
    {
      if isActive && timeLeft > 0 {
        timeLeft := timeLeft - 1;
        if timeLeft == 0 {
          NextPhase();
        }
      }
    }

    /** One animation frame: while the phase animation has frames left, set
        the circle size for this frame and count it. */
    method Frame()
      requires Valid()
      modifies this`circleSize, this`frame
      ensures Valid()
      ensures old(isActive) && old(frame) <= Steps() ==> frame == old(frame) + 1
      ensures old(isActive) && old(frame) <= Steps() && PhaseNameAt(currentPhase) != Hold ==>
        circleSize == CircleSize(PhaseNameAt(currentPhase), old(frame), Steps(), old(circleSize), 100.0)
      ensures PhaseNameAt(currentPhase) == Hold || !(old(isActive) && old(frame) <= Steps()) ==>
        circleSize == old(circleSize)
      ensures isActive && PhaseNameAt(currentPhase) == Inhale && old(frame) > 0 ==> circleSize >= old(circleSize)
      ensures isActive && PhaseNameAt(currentPhase) == Exhale && old(frame) > 0 ==> circleSize <= old(circleSize)
    {
      if isActive && frame <= Steps() {
        var name := PhaseNameAt(currentPhase);
        if name != Hold {
          CatalogFacts(currentTechnique, currentPhase);
          if frame > 0 {
            CircleSizeMonotone(name, frame - 1, frame, Steps(), 100.0, 100.0);
          }
          circleSize := CircleSize(name, frame, Steps(), circleSize, 100.0);
        }
        frame := frame + 1;
      }
    }
  }
}
