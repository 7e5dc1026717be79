/** The breathing exercise of the frontend/ tree. A phase of d >= 1 seconds
    counts down d, d-1, ..., 1 and the tick that sees 1 advances; a phase of
    0 seconds is skipped as soon as it is entered. Each wrap to phase 0 counts
    a cycle, and the wrap that completes the last cycle stops the session. */
module FrontendBreathing {
  import opened Breathing

  /** The techniques this copy runs as the model says: at least two
      phases. With a single phase, nextPhase lands on the same phase index,
      the countdown effect's keys do not change, and no interval is started
      again, so the countdown freezes after the first phase. */
  predicate Cyclic(t: Technique) {
    ValidTechnique(t) && |t.pattern| >= 2
  }

  /** The countdown states the component can be in between two events. */
  predicate Inv(t: Technique, k: Clock) {
    && Cyclic(t)
    && k.currentPhase < |t.pattern|
    && k.cycleCount < t.cycles
    && (k.isActive ==> 1 <= k.timeLeft <= t.pattern[k.currentPhase])
  }

  /** The state reached when the session moves to phase p (p == |pattern|
      meaning the wrap back to phase 0) during cycle c: zero-second phases are
      passed over at once, and a wrap either starts the next cycle or, after
      the last one, stops the session. */
  function Enter(t: Technique, p: nat, c: nat): (k: Clock)
    requires Cyclic(t) && p <= |t.pattern| && c < t.cycles
    ensures Inv(t, k)
    ensures k.isActive ==> k.timeLeft == t.pattern[k.currentPhase]
    decreases t.cycles - c, |t.pattern| - p
  {
    if p == |t.pattern| then
      if c + 1 >= t.cycles then Idle(t) else Enter(t, 0, c + 1)
    else if t.pattern[p] == 0 then Enter(t, p + 1, c)
    else Clock(true, p, t.pattern[p], c)
  }

  /** What activating the session produces. */
  function Start(t: Technique): (k: Clock)
    requires Cyclic(t)
    ensures Inv(t, k)
  {
    Enter(t, 0, 0)
  }

  /** One second of the countdown interval. */
  function OneSecond(t: Technique, k: Clock): (r: Clock)
    requires Inv(t, k)
    ensures Inv(t, r)
  {
    if !k.isActive then k
    else if k.timeLeft <= 1 then Enter(t, k.currentPhase + 1, k.cycleCount)
    else k.(timeLeft := k.timeLeft - 1)
  }

  /** The state after n seconds. */
  function Seconds(t: Technique, n: nat, k: Clock): (r: Clock)
    requires Inv(t, k)
    ensures Inv(t, r)
    decreases n
  {
    if n == 0 then k else Seconds(t, n - 1, OneSecond(t, k))
  }

  /** One call of nextPhase followed by the skip of the countdown effect is
      the same as entering the next phase. */
  lemma NextPhaseThenSkip(t: Technique, k: Clock)
    requires Cyclic(t) && k.currentPhase < |t.pattern| && k.cycleCount < t.cycles && k.isActive
    ensures var s := NextPhase(t, k);
      Enter(t, k.currentPhase + 1, k.cycleCount)
        == if s.isActive then Enter(t, s.currentPhase, s.cycleCount) else s
  {
    if k.currentPhase + 1 < |t.pattern| {
      assert (k.currentPhase + 1) % |t.pattern| == k.currentPhase + 1;
    } else {
      assert (k.currentPhase + 1) % |t.pattern| == 0;
    }
  }

  /** While more than d seconds remain, d seconds only count down. */
  lemma {:induction false} CountsDown(t: Technique, k: Clock, d: nat)
    requires Inv(t, k) && k.isActive && d < k.timeLeft
    ensures Seconds(t, d, k) == k.(timeLeft := k.timeLeft - d)
    decreases d
  {
    if d > 0 {
      CountsDown(t, k.(timeLeft := k.timeLeft - 1), d - 1);
    }
  }

  /** A phase with timeLeft seconds remaining ends after exactly that many
      seconds, on the next non-empty phase. */
  lemma {:induction false} PhaseLasts(t: Technique, k: Clock)
    requires Inv(t, k) && k.isActive
    ensures Seconds(t, k.timeLeft, k) == Enter(t, k.currentPhase + 1, k.cycleCount)
  {
    CountsDown(t, k, k.timeLeft - 1);
    var last := k.(timeLeft := 1);
    assert Seconds(t, k.timeLeft - 1, k) == last;
    SecondsAdd(t, k.timeLeft - 1, 1, k);
  }

  lemma {:induction false} SecondsAdd(t: Technique, a: nat, b: nat, k: Clock)
    requires Inv(t, k)
    ensures Seconds(t, a + b, k) == Seconds(t, b, Seconds(t, a, k))
    decreases a
  {
    if a > 0 {
      SecondsAdd(t, a - 1, b, OneSecond(t, k));
    }
  }

  /** From entering phase p, the rest of the cycle takes exactly the seconds
      of phases p.. and ends at the wrap. */
  lemma {:induction false} RestOfCycle(t: Technique, p: nat, c: nat)
    requires Cyclic(t) && p <= |t.pattern| && c < t.cycles
    ensures Seconds(t, SumFrom(t.pattern, p), Enter(t, p, c)) == Enter(t, |t.pattern|, c)
    decreases |t.pattern| - p
  {
    if p < |t.pattern| {
      RestOfCycle(t, p + 1, c);
      if t.pattern[p] != 0 {
        var k := Enter(t, p, c);
        SecondsAdd(t, t.pattern[p], SumFrom(t.pattern, p + 1), k);
        PhaseLasts(t, k);
      }
    }
  }

  /** Entering phase p, the session stays active for every second before
      the wrap. */
  lemma {:induction false} ActiveInCycle(t: Technique, p: nat, c: nat, n: nat)
    requires Cyclic(t) && p <= |t.pattern| && c < t.cycles
    requires n < SumFrom(t.pattern, p)
    ensures Seconds(t, n, Enter(t, p, c)).isActive
    decreases |t.pattern| - p
  {
    var d := t.pattern[p];
    if d == 0 {
      ActiveInCycle(t, p + 1, c, n);
    } else if n < d {
      CountsDown(t, Enter(t, p, c), n);
    } else {
      var k := Enter(t, p, c);
      SecondsAdd(t, d, n - d, k);
      PhaseLasts(t, k);
      ActiveInCycle(t, p + 1, c, n - d);
    }
  }

  /** Starting from cycle c, the remaining cycles take their full length and
      end stopped, with every earlier second active. */
  lemma {:induction false} RemainingCycles(t: Technique, c: nat, n: nat)
    requires Cyclic(t) && c < t.cycles
    ensures Seconds(t, RemainingSeconds(t, c), Enter(t, 0, c)) == Idle(t)
    ensures n < RemainingSeconds(t, c) ==> Seconds(t, n, Enter(t, 0, c)).isActive
    decreases t.cycles - c
  {
    var s := CycleSeconds(t);
    var k := Enter(t, 0, c);
    RestOfCycle(t, 0, c);
    SecondsAdd(t, s, RemainingSeconds(t, c + 1), k);
    if n < s {
      ActiveInCycle(t, 0, c, n);
    }
    if c + 1 < t.cycles {
      RemainingCycles(t, c + 1, if n < s then 0 else n - s);
      if s <= n {
        SecondsAdd(t, s, n - s, k);
      }
    }
  }

  /** A full session lasts exactly cycles * (sum of the pattern) seconds:
      it is active at every earlier second and stopped, back at phase 0 and
      cycle 0, at that second. */
  lemma SessionLength(t: Technique, n: nat)
    requires Cyclic(t)
    ensures Seconds(t, t.cycles * CycleSeconds(t), Start(t)) == Idle(t)
    ensures n < t.cycles * CycleSeconds(t) ==> Seconds(t, n, Start(t)).isActive
  {
    RemainingSecondsIs(t, 0);
    RemainingCycles(t, 0, n);
  }

  /** 4-7-8 Breathing: Hold starts after 4 seconds, the first wrap comes
      after 19 seconds with one cycle counted, and the session ends after
      76 seconds. */
  lemma FourSevenEight()
    ensures Seconds(Catalog[0], 4, Start(Catalog[0])) == Clock(true, 1, 7, 0)
    ensures Seconds(Catalog[0], 19, Start(Catalog[0])) == Clock(true, 0, 4, 1)
    ensures Seconds(Catalog[0], 75, Start(Catalog[0])).isActive
    ensures Seconds(Catalog[0], 76, Start(Catalog[0])) == Clock(false, 0, 4, 0)
  {
    var t := Catalog[0];
    CatalogFacts(0, 0);
    CatalogCycleSeconds();
    PhaseLasts(t, Start(t));
    RestOfCycle(t, 0, 0);
    SessionLength(t, 75);
  }

  /** Deep Breathing [5, 0, 5]: the 0-second Hold is never current; after
      the first 5 seconds the session is on phase 2 with 5 seconds left, the
      first cycle is counted after 10 seconds and all six end after 60. */
  lemma DeepBreathingSkipsHold()
    ensures Start(Catalog[2]) == Clock(true, 0, 5, 0)
    ensures Seconds(Catalog[2], 5, Start(Catalog[2])) == Clock(true, 2, 5, 0)
    ensures Seconds(Catalog[2], 10, Start(Catalog[2])) == Clock(true, 0, 5, 1)
    ensures Seconds(Catalog[2], 59, Start(Catalog[2])).isActive
    ensures Seconds(Catalog[2], 60, Start(Catalog[2])) == Clock(false, 0, 5, 0)
  {
    var t := Catalog[2];
    CatalogFacts(2, 0);
    CatalogCycleSeconds();
    PhaseLasts(t, Start(t));
    RestOfCycle(t, 0, 0);
    SessionLength(t, 59);
  }

  /** The component: its state fields, updated by the handlers, the
      countdown interval and the animation loop. */
  class BreathingExercise {
    var isActive: bool
    var currentTechnique: nat
    var currentPhase: nat
    var timeLeft: nat
    var cycleCount: nat
    var circleSize: real
    /** The `step` counter of the running animation loop. */
    var frame: nat

    function Technique(): Technique
      reads this
      requires currentTechnique < |Catalog|
    {
      Catalog[currentTechnique]
    }

    function Countdown(): Clock
      reads this
    {
      Clock(isActive, currentPhase, timeLeft, cycleCount)
    }

    /** Frames the animation of the current phase takes (10 per second). */
    function Steps(): nat
      reads this
      requires currentTechnique < |Catalog| && currentPhase < |Technique().pattern|
    {
      Technique().pattern[currentPhase] * 10
    }

    /** Holds between handler steps. */
    ghost predicate Sound()
      reads this
    {
      && currentTechnique < |Catalog|
      && currentPhase < |Technique().pattern|
      && cycleCount < Technique().cycles
      && 100.0 <= circleSize <= 250.0
      && (!isActive ==> circleSize == 100.0)
    }

    ghost predicate Valid()
      reads this
    {
      && Sound()
      && Inv(Technique(), Countdown())
      && (isActive ==> frame <= Steps() + 1)
      && (isActive && frame > 0 && PhaseNameAt(currentPhase) != Hold ==>
            circleSize == CircleSize(PhaseNameAt(currentPhase), frame - 1, Steps(), 100.0, 150.0))
    }

    constructor ()
      ensures Valid()
      ensures Countdown() == Clock(false, 0, 0, 0) && currentTechnique == 0 && circleSize == 100.0
    {
      isActive, currentTechnique, currentPhase, timeLeft, cycleCount := false, 0, 0, 0, 0;
      circleSize, frame := 100.0, 0;
    }

    /** The label shown in the circle: the table entry at the phase index,
        which never needs the wrap-around. */
    function PhaseLabel(): (n: PhaseName)
      reads this
      requires Valid()
      ensures n == Phases[currentPhase]
    {
      CatalogFacts(currentTechnique, currentPhase);
      PhaseNameAt(currentPhase)
    }

    /** The n of "Cycle n of N". */
    function CycleShown(): (n: nat)
      reads this
      requires Valid()
      ensures 1 <= n <= Technique().cycles
    {
      cycleCount + 1
    }

    /** nextPhase: move to the following phase, counting a cycle on the wrap
        and stopping after the last one. */
    method NextPhase()
      requires Sound() && isActive
      modifies this
      ensures Sound() && currentTechnique == old(currentTechnique)
      ensures Countdown() == Breathing.NextPhase(Technique(), old(Countdown()))
      ensures frame == 0
    {
      var pattern := Catalog[currentTechnique].pattern;
      var next := (currentPhase + 1) % |pattern|;
      currentPhase := next;
      timeLeft := pattern[next];
      if next == 0 {
        if cycleCount + 1 >= Catalog[currentTechnique].cycles {
          isActive := false;
          cycleCount := 0;
          circleSize := 100.0;
        } else {
          cycleCount := cycleCount + 1;
        }
      }
      frame := 0;
    }

    /** The countdown effect's zero-duration skip: while the session is on a
        phase of 0 seconds, move on. */
    method SkipEmptyPhases()
      requires Sound() && isActive && timeLeft == Technique().pattern[currentPhase] && frame == 0
      modifies this
      ensures Valid() && currentTechnique == old(currentTechnique) && frame == 0
      ensures Countdown() == Enter(Technique(), old(currentPhase), old(cycleCount))
    {
      ghost var t := Technique();
      ghost var target := Enter(t, currentPhase, cycleCount);
      var pattern := Catalog[currentTechnique].pattern;
      while isActive && pattern[currentPhase] == 0
        invariant Sound() && currentTechnique == old(currentTechnique) && pattern == t.pattern
        invariant isActive ==> timeLeft == pattern[currentPhase] && Enter(t, currentPhase, cycleCount) == target
        invariant !isActive ==> Countdown() == target
        invariant frame == 0
        decreases if isActive then t.cycles - cycleCount else 0, |pattern| - currentPhase
      {
        NextPhaseThenSkip(t, Countdown());
        NextPhase();
      }
    }

    /** toggleBreathing: pause a running session, or activate one; activating
        always restarts at phase 0 and cycle 0, it does not resume. */
    method Toggle()
      requires Valid()
      modifies this
      ensures Valid() && currentTechnique == old(currentTechnique)
      ensures old(isActive) ==> Countdown() == old(Countdown()).(isActive := false) && circleSize == 100.0
      ensures !old(isActive) ==> Countdown() == Start(Technique()) && frame == 0
    {
      if isActive {
        isActive := false;
        circleSize := 100.0;
      } else {
        isActive, currentPhase, cycleCount := true, 0, 0;
        timeLeft := Catalog[currentTechnique].pattern[0];
        frame := 0;
        SkipEmptyPhases();
      }
    }

    /** resetBreathing: stop, back to phase 0 and cycle 0, with the first
        duration of the technique selected when the handler was created. */
    method Reset()
      requires Valid()
      modifies this
      ensures Valid() && currentTechnique == old(currentTechnique)
      ensures Countdown() == Clock(false, 0, Technique().pattern[0], 0) && circleSize == 100.0
    {
      isActive, currentPhase, cycleCount := false, 0, 0;
      timeLeft := Catalog[currentTechnique].pattern[0];
      circleSize := 100.0;
    }

    /** changeTechnique: select another technique and reset; the reset still
        reads the previously selected technique, so timeLeft shows that
        technique's first duration. */
    method ChangeTechnique(index: nat)
      requires Valid() && index < |Catalog|
      modifies this
      ensures Valid() && currentTechnique == index
      ensures Countdown() == Clock(false, 0, Catalog[old(currentTechnique)].pattern[0], 0)
      ensures circleSize == 100.0
    {
      var previous := Catalog[currentTechnique].pattern[0];
      currentTechnique := index;
      isActive, currentPhase, cycleCount := false, 0, 0;
      timeLeft := previous;
      circleSize := 100.0;
    }

    /** One second of the countdown interval. */
    method Tick()
      requires Valid()
      modifies this
      ensures Valid() && currentTechnique == old(currentTechnique)
      ensures Countdown() == OneSecond(Technique(), old(Countdown()))
    {
      if isActive {
        if timeLeft <= 1 {
          NextPhaseThenSkip(Technique(), Countdown());
          NextPhase();
          if isActive {
            SkipEmptyPhases();
          }
        } else {
          timeLeft := timeLeft - 1;
        }
      }
    }

    /** One animation frame: while the phase animation has frames left, set
        the circle size for this frame and count it. */
    method Frame()
      requires Valid()
      modifies this`circleSize, this`frame
      ensures Valid()
      ensures old(isActive) && old(frame) <= Steps() ==>
        frame == old(frame) + 1 &&
        circleSize == CircleSize(PhaseNameAt(currentPhase), old(frame), Steps(), old(circleSize), 150.0)
      ensures !(old(isActive) && old(frame) <= Steps()) ==> unchanged(this)
      ensures isActive && PhaseNameAt(currentPhase) == Inhale && old(frame) > 0 ==> circleSize >= old(circleSize)
      ensures isActive && PhaseNameAt(currentPhase) == Exhale && old(frame) > 0 ==> circleSize <= old(circleSize)
    {
      if isActive && frame <= Steps() {
        var name := PhaseNameAt(currentPhase);
        if frame > 0 {
          CircleSizeMonotone(name, frame - 1, frame, Steps(), 100.0, 150.0);
        }
        circleSize := CircleSize(name, frame, Steps(), circleSize, 150.0);
        frame := frame + 1;
      }
    }
  }
}
