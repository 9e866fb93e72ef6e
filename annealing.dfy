/** The annealing engine of src/sa.py: the cooling schedule, the default perturbation over an
    explicit state list, the Metropolis acceptance rule and the two nested loops of `exec`.

    The engine is generic in the state type `T`. Everything the Python class receives in its
    constructor (schedule, state list, energy function, trial budget, temperature floor) and
    the two methods a subclass overrides (the perturbation and the progress hook `iter_log`)
    are fields of an `Annealer`. What the Python
    takes from the outside world is passed in explicitly: `exp` is a function parameter and
    the random draws are a stream indexed by the ordinal of the trial. */
module Annealing {
  import opened Results
  import opened Arithmetic

  /** What a perturbation call leaves behind. `current` is the caller's own state after the
      call; it differs from the state passed in only when the perturbation writes into it
      (the route adapter swaps inside the caller's list and returns that same list).
      `next` is the returned candidate. */
  datatype Move<T> = Move(current: T, next: T)

  /** A configured engine: the constructor arguments of SimulatedAnnealing, plus the
      perturbation method and the progress hook in force (the base ones or subclass
      overrides). The perturbation also receives the ordinal of the trial, from which an
      adapter reads its random choice. `iterLog(x, t)` is the outcome of the hook call at the
      start of outer step `t`; its effect on the object is modelled by each adapter. */
  datatype Annealer<!T> = Annealer(
    schedule: nat -> real,
    states: seq<T>,
    energy: T -> Result<real>,
    perturb: (T, nat) -> Result<Move<T>>,
    iterLog: (T, nat) -> Outcome,
    nPer: int,
    tEnd: real)

  /** The outside world: `math.exp`, and the value `random.random()` yields in trial `k`. */
  datatype Env = Env(exp: real -> real, draws: nat -> real)

  // ---------------------------------------------------------------------------------------
  // Cooling schedule

  /** The sample schedule `t -> c / (t + 1)` (true division). */
  function SampleSchedule(c: int): (f: nat -> real)
    ensures forall t: nat :: f(t) * (t + 1) as real == c as real
  {
    (t: nat) => c as real / (t + 1) as real
  }

  /** The sample schedule starts at `c`. */
  lemma SampleScheduleStart(c: int)
    ensures SampleSchedule(c)(0) == c as real
  {
  }

  /** For a positive `c` the sample schedule is strictly decreasing. */
  lemma SampleScheduleDecreasing(c: int, t1: nat, t2: nat)
    requires c > 0 && t1 < t2
    ensures SampleSchedule(c)(t2) < SampleSchedule(c)(t1)
  {
    var C, a, b := c as real, (t1 + 1) as real, (t2 + 1) as real;
    assert C / a - C / b == C * (b - a) / (a * b);
    assert C * (b - a) > 0.0 && a * b > 0.0;
  }

  /** Step `u` of the sample schedule is at or above the floor exactly when `u` is below
      `floor(c / tEnd)`. */
  lemma SampleScheduleAbove(c: int, tEnd: real, u: nat)
    requires tEnd > 0.0
    ensures SampleSchedule(c)(u) >= tEnd <==> u < (c as real / tEnd).Floor
  {
    var C, U, q := c as real, (u + 1) as real, c as real / tEnd;
    var F := q.Floor;
    assert SampleSchedule(c)(u) == C / U;
    QuotientShift(C, U, tEnd);
    assert U * tEnd == tEnd * U;
    SameSign(C - tEnd * U, U);
    QuotientShift(C, tEnd, U);
    SameSign(C - tEnd * U, tEnd);
    assert F as real <= q < F as real + 1.0;
  }

  // ---------------------------------------------------------------------------------------
  // The number of outer iterations

  /** The first step at or after `t` whose temperature is below the floor; `bound` is one
      such step, so the search ends. */
  function FirstBelow(schedule: nat -> real, tEnd: real, t: nat, bound: nat): (r: nat)
    requires t <= bound && schedule(bound) < tEnd
    ensures t <= r <= bound && schedule(r) < tEnd
    ensures forall u :: t <= u < r ==> schedule(u) >= tEnd
    decreases bound - t
  {
    if schedule(t) < tEnd then t else FirstBelow(schedule, tEnd, t + 1, bound)
  }

  /** A step below the floor that every earlier step (from `t`) stays above is the one
      FirstBelow finds. */
  lemma FirstBelowUnique(schedule: nat -> real, tEnd: real, t: nat, bound: nat, r: nat)
    requires t <= bound && schedule(bound) < tEnd
    requires t <= r && schedule(r) < tEnd
    requires forall u :: t <= u < r ==> schedule(u) >= tEnd
    ensures FirstBelow(schedule, tEnd, t, bound) == r
  {
  }

  /** With the sample schedule, a non-negative `c` and a positive floor, the loop of `exec`
      runs exactly `floor(c / tEnd)` outer iterations. */
  lemma SampleScheduleSteps(c: int, tEnd: real, bound: nat)
    requires c >= 0 && tEnd > 0.0 && SampleSchedule(c)(bound) < tEnd
    ensures FirstBelow(SampleSchedule(c), tEnd, 0, bound) == (c as real / tEnd).Floor
  {
    var s, F := SampleSchedule(c), (c as real / tEnd).Floor;
    assert c as real / tEnd >= 0.0;
    assert F >= 0;
    SampleScheduleAbove(c, tEnd, F);
    forall u: nat | u < F ensures s(u) >= tEnd {
      SampleScheduleAbove(c, tEnd, u);
    }
    FirstBelowUnique(s, tEnd, 0, bound, F);
  }

  // ---------------------------------------------------------------------------------------
  // Default perturbation: the cyclic successor in the state list

  /** Position of the first occurrence of `x` (Python's `list.index`). */
  function IndexOf<T(==)>(s: seq<T>, x: T): (i: nat)
    requires x in s
    ensures i < |s| && s[i] == x
    ensures forall j :: 0 <= j < i ==> s[j] != x
  {
    if s[0] == x then 0 else 1 + IndexOf(s[1..], x)
  }

  /** The base perturbation: the element after `x`'s first occurrence, cyclically; a state
      that is not in the list raises KeyError. */
  function DefaultPerturbation<T(==)>(states: seq<T>, x: T): (r: Result<T>)
    ensures r.Ok? <==> x in states
    ensures r.Err? ==> r.error == KeyError
    ensures r.Ok? ==> r.value in states
    ensures r.Ok? && IndexOf(states, x) < |states| - 1 ==> r.value == states[IndexOf(states, x) + 1]
    ensures r.Ok? && IndexOf(states, x) == |states| - 1 ==> r.value == states[0]
  {
    if x !in states then Err(KeyError)
    else
      var i := IndexOf(states, x);
      WrapAround(i, |states|);
      Ok(states[(i + 1) % |states|])
  }

  /** The base perturbation as a move: it returns a new candidate and leaves the caller's
      state alone. */
  function DefaultMove<T(==)>(states: seq<T>, x: T): (r: Result<Move<T>>)
    ensures r.Ok? <==> x in states
    ensures r.Err? ==> r.error == KeyError
    ensures r.Ok? ==> r.value.current == x && r.value.next in states
    ensures r.Ok? ==> r.value.next == DefaultPerturbation(states, x).value
  {
    match DefaultPerturbation(states, x)
    case Err(e) => Err(e)
    case Ok(y) => Ok(Move(x, y))
  }

  /** `k` consecutive applications of `step`, stopping at the first exception. */
  function Iterate<T>(step: T -> Result<T>, x: T, k: nat): Result<T>
  {
    if k == 0 then Ok(x)
    else match Iterate(step, x, k - 1)
      case Err(e) => Err(e)
      case Ok(y) => step(y)
  }

  /** `k` consecutive default perturbations starting from `x`. */
  function IteratePerturbation<T(==)>(states: seq<T>, x: T, k: nat): Result<T>
  {
    Iterate((y: T) => DefaultPerturbation(states, y), x, k)
  }

  predicate Distinct<T(==)>(s: seq<T>)
  {
    forall i, j :: 0 <= i < j < |s| ==> s[i] != s[j]
  }

  lemma IndexOfDistinct<T>(states: seq<T>, j: nat)
    requires Distinct(states) && j < |states|
    ensures IndexOf(states, states[j]) == j
    ensures DefaultPerturbation(states, states[j]) == Ok(states[if j + 1 < |states| then j + 1 else 0])
  {
    var i := IndexOf(states, states[j]);
    assert states[i] == states[j];
    assert !(j < i);
    assert !(i < j);
  }

  /** The position `k` steps after `i` on a cycle of `n` positions, one step at a time. */
  function Advance(i: nat, k: nat, n: nat): (j: nat)
    requires i < n
    ensures j < n
  {
    if k == 0 then i
    else
      var p := Advance(i, k - 1, n);
      if p + 1 < n then p + 1 else 0
  }

  lemma {:induction false} AdvanceIsMod(i: nat, k: nat, n: nat)
    requires i < n
    ensures Advance(i, k, n) == (i + k) % n
  {
    if k == 0 {
      ModUnique(i, n, 0, i);
    } else {
      AdvanceIsMod(i, k - 1, n);
      var p := Advance(i, k - 1, n);
      ModSuccessor(i + k - 1, n);
      if p + 1 < n {
        ModUnique(p + 1, n, 0, p + 1);
      } else {
        ModUnique(p + 1, n, 1, 0);
      }
    }
  }

  /** A step that moves every state of the list to the next one walks the list cyclically. */
  lemma {:induction false} SuccessorWalk<T>(step: T -> Result<T>, states: seq<T>, i: nat, k: nat)
    requires i < |states|
    requires forall j :: 0 <= j < |states| ==> step(states[j]) == Ok(states[if j + 1 < |states| then j + 1 else 0])
    ensures Iterate(step, states[i], k) == Ok(states[Advance(i, k, |states|)])
  {
    if k > 0 {
      SuccessorWalk(step, states, i, k - 1);
    }
  }

  /** Over a list without repetitions the default perturbation walks the list in order and
      wraps around: `k` steps from the `i`-th state reach the `(i + k) mod n`-th. So every
      state is reachable from the first, and `n` steps return to the start. */
  lemma DefaultPerturbationCycles<T>(states: seq<T>, i: nat, k: nat)
    requires Distinct(states) && i < |states|
    ensures IteratePerturbation(states, states[i], k) == Ok(states[(i + k) % |states|])
  {
    var step := (y: T) => DefaultPerturbation(states, y);
    forall j | 0 <= j < |states|
      ensures step(states[j]) == Ok(states[if j + 1 < |states| then j + 1 else 0])
    {
      IndexOfDistinct(states, j);
    }
    SuccessorWalk(step, states, i, k);
    AdvanceIsMod(i, k, |states|);
  }

  // ---------------------------------------------------------------------------------------
  // Acceptance

  /** The Metropolis rule on energies: an improving or equal move is accepted; a worse one
      exactly when the draw is at most `exp(-(eNext - eCurr) / temp)`. A zero temperature in
      that division raises ZeroDivisionError. */
  function Metropolis(eCurr: real, eNext: real, temp: real, exp: real -> real, draw: real): (r: Result<bool>)
    ensures eNext <= eCurr ==> r == Ok(true)
    ensures r.Err? <==> eNext > eCurr && temp == 0.0
    ensures r.Err? ==> r.error == ZeroDivisionError
    ensures r == Ok(false) ==> eNext > eCurr
  {
    if eNext <= eCurr then Ok(true)
    else if temp == 0.0 then Err(ZeroDivisionError)
    else Ok(draw <= exp(-(eNext - eCurr) / temp))
  }

  /** `_is_acceptable`: scores both states, then applies the rule at the temperature of
      step `coolingIter`. An exception of the energy function propagates. */
  function IsAcceptable<T>(a: Annealer<T>, exp: real -> real, curr: T, next: T, coolingIter: nat, draw: real)
    : (r: Result<bool>)
    ensures a.energy(curr).Err? ==> r == Err(a.energy(curr).error)
    ensures a.energy(curr).Ok? && a.energy(next).Err? ==> r == Err(a.energy(next).error)
    ensures a.energy(curr).Ok? && a.energy(next).Ok? ==>
              (r.Err? <==> a.energy(next).value > a.energy(curr).value && a.schedule(coolingIter) == 0.0)
    ensures r == Ok(false) ==> a.energy(curr).Ok? && a.energy(next).Ok? && a.energy(next).value > a.energy(curr).value
  {
    match a.energy(curr)
    case Err(e) => Err(e)
    case Ok(eCurr) =>
      match a.energy(next)
      case Err(e) => Err(e)
      case Ok(eNext) => Metropolis(eCurr, eNext, a.schedule(coolingIter), exp, draw)
  }

  /** An improving or equal move is accepted whatever the temperature and the draw. */
  lemma ImprovingMoveAccepted<T>(a: Annealer<T>, exp: real -> real, curr: T, next: T, coolingIter: nat, draw: real)
    requires a.energy(curr).Ok? && a.energy(next).Ok?
    requires a.energy(next).value <= a.energy(curr).value
    ensures IsAcceptable(a, exp, curr, next, coolingIter, draw) == Ok(true)
  {
  }

  /** A worse move at a non-zero temperature is accepted exactly when the draw does not
      exceed `exp(-de / T)`, with `T` the schedule's value at the step passed in. */
  lemma WorseMoveAcceptedIffDraw<T>(a: Annealer<T>, exp: real -> real, curr: T, next: T, coolingIter: nat, draw: real)
    requires a.energy(curr).Ok? && a.energy(next).Ok?
    requires a.energy(next).value > a.energy(curr).value && a.schedule(coolingIter) != 0.0
    ensures IsAcceptable(a, exp, curr, next, coolingIter, draw)
         == Ok(draw <= exp(-(a.energy(next).value - a.energy(curr).value) / a.schedule(coolingIter)))
  {
  }

  /** A state compared with itself is always accepted (what happens when a perturbation
      returns the very list it was given). */
  lemma SameStateAccepted<T>(a: Annealer<T>, exp: real -> real, x: T, coolingIter: nat, draw: real)
    requires a.energy(x).Ok?
    ensures IsAcceptable(a, exp, x, x, coolingIter, draw) == Ok(true)
  {
  }

  ghost predicate NonDecreasing(f: real -> real)
  {
    forall u, v :: u <= v ==> f(u) <= f(v)
  }

  /** With a non-decreasing `exp`, a worse move accepted at some positive temperature is
      accepted at every higher one. */
  lemma AcceptanceMonotoneInTemperature(eCurr: real, eNext: real, t1: real, t2: real, exp: real -> real, draw: real)
    requires NonDecreasing(exp)
    requires 0.0 < t1 <= t2
    requires Metropolis(eCurr, eNext, t1, exp, draw) == Ok(true)
    ensures Metropolis(eCurr, eNext, t2, exp, draw) == Ok(true)
  {
    if eNext > eCurr {
      var d := eNext - eCurr;
      ShrinkingQuotient(d, t1, t2);
      assert -d / t1 <= -d / t2;
      assert exp(-d / t1) <= exp(-d / t2);
    }
  }

  /** With a non-decreasing `exp`, a worse move accepted at some energy gap is accepted at
      every smaller gap, at the same positive temperature. */
  lemma AcceptanceMonotoneInGap(eCurr: real, e1: real, e2: real, temp: real, exp: real -> real, draw: real)
    requires NonDecreasing(exp)
    requires temp > 0.0 && e1 <= e2
    requires Metropolis(eCurr, e2, temp, exp, draw) == Ok(true)
    ensures Metropolis(eCurr, e1, temp, exp, draw) == Ok(true)
  {
    if e1 > eCurr {
      var d1, d2 := e1 - eCurr, e2 - eCurr;
      assert d2 / temp - d1 / temp == (d2 - d1) / temp;
      SameSign(d2 - d1, temp);
      assert -(e2 - eCurr) / temp <= -(e1 - eCurr) / temp;
      assert exp(-(e2 - eCurr) / temp) <= exp(-(e1 - eCurr) / temp);
    }
  }

  /** For an `exp` that is positive, strictly increasing and 1 at 0, the probability of
      accepting a worse move at a positive temperature lies strictly between 0 and 1. */
  lemma AcceptanceProbabilityBounds(eCurr: real, eNext: real, temp: real, exp: real -> real)
    requires forall u, v :: u < v ==> exp(u) < exp(v)
    requires forall u :: exp(u) > 0.0
    requires exp(0.0) == 1.0
    requires eNext > eCurr && temp > 0.0
    ensures 0.0 < exp(-(eNext - eCurr) / temp) < 1.0
  {
    var d := eNext - eCurr;
    assert -d / temp == -(d / temp);
    assert d / temp > 0.0;
  }

  // ---------------------------------------------------------------------------------------
  // The run

  /** `range(n_per)` runs no trial for a negative budget. */
  function TrialCount(nPer: int): nat
  {
    if nPer < 0 then 0 else nPer
  }

  /** One trial (the body of the inner loop): perturb, then keep the candidate if it is
      accepted and the caller's own state otherwise. `k` is the ordinal of the trial. */
  function Trial<T>(a: Annealer<T>, env: Env, x: T, t: nat, k: nat): (r: Result<T>)
    ensures a.perturb(x, k).Err? ==> r == Err(a.perturb(x, k).error)
    ensures r.Ok? ==> a.perturb(x, k).Ok? && (r.value == a.perturb(x, k).value.current || r.value == a.perturb(x, k).value.next)
  {
    match a.perturb(x, k)
    case Err(e) => Err(e)
    case Ok(m) =>
      match IsAcceptable(a, env.exp, m.current, m.next, t, env.draws(k))
      case Err(e) => Err(e)
      case Ok(accept) => Ok(if accept then m.next else m.current)
  }

  /** Trials `i`, `i + 1`, ... of outer step `t`, each fed the result of the one before. */
  function Trials<T>(a: Annealer<T>, env: Env, x: T, t: nat, i: nat): (r: Result<T>)
    ensures a.nPer <= 0 ==> r == Ok(x)
    decreases TrialCount(a.nPer) - i
  {
    if i >= TrialCount(a.nPer) then Ok(x)
    else match Trial(a, env, x, t, t * TrialCount(a.nPer) + i)
      case Err(e) => Err(e)
      case Ok(y) => Trials(a, env, y, t, i + 1)
  }

  /** The outer loop from step `t`: while the temperature of the step is at or above the
      floor, call the progress hook, run the step's trials and move to the next step. Once
      the loop ends, the closing log line evaluates the energy of the final state, so an
      exception of the energy function still escapes there. */
  function Run<T>(a: Annealer<T>, env: Env, x: T, t: nat, bound: nat): (r: Result<T>)
    requires t <= bound && a.schedule(bound) < a.tEnd
    ensures r.Ok? ==> a.energy(r.value).Ok?
    decreases bound - t
  {
    if a.schedule(t) < a.tEnd then (if a.energy(x).Err? then Err(a.energy(x).error) else Ok(x))
    else if a.iterLog(x, t).Fail? then Err(a.iterLog(x, t).error)
    else match Trials(a, env, x, t, 0)
      case Err(e) => Err(e)
      case Ok(y) => Run(a, env, y, t + 1, bound)
  }

  /** The start state: the one supplied, or else the first of the state list. */
  function Start<T>(a: Annealer<T>, xStart: Option<T>): (r: Result<T>)
    ensures r.Err? <==> xStart.None? && |a.states| == 0
    ensures r.Err? ==> r.error == IndexError
    ensures xStart.Some? ==> r == Ok(xStart.value)
    ensures xStart.None? && r.Ok? ==> r.value == a.states[0]
  {
    match xStart
    case Some(x) => Ok(x)
    case None => if |a.states| == 0 then Err(IndexError) else Ok(a.states[0])
  }

  /** What `exec` computes. */
  function Execution<T>(a: Annealer<T>, env: Env, xStart: Option<T>, bound: nat): (r: Result<T>)
    requires a.schedule(bound) < a.tEnd
    ensures xStart.None? && |a.states| == 0 ==> r == Err(IndexError)
    ensures r.Ok? ==> a.energy(r.value).Ok?
  {
    match Start(a, xStart)
    case Err(e) => Err(e)
    case Ok(x) => Run(a, env, x, 0, bound)
  }

  /** The inner loop of `exec`: the `n_per` trials of outer step `t`. Besides the state it
      yields how many trials ran; a step that completes ran all of them. */
  method StepTrials<T>(a: Annealer<T>, env: Env, x0: T, t: nat) returns (r: Result<T>, count: nat)
    ensures r == Trials(a, env, x0, t, 0)
    ensures r.Ok? ==> count == TrialCount(a.nPer)
  {
    var n := TrialCount(a.nPer);
    var x := x0;
    count := 0;
    for i := 0 to n
      invariant Trials(a, env, x, t, i) == Trials(a, env, x0, t, 0)
      invariant count == i
    {
      count := count + 1;
      var k := t * n + i;
      var p := a.perturb(x, k);
      if p.Err? {
        return Err(p.error), count;
      }
      var accept := IsAcceptable(a, env.exp, p.value.current, p.value.next, t, env.draws(k));
      if accept.Err? {
        return Err(accept.error), count;
      }
      if accept.value {
        x := p.value.next;
      } else {
        x := p.value.current;
      }
    }
    return Ok(x), count;
  }

  /** One outer step of the run: a step at or above the floor whose hook passes and whose
      trials end in `y` continues from `y` at the next step. */
  lemma RunStep<T>(a: Annealer<T>, env: Env, x: T, y: T, t: nat, bound: nat)
    requires t <= bound && a.schedule(bound) < a.tEnd && a.schedule(t) >= a.tEnd
    requires a.iterLog(x, t).Pass? && Trials(a, env, x, t, 0) == Ok(y)
    ensures t + 1 <= bound && Run(a, env, x, t, bound) == Run(a, env, y, t + 1, bound)
  {
  }

  /** The loop of `exec` from the start state `x0`: the outer while loop over the step
      counter, calling the progress hook and then the inner loop of `n_per` trials, and
      after it the closing log line, which evaluates the energy of the final state. Besides
      the final state it yields the final step counter and the number of trials run. On
      success the loop ran exactly the steps `0 .. steps - 1`, the ones before the first step
      whose temperature is below the floor, with `n_per` trials each. */
  method Anneal<T>(a: Annealer<T>, env: Env, x0: T, ghost bound: nat)
    returns (r: Result<T>, steps: nat, trials: nat)
    requires a.schedule(bound) < a.tEnd
    ensures r == Run(a, env, x0, 0, bound)
    ensures r.Ok? ==> steps == FirstBelow(a.schedule, a.tEnd, 0, bound)
    ensures r.Ok? ==> trials == steps * TrialCount(a.nPer)
  {
    var x := x0;
    var t: nat := 0;
    ghost var n := TrialCount(a.nPer);
    trials := 0;
    while a.schedule(t) >= a.tEnd
      invariant t <= bound
      invariant forall u :: 0 <= u < t ==> a.schedule(u) >= a.tEnd
      invariant Run(a, env, x, t, bound) == Run(a, env, x0, 0, bound)
      invariant trials == t * n
      decreases bound - t
    {
      var o := a.iterLog(x, t);
      if o.Fail? {
        return Err(o.error), t, trials;
      }
      var y, ran := StepTrials(a, env, x, t);
      if y.Err? {
        return Err(y.error), t, trials + ran;
      }
      RunStep(a, env, x, y.value, t, bound);
      x := y.value;
      trials := trials + ran;
      t := t + 1;
    }
    FirstBelowUnique(a.schedule, a.tEnd, 0, bound, t);
    var e := a.energy(x);
    if e.Err? {
      return Err(e.error), t, trials;
    }
    return Ok(x), t, trials;
  }

  /** `exec`: the start state is the one supplied or else the first of the state list
      (IndexError for an empty list), then the loop. */
  method Exec<T>(a: Annealer<T>, env: Env, xStart: Option<T>, ghost bound: nat)
    returns (r: Result<T>, steps: nat, trials: nat)
    requires a.schedule(bound) < a.tEnd
    ensures r == Execution(a, env, xStart, bound)
    ensures r.Ok? ==> steps == FirstBelow(a.schedule, a.tEnd, 0, bound)
    ensures r.Ok? ==> trials == steps * TrialCount(a.nPer)
  {
    var x: T;
    match xStart {
      case Some(s) =>
        x := s;
      case None =>
        if |a.states| == 0 {
          return Err(IndexError), 0, 0;
        }
        x := a.states[0];
    }
    r, steps, trials := Anneal(a, env, x, bound);
  }

  /** If the first temperature is already below the floor, neither the hook nor a trial
      runs: the start state comes back unchanged, unless its energy, evaluated by the closing
      log line, raises. */
  lemma NoStepReturnsStart<T>(a: Annealer<T>, env: Env, x: T, bound: nat)
    requires a.schedule(bound) < a.tEnd && a.schedule(0) < a.tEnd
    ensures a.energy(x).Ok? ==> Run(a, env, x, 0, bound) == Ok(x)
    ensures a.energy(x).Err? ==> Run(a, env, x, 0, bound) == Err(a.energy(x).error)
  {
  }

  /** With the sample schedule with c = 30 and the floor 50 (the values of main.py), no
      outer iteration runs and the start state is returned as it is, whatever the hook and
      the perturbation are. */
  lemma SampleRunIsIdle<T>(states: seq<T>, energy: T -> Result<real>, perturb: (T, nat) -> Result<Move<T>>,
                           iterLog: (T, nat) -> Outcome, nPer: int, env: Env, x: T)
    requires energy(x).Ok?
    ensures Run(Annealer(SampleSchedule(30), states, energy, perturb, iterLog, nPer, 50.0), env, x, 0, 0) == Ok(x)
  {
  }

  /** A trial whose perturbation leaves the caller's state alone changes the state only on
      acceptance, and then to the candidate. */
  lemma TrialChangesOnlyOnAcceptance<T>(a: Annealer<T>, env: Env, x: T, t: nat, k: nat)
    requires a.perturb(x, k).Ok? && a.perturb(x, k).value.current == x
    requires Trial(a, env, x, t, k).Ok?
    ensures Trial(a, env, x, t, k).value == x
         || (IsAcceptable(a, env.exp, x, a.perturb(x, k).value.next, t, env.draws(k)) == Ok(true)
             && Trial(a, env, x, t, k).value == a.perturb(x, k).value.next)
  {
  }

  // ---------------------------------------------------------------------------------------
  // Invariants of the state space

  /** A perturbation keeps `inv`: from a state satisfying it, both the caller's state and
      the candidate satisfy it. */
  ghost predicate Preserves<T(!new)>(perturb: (T, nat) -> Result<Move<T>>, inv: T -> bool)
  {
    forall x, k :: inv(x) && perturb(x, k).Ok? ==> inv(perturb(x, k).value.current) && inv(perturb(x, k).value.next)
  }

  lemma {:induction false} TrialsPreserve<T(!new)>(a: Annealer<T>, env: Env, inv: T -> bool, x: T, t: nat, i: nat)
    requires Preserves(a.perturb, inv) && inv(x)
    ensures Trials(a, env, x, t, i).Ok? ==> inv(Trials(a, env, x, t, i).value)
    decreases TrialCount(a.nPer) - i
  {
    if i < TrialCount(a.nPer) {
      var k := t * TrialCount(a.nPer) + i;
      match Trial(a, env, x, t, k)
      case Err(_) =>
      case Ok(y) =>
        assert inv(y);
        TrialsPreserve(a, env, inv, y, t, i + 1);
    }
  }

  /** If the perturbation stays inside a set of states, so does the whole run. */
  lemma {:induction false} RunPreserves<T(!new)>(a: Annealer<T>, env: Env, inv: T -> bool, x: T, t: nat, bound: nat)
    requires t <= bound && a.schedule(bound) < a.tEnd
    requires Preserves(a.perturb, inv) && inv(x)
    ensures Run(a, env, x, t, bound).Ok? ==> inv(Run(a, env, x, t, bound).value)
    decreases bound - t
  {
    if a.schedule(t) >= a.tEnd && a.iterLog(x, t).Pass? {
      TrialsPreserve(a, env, inv, x, t, 0);
      match Trials(a, env, x, t, 0)
      case Err(_) =>
      case Ok(y) => RunPreserves(a, env, inv, y, t + 1, bound);
    }
  }

  /** The default perturbation never leaves the state list. */
  lemma DefaultMoveStaysInStates<T(!new)>(states: seq<T>)
    ensures Preserves((x: T, k: nat) => DefaultMove(states, x), (x: T) => x in states)
  {
  }

  /** An engine using the default perturbation and started without a start state ends, if
      it ends without an exception, in a member of its state list. */
  lemma DefaultRunStaysInStates<T(!new)>(a: Annealer<T>, env: Env, bound: nat)
    requires a.schedule(bound) < a.tEnd
    requires forall x: T, k: nat :: a.perturb(x, k) == DefaultMove(a.states, x)
    ensures Execution(a, env, None, bound).Ok? ==> Execution(a, env, None, bound).value in a.states
  {
    var inv := (x: T) => x in a.states;
    assert Preserves(a.perturb, inv) by {
      forall x: T, k: nat | inv(x) && a.perturb(x, k).Ok?
        ensures inv(a.perturb(x, k).value.current) && inv(a.perturb(x, k).value.next)
      {
        assert a.perturb(x, k) == DefaultMove(a.states, x);
      }
    }
    if |a.states| > 0 {
      RunPreserves(a, env, inv, a.states[0], 0, bound);
    }
  }

  /** The conditions under which a run inside `inv` cannot raise: the perturbation keeps
      `inv` and never fails on it, the energy is defined on it, the progress hook passes on it,
      and no trial divides by a zero temperature: either the floor is positive, so no
      temperature the loop uses is zero, or every move compares a state with itself, so the
      division is never reached. */
  ghost predicate CompletesWithin<T(!new)>(a: Annealer<T>, inv: T -> bool)
  {
    Preserves(a.perturb, inv)
    && (a.tEnd > 0.0 || forall x, k :: inv(x) && a.perturb(x, k).Ok? ==> a.perturb(x, k).value.current == a.perturb(x, k).value.next)
    && (forall x, k :: inv(x) ==> a.perturb(x, k).Ok?)
    && (forall x :: inv(x) ==> a.energy(x).Ok?)
    && (forall x, t :: inv(x) ==> a.iterLog(x, t) == Pass)
  }

  lemma TrialSucceeds<T(!new)>(a: Annealer<T>, env: Env, inv: T -> bool, x: T, t: nat, k: nat)
    requires CompletesWithin(a, inv) && inv(x) && a.schedule(t) >= a.tEnd
    ensures Trial(a, env, x, t, k).Ok? && inv(Trial(a, env, x, t, k).value)
  {
    var m := a.perturb(x, k).value;
    assert inv(m.current) && inv(m.next);
    assert a.energy(m.current).Ok? && a.energy(m.next).Ok?;
    if a.tEnd <= 0.0 {
      assert m.current == m.next;
    }
  }

  lemma {:induction false} TrialsSucceed<T(!new)>(a: Annealer<T>, env: Env, inv: T -> bool, x: T, t: nat, i: nat)
    requires CompletesWithin(a, inv) && inv(x) && a.schedule(t) >= a.tEnd
    ensures Trials(a, env, x, t, i).Ok? && inv(Trials(a, env, x, t, i).value)
    decreases TrialCount(a.nPer) - i
  {
    if i < TrialCount(a.nPer) {
      var k := t * TrialCount(a.nPer) + i;
      TrialSucceeds(a, env, inv, x, t, k);
      TrialsSucceed(a, env, inv, Trial(a, env, x, t, k).value, t, i + 1);
    }
  }

  /** Under those conditions the run from a state in `inv` completes, in a state in `inv`. */
  lemma {:induction false} RunSucceeds<T(!new)>(a: Annealer<T>, env: Env, inv: T -> bool, x: T, t: nat, bound: nat)
    requires t <= bound && a.schedule(bound) < a.tEnd
    requires CompletesWithin(a, inv) && inv(x)
    ensures Run(a, env, x, t, bound).Ok? && inv(Run(a, env, x, t, bound).value)
    decreases bound - t
  {
    if a.schedule(t) >= a.tEnd {
      assert a.iterLog(x, t) == Pass;
      TrialsSucceed(a, env, inv, x, t, 0);
      RunSucceeds(a, env, inv, Trials(a, env, x, t, 0).value, t + 1, bound);
    }
  }
}
