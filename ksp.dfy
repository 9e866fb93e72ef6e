/** The knapsack adapter of src/ksp_sa.py: a state is a selection vector `x` over the items
    (value, weight); a selection within capacity scores minus its total value, one over
    capacity scores 0. */
module Ksp {
  import opened Results
  import opened Annealing
  import opened BitVectors

  /** An item as `(value, weight)`. */
  type Item = (int, int)

  /** Sum of `x[i] * value` over the first `m` items. */
  function TotalValue(items: seq<Item>, x: seq<int>, m: nat): int
    requires m <= |x| && m <= |items|
  {
    if m == 0 then 0 else TotalValue(items, x, m - 1) + x[m - 1] * items[m - 1].0
  }

  /** Sum of `x[i] * weight` over the first `m` items. */
  function TotalWeight(items: seq<Item>, x: seq<int>, m: nat): int
    requires m <= |x| && m <= |items|
  {
    if m == 0 then 0 else TotalWeight(items, x, m - 1) + x[m - 1] * items[m - 1].1
  }

  /** The energy function of `items2dataset`. Every entry of `x` indexes `items`, so a longer
      `x` raises IndexError. */
  function KnapsackEnergy(items: seq<Item>, c: int, x: seq<int>): Result<int>
  {
    if |items| < |x| then Err(IndexError)
    else if TotalWeight(items, x, |x|) > c then Ok(0)
    else Ok(-TotalValue(items, x, |x|))
  }

  /** The energy function's accumulation loop. */
  method Energy(items: seq<Item>, c: int, x: seq<int>) returns (r: Result<int>)
    ensures r == KnapsackEnergy(items, c, x)
  {
    var cSum, pSum := 0, 0;
    for i := 0 to |x|
      invariant i <= |items|
      invariant pSum == TotalValue(items, x, i) && cSum == TotalWeight(items, x, i)
    {
      if i >= |items| {
        return Err(IndexError);
      }
      pSum := pSum + x[i] * items[i].0;
      cSum := cSum + x[i] * items[i].1;
    }
    if cSum > c {
      return Ok(0);
    }
    return Ok(-pSum);
  }

  lemma {:induction false} TotalValueNonNegative(items: seq<Item>, x: seq<int>, m: nat)
    requires m <= |x| && m <= |items|
    requires forall i :: 0 <= i < m ==> x[i] >= 0 && items[i].0 >= 0
    ensures TotalValue(items, x, m) >= 0
  {
    if m > 0 {
      TotalValueNonNegative(items, x, m - 1);
    }
  }

  /** With non-negative values and counts the energy is never positive, and a negative energy
      belongs to a selection within capacity whose value it negates. */
  lemma EnergySign(items: seq<Item>, c: int, x: seq<int>)
    requires forall i :: 0 <= i < |x| ==> x[i] >= 0
    requires forall i :: 0 <= i < |items| ==> items[i].0 >= 0
    ensures KnapsackEnergy(items, c, x).Ok? ==> KnapsackEnergy(items, c, x).value <= 0
    ensures KnapsackEnergy(items, c, x).Ok? && KnapsackEnergy(items, c, x).value < 0 ==>
              TotalWeight(items, x, |x|) <= c && TotalValue(items, x, |x|) == -KnapsackEnergy(items, c, x).value
  {
    if |x| <= |items| {
      TotalValueNonNegative(items, x, |x|);
    }
  }

  /** The energy is defined exactly when `x` is no longer than the item list. */
  lemma EnergyDefined(items: seq<Item>, c: int, x: seq<int>)
    ensures KnapsackEnergy(items, c, x).Ok? <==> |x| <= |items|
    ensures KnapsackEnergy(items, c, x).Err? ==> KnapsackEnergy(items, c, x).error == IndexError
  {
  }

  lemma {:induction false} ZeroTotals(items: seq<Item>, n: nat, m: nat)
    requires m <= n && m <= |items|
    ensures TotalValue(items, Zeros(n), m) == 0 && TotalWeight(items, Zeros(n), m) == 0
  {
    if m > 0 {
      ZeroTotals(items, n, m - 1);
    }
  }

  /** The start state (nothing selected) scores 0 whatever the capacity. */
  lemma EmptySelectionScoresZero(items: seq<Item>, c: int)
    ensures KnapsackEnergy(items, c, Zeros(|items|)) == Ok(0)
  {
    ZeroTotals(items, |items|, |items|);
  }

  lemma {:induction false} FlipTotals(items: seq<Item>, x: seq<int>, i: nat, m: nat)
    requires i < |x| && |x| <= |items| && m <= |x| && (x[i] == 0 || x[i] == 1)
    ensures var d := if i < m then (if x[i] == 0 then 1 else -1) else 0;
            TotalValue(items, Flip(x, i), m) == TotalValue(items, x, m) + d * items[i].0 &&
            TotalWeight(items, Flip(x, i), m) == TotalWeight(items, x, m) + d * items[i].1
  {
    if m > 0 {
      FlipTotals(items, x, i, m - 1);
    }
  }

  /** Flipping entry `i` of a 0/1 selection adds item `i` to it or removes it: its value and
      weight enter or leave both totals. */
  lemma FlipAdjustsTotals(items: seq<Item>, x: seq<int>, i: nat)
    requires i < |x| && |x| <= |items| && (x[i] == 0 || x[i] == 1)
    ensures x[i] == 0 ==> TotalValue(items, Flip(x, i), |x|) == TotalValue(items, x, |x|) + items[i].0
    ensures x[i] == 0 ==> TotalWeight(items, Flip(x, i), |x|) == TotalWeight(items, x, |x|) + items[i].1
    ensures x[i] == 1 ==> TotalValue(items, Flip(x, i), |x|) == TotalValue(items, x, |x|) - items[i].0
    ensures x[i] == 1 ==> TotalWeight(items, Flip(x, i), |x|) == TotalWeight(items, x, |x|) - items[i].1
  {
    FlipTotals(items, x, i, |x|);
  }

  /** A three-item instance with capacity 50: the two heavier items fit and score -220, all
      three exceed the capacity and score 0, the two lighter ones score -160. */
  lemma SampleInstance()
    ensures KnapsackEnergy([(60, 10), (100, 20), (120, 30)], 50, [0, 1, 1]) == Ok(-220)
    ensures KnapsackEnergy([(60, 10), (100, 20), (120, 30)], 50, [1, 1, 1]) == Ok(0)
    ensures KnapsackEnergy([(60, 10), (100, 20), (120, 30)], 50, [1, 1, 0]) == Ok(-160)
  {
    var items: seq<Item> := [(60, 10), (100, 20), (120, 30)];
    var x1, x2, x3 := [0, 1, 1], [1, 1, 1], [1, 1, 0];
    assert TotalValue(items, x1, 1) == 0 && TotalWeight(items, x1, 1) == 0;
    assert TotalValue(items, x1, 2) == 100 && TotalWeight(items, x1, 2) == 20;
    assert TotalValue(items, x1, 3) == 220 && TotalWeight(items, x1, 3) == 50;
    assert TotalWeight(items, x2, 1) == 10;
    assert TotalWeight(items, x2, 2) == 30;
    assert TotalWeight(items, x2, 3) == 60;
    assert TotalValue(items, x3, 1) == 60 && TotalWeight(items, x3, 1) == 10;
    assert TotalValue(items, x3, 2) == 160 && TotalWeight(items, x3, 2) == 30;
    assert TotalValue(items, x3, 3) == 160 && TotalWeight(items, x3, 3) == 30;
  }

  // ----- The adapter object -----

  /** What a call of the hook `iter_log(x, t)` yields: it fails exactly when the energy of `x`
      raises. */
  function LogOutcome(items: seq<Item>, c: int, x: seq<int>): (o: Outcome)
    ensures o.Pass? <==> |x| <= |items|
    ensures o.Fail? ==> o.error == IndexError
  {
    EnergyDefined(items, c, x);
    match KnapsackEnergy(items, c, x)
    case Err(e) => Fail(e)
    case Ok(_) => Pass
  }

  /** The engine configuration `KSP_SA` hands to `SimulatedAnnealing.__init__`, with `picks`
      standing for the positions `randint` draws, and with the progress hook called as
      `iter_log(x, t)`, as its override expects. */
  function KnapsackEngine(schedule: nat -> real, items: seq<Item>, c: int, picks: nat -> nat,
                          nPer: int, tEnd: real): (a: Annealer<seq<int>>)
    ensures a.schedule == schedule && a.states == [Zeros(|items|)] && a.nPer == nPer && a.tEnd == tEnd
    ensures forall x: seq<int> :: a.energy(x) == AsReal(KnapsackEnergy(items, c, x))
    ensures forall x: seq<int>, k: nat :: a.perturb(x, k) == FlipMove(picks, x, k)
    ensures forall x: seq<int>, t: nat :: a.iterLog(x, t).Pass? <==> a.energy(x).Ok?
  {
    Annealer(schedule, [Zeros(|items|)], (x: seq<int>) => AsReal(KnapsackEnergy(items, c, x)),
             (x: seq<int>, k: nat) => FlipMove(picks, x, k), (x: seq<int>, t: nat) => LogOutcome(items, c, x),
             nPer, tEnd)
  }

  /** The same engine with the hook called as the base loop calls it, `iter_log(x)`: the
      override's required parameter `t` is missing, so every call raises TypeError. */
  function AsWrittenKnapsackEngine(schedule: nat -> real, items: seq<Item>, c: int, picks: nat -> nat,
                                   nPer: int, tEnd: real): (a: Annealer<seq<int>>)
    ensures var d := KnapsackEngine(schedule, items, c, picks, nPer, tEnd);
            a.schedule == d.schedule && a.states == d.states && a.energy == d.energy && a.perturb == d.perturb
            && a.nPer == d.nPer && a.tEnd == d.tEnd
    ensures forall x: seq<int>, t: nat :: a.iterLog(x, t) == Fail(TypeError)
  {
    KnapsackEngine(schedule, items, c, picks, nPer, tEnd).(iterLog := (x: seq<int>, t: nat) => Fail(TypeError))
  }

  /** As written, `exec()` of a knapsack annealer raises TypeError as soon as the first
      temperature is at or above the floor, whatever the items and the capacity. */
  lemma AsWrittenExecRaisesTypeError(schedule: nat -> real, items: seq<Item>, c: int, picks: nat -> nat,
                                     nPer: int, tEnd: real, env: Env, bound: nat)
    requires schedule(bound) < tEnd <= schedule(0)
    ensures Execution(AsWrittenKnapsackEngine(schedule, items, c, picks, nPer, tEnd), env, None, bound) == Err(TypeError)
  {
  }

  /** Started from its only listed state, the knapsack run stays among 0/1 selections with one
      entry per item, so its energy is always defined. */
  lemma KnapsackRunYieldsSelection(schedule: nat -> real, items: seq<Item>, c: int, picks: nat -> nat,
                                   nPer: int, tEnd: real, env: Env, bound: nat)
    requires schedule(bound) < tEnd
    ensures var r := Execution(KnapsackEngine(schedule, items, c, picks, nPer, tEnd), env, None, bound);
            r.Ok? ==> |r.value| == |items| && IsBits(r.value) && KnapsackEnergy(items, c, r.value).Ok?
  {
    var a := KnapsackEngine(schedule, items, c, picks, nPer, tEnd);
    var inv := (x: seq<int>) => |x| == |items| && IsBits(x);
    FlipMoveKeepsBits(picks, |items|);
    assert a.perturb == (x: seq<int>, k: nat) => FlipMove(picks, x, k);
    RunPreserves(a, env, inv, Zeros(|items|), 0, bound);
  }

  /** With the hook called as its override expects, at least one item and a positive floor,
      the knapsack run cannot raise: it completes, in a 0/1 selection. */
  lemma KnapsackRunCompletes(schedule: nat -> real, items: seq<Item>, c: int, picks: nat -> nat,
                             nPer: int, tEnd: real, env: Env, bound: nat)
    requires |items| > 0 && tEnd > 0.0 && schedule(bound) < tEnd
    ensures var r := Execution(KnapsackEngine(schedule, items, c, picks, nPer, tEnd), env, None, bound);
            r.Ok? && |r.value| == |items| && IsBits(r.value)
  {
    var a := KnapsackEngine(schedule, items, c, picks, nPer, tEnd);
    var inv := (x: seq<int>) => |x| == |items| && IsBits(x);
    FlipMoveKeepsBits(picks, |items|);
    assert a.perturb == (x: seq<int>, k: nat) => FlipMove(picks, x, k);
    RunSucceeds(a, env, inv, Zeros(|items|), 0, bound);
  }

  /** An over-capacity selection scores the same 0 as a selection of total value 0, so a flip
      into it from such a state is accepted whatever the temperature and the draw: the run can
      end on a selection that exceeds the capacity. */
  lemma OverweightMoveAccepted(schedule: nat -> real, items: seq<Item>, c: int, picks: nat -> nat, nPer: int,
                               tEnd: real, exp: real -> real, x: seq<int>, i: nat, t: nat, draw: real)
    requires i < |x| && |x| <= |items| && (x[i] == 0 || x[i] == 1)
    requires KnapsackEnergy(items, c, x) == Ok(0)
    requires TotalWeight(items, Flip(x, i), |x|) > c
    ensures KnapsackEnergy(items, c, Flip(x, i)) == Ok(0)
    ensures IsAcceptable(KnapsackEngine(schedule, items, c, picks, nPer, tEnd), exp, x, Flip(x, i), t, draw) == Ok(true)
  {
    FlipChangesExactlyOne(x, i);
  }

  /** A whole run that ends over the capacity, with the hook called as `iter_log(x, t)` (the
      corrected call; as written the same run raises TypeError, `AsWrittenExecRaisesTypeError`):
      one item of value 7 and weight 100, capacity 50, one trial per step, one step at
      temperature 10 above the floor 1. The only flip from the empty selection overfills the
      knapsack, scores 0 like the start, and is kept. */
  lemma OverweightRunWitness(picks: nat -> nat, env: Env)
    ensures var schedule := (t: nat) => if t == 0 then 10.0 else 0.0;
            Execution(KnapsackEngine(schedule, [(7, 100)], 50, picks, 1, 1.0), env, None, 1) == Ok([1])
    ensures TotalWeight([(7, 100)], [1], 1) > 50
  {
    var schedule := (t: nat) => if t == 0 then 10.0 else 0.0;
    var items: seq<Item> := [(7, 100)];
    var a := KnapsackEngine(schedule, items, 50, picks, 1, 1.0);
    var x0 := Zeros(1);
    assert x0 == [0];
    assert Flip(x0, picks(0) % 1) == [1];
    assert TotalWeight(items, [0], 1) == 0 && TotalValue(items, [0], 1) == 0;
    assert TotalWeight(items, [1], 1) == 100;
    assert KnapsackEnergy(items, 50, [0]) == Ok(0);
    assert KnapsackEnergy(items, 50, [1]) == Ok(0);
    assert Trial(a, env, x0, 0, 0) == Ok([1]);
    assert Trials(a, env, [1], 0, 1) == Ok([1]);
    assert Trials(a, env, x0, 0, 0) == Ok([1]);
    assert Run(a, env, [1], 1, 1) == Ok([1]);
    assert Run(a, env, x0, 0, 1) == Ok([1]);
  }

  /** `KSP_SA`: the engine's configuration plus the list of energies `iter_log` records. The
      items and the capacity are what the energy function closes over. */
  class KnapsackAnnealer {
    const schedule: nat -> real
    const items: seq<Item>
    const c: int
    const states: seq<seq<int>>
    const nPer: int
    const tEnd: real
    var resultValues: seq<int>

    constructor (schedule: nat -> real, items: seq<Item>, c: int, nPer: int, tEnd: real)
      ensures this.schedule == schedule && this.items == items && this.c == c
      ensures this.nPer == nPer && this.tEnd == tEnd
      ensures states == [Zeros(|items|)] && resultValues == []
    {
      this.schedule := schedule;
      this.items := items;
      this.c := c;
      this.states := [Zeros(|items|)];
      this.nPer := nPer;
      this.tEnd := tEnd;
      resultValues := [];
    }

    /** The engine this object configures; `IterLog` is its hook. */
    function Engine(picks: nat -> nat): Annealer<seq<int>>
    {
      KnapsackEngine(schedule, items, c, picks, nPer, tEnd)
    }

    /** `iter_log(x, t)`: appends the energy of `x`; an energy that raises leaves the log as
        it was. The log message for `t` is not modelled. */
    method IterLog(x: seq<int>, t: nat) returns (o: Outcome)
      modifies this
      ensures forall picks: nat -> nat :: o == Engine(picks).iterLog(x, t)
      ensures o == LogOutcome(items, c, x)
      ensures KnapsackEnergy(items, c, x).Ok? ==>
                resultValues == old(resultValues) + [KnapsackEnergy(items, c, x).value]
      ensures KnapsackEnergy(items, c, x).Err? ==> resultValues == old(resultValues)
    {
      var distance := Energy(items, c, x);
      match distance
      case Err(e) =>
        return Fail(e);
      case Ok(d) =>
        resultValues := resultValues + [d];
        return Pass;
    }
  }
}
