/** The route adapter of src/tsp_sa.py: tours are permutations of the node indices, the
    energy is the length of the closed tour, and a perturbation swaps two distinct positions
    inside the caller's own list.

    `math.sqrt` is a function parameter; what is proved about distances concerns the
    squared distance, which is exact integer arithmetic. */
module Tsp {
  import opened Results
  import opened Annealing
  import opened Arithmetic

  /** A node: its two coordinates (only the first two entries of a node are read). */
  type Node = (int, int)

  // ---------------------------------------------------------------------------------------
  // Distances

  /** The quantity under the square root in `seek_distance_nodes`. */
  function SquaredDistance(a: Node, b: Node): int
  {
    (a.0 - b.0) * (a.0 - b.0) + (a.1 - b.1) * (a.1 - b.1)
  }

  /** The squared distance is non-negative, symmetric, and zero exactly for coinciding
      nodes. */
  lemma SquaredDistanceProperties(a: Node, b: Node)
    ensures SquaredDistance(a, b) >= 0
    ensures SquaredDistance(a, b) == SquaredDistance(b, a)
    ensures SquaredDistance(a, b) == 0 <==> a == b
  {
    var dx, dy := a.0 - b.0, a.1 - b.1;
    assert dx * dx >= 0 && dy * dy >= 0;
    assert (b.0 - a.0) * (b.0 - a.0) == dx * dx && (b.1 - a.1) * (b.1 - a.1) == dy * dy;
    assert dx * dx == 0 <==> dx == 0;
    assert dy * dy == 0 <==> dy == 0;
  }

  function Distance(sqrt: real -> real, a: Node, b: Node): real
  {
    sqrt(SquaredDistance(a, b) as real)
  }

  // ---------------------------------------------------------------------------------------
  // Tours and their energy

  /** `v` can index a list of length `n` (Python also accepts `-n <= v < 0`). */
  predicate IsIndex(n: nat, v: int)
  {
    -(n as int) <= v < n
  }

  /** The position a Python index denotes. */
  function Resolve(n: nat, v: int): (i: nat)
    requires IsIndex(n, v)
    ensures i < n
  {
    if v < 0 then n + v else v
  }

  /** Every entry of `x` at or before position `m` indexes `nodes`. */
  predicate ValidUpTo(nodes: seq<Node>, x: seq<int>, m: nat)
  {
    forall j :: 0 <= j < |x| && j <= m ==> IsIndex(|nodes|, x[j])
  }

  predicate ValidTour(nodes: seq<Node>, x: seq<int>)
  {
    forall j :: 0 <= j < |x| ==> IsIndex(|nodes|, x[j])
  }

  /** The position after `i` on a cycle of `n` positions, `(i + 1) % n`. */
  function Successor(i: nat, n: nat): (j: nat)
    requires i < n
    ensures j < n && j == (i + 1) % n
  {
    if i + 1 < n then i + 1 else 0
  }

  /** The `i`-th leg of the tour: from `x[i]` to the entry after it, so the last leg closes
      the cycle. */
  function Leg(nodes: seq<Node>, sqrt: real -> real, x: seq<int>, i: nat): real
    requires i < |x| && ValidUpTo(nodes, x, i + 1)
  {
    Distance(sqrt, nodes[Resolve(|nodes|, x[i])], nodes[Resolve(|nodes|, x[Successor(i, |x|)])])
  }

  /** The sum of the first `m` legs. */
  function PathCost(nodes: seq<Node>, sqrt: real -> real, x: seq<int>, m: nat): real
    requires m <= |x| && (m == 0 || ValidUpTo(nodes, x, m))
  {
    if m == 0 then 0.0 else PathCost(nodes, sqrt, x, m - 1) + Leg(nodes, sqrt, x, m - 1)
  }

  /** The energy of `nodes2dataset`: the length of the closed tour, or IndexError for an
      entry that does not index `nodes`. */
  function TourEnergy(nodes: seq<Node>, sqrt: real -> real, x: seq<int>): Result<real>
  {
    if ValidTour(nodes, x) then Ok(PathCost(nodes, sqrt, x, |x|)) else Err(IndexError)
  }

  /** The energy loop: one leg per position, the last one back to the start. */
  method Energy(nodes: seq<Node>, sqrt: real -> real, x: seq<int>) returns (r: Result<real>)
    ensures r == TourEnergy(nodes, sqrt, x)
  {
    var n := |x|;
    var result := 0.0;
    for i := 0 to n
      invariant i == 0 || ValidUpTo(nodes, x, i)
      invariant result == PathCost(nodes, sqrt, x, i)
    {
      var next := (i + 1) % n;
      if !IsIndex(|nodes|, x[i]) || !IsIndex(|nodes|, x[next]) {
        return Err(IndexError);
      }
      assert next == Successor(i, n);
      result := result + Distance(sqrt, nodes[Resolve(|nodes|, x[i])], nodes[Resolve(|nodes|, x[next])]);
    }
    return Ok(result);
  }

  /** With a square root that is non-negative on non-negative arguments, every leg and so
      every tour has a non-negative length. */
  lemma {:induction false} PathCostNonNegative(nodes: seq<Node>, sqrt: real -> real, x: seq<int>, m: nat)
    requires forall v :: v >= 0.0 ==> sqrt(v) >= 0.0
    requires m <= |x| && (m == 0 || ValidUpTo(nodes, x, m))
    ensures PathCost(nodes, sqrt, x, m) >= 0.0
  {
    if m > 0 {
      PathCostNonNegative(nodes, sqrt, x, m - 1);
      var i := m - 1;
      SquaredDistanceProperties(nodes[Resolve(|nodes|, x[i])], nodes[Resolve(|nodes|, x[Successor(i, |x|)])]);
    }
  }

  lemma TourEnergyNonNegative(nodes: seq<Node>, sqrt: real -> real, x: seq<int>)
    requires forall v :: v >= 0.0 ==> sqrt(v) >= 0.0
    ensures TourEnergy(nodes, sqrt, x).Ok? ==> TourEnergy(nodes, sqrt, x).value >= 0.0
  {
    if ValidTour(nodes, x) {
      PathCostNonNegative(nodes, sqrt, x, |x|);
    }
  }

  /** The tour started one city later: the same cycle. */
  function Rotate(x: seq<int>): seq<int>
    requires |x| > 0
  {
    x[1..] + [x[0]]
  }

  lemma {:induction false} RotatedPathCost(nodes: seq<Node>, sqrt: real -> real, x: seq<int>, m: nat)
    requires ValidTour(nodes, x) && 0 < |x| && m < |x|
    ensures ValidTour(nodes, Rotate(x))
    ensures PathCost(nodes, sqrt, Rotate(x), m) == PathCost(nodes, sqrt, x, m + 1) - Leg(nodes, sqrt, x, 0)
  {
    var y, n := Rotate(x), |x|;
    assert forall j :: 0 <= j < n ==> y[j] == x[Successor(j, n)];
    if m > 0 {
      RotatedPathCost(nodes, sqrt, x, m - 1);
      var i := m - 1;
      assert y[i] == x[i + 1];
      assert y[Successor(i, n)] == x[Successor(i + 1, n)];
      assert Leg(nodes, sqrt, y, i) == Leg(nodes, sqrt, x, i + 1);
    }
  }

  /** A closed tour has the same length whichever city it is started from. */
  lemma TourEnergyRotationInvariant(nodes: seq<Node>, sqrt: real -> real, x: seq<int>)
    requires |x| > 0
    ensures TourEnergy(nodes, sqrt, Rotate(x)) == TourEnergy(nodes, sqrt, x)
  {
    var y, n := Rotate(x), |x|;
    if ValidTour(nodes, x) {
      RotatedPathCost(nodes, sqrt, x, n - 1);
      assert y[n - 1] == x[0] && y[Successor(n - 1, n)] == x[Successor(0, n)];
      assert Leg(nodes, sqrt, y, n - 1) == Leg(nodes, sqrt, x, 0);
    } else {
      var j :| 0 <= j < n && !IsIndex(|nodes|, x[j]);
      var j' := if j == 0 then n - 1 else j - 1;
      assert y[j'] == x[j];
    }
  }

  // ---------------------------------------------------------------------------------------
  // The state space

  /** `x` is a permutation of `0 .. n - 1`. */
  predicate IsPermutation(x: seq<int>, n: nat)
  {
    |x| == n
    && (forall i :: 0 <= i < n ==> 0 <= x[i] < n)
    && (forall i, j :: 0 <= i < j < n ==> x[i] != x[j])
  }

  /** The first permutation `itertools.permutations` yields: the identity. */
  function Identity(n: nat): seq<int>
  {
    seq(n, i => i)
  }

  lemma IdentityIsPermutation(n: nat)
    ensures IsPermutation(Identity(n), n)
  {
  }

  /** The state list of `nodes2dataset` for `n` nodes, described rather than enumerated: it
      starts with the identity and holds only permutations of `0 .. n - 1`. */
  predicate IsTourSet(states: seq<seq<int>>, n: nat)
  {
    |states| > 0 && states[0] == Identity(n) && forall s :: s in states ==> IsPermutation(s, n)
  }

  /** A permutation of the node indices always has an energy. */
  lemma PermutationIsValidTour(nodes: seq<Node>, x: seq<int>)
    requires IsPermutation(x, |nodes|)
    ensures ValidTour(nodes, x)
  {
  }

  // ---------------------------------------------------------------------------------------
  // Perturbation

  /** `x` with the entries at `i` and `j` exchanged. */
  function Swap(x: seq<int>, i: nat, j: nat): seq<int>
    requires i < |x| && j < |x|
  {
    x[i := x[j]][j := x[i]]
  }

  /** The swap keeps the length and the multiset of entries, exchanges the two entries and
      leaves every other position alone. */
  lemma SwapProperties(x: seq<int>, i: nat, j: nat)
    requires i < |x| && j < |x| && i != j
    ensures |Swap(x, i, j)| == |x|
    ensures Swap(x, i, j)[i] == x[j] && Swap(x, i, j)[j] == x[i]
    ensures forall m :: 0 <= m < |x| && m != i && m != j ==> Swap(x, i, j)[m] == x[m]
    ensures multiset(Swap(x, i, j)) == multiset(x)
  {
    var y := x[i := x[j]];
    assert multiset(y) == multiset(x) - multiset{x[i]} + multiset{x[j]};
    assert multiset(y[j := x[i]]) == multiset(y) - multiset{y[j]} + multiset{x[i]};
  }

  /** Swapping two positions of a permutation gives a permutation. */
  lemma SwapKeepsPermutation(x: seq<int>, n: nat, i: nat, j: nat)
    requires IsPermutation(x, n) && i < n && j < n && i != j
    ensures IsPermutation(Swap(x, i, j), n)
  {
    SwapProperties(x, i, j);
    var y := Swap(x, i, j);
    forall p, q | 0 <= p < q < n ensures y[p] != y[q] {
      var p' := if p == i then j else if p == j then i else p;
      var q' := if q == i then j else if q == j then i else q;
      assert y[p] == x[p'] && y[q] == x[q'] && p' != q';
      if p' < q' { assert x[p'] != x[q']; } else { assert x[q'] != x[p']; }
    }
  }

  /** The two distinct positions `random.sample(range(n), 2)` picks, read from two random
      numbers `a` and `b`. */
  function SampleTwo(n: nat, a: nat, b: nat): (p: (nat, nat))
    requires n >= 2
    ensures p.0 < n && p.1 < n && p.0 != p.1
  {
    var i := a % n;
    var s := i + 1 + b % (n - 1);
    (i, if s < n then s else s - n)
  }

  /** Every ordered pair of distinct positions is one SampleTwo can pick, so reading the
      choice from two numbers loses none of the behaviours of `random.sample`. */
  lemma SampleTwoCoversAllPairs(n: nat, i: nat, j: nat)
    requires n >= 2 && i < n && j < n && i != j
    ensures SampleTwo(n, i, if j > i then j - i - 1 else j + n - i - 1) == (i, j)
  {
    var b := if j > i then j - i - 1 else j + n - i - 1;
    ModUnique(i, n, 0, i);
    ModUnique(b, n - 1, 0, b);
  }

  /** `_generate_perturbation`: picks two distinct positions, swaps them inside `x` itself
      and returns that same array. Fewer than two positions make the sample fail. */
  method Perturb(x: array<int>, a: nat, b: nat) returns (r: Result<array<int>>)
    modifies x
    ensures r.Ok? <==> x.Length >= 2
    ensures r.Err? ==> r.error == ValueError && x[..] == old(x[..])
    ensures r.Ok? ==> r.value == x
    ensures r.Ok? ==> x[..] == Swap(old(x[..]), SampleTwo(x.Length, a, b).0, SampleTwo(x.Length, a, b).1)
  {
    if x.Length < 2 {
      return Err(ValueError);
    }
    var p := SampleTwo(x.Length, a, b);
    var x1, x2 := p.0, p.1;
    x[x1], x[x2] := x[x2], x[x1];
    return Ok(x);
  }

  // ---------------------------------------------------------------------------------------
  // The adapter plugged into the engine

  /** The perturbation as the engine sees it: the list is swapped in place and returned, so
      the caller's state and the candidate are the same swapped tour. `picks(k)` holds the
      random numbers of trial `k`. */
  function TourMove(picks: nat -> (nat, nat), x: seq<int>, k: nat): (r: Result<Move<seq<int>>>)
    ensures r.Ok? <==> |x| >= 2
    ensures r.Err? ==> r.error == ValueError
    ensures r.Ok? ==> r.value.current == r.value.next
    ensures r.Ok? ==> |r.value.next| == |x| && multiset(r.value.next) == multiset(x)
  {
    if |x| < 2 then Err(ValueError)
    else
      var p := SampleTwo(|x|, picks(k).0, picks(k).1);
      var y := Swap(x, p.0, p.1);
      SwapProperties(x, p.0, p.1);
      Ok(Move(y, y))
  }

  /** A TSP_SA object: the engine over the tour energy and the in-place swap. TSP_SA keeps
      the base `iter_log`, which does nothing. */
  function TourAnnealer(schedule: nat -> real, nodes: seq<Node>, sqrt: real -> real, states: seq<seq<int>>,
                        picks: nat -> (nat, nat), nPer: int, tEnd: real): (a: Annealer<seq<int>>)
    ensures a.schedule == schedule && a.states == states && a.nPer == nPer && a.tEnd == tEnd
    ensures forall x: seq<int> :: a.energy(x) == TourEnergy(nodes, sqrt, x)
    ensures forall x: seq<int>, k: nat :: a.perturb(x, k) == TourMove(picks, x, k)
    ensures forall x: seq<int>, t: nat :: a.iterLog(x, t) == Pass
  {
    Annealer(schedule, states, (x: seq<int>) => TourEnergy(nodes, sqrt, x),
             (x: seq<int>, k: nat) => TourMove(picks, x, k), (x: seq<int>, t: nat) => Pass, nPer, tEnd)
  }

  /** Because the perturbation hands back the caller's own list, the acceptance rule compares
      the swapped tour with itself and always accepts: every trial performs its swap. */
  lemma TourTrialAlwaysSwaps(schedule: nat -> real, nodes: seq<Node>, sqrt: real -> real, states: seq<seq<int>>,
                             picks: nat -> (nat, nat), nPer: int, tEnd: real, env: Env, x: seq<int>, t: nat, k: nat)
    requires IsPermutation(x, |nodes|) && |x| >= 2
    ensures Trial(TourAnnealer(schedule, nodes, sqrt, states, picks, nPer, tEnd), env, x, t, k)
         == Ok(Swap(x, SampleTwo(|x|, picks(k).0, picks(k).1).0, SampleTwo(|x|, picks(k).0, picks(k).1).1))
  {
    var a := TourAnnealer(schedule, nodes, sqrt, states, picks, nPer, tEnd);
    var p := SampleTwo(|x|, picks(k).0, picks(k).1);
    var y := Swap(x, p.0, p.1);
    SwapKeepsPermutation(x, |x|, p.0, p.1);
    PermutationIsValidTour(nodes, y);
    SameStateAccepted(a, env.exp, y, t, env.draws(k));
  }

  lemma TourMoveKeepsPermutations(picks: nat -> (nat, nat), n: nat)
    ensures Preserves((x: seq<int>, k: nat) => TourMove(picks, x, k), (x: seq<int>) => IsPermutation(x, n))
  {
    forall x: seq<int>, k: nat | IsPermutation(x, n) && TourMove(picks, x, k).Ok?
      ensures IsPermutation(TourMove(picks, x, k).value.next, n)
    {
      var p := SampleTwo(|x|, picks(k).0, picks(k).1);
      SwapKeepsPermutation(x, n, p.0, p.1);
    }
  }

  /** A run started from the default state (the identity) ends, unless an exception is
      raised, in a permutation of the node indices. */
  lemma TourRunYieldsPermutation(schedule: nat -> real, nodes: seq<Node>, sqrt: real -> real, states: seq<seq<int>>,
                                 picks: nat -> (nat, nat), nPer: int, tEnd: real, env: Env, bound: nat)
    requires IsTourSet(states, |nodes|) && schedule(bound) < tEnd
    ensures Execution(TourAnnealer(schedule, nodes, sqrt, states, picks, nPer, tEnd), env, None, bound).Ok? ==>
            IsPermutation(Execution(TourAnnealer(schedule, nodes, sqrt, states, picks, nPer, tEnd), env, None, bound).value, |nodes|)
  {
    var a := TourAnnealer(schedule, nodes, sqrt, states, picks, nPer, tEnd);
    var inv := (x: seq<int>) => IsPermutation(x, |nodes|);
    TourMoveKeepsPermutations(picks, |nodes|);
    assert a.perturb == (x: seq<int>, k: nat) => TourMove(picks, x, k);
    IdentityIsPermutation(|nodes|);
    RunPreserves(a, env, inv, states[0], 0, bound);
  }

  /** With at least two nodes a run from the identity cannot raise, whatever the floor: every
      trial compares the swapped tour with itself, so no temperature is ever divided by. The
      run completes, in a permutation of the node indices. */
  lemma TourRunCompletes(schedule: nat -> real, nodes: seq<Node>, sqrt: real -> real, states: seq<seq<int>>,
                         picks: nat -> (nat, nat), nPer: int, tEnd: real, env: Env, bound: nat)
    requires IsTourSet(states, |nodes|) && |nodes| >= 2 && schedule(bound) < tEnd
    ensures var r := Execution(TourAnnealer(schedule, nodes, sqrt, states, picks, nPer, tEnd), env, None, bound);
            r.Ok? && IsPermutation(r.value, |nodes|)
  {
    var a := TourAnnealer(schedule, nodes, sqrt, states, picks, nPer, tEnd);
    var inv := (x: seq<int>) => IsPermutation(x, |nodes|);
    TourMoveKeepsPermutations(picks, |nodes|);
    assert a.perturb == (x: seq<int>, k: nat) => TourMove(picks, x, k);
    forall x: seq<int> | inv(x) ensures a.energy(x).Ok? {
      PermutationIsValidTour(nodes, x);
    }
    IdentityIsPermutation(|nodes|);
    RunSucceeds(a, env, inv, states[0], 0, bound);
  }

  /** main.py's configuration (sample schedule with c = 30, n_per = 100, floor 50) runs no
      outer iteration, so `exec()` returns the identity tour unchanged; its energy, evaluated by
      the closing log line, is defined. */
  lemma MainReturnsIdentity(nodes: seq<Node>, sqrt: real -> real, states: seq<seq<int>>,
                            picks: nat -> (nat, nat), env: Env)
    requires IsTourSet(states, |nodes|)
    ensures Execution(TourAnnealer(SampleSchedule(30), nodes, sqrt, states, picks, 100, 50.0), env, None, 0)
         == Ok(Identity(|nodes|))
  {
    IdentityIsPermutation(|nodes|);
    PermutationIsValidTour(nodes, Identity(|nodes|));
    var a := TourAnnealer(SampleSchedule(30), nodes, sqrt, states, picks, 100, 50.0);
    assert a.schedule(0) == 30.0;
    NoStepReturnsStart(a, env, Identity(|nodes|), 0);
  }
}
