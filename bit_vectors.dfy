/** The 0/1 vectors of the decoding and subset adapters (src/gdp_sa.py, src/ksp_sa.py) and the
    one-bit flip both of them use as their perturbation. */
module BitVectors {
  import opened Results
  import opened Annealing

  /** The all-zero vector of length `n` (both adapters' only listed state). */
  function Zeros(n: nat): seq<int>
  {
    seq(n, _ => 0)
  }

  /** Every entry is 0 or 1. */
  predicate IsBits(x: seq<int>)
  {
    forall i :: 0 <= i < |x| ==> x[i] == 0 || x[i] == 1
  }

  /** `x` with entry `i` replaced by `(x[i] + 1) % 2`. */
  function Flip(x: seq<int>, i: nat): seq<int>
    requires i < |x|
  {
    x[i := (x[i] + 1) % 2]
  }

  /** The flip keeps the length, changes entry `i` and no other, and turns 0 into 1 and
      1 into 0. */
  lemma FlipChangesExactlyOne(x: seq<int>, i: nat)
    requires i < |x|
    ensures |Flip(x, i)| == |x|
    ensures Flip(x, i)[i] != x[i]
    ensures forall j :: 0 <= j < |x| && j != i ==> Flip(x, i)[j] == x[j]
    ensures x[i] == 0 ==> Flip(x, i)[i] == 1
    ensures x[i] == 1 ==> Flip(x, i)[i] == 0
  {
  }

  /** On a 0/1 entry the flip is its own inverse. */
  lemma FlipInvolutive(x: seq<int>, i: nat)
    requires i < |x| && (x[i] == 0 || x[i] == 1)
    ensures Flip(Flip(x, i), i) == x
  {
  }

  /** The perturbation of both adapters as the engine sees it: `random.randint(0, n - 1)`
      picks the position (read as `picks(k) % n` in trial `k`), and the vector is copied
      before the flip, so the caller's state is left alone. An empty vector makes
      `randint` fail. */
  function FlipMove(picks: nat -> nat, x: seq<int>, k: nat): (r: Result<Move<seq<int>>>)
    ensures r.Ok? <==> |x| > 0
    ensures r.Err? ==> r.error == ValueError
    ensures r.Ok? ==> r.value.current == x && |r.value.next| == |x|
    ensures r.Ok? ==> var i := picks(k) % |x|;
              r.value.next[i] != x[i] && forall j :: 0 <= j < |x| && j != i ==> r.value.next[j] == x[j]
  {
    if |x| == 0 then Err(ValueError)
    else
      FlipChangesExactlyOne(x, picks(k) % |x|);
      Ok(Move(x, Flip(x, picks(k) % |x|)))
  }

  /** `_generate_perturbation` of both adapters: `randint(0, len(x) - 1)` (here `a % n`) picks
      a position, `x[:]` copies the list and the copy has that entry flipped; the caller's
      list is never written. */
  method FlipPerturb(x: array<int>, a: nat) returns (r: Result<array<int>>)
    ensures r.Ok? <==> x.Length > 0
    ensures r.Err? ==> r.error == ValueError
    ensures r.Ok? ==> fresh(r.value) && r.value[..] == Flip(x[..], a % x.Length)
  {
    if x.Length == 0 {
      return Err(ValueError);
    }
    var idx := a % x.Length;
    var result := new int[x.Length](j reads x requires 0 <= j < x.Length => x[j]);
    result[idx] := (result[idx] + 1) % 2;
    return Ok(result);
  }

  /** The flip perturbation keeps a 0/1 vector a 0/1 vector of the same length. */
  lemma FlipMoveKeepsBits(picks: nat -> nat, n: nat)
    ensures Preserves((x: seq<int>, k: nat) => FlipMove(picks, x, k), (x: seq<int>) => |x| == n && IsBits(x))
  {
    forall x: seq<int>, k: nat | |x| == n && IsBits(x) && FlipMove(picks, x, k).Ok?
      ensures IsBits(FlipMove(picks, x, k).value.next)
    {
      FlipChangesExactlyOne(x, picks(k) % |x|);
    }
  }
}
