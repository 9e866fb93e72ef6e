/** The decoding adapter of src/gdp_sa.py: a state is a message `x` (one entry per row of the
    generator matrix `G`), its codeword is the mod-2 sum of the rows that `x` selects, and its
    energy is ten times the Hamming distance between that codeword and the received word. */
module Gdp {
  import opened Results
  import opened Arithmetic
  import opened Annealing
  import opened BitVectors

  // ----- Hamming distance (`seek_distance_codes`) -----

  /** How many of the first `m` positions hold different entries. */
  function Mismatches(c1: seq<int>, c2: seq<int>, m: nat): nat
    requires m <= |c1| && m <= |c2|
  {
    if m == 0 then 0 else Mismatches(c1, c2, m - 1) + (if c1[m - 1] != c2[m - 1] then 1 else 0)
  }

  /** The distance compares every position of `c1`; a shorter `c2` raises IndexError. */
  function Hamming(c1: seq<int>, c2: seq<int>): Result<nat>
  {
    if |c2| < |c1| then Err(IndexError) else Ok(Mismatches(c1, c2, |c1|))
  }

  /** The counting loop of `seek_distance_codes`. */
  method HammingDistance(c1: seq<int>, c2: seq<int>) returns (r: Result<nat>)
    ensures r == Hamming(c1, c2)
  {
    var result := 0;
    for i := 0 to |c1|
      invariant i <= |c2|
      invariant result == Mismatches(c1, c2, i)
    {
      if i >= |c2| {
        return Err(IndexError);
      }
      if c1[i] != c2[i] {
        result := result + 1;
      }
    }
    return Ok(result);
  }

  /** The count is at most `m`, is zero exactly when the prefixes agree, and does not depend on
      the order of the two words. */
  lemma {:induction false} MismatchesProperties(c1: seq<int>, c2: seq<int>, m: nat)
    requires m <= |c1| && m <= |c2|
    ensures Mismatches(c1, c2, m) <= m
    ensures Mismatches(c1, c2, m) == 0 <==> forall i :: 0 <= i < m ==> c1[i] == c2[i]
    ensures Mismatches(c1, c2, m) == Mismatches(c2, c1, m)
  {
    if m > 0 {
      MismatchesProperties(c1, c2, m - 1);
    }
  }

  /** The distance is defined exactly when `c2` is at least as long as `c1`; it is at most
      `|c1|`, zero exactly when `c1` is a prefix of `c2`, and symmetric on equal lengths. */
  lemma HammingProperties(c1: seq<int>, c2: seq<int>)
    ensures Hamming(c1, c2).Ok? <==> |c1| <= |c2|
    ensures Hamming(c1, c2).Err? ==> Hamming(c1, c2).error == IndexError
    ensures Hamming(c1, c2).Ok? ==> Hamming(c1, c2).value <= |c1|
    ensures Hamming(c1, c2).Ok? ==> (Hamming(c1, c2).value == 0 <==> c1 == c2[..|c1|])
    ensures |c1| == |c2| ==> Hamming(c1, c2) == Hamming(c2, c1)
  {
    if |c1| <= |c2| {
      MismatchesProperties(c1, c2, |c1|);
      if Mismatches(c1, c2, |c1|) == 0 {
        assert c1 == c2[..|c1|];
      }
    }
  }

  // ----- Encoding through the generator matrix -----

  /** Every row of `G` that the first `m` entries of `x` select exists and is at least as long
      as the first row, so the encoding loop never indexes out of range. Python evaluates
      `G[0]` first, so `G` must not be empty; when the first row is empty the inner loop never
      runs and no row is looked at. */
  predicate EncodableUpTo(G: seq<seq<int>>, x: seq<int>, m: nat)
    requires m <= |x|
  {
    |G| > 0 && forall i :: 0 <= i < m && x[i] != 0 ==> |G[0]| == 0 || (i < |G| && |G[0]| <= |G[i]|)
  }

  predicate Encodable(G: seq<seq<int>>, x: seq<int>)
  {
    EncodableUpTo(G, x, |x|)
  }

  /** Entry `j` of the code word after the first `m` message entries, as the loop computes it:
      each selected row is added mod 2. */
  function Parity(G: seq<seq<int>>, x: seq<int>, j: nat, m: nat): (b: int)
    requires m <= |x| && EncodableUpTo(G, x, m) && j < |G[0]|
    ensures b == 0 || b == 1
  {
    if m == 0 then 0
    else if x[m - 1] == 0 then Parity(G, x, j, m - 1)
    else (Parity(G, x, j, m - 1) + G[m - 1][j]) % 2
  }

  /** The plain (unreduced) sum of column `j` over the selected rows. */
  function ColumnSum(G: seq<seq<int>>, x: seq<int>, j: nat, m: nat): int
    requires m <= |x| && EncodableUpTo(G, x, m) && j < |G[0]|
  {
    if m == 0 then 0 else ColumnSum(G, x, j, m - 1) + (if x[m - 1] == 0 then 0 else G[m - 1][j])
  }

  /** Reducing after every addition gives the parity of the plain column sum. */
  lemma {:induction false} ParityIsColumnSumMod2(G: seq<seq<int>>, x: seq<int>, j: nat, m: nat)
    requires m <= |x| && EncodableUpTo(G, x, m) && j < |G[0]|
    ensures Parity(G, x, j, m) == ColumnSum(G, x, j, m) % 2
  {
    if m > 0 {
      ParityIsColumnSumMod2(G, x, j, m - 1);
      if x[m - 1] != 0 {
        ModAddLeft(ColumnSum(G, x, j, m - 1), G[m - 1][j], 2);
      }
    }
  }

  /** The code word of message `x`: one entry per column of the first row. */
  function Encode(G: seq<seq<int>>, x: seq<int>): (code: seq<int>)
    requires Encodable(G, x)
    ensures |code| == |G[0]| && IsBits(code)
  {
    seq(|G[0]|, j requires 0 <= j < |G[0]| => Parity(G, x, j, |x|))
  }

  /** Each code word entry is the mod-2 sum of its column over the rows the message selects. */
  lemma EncodeIsColumnParity(G: seq<seq<int>>, x: seq<int>)
    requires Encodable(G, x)
    ensures forall j :: 0 <= j < |G[0]| ==> Encode(G, x)[j] == ColumnSum(G, x, j, |x|) % 2
  {
    forall j | 0 <= j < |G[0]|
      ensures Encode(G, x)[j] == ColumnSum(G, x, j, |x|) % 2
    {
      ParityIsColumnSumMod2(G, x, j, |x|);
    }
  }

  lemma {:induction false} ParityOfZeros(G: seq<seq<int>>, n: nat, j: nat, m: nat)
    requires |G| > 0 && m <= n && j < |G[0]|
    ensures EncodableUpTo(G, Zeros(n), m) && Parity(G, Zeros(n), j, m) == 0
  {
    if m > 0 {
      ParityOfZeros(G, n, j, m - 1);
    }
  }

  /** The zero message (the adapter's start state) encodes to the zero word. */
  lemma EncodeZeros(G: seq<seq<int>>, n: nat)
    requires |G| > 0
    ensures Encodable(G, Zeros(n)) && Encode(G, Zeros(n)) == Zeros(|G[0]|)
  {
    forall j | 0 <= j < |G[0]|
      ensures Parity(G, Zeros(n), j, n) == 0
    {
      ParityOfZeros(G, n, j, n);
    }
  }

  lemma {:induction false} ColumnSumFlip(G: seq<seq<int>>, x: seq<int>, i: nat, j: nat, m: nat)
    requires i < |x| && (x[i] == 0 || x[i] == 1) && m <= |x|
    requires EncodableUpTo(G, x, m) && EncodableUpTo(G, Flip(x, i), m) && j < |G[0]|
    ensures i < m ==> i < |G| && j < |G[i]|
    ensures ColumnSum(G, Flip(x, i), j, m)
         == ColumnSum(G, x, j, m) + (if i < m then (if x[i] == 0 then G[i][j] else -G[i][j]) else 0)
  {
    FlipChangesExactlyOne(x, i);
    if m > 0 {
      assert EncodableUpTo(G, x, m - 1) && EncodableUpTo(G, Flip(x, i), m - 1);
      ColumnSumFlip(G, x, i, j, m - 1);
    }
  }

  /** Entry `j` of the code word after flipping message bit `i` is the old entry plus
      `G[i][j]`, mod 2. */
  lemma EncodeFlipAt(G: seq<seq<int>>, x: seq<int>, i: nat, j: int)
    requires i < |x| && (x[i] == 0 || x[i] == 1)
    requires Encodable(G, x) && Encodable(G, Flip(x, i)) && 0 <= j < |G[0]|
    ensures i < |G| && j < |G[i]| && Encode(G, Flip(x, i))[j] == (Encode(G, x)[j] + G[i][j]) % 2
  {
    assert Encode(G, x)[j] == Parity(G, x, j, |x|);
    assert Encode(G, Flip(x, i))[j] == Parity(G, Flip(x, i), j, |x|);
    ColumnSumFlip(G, x, i, j, |x|);
    ParityIsColumnSumMod2(G, x, j, |x|);
    ParityIsColumnSumMod2(G, Flip(x, i), j, |x|);
    var s, g := ColumnSum(G, x, j, |x|), G[i][j];
    ModAddLeft(s, g, 2);
    if x[i] == 1 {
      ModTwoShift(s - g, g);
    }
  }

  /** Flipping one message bit adds that bit's generator row to the code word, mod 2 (the code
      is linear, so the flip perturbation moves to a neighbouring code word). */
  lemma EncodeFlip(G: seq<seq<int>>, x: seq<int>, i: nat)
    requires i < |x| && (x[i] == 0 || x[i] == 1)
    requires Encodable(G, x) && Encodable(G, Flip(x, i))
    ensures |G[0]| > 0 ==> i < |G| && |G[0]| <= |G[i]|
    ensures |G[0]| > 0 ==>
              forall j :: 0 <= j < |G[0]| ==> Encode(G, Flip(x, i))[j] == (Encode(G, x)[j] + G[i][j]) % 2
  {
    if |G[0]| > 0 {
      EncodeFlipAt(G, x, i, 0);
      assert i < |G| && |G[0]| <= |G[i]| by {
        FlipChangesExactlyOne(x, i);
        assert x[i] != 0 || Flip(x, i)[i] != 0;
      }
      forall j | 0 <= j < |G[0]|
        ensures Encode(G, Flip(x, i))[j] == (Encode(G, x)[j] + G[i][j]) % 2
      {
        EncodeFlipAt(G, x, i, j);
      }
    }
  }

  // ----- Energy -----

  /** The energy function of `codes2dataset`: ten times the distance from the code word of `x`
      to the received word. */
  function DecodingEnergy(G: seq<seq<int>>, codeword: seq<int>, x: seq<int>): Result<int>
  {
    if !Encodable(G, x) then Err(IndexError)
    else
      match Hamming(Encode(G, x), codeword)
      case Err(e) => Err(e)
      case Ok(d) => Ok(10 * d)
  }

  /** The energy fails exactly on a malformed matrix or a short received word, and is otherwise
      a multiple of ten between 0 and ten times the code length, 0 exactly when the message's
      code word is what was received. */
  lemma EnergyRange(G: seq<seq<int>>, codeword: seq<int>, x: seq<int>)
    ensures DecodingEnergy(G, codeword, x).Ok? <==> Encodable(G, x) && |G[0]| <= |codeword|
    ensures DecodingEnergy(G, codeword, x).Err? ==> DecodingEnergy(G, codeword, x).error == IndexError
    ensures DecodingEnergy(G, codeword, x).Ok? ==>
              var e := DecodingEnergy(G, codeword, x).value;
              e % 10 == 0 && 0 <= e <= 10 * |G[0]| && (e == 0 <==> Encode(G, x) == codeword[..|G[0]|])
  {
    if Encodable(G, x) {
      HammingProperties(Encode(G, x), codeword);
    }
  }

  /** How many of the first `m` entries are nonzero. */
  function Weight(c: seq<int>, m: nat): nat
    requires m <= |c|
  {
    if m == 0 then 0 else Weight(c, m - 1) + (if c[m - 1] != 0 then 1 else 0)
  }

  lemma {:induction false} MismatchesFromZero(w: nat, c: seq<int>, m: nat)
    requires m <= w && m <= |c|
    ensures Mismatches(Zeros(w), c, m) == Weight(c, m)
  {
    if m > 0 {
      MismatchesFromZero(w, c, m - 1);
    }
  }

  /** The start state's energy is ten times the number of nonzero entries of the received word
      (over the code length). */
  lemma InitialEnergy(G: seq<seq<int>>, codeword: seq<int>)
    requires |G| > 0 && |G[0]| <= |codeword|
    ensures DecodingEnergy(G, codeword, Zeros(|G|)) == Ok(10 * Weight(codeword, |G[0]|))
  {
    EncodeZeros(G, |G|);
    MismatchesFromZero(|G[0]|, codeword, |G[0]|);
  }

  /** The energy function's nested loops over a code word buffer. */
  method Energy(G: seq<seq<int>>, codeword: seq<int>, x: seq<int>) returns (r: Result<int>)
    ensures r == DecodingEnergy(G, codeword, x)
  {
    if |G| == 0 {
      return Err(IndexError);
    }
    var width := |G[0]|;
    var code := new int[width](_ => 0);
    for i := 0 to |x|
      invariant EncodableUpTo(G, x, i)
      invariant forall j :: 0 <= j < width ==> code[j] == Parity(G, x, j, i)
    {
      if x[i] != 0 {
        for j := 0 to width
          invariant j > 0 ==> i < |G| && j <= |G[i]|
          invariant forall j' :: 0 <= j' < j ==> code[j'] == (Parity(G, x, j', i) + G[i][j']) % 2
          invariant forall j' :: j <= j' < width ==> code[j'] == Parity(G, x, j', i)
        {
          if i >= |G| || j >= |G[i]| {
            assert !(width == 0 || (i < |G| && width <= |G[i]|));
            return Err(IndexError);
          }
          code[j] := (code[j] + G[i][j]) % 2;
        }
      }
      assert EncodableUpTo(G, x, i + 1);
    }
    assert code[..] == Encode(G, x);
    var d := HammingDistance(code[..], codeword);
    match d
    case Err(e) => return Err(e);
    case Ok(v) => return Ok(v * 10);
  }

  // ----- The adapter object -----

  /** What a call of the hook `iter_log(x, t)` yields: it fails exactly when the energy of `x`
      raises. */
  function LogOutcome(G: seq<seq<int>>, codeword: seq<int>, x: seq<int>): (o: Outcome)
    ensures o.Pass? <==> Encodable(G, x) && |G[0]| <= |codeword|
    ensures o.Fail? ==> o.error == IndexError
  {
    EnergyRange(G, codeword, x);
    match DecodingEnergy(G, codeword, x)
    case Err(e) => Fail(e)
    case Ok(_) => Pass
  }

  /** The engine configuration `GDP_SA` hands to `SimulatedAnnealing.__init__`, with `picks`
      standing for the positions `randint` draws, and with the progress hook called as
      `iter_log(x, t)`, as its override expects. */
  function DecodingEngine(schedule: nat -> real, G: seq<seq<int>>, codeword: seq<int>, picks: nat -> nat,
                          nPer: int, tEnd: real): (a: Annealer<seq<int>>)
    ensures a.schedule == schedule && a.states == [Zeros(|G|)] && a.nPer == nPer && a.tEnd == tEnd
    ensures forall x: seq<int> :: a.energy(x) == AsReal(DecodingEnergy(G, codeword, x))
    ensures forall x: seq<int>, k: nat :: a.perturb(x, k) == FlipMove(picks, x, k)
    ensures forall x: seq<int>, t: nat :: a.iterLog(x, t).Pass? <==> a.energy(x).Ok?
  {
    Annealer(schedule, [Zeros(|G|)], (x: seq<int>) => AsReal(DecodingEnergy(G, codeword, x)),
             (x: seq<int>, k: nat) => FlipMove(picks, x, k), (x: seq<int>, t: nat) => LogOutcome(G, codeword, x),
             nPer, tEnd)
  }

  /** The same engine with the hook called as the base loop calls it, `iter_log(x)`: the
      override's required parameter `t` is missing, so every call raises TypeError. */
  function AsWrittenDecodingEngine(schedule: nat -> real, G: seq<seq<int>>, codeword: seq<int>, picks: nat -> nat,
                                   nPer: int, tEnd: real): (a: Annealer<seq<int>>)
    ensures var d := DecodingEngine(schedule, G, codeword, picks, nPer, tEnd);
            a.schedule == d.schedule && a.states == d.states && a.energy == d.energy && a.perturb == d.perturb
            && a.nPer == d.nPer && a.tEnd == d.tEnd
    ensures forall x: seq<int>, t: nat :: a.iterLog(x, t) == Fail(TypeError)
  {
    DecodingEngine(schedule, G, codeword, picks, nPer, tEnd).(iterLog := (x: seq<int>, t: nat) => Fail(TypeError))
  }

  /** As written, `exec()` of a decoding annealer raises TypeError as soon as the first
      temperature is at or above the floor, whatever the matrix and the received word. */
  lemma AsWrittenExecRaisesTypeError(schedule: nat -> real, G: seq<seq<int>>, codeword: seq<int>, picks: nat -> nat,
                                     nPer: int, tEnd: real, env: Env, bound: nat)
    requires schedule(bound) < tEnd <= schedule(0)
    ensures Execution(AsWrittenDecodingEngine(schedule, G, codeword, picks, nPer, tEnd), env, None, bound) == Err(TypeError)
  {
  }

  /** Started from its only listed state, the decoding run stays among 0/1 messages with one
      entry per row of `G`. */
  lemma DecodingRunYieldsMessage(schedule: nat -> real, G: seq<seq<int>>, codeword: seq<int>, picks: nat -> nat,
                                 nPer: int, tEnd: real, env: Env, bound: nat)
    requires schedule(bound) < tEnd
    ensures var r := Execution(DecodingEngine(schedule, G, codeword, picks, nPer, tEnd), env, None, bound);
            r.Ok? ==> |r.value| == |G| && IsBits(r.value)
  {
    var a := DecodingEngine(schedule, G, codeword, picks, nPer, tEnd);
    var inv := (x: seq<int>) => |x| == |G| && IsBits(x);
    FlipMoveKeepsBits(picks, |G|);
    assert a.perturb == (x: seq<int>, k: nat) => FlipMove(picks, x, k);
    RunPreserves(a, env, inv, Zeros(|G|), 0, bound);
  }

  /** A generator matrix with at least one row, no row shorter than the first, and a received
      word at least as long as a code word. */
  predicate WellFormed(G: seq<seq<int>>, codeword: seq<int>)
  {
    |G| > 0 && (forall i :: 0 <= i < |G| ==> |G[0]| <= |G[i]|) && |G[0]| <= |codeword|
  }

  /** With the hook called as its override expects, a well-formed problem and a positive floor,
      the decoding run cannot raise: it completes, in a 0/1 message. */
  lemma DecodingRunCompletes(schedule: nat -> real, G: seq<seq<int>>, codeword: seq<int>, picks: nat -> nat,
                             nPer: int, tEnd: real, env: Env, bound: nat)
    requires WellFormed(G, codeword) && tEnd > 0.0 && schedule(bound) < tEnd
    ensures var r := Execution(DecodingEngine(schedule, G, codeword, picks, nPer, tEnd), env, None, bound);
            r.Ok? && |r.value| == |G| && IsBits(r.value)
  {
    var a := DecodingEngine(schedule, G, codeword, picks, nPer, tEnd);
    var inv := (x: seq<int>) => |x| == |G| && IsBits(x);
    FlipMoveKeepsBits(picks, |G|);
    assert a.perturb == (x: seq<int>, k: nat) => FlipMove(picks, x, k);
    forall x: seq<int> | inv(x) ensures DecodingEnergy(G, codeword, x).Ok? {
      assert Encodable(G, x);
      EnergyRange(G, codeword, x);
    }
    RunSucceeds(a, env, inv, Zeros(|G|), 0, bound);
  }

  /** `GDP_SA`: the engine's configuration plus the list of energies `iter_log` records. */
  class DecodingAnnealer {
    const schedule: nat -> real
    const G: seq<seq<int>>
    const codeword: seq<int>
    const states: seq<seq<int>>
    const nPer: int
    const tEnd: real
    var resultValues: seq<int>

    constructor (schedule: nat -> real, G: seq<seq<int>>, codeword: seq<int>, nPer: int, tEnd: real)
      ensures this.schedule == schedule && this.G == G && this.codeword == codeword
      ensures this.nPer == nPer && this.tEnd == tEnd
      ensures states == [Zeros(|G|)] && resultValues == []
    {
      this.schedule := schedule;
      this.G := G;
      this.codeword := codeword;
      this.states := [Zeros(|G|)];
      this.nPer := nPer;
      this.tEnd := tEnd;
      resultValues := [];
    }

    /** The engine this object configures; `IterLog` is its hook. */
    function Engine(picks: nat -> nat): Annealer<seq<int>>
    {
      DecodingEngine(schedule, G, codeword, picks, nPer, tEnd)
    }

    /** `iter_log(x, t)`: appends the energy of `x`; an energy that raises leaves the log as
        it was. The log message for `t` is not modelled. */
    method IterLog(x: seq<int>, t: nat) returns (o: Outcome)
      modifies this
      ensures forall picks: nat -> nat :: o == Engine(picks).iterLog(x, t)
      ensures o == LogOutcome(G, codeword, x)
      ensures DecodingEnergy(G, codeword, x).Ok? ==>
                resultValues == old(resultValues) + [DecodingEnergy(G, codeword, x).value]
      ensures DecodingEnergy(G, codeword, x).Err? ==> resultValues == old(resultValues)
    {
      var distance := Energy(G, codeword, x);
      match distance
      case Err(e) =>
        return Fail(e);
      case Ok(d) =>
        resultValues := resultValues + [d];
        return Pass;
    }
  }
}
