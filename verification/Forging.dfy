/** How long a validator waits before propagating a block, and the bound it obeys. */
module Forging {
  import opened Primitives

  function Min(x: nat, y: nat): nat {
    if x < y then x else y
  }

  /** The distance of two values around the circle of 64-bit integers. */
  function Delta(target: U64, actual: U64): nat {
    Min(WrapU64(target - actual), WrapU64(actual - target))
  }

  function Div(x: nat, d: nat): (q: nat)
    requires d > 0
  {
    x / d
  }

  /** Units of delta for a millisecond of waiting. */
  function Range(difficulty: nat, rate: nat): nat
    requires rate > 0
  {
    Div(Div(0xffff_ffff_ffff_ffff, difficulty + 1), rate)
  }

  /** The parameters for which a wait is defined: see `RangePositive`. */
  predicate Tuned(difficulty: nat, rate: nat) {
    rate > 0 && (difficulty + 1) * rate <= 0xffff_ffff_ffff_ffff
  }

  lemma {:induction false} MulMonotone(a: nat, b: nat, c: nat)
    requires a <= b
    ensures a * c <= b * c
  {
  }

  /** A quotient is the number of whole divisors. */
  lemma {:induction false} DivMeans(x: nat, d: nat)
    requires d > 0
    ensures Div(x, d) * d <= x < (Div(x, d) + 1) * d && Div(x, d) <= x
  {
    MulMonotone(1, d, Div(x, d));
  }

  lemma {:induction false} DivAtLeast(x: nat, d: nat, k: nat)
    requires d > 0 && k * d <= x
    ensures k <= Div(x, d)
  {
    DivMeans(x, d);
    if Div(x, d) < k { MulMonotone(Div(x, d) + 1, k, d); }
  }

  lemma {:induction false} NestedDivision(x: nat, d: nat, r: nat)
    requires d > 0 && r > 0
    ensures x < (Div(Div(x, d), r) + 1) * (d * r)
    ensures x >= d * r <==> Div(Div(x, d), r) >= 1
  {
    var q := Div(x, d);
    var k := Div(q, r);
    DivMeans(x, d);
    DivMeans(q, r);
    MulMonotone(q + 1, (k + 1) * r, d);
    Associates(k + 1, r, d);
    if x >= d * r {
      DivAtLeast(x, d, r);
      DivAtLeast(q, r, 1);
    }
    if k >= 1 {
      MulMonotone(1, k, r);
      MulMonotone(r, q, d);
    }
  }

  lemma {:induction false} Associates(a: nat, b: nat, c: nat)
    ensures (a * b) * c == a * (c * b)
  {
  }

  /** The range is positive, so that a wait is defined, exactly when difficulty and rate fit 64 bits. */
  lemma {:induction false} RangePositive(difficulty: nat, rate: nat)
    requires rate > 0
    ensures Range(difficulty, rate) >= 1 <==> Tuned(difficulty, rate)
    ensures 0xffff_ffff_ffff_ffff < (Range(difficulty, rate) + 1) * ((difficulty + 1) * rate)
  {
    NestedDivision(0xffff_ffff_ffff_ffff, difficulty + 1, rate);
  }

  /** The wait of one validator; without stake it is as long as can be. */
  function GenWait(difficulty: nat, rate: nat, stake: U64, target: U64, actual: U64): nat
    requires Tuned(difficulty, rate)
  {
    if stake == 0 then 0xffff_ffff_ffff_ffff
    else
      RangePositive(difficulty, rate);
      Div(Div(Delta(target, actual), Range(difficulty, rate)), stake)
  }

  /** Opposite points of the circle are farthest apart. */
  lemma {:induction false} DeltaBound(target: U64, actual: U64)
    ensures Delta(target, actual) <= 0x8000_0000_0000_0000 && Delta(target, actual) == Delta(actual, target)
    ensures Delta(target, actual) == 0 <==> target == actual
  {
  }

  /** The range is the greatest number that, times difficulty plus one and the rate, fits 64 bits. */
  lemma {:induction false} RangeIs(difficulty: nat, rate: nat)
    requires rate > 0
    ensures var r := Range(difficulty, rate);
            r * ((difficulty + 1) * rate) <= 0xffff_ffff_ffff_ffff < (r + 1) * ((difficulty + 1) * rate)
  {
    var q := Div(0xffff_ffff_ffff_ffff, difficulty + 1);
    var r := Div(q, rate);
    RangePositive(difficulty, rate);
    DivMeans(0xffff_ffff_ffff_ffff, difficulty + 1);
    DivMeans(q, rate);
    MulMonotone(r * rate, q, difficulty + 1);
    Associates(r, rate, difficulty + 1);
  }

  /** `d` is the shorter way round from one value to the other. */
  predicate IsDelta(target: U64, actual: U64, d: nat) {
    && (d == target - actual || d == actual - target || d == 0x1_0000_0000_0000_0000 + target - actual
        || d == 0x1_0000_0000_0000_0000 + actual - target)
    && 2 * d <= 0x1_0000_0000_0000_0000
  }

  lemma {:induction false} DeltaIs(target: U64, actual: U64, d: nat)
    ensures IsDelta(target, actual, d) <==> d == Delta(target, actual)
  {
  }

  lemma {:induction false} NestedExactly(d: nat, range: nat, stake: nat)
    requires range > 0 && stake > 0
    ensures var w := Div(Div(d, range), stake); w * (stake * range) <= d < (w + 1) * (stake * range)
  {
    var units := Div(d, range);
    var w := Div(units, stake);
    DivMeans(d, range);
    DivMeans(units, stake);
    MulMonotone(w * stake, units, range);
    MulMonotone(units + 1, (w + 1) * stake, range);
    MulAssociates(w, stake, range);
    MulAssociates(w + 1, stake, range);
  }

  lemma {:induction false} MulAssociates(a: nat, b: nat, c: nat)
    ensures (a * b) * c == a * (b * c)
  {
  }

  /** The wait exactly, for the range `r` and the shorter way round `d`: the whole units of stake times
      range in it. Without stake it is the greatest 64-bit number. */
  lemma {:induction false} WaitIs(difficulty: nat, rate: nat, stake: U64, target: U64, actual: U64, r: nat, d: nat)
    requires Tuned(difficulty, rate) && IsDelta(target, actual, d)
    requires r * ((difficulty + 1) * rate) <= 0xffff_ffff_ffff_ffff < (r + 1) * ((difficulty + 1) * rate)
    ensures var w := GenWait(difficulty, rate, stake, target, actual);
            if stake == 0 then w == 0xffff_ffff_ffff_ffff else w * (stake * r) <= d < (w + 1) * (stake * r)
  {
    RangePositive(difficulty, rate);
    RangeIs(difficulty, rate);
    OneQuotient(0xffff_ffff_ffff_ffff, (difficulty + 1) * rate, r, Range(difficulty, rate));
    DeltaIs(target, actual, d);
    if stake > 0 { NestedExactly(d, r, stake); }
  }

  lemma {:induction false} OneQuotient(x: nat, d: nat, q: nat, r: nat)
    requires q * d <= x < (q + 1) * d && r * d <= x < (r + 1) * d
    ensures q == r
  {
    if q < r { MulMonotone(q + 1, r, d); }
    if r < q { MulMonotone(r + 1, q, d); }
  }

  /** For instance, a stake of 100 at the opposite point waits 5000. */
  lemma {:induction false} WaitExample()
    ensures Tuned(999, 1000) && GenWait(999, 1000, 100, 0, 0x8000_0000_0000_0000) == 5000
  {
  }

  /** The wait does not depend on which value is the target, and more stake never waits longer. */
  lemma {:induction false} WaitMonotone(difficulty: nat, rate: nat, s1: U64, s2: U64, target: U64, actual: U64)
    requires Tuned(difficulty, rate) && s1 <= s2
    ensures GenWait(difficulty, rate, s1, target, actual) == GenWait(difficulty, rate, s1, actual, target)
    ensures GenWait(difficulty, rate, s2, target, actual) <= GenWait(difficulty, rate, s1, target, actual)
  {
    DeltaBound(target, actual);
    RangePositive(difficulty, rate);
    DivMeans(Delta(target, actual), Range(difficulty, rate));
    var units := Div(Delta(target, actual), Range(difficulty, rate));
    if s2 > 0 {
      DivMeans(units, s2);
      if s1 > 0 {
        MulMonotone(s1, s2, Div(units, s2));
        DivAtLeast(units, s1, Div(units, s2));
      }
    }
  }

  /** The wait of a staked validator, times its stake, is bounded by difficulty and rate. */
  lemma {:induction false} WaitBound(difficulty: nat, rate: nat, stake: U64, target: U64, actual: U64)
    requires Tuned(difficulty, rate) && stake > 0
    ensures GenWait(difficulty, rate, stake, target, actual) * stake <= (difficulty + 1) * rate
    ensures GenWait(difficulty, rate, stake, target, actual) <= (difficulty + 1) * rate
  {
    DeltaBound(target, actual);
    RangePositive(difficulty, rate);
    var units := Div(Delta(target, actual), Range(difficulty, rate));
    DivMeans(Delta(target, actual), Range(difficulty, rate));
    DivMeans(units, stake);
    UnitsBound(units, Range(difficulty, rate), (difficulty + 1) * rate);
  }

  /** Half the circle holds no more units than difficulty and rate say. */
  lemma {:induction false} UnitsBound(units: nat, range: nat, whole: nat)
    requires units * range <= 0x8000_0000_0000_0000 && whole <= 0xffff_ffff_ffff_ffff
    requires 0xffff_ffff_ffff_ffff < (range + 1) * whole && range >= 1
    ensures units <= whole
  {
    assert (whole + 1) * range == whole * range + range && (range + 1) * whole == whole * range + whole;
    MulMonotone(1, range, units);
    if units > whole { MulMonotone(whole + 1, units, range); }
  }

  /** A validator that signed: its stake and the value it signed with. */
  datatype Signature = Signature(stake: U64, value: U64)

  function SumWait(difficulty: nat, rate: nat, target: U64, sigs: seq<Signature>): nat
    requires Tuned(difficulty, rate)
  {
    if sigs == [] then 0
    else
      var last := sigs[|sigs| - 1];
      SumWait(difficulty, rate, target, sigs[..|sigs| - 1]) + GenWait(difficulty, rate, last.stake, target, last.value)
  }

  /** Nobody waits nothing, one signature waits its own wait, and waits add up over any split. */
  lemma {:induction false} SumSplits(difficulty: nat, rate: nat, target: U64, a: seq<Signature>, b: seq<Signature>, sig: Signature)
    requires Tuned(difficulty, rate)
    ensures SumWait(difficulty, rate, target, []) == 0
    ensures SumWait(difficulty, rate, target, [sig]) == GenWait(difficulty, rate, sig.stake, target, sig.value)
    ensures SumWait(difficulty, rate, target, a + b) == SumWait(difficulty, rate, target, a) + SumWait(difficulty, rate, target, b)
    decreases |b|
  {
    assert [sig][..0] == [];
    if b == [] {
      assert a + b == a;
    } else {
      var init, last := b[..|b| - 1], b[|b| - 1];
      SumSplits(difficulty, rate, target, a, init, sig);
      assert (a + b)[..|a + b| - 1] == a + init && (a + b)[|a + b| - 1] == last;
    }
  }

  /** Adds up the waits of all signatures. */
  method TotalWait(difficulty: nat, rate: nat, target: U64, sigs: seq<Signature>) returns (wait: nat)
    requires Tuned(difficulty, rate)
    ensures wait == SumWait(difficulty, rate, target, sigs)
  {
    wait := 0;
    for i := 0 to |sigs|
      invariant wait == SumWait(difficulty, rate, target, sigs[..i])
    {
      assert sigs[..i + 1][..i] == sigs[..i];
      wait := wait + GenWait(difficulty, rate, sigs[i].stake, target, sigs[i].value);
    }
    assert sigs[..|sigs|] == sigs;
  }

  /** Staked signers together wait no longer than their number times the bound of one. */
  lemma {:induction false} SumBound(difficulty: nat, rate: nat, target: U64, sigs: seq<Signature>)
    requires Tuned(difficulty, rate) && forall i :: 0 <= i < |sigs| ==> sigs[i].stake > 0
    ensures SumWait(difficulty, rate, target, sigs) <= |sigs| * ((difficulty + 1) * rate)
  {
    if sigs != [] {
      var n := |sigs| - 1;
      SumBound(difficulty, rate, target, sigs[..n]);
      WaitBound(difficulty, rate, sigs[n].stake, target, sigs[n].value);
      OneMore(n, (difficulty + 1) * rate);
    }
  }

  lemma {:induction false} OneMore(n: nat, whole: nat)
    ensures (n + 1) * whole == n * whole + whole
  {
  }
}
