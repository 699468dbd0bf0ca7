/**
 The modular differences of src/util.c on 64-bit unsigned integers, and what they conserve.
 The newtype makes Dafny prove that no intermediate result overflows.
 */
module Modular {
  import opened Division

  newtype uint64 = x: int | 0 <= x < 0x1_0000_0000_0000_0000

  const UINT64_MAX: uint64 := 0xFFFF_FFFF_FFFF_FFFF

  /** The modulus of 64-bit arithmetic. */
  const TWO64: int := 0x1_0000_0000_0000_0000

  /** C's sum and difference of 64-bit unsigned integers. */
  function Add64(a: uint64, b: uint64): uint64 {
    ((a as int + b as int) % TWO64) as uint64
  }

  function Sub64(a: uint64, b: uint64): uint64 {
    ((a as int - b as int) % TWO64) as uint64
  }

  /** modulo_substraction_bound: the difference of two values of a counter that wraps behind modulo,
      if and only if the two values are at most modulo up or modulo + 1 down apart. */
  function ModuloSubstractionBound(lhs: uint64, rhs: uint64, modulo: uint64): (r: uint64)
    ensures r as int == (lhs as int - rhs as int) % (modulo as int + 1)
       <==> -(modulo as int) - 1 <= lhs as int - rhs as int <= modulo as int
    ensures lhs <= modulo && rhs <= modulo ==> r <= modulo
  {
    BoundedDifference(lhs, rhs, modulo);
    if lhs >= rhs then lhs - rhs else Add64(Add64(Sub64(modulo, rhs), 1), lhs)
  }

  lemma BoundedDifference(lhs: uint64, rhs: uint64, modulo: uint64)
    ensures var d, n := lhs as int - rhs as int, modulo as int + 1;
            && (d >= n ==> d % n != d)
            && (0 <= d < n ==> d % n == d)
            && (-n <= d < 0 ==> Add64(Add64(Sub64(modulo, rhs), 1), lhs) as int == d % n)
            && (d < -n ==> Add64(Add64(Sub64(modulo, rhs), 1), lhs) as int != d % n)
  {
    var d, n := lhs as int - rhs as int, modulo as int + 1;
    DivMod(d, n);
    if d < 0 {
      WrappedSum(lhs, rhs, modulo);
      if -n < d {
        ModUnique(d, d + n, -1, n);
      } else if d == -n {
        ModUnique(d, 0, -1, n);
      }
    } else if d < n {
      ModUnique(d, d, 0, n);
    }
  }

  lemma WrappedSum(lhs: uint64, rhs: uint64, modulo: uint64)
    requires lhs < rhs
    ensures var t := modulo as int + 1 + lhs as int - rhs as int;
            Add64(Add64(Sub64(modulo, rhs), 1), lhs) as int == if t >= 0 then t else t + TWO64
  {
    var a, b, c := modulo as int - rhs as int, 1, lhs as int;
    ModOfSum(a, b, TWO64);
    ModOfSum(a + b, c, TWO64);
    var t := a + b + c;
    if t >= 0 {
      ModUnique(t, t, 0, TWO64);
    } else {
      ModUnique(t, t + TWO64, -1, TWO64);
    }
  }

  /** The wrapping branch needs no wrap-around of 64 bits if and only if the earlier value is in
      range. */
  lemma BoundOverflow(lhs: uint64, rhs: uint64, modulo: uint64)
    requires lhs < rhs
    ensures rhs <= modulo <==>
      && Sub64(modulo, rhs) as int == modulo as int - rhs as int
      && Add64(Sub64(modulo, rhs), 1) as int == modulo as int - rhs as int + 1
      && Add64(Add64(Sub64(modulo, rhs), 1), lhs) as int == modulo as int - rhs as int + 1 + lhs as int
  {
    if rhs <= modulo {
      var a := modulo as int - rhs as int;
      ModUnique(a, a, 0, TWO64);
      ModUnique(a + 1, a + 1, 0, TWO64);
      WrappedSum(lhs, rhs, modulo);
    }
  }

  /** modulo_substraction. */
  function ModuloSubstraction(lhs: uint64, rhs: uint64): (r: uint64)
    ensures r as int == (lhs as int - rhs as int) % TWO64
  {
    ModOnce(lhs as int, rhs as int, TWO64);
    if lhs >= rhs then lhs - rhs else (UINT64_MAX - rhs + 1) + lhs
  }

  lemma ModOnce(a: int, b: int, n: int)
    requires 0 <= a < n && 0 <= b < n
    ensures (a - b) % n == if a >= b then a - b else a - b + n
  {
    if a < b {
      ModUnique(a - b, a - b + n, -1, n);
    } else {
      ModUnique(a - b, a - b, 0, n);
    }
  }

  /** Adding a multiple of the modulus changes no remainder. */
  lemma ModShift(x: int, k: int, n: int)
    requires n > 0
    ensures (x + k * n) % n == x % n
  {
    assert x == (x / n) * n + x % n;
    assert x + k * n == (x / n + k) * n + x % n;
    ModUnique(x + k * n, x % n, x / n + k, n);
  }

  /** Taking remainders first does not change the remainder of a sum or a difference. */
  lemma ModOfSum(a: int, b: int, n: int)
    requires n > 0
    ensures (a % n + b) % n == (a + b) % n
    ensures (a - b % n) % n == (a - b) % n
  {
    assert a + b == (a % n + b) + (a / n) * n;
    ModShift(a % n + b, a / n, n);
    assert a - b == (a - b % n) + (-(b / n)) * n;
    ModShift(a - b % n, -(b / n), n);
  }

  /** A counter that wraps at n shows exactly the growth between two reads if and only if the
      growth is below n. */
  lemma DeltaIsGrowth(before: int, after: int, n: int)
    requires n > 0 && before <= after
    ensures (after % n - before % n) % n == (after - before) % n
    ensures (after % n - before % n) % n == after - before <==> after - before < n
  {
    ModOfSum(after % n, before, n);
    ModOfSum(after, -before, n);
    if after - before < n {
      ModUnique(after - before, after - before, 0, n);
    }
  }

  // ---------------------------------------------------------------- whole runs

  function Sum(xs: seq<int>): int {
    if xs == [] then 0 else Sum(xs[..|xs| - 1]) + xs[|xs| - 1]
  }

  /** What a source emits when its counter, wrapping at n, is polled again and again. */
  function Deltas(polls: seq<int>, n: int): (ds: seq<int>)
    requires n > 0 && polls != []
    ensures |ds| == |polls| - 1
  {
    seq(|polls| - 1, p requires 0 <= p < |polls| - 1 => (polls[p + 1] - polls[p]) % n)
  }

  function Reads(totals: seq<int>, n: int): (rs: seq<int>)
    requires n > 0
    ensures |rs| == |totals|
  {
    seq(|totals|, p requires 0 <= p < |totals| => totals[p] % n)
  }

  /** For any reads at all, the deltas add up to the difference of the last and the first read,
      modulo n. */
  lemma {:induction false} Telescope(polls: seq<int>, n: int)
    requires n > 0 && polls != []
    ensures Sum(Deltas(polls, n)) % n == (polls[|polls| - 1] - polls[0]) % n
  {
    var k := |polls| - 1;
    if k == 0 {
      ModUnique(0, 0, 0, n);
    } else {
      Telescope(polls[..k], n);
      var ds := Deltas(polls, n);
      assert ds[..k - 1] == Deltas(polls[..k], n);
      ModOfSum(Sum(ds[..k - 1]), ds[k - 1], n);
      ModOfSum(polls[k - 1] - polls[0], ds[k - 1], n);
      ModOfSum(polls[k] - polls[k - 1], polls[k - 1] - polls[0], n);
    }
  }

  ghost predicate NeverDecreases(totals: seq<int>) {
    forall p :: 0 <= p < |totals| - 1 ==> totals[p] <= totals[p + 1]
  }

  ghost predicate GrowsBelow(totals: seq<int>, n: int) {
    forall p :: 0 <= p < |totals| - 1 ==> totals[p + 1] - totals[p] < n
  }

  /** The growth between consecutive polls. */
  function Growths(totals: seq<int>): (gs: seq<int>)
    requires totals != []
    ensures |gs| == |totals| - 1
  {
    seq(|totals| - 1, p requires 0 <= p < |totals| - 1 => totals[p + 1] - totals[p])
  }

  lemma {:induction false} SumOfGrowths(totals: seq<int>)
    requires totals != []
    ensures Sum(Growths(totals)) == totals[|totals| - 1] - totals[0]
  {
    var k := |totals| - 1;
    if k > 0 {
      SumOfGrowths(totals[..k]);
      assert Growths(totals)[..k - 1] == Growths(totals[..k]);
    }
  }

  /** Sums of termwise smaller terms are equal only if the terms are. */
  lemma {:induction false} SumBelow(ds: seq<int>, gs: seq<int>)
    requires |ds| == |gs| && forall p :: 0 <= p < |ds| ==> ds[p] <= gs[p]
    ensures Sum(ds) <= Sum(gs)
    ensures Sum(ds) == Sum(gs) <==> ds == gs
  {
    if ds != [] {
      var k := |ds| - 1;
      SumBelow(ds[..k], gs[..k]);
      assert ds == ds[..k] + [ds[k]] && gs == gs[..k] + [gs[k]];
    }
  }

  /** Conservation: for true totals that never decrease, the deltas of the whole run add up to the
      growth if and only if no growth between two polls reaches n; each delta is then exact. */
  lemma Conservation(totals: seq<int>, n: int)
    requires n > 0 && totals != [] && NeverDecreases(totals)
    ensures var ds := Deltas(Reads(totals, n), n);
            && (Sum(ds) == totals[|totals| - 1] - totals[0] <==> GrowsBelow(totals, n))
            && (GrowsBelow(totals, n) ==> ds == Growths(totals))
  {
    var ds, gs := Deltas(Reads(totals, n), n), Growths(totals);
    forall p | 0 <= p < |ds|
      ensures ds[p] <= gs[p]
      ensures ds[p] == gs[p] <==> totals[p + 1] - totals[p] < n
    {
      DeltaIsGrowth(totals[p], totals[p + 1], n);
      RemainderAtMost(totals[p + 1] - totals[p], n);
    }
    SumOfGrowths(totals);
    SumBelow(ds, gs);
    assert ds == gs <==> GrowsBelow(totals, n) by {
      if ds == gs {
        forall p | 0 <= p < |totals| - 1
          ensures totals[p + 1] - totals[p] < n
        {
          assert ds[p] == gs[p];
        }
      }
    }
  }

  lemma RemainderAtMost(x: int, n: int)
    requires x >= 0 && n > 0
    ensures x % n <= x
  {
  }
}
