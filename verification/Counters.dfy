/**
 The energy counters of src/rapl.c and the performance counters of src/counters.c: arrays of raw
 values, differenced at each poll against the values of the poll before.
 */
module Counters {
  import opened Division
  import opened Modular

  function Ints(xs: seq<uint64>): (ys: seq<int>)
    ensures |ys| == |xs|
  {
    seq(|xs|, i requires 0 <= i < |xs| => xs[i] as int)
  }

  // ---------------------------------------------------------------- src/rapl.c

  /** struct IntelRapl; fields `names` and `fids` play no part. */
  class IntelRapl {
    const values: array<uint64>
    const tmp_values: array<uint64>
    const modulo: array<uint64>
    const nb: nat

    ghost predicate Valid() {
      && values.Length == tmp_values.Length == modulo.Length == nb
      && values != tmp_values && values != modulo && tmp_values != modulo
    }

    /** The end of init_rapl: the baseline is read into values. */
    constructor (ranges: seq<uint64>, baseline: seq<uint64>)
      requires |baseline| == |ranges|
      ensures Valid() && values[..] == baseline && modulo[..] == ranges
      ensures fresh(values) && fresh(tmp_values) && fresh(modulo)
    {
      nb := |ranges|;
      values := new uint64[|ranges|](i requires 0 <= i < |baseline| => baseline[i]);
      tmp_values := new uint64[|ranges|](_ => 0);
      modulo := new uint64[|ranges|](i requires 0 <= i < |ranges| => ranges[i]);
    }

    /** get_rapl; raw are the values that _get_rapl reads. */
    method GetRapl(raw: seq<uint64>, results: array<uint64>)
      requires Valid() && |raw| == nb == results.Length
      requires results != values && results != tmp_values && results != modulo
      modifies results, values, tmp_values
      ensures values[..] == raw && modulo[..] == old(modulo[..])
      ensures forall i :: 0 <= i < nb ==> results[i] == ModuloSubstractionBound(raw[i], old(values[i]), modulo[i])
    {
      ghost var range := modulo[..];
      for i := 0 to nb
        invariant tmp_values[..i] == raw[..i]
        invariant values[..] == old(values[..]) && modulo[..] == range
      {
        tmp_values[i] := raw[i];
      }
      for i := 0 to nb
        invariant values[..] == old(values[..]) && modulo[..] == range && tmp_values[..] == raw
        invariant forall j :: 0 <= j < i ==> results[j] == ModuloSubstractionBound(raw[j], old(values[j]), range[j])
      {
        results[i] := ModuloSubstractionBound(tmp_values[i], values[i], modulo[i]);
      }
      ghost var emitted := results[..];
      for i := 0 to nb
        invariant values[..i] == raw[..i] && tmp_values[..] == raw
        invariant modulo[..] == range && results[..] == emitted
      {
        values[i] := tmp_values[i];
      }
    }
  }

  /** What source i emits over a run of polls; raw[p] are the raw values of poll p. */
  function EmittedByRapl(raw: seq<seq<uint64>>, i: nat, range: uint64): (es: seq<int>)
    requires raw != [] && forall p :: 0 <= p < |raw| ==> i < |raw[p]|
    ensures |es| == |raw| - 1
  {
    seq(|raw| - 1, p requires 0 <= p < |raw| - 1 => ModuloSubstractionBound(raw[p + 1][i], raw[p][i], range) as int)
  }

  /** A whole run: the baseline, then one get_rapl for each further poll. */
  method RunRapl(ranges: seq<uint64>, raw: seq<seq<uint64>>) returns (emitted: seq<seq<uint64>>)
    requires raw != [] && forall p :: 0 <= p < |raw| ==> |raw[p]| == |ranges|
    ensures |emitted| == |raw| - 1
    ensures forall p :: 0 <= p < |emitted| ==> |emitted[p]| == |ranges|
    ensures forall p, i :: 0 <= p < |emitted| && 0 <= i < |ranges| ==>
              emitted[p][i] as int == EmittedByRapl(raw, i, ranges[i])[p]
  {
    hide ModuloSubstractionBound;
    var rapl := new IntelRapl(ranges, raw[0]);
    emitted := [];
    for q := 1 to |raw|
      invariant rapl.Valid() && fresh(rapl.values) && fresh(rapl.tmp_values)
      invariant rapl.values[..] == raw[q - 1] && rapl.modulo[..] == ranges
      invariant |emitted| == q - 1
      invariant forall p :: 0 <= p < q - 1 ==> |emitted[p]| == |ranges|
      invariant forall p, i :: 0 <= p < q - 1 && 0 <= i < |ranges| ==>
                  emitted[p][i] as int == EmittedByRapl(raw, i, ranges[i])[p]
    {
      var results := new uint64[|ranges|](_ => 0);
      ghost var before := rapl.values[..];
      rapl.GetRapl(raw[q], results);
      forall i | 0 <= i < |ranges|
        ensures results[i] as int == EmittedByRapl(raw, i, ranges[i])[q - 1]
      {
        assert before[i] == raw[q - 1][i] && rapl.modulo[i] == ranges[i];
      }
      emitted := emitted + [results[..]];
    }
  }

  /** Energy is conserved over every run: if a source's true energy shows in its register modulo
      its range plus one, the emitted values add up to the energy used if and only if no poll
      misses a whole turn of the register. */
  lemma RaplConservation(raw: seq<seq<uint64>>, i: nat, range: uint64, totals: seq<int>)
    requires raw != [] && |totals| == |raw| && NeverDecreases(totals)
    requires forall p :: 0 <= p < |raw| ==> i < |raw[p]| && raw[p][i] as int == totals[p] % (range as int + 1)
    ensures Sum(EmittedByRapl(raw, i, range)) == totals[|totals| - 1] - totals[0] <==>
            GrowsBelow(totals, range as int + 1)
  {
    var n := range as int + 1;
    Conservation(totals, n);
    var shown := Reads(totals, n);
    forall p | 0 <= p < |raw|
      ensures raw[p][i] as int == shown[p] < n
    {
      DivMod(totals[p], n);
    }
    RaplDeltas(raw, i, range, shown);
  }

  lemma RaplDeltas(raw: seq<seq<uint64>>, i: nat, range: uint64, shown: seq<int>)
    requires raw != [] && |shown| == |raw|
    requires forall p :: 0 <= p < |raw| ==> i < |raw[p]| && raw[p][i] as int == shown[p] <= range as int
    ensures EmittedByRapl(raw, i, range) == Deltas(shown, range as int + 1)
  {
    hide ModuloSubstractionBound;
  }

  // ---------------------------------------------------------------- src/counters.c

  /** struct Counter, without the perf file descriptors. */
  class Counter {
    const counters_values: array<uint64>
    const tmp_counters_values: array<uint64>
    const nbperf: nat

    ghost predicate Valid()
    {
      && counters_values.Length == tmp_counters_values.Length == nbperf
      && counters_values != tmp_counters_values
    }

    /** The end of init_counters: the baseline is read into counters_values. */
    constructor (cores: seq<seq<uint64>>)
      ensures Valid() && nbperf == |cores| && fresh(counters_values) && fresh(tmp_counters_values)
      ensures Shows(counters_values[..], cores)
    {
      nbperf := |cores|;
      counters_values := new uint64[|cores|](_ => 0);
      tmp_counters_values := new uint64[|cores|](_ => 0);
      new;
      ReadCounters(cores, counters_values);
    }

    /** Each value is its event's count over all cores, on 64 bits. */
    static ghost predicate Shows(values: seq<uint64>, cores: seq<seq<uint64>>) {
      && |values| == |cores|
      && forall i :: 0 <= i < |cores| ==> values[i] as int == Sum(Ints(cores[i])) % TWO64
    }

    /** _get_counters; cores[i] are the counts of event i on each core. */
    method ReadCounters(cores: seq<seq<uint64>>, values: array<uint64>)
      requires Valid() && |cores| == nbperf == values.Length
      modifies values
      ensures Shows(values[..], cores)
    {
      for i := 0 to nbperf
        invariant forall j :: 0 <= j < i ==> values[j] as int == Sum(Ints(cores[j])) % TWO64
      {
        var accu: uint64 := 0;
        ghost var done := values[..];
        for core := 0 to |cores[i]|
          invariant values[..] == done
          invariant accu as int == Sum(Ints(cores[i][..core])) % TWO64
        {
          SumSnoc(cores[i], core);
          ModOfSum(Sum(Ints(cores[i][..core])), cores[i][core] as int, TWO64);
          accu := Add64(accu, cores[i][core]);
        }
        assert cores[i][..|cores[i]|] == cores[i];
        values[i] := accu;
      }
    }

    /** get_counters. */
    method GetCounters(cores: seq<seq<uint64>>, results: array<uint64>)
      requires Valid() && |cores| == nbperf == results.Length
      requires results != counters_values && results != tmp_counters_values
      modifies results, counters_values, tmp_counters_values
      ensures Shows(counters_values[..], cores)
      ensures forall i :: 0 <= i < nbperf ==>
                results[i] as int == (counters_values[i] as int - old(counters_values[i]) as int) % TWO64
    {
      hide Counter.Shows;
      ReadCounters(cores, tmp_counters_values);
      ghost var now := tmp_counters_values[..];
      for i := 0 to nbperf
        invariant tmp_counters_values[..] == now && counters_values[..] == old(counters_values[..])
        invariant forall j :: 0 <= j < i ==>
                    results[j] as int == (now[j] as int - old(counters_values[j]) as int) % TWO64
      {
        results[i] := ModuloSubstraction(tmp_counters_values[i], counters_values[i]);
      }
      ghost var emitted := results[..];
      for i := 0 to nbperf
        invariant counters_values[..i] == now[..i] && tmp_counters_values[..] == now && results[..] == emitted
      {
        counters_values[i] := tmp_counters_values[i];
      }
      assert counters_values[..] == now;
    }
  }

  lemma SumSnoc(xs: seq<uint64>, k: nat)
    requires k < |xs|
    ensures Sum(Ints(xs[..k + 1])) == Sum(Ints(xs[..k])) + xs[k] as int
  {
    assert Ints(xs[..k + 1])[..k] == Ints(xs[..k]);
  }

  /** What each core shows of its true count. */
  ghost predicate Wraps(counts: seq<int>, shown: seq<uint64>) {
    |shown| == |counts| && forall c :: 0 <= c < |counts| ==> shown[c] as int == counts[c] % TWO64
  }

  /** Remainders of the cores' counts add up like the counts themselves. */
  lemma {:induction false} CoresAddUp(counts: seq<int>, shown: seq<uint64>)
    requires Wraps(counts, shown)
    ensures Sum(Ints(shown)) % TWO64 == Sum(counts) % TWO64
  {
    var k := |counts| - 1;
    if counts != [] {
      CoresAddUp(counts[..k], shown[..k]);
      SumSnoc(shown, k);
      assert shown[..k + 1] == shown;
      ModOfSum(Sum(Ints(shown[..k])), shown[k] as int, TWO64);
      ModOfSum(Sum(counts[..k]), shown[k] as int, TWO64);
      ModOfSum(counts[k], Sum(counts[..k]), TWO64);
    } else {
      assert Ints(shown) == [];
    }
  }

  /** What event i emits over a run of polls; raw[p][i] are its counts on each core at poll p. */
  function EmittedByEvent(raw: seq<seq<seq<uint64>>>, i: nat): seq<int>
    requires raw != [] && forall p :: 0 <= p < |raw| ==> i < |raw[p]|
  {
    Deltas(seq(|raw|, p requires 0 <= p < |raw| => Sum(Ints(raw[p][i])) % TWO64), TWO64)
  }

  /** A whole run: the baseline, then one get_counters for each further poll. */
  method RunCounters(nbperf: nat, raw: seq<seq<seq<uint64>>>) returns (emitted: seq<seq<uint64>>)
    requires raw != [] && forall p :: 0 <= p < |raw| ==> |raw[p]| == nbperf
    ensures |emitted| == |raw| - 1
    ensures forall p :: 0 <= p < |emitted| ==> |emitted[p]| == nbperf
    ensures forall p, i :: 0 <= p < |emitted| && 0 <= i < nbperf ==>
              emitted[p][i] as int == EmittedByEvent(raw, i)[p]
  {
    hide Sum, Ints;
    var counter := new Counter(raw[0]);
    emitted := [];
    for q := 1 to |raw|
      invariant counter.Valid() && counter.nbperf == nbperf
      invariant fresh(counter.counters_values) && fresh(counter.tmp_counters_values)
      invariant Counter.Shows(counter.counters_values[..], raw[q - 1])
      invariant |emitted| == q - 1
      invariant forall p :: 0 <= p < q - 1 ==> |emitted[p]| == nbperf
      invariant forall p, i :: 0 <= p < q - 1 && 0 <= i < nbperf ==>
                  emitted[p][i] as int == EmittedByEvent(raw, i)[p]
    {
      var results := new uint64[nbperf](_ => 0);
      ghost var before := counter.counters_values[..];
      counter.GetCounters(raw[q], results);
      forall i | 0 <= i < nbperf
        ensures results[i] as int == EmittedByEvent(raw, i)[q - 1]
      {
        assert before[i] as int == Sum(Ints(raw[q - 1][i])) % TWO64;
      }
      emitted := emitted + [results[..]];
    }
  }

  /** Counts are conserved over every run: although each core's count and their sum wrap at 64
      bits, what an event emits adds up to its growth over all cores if and only if no poll misses
      2^64 counts.  counts[p] are the event's true counts on each core at poll p. */
  lemma CoresConservation(raw: seq<seq<seq<uint64>>>, i: nat, counts: seq<seq<int>>, totals: seq<int>)
    requires raw != [] && |counts| == |totals| == |raw| && NeverDecreases(totals)
    requires forall p :: 0 <= p < |raw| ==> i < |raw[p]| && Wraps(counts[p], raw[p][i]) && totals[p] == Sum(counts[p])
    ensures Sum(EmittedByEvent(raw, i)) == totals[|totals| - 1] - totals[0] <==> GrowsBelow(totals, TWO64)
  {
    hide Sum, Ints, Wraps, GrowsBelow, NeverDecreases;
    Conservation(totals, TWO64);
    forall p | 0 <= p < |raw|
      ensures Sum(Ints(raw[p][i])) % TWO64 == totals[p] % TWO64
    {
      CoresAddUp(counts[p], raw[p][i]);
    }
    assert seq(|raw|, p requires 0 <= p < |raw| => Sum(Ints(raw[p][i])) % TWO64) == Reads(totals, TWO64);
  }
}
