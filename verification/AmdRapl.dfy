/**
 src/amd_rapl.c: the conversion of AMD energy registers to micro-joules and its differencing, and
 the choice of one CPU for each physical core.
 */
module AmdRapl {
  import opened Division
  import opened Modular

  const TWO32: int := 0x1_0000_0000
  const MICRO := 1_000_000

  function Pow2(n: nat): (p: int)
    ensures p > 0
  {
    if n == 0 then 1 else 2 * Pow2(n - 1)
  }

  /** 1U << unit. */
  lemma Pow2Doubles(n: nat)
    ensures Pow2(0) == 1 && Pow2(n + 1) == 2 * Pow2(n)
  {
  }

  lemma {:induction false} Pow2Plus(m: nat, n: nat)
    ensures Pow2(m + n) == Pow2(m) * Pow2(n)
  {
    if n > 0 {
      Pow2Plus(m, n - 1);
    }
  }

  lemma Pow2Bound(n: nat)
    requires n <= 31
    ensures Pow2(n) <= 0x8000_0000
  {
    Pow2Monotone(n, 31);
    assert Pow2(7) == 0x80 && Pow2(8) == 0x100;
    Pow2Plus(8, 8);
    Pow2Plus(16, 8);
    Pow2Plus(24, 7);
  }

  lemma Pow2Monotone(m: nat, n: nat)
    requires m <= n
    ensures Pow2(m) <= Pow2(n)
  {
    if m < n {
      Pow2Monotone(m, n - 1);
    }
  }

  // ---------------------------------------------------------------- micro-joules

  lemma MulLess(x: real, y: real, b: real)
    requires b > 0.0 && x < y
    ensures x * b < y * b
  {
  }

  lemma MulAtMost(x: real, y: real, b: real)
    requires b > 0.0 && x <= y
    ensures x * b <= y * b
  {
  }

  /** The quotient of integers, rounded down. */
  lemma FloorOfQuotient(a: int, b: int)
    requires a >= 0 && b > 0
    ensures (a as real / b as real).Floor == a / b
  {
    var q, x := a / b, a as real / b as real;
    assert x * b as real == a as real;
    assert (q * b) as real == q as real * b as real;
    assert ((q + 1) * b) as real == (q + 1) as real * b as real;
    DivMod(a, b);
    assert q * b <= a < (q + 1) * b;
    if x < q as real {
      MulLess(x, q as real, b as real);
    }
    if (q + 1) as real <= x {
      MulAtMost((q + 1) as real, x, b as real);
    }
  }

  lemma MulAtLeast(q: int, b: int)
    requires q >= 0 && b >= 1
    ensures q * b >= q
  {
    assert q * (b - 1) >= 0;
  }

  lemma AtMostZero(d: int, p: int)
    requires p > 0 && d * p < p
    ensures d <= 0
  {
  }

  /** raw_to_microjoule.  The product stays below 2^53 and the divisor is a power of two, so both
      double operations are exact and the cast rounds down. */
  function RawToMicrojoule(raw: int, unit: nat): (r: int)
    requires 0 <= raw < TWO32 && unit <= 31
    ensures raw * MICRO < 0x20_0000_0000_0000
    ensures r == raw * MICRO / Pow2(unit)
    ensures 0 <= r < 0x10_0000_0000_0000
  {
    FloorOfQuotient(raw * MICRO, Pow2(unit));
    QuotientAtMost(raw * MICRO, Pow2(unit));
    ((raw * MICRO) as real / Pow2(unit) as real).Floor
  }

  lemma QuotientAtMost(a: int, b: int)
    requires a >= 0 && b > 0
    ensures 0 <= a / b <= a
  {
    DivMod(a, b);
    MulAtLeast(a / b, b);
  }

  lemma HalfOfQuotient(a: int, b: int)
    requires a >= 0 && b > 0
    ensures a / (2 * b) == (a / b) / 2
  {
    var q := a / b;
    DivMod(a, b);
    DivMod(q, 2);
    assert q * b == (q / 2) * (2 * b) + (q % 2) * b;
    if q % 2 == 0 {
      assert (q % 2) * b == 0;
    } else {
      assert (q % 2) * b == b;
    }
    ModUnique(a, (q % 2) * b + a % b, q / 2, 2 * b);
  }

  /** With unit 0 a tick is a joule, and every unit more halves the energy of a tick, rounded down. */
  lemma UnitHalves(raw: int, unit: nat)
    requires 0 <= raw < 0x1_0000_0000 && unit <= 30
    ensures RawToMicrojoule(raw, 0) == raw * 1_000_000
    ensures RawToMicrojoule(raw, unit + 1) == RawToMicrojoule(raw, unit) / 2
  {
    assert Pow2(0) == 1;
    DivMod(raw * MICRO, 1);
    HalfOfQuotient(raw * MICRO, Pow2(unit));
  }

  /** The usual unit: 2^-16 joule. */
  lemma UnitSixteen(raw: int)
    requires 0 <= raw < 0x1_0000_0000
    ensures RawToMicrojoule(raw, 16) == raw * 1_000_000 / 65_536
    ensures RawToMicrojoule(0x1_0000, 16) == 1_000_000
    ensures forall micro: int, ticks: int :: Accurate(micro, ticks, 16) <==>
              -65_536 < micro * 65_536 - ticks * 1_000_000 < 65_536
  {
    assert Pow2(8) == 0x100;
    Pow2Plus(8, 8);
    assert Pow2(16) == 65_536;
  }

  /** The unit field of MSR_RAPL_POWER_UNIT: bits 8 to 12. */
  function UnitOf(msr: uint64): (unit: nat)
    ensures unit <= 31
  {
    (msr as int / 0x100) % 0x20
  }

  /** The energy register: the low 32 bits. */
  function RawEnergy(msr: uint64): (raw: int)
    ensures 0 <= raw < TWO32
  {
    msr as int % TWO32
  }

  /** Other bits of the registers do not matter. */
  lemma FieldsOfRegisters(hi: nat, u: nat, lo: nat, raw: nat)
    requires u < 32 && lo < 0x100 && raw < 0x1_0000_0000
    ensures hi * 0x2000 + u * 0x100 + lo < 0x1_0000_0000_0000_0000 ==> UnitOf((hi * 0x2000 + u * 0x100 + lo) as uint64) == u
    ensures hi * 0x1_0000_0000 + raw < 0x1_0000_0000_0000_0000 ==> RawEnergy((hi * 0x1_0000_0000 + raw) as uint64) == raw
  {
    ModUnique(hi * 0x2000 + u * 0x100 + lo, lo, hi * 0x20 + u, 0x100);
    ModUnique(hi * 0x20 + u, u, hi, 0x20);
    ModUnique(hi * 0x1_0000_0000 + raw, raw, hi, 0x1_0000_0000);
  }

  /** struct CpuSensor. */
  class CpuSensor {
    var energy_units: nat
    var core_energy: uint64

    constructor ()
      ensures core_energy == 0
    {
      energy_units := 0;
      core_energy := 0;
    }

    /** update_cpu_sensor; the two arguments are what read_msr returned. */
    method Update(unit_msr: uint64, energy_msr: uint64) returns (energy_consumed: uint64)
      modifies this
      ensures energy_units == UnitOf(unit_msr)
      ensures core_energy as int == RawToMicrojoule(RawEnergy(energy_msr), UnitOf(unit_msr))
      ensures energy_consumed as int == (core_energy as int - old(core_energy) as int) % TWO64
    {
      energy_units := UnitOf(unit_msr);
      var raw_core_energy := RawEnergy(energy_msr);
      var now := RawToMicrojoule(raw_core_energy, energy_units) as uint64;
      energy_consumed := ModuloSubstraction(now, core_energy);
      core_energy := now;
    }
  }

  /** What a sensor reports between two register values of the same unit. */
  function Reported(before: int, after: int, unit: nat): (r: int)
    requires 0 <= before < TWO32 && 0 <= after < TWO32 && unit <= 31
  {
    (RawToMicrojoule(after, unit) - RawToMicrojoule(before, unit)) % TWO64
  }

  /** The deviation of `micro` from `ticks` energy units, in units of 10^-6 J / 2^unit. */
  function Deviation(micro: int, ticks: int, unit: nat): int {
    micro * Pow2(unit) - ticks * MICRO
  }

  /** Less than one micro-joule off. */
  predicate Accurate(micro: int, ticks: int, unit: nat) {
    -Pow2(unit) < Deviation(micro, ticks, unit) < Pow2(unit)
  }

  lemma MicrojouleOrder(a: int, b: int, unit: nat)
    requires 0 <= a <= b < TWO32 && unit <= 31
    ensures RawToMicrojoule(a, unit) <= RawToMicrojoule(b, unit)
    ensures Accurate(RawToMicrojoule(b, unit) - RawToMicrojoule(a, unit), b - a, unit)
  {
    var p, x, y := Pow2(unit), a * MICRO, b * MICRO;
    DivMod(x, p);
    DivMod(y, p);
    QuotientOrder(x, y, p);
    assert (y / p - x / p) * p == (y / p) * p - (x / p) * p;
  }

  lemma QuotientOrder(x: int, y: int, p: int)
    requires x <= y && p > 0
    ensures x / p <= y / p
  {
    DivMod(x, p);
    DivMod(y, p);
    var d := x / p - y / p;
    assert d * p == (x / p) * p - (y / p) * p;
    AtMostZero(d, p);
  }

  predicate InRegister(raw: seq<int>) {
    forall p :: 0 <= p < |raw| ==> 0 <= raw[p] < TWO32
  }

  /** What a sensor reports over a window of polls, after the poll that opens the window. */
  function Window(raw: seq<int>, unit: nat): (rs: seq<int>)
    requires raw != [] && InRegister(raw) && unit <= 31
    ensures |rs| == |raw| - 1
  {
    seq(|raw| - 1, p requires 0 <= p < |raw| - 1 => Reported(raw[p], raw[p + 1], unit))
  }

  function Micros(raw: seq<int>, unit: nat): (ms: seq<int>)
    requires InRegister(raw) && unit <= 31
    ensures |ms| == |raw|
  {
    seq(|raw|, p requires 0 <= p < |raw| => RawToMicrojoule(raw[p], unit))
  }

  /** A run of polls of one sensor whose unit does not change.  The first poll has no baseline: it
      reports the absolute energy. */
  method PollSensor(unit_msr: uint64, polls: seq<uint64>) returns (consumed: seq<uint64>)
    ensures |consumed| == |polls|
    ensures polls != [] ==> consumed[0] as int == RawToMicrojoule(RawEnergy(polls[0]), UnitOf(unit_msr))
    ensures forall p :: 0 <= p < |polls| - 1 ==>
              consumed[p + 1] as int == Reported(RawEnergy(polls[p]), RawEnergy(polls[p + 1]), UnitOf(unit_msr))
  {
    hide RawToMicrojoule, UnitOf, RawEnergy;
    var sensor := new CpuSensor();
    consumed := [];
    for p := 0 to |polls|
      invariant |consumed| == p
      invariant sensor.core_energy as int ==
                if p == 0 then 0 else RawToMicrojoule(RawEnergy(polls[p - 1]), UnitOf(unit_msr))
      invariant p > 0 ==> consumed[0] as int == RawToMicrojoule(RawEnergy(polls[0]), UnitOf(unit_msr))
      invariant forall q :: 0 <= q < p - 1 ==>
                  consumed[q + 1] as int == Reported(RawEnergy(polls[q]), RawEnergy(polls[q + 1]), UnitOf(unit_msr))
    {
      var energy := sensor.Update(unit_msr, polls[p]);
      if p == 0 {
        ModUnique(sensor.core_energy as int, sensor.core_energy as int, 0, TWO64);
      }
      consumed := consumed + [energy];
    }
  }

  /** What PollSensor reports behind its first poll is a window over the registers it read. */
  lemma PolledWindow(unit_msr: uint64, polls: seq<uint64>, consumed: seq<uint64>)
    requires polls != [] && |consumed| == |polls|
    requires forall p :: 0 <= p < |polls| - 1 ==>
               consumed[p + 1] as int == Reported(RawEnergy(polls[p]), RawEnergy(polls[p + 1]), UnitOf(unit_msr))
    ensures var raw := seq(|polls|, p requires 0 <= p < |polls| => RawEnergy(polls[p]));
            && InRegister(raw)
            && Window(raw, UnitOf(unit_msr))
               == seq(|polls| - 1, p requires 0 <= p < |polls| - 1 => consumed[p + 1] as int)
  {
  }

  /** No rounding drift: over any window of polls in which the register does not wrap, the reported
      micro-joules are less than 1 off the exact energy, however many polls there are. */
  lemma NoDrift(raw: seq<int>, unit: nat)
    requires raw != [] && InRegister(raw) && unit <= 31 && NeverDecreases(raw)
    ensures Sum(Window(raw, unit)) == RawToMicrojoule(raw[|raw| - 1], unit) - RawToMicrojoule(raw[0], unit)
    ensures Accurate(Sum(Window(raw, unit)), raw[|raw| - 1] - raw[0], unit)
  {
    hide RawToMicrojoule, Accurate, Sum;
    var micros, window := Micros(raw, unit), Window(raw, unit);
    forall p | 0 <= p < |raw| - 1
      ensures window[p] == Growths(micros)[p]
    {
      MicrojouleOrder(raw[p], raw[p + 1], unit);
      ModUnique(micros[p + 1] - micros[p], micros[p + 1] - micros[p], 0, TWO64);
    }
    assert window == Growths(micros);
    SumOfGrowths(micros);
    FirstToLast(raw);
    MicrojouleOrder(raw[0], raw[|raw| - 1], unit);
  }

  lemma {:induction false} FirstToLast(raw: seq<int>)
    requires raw != [] && NeverDecreases(raw)
    ensures raw[0] <= raw[|raw| - 1]
  {
    if |raw| > 1 {
      FirstToLast(raw[..|raw| - 1]);
    }
  }

  /** The register shows the true total modulo 2^32.  If it grows by less than 2^32 between two
      polls, the report is accurate if and only if the register did not wrap: the difference is
      taken modulo 2^64 of micro-joules, not modulo the register. */
  lemma AccurateIffNoWrap(before: nat, after: nat, unit: nat)
    requires before <= after < before + TWO32 && unit <= 31
    ensures Accurate(Reported(before % TWO32, after % TWO32, unit), after - before, unit)
       <==> before / TWO32 == after / TWO32
  {
    var a, b := before % TWO32, after % TWO32;
    if before / TWO32 == after / TWO32 {
      MicrojouleOrder(a, b, unit);
      var d := RawToMicrojoule(b, unit) - RawToMicrojoule(a, unit);
      ModUnique(d, d, 0, TWO64);
    } else {
      assert after / TWO32 == before / TWO32 + 1;
      Wrapped(a, b, unit);
    }
  }

  lemma Wrapped(a: int, b: int, unit: nat)
    requires 0 <= b < a < TWO32 && unit <= 31
    ensures !Accurate(Reported(a, b, unit), b - a + TWO32, unit)
  {
    hide RawToMicrojoule;
    MicrojouleOrder(b, a, unit);
    Pow2Bound(unit);
    var p, d := Pow2(unit), RawToMicrojoule(a, unit) - RawToMicrojoule(b, unit);
    if d == 0 {
      ModUnique(0, 0, 0, TWO64);
      assert Reported(a, b, unit) == 0;
    } else {
      ModUnique(-d, TWO64 - d, -1, TWO64);
      assert Reported(a, b, unit) == TWO64 - d;
      LargeProduct(TWO64 - d, p);
    }
  }

  lemma LargeProduct(r: int, p: int)
    requires r >= 0x8000_0000_0000_0000 && p > 0
    ensures r * p >= p + 0x20_0000_0000_0000
  {
    MulAtLeast(r - 1, p);
    assert r * p == (r - 1) * p + p;
  }

  // ---------------------------------------------------------------- one CPU per core

  /** The topology fields of one CPU. */
  datatype Cpu = Cpu(cpu_id: nat, package_id: nat, core_id: nat)

  function Core(c: Cpu): (nat, nat) {
    (c.core_id, c.package_id)
  }

  function Cores(cpus: seq<Cpu>): set<(nat, nat)> {
    set c | c in cpus :: Core(c)
  }

  /** The CPUs that are the first of their core, in order. */
  function FirstOfCore(cpus: seq<Cpu>): seq<Cpu> {
    if cpus == [] then []
    else
      var n := |cpus| - 1;
      FirstOfCore(cpus[..n]) + if Core(cpus[n]) in Cores(cpus[..n]) then [] else [cpus[n]]
  }

  /** get_arch: one more than the largest package and core number. */
  method GetArch(cpus: seq<Cpu>) returns (nb_package: nat, nb_core: nat)
    ensures forall c :: c in cpus ==> c.package_id < nb_package && c.core_id < nb_core
    ensures nb_package == 1 || exists c :: c in cpus && c.package_id == nb_package - 1
    ensures nb_core == 1 || exists c :: c in cpus && c.core_id == nb_core - 1
  {
    nb_package, nb_core := 0, 0;
    for i := 0 to |cpus|
      invariant forall j :: 0 <= j < i ==> cpus[j].package_id <= nb_package && cpus[j].core_id <= nb_core
      invariant nb_package == 0 || exists c :: c in cpus && c.package_id == nb_package
      invariant nb_core == 0 || exists c :: c in cpus && c.core_id == nb_core
    {
      if cpus[i].package_id > nb_package {
        nb_package := cpus[i].package_id;
      }
      if cpus[i].core_id > nb_core {
        nb_core := cpus[i].core_id;
      }
    }
    nb_package, nb_core := nb_package + 1, nb_core + 1;
  }

  /** The cells of the map after the CPUs so far: 1 for the cores seen, 0 for the others. */
  ghost predicate Marks(map_: array2<nat>, seen: set<(nat, nat)>)
    reads map_
  {
    forall c, p :: 0 <= c < map_.Length0 && 0 <= p < map_.Length1 ==> map_[c, p] == if (c, p) in seen then 1 else 0
  }

  /** is_duplicate: despite its name it returns 1 for a core not seen before. */
  method IsDuplicate(sensor: Cpu, map_: array2<nat>, ghost seen: set<(nat, nat)>) returns (fresh_core: nat)
    requires sensor.core_id < map_.Length0 && sensor.package_id < map_.Length1 && Marks(map_, seen)
    modifies map_
    ensures fresh_core == if Core(sensor) in seen then 0 else 1
    ensures Marks(map_, seen + {Core(sensor)})
  {
    if map_[sensor.core_id, sensor.package_id] == 1 {
      return 0;
    }
    map_[sensor.core_id, sensor.package_id] := map_[sensor.core_id, sensor.package_id] + 1;
    return 1;
  }

  /** The part of init_amd_rapl that chooses the sensors. */
  method ChooseSensors(cpus: seq<Cpu>) returns (sensors: seq<Cpu>)
    ensures sensors == FirstOfCore(cpus)
  {
    var nb_package, nb_core := GetArch(cpus);
    var cpu_map := new nat[nb_core, nb_package]((_, _) => 0);
    sensors := [];
    for i := 0 to |cpus|
      invariant Marks(cpu_map, Cores(cpus[..i]))
      invariant sensors == FirstOfCore(cpus[..i])
    {
      assert cpus[..i + 1][..i] == cpus[..i];
      assert Cores(cpus[..i + 1]) == Cores(cpus[..i]) + {Core(cpus[i])};
      var fresh_core := IsDuplicate(cpus[i], cpu_map, Cores(cpus[..i]));
      if fresh_core == 1 {
        sensors := sensors + [cpus[i]];
      }
    }
    assert cpus[..|cpus|] == cpus;
  }

  lemma FirstOfCoreSnoc(cpus: seq<Cpu>)
    requires cpus != []
    ensures var n := |cpus| - 1;
            var before := FirstOfCore(cpus[..n]);
            && Cores(cpus) == Cores(cpus[..n]) + {Core(cpus[n])}
            && FirstOfCore(cpus) == before + (if Core(cpus[n]) in Cores(cpus[..n]) then [] else [cpus[n]])
            && Cores(before + [cpus[n]]) == Cores(before) + {Core(cpus[n])}
  {
  }

  /** Every CPU that is kept is the first of its core. */
  lemma {:induction false} KeptIsFirst(cpus: seq<Cpu>, c: Cpu) returns (i: nat)
    requires c in FirstOfCore(cpus)
    ensures i < |cpus| && cpus[i] == c && Core(c) !in Cores(cpus[..i])
  {
    hide Cores;
    var n := |cpus| - 1;
    if c in FirstOfCore(cpus[..n]) {
      i := KeptIsFirst(cpus[..n], c);
      assert cpus[..n][..i] == cpus[..i];
    } else {
      i := n;
    }
  }

  /** Each physical core is measured by exactly one sensor, its first CPU. */
  lemma {:induction false} EachCoreOnce(cpus: seq<Cpu>)
    ensures Cores(FirstOfCore(cpus)) == Cores(cpus)
    ensures forall i, j :: 0 <= i < j < |FirstOfCore(cpus)| ==> Core(FirstOfCore(cpus)[i]) != Core(FirstOfCore(cpus)[j])
    ensures forall c :: c in FirstOfCore(cpus) ==>
              exists i :: 0 <= i < |cpus| && cpus[i] == c && Core(c) !in Cores(cpus[..i])
  {
    if cpus != [] {
      var n := |cpus| - 1;
      EachCoreOnce(cpus[..n]);
      FirstOfCoreSnoc(cpus);
      KeptHaveCores(FirstOfCore(cpus[..n]));
      hide FirstOfCore, Cores;
      forall c | c in FirstOfCore(cpus)
        ensures exists i :: 0 <= i < |cpus| && cpus[i] == c && Core(c) !in Cores(cpus[..i])
      {
        var i := KeptIsFirst(cpus, c);
      }
    }
  }

  lemma KeptHaveCores(kept: seq<Cpu>)
    ensures forall i :: 0 <= i < |kept| ==> Core(kept[i]) in Cores(kept)
  {
  }

  /** In terms of the topology: every core of every package is measured, none twice, each by its
      first CPU. */
  lemma EachPairOnce(cpus: seq<Cpu>)
    ensures var kept := FirstOfCore(cpus);
            && (forall c :: c in cpus ==>
                  exists k :: k in kept && k.core_id == c.core_id && k.package_id == c.package_id)
            && (forall i, j :: 0 <= i < j < |kept| ==>
                  kept[i].core_id != kept[j].core_id || kept[i].package_id != kept[j].package_id)
  {
    EachCoreOnce(cpus);
    forall c | c in cpus
      ensures exists k :: k in FirstOfCore(cpus) && k.core_id == c.core_id && k.package_id == c.package_id
    {
      assert Core(c) in Cores(cpus);
      assert Core(c) in Cores(FirstOfCore(cpus));
    }
  }

  lemma FirstByFields(cpus: seq<Cpu>, k: Cpu) returns (i: nat)
    requires k in FirstOfCore(cpus)
    ensures i < |cpus| && cpus[i] == k
    ensures forall h :: 0 <= h < i ==> cpus[h].core_id != k.core_id || cpus[h].package_id != k.package_id
  {
    i := KeptIsFirst(cpus, k);
    forall h | 0 <= h < i
      ensures cpus[h].core_id != k.core_id || cpus[h].package_id != k.package_id
    {
      assert cpus[..i][h] == cpus[h];
      assert Core(cpus[h]) in Cores(cpus[..i]);
    }
  }

  /** The sensors keep the order of the CPUs. */
  lemma {:induction false} KeptInOrder(cpus: seq<Cpu>, i: nat, j: nat) returns (a: nat, b: nat)
    requires i < j < |FirstOfCore(cpus)|
    ensures a < b < |cpus| && cpus[a] == FirstOfCore(cpus)[i] && cpus[b] == FirstOfCore(cpus)[j]
  {
    var n := |cpus| - 1;
    var before := FirstOfCore(cpus[..n]);
    if j < |before| {
      a, b := KeptInOrder(cpus[..n], i, j);
    } else {
      assert before[i] in before;
      a := KeptIsFirst(cpus[..n], before[i]);
      b := n;
    }
  }
}
