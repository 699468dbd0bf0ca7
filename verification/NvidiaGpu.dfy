/**
 The device and sensor layout of src/nvidia_gpu.c: devices and sensors whose initialisation finds
 nothing are compacted away in place, and the labels and values of what is left are written flat,
 device by device and sensor by sensor.
 */
module NvidiaGpu {
  import opened Blocks

  const COUNT_SENSOR := 5

  /** An initialised sensor: its device, its kind, and the names of its values. */
  datatype Sensor = Sensor(device: nat, kind: nat, names: seq<string>)

  /** What the driver answers for one device: whether it can be opened, and the names that each
      kind of sensor finds (none meaning a failed init). */
  datatype Answer = Answer(available: bool, found: seq<seq<string>>)

  predicate Complete(available: seq<Answer>) {
    forall i :: 0 <= i < |available| ==> |available[i].found| == COUNT_SENSOR
  }

  /** The sensors of a device that found something, among the first n kinds. */
  function KeptSensors(device: nat, found: seq<seq<string>>, n: nat): (s: seq<Sensor>)
    requires n <= |found|
    ensures |s| <= n
  {
    if n == 0 then []
    else KeptSensors(device, found, n - 1) + if found[n - 1] == [] then [] else [Sensor(device, n - 1, found[n - 1])]
  }

  function Kept(device: nat, a: Answer): (s: seq<Sensor>)
    ensures |s| <= |a.found|
  {
    if a.available then KeptSensors(device, a.found, |a.found|) else []
  }

  /** The devices, among the first n, that can be opened and have a sensor. */
  function KeptDevices(available: seq<Answer>, n: nat): (ds: seq<seq<Sensor>>)
    requires n <= |available|
    ensures |ds| <= n
  {
    if n == 0 then []
    else
      var s := Kept(n - 1, available[n - 1]);
      KeptDevices(available, n - 1) + if s == [] then [] else [s]
  }

  function Names(sensors: seq<Sensor>): (ns: seq<seq<string>>)
    ensures |ns| == |sensors|
  {
    seq(|sensors|, i requires 0 <= i < |sensors| => sensors[i].names)
  }

  /** What one function produces for each sensor. */
  function Produced<T>(sensors: seq<Sensor>, produce: Sensor -> seq<T>): (ps: seq<seq<T>>)
    ensures |ps| == |sensors|
  {
    seq(|sensors|, i requires 0 <= i < |sensors| => produce(sensors[i]))
  }

  /** A getter returns as many values as its init counted. */
  ghost predicate Faithful<T>(produce: Sensor -> seq<T>) {
    forall s: Sensor :: |produce(s)| == |s.names|
  }

  class Gpu {
    const sensors: array2<Sensor>
    const counts: array<nat>
    var count: nat

    ghost predicate Shaped(n: nat)
      reads this
    {
      sensors.Length0 == n && sensors.Length1 == COUNT_SENSOR && counts.Length == n && count <= n
    }

    ghost predicate Valid()
      reads this, counts
    {
      && Shaped(counts.Length)
      && forall d :: 0 <= d < count ==> counts[d] <= COUNT_SENSOR
    }

    ghost function Device(d: nat): seq<Sensor>
      reads this, sensors, counts
      requires Valid() && d < count
    {
      seq(counts[d], i requires 0 <= i < counts[d] reads this, sensors, counts requires Valid() && d < count => sensors[d, i])
    }

    ghost function Devices(): (ds: seq<seq<Sensor>>)
      reads this, sensors, counts
      requires Valid()
      ensures |ds| == count
    {
      seq(count, d requires 0 <= d < count reads this, sensors, counts requires Valid() => Device(d))
    }

    constructor (n: nat)
      ensures Shaped(n) && Valid() && count == 0 && fresh(sensors) && fresh(counts)
    {
      sensors := new Sensor[n, COUNT_SENSOR]((_, _) => Sensor(0, 0, []));
      counts := new nat[n](_ => 0);
      count := 0;
    }

    /** init_device: the next sensor overwrites the slot of one that found nothing. */
    method InitDevice(device: nat, a: Answer) returns (total_count: nat)
      requires Valid() && count < counts.Length && |a.found| == COUNT_SENSOR
      modifies sensors, counts
      ensures Valid()
      ensures forall d, i :: 0 <= d < count && 0 <= i < COUNT_SENSOR ==> sensors[d, i] == old(sensors[d, i])
      ensures forall d :: 0 <= d < count ==> counts[d] == old(counts[d])
      ensures total_count == |Flatten(Names(Kept(device, a)))|
      ensures Kept(device, a) != [] ==>
        && counts[count] == |Kept(device, a)|
        && forall i :: 0 <= i < counts[count] ==> sensors[count, i] == Kept(device, a)[i]
      ensures total_count == 0 <==> Kept(device, a) == []
    {
      if !a.available {
        return 0;
      }
      hide Flatten, Names, KeptSensors;
      NoKept(device, a.found);
      var sensor_count := 0;
      total_count := 0;
      for i := 0 to COUNT_SENSOR
        invariant forall d, j :: 0 <= d < count && 0 <= j < COUNT_SENSOR ==> sensors[d, j] == old(sensors[d, j])
        invariant forall d :: 0 <= d < count ==> counts[d] == old(counts[d])
        invariant sensor_count == |KeptSensors(device, a.found, i)|
        invariant forall j :: 0 <= j < sensor_count ==> sensors[count, j] == KeptSensors(device, a.found, i)[j]
        invariant total_count == |Flatten(Names(KeptSensors(device, a.found, i)))|
        invariant total_count == 0 <==> sensor_count == 0
      {
        KeptNames(device, a.found, i);
        var n := InitSensor(device, a.found, i, sensor_count);
        if n != 0 {
          sensor_count := sensor_count + 1;
          total_count := total_count + n;
        }
      }
      counts[count] := sensor_count;
    }

    /** One turn of that loop: what was found is kept in the next place. */
    method InitSensor(device: nat, found: seq<seq<string>>, i: nat, at: nat) returns (n: nat)
      requires Shaped(counts.Length) && count < counts.Length && |found| == COUNT_SENSOR
      requires i < COUNT_SENSOR && at == |KeptSensors(device, found, i)|
      requires forall j :: 0 <= j < at ==> sensors[count, j] == KeptSensors(device, found, i)[j]
      modifies sensors
      ensures forall d, j :: 0 <= d < count && 0 <= j < COUNT_SENSOR ==> sensors[d, j] == old(sensors[d, j])
      ensures n == |found[i]|
      ensures var kept := KeptSensors(device, found, i + 1);
              && |kept| == (if n == 0 then at else at + 1)
              && forall j :: 0 <= j < |kept| ==> sensors[count, j] == kept[j]
    {
      hide KeptSensors, Flatten, Names;
      KeptNames(device, found, i);
      sensors[count, at] := Sensor(device, i, found[i]);
      n := |found[i]|;
    }

    /** One turn of the loop of init_nvidia_gpu: the next device overwrites the slot of one without
        sensors. */
    method NextDevice(device: nat, a: Answer) returns (initialized_count: nat)
      requires Valid() && count < counts.Length && |a.found| == COUNT_SENSOR
      modifies this, sensors, counts
      ensures Valid() && count <= old(count) + 1
      ensures initialized_count == |Flatten(Names(Kept(device, a)))|
      ensures Devices() == old(Devices()) + if Kept(device, a) == [] then [] else [Kept(device, a)]
    {
      hide Kept, Flatten, Names;
      initialized_count := InitDevice(device, a);
      forall d | 0 <= d < count
        ensures Device(d) == old(Device(d))
      {
      }
      assert Devices() == old(Devices());
      if initialized_count != 0 {
        count := count + 1;
        Appended(old(Devices()), Kept(device, a));
      }
    }

    /** The device in the slot just taken is the kept one. */
    lemma Appended(before: seq<seq<Sensor>>, s: seq<Sensor>)
      requires Valid() && count == |before| + 1
      requires forall d :: 0 <= d < |before| ==>
                 counts[d] == |before[d]| && forall i :: 0 <= i < counts[d] ==> sensors[d, i] == before[d][i]
      requires counts[count - 1] == |s| && forall i :: 0 <= i < |s| ==> sensors[count - 1, i] == s[i]
      ensures Devices() == before + [s]
    {
      forall d | 0 <= d < count
        ensures Device(d) == (before + [s])[d]
      {
      }
    }

    /** init_nvidia_gpu. */
    method Init(available: seq<Answer>) returns (sensor_count: nat)
      requires Valid() && count == 0 && counts.Length == |available| && Complete(available)
      modifies this, sensors, counts
      ensures Valid() && Devices() == KeptDevices(available, |available|)
      ensures sensor_count == |Flatten(Names(Flatten(Devices())))|
    {
      hide Kept, Flatten, Names;
      sensor_count := 0;
      NoNames();
      for i := 0 to |available|
        invariant Valid() && count <= i
        invariant Devices() == KeptDevices(available, i)
        invariant sensor_count == |Flatten(Names(Flatten(KeptDevices(available, i))))|
      {
        KeptDevicesNext(available, i);
        var initialized_count := NextDevice(i, available[i]);
        if initialized_count != 0 {
          sensor_count := sensor_count + initialized_count;
        }
      }
    }

    /** get_device and label_device: the same walk, writing readings or names. */
    method WriteDevice<T>(d: nat, produce: Sensor -> seq<T>, out: array<T>, start: nat) returns (n: nat)
      requires Valid() && d < count && (out as object) != sensors && (out as object) != counts
      requires start + |Flatten(Produced(Device(d), produce))| <= out.Length
      modifies out
      ensures n == |Flatten(Produced(Device(d), produce))|
      ensures out[..start + n] == old(out[..start]) + Flatten(Produced(Device(d), produce))
    {
      ghost var all := Produced(Device(d), produce);
      n := 0;
      for i := 0 to counts[d]
        invariant Produced(Device(d), produce) == all
        invariant n == |Flatten(all[..i])| && start + n <= out.Length
        invariant out[..start + n] == old(out[..start]) + Flatten(all[..i])
      {
        FlattenTake(all, i);
        var block := produce(sensors[d, i]);
        Copy(block, out, start + n);
        n := n + |block|;
      }
      assert all[..counts[d]] == all;
    }

    /** get_nvidia_gpu and label_nvidia_gpu. */
    method Write<T>(produce: Sensor -> seq<T>, out: array<T>) returns (n: nat)
      requires Valid() && (out as object) != sensors && (out as object) != counts
      requires |Flatten(Produced(Flatten(Devices()), produce))| <= out.Length
      modifies out
      ensures n == |Flatten(Produced(Flatten(Devices()), produce))|
      ensures out[..n] == Flatten(Produced(Flatten(Devices()), produce))
    {
      ghost var devices := Devices();
      n := 0;
      for d := 0 to count
        invariant Devices() == devices
        invariant n == |Flatten(Produced(Flatten(devices[..d]), produce))| <= out.Length
        invariant out[..n] == Flatten(Produced(Flatten(devices[..d]), produce))
      {
        DevicesTake(devices, d, produce);
        var m := WriteDevice(d, produce, out, n);
        n := n + m;
      }
      assert devices[..count] == devices;
    }
  }

  /** A getter or labeler of one sensor: it writes its block at the current pointer. */
  method Copy<T>(block: seq<T>, out: array<T>, start: nat)
    requires start + |block| <= out.Length
    modifies out
    ensures out[..start + |block|] == old(out[..start]) + block
  {
    for j := 0 to |block|
      invariant out[..start] == old(out[..start])
      invariant out[start..start + j] == block[..j]
    {
      out[start + j] := block[j];
    }
    assert out[..start + |block|] == out[..start] + out[start..start + |block|];
  }

  // ---------------------------------------------------------------- sizes of blocks

  lemma NoNames()
    ensures |Flatten(Names(Flatten<Sensor>([])))| == |Flatten(Names([]))| == 0
  {
  }

  lemma NoKept(device: nat, found: seq<seq<string>>)
    ensures KeptSensors(device, found, 0) == [] && |Flatten(Names([]))| == 0
  {
    NoNames();
  }

  lemma KeptDevicesNext(available: seq<Answer>, n: nat)
    requires n < |available|
    ensures var s := Kept(n, available[n]);
            && KeptDevices(available, n + 1) == KeptDevices(available, n) + (if s == [] then [] else [s])
            && |Flatten(Names(Flatten(KeptDevices(available, n + 1))))|
               == |Flatten(Names(Flatten(KeptDevices(available, n))))| + |Flatten(Names(s))|
  {
    var before, s := KeptDevices(available, n), Kept(n, available[n]);
    if s == [] {
      assert before + [] == before;
    } else {
      DeviceNames(before, s);
    }
  }

  lemma KeptNames(device: nat, found: seq<seq<string>>, n: nat)
    requires n < |found|
    ensures found[n] == [] ==> KeptSensors(device, found, n + 1) == KeptSensors(device, found, n)
    ensures found[n] != [] ==>
              KeptSensors(device, found, n + 1) == KeptSensors(device, found, n) + [Sensor(device, n, found[n])]
    ensures |Flatten(Names(KeptSensors(device, found, n + 1)))|
         == |Flatten(Names(KeptSensors(device, found, n)))| + |found[n]|
  {
    var before := KeptSensors(device, found, n);
    if found[n] != [] {
      var s := Sensor(device, n, found[n]);
      assert Names(before + [s]) == Names(before) + [s.names];
      FlattenSnoc(Names(before), s.names);
    } else {
      assert before + [] == before;
    }
  }

  lemma {:induction false} FlattenAppend<T>(xs: seq<seq<T>>, ys: seq<seq<T>>)
    ensures Flatten(xs + ys) == Flatten(xs) + Flatten(ys)
  {
    if ys == [] {
      assert xs + ys == xs;
    } else {
      var n := |ys| - 1;
      FlattenAppend(xs, ys[..n]);
      assert xs + ys == (xs + ys[..n]) + [ys[n]] && ys == ys[..n] + [ys[n]];
      FlattenSnoc(xs + ys[..n], ys[n]);
      FlattenSnoc(ys[..n], ys[n]);
      hide Flatten;
      assert Flatten(xs) + Flatten(ys) == Flatten(xs) + Flatten(ys[..n]) + ys[n];
    }
  }

  lemma DeviceNames(ds: seq<seq<Sensor>>, s: seq<Sensor>)
    ensures |Flatten(Names(Flatten(ds + [s])))| == |Flatten(Names(Flatten(ds)))| + |Flatten(Names(s))|
  {
    FlattenSnoc(ds, s);
    assert Names(Flatten(ds) + s) == Names(Flatten(ds)) + Names(s);
    FlattenAppend(Names(Flatten(ds)), Names(s));
  }

  lemma FlattenTake<T>(xs: seq<seq<T>>, i: nat)
    requires i < |xs|
    ensures Flatten(xs[..i + 1]) == Flatten(xs[..i]) + xs[i]
    ensures |Flatten(xs[..i + 1])| <= |Flatten(xs)|
  {
    assert xs[..i + 1] == xs[..i] + [xs[i]];
    FlattenSnoc(xs[..i], xs[i]);
    FlattenAppend(xs[..i + 1], xs[i + 1..]);
    assert xs == xs[..i + 1] + xs[i + 1..];
  }

  lemma DevicesTake<T>(ds: seq<seq<Sensor>>, d: nat, produce: Sensor -> seq<T>)
    requires d < |ds|
    ensures Flatten(Produced(Flatten(ds[..d + 1]), produce))
         == Flatten(Produced(Flatten(ds[..d]), produce)) + Flatten(Produced(ds[d], produce))
    ensures |Flatten(Produced(Flatten(ds[..d + 1]), produce))| <= |Flatten(Produced(Flatten(ds), produce))|
  {
    FlattenTake(ds, d);
    ProducedAppend(Flatten(ds[..d]), ds[d], produce);
    assert ds == ds[..d + 1] + ds[d + 1..];
    FlattenAppend(ds[..d + 1], ds[d + 1..]);
    ProducedAppend(Flatten(ds[..d + 1]), Flatten(ds[d + 1..]), produce);
  }

  lemma ProducedAppend<T>(a: seq<Sensor>, b: seq<Sensor>, produce: Sensor -> seq<T>)
    ensures Flatten(Produced(a + b, produce)) == Flatten(Produced(a, produce)) + Flatten(Produced(b, produce))
  {
    assert Produced(a + b, produce) == Produced(a, produce) + Produced(b, produce);
    FlattenAppend(Produced(a, produce), Produced(b, produce));
  }

  // ---------------------------------------------------------------- what is kept

  /** Number i is kept if and only if kind i found something; its place is the number of kinds below
      i that did. */
  lemma {:induction false} KeptSensorAt(device: nat, found: seq<seq<string>>, n: nat, i: nat)
    requires i < n <= |found|
    ensures var k := |KeptSensors(device, found, i)|;
            if found[i] == [] then |KeptSensors(device, found, i + 1)| == k
            else
              && |KeptSensors(device, found, i + 1)| == k + 1 <= |KeptSensors(device, found, n)|
              && KeptSensors(device, found, n)[k] == Sensor(device, i, found[i])
  {
    if i < n - 1 {
      KeptSensorAt(device, found, n - 1, i);
    }
  }

  /** The sensors of a device: all kinds that found something, in ascending order, if it opens. */
  lemma KeptAre(device: nat, a: Answer)
    ensures !a.available ==> Kept(device, a) == []
    ensures forall i :: 0 <= i < |a.found| ==>
              (Sensor(device, i, a.found[i]) in Kept(device, a) <==> a.available && a.found[i] != [])
    ensures forall s :: s in Kept(device, a) ==> s.kind < |a.found| && s == Sensor(device, s.kind, a.found[s.kind])
    ensures forall k, l :: 0 <= k < l < |Kept(device, a)| ==> Kept(device, a)[k].kind < Kept(device, a)[l].kind
  {
    if a.available {
      KeptRange(device, a.found, |a.found|);
      forall i | 0 <= i < |a.found|
        ensures Sensor(device, i, a.found[i]) in Kept(device, a) <==> a.found[i] != []
      {
        KeptSensorAt(device, a.found, |a.found|, i);
      }
    }
  }

  lemma KeptRange(device: nat, found: seq<seq<string>>, n: nat)
    requires n <= |found|
    ensures forall s :: s in KeptSensors(device, found, n) ==>
              s.kind < n && found[s.kind] != [] && s == Sensor(device, s.kind, found[s.kind])
    ensures forall k, l :: 0 <= k < l < |KeptSensors(device, found, n)| ==>
              KeptSensors(device, found, n)[k].kind < KeptSensors(device, found, n)[l].kind
  {
    if n > 0 {
      KeptRange(device, found, n - 1);
      var before := KeptSensors(device, found, n - 1);
      assert forall k :: 0 <= k < |before| ==> before[k] in before;
    }
  }

  /** Device i is kept if and only if it has a sensor, behind the devices kept before it. */
  lemma {:induction false} KeptDeviceAt(available: seq<Answer>, n: nat, i: nat)
    requires i < n <= |available|
    ensures var k := |KeptDevices(available, i)|;
            if Kept(i, available[i]) == [] then |KeptDevices(available, i + 1)| == k
            else
              && |KeptDevices(available, i + 1)| == k + 1 <= |KeptDevices(available, n)|
              && KeptDevices(available, n)[k] == Kept(i, available[i])
  {
    hide Kept;
    if i < n - 1 {
      KeptDeviceAt(available, n - 1, i);
    }
  }

  lemma SameOffsets<T>(sensors: seq<Sensor>, produce: Sensor -> seq<T>, n: nat)
    requires Faithful(produce) && n <= |sensors|
    ensures Offset(Produced(sensors, produce), n) == Offset(Names(sensors), n)
  {
    if n > 0 {
      SameOffsets(sensors, produce, n - 1);
    }
  }

  /** Label k and value k are number j of the same sensor, and the two lists are equally long. */
  lemma Aligned<T>(sensors: seq<Sensor>, produce: Sensor -> seq<T>, k: nat)
    requires Faithful(produce) && k < |Flatten(Names(sensors))|
    ensures |Flatten(Produced(sensors, produce))| == |Flatten(Names(sensors))|
    ensures k < Offset(Names(sensors), |sensors|)
    ensures var i := Owner(Names(sensors), k);
            var j := k - Offset(Names(sensors), i);
            && 0 <= j < |sensors[i].names| == |produce(sensors[i])|
            && Flatten(Names(sensors))[k] == sensors[i].names[j]
            && Flatten(Produced(sensors, produce))[k] == produce(sensors[i])[j]
  {
    FlattenLength(Names(sensors));
    FlattenLength(Produced(sensors, produce));
    SameOffsets(sensors, produce, |sensors|);
    var i := Owner(Names(sensors), k);
    SameOffsets(sensors, produce, i);
    FlattenAt(Names(sensors), i, k - Offset(Names(sensors), i));
    FlattenAt(Produced(sensors, produce), i, k - Offset(Names(sensors), i));
  }
}
