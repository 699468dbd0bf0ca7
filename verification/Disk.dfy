/**
 src/disk.c and the integer scanner read_int of src/util.c: fifteen numbers are scanned out of
 each disk's stat file, and each poll emits their differences, on 64 bits.
 */
module Disk {
  import opened Decimals
  import opened Modular

  const DISK_VALUES_SIZE := 15

  // ---------------------------------------------------------------- read_int

  /** First digit at or behind ptr. */
  function SkipTo(buf: string, ptr: nat): (p: nat)
    requires ptr <= |buf|
    ensures ptr <= p <= |buf|
    decreases |buf| - ptr
  {
    if ptr == |buf| || IsDigit(buf[ptr]) then ptr else SkipTo(buf, ptr + 1)
  }

  /** First character at or behind ptr that is no digit. */
  function RunEnd(buf: string, ptr: nat): (p: nat)
    requires ptr <= |buf|
    ensures ptr <= p <= |buf|
    ensures forall i :: ptr <= i < p ==> IsDigit(buf[i])
    decreases |buf| - ptr
  {
    if ptr == |buf| || !IsDigit(buf[ptr]) then ptr else RunEnd(buf, ptr + 1)
  }

  /** read_int does not look for the end of its buffer: there must be a number, and something
      behind it. */
  predicate Scannable(buf: string, ptr: nat)
    requires ptr <= |buf|
  {
    SkipTo(buf, ptr) < |buf| && RunEnd(buf, SkipTo(buf, ptr)) < |buf|
  }

  /** The digits that read_int finds, and where it stops. */
  function NextEnd(buf: string, ptr: nat): (p: nat)
    requires ptr <= |buf|
    ensures ptr <= p <= |buf|
  {
    RunEnd(buf, SkipTo(buf, ptr))
  }

  function NextNumber(buf: string, ptr: nat): nat
    requires ptr <= |buf|
  {
    Number(buf[SkipTo(buf, ptr)..NextEnd(buf, ptr)])
  }

  /** *val * 10 + digit, on 64 bits. */
  lemma ScanStep(x: nat, d: nat)
    ensures ((x % TWO64) * 10 + d) % TWO64 == (x * 10 + d) % TWO64
  {
    ModShift((x % TWO64) * 10 + d, 10 * (x / TWO64), TWO64);
  }

  lemma NumberStep(digits: string, c: char)
    requires AllDigits(digits) && IsDigit(c)
    ensures AllDigits(digits + [c])
    ensures ((Number(digits) % TWO64) * 10 + (c as nat - '0' as nat)) % TWO64 == Number(digits + [c]) % TWO64
  {
    assert (digits + [c])[..|digits|] == digits;
    ScanStep(Number(digits), c as nat - '0' as nat);
  }

  /** read_int. */
  method ReadInt(buf: string, ptr: nat) returns (next: nat, val: uint64)
    requires ptr <= |buf| && Scannable(buf, ptr)
    ensures next == NextEnd(buf, ptr)
    ensures val as int == NextNumber(buf, ptr) % TWO64
  {
    hide Number;
    next := ptr;
    while buf[next] > '9' || buf[next] < '0'
      invariant next < |buf| && SkipTo(buf, next) == SkipTo(buf, ptr)
      decreases |buf| - next
    {
      next := next + 1;
    }
    ghost var start := next;
    val := 0;
    NumberOfNothing();
    assert buf[start..next] == "";
    while buf[next] <= '9' && buf[next] >= '0'
      invariant start <= next < |buf| && RunEnd(buf, next) == RunEnd(buf, start) < |buf|
      invariant AllDigits(buf[start..next])
      invariant val as int == Number(buf[start..next]) % TWO64
      decreases |buf| - next
    {
      NumberStep(buf[start..next], buf[next]);
      assert buf[start..next + 1] == buf[start..next] + [buf[next]];
      val := ((val as int * 10 + (buf[next] as int - '0' as int)) % TWO64) as uint64;
      next := next + 1;
    }
  }

  // ---------------------------------------------------------------- chained scans

  predicate ScannableN(buf: string, ptr: nat, n: nat)
    requires ptr <= |buf|
    decreases n
  {
    n == 0 || (Scannable(buf, ptr) && ScannableN(buf, NextEnd(buf, ptr), n - 1))
  }

  /** n calls of read_int, each from where the one before stopped. */
  function Scan(buf: string, ptr: nat, n: nat): (vs: seq<int>)
    requires ptr <= |buf|
    ensures |vs| == n
    decreases n
  {
    if n == 0 then [] else [NextNumber(buf, ptr) % TWO64] + Scan(buf, NextEnd(buf, ptr), n - 1)
  }

  lemma ScanUnrolls(buf: string, ptr: nat, n: nat)
    requires ptr <= |buf| && n > 0 && ScannableN(buf, ptr, n)
    ensures Scannable(buf, ptr) && ScannableN(buf, NextEnd(buf, ptr), n - 1)
    ensures Scan(buf, ptr, n)[0] == NextNumber(buf, ptr) % TWO64
    ensures Scan(buf, ptr, n)[1..] == Scan(buf, NextEnd(buf, ptr), n - 1)
  {
  }

  /** A number and the text in front of it. */
  datatype Item = Item(sep: string, digits: string)

  predicate NoDigits(s: string) {
    forall i :: 0 <= i < |s| ==> !IsDigit(s[i])
  }

  /** Numbers separated by nonempty text; the first may start the buffer. */
  predicate Separated(items: seq<Item>, first: bool) {
    forall i :: 0 <= i < |items| ==>
      && NoDigits(items[i].sep) && AllDigits(items[i].digits) && items[i].digits != ""
      && (items[i].sep == "" ==> first && i == 0)
  }

  function Print(items: seq<Item>, tail: string): string {
    if items == [] then tail else items[0].sep + items[0].digits + Print(items[1..], tail)
  }

  lemma SkipOver(buf: string, p: nat, q: nat)
    requires p <= q < |buf| && IsDigit(buf[q])
    requires forall i :: p <= i < q ==> !IsDigit(buf[i])
    ensures SkipTo(buf, p) == q
    decreases q - p
  {
    if p < q {
      SkipOver(buf, p + 1, q);
    }
  }

  lemma RunOver(buf: string, p: nat, q: nat)
    requires p <= q < |buf| && !IsDigit(buf[q])
    requires forall i :: p <= i < q ==> IsDigit(buf[i])
    ensures RunEnd(buf, p) == q
    decreases q - p
  {
    if p < q {
      RunOver(buf, p + 1, q);
    }
  }

  lemma PrintStarts(items: seq<Item>, tail: string)
    requires Separated(items, false) && tail != "" && !IsDigit(tail[0])
    ensures Print(items, tail) != "" && !IsDigit(Print(items, tail)[0])
  {
  }

  /** One call of read_int steps over one item. */
  lemma ReadItem(before: string, item: Item, rest: string)
    requires NoDigits(item.sep) && AllDigits(item.digits) && item.digits != ""
    requires rest != "" && !IsDigit(rest[0])
    ensures var buf := before + item.sep + item.digits + rest;
            && Scannable(buf, |before|)
            && NextEnd(buf, |before|) == |before| + |item.sep| + |item.digits|
            && NextNumber(buf, |before|) == Number(item.digits)
  {
    hide Number;
    var buf := before + item.sep + item.digits + rest;
    var start := |before| + |item.sep|;
    var end := start + |item.digits|;
    assert buf[|before|..start] == item.sep && buf[start..end] == item.digits;
    assert forall i :: |before| <= i < start ==> buf[i] == item.sep[i - |before|];
    assert forall i :: start <= i < end ==> buf[i] == item.digits[i - start];
    SkipOver(buf, |before|, start);
    assert buf[end] == rest[0];
    RunOver(buf, start, end);
  }

  /** Scanning the numbers printed in a buffer gives back the first n of them, whatever text
      separates them and whatever follows. */
  lemma {:induction false} ScanPrinted(before: string, items: seq<Item>, tail: string, n: nat, first: bool)
    requires n <= |items| && Separated(items, first) && tail != "" && !IsDigit(tail[0])
    ensures var buf := before + Print(items, tail);
            && ScannableN(buf, |before|, n)
            && Scan(buf, |before|, n) == seq(n, i requires 0 <= i < n => Number(items[i].digits) % TWO64)
    decreases n
  {
    hide SkipTo, RunEnd, Number;
    if n > 0 {
      var item, rest := items[0], Print(items[1..], tail);
      var buf := before + Print(items, tail);
      PrintStarts(items[1..], tail);
      ReadItem(before, item, rest);
      assert buf == before + item.sep + item.digits + rest;
      ScanPrinted(before + item.sep + item.digits, items[1..], tail, n - 1, false);
    }
  }

  // ---------------------------------------------------------------- printed decimals

  /** Leading zeros change nothing. */
  lemma {:induction false} LeadingZeros(z: nat, digits: string)
    requires AllDigits(digits)
    ensures AllDigits(seq(z, _ => '0') + digits)
    ensures Number(seq(z, _ => '0') + digits) == Number(digits)
  {
    var zeros := seq(z, _ => '0');
    var s := zeros + digits;
    if digits != "" {
      var k := |digits| - 1;
      LeadingZeros(z, digits[..k]);
      assert s[..|s| - 1] == zeros + digits[..k];
    } else if z > 0 {
      LeadingZeros(z - 1, digits);
      assert s[..|s| - 1] == seq(z - 1, _ => '0') + digits;
    }
  }

  /** Numbers as text: a separator, zeros, the decimal digits. */
  function Items(numbers: seq<nat>, zeros: seq<nat>, seps: seq<string>): (items: seq<Item>)
    requires |numbers| == |zeros| == |seps|
    ensures |items| == |numbers|
  {
    seq(|numbers|, i requires 0 <= i < |numbers| => Item(seps[i], seq(zeros[i], _ => '0') + Decimal(numbers[i])))
  }

  /** The round trip: 64-bit numbers printed in decimal, with any leading zeros, are scanned back. */
  lemma ScanDecimals(numbers: seq<nat>, zeros: seq<nat>, seps: seq<string>, tail: string, n: nat)
    requires |numbers| == |zeros| == |seps| && tail != "" && !IsDigit(tail[0])
    requires forall i :: 0 <= i < |numbers| ==> numbers[i] < TWO64
    requires forall i :: 0 <= i < |seps| ==> NoDigits(seps[i]) && (i > 0 ==> seps[i] != "")
    requires n <= |numbers|
    ensures var buf := Print(Items(numbers, zeros, seps), tail);
            ScannableN(buf, 0, n) && Scan(buf, 0, n) == numbers[..n]
  {
    hide Decimal, Number, Scan, ScannableN, Print;
    var items := Items(numbers, zeros, seps);
    forall i | 0 <= i < |items|
      ensures AllDigits(items[i].digits) && items[i].digits != "" && Number(items[i].digits) % TWO64 == numbers[i]
    {
      NumberOfDecimal(numbers[i]);
      LeadingZeros(zeros[i], Decimal(numbers[i]));
    }
    ScanPrinted("", items, tail, n, true);
    assert "" + Print(items, tail) == Print(items, tail);
  }

  // ---------------------------------------------------------------- get_disk

  /** struct Disk; `sources` and `labels` play no part. */
  class DiskState {
    const values: array<uint64>
    const tmp_values: array<uint64>
    const nb: nat

    ghost predicate Valid() {
      values.Length == tmp_values.Length == nb * DISK_VALUES_SIZE && values != tmp_values
    }

    /** The end of init_disk: the baseline is read and copied. */
    constructor (nb: nat, buffers: seq<string>)
      requires |buffers| == nb && Complete(buffers)
      ensures Valid() && this.nb == nb && fresh(values) && fresh(tmp_values)
      ensures Holds(tmp_values[..], buffers)
    {
      this.nb := nb;
      values := new uint64[nb * DISK_VALUES_SIZE](_ => 0);
      tmp_values := new uint64[nb * DISK_VALUES_SIZE](_ => 0);
      new;
      ReadDisks(buffers);
      Keep();
    }

    /** The array holds the fifteen numbers of each disk. */
    static ghost predicate Holds(vs: seq<uint64>, buffers: seq<string>) {
      && |vs| == |buffers| * DISK_VALUES_SIZE
      && forall d, i :: 0 <= d < |buffers| && 0 <= i < DISK_VALUES_SIZE ==>
           vs[d * DISK_VALUES_SIZE + i] as int == Scanned(buffers, d, i)
    }

    /** memcpy(tmp_values, values). */
    method Keep()
      requires Valid()
      modifies tmp_values
      ensures tmp_values[..] == values[..]
    {
      for i := 0 to nb * DISK_VALUES_SIZE
        invariant tmp_values[..i] == values[..i]
      {
        tmp_values[i] := values[i];
      }
    }

    static ghost predicate Complete(buffers: seq<string>) {
      forall d :: 0 <= d < |buffers| ==> ScannableN(buffers[d], 0, DISK_VALUES_SIZE)
    }

    /** Value i of disk d, as scanned. */
    static function Scanned(buffers: seq<string>, d: nat, i: nat): int
      requires d < |buffers| && i < DISK_VALUES_SIZE
    {
      Scan(buffers[d], 0, DISK_VALUES_SIZE)[i]
    }

    /** The inner loop of _get_disk: the fifteen numbers of one disk. */
    method ScanDisk(buffer: string, start: nat)
      requires Valid() && ScannableN(buffer, 0, DISK_VALUES_SIZE) && start + DISK_VALUES_SIZE <= values.Length
      modifies values
      ensures forall k :: 0 <= k < values.Length && !(start <= k < start + DISK_VALUES_SIZE) ==> values[k] == old(values[k])
      ensures forall i :: 0 <= i < DISK_VALUES_SIZE ==> values[start + i] as int == Scan(buffer, 0, DISK_VALUES_SIZE)[i]
    {
      hide Scan, ScannableN, Scannable, NextEnd, NextNumber;
      ghost var all := Scan(buffer, 0, DISK_VALUES_SIZE);
      var ptr: nat := 0;
      for i := 0 to DISK_VALUES_SIZE
        invariant ptr <= |buffer| && ScannableN(buffer, ptr, DISK_VALUES_SIZE - i)
        invariant all[i..] == Scan(buffer, ptr, DISK_VALUES_SIZE - i)
        invariant forall k :: 0 <= k < values.Length && !(start <= k < start + i) ==> values[k] == old(values[k])
        invariant forall j :: 0 <= j < i ==> values[start + j] as int == all[j]
      {
        var val;
        ScanUnrolls(buffer, ptr, DISK_VALUES_SIZE - i);
        assert all[i] == all[i..][0] && all[i + 1..] == all[i..][1..];
        ptr, val := ReadInt(buffer, ptr);
        values[start + i] := val;
      }
    }

    /** _get_disk; buffers are what pread returned. */
    method ReadDisks(buffers: seq<string>)
      requires Valid() && |buffers| == nb && Complete(buffers)
      modifies values
      ensures Holds(values[..], buffers)
    {
      hide Scan, ScannableN;
      for disk_id := 0 to nb
        invariant forall d, i :: 0 <= d < disk_id && 0 <= i < DISK_VALUES_SIZE ==>
                    values[d * DISK_VALUES_SIZE + i] as int == Scanned(buffers, d, i)
      {
        ScanDisk(buffers[disk_id], disk_id * DISK_VALUES_SIZE);
      }
    }

    /** get_disk: the difference to the poll before, on 64 bits. */
    method GetDisk(buffers: seq<string>, results: array<uint64>)
      requires Valid() && |buffers| == nb && Complete(buffers)
      requires results.Length == values.Length && results != values && results != tmp_values
      modifies results, values, tmp_values
      ensures Holds(tmp_values[..], buffers)
      ensures forall k :: 0 <= k < results.Length ==>
                results[k] as int == (tmp_values[k] as int - old(tmp_values[k]) as int) % TWO64
    {
      hide Scan, ScannableN, DiskState.Scanned, DiskState.Holds;
      ReadDisks(buffers);
      ghost var now := values[..];
      for i := 0 to nb * DISK_VALUES_SIZE
        invariant values[..] == now && tmp_values[..] == old(tmp_values[..])
        invariant forall k :: 0 <= k < i ==>
                    results[k] as int == (now[k] as int - old(tmp_values[k]) as int) % TWO64
      {
        results[i] := Sub64(values[i], tmp_values[i]);
      }
      Keep();
    }
  }

  /** What get_disk emits for value i of disk d, poll after poll. */
  ghost predicate EmittedAt(e: seq<uint64>, before: seq<string>, after: seq<string>) {
    && |e| == |before| * DISK_VALUES_SIZE && |after| == |before|
    && forall d, i :: 0 <= d < |before| && 0 <= i < DISK_VALUES_SIZE ==>
         e[d * DISK_VALUES_SIZE + i] as int
           == (DiskState.Scanned(after, d, i) - DiskState.Scanned(before, d, i)) % TWO64
  }

  /** A whole run: the baseline, then one get_disk for each further poll. */
  method RunDisks(nb: nat, polls: seq<seq<string>>) returns (emitted: seq<seq<uint64>>)
    requires polls != [] && forall p :: 0 <= p < |polls| ==> |polls[p]| == nb && DiskState.Complete(polls[p])
    ensures |emitted| == |polls| - 1
    ensures forall p :: 0 <= p < |emitted| ==> EmittedAt(emitted[p], polls[p], polls[p + 1])
  {
    hide DiskState.Scanned, DiskState.Complete;
    var disks := new DiskState(nb, polls[0]);
    emitted := [];
    for q := 1 to |polls|
      invariant disks.Valid() && disks.nb == nb && fresh(disks.values) && fresh(disks.tmp_values)
      invariant DiskState.Holds(disks.tmp_values[..], polls[q - 1])
      invariant |emitted| == q - 1
      invariant forall p :: 0 <= p < q - 1 ==> EmittedAt(emitted[p], polls[p], polls[p + 1])
    {
      var results := new uint64[nb * DISK_VALUES_SIZE](_ => 0);
      ghost var before := disks.tmp_values[..];
      disks.GetDisk(polls[q], results);
      EmittedHolds(results[..], before, disks.tmp_values[..], polls[q - 1], polls[q]);
      emitted := emitted + [results[..]];
    }
  }

  lemma EmittedHolds(e: seq<uint64>, a: seq<uint64>, b: seq<uint64>, before: seq<string>, after: seq<string>)
    requires |after| == |before| && |e| == |a| == |b|
    requires DiskState.Holds(a, before) && DiskState.Holds(b, after)
    requires forall k :: 0 <= k < |e| ==> e[k] as int == (b[k] as int - a[k] as int) % TWO64
    ensures EmittedAt(e, before, after)
  {
    hide DiskState.Scanned;
  }

  /** What value i of disk d shows over a run of polls. */
  function Snapshots(polls: seq<seq<string>>, d: nat, i: nat): (s: seq<int>)
    requires i < DISK_VALUES_SIZE && forall p :: 0 <= p < |polls| ==> d < |polls[p]|
    ensures |s| == |polls|
  {
    seq(|polls|, p requires 0 <= p < |polls| => DiskState.Scanned(polls[p], d, i))
  }

  /** What a run emits for value i of disk d. */
  function EmittedByDisk(emitted: seq<seq<uint64>>, d: nat, i: nat): (es: seq<int>)
    requires i < DISK_VALUES_SIZE
    requires forall p :: 0 <= p < |emitted| ==> d * DISK_VALUES_SIZE + i < |emitted[p]|
  {
    seq(|emitted|, p requires 0 <= p < |emitted| => emitted[p][d * DISK_VALUES_SIZE + i] as int)
  }

  /** Over any run of polls, what value i of disk d emits adds up to the difference of the last and
      the first snapshot, on 64 bits. */
  lemma SnapshotsTelescope(polls: seq<seq<string>>, emitted: seq<seq<uint64>>, d: nat, i: nat)
    requires polls != [] && i < DISK_VALUES_SIZE && |emitted| == |polls| - 1
    requires forall p :: 0 <= p < |polls| ==> d < |polls[p]|
    requires forall p :: 0 <= p < |emitted| ==> EmittedAt(emitted[p], polls[p], polls[p + 1])
    ensures forall p :: 0 <= p < |emitted| ==> d * DISK_VALUES_SIZE + i < |emitted[p]|
    ensures var shots := Snapshots(polls, d, i);
            Sum(EmittedByDisk(emitted, d, i)) % TWO64 == (shots[|shots| - 1] - shots[0]) % TWO64
  {
    hide Sum, DiskState.Scanned;
    var shots := Snapshots(polls, d, i);
    forall p | 0 <= p < |emitted|
      ensures d * DISK_VALUES_SIZE + i < |emitted[p]|
      ensures emitted[p][d * DISK_VALUES_SIZE + i] as int == Deltas(shots, TWO64)[p]
    {
      assert EmittedAt(emitted[p], polls[p], polls[p + 1]);
    }
    assert EmittedByDisk(emitted, d, i) == Deltas(shots, TWO64);
    Telescope(shots, TWO64);
  }

  // ---------------------------------------------------------------- from files to results

  /** A stat file: numbers in decimal, with leading zeros and separators, and what follows. */
  datatype StatFile = StatFile(numbers: seq<nat>, zeros: seq<nat>, seps: seq<string>, tail: string)

  /** At least fifteen 64-bit numbers, separated by nonempty text without digits, and something
      behind them. */
  predicate Regular(f: StatFile) {
    && 15 <= |f.numbers| == |f.zeros| == |f.seps|
    && (forall i :: 0 <= i < |f.numbers| ==> f.numbers[i] < TWO64)
    && (forall i :: 0 <= i < |f.seps| ==> NoDigits(f.seps[i]) && (i > 0 ==> f.seps[i] != ""))
    && f.tail != "" && !IsDigit(f.tail[0])
  }

  function FileText(f: StatFile): string
    requires Regular(f)
  {
    Print(Items(f.numbers, f.zeros, f.seps), f.tail)
  }

  /** buffers[d] is the text of files[d], for every disk. */
  predicate HasFiles(buffers: seq<string>, files: seq<StatFile>) {
    |buffers| == |files| && forall d :: 0 <= d < |files| ==> Regular(files[d]) && buffers[d] == FileText(files[d])
  }

  lemma FileIsScanned(buffers: seq<string>, files: seq<StatFile>, d: nat)
    requires HasFiles(buffers, files) && d < |files|
    ensures |files| == |buffers| && ScannableN(buffers[d], 0, 15) && |files[d].numbers| >= 15
    ensures forall i :: 0 <= i < 15 ==> DiskState.Scanned(buffers, d, i) == files[d].numbers[i]
  {
    var f := files[d];
    ScanDecimals(f.numbers, f.zeros, f.seps, f.tail, 15);
    hide Scan, ScannableN;
  }

  lemma FilesAreScannable(buffers: seq<string>, files: seq<StatFile>)
    requires HasFiles(buffers, files)
    ensures DiskState.Complete(buffers)
  {
    forall d | 0 <= d < |buffers|
      ensures ScannableN(buffers[d], 0, DISK_VALUES_SIZE)
    {
      FileIsScanned(buffers, files, d);
    }
  }

  /** What a read leaves in the array: value i of disk d is number i of the file of disk d. */
  lemma ReadIsOwnNumbers(vs: seq<uint64>, buffers: seq<string>, files: seq<StatFile>, d: nat, i: nat)
    requires HasFiles(buffers, files) && DiskState.Holds(vs, buffers) && d < |files| && i < 15
    ensures d * 15 + i < |vs| && vs[d * 15 + i] as int == files[d].numbers[i]
  {
    FileIsScanned(buffers, files, d);
    hide DiskState.Scanned;
  }

  function Growth64(x: int, y: int): int {
    (y - x) % TWO64
  }

  lemma EmittedGrowth(e: seq<uint64>, before: seq<string>, after: seq<string>, d: nat, i: nat)
    requires EmittedAt(e, before, after) && d < |before| && i < 15
    ensures |after| == |before| && d * 15 + i < |e|
    ensures e[d * 15 + i] as int == Growth64(DiskState.Scanned(before, d, i), DiskState.Scanned(after, d, i))
  {
    hide DiskState.Scanned;
    var k := d * DISK_VALUES_SIZE + i;
    assert e[k] as int == (DiskState.Scanned(after, d, i) - DiskState.Scanned(before, d, i)) % TWO64;
  }

  /** What one get_disk emits, in terms of the files. */
  lemma EmittedNumber(e: seq<uint64>, before: seq<string>, after: seq<string>,
                      first: seq<StatFile>, second: seq<StatFile>, d: nat, i: nat)
    requires EmittedAt(e, before, after) && HasFiles(before, first) && HasFiles(after, second)
    requires d < |before| && i < 15
    ensures d < |first| && i < |first[d].numbers| && d < |second| && i < |second[d].numbers|
    ensures d * 15 + i < |e| && e[d * 15 + i] as int == Growth64(first[d].numbers[i], second[d].numbers[i])
  {
    hide DiskState.Scanned, EmittedAt, Growth64;
    EmittedGrowth(e, before, after, d, i);
    FileIsScanned(before, first, d);
    FileIsScanned(after, second, d);
  }

  /** A whole run over files: get_disk emits, for value i of disk d, the difference of number i of
      that disk's file now and at the poll before, on 64 bits. */
  lemma RunEmitsOwnNumbers(polls: seq<seq<string>>, files: seq<seq<StatFile>>, emitted: seq<seq<uint64>>,
                           p: nat, d: nat, i: nat)
    requires |files| == |polls| == |emitted| + 1
    requires forall q :: 0 <= q < |polls| ==> HasFiles(polls[q], files[q])
    requires forall q :: 0 <= q < |emitted| ==> EmittedAt(emitted[q], polls[q], polls[q + 1])
    requires p < |emitted| && d < |polls[p]| && i < 15
    ensures d < |files[p]| && i < |files[p][d].numbers| && d < |files[p + 1]| && i < |files[p + 1][d].numbers|
    ensures d * 15 + i < |emitted[p]|
    ensures emitted[p][d * 15 + i] as int == (files[p + 1][d].numbers[i] as int - files[p][d].numbers[i] as int) % TWO64
  {
    EmittedNumber(emitted[p], polls[p], polls[p + 1], files[p], files[p + 1], d, i);
    hide EmittedAt, HasFiles;
  }
}
