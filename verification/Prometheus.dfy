/**
 The buffer of src/prometheus_manager.c, seen by one thread at a time: use_manager appends one
 line per sensor and grows the buffer, an HTTP request copies the text and empties it.
 PrometheusSteps has the two threads.
 */
module Prometheus {
  import opened CStrings
  import opened Decimals

  const MARGIN := 128
  const INITIAL_SIZE := 1024

  /** Longest first sensor line that fits behind an overhead line. */
  const LONGEST_LINE := 90

  /** Longest labels whose lines always fit: the first one's line may follow an overhead line, with
      no growth check in between; the others' lines follow a growth check. */
  const FIRST_LABEL := 48
  const LATER_LABEL := 87

  /** One use_manager call: the polled values, the time stamp and the overhead (0 if not asked for). */
  datatype Job = Job(values: seq<nat>, timer: nat, stat: nat)

  predicate ValidJob(labels: seq<string>, job: Job) {
    && |job.values| == |labels|
    && (forall i :: 0 <= i < |labels| ==> job.values[i] < UINT64)
    && job.timer < UINT64 && job.stat < UINT64
  }

  /** What main passes: a time stamp in milliseconds, computed as a signed 64-bit number, and an
      overhead below a second, in nanoseconds. */
  predicate FromMain(job: Job) {
    job.timer < 0x8000_0000_0000_0000 && job.stat < 1_000_000_000
  }

  predicate LabelsUpTo(labels: seq<string>, first: nat, later: nat) {
    forall i :: 0 <= i < |labels| ==> |labels[i]| <= if i == 0 then first else later
  }

  predicate ShortLabels(labels: seq<string>) {
    LabelsUpTo(labels, FIRST_LABEL, LATER_LABEL)
  }

  /** The "%s %PRIu64 %PRIu64\n" of sprintf. */
  function Line(metric: string, value: nat, timer: nat): string {
    metric + " " + Decimal(value) + " " + Decimal(timer) + "\n"
  }

  lemma LineLength(metric: string, value: nat, timer: nat)
    requires value < UINT64 && timer < UINT64
    ensures |Line(metric, value, timer)| <= |metric| + 43
    ensures timer < 0x8000_0000_0000_0000 ==> |Line(metric, value, timer)| <= |metric| + 42
    ensures timer < 0x8000_0000_0000_0000 && value < 1_000_000_000 ==> |Line(metric, value, timer)| <= |metric| + 31
  {
    DecimalOfUint64(value);
    DecimalOfUint64(timer);
    DecimalOfMain(value, timer);
  }

  function Overhead(job: Job): string {
    if job.stat != 0 then Line("overhead", job.stat, job.timer) else ""
  }

  /** The first n sensor lines of a batch. */
  function SensorLines(labels: seq<string>, job: Job, n: nat): string
    requires n <= |labels| == |job.values|
  {
    if n == 0 then ""
    else SensorLines(labels, job, n - 1) + Line(labels[n - 1], job.values[n - 1], job.timer)
  }

  /** current_size after the first n sensor lines and their growth checks. */
  function SizeAfter(labels: seq<string>, job: Job, delta: nat, size: nat, n: nat): nat
    requires n <= |labels| == |job.values|
  {
    if n == 0 then size
    else
      var before := SizeAfter(labels, job, delta, size, n - 1);
      if delta + |SensorLines(labels, job, n)| + MARGIN >= before then 2 * before else before
  }

  /** What one use_manager call writes. */
  function Batch(labels: seq<string>, job: Job): string
    requires |labels| == |job.values|
  {
    SensorLines(labels, job, |labels|) + Overhead(job)
  }

  class Buffer {
    var prometeus_buffer: array<char>
    var delta: nat
    var current_size: nat

    /** A sensor line always fits, terminator included. */
    ghost predicate Valid()
      reads this, prometeus_buffer
    {
      && prometeus_buffer.Length == current_size + 1
      && INITIAL_SIZE <= current_size < UINT32
      && delta + LONGEST_LINE <= current_size
    }

    ghost function Contents(): string
      reads this, prometeus_buffer
      requires delta <= prometeus_buffer.Length
    {
      prometeus_buffer[..delta]
    }

    /** The buffer part of init_manager. */
    constructor ()
      ensures Valid() && Contents() == "" && fresh(prometeus_buffer)
    {
      current_size := INITIAL_SIZE;
      delta := 0;
      prometeus_buffer := new char[INITIAL_SIZE + 1](_ => '\0');
    }

    /** sprintf at delta, with its terminator. */
    method Sprintf(line: string)
      requires delta + |line| < prometeus_buffer.Length
      modifies this`delta, prometeus_buffer
      ensures delta == old(delta) + |line|
      ensures Contents() == old(Contents()) + line
    {
      var out, start := prometeus_buffer, delta;
      for i := 0 to |line|
        invariant delta == start && prometeus_buffer == out
        invariant out[..start + i] == old(Contents()) + line[..i]
      {
        out[start + i] := line[i];
      }
      assert line[..|line|] == line;
      out[start + |line|] := '\0';
      delta := start + |line|;
    }

    /** Double the buffer; realloc keeps its contents. */
    method Grow()
      requires prometeus_buffer.Length == current_size + 1 && delta <= current_size && current_size * 2 < UINT32
      modifies this`current_size, this`prometeus_buffer
      ensures current_size == 2 * old(current_size) && prometeus_buffer.Length == current_size + 1
      ensures fresh(prometeus_buffer) && Contents() == old(Contents())
    {
      var old_buffer, n := prometeus_buffer, delta;
      var bigger := new char[2 * current_size + 1](_ => '\0');
      for i := 0 to n
        invariant current_size == old(current_size) && delta == n
        invariant bigger[..i] == old_buffer[..i] == old(prometeus_buffer[..])[..i]
      {
        bigger[i] := old_buffer[i];
      }
      current_size := current_size * 2;
      prometeus_buffer := bigger;
    }

    /** Room before sensor line i: the first line relies on what the last batch left over. */
    ghost predicate Room(i: nat)
      reads this
    {
      && prometeus_buffer.Length == current_size + 1
      && INITIAL_SIZE <= current_size < UINT32
      && delta + (if i == 0 then LONGEST_LINE else MARGIN + 1) <= current_size
    }

    /** The loop body of use_manager: one line, then the growth check. */
    method WriteSensor(labels: seq<string>, job: Job, i: nat)
      requires ValidJob(labels, job) && FromMain(job) && ShortLabels(labels) && i < |labels| && Room(i)
      requires delta + |Line(labels[i], job.values[i], job.timer)| + MARGIN < UINT32 / 2
      modifies this, prometeus_buffer
      ensures Room(i + 1) && (fresh(prometeus_buffer) || prometeus_buffer == old(prometeus_buffer))
      ensures Contents() == old(Contents()) + Line(labels[i], job.values[i], job.timer)
      ensures current_size == if delta + MARGIN >= old(current_size) then 2 * old(current_size) else old(current_size)
    {
      LineLength(labels[i], job.values[i], job.timer);
      Sprintf(Line(labels[i], job.values[i], job.timer));
      if delta + MARGIN >= current_size {
        Grow();
      }
    }

    /** The critical section of use_manager: the whole batch is appended, no line is cut, and the
        buffer again has room for a sensor line.  The sizes stay below 2^32 because less than 2^31
        characters are waiting. */
    method UseManager(labels: seq<string>, job: Job)
      requires Valid() && ValidJob(labels, job) && FromMain(job) && ShortLabels(labels) && labels != []
      requires delta + |Batch(labels, job)| + MARGIN < UINT32 / 2
      modifies this, prometeus_buffer
      ensures Valid() && (fresh(prometeus_buffer) || prometeus_buffer == old(prometeus_buffer))
      ensures Contents() == old(Contents()) + Batch(labels, job)
      ensures current_size == SizeAfter(labels, job, old(delta), old(current_size), |labels|)
    {
      hide Line, SensorLines, Overhead, Batch, ShortLabels;
      ghost var start := Contents();
      BatchStarts(labels, job, start);
      for i := 0 to |labels|
        invariant Room(i) && (fresh(prometeus_buffer) || prometeus_buffer == old(prometeus_buffer))
        invariant delta == |start| + |SensorLines(labels, job, i)|
        invariant Contents() == start + SensorLines(labels, job, i)
        invariant current_size == SizeAfter(labels, job, |start|, old(current_size), i)
      {
        NextLine(labels, job, i, start);
        WriteSensor(labels, job, i);
      }
      WriteOverhead(job);
    }

    /** The end of use_manager: the overhead line, with no growth check behind it. */
    method WriteOverhead(job: Job)
      requires Room(1) && FromMain(job)
      modifies this`delta, prometeus_buffer
      ensures Valid() && Contents() == old(Contents()) + Overhead(job)
      ensures current_size == old(current_size)
    {
      if job.stat != 0 {
        LineLength("overhead", job.stat, job.timer);
        Sprintf(Line("overhead", job.stat, job.timer));
      } else {
        assert Contents() == old(Contents()) + "";
      }
    }

    /** The critical section of internal_server. */
    method Serve() returns (body: string)
      requires Valid()
      modifies this`delta
      ensures Valid() && body == old(Contents()) && Contents() == ""
    {
      body := prometeus_buffer[..delta];
      delta := 0;
    }
  }

  lemma BatchStarts(labels: seq<string>, job: Job, start: string)
    requires |labels| == |job.values|
    ensures start + SensorLines(labels, job, 0) == start
    ensures start + SensorLines(labels, job, |labels|) + Overhead(job) == start + Batch(labels, job)
  {
  }

  lemma NextLine(labels: seq<string>, job: Job, i: nat, start: string)
    requires i < |labels| == |job.values|
    ensures var line := Line(labels[i], job.values[i], job.timer);
            && |SensorLines(labels, job, i)| + |line| == |SensorLines(labels, job, i + 1)| <= |Batch(labels, job)|
            && start + SensorLines(labels, job, i) + line == start + SensorLines(labels, job, i + 1)
  {
    SensorLinesGrow(labels, job, i + 1, |labels|);
  }

  lemma SensorLinesGrow(labels: seq<string>, job: Job, m: nat, n: nat)
    requires m <= n <= |labels| == |job.values|
    ensures |SensorLines(labels, job, m)| <= |SensorLines(labels, job, n)|
  {
    if m < n {
      SensorLinesGrow(labels, job, m, n - 1);
    }
  }

  // ---------------------------------------------------------------- reading the text

  /** What a scraper makes of a line: cut at the first and at the second space. */
  ghost predicate Says(line: string, metric: string, value: nat, timer: nat) {
    var i := Find(line, ' ');
    && i < |line| && line[..i] == metric
    && var rest := line[i + 1..];
       var j := Find(rest, ' ');
       && j < |rest| && AllDigits(rest[..j]) && rest[..j] != "" && Number(rest[..j]) == value
       && var last := rest[j + 1..];
          && |last| > 1 && last[|last| - 1] == '\n'
          && AllDigits(last[..|last| - 1]) && Number(last[..|last| - 1]) == timer
  }

  lemma NoneOf(s: string, c: char)
    requires c !in s
    ensures Find(s, c) == |s|
  {
  }

  lemma FindBehind(s: string, t: string)
    requires ' ' !in s
    ensures Find(s + " " + t, ' ') == |s|
    ensures (s + " " + t)[..|s|] == s && (s + " " + t)[|s| + 1..] == t
  {
    NoneOf(s, ' ');
    FindAppend(s, " " + t, ' ');
    assert s + " " + t == s + (" " + t);
  }

  /** A line carries its metric, its value and its time stamp, in that order. */
  lemma LineReadsBack(metric: string, value: nat, timer: nat)
    requires ' ' !in metric
    ensures Says(Line(metric, value, timer), metric, value, timer)
  {
    NumberOfDecimal(value);
    NumberOfDecimal(timer);
    hide Decimal, Number, Find;
    var last := Decimal(timer) + "\n";
    var rest := Decimal(value) + " " + last;
    assert Line(metric, value, timer) == metric + " " + rest;
    FindBehind(metric, rest);
    FindBehind(Decimal(value), last);
    assert last[..|last| - 1] == Decimal(timer);
    assert rest[..|Decimal(value)|] == Decimal(value);
    assert ' ' !in Decimal(value);
  }

  /** load1 at 7, at time 9. */
  lemma LineInLetters()
    ensures Line("load1", 7, 9) == "load1 7 9\n"
  {
    assert Decimal(7) == "7" && Decimal(9) == "9";
  }

  /** The text, cut behind each newline. */
  function TextLines(text: string): seq<string>
    decreases |text|
  {
    if text == "" then []
    else
      var n := if Find(text, '\n') < |text| then Find(text, '\n') + 1 else |text|;
      [text[..n]] + TextLines(text[n..])
  }

  lemma FirstTextLine(line: string, text: string)
    requires '\n' !in line
    ensures TextLines(line + "\n" + text) == [line + "\n"] + TextLines(text)
  {
    var all := line + "\n" + text;
    NoneOf(line, '\n');
    FindAppend(line, "\n" + text, '\n');
    assert all == line + ("\n" + text);
    assert all[..|line| + 1] == line + "\n" && all[|line| + 1..] == text;
  }

  /** Metric names without a newline make lines. */
  lemma LineIsLine(metric: string, value: nat, timer: nat, text: string)
    requires '\n' !in metric
    ensures TextLines(Line(metric, value, timer) + text) == [Line(metric, value, timer)] + TextLines(text)
  {
    var bare := metric + " " + Decimal(value) + " " + Decimal(timer);
    assert forall k :: 0 <= k < |Decimal(value)| ==> IsDigit(Decimal(value)[k]);
    assert '\n' !in Decimal(value) && '\n' !in Decimal(timer);
    hide Decimal;
    FirstTextLine(bare, text);
  }

  lemma SensorsReadBack(labels: seq<string>, job: Job, n: nat, text: string)
    requires n <= |labels| == |job.values| && forall i :: 0 <= i < n ==> '\n' !in labels[i]
    ensures TextLines(SensorLines(labels, job, n) + text)
         == seq(n, i requires 0 <= i < n => Line(labels[i], job.values[i], job.timer)) + TextLines(text)
  {
    hide Line, TextLines;
    if n == 0 {
      assert SensorLines(labels, job, 0) + text == text;
    } else {
      var line := Line(labels[n - 1], job.values[n - 1], job.timer);
      assert SensorLines(labels, job, n) + text == SensorLines(labels, job, n - 1) + (line + text);
      SensorsReadBack(labels, job, n - 1, line + text);
      LineIsLine(labels[n - 1], job.values[n - 1], job.timer, text);
    }
  }

  /** Line i of a batch carries label i, value i and the batch's time stamp; the last line carries the
      overhead, if there is one. */
  lemma BatchReadsBack(labels: seq<string>, job: Job, i: nat)
    requires |labels| == |job.values|
    requires forall k :: 0 <= k < |labels| ==> ' ' !in labels[k] && '\n' !in labels[k]
    ensures |TextLines(Batch(labels, job))| == |labels| + if job.stat != 0 then 1 else 0
    ensures i < |labels| ==> Says(TextLines(Batch(labels, job))[i], labels[i], job.values[i], job.timer)
    ensures job.stat != 0 ==> Says(TextLines(Batch(labels, job))[|labels|], "overhead", job.stat, job.timer)
  {
    SensorsReadBack(labels, job, |labels|, Overhead(job));
    NoText();
    if job.stat != 0 {
      LineIsLine("overhead", job.stat, job.timer, "");
      assert Overhead(job) + "" == Overhead(job);
      LineReadsBack("overhead", job.stat, job.timer);
    }
    if i < |labels| {
      LineReadsBack(labels[i], job.values[i], job.timer);
    }
    hide Says, Line, TextLines;
  }

  lemma NoText()
    ensures TextLines("") == []
  {
  }

  // ---------------------------------------------------------------- labels

  /** Prometheus allows no '-' in a metric name. */
  function Sanitized(metric: string): (s: string)
    ensures |s| == |metric| && '-' !in s
  {
    seq(|metric|, i requires 0 <= i < |metric| => if metric[i] == '-' then '_' else metric[i])
  }

  function Dashes(s: seq<char>): nat {
    if s == [] then 0 else (if s[0] == '-' then 1 else 0) + Dashes(s[1..])
  }

  lemma DashesUpdate(s: seq<char>, i: nat)
    requires i < |s| && s[i] == '-'
    ensures Dashes(s[i := '_']) == Dashes(s) - 1
  {
    if i > 0 {
      DashesUpdate(s[1..], i - 1);
      assert s[i := '_'][1..] == s[1..][i - 1 := '_'];
    } else {
      assert s[0 := '_'][1..] == s[1..];
    }
  }

  /** strchr. */
  method Strchr(str: array<char>, c: char) returns (pos: int)
    ensures -1 <= pos < str.Length
    ensures pos >= 0 ==> str[pos] == c
    ensures pos == -1 ==> c !in str[..]
  {
    for i := 0 to str.Length
      invariant c !in str[..i]
    {
      if str[i] == c {
        return i;
      }
    }
    return -1;
  }

  /** The label loop of init_manager: search from the start for each dash. */
  method Sanitize(metric: array<char>)
    modifies metric
    ensures metric[..] == Sanitized(old(metric[..]))
    ensures forall i :: 0 <= i < metric.Length ==> metric[i] == if old(metric[i]) == '-' then '_' else old(metric[i])
  {
    while true
      invariant Sanitized(metric[..]) == Sanitized(old(metric[..]))
      decreases Dashes(metric[..])
    {
      var pos := Strchr(metric, '-');
      if pos == -1 {
        break;
      }
      DashesUpdate(metric[..], pos);
      ghost var s := metric[..];
      metric[pos] := '_';
      assert metric[..] == s[pos := '_'];
      assert Sanitized(metric[..]) == Sanitized(s);
    }
    assert metric[..] == Sanitized(metric[..]);
    forall i | 0 <= i < metric.Length
      ensures metric[i] == if old(metric[i]) == '-' then '_' else old(metric[i])
    {
      assert metric[..][i] == Sanitized(old(metric[..]))[i];
    }
  }
}
