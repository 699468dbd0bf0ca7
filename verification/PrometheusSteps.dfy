/**
 The two threads of src/prometheus_manager.c as a step system: the producer runs use_manager
 again and again, the HTTP server answers requests, and a mutex guards the shared buffer.  Every
 lock, line, growth check, copy, reset and unlock is a step of its own, so that the theorems hold
 for every interleaving.
 */
module PrometheusSteps {
  import opened Wrappers
  import opened Decimals
  import opened Prometheus

  datatype Thread = Producer | Server

  /** Where the producer stands: before sensor line i (or the overhead line), before the growth
      check behind line i, or before the unlock. */
  datatype ProducerAt = Idle | Writing(job: Job, i: nat) | Checking(job: Job, i: nat) | Leaving(job: Job)

  datatype ServerAt = Waiting | Entered | Copied(body: string) | Emptied

  /** A response body, and the history it covers: the batches numbered from..upto. */
  datatype Response = Response(body: string, from: nat, upto: nat)

  /** text is buffer[..delta].  The history: the completed batches, how many were delivered, the
      responses, whether a line ever went past the buffer, whether a size ever went past 32 bits. */
  datatype State = State(owner: Option<Thread>, size: nat, text: string, producer: ProducerAt, server: ServerAt,
                         batches: seq<string>, delivered: nat, responses: seq<Response>,
                         overflow: bool, wrapped: bool)

  datatype Action =
    | ProducerLock(job: Job) | WriteLine | Check | WriteOverhead | ProducerUnlock
    | ServerLock | Copy | Reset | ServerUnlock

  const START := State(None, INITIAL_SIZE, "", Idle, Waiting, [], 0, [], false, false)

  predicate Enabled(labels: seq<string>, s: State, a: Action) {
    match a
    case ProducerLock(job) => s.producer.Idle? && s.owner == None && ValidJob(labels, job)
    case WriteLine => s.producer.Writing? && s.producer.i < |labels| && |s.producer.job.values| == |labels|
    case Check => s.producer.Checking?
    case WriteOverhead => s.producer.Writing? && s.producer.i == |labels| && |s.producer.job.values| == |labels|
    case ProducerUnlock => s.producer.Leaving? && |s.producer.job.values| == |labels|
    case ServerLock => s.server.Waiting? && s.owner == None
    case Copy => s.server.Entered?
    case Reset => s.server.Copied?
    case ServerUnlock => s.server.Emptied?
  }

  /** sprintf at delta. */
  function Put(s: State, line: string): State {
    s.(text := s.text + line, overflow := s.overflow || |s.text| + |line| > s.size)
  }

  /** The growth check; current_size is a 32-bit unsigned. */
  function Grown(s: State): State {
    if |s.text| + MARGIN >= s.size then
      s.(size := s.size * 2 % UINT32, wrapped := s.wrapped || s.size * 2 >= UINT32)
    else s
  }

  /** Doubling 2^31 gives 0; every smaller size doubles. */
  lemma GrowthOnBits(s: State)
    requires |s.text| + 128 >= s.size
    ensures s.size == 0x8000_0000 ==> Grown(s).size == 0 && Grown(s).wrapped
    ensures s.size < 0x8000_0000 ==> Grown(s) == s.(size := 2 * s.size)
  {
  }

  function Next(labels: seq<string>, s: State, a: Action): State
    requires Enabled(labels, s, a)
  {
    match a
    case ProducerLock(job) => s.(owner := Some(Producer), producer := Writing(job, 0))
    case WriteLine =>
      var p := s.producer;
      Put(s, Line(labels[p.i], p.job.values[p.i], p.job.timer)).(producer := Checking(p.job, p.i))
    case Check => Grown(s).(producer := Writing(s.producer.job, s.producer.i + 1))
    case WriteOverhead => Put(s, Overhead(s.producer.job)).(producer := Leaving(s.producer.job))
    case ProducerUnlock =>
      s.(owner := None, producer := Idle, batches := s.batches + [Batch(labels, s.producer.job)])
    case ServerLock => s.(owner := Some(Server), server := Entered)
    case Copy => s.(server := Copied(s.text))
    case Reset =>
      s.(text := "", server := Emptied, delivered := |s.batches|,
         responses := s.responses + [Response(s.server.body, s.delivered, |s.batches|)])
    case ServerUnlock => s.(owner := None, server := Waiting)
  }

  /** The state after an interleaving of steps, None if some step was not possible. */
  function Exec(labels: seq<string>, actions: seq<Action>): Option<State> {
    if actions == [] then Some(START)
    else
      var n := |actions| - 1;
      var s := Exec(labels, actions[..n]);
      if s == None || !Enabled(labels, s.value, actions[n]) then None
      else Some(Next(labels, s.value, actions[n]))
  }

  // ---------------------------------------------------------------- exactly once, batch by batch

  function Concat(ts: seq<string>): string {
    if ts == [] then "" else Concat(ts[..|ts| - 1]) + ts[|ts| - 1]
  }

  function Bodies(rs: seq<Response>): string {
    if rs == [] then "" else Bodies(rs[..|rs| - 1]) + rs[|rs| - 1].body
  }

  /** The part of the current batch that is already in the buffer. */
  function Partial(labels: seq<string>, p: ProducerAt): string {
    match p
    case Idle => ""
    case Writing(job, i) => if i <= |labels| == |job.values| then SensorLines(labels, job, i) else ""
    case Checking(job, i) => if i < |labels| == |job.values| then SensorLines(labels, job, i + 1) else ""
    case Leaving(job) => if |labels| == |job.values| then Batch(labels, job) else ""
  }

  /** Who holds the mutex, and where the producer can stand. */
  ghost predicate Placed(labels: seq<string>, s: State) {
    && (s.producer.Idle? <==> s.owner != Some(Producer))
    && (s.server.Waiting? <==> s.owner != Some(Server))
    && (!s.producer.Idle? ==> ValidJob(labels, s.producer.job))
    && (s.producer.Writing? ==> s.producer.i <= |labels|)
    && (s.producer.Checking? ==> s.producer.i < |labels|)
  }

  /** The buffer holds the batches not delivered yet, then the current one. */
  ghost predicate Pending(labels: seq<string>, s: State) {
    && s.delivered <= |s.batches|
    && s.text == Concat(s.batches[s.delivered..]) + Partial(labels, s.producer)
    && (s.server.Copied? ==> s.server.body == s.text)
    && (s.server.Emptied? ==> s.text == "" && s.delivered == |s.batches|)
  }

  /** Each response is a run of whole batches, starting where the one before ended. */
  ghost predicate Delivered(rs: seq<Response>, batches: seq<string>, delivered: nat)
    decreases |rs|
  {
    if rs == [] then delivered == 0
    else
      var r := rs[|rs| - 1];
      && r.from <= r.upto == delivered <= |batches|
      && r.body == Concat(batches[r.from..r.upto])
      && Delivered(rs[..|rs| - 1], batches, r.from)
  }

  ghost predicate Inv(labels: seq<string>, s: State) {
    Placed(labels, s) && Pending(labels, s) && Delivered(s.responses, s.batches, s.delivered)
  }

  lemma DeliveredMonotone(rs: seq<Response>, batches: seq<string>, delivered: nat, more: seq<string>)
    requires Delivered(rs, batches, delivered)
    ensures Delivered(rs, batches + more, delivered)
  {
    if rs != [] {
      var r := rs[|rs| - 1];
      assert (batches + more)[r.from..r.upto] == batches[r.from..r.upto];
      DeliveredMonotone(rs[..|rs| - 1], batches, r.from, more);
    }
  }

  lemma ConcatSnoc(ts: seq<string>, t: string)
    ensures Concat(ts + [t]) == Concat(ts) + t
  {
    assert (ts + [t])[..|ts|] == ts;
  }

  lemma NextPlaced(labels: seq<string>, s: State, a: Action)
    requires Placed(labels, s) && Enabled(labels, s, a)
    ensures Placed(labels, Next(labels, s, a))
  {
  }

  lemma PendingWrite(labels: seq<string>, s: State)
    requires Placed(labels, s) && Pending(labels, s) && Enabled(labels, s, WriteLine)
    ensures Pending(labels, Next(labels, s, WriteLine))
  {
    hide Line, ValidJob, Concat;
    var job, i := s.producer.job, s.producer.i;
    Assoc(Concat(s.batches[s.delivered..]), SensorLines(labels, job, i), Line(labels[i], job.values[i], job.timer));
  }

  lemma PendingOverhead(labels: seq<string>, s: State)
    requires Placed(labels, s) && Pending(labels, s) && Enabled(labels, s, WriteOverhead)
    ensures Pending(labels, Next(labels, s, WriteOverhead))
  {
    hide Overhead, ValidJob, Concat, SensorLines;
    var job := s.producer.job;
    Assoc(Concat(s.batches[s.delivered..]), SensorLines(labels, job, |labels|), Overhead(job));
  }

  lemma PendingUnlock(labels: seq<string>, s: State)
    requires Placed(labels, s) && Pending(labels, s) && Enabled(labels, s, ProducerUnlock)
    ensures Pending(labels, Next(labels, s, ProducerUnlock))
  {
    hide Batch, ValidJob, Concat;
    var batch := Batch(labels, s.producer.job);
    ConcatSnoc(s.batches[s.delivered..], batch);
    assert (s.batches + [batch])[s.delivered..] == s.batches[s.delivered..] + [batch];
  }

  lemma NextPending(labels: seq<string>, s: State, a: Action)
    requires Placed(labels, s) && Pending(labels, s) && Enabled(labels, s, a)
    ensures Pending(labels, Next(labels, s, a))
  {
    match a
    case WriteLine => PendingWrite(labels, s);
    case WriteOverhead => PendingOverhead(labels, s);
    case ProducerUnlock => PendingUnlock(labels, s);
    case _ =>
      hide Line, Overhead, Batch, ValidJob;
      assert Pending(labels, Next(labels, s, a));
  }

  lemma NextDelivered(labels: seq<string>, s: State, a: Action)
    requires Inv(labels, s) && Enabled(labels, s, a)
    ensures var t := Next(labels, s, a); Delivered(t.responses, t.batches, t.delivered)
  {
    hide Batch, ValidJob;
    match a
    case ProducerUnlock =>
      DeliveredMonotone(s.responses, s.batches, s.delivered, [Batch(labels, s.producer.job)]);
    case Reset =>
      var t := Next(labels, s, a);
      assert t.responses[..|s.responses|] == s.responses;
      assert s.batches[s.delivered..] == s.batches[s.delivered..|s.batches|];
    case _ =>
  }

  lemma {:induction false} Reached(labels: seq<string>, actions: seq<Action>)
    ensures var s := Exec(labels, actions); s.Some? ==> Inv(labels, s.value)
  {
    if actions != [] && Exec(labels, actions) != None {
      var n := |actions| - 1;
      Reached(labels, actions[..n]);
      var s := Exec(labels, actions[..n]).value;
      NextPlaced(labels, s, actions[n]);
      NextPending(labels, s, actions[n]);
      NextDelivered(labels, s, actions[n]);
    }
  }

  lemma Assoc(a: string, b: string, c: string)
    ensures a + b + c == a + (b + c)
  {
  }

  lemma {:induction false} ConcatSplit(ts: seq<string>, k: nat)
    requires k <= |ts|
    ensures Concat(ts) == Concat(ts[..k]) + Concat(ts[k..])
  {
    if k == |ts| {
      assert ts[..k] == ts;
    } else {
      var n := |ts| - 1;
      ConcatSplit(ts[..n], k);
      assert ts[..n][..k] == ts[..k] && ts[..n][k..] == ts[k..n];
      ConcatSnoc(ts[..n], ts[n]);
      ConcatSnoc(ts[k..n], ts[n]);
      assert ts == ts[..n] + [ts[n]] && ts[k..] == ts[k..n] + [ts[n]];
      Assoc(Concat(ts[..k]), Concat(ts[k..n]), ts[n]);
    }
  }

  lemma BodiesAreBatches(rs: seq<Response>, batches: seq<string>, delivered: nat)
    requires Delivered(rs, batches, delivered) && delivered <= |batches|
    ensures Bodies(rs) == Concat(batches[..delivered])
  {
    if rs != [] {
      var r := rs[|rs| - 1];
      BodiesAreBatches(rs[..|rs| - 1], batches, r.from);
      ConcatSplit(batches[..r.upto], r.from);
      assert batches[..r.upto][..r.from] == batches[..r.from];
      assert batches[..r.upto][r.from..] == batches[r.from..r.upto];
    }
  }

  /** In every interleaving: all response bodies so far, followed by the buffer, are all the text
      written so far, in order and without loss or repetition. */
  lemma ExactlyOnce(labels: seq<string>, actions: seq<Action>)
    requires Exec(labels, actions) != None
    ensures var s := Exec(labels, actions).value;
            Bodies(s.responses) + s.text == Concat(s.batches) + Partial(labels, s.producer)
  {
    hide Exec, Concat, Partial, Bodies;
    Reached(labels, actions);
    var s := Exec(labels, actions).value;
    BodiesAreBatches(s.responses, s.batches, s.delivered);
    ConcatSplit(s.batches, s.delivered);
    Assoc(Concat(s.batches[..s.delivered]), Concat(s.batches[s.delivered..]), Partial(labels, s.producer));
  }

  /** In every interleaving: each response consists of whole batches, and together the responses
      are a partition of the first `delivered` batches. */
  lemma WholeBatches(labels: seq<string>, actions: seq<Action>, i: nat)
    requires Exec(labels, actions) != None && i < |Exec(labels, actions).value.responses|
    ensures var s := Exec(labels, actions).value;
            var r := s.responses[i];
            && r.from <= r.upto <= |s.batches|
            && r.body == Concat(s.batches[r.from..r.upto])
            && r.from == (if i == 0 then 0 else s.responses[i - 1].upto)
            && (i == |s.responses| - 1 ==> r.upto == s.delivered)
  {
    Reached(labels, actions);
    var s := Exec(labels, actions).value;
    DeliveredAt(s.responses, s.batches, s.delivered, i);
  }

  lemma DeliveredAt(rs: seq<Response>, batches: seq<string>, delivered: nat, i: nat)
    requires Delivered(rs, batches, delivered) && i < |rs|
    ensures var r := rs[i];
            && r.from <= r.upto <= |batches|
            && r.body == Concat(batches[r.from..r.upto])
            && r.from == (if i == 0 then 0 else rs[i - 1].upto)
            && (i == |rs| - 1 ==> r.upto == delivered)
  {
    var n := |rs| - 1;
    if i < n {
      DeliveredAt(rs[..n], batches, rs[n].from, i);
    } else if n > 0 {
      DeliveredAt(rs[..n], batches, rs[n].from, n - 1);
    }
  }

  // ---------------------------------------------------------------- headroom

  /** Room in the buffer, by where the producer stands. */
  ghost predicate Headroom(labels: seq<string>, s: State) {
    && s.size >= INITIAL_SIZE
    && (!s.producer.Idle? ==> FromMain(s.producer.job))
    && match s.producer
       case Idle => |s.text| + LONGEST_LINE <= s.size
       case Writing(_, i) => |s.text| + (if i == 0 then LONGEST_LINE else MARGIN + 1) <= s.size
       case Checking(_, _) => |s.text| <= s.size
       case Leaving(_) => |s.text| + LONGEST_LINE <= s.size
  }

  lemma NextHeadroom(labels: seq<string>, s: State, a: Action)
    requires ShortLabels(labels) && labels != []
    requires Placed(labels, s) && Enabled(labels, s, a) && (a.ProducerLock? ==> FromMain(a.job))
    requires s.wrapped || (!s.overflow && Headroom(labels, s))
    ensures var t := Next(labels, s, a); t.wrapped || (!t.overflow && Headroom(labels, t))
  {
    hide Line;
    if a.WriteLine? {
      var job, i := s.producer.job, s.producer.i;
      LineLength(labels[i], job.values[i], job.timer);
    } else if a.WriteOverhead? {
      LineLength("overhead", s.producer.job.stat, s.producer.job.timer);
    }
  }

  /** All calls of use_manager are main's. */
  ghost predicate MainSends(actions: seq<Action>) {
    forall a :: a in actions && a.ProducerLock? ==> FromMain(a.job)
  }

  lemma {:induction false} NeverCut(labels: seq<string>, actions: seq<Action>)
    requires ShortLabels(labels) && labels != [] && MainSends(actions)
    ensures var s := Exec(labels, actions);
            s.Some? ==> s.value.wrapped || (!s.value.overflow && Headroom(labels, s.value))
  {
    if actions != [] && Exec(labels, actions) != None {
      var n := |actions| - 1;
      assert actions[n] in actions;
      NeverCut(labels, actions[..n]);
      Reached(labels, actions[..n]);
      NextHeadroom(labels, Exec(labels, actions[..n]).value, actions[n]);
    }
  }

  lemma ExecSnoc(labels: seq<string>, actions: seq<Action>, a: Action)
    ensures var s := Exec(labels, actions);
            Exec(labels, actions + [a]) ==
              if s == None || !Enabled(labels, s.value, a) then None else Some(Next(labels, s.value, a))
  {
    assert (actions + [a])[..|actions|] == actions;
  }

  /** After the first i sensor lines of a batch. */
  function AfterLines(run: seq<Action>, job: Job, i: nat): seq<Action> {
    if i == 0 then run + [ProducerLock(job)] else AfterLines(run, job, i - 1) + [WriteLine] + [Check]
  }

  function AfterBatch(run: seq<Action>, job: Job): seq<Action> {
    AfterLines(run, job, |job.values|) + [WriteOverhead] + [ProducerUnlock]
  }

  function Repeated(job: Job, k: nat): seq<Action> {
    if k == 0 then [] else AfterBatch(Repeated(job, k - 1), job)
  }

  // ---------------------------------------------------------------- the steps of one thread alone

  lemma SizeGrows(labels: seq<string>, job: Job, delta: nat, size: nat, m: nat, n: nat)
    requires m <= n <= |labels| == |job.values|
    ensures SizeAfter(labels, job, delta, size, m) <= SizeAfter(labels, job, delta, size, n)
  {
    if m < n {
      SizeGrows(labels, job, delta, size, m, n - 1);
    }
  }

  /** What the lock and the first i sensor lines change. */
  ghost predicate LinesDone(labels: seq<string>, s: State, t: State, job: Job, i: nat)
    requires i <= |labels| == |job.values|
  {
    t == s.(owner := Some(Producer), producer := Writing(job, i), text := s.text + SensorLines(labels, job, i),
            size := SizeAfter(labels, job, |s.text|, s.size, i), overflow := t.overflow)
  }

  lemma StepsOfLines(labels: seq<string>, run: seq<Action>, job: Job, i: nat)
    requires ValidJob(labels, job) && i <= |labels|
    requires var s := Exec(labels, run); s.Some? && s.value.producer.Idle? && s.value.owner == None
    requires SizeAfter(labels, job, |Exec(labels, run).value.text|, Exec(labels, run).value.size, i) < UINT32
    ensures var t := Exec(labels, AfterLines(run, job, i));
            t.Some? && LinesDone(labels, Exec(labels, run).value, t.value, job, i)
  {
    hide Exec, Line, Next, Enabled, SensorLines, SizeAfter;
    var s := Exec(labels, run).value;
    if i == 0 {
      ExecSnoc(labels, run, ProducerLock(job));
      NoLineDone(labels, s, job);
    } else {
      SizeGrows(labels, job, |s.text|, s.size, i - 1, i);
      StepsOfLines(labels, run, job, i - 1);
      var before := AfterLines(run, job, i - 1);
      ExecSnoc(labels, before, WriteLine);
      ExecSnoc(labels, before + [WriteLine], Check);
      NextLineDone(labels, s, Exec(labels, before).value, job, i - 1);
    }
  }

  lemma NoLineDone(labels: seq<string>, s: State, job: Job)
    requires ValidJob(labels, job) && s.producer.Idle? && s.owner == None
    ensures Enabled(labels, s, ProducerLock(job))
    ensures LinesDone(labels, s, Next(labels, s, ProducerLock(job)), job, 0)
  {
    assert s.text + "" == s.text;
  }

  lemma NextLineDone(labels: seq<string>, s: State, t: State, job: Job, i: nat)
    requires ValidJob(labels, job) && i < |labels| && LinesDone(labels, s, t, job, i)
    requires SizeAfter(labels, job, |s.text|, s.size, i + 1) < UINT32
    ensures Enabled(labels, t, WriteLine) && Enabled(labels, Next(labels, t, WriteLine), Check)
    ensures LinesDone(labels, s, Next(labels, Next(labels, t, WriteLine), Check), job, i + 1)
  {
    hide Line;
    Assoc(s.text, SensorLines(labels, job, i), Line(labels[i], job.values[i], job.timer));
  }

  /** The producer's steps, alone, are Buffer.UseManager: the same text and the same size. */
  lemma StepsOfBatch(labels: seq<string>, run: seq<Action>, job: Job)
    requires ValidJob(labels, job)
    requires var s := Exec(labels, run); s.Some? && s.value.producer.Idle? && s.value.owner == None
    requires SizeAfter(labels, job, |Exec(labels, run).value.text|, Exec(labels, run).value.size, |labels|) < UINT32
    ensures var s, t := Exec(labels, run).value, Exec(labels, AfterBatch(run, job));
            && t.Some?
            && t.value.text == s.text + Batch(labels, job)
            && t.value.size == SizeAfter(labels, job, |s.text|, s.size, |labels|)
            && t.value.producer.Idle? && t.value.owner == None && t.value.batches == s.batches + [Batch(labels, job)]
            && t.value.server == s.server && t.value.responses == s.responses && t.value.delivered == s.delivered
  {
    StepsOfLines(labels, run, job, |labels|);
    hide Exec, AfterLines, SensorLines, Overhead, SizeAfter;
    var s, before := Exec(labels, run).value, AfterLines(run, job, |labels|);
    ExecSnoc(labels, before, WriteOverhead);
    ExecSnoc(labels, before + [WriteOverhead], ProducerUnlock);
    Assoc(s.text, SensorLines(labels, job, |labels|), Overhead(job));
  }

  /** The server's steps, alone, are Buffer.Serve: the body is the text, and the buffer is empty. */
  lemma StepsOfRequest(labels: seq<string>, run: seq<Action>)
    requires var s := Exec(labels, run); s.Some? && s.value.server.Waiting? && s.value.owner == None
    ensures var s, t := Exec(labels, run).value, Exec(labels, run + [ServerLock] + [Copy] + [Reset] + [ServerUnlock]);
            && t == Some(s.(text := "", delivered := |s.batches|,
                            responses := s.responses + [Response(s.text, s.delivered, |s.batches|)]))
  {
    hide Exec;
    ExecSnoc(labels, run, ServerLock);
    ExecSnoc(labels, run + [ServerLock], Copy);
    ExecSnoc(labels, run + [ServerLock] + [Copy], Reset);
    ExecSnoc(labels, run + [ServerLock] + [Copy] + [Reset], ServerUnlock);
  }

  // ---------------------------------------------------------------- runs that overrun the buffer

  /** Nobody asked for the text yet, nothing grew, and n characters are waiting. */
  ghost predicate Standing(labels: seq<string>, run: seq<Action>, at: ProducerAt, n: nat) {
    var s := Exec(labels, run);
    && s.Some? && s.value.producer == at && s.value.server.Waiting?
    && (at.Idle? ==> s.value.owner == None)
    && s.value.size == INITIAL_SIZE && |s.value.text| == n && !s.value.wrapped && !s.value.overflow
    && MainSends(run)
  }

  lemma LinesWritten(labels: seq<string>, run: seq<Action>, job: Job, n: nat, i: nat)
    requires Standing(labels, run, Idle, n) && ValidJob(labels, job) && FromMain(job) && i <= |labels|
    requires i > 0 ==> n + |SensorLines(labels, job, i)| + MARGIN < INITIAL_SIZE
    ensures Standing(labels, AfterLines(run, job, i), Writing(job, i), n + |SensorLines(labels, job, i)|)
  {
    hide Exec, Line;
    if i == 0 {
      ExecSnoc(labels, run, ProducerLock(job));
    } else {
      SensorLinesGrow(labels, job, i - 1, i);
      LinesWritten(labels, run, job, n, i - 1);
      var before := AfterLines(run, job, i - 1);
      ExecSnoc(labels, before, WriteLine);
      ExecSnoc(labels, before + [WriteLine], Check);
    }
  }

  lemma BatchWritten(labels: seq<string>, run: seq<Action>, job: Job, n: nat)
    requires Standing(labels, run, Idle, n) && ValidJob(labels, job) && FromMain(job)
    requires labels != [] ==> n + |SensorLines(labels, job, |labels|)| + MARGIN < INITIAL_SIZE
    requires n + |Batch(labels, job)| <= INITIAL_SIZE
    ensures Standing(labels, AfterBatch(run, job), Idle, n + |Batch(labels, job)|)
  {
    hide Exec, AfterLines, SensorLines, Overhead, Line;
    if labels == [] {
      NoLines(labels, job);
    }
    LinesWritten(labels, run, job, n, |labels|);
    var before := AfterLines(run, job, |labels|);
    ExecSnoc(labels, before, WriteOverhead);
    ExecSnoc(labels, before + [WriteOverhead], ProducerUnlock);
  }

  lemma {:induction false} BatchesWritten(labels: seq<string>, job: Job, k: nat)
    requires ValidJob(labels, job) && FromMain(job)
    requires k * |Batch(labels, job)| + (if labels == [] then 0 else MARGIN + 1) <= INITIAL_SIZE
    ensures Standing(labels, Repeated(job, k), Idle, k * |Batch(labels, job)|)
  {
    assert |labels| == |job.values|;
    hide ValidJob, SensorLines, Overhead;
    if k > 0 {
      var b := |Batch(labels, job)|;
      assert (k - 1) * b + b == k * b;
      BatchesWritten(labels, job, k - 1);
      BatchWritten(labels, Repeated(job, k - 1), job, (k - 1) * b);
    }
  }

  /** One more line goes past the buffer. */
  lemma LineOverruns(labels: seq<string>, run: seq<Action>, job: Job, i: nat, n: nat)
    requires Standing(labels, run, Writing(job, i), n) && i < |labels| && ValidJob(labels, job)
    requires n + |Line(labels[i], job.values[i], job.timer)| > INITIAL_SIZE
    ensures !NeverOverrun(labels)
  {
    hide Exec, Line;
    ExecSnoc(labels, run, WriteLine);
    assert !Exec(labels, run + [WriteLine]).value.wrapped;
  }

  lemma OverheadOverruns(labels: seq<string>, run: seq<Action>, job: Job, n: nat)
    requires Standing(labels, run, Writing(job, |labels|), n) && ValidJob(labels, job)
    requires n + |Overhead(job)| > INITIAL_SIZE
    ensures !NeverOverrun(labels)
  {
    hide Exec, Overhead;
    ExecSnoc(labels, run, WriteOverhead);
    assert !Exec(labels, run + [WriteOverhead]).value.wrapped;
  }

  /** While its size is representable, the buffer is not overrun in any interleaving with main's calls. */
  ghost predicate NeverOverrun(labels: seq<string>) {
    forall actions: seq<Action> :: MainSends(actions) ==>
      var s := Exec(labels, actions); s.Some? ==> s.value.wrapped || !s.value.overflow
  }

  lemma ExactLine(metric: string, value: nat, timer: nat)
    ensures Pow10(value) > 0 && Pow10(timer) > 0
    ensures |Line(metric, Pow10(value), Pow10(timer))| == |metric| + value + timer + 5
    ensures value <= 8 ==> Pow10(value) < 1_000_000_000
    ensures value <= 19 ==> Pow10(value) < UINT64
    ensures timer <= 18 ==> Pow10(timer) < 0x8000_0000_0000_0000
  {
    DecimalOfPow10(value);
    DecimalOfPow10(timer);
    PowerFits(value);
    PowerFits(timer);
  }

  lemma PowerFits(k: nat)
    ensures k <= 8 ==> Pow10(k) < 1_000_000_000
    ensures k <= 18 ==> Pow10(k) < 0x8000_0000_0000_0000
    ensures k <= 19 ==> Pow10(k) < UINT64
  {
    assert Pow10(8) == 100_000_000;
    assert Pow10(18) == 1_000_000_000_000_000_000;
    assert Pow10(4) == 10_000;
    assert Pow10(9) == 1_000_000_000;
    assert Pow10(14) == 100_000_000_000_000;
    assert Pow10(19) == 10_000_000_000_000_000_000;
    if k <= 8 {
      PowerGrows(k, 8);
    } else if k <= 18 {
      PowerGrows(k, 18);
    }
  }

  lemma PowerGrows(i: nat, j: nat)
    requires i <= j
    ensures Pow10(i) <= Pow10(j)
  {
    if i < j {
      PowerGrows(i, j - 1);
    }
  }

  /** No sensor: overhead lines only, and no growth check. */
  lemma NoSensorOverruns()
    ensures !NeverOverrun([])
  {
    var job := Job([], Pow10(0), Pow10(0));
    ExactLine("overhead", 0, 0);
    hide Pow10, Line, Decimal;
    assert |Batch([], job)| == 13;
    BatchesWritten([], job, 78);
    LinesWritten([], Repeated(job, 78), job, 1014, 0);
    OverheadOverruns([], AfterLines(Repeated(job, 78), job, 0), job, 1014);
  }

  function Wide(n: nat): (s: string)
    ensures |s| == n
  {
    seq(n, _ => 'x')
  }

  /** Numbers of v + 1 and t + 1 digits. */
  function JobOfOne(v: nat, t: nat, overhead: bool): Job {
    Job([Pow10(v)], Pow10(t), if overhead then Pow10(8) else 0)
  }

  lemma SizeOfOne(labels: seq<string>, v: nat, t: nat, overhead: bool)
    requires |labels| == 1 && v <= 19 && t <= 18
    ensures var job := JobOfOne(v, t, overhead);
            && ValidJob(labels, job) && FromMain(job) && |job.values| == 1
            && |Line(labels[0], job.values[0], job.timer)| == |labels[0]| + v + t + 5
            && |SensorLines(labels, job, 1)| == |labels[0]| + v + t + 5
            && |Batch(labels, job)| == |labels[0]| + v + t + 5 + if overhead then t + 21 else 0
  {
    var job := JobOfOne(v, t, overhead);
    ExactLine(labels[0], v, t);
    ExactLine("overhead", 8, t);
    hide Pow10, Line;
    assert SensorLines(labels, job, 0) == "";
  }

  lemma ManyBatches(labels: seq<string>, job: Job, k: nat, size: nat, n: nat)
    requires ValidJob(labels, job) && FromMain(job) && labels != [] && |Batch(labels, job)| == size
    requires k * size == n && n + MARGIN < INITIAL_SIZE
    ensures Standing(labels, Repeated(job, k), Idle, n)
  {
    hide Batch, Standing, ValidJob, Repeated;
    BatchesWritten(labels, job, k);
  }

  /** One sensor with a label of 49 characters: ten lines of 82 and one of 75 characters leave just
      too little for a growth, and then an overhead line of 39 and a line of 91 follow. */
  lemma FirstLabelOverruns(labels: seq<string>)
    requires labels == [Wide(FIRST_LABEL + 1)]
    ensures !NeverOverrun(labels)
  {
    hide NeverOverrun, Standing;
    var run := BeforeFirst(labels);
    SizeOfOne(labels, 19, 18, false);
    LastLine(labels, run, JobOfOne(19, 18, false));
  }

  lemma BeforeFirst(labels: seq<string>) returns (run: seq<Action>)
    requires |labels| == 1 && |labels[0]| == FIRST_LABEL + 1
    ensures Standing(labels, run, Idle, 934)
  {
    hide JobOfOne, Line, SensorLines, Batch, Standing, Repeated, ValidJob;
    var a, b := JobOfOne(14, 14, false), JobOfOne(3, 18, true);
    SizeOfOne(labels, 14, 14, false);
    ManyBatches(labels, a, 10, 82, 820);
    SizeOfOne(labels, 3, 18, true);
    BatchWritten(labels, Repeated(a, 10), b, 820);
    run := AfterBatch(Repeated(a, 10), b);
  }

  lemma LastLine(labels: seq<string>, run: seq<Action>, job: Job)
    requires Standing(labels, run, Idle, 934)
    requires |labels| == |job.values| == 1 && ValidJob(labels, job) && FromMain(job)
    requires 934 + |Line(labels[0], job.values[0], job.timer)| > INITIAL_SIZE
    ensures !NeverOverrun(labels)
  {
    hide Line, Standing, NeverOverrun;
    LinesWritten(labels, run, job, 934, 0);
    NoLines(labels, job);
    LineOverruns(labels, AfterLines(run, job, 0), job, 0, 934);
  }

  lemma NoLines(labels: seq<string>, job: Job)
    requires |labels| == |job.values|
    ensures SensorLines(labels, job, 0) == ""
  {
  }

  function JobOfTwo(v: nat, w: nat, t: nat): Job {
    Job([Pow10(v), Pow10(w)], Pow10(t), 0)
  }

  lemma SizeOfTwo(labels: seq<string>, v: nat, w: nat, t: nat)
    requires |labels| == 2 && v <= 19 && w <= 19 && t <= 18
    ensures var job := JobOfTwo(v, w, t);
            && ValidJob(labels, job) && FromMain(job) && |job.values| == 2
            && |Line(labels[1], job.values[1], job.timer)| == |labels[1]| + w + t + 5
            && |SensorLines(labels, job, 1)| == |labels[0]| + v + t + 5
            && |SensorLines(labels, job, 2)| == |labels[0]| + v + t + 5 + |labels[1]| + w + t + 5
            && |Batch(labels, job)| == |SensorLines(labels, job, 2)|
  {
    var job := JobOfTwo(v, w, t);
    ExactLine(labels[0], v, t);
    ExactLine(labels[1], w, t);
    hide Pow10, Line;
    assert SensorLines(labels, job, 0) == "";
    assert |SensorLines(labels, job, 1)| == |labels[0]| + v + t + 5;
  }

  /** A second label of 88 characters: seven batches of 122 characters and a line of 41 leave just too
      little for a growth, and then a line of 130 follows. */
  lemma LaterLabelOverruns(labels: seq<string>)
    requires labels == ["", Wide(LATER_LABEL + 1)]
    ensures !NeverOverrun(labels)
  {
    hide NeverOverrun, Standing, Repeated, JobOfTwo, ValidJob, SensorLines, Batch, Line;
    BeforeLater(labels);
    SizeOfTwo(labels, 18, 19, 18);
    SecondLine(labels, Repeated(JobOfTwo(6, 6, 6), 7), JobOfTwo(18, 19, 18));
  }

  lemma BeforeLater(labels: seq<string>)
    requires |labels| == 2 && labels[0] == "" && |labels[1]| == LATER_LABEL + 1
    ensures Standing(labels, Repeated(JobOfTwo(6, 6, 6), 7), Idle, 854)
  {
    hide JobOfTwo, Line, SensorLines, Batch, Standing, Repeated, ValidJob;
    SizeOfTwo(labels, 6, 6, 6);
    ManyBatches(labels, JobOfTwo(6, 6, 6), 7, 122, 854);
  }

  lemma SecondLine(labels: seq<string>, run: seq<Action>, job: Job)
    requires Standing(labels, run, Idle, 854)
    requires |labels| == |job.values| == 2 && ValidJob(labels, job) && FromMain(job)
    requires |SensorLines(labels, job, 1)| == 41
    requires 895 + |Line(labels[1], job.values[1], job.timer)| > INITIAL_SIZE
    ensures !NeverOverrun(labels)
  {
    hide Line, SensorLines, Standing, NeverOverrun;
    LinesWritten(labels, run, job, 854, 1);
    LineOverruns(labels, AfterLines(run, job, 1), job, 1, 895);
  }

  /** The buffer is never overrun if and only if there is at least one sensor: only sensor lines are
      followed by a growth check. */
  lemma HeadroomNeedsSensor(labels: seq<string>)
    requires ShortLabels(labels)
    ensures labels != [] <==> NeverOverrun(labels)
  {
    if labels != [] {
      forall actions: seq<Action> | MainSends(actions)
        ensures var s := Exec(labels, actions); s.Some? ==> s.value.wrapped || !s.value.overflow
      {
        NeverCut(labels, actions);
      }
    } else {
      NoSensorOverruns();
    }
  }

  /** No larger bounds would do: bounds on the first and the later labels keep the buffer safe if and
      only if they are at most 48 and 87. */
  lemma LabelBoundsAreExact(first: nat, later: nat)
    ensures (forall labels: seq<string> :: labels != [] && LabelsUpTo(labels, first, later) ==> NeverOverrun(labels))
       <==> first <= FIRST_LABEL && later <= LATER_LABEL
  {
    hide NeverOverrun;
    if first <= FIRST_LABEL && later <= LATER_LABEL {
      forall labels: seq<string> | labels != [] && LabelsUpTo(labels, first, later)
        ensures NeverOverrun(labels)
      {
        HeadroomNeedsSensor(labels);
      }
    } else if first > FIRST_LABEL {
      var labels := [Wide(FIRST_LABEL + 1)];
      FirstLabelOverruns(labels);
      assert LabelsUpTo(labels, first, later);
    } else {
      var labels := ["", Wide(LATER_LABEL + 1)];
      LaterLabelOverruns(labels);
      assert LabelsUpTo(labels, first, later);
    }
  }
}
