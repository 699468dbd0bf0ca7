/**
 src/libmojitos.c: the sensors' option tables laid out flat, the dispatch of options to sensors,
 and the registry of sources, whose labels and values are two flat arrays.
 */
module Registry {
  import opened Wrappers
  import opened Blocks
  import opened OptTable
  import opened OptSpec
  import opened OptPrint
  import opened OptRun
  import opened Optparse
  import opened OptClient
  import opened OptGrammar
  import opened TwoPass

  /** One entry of a sensor's option table; `show` stands for a function that prints and exits. */
  datatype MojOpt = MojOpt(opt: LongOpt, show: bool)

  /** sensors[s] are the options of sensor s. */
  type Sensors = seq<seq<MojOpt>>

  /** _moj_opts without its end mark. */
  function Table(sensors: Sensors): (es: seq<LongOpt>)
    ensures |es| == |Flatten(sensors)|
  {
    seq(|Flatten(sensors)|, i requires 0 <= i < |Flatten(sensors)| => Flatten(sensors)[i].opt)
  }

  /** Entry j of sensor s stands in the table behind the entries of all earlier sensors, unchanged. */
  lemma TableAt(sensors: Sensors, s: nat, j: nat)
    requires s < |sensors| && j < |sensors[s]|
    ensures Offset(sensors, s) + j < |Table(sensors)|
    ensures Table(sensors)[Offset(sensors, s) + j] == sensors[s][j].opt
  {
    FlattenAt(sensors, s, j);
  }

  /** And it has no other entries. */
  lemma TableIsCovered(sensors: Sensors, k: nat) returns (s: nat, j: nat)
    requires k < |Table(sensors)|
    ensures s < |sensors| && j < |sensors[s]| && k == Offset(sensors, s) + j
  {
    FlattenLength(sensors);
    s := Owner(sensors, k);
    j := k - Offset(sensors, s);
  }

  /** The generated init_sensors copies the tables one after the other. */
  method InitSensors(sensors: Sensors) returns (opts: seq<MojOpt>)
    ensures opts == Flatten(sensors)
  {
    opts := [];
    for s := 0 to |sensors|
      invariant opts == Flatten(sensors[..s])
    {
      FlattenSnoc(sensors[..s], sensors[s]);
      assert sensors[..s + 1] == sensors[..s] + [sensors[s]];
      for i := 0 to |sensors[s]|
        invariant opts == Flatten(sensors[..s]) + sensors[s][..i]
      {
        opts := opts + [sensors[s][i]];
      }
    }
    assert sensors[..|sensors|] == sensors;
  }

  // ---------------------------------------------------------------- dispatch

  /** The first flat entry with that short name, |opts| if none. */
  function FirstEntry(opts: seq<MojOpt>, opt: int): (f: nat)
    ensures f <= |opts|
    ensures f < |opts| ==> opts[f].opt.shortname == opt
    ensures forall g :: 0 <= g < f ==> opts[g].opt.shortname != opt
  {
    if opts == [] || opts[0].opt.shortname == opt then 0 else 1 + FirstEntry(opts[1..], opt)
  }

  lemma FirstEntryIs(opts: seq<MojOpt>, opt: int, f: nat)
    requires f <= |opts| && (f < |opts| ==> opts[f].opt.shortname == opt)
    requires forall g :: 0 <= g < f ==> opts[g].opt.shortname != opt
    ensures FirstEntry(opts, opt) == f
  {
  }

  datatype Request = Add(sensor: nat, arg: Option<string>) | Show(entry: nat)

  /** What an option asks for: the sensor that owns the first flat entry with its short name. */
  function RequestOf(sensors: Sensors, opt: int, arg: Option<string>): (r: Option<Request>)
    ensures r.Some? && r.value.Add? ==> r.value.sensor < |sensors|
  {
    var opts := Flatten(sensors);
    var f := FirstEntry(opts, opt);
    FlattenLength(sensors);
    if f == |opts| then None
    else if opts[f].show then Some(Show(f))
    else Some(Add(Owner(sensors, f), arg))
  }

  /** The entry at place k was decoded, but only its short name is looked up: the sensor that owns it
      is reached if and only if no entry of an earlier sensor has the same short name. */
  lemma OwnSensor(sensors: Sensors, k: nat, arg: Option<string>)
    requires k < |Flatten(sensors)|
    ensures k < Offset(sensors, |sensors|)
    ensures var opts, s := Flatten(sensors), Owner(sensors, k);
            var opt := opts[k].opt.shortname;
            var f := FirstEntry(opts, opt);
            && f <= k
            && (RequestOf(sensors, opt, arg) == Some(Add(s, arg)) <==>
                !opts[f].show && forall g :: 0 <= g < Offset(sensors, s) ==> opts[g].opt.shortname != opt)
  {
    FlattenLength(sensors);
    var opts, s := Flatten(sensors), Owner(sensors, k);
    var f := FirstEntry(opts, opts[k].opt.shortname);
    if Offset(sensors, s) <= f {
      OwnerUnique(sensors, f, s);
    }
  }

  /** An option of no sensor asks for nothing; an entry that shows a list is shown, and no other. */
  lemma WhatIsShown(sensors: Sensors, opt: int, arg: Option<string>)
    ensures var opts := Flatten(sensors);
            var f := FirstEntry(opts, opt);
            && (RequestOf(sensors, opt, arg) == None <==> forall k :: 0 <= k < |opts| ==> opts[k].opt.shortname != opt)
            && (f < |opts| ==> (RequestOf(sensors, opt, arg) == Some(Show(f)) <==> opts[f].show))
  {
    var opts := Flatten(sensors);
    var f := FirstEntry(opts, opt);
    FlattenLength(sensors);
    assert RequestOf(sensors, opt, arg) == None <==> f == |opts|;
    if f < |opts| {
      assert opts[f].opt.shortname == opt;
    } else {
      assert forall k :: 0 <= k < f ==> opts[k].opt.shortname != opt;
    }
  }

  /** The two loops of moj_init that look an option up. */
  method Dispatch(sensors: Sensors, opts: seq<MojOpt>, opt: int, arg: Option<string>) returns (r: Option<Request>)
    requires opts == Flatten(sensors)
    ensures r == RequestOf(sensors, opt, arg)
  {
    FlattenLength(sensors);
    r := None;
    var ismatch := false;
    var opt_idx := 0;
    var s_idx := 0;
    while s_idx < |sensors| && !ismatch
      invariant s_idx <= |sensors|
      invariant !ismatch ==> r == None && opt_idx == Offset(sensors, s_idx) <= |opts|
      invariant !ismatch ==> forall g :: 0 <= g < opt_idx ==> opts[g].opt.shortname != opt
      invariant ismatch ==> r == RequestOf(sensors, opt, arg)
    {
      OffsetMonotone(sensors, s_idx + 1, |sensors|);
      for j := 0 to |sensors[s_idx]|
        invariant !ismatch && r == None && opt_idx == Offset(sensors, s_idx) + j
        invariant forall g :: 0 <= g < opt_idx ==> opts[g].opt.shortname != opt
      {
        FlattenAt(sensors, s_idx, j);
        if opt == opts[opt_idx].opt.shortname {
          ismatch := true;
          FirstEntryIs(opts, opt, opt_idx);
          OwnerUnique(sensors, opt_idx, s_idx);
          r := Some(if opts[opt_idx].show then Show(opt_idx) else Add(s_idx, arg));
          break;
        }
        opt_idx := opt_idx + 1;
      }
      s_idx := s_idx + 1;
    }
    if !ismatch {
      FirstEntryIs(opts, opt, |opts|);
    }
  }

  // ---------------------------------------------------------------- sources

  /** One initialised source: the sensor, its argument, and the names of its values. */
  datatype Source = Source(sensor: nat, arg: Option<string>, names: seq<string>)

  function NamesOf(sources: seq<Source>): (ns: seq<seq<string>>)
    ensures |ns| == |sources|
  {
    seq(|sources|, i requires 0 <= i < |sources| => sources[i].names)
  }

  /** One reading for every value of every source, as its getter promises. */
  predicate Answers(sources: seq<Source>, readings: seq<seq<nat>>) {
    && |readings| == |sources|
    && forall i :: 0 <= i < |sources| ==> |readings[i]| == |sources[i].names|
  }

  class Library {
    var sources: seq<Source>
    var nb_sensors: nat
    var labels: seq<string>
    var values: array<nat>

    ghost predicate Valid()
      reads this
    {
      && labels == Flatten(NamesOf(sources))
      && nb_sensors == |labels| == values.Length
      && forall i :: 0 <= i < |sources| ==> sources[i].names != []
    }

    constructor ()
      ensures Valid() && sources == [] && fresh(values)
    {
      sources, labels, nb_sensors := [], [], 0;
      values := new nat[0];
    }

    /** add_source; names is what the sensor's init found, nothing meaning a failed init. */
    method AddSource(sensor: nat, arg: Option<string>, names: seq<string>)
      requires Valid()
      modifies this
      ensures Valid() && (values == old(values) || fresh(values))
      ensures sources == old(sources) + if names == [] then [] else [Source(sensor, arg, names)]
      ensures labels == old(labels) + names
    {
      sources := sources + [Source(sensor, arg, names)];
      var nb := |names|;
      if nb == 0 {
        sources := sources[..|sources| - 1];
        return;
      }
      FlattenSnoc(NamesOf(old(sources)), names);
      assert NamesOf(sources) == NamesOf(old(sources)) + [names];
      labels := labels + names;
      values := new nat[nb_sensors + nb];
      nb_sensors := nb_sensors + nb;
    }

    /** moj_get_values: every getter writes its block and returns its length. */
    method GetValues(readings: seq<seq<nat>>)
      requires Valid() && Answers(sources, readings)
      modifies values
      ensures values[..] == Flatten(readings)
    {
      hide Flatten, Offset;
      SameShape(sources, readings, |sources|);
      FlattenLength(NamesOf(sources));
      FlattenLength(readings);
      NothingYet(readings);
      var current := 0;
      for i := 0 to |sources|
        invariant current == Offset(readings, i) && current <= values.Length
        invariant values[..current] == Flatten(readings[..i])
      {
        NextBlock(readings, i);
        var written := Get(current, readings[i]);
        current := current + written;
      }
      assert readings[..|sources|] == readings;
    }

    /** A getter: it writes at values + current. */
    method Get(current: nat, reading: seq<nat>) returns (count: nat)
      requires current + |reading| <= values.Length
      modifies values
      ensures count == |reading|
      ensures values[..current + count] == old(values[..current]) + reading
    {
      for j := 0 to |reading|
        invariant values[..current] == old(values[..current])
        invariant values[current..current + j] == reading[..j]
      {
        values[current + j] := reading[j];
      }
      count := |reading|;
      assert values[..current + count] == values[..current] + values[current..current + count];
    }
  }

  lemma NothingYet(readings: seq<seq<nat>>)
    ensures Offset(readings, 0) == 0 && Flatten(readings[..0]) == []
  {
  }

  lemma NextBlock(readings: seq<seq<nat>>, i: nat)
    requires i < |readings|
    ensures Offset(readings, i + 1) == Offset(readings, i) + |readings[i]| <= Offset(readings, |readings|)
    ensures Flatten(readings[..i + 1]) == Flatten(readings[..i]) + readings[i]
  {
    OffsetMonotone(readings, i + 1, |readings|);
    FlattenSnoc(readings[..i], readings[i]);
    assert readings[..i + 1] == readings[..i] + [readings[i]];
  }

  lemma SameShape(sources: seq<Source>, readings: seq<seq<nat>>, n: nat)
    requires Answers(sources, readings) && n <= |sources|
    ensures Offset(NamesOf(sources), n) == Offset(readings, n)
  {
    if n > 0 {
      SameShape(sources, readings, n - 1);
    }
  }

  /** Label k and value k belong together: both are number j of the one source i whose block holds
      k, and the blocks cover all places. */
  lemma Aligned(sources: seq<Source>, readings: seq<seq<nat>>, k: nat)
    requires Answers(sources, readings) && k < |Flatten(NamesOf(sources))|
    ensures |Flatten(readings)| == |Flatten(NamesOf(sources))|
    ensures k < Offset(NamesOf(sources), |sources|) && k < Offset(readings, |readings|)
    ensures var i := Owner(NamesOf(sources), k);
            var j := k - Offset(NamesOf(sources), i);
            && Owner(readings, k) == i
            && 0 <= j < |sources[i].names|
            && Flatten(NamesOf(sources))[k] == sources[i].names[j]
            && Flatten(readings)[k] == readings[i][j]
  {
    hide Flatten, Owner;
    var names := NamesOf(sources);
    FlattenLength(names);
    FlattenLength(readings);
    SameShape(sources, readings, |sources|);
    var i := Owner(names, k);
    SameShape(sources, readings, i);
    SameShape(sources, readings, i + 1);
    OwnerUnique(readings, k, i);
    FlattenAt(names, i, k - Offset(names, i));
    FlattenAt(readings, i, k - Offset(names, i));
  }

  // ---------------------------------------------------------------- moj_init

  /** What the options ask for, in order; options of no sensor ask for nothing. */
  function Requests(sensors: Sensors, events: seq<Event>): (rs: seq<Request>)
    ensures forall r :: r in rs && r.Add? ==> r.sensor < |sensors|
  {
    if events == [] then []
    else
      var e := events[|events| - 1];
      var r := RequestOf(sensors, e.ret, e.optarg);
      Requests(sensors, events[..|events| - 1]) + if r == None then [] else [r.value]
  }

  /** Some option prints a list and ends the program. */
  ghost predicate Shows(rs: seq<Request>) {
    exists r :: r in rs && r.Show?
  }

  /** What the requests so far show, the whole line shows. */
  lemma ShowsLater(es: seq<LongOpt>, sensors: Sensors, turns: Turns, options: Options)
    requires options.Valid() && Running(es, turns, options)
    requires Shows(Requests(sensors, turns.events))
    ensures turns.first <= |turns.orig|
    ensures var o := Run(es, turns.orig[turns.first..], 0); o == Wild || Shows(Requests(sensors, o.events))
  {
    hide Requests;
    var o := Run(es, turns.orig[turns.first..], 0);
    if o != Wild {
      var later := RunningEvents(es, turns, options);
      RequestsAppend(sensors, turns.events, later);
    }
  }

  /** The sources after the first n requests; init(c) are the names that the init of request c finds. */
  function Sources(rs: seq<Request>, init: nat -> seq<string>): seq<Source> {
    if rs == [] then []
    else
      var n := |rs| - 1;
      Sources(rs[..n], init)
        + if rs[n].Show? || init(n) == [] then [] else [Source(rs[n].sensor, rs[n].arg, init(n))]
  }

  /** The source of request i, behind those of the requests before it, unless its init failed. */
  lemma {:induction false} SourceAt(rs: seq<Request>, init: nat -> seq<string>, i: nat)
    requires i < |rs|
    ensures var k := |Sources(rs[..i], init)|;
            if rs[i].Show? || init(i) == [] then |Sources(rs[..i + 1], init)| == k
            else
              && |Sources(rs[..i + 1], init)| == k + 1 <= |Sources(rs, init)|
              && Sources(rs, init)[k] == Source(rs[i].sensor, rs[i].arg, init(i))
  {
    assert rs[..i + 1][..i] == rs[..i];
    var n := |rs| - 1;
    if i == n {
      assert rs[..i + 1] == rs;
    } else {
      SourceAt(rs[..n], init, i);
      assert rs[..n][..i] == rs[..i] && rs[..n][..i + 1] == rs[..i + 1];
    }
  }

  lemma RequestsSnoc(sensors: Sensors, events: seq<Event>, e: Event)
    ensures var r := RequestOf(sensors, e.ret, e.optarg);
            Requests(sensors, events + [e]) == Requests(sensors, events) + if r == None then [] else [r.value]
  {
    assert (events + [e])[..|events|] == events;
  }

  lemma SourcesSnoc(rs: seq<Request>, r: Request, init: nat -> seq<string>)
    ensures Sources(rs + [r], init) == Sources(rs, init)
      + if r.Show? || init(|rs|) == [] then [] else [Source(r.sensor, r.arg, init(|rs|))]
  {
    assert (rs + [r])[..|rs|] == rs;
  }

  /** The end mark closes the table. */
  ghost predicate GoodSensors(sensors: Sensors) {
    && |Flatten(sensors)| <= 96
    && Lettered(Table(sensors))
  }

  const END := LongOpt(None, 0, NoArg)

  lemma TableTerminated(sensors: Sensors)
    requires GoodSensors(sensors)
    ensures Terminated(Table(sensors) + [END]) && Entries(Table(sensors) + [END]) == Table(sensors)
  {
    var es := Table(sensors);
    forall i | 0 <= i < |es|
      ensures !LongoptsEnd((es + [END])[i])
    {
      assert es[i] in es;
    }
  }

  /** moj_init: the sources of the saved command line, in order.  `shown` reports that an option
      printed a list and exited; `strayed` that the parser read outside a token. */
  method MojInit(argv: array<Option<string>>, sensors: Sensors, init: nat -> seq<string>)
    returns (lib: Library, shown: bool, strayed: bool)
    requires IsArgv(argv[..]) && GoodSensors(sensors)
    modifies argv
    ensures fresh(lib) && lib.Valid()
    ensures var orig := old(Tokens(argv[..]));
            var first := if orig == [] then 0 else 1;
            var o := Run(Table(sensors), orig[first..], 0);
            && (strayed ==> o == Wild)
            && (o == Wild ==> strayed || shown)
            && (o != Wild ==> (shown <==> Shows(Requests(sensors, o.events))))
            && (o != Wild && !shown ==> lib.sources == Sources(Requests(sensors, o.events), init))
  {
    hide Running, Run, Requests, Sources, RequestOf, Flatten, Table;
    lib := new Library();
    TableTerminated(sensors);
    var options := new Options(argv);
    StartRun(Table(sensors), options);
    NoRequests(sensors, init);
    ghost var orig := Tokens(argv[..]);
    shown, strayed := ServeAll(lib, options, sensors, init, Turns(orig, if orig == [] then 0 else 1, [], []));
  }

  /** The loop of moj_init, and the state it keeps. */
  ghost predicate Serving(lib: Library, options: Options, sensors: Sensors, init: nat -> seq<string>,
                          turns: Turns, calls: nat)
    reads lib, options, options.argv
  {
    && lib.Valid() && options.Valid() && Running(Table(sensors), turns, options)
    && calls == |Requests(sensors, turns.events)|
    && lib.sources == Sources(Requests(sensors, turns.events), init)
    && !Shows(Requests(sensors, turns.events))
  }

  method ServeAll(lib: Library, options: Options, sensors: Sensors, init: nat -> seq<string>, ghost start: Turns)
    returns (shown: bool, strayed: bool)
    requires GoodSensors(sensors)
    requires Serving(lib, options, sensors, init, start, 0)
    modifies lib, options, options.argv
    ensures lib.Valid()
    ensures start.first <= |start.orig|
    ensures var o := Run(Table(sensors), start.orig[start.first..], 0);
            && (strayed ==> o == Wild)
            && (o == Wild ==> strayed || shown)
            && (o != Wild ==> (shown <==> Shows(Requests(sensors, o.events))))
            && (o != Wild && !shown ==> lib.sources == Sources(Requests(sensors, o.events), init))
  {
    hide Running, Run, Requests, Sources, RequestOf, Flatten, Table, Remaining;
    var opts := InitSensors(sensors);
    TableTerminated(sensors);
    var table := Table(sensors) + [END];
    RunningFirst(Table(sensors), start, options);
    ghost var turns := start;
    var calls := 0;
    while true
      invariant turns.orig == start.orig && turns.first == start.first
      invariant Serving(lib, options, sensors, init, turns, calls)
      decreases |options.Pending()|, Remaining(Upcoming(options), options.subopt)
    {
      var opt;
      opt, shown, calls, turns := Turn(lib, options, sensors, opts, table, init, calls, turns);
      if opt == DONE || opt == WILD || shown {
        return shown, opt == WILD;
      }
    }
  }

  method Turn(lib: Library, options: Options, sensors: Sensors, opts: seq<MojOpt>, table: seq<LongOpt>,
              init: nat -> seq<string>, calls: nat, ghost turns: Turns)
    returns (opt: int, shown: bool, count: nat, ghost next: Turns)
    requires GoodSensors(sensors) && opts == Flatten(sensors)
    requires table == Table(sensors) + [END] && Terminated(table) && Entries(table) == Table(sensors)
    requires Serving(lib, options, sensors, init, turns, calls)
    modifies lib, options, options.argv
    ensures lib.Valid()
    ensures turns.first <= |turns.orig|
    ensures var o := Run(Table(sensors), turns.orig[turns.first..], 0);
            && (opt == DONE ==> !shown && o != Wild && !Shows(Requests(sensors, o.events))
                                && lib.sources == Sources(Requests(sensors, o.events), init))
            && (opt == WILD ==> !shown && o == Wild)
            && (shown && o != Wild ==> Shows(Requests(sensors, o.events)))
    ensures opt != DONE && opt != WILD && !shown ==>
      && Serving(lib, options, sensors, init, next, count)
      && next.orig == turns.orig && next.first == turns.first
      && (|| |options.Pending()| < |old(options.Pending())|
          || (options.Pending() == old(options.Pending())
              && Remaining(Upcoming(options), options.subopt) < old(Remaining(Upcoming(options), options.subopt))))
  {
    hide Running, Finished, Run, OptionStep, Requests, Sources, RequestOf, Flatten, Table, Remaining, Skip;
    RunningFirst(Table(sensors), turns, options);
    shown, count := false, calls;
    opt, next := NextOption(options, table, turns);
    if opt == DONE {
      FinishedEvents(Table(sensors), turns.orig, turns.first, turns.events, options.Line(), options.optind);
    } else if opt != WILD {
      ghost var e := next.events[|turns.events|];
      RequestsSnoc(sensors, turns.events, e);
      ghost var rs;
      shown, count, rs := Serve(lib, sensors, opts, opt, options.optarg, init, calls, Requests(sensors, turns.events));
      if shown {
        assert next.events == turns.events + [e];
        ShowsLater(Table(sensors), sensors, next, options);
      }
    }
  }

  /** The loop body of moj_init: look the option up, and add the sensor or show a list. */
  method Serve(lib: Library, sensors: Sensors, opts: seq<MojOpt>, opt: int, arg: Option<string>,
               init: nat -> seq<string>, calls: nat, ghost requests: seq<Request>)
    returns (shown: bool, count: nat, ghost rs: seq<Request>)
    requires opts == Flatten(sensors) && lib.Valid()
    requires calls == |requests| && lib.sources == Sources(requests, init) && !Shows(requests)
    modifies lib
    ensures lib.Valid() && count == |rs|
    ensures var r := RequestOf(sensors, opt, arg); rs == requests + if r == None then [] else [r.value]
    ensures !shown ==> lib.sources == Sources(rs, init) && !Shows(rs)
    ensures shown ==> Shows(rs)
  {
    hide RequestOf, Sources, Flatten;
    shown, count, rs := false, calls, requests;
    var r := Dispatch(sensors, opts, opt, arg);
    if r.Some? {
      SourcesSnoc(requests, r.value, init);
      rs := requests + [r.value];
      count := calls + 1;
      if r.value.Show? {
        shown := true;
      } else {
        lib.AddSource(r.value.sensor, r.value.arg, init(calls));
      }
    }
  }

  lemma NoRequests(sensors: Sensors, init: nat -> seq<string>)
    ensures Requests(sensors, []) == [] && Sources([], init) == []
  {
  }

  // ---------------------------------------------------------------- the sensors of a command line

  lemma RequestsAppend(sensors: Sensors, a: seq<Event>, b: seq<Event>)
    ensures Requests(sensors, a + b) == Requests(sensors, a) + Requests(sensors, b)
  {
    hide RequestOf;
    if b == [] {
      assert a + b == a;
    } else {
      var n := |b| - 1;
      assert a + b == (a + b[..n]) + [b[n]];
      RequestsSnoc(sensors, a + b[..n], b[n]);
      RequestsSnoc(sensors, b[..n], b[n]);
      assert b[..n] + [b[n]] == b;
      RequestsAppend(sensors, a, b[..n]);
    }
  }

  /** Errors ask for nothing. */
  lemma {:induction false} RequestsIgnoreErrors(sensors: Sensors, events: seq<Event>)
    requires Lettered(Table(sensors))
    ensures Requests(sensors, events) == Requests(sensors, Good(events))
  {
    if events != [] {
      var e := events[0];
      RequestsIgnoreErrors(sensors, events[1..]);
      assert events == [e] + events[1..];
      RequestsAppend(sensors, [e], events[1..]);
      if e.ret == BAD {
        ErrorIsNoRequest(sensors, e);
      } else {
        RequestsAppend(sensors, [e], Good(events[1..]));
      }
    }
  }

  lemma ErrorIsNoRequest(sensors: Sensors, e: Event)
    requires Lettered(Table(sensors)) && e.ret == BAD
    ensures Requests(sensors, [e]) == []
  {
    var opts := Flatten(sensors);
    forall i | 0 <= i < |opts|
      ensures opts[i].opt.shortname != BAD
    {
      assert Table(sensors)[i] in Table(sensors);
    }
    FirstEntryIs(opts, BAD, |opts|);
    assert [e][..0] == [];
  }

  /** The sources that moj_init adds are those that the sensor options of the whole command line
      ask for, although it parses a line in which main's options and their arguments are noise. */
  lemma SensorsOfCommandLine(mine: seq<LongOpt>, sensors: Sensors, toks: seq<string>)
    requires Lettered(mine) && Lettered(Table(sensors)) && Disjoint(mine, Table(sensors))
    requires Separate(mine, Table(sensors), toks) && !OpensAfterBreak(mine + Table(sensors), toks)
    ensures var all, o := Run(mine + Table(sensors), toks, 0), Run(Table(sensors), toks, 0);
            && all != Wild && o != Wild
            && Requests(sensors, o.events) == Requests(sensors, Restrict(all.events, Table(sensors)))
  {
    TwoPasses(mine, Table(sensors), toks);
    RequestsIgnoreErrors(sensors, Run(Table(sensors), toks, 0).events);
  }

  /** A token that denotes a required option of sensor s, and its argument v: if no earlier entry has
      the same short name, the sensor is initialised with v. */
  lemma ArgumentReachesSource(sensors: Sensors, s: nat, j: nat, t: string, v: string, init: nat -> seq<string>)
    requires GoodSensors(sensors) && s < |sensors| && j < |sensors[s]|
    requires Denotes(Table(sensors), Offset(sensors, s) + j, t)
    requires sensors[s][j].opt.argtype == Required && !sensors[s][j].show && init(0) != []
    requires forall k :: 0 <= k < Offset(sensors, s) + j ==> Table(sensors)[k].shortname != sensors[s][j].opt.shortname
    ensures var o := Run(Table(sensors), [t, v], 0);
            && o == Parsed([Event(sensors[s][j].opt.shortname, Some(v), t, if IsLongOpt(t) then 0 else 1)], [t, v], [], [], [])
            && Sources(Requests(sensors, o.events), init) == [Source(s, Some(v), init(0))]
  {
    hide Table, Flatten, Owner, Offset, Requests, Sources, Run, Denotes;
    var k, table, opt := Offset(sensors, s) + j, Table(sensors), sensors[s][j].opt.shortname;
    EntryIsOwned(sensors, s, j);
    RunDetached(table, k, t, v, []);
    OneRequest(sensors, k, s, opt, Some(v), t, if IsLongOpt(t) then 0 else 1, init);
    EmptyRun(table);
    assert [t, v] + [] == [t, v];
  }

  lemma EntryIsOwned(sensors: Sensors, s: nat, j: nat)
    requires s < |sensors| && j < |sensors[s]|
    ensures var k := Offset(sensors, s) + j;
            && k < |Flatten(sensors)| == |Table(sensors)|
            && Flatten(sensors)[k] == sensors[s][j] && Table(sensors)[k] == sensors[s][j].opt
            && k < Offset(sensors, |sensors|) && Owner(sensors, k) == s
            && forall g :: 0 <= g < k ==> Flatten(sensors)[g].opt == Table(sensors)[g]
  {
    TableAt(sensors, s, j);
    FlattenAt(sensors, s, j);
    OwnerUnique(sensors, Offset(sensors, s) + j, s);
    hide Flatten, Offset;
  }

  lemma EmptyRun(es: seq<LongOpt>)
    ensures Run(es, [], 0) == Parsed([], [], [], [], [])
  {
  }

  lemma OneRequest(sensors: Sensors, k: nat, s: nat, opt: int, arg: Option<string>, t: string, l: nat,
                   init: nat -> seq<string>)
    requires k < |Flatten(sensors)| && Flatten(sensors)[k].opt.shortname == opt && !Flatten(sensors)[k].show
    requires forall g :: 0 <= g < k ==> Flatten(sensors)[g].opt.shortname != opt
    requires k < Offset(sensors, |sensors|) && Owner(sensors, k) == s && init(0) != []
    ensures Sources(Requests(sensors, [Event(opt, arg, t, l)]), init) == [Source(s, arg, init(0))]
  {
    FirstEntryIs(Flatten(sensors), opt, k);
    assert RequestOf(sensors, opt, arg) == Some(Add(s, arg));
    hide RequestOf, Flatten;
    var e := Event(opt, arg, t, l);
    RequestsSnoc(sensors, [], e);
    NoRequests(sensors, init);
    assert [] + [e] == [e];
    SourcesSnoc([], Add(s, arg), init);
    assert [] + [Add(s, arg)] == [Add(s, arg)];
  }
}
