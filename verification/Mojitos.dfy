/**
 The option handling of src/mojitos.c: the option loop of main, and the search for "--" that
 finds the user's command.

 The loop permutes argv; the search runs over the copy saved before, and its index is then used
 in the permuted argv.  ApplicationIsCommand says exactly when that finds the user's command.
 */
module Mojitos {
  import opened CStrings
  import opened Wrappers
  import opened OptTable
  import opened OptSpec
  import opened OptOrder
  import opened OptRun
  import opened Optparse
  import opened OptClient
  import opened OptGrammar
  import opened TwoPass

  const FREQ := LongOpt(Some("freq"), 'f' as nat, Required)
  const TIME := LongOpt(Some("time"), 't' as nat, Required)
  const OUTPUT := LongOpt(Some("option"), 'o' as nat, Required)
  const OVERHEAD := LongOpt(Some("overhead-stats"), 's' as nat, NoArg)

  const OPTS: seq<LongOpt> := [FREQ, TIME, OUTPUT, OVERHEAD]
  const OPTS_TABLE: seq<LongOpt> := OPTS + [LongOpt(None, 0, NoArg)]

  lemma TableOfOpts()
    ensures Terminated(OPTS_TABLE) && Entries(OPTS_TABLE) == OPTS
    ensures Lettered(OPTS)
  {
  }

  /** The variables of main that options set. */
  datatype Settings = Settings(frequency: int, totalTime: int, delta: int, statMode: int, output: Option<string>)

  const DEFAULTS := Settings(1, 1, 0, -1, None)

  /** An option that takes an argument always comes with one. */
  ghost predicate Argued(e: Event) {
    e.ret == 'f' as int || e.ret == 't' as int || e.ret == 'o' as int ==> e.optarg.Some?
  }

  /** The switch in the option loop. */
  function Apply(s: Settings, e: Event, atoi: string -> int): Settings
    requires Argued(e)
  {
    if e.ret == 'f' as int then s.(frequency := atoi(e.optarg.value))
    else if e.ret == 't' as int then
      var t := atoi(e.optarg.value);
      if t == 0 then s.(totalTime := 1, delta := 0) else s.(totalTime := t, delta := 1)
    else if e.ret == 's' as int then s.(statMode := 0)
    else if e.ret == 'o' as int then s.(output := e.optarg)
    else s
  }

  function Configure(events: seq<Event>, atoi: string -> int): Settings
    requires forall e :: e in events ==> Argued(e)
  {
    if events == [] then DEFAULTS
    else Apply(Configure(events[..|events| - 1], atoi), events[|events| - 1], atoi)
  }

  /** The argument of the last occurrence of an option. */
  function LastArg(events: seq<Event>, c: char): Option<string> {
    if events == [] then None
    else
      var e := events[|events| - 1];
      if e.ret == c as int then e.optarg else LastArg(events[..|events| - 1], c)
  }

  /** What the options mean: the last occurrence wins, and a zero -t is no time limit. */
  lemma {:induction false} LastOptionWins(events: seq<Event>, atoi: string -> int)
    requires forall e :: e in events ==> Argued(e)
    ensures var s, f, t := Configure(events, atoi), LastArg(events, 'f'), LastArg(events, 't');
            && s.frequency == (if f.Some? then atoi(f.value) else 1)
            && (s.delta == 0 <==> t == None || atoi(t.value) == 0)
            && (s.delta != 0 ==> s.delta == 1 && s.totalTime == atoi(t.value))
            && (s.delta == 0 ==> s.totalTime == 1)
            && s.output == LastArg(events, 'o')
            && s.statMode == (if exists e :: e in events && e.ret == 's' as int then 0 else -1)
  {
    if events != [] {
      var n := |events| - 1;
      assert events[n] in events;
      assert forall e :: e in events <==> e in events[..n] || e == events[n];
      LastOptionWins(events[..n], atoi);
    }
  }

  // ---------------------------------------------------------------- the option loop

  lemma RequiredLookup(es: seq<LongOpt>, c: char)
    requires forall e :: e in es && e.shortname == c as int ==> e.argtype == Required
    ensures Lookup(es, c) == -1 || Lookup(es, c) == 1
  {
  }

  /** atoi is never given a NULL. */
  lemma StepIsArgued(toks: seq<string>, subopt: nat)
    requires toks != [] && !IsOperand(toks[0]) && !IsDashDash(toks[0])
    ensures Argued(StepEvent(OptionStep(OPTS, toks, subopt), toks[0]))
  {
    TableOfOpts();
    NoColons(OPTS);
    if IsShortOpt(toks[0]) && subopt + 1 <= |toks[0]| {
      var c := At(toks[0], subopt + 1);
      EncodingRefinesTable(OPTS, c);
      if c == 'f' || c == 't' || c == 'o' {
        RequiredLookup(OPTS, c);
      }
    }
  }

  /** The option loop of main.  `strayed` reports a read outside a token, where C is undefined. */
  method ParseOptions(argv: array<Option<string>>, atoi: string -> int)
    returns (settings: Settings, strayed: bool, optind: nat, ghost events: seq<Event>)
    requires IsArgv(argv[..])
    modifies argv
    ensures IsArgv(argv[..])
    ensures var orig := old(Tokens(argv[..]));
            var first := if orig == [] then 0 else 1;
            if strayed then Run(OPTS, orig[first..], 0) == Wild
            else
              && Finished(OPTS, orig, first, events, Tokens(argv[..]), optind)
              && (forall e :: e in events ==> Argued(e))
              && settings == Configure(events, atoi)
  {
    hide Running, Finished, Run, Configure, Argued, Remaining;
    TableOfOpts();
    ghost var orig := Tokens(argv[..]);
    settings := DEFAULTS;
    var options := new Options(argv);
    StartRun(OPTS, options);
    NoEvents(atoi);
    ghost var turns := Turns(orig, if orig == [] then 0 else 1, [], []);
    ghost var start := turns;
    while true
      invariant options.argv == argv && turns.orig == start.orig && turns.first == start.first
      invariant Configuring(options, turns, settings, atoi)
      decreases |options.Pending()|, Remaining(Upcoming(options), options.subopt)
    {
      events := turns.events;
      var opt;
      opt, settings, turns := ConfigureTurn(options, settings, atoi, turns);
      if opt == DONE || opt == WILD {
        return settings, opt == WILD, options.optind, events;
      }
    }
  }

  /** The state that the loop keeps. */
  ghost predicate Configuring(options: Options, turns: Turns, settings: Settings, atoi: string -> int)
    reads options, options.argv
  {
    && options.Valid() && Running(OPTS, turns, options)
    && (forall e :: e in turns.events ==> Argued(e))
    && settings == Configure(turns.events, atoi)
  }

  method ConfigureTurn(options: Options, before: Settings, atoi: string -> int, ghost turns: Turns)
    returns (opt: int, settings: Settings, ghost next: Turns)
    requires Configuring(options, turns, before, atoi)
    modifies options, options.argv
    ensures options.Valid() && turns.first <= |turns.orig|
    ensures opt == DONE ==>
      && settings == before
      && Finished(OPTS, turns.orig, turns.first, turns.events, options.Line(), options.optind)
    ensures opt == WILD ==> Run(OPTS, turns.orig[turns.first..], 0) == Wild
    ensures opt != DONE && opt != WILD ==>
      && Configuring(options, next, settings, atoi)
      && next.orig == turns.orig && next.first == turns.first
      && (|| |options.Pending()| < |old(options.Pending())|
          || (options.Pending() == old(options.Pending())
              && Remaining(Upcoming(options), options.subopt) < old(Remaining(Upcoming(options), options.subopt))))
  {
    hide Running, Finished, Run, OptionStep, Configure, Argued, Remaining, Skip;
    TableOfOpts();
    RunningFirst(OPTS, turns, options);
    ghost var t, cursor := Upcoming(options), options.subopt;
    settings := before;
    opt, next := NextOption(options, OPTS_TABLE, turns);
    if opt != DONE && opt != WILD {
      StepIsArgued(t, cursor);
      ghost var e := StepEvent(OptionStep(OPTS, t, cursor), t[0]);
      ConfigureSnoc(turns.events, e, atoi);
      settings := Switch(before, opt, options.optarg, atoi);
    }
  }

  lemma NoEvents(atoi: string -> int)
    ensures Configure([], atoi) == DEFAULTS
  {
  }

  lemma ConfigureSnoc(events: seq<Event>, e: Event, atoi: string -> int)
    requires Argued(e) && forall f :: f in events ==> Argued(f)
    ensures forall f :: f in events + [e] ==> Argued(f)
    ensures Argued(Event(e.ret, e.optarg, "", 0))
    ensures Configure(events + [e], atoi) == Apply(Configure(events, atoi), Event(e.ret, e.optarg, "", 0), atoi)
  {
    assert (events + [e])[..|events|] == events;
  }

  method Switch(before: Settings, opt: int, optarg: Option<string>, atoi: string -> int) returns (settings: Settings)
    requires Argued(Event(opt, optarg, "", 0))
    ensures settings == Apply(before, Event(opt, optarg, "", 0), atoi)
  {
    settings := before;
    if opt == 'f' as int {
      settings := settings.(frequency := atoi(optarg.value));
    } else if opt == 't' as int {
      settings := settings.(totalTime := atoi(optarg.value), delta := 1);
      if settings.totalTime == 0 {
        settings := settings.(totalTime := 1, delta := 0);
      }
    } else if opt == 's' as int {
      settings := settings.(statMode := 0);
    } else if opt == 'o' as int {
      settings := settings.(output := optarg);
    }
  }

  // ---------------------------------------------------------------- main's share of the line

  lemma {:induction false} RunIsArgued(toks: seq<string>, subopt: nat)
    ensures var o := Run(OPTS, toks, subopt);
            o != Wild ==> forall e :: e in o.events ==> Argued(e)
    decreases |toks|, Remaining(toks, subopt)
  {
    hide Argued;
    if toks == [] || IsDashDash(toks[0]) {
    } else if IsOperand(toks[0]) {
      RunIsArgued(toks[1..], subopt);
    } else {
      var s := OptionStep(OPTS, toks, subopt);
      StepIsArgued(toks, subopt);
      hide OptionStep;
      if s.ret != WILD {
        RunIsArgued(toks[s.used..], s.subopt);
      }
    }
  }

  /** Errors set nothing. */
  lemma {:induction false} ConfigureIgnoresErrors(events: seq<Event>, atoi: string -> int)
    requires forall e :: e in events ==> Argued(e)
    ensures forall e :: e in Good(events) ==> Argued(e)
    ensures Configure(events, atoi) == Configure(Good(events), atoi)
  {
    if events != [] {
      var n := |events| - 1;
      var before, e := events[..n], events[n];
      assert e in events && events == before + [e];
      ConfigureIgnoresErrors(before, atoi);
      GoodAppend(before, [e]);
      assert Good([e]) == if e.ret == BAD then [] else [e];
      if e.ret == BAD {
        assert Good(before) + [] == Good(before);
      } else {
        assert (Good(before) + [e])[..|Good(before)|] == Good(before);
      }
    }
  }

  /** main's settings are those of its own options on the whole command line, although it parses a
      line in which the sensor options and their arguments are noise. */
  lemma SettingsOfCommandLine(theirs: seq<LongOpt>, toks: seq<string>, atoi: string -> int)
    requires Lettered(theirs) && Disjoint(OPTS, theirs)
    requires Separate(OPTS, theirs, toks) && !OpensAfterBreak(OPTS + theirs, toks)
    ensures var all, o := Run(OPTS + theirs, toks, 0), Run(OPTS, toks, 0);
            && all != Wild && o != Wild
            && (forall e :: e in o.events ==> Argued(e))
            && (forall e :: e in Restrict(all.events, OPTS) ==> Argued(e))
            && Configure(o.events, atoi) == Configure(Restrict(all.events, OPTS), atoi)
  {
    TableOfOpts();
    TwoPasses(OPTS, theirs, toks);
    RunIsArgued(toks, 0);
    ConfigureIgnoresErrors(Run(OPTS, toks, 0).events, atoi);
  }

  // ---------------------------------------------------------------- the user's command

  /** The first "--" of a line, not looking at the last token. */
  function FirstDashDash(line: seq<string>): (pos: Option<nat>)
    ensures pos.Some? ==> pos.value + 1 < |line|
  {
    if |line| < 2 then None
    else if IsDashDash(line[0]) then Some(0)
    else
      var pos := FirstDashDash(line[1..]);
      if pos == None then None else Some(pos.value + 1)
  }

  /** The loop of main that sets `application`; the result is an index into argv. */
  method FindApplication(save: array<Option<string>>) returns (application: Option<nat>)
    requires IsArgv(save[..])
    ensures var pos := FirstDashDash(Tokens(save[..]));
            application == if pos == None then None else Some(pos.value + 1)
  {
    ghost var line := Tokens(save[..]);
    var argc := save.Length - 1;
    var pos := 0;
    while pos < argc - 1
      invariant 0 <= pos <= argc && (pos <= argc - 1 || pos == 0)
      invariant FirstDashDash(line)
             == if FirstDashDash(line[pos..]) == None then None else Some(pos + FirstDashDash(line[pos..]).value)
      decreases argc - pos
    {
      assert line[pos..][1..] == line[pos + 1..];
      if IsDashDash(save[pos].value) {
        return Some(pos + 1);
      }
      pos := pos + 1;
    }
    application := None;
  }

  /** An option takes a "--" that is not the last token as its argument. */
  predicate TakesDashDash(es: seq<LongOpt>, toks: seq<string>, subopt: nat)
    decreases |toks|, Remaining(toks, subopt)
  {
    if toks == [] || IsDashDash(toks[0]) then false
    else if IsOperand(toks[0]) then TakesDashDash(es, toks[1..], subopt)
    else
      var s := OptionStep(es, toks, subopt);
      && s.ret != WILD
      && ((s.used == 2 && |toks| > 2 && IsDashDash(toks[1])) || TakesDashDash(es, toks[s.used..], s.subopt))
  }

  lemma FirstDashDashStep(line: seq<string>)
    requires line != [] && !IsDashDash(line[0])
    ensures var pos := FirstDashDash(line[1..]);
            FirstDashDash(line) == if pos == None then None else Some(pos.value + 1)
  {
  }

  lemma FirstDashDashSkips(line: seq<string>, n: nat)
    requires n <= |line| && forall i :: 0 <= i < n ==> !IsDashDash(line[i])
    ensures var pos := FirstDashDash(line[n..]);
            FirstDashDash(line) == if pos == None then None else Some(n + pos.value)
  {
    hide FirstDashDash;
    if n == 0 {
      assert line[0..] == line;
    } else {
      FirstDashDashStep(line);
      assert line[1..][n - 1..] == line[n..];
      assert forall i :: 0 <= i < n - 1 ==> line[1..][i] == line[i + 1];
      FirstDashDashSkips(line[1..], n - 1);
    }
  }

  /** The search finds the "--" that ended the parse, unless an option took one before. */
  lemma {:induction false} DashDashSearch(es: seq<LongOpt>, toks: seq<string>, subopt: nat)
    requires Run(es, toks, subopt) != Wild
    ensures var o, pos := Run(es, toks, subopt), FirstDashDash(toks);
            && |o.rest| <= |toks|
            && if TakesDashDash(es, toks, subopt) then
                 pos.Some? && pos.value + 1 + |o.rest| < |toks|
               else if o.rest == [] then pos == None
               else pos.Some? && pos.value + 1 + |o.rest| == |toks|
    decreases |toks|, Remaining(toks, subopt)
  {
    hide ShortStep, LongStep;
    if toks == [] || IsDashDash(toks[0]) {
    } else if IsOperand(toks[0]) {
      DashDashSearch(es, toks[1..], subopt);
    } else {
      var s := OptionStep(es, toks, subopt);
      DashDashSearch(es, toks[s.used..], s.subopt);
      if s.used == 2 && IsDashDash(toks[1]) {
        assert FirstDashDash(toks) == if |toks| > 2 then Some(1) else None by {
          FirstDashDashSkips(toks, 1);
        }
      } else {
        StepIsShort(es, toks, subopt);
        FirstDashDashSkips(toks, s.used);
      }
    }
  }

  /** The argument vector that execvp gets: argv from `application` on, after the permutation. */
  function Command(line: seq<string>, application: Option<nat>): Option<seq<string>>
    requires application.Some? ==> application.value <= |line|
  {
    if application == None then None else Some(line[application.value..])
  }

  /** What follows the "--" that ended the options. */
  function UserCommand(o: Outcome): Option<seq<string>>
    requires o != Wild
  {
    if o.rest == [] then None else Some(o.rest)
  }

  /** By main's own table, `application` is the user's command if and only if the first "--" that
      the search can see is neither the program's name nor the argument of an option of that table. */
  lemma {:induction false} ApplicationIsCommand(es: seq<LongOpt>, orig: seq<string>, line: seq<string>)
    requires orig != [] && Run(es, orig[1..], 0) != Wild
    requires var o := Run(es, orig[1..], 0);
             line == orig[..1] + o.options + o.stop + o.operands + o.rest && |line| == |orig|
    ensures var o, pos := Run(es, orig[1..], 0), FirstDashDash(orig);
            var application := if pos == None then None else Some(pos.value + 1);
            Command(line, application) == UserCommand(o) <==>
              !(|orig| > 1 && IsDashDash(orig[0])) && !TakesDashDash(es, orig[1..], 0)
  {
    var o, pos := Run(es, orig[1..], 0), FirstDashDash(orig);
    DashDashSearch(es, orig[1..], 0);
    RunConserves(es, orig[1..], 0);
    if pos != None && pos.value + 1 + |o.rest| == |orig| {
      assert line[pos.value + 1..] == o.rest;
    }
  }

  /** What follows the "--" is the end of the line, and the "--" is in front of it. */
  lemma RestIsSuffix(es: seq<LongOpt>, toks: seq<string>)
    requires Run(es, toks, 0) != Wild
    ensures var rest := Run(es, toks, 0).rest;
            |rest| <= |toks| && toks[|toks| - |rest|..] == rest && (rest != [] ==> |rest| < |toks|)
  {
    hide Run;
    RunConserves(es, toks, 0);
    var o := Run(es, toks, 0);
    var n := |o.options| + |o.operands|;
    assert toks[n..][|o.stop|..] == o.rest;
    assert toks[n..][|o.stop|..] == toks[n + |o.stop|..];
  }

  /** A table whose options take no "--" sees the command of another one if and only if the other
      one's options take none either. */
  lemma {:induction false} SameCommand(es: seq<LongOpt>, all: seq<LongOpt>, toks: seq<string>)
    requires Run(es, toks, 0) != Wild && Run(all, toks, 0) != Wild && !TakesDashDash(es, toks, 0)
    ensures UserCommand(Run(es, toks, 0)) == UserCommand(Run(all, toks, 0)) <==> !TakesDashDash(all, toks, 0)
  {
    hide Run, TakesDashDash, FirstDashDash;
    DashDashSearch(es, toks, 0);
    DashDashSearch(all, toks, 0);
    RestIsSuffix(es, toks);
    RestIsSuffix(all, toks);
  }

  /** If an option of the whole line takes a "--", the entry behind the first "--" is no command. */
  lemma TakenIsNoCommand(all: seq<LongOpt>, orig: seq<string>, line: seq<string>)
    requires orig != [] && |line| == |orig| && Run(all, orig[1..], 0) != Wild && TakesDashDash(all, orig[1..], 0)
    ensures var pos := FirstDashDash(orig);
            pos.Some? && Command(line, Some(pos.value + 1)) != UserCommand(Run(all, orig[1..], 0))
  {
    hide Run, TakesDashDash;
    DashDashSearch(all, orig[1..], 0);
  }

  /** Behind the first "--" that an option takes, the permutation moves nothing: no operand stepped
      over, before or behind that "--", is in front of an option or a "--" behind it. */
  predicate Undisturbed(es: seq<LongOpt>, toks: seq<string>, subopt: nat, crossed: bool)
    decreases |toks|, Remaining(toks, subopt)
  {
    if toks == [] || IsDashDash(toks[0]) then true
    else if IsOperand(toks[0]) then Undisturbed(es, toks[1..], subopt, true)
    else
      var s := OptionStep(es, toks, subopt);
      if s.ret == WILD then false
      else if s.used == 2 && |toks| > 2 && IsDashDash(toks[1]) then
        if crossed then AllOperands(toks[2..]) else InOrder(es, toks[2..], s.subopt)
      else Undisturbed(es, toks[s.used..], s.subopt, crossed)
  }

  lemma {:induction false} NotTakenUndisturbed(es: seq<LongOpt>, toks: seq<string>, subopt: nat, crossed: bool)
    requires Run(es, toks, subopt) != Wild && !TakesDashDash(es, toks, subopt)
    ensures Undisturbed(es, toks, subopt, crossed)
    decreases |toks|, Remaining(toks, subopt)
  {
    if toks == [] || IsDashDash(toks[0]) {
    } else if IsOperand(toks[0]) {
      NotTakenUndisturbed(es, toks[1..], subopt, true);
    } else {
      var s := OptionStep(es, toks, subopt);
      hide OptionStep;
      NotTakenUndisturbed(es, toks[s.used..], s.subopt, crossed);
    }
  }

  /** The permuted line and the line agree behind the first "--" that an option takes, if `ops` are
      the operands stepped over in front of toks. */
  ghost predicate AgreeBehind(o: Outcome, ops: seq<string>, toks: seq<string>)
    requires o != Wild
  {
    var pos := FirstDashDash(toks);
    pos.Some? && |Layout(o, ops)| == |ops| + |toks|
    && Layout(o, ops)[|ops| + pos.value + 1..] == toks[pos.value + 1..]
  }

  lemma AgreeBehindOperand(o: Outcome, ops: seq<string>, toks: seq<string>)
    requires o != Wild && toks != [] && !IsDashDash(toks[0])
    ensures AgreeBehind(AddOperand(toks[0], o), ops, toks) <==> AgreeBehind(o, ops + [toks[0]], toks[1..])
  {
    FirstDashDashStep(toks);
    assert Layout(AddOperand(toks[0], o), ops) == Layout(o, ops + [toks[0]]);
  }

  lemma AgreeBehindOption(o: Outcome, events: seq<Event>, ops: seq<string>, toks: seq<string>, w: nat)
    requires o != Wild && w <= |toks| && forall i :: 0 <= i < w ==> !IsDashDash(toks[i])
    ensures AgreeBehind(AddEvents(events, toks[..w], o), ops, toks) <==> AgreeBehind(o, ops, toks[w..])
  {
    FirstDashDashSkips(toks, w);
    var l := Layout(o, ops);
    var longer := Layout(AddEvents(events, toks[..w], o), ops);
    assert longer == toks[..w] + l;
    hide Layout, FirstDashDash;
    var pos := FirstDashDash(toks[w..]);
    if pos.Some? {
      var p := pos.value;
      assert toks[w..][p + 1..] == toks[w + p + 1..];
      if |l| == |ops| + |toks| - w {
        assert (toks[..w] + l)[w + (|ops| + p + 1)..] == l[|ops| + p + 1..];
      }
    }
  }

  lemma AgreeBehindTaken(o: Outcome, events: seq<Event>, ops: seq<string>, toks: seq<string>)
    requires o != Wild && |toks| > 2 && !IsDashDash(toks[0]) && IsDashDash(toks[1])
    requires |Layout(o, ops)| == |ops| + |toks| - 2
    ensures AgreeBehind(AddEvents(events, toks[..2], o), ops, toks) <==> Layout(o, ops)[|ops|..] == toks[2..]
  {
    FirstDashDashStep(toks);
    assert FirstDashDash(toks) == Some(1);
    assert Layout(AddEvents(events, toks[..2], o), ops) == toks[..2] + Layout(o, ops);
  }

  lemma LayoutLength(es: seq<LongOpt>, toks: seq<string>, subopt: nat, ops: seq<string>)
    requires Run(es, toks, subopt) != Wild
    ensures |Layout(Run(es, toks, subopt), ops)| == |ops| + |toks|
  {
    RunConserves(es, toks, subopt);
  }

  lemma {:induction false} TakenAgrees(es: seq<LongOpt>, toks: seq<string>, subopt: nat, ops: seq<string>)
    requires Run(es, toks, subopt) != Wild && TakesDashDash(es, toks, subopt) && AllOperands(ops)
    ensures AgreeBehind(Run(es, toks, subopt), ops, toks) <==> Undisturbed(es, toks, subopt, ops != [])
    decreases |toks|, Remaining(toks, subopt)
  {
    hide AgreeBehind, Layout;
    if IsOperand(toks[0]) {
      TakenAgrees(es, toks[1..], subopt, ops + [toks[0]]);
      AgreeBehindOperand(Run(es, toks[1..], subopt), ops, toks);
    } else {
      var s := OptionStep(es, toks, subopt);
      StepIsShort(es, toks, subopt);
      hide OptionStep;
      var o := Run(es, toks[s.used..], s.subopt);
      if s.used == 2 && |toks| > 2 && IsDashDash(toks[1]) {
        LayoutLength(es, toks[2..], s.subopt, ops);
        AgreeBehindTaken(o, [StepEvent(s, toks[0])], ops, toks);
        OrderKept(es, toks[2..], s.subopt, ops);
      } else {
        TakenAgrees(es, toks[s.used..], s.subopt, ops);
        AgreeBehindOption(o, [StepEvent(s, toks[0])], ops, toks, s.used);
      }
    }
  }

  /** Main takes a "--" that no option of the whole line takes: what counts is the order behind it. */
  lemma OnlyMainTakes(es: seq<LongOpt>, all: seq<LongOpt>, orig: seq<string>, line: seq<string>)
    requires orig != [] && Run(es, orig[1..], 0) != Wild && Run(all, orig[1..], 0) != Wild
    requires TakesDashDash(es, orig[1..], 0) && !TakesDashDash(all, orig[1..], 0) && !IsDashDash(orig[0])
    requires line == orig[..1] + Layout(Run(es, orig[1..], 0), [])
    ensures var pos := FirstDashDash(orig);
            pos.Some? && pos.value + 1 <= |line|
            && (Command(line, Some(pos.value + 1)) == UserCommand(Run(all, orig[1..], 0)) <==>
                Undisturbed(es, orig[1..], 0, false))
  {
    hide Run, TakesDashDash, FirstDashDash, Layout, Undisturbed;
    var toks := orig[1..];
    FirstDashDashStep(orig);
    DashDashSearch(es, toks, 0);
    DashDashSearch(all, toks, 0);
    RestIsSuffix(all, toks);
    LayoutLength(es, toks, 0, []);
    TakenAgrees(es, toks, 0, []);
    var p := FirstDashDash(toks).value;
    assert line[p + 2..] == Layout(Run(es, toks, 0), [])[p + 1..];
    assert Run(all, toks, 0).rest == toks[p + 1..];
  }

  /** The same, judged by the table `all` of the whole line: `application` is the user's command if
      and only if the first "--" is neither the program's name nor the argument of any option, and
      main, if it takes that "--" for an argument, moves nothing behind it. */
  lemma {:induction false} ApplicationOnWholeLine(es: seq<LongOpt>, all: seq<LongOpt>, orig: seq<string>, line: seq<string>)
    requires orig != [] && Run(es, orig[1..], 0) != Wild && Run(all, orig[1..], 0) != Wild
    requires line == orig[..1] + Layout(Run(es, orig[1..], 0), []) && |line| == |orig|
    ensures var pos := FirstDashDash(orig);
            var application := if pos == None then None else Some(pos.value + 1);
            Command(line, application) == UserCommand(Run(all, orig[1..], 0)) <==>
              && !(|orig| > 1 && IsDashDash(orig[0]))
              && !TakesDashDash(all, orig[1..], 0)
              && Undisturbed(es, orig[1..], 0, false)
  {
    hide Run, TakesDashDash, Undisturbed, Layout;
    if TakesDashDash(all, orig[1..], 0) {
      TakenIsNoCommand(all, orig, line);
    } else if TakesDashDash(es, orig[1..], 0) && !IsDashDash(orig[0]) {
      OnlyMainTakes(es, all, orig, line);
    } else if TakesDashDash(es, orig[1..], 0) {
      RestIsSuffix(all, orig[1..]);
      TakesSomething(es, orig[1..]);
    } else {
      NotTakenUndisturbed(es, orig[1..], 0, false);
      LayoutIs(Run(es, orig[1..], 0), orig[..1]);
      ApplicationIsCommand(es, orig, line);
      SameCommand(es, all, orig[1..]);
      RestIsSuffix(all, orig[1..]);
    }
  }

  lemma LayoutIs(o: Outcome, front: seq<string>)
    requires o != Wild
    ensures front + Layout(o, []) == front + o.options + o.stop + o.operands + o.rest
  {
    assert o.options + o.stop + [] == o.options + o.stop;
  }

  lemma TakesSomething(es: seq<LongOpt>, toks: seq<string>)
    requires TakesDashDash(es, toks, 0)
    ensures toks != []
  {
  }

  /** On a line where no option takes an option token, the search finds the "--" that ends it. */
  lemma {:induction false} SeparateDashDash(es1: seq<LongOpt>, es2: seq<LongOpt>, toks: seq<string>)
    requires Separate(es1, es2, toks)
    ensures var rest, pos := Grammar(es1 + es2, toks).rest, FirstDashDash(toks);
            if rest == [] then pos == None else pos.Some? && pos.value + 1 + |rest| == |toks|
    decreases |toks|
  {
    hide Opened, LongStep;
    if toks == [] || IsDashDash(toks[0]) {
    } else if IsOperand(toks[0]) {
      SeparateDashDash(es1, es2, toks[1..]);
    } else {
      var n := Width(es1 + es2, toks);
      SeparateDashDash(es1, es2, toks[n..]);
      FirstDashDashSkips(toks, n);
    }
  }

  /** On a line that two passes can share, `application` is always the command of the joined parse,
      unless the program itself is called "--". */
  lemma CommandOfCommandLine(theirs: seq<LongOpt>, orig: seq<string>, line: seq<string>)
    requires orig != [] && Lettered(theirs) && Disjoint(OPTS, theirs)
    requires Separate(OPTS, theirs, orig[1..]) && !OpensAfterBreak(OPTS + theirs, orig[1..])
    requires var o := Run(OPTS, orig[1..], 0);
             o != Wild && line == orig[..1] + o.options + o.stop + o.operands + o.rest && |line| == |orig|
    ensures var pos := FirstDashDash(orig);
            var application := if pos == None then None else Some(pos.value + 1);
            var whole := Run(OPTS + theirs, orig[1..], 0);
            whole != Wild && (Command(line, application) == UserCommand(whole) <==> !(|orig| > 1 && IsDashDash(orig[0])))
  {
    hide Run, Separate, OpensAfterBreak;
    var toks := orig[1..];
    TableOfOpts();
    TwoPasses(OPTS, theirs, toks);
    PartsOfJoin(OPTS, theirs);
    NoColons(OPTS + theirs);
    CursorIsHarmless(OPTS + theirs, toks);
    SeparateDashDash(OPTS, theirs, toks);
    DashDashSearch(OPTS, toks, 0);
    ApplicationIsCommand(OPTS, orig, line);
  }

  /** main up to the call of moj_init: save argv, parse the options, find the command.  `theirs` is
      the sensors' table. */
  method CommandLine(argv: array<Option<string>>, atoi: string -> int, ghost theirs: seq<LongOpt>)
    returns (save: array<Option<string>>, settings: Settings, application: Option<nat>, strayed: bool)
    requires IsArgv(argv[..]) && argv.Length > 1
    modifies argv
    ensures IsArgv(argv[..]) && fresh(save) && save[..] == old(argv[..])
    ensures application.Some? ==> application.value < argv.Length
    ensures var orig := old(Tokens(argv[..]));
            var o := Run(OPTS, orig[1..], 0);
            if strayed then o == Wild
            else
              && o != Wild
              && Tokens(argv[..]) == orig[..1] + o.options + o.stop + o.operands + o.rest
              && (forall e :: e in o.events ==> Argued(e))
              && settings == Configure(o.events, atoi)
              && (Command(Tokens(argv[..]), application) == UserCommand(o) <==>
                  !(|orig| > 1 && IsDashDash(orig[0])) && !TakesDashDash(OPTS, orig[1..], 0))
              && var whole := Run(OPTS + theirs, orig[1..], 0);
                 (whole != Wild ==>
                   (Command(Tokens(argv[..]), application) == UserCommand(whole) <==>
                    && !(|orig| > 1 && IsDashDash(orig[0]))
                    && !TakesDashDash(OPTS + theirs, orig[1..], 0)
                    && Undisturbed(OPTS, orig[1..], 0, false)))
  {
    hide Run;
    save := new Option<string>[argv.Length](_ => None);
    for i := 0 to argv.Length
      invariant argv[..] == old(argv[..]) && save[..i] == argv[..i]
    {
      save[i] := argv[i];
    }
    assert save[..] == argv[..];
    ghost var orig := Tokens(argv[..]);
    ghost var optind, events;
    settings, strayed, optind, events := ParseOptions(argv, atoi);
    application := FindApplication(save);
    if !strayed {
      ApplicationIsCommand(OPTS, orig, Tokens(argv[..]));
      if Run(OPTS + theirs, orig[1..], 0) != Wild {
        LayoutIs(Run(OPTS, orig[1..], 0), orig[..1]);
        ApplicationOnWholeLine(OPTS, OPTS + theirs, orig, Tokens(argv[..]));
      }
    }
  }
}
