/** Command lines on which the conditions of the theorems fail, and so do the conclusions. */
module MojitosExamples {
  import opened CStrings
  import opened Wrappers
  import opened OptTable
  import opened OptSpec
  import opened OptPrint
  import opened OptOrder
  import opened OptGrammar
  import opened TwoPass
  import opened Mojitos
  import opened Blocks
  import opened Registry

  const RAPL := LongOpt(Some("intel-rapl"), 'r' as nat, NoArg)
  const PERF := LongOpt(Some("perf-list"), 'p' as nat, Required)

  /** The four letters of main's table. */
  lemma LetterType(c: char)
    ensures Lookup(OPTS, c) == if c == 'f' || c == 't' || c == 'o' then 1 else if c == 's' then 0 else -1
    ensures NoColonLetter(OPTS)
  {
    LookupCons(OVERHEAD, [], c);
    LookupCons(OUTPUT, [OVERHEAD], c);
    LookupCons(TIME, [OUTPUT, OVERHEAD], c);
    LookupCons(FREQ, [TIME, OUTPUT, OVERHEAD], c);
    assert OPTS == [FREQ] + [TIME, OUTPUT, OVERHEAD];
    assert [TIME, OUTPUT, OVERHEAD] == [TIME] + [OUTPUT, OVERHEAD];
    assert [OUTPUT, OVERHEAD] == [OUTPUT] + [OVERHEAD];
    assert [OVERHEAD] == [OVERHEAD] + [];
  }

  lemma LookupCons(e: LongOpt, es: seq<LongOpt>, c: char)
    requires Encodable(e)
    ensures Lookup([e] + es, c) == if e.shortname == c as int then Colons(e.argtype) else Lookup(es, c)
  {
    assert ([e] + es)[1..] == es;
  }

  lemma DecodeIsType(c: char)
    ensures Decode(Encode(OPTS), c) == TypeOf(OPTS, c)
  {
    LetterType(c);
    EncodingRefinesTable(OPTS, c);
  }

  const AFTER := ["-f", "2"]

  /** What the parser makes of `-f 2` with the cursor left at 1. */
  lemma AfterBreak()
    ensures Run(OPTS, AFTER, 1) == Parsed([Event(BAD, None, "-f", 2)], ["-f"], [], ["2"], [])
  {
    LetterType('\0');
    DecodeIsType('\0');
    assert AFTER[1..] == ["2"] && ["2"][1..] == [] && AFTER[..1] == ["-f"];
    assert ShortStep(Encode(OPTS), AFTER, 1) == Step(BAD, None, 0, 1, 1, 2);
    assert Run(OPTS, ["2"], 1) == Parsed([], [], [], ["2"], []);
  }

  /** What the grammar makes of `-f 2`. */
  lemma AfterIntended()
    ensures Grammar(OPTS, AFTER) == Parsed([Event('f' as int, Some("2"), "-f", 1)], AFTER, [], [], [])
    ensures OpensCluster(OPTS, AFTER)
  {
    LetterType('f');
    assert AFTER[2..] == [] && AFTER[..2] == AFTER;
    assert Letters(OPTS, "-f", 1, Some("2")) == Cluster([Event('f' as int, Some("2"), "-f", 1)], true, 0);
  }

  lemma NoLastArg(a: Event, b: Event, c: Event)
    requires a.ret != 'f' as int && b.ret != 'f' as int && c.ret != 'f' as int
    ensures LastArg([a, b, c], 'f') == None
  {
    assert [a, b, c][..2] == [a, b] && [a, b][..1] == [a] && [a][..0] == [];
    assert LastArg([a], 'f') == None;
    assert LastArg([a, b], 'f') == None;
  }

  const BROKEN := ["-sr"] + AFTER
  const S_EVENT := Event('s' as int, None, "-sr", 1)
  const R_EVENT := Event(BAD, None, "-sr", 2)

  lemma BrokenRun()
    ensures Run(OPTS, BROKEN, 0) != Wild
    ensures Run(OPTS, BROKEN, 0).events == [S_EVENT, R_EVENT, Event(BAD, None, "-f", 2)]
  {
    LetterType('s');
    LetterType('r');
    DecodeIsType('s');
    DecodeIsType('r');
    AfterBreak();
    hide Decode, Encode;
    assert BROKEN[0] == "-sr" && BROKEN[0..] == BROKEN && BROKEN[1..] == AFTER;
    assert ShortStep(Encode(OPTS), BROKEN, 0) == Step('s' as int, None, 's' as int, 0, 1, 1);
    assert ShortStep(Encode(OPTS), BROKEN, 1) == Step(BAD, None, 'r' as int, 1, 1, 2);
    assert Run(OPTS, BROKEN, 1).events == [R_EVENT] + [Event(BAD, None, "-f", 2)];
  }

  lemma BrokenGrammar()
    ensures Grammar(OPTS, BROKEN).events == [S_EVENT, R_EVENT, Event('f' as int, Some("2"), "-f", 1)]
    ensures OpensAfterBreak(OPTS, BROKEN)
  {
    LetterType('s');
    LetterType('r');
    AfterIntended();
    assert BROKEN[1..] == AFTER;
    assert Letters(OPTS, "-sr", 1, Some("-f")) == Cluster([S_EVENT, R_EVENT], false, 1);
  }

  /** `mojitos -sr -f 2`: main does not know the sensor option r, so the broken cluster hides -f,
      and the frequency stays at its default. */
  lemma BrokenClusterHidesFrequency()
    ensures OpensAfterBreak(OPTS, BROKEN)
    ensures Run(OPTS, BROKEN, 0) != Wild
    ensures LastArg(Run(OPTS, BROKEN, 0).events, 'f') == None
    ensures LastArg(Grammar(OPTS, BROKEN).events, 'f') == Some("2")
  {
    BrokenRun();
    BrokenGrammar();
    NoLastArg(S_EVENT, R_EVENT, Event(BAD, None, "-f", 2));
  }

  /** `mojitos -o -- x`: the output option takes "--", the parser meets none, and yet the search
      starts the operand x as the user's command. */
  lemma TakenDashDashStartsOperand()
    ensures var orig := ["mojitos", "-o", "--", "x"];
            var o := Run(OPTS, orig[1..], 0);
            && TakesDashDash(OPTS, orig[1..], 0)
            && o == Parsed([Event('o' as int, Some("--"), "-o", 1)], ["-o", "--"], [], ["x"], [])
            && UserCommand(o) == None
            && FirstDashDash(orig) == Some(2)
            && Command(orig[..1] + o.options + o.stop + o.operands + o.rest, Some(3)) == Some(["x"])
  {
    var orig := ["mojitos", "-o", "--", "x"];
    var toks := orig[1..];
    LetterType('o');
    EncodingRefinesTable(OPTS, 'o');
    assert toks == ["-o", "--", "x"] && toks[2..] == ["x"] && ["x"][1..] == [] && toks[..2] == ["-o", "--"];
    assert toks[1..] == ["--", "x"];
    assert Run(OPTS, ["x"], 0) == Parsed([], [], [], ["x"], []);
    assert ShortStep(Encode(OPTS), toks, 0) == Step('o' as int, Some("--"), 'o' as int, 2, 0, 1);
    assert Run(OPTS, toks, 0) == Parsed([Event('o' as int, Some("--"), "-o", 1)], ["-o", "--"], [], ["x"], []);
    assert orig[3..] == ["x"];
    assert FirstDashDash(["-o", "--", "x"]) == Some(1) by {
      assert FirstDashDash(toks[1..]) == Some(0);
    }
    var none: seq<string> := [];
    assert orig[..1] + ["-o", "--"] + none + ["x"] + none == orig;
  }

  /** `-sr` mixes the tables: the sensor parser stops at s and never sees r. */
  lemma MixedClusterLosesSensor()
    ensures var toks, r := ["-sr"], Event('r' as int, None, "-sr", 2);
            && r in Restrict(Grammar(OPTS + [RAPL], toks).events, [RAPL])
            && Good(Grammar([RAPL], toks).events) == []
  {
    var toks, all := ["-sr"], OPTS + [RAPL];
    var s, r := Event('s' as int, None, "-sr", 1), Event('r' as int, None, "-sr", 2);
    LetterType('s');
    LetterType('r');
    LookupAppend(OPTS, [RAPL], 's');
    LookupAppend(OPTS, [RAPL], 'r');
    LookupCons(RAPL, [], 'r');
    LookupCons(RAPL, [], 's');
    assert [RAPL] + [] == [RAPL];
    assert Letters(all, "-sr", 1, None) == Cluster([s, r], false, 0);
    assert Letters([RAPL], "-sr", 1, None) == Cluster([Event(BAD, None, "-sr", 1)], false, 0);
    assert toks[1..] == [];
    assert Grammar(all, toks).events == [s, r];
    assert RAPL in [RAPL];
    assert [s, r][1..] == [r] && [r][1..] == [];
    assert Restrict([r], [RAPL]) == [r];
  }

  /** `-p -s` gives the sensor option p the argument "-s"; main takes the same token for its own
      option s. */
  lemma OptionTokenTakenTwice()
    ensures var toks, s := ["-p", "-s"], Event('s' as int, None, "-s", 1);
            && s in Good(Grammar(OPTS, toks).events)
            && s !in Restrict(Grammar(OPTS + [PERF], toks).events, OPTS)
  {
    var toks, all := ["-p", "-s"], OPTS + [PERF];
    var p, s := Event('p' as int, Some("-s"), "-p", 1), Event('s' as int, None, "-s", 1);
    LetterType('p');
    LetterType('s');
    LookupAppend(OPTS, [PERF], 'p');
    LookupCons(PERF, [], 'p');
    assert [PERF] + [] == [PERF];
    assert Letters(all, "-p", 1, Some("-s")) == Cluster([p], true, 0);
    assert Letters(OPTS, "-p", 1, Some("-s")) == Cluster([Event(BAD, None, "-p", 1)], false, 0);
    assert Letters(OPTS, "-s", 1, None) == Cluster([s], false, 0);
    assert toks[1..] == ["-s"] && toks[1..][1..] == [] && toks[2..] == [];
    assert Grammar(all, toks).events == [p];
    assert Grammar(OPTS, ["-s"]).events == [s];
    assert Grammar(OPTS, toks).events == [Event(BAD, None, "-p", 1), s];
    assert [Event(BAD, None, "-p", 1), s][1..] == [s] && [s][1..] == [];
    assert Restrict([p], OPTS) == [];
  }

  /** `mojitos -p -- x`: the sensor option p takes "--", so the whole line has no command.  Main does
      not know p, meets the "--" itself, and starts the operand x. */
  lemma SensorTakesDashDash()
    ensures var orig, all := ["mojitos", "-p", "--", "x"], OPTS + [PERF];
            && !TakesDashDash(OPTS, orig[1..], 0)
            && TakesDashDash(all, orig[1..], 0)
            && Run(OPTS, orig[1..], 0) == Parsed([Event(BAD, None, "-p", 1)], ["-p"], ["--"], [], ["x"])
            && Run(all, orig[1..], 0) == Parsed([Event('p' as int, Some("--"), "-p", 1)], ["-p", "--"], [], ["x"], [])
            && FirstDashDash(orig) == Some(2)
            && Command(orig, Some(3)) == Some(["x"])
  {
    var orig, all := ["mojitos", "-p", "--", "x"], OPTS + [PERF];
    var toks := orig[1..];
    LetterType('p');
    LookupAppend(OPTS, [PERF], 'p');
    LookupCons(PERF, [], 'p');
    assert [PERF] + [] == [PERF];
    EncodingRefinesTable(OPTS, 'p');
    EncodingRefinesTable(all, 'p');
    hide Decode, Encode;
    assert toks == ["-p", "--", "x"] && toks[2..] == ["x"] && ["x"][1..] == [] && toks[..2] == ["-p", "--"];
    assert toks[1..] == ["--", "x"] && toks[..1] == ["-p"] && ["--", "x"][1..] == ["x"];
    assert ShortStep(Encode(OPTS), toks, 0) == Step(BAD, None, 'p' as int, 1, 0, 1);
    assert ShortStep(Encode(all), toks, 0) == Step('p' as int, Some("--"), 'p' as int, 2, 0, 1);
    assert Run(all, ["x"], 0) == Parsed([], [], [], ["x"], []);
    assert orig[3..] == ["x"];
    assert FirstDashDash(toks[1..]) == Some(0);
    assert FirstDashDash(toks) == Some(1);
  }

  const ONLY_MAIN := ["-p", "-f", "--", "x", "-s"]
  const BEHIND := ["--", "x", "-s"]

  lemma OnlyMainRun()
    ensures TakesDashDash(OPTS, ONLY_MAIN, 0) && !Undisturbed(OPTS, ONLY_MAIN, 0, false)
    ensures Run(OPTS, ONLY_MAIN, 0)
         == Parsed([Event(BAD, None, "-p", 1)] + [Event('f' as int, Some("--"), "-f", 1)] + [S_ALONE],
                   ["-p", "-f", "--", "-s"], [], ["x"], [])
  {
    LetterType('p');
    LetterType('f');
    LetterType('s');
    DecodeIsType('p');
    DecodeIsType('f');
    DecodeIsType('s');
    hide Decode, Encode;
    var toks, rest, last := ONLY_MAIN, ["-f", "--", "x", "-s"], ["-s"];
    assert toks[1..] == rest && rest[2..] == ["x", "-s"] && ["x", "-s"][1..] == last && last[1..] == [];
    assert toks[..1] == ["-p"] && rest[..2] == ["-f", "--"] && last[..1] == last;
    assert ShortStep(Encode(OPTS), toks, 0) == Step(BAD, None, 'p' as int, 1, 0, 1);
    assert ShortStep(Encode(OPTS), rest, 0) == Step('f' as int, Some("--"), 'f' as int, 2, 0, 1);
    assert ShortStep(Encode(OPTS), last, 0) == Step('s' as int, None, 's' as int, 1, 0, 1);
    assert Run(OPTS, last, 0) == Parsed([S_ALONE], last, [], [], []);
    assert Run(OPTS, ["x", "-s"], 0) == Parsed([S_ALONE], last, [], ["x"], []);
    assert Run(OPTS, rest, 0) == Parsed([Event('f' as int, Some("--"), "-f", 1)] + [S_ALONE], ["-f", "--"] + last, [], ["x"], []);
    assert !AllOperands(last) by {
      assert !IsOperand(last[0]);
    }
    assert !InOrder(OPTS, ["x", "-s"], 0);
    assert rest[1] == "--";
    assert TakesDashDash(OPTS, rest, 0) && !Undisturbed(OPTS, rest, 0, false);
  }

  const S_ALONE := Event('s' as int, None, "-s", 1)

  lemma WholeRun()
    ensures !TakesDashDash(OPTS + [PERF], ONLY_MAIN, 0)
    ensures Run(OPTS + [PERF], ONLY_MAIN, 0)
         == Parsed([Event('p' as int, Some("-f"), "-p", 1)], ["-p", "-f"], ["--"], [], ["x", "-s"])
  {
    var all := OPTS + [PERF];
    LetterType('p');
    LookupAppend(OPTS, [PERF], 'p');
    LookupCons(PERF, [], 'p');
    assert [PERF] + [] == [PERF];
    EncodingRefinesTable(all, 'p');
    hide Decode, Encode;
    assert ONLY_MAIN[2..] == BEHIND && ONLY_MAIN[..2] == ["-p", "-f"] && BEHIND[1..] == ["x", "-s"];
    assert ShortStep(Encode(all), ONLY_MAIN, 0) == Step('p' as int, Some("-f"), 'p' as int, 2, 0, 1);
    assert Run(all, BEHIND, 0) == Parsed([], [], ["--"], [], ["x", "-s"]);
  }

  /** `mojitos -p -f -- x -s`: the sensor option p takes "-f", so the user's command is `x -s`.  Main
      gives the "--" to its own -f, moves -s in front of x, and starts `-s x`. */
  lemma OnlyMainTakesDashDash()
    ensures var orig, all := ["mojitos"] + ONLY_MAIN, OPTS + [PERF];
            && TakesDashDash(OPTS, orig[1..], 0) && !TakesDashDash(all, orig[1..], 0)
            && !Undisturbed(OPTS, orig[1..], 0, false)
            && Run(OPTS, orig[1..], 0) != Wild && Run(all, orig[1..], 0) != Wild
            && UserCommand(Run(all, orig[1..], 0)) == Some(["x", "-s"])
            && FirstDashDash(orig) == Some(3)
            && var line := orig[..1] + Layout(Run(OPTS, orig[1..], 0), []);
               |line| == 6 && Command(line, Some(4)) == Some(["-s", "x"])
  {
    OnlyMainRun();
    WholeRun();
    hide Run, TakesDashDash, Undisturbed;
    var orig := ["mojitos"] + ONLY_MAIN;
    assert orig[1..] == ONLY_MAIN;
    FirstDashDashSkips(orig, 3);
    assert orig[3..] == BEHIND && FirstDashDash(BEHIND) == Some(0);
    var line := orig[..1] + Layout(Run(OPTS, ONLY_MAIN, 0), []);
    assert line == ["mojitos", "-p", "-f", "--", "-s", "x"];
    assert line[4..] == ["-s", "x"];
  }

  // ---------------------------------------------------------------- a break in the joined table

  const BROKEN_ALL := ["-sx", "-r"]
  const R_ALONE := Event('r' as int, None, "-r", 1)

  lemma RaplType(c: char)
    ensures Lookup([RAPL], c) == if c == 'r' then 0 else -1
    ensures Lookup(OPTS + [RAPL], c) == if Lookup(OPTS, c) != -1 then Lookup(OPTS, c) else Lookup([RAPL], c)
    ensures Decode(Encode([RAPL]), c) == TypeOf([RAPL], c)
    ensures Decode(Encode(OPTS + [RAPL]), c) == TypeOf(OPTS + [RAPL], c)
  {
    LookupCons(RAPL, [], c);
    assert [RAPL] + [] == [RAPL];
    LookupAppend(OPTS, [RAPL], c);
    LetterType(c);
    EncodingRefinesTable([RAPL], c);
    EncodingRefinesTable(OPTS + [RAPL], c);
  }

  lemma BrokenAllRuns()
    ensures Run(OPTS + [RAPL], BROKEN_ALL, 0) != Wild && Run([RAPL], BROKEN_ALL, 0) != Wild
    ensures Run(OPTS + [RAPL], BROKEN_ALL, 0).events
         == [Event('s' as int, None, "-sx", 1), Event(BAD, None, "-sx", 2), Event(BAD, None, "-r", 2)]
    ensures Run([RAPL], BROKEN_ALL, 0).events == [Event(BAD, None, "-sx", 1), R_ALONE]
  {
    var all, toks, rest := OPTS + [RAPL], BROKEN_ALL, ["-r"];
    LetterType('s');
    LetterType('x');
    LetterType('\0');
    RaplType('s');
    RaplType('x');
    RaplType('r');
    RaplType('\0');
    hide Decode, Encode;
    assert toks[0..] == toks && toks[1..] == rest && rest[1..] == [];
    assert ShortStep(Encode(all), rest, 1) == Step(BAD, None, 0, 1, 1, 2);
    assert Run(all, rest, 1).events == [Event(BAD, None, "-r", 2)];
    assert ShortStep(Encode(all), toks, 1) == Step(BAD, None, 'x' as int, 1, 1, 2);
    assert Run(all, toks, 1).events == [Event(BAD, None, "-sx", 2)] + [Event(BAD, None, "-r", 2)];
    assert ShortStep(Encode(all), toks, 0) == Step('s' as int, None, 's' as int, 0, 1, 1);
    assert ShortStep(Encode([RAPL]), toks, 0) == Step(BAD, None, 's' as int, 1, 0, 1);
    assert ShortStep(Encode([RAPL]), rest, 0) == Step('r' as int, None, 'r' as int, 1, 0, 1);
    assert Run([RAPL], rest, 0).events == [R_ALONE];
  }

  lemma BrokenAllSeparate()
    ensures Separate(OPTS, [RAPL], BROKEN_ALL) && OpensAfterBreak(OPTS + [RAPL], BROKEN_ALL)
  {
    var all, toks, rest := OPTS + [RAPL], BROKEN_ALL, ["-r"];
    LetterType('s');
    LetterType('x');
    LetterType('r');
    RaplType('s');
    RaplType('x');
    RaplType('r');
    var s, x := Event('s' as int, None, "-sx", 1), Event(BAD, None, "-sx", 2);
    assert toks[1..] == rest && rest[1..] == [];
    assert Letters(all, "-sx", 1, Some("-r")) == Cluster([s, x], false, 1);
    assert Letters(all, "-r", 1, None) == Cluster([R_ALONE], false, 0);
    assert AllOwned([s, x], OPTS) by {
      assert OVERHEAD in OPTS && Owns(OPTS, 's' as int);
    }
    assert AllOwned([R_ALONE], [RAPL]) by {
      assert RAPL in [RAPL];
    }
  }

  /** `-sx -r`: neither table knows x, so the joined parse loses -r, while the sensor pass, in which
      the cluster breaks at its first letter, has it. */
  lemma BreakHidesSensor()
    ensures Separate(OPTS, [RAPL], BROKEN_ALL) && OpensAfterBreak(OPTS + [RAPL], BROKEN_ALL)
    ensures Run(OPTS + [RAPL], BROKEN_ALL, 0) != Wild && Run([RAPL], BROKEN_ALL, 0) != Wild
    ensures Restrict(Run(OPTS + [RAPL], BROKEN_ALL, 0).events, [RAPL]) == []
    ensures Good(Run([RAPL], BROKEN_ALL, 0).events) == [R_ALONE]
  {
    BrokenAllSeparate();
    BrokenAllRuns();
    hide Run, Separate, OpensAfterBreak;
    var a, b, c := Event('s' as int, None, "-sx", 1), Event(BAD, None, "-sx", 2), Event(BAD, None, "-r", 2);
    assert NoneOwned([a, b, c], [RAPL]);
    RestrictForeign([a, b, c], [RAPL]);
    assert [b, R_ALONE][1..] == [R_ALONE] && [R_ALONE][1..] == [];
    assert Good([R_ALONE]) == [R_ALONE];
    assert Good([Event(BAD, None, "-sx", 1), R_ALONE]) == [R_ALONE] by {
      assert [Event(BAD, None, "-sx", 1), R_ALONE][1..] == [R_ALONE];
    }
  }

  // ---------------------------------------------------------------- a cursor that nobody sees

  /** What main sees of events. */
  function Seen(events: seq<Event>): seq<(int, Option<string>)> {
    seq(|events|, i requires 0 <= i < |events| => (events[i].ret, events[i].optarg))
  }

  /** `-sr -r`: the second cluster is read past its end and the parse is not the grammar's, yet main
      sees the same errors and the same tokens. */
  lemma BrokenClusterUnseen()
    ensures var toks := ["-sr", "-r"];
            var o, g := Run(OPTS, toks, 0), Grammar(OPTS, toks);
            && OpensAfterBreak(OPTS, toks)
            && o != g && o != Wild
            && Seen(o.events) == Seen(g.events)
            && o.options == g.options && o.operands == g.operands && o.stop == g.stop && o.rest == g.rest
  {
    var toks := ["-sr", "-r"];
    LetterType('s');
    LetterType('r');
    LetterType('\0');
    DecodeIsType('s');
    DecodeIsType('r');
    DecodeIsType('\0');
    hide Decode, Encode;
    var rest := ["-r"];
    assert toks[0..] == toks && toks[1..] == rest && rest[1..] == [] && rest[..1] == rest && toks[..1] == ["-sr"];
    assert ShortStep(Encode(OPTS), rest, 1) == Step(BAD, None, 0, 1, 1, 2);
    assert Run(OPTS, rest, 1) == Parsed([Event(BAD, None, "-r", 2)], rest, [], [], []);
    assert ShortStep(Encode(OPTS), toks, 0) == Step('s' as int, None, 's' as int, 0, 1, 1);
    assert ShortStep(Encode(OPTS), toks, 1) == Step(BAD, None, 'r' as int, 1, 1, 2);
    assert Run(OPTS, toks, 1) == Parsed([R_EVENT] + [Event(BAD, None, "-r", 2)], ["-sr"] + rest, [], [], []);
    assert Letters(OPTS, "-r", 1, None) == Cluster([Event(BAD, None, "-r", 1)], false, 0);
    assert Grammar(OPTS, rest) == Parsed([Event(BAD, None, "-r", 1)], rest, [], [], []);
    assert Letters(OPTS, "-sr", 1, Some("-r")) == Cluster([S_EVENT, R_EVENT], false, 1);
    assert Grammar(OPTS, toks).events == [S_EVENT, R_EVENT, Event(BAD, None, "-r", 1)];
    assert Run(OPTS, toks, 0).events == [S_EVENT, R_EVENT, Event(BAD, None, "-r", 2)];
  }

  // ---------------------------------------------------------------- two sensors with one letter

  const AMD := LongOpt(Some("amd-rapl"), 'r' as nat, NoArg)
  const BOTH: Sensors := [[MojOpt(RAPL, false)], [MojOpt(AMD, false)]]

  lemma BothFlat()
    ensures Flatten(BOTH) == [MojOpt(RAPL, false), MojOpt(AMD, false)]
    ensures Table(BOTH) == [RAPL, AMD]
  {
    assert BOTH[..1] == [[MojOpt(RAPL, false)]] && BOTH[..1][..0] == [];
    assert Flatten(BOTH[..1]) == [MojOpt(RAPL, false)];
  }

  lemma AmdFound()
    ensures FindLong([RAPL, AMD], "amd-rapl") == Some(AMD)
    ensures ValuePart("amd-rapl") == None
  {
    NoEquals("amd-rapl");
    assert NamePart("amd-rapl") == "amd-rapl";
    assert !Matches(RAPL.longname, "amd-rapl");
    assert [RAPL, AMD][1..] == [AMD];
    assert FindLong([AMD], "amd-rapl") == Some(AMD);
  }

  lemma AmdRun()
    ensures Run([RAPL, AMD], ["--amd-rapl"], 0).events == [Event('r' as int, None, "--amd-rapl", 0)]
  {
    hide FindLong, ShortStep, ValuePart, Matches;
    AmdFound();
    var toks := ["--amd-rapl"];
    assert toks[0][2..] == "amd-rapl" && toks[1..] == [];
    assert LongStep([RAPL, AMD], toks, 0) == Step('r' as int, None, 'r' as int, 1, 0, 0);
  }

  /** `--amd-rapl` with both RAPL sensors built in: the AMD entry is decoded, and the Intel sensor is
      added. */
  lemma AmdAsksForIntel()
    ensures Table(BOTH) == [RAPL, AMD]
    ensures Run(Table(BOTH), ["--amd-rapl"], 0).events == [Event('r' as int, None, "--amd-rapl", 0)]
    ensures FindLong(Table(BOTH), "amd-rapl") == Some(AMD)
    ensures RequestOf(BOTH, 'r' as int, None) == Some(Add(0, None))
  {
    hide Flatten, Table, FindLong, Owner, RequestOf, Offset, Run;
    BothFlat();
    AmdFound();
    AmdRun();
    OwnSensor(BOTH, 0, None);
    assert Owner(BOTH, 0) == 0 by {
      FirstIsOwned();
    }
  }

  lemma FirstIsOwned()
    ensures 0 < Offset(BOTH, |BOTH|) && Owner(BOTH, 0) == 0 && Offset(BOTH, 0) == 0
  {
    OwnerUnique(BOTH, 0, 0);
  }

  lemma NoEquals(option: string)
    requires '=' !in option
    ensures Find(option, '=') == |option|
  {
  }

  // ---------------------------------------------------------------- what main's options set

  function Told(t1: string, a: string, t2: string, b: string, t3: string, c: string, t4: string, at: nat): seq<Event> {
    [Event('f' as int, Some(a), t1, at)] + ([Event('t' as int, Some(b), t2, at)]
      + ([Event('o' as int, Some(c), t3, at)] + [Event('s' as int, None, t4, at)]))
  }

  /** Each of the four options sets its own variable, and nothing else. */
  lemma ToldSettings(t1: string, a: string, t2: string, b: string, t3: string, c: string, t4: string, at: nat,
                     atoi: string -> int)
    ensures var events := Told(t1, a, t2, b, t3, c, t4, at);
            && (forall e :: e in events ==> Argued(e))
            && Configure(events, atoi)
               == if atoi(b) == 0 then Settings(atoi(a), 1, 0, 0, Some(c)) else Settings(atoi(a), atoi(b), 1, 0, Some(c))
  {
    var f, t := Event('f' as int, Some(a), t1, at), Event('t' as int, Some(b), t2, at);
    var o, s := Event('o' as int, Some(c), t3, at), Event('s' as int, None, t4, at);
    assert Told(t1, a, t2, b, t3, c, t4, at) == [f] + [t] + [o] + [s] && [] + [f] == [f];
    NoEvents(atoi);
    hide Configure;
    ConfigureSnoc([], f, atoi);
    ConfigureSnoc([f], t, atoi);
    ConfigureSnoc([f] + [t], o, atoi);
    ConfigureSnoc([f] + [t] + [o], s, atoi);
  }

  /** The four options with their arguments, under their long or their short names. */
  lemma FourOptions(t1: string, a: string, t2: string, b: string, t3: string, c: string, t4: string, at: nat,
                    atoi: string -> int)
    requires Denotes(OPTS, 0, t1) && Denotes(OPTS, 1, t2) && Denotes(OPTS, 2, t3) && Denotes(OPTS, 3, t4)
    requires if at == 0 then IsLongOpt(t1) && IsLongOpt(t2) && IsLongOpt(t3) && IsLongOpt(t4)
             else at == 1 && !IsLongOpt(t1) && !IsLongOpt(t2) && !IsLongOpt(t3) && !IsLongOpt(t4)
    ensures var toks := [t1, a] + ([t2, b] + ([t3, c] + [t4]));
            var o := Run(OPTS, toks, 0);
            && o == Parsed(Told(t1, a, t2, b, t3, c, t4, at), toks, [], [], [])
            && (forall e :: e in o.events ==> Argued(e))
            && Configure(o.events, atoi)
               == if atoi(b) == 0 then Settings(atoi(a), 1, 0, 0, Some(c)) else Settings(atoi(a), atoi(b), 1, 0, Some(c))
  {
    hide Run, Denotes, Configure, IsLongOpt, Argued;
    var r4 := [t4];
    var r3 := [t3, c] + r4;
    var r2 := [t2, b] + r3;
    EmptyRun(OPTS);
    RunFlag(OPTS, 3, t4, []);
    assert r4 + [] == r4;
    assert Run(OPTS, r4, 0).events == [Event('s' as int, None, t4, at)];
    RunDetached(OPTS, 2, t3, c, r4);
    RunDetached(OPTS, 1, t2, b, r3);
    RunDetached(OPTS, 0, t1, a, r2);
    ToldSettings(t1, a, t2, b, t3, c, t4, at, atoi);
  }

  /** `--freq a --time b --option c --overhead-stats` sets frequency a, time b, output c and the
      overhead, for all a, b and c. */
  lemma LongNames(a: string, b: string, c: string, atoi: string -> int)
    ensures var toks := ["--" + "freq", a] + (["--" + "time", b] + (["--" + "option", c] + ["--" + "overhead-stats"]));
            var o := Run(OPTS, toks, 0);
            && o != Wild && (forall e :: e in o.events ==> Argued(e))
            && Configure(o.events, atoi)
               == if atoi(b) == 0 then Settings(atoi(a), 1, 0, 0, Some(c)) else Settings(atoi(a), atoi(b), 1, 0, Some(c))
  {
    NamesOfMain();
    hide Run, Denotes, Configure, Argued;
    LongDenotes(OPTS, 0, "freq");
    LongDenotes(OPTS, 1, "time");
    LongDenotes(OPTS, 2, "option");
    LongDenotes(OPTS, 3, "overhead-stats");
    FourOptions("--" + "freq", a, "--" + "time", b, "--" + "option", c, "--" + "overhead-stats", 0, atoi);
  }

  lemma NamesOfMain()
    ensures FirstNamed(OPTS, 0, "freq") && FirstNamed(OPTS, 1, "time") && FirstNamed(OPTS, 2, "option")
    ensures FirstNamed(OPTS, 3, "overhead-stats")
    ensures FirstLettered(OPTS, 0, 'f') && FirstLettered(OPTS, 1, 't') && FirstLettered(OPTS, 2, 'o')
    ensures FirstLettered(OPTS, 3, 's') && NoColonLetter(OPTS)
  {
  }

  /** `-f a -t b -o c -s` does the same. */
  lemma ShortNames(a: string, b: string, c: string, atoi: string -> int)
    ensures var toks := [['-', 'f'], a] + ([['-', 't'], b] + ([['-', 'o'], c] + [['-', 's']]));
            var o := Run(OPTS, toks, 0);
            && o != Wild && (forall e :: e in o.events ==> Argued(e))
            && Configure(o.events, atoi)
               == if atoi(b) == 0 then Settings(atoi(a), 1, 0, 0, Some(c)) else Settings(atoi(a), atoi(b), 1, 0, Some(c))
  {
    NamesOfMain();
    hide Run, Denotes, Configure, Argued;
    ShortDenotes(OPTS, 0, 'f');
    ShortDenotes(OPTS, 1, 't');
    ShortDenotes(OPTS, 2, 'o');
    ShortDenotes(OPTS, 3, 's');
    FourOptions(['-', 'f'], a, ['-', 't'], b, ['-', 'o'], c, ['-', 's'], 1, atoi);
  }

  // ---------------------------------------------------------------- a line that both passes share

  const SHARED := ["-f", "10"] + (["-p", "cycles"] + ["--", "ls"])

  lemma SharedParts()
    ensures Lettered(OPTS) && Lettered([PERF]) && Disjoint(OPTS, [PERF])
    ensures Denotes(OPTS + [PERF], 0, "-f") && Denotes(OPTS + [PERF], 4, "-p")
    ensures (OPTS + [PERF])[0] == FREQ && (OPTS + [PERF])[4] == PERF
  {
    var all := OPTS + [PERF];
    assert FirstLettered(all, 0, 'f') && FirstLettered(all, 4, 'p') && NoColonLetter(all);
    assert ['-', 'f'] == "-f" && ['-', 'p'] == "-p";
  }

  lemma SharedSeparate()
    ensures Separate(OPTS, [PERF], SHARED) && !OpensAfterBreak(OPTS + [PERF], SHARED)
  {
    var all := OPTS + [PERF];
    LetterType('f');
    LetterType('p');
    LookupAppend(OPTS, [PERF], 'f');
    LookupAppend(OPTS, [PERF], 'p');
    LookupCons(PERF, [], 'p');
    assert [PERF] + [] == [PERF];
    var f, p := Event('f' as int, Some("10"), "-f", 1), Event('p' as int, Some("cycles"), "-p", 1);
    var rest := ["-p", "cycles", "--", "ls"];
    assert SHARED[2..] == rest && rest[2..] == ["--", "ls"];
    assert Letters(all, "-f", 1, Some("10")) == Cluster([f], true, 0);
    assert Letters(all, "-p", 1, Some("cycles")) == Cluster([p], true, 0);
    assert AllOwned([f], OPTS) by {
      assert FREQ in OPTS && Owns(OPTS, 'f' as int);
    }
    assert AllOwned([p], [PERF]) by {
      assert PERF in [PERF];
    }
  }

  const F_TEN := Event('f' as int, Some("10"), "-f", 1)
  const P_CYCLES := Event('p' as int, Some("cycles"), "-p", 1)

  lemma SharedRun()
    ensures Run(OPTS + [PERF], SHARED, 0) == Parsed([F_TEN, P_CYCLES], ["-f", "10", "-p", "cycles"], ["--"], [], ["ls"])
  {
    var all, last := OPTS + [PERF], ["--", "ls"];
    SharedParts();
    assert last[1..] == ["ls"];
    assert Run(all, last, 0) == Parsed([], [], ["--"], [], ["ls"]);
    hide Denotes, Run;
    RunDetached(all, 4, "-p", "cycles", last);
    RunDetached(all, 0, "-f", "10", ["-p", "cycles"] + last);
    assert [F_TEN] + ([P_CYCLES] + []) == [F_TEN, P_CYCLES];
    assert ["-f", "10"] + (["-p", "cycles"] + []) == ["-f", "10", "-p", "cycles"];
  }

  lemma PairShares(es: seq<LongOpt>)
    ensures Restrict([F_TEN, P_CYCLES], es) == Restrict([F_TEN], es) + Restrict([P_CYCLES], es)
  {
    hide Restrict;
    assert [F_TEN, P_CYCLES] == [F_TEN] + [P_CYCLES];
    RestrictAppend([F_TEN], [P_CYCLES], es);
  }

  lemma WhoOwns()
    ensures Owns(OPTS, 'f' as int) && !Owns(OPTS, 'p' as int)
    ensures !Owns([PERF], 'f' as int) && Owns([PERF], 'p' as int)
  {
    assert FREQ in OPTS && PERF in [PERF];
  }

  lemma OneShare(e: Event, es: seq<LongOpt>)
    requires e.ret != BAD
    ensures Restrict([e], es) == if Owns(es, e.ret) then [e] else []
  {
    FilterOne(e, es);
  }

  lemma SharedShares()
    ensures Restrict([F_TEN, P_CYCLES], OPTS) == [F_TEN] && Restrict([F_TEN, P_CYCLES], [PERF]) == [P_CYCLES]
  {
    hide Restrict, Owns;
    WhoOwns();
    PairShares(OPTS);
    PairShares([PERF]);
    OneShare(F_TEN, OPTS);
    OneShare(P_CYCLES, OPTS);
    OneShare(F_TEN, [PERF]);
    OneShare(P_CYCLES, [PERF]);
  }

  /** `mojitos -f 10 -p cycles -- ls`: the conditions of the theorems hold.  Main sees -f and its
      argument, the sensors see -p and its argument, and the command is ls. */
  lemma SharedLine()
    ensures Lettered(OPTS) && Lettered([PERF]) && Disjoint(OPTS, [PERF])
    ensures Separate(OPTS, [PERF], SHARED) && !OpensAfterBreak(OPTS + [PERF], SHARED)
    ensures Run(OPTS, SHARED, 0) != Wild && Run([PERF], SHARED, 0) != Wild
    ensures Good(Run(OPTS, SHARED, 0).events) == [F_TEN] && Good(Run([PERF], SHARED, 0).events) == [P_CYCLES]
    ensures Run(OPTS, SHARED, 0).rest == Run([PERF], SHARED, 0).rest == ["ls"]
  {
    hide *;
    SharedParts();
    SharedSeparate();
    SharedRun();
    SharedShares();
    TwoPasses(OPTS, [PERF], SHARED);
  }
}
