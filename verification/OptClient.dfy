/** One turn of the loop `while ((opt = optparse_long(...)) != -1)` that both clients run. */
module OptClient {
  import opened OptTable
  import opened OptSpec
  import opened OptRun
  import opened Optparse

  /** What the turns so far did to the line that was `orig` when the parser stood at `first`. */
  datatype Turns = Turns(orig: seq<string>, first: nat, events: seq<Event>, done: seq<string>)

  ghost predicate Running(es: seq<LongOpt>, turns: Turns, options: Options)
    reads options, options.argv
    requires options.Valid()
  {
    Progress(es, turns.orig, turns.first, turns.events, turns.done, options.Line(), options.optind, options.subopt)
  }

  lemma StartRun(es: seq<LongOpt>, options: Options)
    requires options.Valid() && options.subopt == 0
    ensures Running(es, Turns(options.Line(), options.optind, [], []), options)
  {
    Begin(es, options.Line(), options.optind);
  }

  lemma RunningFirst(es: seq<LongOpt>, turns: Turns, options: Options)
    requires options.Valid() && Running(es, turns, options)
    ensures turns.first <= |turns.orig|
  {
  }

  /** The events of the turns still to come. */
  lemma RunningEvents(es: seq<LongOpt>, turns: Turns, options: Options) returns (later: seq<Event>)
    requires options.Valid() && Running(es, turns, options)
    requires turns.first <= |turns.orig| && Run(es, turns.orig[turns.first..], 0) != Wild
    ensures Run(es, turns.orig[turns.first..], 0).events == turns.events + later
  {
    later := Run(es, options.Line()[options.optind..], options.subopt).events;
  }

  /** The option token the next call will decode, and what follows. */
  ghost function Upcoming(options: Options): seq<string>
    reads options, options.argv
    requires options.Valid()
  {
    options.Pending()[Skip(options.Pending(), true)..]
  }

  ghost predicate IsOption(t: seq<string>) {
    t != [] && !IsOperand(t[0]) && !IsDashDash(t[0])
  }

  method NextOption(options: Options, longopts: seq<LongOpt>, ghost turns: Turns) returns (opt: int, ghost next: Turns)
    requires Terminated(longopts) && |longopts| <= 96 + 1
    requires options.Valid() && Running(Entries(longopts), turns, options)
    modifies options, options.argv
    ensures options.Valid()
    ensures opt == DONE ==>
      Finished(Entries(longopts), turns.orig, turns.first, turns.events, options.Line(), options.optind)
    ensures opt == WILD ==> Run(Entries(longopts), turns.orig[turns.first..], 0) == Wild
    ensures opt != DONE && opt != WILD ==>
      var t := old(Upcoming(options));
      && IsOption(t)
      && var e := StepEvent(OptionStep(Entries(longopts), t, old(options.subopt)), t[0]);
         && next == turns.(events := turns.events + [e], done := next.done)
         && opt == e.ret && options.optarg == e.optarg
         && Running(Entries(longopts), next, options)
    ensures opt != DONE && opt != WILD ==>
      || |options.Pending()| < |old(options.Pending())|
      || (options.Pending() == old(options.Pending())
          && Remaining(Upcoming(options), options.subopt) < Remaining(old(Upcoming(options)), old(options.subopt)))
  {
    hide Run, Rotate, OptionStep, Finished, Progress, LongCall, Skip;
    ghost var es, line, at, cursor, t := Entries(longopts), options.Line(), options.optind, options.subopt, options.Pending();
    ghost var k, s := Skip(t, true), LongCall(es, t, cursor);
    opt := options.OptparseLong(longopts);
    next := turns;
    if opt == DONE {
      End(es, turns.orig, turns.first, turns.events, turns.done, line, at, cursor);
    } else if opt == WILD {
      Strays(es, turns.orig, turns.first, turns.events, turns.done, line, at, cursor);
    } else {
      CallIsStep(es, t, cursor);
      CallDecreases(es, t, cursor);
      assert options.Pending() == After(es, t, cursor) by {
        RotatedSlices(line, at, k, s.used);
      }
      Advance(es, turns.orig, turns.first, turns.events, turns.done, line, at, cursor);
      next := turns.(events := turns.events + [StepEvent(s, t[k])], done := turns.done + t[k..k + s.used]);
    }
  }
}
