/**
 Calling optparse_long until it returns -1: the invariant both clients share.

 Each call is one rotation of the line (Optparse.Options.OptparseLong); the lemmas here add the
 rotations of a whole run up to the final layout of argv.
 */
module OptRun {
  import opened OptTable
  import opened OptSpec

  /** A run in progress: it started at `first` on line `orig`; so far it produced `events`,
      consumed `done`, and the parser now stands at `optind` in the permuted `line`. */
  ghost predicate Progress(es: seq<LongOpt>, orig: seq<string>, first: nat, events: seq<Event>, done: seq<string>,
                           line: seq<string>, optind: nat, subopt: nat)
  {
    && first <= |orig| == |line|
    && optind == first + |done| <= |line|
    && line[..optind] == orig[..first] + done
    && Run(es, orig[first..], 0) == AddEvents(events, done, Run(es, line[optind..], subopt))
  }

  /** The run has ended: argv[0], the options with their arguments in their original order, "--"
      if it was met, the operands in their original order, everything after "--" untouched. */
  ghost predicate Finished(es: seq<LongOpt>, orig: seq<string>, first: nat, events: seq<Event>,
                           line: seq<string>, optind: nat)
    requires first <= |orig|
  {
    var o := Run(es, orig[first..], 0);
    && o != Wild
    && events == o.events
    && line == orig[..first] + o.options + o.stop + o.operands + o.rest
    && optind == first + |o.options| + |o.stop|
  }

  lemma FinishedEvents(es: seq<LongOpt>, orig: seq<string>, first: nat, events: seq<Event>,
                       line: seq<string>, optind: nat)
    requires first <= |orig| && Finished(es, orig, first, events, line, optind)
    ensures var o := Run(es, orig[first..], 0); o != Wild && o.events == events
  {
  }

  lemma Begin(es: seq<LongOpt>, orig: seq<string>, first: nat)
    requires first <= |orig|
    ensures Progress(es, orig, first, [], [], orig, first, 0)
  {
    assert orig[..first] + [] == orig[..first];
    var o := Run(es, orig[first..], 0);
    if o != Wild {
      assert [] + o.events == o.events && [] + o.options == o.options;
    }
  }

  /** Slices of a rotated line. */
  lemma RotatedSlices(line: seq<string>, p: nat, k: nat, m: nat)
    requires p + k + m <= |line|
    ensures var l, t := Rotate(line, p, k, m), line[p..];
            && l[..p + m] == line[..p] + t[k..k + m]
            && l[p + m..] == t[..k] + t[k + m..]
            && l == line[..p] + t[k..k + m] + t[..k] + t[k + m..]
  {
  }

  /** The event of a call moves from the run still to come to the run so far. */
  lemma AdvanceRun(es: seq<LongOpt>, events: seq<Event>, done: seq<string>, t: seq<string>, subopt: nat)
    requires var s := LongCall(es, t, subopt); s.ret != DONE && s.ret != WILD
    ensures var k, s := Skip(t, true), LongCall(es, t, subopt);
            AddEvents(events, done, Run(es, t, subopt))
              == AddEvents(events + [StepEvent(s, t[k])], done + t[k..k + s.used],
                           Run(es, After(es, t, subopt), s.subopt))
  {
    hide Run, OptionStep;
    var k, s := Skip(t, true), LongCall(es, t, subopt);
    var e, ts, o := StepEvent(s, t[k]), t[k..k + s.used], Run(es, After(es, t, subopt), s.subopt);
    calc {
      AddEvents(events, done, Run(es, t, subopt));
    ==  { RunPeels(es, t, subopt); }
      AddEvents(events, done, AddEvents([e], ts, o));
    ==  { AddEventsTwice(events, done, [e], ts, o); }
      AddEvents(events + [e], done + ts, o);
    }
  }

  /** A call that returned an option. */
  lemma Advance(es: seq<LongOpt>, orig: seq<string>, first: nat, events: seq<Event>, done: seq<string>,
                line: seq<string>, optind: nat, subopt: nat)
    requires Progress(es, orig, first, events, done, line, optind, subopt)
    requires var s := LongCall(es, line[optind..], subopt); s.ret != DONE && s.ret != WILD
    ensures var t := line[optind..];
            var k, s := Skip(t, true), LongCall(es, t, subopt);
            Progress(es, orig, first, events + [StepEvent(s, t[k])], done + t[k..k + s.used],
                     Rotate(line, optind, k, s.used), optind + s.used, s.subopt)
  {
    hide Run, LongCall, Rotate;
    var t := line[optind..];
    var k, s := Skip(t, true), LongCall(es, t, subopt);
    AdvanceRun(es, events, done, t, subopt);
    RotatedSlices(line, optind, k, s.used);
    var ts := t[k..k + s.used];
    assert orig[..first] + (done + ts) == orig[..first] + done + ts;
  }

  /** A call that returned -1. */
  lemma End(es: seq<LongOpt>, orig: seq<string>, first: nat, events: seq<Event>, done: seq<string>,
            line: seq<string>, optind: nat, subopt: nat)
    requires Progress(es, orig, first, events, done, line, optind, subopt)
    requires LongCall(es, line[optind..], subopt).ret == DONE
    ensures var t := line[optind..];
            var k, s := Skip(t, true), LongCall(es, t, subopt);
            Finished(es, orig, first, events, Rotate(line, optind, k, s.used), optind + s.used)
  {
    hide OptionStep;
    var t := line[optind..];
    var k, s := Skip(t, true), LongCall(es, t, subopt);
    RotatedSlices(line, optind, k, s.used);
    RunEnds(es, t, subopt);
    assert events + [] == events && done + [] == done;
  }

  /** A call that read outside its token. */
  lemma Strays(es: seq<LongOpt>, orig: seq<string>, first: nat, events: seq<Event>, done: seq<string>,
               line: seq<string>, optind: nat, subopt: nat)
    requires Progress(es, orig, first, events, done, line, optind, subopt)
    requires LongCall(es, line[optind..], subopt).ret == WILD
    ensures Run(es, orig[first..], 0) == Wild
  {
    RunStrays(es, line[optind..], subopt);
  }
}
