/**
 One command line, two tables: src/mojitos.c parses argv with its own options and
 src/libmojitos.c parses a saved copy of the same argv with the sensor options.  Each parser
 answers '?' for the other's options and takes the other's arguments for operands.

 TwoPasses says when the two results fit together: they are the two restrictions of one parse
 with the joined table.
 */
module TwoPass {
  import opened Wrappers
  import opened OptTable
  import opened OptSpec
  import opened OptGrammar

  /** Option letters that a table may use: neither ':', which getopt strings reserve, nor '?',
      which the parser returns for errors. */
  ghost predicate Lettered(es: seq<LongOpt>) {
    forall e :: e in es ==> 0 < e.shortname < 127 && e.shortname != ':' as int && e.shortname != BAD
  }

  ghost predicate Disjoint(es1: seq<LongOpt>, es2: seq<LongOpt>) {
    forall e, f :: e in es1 && f in es2 ==>
      e.shortname != f.shortname && (e.longname == f.longname ==> e.longname == None)
  }

  ghost predicate Owns(es: seq<LongOpt>, ret: int) {
    exists e :: e in es && e.shortname == ret
  }

  /** The events that are not errors. */
  function Good(events: seq<Event>): seq<Event> {
    if events == [] then []
    else if events[0].ret == BAD then Good(events[1..])
    else [events[0]] + Good(events[1..])
  }

  /** The events that are options of the table. */
  ghost function Restrict(events: seq<Event>, es: seq<LongOpt>): seq<Event> {
    if events == [] then []
    else if events[0].ret == BAD || !Owns(es, events[0].ret) then Restrict(events[1..], es)
    else [events[0]] + Restrict(events[1..], es)
  }

  ghost predicate AllOwned(events: seq<Event>, es: seq<LongOpt>) {
    forall e :: e in events && e.ret != BAD ==> Owns(es, e.ret)
  }

  ghost predicate NoneOwned(events: seq<Event>, es: seq<LongOpt>) {
    forall e :: e in events && e.ret != BAD ==> !Owns(es, e.ret)
  }

  /** No option takes an option token as its argument, and no cluster decodes letters of both
      tables (what follows an argument-taking letter is an argument, not letters). */
  ghost predicate Separate(es1: seq<LongOpt>, es2: seq<LongOpt>, toks: seq<string>)
    decreases |toks|
  {
    if toks == [] || IsDashDash(toks[0]) then true
    else if IsOperand(toks[0]) then Separate(es1, es2, toks[1..])
    else
      var n := Width(es1 + es2, toks);
      && (n == 2 ==> IsOperand(toks[1]))
      && (IsShortOpt(toks[0]) ==>
            var events := Opened(es1 + es2, toks).events;
            AllOwned(events, es1) || AllOwned(events, es2))
      && Separate(es1, es2, toks[n..])
  }

  // ---------------------------------------------------------------- a table inside another

  /** es is part of the table all: same answer for its own options, no claim on the others. */
  ghost predicate Part(es: seq<LongOpt>, all: seq<LongOpt>) {
    && TypeOf(all, '?') == -1 && !Owns(es, BAD)
    && (forall c: char :: PartLetter(es, all, c))
    && (forall option: string :: PartName(es, all, option))
  }

  ghost predicate PartLetter(es: seq<LongOpt>, all: seq<LongOpt>, c: char) {
    if TypeOf(es, c) != -1 then TypeOf(all, c) == TypeOf(es, c) && Owns(es, c as int)
    else TypeOf(all, c) != -1 ==> !Owns(es, c as int)
  }

  ghost predicate PartName(es: seq<LongOpt>, all: seq<LongOpt>, option: string) {
    match FindLong(es, option)
    case Some(e) => FindLong(all, option) == Some(e)
    case None =>
      var f := FindLong(all, option);
      f.Some? ==> !Owns(es, f.value.shortname)
  }

  lemma LookupOwned(es: seq<LongOpt>, c: char)
    requires Lettered(es)
    ensures Lookup(es, c) != -1 <==> Owns(es, c as int)
  {
    if es != [] {
      LookupOwned(es[1..], c);
      assert forall e :: e in es <==> e == es[0] || e in es[1..];
    }
  }

  lemma LookupAppend(es1: seq<LongOpt>, es2: seq<LongOpt>, c: char)
    ensures Lookup(es1 + es2, c) == if Lookup(es1, c) != -1 then Lookup(es1, c) else Lookup(es2, c)
  {
    if es1 == [] {
      assert es1 + es2 == es2;
    } else {
      assert (es1 + es2)[1..] == es1[1..] + es2;
      LookupAppend(es1[1..], es2, c);
    }
  }

  lemma FindLongAppend(es1: seq<LongOpt>, es2: seq<LongOpt>, option: string)
    ensures FindLong(es1 + es2, option)
         == if FindLong(es1, option) != None then FindLong(es1, option) else FindLong(es2, option)
  {
    if es1 == [] {
      assert es1 + es2 == es2;
    } else {
      assert (es1 + es2)[1..] == es1[1..] + es2;
      FindLongAppend(es1[1..], es2, option);
    }
  }

  lemma PartsOfJoin(es1: seq<LongOpt>, es2: seq<LongOpt>)
    requires Lettered(es1) && Lettered(es2) && Disjoint(es1, es2)
    ensures Part(es1, es1 + es2) && Part(es2, es1 + es2)
  {
    LookupOwned(es1, '?');
    LookupOwned(es2, '?');
    LookupAppend(es1, es2, '?');
    forall c: char
      ensures PartLetter(es1, es1 + es2, c) && PartLetter(es2, es1 + es2, c)
    {
      LookupOwned(es1, c);
      LookupOwned(es2, c);
      LookupAppend(es1, es2, c);
    }
    forall option: string
      ensures PartName(es1, es1 + es2, option) && PartName(es2, es1 + es2, option)
    {
      FindLongAppend(es1, es2, option);
    }
  }

  // ---------------------------------------------------------------- one cluster

  lemma GoodAppend(a: seq<Event>, b: seq<Event>)
    ensures Good(a + b) == Good(a) + Good(b)
  {
    if a == [] {
      assert a + b == b;
    } else {
      assert (a + b)[1..] == a[1..] + b;
      GoodAppend(a[1..], b);
    }
  }

  lemma RestrictAppend(a: seq<Event>, b: seq<Event>, es: seq<LongOpt>)
    ensures Restrict(a + b, es) == Restrict(a, es) + Restrict(b, es)
  {
    if a == [] {
      assert a + b == b;
    } else {
      assert (a + b)[1..] == a[1..] + b;
      RestrictAppend(a[1..], b, es);
    }
  }

  /** Good and Restrict are filters: each event is kept or dropped for itself. */
  lemma FilterOne(e: Event, es: seq<LongOpt>)
    ensures Good([]) == [] && Restrict([], es) == []
    ensures Good([e]) == if e.ret == '?' as int then [] else [e]
    ensures Restrict([e], es) == if e.ret != '?' as int && exists o :: o in es && o.shortname == e.ret then [e] else []
  {
    assert [e][1..] == [];
  }

  lemma RestrictOwned(events: seq<Event>, es: seq<LongOpt>)
    requires AllOwned(events, es)
    ensures Restrict(events, es) == Good(events)
  {
    if events != [] {
      assert events[0] in events;
      RestrictOwned(events[1..], es);
    }
  }

  lemma RestrictForeign(events: seq<Event>, es: seq<LongOpt>)
    requires NoneOwned(events, es)
    ensures Restrict(events, es) == []
  {
    if events != [] {
      assert events[0] in events;
      RestrictForeign(events[1..], es);
    }
  }

  lemma LettersMore(es: seq<LongOpt>, tok: string, at: nat, next: Option<string>)
    requires 1 <= at < |tok| && MoreLetters(es, tok, at)
    ensures var q := Letters(es, tok, at + 1, next);
            Letters(es, tok, at, next) == q.(events := [Event(tok[at] as int, None, tok, at)] + q.events)
  {
  }

  lemma OwnLastLetter(es: seq<LongOpt>, all: seq<LongOpt>, tok: string, at: nat, next: Option<string>)
    requires Part(es, all) && 1 <= at < |tok| && !MoreLetters(all, tok, at)
    requires AllOwned(Letters(all, tok, at, next).events, es)
    ensures var r, a := Letters(es, tok, at, next), Letters(all, tok, at, next);
            && Good(r.events) == Good(a.events)
            && r.takes == a.takes
            && (r.cursor > 0 ==> a.cursor > 0 || next == None)
  {
    var a := Letters(all, tok, at, next);
    assert PartLetter(es, all, tok[at]) && a.events[0] in a.events;
  }

  /** A cluster of the part's own letters is decoded alike by the part and by the whole. */
  lemma {:induction false} OwnCluster(es: seq<LongOpt>, all: seq<LongOpt>, tok: string, at: nat, next: Option<string>)
    requires Part(es, all) && 1 <= at < |tok|
    requires AllOwned(Letters(all, tok, at, next).events, es)
    ensures var r, a := Letters(es, tok, at, next), Letters(all, tok, at, next);
            && Good(r.events) == Good(a.events)
            && r.takes == a.takes
            && (r.cursor > 0 ==> a.cursor > 0 || next == None)
    decreases |tok| - at
  {
    hide Letters, Good;
    if MoreLetters(all, tok, at) {
      var a, q := Letters(all, tok, at, next), Letters(all, tok, at + 1, next);
      var e := Event(tok[at] as int, None, tok, at);
      assert PartLetter(es, all, tok[at]) && a.events[0] in a.events;
      LettersMore(all, tok, at, next);
      assert forall f :: f in q.events ==> f in a.events;
      LettersMore(es, tok, at, next);
      OwnCluster(es, all, tok, at + 1, next);
      GoodAppend([e], q.events);
      GoodAppend([e], Letters(es, tok, at + 1, next).events);
    } else {
      OwnLastLetter(es, all, tok, at, next);
    }
  }

  /** A cluster of foreign letters is one error, and nothing is taken. */
  lemma ForeignCluster(es: seq<LongOpt>, all: seq<LongOpt>, tok: string, next: Option<string>)
    requires Part(es, all) && |tok| > 1
    requires NoneOwned(Letters(all, tok, 1, next).events, es)
    ensures var r := Letters(es, tok, 1, next);
            Good(r.events) == [] && !r.takes && r.cursor == 0
  {
    var a := Letters(all, tok, 1, next);
    assert PartLetter(es, all, tok[1]);
    assert a.events[0] in a.events;
  }

  // ---------------------------------------------------------------- the whole line

  /** The part's events on the whole line, and its exposure to a stale cursor. */
  ghost predicate Agrees(es: seq<LongOpt>, all: seq<LongOpt>, toks: seq<string>) {
    && Good(Grammar(es, toks).events) == Restrict(Grammar(all, toks).events, es)
    && (OpensCluster(es, toks) <==> OpensCluster(all, toks))
    && (OpensAfterBreak(es, toks) ==> OpensAfterBreak(all, toks))
  }

  /** As Separate, seen from one of the two tables. */
  ghost predicate Fits(es: seq<LongOpt>, all: seq<LongOpt>, toks: seq<string>)
    decreases |toks|
  {
    if toks == [] || IsDashDash(toks[0]) then true
    else if IsOperand(toks[0]) then Fits(es, all, toks[1..])
    else
      var n := Width(all, toks);
      && (n == 2 ==> IsOperand(toks[1]))
      && (IsShortOpt(toks[0]) ==>
            var events := Opened(all, toks).events;
            AllOwned(events, es) || NoneOwned(events, es))
      && Fits(es, all, toks[n..])
  }

  /** Stepping over an operand changes no event. */
  lemma StepOver(es: seq<LongOpt>, toks: seq<string>)
    requires |toks| >= 2 && IsOperand(toks[1])
    ensures Grammar(es, toks[1..]).events == Grammar(es, toks[2..]).events
    ensures OpensCluster(es, toks[1..]) == OpensCluster(es, toks[2..])
    ensures OpensAfterBreak(es, toks[1..]) == OpensAfterBreak(es, toks[2..])
  {
    assert toks[1..][1..] == toks[2..];
  }

  lemma {:induction false} BreakOpens(es: seq<LongOpt>, toks: seq<string>)
    ensures OpensAfterBreak(es, toks) ==> OpensCluster(es, toks)
    decreases |toks|
  {
    if toks == [] || IsDashDash(toks[0]) {
    } else if IsOperand(toks[0]) {
      BreakOpens(es, toks[1..]);
    } else {
      BreakOpens(es, toks[Width(es, toks)..]);
    }
  }

  lemma {:induction false} LongAgrees(es: seq<LongOpt>, all: seq<LongOpt>, toks: seq<string>)
    requires Part(es, all) && toks != [] && IsLongOpt(toks[0])
    requires Width(all, toks) == 2 ==> IsOperand(toks[1])
    requires Agrees(es, all, toks[Width(all, toks)..])
    ensures Agrees(es, all, toks)
  {
    var option, rest := toks[0][2..], toks[Width(all, toks)..];
    assert PartName(es, all, option);
    var s, a := LongStep(es, toks, 0), LongStep(all, toks, 0);
    var e, f := StepEvent(s, toks[0]), StepEvent(a, toks[0]);
    assert Good([e]) == Restrict([f], es);
    GoodAppend([e], Grammar(es, toks[s.used..]).events);
    RestrictAppend([f], Grammar(all, rest).events, es);
    if s.used != a.used {
      StepOver(es, toks);
    }
  }

  lemma {:induction false} ShortAgrees(es: seq<LongOpt>, all: seq<LongOpt>, toks: seq<string>)
    requires Part(es, all) && toks != [] && IsShortOpt(toks[0])
    requires Width(all, toks) == 2 ==> IsOperand(toks[1])
    requires var events := Opened(all, toks).events; AllOwned(events, es) || NoneOwned(events, es)
    requires Agrees(es, all, toks[Width(all, toks)..])
    ensures Agrees(es, all, toks)
  {
    var r, a := Opened(es, toks), Opened(all, toks);
    var n, m := Width(es, toks), Width(all, toks);
    if AllOwned(a.events, es) {
      OwnCluster(es, all, toks[0], 1, Second(toks));
      RestrictOwned(a.events, es);
    } else {
      ForeignCluster(es, all, toks[0], Second(toks));
      RestrictForeign(a.events, es);
      if m == 2 {
        StepOver(es, toks);
      }
    }
    assert Grammar(es, toks[n..]).events == Grammar(es, toks[m..]).events;
    ShortEvents(es, all, toks);
    BreakOpens(es, toks[m..]);
    if r.cursor > 0 && Second(toks) == None {
      assert toks[n..] == [];
    }
  }

  lemma ShortEvents(es: seq<LongOpt>, all: seq<LongOpt>, toks: seq<string>)
    requires toks != [] && IsShortOpt(toks[0])
    requires Good(Opened(es, toks).events) == Restrict(Opened(all, toks).events, es)
    requires Good(Grammar(es, toks[Width(es, toks)..]).events)
          == Restrict(Grammar(all, toks[Width(all, toks)..]).events, es)
    ensures Good(Grammar(es, toks).events) == Restrict(Grammar(all, toks).events, es)
  {
    GoodAppend(Opened(es, toks).events, Grammar(es, toks[Width(es, toks)..]).events);
    RestrictAppend(Opened(all, toks).events, Grammar(all, toks[Width(all, toks)..]).events, es);
  }

  lemma {:induction false} LineAgrees(es: seq<LongOpt>, all: seq<LongOpt>, toks: seq<string>)
    requires Part(es, all) && Fits(es, all, toks)
    ensures Agrees(es, all, toks)
    decreases |toks|
  {
    if toks == [] || IsDashDash(toks[0]) {
    } else if IsOperand(toks[0]) {
      LineAgrees(es, all, toks[1..]);
    } else {
      LineAgrees(es, all, toks[Width(all, toks)..]);
      if IsLongOpt(toks[0]) {
        LongAgrees(es, all, toks);
      } else {
        ShortAgrees(es, all, toks);
      }
    }
  }

  /** Foreign options may take an operand that the part steps over; otherwise both see options of
      the same width. */
  lemma WidthFits(es: seq<LongOpt>, all: seq<LongOpt>, toks: seq<string>)
    requires Part(es, all) && toks != [] && !IsOperand(toks[0]) && !IsDashDash(toks[0])
    requires IsShortOpt(toks[0]) ==> var events := Opened(all, toks).events; AllOwned(events, es) || NoneOwned(events, es)
    ensures Width(es, toks) == Width(all, toks) || (Width(es, toks) == 1 && Width(all, toks) == 2)
  {
    if IsLongOpt(toks[0]) {
      assert PartName(es, all, toks[0][2..]);
    } else if AllOwned(Opened(all, toks).events, es) {
      OwnCluster(es, all, toks[0], 1, Second(toks));
    } else {
      ForeignCluster(es, all, toks[0], Second(toks));
    }
  }

  /** The part stops at the same "--" as the whole, and leaves the same rest. */
  lemma {:induction false} RestAgrees(es: seq<LongOpt>, all: seq<LongOpt>, toks: seq<string>)
    requires Part(es, all) && Fits(es, all, toks)
    ensures Grammar(es, toks).stop == Grammar(all, toks).stop
    ensures Grammar(es, toks).rest == Grammar(all, toks).rest
    decreases |toks|
  {
    hide Part, Opened;
    if toks == [] || IsDashDash(toks[0]) {
    } else if IsOperand(toks[0]) {
      RestAgrees(es, all, toks[1..]);
    } else {
      RestAgrees(es, all, toks[Width(all, toks)..]);
      WidthFits(es, all, toks);
      if Width(es, toks) != Width(all, toks) {
        assert toks[1..][1..] == toks[2..];
      }
    }
  }

  lemma {:induction false} SeparateFits(es1: seq<LongOpt>, es2: seq<LongOpt>, toks: seq<string>)
    requires Disjoint(es1, es2) && Separate(es1, es2, toks)
    ensures Fits(es1, es1 + es2, toks) && Fits(es2, es1 + es2, toks)
    decreases |toks|
  {
    if toks == [] || IsDashDash(toks[0]) {
    } else if IsOperand(toks[0]) {
      SeparateFits(es1, es2, toks[1..]);
    } else {
      SeparateFits(es1, es2, toks[Width(es1 + es2, toks)..]);
      if IsShortOpt(toks[0]) {
        var events := Opened(es1 + es2, toks).events;
        assert AllOwned(events, es1) ==> NoneOwned(events, es2);
        assert AllOwned(events, es2) ==> NoneOwned(events, es1);
      }
    }
  }

  /** If the tables share no name, no option takes an option token as its argument, no cluster
      mixes the tables, and no cluster is opened after a broken one, then each parser's options
      are exactly its share of the joined parse, with the same arguments and in the same order, and
      all three stop at the same "--". */
  lemma TwoPasses(es1: seq<LongOpt>, es2: seq<LongOpt>, toks: seq<string>)
    requires Lettered(es1) && Lettered(es2) && Disjoint(es1, es2)
    requires Separate(es1, es2, toks) && !OpensAfterBreak(es1 + es2, toks)
    ensures var all, a, b := Run(es1 + es2, toks, 0), Run(es1, toks, 0), Run(es2, toks, 0);
            && all != Wild && a != Wild && b != Wild
            && Good(a.events) == Restrict(all.events, es1)
            && Good(b.events) == Restrict(all.events, es2)
            && a.stop == all.stop == b.stop && a.rest == all.rest == b.rest
  {
    PartsOfJoin(es1, es2);
    SeparateFits(es1, es2, toks);
    LineAgrees(es1, es1 + es2, toks);
    LineAgrees(es2, es1 + es2, toks);
    RestAgrees(es1, es1 + es2, toks);
    RestAgrees(es2, es1 + es2, toks);
    NoColons(es1);
    NoColons(es2);
    CursorIsHarmless(es1 + es2, toks);
    CursorIsHarmless(es1, toks);
    CursorIsHarmless(es2, toks);
  }

  lemma NoColons(es: seq<LongOpt>)
    requires Lettered(es)
    ensures NoColonLetter(es)
  {
    forall i | 0 <= i < |es|
      ensures es[i].shortname != ':' as int
    {
      assert es[i] in es;
    }
  }
}
