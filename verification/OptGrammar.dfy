/**
 The option grammar without the hidden cursor: XBD section 12.2 of POSIX.1-2017 with operands
 allowed anywhere, plus long options.  A cluster is decoded as a whole, letter by letter from its
 first letter; an unknown letter drops the rest of its cluster.

 The parser of lib/optparse.h follows this grammar except in one case: an unknown letter after
 the first letter of a cluster leaves the cursor set, so the next cluster is opened in its middle
 (or past its end).  CursorIsHarmless says exactly when that happens.
 */
module OptGrammar {
  import opened Wrappers
  import opened OptTable
  import opened OptSpec

  /** One decoded cluster: its events, whether it took the next token as an argument, and the
      cursor left behind when an unknown letter broke it off. */
  datatype Cluster = Cluster(events: seq<Event>, takes: bool, cursor: nat)

  function TypeOf(es: seq<LongOpt>, c: char): int {
    if c == ':' then -1 else Lookup(es, c)
  }

  /** The letters of the cluster from index `at` on. */
  function Letters(es: seq<LongOpt>, tok: string, at: nat, next: Option<string>): (r: Cluster)
    requires 1 <= at < |tok|
    ensures r.takes ==> next.Some? && r.cursor == 0
    ensures r.events != [] && r.events[0].letter == at && r.events[0].token == tok
    decreases |tok| - at
  {
    var c, last := tok[at], at + 1 == |tok|;
    match TypeOf(es, c)
    case -1 =>
      Cluster([Event(BAD, None, tok, at)], false, at - 1)
    case 0 =>
      var e := Event(c as int, None, tok, at);
      if last then Cluster([e], false, 0)
      else
        var r := Letters(es, tok, at + 1, next);
        r.(events := [e] + r.events)
    case 1 =>
      if !last then Cluster([Event(c as int, Some(tok[at + 1..]), tok, at)], false, 0)
      else if next.Some? then Cluster([Event(c as int, next, tok, at)], true, 0)
      else Cluster([Event(BAD, None, tok, at)], false, 0)
    case _ =>
      Cluster([Event(c as int, if last then None else Some(tok[at + 1..]), tok, at)], false, 0)
  }

  function Second(toks: seq<string>): Option<string> {
    if |toks| > 1 then Some(toks[1]) else None
  }

  function Opened(es: seq<LongOpt>, toks: seq<string>): Cluster
    requires toks != [] && IsShortOpt(toks[0])
  {
    Letters(es, toks[0], 1, Second(toks))
  }

  /** Tokens that the option in front takes. */
  function Width(es: seq<LongOpt>, toks: seq<string>): (n: nat)
    requires toks != [] && !IsOperand(toks[0]) && !IsDashDash(toks[0])
    ensures 1 <= n <= 2 && n <= |toks|
  {
    if IsLongOpt(toks[0]) then LongStep(es, toks, 0).used
    else if Opened(es, toks).takes then 2 else 1
  }

  function Grammar(es: seq<LongOpt>, toks: seq<string>): (o: Outcome)
    ensures o != Wild
    decreases |toks|
  {
    if toks == [] then
      Parsed([], [], [], [], [])
    else if IsDashDash(toks[0]) then
      Parsed([], [], [toks[0]], [], toks[1..])
    else if IsOperand(toks[0]) then
      AddOperand(toks[0], Grammar(es, toks[1..]))
    else
      var n := Width(es, toks);
      var events := if IsLongOpt(toks[0]) then [StepEvent(LongStep(es, toks, 0), toks[0])] else Opened(es, toks).events;
      AddEvents(events, toks[..n], Grammar(es, toks[n..]))
  }

  /** Some cluster is opened while parsing toks. */
  predicate OpensCluster(es: seq<LongOpt>, toks: seq<string>)
    decreases |toks|
  {
    if toks == [] || IsDashDash(toks[0]) then false
    else if IsOperand(toks[0]) then OpensCluster(es, toks[1..])
    else IsShortOpt(toks[0]) || OpensCluster(es, toks[Width(es, toks)..])
  }

  /** A cluster is opened after one that an unknown letter broke behind its first letter. */
  predicate OpensAfterBreak(es: seq<LongOpt>, toks: seq<string>)
    decreases |toks|
  {
    if toks == [] || IsDashDash(toks[0]) then false
    else if IsOperand(toks[0]) then OpensAfterBreak(es, toks[1..])
    else
      var rest := toks[Width(es, toks)..];
      if IsShortOpt(toks[0]) && Opened(es, toks).cursor > 0 then OpensCluster(es, rest)
      else OpensAfterBreak(es, rest)
  }

  // ---------------------------------------------------------------- the parser and the grammar

  predicate MoreLetters(es: seq<LongOpt>, tok: string, at: nat)
    requires at < |tok|
  {
    TypeOf(es, tok[at]) == 0 && at + 1 < |tok|
  }

  /** One call reads one letter. */
  lemma StepIsLetter(es: seq<LongOpt>, toks: seq<string>, at: nat)
    requires NoColonLetter(es)
    requires toks != [] && IsShortOpt(toks[0]) && 1 <= at < |toks[0]|
    ensures var s, r := ShortStep(Encode(es), toks, at - 1), Letters(es, toks[0], at, Second(toks));
            && s.ret != WILD
            && if MoreLetters(es, toks[0], at) then
                 var q := Letters(es, toks[0], at + 1, Second(toks));
                 s.used == 0 && s.subopt == at && r == q.(events := [StepEvent(s, toks[0])] + q.events)
               else
                 s.used == (if r.takes then 2 else 1) && s.subopt == r.cursor && r.events == [StepEvent(s, toks[0])]
  {
    EncodingRefinesTable(es, toks[0][at]);
  }

  /** The parser decodes the rest of a cluster one call at a time. */
  lemma {:induction false} RunCluster(es: seq<LongOpt>, toks: seq<string>, at: nat)
    requires NoColonLetter(es)
    requires toks != [] && IsShortOpt(toks[0]) && 1 <= at < |toks[0]|
    ensures var r := Letters(es, toks[0], at, Second(toks));
            var n := if r.takes then 2 else 1;
            Run(es, toks, at - 1) == AddEvents(r.events, toks[..n], Run(es, toks[n..], r.cursor))
    decreases |toks[0]| - at
  {
    hide ShortStep, Letters;
    StepIsLetter(es, toks, at);
    if MoreLetters(es, toks[0], at) {
      RunCluster(es, toks, at + 1);
      var s, q := ShortStep(Encode(es), toks, at - 1), Letters(es, toks[0], at + 1, Second(toks));
      var n := if q.takes then 2 else 1;
      assert toks[0..] == toks;
      AddEventsTwice([StepEvent(s, toks[0])], toks[..0], q.events, toks[..n], Run(es, toks[n..], q.cursor));
      assert toks[..0] + toks[..n] == toks[..n];
    }
  }

  /** Whatever the cursor holds, it only matters when a cluster is opened. */
  lemma {:induction false} CursorUnused(es: seq<LongOpt>, toks: seq<string>, subopt: nat)
    requires !OpensCluster(es, toks)
    ensures Run(es, toks, subopt) == Grammar(es, toks)
    decreases |toks|
  {
    if toks == [] || IsDashDash(toks[0]) {
    } else if IsOperand(toks[0]) {
      CursorUnused(es, toks[1..], subopt);
    } else {
      CursorUnused(es, toks[Width(es, toks)..], subopt);
    }
  }

  lemma AddEventsInjective(events: seq<Event>, ts: seq<string>, a: Outcome, b: Outcome)
    requires AddEvents(events, ts, a) == AddEvents(events, ts, b)
    ensures a == b
  {
    if a != Wild && b != Wild {
      assert a.events == (events + a.events)[|events|..] == (events + b.events)[|events|..] == b.events;
      assert a.options == (ts + a.options)[|ts|..] == (ts + b.options)[|ts|..] == b.options;
    }
  }

  lemma AddOperandInjective(t: string, a: Outcome, b: Outcome)
    requires AddOperand(t, a) == AddOperand(t, b)
    ensures a == b
  {
    if a != Wild && b != Wild {
      assert a.operands == ([t] + a.operands)[1..] == ([t] + b.operands)[1..] == b.operands;
    }
  }

  /** A cluster opened with the cursor set is not read from its first letter. */
  lemma {:induction false} CursorStale(es: seq<LongOpt>, toks: seq<string>, subopt: nat)
    requires OpensCluster(es, toks) && subopt > 0
    ensures Run(es, toks, subopt) != Grammar(es, toks)
    decreases |toks|
  {
    var a, b := Run(es, toks, subopt), Grammar(es, toks);
    if IsOperand(toks[0]) {
      CursorStale(es, toks[1..], subopt);
      if a == b {
        AddOperandInjective(toks[0], Run(es, toks[1..], subopt), Grammar(es, toks[1..]));
      }
    } else if IsShortOpt(toks[0]) {
      if a != Wild {
        assert a.events[0].letter == subopt + 1;
        assert b.events[0].letter == 1;
      }
    } else {
      var n := Width(es, toks);
      CursorStale(es, toks[n..], subopt);
      if a == b {
        AddEventsInjective([StepEvent(LongStep(es, toks, 0), toks[0])], toks[..n],
                           Run(es, toks[n..], subopt), Grammar(es, toks[n..]));
      }
    }
  }

  /** The parser follows the grammar, reading every cluster from its first letter, if and only if
      no cluster is opened after one that broke behind its first letter. */
  lemma {:induction false} CursorIsHarmless(es: seq<LongOpt>, toks: seq<string>)
    requires NoColonLetter(es)
    ensures Run(es, toks, 0) == Grammar(es, toks) <==> !OpensAfterBreak(es, toks)
    decreases |toks|
  {
    if toks == [] || IsDashDash(toks[0]) {
    } else if IsOperand(toks[0]) {
      CursorIsHarmless(es, toks[1..]);
      if Run(es, toks, 0) == Grammar(es, toks) {
        AddOperandInjective(toks[0], Run(es, toks[1..], 0), Grammar(es, toks[1..]));
      }
    } else if IsLongOpt(toks[0]) {
      var n := Width(es, toks);
      CursorIsHarmless(es, toks[n..]);
      if Run(es, toks, 0) == Grammar(es, toks) {
        AddEventsInjective([StepEvent(LongStep(es, toks, 0), toks[0])], toks[..n],
                           Run(es, toks[n..], 0), Grammar(es, toks[n..]));
      }
    } else {
      var n, r := Width(es, toks), Opened(es, toks);
      RunCluster(es, toks, 1);
      var a, b := Run(es, toks[n..], r.cursor), Grammar(es, toks[n..]);
      if r.cursor == 0 {
        CursorIsHarmless(es, toks[n..]);
      } else if OpensCluster(es, toks[n..]) {
        CursorStale(es, toks[n..], r.cursor);
      } else {
        CursorUnused(es, toks[n..], r.cursor);
      }
      if Run(es, toks, 0) == Grammar(es, toks) {
        AddEventsInjective(r.events, toks[..n], a, b);
      }
    }
  }
}
