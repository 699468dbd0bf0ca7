/**
 What the permuting parser of lib/optparse.h computes, on token sequences.

 Step functions describe one option token; Call describes one optparse_long call; Run is the
 one-pass parse of a whole command line.  All of them carry the hidden cursor (subopt) exactly
 as the C code does, including when it is stale.
 */
module OptSpec {
  import opened CStrings
  import opened Wrappers
  import opened OptTable

  const DONE := -1
  const BAD := '?' as int
  /** The C code reads past the terminator of the token: undefined behaviour. */
  const WILD := -2

  // ---------------------------------------------------------------- tokens

  predicate IsDashDash(arg: string) {
    arg == "--"
  }

  predicate IsShortOpt(arg: string) {
    |arg| >= 2 && arg[0] == '-' && arg[1] != '-'
  }

  predicate IsLongOpt(arg: string) {
    |arg| >= 3 && arg[0] == '-' && arg[1] == '-'
  }

  /** Skipped by optparse_long. */
  predicate IsOperand(arg: string) {
    !IsDashDash(arg) && !IsShortOpt(arg) && !IsLongOpt(arg)
  }

  /** Skipped by optparse, which knows no long options. */
  predicate IsSkipped(arg: string, long: bool) {
    if long then IsOperand(arg) else !IsDashDash(arg) && !IsShortOpt(arg)
  }

  /** Number of leading tokens that a call steps over. */
  function Skip(toks: seq<string>, long: bool): (k: nat)
    ensures k <= |toks|
    ensures forall i :: 0 <= i < k ==> IsSkipped(toks[i], long)
    ensures k < |toks| ==> !IsSkipped(toks[k], long)
  {
    if toks == [] || !IsSkipped(toks[0], long) then 0 else 1 + Skip(toks[1..], long)
  }

  // ---------------------------------------------------------------- one option

  /** The effect of one call on the tokens from the option on: `used` tokens are consumed and
      the next call starts with cursor `subopt`; `letter` is where in the token it read. */
  datatype Step = Step(ret: int, optarg: Option<string>, optopt: int, used: nat, subopt: nat, letter: nat)

  /** optparse on a short option token. */
  function ShortStep(optstring: string, toks: seq<string>, subopt: nat): (s: Step)
    requires toks != [] && IsShortOpt(toks[0])
    ensures s.used <= |toks| && s.ret != DONE
    ensures s.used == 0 ==> s.ret == WILD || subopt < s.subopt < |toks[0]|
  {
    var option, at := toks[0], subopt + 1;
    if at > |option| then
      Step(WILD, None, 0, 0, subopt, at)
    else
      var c := At(option, at);
      var attached := at + 1 < |option|;
      match Decode(optstring, c)
      case -1 => Step(BAD, None, c as int, 1, subopt, at)
      case 0 =>
        if attached then Step(c as int, None, c as int, 0, subopt + 1, at)
        else Step(c as int, None, c as int, 1, 0, at)
      case 1 =>
        if attached then Step(c as int, Some(option[at + 1..]), c as int, 1, 0, at)
        else if |toks| > 1 then Step(c as int, Some(toks[1]), c as int, 2, 0, at)
        else Step(BAD, None, c as int, 1, 0, at)
      case _ =>
        Step(c as int, if attached then Some(option[at + 1..]) else None, c as int, 1, 0, at)
  }

  /** optparse_long on a long option token: the cursor is left alone. */
  function LongStep(es: seq<LongOpt>, toks: seq<string>, subopt: nat): (s: Step)
    requires toks != [] && IsLongOpt(toks[0])
    ensures 1 <= s.used <= |toks| && s.ret != WILD && s.ret != DONE
  {
    var option := toks[0][2..];
    match FindLong(es, option)
    case None => Step(BAD, None, 0, 1, subopt, 0)
    case Some(e) =>
      var arg := ValuePart(option);
      if e.argtype == NoArg && arg != None then Step(BAD, None, e.shortname, 1, subopt, 0)
      else if arg != None then Step(e.shortname, arg, e.shortname, 1, subopt, 0)
      else if e.argtype != Required then Step(e.shortname, None, e.shortname, 1, subopt, 0)
      else if |toks| > 1 then Step(e.shortname, Some(toks[1]), e.shortname, 2, subopt, 0)
      else Step(BAD, None, e.shortname, 1, subopt, 0)
  }

  function OptionStep(es: seq<LongOpt>, toks: seq<string>, subopt: nat): (s: Step)
    requires toks != [] && !IsOperand(toks[0]) && !IsDashDash(toks[0])
    ensures s.used <= |toks| && s.ret != DONE
    ensures s.used == 0 ==> s.ret == WILD || subopt < s.subopt < |toks[0]|
  {
    if IsLongOpt(toks[0]) then LongStep(es, toks, subopt) else ShortStep(Encode(es), toks, subopt)
  }

  // ---------------------------------------------------------------- one call

  /** A call of optparse: stop at the end or at "--" (consumed), else decode the option. */
  function ShortCall(optstring: string, toks: seq<string>, subopt: nat): (s: Step)
    ensures s.used <= |toks| - Skip(toks, false)
  {
    var t := toks[Skip(toks, false)..];
    if t == [] then Step(DONE, None, 0, 0, subopt, 0)
    else if IsDashDash(t[0]) then Step(DONE, None, 0, 1, subopt, 0)
    else ShortStep(optstring, t, subopt)
  }

  /** A call of optparse_long. */
  function LongCall(es: seq<LongOpt>, toks: seq<string>, subopt: nat): (s: Step)
    ensures s.used <= |toks| - Skip(toks, true)
  {
    var t := toks[Skip(toks, true)..];
    if t == [] then Step(DONE, None, 0, 0, subopt, 0)
    else if IsDashDash(t[0]) then Step(DONE, None, 0, 1, subopt, 0)
    else OptionStep(es, t, subopt)
  }

  lemma CallIsStep(es: seq<LongOpt>, toks: seq<string>, subopt: nat)
    requires LongCall(es, toks, subopt).ret != DONE
    ensures var k := Skip(toks, true);
            && k < |toks|
            && toks[k..][0] == toks[k] && !IsOperand(toks[k]) && !IsDashDash(toks[k])
            && LongCall(es, toks, subopt) == OptionStep(es, toks[k..], subopt)
  {
    hide OptionStep;
    var k := Skip(toks, true);
    assert k < |toks| ==> toks[k..][0] == toks[k];
  }

  /** An operand in front does not change what a call does with the rest. */
  lemma OneOperandShort(optstring: string, toks: seq<string>, subopt: nat)
    requires toks != [] && IsSkipped(toks[0], false)
    ensures Skip(toks, false) == 1 + Skip(toks[1..], false)
    ensures ShortCall(optstring, toks, subopt) == ShortCall(optstring, toks[1..], subopt)
  {
    assert toks[Skip(toks, false)..] == toks[1..][Skip(toks[1..], false)..];
  }

  lemma OneOperandLong(es: seq<LongOpt>, toks: seq<string>, subopt: nat)
    requires toks != [] && IsSkipped(toks[0], true)
    ensures Skip(toks, true) == 1 + Skip(toks[1..], true)
    ensures LongCall(es, toks, subopt) == LongCall(es, toks[1..], subopt)
  {
    assert toks[Skip(toks, true)..] == toks[1..][Skip(toks[1..], true)..];
  }

  /** Where the token that ends up at index i comes from when the m tokens at p+k move in front
      of the k tokens at p. */
  function Origin(p: nat, k: nat, m: nat, i: nat): nat {
    if p <= i < p + m then i + k
    else if p + m <= i < p + m + k then i - m
    else i
  }

  /** Move the m tokens at p+k in front of the k tokens at p. */
  function Rotate<T>(a: seq<T>, p: nat, k: nat, m: nat): (b: seq<T>)
    requires p + k + m <= |a|
    ensures |b| == |a|
  {
    seq(|a|, i requires 0 <= i < |a| => a[Origin(p, k, m, i)])
  }

  lemma RotateSlices<T>(a: seq<T>, p: nat, k: nat, m: nat)
    requires p + k + m <= |a|
    ensures Rotate(a, p, k, m) == a[..p] + a[p + k..p + k + m] + a[p..p + k] + a[p + k + m..]
  {
  }

  // ---------------------------------------------------------------- a whole run

  /** What a client sees of one call that did not end the parse, and where it was read. */
  datatype Event = Event(ret: int, optarg: Option<string>, token: string, letter: nat)

  /** options: option tokens with their arguments; stop: ["--"] if met, else []; operands: the
      tokens stepped over; rest: everything after "--". */
  datatype Outcome =
    | Wild
    | Parsed(events: seq<Event>, options: seq<string>, stop: seq<string>,
             operands: seq<string>, rest: seq<string>)

  function AddOperand(t: string, o: Outcome): Outcome {
    if o == Wild then Wild else o.(operands := [t] + o.operands)
  }

  function AddOperands(ts: seq<string>, o: Outcome): Outcome {
    if o == Wild then Wild else o.(operands := ts + o.operands)
  }

  function AddEvents(es: seq<Event>, ts: seq<string>, o: Outcome): Outcome {
    if o == Wild then Wild else o.(events := es + o.events, options := ts + o.options)
  }

  lemma AddEventsTwice(a: seq<Event>, ts: seq<string>, b: seq<Event>, us: seq<string>, o: Outcome)
    ensures AddEvents(a, ts, AddEvents(b, us, o)) == AddEvents(a + b, ts + us, o)
  {
    if o != Wild {
      assert a + (b + o.events) == a + b + o.events;
      assert ts + (us + o.options) == ts + us + o.options;
    }
  }

  function StepEvent(s: Step, token: string): Event {
    Event(s.ret, s.optarg, token, s.letter)
  }

  /** Letters left in the first token. */
  function Remaining(toks: seq<string>, subopt: nat): nat {
    if toks == [] || subopt > |toks[0]| then 0 else |toks[0]| - subopt
  }

  /** One pass over the tokens. */
  function Run(es: seq<LongOpt>, toks: seq<string>, subopt: nat): Outcome
    decreases |toks|, Remaining(toks, subopt)
  {
    if toks == [] then
      Parsed([], [], [], [], [])
    else if IsDashDash(toks[0]) then
      Parsed([], [], [toks[0]], [], toks[1..])
    else if IsOperand(toks[0]) then
      AddOperand(toks[0], Run(es, toks[1..], subopt))
    else
      var s := OptionStep(es, toks, subopt);
      if s.ret == WILD then Wild
      else AddEvents([StepEvent(s, toks[0])], toks[..s.used], Run(es, toks[s.used..], s.subopt))
  }

  /** Operands in front of the rest of the line do not influence how it is parsed. */
  lemma {:induction false} RunSkips(es: seq<LongOpt>, ops: seq<string>, toks: seq<string>, subopt: nat)
    requires forall i :: 0 <= i < |ops| ==> IsOperand(ops[i])
    ensures Run(es, ops + toks, subopt) == AddOperands(ops, Run(es, toks, subopt))
  {
    hide OptionStep;
    if ops == [] {
      assert ops + toks == toks;
    } else {
      assert (ops + toks)[1..] == ops[1..] + toks;
      RunSkips(es, ops[1..], toks, subopt);
      assert ops == [ops[0]] + ops[1..];
    }
  }

  /** The tokens left in front of the parser by a call that returned an option: the operands it
      stepped over, then what follows the tokens it consumed. */
  function After(es: seq<LongOpt>, toks: seq<string>, subopt: nat): seq<string> {
    var k, s := Skip(toks, true), LongCall(es, toks, subopt);
    toks[..k] + toks[k + s.used..]
  }

  lemma {:induction false} RunSkipsAll(es: seq<LongOpt>, toks: seq<string>, subopt: nat)
    ensures var k := Skip(toks, true);
            Run(es, toks, subopt) == AddOperands(toks[..k], Run(es, toks[k..], subopt))
  {
    hide OptionStep;
    var k := Skip(toks, true);
    assert toks == toks[..k] + toks[k..];
    RunSkips(es, toks[..k], toks[k..], subopt);
  }

  /** The call that ends the parse leaves the operands where they are, behind "--" if it met it. */
  lemma {:induction false} RunEnds(es: seq<LongOpt>, toks: seq<string>, subopt: nat)
    requires LongCall(es, toks, subopt).ret == DONE
    ensures var k, s := Skip(toks, true), LongCall(es, toks, subopt);
            Run(es, toks, subopt) == Parsed([], [], toks[k..k + s.used], toks[..k], toks[k + s.used..])
  {
    hide OptionStep;
    var k := Skip(toks, true);
    RunSkipsAll(es, toks, subopt);
    assert toks[..k] + [] == toks[..k];
    if k < |toks| {
      assert toks[k..k + 1] == [toks[k]];
      assert toks[k..][1..] == toks[k + 1..];
    }
  }

  lemma {:induction false} RunStrays(es: seq<LongOpt>, toks: seq<string>, subopt: nat)
    requires LongCall(es, toks, subopt).ret == WILD
    ensures Run(es, toks, subopt) == Wild
  {
    RunSkipsAll(es, toks, subopt);
  }

  /** One call peels one event off the run of the remaining tokens, wherever the operands are. */
  lemma {:induction false} RunPeels(es: seq<LongOpt>, toks: seq<string>, subopt: nat)
    requires LongCall(es, toks, subopt).ret != DONE && LongCall(es, toks, subopt).ret != WILD
    ensures var k, s := Skip(toks, true), LongCall(es, toks, subopt);
            Run(es, toks, subopt)
              == AddEvents([StepEvent(s, toks[k])], toks[k..k + s.used], Run(es, After(es, toks, subopt), s.subopt))
  {
    hide OptionStep;
    var k, s := Skip(toks, true), LongCall(es, toks, subopt);
    RunSkipsAll(es, toks, subopt);
    assert toks[k..][s.used..] == toks[k + s.used..];
    assert toks[k..][..s.used] == toks[k..k + s.used];
    RunSkips(es, toks[..k], toks[k + s.used..], s.subopt);
  }

  /** Both option loops terminate: a call that does not end the parse consumes a token, or moves
      the cursor forward in the same cluster. */
  lemma CallDecreases(es: seq<LongOpt>, toks: seq<string>, subopt: nat)
    requires var s := LongCall(es, toks, subopt); s.ret != DONE && s.ret != WILD
    ensures var s, after := LongCall(es, toks, subopt), After(es, toks, subopt);
            || |after| < |toks|
            || (after == toks
                && Remaining(after[Skip(after, true)..], s.subopt) < Remaining(toks[Skip(toks, true)..], subopt))
  {
    var k, s := Skip(toks, true), LongCall(es, toks, subopt);
    if s.used == 0 {
      assert toks[..k] + toks[k..] == toks;
    }
  }

  /** t is a merge of a and b: both in order, nothing else. */
  ghost predicate Interleaves(a: seq<string>, b: seq<string>, t: seq<string>)
    decreases |t|
  {
    if t == [] then a == [] && b == []
    else
      || (a != [] && a[0] == t[0] && Interleaves(a[1..], b, t[1..]))
      || (b != [] && b[0] == t[0] && Interleaves(a, b[1..], t[1..]))
  }

  lemma InterleavesLeft(x: string, a: seq<string>, b: seq<string>, t: seq<string>)
    requires Interleaves(a, b, t)
    ensures Interleaves([x] + a, b, [x] + t)
  {
    assert ([x] + a)[1..] == a && ([x] + t)[1..] == t;
  }

  lemma InterleavesRight(x: string, a: seq<string>, b: seq<string>, t: seq<string>)
    requires Interleaves(a, b, t)
    ensures Interleaves(a, [x] + b, [x] + t)
  {
    assert ([x] + b)[1..] == b && ([x] + t)[1..] == t;
  }

  /** Up to the stop mark the line is a merge of the options (with their arguments) and the
      operands, both in their original order; the mark and the rest follow unchanged. */
  ghost predicate Conserves(o: Outcome, toks: seq<string>) {
    o != Wild ==>
      var n := |o.options| + |o.operands|;
      && n <= |toks|
      && Interleaves(o.options, o.operands, toks[..n])
      && toks[n..] == o.stop + o.rest
      && (o.stop == [] ==> o.rest == [])
      && (o.stop != [] ==> o.stop == ["--"])
      && (forall i :: 0 <= i < |o.operands| ==> IsOperand(o.operands[i]))
  }

  lemma ConservesOperand(t: string, o: Outcome, toks: seq<string>)
    requires Conserves(o, toks) && IsOperand(t)
    ensures Conserves(AddOperand(t, o), [t] + toks)
  {
    if o != Wild {
      var n := |o.options| + |o.operands|;
      InterleavesRight(t, o.options, o.operands, toks[..n]);
      assert ([t] + toks)[..n + 1] == [t] + toks[..n];
      assert ([t] + toks)[n + 1..] == toks[n..];
    }
  }

  lemma ConservesOption(es: seq<Event>, ts: seq<string>, o: Outcome, toks: seq<string>)
    requires Conserves(o, toks)
    ensures Conserves(AddEvents(es, ts, o), ts + toks)
  {
    if o != Wild {
      var n := |o.options| + |o.operands|;
      InterleavesPrefix(ts, o.options, o.operands, toks[..n]);
      assert (ts + toks)[..|ts| + n] == ts + toks[..n];
      assert (ts + toks)[|ts| + n..] == toks[n..];
    }
  }

  lemma {:induction false} RunConserves(es: seq<LongOpt>, toks: seq<string>, subopt: nat)
    ensures Conserves(Run(es, toks, subopt), toks)
    decreases |toks|, Remaining(toks, subopt)
  {
    if toks == [] || IsDashDash(toks[0]) {
    } else if IsOperand(toks[0]) {
      RunConserves(es, toks[1..], subopt);
      ConservesOperand(toks[0], Run(es, toks[1..], subopt), toks[1..]);
      assert toks == [toks[0]] + toks[1..];
    } else {
      var s := OptionStep(es, toks, subopt);
      if s.ret != WILD {
        RunConserves(es, toks[s.used..], s.subopt);
        ConservesOption([StepEvent(s, toks[0])], toks[..s.used], Run(es, toks[s.used..], s.subopt), toks[s.used..]);
        assert toks == toks[..s.used] + toks[s.used..];
      }
    }
  }

  lemma InterleavesPrefix(x: seq<string>, a: seq<string>, b: seq<string>, t: seq<string>)
    requires Interleaves(a, b, t)
    ensures Interleaves(x + a, b, x + t)
  {
    if x == [] {
      assert x + a == a && x + t == t;
    } else {
      InterleavesPrefix(x[1..], a, b, t);
      InterleavesLeft(x[0], x[1..] + a, b, x[1..] + t);
      assert x + a == [x[0]] + (x[1..] + a) && x + t == [x[0]] + (x[1..] + t);
    }
  }
}
