/** When the permutation of a command line moves nothing behind a given place. */
module OptOrder {
  import opened OptTable
  import opened OptSpec

  /** The line after the parse, if the operands `ops` were already stepped over. */
  function Layout(o: Outcome, ops: seq<string>): seq<string>
    requires o != Wild
  {
    o.options + o.stop + ops + o.operands + o.rest
  }

  predicate AllOperands(toks: seq<string>) {
    forall i :: 0 <= i < |toks| ==> IsOperand(toks[i])
  }

  /** No operand in front of an option or of the "--" that ends the options. */
  predicate InOrder(es: seq<LongOpt>, toks: seq<string>, subopt: nat)
    decreases |toks|, Remaining(toks, subopt)
  {
    if toks == [] || IsDashDash(toks[0]) then true
    else if IsOperand(toks[0]) then AllOperands(toks[1..])
    else
      var s := OptionStep(es, toks, subopt);
      s.ret != WILD && InOrder(es, toks[s.used..], s.subopt)
  }

  lemma {:induction false} OperandsOnly(es: seq<LongOpt>, toks: seq<string>, subopt: nat)
    requires Run(es, toks, subopt) != Wild
    ensures var o := Run(es, toks, subopt);
            && (AllOperands(toks) ==> o == Parsed([], [], [], toks, []))
            && (o.options == [] && o.stop == [] ==> AllOperands(toks))
    decreases |toks|, Remaining(toks, subopt)
  {
    if toks != [] && IsOperand(toks[0]) {
      OperandsOnly(es, toks[1..], subopt);
      assert toks == [toks[0]] + toks[1..];
    } else if toks != [] && !IsDashDash(toks[0]) {
      var s := OptionStep(es, toks, subopt);
      hide OptionStep;
      if s.used == 0 {
        OperandsOnly(es, toks, s.subopt);
        assert toks[0..] == toks;
      }
    }
  }

  /** The last option starts at q and has u tokens; only operands follow. */
  ghost predicate EndsWithOption(o: Outcome, toks: seq<string>, q: nat, u: nat)
    requires o != Wild
  {
    var n := |toks| - q - u;
    && 1 <= u <= 2 && n >= 0 && !IsOperand(toks[q])
    && o.stop == [] && o.rest == [] && |toks| == |o.options| + |o.operands|
    && u <= |o.options| && o.options[|o.options| - u..] == toks[q..q + u]
    && n <= |o.operands| && o.operands[|o.operands| - n..] == toks[q + u..]
  }

  lemma EndsBehindOperand(o: Outcome, toks: seq<string>, q: nat, u: nat)
    requires o != Wild && toks != [] && EndsWithOption(o, toks[1..], q, u)
    ensures EndsWithOption(AddOperand(toks[0], o), toks, q + 1, u)
  {
    var n := |toks| - q - 1 - u;
    assert ([toks[0]] + o.operands)[1 + |o.operands| - n..] == o.operands[|o.operands| - n..];
    assert toks[1..][q..q + u] == toks[q + 1..q + 1 + u] && toks[1..][q + u..] == toks[q + 1 + u..];
  }

  lemma EndsBehindOption(o: Outcome, events: seq<Event>, toks: seq<string>, w: nat, q: nat, u: nat)
    requires o != Wild && w <= |toks| && EndsWithOption(o, toks[w..], q, u)
    ensures EndsWithOption(AddEvents(events, toks[..w], o), toks, q + w, u)
  {
    assert (toks[..w] + o.options)[w + |o.options| - u..] == o.options[|o.options| - u..];
    assert toks[w..][q..q + u] == toks[q + w..q + w + u] && toks[w..][q + u..] == toks[q + w + u..];
  }

  lemma EndsHere(events: seq<Event>, toks: seq<string>, w: nat)
    requires 1 <= w <= 2 && w <= |toks| && !IsOperand(toks[0])
    ensures EndsWithOption(AddEvents(events, toks[..w], Parsed([], [], [], toks[w..], [])), toks, 0, w)
  {
  }

  lemma RunStarts(es: seq<LongOpt>, toks: seq<string>, subopt: nat)
    requires var o := Run(es, toks, subopt); o != Wild && o.options != []
    ensures toks != [] && !IsDashDash(toks[0])
    ensures IsOperand(toks[0]) ==> Run(es, toks, subopt) == AddOperand(toks[0], Run(es, toks[1..], subopt))
    ensures !IsOperand(toks[0]) ==>
      var s := OptionStep(es, toks, subopt);
      && s.ret != WILD
      && Run(es, toks, subopt)
         == AddEvents([StepEvent(s, toks[0])], toks[..s.used], Run(es, toks[s.used..], s.subopt))
  {
    hide OptionStep;
  }

  lemma {:induction false} LastOption(es: seq<LongOpt>, toks: seq<string>, subopt: nat) returns (q: nat, u: nat)
    requires var o := Run(es, toks, subopt); o != Wild && o.options != [] && o.stop == []
    ensures EndsWithOption(Run(es, toks, subopt), toks, q, u)
    decreases |toks|, Remaining(toks, subopt)
  {
    hide EndsWithOption, AllOperands, Run;
    RunStarts(es, toks, subopt);
    if IsOperand(toks[0]) {
      q, u := LastOption(es, toks[1..], subopt);
      EndsBehindOperand(Run(es, toks[1..], subopt), toks, q, u);
      q := q + 1;
    } else {
      var s := OptionStep(es, toks, subopt);
      StepIsShort(es, toks, subopt);
      hide OptionStep;
      var o := Run(es, toks[s.used..], s.subopt);
      if o.options == [] {
        OperandsOnly(es, toks[s.used..], s.subopt);
        EndsHere([StepEvent(s, toks[0])], toks, s.used);
        q, u := 0, s.used;
      } else {
        q, u := LastOption(es, toks[s.used..], s.subopt);
        EndsBehindOption(o, [StepEvent(s, toks[0])], toks, s.used, q, u);
        q := q + s.used;
      }
    }
  }

  lemma StepIsShort(es: seq<LongOpt>, toks: seq<string>, subopt: nat)
    requires toks != [] && !IsOperand(toks[0]) && !IsDashDash(toks[0])
    ensures OptionStep(es, toks, subopt).used <= 2
  {
  }

  /** An operand in front of an option disturbs what lies behind that operand. */
  lemma {:induction false} Disturbed(es: seq<LongOpt>, toks: seq<string>, subopt: nat, ops: seq<string>)
    requires Run(es, toks, subopt) != Wild && ops != [] && AllOperands(ops) && !AllOperands(toks)
    ensures Layout(Run(es, toks, subopt), ops)[|ops|..] != toks
  {
    hide Run;
    var o := Run(es, toks, subopt);
    var l := Layout(o, ops);
    RunConserves(es, toks, subopt);
    OperandsOnly(es, toks, subopt);
    assert |l| == |ops| + |toks|;
    if o.stop != [] {
      var at := |toks| - |o.rest| - 1;
      assert toks[|o.options| + |o.operands|..] == o.stop + o.rest;
      assert toks[at] == "--";
      assert l[|ops|..][at] == (ops + o.operands)[|ops| + |o.operands| - 1];
      assert IsOperand(l[|ops|..][at]);
    } else {
      var q, u := LastOption(es, toks, subopt);
      assert l == o.options + ops + o.operands;
      LastDisturbed(o.options, ops, o.operands, toks, q, u);
    }
  }

  lemma BehindOptions(options: seq<string>, ops: seq<string>, operands: seq<string>, j: nat)
    requires AllOperands(ops) && AllOperands(operands) && |options| <= j < |options| + |ops| + |operands|
    ensures IsOperand((options + ops + operands)[j])
  {
  }

  /** With an operand in front, the last option cannot keep its place. */
  lemma LastDisturbed(options: seq<string>, ops: seq<string>, operands: seq<string>, toks: seq<string>, q: nat, u: nat)
    requires AllOperands(ops) && AllOperands(operands) && ops != [] && |toks| == |options| + |operands|
    requires 1 <= u <= 2 && |options| <= q + u <= |toks| && !IsOperand(toks[q])
    requires u <= |options| && options[|options| - u..] == toks[q..q + u]
    ensures (options + ops + operands)[|ops|..] != toks
  {
    var l := options + ops + operands;
    var m := l[|ops|..];
    BehindOptions(options, ops, operands, |ops| + q + u - 1);
    assert m[q] == l[|ops| + q] && m[q + u - 1] == l[|ops| + q + u - 1];
    if |ops| + q >= |options| {
      BehindOptions(options, ops, operands, |ops| + q);
      assert m[q] != toks[q];
    } else {
      assert |options| == q + 2 && m[q] == options[q + 1];
      assert options[q + 1] == options[|options| - u..][1] == toks[q..q + u][1] == toks[q + 1];
      assert m[q] != toks[q] || m[q + 1] != toks[q + 1];
    }
  }

  /** What lies behind the operands stepped over so far keeps its order if and only if no operand is
      in front of a later option or "--". */
  lemma {:induction false} OrderKept(es: seq<LongOpt>, toks: seq<string>, subopt: nat, ops: seq<string>)
    requires Run(es, toks, subopt) != Wild && AllOperands(ops)
    ensures Layout(Run(es, toks, subopt), ops)[|ops|..] == toks
       <==> if ops == [] then InOrder(es, toks, subopt) else AllOperands(toks)
    decreases |toks|, Remaining(toks, subopt)
  {
    hide Layout;
    if ops != [] {
      hide Run;
      OperandsOnly(es, toks, subopt);
      if AllOperands(toks) {
        NothingMoved(toks, ops);
      } else {
        Disturbed(es, toks, subopt, ops);
      }
    } else if toks == [] || IsDashDash(toks[0]) {
      StoppedAtOnce(toks);
    } else if IsOperand(toks[0]) {
      OrderKept(es, toks[1..], subopt, [toks[0]]);
      OperandsOnly(es, toks[1..], subopt);
      OperandInFront(Run(es, toks[1..], subopt), toks);
    } else {
      var s := OptionStep(es, toks, subopt);
      hide OptionStep;
      OrderKept(es, toks[s.used..], s.subopt, []);
      OptionInFront(Run(es, toks[s.used..], s.subopt), [StepEvent(s, toks[0])], toks, s.used);
    }
  }

  lemma NothingMoved(toks: seq<string>, ops: seq<string>)
    ensures Layout(Parsed([], [], [], toks, []), ops)[|ops|..] == toks
  {
    assert Layout(Parsed([], [], [], toks, []), ops) == ops + toks;
  }

  lemma StoppedAtOnce(toks: seq<string>)
    ensures toks == [] ==> Layout(Parsed([], [], [], [], []), [])[0..] == toks
    ensures toks != [] ==> Layout(Parsed([], [], [toks[0]], [], toks[1..]), [])[0..] == toks
  {
  }

  lemma OperandInFront(o: Outcome, toks: seq<string>)
    requires toks != [] && o != Wild
    requires o.options == [] && o.stop == [] ==> o == Parsed([], [], [], toks[1..], [])
    requires Layout(o, [toks[0]])[1..] == toks[1..] <==> AllOperands(toks[1..])
    requires AllOperands(toks[1..]) ==> o.options == [] && o.stop == []
    ensures Layout(AddOperand(toks[0], o), [])[0..] == toks <==> AllOperands(toks[1..])
  {
    var l := Layout(o, [toks[0]]);
    assert Layout(AddOperand(toks[0], o), []) == l;
    assert l[0..] == l;
    if AllOperands(toks[1..]) {
      assert l == [toks[0]] + toks[1..];
    }
  }

  lemma OptionInFront(o: Outcome, events: seq<Event>, toks: seq<string>, w: nat)
    requires o != Wild && w <= |toks|
    ensures Layout(AddEvents(events, toks[..w], o), [])[0..] == toks <==> Layout(o, [])[0..] == toks[w..]
  {
    var l := Layout(AddEvents(events, toks[..w], o), []);
    assert l == toks[..w] + Layout(o, []);
    assert l[w..] == Layout(o, []);
    assert toks == toks[..w] + toks[w..];
  }
}
