/**
 The parser of lib/optparse.h: a struct updated by each call, and an argv permuted in place by
 the recursion that steps over operands.  Each method is proved against the step functions of
 OptSpec; the permutation comes out as a single rotation.
 */
module Optparse {
  import opened CStrings
  import opened Wrappers
  import opened OptTable
  import opened OptSpec

  /** argc strings followed by NULL. */
  ghost predicate IsArgv(a: seq<Option<string>>) {
    && |a| > 0
    && a[|a| - 1] == None
    && forall i :: 0 <= i < |a| - 1 ==> a[i].Some?
  }

  ghost function Tokens(a: seq<Option<string>>): (toks: seq<string>)
    requires IsArgv(a)
    ensures |toks| == |a| - 1
    ensures forall i :: 0 <= i < |toks| ==> a[i] == Some(toks[i])
  {
    seq(|a| - 1, i requires 0 <= i < |a| - 1 => a[i].value)
  }

  /** struct optparse. */
  class Options {
    const argv: array<Option<string>>
    var optind: nat
    var optopt: int
    var optarg: Option<string>
    var subopt: nat

    ghost predicate Valid()
      reads this, argv
    {
      IsArgv(argv[..]) && optind < argv.Length
    }

    /** All of argv. */
    ghost function Line(): seq<string>
      reads argv
      requires IsArgv(argv[..])
    {
      Tokens(argv[..])
    }

    /** The tokens the parser has not passed yet. */
    ghost function Pending(): seq<string>
      reads this, argv
      requires Valid()
    {
      Line()[optind..]
    }

    /** optparse_init. */
    constructor (argv: array<Option<string>>)
      requires IsArgv(argv[..])
      ensures Valid() && this.argv == argv
      ensures subopt == 0 && optarg == None
      ensures optind == if argv.Length > 1 then 1 else 0
    {
      this.argv := argv;
      optind := if argv[0] != None then 1 else 0;
      optopt := 0;
      optarg := None;
      subopt := 0;
    }

    /** optparse_permute: move the operand at index behind everything up to optind. */
    method Permute(index: nat, ghost m: nat)
      requires Valid() && optind == index + 1 + m
      modifies argv
      ensures Valid()
      ensures Line() == Rotate(old(Line()), index, 1, m)
    {
      ghost var a := argv[..];
      var nonoption := argv[index];
      var i := index;
      while i < optind - 1
        invariant index <= i <= optind - 1
        invariant forall j :: index <= j < i ==> argv[j] == a[j + 1]
        invariant forall j :: 0 <= j < index || i <= j < argv.Length ==> argv[j] == a[j]
      {
        argv[i] := argv[i + 1];
        i := i + 1;
      }
      argv[optind - 1] := nonoption;
      Shifted(a, argv[..], index, m);
    }

    /** The second half of optparse: decode the letter under the cursor. */
    method DecodeShort(optstring: string) returns (ret: int)
      requires Valid() && Pending() != [] && IsShortOpt(Pending()[0])
      requires optopt == 0 && optarg == None
      modifies this`optind, this`optopt, this`optarg, this`subopt
      ensures Valid()
      ensures var s := ShortStep(optstring, old(Pending()), old(subopt));
              && ret == s.ret && optarg == s.optarg && optopt == s.optopt && subopt == s.subopt
              && optind == old(optind) + s.used
    {
      ghost var pending := Pending();
      var word := argv[optind].value;
      assert word == pending[0];
      var at := subopt + 1;
      if at > |word| {
        return WILD;
      }
      var c := At(word, at);
      optopt := c as int;
      var argtype := ArgTypeOf(optstring, c);
      var next := argv[optind + 1];
      assert next == if |pending| > 1 then Some(pending[1]) else None;
      match argtype {
        case -1 =>
          optind := optind + 1;
          ret := BAD;
        case 0 =>
          if at + 1 < |word| {
            subopt := subopt + 1;
          } else {
            subopt := 0;
            optind := optind + 1;
          }
          ret := c as int;
        case 1 =>
          subopt := 0;
          optind := optind + 1;
          ret := c as int;
          if at + 1 < |word| {
            optarg := Some(word[at + 1..]);
          } else if next != None {
            optarg := next;
            optind := optind + 1;
          } else {
            optarg := None;
            ret := BAD;
          }
        case _ =>
          subopt := 0;
          optind := optind + 1;
          optarg := if at + 1 < |word| then Some(word[at + 1..]) else None;
          ret := c as int;
      }
    }

    /** optparse.  The operands in front of the option end up behind what the call consumed. */
    method Optparse(optstring: string) returns (ret: int)
      requires Valid()
      modifies this, argv
      ensures Valid()
      ensures var k, s := Skip(old(Pending()), false), ShortCall(optstring, old(Pending()), old(subopt));
              && ret == s.ret && optarg == s.optarg && optopt == s.optopt && subopt == s.subopt
              && optind == old(optind) + s.used
              && Line() == Rotate(old(Line()), old(optind), k, s.used)
      decreases argv.Length - optind, 1
    {
      ghost var line, pending, s := Line(), Pending(), ShortCall(optstring, Pending(), subopt);
      var option := argv[optind];
      optopt := 0;
      optarg := None;
      Landing(line, optind, false);
      if option == None {
        return DONE;
      } else if IsDashDash(option.value) {
        optind := optind + 1;
        assert s.used == 1;
        return DONE;
      } else if !IsShortOpt(option.value) {
        ret := StepOver(optstring);
        return;
      }
      ret := DecodeShort(optstring);
    }

    /** The branch of optparse that steps over one operand and permutes on the way back. */
    method StepOver(optstring: string) returns (ret: int)
      requires Valid() && Pending() != [] && IsSkipped(Pending()[0], false)
      modifies this, argv
      ensures Valid()
      ensures var k, s := Skip(old(Pending()), false), ShortCall(optstring, old(Pending()), old(subopt));
              && ret == s.ret && optarg == s.optarg && optopt == s.optopt && subopt == s.subopt
              && optind == old(optind) + s.used
              && Line() == Rotate(old(Line()), old(optind), k, s.used)
      decreases argv.Length - optind, 0
    {
      hide ShortCall, Skip, Rotate;
      ghost var line, pending, s := Line(), Pending(), ShortCall(optstring, Pending(), subopt);
      var index := optind;
      optind := optind + 1;
      assert Pending() == pending[1..];
      OneOperandShort(optstring, pending, subopt);
      label Call:
      ret := Optparse(optstring);
      assert old@Call(Pending()) == pending[1..] && old@Call(subopt) == old(subopt);
      assert ret == s.ret && optind == index + 1 + s.used;
      ghost var k := Skip(pending[1..], false);
      assert Line() == Rotate(line, index + 1, k, s.used);
      Unwind(line, index, s.used, false);
      Permute(index, s.used);
      optind := optind - 1;
    }

    /** optparse_long_fallback: re-encode the table, then parse as a short option.  Nothing is
        stepped over, so nothing moves. */
    method LongFallback(longopts: seq<LongOpt>) returns (ret: int)
      requires Valid() && Terminated(longopts) && |longopts| <= 96 + 1
      requires Pending() != [] && IsShortOpt(Pending()[0])
      modifies this, argv
      ensures Valid()
      ensures var s := ShortStep(Encode(Entries(longopts)), old(Pending()), old(subopt));
              && ret == s.ret && optarg == s.optarg && optopt == s.optopt && subopt == s.subopt
              && optind == old(optind) + s.used
      ensures Line() == old(Line())
    {
      Landing(Line(), optind, false);
      var optstring := new char[96 * 3 + 1];
      var n := FromLong(longopts, optstring);
      ret := Optparse(optstring[..n]);
    }

    /** The second half of optparse_long: look the long option up and fetch its argument. */
    method DecodeLong(longopts: seq<LongOpt>) returns (ret: int)
      requires Valid() && Terminated(longopts) && Pending() != [] && IsLongOpt(Pending()[0])
      modifies this`optind, this`optopt, this`optarg
      ensures Valid()
      ensures var s := LongStep(Entries(longopts), old(Pending()), subopt);
              && ret == s.ret && optarg == s.optarg && optopt == s.optopt && subopt == s.subopt
              && optind == old(optind) + s.used
    {
      ghost var es, pending := Entries(longopts), Pending();
      optopt := 0;
      optarg := None;
      assert argv[optind].value == pending[0];
      var word := argv[optind].value[2..];
      optind := optind + 1;
      var i := 0;
      while !LongoptsEnd(longopts[i])
        invariant 0 <= i < |longopts|
        invariant FindLong(es, word) == FindLong(es[i..], word)
        invariant optind == old(optind) + 1 && optopt == 0 && optarg == None
        decreases |longopts| - i
      {
        var e := longopts[i];
        assert es[i..][0] == e && es[i..][1..] == es[i + 1..];
        var matched := LongoptsMatch(e.longname, word);
        if matched {
          optopt := e.shortname;
          var arg := LongoptsArg(word);
          if e.argtype == NoArg && arg != None {
            return BAD;
          }
          if arg != None {
            optarg := arg;
          } else if e.argtype == Required {
            optarg := argv[optind];
            if optarg == None {
              return BAD;
            } else {
              optind := optind + 1;
            }
          }
          return optopt;
        }
        i := i + 1;
      }
      ret := BAD;
    }

    /** optparse_long.  One call is one rotation. */
    method OptparseLong(longopts: seq<LongOpt>) returns (ret: int)
      requires Valid() && Terminated(longopts) && |longopts| <= 96 + 1
      modifies this, argv
      ensures Valid()
      ensures var es := Entries(longopts);
              var k, s := Skip(old(Pending()), true), LongCall(es, old(Pending()), old(subopt));
              && ret == s.ret && subopt == s.subopt
              && (ret != DONE ==> optarg == s.optarg && optopt == s.optopt)
              && optind == old(optind) + s.used
              && Line() == Rotate(old(Line()), old(optind), k, s.used)
      decreases argv.Length - optind, 1
    {
      ghost var es, line, pending := Entries(longopts), Line(), Pending();
      ghost var s := LongCall(es, pending, subopt);
      var option := argv[optind];
      Landing(line, optind, true);
      if option == None {
        return DONE;
      } else if IsDashDash(option.value) {
        optind := optind + 1;
        assert s.used == 1;
        return DONE;
      } else if IsShortOpt(option.value) {
        ret := LongFallback(longopts);
        return;
      } else if !IsLongOpt(option.value) {
        ret := StepOverLong(longopts);
        return;
      }
      ret := DecodeLong(longopts);
    }

    /** The branch of optparse_long that steps over one operand and permutes on the way back. */
    method StepOverLong(longopts: seq<LongOpt>) returns (ret: int)
      requires Valid() && Terminated(longopts) && |longopts| <= 96 + 1
      requires Pending() != [] && IsSkipped(Pending()[0], true)
      modifies this, argv
      ensures Valid()
      ensures var es := Entries(longopts);
              var k, s := Skip(old(Pending()), true), LongCall(es, old(Pending()), old(subopt));
              && ret == s.ret && subopt == s.subopt
              && (ret != DONE ==> optarg == s.optarg && optopt == s.optopt)
              && optind == old(optind) + s.used
              && Line() == Rotate(old(Line()), old(optind), k, s.used)
      decreases argv.Length - optind, 0
    {
      hide LongCall, Skip, Rotate;
      ghost var es, line, pending := Entries(longopts), Line(), Pending();
      ghost var s := LongCall(es, pending, subopt);
      var index := optind;
      optind := optind + 1;
      assert Pending() == pending[1..];
      OneOperandLong(es, pending, subopt);
      label Call:
      ret := OptparseLong(longopts);
      assert old@Call(Pending()) == pending[1..] && old@Call(subopt) == old(subopt);
      assert ret == s.ret && optind == index + 1 + s.used;
      ghost var k := Skip(pending[1..], true);
      assert Line() == Rotate(line, index + 1, k, s.used);
      Unwind(line, index, s.used, true);
      Permute(index, s.used);
      optind := optind - 1;
    }
  }

  /** Shifting the entries in (i, i+m] down by one and putting entry i behind them is a rotation. */
  lemma Shifted(a: seq<Option<string>>, b: seq<Option<string>>, i: nat, m: nat)
    requires IsArgv(a) && i + m < |a| - 1
    requires |b| == |a| && b[i + m] == a[i]
    requires forall x :: i <= x < i + m ==> b[x] == a[x + 1]
    requires forall x :: 0 <= x < i || i + m < x < |a| ==> b[x] == a[x]
    ensures IsArgv(b)
    ensures Tokens(b) == Rotate(Tokens(a), i, 1, m)
  {
  }

  lemma RotateTwice<T>(line: seq<T>, p: nat, k: nat, m: nat)
    requires p + 1 + k + m <= |line|
    ensures Rotate(Rotate(line, p + 1, k, m), p, 1, m) == Rotate(line, p, k + 1, m)
  {
    forall i | 0 <= i < |line|
      ensures Origin(p + 1, k, m, Origin(p, 1, m, i)) == Origin(p, k + 1, m, i)
    {
    }
  }

  /** Unwinding one more frame of the recursion extends the rotation by one operand. */
  lemma Unwind(line: seq<string>, p: nat, m: nat, long: bool)
    requires p < |line| && IsSkipped(line[p], long)
    requires p + 1 + Skip(line[p + 1..], long) + m <= |line|
    ensures var pending := line[p..];
            var k := Skip(pending[1..], long);
            && pending[1..] == line[p + 1..]
            && Skip(pending, long) == k + 1
            && pending[k + 1..] == pending[1..][k..]
            && Rotate(Rotate(line, p + 1, k, m), p, 1, m) == Rotate(line, p, k + 1, m)
  {
    assert line[p..][1..] == line[p + 1..];
    RotateTwice(line, p, Skip(line[p + 1..], long), m);
  }

  /** With no operand in front there is nothing to step over, and nothing moves. */
  lemma Landing(line: seq<string>, p: nat, long: bool)
    requires p <= |line|
    ensures var pending := line[p..];
            pending == [] || !IsSkipped(pending[0], long) ==>
              && Skip(pending, long) == 0
              && pending[0..] == pending
              && forall m {:trigger Rotate(line, p, 0, m)} :: 0 <= m <= |line| - p ==> Rotate(line, p, 0, m) == line
  {
  }
}
