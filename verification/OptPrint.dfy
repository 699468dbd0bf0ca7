/**
 Printing options and reading them back: what each way to write an option means, in terms of the
 first table entry with that name, and independent of the functions that decode it.
 */
module OptPrint {
  import opened CStrings
  import opened Wrappers
  import opened OptTable
  import opened OptSpec

  // ---------------------------------------------------------------- kinds of tokens

  /** "--" stops; "-" and a character other than '-' open a cluster; "--" and more is a long option;
      everything else, "" and "-" included, is an operand. */
  lemma TokenKinds(t: string)
    ensures IsDashDash(t) <==> t == ['-', '-']
    ensures IsShortOpt(t) <==> exists c: char, rest: string :: c != '-' && t == ['-', c] + rest
    ensures IsLongOpt(t) <==> exists rest: string :: rest != "" && t == ['-', '-'] + rest
    ensures IsOperand(t) <==> t == "" || t == "-" || t[0] != '-'
  {
    if |t| >= 2 {
      assert t == [t[0], t[1]] + t[2..];
    }
  }

  // ---------------------------------------------------------------- long options

  /** es[k] is the first entry with that long name. */
  predicate FirstNamed(es: seq<LongOpt>, k: nat, name: string) {
    k < |es| && es[k].longname == Some(name) && forall j :: 0 <= j < k ==> es[j].longname != Some(name)
  }

  lemma {:induction false} FoundFirst(es: seq<LongOpt>, k: nat, name: string, option: string)
    requires FirstNamed(es, k, name) && NamePart(option) == name
    ensures FindLong(es, option) == Some(es[k])
  {
    if k > 0 {
      assert FirstNamed(es[1..], k - 1, name);
      FoundFirst(es[1..], k - 1, name, option);
    }
  }

  lemma FindNone(s: string, c: char)
    requires c !in s
    ensures Find(s, c) == |s|
  {
  }

  /** --name=v: v is the argument, unless the option takes none. */
  lemma AttachedLong(es: seq<LongOpt>, k: nat, name: string, v: string, rest: seq<string>, subopt: nat)
    requires FirstNamed(es, k, name) && '=' !in name
    ensures var t := "--" + name + "=" + v;
            && IsLongOpt(t)
            && LongStep(es, [t] + rest, subopt) ==
                 if es[k].argtype == NoArg then Step(BAD, None, es[k].shortname, 1, subopt, 0)
                 else Step(es[k].shortname, Some(v), es[k].shortname, 1, subopt, 0)
  {
    var t, option := "--" + name + "=" + v, name + ("=" + v);
    assert t[2..] == option;
    FindNone(name, '=');
    FindAppend(name, "=" + v, '=');
    assert option[..|name|] == name && option[|name| + 1..] == v;
    FoundFirst(es, k, name, option);
  }

  /** --name: a required argument is the next token, whatever it looks like; without one it is an
      error; the other options take nothing. */
  lemma DetachedLong(es: seq<LongOpt>, k: nat, name: string, rest: seq<string>, subopt: nat)
    requires FirstNamed(es, k, name) && '=' !in name && name != ""
    ensures var t := "--" + name;
            && IsLongOpt(t)
            && LongStep(es, [t] + rest, subopt) ==
                 if es[k].argtype != Required then Step(es[k].shortname, None, es[k].shortname, 1, subopt, 0)
                 else if rest != [] then Step(es[k].shortname, Some(rest[0]), es[k].shortname, 2, subopt, 0)
                 else Step(BAD, None, es[k].shortname, 1, subopt, 0)
  {
    var t := "--" + name;
    assert t[2..] == name;
    FindNone(name, '=');
    assert name[..|name|] == name;
    FoundFirst(es, k, name, name);
  }

  /** A name that no entry has is an error, with or without a value. */
  lemma UnknownLong(es: seq<LongOpt>, name: string, value: string, rest: seq<string>, subopt: nat)
    requires '=' !in name && name != "" && (value == "" || value[0] == '=')
    requires forall j :: 0 <= j < |es| ==> es[j].longname != Some(name)
    ensures var t := "--" + name + value;
            IsLongOpt(t) && LongStep(es, [t] + rest, subopt) == Step(BAD, None, 0, 1, subopt, 0)
  {
    var t, option := "--" + name + value, name + value;
    assert t[2..] == option;
    FindNone(name, '=');
    FindAppend(name, value, '=');
    assert option[..|name|] == name;
  }

  // ---------------------------------------------------------------- short options

  /** es[k] is the first entry with that letter, and the letter can be encoded. */
  predicate FirstLettered(es: seq<LongOpt>, k: nat, c: char) {
    && k < |es| && es[k].shortname == c as int && 0 < c as int < 127 && c != ':'
    && forall j :: 0 <= j < k ==> es[j].shortname != c as int
  }

  lemma {:induction false} LookedUpFirst(es: seq<LongOpt>, k: nat, c: char)
    requires FirstLettered(es, k, c)
    ensures Lookup(es, c) == match es[k].argtype case NoArg => 0 case Required => 1 case Optional => 2
  {
    if k > 0 {
      assert FirstLettered(es[1..], k - 1, c);
      LookedUpFirst(es[1..], k - 1, c);
    }
  }

  /** -cv: v is the argument, or the rest of the cluster if the option takes none. */
  lemma AttachedShort(es: seq<LongOpt>, k: nat, c: char, v: string, rest: seq<string>)
    requires NoColonLetter(es) && FirstLettered(es, k, c) && c != '-' && v != ""
    ensures var t := ['-', c] + v;
            && IsShortOpt(t)
            && ShortStep(Encode(es), [t] + rest, 0) ==
                 if es[k].argtype == NoArg then Step(c as int, None, c as int, 0, 1, 1)
                 else Step(c as int, Some(v), c as int, 1, 0, 1)
  {
    LookedUpFirst(es, k, c);
    EncodingRefinesTable(es, c);
    hide Decode, Encode;
    assert (['-', c] + v)[2..] == v;
  }

  /** -c: a required argument is the next token, whatever it looks like; without one it is an error;
      the other options take nothing. */
  lemma DetachedShort(es: seq<LongOpt>, k: nat, c: char, rest: seq<string>)
    requires NoColonLetter(es) && FirstLettered(es, k, c) && c != '-'
    ensures var t := ['-', c];
            && IsShortOpt(t)
            && ShortStep(Encode(es), [t] + rest, 0) ==
                 if es[k].argtype != Required then Step(c as int, None, c as int, 1, 0, 1)
                 else if rest != [] then Step(c as int, Some(rest[0]), c as int, 2, 0, 1)
                 else Step(BAD, None, c as int, 1, 0, 1)
  {
    LookedUpFirst(es, k, c);
    EncodingRefinesTable(es, c);
    hide Decode, Encode;
  }

  lemma {:induction false} LookedUpNone(es: seq<LongOpt>, c: char)
    requires forall j :: 0 <= j < |es| && 0 < es[j].shortname < 127 ==> es[j].shortname != c as int
    ensures Lookup(es, c) == -1
  {
    if es != [] {
      LookedUpNone(es[1..], c);
    }
  }

  /** A letter that no entry has, or that a getopt string cannot hold, is an error. */
  lemma UnknownShort(es: seq<LongOpt>, c: char, v: string, rest: seq<string>)
    requires NoColonLetter(es) && c != '-'
    requires forall j :: 0 <= j < |es| && 0 < es[j].shortname < 127 ==> es[j].shortname != c as int
    ensures var t := ['-', c] + v;
            IsShortOpt(t) && ShortStep(Encode(es), [t] + rest, 0) == Step(BAD, None, c as int, 1, 0, 1)
  {
    LookedUpNone(es, c);
    EncodingRefinesTable(es, c);
    hide Decode, Encode;
  }

  /** With the cursor set, the rest of the cluster is read like a cluster of its own: same result, same
      argument, same width; only the cursor counts on. */
  lemma CursorIsOffset(optstring: string, t: string, n: nat, rest: seq<string>)
    requires IsShortOpt(t) && n + 1 < |t| && t[n + 1] != '-'
    ensures var own := "-" + t[n + 1..];
            && IsShortOpt(own)
            && var s, o := ShortStep(optstring, [t] + rest, n), ShortStep(optstring, [own] + rest, 0);
               && s.ret == o.ret && s.optarg == o.optarg && s.optopt == o.optopt && s.used == o.used
               && s.letter == n + o.letter
               && (o.subopt == 1 ==> s.subopt == n + 1)
               && (s.subopt == 0 || s.subopt == n || s.subopt == n + 1)
               && (s.ret != BAD && s.used > 0 ==> s.subopt == 0)
  {
    var own := "-" + t[n + 1..];
    assert At(own, 1) == At(t, n + 1);
    if n + 2 < |t| {
      assert own[2..] == t[n + 2..];
    }
    hide Decode;
  }

  // ---------------------------------------------------------------- options in front of a line

  /** The token is -c or --name, and es[k] is the first entry with that letter or name. */
  ghost predicate Denotes(es: seq<LongOpt>, k: nat, t: string) {
    && k < |es|
    && ((NoColonLetter(es) && exists c: char :: c != '-' && FirstLettered(es, k, c) && t == ['-', c])
        || (exists name: string :: name != "" && '=' !in name && FirstNamed(es, k, name) && t == "--" + name))
  }

  lemma LongDenotes(es: seq<LongOpt>, k: nat, name: string)
    requires name != "" && '=' !in name && FirstNamed(es, k, name)
    ensures Denotes(es, k, "--" + name) && IsLongOpt("--" + name)
  {
  }

  lemma ShortDenotes(es: seq<LongOpt>, k: nat, c: char)
    requires NoColonLetter(es) && c != '-' && FirstLettered(es, k, c)
    ensures Denotes(es, k, ['-', c]) && !IsLongOpt(['-', c])
  {
  }

  /** -c v or --name v, if the option requires an argument: v is its argument, and the rest is parsed
      as a line of its own. */
  lemma RunDetached(es: seq<LongOpt>, k: nat, t: string, v: string, rest: seq<string>)
    requires Denotes(es, k, t) && es[k].argtype == Required
    ensures Run(es, [t, v] + rest, 0)
         == AddEvents([Event(es[k].shortname, Some(v), t, if IsLongOpt(t) then 0 else 1)], [t, v], Run(es, rest, 0))
  {
    var toks := [t, v] + rest;
    assert toks == [t] + ([v] + rest) && toks[2..] == rest && toks[..2] == [t, v];
    if c: char :| NoColonLetter(es) && c != '-' && FirstLettered(es, k, c) && t == ['-', c] {
      DetachedShort(es, k, c, [v] + rest);
      hide ShortStep;
    } else {
      var name: string :| name != "" && '=' !in name && FirstNamed(es, k, name) && t == "--" + name;
      DetachedLong(es, k, name, [v] + rest, 0);
      hide LongStep;
    }
  }

  /** -c or --name, if the option takes no argument. */
  lemma RunFlag(es: seq<LongOpt>, k: nat, t: string, rest: seq<string>)
    requires Denotes(es, k, t) && es[k].argtype == NoArg
    ensures Run(es, [t] + rest, 0)
         == AddEvents([Event(es[k].shortname, None, t, if IsLongOpt(t) then 0 else 1)], [t], Run(es, rest, 0))
  {
    var toks := [t] + rest;
    assert toks[1..] == rest && toks[..1] == [t];
    if c: char :| NoColonLetter(es) && c != '-' && FirstLettered(es, k, c) && t == ['-', c] {
      DetachedShort(es, k, c, rest);
      hide ShortStep;
    } else {
      var name: string :| name != "" && '=' !in name && FirstNamed(es, k, name) && t == "--" + name;
      DetachedLong(es, k, name, rest, 0);
      hide LongStep;
    }
  }
}
