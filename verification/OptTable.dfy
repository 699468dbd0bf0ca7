/**
 The long-option table of lib/optparse.h and its getopt string encoding.

 optparse_long never looks a short option up in the table: on every call it encodes the table
 as a getopt string ("f:t:o:s") and the short parser decodes that string.  The lemma
 EncodingRefinesTable says the detour is harmless.
 */
module OptTable {
  import opened CStrings
  import opened Wrappers

  datatype ArgType = NoArg | Required | Optional

  /** struct optparse_long, without the usage texts. */
  datatype LongOpt = LongOpt(longname: Option<string>, shortname: nat, argtype: ArgType)

  /** enum optparse_argtype as the int that C uses. */
  function Colons(a: ArgType): nat {
    match a
    case NoArg => 0
    case Required => 1
    case Optional => 2
  }

  predicate LongoptsEnd(e: LongOpt) {
    e.longname == None && e.shortname == 0
  }

  /** A C table: its last entry, and no other, is the all-zero end mark. */
  ghost predicate Terminated(longopts: seq<LongOpt>) {
    && |longopts| > 0
    && LongoptsEnd(longopts[|longopts| - 1])
    && forall i :: 0 <= i < |longopts| - 1 ==> !LongoptsEnd(longopts[i])
  }

  ghost function Entries(longopts: seq<LongOpt>): seq<LongOpt>
    requires Terminated(longopts)
  {
    longopts[..|longopts| - 1]
  }

  // ---------------------------------------------------------------- table lookup

  /** The entry reaches the getopt string. */
  predicate Encodable(e: LongOpt) {
    0 < e.shortname < 127
  }

  /** Number of colons of the first encodable entry with short name c, -1 if none. */
  function Lookup(es: seq<LongOpt>, c: char): (t: int)
    ensures -1 <= t <= 2
  {
    if es == [] then -1
    else if Encodable(es[0]) && es[0].shortname == c as int then Colons(es[0].argtype)
    else Lookup(es[1..], c)
  }

  function Encode(es: seq<LongOpt>): string {
    if es == [] then "" else EncodeEntry(es[0]) + Encode(es[1..])
  }

  function EncodeEntry(e: LongOpt): (s: string)
    ensures |s| <= 3
  {
    if Encodable(e) then [e.shortname as char] + seq(Colons(e.argtype), _ => ':') else ""
  }

  /** What optparse_argtype reads out of a getopt string. */
  function Decode(optstring: string, c: char): (t: int)
    ensures -1 <= t <= 2
  {
    var i := Find(optstring, c);
    if c == ':' || i == |optstring| then -1
    else if At(optstring, i + 1) != ':' then 0
    else if At(optstring, i + 2) == ':' then 2
    else 1
  }

  /** ':' cannot be an option letter of a getopt string. */
  ghost predicate NoColonLetter(es: seq<LongOpt>) {
    forall i :: 0 <= i < |es| ==> es[i].shortname != ':' as int
  }

  lemma {:induction false} EncodeFirst(es: seq<LongOpt>)
    requires NoColonLetter(es)
    ensures Encode(es) != "" ==> Encode(es)[0] != ':'
  {
    if es != [] {
      EncodeFirst(es[1..]);
    }
  }

  /** Letters other than c in front do not matter. */
  lemma DecodeMiss(head: string, tail: string, c: char)
    requires Find(head, c) == |head|
    ensures Decode(head + tail, c) == Decode(tail, c)
  {
    FindAppend(head, tail, c);
    var i, j := Find(tail, c), |head| + Find(tail, c);
    if i < |tail| {
      assert At(head + tail, j + 1) == At(tail, i + 1);
      if At(tail, i + 1) == ':' {
        assert At(head + tail, j + 2) == At(tail, i + 2);
      }
    }
  }

  /** The first entry's colons are counted, not those of its neighbour. */
  lemma DecodeHit(e: LongOpt, tail: string)
    requires Encodable(e) && e.shortname != ':' as int
    requires tail != "" ==> tail[0] != ':'
    ensures Decode(EncodeEntry(e) + tail, e.shortname as char) == Colons(e.argtype)
  {
    var s := EncodeEntry(e) + tail;
    assert |EncodeEntry(e)| == 1 + Colons(e.argtype);
    assert forall k :: 1 <= k <= Colons(e.argtype) ==> s[k] == ':';
    assert Find(s, e.shortname as char) == 0;
  }

  lemma FindInEntry(e: LongOpt, c: char)
    requires c != ':' && !(Encodable(e) && e.shortname == c as int)
    ensures Find(EncodeEntry(e), c) == |EncodeEntry(e)|
  {
  }

  /** Decoding the encoded table is looking the letter up in the table, for every character. */
  lemma {:induction false} EncodingRefinesTable(es: seq<LongOpt>, c: char)
    requires NoColonLetter(es)
    ensures Decode(Encode(es), c) == if c == ':' then -1 else Lookup(es, c)
  {
    if es != [] && c != ':' {
      if Encodable(es[0]) && es[0].shortname == c as int {
        EncodeFirst(es[1..]);
        DecodeHit(es[0], Encode(es[1..]));
      } else {
        FindInEntry(es[0], c);
        DecodeMiss(EncodeEntry(es[0]), Encode(es[1..]), c);
        EncodingRefinesTable(es[1..], c);
      }
    }
  }

  /** optparse_from_long: the buffer of 96 * 3 + 1 characters is large enough for 96 entries. */
  method FromLong(longopts: seq<LongOpt>, optstring: array<char>) returns (p: nat)
    requires Terminated(longopts) && |longopts| <= 96 + 1
    requires optstring.Length == 96 * 3 + 1
    modifies optstring
    ensures p < optstring.Length
    ensures optstring[..p] == Encode(Entries(longopts))
    ensures optstring[p] == '\0'
  {
    p := 0;
    var i := 0;
    while !LongoptsEnd(longopts[i])
      invariant 0 <= i < |longopts|
      invariant p <= 3 * i
      invariant optstring[..p] == Encode(longopts[..i])
      decreases |longopts| - i
    {
      EncodeSnoc(longopts[..i], longopts[i]);
      assert longopts[..i + 1] == longopts[..i] + [longopts[i]];
      if longopts[i].shortname != 0 && longopts[i].shortname < 127 {
        p := AppendEntry(longopts[i], optstring, p);
      }
      i := i + 1;
    }
    assert longopts[..i] == Entries(longopts);
    optstring[p] := '\0';
  }

  /** The body of that loop: the letter, then one colon for each step of the argument type. */
  method AppendEntry(e: LongOpt, optstring: array<char>, start: nat) returns (p: nat)
    requires Encodable(e) && start + 3 <= optstring.Length
    modifies optstring
    ensures start <= p <= start + 3
    ensures optstring[..p] == old(optstring[..start]) + EncodeEntry(e)
  {
    p := start;
    optstring[p] := e.shortname as char;
    p := p + 1;
    var a := 0;
    while a < Colons(e.argtype)
      invariant 0 <= a <= Colons(e.argtype) && p == start + 1 + a
      invariant optstring[..start] == old(optstring[..start])
      invariant optstring[start] == e.shortname as char
      invariant forall k :: start < k < p ==> optstring[k] == ':'
    {
      optstring[p] := ':';
      p := p + 1;
      a := a + 1;
    }
    assert optstring[..p] == optstring[..start] + optstring[start..p];
    assert optstring[start..p] == EncodeEntry(e);
  }

  lemma EncodeSnoc(es: seq<LongOpt>, e: LongOpt)
    ensures Encode(es + [e]) == Encode(es) + EncodeEntry(e)
  {
    if es == [] {
      assert [e][1..] == [];
    } else {
      assert (es + [e])[1..] == es[1..] + [e];
      EncodeSnoc(es[1..], e);
    }
  }

  /** optparse_argtype. */
  method ArgTypeOf(optstring: string, c: char) returns (count: int)
    ensures count == Decode(optstring, c)
  {
    count := 0;
    if c == ':' {
      return -1;
    }
    var p := 0;
    while p < |optstring| && c != optstring[p]
      invariant p <= |optstring|
      invariant Find(optstring, c) == p + Find(optstring[p..], c)
    {
      p := p + 1;
    }
    if p == |optstring| {
      return -1;
    }
    if At(optstring, p + 1) == ':' {
      count := count + if At(optstring, p + 2) == ':' then 2 else 1;
    }
  }

  // ---------------------------------------------------------------- long names

  /** The option text before its first '='. */
  function NamePart(option: string): string {
    option[..Find(option, '=')]
  }

  /** The option text after its first '='. */
  function ValuePart(option: string): Option<string> {
    var i := Find(option, '=');
    if i < |option| then Some(option[i + 1..]) else None
  }

  /** An entry without a long name, or whose name holds '=', matches nothing. */
  predicate Matches(longname: Option<string>, option: string) {
    longname.Some? && longname.value == NamePart(option)
  }

  /** optparse_longopts_match. */
  method LongoptsMatch(longname: Option<string>, option: string) returns (yes: bool)
    ensures yes <==> Matches(longname, option)
  {
    if longname == None {
      return false;
    }
    var name := longname.value;
    var i := 0;
    while i < |option| && i < |name| && option[i] != '='
      invariant i <= |option| && i <= |name|
      invariant option[..i] == name[..i]
      invariant i <= Find(option, '=')
    {
      if option[i] != name[i] {
        assert i < |NamePart(option)| && NamePart(option)[i] != name[i];
        return false;
      }
      i := i + 1;
    }
    yes := i == |name| && (i == |option| || option[i] == '=');
    if i < |option| && option[i] == '=' {
      FindIsFirst(option, '=', i);
    }
  }

  /** optparse_longopts_arg. */
  method LongoptsArg(option: string) returns (arg: Option<string>)
    ensures arg == ValuePart(option)
  {
    var i := 0;
    while i < |option| && option[i] != '='
      invariant i <= |option|
      invariant i <= Find(option, '=')
    {
      i := i + 1;
    }
    if i < |option| {
      FindIsFirst(option, '=', i);
      return Some(option[i + 1..]);
    } else {
      return None;
    }
  }

  /** The first entry whose long name is the option's name part. */
  function FindLong(es: seq<LongOpt>, option: string): (e: Option<LongOpt>)
    ensures e.Some? ==> e.value in es && Matches(e.value.longname, option)
    ensures e == None ==> forall i :: 0 <= i < |es| ==> !Matches(es[i].longname, option)
  {
    if es == [] then None
    else if Matches(es[0].longname, option) then Some(es[0])
    else FindLong(es[1..], option)
  }
}
