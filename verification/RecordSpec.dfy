/**
 What a record file means, independently of the parser of lib/info_reader.c: the text is cut
 into lines, the lines into records at the blank lines, and each record is looked up key by key.
 */
module RecordSpec {
  import opened CStrings
  import opened Wrappers
  import opened Blocks

  const MAX_PAGE_SIZE := 4096

  /** struct KeyFinder: a key, its delimiter, the conversion of the raw value and the setter. */
  datatype KeyFinder<!S, !V> = KeyFinder(key: string, delimiter: string, copy: string -> V, put: (S, V) -> S)

  // ---------------------------------------------------------------- lines

  /** Characters up to the first newline, which is included. */
  function LineLength(text: string): (n: nat)
    ensures n <= |text|
    ensures text != "" ==> n > 0
  {
    var i := Find(text, '\n');
    if i < |text| then i + 1 else i
  }

  /** The reader gives up on a line that does not fit its buffer with a terminator. */
  predicate Readable(text: string) {
    text != "" && LineLength(text) < MAX_PAGE_SIZE
  }

  /** The lines delivered, each with its newline; reading stops for good at an overlong line. */
  function Lines(text: string): seq<string>
    decreases |text|
  {
    if !Readable(text) then []
    else [text[..LineLength(text)]] + Lines(text[LineLength(text)..])
  }

  /** A line of one character, whatever it is, counts as blank. */
  predicate IsBlank(line: string) {
    |line| == 1
  }

  /** What matching sees of a line: up to its newline, or to a NUL inside it. */
  function Content(line: string): string {
    var c := line[..Find(line, '\0')];
    c[..Find(c, '\n')]
  }

  // ---------------------------------------------------------------- one line

  predicate StartsWith(prefix: string, s: string) {
    |prefix| <= |s| && s[..|prefix|] == prefix
  }

  /** strstr: where d first occurs in s. */
  function FindText(s: string, d: string): (i: Option<nat>)
    ensures i.Some? ==> i.value + |d| <= |s| && s[i.value..i.value + |d|] == d
    decreases |s|
  {
    if StartsWith(d, s) then Some(0)
    else if s == "" then None
    else
      var i := FindText(s[1..], d);
      if i == None then None else Some(i.value + 1)
  }

  predicate OccursAt(d: string, s: string, i: nat) {
    i + |d| <= |s| && s[i..i + |d|] == d
  }

  ghost predicate Occurs(d: string, s: string) {
    exists i: nat :: OccursAt(d, s, i)
  }

  /** strstr finds every text that occurs, where it occurs first. */
  lemma FindTextFirst(s: string, d: string, j: nat)
    requires OccursAt(d, s, j)
    ensures FindText(s, d).Some? && FindText(s, d).value <= j
  {
    if j > 0 && !StartsWith(d, s) {
      assert s[1..][j - 1..j - 1 + |d|] == s[j..j + |d|];
      FindTextFirst(s[1..], d, j - 1);
    }
  }

  lemma FindTextFinds(s: string, d: string)
    ensures FindText(s, d) != None <==> Occurs(d, s)
    ensures FindText(s, d).Some? ==> OccursAt(d, s, FindText(s, d).value)
  {
    if FindText(s, d).Some? {
      assert OccursAt(d, s, FindText(s, d).value);
    }
    if Occurs(d, s) {
      var i: nat :| OccursAt(d, s, i);
      FindTextFirst(s, d, i);
    }
  }

  /** The value behind the first delimiter.  Cutting the line at an empty delimiter leaves
      nothing of it. */
  function ValueAfter(line: string, delimiter: string): Option<string> {
    match FindText(line, delimiter)
    case None => None
    case Some(i) => Some(if delimiter == "" then "" else line[i + |delimiter|..])
  }

  /** Index of the first key that the line starts with, |keys| if none. */
  function FirstKey<S, V>(keys: seq<KeyFinder<S, V>>, line: string): (i: nat)
    ensures i <= |keys|
    ensures i < |keys| ==> StartsWith(keys[i].key, line)
  {
    if keys == [] || StartsWith(keys[0].key, line) then 0 else 1 + FirstKey(keys[1..], line)
  }

  datatype Hit = Hit(index: nat, raw: string)

  /** First prefix wins; a line without that key's delimiter matches nothing at all. */
  function MatchLine<S, V>(keys: seq<KeyFinder<S, V>>, line: string): (h: Option<Hit>)
    ensures h.Some? ==> h.value.index < |keys|
  {
    var i := FirstKey(keys, line);
    if i == |keys| then None
    else
      match ValueAfter(line, keys[i].delimiter)
      case None => None
      case Some(v) => Some(Hit(i, v))
  }

  /** A line of 4095 characters is read, a longer one is not. */
  lemma LongestLine(text: string)
    ensures Readable(text) <==> text != "" && LineLength(text) <= 4095
  {
  }

  lemma {:induction false} FirstKeyAt<S, V>(keys: seq<KeyFinder<S, V>>, line: string, i: nat)
    requires i < |keys| && StartsWith(keys[i].key, line)
    requires forall j :: 0 <= j < i ==> !StartsWith(keys[j].key, line)
    ensures FirstKey(keys, line) == i
  {
    if i > 0 {
      assert forall j :: 0 <= j < i - 1 ==> keys[1..][j] == keys[j + 1];
      FirstKeyAt(keys[1..], line, i - 1);
    }
  }

  /** A failed split does not fall through to later keys. */
  lemma NoFallThrough<S, V>(keys: seq<KeyFinder<S, V>>, line: string, i: nat)
    requires i < |keys| && StartsWith(keys[i].key, line)
    requires forall j :: 0 <= j < i ==> !StartsWith(keys[j].key, line)
    requires !Occurs(keys[i].delimiter, line)
    ensures MatchLine(keys, line) == None
  {
    FirstKeyAt(keys, line, i);
    FindTextFinds(line, keys[i].delimiter);
  }

  /** The value is what follows the first occurrence of a nonempty delimiter, wherever it is. */
  lemma ValueBehind<S, V>(keys: seq<KeyFinder<S, V>>, line: string, i: nat, front: string, v: string)
    requires i < |keys| && StartsWith(keys[i].key, line)
    requires forall j :: 0 <= j < i ==> !StartsWith(keys[j].key, line)
    requires keys[i].delimiter != "" && line == front + keys[i].delimiter + v
    requires forall j :: 0 <= j < |front| ==> !OccursAt(keys[i].delimiter, line, j)
    ensures MatchLine(keys, line) == Some(Hit(i, v))
  {
    var d := keys[i].delimiter;
    FirstKeyAt(keys, line, i);
    assert OccursAt(d, line, |front|);
    FindTextFirst(line, d, |front|);
    FindTextFinds(line, d);
    assert line[|front| + |d|..] == v;
  }

  /** A line that starts with no key matches nothing. */
  lemma NoKey<S, V>(keys: seq<KeyFinder<S, V>>, line: string)
    requires forall j :: 0 <= j < |keys| ==> !StartsWith(keys[j].key, line)
    ensures MatchLine(keys, line) == None
  {
  }

  // ---------------------------------------------------------------- records

  /** The records: n blank lines make n + 1 records, the last one open. */
  function Records(lines: seq<string>): (r: seq<seq<string>>)
    ensures |r| > 0
  {
    if lines == [] then [[]]
    else
      var n := |lines| - 1;
      var r := Records(lines[..n]);
      if IsBlank(lines[n]) then r + [[]]
      else r[..|r| - 1] + [r[|r| - 1] + [lines[n]]]
  }

  /** The matching lines of a record, in order. */
  function Hits<S, V>(keys: seq<KeyFinder<S, V>>, record: seq<string>): (hs: seq<Hit>)
    ensures forall i :: 0 <= i < |hs| ==> hs[i].index < |keys|
  {
    if record == [] then []
    else
      var n := |record| - 1;
      var h := MatchLine(keys, Content(record[n]));
      Hits(keys, record[..n]) + if h == None then [] else [h.value]
  }

  /** A record takes at most as many hits as there are keys. */
  function Taken<S, V>(keys: seq<KeyFinder<S, V>>, record: seq<string>): (hs: seq<Hit>)
    ensures forall i :: 0 <= i < |hs| ==> hs[i].index < |keys|
    ensures |hs| <= |keys|
  {
    var hs := Hits(keys, record);
    if |hs| <= |keys| then hs else hs[..|keys|]
  }

  function Store<S, V>(keys: seq<KeyFinder<S, V>>, h: Hit, slot: S): S
    requires h.index < |keys|
  {
    keys[h.index].put(slot, keys[h.index].copy(h.raw))
  }

  function StoreAll<S, V>(keys: seq<KeyFinder<S, V>>, hs: seq<Hit>, slot: S): S
    requires forall i :: 0 <= i < |hs| ==> hs[i].index < |keys|
  {
    if hs == [] then slot
    else Store(keys, hs[|hs| - 1], StoreAll(keys, hs[..|hs| - 1], slot))
  }

  /** A slot after its record was read into it. */
  function Fill<S, V>(keys: seq<KeyFinder<S, V>>, record: seq<string>, slot: S): S {
    StoreAll(keys, Taken(keys, record), slot)
  }

  // ---------------------------------------------------------------- reading on

  lemma LinesStep(lines: seq<string>, rest: string)
    requires Readable(rest)
    ensures lines + Lines(rest) == lines + [rest[..LineLength(rest)]] + Lines(rest[LineLength(rest)..])
  {
  }

  lemma LinesEnd(lines: seq<string>, rest: string)
    requires !Readable(rest)
    ensures lines + Lines(rest) == lines
  {
  }

  /** Number of keys already assigned in the open record. */
  function KeysAssigned<S, V>(keys: seq<KeyFinder<S, V>>, lines: seq<string>): nat {
    var r := Records(lines);
    |Taken(keys, r[|r| - 1])|
  }

  /** The slots after reading the lines: record i goes into slot i, the others keep their value. */
  function Slots<S, V>(keys: seq<KeyFinder<S, V>>, initial: seq<S>, lines: seq<string>): (s: seq<S>)
    ensures |s| == |initial|
  {
    var r := Records(lines);
    seq(|initial|, i requires 0 <= i < |initial| => if i < |r| then Fill(keys, r[i], initial[i]) else initial[i])
  }

  lemma NothingRead<S, V>(keys: seq<KeyFinder<S, V>>, initial: seq<S>)
    ensures |Records([])| == 1 && KeysAssigned(keys, []) == 0 && Slots(keys, initial, []) == initial
  {
  }

  /** One more line in an open record. */
  lemma TakenSnoc<S, V>(keys: seq<KeyFinder<S, V>>, record: seq<string>, line: string, slot: S)
    ensures var h, t := MatchLine(keys, Content(line)), Taken(keys, record);
            var u := Taken(keys, record + [line]);
            if h == None || |t| == |keys| then u == t
            else u == t + [h.value] && Fill(keys, record + [line], slot) == Store(keys, h.value, Fill(keys, record, slot))
  {
    var n := |record|;
    assert (record + [line])[..n] == record && (record + [line])[n] == line;
    var hs, h := Hits(keys, record), MatchLine(keys, Content(line));
    if h != None && |hs| < |keys| {
      assert (hs + [h.value])[..|hs|] == hs;
    }
  }

  lemma RecordsSnoc(lines: seq<string>, line: string)
    ensures var r := Records(lines);
            Records(lines + [line]) ==
              if IsBlank(line) then r + [[]] else r[..|r| - 1] + [r[|r| - 1] + [line]]
  {
    assert (lines + [line])[..|lines|] == lines;
  }

  /** A blank line opens the next record and stores nothing. */
  lemma BlankSnoc<S, V>(keys: seq<KeyFinder<S, V>>, initial: seq<S>, lines: seq<string>, line: string)
    requires IsBlank(line)
    ensures |Records(lines + [line])| == |Records(lines)| + 1
    ensures KeysAssigned(keys, lines + [line]) == 0
    ensures Slots(keys, initial, lines + [line]) == Slots(keys, initial, lines)
  {
    RecordsSnoc(lines, line);
  }

  /** Any other line stores at most one value, in the slot of the open record. */
  lemma LineSnoc<S, V>(keys: seq<KeyFinder<S, V>>, initial: seq<S>, lines: seq<string>, line: string)
    requires !IsBlank(line) && |Records(lines)| <= |initial|
    ensures |Records(lines + [line])| == |Records(lines)|
    ensures var h, n, slots := MatchLine(keys, Content(line)), KeysAssigned(keys, lines), Slots(keys, initial, lines);
            var k := |Records(lines)| - 1;
            if h == None || n == |keys| then
              KeysAssigned(keys, lines + [line]) == n && Slots(keys, initial, lines + [line]) == slots
            else
              && KeysAssigned(keys, lines + [line]) == n + 1
              && Slots(keys, initial, lines + [line]) == slots[k := Store(keys, h.value, slots[k])]
  {
    hide MatchLine, Records, Taken;
    RecordsSnoc(lines, line);
    var r := Records(lines);
    TakenSnoc(keys, r[|r| - 1], line, initial[|r| - 1]);
  }

  /** Lines still to come never change a closed record. */
  lemma {:induction false} RecordsPrefix(lines: seq<string>, more: seq<string>)
    ensures var r, s := Records(lines), Records(lines + more);
            |r| <= |s| && forall i :: 0 <= i < |r| - 1 ==> s[i] == r[i]
  {
    if more == [] {
      assert lines + more == lines;
    } else {
      var n := |more| - 1;
      RecordsPrefix(lines, more[..n]);
      assert lines + more == (lines + more[..n]) + [more[n]];
      RecordsSnoc(lines + more[..n], more[n]);
    }
  }

  /** When the last slot is closed, the rest of the file no longer matters. */
  lemma SlotsFinal<S, V>(keys: seq<KeyFinder<S, V>>, initial: seq<S>, lines: seq<string>, more: seq<string>)
    requires |Records(lines)| > |initial|
    ensures |Records(lines + more)| > |initial|
    ensures Slots(keys, initial, lines + more) == Slots(keys, initial, lines)
  {
    RecordsPrefix(lines, more);
  }

  // ---------------------------------------------------------------- nothing is lost

  function Blanks(lines: seq<string>): nat {
    if lines == [] then 0 else Blanks(lines[..|lines| - 1]) + if IsBlank(lines[|lines| - 1]) then 1 else 0
  }

  function NotBlank(lines: seq<string>): seq<string> {
    if lines == [] then []
    else NotBlank(lines[..|lines| - 1]) + if IsBlank(lines[|lines| - 1]) then [] else [lines[|lines| - 1]]
  }

  /** The record number is the number of blank lines seen, and the records are the other lines, all
      of them and in order. */
  lemma {:induction false} RecordsPartition(lines: seq<string>)
    ensures |Records(lines)| == Blanks(lines) + 1
    ensures Flatten(Records(lines)) == NotBlank(lines)
  {
    if lines == [] {
      var open_: seq<string> := [];
      FlattenSnoc([], open_);
      assert [] + [open_] == Records(lines);
    } else {
      var n := |lines| - 1;
      var r := Records(lines[..n]);
      var last := r[|r| - 1];
      RecordsPartition(lines[..n]);
      assert r == r[..|r| - 1] + [last];
      if IsBlank(lines[n]) {
        FlattenSnoc(r, []);
      } else {
        FlattenSnoc(r[..|r| - 1], last);
        FlattenSnoc(r[..|r| - 1], last + [lines[n]]);
      }
    }
  }

  function Join(lines: seq<string>): string {
    if lines == [] then "" else lines[0] + Join(lines[1..])
  }

  /** The lines delivered are a prefix of the text, and all of it unless a line is overlong. */
  lemma {:induction false} LinesCover(text: string) returns (unread: string)
    ensures text == Join(Lines(text)) + unread
    ensures unread == "" || LineLength(unread) >= MAX_PAGE_SIZE
    ensures forall i :: 0 <= i < |Lines(text)| ==> 0 < |Lines(text)[i]| < MAX_PAGE_SIZE
    decreases |text|
  {
    if Readable(text) {
      var n := LineLength(text);
      unread := LinesCover(text[n..]);
      assert text == text[..n] + text[n..];
      assert Lines(text)[1..] == Lines(text[n..]);
      assert text == text[..n] + Join(Lines(text[n..])) + unread;
    } else {
      unread := text;
    }
  }
}
