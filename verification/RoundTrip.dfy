/**
 Printing records as key/delimiter/value lines, with a blank line after each, and reading them
 back with the parser of lib/info_reader.c.
 */
module RoundTrip {
  import opened CStrings
  import opened Wrappers
  import opened RecordSpec
  import opened InfoReader

  function Bare<S, V>(k: KeyFinder<S, V>, v: string): string {
    k.key + k.delimiter + v
  }

  function PrintLine<S, V>(k: KeyFinder<S, V>, v: string): string {
    Bare(k, v) + "\n"
  }

  function PrintRecord<S, V>(keys: seq<KeyFinder<S, V>>, values: seq<string>): (lines: seq<string>)
    requires |values| == |keys|
    ensures |lines| == |keys|
  {
    seq(|keys|, i requires 0 <= i < |keys| => PrintLine(keys[i], values[i]))
  }

  predicate Shaped<S, V>(keys: seq<KeyFinder<S, V>>, records: seq<seq<string>>) {
    forall r :: 0 <= r < |records| ==> |records[r]| == |keys|
  }

  function PrintLines<S, V>(keys: seq<KeyFinder<S, V>>, records: seq<seq<string>>): seq<string>
    requires Shaped(keys, records)
  {
    if records == [] then []
    else
      var n := |records| - 1;
      PrintLines(keys, records[..n]) + PrintRecord(keys, records[n]) + ["\n"]
  }

  function Print<S, V>(keys: seq<KeyFinder<S, V>>, records: seq<seq<string>>): string
    requires Shaped(keys, records)
  {
    Join(PrintLines(keys, records))
  }

  // ---------------------------------------------------------------- one line

  /** Short, on one line, and cut by a real delimiter. */
  predicate Plain<S, V>(k: KeyFinder<S, V>, v: string) {
    var line := Bare(k, v);
    '\n' !in line && '\0' !in line && |line| + 1 < MAX_PAGE_SIZE && k.delimiter != ""
  }

  /** The parser can tell the line of key i from the lines of the other keys. */
  predicate Distinct<S, V>(keys: seq<KeyFinder<S, V>>, i: nat, v: string)
    requires i < |keys|
  {
    var line := Bare(keys[i], v);
    && (forall j :: 0 <= j < i ==> !StartsWith(keys[j].key, line))
    && FindText(line, keys[i].delimiter) == Some(|keys[i].key|)
  }

  lemma FirstKeyIs<S, V>(keys: seq<KeyFinder<S, V>>, line: string, i: nat)
    requires i < |keys|
    ensures FirstKey(keys, line) == i <==>
              StartsWith(keys[i].key, line) && forall j :: 0 <= j < i ==> !StartsWith(keys[j].key, line)
  {
    if i > 0 {
      FirstKeyIs(keys[1..], line, i - 1);
      assert forall j :: 0 <= j < i - 1 ==> keys[1..][j] == keys[j + 1];
      if FirstKey(keys, line) != i && !StartsWith(keys[0].key, line) && StartsWith(keys[i].key, line) {
        var j :| 0 <= j < i - 1 && StartsWith(keys[1..][j].key, line);
        assert StartsWith(keys[j + 1].key, line);
      }
    }
  }

  lemma ContentOfPrinted(line: string)
    requires '\n' !in line && '\0' !in line
    ensures Content(line + "\n") == line
  {
    var l := line + "\n";
    FindAppend(line, "\n", '\0');
    assert Find("\n", '\0') == 1;
    assert Find(l, '\0') == |l| && l[..|l|] == l;
    FindAppend(line, "\n", '\n');
  }

  /** A printed line gives back its key and its value if and only if no earlier key is a prefix of
      the line and the delimiter first occurs right after the key. */
  lemma LineReadsBack<S, V>(keys: seq<KeyFinder<S, V>>, i: nat, v: string)
    requires i < |keys| && Plain(keys[i], v)
    ensures MatchLine(keys, Content(PrintLine(keys[i], v))) == Some(Hit(i, v)) <==> Distinct(keys, i, v)
  {
    var line, d := Bare(keys[i], v), keys[i].delimiter;
    ContentOfPrinted(line);
    FirstKeyIs(keys, line, i);
    assert StartsWith(keys[i].key, line);
    if FirstKey(keys, line) == i {
      match FindText(line, d)
      case None =>
      case Some(f) =>
        assert line[|keys[i].key| + |d|..] == v;
        if line[f + |d|..] == v {
          assert |line[f + |d|..]| == |line| - f - |d|;
        }
    }
  }

  // ---------------------------------------------------------------- lines of a text

  predicate IsLine(line: string) {
    0 < |line| < MAX_PAGE_SIZE && Find(line, '\n') == |line| - 1
  }

  lemma {:induction false} LinesJoin(lines: seq<string>)
    requires forall i :: 0 <= i < |lines| ==> IsLine(lines[i])
    ensures Lines(Join(lines)) == lines
  {
    if lines != [] {
      var head, tail := lines[0], Join(lines[1..]);
      assert IsLine(lines[0]);
      FindAppend(head, tail, '\n');
      assert LineLength(head + tail) == |head|;
      assert (head + tail)[..|head|] == head && (head + tail)[|head|..] == tail;
      LinesJoin(lines[1..]);
    }
  }

  lemma PrintedIsLine<S, V>(k: KeyFinder<S, V>, v: string)
    requires Plain(k, v)
    ensures IsLine(PrintLine(k, v)) && !IsBlank(PrintLine(k, v))
  {
    FindAppend(Bare(k, v), "\n", '\n');
    assert Find(Bare(k, v), '\n') == |Bare(k, v)|;
  }

  // ---------------------------------------------------------------- records

  lemma {:induction false} OpenRecord(lines: seq<string>, more: seq<string>)
    requires forall i :: 0 <= i < |more| ==> !IsBlank(more[i])
    ensures var r := Records(lines); Records(lines + more) == r[..|r| - 1] + [r[|r| - 1] + more]
  {
    hide Records, IsBlank;
    var r := Records(lines);
    if more == [] {
      assert lines + more == lines && r[|r| - 1] + more == r[|r| - 1];
    } else {
      var n := |more| - 1;
      OpenRecord(lines, more[..n]);
      RecordsSnoc(lines + more[..n], more[n]);
      assert lines + more == lines + more[..n] + [more[n]];
      var open_ := r[|r| - 1] + more[..n];
      assert (r[..|r| - 1] + [open_])[..|r| - 1] == r[..|r| - 1];
      assert r[|r| - 1] + more == open_ + [more[n]];
    }
  }

  /** Every line of the record can be read back. */
  predicate LegibleRecord<S, V>(keys: seq<KeyFinder<S, V>>, values: seq<string>) {
    && |values| == |keys|
    && forall i :: 0 <= i < |keys| ==> Plain(keys[i], values[i]) && Distinct(keys, i, values[i])
  }

  predicate Legible<S, V>(keys: seq<KeyFinder<S, V>>, records: seq<seq<string>>)
    ensures Legible(keys, records) ==> Shaped(keys, records)
  {
    forall r :: 0 <= r < |records| ==> LegibleRecord(keys, records[r])
  }

  function PrintRecords<S, V>(keys: seq<KeyFinder<S, V>>, records: seq<seq<string>>): seq<seq<string>>
    requires Shaped(keys, records)
  {
    seq(|records|, r requires 0 <= r < |records| => PrintRecord(keys, records[r]))
  }

  lemma RecordIsLines<S, V>(keys: seq<KeyFinder<S, V>>, values: seq<string>)
    requires LegibleRecord(keys, values)
    ensures forall i :: 0 <= i < |keys| ==>
              IsLine(PrintRecord(keys, values)[i]) && !IsBlank(PrintRecord(keys, values)[i])
  {
    forall i | 0 <= i < |keys|
      ensures IsLine(PrintRecord(keys, values)[i]) && !IsBlank(PrintRecord(keys, values)[i])
    {
      PrintedIsLine(keys[i], values[i]);
    }
  }

  lemma {:induction false} PrintedLines<S, V>(keys: seq<KeyFinder<S, V>>, records: seq<seq<string>>)
    requires Legible(keys, records)
    ensures forall i :: 0 <= i < |PrintLines(keys, records)| ==> IsLine(PrintLines(keys, records)[i])
  {
    hide IsLine, IsBlank, PrintRecord, LegibleRecord;
    if records != [] {
      var n := |records| - 1;
      PrintedLines(keys, records[..n]);
      RecordIsLines(keys, records[n]);
      assert IsLine("\n") by {
        NewlineIsLine();
      }
    }
  }

  lemma NewlineIsLine()
    ensures IsLine("\n")
  {
  }

  /** One more printed record, and its blank line. */
  lemma PrintedSnoc<S, V>(keys: seq<KeyFinder<S, V>>, values: seq<string>, lines: seq<string>, closed: seq<seq<string>>)
    requires LegibleRecord(keys, values)
    requires Records(lines) == closed + [[]]
    ensures Records(lines + PrintRecord(keys, values) + ["\n"]) == closed + [PrintRecord(keys, values)] + [[]]
  {
    hide Records, PrintRecord;
    var last := PrintRecord(keys, values);
    RecordIsLines(keys, values);
    OpenRecord(lines, last);
    assert (closed + [[]])[..|closed|] == closed && [] + last == last;
    RecordsSnoc(lines + last, "\n");
  }

  lemma {:induction false} PrintedRecords<S, V>(keys: seq<KeyFinder<S, V>>, records: seq<seq<string>>)
    requires Legible(keys, records)
    ensures Records(PrintLines(keys, records)) == PrintRecords(keys, records) + [[]]
  {
    hide PrintRecord, LegibleRecord;
    if records != [] {
      var n := |records| - 1;
      PrintedRecords(keys, records[..n]);
      PrintedSnoc(keys, records[n], PrintLines(keys, records[..n]), PrintRecords(keys, records[..n]));
      assert PrintRecords(keys, records) == PrintRecords(keys, records[..n]) + [PrintRecord(keys, records[n])];
    }
  }

  // ---------------------------------------------------------------- slots

  /** One hit for each key, in the order of the keys. */
  function AllHits(values: seq<string>, n: nat): (hs: seq<Hit>)
    requires n <= |values|
    ensures |hs| == n && forall i :: 0 <= i < n ==> hs[i].index == i
  {
    seq(n, i requires 0 <= i < n => Hit(i, values[i]))
  }

  lemma {:induction false} PrintedHits<S, V>(keys: seq<KeyFinder<S, V>>, values: seq<string>, n: nat)
    requires LegibleRecord(keys, values) && n <= |keys|
    ensures Hits(keys, PrintRecord(keys, values)[..n]) == AllHits(values, n)
  {
    hide MatchLine, Content, Plain, Distinct;
    if n > 0 {
      var record := PrintRecord(keys, values);
      PrintedHits(keys, values, n - 1);
      LineReadsBack(keys, n - 1, values[n - 1]);
      assert record[..n][..n - 1] == record[..n - 1];
      assert AllHits(values, n) == AllHits(values, n - 1) + [Hit(n - 1, values[n - 1])];
    }
  }

  lemma PrintedFill<S, V>(keys: seq<KeyFinder<S, V>>, values: seq<string>, slot: S)
    requires LegibleRecord(keys, values)
    ensures Fill(keys, PrintRecord(keys, values), slot) == StoreAll(keys, AllHits(values, |keys|), slot)
  {
    PrintedHits(keys, values, |keys|);
    assert PrintRecord(keys, values)[..|keys|] == PrintRecord(keys, values);
  }

  /** The slots that hold the printed records. */
  function Stored<S, V>(keys: seq<KeyFinder<S, V>>, records: seq<seq<string>>, initial: seq<S>): seq<S>
    requires Shaped(keys, records)
  {
    seq(|initial|, r requires 0 <= r < |initial| =>
      if r < |records| then StoreAll(keys, AllHits(records[r], |keys|), initial[r]) else initial[r])
  }

  /** Reading back what was printed: every record in its slot, in order, and nothing else. */
  lemma ReadsBack<S, V>(keys: seq<KeyFinder<S, V>>, records: seq<seq<string>>, initial: seq<S>)
    requires Legible(keys, records)
    ensures var lines := Lines(Print(keys, records));
            && |Records(lines)| == |records| + 1
            && KeysAssigned(keys, lines) == 0
            && Slots(keys, initial, lines) == Stored(keys, records, initial)
  {
    hide Records, Lines, Fill, PrintRecord, LegibleRecord, Taken, StoreAll, PrintLines, Join;
    PrintedRecords(keys, records);
    PrintedLines(keys, records);
    LinesJoin(PrintLines(keys, records));
    assert Taken(keys, []) == [] by {
      NothingTaken(keys);
    }
    forall r, slot | 0 <= r < |records|
      ensures Fill(keys, PrintRecord(keys, records[r]), slot) == StoreAll(keys, AllHits(records[r], |keys|), slot)
    {
      PrintedFill(keys, records[r], slot);
    }
    forall i | |records| <= i < |initial|
      ensures Fill(keys, [], initial[i]) == initial[i]
    {
      FillNothing(keys, initial[i]);
    }
  }

  lemma NothingTaken<S, V>(keys: seq<KeyFinder<S, V>>)
    ensures Taken(keys, []) == []
  {
  }

  lemma FillNothing<S, V>(keys: seq<KeyFinder<S, V>>, slot: S)
    ensures Fill(keys, [], slot) == slot
  {
  }

  ghost predicate Puts<V>(k: KeyFinder<seq<V>, V>, s: seq<V>, i: nat, v: V)
    requires i < |s|
  {
    k.put(s, v) == s[i := v]
  }

  lemma PutsIs<V>(k: KeyFinder<seq<V>, V>, s: seq<V>, i: nat, v: V)
    requires i < |s| && Puts(k, s, i, v)
    ensures k.put(s, v) == s[i := v]
  {
  }

  /** With one setter for each position, a slot ends up holding exactly the record's values. */
  lemma {:induction false} PositionalStore<V>(keys: seq<KeyFinder<seq<V>, V>>, values: seq<string>, slot: seq<V>, n: nat)
    requires n <= |keys| == |values| == |slot|
    requires forall i, s: seq<V>, v :: 0 <= i < |keys| && |s| == |keys| ==> Puts(keys[i], s, i, v)
    ensures StoreAll(keys, AllHits(values, n), slot)
         == seq(n, i requires 0 <= i < n => keys[i].copy(values[i])) + slot[n..]
  {
    hide Puts, Store, StoreAll, AllHits;
    if n == 0 {
      NoHits(keys, values, slot);
    } else {
      PositionalStore(keys, values, slot, n - 1);
      var before := StoreAll(keys, AllHits(values, n - 1), slot);
      var v := keys[n - 1].copy(values[n - 1]);
      assert Puts(keys[n - 1], before, n - 1, v);
      NextHit(keys, values, slot, n);
      PutsIs(keys[n - 1], before, n - 1, v);
    }
  }

  lemma NoHits<S, V>(keys: seq<KeyFinder<S, V>>, values: seq<string>, slot: S)
    ensures AllHits(values, 0) == [] && StoreAll(keys, AllHits(values, 0), slot) == slot
  {
  }

  lemma NextHit<S, V>(keys: seq<KeyFinder<S, V>>, values: seq<string>, slot: S, n: nat)
    requires 0 < n <= |keys| == |values|
    ensures StoreAll(keys, AllHits(values, n), slot)
         == keys[n - 1].put(StoreAll(keys, AllHits(values, n - 1), slot), keys[n - 1].copy(values[n - 1]))
  {
    assert AllHits(values, n)[..n - 1] == AllHits(values, n - 1);
  }

  /** The round trip through the parser itself. */
  method ReadPrinted<S, V>(keys: seq<KeyFinder<S, V>>, records: seq<seq<string>>, storage: array<S>)
    returns (ended: bool, nb_stored: nat)
    requires Legible(keys, records) && |records| <= storage.Length && storage.Length > 0
    modifies storage
    ensures storage[..] == Stored(keys, records, old(storage[..]))
    ensures nb_stored == |records|
    ensures !ended <==> |records| == storage.Length
  {
    var file := new Stream(Print(keys, records));
    var parser := new Parser(storage, keys, file);
    ReadsBack(keys, records, storage[..]);
    ended := parser.Parse();
    nb_stored := parser.nb_stored;
  }
}
