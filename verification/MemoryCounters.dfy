/**
 src/memory_counters.c: the requested counters are looked up in /proc/meminfo with the parser of
 lib/info_reader.c, with one slot and one key for each requested name.

 The parser matches by prefix and stops looking after as many assignments as there are keys.
 LookupIsExact says when this is nevertheless a lookup by name.
 */
module MemoryCounters {
  import opened CStrings
  import opened Wrappers
  import opened RecordSpec
  import opened InfoReader
  import opened RoundTrip

  type Key = KeyFinder<seq<int>, int>

  /** set_result_offset<i> (generated by src/memory_option.sh). */
  function SetResultOffset(i: nat): (seq<int>, int) -> seq<int> {
    (results: seq<int>, data: int) => if i < |results| then results[i := data] else results
  }

  /** The keys that build_keyfinder makes out of the requested names. */
  function Keys(names: seq<string>, atol: string -> int): (keys: seq<Key>)
    ensures |keys| == |names|
  {
    seq(|names|, i requires 0 <= i < |names| => KeyFinder(names[i], ":", atol, SetResultOffset(i)))
  }

  method BuildKeyfinder(names: seq<string>, atol: string -> int) returns (keys: seq<Key>)
    ensures keys == Keys(names, atol)
  {
    keys := [];
    for i := 0 to |names|
      invariant keys == Keys(names, atol)[..i]
    {
      keys := keys + [KeyFinder(names[i], ":", atol, SetResultOffset(i))];
    }
  }

  // ---------------------------------------------------------------- the file

  /** A line of the file is name, colon, value. */
  predicate Proper(name: string, value: string) {
    && ':' !in name && '\n' !in name && '\0' !in name
    && '\n' !in value && '\0' !in value
    && 0 < |name + ":" + value| + 1 < MAX_PAGE_SIZE
  }

  function FileLine(name: string, value: string): string {
    name + ":" + value + "\n"
  }

  function FileLines(file: seq<string>, values: seq<string>): seq<string>
    requires |file| == |values|
  {
    seq(|file|, j requires 0 <= j < |file| => FileLine(file[j], values[j]))
  }

  predicate ProperFile(file: seq<string>, values: seq<string>) {
    && |file| == |values|
    && forall j :: 0 <= j < |file| ==> Proper(file[j], values[j])
  }

  predicate AllDistinct(names: seq<string>) {
    forall i, j :: 0 <= i < j < |names| ==> names[i] != names[j]
  }

  // ---------------------------------------------------------------- which line feeds which key

  datatype Feed = Feed(key: nat, line: nat)

  /** The first requested name that prefixes the file's name, |names| if none. */
  function FirstPrefix(names: seq<string>, name: string): (k: nat)
    ensures k <= |names|
    ensures k < |names| ==> StartsWith(names[k], name)
  {
    if names == [] || StartsWith(names[0], name) then 0 else 1 + FirstPrefix(names[1..], name)
  }

  /** The matching lines among the first n, whatever their values. */
  function Feeds(names: seq<string>, file: seq<string>, n: nat): (fs: seq<Feed>)
    requires n <= |file|
    ensures forall f :: f in fs ==> f.key < |names| && f.line < n
  {
    if n == 0 then []
    else
      var k := FirstPrefix(names, file[n - 1]);
      Feeds(names, file, n - 1) + if k == |names| then [] else [Feed(k, n - 1)]
  }

  /** The parser takes as many as there are names. */
  function TakenFeeds(names: seq<string>, file: seq<string>): (fs: seq<Feed>)
    ensures |fs| <= |names|
    ensures forall f :: f in fs ==> f.key < |names| && f.line < |file|
  {
    var fs := Feeds(names, file, |file|);
    if |fs| <= |names| then fs else fs[..|names|]
  }

  /** Every line taken is the line of the counter it is stored for. */
  predicate OwnLines(names: seq<string>, file: seq<string>) {
    forall f :: f in TakenFeeds(names, file) ==> names[f.key] == file[f.line]
  }

  /** The last line stored for key i. */
  function LastLine(fs: seq<Feed>, i: nat): (j: Option<nat>)
    ensures j.Some? ==> Feed(i, j.value) in fs
    ensures j == None ==> forall f :: f in fs ==> f.key != i
  {
    if fs == [] then None
    else if fs[|fs| - 1].key == i then Some(fs[|fs| - 1].line)
    else LastLine(fs[..|fs| - 1], i)
  }

  // ---------------------------------------------------------------- the parser's hits are the feeds

  lemma PrefixBeforeColon(prefix: string, name: string, value: string)
    requires ':' !in prefix
    ensures StartsWith(prefix, name + ":" + value) <==> StartsWith(prefix, name)
  {
    var line := name + ":" + value;
    if |prefix| <= |name| {
      assert line[..|prefix|] == name[..|prefix|];
    } else {
      if |prefix| <= |line| {
        assert line[..|prefix|][|name|] == ':';
      }
    }
  }

  lemma FirstKeyIsFirstPrefix(keys: seq<Key>, names: seq<string>, name: string, value: string)
    requires |keys| == |names| && forall i :: 0 <= i < |names| ==> keys[i].key == names[i] && ':' !in names[i]
    ensures FirstKey(keys, name + ":" + value) == FirstPrefix(names, name)
  {
    if names != [] {
      PrefixBeforeColon(names[0], name, value);
      FirstKeyIsFirstPrefix(keys[1..], names[1..], name, value);
    }
  }

  lemma ColonCut(name: string, value: string)
    requires ':' !in name
    ensures FindText(name + ":" + value, ":") == Some(|name|)
    ensures (name + ":" + value)[|name| + 1..] == value
    decreases |name|
  {
    var line := name + ":" + value;
    if name != "" {
      ColonCut(name[1..], value);
      assert line[1..] == name[1..] + ":" + value;
      assert name[0] in name;
      assert line[..1] == [name[0]];
    } else {
      assert line[..1] == ":";
    }
  }

  lemma FileLineMatch(names: seq<string>, atol: string -> int, name: string, value: string)
    requires Proper(name, value) && forall i :: 0 <= i < |names| ==> ':' !in names[i]
    ensures var k := FirstPrefix(names, name);
            MatchLine(Keys(names, atol), Content(FileLine(name, value)))
              == if k == |names| then None else Some(Hit(k, value))
  {
    ContentOfPrinted(name + ":" + value);
    FirstKeyIsFirstPrefix(Keys(names, atol), names, name, value);
    ColonCut(name, value);
  }

  function HitOf(f: Feed, values: seq<string>): Hit
    requires f.line < |values|
  {
    Hit(f.key, values[f.line])
  }

  function HitsOf(fs: seq<Feed>, values: seq<string>): (hs: seq<Hit>)
    requires forall f :: f in fs ==> f.line < |values|
    ensures |hs| == |fs|
  {
    seq(|fs|, i requires 0 <= i < |fs| => HitOf(fs[i], values))
  }

  lemma {:induction false} HitsAreFeeds(names: seq<string>, atol: string -> int, file: seq<string>,
                                        values: seq<string>, n: nat)
    requires ProperFile(file, values) && n <= |file| && forall i :: 0 <= i < |names| ==> ':' !in names[i]
    ensures Hits(Keys(names, atol), FileLines(file, values)[..n]) == HitsOf(Feeds(names, file, n), values)
  {
    hide MatchLine, Content, FirstPrefix, Proper, Keys, FileLine;
    if n > 0 {
      HitsAreFeeds(names, atol, file, values, n - 1);
      FileLineMatch(names, atol, file[n - 1], values[n - 1]);
      var lines, k := FileLines(file, values), FirstPrefix(names, file[n - 1]);
      assert lines[..n][..n - 1] == lines[..n - 1] && lines[..n][n - 1] == FileLine(file[n - 1], values[n - 1]);
      if k < |names| {
        assert HitsOf([Feed(k, n - 1)], values) == [Hit(k, values[n - 1])];
      }
      assert HitsOf(Feeds(names, file, n), values)
          == HitsOf(Feeds(names, file, n - 1), values)
             + if k == |names| then [] else [Hit(k, values[n - 1])];
    }
  }

  lemma TakenAreFeeds(names: seq<string>, atol: string -> int, file: seq<string>, values: seq<string>)
    requires ProperFile(file, values) && forall i :: 0 <= i < |names| ==> ':' !in names[i]
    ensures Taken(Keys(names, atol), FileLines(file, values)) == HitsOf(TakenFeeds(names, file), values)
  {
    HitsAreFeeds(names, atol, file, values, |file|);
    var lines := FileLines(file, values);
    assert lines[..|file|] == lines;
  }

  // ---------------------------------------------------------------- the stored values

  /** What is in result i after the feeds were stored one after the other. */
  function Value(fs: seq<Feed>, values: seq<string>, atol: string -> int, initial: seq<int>, i: nat): int
    requires i < |initial| && forall f :: f in fs ==> f.line < |values|
  {
    var j := LastLine(fs, i);
    if j == None then initial[i] else atol(values[j.value])
  }

  lemma {:induction false} StoredValues(names: seq<string>, atol: string -> int, fs: seq<Feed>,
                                        values: seq<string>, initial: seq<int>)
    requires |initial| == |names|
    requires forall f :: f in fs ==> f.key < |names| && f.line < |values|
    ensures var stored := StoreAll(Keys(names, atol), HitsOf(fs, values), initial);
            |stored| == |names|
            && forall i :: 0 <= i < |names| ==> stored[i] == Value(fs, values, atol, initial, i)
  {
    if fs != [] {
      var n := |fs| - 1;
      assert fs[n] in fs;
      StoredValues(names, atol, fs[..n], values, initial);
      assert HitsOf(fs, values)[..n] == HitsOf(fs[..n], values);
      var before := StoreAll(Keys(names, atol), HitsOf(fs[..n], values), initial);
      var after := StoreAll(Keys(names, atol), HitsOf(fs, values), initial);
      assert after == before[fs[n].key := atol(values[fs[n].line])];
      forall i | 0 <= i < |names|
        ensures after[i] == Value(fs, values, atol, initial, i)
      {
        assert before[i] == Value(fs[..n], values, atol, initial, i);
      }
    }
  }

  /** The results of one poll. */
  function Polled(names: seq<string>, file: seq<string>, values: seq<string>, atol: string -> int,
                  initial: seq<int>): (r: seq<int>)
    requires |initial| == |names| && |file| == |values|
    ensures |r| == |names|
  {
    var fs := TakenFeeds(names, file);
    seq(|names|, i requires 0 <= i < |names| => Value(fs, values, atol, initial, i))
  }

  lemma FileIsLines(file: seq<string>, values: seq<string>)
    requires ProperFile(file, values)
    ensures Lines(Join(FileLines(file, values))) == FileLines(file, values)
    ensures Records(FileLines(file, values)) == [FileLines(file, values)]
  {
    var lines := FileLines(file, values);
    forall j | 0 <= j < |lines|
      ensures IsLine(lines[j]) && !IsBlank(lines[j])
    {
      var bare := file[j] + ":" + values[j];
      assert Proper(file[j], values[j]);
      FindAppend(bare, "\n", '\n');
      assert Find(bare, '\n') == |bare|;
    }
    LinesJoin(lines);
    OpenRecord([], lines);
    assert [] + lines == lines;
  }

  /** get_memory_counters: rewind, and parse into the results as the only slot. */
  method GetMemoryCounters(names: seq<string>, keys: seq<Key>, atol: string -> int, results: array<seq<int>>,
                           ghost file: seq<string>, ghost values: seq<string>, text: string)
    requires keys == Keys(names, atol) && forall i :: 0 <= i < |names| ==> ':' !in names[i]
    requires results.Length == 1 && |results[0]| == |names|
    requires ProperFile(file, values) && text == Join(FileLines(file, values))
    modifies results
    ensures results[0] == Polled(names, file, values, atol, old(results[0]))
  {
    hide Taken, Records, Lines, Join;
    var stream := new Stream(text);
    var parser := new Parser(results, keys, stream);
    ghost var initial := results[..];
    FileIsLines(file, values);
    TakenAreFeeds(names, atol, file, values);
    StoredValues(names, atol, TakenFeeds(names, file), values, initial[0]);
    var ended := parser.Parse();
    assert results[0] == Fill(keys, FileLines(file, values), initial[0]);
  }

  /** label_memory_counters. */
  method LabelMemoryCounters(keys: seq<Key>, labels: array<string>, ghost names: seq<string>, ghost atol: string -> int)
    requires keys == Keys(names, atol) && labels.Length == |keys|
    modifies labels
    ensures labels[..] == names
  {
    for i := 0 to |keys|
      invariant labels[..i] == names[..i]
    {
      labels[i] := keys[i].key;
    }
  }

  // ---------------------------------------------------------------- a lookup by name

  /** The requested counters are all in the file, which repeats no name. */
  predicate Answerable(names: seq<string>, file: seq<string>) {
    AllDistinct(file) && forall i :: 0 <= i < |names| ==> names[i] in file
  }

  function LineOf(file: seq<string>, name: string): (j: nat)
    requires name in file
    ensures j < |file| && file[j] == name
  {
    if file[0] == name then 0 else 1 + LineOf(file[1..], name)
  }

  /** Result i is the value of the i-th requested counter. */
  predicate Correct(names: seq<string>, file: seq<string>, values: seq<string>, atol: string -> int, initial: seq<int>)
    requires Answerable(names, file) && |initial| == |names| && |file| == |values|
  {
    Polled(names, file, values, atol, initial)
      == seq(|names|, i requires 0 <= i < |names| => atol(values[LineOf(file, names[i])]))
  }

  lemma FirstPrefixFinds(names: seq<string>, i: nat)
    requires i < |names|
    ensures FirstPrefix(names, names[i]) <= i
  {
    if i > 0 && !StartsWith(names[0], names[i]) {
      FirstPrefixFinds(names[1..], i - 1);
    }
  }

  lemma FeedsLine(names: seq<string>, file: seq<string>, n: nat, j: nat)
    requires j < n <= |file| && FirstPrefix(names, file[j]) < |names|
    ensures Feed(FirstPrefix(names, file[j]), j) in Feeds(names, file, n)
  {
    if j < n - 1 {
      FeedsLine(names, file, n - 1, j);
    }
  }

  ghost predicate Ordered(fs: seq<Feed>) {
    forall a, b :: 0 <= a < b < |fs| ==> fs[a].line < fs[b].line
  }

  lemma FeedsOrdered(names: seq<string>, file: seq<string>, n: nat)
    requires n <= |file|
    ensures Ordered(Feeds(names, file, n))
  {
    if n > 0 {
      FeedsOrdered(names, file, n - 1);
      var before := Feeds(names, file, n - 1);
      assert forall a :: 0 <= a < |before| ==> before[a] in before;
    }
  }

  ghost function KeySet(fs: seq<Feed>): set<nat> {
    set f | f in fs :: f.key
  }

  lemma {:induction false} KeySetSize(fs: seq<Feed>)
    ensures |KeySet(fs)| <= |fs|
    ensures (forall a, b :: 0 <= a < b < |fs| ==> fs[a].key != fs[b].key) ==> |KeySet(fs)| == |fs|
  {
    if fs == [] {
      assert KeySet(fs) == {};
    } else {
      var n := |fs| - 1;
      KeySetSize(fs[..n]);
      assert forall f :: f in fs <==> f in fs[..n] || f == fs[n];
      assert KeySet(fs) == KeySet(fs[..n]) + {fs[n].key};
    }
  }

  /** The key indices below n. */
  ghost function UpTo(n: nat): (s: set<nat>)
    ensures |s| == n && forall i: nat :: i in s <==> i < n
  {
    if n == 0 then {}
    else
      var s := UpTo(n - 1);
      assert n - 1 !in s;
      s + {n - 1}
  }

  /** As many different keys as there are names are all the keys. */
  lemma AllKeys(fs: seq<Feed>, n: nat, i: nat)
    requires forall f :: f in fs ==> f.key < n
    requires |KeySet(fs)| >= n && i < n
    ensures i in KeySet(fs)
  {
    if i !in KeySet(fs) {
      SubsetSize(KeySet(fs), UpTo(n) - {i});
      assert false;
    }
  }

  lemma {:induction false} SubsetSize(a: set<nat>, b: set<nat>)
    requires a <= b
    ensures |a| <= |b|
  {
    if a != {} {
      var x :| x in a;
      SubsetSize(a - {x}, b - {x});
    }
  }

  lemma OwnKeysDiffer(names: seq<string>, file: seq<string>)
    requires AllDistinct(names) && AllDistinct(file) && OwnLines(names, file)
    ensures var fs := TakenFeeds(names, file); forall a, b :: 0 <= a < b < |fs| ==> fs[a].key != fs[b].key
  {
    var fs, all := TakenFeeds(names, file), Feeds(names, file, |file|);
    FeedsOrdered(names, file, |file|);
    forall a, b | 0 <= a < b < |fs|
      ensures fs[a].key != fs[b].key
    {
      assert fs[a] in fs && fs[b] in fs;
      assert all[a].line < all[b].line;
    }
  }

  /** If every line taken is an own line, some line is taken for every requested counter. */
  lemma OwnLinesServeAll(names: seq<string>, file: seq<string>, i: nat)
    requires AllDistinct(names) && Answerable(names, file) && OwnLines(names, file) && i < |names|
    ensures i in KeySet(TakenFeeds(names, file))
  {
    hide LastLine;
    var fs, all := TakenFeeds(names, file), Feeds(names, file, |file|);
    if |all| <= |names| {
      var j := LineOf(file, names[i]);
      FirstPrefixFinds(names, i);
      FeedsLine(names, file, |file|, j);
      assert Feed(FirstPrefix(names, file[j]), j) in fs;
    } else {
      hide Feeds, FirstPrefix;
      OwnKeysDiffer(names, file);
      KeySetSize(fs);
      AllKeys(fs, |names|, i);
    }
  }

  /** If every line taken is an own line, every requested counter got its line. */
  lemma OwnLinesSuffice(names: seq<string>, file: seq<string>, i: nat)
    requires AllDistinct(names) && Answerable(names, file) && OwnLines(names, file) && i < |names|
    ensures LastLine(TakenFeeds(names, file), i) == Some(LineOf(file, names[i]))
  {
    hide TakenFeeds, LastLine, LineOf;
    OwnLinesServeAll(names, file, i);
    var fs := TakenFeeds(names, file);
    var f :| f in fs && f.key == i;
    assert LastLine(fs, i) != None;
  }

  /** If every requested counter got its line, a foreign line leaves fewer keys than counters. */
  lemma NoForeignLine(names: seq<string>, file: seq<string>, fs: seq<Feed>, a: nat)
    requires Answerable(names, file) && |fs| <= |names| && a < |fs|
    requires fs[a].key < |names| && fs[a].line < |file| && names[fs[a].key] != file[fs[a].line]
    ensures exists k: nat :: k < |names| && LastLine(fs, k) != Some(LineOf(file, names[k]))
  {
    hide LineOf, LastLine, AllDistinct;
    var rest := fs[..a] + fs[a + 1..];
    KeySetSize(rest);
    if forall k: nat :: k < |names| ==> LastLine(fs, k) == Some(LineOf(file, names[k])) {
      forall k: nat | k < |names|
        ensures k in KeySet(rest)
      {
        var g := Feed(k, LineOf(file, names[k]));
        InRest(fs, a, g);
        assert g.key == k;
      }
      SubsetSize(UpTo(|names|), KeySet(rest));
      assert false;
    }
  }

  lemma InRest(fs: seq<Feed>, a: nat, g: Feed)
    requires a < |fs| && g in fs && g != fs[a]
    ensures g in fs[..a] + fs[a + 1..]
  {
    var b :| 0 <= b < |fs| && fs[b] == g;
    assert if b < a then fs[..a][b] == g else fs[a + 1..][b - a - 1] == g;
  }

  /** If some line taken is not an own line, some requested counter did not get its line. */
  lemma ForeignLineStarves(names: seq<string>, file: seq<string>) returns (i: nat)
    requires Answerable(names, file) && !OwnLines(names, file)
    ensures i < |names| && LastLine(TakenFeeds(names, file), i) != Some(LineOf(file, names[i]))
  {
    hide TakenFeeds, LineOf, LastLine, AllDistinct;
    var fs := TakenFeeds(names, file);
    var f :| f in fs && names[f.key] != file[f.line];
    var a :| 0 <= a < |fs| && fs[a] == f;
    NoForeignLine(names, file, fs, a);
    i :| 0 <= i < |names| && LastLine(fs, i) != Some(LineOf(file, names[i]));
  }

  /** A name that is requested again is never fed: the first copy takes its lines, and the result of
      the later copy keeps its initial value. */
  lemma RepeatedNameStarves(names: seq<string>, file: seq<string>, values: seq<string>, atol: string -> int,
                            initial: seq<int>, k: nat, i: nat)
    requires k < i < |names| == |initial| && |file| == |values| && names[k] == names[i]
    ensures Polled(names, file, values, atol, initial)[i] == initial[i]
  {
    RepeatNotFed(names, file, |file|, k, i);
  }

  lemma RepeatNotFed(names: seq<string>, file: seq<string>, n: nat, k: nat, i: nat)
    requires n <= |file| && k < i < |names| && names[k] == names[i]
    ensures forall f :: f in Feeds(names, file, n) ==> f.key != i
  {
    if n > 0 {
      RepeatNotFed(names, file, n - 1, k, i);
      FirstPrefixNotLater(names, file[n - 1], k, i);
    }
  }

  lemma FirstPrefixNotLater(names: seq<string>, name: string, k: nat, i: nat)
    requires k < i < |names| && names[k] == names[i]
    ensures FirstPrefix(names, name) != i
  {
    if k > 0 {
      FirstPrefixNotLater(names[1..], name, k - 1, i - 1);
    }
  }

  /** A file on which result i is wrong: its own line shows 1, all others 0. */
  lemma WrongResult(names: seq<string>, file: seq<string>, i: nat)
    returns (values: seq<string>, atol: string -> int, initial: seq<int>)
    requires AllDistinct(names) && Answerable(names, file) && i < |names|
    requires LastLine(TakenFeeds(names, file), i) != Some(LineOf(file, names[i]))
    ensures |values| == |file| && |initial| == |names| && !Correct(names, file, values, atol, initial)
  {
    var j := LineOf(file, names[i]);
    values := seq(|file|, l => if l == j then "1" else "0");
    atol := (s: string) => if s == "1" then 1 else 0;
    initial := seq(|names|, _ => 0);
    hide TakenFeeds, LineOf, LastLine;
    assert Polled(names, file, values, atol, initial)[i] == 0;
    DiffersAt(names, file, values, atol, initial, i);
  }

  /** A file on which a repeated name keeps its initial value. */
  lemma WrongRepeat(names: seq<string>, file: seq<string>)
    returns (values: seq<string>, atol: string -> int, initial: seq<int>)
    requires !AllDistinct(names) && Answerable(names, file)
    ensures |values| == |file| && |initial| == |names| && !Correct(names, file, values, atol, initial)
  {
    hide TakenFeeds, LineOf, LastLine, Polled;
    var k, i :| 0 <= k < i < |names| && names[k] == names[i];
    values := seq(|file|, _ => "1");
    atol := (s: string) => 1;
    initial := seq(|names|, _ => 0);
    RepeatedNameStarves(names, file, values, atol, initial, k, i);
    DiffersAt(names, file, values, atol, initial, i);
  }

  lemma DiffersAt(names: seq<string>, file: seq<string>, values: seq<string>, atol: string -> int,
                  initial: seq<int>, i: nat)
    requires Answerable(names, file) && |initial| == |names| && |file| == |values| && i < |names|
    requires Polled(names, file, values, atol, initial)[i] != atol(values[LineOf(file, names[i])])
    ensures !Correct(names, file, values, atol, initial)
  {
    hide Polled, LineOf;
  }

  /** For requested names that are all in the file, the poll is a lookup by name, whatever the
      values, if and only if no name is requested twice and every line taken is the line of the
      counter it is stored for. */
  lemma LookupIsExact(names: seq<string>, file: seq<string>)
    requires Answerable(names, file)
    ensures AllDistinct(names) && OwnLines(names, file) <==>
            forall values: seq<string>, atol: string -> int, initial: seq<int> ::
              |values| == |file| && |initial| == |names| ==> Correct(names, file, values, atol, initial)
  {
    hide TakenFeeds, OwnLines, LineOf, LastLine, AllDistinct;
    var fs := TakenFeeds(names, file);
    if !AllDistinct(names) {
      var values, atol, initial := WrongRepeat(names, file);
      assert !Correct(names, file, values, atol, initial);
    } else if OwnLines(names, file) {
      forall i | 0 <= i < |names|
        ensures LastLine(fs, i) == Some(LineOf(file, names[i]))
      {
        OwnLinesSuffice(names, file, i);
      }
    } else {
      var i := ForeignLineStarves(names, file);
      var values, atol, initial := WrongResult(names, file, i);
      assert !Correct(names, file, values, atol, initial);
    }
  }

  /** In particular it is one if no requested name is a prefix of another line's name before that
      line's own name is considered. */
  lemma PrefixFreeSuffices(names: seq<string>, file: seq<string>)
    requires forall j :: 0 <= j < |file| ==>
               var k := FirstPrefix(names, file[j]); k < |names| ==> names[k] == file[j]
    ensures OwnLines(names, file)
  {
    FeedsOwn(names, file, |file|);
  }

  lemma FeedsOwn(names: seq<string>, file: seq<string>, n: nat)
    requires n <= |file|
    requires forall j :: 0 <= j < |file| ==>
               var k := FirstPrefix(names, file[j]); k < |names| ==> names[k] == file[j]
    ensures forall f :: f in Feeds(names, file, n) ==> names[f.key] == file[f.line]
  {
    if n > 0 {
      FeedsOwn(names, file, n - 1);
    }
  }

  const ACTIVE := ["Active", "Active(anon)"]

  lemma ActiveFeeds()
    ensures TakenFeeds(ACTIVE, ACTIVE) == [Feed(0, 0), Feed(0, 1)]
  {
    assert ACTIVE[1][..6] == ACTIVE[0];
    assert FirstPrefix(ACTIVE, ACTIVE[1]) == 0;
    assert FirstPrefix(ACTIVE, ACTIVE[0]) == 0;
    assert Feeds(ACTIVE, ACTIVE, 1) == [Feed(0, 0)];
  }

  lemma LastOfActive()
    ensures LastLine([Feed(0, 0), Feed(0, 1)], 0) == Some(1)
    ensures LastLine([Feed(0, 0), Feed(0, 1)], 1) == None
  {
    var fs := [Feed(0, 0), Feed(0, 1)];
    assert forall f :: f in fs ==> f.key == 0;
  }

  /** Requesting Active and Active(anon): both lines are stored under Active, the second one last, and
      the result of Active(anon) keeps its initial value. */
  lemma ActiveTakesAnon(values: seq<string>, atol: string -> int, initial: seq<int>)
    requires |values| == |initial| == 2
    ensures Answerable(ACTIVE, ACTIVE) && !OwnLines(ACTIVE, ACTIVE)
    ensures Polled(ACTIVE, ACTIVE, values, atol, initial) == [atol(values[1]), initial[1]]
  {
    hide TakenFeeds, LastLine;
    ActiveFeeds();
    LastOfActive();
    assert Feed(0, 1) in TakenFeeds(ACTIVE, ACTIVE);
  }
}
