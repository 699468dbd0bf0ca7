/**
 The parser of lib/info_reader.c: a bounded line reader, in-place line splitting, and a state
 machine over (nb_stored, key_assigned) that fills the slots of a storage array.  Parser.Parse
 is proved against RecordSpec.
 */
module InfoReader {
  import opened CStrings
  import opened Wrappers
  import opened RecordSpec

  const EOF := -1

  /** FILE, read through fgetc. */
  class Stream {
    const text: string
    var pos: nat

    ghost predicate Valid()
      reads this
    {
      pos <= |text|
    }

    ghost function Rest(): string
      reads this
      requires Valid()
    {
      text[pos..]
    }

    constructor (text: string)
      ensures Valid() && Rest() == text
    {
      this.text := text;
      pos := 0;
    }

    method Fgetc() returns (ch: int)
      requires Valid()
      modifies this
      ensures Valid()
      ensures if old(Rest()) == "" then ch == EOF && Rest() == ""
              else ch == old(Rest())[0] as int && Rest() == old(Rest())[1..]
    {
      if pos == |text| {
        return EOF;
      }
      ch := text[pos] as int;
      pos := pos + 1;
    }
  }

  // ---------------------------------------------------------------- strings in a buffer

  ghost predicate Terminated(a: seq<char>) {
    Find(a, '\0') < |a|
  }

  /** The C string that starts at index i of a buffer. */
  function StringAt(a: seq<char>, i: nat): string
    requires i <= |a|
  {
    a[i..][..Find(a[i..], '\0')]
  }

  lemma FindSuffix(s: string, c: char, k: nat)
    requires k <= Find(s, c)
    ensures Find(s[k..], c) == Find(s, c) - k
  {
    if k > 0 {
      FindSuffix(s[1..], c, k - 1);
      assert s[1..][k - 1..] == s[k..];
    } else {
      assert s[0..] == s;
    }
  }

  lemma FindPrefix(s: string, c: char, k: nat)
    requires k <= |s|
    ensures Find(s[..k], c) == if Find(s, c) < k then Find(s, c) else k
  {
    FindAppend(s[..k], s[k..], c);
    assert s[..k] + s[k..] == s;
  }

  lemma FindUpdate(s: string, c: char, i: nat)
    requires i < |s| && i <= Find(s, c)
    ensures Find(s[i := c], c) == i
  {
    if i > 0 {
      FindUpdate(s[1..], c, i - 1);
      assert s[i := c][1..] == s[1..][i - 1 := c];
    }
  }

  /** What matching sees after the newline of a buffered line was overwritten. */
  lemma ContentInBuffer(b: string, read: nat)
    requires read < |b| && b[read] == '\0'
    ensures Terminated(b)
    ensures var c := StringAt(b, 0);
            var i := Find(c, '\n');
            var b2 := if i < |c| then b[i := '\0'] else b;
            Terminated(b2) && StringAt(b2, 0) == Content(b[..read])
  {
    FindIsFirst(b, '\0', read);
    FindPrefix(b, '\0', read);
    assert b[0..] == b;
    var c := StringAt(b, 0);
    var i := Find(c, '\n');
    assert c == b[..read][..Find(b[..read], '\0')];
    if i < |c| {
      FindUpdate(b, '\0', i);
      assert b[i := '\0'][0..] == b[i := '\0'];
    } else {
      assert c[..i] == c;
    }
  }

  /** replace_first. */
  method ReplaceFirst(str: array<char>, from: char, to: char)
    requires Terminated(str[..])
    modifies str
    ensures var s := old(str[..]);
            var i := Find(StringAt(s, 0), from);
            str[..] == if i < |StringAt(s, 0)| then s[i := to] else s
  {
    ghost var s := str[..];
    ghost var c := StringAt(s, 0);
    assert s[0..] == s;
    var i := 0;
    while str[i] != '\0'
      invariant i <= |c| && str[..] == s
      invariant i <= Find(c, from)
      decreases |c| - i
    {
      if i == |c| {
        assert false;
      }
      if str[i] == from {
        FindIsFirst(c, from, i);
        str[i] := to;
        return;
      }
      i := i + 1;
    }
    FindIsFirst(s, '\0', i);
  }

  /** split_on_delimiter.  Pointers into the string are offsets. */
  method SplitOnDelimiter(str: array<char>, delimiter: string) returns (key: Option<nat>, value: Option<nat>)
    requires Terminated(str[..])
    modifies str
    ensures var s := old(str[..]);
            match FindText(StringAt(s, 0), delimiter)
            case None => key == None && value == None && str[..] == s
            case Some(i) =>
              && key == Some(0) && value == Some(i + |delimiter|)
              && i + |delimiter| <= |StringAt(s, 0)| < |s| && str[..] == s[i := '\0']
  {
    key, value := None, None;
    assert str[0..] == str[..];
    ghost var end := Find(str[..], '\0');
    var n := 0;
    while str[n] != '\0'
      invariant n <= end && str[..] == old(str[..])
      decreases end - n
    {
      if n == end {
        assert false;
      }
      n := n + 1;
    }
    FindIsFirst(str[..], '\0', n);
    assert str[..n] == StringAt(str[..], 0);
    var start := FindText(str[..n], delimiter); // strstr
    if start != None {
      str[start.value] := '\0';
      key := Some(0);
      value := Some(start.value + |delimiter|);
    }
  }

  lemma ValueInBuffer(s: string, i: nat, d: nat)
    requires i + d <= |StringAt(s, 0)| < |s|
    ensures StringAt(s[i := '\0'], i + d) == if d == 0 then "" else StringAt(s, 0)[i + d..]
  {
    var t := s[i := '\0'];
    assert s[0..] == s;
    if d == 0 {
      assert t[i..][0] == '\0';
    } else {
      assert t[i + d..] == s[i + d..];
      FindSuffix(s, '\0', i + d);
    }
  }

  /** match: the key finder, and the raw value as an offset into the line. */
  method Match<S, V>(keys: seq<KeyFinder<S, V>>, line: array<char>) returns (finder: Option<nat>, raw: Option<nat>)
    requires Terminated(line[..])
    modifies line
    ensures match MatchLine(keys, StringAt(old(line[..]), 0))
            case None => finder == None
            case Some(h) =>
              && finder == Some(h.index)
              && raw.Some? && raw.value <= line.Length && StringAt(line[..], raw.value) == h.raw
  {
    hide StringAt, FindText;
    ghost var s := line[..];
    ghost var content := StringAt(s, 0);
    var i := 0;
    while i < |keys|
      invariant i <= |keys| && line[..] == s
      invariant FirstKey(keys, content) == i + FirstKey(keys[i..], content)
    {
      assert keys[i..][1..] == keys[i + 1..];
      if StartWith(keys[i].key, line) {
        assert FirstKey(keys, content) == i;
        var key, value := SplitOnDelimiter(line, keys[i].delimiter);
        if key == None || value == None {
          return None, None;
        }
        ValueInBuffer(s, value.value - |keys[i].delimiter|, |keys[i].delimiter|);
        return Some(i), value;
      }
      i := i + 1;
    }
    return None, None;
  }

  /** start_with, on the string held by a buffer. */
  predicate StartWith(prefix: string, str: array<char>)
    reads str
    requires Terminated(str[..])
    ensures StartWith(prefix, str) <==> StartsWith(prefix, StringAt(str[..], 0))
  {
    var s := str[..];
    var n := Find(s, '\0'); // strlen
    assert s[0..] == s;
    n >= |prefix| && s[..|prefix|] == prefix
  }

  /** buffer_getline: -1 at the end of the file and at a line that does not fit. */
  method BufferGetline(stream: Stream, buffer: array<char>) returns (read: int)
    requires stream.Valid() && buffer.Length == MAX_PAGE_SIZE
    modifies stream, buffer
    ensures stream.Valid()
    ensures var rest := old(stream.Rest());
            if !Readable(rest) then read == -1
            else
              && read == LineLength(rest) < MAX_PAGE_SIZE
              && buffer[..read] == rest[..read] && buffer[read] == '\0'
              && stream.Rest() == rest[read..]
  {
    ghost var rest := stream.Rest();
    var n := 0;
    while true
      invariant n <= MAX_PAGE_SIZE - 1 && n <= Find(rest, '\n')
      invariant stream.Valid() && stream.Rest() == rest[n..]
      invariant buffer[..n] == rest[..n]
      decreases |rest| - n
    {
      var ch := stream.Fgetc();
      if ch == EOF {
        if n == 0 {
          return -1;
        } else {
          break;
        }
      }
      if n == MAX_PAGE_SIZE - 1 {
        return -1;
      }
      buffer[n] := ch as char;
      n := n + 1;
      if ch == '\n' as int {
        FindIsFirst(rest, '\n', n - 1);
        break;
      }
    }
    buffer[n] := '\0';
    read := n;
  }

  // ---------------------------------------------------------------- parse

  /** struct Parser, with the static line buffer. */
  class Parser<S, V> {
    const storage: array<S>
    const capacity: nat
    const keys: seq<KeyFinder<S, V>>
    const file: Stream
    const buffer: array<char>
    var nb_stored: nat

    ghost predicate Valid()
      reads this, file
    {
      && file.Valid()
      && storage.Length == capacity
      && buffer.Length == MAX_PAGE_SIZE
      && (buffer as object) != storage
    }

    constructor (storage: array<S>, keys: seq<KeyFinder<S, V>>, file: Stream)
      requires file.Valid()
      ensures Valid() && nb_stored == 0
      ensures this.storage == storage && this.keys == keys && this.file == file && fresh(buffer)
    {
      this.storage := storage;
      this.capacity := storage.Length;
      this.keys := keys;
      this.file := file;
      this.buffer := new char[MAX_PAGE_SIZE](_ => '\0');
      this.nb_stored := 0;
    }

    /** set_value. */
    method SetValue(finder: nat, raw_value: string)
      requires Valid() && finder < |keys| && nb_stored < capacity
      modifies storage
      ensures storage[..] == old(storage[..])[nb_stored := Store(keys, Hit(finder, raw_value), old(storage[nb_stored]))]
    {
      storage[nb_stored] := keys[finder].put(storage[nb_stored], keys[finder].copy(raw_value));
    }

    /** move_to_next. */
    method MoveToNext() returns (more: bool)
      requires Valid() && nb_stored < capacity
      modifies this`nb_stored
      ensures nb_stored == old(nb_stored) + 1
      ensures more <==> nb_stored < capacity
    {
      nb_stored := nb_stored + 1;
      more := nb_stored < capacity;
    }

    /** The last branch of parse: match the buffered line and store its value. */
    method TakeLine(read: nat, ghost initial: seq<S>, ghost lines: seq<string>, key_assigned: nat)
      returns (hits: nat)
      requires Valid() && nb_stored < capacity == |initial|
      requires read < MAX_PAGE_SIZE && read != 1 && buffer[read] == '\0'
      requires |Records(lines)| == nb_stored + 1 && storage[..] == Slots(keys, initial, lines)
      requires key_assigned == KeysAssigned(keys, lines) && key_assigned != |keys|
      modifies buffer, storage
      ensures var now := lines + [old(buffer[..read])];
              && |Records(now)| == nb_stored + 1
              && storage[..] == Slots(keys, initial, now)
              && hits == KeysAssigned(keys, now)
    {
      hide Records, Slots, KeysAssigned, MatchLine, Content, Store;
      LineSnoc(keys, initial, lines, buffer[..read]);
      ContentInBuffer(buffer[..], read);
      ReplaceFirst(buffer, '\n', '\0');
      var finder, raw := Match(keys, buffer);
      hits := key_assigned;
      if finder != None {
        SetValue(finder.value, StringAt(buffer[..], raw.value));
        hits := hits + 1;
      }
    }

    /** parse.  The result is false (0) when a blank line closes the last slot, true (1) when the
        reading ends first. */
    method Parse() returns (ended: bool)
      requires Valid() && nb_stored == 0 && capacity > 0
      modifies this`nb_stored, file, buffer, storage
      ensures Valid()
      ensures var lines := old(Lines(file.Rest()));
              var n := |Records(lines)|;
              && storage[..] == Slots(keys, old(storage[..]), lines)
              && (ended <==> n <= capacity)
              && nb_stored == if n > capacity then capacity else if KeysAssigned(keys, lines) == 0 then n - 1 else n
    {
      hide Records, Slots, KeysAssigned, Lines, LineLength;
      ghost var initial, all := storage[..], Lines(file.Rest());
      ghost var lines: seq<string> := [];
      NothingRead(keys, initial);
      var key_assigned := 0;
      while true
        invariant Valid() && nb_stored < capacity
        invariant all == lines + Lines(file.Rest())
        invariant |Records(lines)| == nb_stored + 1 && storage[..] == Slots(keys, initial, lines)
        invariant key_assigned == KeysAssigned(keys, lines)
        decreases |file.Rest()|
      {
        ghost var rest, before := file.Rest(), lines;
        var read := BufferGetline(file, buffer);
        if read == -1 {
          LinesEnd(lines, rest);
          break;
        }
        LinesStep(lines, rest);
        lines := lines + [buffer[..read]];
        if key_assigned == |keys| && read > 1 {
          LineSnoc(keys, initial, before, buffer[..read]);
        } else if read == 1 {
          BlankSnoc(keys, initial, before, buffer[..read]);
          var more := MoveToNext();
          if !more {
            SlotsFinal(keys, initial, lines, Lines(file.Rest()));
            return false;
          }
          key_assigned := 0;
        } else {
          key_assigned := TakeLine(read, initial, before, key_assigned);
        }
      }
      if key_assigned > 0 {
        nb_stored := nb_stored + 1;
      }
      return true;
    }
  }
}
