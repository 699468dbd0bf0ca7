/** Characters of C strings, modelled as sequences without their terminator. */
module CStrings {
  /** The character a C program reads at index i of the string s, whose terminator is at |s|. */
  function At(s: string, i: nat): char
    requires i <= |s|
  {
    if i < |s| then s[i] else '\0'
  }

  /** Index of the first c in s, |s| when there is none. */
  function Find(s: string, c: char): (i: nat)
    ensures i <= |s|
    ensures i < |s| ==> s[i] == c
  {
    if s == [] || s[0] == c then 0 else 1 + Find(s[1..], c)
  }

  lemma FindIsFirst(s: string, c: char, j: nat)
    requires j < |s| && s[j] == c
    ensures Find(s, c) <= j
  {
    if s[0] != c {
      FindIsFirst(s[1..], c, j - 1);
    }
  }

  lemma FindAppend(s: string, t: string, c: char)
    ensures Find(s + t, c) == if Find(s, c) < |s| then Find(s, c) else |s| + Find(t, c)
  {
    if s == [] {
      assert s + t == t;
    } else {
      assert (s + t)[1..] == s[1..] + t;
      FindAppend(s[1..], t, c);
    }
  }
}
