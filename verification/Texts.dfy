/** Cutting text where a character stands. */
module Texts {
  import opened Options

  /** White space, as Unicode has it. */
  predicate Space(c: char) {
    '\t' <= c <= '\r' || c == ' ' || c == '\U{85}' || c == '\U{a0}' || c == '\U{1680}' ||
    '\U{2000}' <= c <= '\U{200a}' || c == '\U{2028}' || c == '\U{2029}' || c == '\U{202f}' ||
    c == '\U{205f}' || c == '\U{3000}'
  }

  predicate Blank(s: string) {
    forall i | 0 <= i < |s| :: Space(s[i])
  }

  /** By its code points. */
  lemma SpaceIs(c: char)
    ensures Space(c) <==> (9 <= c as int <= 13 || 0x2000 <= c as int <= 0x200a ||
      c as int in {0x20, 0x85, 0xa0, 0x1680, 0x2028, 0x2029, 0x202f, 0x205f, 0x3000})
  {
  }

  lemma BlankIs(s: string)
    ensures Blank(s) <==> forall c | c in s :: Space(c)
  {
    if Blank(s) {
      forall c | c in s ensures Space(c) {
        var i :| 0 <= i < |s| && s[i] == c;
      }
    } else {
      var i :| 0 <= i < |s| && !Space(s[i]);
      assert s[i] in s;
    }
  }

  /** What stands between the separators, an empty text where two meet. */
  function Split(s: string, separators: set<char>): (parts: seq<string>)
    ensures |parts| > 0
  {
    if s == "" then [""]
    else
      var more := Split(s[1..], separators);
      if s[0] in separators then [""] + more else [[s[0]] + more[0]] + more[1..]
  }

  lemma {:induction false} SplitUncut(s: string, separators: set<char>)
    requires forall i | 0 <= i < |s| :: s[i] !in separators
    ensures Split(s, separators) == [s]
  {
    if s != "" {
      SplitUncut(s[1..], separators);
      assert [s[0]] + s[1..] == s;
    }
  }

  /** Where `c` first stands. */
  function Find(s: string, c: char): (at: Option<nat>)
    ensures at.None? <==> c !in s
    ensures at.Some? ==> at.value < |s| && s[at.value] == c && c !in s[..at.value]
  {
    if s == "" then None
    else if s[0] == c then Some(0)
    else
      match Find(s[1..], c)
      case None => None
      case Some(i) =>
        assert s[..i + 1] == [s[0]] + s[1..][..i];
        Some(i + 1)
  }
}
