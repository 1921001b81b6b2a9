/**
 * The globs of scripts/check-claude-md.py: the pattern built from one, against a matcher that goes
 * through the folders of a path one by one. Paths hold no newline, so `.` is any character.
 */
module Globs {
  import opened Options
  import opened Texts

  /** What one step of the script adds to the pattern. */
  datatype Piece =
    | Choice(options: seq<string>)  // (?:a|b), each escaped
    | Folders                       // (?:.*/)?
    | Anything                      // .*
    | InName                        // [^/]*
    | OneInName                     // [^/]
    | Letter(c: char)               // escaped

  predicate Opens(s: string, prefix: string) {
    |prefix| <= |s| && s[..|prefix|] == prefix
  }

  /** The pieces of a glob, and how much of it the first takes. */
  function First(glob: string): (r: (Piece, nat))
    requires glob != ""
    ensures 0 < r.1 <= |glob|
  {
    if glob[0] == '{' && Find(glob, '}').Some? then
      var close := Find(glob, '}').value;
      (Choice(Split(glob[1..close], {','})), close + 1)
    else if Opens(glob, "**/") then (Folders, 3)
    else if Opens(glob, "**") then (Anything, 2)
    else if glob[0] == '*' then (InName, 1)
    else if glob[0] == '?' then (OneInName, 1)
    else (Letter(glob[0]), 1)
  }

  function Pieces(glob: string): seq<Piece> {
    if glob == "" then [] else [First(glob).0] + Pieces(glob[First(glob).1..])
  }

  method GlobPattern(glob: string) returns (pattern: seq<Piece>)
    ensures pattern == Pieces(glob)
  {
    pattern := [];
    var index := 0;
    while index < |glob|
      invariant index <= |glob|
      invariant pattern + Pieces(glob[index..]) == Pieces(glob)
    {
      var rest := glob[index..];
      var first := First(rest);
      OnePieceMore(pattern, rest, first);
      assert rest[first.1..] == glob[index + first.1..];
      pattern := pattern + [first.0];
      index := index + first.1;
    }
    assert pattern + [] == pattern;
  }

  lemma OnePieceMore(pattern: seq<Piece>, rest: string, first: (Piece, nat))
    requires rest != "" && first == First(rest)
    ensures pattern + Pieces(rest) == (pattern + [first.0]) + Pieces(rest[first.1..])
  {
    assert Pieces(rest) == [first.0] + Pieces(rest[first.1..]);
  }

  // ----- the one way a glob is read

  function WithCommas(options: seq<string>): string
    requires options != []
  {
    if |options| == 1 then options[0] else options[0] + "," + WithCommas(options[1..])
  }

  predicate IsChoice(options: seq<string>) {
    options != [] && forall option | option in options :: ',' !in option && '}' !in option
  }

  /** A piece as a glob writes it. */
  function Spelled(piece: Piece): (glob: string)
    requires piece.Choice? ==> IsChoice(piece.options)
    ensures glob != ""
  {
    match piece
    case Choice(options) => "{" + WithCommas(options) + "}"
    case Folders => "**/"
    case Anything => "**"
    case InName => "*"
    case OneInName => "?"
    case Letter(c) => [c]
  }

  /** What a piece is read as before `rest`: no longer one, and no sign of its own, would be read there. */
  predicate ReadBefore(piece: Piece, rest: string) {
    match piece
    case Choice(options) => IsChoice(options)
    case Anything => rest == "" || rest[0] != '/'
    case InName => rest == "" || rest[0] != '*'
    case Letter(c) => c != '*' && c != '?' && (c == '{' ==> '}' !in rest)
    case _ => true
  }

  lemma {:induction false} CommasCut(text: string)
    ensures WithCommas(Split(text, {','})) == text
    ensures forall option | option in Split(text, {','}) :: ',' !in option && forall c | c in option :: c in text
  {
    if text != "" {
      CommasCut(text[1..]);
      var more := Split(text[1..], {','});
      var options := Split(text, {','});
      assert text == [text[0]] + text[1..];
      if text[0] == ',' {
        assert options == [""] + more && options[1..] == more;
        assert "" + "," + text[1..] == text;
      } else {
        assert options == [[text[0]] + more[0]] + more[1..] && options[1..] == more[1..];
        if |more| > 1 {
          var rest := WithCommas(more[1..]);
          assert ([text[0]] + more[0]) + "," + rest == [text[0]] + (more[0] + "," + rest);
        }
        forall option | option in options ensures ',' !in option && forall c | c in option :: c in text {
          assert option == [text[0]] + more[0] || option in more;
          assert more[0] in more;
        }
      }
    }
  }

  lemma {:induction false} CommasRead(options: seq<string>)
    requires IsChoice(options)
    ensures Split(WithCommas(options), {','}) == options && '}' !in WithCommas(options)
    decreases |options|
  {
    assert options[0] in options;
    if |options| == 1 {
      SplitUncut(options[0], {','});
      assert options == [options[0]];
    } else {
      assert forall option | option in options[1..] :: option in options;
      CommasRead(options[1..]);
      SplitAfterOne(options[0], WithCommas(options[1..]));
      assert options == [options[0]] + options[1..];
    }
  }

  lemma {:induction false} SplitAfterOne(first: string, rest: string)
    requires ',' !in first
    ensures Split(first + "," + rest, {','}) == [first] + Split(rest, {','})
    decreases |first|
  {
    var s := first + "," + rest;
    if first == "" {
      assert s[0] == ',' && s[1..] == rest;
    } else {
      assert s[0] == first[0] && s[1..] == first[1..] + "," + rest;
      SplitAfterOne(first[1..], rest);
      assert [first[0]] + first[1..] == first;
    }
  }

  /** The first piece of a glob and what is left spell it, and it is the piece read before that. */
  lemma FirstIsSpelled(glob: string)
    requires glob != ""
    ensures var (piece, taken) := First(glob);
      ReadBefore(piece, glob[taken..]) && glob == Spelled(piece) + glob[taken..]
  {
    var (piece, taken) := First(glob);
    if piece.Choice? {
      var close := taken - 1;
      CommasCut(glob[1..close]);
      assert '}' !in glob[1..close] by {
        assert '}' !in glob[..close];
        forall i | 1 <= i < close ensures glob[i] != '}' {
          assert glob[..close][i] == glob[i];
        }
      }
      assert glob == "{" + glob[1..close] + "}" + glob[taken..];
    } else {
      assert glob == glob[..taken] + glob[taken..];
      if piece.Letter? && piece.c == '{' {
        assert '}' !in glob;
      }
      if piece.Anything? && |glob| > 2 {
        assert glob[..3] == glob[..2] + [glob[2]];
      }
      if piece.InName? && |glob| > 1 {
        assert glob[..2] == [glob[0]] + [glob[1]];
      }
    }
  }

  /** And no other piece is read there. */
  lemma SpelledIsFirst(piece: Piece, rest: string)
    requires ReadBefore(piece, rest)
    ensures First(Spelled(piece) + rest) == (piece, |Spelled(piece)|)
  {
    var glob := Spelled(piece) + rest;
    match piece {
      case Choice(options) =>
        CommasRead(options);
        var text := WithCommas(options);
        assert glob[..|text| + 1] == "{" + text && glob[|text| + 1] == '}';
        FirstClose(glob, |text| + 1);
        assert glob[1..|text| + 1] == text;
      case Folders => assert glob[..3] == "**/";
      case Anything =>
        assert glob[..2] == "**";
        assert |glob| > 2 ==> glob[2] == rest[0];
        assert |glob| > 2 ==> glob[..3][2] == glob[2];
      case InName =>
        assert |glob| > 1 ==> glob[1] == rest[0];
        assert |glob| > 1 ==> glob[..2][1] == glob[1];
        assert |glob| > 2 ==> glob[..3][1] == glob[1];
      case OneInName =>
        assert |glob| > 1 ==> glob[..2][0] == '?';
        assert |glob| > 2 ==> glob[..3][0] == '?';
      case Letter(c) =>
        assert |glob| > 1 ==> glob[..2][0] == c;
        assert |glob| > 2 ==> glob[..3][0] == c;
        assert c == '{' ==> '}' !in glob;
    }
  }

  lemma FirstClose(glob: string, close: nat)
    requires close < |glob| && glob[close] == '}' && '}' !in glob[..close]
    ensures Find(glob, '}') == Some(close)
  {
    var at := Find(glob, '}').value;
    assert forall k | 0 <= k < close :: glob[..close][k] == glob[k];
    assert forall k | 0 <= k < at :: glob[..at][k] == glob[k];
  }

  /** Written one after the other, each before what follows it. */
  predicate Written(pieces: seq<Piece>, glob: string)
    decreases |pieces|
  {
    if pieces == [] then glob == ""
    else
      (pieces[0].Choice? ==> IsChoice(pieces[0].options)) && Opens(glob, Spelled(pieces[0])) &&
      ReadBefore(pieces[0], glob[|Spelled(pieces[0])|..]) && Written(pieces[1..], glob[|Spelled(pieces[0])|..])
  }

  /** A glob is read as the one list of pieces it is written of. */
  lemma {:induction false} ReadsTheOneWay(pieces: seq<Piece>, glob: string)
    ensures Pieces(glob) == pieces <==> Written(pieces, glob)
    decreases |pieces|
  {
    if glob != "" && pieces != [] {
      if Pieces(glob) == pieces {
        FirstIsSpelled(glob);
        var (piece, taken) := First(glob);
        assert pieces[1..] == Pieces(glob[taken..]);
        ReadsTheOneWay(pieces[1..], glob[taken..]);
        assert glob[..|Spelled(piece)|] == Spelled(piece) && glob[|Spelled(piece)|..] == glob[taken..];
      }
      if Written(pieces, glob) {
        var taken := |Spelled(pieces[0])|;
        assert glob == Spelled(pieces[0]) + glob[taken..];
        SpelledIsFirst(pieces[0], glob[taken..]);
        ReadsTheOneWay(pieces[1..], glob[taken..]);
        assert pieces == [pieces[0]] + pieces[1..];
      }
    }
  }

  // ----- what the pattern accepts, whole

  predicate Matches(pieces: seq<Piece>, s: string)
    decreases |pieces|, |s|
  {
    if pieces == [] then s == ""
    else
      var more := pieces[1..];
      match pieces[0]
      case Choice(options) => exists option | option in options :: Opens(s, option) && Matches(more, s[|option|..])
      case Folders => Matches(more, s) || exists i | 0 <= i < |s| && s[i] == '/' :: Matches(more, s[i + 1..])
      case Anything => Matches(more, s) || (s != "" && Matches(pieces, s[1..]))
      case InName => Matches(more, s) || (s != "" && s[0] != '/' && Matches(pieces, s[1..]))
      case OneInName => s != "" && s[0] != '/' && Matches(more, s[1..])
      case Letter(c) => s != "" && s[0] == c && Matches(more, s[1..])
  }

  // ----- each piece accepts a part of the path, and the parts are the path

  predicate Accepts(piece: Piece, part: string) {
    match piece
    case Choice(options) => part in options
    case Folders => part == "" || part[|part| - 1] == '/'
    case Anything => true
    case InName => '/' !in part
    case OneInName => |part| == 1 && part[0] != '/'
    case Letter(c) => part == [c]
  }

  function Laid(parts: seq<string>): string {
    if parts == [] then "" else parts[0] + Laid(parts[1..])
  }

  ghost predicate LaidOut(pieces: seq<Piece>, parts: seq<string>, s: string) {
    |parts| == |pieces| && Laid(parts) == s && forall i | 0 <= i < |pieces| :: Accepts(pieces[i], parts[i])
  }

  ghost predicate FirstTakes(pieces: seq<Piece>, s: string, n: nat)
    requires pieces != []
  {
    n <= |s| && Accepts(pieces[0], s[..n]) && Matches(pieces[1..], s[n..])
  }

  lemma {:induction false} RunTakes(pieces: seq<Piece>, s: string)
    requires pieces != [] && (pieces[0].Anything? || pieces[0].InName?)
    ensures Matches(pieces, s) <==> exists n: nat :: FirstTakes(pieces, s, n)
    decreases |s|
  {
    assert s[..0] == "" && s[0..] == s;
    if Matches(pieces[1..], s) {
      assert FirstTakes(pieces, s, 0);
    }
    if s != "" && (pieces[0].Anything? || s[0] != '/') {
      RunTakes(pieces, s[1..]);
      if n: nat :| FirstTakes(pieces, s[1..], n) {
        OneLongerTakes(pieces, s, n + 1);
      }
      if n: nat :| FirstTakes(pieces, s, n) && n > 0 {
        OneLongerTakes(pieces, s, n);
      }
    } else if n: nat :| FirstTakes(pieces, s, n) {
      assert n > 0 ==> s[..n][0] == '/';
    }
  }

  lemma OneLongerTakes(pieces: seq<Piece>, s: string, n: nat)
    requires pieces != [] && 0 < n <= |s|
    requires pieces[0].Anything? || (pieces[0].InName? && s[0] != '/')
    ensures FirstTakes(pieces, s, n) <==> FirstTakes(pieces, s[1..], n - 1)
  {
    assert s[..n] == [s[0]] + s[1..][..n - 1] && s[n..] == s[1..][n - 1..];
  }

  lemma ChoiceTakes(pieces: seq<Piece>, s: string)
    requires pieces != [] && pieces[0].Choice?
    ensures Matches(pieces, s) <==> exists n: nat :: FirstTakes(pieces, s, n)
  {
    var options := pieces[0].options;
    if option :| option in options && Opens(s, option) && Matches(pieces[1..], s[|option|..]) {
      assert FirstTakes(pieces, s, |option|);
    }
    if n: nat :| FirstTakes(pieces, s, n) {
      assert Opens(s, s[..n]) && s[|s[..n]|..] == s[n..];
    }
  }

  lemma FoldersTake(pieces: seq<Piece>, s: string)
    requires pieces != [] && pieces[0].Folders?
    ensures Matches(pieces, s) <==> exists n: nat :: FirstTakes(pieces, s, n)
  {
    assert s[..0] == "" && s[0..] == s;
    if Matches(pieces[1..], s) {
      assert FirstTakes(pieces, s, 0);
    } else if i :| 0 <= i < |s| && s[i] == '/' && Matches(pieces[1..], s[i + 1..]) {
      assert FirstTakes(pieces, s, i + 1);
    }
    if n: nat :| FirstTakes(pieces, s, n) {
      assert n > 0 ==> s[n - 1] == '/' && s[(n - 1) + 1..] == s[n..];
    }
  }

  lemma OneTakes(pieces: seq<Piece>, s: string)
    requires pieces != [] && (pieces[0].OneInName? || pieces[0].Letter?)
    ensures Matches(pieces, s) <==> exists n: nat :: FirstTakes(pieces, s, n)
  {
    if s != "" {
      assert s[..1] == [s[0]];
      assert FirstTakes(pieces, s, 1) <==> Matches(pieces, s);
    }
  }

  /** A pattern matches when its first piece accepts some start of the path and the rest what is left. */
  lemma FirstPart(pieces: seq<Piece>, s: string)
    requires pieces != []
    ensures Matches(pieces, s) <==> exists n: nat :: FirstTakes(pieces, s, n)
  {
    match pieces[0]
    case Choice(_) => ChoiceTakes(pieces, s);
    case Folders => FoldersTake(pieces, s);
    case Anything => RunTakes(pieces, s);
    case InName => RunTakes(pieces, s);
    case _ => OneTakes(pieces, s);
  }

  lemma OnePartMore(pieces: seq<Piece>, rest: seq<string>, s: string, n: nat)
    requires pieces != [] && n <= |s| && Accepts(pieces[0], s[..n]) && LaidOut(pieces[1..], rest, s[n..])
    ensures LaidOut(pieces, [s[..n]] + rest, s)
  {
    var parts := [s[..n]] + rest;
    assert parts[1..] == rest && s[..n] + s[n..] == s;
    forall i | 0 <= i < |pieces| ensures Accepts(pieces[i], parts[i]) {
      assert i > 0 ==> parts[i] == rest[i - 1] && pieces[i] == pieces[1..][i - 1];
    }
  }

  lemma OnePartLess(pieces: seq<Piece>, parts: seq<string>, s: string)
    requires pieces != [] && LaidOut(pieces, parts, s)
    ensures var n := |parts[0]|;
      n <= |s| && Accepts(pieces[0], s[..n]) && LaidOut(pieces[1..], parts[1..], s[n..])
  {
    var n := |parts[0]|;
    assert s[..n] == parts[0] && s[n..] == Laid(parts[1..]);
    forall i | 0 <= i < |pieces[1..]| ensures Accepts(pieces[1..][i], parts[1..][i]) {
      assert Accepts(pieces[i + 1], parts[i + 1]);
    }
  }

  /** A pattern matches exactly the paths that are laid out of parts its pieces accept, in their order. */
  lemma {:induction false} MatchesInParts(pieces: seq<Piece>, s: string)
    ensures Matches(pieces, s) <==> exists parts :: LaidOut(pieces, parts, s)
    decreases |pieces|
  {
    if pieces == [] {
      assert s == "" ==> LaidOut(pieces, [], s);
    } else {
      FirstPart(pieces, s);
      if n: nat :| FirstTakes(pieces, s, n) {
        MatchesInParts(pieces[1..], s[n..]);
        var rest :| LaidOut(pieces[1..], rest, s[n..]);
        OnePartMore(pieces, rest, s, n);
      }
      if parts :| LaidOut(pieces, parts, s) {
        OnePartLess(pieces, parts, s);
        MatchesInParts(pieces[1..], s[|parts[0]|..]);
        assert FirstTakes(pieces, s, |parts[0]|);
      }
    }
  }

  // ----- one choice made at every brace

  function Letters(s: string): (pieces: seq<Piece>)
    ensures |pieces| == |s| && forall i | 0 <= i < |s| :: pieces[i] == Letter(s[i])
  {
    seq(|s|, i requires 0 <= i < |s| => Letter(s[i]))
  }

  /** `plain` is the glob with one literal of each brace in its place. */
  predicate Chooses(pieces: seq<Piece>, plain: seq<Piece>) {
    if pieces == [] then plain == []
    else
      match pieces[0]
      case Choice(options) =>
        exists option | option in options ::
          |option| <= |plain| && plain[..|option|] == Letters(option) && Chooses(pieces[1..], plain[|option|..])
      case piece => plain != [] && plain[0] == piece && Chooses(pieces[1..], plain[1..])
  }

  /** A literal matches itself. */
  lemma {:induction false} LiteralMatches(literal: string, more: seq<Piece>, s: string)
    ensures Matches(Letters(literal) + more, s) <==> (Opens(s, literal) && Matches(more, s[|literal|..]))
  {
    var pieces := Letters(literal) + more;
    if literal == "" {
      assert pieces == more && s[..0] == "" && s[0..] == s;
    } else {
      assert pieces[0] == Letter(literal[0]);
      assert pieces[1..] == Letters(literal[1..]) + more;
      if s != "" {
        LiteralMatches(literal[1..], more, s[1..]);
        assert Opens(s, literal) <==> (s[0] == literal[0] && Opens(s[1..], literal[1..])) by {
          assert literal == [literal[0]] + literal[1..];
          if |literal| <= |s| {
            assert s[..|literal|] == [s[0]] + s[1..][..|literal| - 1];
          }
        }
        if |literal| <= |s| {
          assert s[1..][|literal[1..]|..] == s[|literal|..];
        }
      }
    }
  }

  /** A pattern matches exactly what it matches for some choice made at every brace. */
  lemma MatchesByChoosing(pieces: seq<Piece>, s: string)
    ensures Matches(pieces, s) <==> exists plain :: Chooses(pieces, plain) && Matches(plain, s)
  {
    if Matches(pieces, s) {
      var plain := ChoiceMade(pieces, s);
      assert Chooses(pieces, plain) && Matches(plain, s);
    } else {
      forall plain | Chooses(pieces, plain) && Matches(plain, s) ensures false {
        ChosenMatches(pieces, plain, s);
      }
    }
  }

  lemma {:induction false} ChoiceMade(pieces: seq<Piece>, s: string) returns (plain: seq<Piece>)
    requires Matches(pieces, s)
    ensures Chooses(pieces, plain) && Matches(plain, s)
    decreases |pieces|, |s|
  {
    if pieces == [] {
      return [];
    }
    var more := pieces[1..];
    var rest: seq<Piece>;
    match pieces[0] {
      case Choice(options) =>
        var option :| option in options && Opens(s, option) && Matches(more, s[|option|..]);
        rest := ChoiceMade(more, s[|option|..]);
        plain := Letters(option) + rest;
        LiteralMatches(option, rest, s);
        assert plain[..|option|] == Letters(option) && plain[|option|..] == rest;
        return;
      case Folders =>
        if Matches(more, s) {
          rest := ChoiceMade(more, s);
        } else {
          var i :| 0 <= i < |s| && s[i] == '/' && Matches(more, s[i + 1..]);
          rest := ChoiceMade(more, s[i + 1..]);
        }
      case Anything =>
        if !Matches(more, s) {
          plain := ChoiceMade(pieces, s[1..]);
          return;
        }
        rest := ChoiceMade(more, s);
      case InName =>
        if !Matches(more, s) {
          plain := ChoiceMade(pieces, s[1..]);
          return;
        }
        rest := ChoiceMade(more, s);
      case OneInName =>
        rest := ChoiceMade(more, s[1..]);
      case Letter(c) =>
        rest := ChoiceMade(more, s[1..]);
    }
    plain := [pieces[0]] + rest;
    assert plain[1..] == rest;
  }

  lemma {:induction false} ChosenMatches(pieces: seq<Piece>, plain: seq<Piece>, s: string)
    requires Chooses(pieces, plain) && Matches(plain, s)
    ensures Matches(pieces, s)
    decreases |pieces|, |s|
  {
    if pieces != [] {
      var more := pieces[1..];
      match pieces[0]
      case Choice(options) =>
        var option :| option in options && |option| <= |plain| && plain[..|option|] == Letters(option) &&
          Chooses(more, plain[|option|..]);
        assert plain == Letters(option) + plain[|option|..];
        LiteralMatches(option, plain[|option|..], s);
        ChosenMatches(more, plain[|option|..], s[|option|..]);
      case Folders =>
        if Matches(plain[1..], s) {
          ChosenMatches(more, plain[1..], s);
        } else {
          var i :| 0 <= i < |s| && s[i] == '/' && Matches(plain[1..], s[i + 1..]);
          ChosenMatches(more, plain[1..], s[i + 1..]);
        }
      case Anything =>
        if Matches(plain[1..], s) {
          ChosenMatches(more, plain[1..], s);
        } else {
          ChosenMatches(pieces, plain, s[1..]);
        }
      case InName =>
        if Matches(plain[1..], s) {
          ChosenMatches(more, plain[1..], s);
        } else {
          ChosenMatches(pieces, plain, s[1..]);
        }
      case OneInName =>
        ChosenMatches(more, plain[1..], s[1..]);
      case Letter(c) =>
        ChosenMatches(more, plain[1..], s[1..]);
    }
  }

  // ----- folder by folder

  /** A folder of a glob: any number of them, or one whose name is matched. */
  datatype Level = AnyFolders | Name(pieces: seq<Piece>)

  predicate InOneName(piece: Piece) {
    piece.InName? || piece.OneInName? || (piece.Letter? && piece.c != '/')
  }

  /** Where the first folder of `plain` ends. */
  function NameEnd(plain: seq<Piece>): (end: nat)
    ensures end <= |plain| && forall i | 0 <= i < end :: InOneName(plain[i])
    ensures end < |plain| ==> !InOneName(plain[end])
  {
    if plain == [] || !InOneName(plain[0]) then 0 else 1 + NameEnd(plain[1..])
  }

  /** Every `**` is a whole folder of the glob, and no choice is left. */
  predicate Whole(plain: seq<Piece>) {
    if plain == [] || plain == [Anything] then true
    else if plain[0].Folders? then Whole(plain[1..])
    else
      var end := NameEnd(plain);
      end == |plain| || (plain[end] == Letter('/') && Whole(plain[end + 1..]))
  }

  /** A `**` opens a folder, and one without its slash ends the glob. */
  predicate Alone(plain: seq<Piece>, i: nat)
    requires i < |plain|
  {
    !plain[i].Choice? &&
    (plain[i].Folders? || plain[i].Anything? ==> i == 0 || plain[i - 1] == Letter('/') || plain[i - 1].Folders?) &&
    (plain[i].Anything? ==> i == |plain| - 1)
  }

  lemma AloneFurther(plain: seq<Piece>, start: nat, i: nat)
    requires start <= i < |plain|
    requires start == 0 || plain[start - 1] == Letter('/') || plain[start - 1].Folders?
    ensures Alone(plain, i) <==> Alone(plain[start..], i - start)
  {
  }

  lemma {:induction false} WholeIsAlone(plain: seq<Piece>)
    ensures Whole(plain) <==> forall i: nat | i < |plain| :: Alone(plain, i)
    decreases |plain|
  {
    if plain != [] && plain != [Anything] {
      var start := if plain[0].Folders? then 1 else NameEnd(plain) + 1;
      if start > |plain| {
      } else if plain[start - 1] == Letter('/') || plain[start - 1].Folders? {
        FolderByFolder(plain, start);
      } else {
        assert !Alone(plain, start - 1);
      }
    }
  }

  lemma {:induction false} FolderByFolder(plain: seq<Piece>, start: nat)
    requires 0 < start <= |plain| && (plain[start - 1] == Letter('/') || plain[start - 1].Folders?)
    requires start == if plain[0].Folders? then 1 else NameEnd(plain) + 1
    requires plain != [Anything]
    ensures Whole(plain) <==> forall i: nat | i < |plain| :: Alone(plain, i)
    decreases |plain|, 0
  {
    var rest := plain[start..];
    WholeIsAlone(rest);
    forall i: nat | start <= i < |plain| ensures Alone(plain, i) <==> Alone(rest, i - start) {
      AloneFurther(plain, start, i);
    }
    if forall i: nat | i < |plain| :: Alone(plain, i) {
      assert Alone(plain, start - 1);
      forall i: nat | i < |rest| ensures Alone(rest, i) {
        assert Alone(plain, i + start) <==> Alone(rest, i + start - start);
      }
    }
  }

  function Levels(plain: seq<Piece>): (levels: seq<Level>)
    requires Whole(plain)
    ensures |levels| > 0
  {
    if plain == [] then [Name([])]
    else if plain == [Anything] then [AnyFolders]
    else if plain[0].Folders? then [AnyFolders] + Levels(plain[1..])
    else
      var end := NameEnd(plain);
      if end == |plain| then [Name(plain)] else [Name(plain[..end])] + Levels(plain[end + 1..])
  }

  /** The names of a path against the levels of a glob; what ends with `**` takes one name at least. */
  predicate Fits(levels: seq<Level>, names: seq<string>)
    requires |levels| > 0
  {
    match levels[0]
    case AnyFolders =>
      if |levels| == 1 then |names| > 0 else exists n | 0 <= n < |names| :: Fits(levels[1..], names[n..])
    case Name(pieces) =>
      |names| > 0 && Matches(pieces, names[0]) &&
      if |levels| == 1 then |names| == 1 else Fits(levels[1..], names[1..])
  }

  function NamesOf(path: string): seq<string> {
    Split(path, {'/'})
  }

  /** The names left after the first slash of a path. */
  lemma {:induction false} NamesAfterSlash(path: string, i: nat)
    requires i < |path| && path[i] == '/' && '/' !in path[..i]
    ensures NamesOf(path) == [path[..i]] + NamesOf(path[i + 1..])
  {
    if i > 0 {
      assert path[1..][..i - 1] == path[..i][1..];
      NamesAfterSlash(path[1..], i - 1);
      assert path[1..][i..] == path[i + 1..];
      assert [path[0]] + path[1..][..i - 1] == path[..i];
    } else {
      assert path[..0] == "";
    }
  }

  /** Cutting a path after a slash leaves its last names. */
  lemma {:induction false} NamesAfterAnySlash(path: string, i: nat) returns (n: nat)
    requires i < |path| && path[i] == '/'
    ensures 0 < n < |NamesOf(path)| && NamesOf(path)[n..] == NamesOf(path[i + 1..])
  {
    if path[0] == '/' {
      assert NamesOf(path) == [""] + NamesOf(path[1..]);
      if i == 0 {
        n := 1;
      } else {
        var m := NamesAfterAnySlash(path[1..], i - 1);
        assert path[1..][i..] == path[i + 1..];
        n := m + 1;
      }
    } else {
      n := NamesAfterAnySlash(path[1..], i - 1);
      assert path[1..][i..] == path[i + 1..];
      var rest := NamesOf(path[1..]);
      assert NamesOf(path) == [[path[0]] + rest[0]] + rest[1..];
    }
  }

  lemma LastNames(first: string, rest: seq<string>, n: nat)
    requires 0 < n <= |rest| + 1
    ensures ([first] + rest)[n..] == rest[n - 1..]
  {
  }

  lemma {:induction false} SlashBeforeNames(path: string, n: nat) returns (i: nat)
    requires 0 < n < |NamesOf(path)|
    ensures i < |path| && path[i] == '/' && NamesOf(path)[n..] == NamesOf(path[i + 1..])
  {
    var rest := NamesOf(path[1..]);
    if path[0] == '/' {
      LastNames("", rest, n);
      if n == 1 {
        i := 0;
        assert rest[0..] == rest;
      } else {
        var j := SlashBeforeNames(path[1..], n - 1);
        assert path[1..][j + 1..] == path[j + 2..];
        i := j + 1;
      }
    } else {
      LastNames([path[0]] + rest[0], rest[1..], n);
      assert rest[1..][n - 1..] == rest[n..];
      var j := SlashBeforeNames(path[1..], n);
      assert path[1..][j + 1..] == path[j + 2..];
      i := j + 1;
    }
  }

  lemma FindFurther(s: string)
    requires s != "" && s[0] != '/'
    ensures Find(s, '/').Some? <==> Find(s[1..], '/').Some?
    ensures Find(s, '/').Some? ==>
      var at := Find(s, '/').value;
      at > 0 && Find(s[1..], '/').value == at - 1 && s[..at][1..] == s[1..][..at - 1] &&
      s[1..][at..] == s[at + 1..] && s[..at][0] == s[0]
  {
  }

  predicate MatchesToTheSlash(name: seq<Piece>, more: seq<Piece>, s: string) {
    match Find(s, '/')
    case None => false
    case Some(at) => Matches(name, s[..at]) && Matches(more, s[at + 1..])
  }

  /** What is read within one name passes no slash. */
  lemma {:induction false} NameStopsAtTheSlash(name: seq<Piece>, more: seq<Piece>, s: string)
    requires forall i | 0 <= i < |name| :: InOneName(name[i])
    ensures Matches(name + [Letter('/')] + more, s) <==> MatchesToTheSlash(name, more, s)
    decreases |name|, |s|
  {
    var pieces := name + [Letter('/')] + more;
    if name == [] {
      assert pieces == [Letter('/')] + more && pieces[1..] == more;
    } else {
      var rest := name[1..];
      assert pieces[0] == name[0] && pieces[1..] == rest + [Letter('/')] + more;
      if name[0].InName? {
        NameStopsAtTheSlash(rest, more, s);
      }
      if s != "" && s[0] != '/' {
        FindFurther(s);
        if name[0].InName? {
          NameStopsAtTheSlash(name, more, s[1..]);
        } else {
          NameStopsAtTheSlash(rest, more, s[1..]);
        }
      }
    }
  }

  lemma {:induction false} NamesHoldNoSlash(name: seq<Piece>, s: string)
    requires (forall i | 0 <= i < |name| :: InOneName(name[i])) && Matches(name, s)
    ensures '/' !in s
    decreases |name|, |s|
  {
    if name != [] {
      if name[0].InName? && Matches(name[1..], s) {
        NamesHoldNoSlash(name[1..], s);
      } else {
        NamesHoldNoSlash(if name[0].InName? then name else name[1..], s[1..]);
        assert s == [s[0]] + s[1..];
      }
    }
  }

  lemma FewerNames(path: string)
    ensures '/' in path <==> |NamesOf(path)| > 1
    ensures '/' in path ==>
      var at := Find(path, '/').value; NamesOf(path) == [path[..at]] + NamesOf(path[at + 1..])
    ensures '/' !in path ==> NamesOf(path) == [path]
  {
    match Find(path, '/')
    case None => SplitUncut(path, {'/'});
    case Some(at) => NamesAfterSlash(path, at);
  }

  /** A pattern whose `**` are whole folders matches the paths that fit the glob folder by folder. */
  lemma {:induction false} MatchesByFolders(plain: seq<Piece>, path: string)
    requires Whole(plain)
    ensures Matches(plain, path) <==> Fits(Levels(plain), NamesOf(path))
    decreases |plain|
  {
    FewerNames(path);
    if plain == [] {
      assert Matches([], NamesOf(path)[0]) <==> NamesOf(path)[0] == "";
    } else if plain == [Anything] {
      MatchesAnything(path);
    } else if plain[0].Folders? {
      FoldersByFolders(plain, path);
    } else {
      NameByFolders(plain, path);
    }
  }

  lemma {:induction false} MatchesAnything(s: string)
    ensures Matches([Anything], s)
  {
    if s != "" {
      MatchesAnything(s[1..]);
    }
  }

  lemma {:induction false} FoldersByFolders(plain: seq<Piece>, path: string)
    requires Whole(plain) && plain != [] && plain[0].Folders?
    ensures Matches(plain, path) <==> Fits(Levels(plain), NamesOf(path))
    decreases |plain|, 0
  {
    var rest, names := plain[1..], NamesOf(path);
    assert Levels(plain)[1..] == Levels(rest);
    if Matches(plain, path) {
      if Matches(rest, path) {
        MatchesByFolders(rest, path);
        assert names[0..] == names;
      } else {
        var i :| 0 <= i < |path| && path[i] == '/' && Matches(rest, path[i + 1..]);
        var n := NamesAfterAnySlash(path, i);
        MatchesByFolders(rest, path[i + 1..]);
      }
    }
    if n :| 0 <= n < |names| && Fits(Levels(rest), names[n..]) {
      if n == 0 {
        assert names[0..] == names;
        MatchesByFolders(rest, path);
      } else {
        var i := SlashBeforeNames(path, n);
        MatchesByFolders(rest, path[i + 1..]);
      }
    }
  }

  lemma LastNameByFolders(name: seq<Piece>, path: string)
    requires forall i | 0 <= i < |name| :: InOneName(name[i])
    ensures Matches(name, path) <==> Fits([Name(name)], NamesOf(path))
  {
    FewerNames(path);
    if Matches(name, path) {
      NamesHoldNoSlash(name, path);
    }
  }

  /** A name, a slash and the rest, given that the rest matches by folders. */
  lemma FirstNameByFolders(name: seq<Piece>, rest: seq<Piece>, levels: seq<Level>, path: string)
    requires forall i | 0 <= i < |name| :: InOneName(name[i])
    requires |levels| > 0 && forall s :: Matches(rest, s) <==> Fits(levels, NamesOf(s))
    ensures Matches(name + [Letter('/')] + rest, path) <==> Fits([Name(name)] + levels, NamesOf(path))
  {
    var names := NamesOf(path);
    FewerNames(path);
    NameStopsAtTheSlash(name, rest, path);
    assert ([Name(name)] + levels)[1..] == levels;
    if '/' in path {
      var after := path[Find(path, '/').value + 1..];
      assert names[1..] == NamesOf(after);
      assert Matches(rest, after) <==> Fits(levels, NamesOf(after));
    } else {
      NothingFits(levels);
      assert names[1..] == [];
    }
  }

  lemma {:induction false} NameByFolders(plain: seq<Piece>, path: string)
    requires Whole(plain) && plain != [] && plain != [Anything] && !plain[0].Folders?
    ensures Matches(plain, path) <==> Fits(Levels(plain), NamesOf(path))
    decreases |plain|, 0
  {
    var end := NameEnd(plain);
    if end == |plain| {
      LastNameByFolders(plain, path);
    } else {
      var rest := plain[end + 1..];
      forall s ensures Matches(rest, s) <==> Fits(Levels(rest), NamesOf(s)) {
        MatchesByFolders(rest, s);
      }
      FirstNameByFolders(plain[..end], rest, Levels(rest), path);
      CutAt(plain, end);
    }
  }

  lemma CutAt(plain: seq<Piece>, end: nat)
    requires end < |plain|
    ensures plain == plain[..end] + [plain[end]] + plain[end + 1..]
  {
  }

  lemma NothingFits(levels: seq<Level>)
    requires |levels| > 0
    ensures !Fits(levels, [])
  {
  }

  ghost predicate FitsFor(plain: seq<Piece>, path: string) {
    Whole(plain) && Fits(Levels(plain), NamesOf(path))
  }

  /** Every `**` of every choice is a whole folder. */
  ghost predicate WholeFolders(pieces: seq<Piece>) {
    forall plain | Chooses(pieces, plain) :: Whole(plain)
  }

  lemma MatchesFor(plain: seq<Piece>, path: string)
    requires Whole(plain)
    ensures Matches(plain, path) <==> FitsFor(plain, path)
  {
    MatchesByFolders(plain, path);
  }

  /**
   * A glob whose every `**` is a whole folder matches a path exactly when some choice at its braces
   * fits the path folder by folder.
   */
  lemma GlobMatchesByFolders(pieces: seq<Piece>, path: string)
    requires WholeFolders(pieces)
    ensures Matches(pieces, path) <==> exists plain :: Chooses(pieces, plain) && FitsFor(plain, path)
  {
    if Matches(pieces, path) {
      var plain := ChoiceMade(pieces, path);
      MatchesFor(plain, path);
      assert Chooses(pieces, plain) && FitsFor(plain, path);
    } else {
      forall plain | Chooses(pieces, plain) ensures !FitsFor(plain, path) {
        MatchesFor(plain, path);
        if Matches(plain, path) {
          ChosenMatches(pieces, plain, path);
        }
      }
    }
  }
}
