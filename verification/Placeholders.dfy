/**
 * Text put together for a person, backend/src/localization.rs: placeholders replaced in one pass, and
 * the digits of a count grouped.
 */
module Placeholders {
  import opened Options
  import opened Texts

  // ----- placeholders

  /** Names beside their values; of two with one name, the first counts. */
  type Params = seq<(string, string)>

  function ValueOf(params: Params, name: string): (value: Option<string>)
    ensures value.None? <==> forall i | 0 <= i < |params| :: params[i].0 != name
  {
    if params == [] then None
    else if params[0].0 == name then Some(params[0].1)
    else ValueOf(params[1..], name)
  }

  /** Of two with one name, the first counts. */
  lemma {:induction false} FirstCounts(params: Params, i: nat)
    requires i < |params| && forall j | 0 <= j < i :: params[j].0 != params[i].0
    ensures ValueOf(params, params[i].0) == Some(params[i].1)
  {
    if i > 0 {
      FirstCounts(params[1..], i - 1);
    }
  }

  /** What the first brace of `after` closes, when it is a known name. */
  function Known(params: Params, after: string): Option<(string, nat)> {
    match Find(after, '}')
    case None => None
    case Some(close) =>
      match ValueOf(params, after[..close])
      case None => None
      case Some(value) => Some((value, close))
  }

  /** What stands for the text up to the brace at `start` and for what it opens, and what is left to read. */
  function TurnAt(template: string, start: nat, params: Params): (turn: (string, string))
    requires start < |template|
    ensures |turn.1| < |template|
  {
    var before, after := template[..start], template[start + 1..];
    match Known(params, after)
    case Some((value, close)) => (before + value, after[close + 1..])
    case None => (before + "{", after)
  }

  function Turn(template: string, params: Params): (turn: Option<(string, string)>)
    ensures turn.None? <==> '{' !in template
    ensures turn.Some? ==> |turn.value.1| < |template|
  {
    match Find(template, '{')
    case None => None
    case Some(start) => Some(TurnAt(template, start, params))
  }

  function Substituted(template: string, params: Params): string
    decreases |template|
  {
    match Turn(template, params)
    case None => template
    case Some((text, rest)) => text + Substituted(rest, params)
  }

  lemma Regrouped(a: string, b: string, c: string)
    ensures (a + b) + c == a + (b + c)
  {
  }

  method Substitute(template: string, params: Params) returns (out: string)
    ensures out == Substituted(template, params)
  {
    if params == [] || '{' !in template {
      NothingKnown(template, params);
      return template;
    }
    out := "";
    var rest := template;
    while '{' in rest
      invariant out + Substituted(rest, params) == Substituted(template, params)
      decreases |rest|
    {
      var start := Find(rest, '{').value;
      var after := rest[start + 1..];
      ghost var turn := Turn(rest, params).value;
      Regrouped(out, turn.0, Substituted(turn.1, params));
      match Known(params, after) {
        case Some((value, close)) =>
          Regrouped(out, rest[..start], value);
          out := out + rest[..start] + value;
          rest := after[close + 1..];
        case None =>
          Regrouped(out, rest[..start], "{");
          out := out + rest[..start] + "{";
          rest := after;
      }
    }
    out := out + rest;
  }

  /** Nowhere in the template does a brace open a name of `params`. */
  ghost predicate NamesNothing(template: string, params: Params) {
    forall i | 0 <= i < |template| && template[i] == '{' :: Known(params, template[i + 1..]).None?
  }

  /** A template that names nothing known stays as it is, its braces included. */
  lemma {:induction false} KeptAsItIs(template: string, params: Params)
    requires NamesNothing(template, params)
    ensures Substituted(template, params) == template
    decreases |template|
  {
    var at := Find(template, '{');
    if at.Some? {
      var start, after := at.value, template[at.value + 1..];
      assert Known(params, after).None?;
      assert Turn(template, params) == Some((template[..start] + "{", after));
      NamesNothingFurther(template, start, params);
      KeptAsItIs(after, params);
      CutAtBrace(template, start);
    }
  }

  lemma CutAtBrace(template: string, start: nat)
    requires start < |template| && template[start] == '{'
    ensures template == (template[..start] + "{") + template[start + 1..]
  {
  }

  lemma NamesNothingFurther(template: string, start: nat, params: Params)
    requires NamesNothing(template, params) && start < |template|
    ensures NamesNothing(template[start + 1..], params)
  {
    var after := template[start + 1..];
    forall i | 0 <= i < |after| && after[i] == '{' ensures Known(params, after[i + 1..]).None? {
      assert template[start + 1 + i] == '{';
      assert after[i + 1..] == template[start + 1 + i + 1..];
    }
  }

  lemma NothingKnown(template: string, params: Params)
    requires params == [] || '{' !in template
    ensures Substituted(template, params) == template
  {
    KeptAsItIs(template, params);
  }

  /** A template as its author thinks of it. */
  datatype Part = Literal(text: string) | Placeholder(name: string)

  /** No brace in `text` opens a known name in what `text` and then `rest` say. */
  ghost predicate OpensNothing(text: string, rest: string, params: Params) {
    forall i | 0 <= i < |text| && text[i] == '{' :: Known(params, (text + rest)[i + 1..]).None?
  }

  /** A part reads as its author means it before `rest`: a stray brace of it opens nothing known. */
  ghost predicate Reads(part: Part, rest: string, params: Params) {
    match part
    case Literal(text) => OpensNothing(text, rest, params)
    case Placeholder(name) =>
      '}' !in name && (ValueOf(params, name).Some? || OpensNothing(name + "}", rest, params))
  }

  ghost predicate ReadsAsMeant(parts: seq<Part>, params: Params) {
    parts != [] ==> Reads(parts[0], Written(parts[1..]), params) && ReadsAsMeant(parts[1..], params)
  }

  function Written(parts: seq<Part>): string {
    if parts == [] then ""
    else (match parts[0] case Literal(text) => text case Placeholder(name) => "{" + name + "}") + Written(parts[1..])
  }

  /** Each known placeholder replaced by its value, each other one kept, and nothing read twice. */
  function Filled(parts: seq<Part>, params: Params): string {
    if parts == [] then ""
    else
      var first := match parts[0]
        case Literal(text) => text
        case Placeholder(name) => (match ValueOf(params, name) case Some(value) => value case None => "{" + name + "}");
      first + Filled(parts[1..], params)
  }

  /** Where `c` first stands, it stands nowhere before. */
  lemma FirstStands(s: string, c: char, i: nat)
    requires i < |s| && s[i] == c && c !in s[..i]
    ensures Find(s, c) == Some(i)
  {
    var j := Find(s, c).value;
    assert forall k | 0 <= k < i :: s[..i][k] == s[k];
    assert forall k | 0 <= k < j :: s[..j][k] == s[k];
  }

  lemma FoundPast(text: string, rest: string, c: char)
    requires c !in text
    ensures Find(text + rest, c) == match Find(rest, c) case None => None case Some(i) => Some(|text| + i)
  {
    var at := Find(rest, c);
    if at.Some? {
      assert (text + rest)[..|text| + at.value] == text + rest[..at.value];
      FirstStands(text + rest, c, |text| + at.value);
    }
  }

  lemma TurnFurther(text: string, rest: string, start: nat, params: Params)
    requires start < |rest|
    ensures TurnAt(text + rest, |text| + start, params) ==
      (text + TurnAt(rest, start, params).0, TurnAt(rest, start, params).1)
  {
    assert (text + rest)[..|text| + start] == text + rest[..start];
    assert (text + rest)[|text| + start + 1..] == rest[start + 1..];
    match Known(params, rest[start + 1..])
    case None => Regrouped(text, rest[..start], "{");
    case Some((value, _)) => Regrouped(text, rest[..start], value);
  }

  lemma TurnPastText(text: string, rest: string, params: Params)
    requires '{' !in text
    ensures Turn(text + rest, params) ==
      match Turn(rest, params) case None => None case Some((more, left)) => Some((text + more, left))
  {
    FoundPast(text, rest, '{');
    var at := Find(rest, '{');
    if at.Some? {
      TurnFurther(text, rest, at.value, params);
    }
  }

  /** Text without an opening brace is copied. */
  lemma PlainIsCopied(text: string, rest: string, params: Params)
    requires '{' !in text
    ensures Substituted(text + rest, params) == text + Substituted(rest, params)
  {
    TurnPastText(text, rest, params);
    match Turn(rest, params)
    case None =>
    case Some((more, left)) => Regrouped(text, more, Substituted(left, params));
  }

  lemma FoundFirst(text: string, rest: string, c: char)
    requires c in text
    ensures Find(text + rest, c) == Find(text, c)
  {
    var at := Find(text, c).value;
    assert (text + rest)[..at] == text[..at];
    FirstStands(text + rest, c, at);
  }

  lemma CutInText(text: string, rest: string, start: nat)
    requires start < |text|
    ensures (text + rest)[..start] == text[..start] && (text + rest)[start + 1..] == text[start + 1..] + rest
  {
  }

  lemma OpensNothingFurther(text: string, rest: string, start: nat, params: Params)
    requires OpensNothing(text, rest, params) && start < |text|
    ensures OpensNothing(text[start + 1..], rest, params)
  {
    var after := text[start + 1..];
    forall i | 0 <= i < |after| && after[i] == '{' ensures Known(params, (after + rest)[i + 1..]).None? {
      assert text[start + 1 + i] == '{';
      assert (after + rest)[i + 1..] == (text + rest)[start + 1 + i + 1..];
    }
  }

  /** Text whose braces open nothing known is copied, braces and all. */
  lemma {:induction false} TextIsCopied(text: string, rest: string, params: Params)
    requires OpensNothing(text, rest, params)
    ensures Substituted(text + rest, params) == text + Substituted(rest, params)
    decreases |text|
  {
    if '{' !in text {
      PlainIsCopied(text, rest, params);
    } else {
      var start := Find(text, '{').value;
      var after := text[start + 1..];
      FoundFirst(text, rest, '{');
      CutInText(text, rest, start);
      assert Known(params, (text + rest)[start + 1..]).None?;
      assert Turn(text + rest, params) == Some((text[..start] + "{", after + rest));
      OpensNothingFurther(text, rest, start, params);
      TextIsCopied(after, rest, params);
      Regrouped(text[..start] + "{", after, Substituted(rest, params));
      CutAtBrace(text, start);
    }
  }

  lemma KnownName(name: string, rest: string, params: Params)
    requires '}' !in name
    ensures Known(params, name + "}" + rest) ==
      match ValueOf(params, name) case Some(value) => Some((value, |name|)) case None => None
    ensures (name + "}" + rest)[|name| + 1..] == rest
  {
    var after := name + ("}" + rest);
    assert name + "}" + rest == after;
    FoundPast(name, "}" + rest, '}');
    assert Find("}" + rest, '}') == Some(0);
    assert after[..|name|] == name;
  }

  lemma TurnAtBrace(after: string, params: Params)
    ensures Turn("{" + after, params) ==
      match Known(params, after)
      case Some((value, close)) => Some((value, after[close + 1..]))
      case None => Some(("{", after))
  {
    var s := "{" + after;
    assert s[0] == '{' && s[1..] == after && s[..0] == "";
    assert Find(s, '{') == Some(0);
    match Known(params, after)
    case None => assert "" + "{" == "{";
    case Some((value, close)) => assert "" + value == value;
  }

  lemma TurnAtPlaceholder(name: string, rest: string, params: Params)
    requires '}' !in name
    ensures Turn("{" + name + "}" + rest, params) ==
      match ValueOf(params, name) case Some(value) => Some((value, rest)) case None => Some(("{", name + "}" + rest))
  {
    var after := name + "}" + rest;
    assert "{" + name + "}" + rest == "{" + after;
    KnownName(name, rest, params);
    TurnAtBrace(after, params);
  }

  lemma PlaceholderIsFilled(name: string, rest: string, params: Params)
    requires Reads(Placeholder(name), rest, params)
    ensures Substituted("{" + name + "}" + rest, params) ==
      match ValueOf(params, name)
      case Some(value) => value + Substituted(rest, params)
      case None => "{" + name + "}" + Substituted(rest, params)
  {
    TurnAtPlaceholder(name, rest, params);
    if ValueOf(params, name).None? {
      TextIsCopied(name + "}", rest, params);
      Regrouped("{", name + "}", Substituted(rest, params));
      assert "{" + (name + "}") == "{" + name + "}";
    }
  }

  /** What an author writes comes out filled in, braces inside a value left as they are. */
  lemma {:induction false} WrittenIsFilled(parts: seq<Part>, params: Params)
    requires ReadsAsMeant(parts, params)
    ensures Substituted(Written(parts), params) == Filled(parts, params)
  {
    if parts != [] {
      WrittenIsFilled(parts[1..], params);
      match parts[0]
      case Literal(text) => TextIsCopied(text, Written(parts[1..]), params);
      case Placeholder(name) => PlaceholderIsFilled(name, Written(parts[1..]), params);
    }
  }

  lemma OneBraceOpensNothing(before: string, after: string, params: Params)
    requires '{' !in before && Known(params, after).None?
    ensures OpensNothing(before + "{", after, params)
  {
    assert ((before + "{") + after)[|before| + 1..] == after;
    assert forall i | 0 <= i < |before| :: (before + "{")[i] != '{';
  }

  lemma WrittenFurther(parts: seq<Part>, part: Part, params: Params)
    requires ReadsAsMeant(parts, params) && Reads(part, Written(parts), params)
    ensures ReadsAsMeant([part] + parts, params)
    ensures Written([part] + parts) ==
      (match part case Literal(text) => text case Placeholder(name) => "{" + name + "}") + Written(parts)
  {
    assert ([part] + parts)[1..] == parts;
  }

  lemma PlaceholderFurther(parts: seq<Part>, before: string, name: string, params: Params) returns (more: seq<Part>)
    requires ReadsAsMeant(parts, params)
    requires '{' !in before && '}' !in name && ValueOf(params, name).Some?
    ensures ReadsAsMeant(more, params) && Written(more) == before + ("{" + name + "}" + Written(parts))
  {
    WrittenFurther(parts, Placeholder(name), params);
    WrittenFurther([Placeholder(name)] + parts, Literal(before), params);
    more := [Literal(before)] + ([Placeholder(name)] + parts);
  }

  lemma CutAtPlaceholder(before: string, after: string, close: nat)
    requires close < |after| && after[close] == '}'
    ensures (before + "{") + after == before + ("{" + after[..close] + "}" + after[close + 1..])
  {
  }

  /** Every template, of whatever stray braces, is written of parts that read as they are meant. */
  lemma {:induction false} EveryTemplateIsWritten(template: string, params: Params) returns (parts: seq<Part>)
    ensures Written(parts) == template && ReadsAsMeant(parts, params)
    decreases |template|
  {
    var at := Find(template, '{');
    if at.None? {
      WrittenFurther([], Literal(template), params);
      assert template + "" == template;
      return [Literal(template)] + [];
    }
    var before, after := template[..at.value], template[at.value + 1..];
    CutAtBrace(template, at.value);
    var known := Known(params, after);
    if known.None? {
      parts := EveryTemplateIsWritten(after, params);
      OneBraceOpensNothing(before, after, params);
      WrittenFurther(parts, Literal(before + "{"), params);
      parts := [Literal(before + "{")] + parts;
    } else {
      var close := known.value.1;
      parts := EveryTemplateIsWritten(after[close + 1..], params);
      CutAtPlaceholder(before, after, close);
      parts := PlaceholderFurther(parts, before, after[..close], params);
    }
  }

  // ----- grouped digits

  predicate Digit(c: char) {
    '0' <= c <= '9'
  }

  function Joined(parts: seq<string>): string {
    if parts == [] then "" else parts[0] + Joined(parts[1..])
  }

  /** Groups of three behind a first one of one to three. */
  predicate InThrees(parts: seq<string>) {
    |parts| > 0 && 1 <= |parts[0]| <= 3 && forall i | 1 <= i < |parts| :: |parts[i]| == 3
  }

  function Longer(parts: seq<string>, c: char, separator: char): (longer: seq<string>)
    requires |parts| > 0
    ensures |longer| > 0
  {
    var last := |parts| - 1;
    if c == separator then parts + [""] else parts[..last] + [parts[last] + [c]]
  }

  lemma LongerPast(first: string, more: seq<string>, c: char, separator: char)
    requires |more| > 0
    ensures Longer([first] + more, c, separator) == [first] + Longer(more, c, separator)
  {
  }

  lemma LongerFirst(a: char, more: seq<string>, c: char, separator: char)
    requires |more| > 0
    ensures var longer := Longer(more, c, separator);
      Longer([[a] + more[0]] + more[1..], c, separator) == [[a] + longer[0]] + longer[1..]
  {
    if |more| == 1 && c != separator {
      assert ([a] + more[0]) + [c] == [a] + (more[0] + [c]);
    }
  }

  /** One character more: another part after a separator, else the last part longer. */
  lemma {:induction false} SplitOneMore(s: string, c: char, separator: char)
    ensures Split(s + [c], {separator}) == Longer(Split(s, {separator}), c, separator)
    decreases |s|
  {
    if s == "" {
      assert Split([c][1..], {separator}) == [""];
      assert [c] + "" == [c] && "" + [c] == [c];
    } else {
      assert (s + [c])[1..] == s[1..] + [c];
      SplitOneMore(s[1..], c, separator);
      var more := Split(s[1..], {separator});
      LongerPast("", more, c, separator);
      LongerFirst(s[0], more, c, separator);
    }
  }

  lemma {:induction false} JoinedOneMore(parts: seq<string>, part: string)
    ensures Joined(parts + [part]) == Joined(parts) + part
  {
    if parts == [] {
      assert [part][1..] == [];
      assert part + "" == part;
    } else {
      assert (parts + [part])[1..] == parts[1..] + [part];
      JoinedOneMore(parts[1..], part);
    }
  }

  /** After `at` of `n` digits: full groups behind the first, and what the last one still lacks is a matter of three. */
  ghost predicate Grouping(grouped: string, separator: char, digits: string, at: nat)
    requires at <= |digits|
  {
    var parts := Split(grouped, {separator});
    var last := |parts| - 1;
    Joined(parts) == digits[..at] &&
    (forall i | 1 <= i < last :: |parts[i]| == 3) &&
    |parts[last]| <= 3 && (at > 0 ==> |parts[last]| > 0) &&
    (at > 0 && last > 0 ==> 1 <= |parts[0]| <= 3 && (|digits| - at + |parts[last]|) % 3 == 0) &&
    (at == 0 ==> last == 0) && (last == 0 ==> |parts[0]| == at && at <= (|digits| - 1) % 3 + 1)
  }

  lemma {:induction false} JoinedLonger(parts: seq<string>, c: char)
    requires |parts| > 0
    ensures Joined(parts[..|parts| - 1] + [parts[|parts| - 1] + [c]]) == Joined(parts) + [c]
  {
    var front, last := parts[..|parts| - 1], parts[|parts| - 1];
    JoinedOneMore(front, last);
    JoinedOneMore(front, last + [c]);
    assert front + [last] == parts;
  }

  lemma SeparatorAdded(grouped: string, separator: char, digits: string, at: nat)
    requires at < |digits| && !Digit(separator) && Grouping(grouped, separator, digits, at)
    requires at > 0 && (|digits| - at) % 3 == 0
    ensures var parts := Split(grouped + [separator], {separator});
      Joined(parts) == digits[..at] && |parts| > 1 && parts[|parts| - 1] == "" && 1 <= |parts[0]| <= 3 &&
      forall i | 1 <= i < |parts| - 1 :: |parts[i]| == 3
  {
    var parts := Split(grouped, {separator});
    SplitOneMore(grouped, separator, separator);
    JoinedOneMore(parts, "");
    assert Joined(parts) + "" == Joined(parts);
  }

  lemma DigitAddedAfter(grouped: string, separator: char, digits: string, at: nat)
    requires at < |digits| && digits[at] != separator && Joined(Split(grouped, {separator})) == digits[..at]
    requires var parts := Split(grouped, {separator});
      |parts| > 1 && parts[|parts| - 1] == "" && 1 <= |parts[0]| <= 3 &&
      forall i | 1 <= i < |parts| - 1 :: |parts[i]| == 3
    requires (|digits| - at) % 3 == 0
    ensures Grouping(grouped + [digits[at]], separator, digits, at + 1)
  {
    SplitOneMore(grouped, digits[at], separator);
    JoinedLonger(Split(grouped, {separator}), digits[at]);
    assert digits[..at] + [digits[at]] == digits[..at + 1];
  }

  /** Short of a group's end, its part has room for a digit more. */
  lemma RoomForOneMore(n: nat, at: nat, length: nat)
    requires at < n && (at > 0 ==> (n - at) % 3 != 0)
    ensures (n - at + length) % 3 == 0 && at > 0 && length <= 3 ==> length < 3
    ensures at <= (n - 1) % 3 + 1 ==> at + 1 <= (n - 1) % 3 + 1
  {
  }

  lemma DigitAdded(grouped: string, separator: char, digits: string, at: nat)
    requires at < |digits| && digits[at] != separator && Grouping(grouped, separator, digits, at)
    requires at == 0 || (|digits| - at) % 3 != 0
    ensures Grouping(grouped + [digits[at]], separator, digits, at + 1)
  {
    var parts, longer := Split(grouped, {separator}), Split(grouped + [digits[at]], {separator});
    var last := |parts| - 1;
    RoomForOneMore(|digits|, at, |parts[last]|);
    SplitOneMore(grouped, digits[at], separator);
    JoinedLonger(parts, digits[at]);
    assert digits[..at] + [digits[at]] == digits[..at + 1];
    assert longer == parts[..last] + [parts[last] + [digits[at]]];
    assert |longer| == |parts| && |longer[last]| == |parts[last]| + 1;
    assert forall i | 0 <= i < last :: longer[i] == parts[i];
  }

  lemma NextDigit(grouped: string, separator: char, digits: string, at: nat)
    requires at < |digits| && !Digit(separator) && digits[at] != separator && Grouping(grouped, separator, digits, at)
    ensures
      var before := if at > 0 && (|digits| - at) % 3 == 0 then grouped + [separator] else grouped;
      Grouping(before + [digits[at]], separator, digits, at + 1)
  {
    if at > 0 && (|digits| - at) % 3 == 0 {
      SeparatorAdded(grouped, separator, digits, at);
      DigitAddedAfter(grouped + [separator], separator, digits, at);
    } else {
      DigitAdded(grouped, separator, digits, at);
    }
  }

  lemma AllGrouped(grouped: string, separator: char, digits: string)
    requires digits != "" && Grouping(grouped, separator, digits, |digits|)
    ensures Joined(Split(grouped, {separator})) == digits && InThrees(Split(grouped, {separator}))
  {
    assert digits[..|digits|] == digits;
  }

  predicate Digits(s: string) {
    s != "" && forall i | 0 <= i < |s| :: Digit(s[i])
  }

  /** The digits of a whole number, behind its sign. */
  function Unsigned(value: string): string {
    if value != "" && value[0] == '-' then value[1..] else value
  }

  /** A whole number in decimal: a sign or none, and digits. */
  predicate IsWhole(value: string, sign: string, digits: string) {
    value == sign + digits && (sign == "" || sign == "-") && digits != "" &&
    forall i | 0 <= i < |digits| :: 48 <= digits[i] as int <= 57
  }

  /** What is grouped is every whole number, its digits told from its sign, and nothing else. */
  lemma WholeIsDigits(value: string, sign: string, digits: string)
    ensures IsWhole(value, sign, digits) <==>
      (Digits(Unsigned(value)) && digits == Unsigned(value) && sign == value[..|value| - |Unsigned(value)|])
  {
    if IsWhole(value, sign, digits) {
      assert value[|sign|] == digits[0];
      if sign == "-" {
        assert value[0] == '-' && value[1..] == digits;
      } else {
        assert value == digits;
      }
    }
    if value != "" && value[0] == '-' {
      assert value == "-" + value[1..] && value[..1] == "-";
    } else {
      assert value[..0] + value == value;
    }
  }

  /** `separator` and `shortest` are those of the language: fewer digits than `shortest` stay as they are. */
  method GroupDigits(separator: char, shortest: nat, value: string) returns (out: Option<string>)
    requires !Digit(separator)
    ensures out.None? <==> !Digits(Unsigned(value))
    ensures out.Some? && |Unsigned(value)| < shortest ==> out.value == value
    ensures out.Some? && |Unsigned(value)| >= shortest ==>
      exists grouped :: out.value == value[..|value| - |Unsigned(value)|] + grouped &&
        Joined(Split(grouped, {separator})) == Unsigned(value) && InThrees(Split(grouped, {separator}))
  {
    var digits := Unsigned(value);
    if !Digits(digits) {
      return None;
    }
    if |digits| < shortest {
      return Some(value);
    }
    var sign := value[..|value| - |digits|];
    var grouped := "";
    for at := 0 to |digits|
      invariant Grouping(grouped, separator, digits, at)
    {
      NextDigit(grouped, separator, digits, at);
      if at > 0 && (|digits| - at) % 3 == 0 {
        grouped := grouped + [separator];
      }
      grouped := grouped + [digits[at]];
    }
    AllGrouped(grouped, separator, digits);
    out := Some(sign + grouped);
  }
}
