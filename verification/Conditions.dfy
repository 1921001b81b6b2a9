/**
 * The query builder of backend/src/db.rs: `escape_like` against what LIKE reads, and `Conditions`
 * against the rows its text and its values keep together.
 */
module Conditions {
  import opened Options

  // ----- LIKE, as SQLite reads it with the escape character '\'

  /** ASCII letters in any case; every other character is itself. */
  function Fold(c: char): char {
    if 'A' <= c <= 'Z' then c + ' ' else c
  }

  predicate Like(pattern: string, text: string)
    decreases |pattern| + |text|
  {
    if pattern == "" then text == ""
    else if pattern[0] == '%' then Like(pattern[1..], text) || (text != "" && Like(pattern, text[1..]))
    else if text == "" then false
    else if pattern[0] == '_' then Like(pattern[1..], text[1..])
    else if pattern[0] == '\\' then
      |pattern| > 1 && Fold(pattern[1]) == Fold(text[0]) && Like(pattern[2..], text[1..])
    else Fold(pattern[0]) == Fold(text[0]) && Like(pattern[1..], text[1..])
  }

  /** Two characters read alike when they are one, or the two cases of one ASCII letter. */
  lemma FoldsAlike(a: char, b: char)
    ensures Fold(a) == Fold(b) <==> a == b || TwoCases(a, b) || TwoCases(b, a)
  {
  }

  predicate TwoCases(upper: char, lower: char) {
    65 <= upper as int <= 90 && lower as int == upper as int + 32
  }

  predicate IsSpecial(c: char) {
    c == '%' || c == '_' || c == '\\'
  }

  function Escaped(input: string): string {
    if input == "" then ""
    else
      var last := input[|input| - 1];
      Escaped(input[..|input| - 1]) + if IsSpecial(last) then ['\\', last] else [last]
  }

  method EscapeLike(input: string) returns (escaped: string)
    ensures escaped == Escaped(input)
  {
    escaped := "";
    for at := 0 to |input|
      invariant escaped == Escaped(input[..at])
    {
      assert input[..at + 1][..at] == input[..at];
      if IsSpecial(input[at]) {
        escaped := escaped + ['\\'];
      }
      escaped := escaped + [input[at]];
    }
    assert input[..|input|] == input;
  }

  /** `value` stands at `i` of `text`, ASCII letters in any case. */
  predicate StandsAt(value: string, text: string, i: nat) {
    i + |value| <= |text| && forall k | 0 <= k < |value| :: Fold(text[i + k]) == Fold(value[k])
  }

  lemma {:induction false} EscapedFirst(value: string)
    requires value != ""
    ensures Escaped(value) == (if IsSpecial(value[0]) then ['\\', value[0]] else [value[0]]) + Escaped(value[1..])
    decreases |value|
  {
    if |value| > 1 {
      var last := |value| - 1;
      EscapedFirst(value[..last]);
      assert value[..last][1..] == value[1..][..last - 1];
      assert value[1..][last - 1] == value[last];
    } else {
      assert Escaped(value[..0]) == "" && Escaped(value[1..]) == "";
    }
  }

  /** An escaped value at the head of a pattern reads itself, and then the rest of the pattern. */
  lemma {:induction false} EscapedReadsItself(value: string, rest: string, text: string)
    ensures Like(Escaped(value) + rest, text) <==> StandsAt(value, text, 0) && Like(rest, text[|value|..])
    decreases |value|
  {
    if value == "" {
      assert Escaped(value) + rest == rest && text[0..] == text;
    } else {
      var head := if IsSpecial(value[0]) then ['\\', value[0]] else [value[0]];
      EscapedFirst(value);
      var pattern := Escaped(value) + rest;
      assert pattern[|head|..] == Escaped(value[1..]) + rest;
      if text != "" {
        EscapedReadsItself(value[1..], rest, text[1..]);
        if |value| <= |text| {
          assert text[1..][|value| - 1..] == text[|value|..];
        }
        StandsNext(value, text);
      }
    }
  }

  lemma StandsNext(value: string, text: string)
    requires value != "" && text != ""
    ensures StandsAt(value, text, 0) <==> Fold(text[0]) == Fold(value[0]) && StandsAt(value[1..], text[1..], 0)
  {
    if StandsAt(value, text, 0) {
      forall k | 0 <= k < |value[1..]| ensures Fold(text[1..][k]) == Fold(value[1..][k]) {
        assert Fold(text[0 + (k + 1)]) == Fold(value[k + 1]);
      }
    }
    if Fold(text[0]) == Fold(value[0]) && StandsAt(value[1..], text[1..], 0) {
      forall k | 0 <= k < |value| ensures Fold(text[0 + k]) == Fold(value[k]) {
        if k > 0 {
          assert Fold(text[1..][0 + (k - 1)]) == Fold(value[1..][k - 1]);
        }
      }
    }
  }

  lemma {:induction false} PercentSkips(rest: string, text: string)
    ensures Like("%" + rest, text) <==> exists i | 0 <= i <= |text| :: Like(rest, text[i..])
    decreases |text|
  {
    assert ("%" + rest)[1..] == rest && text[0..] == text;
    if text != "" {
      PercentSkips(rest, text[1..]);
      forall i | 0 <= i < |text| ensures text[1..][i..] == text[i + 1..] {
      }
      if i :| 0 <= i <= |text| && Like(rest, text[i..]) {
        if i > 0 {
          assert Like(rest, text[1..][i - 1..]);
        }
      }
    }
  }

  /** A search finds a text exactly when what was typed stands in it, whatever characters it holds. */
  lemma SearchFindsWhatWasTyped(value: string, text: string)
    ensures Like("%" + Escaped(value) + "%", text) <==> exists i: nat :: StandsAt(value, text, i)
  {
    assert "%" + Escaped(value) + "%" == "%" + (Escaped(value) + "%");
    PercentSkips(Escaped(value) + "%", text);
    forall i | 0 <= i <= |text|
      ensures Like(Escaped(value) + "%", text[i..]) <==> StandsAt(value, text, i)
    {
      EscapedReadsItself(value, "%", text[i..]);
      if StandsAt(value, text[i..], 0) {
        PercentSkips("", text[i..][|value|..]);
        assert Like("", text[i..][|value|..][|text[i..][|value|..]|..]);
        assert "%" + "" == "%";
      }
      assert StandsAt(value, text[i..], 0) <==> StandsAt(value, text, i);
    }
  }

  /** Typed as it is, an underscore finds every text that is not empty; escaped, those that hold one. */
  lemma UnderscoreStandsForAny(text: string)
    ensures Like("%_%", text) <==> text != ""
    ensures Like("%" + Escaped("_") + "%", text) <==> '_' in text
  {
    assert "%_%" == "%" + "_%" && "_%"[1..] == "%" && "%"[1..] == "";
    PercentSkips("_%", text);
    PercentSkips("", text[|text|..]);
    if text != "" {
      assert text[0..] == text;
      PercentSkips("", text[1..]);
      assert Like("", text[1..][|text| - 1..]);
      assert "%" + "" == "%";
      assert Like("_%", text[0..]);
    }
    SearchFindsWhatWasTyped("_", text);
    if '_' in text {
      var i :| 0 <= i < |text| && text[i] == '_';
      assert StandsAt("_", text, i);
    }
    if i: nat :| StandsAt("_", text, i) {
      assert Fold(text[i + 0]) == Fold("_"[0]);
      FoldsAlike(text[i], '_');
    }
  }

  // ----- the statement and its values

  datatype Operator = Is | SamePath | Contains | NotBefore | Before

  /** One condition of the text: a test of a column against the next value bound, or one with none to bind. */
  datatype Clause = Test(column: string, operator: Operator) | Raw(condition: string, negated: bool)

  /** What stands around the `?` of a test. */
  function Around(operator: Operator): (string, string) {
    match operator
    case Is => ("= ", "")
    case SamePath => ("= ", " COLLATE path")
    case Contains => ("LIKE ", " ESCAPE '\\'")
    case NotBefore => (">= ", "")
    case Before => ("< ", "")
  }

  function OperatorText(operator: Operator): string {
    Around(operator).0 + "?" + Around(operator).1
  }

  function ClauseText(alias: string, clause: Clause): string {
    match clause
    case Test(column, operator) => " AND " + alias + "." + column + " " + OperatorText(operator)
    case Raw(condition, negated) => if negated then " AND NOT (" + condition + ")" else " AND (" + condition + ")"
  }

  /** Each test, as the statement has it. */
  lemma TestText(alias: string, column: string, operator: Operator)
    ensures ClauseText(alias, Test(column, operator)) == " AND " + alias + "." + column + match operator
      case Is => " = ?"
      case SamePath => " = ? COLLATE path"
      case Contains => " LIKE ? ESCAPE '\\'"
      case NotBefore => " >= ?"
      case Before => " < ?"
  {
    var head, test := " AND " + alias + "." + column, OperatorText(operator);
    assert head + " " + test == head + (" " + test);
    match operator
    case Is => assert " " + test == " = ?";
    case SamePath => assert " " + test == " = ? COLLATE path";
    case Contains => assert " " + test == " LIKE ? ESCAPE '\\'";
    case NotBefore => assert " " + test == " >= ?";
    case Before => assert " " + test == " < ?";
  }

  function Rendered(alias: string, clauses: seq<Clause>): string {
    if clauses == [] then "" else Rendered(alias, clauses[..|clauses| - 1]) + ClauseText(alias, clauses[|clauses| - 1])
  }

  /** A row's columns, and what it makes of a raw condition: `None` is NULL in both. */
  datatype Row = Row(column: string -> Option<string>, condition: string -> Option<bool>)

  /** The `path` collation's key of a folder. */
  datatype Collation = Collation(key: string -> string)

  /** The order of stored timestamps: character by character. */
  predicate Less(a: string, b: string) {
    b != "" && (a == "" || a[0] < b[0] || (a[0] == b[0] && Less(a[1..], b[1..])))
  }

  /** At the first character they differ by, or where the first text ends and the second goes on. */
  predicate DiffersAt(a: string, b: string, k: nat) {
    k <= |a| && k < |b| && a[..k] == b[..k] && (k == |a| || a[k] < b[k])
  }

  lemma {:induction false} LessAtTheFirstDifference(a: string, b: string)
    ensures Less(a, b) <==> exists k: nat :: DiffersAt(a, b, k)
    decreases |a|
  {
    if a != "" && b != "" && a[0] == b[0] {
      LessAtTheFirstDifference(a[1..], b[1..]);
      if k: nat :| DiffersAt(a[1..], b[1..], k) {
        assert a[..k + 1] == [a[0]] + a[1..][..k] && b[..k + 1] == [b[0]] + b[1..][..k];
        assert DiffersAt(a, b, k + 1);
      }
      if k: nat :| DiffersAt(a, b, k) {
        assert k > 0;
        assert a[1..][..k - 1] == a[..k][1..] && b[1..][..k - 1] == b[..k][1..];
        assert DiffersAt(a[1..], b[1..], k - 1);
      }
    } else {
      if Less(a, b) {
        assert DiffersAt(a, b, 0);
      }
      if k: nat :| DiffersAt(a, b, k) {
        assert k > 0 ==> a[..k][0] == b[..k][0];
      }
    }
  }

  predicate Passes(c: Collation, operator: Operator, stored: string, bound: string) {
    match operator
    case Is => stored == bound
    case SamePath => c.key(stored) == c.key(bound)
    case Contains => Like(bound, stored)
    case NotBefore => !Less(stored, bound)
    case Before => Less(stored, bound)
  }

  /** A row the statement keeps: each `?` takes the next of the values, and NULL passes nothing. */
  predicate Keeps(c: Collation, clauses: seq<Clause>, binds: seq<string>, row: Row)
    decreases |clauses|
  {
    if clauses == [] then true
    else match clauses[0]
      case Test(column, operator) =>
        binds != [] && row.column(column).Some? &&
        Passes(c, operator, row.column(column).value, binds[0]) && Keeps(c, clauses[1..], binds[1..], row)
      case Raw(condition, negated) =>
        row.condition(condition) == Some(!negated) && Keeps(c, clauses[1..], binds, row)
  }

  /** One call of the builder. */
  datatype Call =
    | Equal(column: string, value: Option<string>)
    | SameFolder(column: string, value: Option<string>)
    | Containing(column: string, value: Option<string>)
    | From(column: string, value: Option<string>)
    | Until(column: string, value: Option<string>)
    | Holds(condition: string)
    | Fails(condition: string)

  /** What a caller asks of a row by it: nothing, where it gives no value. */
  ghost predicate Satisfies(c: Collation, row: Row, call: Call) {
    match call
    case Equal(column, Some(value)) => row.column(column) == Some(value)
    case SameFolder(column, Some(value)) => row.column(column).Some? && c.key(row.column(column).value) == c.key(value)
    case Containing(column, Some(value)) =>
      row.column(column).Some? && exists i: nat :: StandsAt(value, row.column(column).value, i)
    case From(column, Some(value)) => row.column(column).Some? && !Less(row.column(column).value, value)
    case Until(column, Some(value)) => row.column(column).Some? && Less(row.column(column).value, value)
    case Holds(condition) => row.condition(condition) == Some(true)
    case Fails(condition) => row.condition(condition) == Some(false)
    case _ => true
  }

  function ClauseOf(call: Call): Option<(Clause, seq<string>)> {
    match call
    case Equal(column, Some(value)) => Some((Test(column, Is), [value]))
    case SameFolder(column, Some(value)) => Some((Test(column, SamePath), [value]))
    case Containing(column, Some(value)) => Some((Test(column, Contains), ["%" + Escaped(value) + "%"]))
    case From(column, Some(value)) => Some((Test(column, NotBefore), [value]))
    case Until(column, Some(value)) => Some((Test(column, Before), [value]))
    case Holds(condition) => Some((Raw(condition, false), []))
    case Fails(condition) => Some((Raw(condition, true), []))
    case _ => None
  }

  function Clauses(calls: seq<Call>): seq<Clause> {
    if calls == [] then []
    else
      var before, last := Clauses(calls[..|calls| - 1]), ClauseOf(calls[|calls| - 1]);
      if last.Some? then before + [last.value.0] else before
  }

  function Binds(calls: seq<Call>): seq<string> {
    if calls == [] then []
    else
      var before, last := Binds(calls[..|calls| - 1]), ClauseOf(calls[|calls| - 1]);
      if last.Some? then before + last.value.1 else before
  }

  function Marks(clauses: seq<Clause>): nat {
    if clauses == [] then 0 else (if clauses[0].Test? then 1 else 0) + Marks(clauses[1..])
  }

  lemma {:induction false} MarksAppend(clauses: seq<Clause>, clause: Clause)
    ensures Marks(clauses + [clause]) == Marks(clauses) + if clause.Test? then 1 else 0
    decreases |clauses|
  {
    if clauses == [] {
      assert clauses + [clause] == [clause];
    } else {
      MarksAppend(clauses[1..], clause);
      assert (clauses + [clause])[1..] == clauses[1..] + [clause];
    }
  }

  /** A clause after the others reads the values after theirs. */
  lemma {:induction false} KeepsAppend(c: Collation, clauses: seq<Clause>, binds: seq<string>, clause: Clause,
                                       more: seq<string>, row: Row)
    requires |binds| == Marks(clauses)
    ensures Keeps(c, clauses + [clause], binds + more, row) <==>
      Keeps(c, clauses, binds, row) && Keeps(c, [clause], more, row)
    decreases |clauses|
  {
    if clauses == [] {
      assert clauses + [clause] == [clause] && binds + more == more;
    } else {
      assert (clauses + [clause])[1..] == clauses[1..] + [clause];
      if clauses[0].Test? {
        assert (binds + more)[1..] == binds[1..] + more;
        KeepsAppend(c, clauses[1..], binds[1..], clause, more, row);
      } else {
        KeepsAppend(c, clauses[1..], binds, clause, more, row);
      }
    }
  }

  lemma ClauseKeepsWhatItAsks(c: Collation, row: Row, call: Call)
    requires ClauseOf(call).Some?
    ensures Keeps(c, [ClauseOf(call).value.0], ClauseOf(call).value.1, row) <==> Satisfies(c, row, call)
  {
    var (clause, binds) := ClauseOf(call).value;
    assert [clause][1..] == [];
    if call.Containing? && row.column(call.column).Some? {
      SearchFindsWhatWasTyped(call.value.value, row.column(call.column).value);
    }
  }

  ghost predicate SatisfiesAll(c: Collation, row: Row, calls: seq<Call>) {
    forall call | call in calls :: Satisfies(c, row, call)
  }

  lemma SatisfiesOneMore(c: Collation, row: Row, before: seq<Call>, last: Call)
    ensures SatisfiesAll(c, row, before + [last]) <==> SatisfiesAll(c, row, before) && Satisfies(c, row, last)
  {
    assert last in before + [last] && forall call | call in before :: call in before + [last];
  }

  /** However the calls come, the statement and its values keep exactly the rows every call asks for. */
  lemma {:induction false} StatementKeepsWhatEveryCallAsks(c: Collation, row: Row, calls: seq<Call>)
    ensures |Binds(calls)| == Marks(Clauses(calls))
    ensures Keeps(c, Clauses(calls), Binds(calls), row) <==> SatisfiesAll(c, row, calls)
    decreases |calls|
  {
    BindsMarked(calls);
    if calls != [] {
      var before, last := calls[..|calls| - 1], calls[|calls| - 1];
      StatementKeepsWhatEveryCallAsks(c, row, before);
      assert calls == before + [last];
      SatisfiesOneMore(c, row, before, last);
      if ClauseOf(last).Some? {
        var (clause, binds) := ClauseOf(last).value;
        KeepsAppend(c, Clauses(before), Binds(before), clause, binds, row);
        ClauseKeepsWhatItAsks(c, row, last);
      }
    }
  }

  // ----- the question marks of the text

  function QuestionMarks(text: string): nat {
    if text == "" then 0 else (if text[0] == '?' then 1 else 0) + QuestionMarks(text[1..])
  }

  lemma {:induction false} QuestionMarksAdd(a: string, b: string)
    ensures QuestionMarks(a + b) == QuestionMarks(a) + QuestionMarks(b)
  {
    if a == "" {
      assert a + b == b;
    } else {
      assert (a + b)[1..] == a[1..] + b;
      QuestionMarksAdd(a[1..], b);
    }
  }

  lemma {:induction false} NoQuestionMark(text: string)
    requires '?' !in text
    ensures QuestionMarks(text) == 0
  {
    if text != "" {
      NoQuestionMark(text[1..]);
    }
  }

  /** The names and the raw conditions callers give hold no `?` of their own. */
  predicate AsksNothing(clause: Clause) {
    match clause
    case Test(column, _) => '?' !in column
    case Raw(condition, _) => '?' !in condition
  }

  lemma OperatorAsksOnce(operator: Operator)
    ensures QuestionMarks(OperatorText(operator)) == 1
  {
    var (before, after) := Around(operator);
    OneMarkIn(before, after);
  }

  lemma OneMarkIn(before: string, after: string)
    requires '?' !in before && '?' !in after
    ensures QuestionMarks(before + "?" + after) == 1
  {
    NoQuestionMark(before);
    NoQuestionMark(after);
    QuestionMarksAdd(before + "?", after);
    QuestionMarksAdd(before, "?");
  }

  lemma ClauseAsksOnce(alias: string, clause: Clause)
    requires '?' !in alias && AsksNothing(clause)
    ensures QuestionMarks(ClauseText(alias, clause)) == if clause.Test? then 1 else 0
  {
    match clause
    case Test(column, operator) =>
      var name := " AND " + alias + "." + column + " ";
      NoQuestionMark(name);
      OperatorAsksOnce(operator);
      QuestionMarksAdd(name, OperatorText(operator));
    case Raw(_, _) =>
      NoQuestionMark(ClauseText(alias, clause));
  }

  predicate AllAskNothing(clauses: seq<Clause>) {
    forall clause | clause in clauses :: AsksNothing(clause)
  }

  lemma {:induction false} RenderedAsks(alias: string, clauses: seq<Clause>)
    requires '?' !in alias && AllAskNothing(clauses)
    ensures QuestionMarks(Rendered(alias, clauses)) == Marks(clauses)
    decreases |clauses|
  {
    if clauses != [] {
      var before, last := clauses[..|clauses| - 1], clauses[|clauses| - 1];
      assert clauses == before + [last] && last in clauses;
      RenderedAsks(alias, before);
      ClauseAsksOnce(alias, last);
      QuestionMarksAdd(Rendered(alias, before), ClauseText(alias, last));
      MarksAppend(before, last);
    }
  }

  lemma {:induction false} BindsMarked(calls: seq<Call>)
    ensures |Binds(calls)| == Marks(Clauses(calls))
    decreases |calls|
  {
    if calls != [] {
      BindsMarked(calls[..|calls| - 1]);
      var last := ClauseOf(calls[|calls| - 1]);
      if last.Some? {
        MarksAppend(Clauses(calls[..|calls| - 1]), last.value.0);
      }
    }
  }

  /** The text asks for as many values as are bound. */
  lemma TextAsksForItsValues(alias: string, calls: seq<Call>)
    requires '?' !in alias && AllAskNothing(Clauses(calls))
    ensures QuestionMarks(Rendered(alias, Clauses(calls))) == |Binds(calls)|
  {
    RenderedAsks(alias, Clauses(calls));
    BindsMarked(calls);
  }

  class Builder {
    const alias: string
    var sql: string
    var binds: seq<string>
    ghost var calls: seq<Call>

    constructor (alias: string)
      ensures Valid() && calls == [] && this.alias == alias
    {
      this.alias, sql, binds, calls := alias, "", [], [];
    }

    ghost predicate Valid()
      reads this
    {
      sql == Rendered(alias, Clauses(calls)) && binds == Binds(calls)
    }

    method Push(clause: Clause, values: seq<string>, ghost call: Call)
      requires Valid() && ClauseOf(call) == Some((clause, values))
      modifies this
      ensures Valid() && calls == old(calls) + [call]
      ensures sql == old(sql) + ClauseText(alias, clause) && binds == old(binds) + values
    {
      OneMore(alias, calls, call);
      sql := sql + ClauseText(alias, clause);
      binds := binds + values;
      calls := calls + [call];
    }

    method Skip(ghost call: Call)
      requires Valid() && ClauseOf(call).None?
      modifies this`calls
      ensures Valid() && calls == old(calls) + [call]
    {
      OneMore(alias, calls, call);
      calls := calls + [call];
    }

    method Equal(column: string, value: Option<string>)
      requires Valid()
      modifies this
      ensures Valid() && calls == old(calls) + [Call.Equal(column, value)]
      ensures sql == old(sql) + if value.Some? then " AND " + alias + "." + column + " = ?" else ""
      ensures binds == old(binds) + if value.Some? then [value.value] else []
    {
      TestText(alias, column, Is);
      match value {
        case Some(v) => Push(Test(column, Is), [v], Call.Equal(column, value));
        case None => Skip(Call.Equal(column, value));
      }
    }

    method SamePath(column: string, value: Option<string>)
      requires Valid()
      modifies this
      ensures Valid() && calls == old(calls) + [SameFolder(column, value)]
      ensures sql == old(sql) + if value.Some? then " AND " + alias + "." + column + " = ? COLLATE path" else ""
      ensures binds == old(binds) + if value.Some? then [value.value] else []
    {
      TestText(alias, column, Operator.SamePath);
      match value {
        case Some(v) => Push(Test(column, Operator.SamePath), [v], SameFolder(column, value));
        case None => Skip(SameFolder(column, value));
      }
    }

    method Contains(column: string, value: Option<string>)
      requires Valid()
      modifies this
      ensures Valid() && calls == old(calls) + [Containing(column, value)]
      ensures sql == old(sql) + if value.Some? then " AND " + alias + "." + column + " LIKE ? ESCAPE '\\'" else ""
      ensures binds == old(binds) + if value.Some? then ["%" + Escaped(value.value) + "%"] else []
    {
      TestText(alias, column, Operator.Contains);
      match value {
        case Some(v) =>
          var escaped := EscapeLike(v);
          Push(Test(column, Operator.Contains), ["%" + escaped + "%"], Containing(column, value));
        case None => Skip(Containing(column, value));
      }
    }

    method From(column: string, value: Option<string>)
      requires Valid()
      modifies this
      ensures Valid() && calls == old(calls) + [Call.From(column, value)]
      ensures sql == old(sql) + if value.Some? then " AND " + alias + "." + column + " >= ?" else ""
      ensures binds == old(binds) + if value.Some? then [value.value] else []
    {
      TestText(alias, column, NotBefore);
      match value {
        case Some(v) => Push(Test(column, NotBefore), [v], Call.From(column, value));
        case None => Skip(Call.From(column, value));
      }
    }

    method Before(column: string, value: Option<string>)
      requires Valid()
      modifies this
      ensures Valid() && calls == old(calls) + [Until(column, value)]
      ensures sql == old(sql) + if value.Some? then " AND " + alias + "." + column + " < ?" else ""
      ensures binds == old(binds) + if value.Some? then [value.value] else []
    {
      TestText(alias, column, Operator.Before);
      match value {
        case Some(v) => Push(Test(column, Operator.Before), [v], Until(column, value));
        case None => Skip(Until(column, value));
      }
    }

    method Holds(condition: string)
      requires Valid()
      modifies this
      ensures Valid() && calls == old(calls) + [Call.Holds(condition)]
      ensures sql == old(sql) + " AND (" + condition + ")" && binds == old(binds)
    {
      Push(Raw(condition, false), [], Call.Holds(condition));
    }

    method Fails(condition: string)
      requires Valid()
      modifies this
      ensures Valid() && calls == old(calls) + [Call.Fails(condition)]
      ensures sql == old(sql) + " AND NOT (" + condition + ")" && binds == old(binds)
    {
      Push(Raw(condition, true), [], Call.Fails(condition));
    }
  }

  lemma OneMore(alias: string, calls: seq<Call>, call: Call)
    ensures Rendered(alias, Clauses(calls + [call])) == Rendered(alias, Clauses(calls)) +
      if ClauseOf(call).Some? then ClauseText(alias, ClauseOf(call).value.0) else ""
    ensures Binds(calls + [call]) == Binds(calls) + if ClauseOf(call).Some? then ClauseOf(call).value.1 else []
  {
    assert (calls + [call])[..|calls|] == calls;
    if ClauseOf(call).Some? {
      var clauses, clause := Clauses(calls), ClauseOf(call).value.0;
      assert (clauses + [clause])[..|clauses|] == clauses;
    }
  }
}
