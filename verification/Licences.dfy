/**
 * The licence expressions of scripts/check-licences.py: one pass over the tokens that reads and
 * decides at once, against the tree the tokens spell. `WITH` takes whatever comes next, and
 * nothing at all at the end, where the exception reads as "None".
 */
module Licences {
  import opened Options

  /** `OR` between `AND`s between terms, in the order written. */
  datatype Either = One(both: Both) | Or(both: Both, more: Either)
  datatype Both = Single(term: Term) | And(term: Term, others: Both)
  datatype Term =
    | Paren(inner: Either)
    | Licence(name: string)
    | With(name: string, exception: string)
    | WithNothing(name: string)

  // ----- the tokens a tree is spelled with

  function Spell(e: Either): (tokens: seq<string>)
    ensures |tokens| > 0
  {
    match e
    case One(both) => SpellBoth(both)
    case Or(both, more) => SpellBoth(both) + ["OR"] + Spell(more)
  }

  function SpellBoth(b: Both): (tokens: seq<string>)
    ensures |tokens| > 0
  {
    match b
    case Single(term) => SpellTerm(term)
    case And(term, others) => SpellTerm(term) + ["AND"] + SpellBoth(others)
  }

  function SpellTerm(t: Term): (tokens: seq<string>)
    ensures |tokens| > 0
  {
    match t
    case Paren(inner) => ["("] + Spell(inner) + [")"]
    case Licence(name) => [name]
    case With(name, exception) => [name, "WITH", exception]
    case WithNothing(name) => [name, "WITH"]
  }

  /** A token that names a licence where one belongs. */
  predicate Names(token: string) {
    token != "AND" && token != "OR" && token != "WITH" && token != ")" && token != "("
  }

  /** Every licence is named by a token that may; only what ends the tokens may end with `WITH`. */
  predicate Proper(e: Either, last: bool) {
    match e
    case One(both) => ProperBoth(both, last)
    case Or(both, more) => ProperBoth(both, false) && Proper(more, last)
  }

  predicate ProperBoth(b: Both, last: bool) {
    match b
    case Single(term) => ProperTerm(term, last)
    case And(term, others) => ProperTerm(term, false) && ProperBoth(others, last)
  }

  predicate ProperTerm(t: Term, last: bool) {
    match t
    case Paren(inner) => Proper(inner, false)
    case Licence(name) => Names(name)
    case With(name, _) => Names(name)
    case WithNothing(name) => Names(name) && last
  }

  // ----- what a tree says

  function Entry(name: string, exception: string): string {
    name + " WITH " + exception
  }

  predicate Value(e: Either, allowed: set<string>) {
    match e
    case One(both) => ValueBoth(both, allowed)
    case Or(both, more) => ValueBoth(both, allowed) || Value(more, allowed)
  }

  predicate ValueBoth(b: Both, allowed: set<string>) {
    match b
    case Single(term) => ValueTerm(term, allowed)
    case And(term, others) => ValueTerm(term, allowed) && ValueBoth(others, allowed)
  }

  predicate ValueTerm(t: Term, allowed: set<string>) {
    match t
    case Paren(inner) => Value(inner, allowed)
    case Licence(name) => name in allowed
    case With(name, exception) => Entry(name, exception) in allowed
    case WithNothing(name) => Entry(name, "None") in allowed
  }

  // ----- reading

  datatype Read<T> = Read(tree: T, rest: seq<string>)

  predicate Next(tokens: seq<string>, token: string) {
    tokens != [] && tokens[0] == token
  }

  function ReadTerm(tokens: seq<string>): (r: Option<Read<Term>>)
    ensures r.Some? ==> |r.value.rest| < |tokens|
    decreases |tokens|, 0
  {
    if tokens == [] then None
    else if Next(tokens, "(") then
      match ReadEither(tokens[1..])
      case None => None
      case Some(inner) => if Next(inner.rest, ")") then Some(Read(Paren(inner.tree), inner.rest[1..])) else None
    else if !Names(tokens[0]) then None
    else if !Next(tokens[1..], "WITH") then Some(Read(Licence(tokens[0]), tokens[1..]))
    else if |tokens| == 2 then Some(Read(WithNothing(tokens[0]), []))
    else Some(Read(With(tokens[0], tokens[2]), tokens[3..]))
  }

  function ReadBoth(tokens: seq<string>): (r: Option<Read<Both>>)
    ensures r.Some? ==> |r.value.rest| < |tokens|
    decreases |tokens|, 1
  {
    match ReadTerm(tokens)
    case None => None
    case Some(first) =>
      if !Next(first.rest, "AND") then Some(Read(Single(first.tree), first.rest))
      else
        match ReadBoth(first.rest[1..])
        case None => None
        case Some(others) => Some(Read(And(first.tree, others.tree), others.rest))
  }

  function ReadEither(tokens: seq<string>): (r: Option<Read<Either>>)
    ensures r.Some? ==> |r.value.rest| < |tokens|
    decreases |tokens|, 2
  {
    match ReadBoth(tokens)
    case None => None
    case Some(first) =>
      if !Next(first.rest, "OR") then Some(Read(One(first.tree), first.rest))
      else
        match ReadEither(first.rest[1..])
        case None => None
        case Some(more) => Some(Read(Or(first.tree, more.tree), more.rest))
  }

  /** The tree the tokens spell, all of them, or `None` where the script raises. */
  function Parsed(tokens: seq<string>): Option<Either> {
    match ReadEither(tokens)
    case None => None
    case Some(read) => if read.rest == [] then Some(read.tree) else None
  }

  // ----- what is read is what was spelled

  lemma Regrouped(a: seq<string>, word: string, b: seq<string>, c: seq<string>)
    ensures (a + [word] + b) + c == a + ([word] + (b + c))
    ensures ([word] + (b + c))[1..] == b + c
  {
  }

  lemma {:induction false} TermIsSpelled(tokens: seq<string>)
    requires ReadTerm(tokens).Some?
    ensures var r := ReadTerm(tokens).value;
      SpellTerm(r.tree) + r.rest == tokens && ProperTerm(r.tree, r.rest == [])
    decreases |tokens|, 0
  {
    if Next(tokens, "(") {
      EitherIsSpelled(tokens[1..]);
      var inner := ReadEither(tokens[1..]).value;
      assert tokens == ["("] + tokens[1..];
      assert inner.rest == [")"] + inner.rest[1..];
    } else if Next(tokens[1..], "WITH") && |tokens| > 2 {
      assert tokens == tokens[..3] + tokens[3..];
    }
  }

  lemma {:induction false} BothIsSpelled(tokens: seq<string>)
    requires ReadBoth(tokens).Some?
    ensures var r := ReadBoth(tokens).value;
      SpellBoth(r.tree) + r.rest == tokens && ProperBoth(r.tree, r.rest == [])
    decreases |tokens|, 1
  {
    TermIsSpelled(tokens);
    var first := ReadTerm(tokens).value;
    if Next(first.rest, "AND") {
      BothIsSpelled(first.rest[1..]);
      var others := ReadBoth(first.rest[1..]).value;
      assert first.rest == ["AND"] + first.rest[1..];
      Regrouped(SpellTerm(first.tree), "AND", SpellBoth(others.tree), others.rest);
    }
  }

  lemma {:induction false} EitherIsSpelled(tokens: seq<string>)
    requires ReadEither(tokens).Some?
    ensures var r := ReadEither(tokens).value;
      Spell(r.tree) + r.rest == tokens && Proper(r.tree, r.rest == [])
    decreases |tokens|, 2
  {
    BothIsSpelled(tokens);
    var first := ReadBoth(tokens).value;
    if Next(first.rest, "OR") {
      EitherIsSpelled(first.rest[1..]);
      var more := ReadEither(first.rest[1..]).value;
      assert first.rest == ["OR"] + first.rest[1..];
      Regrouped(SpellBoth(first.tree), "OR", Spell(more.tree), more.rest);
    }
  }

  // ----- and what is spelled is read

  /** What may follow a term that ends there: nothing that would be read into it. */
  predicate Follows(rest: seq<string>, last: bool) {
    (last ==> rest == []) && !Next(rest, "WITH")
  }

  lemma {:induction false} SpelledTermIsRead(t: Term, rest: seq<string>, last: bool)
    requires ProperTerm(t, last) && Follows(rest, last)
    ensures ReadTerm(SpellTerm(t) + rest) == Some(Read(t, rest))
    decreases t, 0
  {
    var tokens := SpellTerm(t) + rest;
    match t
    case Paren(inner) =>
      SpelledEitherIsRead(inner, [")"] + rest, false);
      assert tokens[1..] == Spell(inner) + ([")"] + rest);
      assert ([")"] + rest)[1..] == rest;
    case Licence(name) =>
      assert tokens[1..] == rest;
    case With(name, exception) =>
      assert tokens[1..][0] == "WITH" && tokens[3..] == rest;
    case WithNothing(name) =>
      assert tokens == [name, "WITH"];
  }

  lemma {:induction false} SpelledBothIsRead(b: Both, rest: seq<string>, last: bool)
    requires ProperBoth(b, last) && Follows(rest, last) && !Next(rest, "AND")
    ensures ReadBoth(SpellBoth(b) + rest) == Some(Read(b, rest))
    decreases b, 1
  {
    match b
    case Single(term) =>
      SpelledTermIsRead(term, rest, last);
    case And(term, others) =>
      var after := ["AND"] + (SpellBoth(others) + rest);
      SpelledTermIsRead(term, after, false);
      SpelledBothIsRead(others, rest, last);
      Regrouped(SpellTerm(term), "AND", SpellBoth(others), rest);
  }

  lemma {:induction false} SpelledEitherIsRead(e: Either, rest: seq<string>, last: bool)
    requires Proper(e, last) && Follows(rest, last) && !Next(rest, "AND") && !Next(rest, "OR")
    ensures ReadEither(Spell(e) + rest) == Some(Read(e, rest))
    decreases e, 2
  {
    match e
    case One(both) =>
      SpelledBothIsRead(both, rest, last);
    case Or(both, more) =>
      var after := ["OR"] + (Spell(more) + rest);
      SpelledBothIsRead(both, after, false);
      SpelledEitherIsRead(more, rest, last);
      Regrouped(SpellBoth(both), "OR", Spell(more), rest);
  }

  /** The script raises on exactly the tokens no tree is spelled with, and reads the one tree of the others. */
  lemma ReadsTheOneTree(tokens: seq<string>, e: Either)
    ensures Parsed(tokens) == Some(e) <==> (Proper(e, true) && Spell(e) == tokens)
  {
    if Parsed(tokens) == Some(e) {
      EitherIsSpelled(tokens);
      assert Spell(e) + [] == Spell(e);
    }
    if Proper(e, true) && Spell(e) == tokens {
      SpelledEitherIsRead(e, [], true);
      assert Spell(e) + [] == tokens;
    }
  }

  /** Where a licence belongs, the words and a closing parenthesis raise, and any other token is one. */
  lemma WordsNameNoLicence(token: string, rest: seq<string>)
    ensures token in {"AND", "OR", "WITH", ")"} ==> ReadTerm([token] + rest).None?
    ensures token !in {"AND", "OR", "WITH", ")", "("} ==> ReadTerm([token] + rest).Some?
  {
    assert ([token] + rest)[0] == token;
  }

  /** Nothing after `WITH` is decided as an exception called "None". */
  lemma NothingReadsNone(name: string, allowed: set<string>)
    requires name !in {"AND", "OR", "WITH", ")", "("}
    ensures var tree := Parsed([name, "WITH"]);
      tree.Some? && (Value(tree.value, allowed) <==> name + " WITH " + "None" in allowed)
  {
    var tree := One(Single(WithNothing(name)));
    assert Spell(tree) == SpellTerm(WithNothing(name)) && ProperTerm(WithNothing(name), true);
    ReadsTheOneTree([name, "WITH"], tree);
    assert Value(tree, allowed) <==> ValueTerm(WithNothing(name), allowed);
  }

  // ----- a longer allow-list

  lemma {:induction false} TermStaysAllowed(t: Term, allowed: set<string>, more: set<string>)
    requires allowed <= more && ValueTerm(t, allowed)
    ensures ValueTerm(t, more)
    decreases t, 0
  {
    if t.Paren? {
      StaysAllowed(t.inner, allowed, more);
    }
  }

  lemma {:induction false} BothStaysAllowed(b: Both, allowed: set<string>, more: set<string>)
    requires allowed <= more && ValueBoth(b, allowed)
    ensures ValueBoth(b, more)
    decreases b, 1
  {
    TermStaysAllowed(b.term, allowed, more);
    if b.And? {
      BothStaysAllowed(b.others, allowed, more);
    }
  }

  /** Allowing one licence more never refuses what was allowed. */
  lemma {:induction false} StaysAllowed(e: Either, allowed: set<string>, more: set<string>)
    requires allowed <= more && Value(e, allowed)
    ensures Value(e, more)
    decreases e, 2
  {
    if ValueBoth(e.both, allowed) {
      BothStaysAllowed(e.both, allowed, more);
    } else {
      StaysAllowed(e.more, allowed, more);
    }
  }

  // ----- any expression, parenthesised only where it must be

  /** What an expression means, however it is nested. */
  datatype Expression =
    | Plain(name: string)
    | Excepted(name: string, exception: string)
    | All(left: Expression, right: Expression)
    | Any(left: Expression, right: Expression)

  predicate Satisfied(x: Expression, allowed: set<string>) {
    match x
    case Plain(name) => name in allowed
    case Excepted(name, exception) => name + " WITH " + exception in allowed
    case All(left, right) => Satisfied(left, allowed) && Satisfied(right, allowed)
    case Any(left, right) => Satisfied(left, allowed) || Satisfied(right, allowed)
  }

  predicate Nameable(x: Expression) {
    match x
    case Plain(name) => Names(name)
    case Excepted(name, _) => Names(name)
    case All(left, right) => Nameable(left) && Nameable(right)
    case Any(left, right) => Nameable(left) && Nameable(right)
  }

  function JoinBoth(b: Both, c: Both): Both {
    match b
    case Single(term) => And(term, c)
    case And(term, others) => And(term, JoinBoth(others, c))
  }

  function Join(e: Either, f: Either): Either {
    match e
    case One(both) => Or(both, f)
    case Or(both, more) => Or(both, Join(more, f))
  }

  /** Written with parentheses around an `OR` inside an `AND`, and nowhere else. */
  function Written(x: Expression): Either {
    match x
    case Any(left, right) => Join(Written(left), Written(right))
    case _ => One(WrittenBoth(x))
  }

  function WrittenBoth(x: Expression): Both
    decreases x, 0
  {
    match x
    case Plain(name) => Single(Licence(name))
    case Excepted(name, exception) => Single(With(name, exception))
    case All(left, right) => JoinBoth(WrittenBoth(left), WrittenBoth(right))
    case Any(left, right) => Single(Paren(Join(Written(left), Written(right))))
  }

  lemma {:induction false} JoinBothSays(b: Both, c: Both, allowed: set<string>)
    ensures ValueBoth(JoinBoth(b, c), allowed) <==> ValueBoth(b, allowed) && ValueBoth(c, allowed)
    ensures forall last :: ProperBoth(b, false) && ProperBoth(c, last) ==> ProperBoth(JoinBoth(b, c), last)
  {
    if b.And? {
      JoinBothSays(b.others, c, allowed);
    }
  }

  lemma {:induction false} JoinSays(e: Either, f: Either, allowed: set<string>)
    ensures Value(Join(e, f), allowed) <==> Value(e, allowed) || Value(f, allowed)
    ensures forall last :: Proper(e, false) && Proper(f, last) ==> Proper(Join(e, f), last)
  {
    if e.Or? {
      JoinSays(e.more, f, allowed);
    }
  }

  lemma {:induction false} WrittenBothSays(x: Expression, allowed: set<string>)
    requires Nameable(x)
    ensures ValueBoth(WrittenBoth(x), allowed) <==> Satisfied(x, allowed)
    ensures ProperBoth(WrittenBoth(x), false) && ProperBoth(WrittenBoth(x), true)
    decreases x, 0
  {
    match x
    case Plain(_) =>
    case Excepted(_, _) =>
    case All(left, right) =>
      WrittenBothSays(left, allowed);
      WrittenBothSays(right, allowed);
      JoinBothSays(WrittenBoth(left), WrittenBoth(right), allowed);
    case Any(left, right) =>
      WrittenSays(left, allowed);
      WrittenSays(right, allowed);
      JoinSays(Written(left), Written(right), allowed);
  }

  lemma {:induction false} WrittenSays(x: Expression, allowed: set<string>)
    requires Nameable(x)
    ensures Value(Written(x), allowed) <==> Satisfied(x, allowed)
    ensures Proper(Written(x), false) && Proper(Written(x), true)
    decreases x, 1
  {
    match x
    case Any(left, right) =>
      WrittenSays(left, allowed);
      WrittenSays(right, allowed);
      JoinSays(Written(left), Written(right), allowed);
    case _ =>
      WrittenBothSays(x, allowed);
  }

  /** Every expression can be written so that the script accepts it, and decides what it means. */
  lemma WrittenIsDecided(x: Expression, allowed: set<string>)
    requires Nameable(x)
    ensures var tree := Parsed(Spell(Written(x)));
      tree.Some? && (Value(tree.value, allowed) <==> Satisfied(x, allowed))
  {
    WrittenSays(x, allowed);
    ReadsTheOneTree(Spell(Written(x)), Written(x));
  }

  // ----- the one pass the script makes

  class Reader {
    const tokens: seq<string>
    const allowed: set<string>
    var position: nat

    constructor (tokens: seq<string>, allowed: set<string>)
      ensures this.tokens == tokens && this.allowed == allowed && position == 0
    {
      this.tokens, this.allowed, position := tokens, allowed, 0;
    }

    ghost function Rest(): seq<string>
      reads this
    {
      if position <= |tokens| then tokens[position..] else []
    }

    function Peek(): (token: Option<string>)
      reads this
      ensures token == if Rest() == [] then None else Some(Rest()[0])
    {
      if position < |tokens| then Some(tokens[position]) else None
    }

    /** The position moves past the end as well. */
    method Take() returns (token: Option<string>)
      modifies this
      ensures token == old(Peek())
      ensures old(Rest()) != [] ==> Rest() == old(Rest())[1..]
      ensures old(Rest()) == [] ==> Rest() == []
      ensures position == old(position) + 1
    {
      token := Peek();
      position := position + 1;
    }

    method Term() returns (raised: bool, value: bool)
      modifies this
      ensures raised <==> ReadTerm(old(Rest())).None?
      ensures !raised ==> (Rest() == ReadTerm(old(Rest())).value.rest &&
        (value <==> ValueTerm(ReadTerm(old(Rest())).value.tree, allowed)))
      ensures position > old(position)
      decreases |tokens| - position, 0
    {
      if Peek() == Some("(") {
        var open := Take();
        raised, value := Either();
        if raised {
          return;
        }
        var close := Take();
        return close != Some(")"), value;
      }
      var licence := Take();
      if licence.None? || !Names(licence.value) {
        return true, false;
      }
      var entry := licence.value;
      if Peek() == Some("WITH") {
        var with := Take();
        var exception := Take();
        entry := Entry(entry, if exception.Some? then exception.value else "None");
      }
      return false, entry in allowed;
    }

    method Both() returns (raised: bool, value: bool)
      modifies this
      ensures raised <==> ReadBoth(old(Rest())).None?
      ensures !raised ==> (Rest() == ReadBoth(old(Rest())).value.rest &&
        (value <==> ValueBoth(ReadBoth(old(Rest())).value.tree, allowed)))
      ensures position > old(position)
      decreases |tokens| - position, 1
    {
      ghost var start := ReadBoth(Rest());
      raised, value := Term();
      if raised {
        return;
      }
      while Peek() == Some("AND")
        invariant position > old(position)
        invariant !Next(Rest(), "AND") ==> (start.Some? && start.value.rest == Rest() &&
          (ValueBoth(start.value.tree, allowed) <==> value))
        invariant Next(Rest(), "AND") ==> (start.None? <==> ReadBoth(Rest()[1..]).None?)
        invariant Next(Rest(), "AND") && start.Some? ==> (start.value.rest == ReadBoth(Rest()[1..]).value.rest &&
          (ValueBoth(start.value.tree, allowed) <==> value && ValueBoth(ReadBoth(Rest()[1..]).value.tree, allowed)))
        decreases |tokens| - position
      {
        var and := Take();
        var term: bool;
        raised, term := Term();
        if raised {
          return;
        }
        value := term && value;
      }
    }

    method Either() returns (raised: bool, value: bool)
      modifies this
      ensures raised <==> ReadEither(old(Rest())).None?
      ensures !raised ==> (Rest() == ReadEither(old(Rest())).value.rest &&
        (value <==> Value(ReadEither(old(Rest())).value.tree, allowed)))
      ensures position > old(position)
      decreases |tokens| - position, 2
    {
      ghost var start := ReadEither(Rest());
      raised, value := Both();
      if raised {
        return;
      }
      while Peek() == Some("OR")
        invariant position > old(position)
        invariant !Next(Rest(), "OR") ==> (start.Some? && start.value.rest == Rest() &&
          (Value(start.value.tree, allowed) <==> value))
        invariant Next(Rest(), "OR") ==> (start.None? <==> ReadEither(Rest()[1..]).None?)
        invariant Next(Rest(), "OR") && start.Some? ==> (start.value.rest == ReadEither(Rest()[1..]).value.rest &&
          (Value(start.value.tree, allowed) <==> value || Value(ReadEither(Rest()[1..]).value.tree, allowed)))
        decreases |tokens| - position
      {
        var or := Take();
        var both: bool;
        raised, both := Both();
        if raised {
          return;
        }
        value := both || value;
      }
    }
  }

  /** Raises, or says what the one tree the tokens spell says. */
  method Allows(tokens: seq<string>, allowed: set<string>) returns (raised: bool, value: bool)
    ensures raised <==> Parsed(tokens).None?
    ensures !raised ==> (value <==> Value(Parsed(tokens).value, allowed))
  {
    var reader := new Reader(tokens, allowed);
    assert reader.Rest() == tokens;
    raised, value := reader.Either();
    if !raised && reader.Peek().Some? {
      raised := true;
    }
  }
}
