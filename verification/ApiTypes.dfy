/**
 * The two fixpoints of scripts/check-api-types.py: what a `#[serde(flatten)]` field splices into a
 * struct, and what an interface takes from those it extends. Each runs at most one pass more than
 * there are types, over types that may be unknown or name each other in a circle.
 */
module ApiTypes {

  // ----- who names whom

  type Links = map<string, set<string>>

  predicate Linked(links: Links, path: seq<string>) {
    forall i | 0 <= i < |path| - 1 :: path[i] in links && path[i + 1] in links[path[i]]
  }

  ghost predicate Leads(links: Links, from: string, to: string, path: seq<string>) {
    path != [] && path[0] == from && path[|path| - 1] == to && Linked(links, path)
  }

  ghost predicate Reaches(links: Links, from: string, to: string) {
    exists path :: Leads(links, from, to, path)
  }

  predicate Distinct(path: seq<string>) {
    forall i, j | 0 <= i < j < |path| :: path[i] != path[j]
  }

  lemma {:induction false} DistinctFit(path: seq<string>, names: set<string>)
    requires Distinct(path) && forall name | name in path :: name in names
    ensures |path| <= |names|
  {
    if path != [] {
      DistinctFit(path[1..], names - {path[0]});
    }
  }

  /** A way that comes twice through a name has a shorter one. */
  lemma {:induction false} ShortWay(links: Links, from: string, to: string, path: seq<string>)
    returns (short: seq<string>)
    requires Leads(links, from, to, path)
    ensures Leads(links, from, to, short) && Distinct(short)
    decreases |path|
  {
    if Distinct(path) {
      short := path;
    } else {
      var i, j :| 0 <= i < j < |path| && path[i] == path[j];
      var cut := path[..i] + path[j..];
      CutLeads(links, from, to, path, i, j);
      short := ShortWay(links, from, to, cut);
    }
  }

  lemma CutLeads(links: Links, from: string, to: string, path: seq<string>, i: nat, j: nat)
    requires Leads(links, from, to, path) && i < j < |path| && path[i] == path[j]
    ensures Leads(links, from, to, path[..i] + path[j..])
  {
    var cut := path[..i] + path[j..];
    assert cut[i] == path[i];
    forall k | 0 <= k < |cut| - 1 ensures cut[k] in links && cut[k + 1] in links[cut[k]] {
      if k + 1 < i {
        assert cut[k] == path[k] && cut[k + 1] == path[k + 1];
      } else if k + 1 == i {
        assert cut[k] == path[k] && cut[k + 1] == path[i];
      } else {
        assert cut[k] == path[k - i + j] && cut[k + 1] == path[k + 1 - i + j];
      }
    }
    assert cut[0] == from by {
      if i > 0 {
        assert cut[0] == path[0];
      }
    }
    assert cut[|cut| - 1] == path[|path| - 1];
  }

  lemma OneStepMore(links: Links, from: string, next: string, to: string)
    requires from in links && next in links[from] && Reaches(links, next, to)
    ensures Reaches(links, from, to)
  {
    var path :| Leads(links, next, to, path);
    assert Leads(links, from, to, [from] + path);
  }

  lemma FirstStep(links: Links, from: string, to: string) returns (next: string)
    requires Reaches(links, from, to) && from != to
    ensures from in links && next in links[from] && Reaches(links, next, to)
  {
    var path :| Leads(links, from, to, path);
    next := path[1];
    assert Leads(links, next, to, path[1..]);
  }

  lemma Itself(links: Links, name: string)
    ensures Reaches(links, name, name)
  {
    assert Leads(links, name, name, [name]);
  }

  // ----- what an interface extends

  type Fields = map<string, set<string>>

  function LinksOf(bases: map<string, seq<string>>): Links {
    map name | name in bases :: set base | base in bases[name]
  }

  /** Declared by the interface, or by one it extends, however far. */
  ghost predicate Inherits(own: Fields, links: Links, name: string, field: string) {
    exists base :: base in own && Reaches(links, name, base) && field in own[base]
  }

  ghost predicate Between(own: Fields, links: Links, found: Fields) {
    found.Keys == own.Keys &&
    (forall name | name in own :: own[name] <= found[name]) &&
    forall name, field | name in own && field in found[name] :: Inherits(own, links, name, field)
  }

  /** Everything declared less than `n` steps away has arrived. */
  ghost predicate Arrived(own: Fields, links: Links, found: Fields, n: nat)
    requires found.Keys == own.Keys
  {
    forall name, base, path | name in own && base in own && Leads(links, name, base, path) && |path| <= n ::
      own[base] <= found[name]
  }

  /** `name` holds what each interface it extends held in `before`. */
  ghost predicate Took(links: Links, before: Fields, found: Fields, name: string) {
    name in found && name in links && forall base | base in links[name] && base in before :: before[base] <= found[name]
  }

  ghost predicate Grown(before: Fields, found: Fields) {
    before.Keys == found.Keys && forall name | name in before :: before[name] <= found[name]
  }

  lemma TakesOneMore(own: Fields, links: Links, found: Fields, name: string, base: string)
    requires Between(own, links, found) && name in found && base in found && name in links && base in links[name]
    ensures Between(own, links, found[name := found[name] + found[base]])
  {
    var more := found[name := found[name] + found[base]];
    forall n, field | n in own && field in more[n] ensures Inherits(own, links, n, field) {
      if n == name && field !in found[name] {
        assert Inherits(own, links, base, field);
        var from :| from in own && Reaches(links, base, from) && field in own[from];
        OneStepMore(links, name, base, from);
      }
    }
  }

  /** A pass brings everything one step nearer. */
  lemma OnePassNearer(own: Fields, links: Links, before: Fields, found: Fields, n: nat)
    requires before.Keys == found.Keys == own.Keys && Arrived(own, links, before, n)
    requires forall name | name in own :: own[name] <= found[name] && Took(links, before, found, name)
    requires links.Keys == own.Keys
    ensures Arrived(own, links, found, n + 1)
  {
    forall name, base, path | name in own && base in own && Leads(links, name, base, path) && |path| <= n + 1
      ensures own[base] <= found[name]
    {
      if |path| > 1 {
        assert path[1] in links[path[0]];
        assert path[1] in own by {
          if |path| == 2 {
            assert path[1] == base;
          } else {
            assert path[1] in links;
          }
        }
        assert Leads(links, path[1], base, path[1..]);
        assert Took(links, before, found, name);
      }
    }
  }

  /** Where a pass would change nothing, everything has arrived. */
  lemma {:induction false} SettledArrived(own: Fields, links: Links, found: Fields, n: nat)
    requires found.Keys == own.Keys == links.Keys
    requires forall name | name in own :: own[name] <= found[name] && Took(links, found, found, name)
    ensures Arrived(own, links, found, n)
  {
    if n > 0 {
      SettledArrived(own, links, found, n - 1);
      OnePassNearer(own, links, found, found, n - 1);
    }
  }

  /** As many steps as there are interfaces are enough. */
  lemma ArrivedIsAll(own: Fields, links: Links, found: Fields, n: nat)
    requires Between(own, links, found) && links.Keys == own.Keys && n >= |own| && Arrived(own, links, found, n)
    ensures forall name, field | name in own :: field in found[name] <==> Inherits(own, links, name, field)
  {
    forall name, field | name in own && Inherits(own, links, name, field) ensures field in found[name] {
      var base :| base in own && Reaches(links, name, base) && field in own[base];
      var path :| Leads(links, name, base, path);
      var short := ShortWay(links, name, base, path);
      forall at | at in short ensures at in own.Keys {
        var i :| 0 <= i < |short| && short[i] == at;
        if i == |short| - 1 {
          assert at == base;
        }
      }
      DistinctFit(short, own.Keys);
      assert |own.Keys| == |own|;
      assert own[base] <= found[name];
    }
  }

  ghost predicate TookFrom(before: Fields, found: Fields, name: string, base: string) {
    name in found && (base in before ==> before[base] <= found[name])
  }

  ghost predicate TookFirst(before: Fields, found: Fields, name: string, parents: seq<string>, n: nat)
    requires n <= |parents|
  {
    name in found && forall k | 0 <= k < n :: TookFrom(before, found, name, parents[k])
  }

  lemma TookStays(before: Fields, found: Fields, more: Fields, name: string, parents: seq<string>, n: nat)
    requires n < |parents| && TookFirst(before, found, name, parents, n) && Grown(found, more)
    requires TookFrom(before, more, name, parents[n])
    ensures TookFirst(before, more, name, parents, n + 1)
  {
    forall k | 0 <= k < n + 1 ensures TookFrom(before, more, name, parents[k]) {
      if k < n {
        assert TookFrom(before, found, name, parents[k]);
      }
    }
  }

  /** What `name` does not hold yet of what `parent` holds, a name never declared holding nothing. */
  method TakeFrom(own: Fields, ghost links: Links, found: Fields, name: string, parent: string)
    returns (more: Fields, moved: bool)
    requires Between(own, links, found) && name in found && name in links && parent in links[name]
    ensures Between(own, links, more) && Grown(found, more) && (!moved ==> more == found)
    ensures TookFrom(found, more, name, parent)
  {
    var inherited := (if parent in found then found[parent] else {}) - found[name];
    more, moved := found, inherited != {};
    if parent in found {
      WhatIsMissing(found[name], found[parent]);
    }
    if moved {
      assert parent in found;
      TakesOneMore(own, links, found, name, parent);
      more := found[name := found[name] + inherited];
    }
  }

  lemma WhatIsMissing(a: set<string>, b: set<string>)
    ensures a + (b - a) == a + b
    ensures b - a == {} ==> b <= a
  {
    forall x | x in b && b - a == {} ensures x in a {
      assert x in a || x in b - a;
    }
  }

  method TakeFromParents(
    own: Fields, ghost links: Links, ghost before: Fields, start: Fields, name: string, parents: seq<string>)
    returns (found: Fields, moved: bool)
    requires Between(own, links, start) && Grown(before, start) && name in start
    requires name in links && links[name] == (set base | base in parents)
    ensures Between(own, links, found) && Grown(before, found) && Grown(start, found)
    ensures Took(links, before, found, name) && (!moved ==> found == start)
  {
    found, moved := start, false;
    for k := 0 to |parents|
      invariant Between(own, links, found) && Grown(before, found) && Grown(start, found) && (!moved ==> found == start)
      invariant TookFirst(before, found, name, parents, k)
    {
      assert parents[k] in links[name];
      var more, took := TakeFrom(own, links, found, name, parents[k]);
      TookStays(before, found, more, name, parents, k);
      found, moved := more, moved || took;
    }
    assert forall base | base in links[name] && base in before :: TookFrom(before, found, name, base);
  }

  /** One turn through the interfaces, in the order they were read. */
  method Pass(own: Fields, ghost links: Links, before: Fields, bases: map<string, seq<string>>, names: seq<string>)
    returns (found: Fields, moved: bool)
    requires Between(own, links, before) && bases.Keys == own.Keys && links == LinksOf(bases)
    requires forall name | name in names :: name in own
    ensures Between(own, links, found) && (!moved ==> found == before)
    ensures forall name | name in names :: Took(links, before, found, name)
  {
    found, moved := before, false;
    for i := 0 to |names|
      invariant Between(own, links, found) && Grown(before, found) && (!moved ==> found == before)
      invariant forall j | 0 <= j < i :: Took(links, before, found, names[j])
    {
      var more, took := TakeFromParents(own, links, before, found, names[i], bases[names[i]]);
      AllTookStays(links, before, found, more, names[..i]);
      found, moved := more, moved || took;
    }
  }

  lemma AllTookStays(links: Links, before: Fields, found: Fields, more: Fields, names: seq<string>)
    requires Grown(found, more) && forall j | 0 <= j < |names| :: Took(links, before, found, names[j])
    ensures forall j | 0 <= j < |names| :: Took(links, before, more, names[j])
  {
  }

  /** `names` in the order the interfaces were read. */
  method Extended(own: Fields, bases: map<string, seq<string>>, names: seq<string>) returns (found: Fields)
    requires bases.Keys == own.Keys && forall name :: name in names <==> name in own
    ensures found.Keys == own.Keys
    ensures forall name, field | name in own :: field in found[name] <==> Inherits(own, LinksOf(bases), name, field)
  {
    found := own;
    ghost var links := LinksOf(bases);
    StartsBetween(own, links);
    for pass := 0 to |own| + 1
      invariant Between(own, links, found) && Arrived(own, links, found, pass)
    {
      var more, moved := Pass(own, links, found, bases, names);
      OnePassNearer(own, links, found, more, pass);
      found := more;
      if !moved {
        SettledArrived(own, links, found, |own|);
        ArrivedIsAll(own, links, found, |own|);
        return;
      }
    }
    ArrivedIsAll(own, links, found, |own| + 1);
  }

  lemma StartsBetween(own: Fields, links: Links)
    ensures Between(own, links, own) && Arrived(own, links, own, 0)
  {
    forall name, field | name in own && field in own[name] ensures Inherits(own, links, name, field) {
      Itself(links, name);
    }
  }

  // ----- what a flattened field splices in

  /** A field of a struct: its name, the mark of a type to splice, or the mark of one nobody could read. */
  datatype Field = Named(name: string) | Flatten(inner: string) | Unread

  type Structs = map<string, set<Field>>

  function Inner(structs: Structs): Links {
    map name | name in structs :: set field | field in structs[name] && field.Flatten? :: field.inner
  }

  predicate Clean(fields: set<Field>) {
    forall field | field in fields :: field.Named?
  }

  /** From `name` no circle, no type nobody declared and no mark nobody could read is reached. */
  ghost predicate Whole(structs: Structs, name: string) {
    forall to, path | Leads(Inner(structs), name, to, path) :: to in structs && Unread !in structs[to] && Distinct(path)
  }

  ghost predicate Carries(structs: Structs, name: string, field: Field) {
    exists to :: to in structs && Reaches(Inner(structs), name, to) && field in structs[to]
  }

  /** Whole, and no way from `name` is longer than `n` types. */
  ghost predicate WholeIn(structs: Structs, name: string, n: nat)
    decreases n
  {
    n > 0 && name in structs && Unread !in structs[name] &&
    forall field | field in structs[name] && field.Flatten? :: WholeIn(structs, field.inner, n - 1)
  }

  lemma {:induction false} WaysOfWhole(structs: Structs, name: string, n: nat, to: string, path: seq<string>)
    requires WholeIn(structs, name, n) && Leads(Inner(structs), name, to, path)
    ensures |path| <= n && WholeIn(structs, to, n + 1 - |path|)
    decreases n
  {
    if |path| > 1 {
      assert path[1] in Inner(structs)[path[0]];
      assert Flatten(path[1]) in structs[name];
      WaysOfWhole(structs, path[1], n - 1, to, path[1..]);
    }
  }

  /** Round a circle the ways would grow for ever. */
  lemma {:induction false} NoCircle(structs: Structs, name: string, n: nat, path: seq<string>)
    requires WholeIn(structs, name, n) && |path| > 1 && Leads(Inner(structs), name, name, path)
    ensures false
    decreases n
  {
    var next := path[1];
    assert next in Inner(structs)[path[0]];
    assert Flatten(next) in structs[name];
    var turned := path[1..] + [next];
    forall i | 0 <= i < |turned| - 1 ensures turned[i] in Inner(structs) && turned[i + 1] in Inner(structs)[turned[i]] {
      assert turned[i] == path[i + 1];
      if i + 2 < |path| {
        assert turned[i + 1] == path[i + 2];
      }
    }
    NoCircle(structs, next, n - 1, turned);
  }

  lemma WholeInIsWhole(structs: Structs, name: string, n: nat)
    requires WholeIn(structs, name, n)
    ensures Whole(structs, name)
  {
    forall to, path | Leads(Inner(structs), name, to, path)
      ensures to in structs && Unread !in structs[to] && Distinct(path)
    {
      WaysOfWhole(structs, name, n, to, path);
      forall i, j | 0 <= i < j < |path| ensures path[i] != path[j] {
        if path[i] == path[j] {
          assert Leads(Inner(structs), name, path[i], path[..i + 1]);
          WaysOfWhole(structs, name, n, path[i], path[..i + 1]);
          assert Leads(Inner(structs), path[i], path[i], path[i..j + 1]);
          NoCircle(structs, path[i], n + 1 - |path[..i + 1]|, path[i..j + 1]);
        }
      }
    }
  }

  /** A way through distinct declared types leaves room for those it has not met. */
  lemma {:induction false} WholeIsWholeIn(structs: Structs, name: string, path: seq<string>, at: string)
    requires Whole(structs, name) && Leads(Inner(structs), name, at, path)
    ensures |path| <= |structs| && WholeIn(structs, at, |structs| + 1 - |path|)
    decreases |structs| + 1 - |path|
  {
    forall stop | stop in path ensures stop in structs.Keys {
      var i :| 0 <= i < |path| && path[i] == stop;
      assert Leads(Inner(structs), name, stop, path[..i + 1]);
    }
    DistinctFit(path, structs.Keys);
    assert |structs.Keys| == |structs|;
    forall field | field in structs[at] && field.Flatten? ensures WholeIn(structs, field.inner, |structs| - |path|) {
      var further := path + [field.inner];
      FurtherLeads(Inner(structs), name, at, path, field.inner);
      WholeIsWholeIn(structs, name, further, field.inner);
    }
  }

  lemma FurtherLeads(links: Links, from: string, at: string, path: seq<string>, next: string)
    requires Leads(links, from, at, path) && at in links && next in links[at]
    ensures Leads(links, from, next, path + [next])
  {
    var further := path + [next];
    forall i | 0 <= i < |further| - 1 ensures further[i] in links && further[i + 1] in links[further[i]] {
      assert further[i] == path[i];
      if i + 1 < |path| {
        assert further[i + 1] == path[i + 1];
      }
    }
  }

  lemma WholeIff(structs: Structs, name: string)
    ensures Whole(structs, name) <==> WholeIn(structs, name, |structs|)
  {
    if Whole(structs, name) {
      assert Leads(Inner(structs), name, name, [name]);
      WholeIsWholeIn(structs, name, [name], name);
    }
    if WholeIn(structs, name, |structs|) {
      WholeInIsWhole(structs, name, |structs|);
    }
  }

  /** Whole is what every type spliced in is, and the struct that splices them. */
  lemma WholeByParts(structs: Structs, name: string)
    requires name in structs
    ensures Whole(structs, name) <==>
      (Unread !in structs[name] &&
        forall field | field in structs[name] && field.Flatten? :: Whole(structs, field.inner))
  {
    if Whole(structs, name) {
      WholeIff(structs, name);
      forall field | field in structs[name] && field.Flatten? ensures Whole(structs, field.inner) {
        WholeInIsWhole(structs, field.inner, |structs| - 1);
      }
      assert Leads(Inner(structs), name, name, [name]);
    } else if
      Unread !in structs[name] && forall field | field in structs[name] && field.Flatten? :: Whole(structs, field.inner)
    {
      forall field | field in structs[name] && field.Flatten? ensures WholeIn(structs, field.inner, |structs|) {
        WholeIff(structs, field.inner);
      }
      WholeInIsWhole(structs, name, |structs| + 1);
    }
  }

  /** A type is carried by a struct itself, or by one it splices in. */
  lemma CarriesByParts(structs: Structs, name: string, field: Field)
    requires name in structs
    ensures Carries(structs, name, field) <==>
      (field in structs[name] || exists inner | Flatten(inner) in structs[name] :: Carries(structs, inner, field))
  {
    var links := Inner(structs);
    if Carries(structs, name, field) && field !in structs[name] {
      var to :| to in structs && Reaches(links, name, to) && field in structs[to];
      var next := FirstStep(links, name, to);
      assert Flatten(next) in structs[name] && Carries(structs, next, field);
    }
    if field in structs[name] {
      Itself(links, name);
    }
    if inner :| Flatten(inner) in structs[name] && Carries(structs, inner, field) {
      var to :| to in structs && Reaches(links, inner, to) && field in structs[to];
      assert inner in links[name];
      OneStepMore(links, name, inner, to);
    }
  }

  /**
   * Where splicing stands: the marks left are the struct's own, those gone were of whole types and
   * left everything those carry, and nothing else was added.
   */
  ghost predicate Spliced(own: Structs, now: Structs, name: string)
    requires name in own && name in now
  {
    (forall field: Field | !field.Named? && field in now[name] :: field in own[name]) &&
    (forall field: Field | !field.Flatten? && field in own[name] :: field in now[name]) &&
    (forall inner | Flatten(inner) in own[name] && Flatten(inner) !in now[name] :: Gone(own, now[name], inner)) &&
    forall field: Field | field.Named? && field in now[name] :: field in own[name] || SplicedFrom(own, name, field)
  }

  ghost predicate Gone(own: Structs, fields: set<Field>, inner: string) {
    Whole(own, inner) && forall field: Field | field.Named? && Carries(own, inner, field) :: field in fields
  }

  ghost predicate SplicedFrom(own: Structs, name: string, field: Field)
    requires name in own
  {
    exists inner | Flatten(inner) in own[name] :: Whole(own, inner) && Carries(own, inner, field)
  }

  ghost predicate AllSpliced(own: Structs, now: Structs) {
    own.Keys == now.Keys && forall name | name in own :: Spliced(own, now, name)
  }

  /** A struct without marks is whole, and has every field it carries. */
  lemma CleanIsWhole(own: Structs, now: Structs, name: string)
    requires AllSpliced(own, now) && name in own && Clean(now[name])
    ensures Whole(own, name)
    ensures forall field: Field | field.Named? :: field in now[name] <==> Carries(own, name, field)
  {
    assert Spliced(own, now, name);
    assert Unread !in own[name];
    forall inner | Flatten(inner) in own[name] ensures Gone(own, now[name], inner) {
    }
    WholeByParts(own, name);
    forall field: Field | field.Named? ensures field in now[name] <==> Carries(own, name, field) {
      CarriesByParts(own, name, field);
    }
  }

  /** No mark is left of a type whose ways are `n` long. */
  ghost predicate Passed(own: Structs, now: Structs, n: nat) {
    forall name | name in now :: PassedAt(own, now[name], n)
  }

  ghost predicate PassedAt(own: Structs, fields: set<Field>, n: nat) {
    forall inner | Flatten(inner) in fields :: !WholeIn(own, inner, n)
  }

  lemma PassedIsClean(own: Structs, now: Structs, name: string, n: nat)
    requires AllSpliced(own, now) && Passed(own, now, n) && WholeIn(own, name, n + 1)
    ensures name in now && Clean(now[name])
  {
    assert Spliced(own, now, name) && PassedAt(own, now[name], n);
    assert Unread !in now[name];
    forall inner ensures Flatten(inner) !in now[name] {
      assert Flatten(inner) in own[name] ==> WholeIn(own, inner, n);
    }
    forall field | field in now[name] ensures field.Named? {
      match field
      case Named(_) =>
      case Unread =>
      case Flatten(_) =>
    }
  }

  /** What is left when nothing moves is marks of types that keep theirs. */
  ghost predicate Still(now: Structs, name: string)
    requires name in now
  {
    forall inner | Flatten(inner) in now[name] && inner in now :: !Clean(now[inner])
  }

  lemma {:induction false} StillPassed(own: Structs, now: Structs, n: nat)
    requires AllSpliced(own, now) && forall name | name in now :: Still(now, name)
    ensures Passed(own, now, n)
  {
    if n > 0 {
      StillPassed(own, now, n - 1);
      forall name, inner | name in now && Flatten(inner) in now[name] ensures !WholeIn(own, inner, n) {
        assert Still(now, name);
        if WholeIn(own, inner, n) {
          PassedIsClean(own, now, inner, n - 1);
        }
      }
    }
  }

  /** Splicing a clean struct in. */
  lemma SpliceKeeps(own: Structs, now: Structs, name: string, inner: string)
    requires AllSpliced(own, now) && name in now && Flatten(inner) in now[name] && inner in now && Clean(now[inner])
    ensures AllSpliced(own, now[name := now[name] - {Flatten(inner)} + now[inner]])
  {
    var more := now[name] - {Flatten(inner)} + now[inner];
    assert Spliced(own, now, name) && Spliced(own, now, inner);
    CleanIsWhole(own, now, inner);
    assert Gone(own, more, inner);
    forall field: Field | field.Named? && field in more ensures field in own[name] || SplicedFrom(own, name, field) {
      if field !in now[name] {
        assert Carries(own, inner, field);
      }
    }
    var next := now[name := more];
    assert Spliced(own, next, name);
    forall other | other in own ensures Spliced(own, next, other) {
      assert Spliced(own, now, other);
    }
  }

  // ----- the passes

  function SplicedOne(now: Structs, name: string, inner: string): Structs
    requires name in now
  {
    if inner in now && Clean(now[inner]) then now[name := now[name] - {Flatten(inner)} + now[inner]] else now
  }

  /** While `name` is read: the marks of `todo` stand, and none that was taken in turn is of a clean type. */
  ghost predicate Reading(start: Structs, now: Structs, name: string, todo: set<string>) {
    name in start && start.Keys == now.Keys &&
    (forall other | other in start && other != name :: now[other] == start[other]) &&
    (forall inner | inner in todo :: Flatten(inner) in now[name]) &&
    (forall inner | Flatten(inner) in now[name] :: Marked(start, name, inner, inner in todo))
  }

  ghost predicate Marked(start: Structs, name: string, inner: string, waiting: bool)
    requires name in start
  {
    Flatten(inner) in start[name] && (waiting || inner !in start || !Clean(start[inner]))
  }

  lemma ReadsOne(start: Structs, now: Structs, name: string, todo: set<string>, inner: string)
    requires Reading(start, now, name, todo) && inner in todo
    ensures Reading(start, SplicedOne(now, name, inner), name, todo - {inner})
  {
    var next := SplicedOne(now, name, inner);
    assert Flatten(inner) in now[name];
    assert Marked(start, name, inner, true);
    forall other | Flatten(other) in next[name] ensures Marked(start, name, other, other in todo - {inner}) {
      assert Marked(start, name, other, other in todo);
      if other == inner && inner == name {
        assert Flatten(inner) in start[name];
      }
    }
  }

  /** Each mark in turn is replaced by its struct, if that one is known and has no marks left. */
  method SpliceInto(ghost own: Structs, start: Structs, name: string) returns (now: Structs, moved: bool)
    requires AllSpliced(own, start) && name in start
    ensures AllSpliced(own, now) && Reading(start, now, name, {}) && (!moved ==> now == start)
  {
    now, moved := start, false;
    var todo := set field | field in start[name] && field.Flatten? :: field.inner;
    while todo != {}
      invariant AllSpliced(own, now) && Reading(start, now, name, todo) && (!moved ==> now == start)
      decreases |todo|
    {
      var inner :| inner in todo;
      ReadsOne(start, now, name, todo, inner);
      if inner in now && Clean(now[inner]) {
        SpliceKeeps(own, now, name, inner);
        now := now[name := now[name] - {Flatten(inner)} + now[inner]];
        moved := true;
      }
      todo := todo - {inner};
    }
  }

  /** Once `name` is read, none of its marks is of a type whose ways are one longer. */
  lemma ReadPasses(own: Structs, now: Structs, next: Structs, name: string, n: nat)
    requires AllSpliced(own, now) && Passed(own, now, n) && Reading(now, next, name, {})
    ensures PassedAt(own, next[name], n + 1) && Passed(own, next, n)
  {
    forall inner | Flatten(inner) in next[name] ensures !WholeIn(own, inner, n + 1) && !WholeIn(own, inner, n) {
      assert Marked(now, name, inner, false);
      assert PassedAt(own, now[name], n);
      if WholeIn(own, inner, n + 1) {
        PassedIsClean(own, now, inner, n);
      }
    }
    forall other | other in next ensures PassedAt(own, next[other], n) {
      assert PassedAt(own, now[other], n);
    }
  }

  ghost predicate ReadUpTo(own: Structs, now: Structs, names: seq<string>, n: nat) {
    forall j | 0 <= j < |names| :: names[j] in now && PassedAt(own, now[names[j]], n)
  }

  lemma ReadOneMore(own: Structs, now: Structs, next: Structs, names: seq<string>, name: string, n: nat)
    requires ReadUpTo(own, now, names, n) && Reading(now, next, name, {}) && PassedAt(own, next[name], n)
    ensures ReadUpTo(own, next, names + [name], n)
  {
    forall j | 0 <= j < |names| + 1 ensures (names + [name])[j] in next && PassedAt(own, next[(names + [name])[j]], n) {
      if j < |names| {
        assert names[j] in now && PassedAt(own, now[names[j]], n);
      }
    }
  }

  lemma UnmovedIsStill(start: Structs, name: string)
    requires Reading(start, start, name, {})
    ensures Still(start, name)
  {
    forall inner | Flatten(inner) in start[name] && inner in start ensures !Clean(start[inner]) {
      assert Marked(start, name, inner, false);
    }
  }

  lemma AllRead(own: Structs, now: Structs, names: seq<string>, n: nat)
    requires ReadUpTo(own, now, names, n) && forall name | name in now :: name in names
    ensures Passed(own, now, n)
  {
    forall name | name in now ensures PassedAt(own, now[name], n) {
      var j :| 0 <= j < |names| && names[j] == name;
    }
  }

  ghost predicate StillUpTo(before: Structs, names: seq<string>) {
    forall name | name in names :: name in before && Still(before, name)
  }

  lemma OneTurnMore(own: Structs, now: Structs, next: Structs, names: seq<string>, i: nat, n: nat)
    requires i < |names| && AllSpliced(own, now) && Passed(own, now, n) && ReadUpTo(own, now, names[..i], n + 1)
    requires Reading(now, next, names[i], {})
    ensures Passed(own, next, n) && ReadUpTo(own, next, names[..i + 1], n + 1)
    ensures next == now ==> (StillUpTo(now, names[..i]) ==> StillUpTo(now, names[..i + 1]))
  {
    ReadPasses(own, now, next, names[i], n);
    ReadOneMore(own, now, next, names[..i], names[i], n + 1);
    assert names[..i] + [names[i]] == names[..i + 1];
    if next == now {
      UnmovedIsStill(now, names[i]);
    }
  }

  /** Every struct in the order it was read. */
  method SplicePass(ghost own: Structs, before: Structs, names: seq<string>, ghost n: nat)
    returns (now: Structs, moved: bool)
    requires AllSpliced(own, before) && Passed(own, before, n) && forall name :: name in names <==> name in before
    ensures AllSpliced(own, now) && Passed(own, now, n + 1) && now.Keys == before.Keys
    ensures !moved ==> now == before && StillUpTo(before, names)
  {
    now, moved := before, false;
    for i := 0 to |names|
      invariant AllSpliced(own, now) && Passed(own, now, n) && now.Keys == before.Keys
      invariant ReadUpTo(own, now, names[..i], n + 1)
      invariant !moved ==> now == before && StillUpTo(before, names[..i])
    {
      var next, took := SpliceInto(own, now, names[i]);
      OneTurnMore(own, now, next, names, i, n);
      now, moved := next, moved || took;
    }
    assert names[..|names|] == names;
    AllRead(own, now, names, n + 1);
  }

  /** No mark is left of a whole type, so every field it carries was spliced in. */
  ghost predicate Resolved(own: Structs, now: Structs) {
    own.Keys == now.Keys && forall name, field | name in own :: field in now[name] <==> Belongs(own, name, field)
  }

  /** What a struct ends with: its own fields and those of the whole types it splices, and the other marks. */
  ghost predicate Belongs(own: Structs, name: string, field: Field)
    requires name in own
  {
    match field
    case Named(_) => field in own[name] || SplicedFrom(own, name, field)
    case Flatten(inner) => field in own[name] && !Whole(own, inner)
    case Unread => field in own[name]
  }

  lemma PassedIsResolved(own: Structs, now: Structs, n: nat)
    requires AllSpliced(own, now) && Passed(own, now, n) && n >= |own|
    ensures Resolved(own, now)
  {
    forall name, field | name in own ensures field in now[name] <==> Belongs(own, name, field) {
      assert Spliced(own, now, name) && PassedAt(own, now[name], n);
      match field
      case Unread =>
      case Flatten(inner) =>
        WholeIff(own, inner);
        if WholeIn(own, inner, |own|) {
          LongerWays(own, inner, |own|, n);
        }
      case Named(_) =>
        if SplicedFrom(own, name, field) {
          var inner :| Flatten(inner) in own[name] && Whole(own, inner) && Carries(own, inner, field);
          WholeIff(own, inner);
          LongerWays(own, inner, |own|, n);
          assert Gone(own, now[name], inner);
        }
    }
  }

  lemma {:induction false} LongerWays(structs: Structs, name: string, m: nat, n: nat)
    requires WholeIn(structs, name, m) && m <= n
    ensures WholeIn(structs, name, n)
    decreases m
  {
    forall field | field in structs[name] && field.Flatten? ensures WholeIn(structs, field.inner, n - 1) {
      LongerWays(structs, field.inner, m - 1, n - 1);
    }
  }

  /** At most one pass more than there are structs, and fewer once nothing moves. */
  method ResolveFlattened(structs: Structs, names: seq<string>) returns (now: Structs)
    requires forall name :: name in names <==> name in structs
    ensures Resolved(structs, now)
  {
    now := structs;
    assert forall name | name in structs :: Spliced(structs, structs, name);
    for pass := 0 to |structs| + 1
      invariant AllSpliced(structs, now) && Passed(structs, now, pass)
    {
      var next, moved := SplicePass(structs, now, names, pass);
      now := next;
      if !moved {
        StillPassed(structs, now, |structs|);
        PassedIsResolved(structs, now, |structs|);
        return;
      }
    }
    PassedIsResolved(structs, now, |structs| + 1);
  }

  /**
   * A struct loses its marks exactly when no circle, unknown type or unread mark is reached from it,
   * and then has the own fields of every struct reached.
   */
  lemma UnmarkedIffWhole(own: Structs, now: Structs, name: string)
    requires Resolved(own, now) && name in own
    ensures Clean(now[name]) <==> Whole(own, name)
    ensures Whole(own, name) ==> forall field: Field | field.Named? :: field in now[name] <==> Carries(own, name, field)
  {
    WholeByParts(own, name);
    if Clean(now[name]) {
      assert Belongs(own, name, Unread) <==> Unread in now[name];
      forall field | field in own[name] && field.Flatten? ensures Whole(own, field.inner) {
        assert Belongs(own, name, field) <==> field in now[name];
      }
    }
    if Whole(own, name) {
      forall field | field in now[name] ensures field.Named? {
        assert Belongs(own, name, field);
      }
      forall field: Field | field.Named? ensures field in now[name] <==> Carries(own, name, field) {
        CarriesByParts(own, name, field);
        assert field in now[name] <==> Belongs(own, name, field);
      }
    }
  }
}
