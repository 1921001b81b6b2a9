/**
 * `payload_breaks` of scripts/contract-breaks.py: the search that compares a released payload with
 * the current contract, through `$ref`s that may form cycles.
 *
 * A position is a pair of schemas standing at the same place of the two contracts. The search cuts
 * a position both contracts name by reference once it has visited that pair of names, and recurses
 * on every other, so what it reports is proved about every walk, and so is when it returns at all.
 */
module ContractBreaks {
  import opened Options

  datatype Json = Null | Text(text: string) | List(elements: seq<Json>)

  /** A schema object; `ref` is "" where there is no `$ref`, which the code reads alike. */
  datatype Schema = Schema(
    ref: string,
    kind: Option<Json>,
    format: Option<Json>,
    properties: map<string, Schema>,
    required: set<string>,
    items: Option<Schema>)

  /** `components.schemas`, by name. */
  type Contract = map<string, Schema>

  const REF := "#/components/schemas/"

  function Target(ref: string): string {
    if REF <= ref then ref[|REF|..] else ref
  }

  /** The component a schema names, "" where it names none. */
  function RefName(schema: Schema): string {
    if schema.ref == "" then "" else Target(schema.ref)
  }

  /** One reference is followed, and only one: a component that is itself a `$ref` is read as it is. */
  function Resolve(contract: Contract, schema: Schema): Option<Schema> {
    if schema.ref == "" then Some(schema)
    else if RefName(schema) in contract then Some(contract[RefName(schema)])
    else None
  }

  function Named(name: string): Schema {
    Schema(REF + name, None, None, map[], {}, None)
  }

  datatype Hop = Field(name: string) | Items

  datatype Facet = Type | Format

  datatype What = Undocumented | FacetChanged(facet: Facet) | FieldGone(field: string) | NoLongerRequired(field: string)

  datatype Break = Break(at: seq<Hop>, what: What)

  /** A break of two schemas, wherever they were read. */
  datatype Fact = Fact(before: Option<Schema>, after: Option<Schema>, what: What)

  datatype Position = Position(before: Schema, after: Schema)

  /** The two contracts, the release's and the current one. */
  datatype Pair = Pair(released: Contract, current: Contract) {
    function Before(p: Position): Option<Schema> { Resolve(released, p.before) }

    function After(p: Position): Option<Schema> { Resolve(current, p.after) }

    /** Both sides resolve, so the search goes on from here. */
    predicate Live(p: Position) { Before(p).Some? && After(p).Some? }

    /** The position is one `seen` records. */
    predicate Referenced(p: Position) { RefName(p.before) != "" && RefName(p.after) != "" }

    predicate CanStep(p: Position, hop: Hop) {
      Live(p) &&
      match hop
      case Field(f) => f in Before(p).value.properties && f in After(p).value.properties
      case Items => Before(p).value.items.Some? && After(p).value.items.Some?
    }

    function Step(p: Position, hop: Hop): Position
      requires CanStep(p, hop)
    {
      match hop
      case Field(f) => Position(Before(p).value.properties[f], After(p).value.properties[f])
      case Items => Position(Before(p).value.items.value, After(p).value.items.value)
    }

    /** Where `path` leads from `p` in both contracts at once, through every reference. */
    ghost function Walk(p: Position, path: seq<Hop>): Option<Position>
      decreases |path|
    {
      if path == [] then Some(p)
      else if CanStep(p, path[0]) then Walk(Step(p, path[0]), path[1..])
      else None
    }

    ghost predicate Violates(p: Position, what: What) {
      Before(p).Some? &&
      match what
      case Undocumented => After(p).None?
      case FacetChanged(facet) => After(p).Some? && Changed(facet, Before(p).value, After(p).value)
      case FieldGone(f) =>
        After(p).Some? && f in Before(p).value.properties && f !in After(p).value.properties
      case NoLongerRequired(f) =>
        After(p).Some? && f in Before(p).value.required && f !in After(p).value.required &&
        f in After(p).value.properties
    }

    /** Nothing at this one position breaks a receiver. */
    ghost predicate Good(p: Position) {
      forall what: What :: !Violates(p, what)
    }

    function FactAt(p: Position, what: What): Fact {
      Fact(Before(p), After(p), what)
    }

    /** Every break at `p` is among `noted`, found there or where the same two schemas were read. */
    ghost predicate Noted(noted: set<Fact>, p: Position) {
      forall what: What :: Violates(p, what) ==> FactAt(p, what) in noted
    }

    /** No position any walk reaches breaks a receiver. */
    ghost predicate Clean(root: Position) {
      forall path :: Walk(root, path).Some? ==> Good(Walk(root, path).value)
    }

    /** Every walk from `p` that keeps off referenced positions ends within `n` steps. */
    ghost predicate Short(p: Position, n: nat)
      decreases n
    {
      Live(p) && !Referenced(p) ==>
        n > 0 && forall hop | CanStep(p, hop) :: Short(Step(p, hop), n - 1)
    }

    /** From `root` and from each referenced position past it, no walk is over `n + 1` hops from the next. */
    ghost predicate Windowed(root: Position, n: nat) {
      Short(root, n) &&
      forall path, hop ::
        Walk(root, path).Some? && Referenced(Walk(root, path).value) && CanStep(Walk(root, path).value, hop)
        ==> Short(Step(Walk(root, path).value, hop), n)
    }

    /**
     * What a visit to `p` with `n` frames left accounts for along `path`: up to the first referenced
     * position every position was visited in turn, and that first one is in `seen`. Of each
     * one visited every break was noted.
     */
    ghost predicate Explained(seen: set<(string, string)>, p: Position, path: seq<Hop>, n: nat, noted: set<Fact>)
      decreases |path|, 1
    {
      n > 0 &&
      (!Live(p) ==> Noted(noted, p)) &&
      (Live(p) && Referenced(p) ==> (RefName(p.before), RefName(p.after)) in seen) &&
      (Live(p) && !Referenced(p) ==> Visited(seen, p, path, n, noted))
    }

    ghost predicate Visited(seen: set<(string, string)>, p: Position, path: seq<Hop>, n: nat, noted: set<Fact>)
      decreases |path|, 0
    {
      n > 0 &&
      Noted(noted, p) &&
      (path != [] && CanStep(p, path[0]) ==> Explained(seen, Step(p, path[0]), path[1..], n - 1, noted))
    }

    /** Every name pair of `some` was visited, in a search whose record is `seen`. */
    ghost predicate AllExplained(seen: set<(string, string)>, p: Position, n: nat, noted: set<Fact>) {
      forall path :: Explained(seen, p, path, n, noted)
    }

    ghost predicate AllVisited(some: set<(string, string)>, seen: set<(string, string)>, n: nat, noted: set<Fact>) {
      forall p, path | Live(p) && Referenced(p) && (RefName(p.before), RefName(p.after)) in some ::
        Visited(seen, p, path, n, noted)
    }
  }

  function Get(facet: Option<Json>): Json {
    if facet.Some? then facet.value else Null
  }

  function FacetOf(facet: Facet, schema: Schema): Option<Json> {
    match facet
    case Type => schema.kind
    case Format => schema.format
  }

  predicate Changed(facet: Facet, before: Schema, after: Schema) {
    FacetOf(facet, before).Some? && Get(FacetOf(facet, before)) != Get(FacetOf(facet, after))
  }

  // ----- what stands, field by field

  /** A facet the release says is said again; one it gives as null may go unsaid. */
  predicate Kept(before: Option<Json>, after: Option<Json>) {
    before == None || after == before || (before == Some(Null) && after == None)
  }

  /** A receiver of `before` reads `after` as well: what it required and is still documented, it requires. */
  predicate StandsAs(before: Schema, after: Schema) {
    Kept(before.kind, after.kind) && Kept(before.format, after.format) &&
    (forall f | f in before.properties :: f in after.properties) &&
    forall f | f in before.required && f in after.properties :: f in after.required
  }

  lemma ChangedIsNotKept(facet: Facet, before: Schema, after: Schema)
    ensures Changed(facet, before, after) <==>
      match facet
      case Type => !Kept(before.kind, after.kind)
      case Format => !Kept(before.format, after.format)
  {
  }

  lemma GoodIsStanding(c: Pair, p: Position)
    ensures c.Good(p) <==>
      (c.Before(p).Some? ==> c.After(p).Some? && StandsAs(c.Before(p).value, c.After(p).value))
  {
    if c.Good(p) && c.Before(p).Some? {
      assert !c.Violates(p, Undocumented);
      var b, a := c.Before(p).value, c.After(p).value;
      ChangedIsNotKept(Type, b, a);
      ChangedIsNotKept(Format, b, a);
      assert !c.Violates(p, FacetChanged(Type)) && !c.Violates(p, FacetChanged(Format));
      forall f | f in b.properties ensures f in a.properties {
        assert !c.Violates(p, FieldGone(f));
      }
      forall f | f in b.required && f in a.properties ensures f in a.required {
        assert !c.Violates(p, NoLongerRequired(f));
      }
    } else if c.Before(p).Some? && c.After(p).Some? && StandsAs(c.Before(p).value, c.After(p).value) {
      forall what: What ensures !c.Violates(p, what) {
        if what.FacetChanged? {
          ChangedIsNotKept(what.facet, c.Before(p).value, c.After(p).value);
        }
      }
    }
  }

  // ----- what a contract documents, without the search

  /** The component a `$ref` names: what follows the prefix, or all of it where there is no prefix. */
  predicate NamedBy(ref: string, name: string) {
    ref == REF + name || (ref == name && !(REF <= ref))
  }

  /** What a schema is read as: itself, or the component it names. */
  ghost predicate Reads(contract: Contract, schema: Schema, read: Schema) {
    if schema.ref == "" then read == schema
    else exists name | name in contract :: NamedBy(schema.ref, name) && read == contract[name]
  }

  /** The schema `end` stands at `path` in one contract: a field or the items of what each schema reads as. */
  ghost predicate Leads(contract: Contract, schema: Schema, path: seq<Hop>, end: Schema)
    decreases |path|
  {
    if path == [] then end == schema
    else exists read :: Reads(contract, schema, read) && LeadsOn(contract, read, path, end)
  }

  ghost predicate LeadsOn(contract: Contract, read: Schema, path: seq<Hop>, end: Schema)
    requires path != []
    decreases |path|, 0
  {
    match path[0]
    case Field(f) => f in read.properties && Leads(contract, read.properties[f], path[1..], end)
    case Items => read.items.Some? && Leads(contract, read.items.value, path[1..], end)
  }

  lemma ResolveReads(contract: Contract, schema: Schema, read: Schema)
    ensures Resolve(contract, schema) == Some(read) <==> Reads(contract, schema, read)
  {
    var ref := schema.ref;
    if ref != "" {
      if REF <= ref {
        assert ref == REF + Target(ref);
      }
      assert NamedBy(ref, Target(ref));
      forall name | NamedBy(ref, name) ensures name == Target(ref) {
        assert ref == REF + name ==> ref[|REF|..] == name;
      }
    }
  }

  /** A walk of the search leads where the path leads in each contract, and there is one wherever both lead. */
  lemma {:induction false} WalkLeads(c: Pair, p: Position, path: seq<Hop>, q: Position)
    ensures c.Walk(p, path) == Some(q) <==>
      Leads(c.released, p.before, path, q.before) && Leads(c.current, p.after, path, q.after)
    decreases |path|
  {
    if path != [] {
      if Leads(c.released, p.before, path, q.before) && Leads(c.current, p.after, path, q.after) {
        var b :| Reads(c.released, p.before, b) && LeadsOn(c.released, b, path, q.before);
        var a :| Reads(c.current, p.after, a) && LeadsOn(c.current, a, path, q.after);
        ResolveReads(c.released, p.before, b);
        ResolveReads(c.current, p.after, a);
        assert c.CanStep(p, path[0]);
      }
      if c.CanStep(p, path[0]) {
        ResolveReads(c.released, p.before, c.Before(p).value);
        ResolveReads(c.current, p.after, c.After(p).value);
        WalkLeads(c, c.Step(p, path[0]), path[1..], q);
      }
    }
  }

  /**
   * A receiver of the released `name` is served: wherever a path leads in both contracts, what the release
   * says there the current contract still says.
   */
  ghost predicate Served(released: Contract, current: Contract, name: string) {
    forall path, b, a | Leads(released, Named(name), path, b) && Leads(current, Named(name), path, a) ::
      ServedAt(released, current, b, a)
  }

  ghost predicate ServedAt(released: Contract, current: Contract, b: Schema, a: Schema) {
    forall before | Reads(released, b, before) :: exists after :: Reads(current, a, after) && StandsAs(before, after)
  }

  lemma GoodIsServedAt(c: Pair, p: Position)
    ensures c.Good(p) <==> ServedAt(c.released, c.current, p.before, p.after)
  {
    GoodIsStanding(c, p);
    if c.Before(p).Some? {
      ResolveReads(c.released, p.before, c.Before(p).value);
    }
    forall before ensures Reads(c.released, p.before, before) <==> c.Before(p) == Some(before) {
      ResolveReads(c.released, p.before, before);
    }
    forall after ensures Reads(c.current, p.after, after) <==> c.After(p) == Some(after) {
      ResolveReads(c.current, p.after, after);
    }
  }

  lemma CleanIsServed(c: Pair, name: string)
    ensures c.Clean(Payload(name)) <==> Served(c.released, c.current, name)
  {
    var root := Payload(name);
    if c.Clean(root) {
      forall path, b, a | Leads(c.released, Named(name), path, b) && Leads(c.current, Named(name), path, a)
        ensures ServedAt(c.released, c.current, b, a)
      {
        WalkLeads(c, root, path, Position(b, a));
        GoodIsServedAt(c, Position(b, a));
      }
    }
    if Served(c.released, c.current, name) {
      forall path | c.Walk(root, path).Some? ensures c.Good(c.Walk(root, path).value) {
        var q := c.Walk(root, path).value;
        WalkLeads(c, root, path, q);
        GoodIsServedAt(c, q);
      }
    }
  }

  // ----- the record only grows, and a deeper stack explains no less

  lemma ExplainedGrows(c: Pair, s: set<(string, string)>, t: set<(string, string)>, p: Position,
                       path: seq<Hop>, n: nat, m: nat, noted: set<Fact>, more: set<Fact>)
    requires s <= t && n <= m && noted <= more
    requires c.Explained(s, p, path, n, noted)
    ensures c.Explained(t, p, path, m, more)
    decreases |path|, 1
  {
    if c.Live(p) && !c.Referenced(p) {
      VisitedGrows(c, s, t, p, path, n, m, noted, more);
    }
  }

  lemma VisitedGrows(c: Pair, s: set<(string, string)>, t: set<(string, string)>, p: Position,
                     path: seq<Hop>, n: nat, m: nat, noted: set<Fact>, more: set<Fact>)
    requires s <= t && n <= m && noted <= more
    requires c.Visited(s, p, path, n, noted)
    ensures c.Visited(t, p, path, m, more)
    decreases |path|, 0
  {
    if path != [] && c.CanStep(p, path[0]) {
      ExplainedGrows(c, s, t, c.Step(p, path[0]), path[1..], n - 1, m - 1, noted, more);
    }
  }

  lemma AllExplainedGrows(c: Pair, s: set<(string, string)>, t: set<(string, string)>, p: Position,
                          n: nat, m: nat, noted: set<Fact>, more: set<Fact>)
    requires s <= t && n <= m && noted <= more
    requires c.AllExplained(s, p, n, noted)
    ensures c.AllExplained(t, p, m, more)
  {
    forall path ensures c.Explained(t, p, path, m, more) {
      ExplainedGrows(c, s, t, p, path, n, m, noted, more);
    }
  }

  lemma AllVisitedGrows(c: Pair, some: set<(string, string)>, s: set<(string, string)>, t: set<(string, string)>,
                        n: nat, m: nat, noted: set<Fact>, more: set<Fact>)
    requires s <= t && n <= m && noted <= more
    requires c.AllVisited(some, s, n, noted)
    ensures c.AllVisited(some, t, m, more)
  {
    forall p, path | c.Live(p) && c.Referenced(p) && (RefName(p.before), RefName(p.after)) in some
      ensures c.Visited(t, p, path, m, more)
    {
      VisitedGrows(c, s, t, p, path, n, m, noted, more);
    }
  }

  /** A position visited, its hops explained; `q` is any position that resolves to the same schemas. */
  lemma VisitDone(c: Pair, seen: set<(string, string)>, p: Position, q: Position, n: nat, noted: set<Fact>)
    requires n > 0 && c.Before(p) == c.Before(q) && c.After(p) == c.After(q)
    requires c.Noted(noted, p)
    requires forall hop | c.CanStep(p, hop) :: c.AllExplained(seen, c.Step(p, hop), n - 1, noted)
    ensures forall path :: c.Visited(seen, q, path, n, noted)
  {
    assert c.Noted(noted, q) by {
      assert forall what: What :: c.Violates(q, what) == c.Violates(p, what) && c.FactAt(q, what) == c.FactAt(p, what);
    }
    forall path ensures c.Visited(seen, q, path, n, noted) {
      if path != [] && c.CanStep(q, path[0]) {
        assert c.CanStep(p, path[0]) && c.Step(p, path[0]) == c.Step(q, path[0]);
        assert c.AllExplained(seen, c.Step(p, path[0]), n - 1, noted);
      }
    }
  }

  // ----- frames

  ghost function Names(c: Pair): set<(string, string)> {
    set a, b | a in c.released && b in c.current :: (a, b)
  }

  /** Frames enough for a visit `k` hops from its next reference, the names of `seen` done. */
  ghost predicate Enough(c: Pair, seen: set<(string, string)>, n: nat, k: nat, depth: nat) {
    depth > |Names(c) - seen| * (n + 2) + k
  }

  lemma EnoughBelow(c: Pair, s: set<(string, string)>, t: set<(string, string)>, n: nat, k: nat, depth: nat)
    requires s <= t && Enough(c, s, n, k, depth) && k > 0
    ensures Enough(c, t, n, k - 1, depth - 1)
  {
    Fewer(Names(c) - s, Names(c) - t, n);
  }

  lemma EnoughPast(c: Pair, s: set<(string, string)>, t: set<(string, string)>, name: (string, string),
                   n: nat, k: nat, depth: nat)
    requires s + {name} <= t && name !in s && name in Names(c) && Enough(c, s, n, k, depth)
    ensures depth > 0 && Enough(c, t, n, n, depth - 1)
  {
    Fewer(Names(c) - s - {name}, Names(c) - t, n);
    assert |Names(c) - s| == |Names(c) - s - {name}| + 1;
  }

  lemma Fewer(s: set<(string, string)>, t: set<(string, string)>, n: nat)
    requires t <= s
    ensures |t| * (n + 2) <= |s| * (n + 2)
  {
    assert s == t + (s - t);
  }

  /** The record of names after `p` is entered. */
  ghost predicate Entered(c: Pair, p: Position, s: set<(string, string)>, t: set<(string, string)>) {
    if c.Referenced(p) then
      t == s + {(RefName(p.before), RefName(p.after))} && (RefName(p.before), RefName(p.after)) !in s
    else t == s
  }

  lemma VisitEnds(c: Pair, p: Position, s: set<(string, string)>, t: set<(string, string)>,
                  seen: set<(string, string)>, n: nat, noted: set<Fact>)
    requires n > 0 && c.Live(p) && Entered(c, p, s, t) && t <= seen
    requires c.Noted(noted, p)
    requires forall hop | c.CanStep(p, hop) :: c.AllExplained(seen, c.Step(p, hop), n - 1, noted)
    requires c.AllVisited(seen - t, seen, n, noted)
    ensures c.AllExplained(seen, p, n, noted) && c.AllVisited(seen - s, seen, n, noted)
  {
    VisitDone(c, seen, p, p, n, noted);
    forall q, path | c.Live(q) && c.Referenced(q) && (RefName(q.before), RefName(q.after)) in seen - s
      ensures c.Visited(seen, q, path, n, noted)
    {
      if (RefName(q.before), RefName(q.after)) !in seen - t {
        VisitDone(c, seen, p, q, n, noted);
      }
    }
  }

  /** Frames enough for `p` are enough for what lies one hop past it. */
  lemma EnoughInside(c: Pair, root: Position, at: seq<Hop>, p: Position, s: set<(string, string)>,
                     t: set<(string, string)>, n: nat, k: nat, depth: nat)
    requires c.Live(p) && Entered(c, p, s, t) && t <= Names(c) && c.Walk(root, at) == Some(p)
    requires depth > 0
    ensures c.Windowed(root, n) && c.Short(p, k) && Enough(c, s, n, k, depth) ==>
      var short := if c.Referenced(p) then n else if k > 0 then k - 1 else 0;
      Enough(c, t, n, short, depth - 1) && forall hop | c.CanStep(p, hop) :: c.Short(c.Step(p, hop), short)
  {
    if c.Windowed(root, n) && c.Short(p, k) && Enough(c, s, n, k, depth) {
      if c.Referenced(p) {
        EnoughPast(c, s, t, (RefName(p.before), RefName(p.after)), n, k, depth);
      } else {
        EnoughBelow(c, s, t, n, k, depth);
      }
    }
  }

  /** The walk to a position, one hop further. */
  lemma WalkOn(c: Pair, root: Position, path: seq<Hop>, hop: Hop)
    requires c.Walk(root, path).Some? && c.CanStep(c.Walk(root, path).value, hop)
    ensures c.Walk(root, path + [hop]) == Some(c.Step(c.Walk(root, path).value, hop))
    decreases |path|
  {
    if path == [] {
      assert path + [hop] == [hop];
    } else {
      WalkOn(c, c.Step(root, path[0]), path[1..], hop);
      assert (path + [hop])[1..] == path[1..] + [hop];
    }
  }

  // ----- the search

  /** A break at its place names a walk, and what is wrong where the walk ends. */
  ghost predicate Real(c: Pair, root: Position, b: Break) {
    c.Walk(root, b.at).Some? && c.Violates(c.Walk(root, b.at).value, b.what)
  }

  /** One of `breaks` says of the same two schemas what `fact` does. */
  ghost predicate Said(c: Pair, root: Position, breaks: seq<Break>, fact: Fact) {
    exists b | b in breaks :: c.Walk(root, b.at).Some? && c.FactAt(c.Walk(root, b.at).value, b.what) == fact
  }

  class Comparison {
    const contracts: Pair
    ghost const root: Position
    var seen: set<(string, string)>
    var breaks: seq<Break>
    ghost var noted: set<Fact>

    constructor (contracts: Pair, root: Position)
      ensures Valid() && this.contracts == contracts && this.root == root
      ensures seen == {} && breaks == [] && noted == {}
    {
      this.contracts, this.root, seen, breaks, noted := contracts, root, {}, [], {};
    }

    ghost predicate Valid()
      reads this
    {
      (forall b | b in breaks :: Real(contracts, root, b)) && seen <= Names(contracts) &&
      forall fact | fact in noted :: Said(contracts, root, breaks, fact)
    }

    method Note(b: Break, ghost p: Position)
      requires Valid() && contracts.Walk(root, b.at) == Some(p) && contracts.Violates(p, b.what)
      modifies this`breaks, this`noted
      ensures Valid() && breaks == old(breaks) + [b] && noted == old(noted) + {contracts.FactAt(p, b.what)}
    {
      breaks, noted := breaks + [b], noted + {contracts.FactAt(p, b.what)};
      SaidOneMore(contracts, root, old(breaks), b, old(noted));
    }

    /**
     * One visit. `depth` is the frames the interpreter has left: none raises, as `RecursionError`
     * does. The order of the fields is left open, so what is proved holds of the sorted one.
     */
    method Compare(before: Schema, after: Schema, at: seq<Hop>, depth: nat, ghost n: nat, ghost k: nat)
      returns (raised: bool)
      requires Valid() && contracts.Walk(root, at) == Some(Position(before, after))
      modifies this
      ensures Valid() && old(breaks) <= breaks && old(seen) <= seen && old(noted) <= noted
      ensures !raised ==>
        contracts.AllExplained(seen, Position(before, after), depth, noted) &&
        contracts.AllVisited(seen - old(seen), seen, depth, noted)
      ensures (contracts.Windowed(root, n) && contracts.Short(Position(before, after), k) &&
        Enough(contracts, old(seen), n, k, depth)) ==> !raised
      decreases depth
    {
      if depth == 0 {
        return true;
      }
      var p := Position(before, after);
      var b := contracts.Before(p);
      var a := contracts.After(p);
      if b.None? {
        return false;
      }
      if a.None? {
        assert contracts.Violates(p, Undocumented);
        Note(Break(at, Undocumented), p);
        return false;
      }
      ghost var names := (RefName(before), RefName(after));
      if contracts.Referenced(p) {
        if (RefName(before), RefName(after)) in seen {
          return false;
        }
        seen := seen + {(RefName(before), RefName(after))};
      }
      label entered:
      ghost var short := if contracts.Referenced(p) then n else if k > 0 then k - 1 else 0;
      raised := CompareResolved(p, at, depth, n, short);
      if raised {
        EnoughInside(contracts, root, at, p, old(seen), old@entered(seen), n, k, depth);
      } else {
        VisitEnds(contracts, p, old(seen), old@entered(seen), seen, depth, noted);
      }
    }

    /** The visit past its references: `p` resolves on both sides. */
    method CompareResolved(p: Position, at: seq<Hop>, depth: nat, ghost n: nat, ghost k: nat)
      returns (raised: bool)
      requires Valid() && depth > 0 && contracts.Live(p) && contracts.Walk(root, at) == Some(p)
      modifies this
      ensures Valid() && old(breaks) <= breaks && old(seen) <= seen && old(noted) <= noted
      ensures !raised ==> contracts.Noted(noted, p)
      ensures !raised ==>
        (forall hop | contracts.CanStep(p, hop) ::
          contracts.AllExplained(seen, contracts.Step(p, hop), depth - 1, noted)) &&
        contracts.AllVisited(seen - old(seen), seen, depth, noted)
      ensures (contracts.Windowed(root, n) && Enough(contracts, old(seen), n, k, depth - 1) &&
        (forall hop | contracts.CanStep(p, hop) :: contracts.Short(contracts.Step(p, hop), k))) ==> !raised
      decreases depth, 1, 1
    {
      ghost var seen0, noted0 := seen, noted;
      CompareFacets(p, at, depth);
      ghost var faceted, done := noted, {};
      raised, done := CompareFields(p, at, depth, n, k, seen0, noted0);
      if raised {
        return;
      }
      CompareRequired(p, at, done, depth, seen0, noted0);
      NotedWhole(contracts, p, faceted, noted);
      ghost var whole := noted;
      raised, done := CompareItems(p, at, depth, n, k, done, seen0, noted0);
      assert whole <= noted;
    }

    method CompareFacets(p: Position, at: seq<Hop>, ghost depth: nat)
      requires Valid() && depth > 0 && contracts.Live(p) && contracts.Walk(root, at) == Some(p)
      modifies this`breaks, this`noted
      ensures old(breaks) <= breaks && Covered(p, {}, depth, seen, old(noted))
      ensures forall facet | contracts.Violates(p, FacetChanged(facet)) ::
        contracts.FactAt(p, FacetChanged(facet)) in noted
    {
      CompareFacet(p, at, Type);
      CompareFacet(p, at, Format);
      forall facet: Facet | contracts.Violates(p, FacetChanged(facet))
        ensures contracts.FactAt(p, FacetChanged(facet)) in noted
      {
        assert facet == Type || facet == Format;
      }
    }

    method CompareItems(p: Position, at: seq<Hop>, depth: nat, ghost n: nat, ghost k: nat, ghost fields: set<Hop>,
                        ghost seen0: set<(string, string)>, ghost noted0: set<Fact>)
      returns (raised: bool, ghost done: set<Hop>)
      requires depth > 0 && contracts.Live(p) && contracts.Walk(root, at) == Some(p)
      requires Covered(p, fields, depth, seen0, noted0)
      modifies this
      ensures Valid() && old(breaks) <= breaks && old(seen) <= seen && old(noted) <= noted
      ensures !raised ==>
        Covered(p, done, depth, seen0, noted0) && fields <= done && (contracts.CanStep(p, Items) ==> Items in done)
      ensures (contracts.Windowed(root, n) && Enough(contracts, seen0, n, k, depth - 1) &&
        (forall hop | contracts.CanStep(p, hop) :: contracts.Short(contracts.Step(p, hop), k))) ==> !raised
      decreases depth, 1, 0
    {
      raised, done := false, fields;
      if contracts.Before(p).value.items.Some? && contracts.After(p).value.items.Some? {
        raised := Visit(p, at, Items, depth, n, k, fields, seen0, noted0);
        done := fields + {Items};
      }
    }

    method CompareFields(p: Position, at: seq<Hop>, depth: nat, ghost n: nat, ghost k: nat,
                         ghost seen0: set<(string, string)>, ghost noted0: set<Fact>)
      returns (raised: bool, ghost done: set<Hop>)
      requires depth > 0 && contracts.Live(p) && contracts.Walk(root, at) == Some(p)
      requires Covered(p, {}, depth, seen0, noted0)
      modifies this
      ensures Valid() && old(breaks) <= breaks && old(seen) <= seen && old(noted) <= noted
      ensures !raised ==> Covered(p, done, depth, seen0, noted0)
      ensures !raised ==> forall f | f in contracts.Before(p).value.properties ::
        if f in contracts.After(p).value.properties then Field(f) in done
        else contracts.FactAt(p, FieldGone(f)) in noted
      ensures (contracts.Windowed(root, n) && Enough(contracts, seen0, n, k, depth - 1) &&
        (forall hop | contracts.CanStep(p, hop) :: contracts.Short(contracts.Step(p, hop), k))) ==> !raised
      decreases depth, 1, 0
    {
      raised, done := false, {};
      var b, a := contracts.Before(p).value, contracts.After(p).value;
      var left := b.properties.Keys;
      while left != {}
        invariant left <= b.properties.Keys && old(noted) <= noted && old(seen) <= seen && old(breaks) <= breaks
        invariant forall f | f in b.properties && f !in left && f !in a.properties ::
          contracts.FactAt(p, FieldGone(f)) in noted
        invariant forall f | f in b.properties && f !in left && f in a.properties :: Field(f) in done
        invariant Covered(p, done, depth, seen0, noted0)
      {
        var f :| f in left;
        left := left - {f};
        if f !in a.properties {
          assert contracts.Violates(p, FieldGone(f));
          NoteAmid(Break(at, FieldGone(f)), p, done, depth, seen0, noted0);
        } else {
          raised := Visit(p, at, Field(f), depth, n, k, done, seen0, noted0);
          if raised {
            return;
          }
          done := done + {Field(f)};
        }
      }
    }

    method CompareRequired(p: Position, at: seq<Hop>, ghost done: set<Hop>, ghost depth: nat,
                           ghost seen0: set<(string, string)>, ghost noted0: set<Fact>)
      requires depth > 0 && contracts.Live(p) && contracts.Walk(root, at) == Some(p)
      requires Covered(p, done, depth, seen0, noted0)
      modifies this`breaks, this`noted
      ensures Covered(p, done, depth, seen0, noted0) && old(breaks) <= breaks && old(noted) <= noted
      ensures forall f | contracts.Violates(p, NoLongerRequired(f)) ::
        contracts.FactAt(p, NoLongerRequired(f)) in noted
    {
      var b, a := contracts.Before(p).value, contracts.After(p).value;
      var left := b.required - a.required;
      while left != {}
        invariant left <= b.required - a.required && old(noted) <= noted && old(breaks) <= breaks
        invariant forall f | f in b.required - a.required - left && f in a.properties ::
          contracts.FactAt(p, NoLongerRequired(f)) in noted
        invariant Covered(p, done, depth, seen0, noted0)
      {
        var f :| f in left;
        left := left - {f};
        if f in a.properties {
          assert contracts.Violates(p, NoLongerRequired(f));
          NoteAmid(Break(at, NoLongerRequired(f)), p, done, depth, seen0, noted0);
        }
      }
    }

    /** What the visit of `p` has done so far, since `seen0` and `noted0`: the hops of `done`. */
    ghost predicate Covered(p: Position, done: set<Hop>, depth: nat, seen0: set<(string, string)>, noted0: set<Fact>)
      requires depth > 0
      reads this
    {
      Valid() && noted0 <= noted && seen0 <= seen &&
      (forall hop | hop in done && contracts.CanStep(p, hop) ::
        contracts.AllExplained(seen, contracts.Step(p, hop), depth - 1, noted)) &&
      contracts.AllVisited(seen - seen0, seen, depth, noted)
    }

    method NoteAmid(b: Break, ghost p: Position, ghost done: set<Hop>, ghost depth: nat,
                    ghost seen0: set<(string, string)>, ghost noted0: set<Fact>)
      requires depth > 0 && Covered(p, done, depth, seen0, noted0)
      requires contracts.Walk(root, b.at) == Some(p) && contracts.Violates(p, b.what)
      modifies this`breaks, this`noted
      ensures Covered(p, done, depth, seen0, noted0) && breaks == old(breaks) + [b]
      ensures noted == old(noted) + {contracts.FactAt(p, b.what)}
    {
      ghost var before := noted;
      Note(b, p);
      forall h | h in done && contracts.CanStep(p, h)
        ensures contracts.AllExplained(seen, contracts.Step(p, h), depth - 1, noted)
      {
        AllExplainedGrows(contracts, seen, seen, contracts.Step(p, h), depth - 1, depth - 1, before, noted);
      }
      AllVisitedGrows(contracts, seen - seen0, seen, seen, depth, depth, before, noted);
    }

    method Visit(p: Position, at: seq<Hop>, hop: Hop, depth: nat, ghost n: nat, ghost k: nat,
                 ghost done: set<Hop>, ghost seen0: set<(string, string)>, ghost noted0: set<Fact>)
      returns (raised: bool)
      requires depth > 0 && Covered(p, done, depth, seen0, noted0)
      requires contracts.Walk(root, at) == Some(p) && contracts.CanStep(p, hop)
      modifies this
      ensures Valid() && old(breaks) <= breaks && old(seen) <= seen && old(noted) <= noted
      ensures !raised ==> Covered(p, done + {hop}, depth, seen0, noted0)
      ensures (contracts.Windowed(root, n) && Enough(contracts, seen0, n, k, depth - 1) &&
        contracts.Short(contracts.Step(p, hop), k)) ==> !raised
      decreases depth, 0
    {
      WalkOn(contracts, root, at, hop);
      Fewer(Names(contracts) - seen0, Names(contracts) - seen, n);
      ghost var was, before := seen, noted;
      var child := contracts.Step(p, hop);
      raised := Compare(child.before, child.after, at + [hop], depth - 1, n, k);
      if !raised {
        forall h | h in done && contracts.CanStep(p, h)
          ensures contracts.AllExplained(seen, contracts.Step(p, h), depth - 1, noted)
        {
          AllExplainedGrows(contracts, was, seen, contracts.Step(p, h), depth - 1, depth - 1, before, noted);
        }
        AllVisitedGrows(contracts, was - seen0, was, seen, depth, depth, before, noted);
        AllVisitedGrows(contracts, seen - was, seen, seen, depth - 1, depth, noted, noted);
      }
    }

    method CompareFacet(p: Position, at: seq<Hop>, facet: Facet)
      requires Valid() && contracts.Live(p) && contracts.Walk(root, at) == Some(p)
      modifies this`breaks, this`noted
      ensures Valid() && old(breaks) <= breaks && old(noted) <= noted
      ensures contracts.Violates(p, FacetChanged(facet)) ==> contracts.FactAt(p, FacetChanged(facet)) in noted
      ensures breaks == old(breaks) + if (match facet
        case Type => Kept(contracts.Before(p).value.kind, contracts.After(p).value.kind)
        case Format => Kept(contracts.Before(p).value.format, contracts.After(p).value.format))
        then [] else [Break(at, FacetChanged(facet))]
    {
      ChangedIsNotKept(facet, contracts.Before(p).value, contracts.After(p).value);
      if Changed(facet, contracts.Before(p).value, contracts.After(p).value) {
        assert contracts.Violates(p, FacetChanged(facet));
        Note(Break(at, FacetChanged(facet)), p);
      }
    }
  }

  lemma NotedWhole(c: Pair, p: Position, faceted: set<Fact>, noted: set<Fact>)
    requires c.Live(p) && faceted <= noted
    requires forall facet | c.Violates(p, FacetChanged(facet)) :: c.FactAt(p, FacetChanged(facet)) in faceted
    requires forall f | f in c.Before(p).value.properties && f !in c.After(p).value.properties ::
      c.FactAt(p, FieldGone(f)) in noted
    requires forall f | c.Violates(p, NoLongerRequired(f)) :: c.FactAt(p, NoLongerRequired(f)) in noted
    ensures c.Noted(noted, p)
  {
  }

  lemma SaidOneMore(c: Pair, root: Position, breaks: seq<Break>, b: Break, noted: set<Fact>)
    requires c.Walk(root, b.at).Some? && forall fact | fact in noted :: Said(c, root, breaks, fact)
    ensures Said(c, root, breaks + [b], c.FactAt(c.Walk(root, b.at).value, b.what))
    ensures forall fact | fact in noted :: Said(c, root, breaks + [b], fact)
  {
    assert b in breaks + [b];
    forall fact | fact in noted ensures Said(c, root, breaks + [b], fact) {
      var said :| said in breaks && c.Walk(root, said.at).Some? &&
        c.FactAt(c.Walk(root, said.at).value, said.what) == fact;
      assert said in breaks + [b];
    }
  }

  // ----- what it proves

  /** Every position a walk reaches was accounted for as the first one was. */
  lemma ReachedExplained(c: Pair, seen: set<(string, string)>, p: Position, path: seq<Hop>, n: nat, noted: set<Fact>)
    requires c.AllExplained(seen, p, n, noted) && c.AllVisited(seen, seen, n, noted)
    requires c.Walk(p, path).Some?
    ensures c.AllExplained(seen, c.Walk(p, path).value, n, noted)
    decreases |path|
  {
    if path != [] {
      HopExplained(c, seen, p, path[0], n, noted);
      AllExplainedGrows(c, seen, seen, c.Step(p, path[0]), n - 1, n, noted, noted);
      ReachedExplained(c, seen, c.Step(p, path[0]), path[1..], n, noted);
    }
  }

  lemma HopExplained(c: Pair, seen: set<(string, string)>, p: Position, hop: Hop, n: nat, noted: set<Fact>)
    requires c.AllExplained(seen, p, n, noted) && c.CanStep(p, hop)
    requires c.Referenced(p) ==> c.AllVisited(seen, seen, n, noted)
    ensures n > 0 && c.AllExplained(seen, c.Step(p, hop), n - 1, noted)
  {
    assert c.Explained(seen, p, [], n, noted);
    var child, m := c.Step(p, hop), n - 1;
    forall path ensures c.Explained(seen, child, path, m, noted) {
      assert c.Explained(seen, p, [hop] + path, n, noted);
      assert c.Visited(seen, p, [hop] + path, n, noted);
      assert ([hop] + path)[1..] == path;
    }
  }

  lemma ExplainedNoted(c: Pair, seen: set<(string, string)>, p: Position, n: nat, noted: set<Fact>)
    requires c.AllExplained(seen, p, n, noted) && c.AllVisited(seen, seen, n, noted)
    ensures c.Noted(noted, p)
  {
    assert c.Explained(seen, p, [], n, noted);
    if c.Live(p) {
      assert c.Visited(seen, p, [], n, noted);
    }
  }

  lemma {:induction false} ExplainedShort(c: Pair, seen: set<(string, string)>, p: Position, n: nat, noted: set<Fact>)
    requires c.AllExplained(seen, p, n, noted)
    ensures c.Short(p, n)
    decreases n
  {
    assert c.Explained(seen, p, [], n, noted);
    if c.Live(p) && !c.Referenced(p) {
      forall hop | c.CanStep(p, hop) ensures c.Short(c.Step(p, hop), n - 1) {
        HopExplained(c, seen, p, hop, n, noted);
        ExplainedShort(c, seen, c.Step(p, hop), n - 1, noted);
      }
    }
  }

  lemma {:induction false} ShortGrows(c: Pair, p: Position, n: nat, m: nat)
    requires c.Short(p, n) && n <= m
    ensures c.Short(p, m)
    decreases n
  {
    if c.Live(p) && !c.Referenced(p) {
      forall hop | c.CanStep(p, hop) ensures c.Short(c.Step(p, hop), m - 1) {
        ShortGrows(c, c.Step(p, hop), n - 1, m - 1);
      }
    }
  }

  /** A search that came back took a stack no walk between two references outgrows. */
  lemma ExplainedWindowed(c: Pair, seen: set<(string, string)>, root: Position, n: nat, noted: set<Fact>)
    requires c.AllExplained(seen, root, n, noted) && c.AllVisited(seen, seen, n, noted)
    ensures c.Windowed(root, n)
  {
    ExplainedShort(c, seen, root, n, noted);
    forall path, hop | c.Walk(root, path).Some? && c.Referenced(c.Walk(root, path).value) &&
                       c.CanStep(c.Walk(root, path).value, hop)
      ensures c.Short(c.Step(c.Walk(root, path).value, hop), n)
    {
      var q := c.Walk(root, path).value;
      ReachedExplained(c, seen, root, path, n, noted);
      HopExplained(c, seen, q, hop, n, noted);
      ExplainedShort(c, seen, c.Step(q, hop), n - 1, noted);
      ShortGrows(c, c.Step(q, hop), n - 1, n);
    }
  }

  function Payload(name: string): Position {
    Position(Named(name), Named(name))
  }

  /** References stand close enough for `depth` frames: what is left after them fits, pair by pair. */
  ghost predicate DeepEnough(c: Pair, root: Position, depth: nat) {
    exists n: nat :: c.Windowed(root, n) && Enough(c, {}, n, n, depth)
  }

  /**
   * Every break at every position a walk reaches is said: of that position, or of one the same walkable
   * contracts read as the same two schemas.
   */
  ghost predicate AllSaid(c: Pair, root: Position, breaks: seq<Break>) {
    forall path, what: What | c.Walk(root, path).Some? && c.Violates(c.Walk(root, path).value, what) ::
      Said(c, root, breaks, c.FactAt(c.Walk(root, path).value, what))
  }

  lemma AllSaidIsClean(c: Pair, root: Position, breaks: seq<Break>)
    requires AllSaid(c, root, breaks) && forall b | b in breaks :: Real(c, root, b)
    ensures breaks == [] <==> c.Clean(root)
  {
    if breaks != [] {
      assert Real(c, root, breaks[0]);
    }
  }

  /** What one run over the payload `name` answers, `depth` frames deep at most. */
  method PayloadBreaks(released: Contract, current: Contract, name: string, depth: nat)
    returns (breaks: seq<Break>, raised: bool)
    ensures forall b | b in breaks :: Real(Pair(released, current), Payload(name), b)
    ensures !raised ==> AllSaid(Pair(released, current), Payload(name), breaks)
    ensures !raised ==> (breaks == [] <==> Pair(released, current).Clean(Payload(name)))
    ensures !raised ==> (breaks == [] <==> Served(released, current, name))
    ensures !raised ==> Pair(released, current).Windowed(Payload(name), depth)
    ensures DeepEnough(Pair(released, current), Payload(name), depth) ==> !raised
  {
    var c, root := Pair(released, current), Payload(name);
    var comparison := new Comparison(c, root);
    ghost var n: nat := 0;
    if DeepEnough(c, root, depth) {
      n :| c.Windowed(root, n) && Enough(c, {}, n, n, depth);
    }
    raised := comparison.Compare(root.before, root.after, [], depth, n, n);
    breaks := comparison.breaks;
    if !raised {
      ghost var seen, noted := comparison.seen, comparison.noted;
      assert seen - {} == seen;
      ExplainedWindowed(c, seen, root, depth, noted);
      forall path, what: What | c.Walk(root, path).Some? && c.Violates(c.Walk(root, path).value, what)
        ensures Said(c, root, breaks, c.FactAt(c.Walk(root, path).value, what))
      {
        ReachedExplained(c, seen, root, path, depth, noted);
        ExplainedNoted(c, seen, c.Walk(root, path).value, depth, noted);
      }
      AllSaidIsClean(c, root, breaks);
      CleanIsServed(c, name);
    }
  }

  /** Some stack is deep enough exactly when references stand at bounded distances. */
  lemma SomeStackSuffices(c: Pair, root: Position)
    ensures (exists depth: nat :: DeepEnough(c, root, depth)) <==> (exists n: nat :: c.Windowed(root, n))
  {
    forall n: nat | c.Windowed(root, n) ensures exists depth: nat :: DeepEnough(c, root, depth) {
      var depth := |Names(c) - {}| * (n + 2) + n + 1;
      assert Enough(c, {}, n, n, depth);
      assert DeepEnough(c, root, depth);
    }
  }

  // ----- one contract at a time

  /** Where `path` leads in one contract alone. */
  ghost function At(contract: Contract, schema: Schema, path: seq<Hop>): Option<Schema>
    decreases |path|
  {
    var here := Resolve(contract, schema);
    if path == [] || here.None? then here
    else match path[0]
      case Field(f) => if f in here.value.properties then At(contract, here.value.properties[f], path[1..]) else None
      case Items => if here.value.items.Some? then At(contract, here.value.items.value, path[1..]) else None
  }

  lemma {:induction false} AtLeads(contract: Contract, schema: Schema, path: seq<Hop>, end: Schema)
    ensures At(contract, schema, path) == Some(end) <==>
      exists here :: Leads(contract, schema, path, here) && Reads(contract, here, end)
    decreases |path|
  {
    if path == [] {
      ResolveReads(contract, schema, end);
      assert Reads(contract, schema, end) ==> Leads(contract, schema, path, schema);
    } else {
      var here := Resolve(contract, schema);
      if here.Some? {
        ResolveReads(contract, schema, here.value);
        match path[0] {
          case Field(f) =>
            if f in here.value.properties {
              AtLeads(contract, here.value.properties[f], path[1..], end);
            }
          case Items =>
            if here.value.items.Some? {
              AtLeads(contract, here.value.items.value, path[1..], end);
            }
        }
      }
      forall read | Reads(contract, schema, read) ensures here == Some(read) {
        ResolveReads(contract, schema, read);
      }
      forall far
        ensures Leads(contract, schema, path, far) <==> here.Some? && LeadsOn(contract, here.value, path, far)
      {
      }
    }
  }

  /** Each `[]` step `path` takes is one the current contract still describes. */
  ghost predicate ArraysKept(c: Pair, p: Position, path: seq<Hop>)
    decreases |path|
  {
    path == [] || (
      (c.Live(p) && path[0] == Items && c.Before(p).value.items.Some? ==> c.After(p).value.items.Some?) &&
      (c.CanStep(p, path[0]) ==> ArraysKept(c, c.Step(p, path[0]), path[1..])))
  }

  /**
   * Nothing reported, a released path of any length still leads somewhere exactly when the current
   * contract says what each array on it holds; and what it leads to stands as released.
   */
  lemma {:induction false} ReleasedPathStands(c: Pair, p: Position, path: seq<Hop>)
    requires c.Clean(p) && At(c.released, p.before, path).Some?
    ensures At(c.current, p.after, path).Some? <==> ArraysKept(c, p, path)
    ensures At(c.current, p.after, path).Some? ==>
      StandsAs(At(c.released, p.before, path).value, At(c.current, p.after, path).value)
    decreases |path|
  {
    assert c.Walk(p, []) == Some(p) && c.Good(p);
    assert !c.Violates(p, Undocumented);
    if path == [] {
      GoodIsStanding(c, p);
    } else {
      if path[0].Field? {
        assert !c.Violates(p, FieldGone(path[0].name));
      }
      if c.CanStep(p, path[0]) {
        var child := c.Step(p, path[0]);
        forall rest | c.Walk(child, rest).Some? ensures c.Good(c.Walk(child, rest).value) {
          assert ([path[0]] + rest)[1..] == rest;
          assert c.Walk(p, [path[0]] + rest) == c.Walk(child, rest);
        }
        ReleasedPathStands(c, child, path[1..]);
      }
    }
  }

  // ----- where the search falls short

  const STRING := Schema("", Some(Text("string")), None, map[], {}, None)

  /** An array whose `items` are gone is reported by nothing, though its `[]` path leads nowhere now. */
  lemma LostItemsGoUnreported()
    ensures var listing := Schema("", Some(Text("array")), None, map[], {}, Some(STRING));
      var c, root := Pair(map["N" := listing], map["N" := listing.(items := None)]), Payload("N");
      c.Clean(root) && At(c.released, root.before, [Items]).Some? && At(c.current, root.after, [Items]).None?
  {
    var listing := Schema("", Some(Text("array")), None, map[], {}, Some(STRING));
    var c, root := Pair(map["N" := listing], map["N" := listing.(items := None)]), Payload("N");
    assert RefName(root.before) == "N";
    assert c.Good(root);
    assert c.Walk(root, []) == Some(root);
    forall path | path != [] ensures c.Walk(root, path).None? {
      assert !c.CanStep(root, path[0]);
    }
    assert At(c.released, STRING, []) == Some(STRING);
    assert [Items][1..] == [];
  }

  function Holding(schema: Schema): Schema {
    Schema("", None, None, map["x" := schema], {}, None)
  }

  /** Two contracts of one shape whose references never stand at one place: no stack is deep enough. */
  lemma OffsetReferencesNeverEnd(n: nat, depth: nat)
    ensures var c := Pair(map["N" := Holding(Holding(Named("N")))],
                          map["N" := Holding(Named("M")), "M" := Holding(Holding(Named("M")))]);
      !c.Windowed(Payload("N"), n) && !DeepEnough(c, Payload("N"), depth)
  {
    var c := Pair(map["N" := Holding(Holding(Named("N")))],
                  map["N" := Holding(Named("M")), "M" := Holding(Holding(Named("M")))]);
    forall m: nat ensures !c.Windowed(Payload("N"), m) {
      NeverShort(c, m);
      assert RefName(Named("N")) == "N" && RefName(Named("M")) == "M";
      assert c.Walk(Payload("N"), []) == Some(Payload("N"));
      assert c.CanStep(Payload("N"), Field("x"));
      assert c.Step(Payload("N"), Field("x")) == Position(Holding(Named("N")), Named("M"));
    }
  }

  lemma {:induction false} NeverShort(c: Pair, n: nat)
    requires c == Pair(map["N" := Holding(Holding(Named("N")))],
                       map["N" := Holding(Named("M")), "M" := Holding(Holding(Named("M")))])
    ensures !c.Short(Position(Holding(Named("N")), Named("M")), n)
  {
    var p, q := Position(Holding(Named("N")), Named("M")), Position(Named("N"), Holding(Named("M")));
    assert RefName(Named("N")) == "N" && RefName(Named("M")) == "M" && RefName(Holding(Named("N"))) == "";
    assert c.CanStep(p, Field("x")) && c.Step(p, Field("x")) == q;
    assert c.CanStep(q, Field("x")) && c.Step(q, Field("x")) == p;
    if n > 1 {
      NeverShort(c, n - 2);
    }
  }

  // ----- references at the same places

  ghost function Greatest(s: set<nat>): nat {
    if s == {} then 0 else var x := Any(s); var rest := Greatest(s - {x}); if x > rest then x else rest
  }

  ghost function Any(s: set<nat>): nat
    requires s != {}
  {
    var x :| x in s; x
  }

  lemma {:induction false} AtMostGreatest(s: set<nat>)
    ensures forall x | x in s :: x <= Greatest(s)
  {
    if s != {} {
      AtMostGreatest(s - {Any(s)});
      assert forall x | x in s :: x == Any(s) || x in s - {Any(s)};
    }
  }

  /** How deep a schema goes before a leaf or a reference. */
  ghost function Height(schema: Schema): nat {
    var fields := set f | f in schema.properties :: Height(schema.properties[f]);
    1 + Greatest(fields + if schema.items.Some? then {Height(schema.items.value)} else {})
  }

  ghost function Tallest(contract: Contract): nat {
    Greatest(set name | name in contract :: Height(contract[name]))
  }

  lemma LowerInside(schema: Schema)
    ensures forall f | f in schema.properties :: Height(schema.properties[f]) < Height(schema)
    ensures schema.items.Some? ==> Height(schema.items.value) < Height(schema)
  {
    var fields := set f | f in schema.properties :: Height(schema.properties[f]);
    AtMostGreatest(fields + if schema.items.Some? then {Height(schema.items.value)} else {});
    assert forall f | f in schema.properties :: Height(schema.properties[f]) in fields;
  }

  /** Wherever the release names a component, the current contract does too. */
  ghost predicate Aligned(c: Pair, root: Position) {
    forall path | c.Walk(root, path).Some? ::
      c.Walk(root, path).value.before.ref != "" ==> c.Referenced(c.Walk(root, path).value)
  }

  lemma {:induction false} AlignedShort(c: Pair, root: Position, path: seq<Hop>)
    requires Aligned(c, root) && c.Walk(root, path).Some?
    ensures c.Short(c.Walk(root, path).value, Height(c.Walk(root, path).value.before))
    decreases Height(c.Walk(root, path).value.before)
  {
    var p := c.Walk(root, path).value;
    if c.Live(p) && !c.Referenced(p) {
      forall hop | c.CanStep(p, hop) ensures c.Short(c.Step(p, hop), Height(p.before) - 1) {
        WalkOn(c, root, path, hop);
        LowerInside(p.before);
        AlignedShort(c, root, path + [hop]);
        ShortGrows(c, c.Step(p, hop), Height(c.Step(p, hop).before), Height(p.before) - 1);
      }
    }
  }

  lemma AlignedHop(c: Pair, root: Position, path: seq<Hop>, hop: Hop, n: nat)
    requires Aligned(c, root) && c.Walk(root, path).Some? && c.Referenced(c.Walk(root, path).value)
    requires c.CanStep(c.Walk(root, path).value, hop) && Tallest(c.released) <= n
    ensures c.Short(c.Step(c.Walk(root, path).value, hop), n)
  {
    var q := c.Walk(root, path).value;
    var child := c.Step(q, hop);
    WalkOn(c, root, path, hop);
    AlignedShort(c, root, path + [hop]);
    LowerInside(c.Before(q).value);
    var heights := set name | name in c.released :: Height(c.released[name]);
    AtMostGreatest(heights);
    assert Height(c.Before(q).value) in heights;
    ShortGrows(c, child, Height(child.before), n);
  }

  lemma AlignedWindows(c: Pair, root: Position, n: nat)
    requires Aligned(c, root) && c.Short(root, n) && Tallest(c.released) <= n
    ensures c.Windowed(root, n)
  {
    forall path, hop | c.Walk(root, path).Some? && c.Referenced(c.Walk(root, path).value) &&
                       c.CanStep(c.Walk(root, path).value, hop)
      ensures c.Short(c.Step(c.Walk(root, path).value, hop), n)
    {
      AlignedHop(c, root, path, hop, n);
    }
  }

  /** So a search over such contracts comes back, given the frames their size asks for. */
  lemma AlignedReferencesEnd(c: Pair, root: Position, n: nat)
    requires Aligned(c, root) && Height(root.before) <= n && Tallest(c.released) <= n
    ensures c.Windowed(root, n) && exists depth: nat :: DeepEnough(c, root, depth)
  {
    assert c.Walk(root, []) == Some(root);
    AlignedShort(c, root, []);
    ShortGrows(c, root, Height(root.before), n);
    AlignedWindows(c, root, n);
    SomeStackSuffices(c, root);
  }
}
