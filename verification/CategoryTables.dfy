/**
 * The tables a category's name is written in, and each transaction on them as one step:
 * backend/src/api/categories.rs and exceptions.rs. No foreign key guards a name, so `Valid` is what
 * every transaction has to keep by itself, whatever ran before it.
 */
module CategoryTables {
  import opened Options
  import opened Texts

  type Name = string

  /** A row's id. A random id is the next of one supply, so it is new and no id comes back. */
  type Id = nat

  /** A folder of an instance, by its path as the `path` collation reads it. */
  type Folder = (string, string)

  /** What names a title across syncs: its instance, its kind and its external id. */
  type Work = (string, string, nat)

  datatype Pin = Pin(id: Id, target: Name)

  /** `external` is TMDB's id of a film, TheTVDB's of a series, where the Arr gave one. */
  datatype Title = Title(instance: string, kind: string, folder: Option<string>, external: Option<int>) {
    function Named(): Option<Work> {
      if external.Some? && external.value > 0 then Some((instance, kind, external.value)) else None
    }
  }

  datatype Test = Test(expected: Name, actual: Option<Name>)

  /**
   * A decision, `live` while it is pending and not superseded. `under` is no column: it is the
   * category the title was pinned to when the decision was made, kept by its id for the proof.
   */
  datatype Proposal = Proposal(title: string, target: Name, live: bool, under: Option<Id>)

  datatype Tables = Tables(
    categories: map<Id, Name>,
    fallback: Name,
    rules: map<Id, Name>,
    folders: map<Folder, Option<Name>>,
    media: map<string, Title>,
    pins: map<string, Pin>,
    retired: map<Work, Name>,
    tests: map<Id, Test>,
    proposals: map<Id, Proposal>,
    routing: map<string, Name>,
    next: Id,
    issued: map<Id, string>)  // no table: the title each pin id was ever given to

  datatype Refusal =
    | NameEmpty | NameTooLong | NameRefused | NameTaken | OwnerOnly | NotFound | IsFallback | InUse
    | Unknown(category: Name) | NoCurrentFolder | FolderUnmapped | ReasonTooLong | TooManyRules

  /** A transaction commits the tables it answers, or is refused and commits none. */
  datatype Answer = Done(tables: Tables) | Refused(why: Refusal) {
    function From(before: Tables): Tables {
      if Done? then tables else before
    }
  }

  // ----- what holds between transactions

  /** Every name a row refers to, history aside, is one of `live`. */
  ghost predicate NamesAmong(t: Tables, live: set<Name>) {
    t.fallback in live &&
    (forall r | r in t.rules :: t.rules[r] in live) &&
    (forall f | f in t.folders && t.folders[f].Some? && t.folders[f].value != "" :: t.folders[f].value in live) &&
    (forall m | m in t.pins :: t.pins[m].target in live) &&
    (forall w | w in t.retired :: t.retired[w] in live) &&
    (forall c | c in t.tests :: t.tests[c].expected in live)
  }

  ghost predicate OneIdEach(t: Tables) {
    forall i, j | i in t.categories && j in t.categories && t.categories[i] == t.categories[j] :: i == j
  }

  /** Ids come from the supply, and a pin's id was given to its title, which is in the library. */
  ghost predicate Supplied(t: Tables) {
    (forall i | i in t.categories :: i < t.next) && (forall i | i in t.issued :: i < t.next) &&
    (forall i | i in t.proposals :: i < t.next) &&
    (forall m | m in t.pins :: m in t.media && t.pins[m].id in t.issued && t.issued[t.pins[m].id] == m)
  }

  /** `under` is the category the title is pinned to, or its being pinned to none. */
  ghost predicate InForce(t: Tables, title: string, under: Option<Id>) {
    match under
    case None => title !in t.pins
    case Some(i) => title in t.pins && i in t.categories && t.pins[title].target == t.categories[i]
  }

  /** No live proposal was decided under another pin than the one in force. */
  ghost predicate Current(t: Tables) {
    forall d | d in t.proposals && t.proposals[d].live :: InForce(t, t.proposals[d].title, t.proposals[d].under)
  }

  ghost predicate Live(t: Tables) {
    NamesAmong(t, t.categories.Values) && OneIdEach(t) && Supplied(t)
  }

  ghost predicate Valid(t: Tables) {
    Live(t) && Current(t)
  }

  // ----- names

  /** How a name is cleaned: `form` trims, lowers and composes, `letter` is what a name may hold. */
  datatype Spelling = Spelling(form: string -> string, letter: char -> bool) {
    function Refusing(raw: string): Option<Refusal> {
      if form(raw) == "" then Some(NameEmpty)
      else if |form(raw)| > 64 then Some(NameTooLong)
      else if exists i | 0 <= i < |form(raw)| :: !letter(form(raw)[i]) then Some(NameRefused)
      else None
    }
  }

  /** A name is taken when its stored form has 1 to 64 characters, each one a name may hold. */
  lemma TakenNames(spelling: Spelling, raw: string)
    ensures var (name, why) := (spelling.form(raw), spelling.Refusing(raw));
      (why.None? <==> 1 <= |name| <= 64 && forall c | c in name :: spelling.letter(c)) &&
      (why == Some(NameEmpty) <==> |name| == 0) && (why == Some(NameTooLong) <==> |name| >= 65) &&
      (why == Some(NameRefused) <==> 1 <= |name| <= 64 && exists c | c in name :: !spelling.letter(c))
  {
    var name := spelling.form(raw);
    if c :| c in name && !spelling.letter(c) {
      var i :| 0 <= i < |name| && name[i] == c;
    }
    if i :| 0 <= i < |name| && !spelling.letter(name[i]) {
      assert name[i] in name;
    }
  }

  function To(previous: Name, name: Name, held: Name): Name {
    if held == previous then name else held
  }

  function MovedColumn<K>(column: map<K, Name>, previous: Name, name: Name): map<K, Name> {
    map k | k in column :: To(previous, name, column[k])
  }

  function MovedFolders(folders: map<Folder, Option<Name>>, previous: Name, name: Name): map<Folder, Option<Name>> {
    map f | f in folders :: if folders[f] == Some(previous) then Some(name) else folders[f]
  }

  function MovedPins(pins: map<string, Pin>, previous: Name, name: Name): map<string, Pin> {
    map m | m in pins :: pins[m].(target := To(previous, name, pins[m].target))
  }

  function MovedExpected(tests: map<Id, Test>, previous: Name, name: Name): map<Id, Test> {
    map c | c in tests :: tests[c].(expected := To(previous, name, tests[c].expected))
  }

  function MovedActual(tests: map<Id, Test>, previous: Name, name: Name): map<Id, Test> {
    map c | c in tests :: if tests[c].actual == Some(previous) then tests[c].(actual := Some(name)) else tests[c]
  }

  function MovedProposals(proposals: map<Id, Proposal>, previous: Name, name: Name): map<Id, Proposal> {
    map d | d in proposals :: proposals[d].(target := To(previous, name, proposals[d].target))
  }

  /** `previous` read as `name` in every column that holds a category. */
  function Moved(t: Tables, previous: Name, name: Name): Tables {
    t.(categories := MovedColumn(t.categories, previous, name),
       fallback := To(previous, name, t.fallback),
       rules := MovedColumn(t.rules, previous, name),
       folders := MovedFolders(t.folders, previous, name),
       pins := MovedPins(t.pins, previous, name),
       retired := MovedColumn(t.retired, previous, name),
       tests := MovedActual(MovedExpected(t.tests, previous, name), previous, name),
       proposals := MovedProposals(t.proposals, previous, name),
       routing := MovedColumn(t.routing, previous, name))
  }

  function MoveReferences(t: Tables, previous: Name, name: Name): Answer {
    if previous in t.categories.Values && name in t.categories.Values && previous != name then Refused(NameTaken)
    else Done(Moved(t, previous, name))
  }

  // ----- categories.rs

  function Create(t: Tables, spelling: Spelling, raw: string, isDefault: bool, owner: bool): Answer {
    if isDefault && !owner then Refused(OwnerOnly)
    else if spelling.Refusing(raw).Some? then Refused(spelling.Refusing(raw).value)
    else
      var name := spelling.form(raw);
      if name in t.categories.Values then Refused(NameTaken)
      else Done(t.(categories := t.categories[t.next := name], next := t.next + 1,
                   fallback := if isDefault then name else t.fallback))
  }

  function Rename(t: Tables, spelling: Spelling, id: Id, raw: string): Answer {
    if spelling.Refusing(raw).Some? then Refused(spelling.Refusing(raw).value)
    else if id !in t.categories then Refused(NotFound)
    else if t.categories[id] == spelling.form(raw) then Done(t)
    else MoveReferences(t, t.categories[id], spelling.form(raw))
  }

  /** A rule, a folder, a pin or a test case names `name`. A retired pin is not asked. */
  predicate IsUsed(t: Tables, name: Name) {
    name in t.rules.Values || Some(name) in t.folders.Values ||
    (exists m | m in t.pins :: t.pins[m].target == name) ||
    (exists c | c in t.tests :: t.tests[c].expected == name)
  }

  /** The retired pins but those of a category about to go. */
  function Forgotten(retired: map<Work, Name>, name: Name): map<Work, Name> {
    map w | w in retired && retired[w] != name :: retired[w]
  }

  function Remove(t: Tables, id: Id): Answer {
    if id !in t.categories then Refused(NotFound)
    else
      var name := t.categories[id];
      if name == t.fallback then Refused(IsFallback)
      else if IsUsed(t, name) then Refused(InUse)
      else Done(t.(retired := Forgotten(t.retired, name),
                   categories := t.categories - {id}))
  }

  /** Each name of `names` in turn, to the form it is stored in, unless another category holds it. */
  function Converged(t: Tables, form: string -> string, names: seq<Name>): Tables {
    if names == [] then t
    else
      var before := Converged(t, form, names[..|names| - 1]);
      var previous := names[|names| - 1];
      if form(previous) == previous || form(previous) in before.categories.Values then before
      else MoveReferences(before, previous, form(previous)).From(before)
  }

  /** The one shape every other writer of a name has: the name checked under the row's write lock. */
  datatype Slot = Rule(id: Id) | Mapping(folder: Folder) | Expectation(id: Id) | Fallback

  function WriteGuarded(t: Tables, slot: Slot, name: Name): Answer {
    if name !in t.categories.Values then Refused(Unknown(name))
    else Done(Written(t, slot, name))
  }

  function Written(t: Tables, slot: Slot, name: Name): Tables {
    match slot
    case Rule(id) => t.(rules := t.rules[id := name])
    case Mapping(folder) => t.(folders := t.folders[folder := Some(name)])
    case Expectation(id) => t.(tests := t.tests[id := Test(name, None)])
    case Fallback => t.(fallback := name)
  }

  // ----- exceptions.rs

  const REASON_MAX := 500

  function Supersede(t: Tables, titles: set<string>): Tables {
    t.(proposals := map d | d in t.proposals ::
         t.proposals[d].(live := t.proposals[d].live && t.proposals[d].title !in titles))
  }

  /** The pin upserted: a title pinned already keeps its pin's id. */
  function PinOne(t: Tables, title: string, category: Name): Tables {
    if title in t.pins then t.(pins := t.pins[title := t.pins[title].(target := category)])
    else t.(pins := t.pins[title := Pin(t.next, category)], issued := t.issued[t.next := title], next := t.next + 1)
  }

  function PinAll(t: Tables, titles: seq<string>, category: Name): Tables {
    if titles == [] then t else PinOne(PinAll(t, titles[..|titles| - 1], category), titles[|titles| - 1], category)
  }

  function Among(titles: seq<string>): set<string> {
    set m | m in titles
  }

  /** The titles whose category a pin to `category` changes. */
  function Repinned(t: Tables, titles: seq<string>, category: Name): set<string> {
    set m | m in titles && !(m in t.pins && t.pins[m].target == category)
  }

  function PinIn(t: Tables, titles: seq<string>, category: Name, reason: Option<string>): Answer {
    if reason.Some? && |reason.value| > REASON_MAX then Refused(ReasonTooLong)
    else if exists m | m in titles :: m !in t.media then Refused(NotFound)
    else Done(Supersede(PinAll(t, titles, category), Repinned(t, titles, category)))
  }

  function PinTo(t: Tables, spelling: Spelling, titles: seq<string>, raw: string, reason: Option<string>): Answer {
    if spelling.Refusing(raw).Some? then Refused(spelling.Refusing(raw).value)
    else if spelling.form(raw) !in t.categories.Values then Refused(Unknown(spelling.form(raw)))
    else PinIn(t, titles, spelling.form(raw), reason)
  }

  /** The category the folder leads to. It is not asked whether a category of that name exists. */
  function FolderCategory(t: Tables, folder: Folder): Option<Name> {
    if folder in t.folders && t.folders[folder].Some? && t.folders[folder].value != "" then t.folders[folder]
    else None
  }

  function Keep(t: Tables, title: string, reason: Option<string>): Answer {
    if title !in t.media then Refused(NotFound)
    else
      var held := t.media[title];
      if held.folder.None? || Blank(held.folder.value) then Refused(NoCurrentFolder)
      else match FolderCategory(t, (held.instance, held.folder.value))
        case None => Refused(FolderUnmapped)
        case Some(category) => PinIn(t, [title], category, reason)
  }

  function UnpinExternal(t: Tables, copies: seq<string>): Tables {
    var unpinned := set m | m in copies && m in t.pins;
    Supersede(t.(pins := t.pins - unpinned), unpinned)
  }

  /** A pin removed by its id, `title` read before the transaction began. */
  function RemovePin(t: Tables, id: Id, title: string): Tables {
    Supersede(t.(pins := map m | m in t.pins && t.pins[m].id != id :: t.pins[m]), {title})
  }

  // ----- a simulation, in one step

  ghost predicate PinnedUnder(t: Tables, title: string, i: Id) {
    title in t.pins && i in t.categories && t.categories[i] == t.pins[title].target
  }

  ghost function PinnedTo(t: Tables, title: string): Option<Id> {
    if exists i :: PinnedUnder(t, title, i) then var i :| PinnedUnder(t, title, i); Some(i) else None
  }

  function Propose(t: Tables, title: string, target: Name, under: Option<Id>): Tables {
    t.(proposals := t.proposals[t.next := Proposal(title, target, true, under)], next := t.next + 1)
  }

  /** The run's proposals, each under the pin in force, after those pending for its titles are superseded. */
  ghost function Proposed(t: Tables, decided: seq<(string, Name)>): (after: Tables)
    ensures after == t.(proposals := after.proposals, next := after.next)
  {
    if decided == [] then t
    else
      var before := Proposed(t, decided[..|decided| - 1]);
      var (title, target) := decided[|decided| - 1];
      Propose(before, title, target, PinnedTo(t, title))
  }

  ghost function Simulate(t: Tables, verdicts: map<string, Name>, decided: seq<(string, Name)>): Tables {
    var held := map m | m in verdicts && m in t.media :: verdicts[m];
    Proposed(Supersede(t, held.Keys), decided).(routing := t.routing + held)
  }
}
