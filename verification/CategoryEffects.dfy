/**
 * What each transaction on the category tables does, said of the rows themselves: when it is done, which
 * rows it leaves changed and that it leaves every other as it was.
 */
module CategoryEffects {
  import opened Options
  import opened Texts
  import opened CategoryTables
  import opened CategoryRuns
  import CategoryImport
  import CategoryHistory

  predicate Holds(t: Tables, name: Name) {
    exists i | i in t.categories :: t.categories[i] == name
  }

  lemma HoldsIsAmong(t: Tables, name: Name)
    ensures Holds(t, name) <==> name in t.categories.Values
  {
    if Holds(t, name) {
      var i :| i in t.categories && t.categories[i] == name;
      assert t.categories[i] in t.categories.Values;
    }
  }

  // ----- pins

  /** The proposals after: those of `titles` no longer live, the others as they were. */
  predicate Ended(t: Tables, after: Tables, titles: set<string>) {
    after.proposals.Keys == t.proposals.Keys &&
    forall d | d in t.proposals :: d in after.proposals && (
      var p := t.proposals[d];
      if p.title in titles then after.proposals[d] == Proposal(p.title, p.target, false, p.under)
      else after.proposals[d] == p)
  }

  /** Only pins and proposals may differ, and ids may have been given out. */
  predicate PinsAlone(t: Tables, after: Tables) {
    after.categories == t.categories && after.fallback == t.fallback && after.rules == t.rules &&
    after.folders == t.folders && after.media == t.media && after.retired == t.retired && after.tests == t.tests &&
    after.routing == t.routing
  }

  /** Each of `titles` is pinned to `name`, and those that were not pinned there lose their proposals. */
  predicate Pinned(t: Tables, after: Tables, titles: set<string>, name: Name) {
    PinsAlone(t, after) && after.pins.Keys == t.pins.Keys + titles &&
    (forall m | m in titles :: m in after.pins && after.pins[m].target == name) &&
    (forall m | m in titles && m in t.pins :: after.pins[m].id == t.pins[m].id) &&
    (forall m | m in t.pins && m !in titles :: m in after.pins && after.pins[m] == t.pins[m]) &&
    Ended(t, after, set m | m in titles && (m in t.pins ==> t.pins[m].target != name))
  }

  predicate TooLong(reason: Option<string>) {
    reason.Some? && |reason.value| > 500
  }

  lemma PinInDoes(t: Tables, titles: seq<string>, category: Name, reason: Option<string>)
    ensures match PinIn(t, titles, category, reason)
      case Done(after) =>
        !TooLong(reason) && (forall m | m in titles :: m in t.media) && Pinned(t, after, Among(titles), category)
      case Refused(why) =>
        if TooLong(reason) then why == ReasonTooLong else why == NotFound && exists m | m in titles :: m !in t.media
  {
    PinAllShape(t, titles, category);
    PinAllKeepsIds(t, titles, category);
    assert Repinned(t, titles, category) ==
      set m | m in Among(titles) && (m in t.pins ==> t.pins[m].target != category);
  }

  lemma {:induction false} PinAllKeepsIds(t: Tables, titles: seq<string>, category: Name)
    ensures forall m | m in t.pins ::
      m in PinAll(t, titles, category).pins && PinAll(t, titles, category).pins[m].id == t.pins[m].id
    decreases |titles|
  {
    if titles != [] {
      PinAllKeepsIds(t, titles[..|titles| - 1], category);
    }
  }

  /** A pin is to the name asked for, in its stored form, once the name and the titles are known. */
  lemma PinToDoes(t: Tables, spelling: Spelling, titles: seq<string>, raw: string, reason: Option<string>)
    ensures match PinTo(t, spelling, titles, raw, reason)
      case Done(after) =>
        spelling.Refusing(raw).None? && Holds(t, spelling.form(raw)) && !TooLong(reason) &&
        (forall m | m in titles :: m in t.media) && Pinned(t, after, Among(titles), spelling.form(raw))
      case Refused(why) =>
        if spelling.Refusing(raw).Some? then why == spelling.Refusing(raw).value
        else if !Holds(t, spelling.form(raw)) then why == Unknown(spelling.form(raw))
        else if TooLong(reason) then why == ReasonTooLong
        else why == NotFound && exists m | m in titles :: m !in t.media
  {
    HoldsIsAmong(t, spelling.form(raw));
    PinInDoes(t, titles, spelling.form(raw), reason);
  }

  /** The folder the title stands in is mapped to `name`. */
  predicate StandsUnder(t: Tables, title: string, name: Name) {
    title in t.media && t.media[title].folder.Some? && name != "" &&
    (t.media[title].instance, t.media[title].folder.value) in t.folders &&
    t.folders[(t.media[title].instance, t.media[title].folder.value)] == Some(name)
  }

  /**
   * `keep` pins a title to the very category its folder is mapped to, and to no other: refused in order for
   * a title not listed, one in no folder, and a folder mapped to nothing.
   */
  lemma KeepDoes(t: Tables, title: string, reason: Option<string>)
    ensures match Keep(t, title, reason)
      case Done(after) =>
        !TooLong(reason) && !Blank(t.media[title].folder.value) &&
        exists name :: StandsUnder(t, title, name) && Pinned(t, after, {title}, name)
      case Refused(why) =>
        if title !in t.media then why == NotFound
        else if t.media[title].folder.None? || Blank(t.media[title].folder.value) then why == NoCurrentFolder
        else if forall name :: !StandsUnder(t, title, name) then why == FolderUnmapped
        else why == ReasonTooLong && TooLong(reason)
  {
    if title in t.media && t.media[title].folder.Some? && !Blank(t.media[title].folder.value) {
      var folder := (t.media[title].instance, t.media[title].folder.value);
      if folder in t.folders && t.folders[folder].Some? && t.folders[folder].value != "" {
        var name := t.folders[folder].value;
        assert StandsUnder(t, title, name);
        PinInDoes(t, [title], name, reason);
        assert Among([title]) == {title};
      } else {
        assert forall name :: !StandsUnder(t, title, name);
      }
    }
  }

  /** The pins of the copies go, with the proposals made under them. */
  lemma UnpinDoes(t: Tables, copies: seq<string>)
    ensures var after := UnpinExternal(t, copies);
      PinsAlone(t, after) && after.next == t.next && after.issued == t.issued &&
      (forall m | m in after.pins :: m in t.pins && m !in copies && after.pins[m] == t.pins[m]) &&
      (forall m | m in t.pins && m !in copies :: m in after.pins) &&
      Ended(t, after, set m | m in copies && m in t.pins)
  {
  }

  lemma RemovePinDoes(t: Tables, id: Id, title: string)
    ensures var after := RemovePin(t, id, title);
      PinsAlone(t, after) && after.next == t.next && after.issued == t.issued &&
      (forall m | m in after.pins :: m in t.pins && t.pins[m].id != id && after.pins[m] == t.pins[m]) &&
      (forall m | m in t.pins && t.pins[m].id != id :: m in after.pins) &&
      Ended(t, after, {title})
  {
  }

  // ----- categories

  lemma CreateDoes(t: Tables, spelling: Spelling, raw: string, isDefault: bool, owner: bool)
    requires Supplied(t)
    ensures match Create(t, spelling, raw, isDefault, owner)
      case Done(after) =>
        (isDefault ==> owner) && spelling.Refusing(raw).None? && !Holds(t, spelling.form(raw)) &&
        exists i: Id :: i !in t.categories &&
          after == t.(categories := t.categories[i := spelling.form(raw)], next := after.next,
                      fallback := if isDefault then spelling.form(raw) else t.fallback)
      case Refused(why) =>
        if isDefault && !owner then why == OwnerOnly
        else if spelling.Refusing(raw).Some? then why == spelling.Refusing(raw).value
        else why == NameTaken && Holds(t, spelling.form(raw))
  {
    HoldsIsAmong(t, spelling.form(raw));
    if Create(t, spelling, raw, isDefault, owner).Done? {
      assert t.next !in t.categories;
    }
  }

  /** What a column held before and holds now, `previous` read as `name`. */
  predicate Reads(previous: Name, name: Name, before: Name, now: Name) {
    now == if before == previous then name else before
  }

  /** Row by row, the rename of a column. */
  predicate ReadsEach<K(!new)>(previous: Name, name: Name, before: map<K, Name>, now: map<K, Name>) {
    now.Keys == before.Keys && forall k | k in before :: k in now && Reads(previous, name, before[k], now[k])
  }

  lemma MovedDoes(t: Tables, previous: Name, name: Name)
    ensures var after := Moved(t, previous, name);
      ReadsEach(previous, name, t.categories, after.categories) && ReadsEach(previous, name, t.rules, after.rules) &&
      ReadsEach(previous, name, t.retired, after.retired) && ReadsEach(previous, name, t.routing, after.routing) &&
      Reads(previous, name, t.fallback, after.fallback) && after.media == t.media && after.next == t.next &&
      after.issued == t.issued
  {
  }

  lemma MovedRowsDo(t: Tables, previous: Name, name: Name)
    ensures var after := Moved(t, previous, name);
      after.folders.Keys == t.folders.Keys && after.pins.Keys == t.pins.Keys && after.tests.Keys == t.tests.Keys &&
      after.proposals.Keys == t.proposals.Keys &&
      (forall f | f in t.folders :: f in after.folders && (
        if t.folders[f] == Some(previous) then after.folders[f] == Some(name) else after.folders[f] == t.folders[f])) &&
      (forall m | m in t.pins :: m in after.pins && after.pins[m].id == t.pins[m].id &&
        Reads(previous, name, t.pins[m].target, after.pins[m].target)) &&
      (forall c | c in t.tests :: c in after.tests &&
        Reads(previous, name, t.tests[c].expected, after.tests[c].expected) && (
        if t.tests[c].actual == Some(previous) then after.tests[c].actual == Some(name)
        else after.tests[c].actual == t.tests[c].actual)) &&
      (forall d | d in t.proposals :: d in after.proposals && (
        var p := t.proposals[d];
        after.proposals[d] == Proposal(p.title, after.proposals[d].target, p.live, p.under) &&
        Reads(previous, name, p.target, after.proposals[d].target)))
  {
  }

  /** A move is refused exactly when a category has the old name and another the new one. */
  lemma MoveIsRefused(t: Tables, previous: Name, name: Name)
    ensures match MoveReferences(t, previous, name)
      case Done(after) => after == Moved(t, previous, name)
      case Refused(why) => why == NameTaken
    ensures MoveReferences(t, previous, name).Refused? <==>
      exists i, j :: HasName(t, i, previous) && HasName(t, j, name) && previous != name
  {
    HoldsIsAmong(t, previous);
    HoldsIsAmong(t, name);
    if Holds(t, previous) && Holds(t, name) && previous != name {
      var i :| i in t.categories && t.categories[i] == previous;
      var j :| j in t.categories && t.categories[j] == name;
      assert HasName(t, i, previous) && HasName(t, j, name);
    }
  }

  predicate HasName(t: Tables, i: Id, name: Name) {
    i in t.categories && t.categories[i] == name
  }

  /** The row renamed is the one asked for, the columns that name it follow, and no other category changes. */
  lemma RenameDoes(t: Tables, spelling: Spelling, id: Id, raw: string)
    requires OneIdEach(t)
    ensures match Rename(t, spelling, id, raw)
      case Done(after) =>
        spelling.Refusing(raw).None? && id in t.categories &&
        after.categories == t.categories[id := spelling.form(raw)] &&
        after == Moved(t, t.categories[id], spelling.form(raw)) &&
        forall i | i in t.categories && t.categories[i] == spelling.form(raw) :: i == id
      case Refused(why) =>
        if spelling.Refusing(raw).Some? then why == spelling.Refusing(raw).value
        else if id !in t.categories then why == NotFound
        else why == NameTaken && exists i | i in t.categories && i != id :: t.categories[i] == spelling.form(raw)
  {
    if id in t.categories && spelling.Refusing(raw).None? {
      HoldsIsAmong(t, spelling.form(raw));
      HoldsIsAmong(t, t.categories[id]);
      if Rename(t, spelling, id, raw).Done? {
        RenamedRow(t, id, spelling.form(raw));
      }
    }
  }

  lemma RenamedRow(t: Tables, id: Id, name: Name)
    requires OneIdEach(t) && id in t.categories
    ensures Moved(t, t.categories[id], name).categories == t.categories[id := name]
    ensures t.categories[id] == name ==> Moved(t, t.categories[id], name) == t
  {
    if t.categories[id] == name {
      MovedOntoItself(t, name);
    }
  }

  lemma MovedOntoItself(t: Tables, name: Name)
    ensures Moved(t, name, name) == t
  {
    var after := Moved(t, name, name);
    assert after.categories == t.categories && after.rules == t.rules && after.retired == t.retired;
    assert after.routing == t.routing && after.folders == t.folders && after.pins == t.pins;
    assert after.tests == t.tests && after.proposals == t.proposals;
  }

  /** A rule, a folder, a pin or a test names it: nothing else holds a category back. */
  predicate Named(t: Tables, name: Name) {
    (exists r | r in t.rules :: t.rules[r] == name) || (exists f | f in t.folders :: t.folders[f] == Some(name)) ||
    (exists m | m in t.pins :: t.pins[m].target == name) || (exists c | c in t.tests :: t.tests[c].expected == name)
  }

  lemma UsedIsNamed(t: Tables, name: Name)
    ensures IsUsed(t, name) <==> Named(t, name)
  {
    if r :| r in t.rules && t.rules[r] == name {
      assert t.rules[r] in t.rules.Values;
    }
    if f :| f in t.folders && t.folders[f] == Some(name) {
      assert t.folders[f] in t.folders.Values;
    }
  }

  lemma RemoveDoes(t: Tables, id: Id)
    ensures match Remove(t, id)
      case Done(after) =>
        id in t.categories && t.categories[id] != t.fallback && !Named(t, t.categories[id]) &&
        after == t.(categories := t.categories - {id}, retired := after.retired) &&
        (forall w | w in after.retired :: w in t.retired && after.retired[w] == t.retired[w]) &&
        forall w | w in t.retired :: w in after.retired <==> t.retired[w] != t.categories[id]
      case Refused(why) =>
        if id !in t.categories then why == NotFound
        else if t.categories[id] == t.fallback then why == IsFallback
        else why == InUse && Named(t, t.categories[id])
  {
    if id in t.categories {
      UsedIsNamed(t, t.categories[id]);
    }
  }

  /** One cell written, with a name a category has. */
  lemma WriteDoes(t: Tables, slot: Slot, name: Name)
    ensures match WriteGuarded(t, slot, name)
      case Done(after) =>
        Holds(t, name) && (
        match slot
        case Rule(id) => after == t.(rules := t.rules[id := name])
        case Mapping(folder) => after == t.(folders := t.folders[folder := Some(name)])
        case Expectation(id) => after == t.(tests := t.tests[id := Test(name, None)])
        case Fallback => after == t.(fallback := name))
      case Refused(why) => !Holds(t, name) && why == Unknown(name)
  {
    HoldsIsAmong(t, name);
  }

  // ----- a simulation

  /** A proposal for each title decided, live, in the order decided; the pending ones of the titles judged are over. */
  lemma {:induction false} ProposedDoes(t: Tables, decided: seq<(string, Name)>)
    requires forall d | d in t.proposals :: d < t.next
    ensures var after := Proposed(t, decided);
      after.next == t.next + |decided| &&
      (forall d | d in after.proposals :: d in t.proposals || t.next <= d < after.next) &&
      (forall d | d in t.proposals :: d in after.proposals && after.proposals[d] == t.proposals[d]) &&
      forall k | 0 <= k < |decided| :: Proposes(after, t.next + k, decided[k])
    decreases |decided|
  {
    if decided != [] {
      var last := |decided| - 1;
      var before := Proposed(t, decided[..last]);
      ProposedDoes(t, decided[..last]);
      forall k | 0 <= k < |decided| ensures Proposes(Proposed(t, decided), t.next + k, decided[k]) {
        if k < last {
          assert decided[..last][k] == decided[k];
          assert Proposes(before, t.next + k, decided[..last][k]);
        }
      }
    }
  }

  predicate Proposes(t: Tables, d: Id, decided: (string, Name)) {
    d in t.proposals && t.proposals[d].title == decided.0 && t.proposals[d].target == decided.1 && t.proposals[d].live
  }

  lemma SimulateDoes(t: Tables, verdicts: map<string, Name>, decided: seq<(string, Name)>)
    requires forall d | d in t.proposals :: d < t.next
    ensures var after := Simulate(t, verdicts, decided);
      after == t.(routing := after.routing, proposals := after.proposals, next := t.next + |decided|) &&
      (forall m :: m in after.routing <==> m in t.routing || (m in verdicts && m in t.media)) &&
      (forall m | m in after.routing ::
        after.routing[m] == if m in verdicts && m in t.media then verdicts[m] else t.routing[m]) &&
      (forall k | 0 <= k < |decided| :: Proposes(after, t.next + k, decided[k])) &&
      forall d | d in t.proposals :: d in after.proposals && (
        var p := t.proposals[d];
        if p.title in verdicts && p.title in t.media
        then after.proposals[d] == Proposal(p.title, p.target, false, p.under) else after.proposals[d] == p)
  {
    var held := map m | m in verdicts && m in t.media :: verdicts[m];
    var superseded := Supersede(t, held.Keys);
    var proposed := Proposed(superseded, decided);
    ProposedDoes(superseded, decided);
    assert Simulate(t, verdicts, decided) == proposed.(routing := t.routing + held);
    forall k | 0 <= k < |decided| ensures Proposes(Simulate(t, verdicts, decided), t.next + k, decided[k]) {
      assert Proposes(proposed, t.next + k, decided[k]);
    }
  }

  // ----- an import, part by part

  function LastKnown(fallback: Name, spelling: Spelling, known: set<Name>, values: seq<string>): Name {
    if values == [] then fallback
    else if spelling.form(values[|values| - 1]) in known then spelling.form(values[|values| - 1])
    else LastKnown(fallback, spelling, known, values[..|values| - 1])
  }

  /** The last value that names a category known is the fallback, and nothing else is written. */
  lemma {:induction false} FallbacksDo(t: Tables, spelling: Spelling, known: set<Name>, values: seq<string>)
    ensures CategoryImport.ImportFallbacks(t, spelling, known, values) ==
      t.(fallback := LastKnown(t.fallback, spelling, known, values))
    decreases |values|
  {
    if values != [] {
      FallbacksDo(t, spelling, known, values[..|values| - 1]);
    }
  }

  /** Categories are added, none is changed, and nothing else is written. */
  ghost predicate CategoriesAdded(t: Tables, after: Tables) {
    after == t.(categories := after.categories, next := after.next) && t.next <= after.next &&
    (forall i | i in after.categories :: i < after.next) &&
    forall i | i in t.categories :: i in after.categories && after.categories[i] == t.categories[i]
  }

  lemma OneCategoryAdded(t: Tables, before: Tables, name: Name)
    requires CategoriesAdded(t, before)
    ensures CategoriesAdded(t, before.(categories := before.categories[before.next := name], next := before.next + 1))
  {
  }

  lemma {:induction false} CategoriesDo(t: Tables, spelling: Spelling, categories: seq<string>)
    requires forall i | i in t.categories :: i < t.next
    ensures CategoriesAdded(t, CategoryImport.ImportCategories(t, spelling, categories))
    decreases |categories|
  {
    if categories != [] {
      var before := CategoryImport.ImportCategories(t, spelling, categories[..|categories| - 1]);
      CategoriesDo(t, spelling, categories[..|categories| - 1]);
      OneCategoryAdded(t, before, spelling.form(categories[|categories| - 1]));
    }
  }

  /** The category a bundle maps a folder to where it is known, else the one it has, if any. */
  function BundledCategory(folders: map<Folder, Option<Name>>, spelling: Spelling, known: set<Name>,
                           m: CategoryImport.BundledMapping): Option<Name> {
    if m.category.Some? && spelling.form(m.category.value) in known then Some(spelling.form(m.category.value))
    else if m.folder in folders then folders[m.folder]
    else None
  }

  /** One folder at most: declared where it is to be and is not, mapped where its category is known. */
  lemma MappingDoes(folders: map<Folder, Option<Name>>, spelling: Spelling, known: set<Name>,
                    m: CategoryImport.BundledMapping)
    ensures var after := CategoryImport.MappedFolders(folders, spelling, known, m);
      var reached := m.instance && if m.declared then m.path else m.folder in folders;
      (forall f | f != m.folder :: (f in after <==> f in folders) && (f in folders ==> after[f] == folders[f])) &&
      (!reached ==> after == folders) &&
      (reached ==> m.folder in after) &&
      (reached ==> after[m.folder] == BundledCategory(folders, spelling, known, m))
  {
  }

  /** An exception is pinned on the copies the library holds, where its category is known and its reason short. */
  lemma BundledPinDoes(t: Tables, spelling: Spelling, known: set<Name>, over: CategoryImport.BundledPin)
    ensures var (after, here) :=
        (CategoryImport.ImportPin(t, spelling, known, over), set m | m in over.copies && m in t.media);
      if here != {} && spelling.form(over.target) in known && !TooLong(over.reason)
      then Pinned(t, after, here, spelling.form(over.target)) else after == t
  {
    var copies := CategoryImport.Listed(t, over.copies);
    assert Among(copies) == set m | m in over.copies && m in t.media;
    if copies != [] {
      assert copies[0] in Among(copies);
    }
    PinInDoes(t, copies, spelling.form(over.target), over.reason);
  }

  /** A bundled rule is written unless it is refused by its own checks, out of scope, or of no known category. */
  predicate Written(spelling: Spelling, known: set<Name>, rule: CategoryImport.BundledRule) {
    rule.importable && rule.scoped && spelling.form(rule.target) in known
  }

  lemma {:induction false} RestoredDoes(spelling: Spelling, known: set<Name>, rules: seq<CategoryImport.BundledRule>)
    ensures CategoryImport.Restored(spelling, known, rules) == Kept(rules, r => Written(spelling, known, r))
    decreases |rules|
  {
    if rules != [] {
      RestoredDoes(spelling, known, rules[..|rules| - 1]);
    }
  }

  /** Those that `asked`, in their order. */
  function Kept<T>(rows: seq<T>, asked: T -> bool): seq<T> {
    if rows == [] then []
    else Kept(rows[..|rows| - 1], asked) + if asked(rows[|rows| - 1]) then [rows[|rows| - 1]] else []
  }

  /** `names` under new ids from `next` on, in their order, beside the rows there were. */
  function WithNames(rows: map<Id, Name>, next: Id, names: seq<Name>): map<Id, Name> {
    if names == [] then rows
    else WithNames(rows, next, names[..|names| - 1])[next + |names| - 1 := names[|names| - 1]]
  }

  lemma {:induction false} WithNamesCount(rows: map<Id, Name>, next: Id, names: seq<Name>)
    requires forall r | r in rows :: r < next
    ensures |WithNames(rows, next, names)| == |rows| + |names|
    ensures forall r | r in WithNames(rows, next, names) :: r < next + |names|
    ensures forall r | r in rows :: r in WithNames(rows, next, names) && WithNames(rows, next, names)[r] == rows[r]
    decreases |names|
  {
    if names != [] {
      WithNamesCount(rows, next, names[..|names| - 1]);
    }
  }

  predicate RulesAdded(t: Tables, after: Tables, names: seq<Name>) {
    RulesAlone(t, after) && after.next == t.next + |names| && after.rules == WithNames(t.rules, t.next, names)
  }

  predicate RulesAlone(t: Tables, after: Tables) {
    after.categories == t.categories && after.fallback == t.fallback && after.folders == t.folders &&
    after.media == t.media && after.pins == t.pins && after.retired == t.retired && after.tests == t.tests &&
    after.proposals == t.proposals && after.routing == t.routing && after.issued == t.issued
  }

  lemma AddRuleAlone(t: Tables, before: Tables, name: Name)
    requires RulesAlone(t, before)
    ensures var after := CategoryImport.AddRule(before, name);
      RulesAlone(t, after) && after.rules == before.rules[before.next := name] && after.next == before.next + 1
  {
  }

  lemma OneRuleAdded(t: Tables, before: Tables, names: seq<Name>, name: Name)
    requires RulesAdded(t, before, names)
    ensures RulesAdded(t, CategoryImport.AddRule(before, name), names + [name])
  {
    AddRuleAlone(t, before, name);
    assert (names + [name])[..|names|] == names;
  }

  /** What an append does not find in place already, or all of it past a replace, by stored name. */
  function Asked(spelling: Spelling, rules: seq<CategoryImport.BundledRule>, replaced: bool): seq<Name> {
    if rules == [] then []
    else
      var last := rules[|rules| - 1];
      var before := Asked(spelling, rules[..|rules| - 1], replaced);
      if replaced || !last.present then before + [spelling.form(last.target)] else before
  }

  /** Every rule asked for is written, until one would be the 1001st: then the import is refused. */
  predicate Inserted(t: Tables, answer: Answer, names: seq<Name>) {
    match answer
    case Done(after) => RulesAdded(t, after, names) && (names == [] || |t.rules| + |names| <= 1000)
    case Refused(why) => why == TooManyRules && names != [] && |t.rules| + |names| > 1000
  }

  lemma OneMoreInserted(t: Tables, before: Tables, names: seq<Name>, name: Name)
    requires RulesAdded(t, before, names) && (names == [] || |t.rules| + |names| <= 1000)
    requires forall r | r in t.rules :: r < t.next
    ensures
      var more := CategoryImport.AddRule(before, name);
      Inserted(t, if |before.rules| >= 1000 then Refused(TooManyRules) else Done(more), names + [name])
  {
    OneRuleAdded(t, before, names, name);
    WithNamesCount(t.rules, t.next, names);
  }

  lemma {:induction false} InsertsDo(
    t: Tables, spelling: Spelling, rules: seq<CategoryImport.BundledRule>, replaced: bool)
    requires forall r | r in t.rules :: r < t.next
    ensures Inserted(t, CategoryImport.InsertRules(t, spelling, rules, replaced), Asked(spelling, rules, replaced))
    decreases |rules|
  {
    if rules != [] {
      var last, names := rules[|rules| - 1], Asked(spelling, rules[..|rules| - 1], replaced);
      InsertsDo(t, spelling, rules[..|rules| - 1], replaced);
      assert names + [] == names;
      match CategoryImport.InsertRules(t, spelling, rules[..|rules| - 1], replaced)
      case Done(before) => OneMoreInserted(t, before, names, spelling.form(last.target));
      case Refused(_) =>
    }
  }

  /** A test is written only for an instance here, a category known, a title readable, and no twin. */
  lemma RuleTestDoes(t: Tables, spelling: Spelling, known: set<Name>, test: CategoryImport.BundledTest)
    ensures CategoryImport.RestoreRuleTest(t, spelling, known, test) ==
      if test.instance && test.readable && !test.here && spelling.form(test.expected) in known
      then CategoryImport.AddTest(t, spelling.form(test.expected)) else t
  {
  }

  /** Whether a bundled mapping names a known category for a folder it may map. */
  predicate Maps(folders: map<Folder, Option<Name>>, spelling: Spelling, known: set<Name>,
                 m: CategoryImport.BundledMapping, f: Folder) {
    m.folder == f && m.instance && (if m.declared then m.path else f in folders) &&
    m.category.Some? && spelling.form(m.category.value) in known
  }

  /** The category the last mapping that maps the folder names, and the one it has where none does. */
  function LastMapped(folders: map<Folder, Option<Name>>, spelling: Spelling, known: set<Name>,
                      mappings: seq<CategoryImport.BundledMapping>, f: Folder): Option<Name>
    requires f in folders
  {
    if mappings == [] then folders[f]
    else
      var last := mappings[|mappings| - 1];
      if Maps(folders, spelling, known, last, f) then Some(spelling.form(last.category.value))
      else LastMapped(folders, spelling, known, mappings[..|mappings| - 1], f)
  }

  /** Of the mappings of a folder here from the start, the last to name a known category decides. */
  lemma {:induction false} MappingsDo(t: Tables, spelling: Spelling, known: set<Name>,
                                      mappings: seq<CategoryImport.BundledMapping>, f: Folder)
    requires f in t.folders
    ensures var after := CategoryImport.ImportMappings(t, spelling, known, mappings);
      after == t.(folders := after.folders) && f in after.folders &&
      after.folders[f] == LastMapped(t.folders, spelling, known, mappings, f)
    decreases |mappings|
  {
    if mappings != [] {
      var last := |mappings| - 1;
      var before := CategoryImport.ImportMappings(t, spelling, known, mappings[..last]);
      MappingsDo(t, spelling, known, mappings[..last], f);
      MappingDoes(before.folders, spelling, known, mappings[last]);
    }
  }

  /** Whether a bundled exception pins the title. */
  predicate Pins(t: Tables, spelling: Spelling, known: set<Name>, over: CategoryImport.BundledPin, title: string) {
    title in over.copies && title in t.media && spelling.form(over.target) in known && !TooLong(over.reason)
  }

  /** What the last exception that pins the title pins it to, and its pin where none does. */
  function LastPinned(t: Tables, spelling: Spelling, known: set<Name>, pins: seq<CategoryImport.BundledPin>,
                      title: string): Option<Name>
  {
    if pins == [] then PinOf(t, title)
    else if Pins(t, spelling, known, pins[|pins| - 1], title) then Some(spelling.form(pins[|pins| - 1].target))
    else LastPinned(t, spelling, known, pins[..|pins| - 1], title)
  }

  /** The last exception that pins a title decides its pin. */
  lemma {:induction false} BundledPinsDo(t: Tables, spelling: Spelling, known: set<Name>,
                                         pins: seq<CategoryImport.BundledPin>, title: string)
    ensures var after := CategoryImport.ImportPins(t, spelling, known, pins);
      PinsAlone(t, after) &&
      LastPinned(t, spelling, known, pins, title) == PinOf(after, title)
    decreases |pins|
  {
    if pins != [] {
      var last := |pins| - 1;
      var before := CategoryImport.ImportPins(t, spelling, known, pins[..last]);
      BundledPinsDo(t, spelling, known, pins[..last], title);
      OnePinDecides(before, spelling, known, pins[last], title);
      assert Pins(before, spelling, known, pins[last], title) == Pins(t, spelling, known, pins[last], title);
    }
  }

  lemma OnePinDecides(t: Tables, spelling: Spelling, known: set<Name>, over: CategoryImport.BundledPin, title: string)
    ensures var after := CategoryImport.ImportPin(t, spelling, known, over);
      PinsAlone(t, after) &&
      if Pins(t, spelling, known, over, title)
      then title in after.pins && after.pins[title].target == spelling.form(over.target)
      else (title in after.pins <==> title in t.pins) && (title in t.pins ==> after.pins[title] == t.pins[title])
  {
    var here := set m | m in over.copies && m in t.media;
    BundledPinDoes(t, spelling, known, over);
    assert title in here <==> title in over.copies && title in t.media;
  }

  /** A replace drops the rules there were, unless it restores none. */
  lemma ImportRulesDo(
    t: Tables, spelling: Spelling, known: set<Name>, rules: seq<CategoryImport.BundledRule>, replace: bool)
    requires forall r | r in t.rules :: r < t.next
    ensures var restored := Kept(rules, r => Written(spelling, known, r));
      var replaced := replace && restored != [];
      Inserted(if replaced then t.(rules := map[]) else t,
               CategoryImport.ImportRules(t, spelling, known, rules, replace), Asked(spelling, restored, replaced))
  {
    RestoredDoes(spelling, known, rules);
    var restored := CategoryImport.Restored(spelling, known, rules);
    var replaced := replace && restored != [];
    InsertsDo(if replaced then t.(rules := map[]) else t, spelling, restored, replaced);
  }

  /** The names the tests written expect, in their order. */
  function Expected(spelling: Spelling, known: set<Name>, tests: seq<CategoryImport.BundledTest>): seq<Name> {
    if tests == [] then []
    else
      var (before, last) := (Expected(spelling, known, tests[..|tests| - 1]), tests[|tests| - 1]);
      if last.instance && last.readable && !last.here && spelling.form(last.expected) in known
      then before + [spelling.form(last.expected)] else before
  }

  /** `names` expected by tests under new ids from `next` on, in their order, beside the tests there were. */
  function WithTests(tests: map<Id, Test>, next: Id, names: seq<Name>): map<Id, Test> {
    if names == [] then tests
    else WithTests(tests, next, names[..|names| - 1])[next + |names| - 1 := Test(names[|names| - 1], None)]
  }

  predicate TestsAdded(t: Tables, after: Tables, names: seq<Name>) {
    TestsAlone(t, after) && after.next == t.next + |names| && after.tests == WithTests(t.tests, t.next, names)
  }

  predicate TestsAlone(t: Tables, after: Tables) {
    after.categories == t.categories && after.fallback == t.fallback && after.folders == t.folders &&
    after.media == t.media && after.pins == t.pins && after.retired == t.retired && after.rules == t.rules &&
    after.proposals == t.proposals && after.routing == t.routing && after.issued == t.issued
  }

  lemma AddTestAlone(t: Tables, before: Tables, expected: Name)
    requires TestsAlone(t, before)
    ensures var after := CategoryImport.AddTest(before, expected);
      TestsAlone(t, after) && after.tests == before.tests[before.next := Test(expected, None)] &&
      after.next == before.next + 1
  {
  }

  lemma OneTestAdded(t: Tables, before: Tables, names: seq<Name>, expected: Name)
    requires TestsAdded(t, before, names)
    ensures TestsAdded(t, CategoryImport.AddTest(before, expected), names + [expected])
  {
    AddTestAlone(t, before, expected);
    assert (names + [expected])[..|names|] == names;
  }

  /** Every test that may be written is, in order, and nothing else. */
  lemma {:induction false} TestsDo(
    t: Tables, spelling: Spelling, known: set<Name>, tests: seq<CategoryImport.BundledTest>)
    ensures TestsAdded(t, CategoryImport.ImportTests(t, spelling, known, tests), Expected(spelling, known, tests))
    decreases |tests|
  {
    if tests != [] {
      var before := CategoryImport.ImportTests(t, spelling, known, tests[..|tests| - 1]);
      var names, name := Expected(spelling, known, tests[..|tests| - 1]), spelling.form(tests[|tests| - 1].expected);
      TestsDo(t, spelling, known, tests[..|tests| - 1]);
      RuleTestDoes(before, spelling, known, tests[|tests| - 1]);
      OneTestAdded(t, before, names, name);
    }
  }

  /** What the rows of an import up to the rules leave: each column by the part of the bundle that writes it. */
  lemma RowsDo(t: Tables, spelling: Spelling, bundle: CategoryImport.Bundle, f: Folder, title: string)
    requires Live(t) && f in t.folders
    ensures var known := CategoryImport.WithBundled(t, spelling, bundle.categories);
      var after := CategoryImport.ImportRows(t, spelling, known, bundle);
      after.fallback == LastKnown(t.fallback, spelling, known, bundle.fallbacks) &&
      after.categories.Values == known && f in after.folders &&
      after.folders[f] == LastMapped(t.folders, spelling, known, bundle.mappings, f) &&
      LastPinned(t, spelling, known, bundle.pins, title) == PinOf(after, title) &&
      after.rules == t.rules && after.tests == t.tests && after.media == t.media && after.retired == t.retired &&
      after.routing == t.routing
  {
    var known := CategoryImport.WithBundled(t, spelling, bundle.categories);
    var settled := CategoryImport.ImportFallbacks(t, spelling, known, bundle.fallbacks);
    var created := CategoryImport.ImportCategories(settled, spelling, bundle.categories);
    var mapped := CategoryImport.ImportMappings(created, spelling, known, bundle.mappings);
    FallbacksDo(t, spelling, known, bundle.fallbacks);
    CategoriesDo(settled, spelling, bundle.categories);
    MappingsDo(created, spelling, known, bundle.mappings, f);
    BundledPinsDo(mapped, spelling, known, bundle.pins, title);
    LastPinnedAlike(t, mapped, spelling, known, bundle.pins, title);
    CategoryImport.RowsKeep(t, spelling, bundle);
  }

  function PinOf(t: Tables, title: string): Option<Name> {
    if title in t.pins then Some(t.pins[title].target) else None
  }

  lemma {:induction false} LastPinnedAlike(t: Tables, u: Tables, spelling: Spelling, known: set<Name>,
                                           pins: seq<CategoryImport.BundledPin>, title: string)
    requires u.media == t.media && u.pins == t.pins
    ensures LastPinned(u, spelling, known, pins, title) == LastPinned(t, spelling, known, pins, title)
    decreases |pins|
  {
    if pins != [] {
      LastPinnedAlike(t, u, spelling, known, pins[..|pins| - 1], title);
    }
  }

  ghost predicate NamesWritten(rows: map<Id, Name>, names: seq<Name>, after: map<Id, Name>) {
    exists at: Id :: after == WithNames(rows, at, names)
  }

  ghost predicate TestsWritten(tests: map<Id, Test>, names: seq<Name>, after: map<Id, Test>) {
    exists at: Id :: after == WithTests(tests, at, names)
  }

  /** Each column as the last of the bundle's rows to write it says, whatever the folder and the title asked of. */
  ghost predicate Imported(t: Tables, spelling: Spelling, bundle: CategoryImport.Bundle, f: Folder, title: string,
                           after: Tables)
    requires f in t.folders
  {
    var known := CategoryImport.WithBundled(t, spelling, bundle.categories);
    var restored := Kept(bundle.rules, r => Written(spelling, known, r));
    var replaced := bundle.replaceRules && restored != [];
    after.fallback == LastKnown(t.fallback, spelling, known, bundle.fallbacks) &&
    after.categories.Values == known && f in after.folders &&
    after.folders[f] == LastMapped(t.folders, spelling, known, bundle.mappings, f) &&
    LastPinned(t, spelling, known, bundle.pins, title) == PinOf(after, title) &&
    NamesWritten(if replaced then map[] else t.rules, Asked(spelling, restored, replaced), after.rules) &&
    TestsWritten(t.tests, Expected(spelling, known, bundle.tests), after.tests) &&
    after.media == t.media && after.retired == t.retired && after.routing == t.routing
  }

  /** An import takes every part of its bundle; refused, it is for its rules. */
  lemma ImportDoes(t: Tables, spelling: Spelling, bundle: CategoryImport.Bundle, f: Folder, title: string)
    requires Live(t) && f in t.folders && forall r | r in t.rules :: r < t.next
    ensures match CategoryImport.Import(t, spelling, bundle)
      case Done(after) => Imported(t, spelling, bundle, f, title, after)
      case Refused(why) => why == TooManyRules
  {
    var known := CategoryImport.WithBundled(t, spelling, bundle.categories);
    RowsDo(t, spelling, bundle, f, title);
    CategoryImport.RowsKeep(t, spelling, bundle);
    RowsNext(t, spelling, bundle);
    RuledDo(CategoryImport.ImportRows(t, spelling, known, bundle), spelling, known, bundle);
  }

  /** The last two parts, over the rows the others left. */
  predicate ColumnsKept(rows: Tables, after: Tables) {
    after.fallback == rows.fallback && after.categories == rows.categories && after.folders == rows.folders &&
    after.pins == rows.pins && after.media == rows.media && after.retired == rows.retired &&
    after.routing == rows.routing
  }

  lemma RuledDo(rows: Tables, spelling: Spelling, known: set<Name>, bundle: CategoryImport.Bundle)
    requires forall r | r in rows.rules :: r < rows.next
    ensures var restored := Kept(bundle.rules, r => Written(spelling, known, r));
      var replaced := bundle.replaceRules && restored != [];
      var ruled := CategoryImport.ImportRules(rows, spelling, known, bundle.rules, bundle.replaceRules);
      (ruled.Refused? ==> ruled.why == TooManyRules) &&
      (ruled.Done? ==> (
        var after := CategoryImport.ImportTests(ruled.tables, spelling, known, bundle.tests);
        ColumnsKept(rows, after) &&
        NamesWritten(if replaced then map[] else rows.rules, Asked(spelling, restored, replaced), after.rules) &&
        TestsWritten(rows.tests, Expected(spelling, known, bundle.tests), after.tests)))
  {
    ImportRulesDo(rows, spelling, known, bundle.rules, bundle.replaceRules);
    var ruled := CategoryImport.ImportRules(rows, spelling, known, bundle.rules, bundle.replaceRules);
    if ruled.Done? {
      TestsDo(ruled.tables, spelling, known, bundle.tests);
    }
  }

  lemma RowsNext(t: Tables, spelling: Spelling, bundle: CategoryImport.Bundle)
    requires Live(t)
    ensures var known := CategoryImport.WithBundled(t, spelling, bundle.categories);
      t.next <= CategoryImport.ImportRows(t, spelling, known, bundle).next
  {
    CategoryImport.RowsKeep(t, spelling, bundle);
  }

  // ----- a sync

  /** A pin of a title that goes is kept under the work it names. */
  predicate Leaves(t: Tables, titles: set<string>, m: string, w: Work) {
    m in titles && m in t.pins && m in t.media && t.media[m].external.Some? && t.media[m].external.value > 0 &&
    w == (t.media[m].instance, t.media[m].kind, t.media[m].external.value)
  }

  lemma LeavesIsLeft(t: Tables, titles: set<string>, m: string, w: Work)
    ensures CategoryHistory.LeavesPin(t, titles, m, w) <==> Leaves(t, titles, m, w)
  {
  }

  /** Titles that go take their rows, pins and proposals; what their pins were to waits under their works. */
  lemma RetireDoes(t: Tables, titles: set<string>)
    ensures var after := CategoryHistory.Retire(t, titles);
      after == t.(media := after.media, pins := after.pins, retired := after.retired, routing := after.routing,
                  proposals := after.proposals) &&
      (forall m :: m in after.media <==> m in t.media && m !in titles) &&
      (forall m | m in after.media :: after.media[m] == t.media[m]) &&
      (forall m :: m in after.pins <==> m in t.pins && m !in titles) &&
      (forall m | m in after.pins :: after.pins[m] == t.pins[m]) &&
      (forall m :: m in after.routing <==> m in t.routing && m !in titles) &&
      (forall m | m in after.routing :: after.routing[m] == t.routing[m]) &&
      Ended(t, after, titles)
  {
  }

  lemma RetiredPinsWait(t: Tables, titles: set<string>, w: Work)
    ensures var after := CategoryHistory.Retire(t, titles);
      if exists m :: Leaves(t, titles, m, w)
      then w in after.retired && exists m :: Leaves(t, titles, m, w) && after.retired[w] == t.pins[m].target
      else (w in after.retired <==> w in t.retired) && (w in t.retired ==> after.retired[w] == t.retired[w])
  {
    forall m ensures CategoryHistory.LeavesPin(t, titles, m, w) <==> Leaves(t, titles, m, w) {
      LeavesIsLeft(t, titles, m, w);
    }
    if m :| Leaves(t, titles, m, w) {
      assert t.media[m].Named() == Some(w);
      assert w in CategoryHistory.RetiredBy(t, titles);
    }
  }

  /** A title of the instance, without a pin, whose work has one waiting to a category there is. */
  predicate Returns(t: Tables, instance: string, m: string, w: Work) {
    m in t.media && m !in t.pins && t.media[m].external.Some? && t.media[m].external.value > 0 &&
    w == (t.media[m].instance, t.media[m].kind, t.media[m].external.value) && w.0 == instance &&
    w in t.retired && Holds(t, t.retired[w])
  }

  ghost predicate ReturnsSome(t: Tables, instance: string, m: string) {
    exists w :: Returns(t, instance, m, w)
  }

  /** Every title that returns is pinned as it was, no other pin changes, and no proposal at all. */
  lemma RestoreDoes(t: Tables, instance: string)
    requires Supplied(t)
    ensures var after := CategoryHistory.Restore(t, instance);
      after == t.(pins := after.pins, retired := after.retired, next := after.next, issued := after.issued) &&
      (forall m, w | Returns(t, instance, m, w) :: m in after.pins && after.pins[m].target == t.retired[w]) &&
      (forall m | m in t.pins :: m in after.pins && after.pins[m] == t.pins[m]) &&
      forall m | m in after.pins && m !in t.pins :: ReturnsSome(t, instance, m)
  {
    var titles := CategoryHistory.Returned(t, instance);
    CategoryHistory.GiveBackShape(t, titles, t.retired);
    forall m, w | Returns(t, instance, m, w) ensures m in titles && t.media[m].Named() == Some(w) {
      HoldsIsAmong(t, t.retired[w]);
    }
    forall m | m in titles ensures ReturnsSome(t, instance, m) {
      var w := t.media[m].Named().value;
      HoldsIsAmong(t, t.retired[w]);
      assert Returns(t, instance, m, w);
    }
  }

  /** A pin that waits is dropped once a title of its instance names its work, given back or not. */
  lemma RestoreForgets(t: Tables, instance: string, w: Work)
    ensures var after := CategoryHistory.Restore(t, instance);
      (w in after.retired <==>
        w in t.retired && !(w.0 == instance && exists m | m in t.media :: t.media[m].Named() == Some(w))) &&
      (w in after.retired ==> after.retired[w] == t.retired[w])
  {
  }

  lemma NamedIsItsWork(title: Title)
    ensures title.Named() ==
      if title.external.Some? && title.external.value > 0
      then Some((title.instance, title.kind, title.external.value)) else None
  {
  }

  /** One title listed: a new row, or what the Arr says of the one there is, unless it was read or moved since. */
  lemma UpsertDoes(media: map<string, Title>, instance: string, listing: CategoryHistory.Listing)
    ensures var after := CategoryHistory.UpsertedMedia(media, instance, listing);
      after.Keys == media.Keys + {listing.title} &&
      (forall m | m in media && m != listing.title :: after[m] == media[m]) &&
      (listing.title !in media ==>
        after[listing.title] == Title(instance, listing.kind, listing.folder, listing.external)) &&
      (listing.title in media && listing.newer ==> after == media) &&
      (listing.title in media && !listing.newer ==>
        var (held, now) := (media[listing.title], after[listing.title]);
        now.instance == held.instance && now.kind == held.kind && now.external == listing.external &&
        now.folder == if listing.moved then held.folder else listing.folder)
  {
  }

  /** Two readings one title may have had: of one kind, and of one external id unless one of them has none. */
  predicate MayBeOne(held: Title, listing: CategoryHistory.Listing) {
    held.kind == listing.kind &&
    (held.external == listing.external || held.external == None || listing.external == None)
  }

  lemma ReassignedIs(t: Tables, listed: seq<CategoryHistory.Listing>, m: string)
    ensures m in CategoryHistory.Reassigned(t, listed) <==>
      exists listing | listing in listed :: listing.title == m && m in t.media && !MayBeOne(t.media[m], listing)
  {
    if m in CategoryHistory.Reassigned(t, listed) {
      var listing :| listing in listed && CategoryHistory.IsReassigned(t, listing) && listing.title == m;
      assert !MayBeOne(t.media[m], listing);
    }
    if listing :| listing in listed && listing.title == m && m in t.media && !MayBeOne(t.media[m], listing) {
      assert CategoryHistory.IsReassigned(t, listing);
    }
  }

  /** A folder listed keeps its category under its path, a new one has none, a stale one goes. */
  lemma FoldersDo(
    folders: map<Folder, Option<Name>>, instance: string, paths: seq<string>, stale: set<Folder>, f: Folder)
    ensures var after := CategoryHistory.SyncedFolders(folders, instance, paths, stale);
      var listed := f.0 == instance && f.1 in paths;
      (f in after <==> listed || (f in folders && f !in stale)) &&
      (f in after ==> after[f] == if f in folders then folders[f] else None)
  {
  }

  /** An instance goes with all that is its own. */
  lemma RemoveInstanceDoes(t: Tables, instance: string)
    ensures var after := CategoryHistory.RemoveInstance(t, instance);
      var own := set m | m in t.media && t.media[m].instance == instance;
      after == t.(media := after.media, pins := after.pins, retired := after.retired, routing := after.routing,
                  folders := after.folders, proposals := after.proposals) &&
      after.media == t.media - own && after.pins == t.pins - own && after.routing == t.routing - own &&
      (forall f :: f in after.folders <==> f in t.folders && f.0 != instance) &&
      (forall f | f in after.folders :: after.folders[f] == t.folders[f]) &&
      (forall w :: w in after.retired <==> w in t.retired && w.0 != instance) &&
      (forall w | w in after.retired :: after.retired[w] == t.retired[w]) && Ended(t, after, own)
  {
  }

  predicate Lists(listed: seq<CategoryHistory.Listing>, m: string) {
    exists k :: 0 <= k < |listed| && listed[k].title == m
  }

  predicate ListsOnce(listed: seq<CategoryHistory.Listing>, k: nat) {
    k < |listed| && forall j | 0 <= j < |listed| && j != k :: listed[j].title != listed[k].title
  }

  /** What listing titles leaves of one of them: nothing new where it is not listed, what its one listing says else. */
  lemma {:induction false} UpsertsDo(
    media: map<string, Title>, instance: string, listed: seq<CategoryHistory.Listing>, m: string)
    ensures var after := CategoryHistory.UpsertedAll(media, instance, listed);
      (!Lists(listed, m) ==> (m in after <==> m in media) && (m in media ==> after[m] == media[m])) &&
      forall k: nat | ListsOnce(listed, k) && listed[k].title == m ::
        m in after && after[m] == CategoryHistory.UpsertedMedia(media, instance, listed[k])[m]
    decreases |listed|
  {
    if listed != [] {
      var last := |listed| - 1;
      var before := CategoryHistory.UpsertedAll(media, instance, listed[..last]);
      UpsertsDo(media, instance, listed[..last], m);
      UpsertDoes(before, instance, listed[last]);
      if k :| 0 <= k < last && listed[..last][k].title == m {
        assert listed[k].title == m;
      }
      forall k: nat | ListsOnce(listed, k) && listed[k].title == m
        ensures m in CategoryHistory.UpsertedAll(media, instance, listed)
        ensures CategoryHistory.UpsertedAll(media, instance, listed)[m] ==
          CategoryHistory.UpsertedMedia(media, instance, listed[k])[m]
      {
        UpsertDoes(media, instance, listed[k]);
        if k < last {
          assert ListsOnce(listed[..last], k);
        } else {
          assert !Lists(listed[..last], m);
        }
      }
    }
  }

  /** The title's id names another title now. */
  ghost predicate GivenAway(t: Tables, sync: CategoryHistory.Sync, m: string) {
    exists listing | listing in sync.listed :: listing.title == m && m in t.media && !MayBeOne(t.media[m], listing)
  }

  lemma GivenAwayIs(t: Tables, sync: CategoryHistory.Sync, folders: map<Folder, Option<Name>>)
    ensures forall m :: m in CategoryHistory.Reassigned(t.(folders := folders), sync.listed) <==> GivenAway(t, sync, m)
  {
    forall m ensures m in CategoryHistory.Reassigned(t.(folders := folders), sync.listed) <==> GivenAway(t, sync, m) {
      ReassignedIs(t.(folders := folders), sync.listed, m);
    }
  }

  /** What the restore of a sync finds: the titles given away retired, the others listed, the folders synced. */
  lemma ListedIs(t: Tables, sync: CategoryHistory.Sync, away: set<string>)
    requires forall m :: m in away <==> GivenAway(t, sync, m)
    ensures var listed := CategoryHistory.ListedBy(t, sync);
      listed.media == CategoryHistory.UpsertedAll(t.media - away, sync.instance, sync.listed) &&
      listed.pins == t.pins - away && Ended(t, listed, away) &&
      listed.folders == CategoryHistory.SyncedFolders(t.folders, sync.instance, sync.paths, sync.stale)
  {
    var folders := CategoryHistory.SyncedFolders(t.folders, sync.instance, sync.paths, sync.stale);
    GivenAwayIs(t, sync, folders);
    assert CategoryHistory.Reassigned(t.(folders := folders), sync.listed) == away;
  }

  lemma RetiredColumns(t: Tables, gone: set<string>)
    ensures var after := CategoryHistory.Retire(t, gone);
      after.media == t.media - gone && after.pins == t.pins - gone && after.folders == t.folders &&
      Ended(t, after, gone)
  {
  }

  /** And what it leaves of that: each title back in its pin, and then those that went taken out. */
  lemma SyncedIs(t: Tables, sync: CategoryHistory.Sync)
    ensures var (listed, after) := (CategoryHistory.ListedBy(t, sync), CategoryHistory.Synced(t, sync));
      after.media == CategoryHistory.Restore(listed, sync.instance).media - sync.gone &&
      after.pins == CategoryHistory.Restore(listed, sync.instance).pins - sync.gone &&
      after.folders == CategoryHistory.Restore(listed, sync.instance).folders &&
      Ended(CategoryHistory.Restore(listed, sync.instance), after, sync.gone)
  {
    RetiredColumns(CategoryHistory.Restore(CategoryHistory.ListedBy(t, sync), sync.instance), sync.gone);
  }

  lemma RestoredSync(t: Tables, sync: CategoryHistory.Sync)
    requires Live(t)
    ensures var listed := CategoryHistory.ListedBy(t, sync);
      var restored := CategoryHistory.Restore(listed, sync.instance);
      restored.media == listed.media && restored.folders == listed.folders && restored.proposals == listed.proposals &&
      (forall m | m in listed.pins :: m in restored.pins && restored.pins[m] == listed.pins[m]) &&
      forall m | m in restored.pins && m !in listed.pins :: ReturnsSome(listed, sync.instance, m)
  {
    CategoryHistory.ListedByKeeps(t, sync);
    RestoreDoes(CategoryHistory.ListedBy(t, sync), sync.instance);
  }

  /** The library a sync leaves: what it lists, over all but the titles given away, less those that went. */
  lemma SyncedMedia(t: Tables, sync: CategoryHistory.Sync, away: set<string>)
    requires Live(t) && forall m :: m in away <==> GivenAway(t, sync, m)
    ensures var after := CategoryHistory.Synced(t, sync);
      after.media == CategoryHistory.UpsertedAll(t.media - away, sync.instance, sync.listed) - sync.gone &&
      after.folders == CategoryHistory.SyncedFolders(t.folders, sync.instance, sync.paths, sync.stale)
  {
    ListedIs(t, sync, away);
    SyncedIs(t, sync);
    RestoredSync(t, sync);
  }

  /** Of a title neither gone nor given away the pin stays; one given away has a pin only if it is given back. */
  lemma SyncedPin(t: Tables, sync: CategoryHistory.Sync, away: set<string>, m: string)
    requires Live(t) && forall k :: k in away <==> GivenAway(t, sync, k)
    ensures var after := CategoryHistory.Synced(t, sync);
      (m in sync.gone ==> m !in after.pins) &&
      (m in t.pins && m !in sync.gone && m !in away ==> m in after.pins && after.pins[m] == t.pins[m]) &&
      (m in after.pins && (m in away || m !in t.pins) ==>
        ReturnsSome(CategoryHistory.ListedBy(t, sync), sync.instance, m))
  {
    ListedIs(t, sync, away);
    SyncedIs(t, sync);
    RestoredSync(t, sync);
  }

  /** The proposals of titles gone or given away are over, and no other is touched. */
  lemma SyncedProposals(t: Tables, sync: CategoryHistory.Sync, away: set<string>)
    requires Live(t) && forall m :: m in away <==> GivenAway(t, sync, m)
    ensures Ended(t, CategoryHistory.Synced(t, sync), away + sync.gone)
  {
    ListedIs(t, sync, away);
    SyncedIs(t, sync);
    RestoredSync(t, sync);
  }

  // ----- the writes of other rows

  /** The rules, folders and tests named go, each column keeping its other rows. */
  lemma DeleteDoes(t: Tables, rules: set<Id>, folders: set<Folder>, tests: set<Id>)
    ensures var after := CategoryHistory.ApplyRow(t, CategoryHistory.DoDelete(rules, folders, tests));
      after == t.(rules := after.rules, folders := after.folders, tests := after.tests) &&
      Left(t.rules, rules, after.rules) && Left(t.folders, folders, after.folders) && Left(t.tests, tests, after.tests)
  {
  }

  predicate Left<K, V(==)>(before: map<K, V>, gone: set<K>, after: map<K, V>) {
    (forall k | k in before && k !in gone :: k in after && after[k] == before[k]) &&
    forall k | k in after :: k in before && k !in gone
  }

  /** The decisions settled are live no more, those forgotten go, and no other proposal changes. */
  lemma SettleDoes(t: Tables, settled: set<Id>)
    ensures var after := CategoryHistory.ApplyRow(t, CategoryHistory.DoSettle(settled));
      after == t.(proposals := after.proposals) && after.proposals.Keys == t.proposals.Keys &&
      forall d | d in t.proposals ::
        after.proposals[d] == if d in settled then t.proposals[d].(live := false) else t.proposals[d]
    ensures var after := CategoryHistory.ApplyRow(t, CategoryHistory.DoForget(settled));
      after == t.(proposals := after.proposals) && Left(t.proposals, settled, after.proposals)
  {
  }

  /** A move recorded sets the folder of its title, and a mapping cleared leaves its folder with none. */
  lemma RowMoveDoes(t: Tables, title: string, to: Option<string>, folder: Folder)
    ensures var after := CategoryHistory.ApplyRow(t, CategoryHistory.DoMove(title, to));
      after == t.(media := after.media) && after.media.Keys == t.media.Keys &&
      forall m | m in t.media :: after.media[m] == if m == title then t.media[m].(folder := to) else t.media[m]
    ensures var after := CategoryHistory.ApplyRow(t, CategoryHistory.DoUnmap(folder));
      after == t.(folders := after.folders) && after.folders.Keys == t.folders.Keys + {folder} &&
      after.folders[folder] == None && forall f | f in t.folders && f != folder :: after.folders[f] == t.folders[f]
  {
  }
}
