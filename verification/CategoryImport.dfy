/**
 * `import` of backend/src/api/config.rs, the widest transaction on the category tables, as far as it
 * writes a name: settings and mappings may name a category the bundle only creates further on.
 */
module CategoryImport {
  import opened Options
  import opened CategoryTables
  import opened CategoryRuns

  /** `instance` and `path`: whether the instance is here, and a declared path one may be declared. */
  datatype BundledMapping = BundledMapping(
    folder: Folder, instance: bool, declared: bool, path: bool, category: Option<string>)

  /** `copies` are the titles the exception's external ids name, in the library or not. */
  datatype BundledPin = BundledPin(copies: seq<string>, target: string, reason: Option<string>)

  /** What the rule's own checks answer: judged before the transaction, scoped here, in place already. */
  datatype BundledRule = BundledRule(target: string, importable: bool, scoped: bool, present: bool)

  datatype BundledTest = BundledTest(expected: string, instance: bool, readable: bool, here: bool)

  datatype Bundle = Bundle(
    fallbacks: seq<string>,  // the values given for the one setting that names a category
    categories: seq<string>,
    mappings: seq<BundledMapping>,
    pins: seq<BundledPin>,
    rules: seq<BundledRule>,
    replaceRules: bool,
    tests: seq<BundledTest>)

  const MAX_RULES := 1000

  /** The names the table holds and those the bundle will create, through the gate its loop applies. */
  function WithBundled(t: Tables, spelling: Spelling, categories: seq<string>): set<Name> {
    t.categories.Values + set raw | raw in categories && spelling.Refusing(raw).None? :: spelling.form(raw)
  }

  function ImportFallbacks(t: Tables, spelling: Spelling, known: set<Name>, values: seq<string>): Tables {
    if values == [] then t
    else
      var before := ImportFallbacks(t, spelling, known, values[..|values| - 1]);
      var value := spelling.form(values[|values| - 1]);
      if value in known then before.(fallback := value) else before
  }

  function ImportCategories(t: Tables, spelling: Spelling, categories: seq<string>): Tables {
    if categories == [] then t
    else
      var before := ImportCategories(t, spelling, categories[..|categories| - 1]);
      var raw := categories[|categories| - 1];
      if spelling.Refusing(raw).Some? || spelling.form(raw) in before.categories.Values then before
      else before.(categories := before.categories[before.next := spelling.form(raw)], next := before.next + 1)
  }

  function MappedFolders(folders: map<Folder, Option<Name>>, spelling: Spelling, known: set<Name>, m: BundledMapping)
    : map<Folder, Option<Name>>
  {
    var missing := m.category.Some? && spelling.form(m.category.value) !in known;
    if m.declared then
      if !m.instance || !m.path then folders
      else
        var declared := if m.folder in folders then folders else folders[m.folder := None];
        if m.category.None? || missing then declared
        else declared[m.folder := Some(spelling.form(m.category.value))]
    else if missing || m.category.None? || !m.instance || m.folder !in folders then folders
    else folders[m.folder := Some(spelling.form(m.category.value))]
  }

  function ImportMapping(t: Tables, spelling: Spelling, known: set<Name>, m: BundledMapping): Tables {
    t.(folders := MappedFolders(t.folders, spelling, known, m))
  }

  function ImportMappings(t: Tables, spelling: Spelling, known: set<Name>, mappings: seq<BundledMapping>): Tables {
    if mappings == [] then t
    else
      var before := ImportMappings(t, spelling, known, mappings[..|mappings| - 1]);
      ImportMapping(before, spelling, known, mappings[|mappings| - 1])
  }

  function Listed(t: Tables, copies: seq<string>): (listed: seq<string>)
    ensures forall m :: m in listed <==> m in copies && m in t.media
  {
    if copies == [] then []
    else
      var before := Listed(t, copies[..|copies| - 1]);
      var copy := copies[|copies| - 1];
      assert copies == copies[..|copies| - 1] + [copy];
      if copy in t.media then before + [copy] else before
  }

  /** A pin `pin_in` refuses for its reason is skipped: the refusal comes before its first write. */
  function ImportPin(t: Tables, spelling: Spelling, known: set<Name>, over: BundledPin): Tables {
    var copies := Listed(t, over.copies);
    if copies == [] || spelling.form(over.target) !in known then t
    else PinIn(t, copies, spelling.form(over.target), over.reason).From(t)
  }

  function ImportPins(t: Tables, spelling: Spelling, known: set<Name>, pins: seq<BundledPin>): Tables {
    if pins == [] then t
    else ImportPin(ImportPins(t, spelling, known, pins[..|pins| - 1]), spelling, known, pins[|pins| - 1])
  }

  function Restored(spelling: Spelling, known: set<Name>, rules: seq<BundledRule>): seq<BundledRule> {
    if rules == [] then []
    else
      var before := Restored(spelling, known, rules[..|rules| - 1]);
      var rule := rules[|rules| - 1];
      if rule.importable && rule.scoped && spelling.form(rule.target) in known then before + [rule] else before
  }

  function AddRule(t: Tables, target: Name): Tables {
    t.(rules := t.rules[t.next := target], next := t.next + 1)
  }

  function InsertRules(t: Tables, spelling: Spelling, rules: seq<BundledRule>, replaced: bool): Answer {
    if rules == [] then Done(t)
    else match InsertRules(t, spelling, rules[..|rules| - 1], replaced)
      case Refused(why) => Refused(why)
      case Done(before) =>
        var rule := rules[|rules| - 1];
        if !replaced && rule.present then Done(before)
        else if |before.rules| >= MAX_RULES then Refused(TooManyRules)
        else Done(AddRule(before, spelling.form(rule.target)))
  }

  /** A replace that restores no rule replaces none: the whole library would go to the fallback. */
  function ImportRules(t: Tables, spelling: Spelling, known: set<Name>, rules: seq<BundledRule>, replace: bool): Answer
  {
    var restored := Restored(spelling, known, rules);
    var replaced := replace && restored != [];
    InsertRules(if replaced then t.(rules := map[]) else t, spelling, restored, replaced)
  }

  function AddTest(t: Tables, expected: Name): Tables {
    t.(tests := t.tests[t.next := Test(expected, None)], next := t.next + 1)
  }

  function RestoreRuleTest(t: Tables, spelling: Spelling, known: set<Name>, test: BundledTest): Tables {
    if !test.instance || spelling.form(test.expected) !in known || !test.readable || test.here then t
    else AddTest(t, spelling.form(test.expected))
  }

  function ImportTests(t: Tables, spelling: Spelling, known: set<Name>, tests: seq<BundledTest>): Tables {
    if tests == [] then t
    else RestoreRuleTest(ImportTests(t, spelling, known, tests[..|tests| - 1]), spelling, known, tests[|tests| - 1])
  }

  /** Up to the rules: nothing so far can refuse the whole import. */
  function ImportRows(t: Tables, spelling: Spelling, known: set<Name>, bundle: Bundle): Tables {
    var settled := ImportFallbacks(t, spelling, known, bundle.fallbacks);
    var created := ImportCategories(settled, spelling, bundle.categories);
    var mapped := ImportMappings(created, spelling, known, bundle.mappings);
    ImportPins(mapped, spelling, known, bundle.pins)
  }

  function Import(t: Tables, spelling: Spelling, bundle: Bundle): Answer {
    var known := WithBundled(t, spelling, bundle.categories);
    match ImportRules(ImportRows(t, spelling, known, bundle), spelling, known, bundle.rules, bundle.replaceRules)
    case Refused(why) => Refused(why)
    case Done(ruled) => Done(ImportTests(ruled, spelling, known, bundle.tests))
  }

  // ----- half way through, names may be of categories still to come

  ghost predicate Known(t: Tables, known: set<Name>) {
    NamesAmong(t, known) && OneIdEach(t) && Supplied(t)
  }

  ghost predicate KeepsKnown(t: Tables, after: Tables, known: set<Name>) {
    Known(after, known) && (Current(t) ==> Current(after))
  }

  lemma {:induction false} FallbacksKeep(t: Tables, spelling: Spelling, known: set<Name>, values: seq<string>)
    requires Known(t, known)
    ensures KeepsKnown(t, ImportFallbacks(t, spelling, known, values), known)
    ensures ImportFallbacks(t, spelling, known, values).categories == t.categories
    ensures IssuedGrew(t, ImportFallbacks(t, spelling, known, values))
    decreases |values|
  {
    if values != [] {
      FallbacksKeep(t, spelling, known, values[..|values| - 1]);
    }
  }

  lemma CategoryKeeps(t: Tables, known: set<Name>, name: Name)
    requires Known(t, known) && name !in t.categories.Values
    ensures var after := t.(categories := t.categories[t.next := name], next := t.next + 1);
      KeepsKnown(t, after, known) && after.categories.Values == t.categories.Values + {name}
  {
    var after := t.(categories := t.categories[t.next := name], next := t.next + 1);
    assert t.next !in t.categories;
    forall n | n in t.categories.Values + {name} ensures n in after.categories.Values {
      if n == name {
        assert after.categories[t.next] == n;
      } else {
        var i :| i in t.categories && t.categories[i] == n;
        assert after.categories[i] == n;
      }
    }
    CreateCurrent(t, after);
  }

  lemma BundledOneMore(t: Tables, spelling: Spelling, categories: seq<string>)
    requires categories != []
    ensures
      var before, raw := WithBundled(t, spelling, categories[..|categories| - 1]), categories[|categories| - 1];
      WithBundled(t, spelling, categories) ==
      if spelling.Refusing(raw).None? then before + {spelling.form(raw)} else before
  {
    assert categories == categories[..|categories| - 1] + [categories[|categories| - 1]];
  }

  /** Every name counted on from the bundle is a category by the time the loop is done. */
  lemma {:induction false} CategoriesKeep(t: Tables, spelling: Spelling, known: set<Name>, categories: seq<string>)
    requires Known(t, known)
    ensures KeepsKnown(t, ImportCategories(t, spelling, categories), known)
    ensures ImportCategories(t, spelling, categories).categories.Values == WithBundled(t, spelling, categories)
    ensures IssuedGrew(t, ImportCategories(t, spelling, categories))
    decreases |categories|
  {
    if categories != [] {
      var last := |categories| - 1;
      var before := ImportCategories(t, spelling, categories[..last]);
      CategoriesKeep(t, spelling, known, categories[..last]);
      assert categories == categories[..last] + [categories[last]];
      var name := spelling.form(categories[last]);
      BundledOneMore(t, spelling, categories);
      if spelling.Refusing(categories[last]).None? && name !in before.categories.Values {
        CategoryKeeps(before, known, name);
      }
    }
  }

  lemma FoldersKeep(t: Tables, folders: map<Folder, Option<Name>>)
    requires Live(t)
    requires forall f | f in folders && folders[f].Some? && folders[f].value != "" ::
      folders[f].value in t.categories.Values
    ensures Keeps(t, t.(folders := folders))
  {
    var after := t.(folders := folders);
    assert NamesAmong(after, t.categories.Values);
    assert Supplied(after) by {
      assert after.media == t.media && after.pins == t.pins && after.issued == t.issued;
    }
    StillCurrent(t, after);
  }

  lemma MappingKeeps(t: Tables, spelling: Spelling, m: BundledMapping)
    requires Live(t)
    ensures Keeps(t, ImportMapping(t, spelling, t.categories.Values, m))
    ensures ImportMapping(t, spelling, t.categories.Values, m).categories == t.categories
  {
    var folders := MappedFolders(t.folders, spelling, t.categories.Values, m);
    forall f | f in folders && folders[f].Some? && folders[f].value != ""
      ensures folders[f].value in t.categories.Values
    {
      if f != m.folder {
        assert f in t.folders && folders[f] == t.folders[f];
      }
    }
    FoldersKeep(t, folders);
  }

  lemma {:induction false} MappingsKeep(t: Tables, spelling: Spelling, mappings: seq<BundledMapping>)
    requires Live(t)
    ensures Keeps(t, ImportMappings(t, spelling, t.categories.Values, mappings))
    ensures ImportMappings(t, spelling, t.categories.Values, mappings).categories == t.categories
    ensures IssuedGrew(t, ImportMappings(t, spelling, t.categories.Values, mappings))
    decreases |mappings|
  {
    if mappings != [] {
      MappingsKeep(t, spelling, mappings[..|mappings| - 1]);
      MappingKeeps(ImportMappings(t, spelling, t.categories.Values, mappings[..|mappings| - 1]),
                   spelling, mappings[|mappings| - 1]);
    }
  }

  lemma {:induction false} PinsKeep(t: Tables, spelling: Spelling, pins: seq<BundledPin>)
    requires Live(t)
    ensures Keeps(t, ImportPins(t, spelling, t.categories.Values, pins))
    ensures ImportPins(t, spelling, t.categories.Values, pins).categories == t.categories
    ensures IssuedGrew(t, ImportPins(t, spelling, t.categories.Values, pins))
    decreases |pins|
  {
    if pins != [] {
      var before := ImportPins(t, spelling, t.categories.Values, pins[..|pins| - 1]);
      var over := pins[|pins| - 1];
      PinsKeep(t, spelling, pins[..|pins| - 1]);
      if spelling.form(over.target) in t.categories.Values {
        PinInKeeps(before, Listed(before, over.copies), spelling.form(over.target), over.reason);
        PinInIssues(before, Listed(before, over.copies), spelling.form(over.target), over.reason);
        PinAllShape(before, Listed(before, over.copies), spelling.form(over.target));
      }
    }
  }

  lemma RuleKeeps(t: Tables, target: Name)
    requires Live(t) && target in t.categories.Values
    ensures Keeps(t, AddRule(t, target)) && AddRule(t, target).categories == t.categories
    ensures IssuedGrew(t, AddRule(t, target))
  {
    WriteKeeps(t, Rule(t.next), target);
    SpareId(Written(t, Rule(t.next), target));
  }

  lemma TestKeeps(t: Tables, expected: Name)
    requires Live(t) && expected in t.categories.Values
    ensures Keeps(t, AddTest(t, expected)) && AddTest(t, expected).categories == t.categories
    ensures IssuedGrew(t, AddTest(t, expected))
  {
    WriteKeeps(t, Expectation(t.next), expected);
    SpareId(Written(t, Expectation(t.next), expected));
  }

  lemma SpareId(t: Tables)
    requires Live(t)
    ensures Keeps(t, t.(next := t.next + 1))
  {
    StillCurrent(t, t.(next := t.next + 1));
  }

  lemma {:induction false} RestoredKnown(spelling: Spelling, known: set<Name>, rules: seq<BundledRule>)
    ensures forall r | r in Restored(spelling, known, rules) :: spelling.form(r.target) in known
    decreases |rules|
  {
    if rules != [] {
      RestoredKnown(spelling, known, rules[..|rules| - 1]);
    }
  }

  lemma {:induction false} RulesKeep(t: Tables, spelling: Spelling, rules: seq<BundledRule>, replaced: bool)
    requires Live(t) && forall r | r in rules :: spelling.form(r.target) in t.categories.Values
    ensures var answer := InsertRules(t, spelling, rules, replaced);
      answer.Done? ==>
        Keeps(t, answer.tables) && answer.tables.categories == t.categories && IssuedGrew(t, answer.tables)
    decreases |rules|
  {
    if rules != [] {
      RulesKeep(t, spelling, rules[..|rules| - 1], replaced);
      var before := InsertRules(t, spelling, rules[..|rules| - 1], replaced);
      if before.Done? {
        RuleKeeps(before.tables, spelling.form(rules[|rules| - 1].target));
      }
    }
  }

  lemma {:induction false} TestsKeep(t: Tables, spelling: Spelling, tests: seq<BundledTest>)
    requires Live(t)
    ensures Keeps(t, ImportTests(t, spelling, t.categories.Values, tests))
    ensures ImportTests(t, spelling, t.categories.Values, tests).categories == t.categories
    ensures IssuedGrew(t, ImportTests(t, spelling, t.categories.Values, tests))
    decreases |tests|
  {
    if tests != [] {
      var before := ImportTests(t, spelling, t.categories.Values, tests[..|tests| - 1]);
      var expected := spelling.form(tests[|tests| - 1].expected);
      TestsKeep(t, spelling, tests[..|tests| - 1]);
      if expected in t.categories.Values {
        TestKeeps(before, expected);
      }
    }
  }

  lemma RowsKeep(t: Tables, spelling: Spelling, bundle: Bundle)
    requires Live(t)
    ensures var known := WithBundled(t, spelling, bundle.categories);
      Keeps(t, ImportRows(t, spelling, known, bundle)) &&
      ImportRows(t, spelling, known, bundle).categories.Values == known &&
      IssuedGrew(t, ImportRows(t, spelling, known, bundle))
  {
    var known := WithBundled(t, spelling, bundle.categories);
    assert Known(t, known);
    FallbacksKeep(t, spelling, known, bundle.fallbacks);
    var settled := ImportFallbacks(t, spelling, known, bundle.fallbacks);
    CategoriesKeep(settled, spelling, known, bundle.categories);
    var created := ImportCategories(settled, spelling, bundle.categories);
    MappingsKeep(created, spelling, bundle.mappings);
    PinsKeep(ImportMappings(created, spelling, known, bundle.mappings), spelling, bundle.pins);
  }

  /** A bundle of any content, imported or refused whole, leaves every name live and proposal current. */
  lemma ImportKeeps(t: Tables, spelling: Spelling, bundle: Bundle)
    requires Live(t)
    ensures Keeps(t, Import(t, spelling, bundle).From(t)) && IssuedGrew(t, Import(t, spelling, bundle).From(t))
  {
    var known := WithBundled(t, spelling, bundle.categories);
    var rows := ImportRows(t, spelling, known, bundle);
    RowsKeep(t, spelling, bundle);
    RestoredKnown(spelling, known, bundle.rules);
    var restored := Restored(spelling, known, bundle.rules);
    var replaced := bundle.replaceRules && restored != [];
    NoRules(rows);
    RulesKeep(if replaced then rows.(rules := map[]) else rows, spelling, restored, replaced);
    var ruled := ImportRules(rows, spelling, known, bundle.rules, bundle.replaceRules);
    if ruled.Done? {
      TestsKeep(ruled.tables, spelling, bundle.tests);
    }
  }

  lemma NoRules(t: Tables)
    requires Live(t)
    ensures Keeps(t, t.(rules := map[]))
  {
    StillCurrent(t, t.(rules := map[]));
  }
}
