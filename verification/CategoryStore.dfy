/**
 * The handlers themselves, statement by statement, each proved to commit what its one-step form in
 * CategoryTables and CategoryImport answers, or to leave the database as it found it, and so to keep
 * every name a category's, and every live proposal under the pin in force where each was.
 */
module CategoryStore {
  import opened Options
  import opened Texts
  import opened CategoryTables
  import opened CategoryRuns
  import opened CategoryImport
  import CategoryEffects

  /** What a handler answers, against the step it stands for: a refused one has changed nothing. */
  ghost predicate Commits(answer: Answer, before: Tables, after: Tables, refused: Option<Refusal>) {
    after == answer.From(before) && refused == if answer.Done? then None else Some(answer.why)
  }

  class Database {
    var db: Tables
    const spelling: Spelling

    /** Between transactions each name a row refers to is one a category has. */
    ghost predicate Valid()
      reads this
    {
      Live(db) && Idempotent(spelling.form)
    }

    constructor (db: Tables, spelling: Spelling)
      requires Live(db) && Idempotent(spelling.form)
      ensures Valid() && this.db == db && this.spelling == spelling
    {
      this.db, this.spelling := db, spelling;
    }

    // ----- categories.rs

    method Create(raw: string, isDefault: bool, owner: bool) returns (refused: Option<Refusal>)
      requires Valid()
      modifies this
      ensures Valid() && (old(Current(db)) ==> Current(db))
      ensures Commits(CategoryTables.Create(old(db), spelling, raw, isDefault, owner), old(db), db, refused)
    {
      CreateKeeps(db, spelling, raw, isDefault, owner);
      if isDefault && !owner {
        return Some(OwnerOnly);
      }
      refused := spelling.Refusing(raw);
      if refused.Some? {
        return;
      }
      var name := spelling.form(raw);
      if name in db.categories.Values {
        return Some(NameTaken);
      }
      Insert(name);
      if isDefault {
        db := db.(fallback := name);
      }
    }

    method Insert(name: Name)
      modifies this
      ensures db == old(db).(categories := old(db).categories[old(db).next := name], next := old(db).next + 1)
    {
      db := db.(categories := db.categories[db.next := name], next := db.next + 1);
    }

    method EnsureExists(name: Name) returns (refused: Option<Refusal>)
      ensures refused.None? <==> name in db.categories.Values
      ensures refused.Some? ==> refused == Some(Unknown(name))
    {
      refused := if name in db.categories.Values then None else Some(Unknown(name));
    }

    /** One UPDATE a column; only the first, on the unique names, can fail. */
    method MoveReferences(previous: Name, name: Name) returns (refused: Option<Refusal>)
      modifies this
      ensures Commits(CategoryTables.MoveReferences(old(db), previous, name), old(db), db, refused)
    {
      if previous in db.categories.Values && name in db.categories.Values && previous != name {
        return Some(NameTaken);
      }
      MoveAll(previous, name);
      refused := None;
    }

    method MoveAll(previous: Name, name: Name)
      modifies this
      ensures db == Moved(old(db), previous, name)
    {
      db := db.(categories := MovedColumn(db.categories, previous, name));
      MoveRows(previous, name);
      MoveHistory(previous, name);
      if db.fallback == previous {
        db := db.(fallback := name);
      }
    }

    /** The rows the engine reads. */
    method MoveRows(previous: Name, name: Name)
      modifies this
      ensures db == old(db).(rules := MovedColumn(old(db).rules, previous, name),
                             folders := MovedFolders(old(db).folders, previous, name),
                             pins := MovedPins(old(db).pins, previous, name),
                             retired := MovedColumn(old(db).retired, previous, name))
    {
      db := db.(rules := MovedColumn(db.rules, previous, name));
      db := db.(folders := MovedFolders(db.folders, previous, name));
      db := db.(pins := MovedPins(db.pins, previous, name));
      db := db.(retired := MovedColumn(db.retired, previous, name));
    }

    /** The rows that remember what was decided, and the test cases. */
    method MoveHistory(previous: Name, name: Name)
      modifies this
      ensures db == old(db).(proposals := MovedProposals(old(db).proposals, previous, name),
                             routing := MovedColumn(old(db).routing, previous, name),
                             tests := MovedActual(MovedExpected(old(db).tests, previous, name), previous, name))
    {
      db := db.(proposals := MovedProposals(db.proposals, previous, name));
      db := db.(routing := MovedColumn(db.routing, previous, name));
      db := db.(tests := MovedExpected(db.tests, previous, name));
      db := db.(tests := MovedActual(db.tests, previous, name));
    }

    method Rename(id: Id, raw: string) returns (refused: Option<Refusal>)
      requires Valid()
      modifies this
      ensures Valid() && (old(Current(db)) ==> Current(db))
      ensures Commits(CategoryTables.Rename(old(db), spelling, id, raw), old(db), db, refused)
    {
      RenameKeeps(db, spelling, id, raw);
      refused := spelling.Refusing(raw);
      if refused.Some? {
        return;
      }
      if id !in db.categories {
        return Some(NotFound);
      }
      var previous := db.categories[id];
      if previous == spelling.form(raw) {
        return None;
      }
      refused := MoveReferences(previous, spelling.form(raw));
    }

    /** Whatever counts more than none is in use, the retired pins apart, which go with the category. */
    method Remove(id: Id) returns (refused: Option<Refusal>)
      requires Valid()
      modifies this
      ensures Valid() && (old(Current(db)) ==> Current(db))
      ensures Commits(CategoryTables.Remove(old(db), id), old(db), db, refused)
    {
      RemoveKeeps(db, id);
      if id !in db.categories {
        return Some(NotFound);
      }
      var name := db.categories[id];
      if name == db.fallback {
        return Some(IsFallback);
      }
      var used := InUse(name);
      if used {
        return Some(Refusal.InUse);
      }
      refused := None;
      db := db.(retired := Forgotten(db.retired, name));
      db := db.(categories := db.categories - {id});
    }

    method InUse(name: Name) returns (used: bool)
      ensures used <==> IsUsed(db, name)
    {
      var rules := set r | r in db.rules && db.rules[r] == name;
      var folders := set f | f in db.folders && db.folders[f] == Some(name);
      var overrides := set m | m in db.pins && db.pins[m].target == name;
      var tests := set c | c in db.tests && db.tests[c].expected == name;
      UsedIsCounted(db, name, rules, folders, overrides, tests);
      used := |rules| + |folders| + |overrides| + |tests| > 0;
    }

    /** At a start, from the names as they stand: one transaction for each that moves. */
    method ConvergeNames(names: seq<Name>)
      requires Valid() && Distinct(names) && Among(names) <= db.categories.Values
      modifies this
      ensures Valid() && (old(Current(db)) ==> Current(db))
      ensures db == Converged(old(db), spelling.form, names)
    {
      ConvergedShape(db, spelling.form, names);
      var at := 0;
      while at < |names|
        invariant 0 <= at <= |names|
        invariant db == Converged(old(db), spelling.form, names[..at])
      {
        var previous := names[at];
        assert names[..at + 1][..at] == names[..at];
        var name := spelling.form(previous);
        if name != previous && name !in db.categories.Values {
          var _ := MoveReferences(previous, name);
        }
        at := at + 1;
      }
      assert names[..at] == names;
    }

    // ----- exceptions.rs

    method SupersedePending(titles: seq<string>)
      modifies this
      ensures db == Supersede(old(db), Among(titles))
    {
      db := db.(proposals := map d | d in db.proposals ::
                  if db.proposals[d].live && db.proposals[d].title in titles
                  then db.proposals[d].(live := false) else db.proposals[d]);
      assert db.proposals == Supersede(old(db), Among(titles)).proposals;
    }

    method Upsert(title: string, category: Name)
      modifies this
      ensures db == PinOne(old(db), title, category)
    {
      if title in db.pins {
        db := db.(pins := db.pins[title := db.pins[title].(target := category)]);
      } else {
        db := db.(pins := db.pins[title := CategoryTables.Pin.Pin(db.next, category)],
                  issued := db.issued[db.next := title], next := db.next + 1);
      }
    }

    /** In the caller's transaction: refused past its first write, it leaves rows for the caller to drop. */
    method PinIn(titles: seq<string>, category: Name, reason: Option<string>) returns (refused: Option<Refusal>)
      modifies this
      ensures match CategoryTables.PinIn(old(db), titles, category, reason)
        case Done(after) => refused.None? && db == after
        case Refused(why) => refused == Some(why)
      ensures refused == Some(ReasonTooLong) ==> db == old(db)
    {
      if reason.Some? && |reason.value| > REASON_MAX {
        return Some(ReasonTooLong);
      }
      var changed := [];
      var at := 0;
      while at < |titles|
        invariant 0 <= at <= |titles|
        invariant db == PinAll(old(db), titles[..at], category)
        invariant forall m | m in titles[..at] :: m in old(db).media
        invariant Among(changed) == Repinned(old(db), titles[..at], category)
      {
        var title := titles[at];
        assert titles[..at + 1] == titles[..at] + [title] && titles[..at + 1][..at] == titles[..at];
        SameLibrary(old(db), titles[..at], category);
        if title !in db.media {
          return Some(NotFound);
        }
        ghost var before := changed;
        if !(title in db.pins && db.pins[title].target == category) {
          changed := changed + [title];
        }
        RepinnedOneMore(old(db), titles[..at], title, category, before, changed);
        Upsert(title, category);
        at := at + 1;
      }
      assert titles[..at] == titles;
      SupersedePending(changed);
      refused := None;
    }

    method Pin(titles: seq<string>, raw: string, reason: Option<string>) returns (refused: Option<Refusal>)
      requires Valid()
      modifies this
      ensures Valid() && (old(Current(db)) ==> Current(db))
      ensures Commits(PinTo(old(db), spelling, titles, raw, reason), old(db), db, refused)
      ensures refused.None? ==> CategoryEffects.Pinned(old(db), db, Among(titles), spelling.form(raw))
    {
      CategoryEffects.PinToDoes(db, spelling, titles, raw, reason);
      PinToKeeps(db, spelling, titles, raw, reason);
      refused := spelling.Refusing(raw);
      if refused.Some? {
        return;
      }
      var began := db;
      refused := EnsureExists(spelling.form(raw));
      if refused.None? {
        refused := PinIn(titles, spelling.form(raw), reason);
      }
      if refused.Some? {
        db := began;
      }
    }

    method Keep(title: string, reason: Option<string>) returns (refused: Option<Refusal>)
      requires Valid()
      modifies this
      ensures Valid() && (old(Current(db)) ==> Current(db))
      ensures Commits(CategoryTables.Keep(old(db), title, reason), old(db), db, refused)
      ensures refused.None? ==>
        exists name :: CategoryEffects.StandsUnder(old(db), title, name) &&
          CategoryEffects.Pinned(old(db), db, {title}, name)
      ensures refused == Some(FolderUnmapped) <==>
        title in old(db).media && old(db).media[title].folder.Some? && !Blank(old(db).media[title].folder.value) &&
        forall name :: !CategoryEffects.StandsUnder(old(db), title, name)
    {
      KeepKeeps(db, title, reason);
      CategoryEffects.KeepDoes(db, title, reason);
      if title !in db.media {
        return Some(NotFound);
      }
      var held := db.media[title];
      if held.folder.None? || Blank(held.folder.value) {
        return Some(NoCurrentFolder);
      }
      var category := FolderCategory(db, (held.instance, held.folder.value));
      if category.None? {
        return Some(FolderUnmapped);
      }
      var began := db;
      refused := PinIn([title], category.value, reason);
      if refused.Some? {
        db := began;
      }
    }

    method UnpinExternal(copies: seq<string>) returns (deleted: bool)
      requires Valid()
      modifies this
      ensures Valid() && (old(Current(db)) ==> Current(db))
      ensures db == CategoryTables.UnpinExternal(old(db), copies)
      ensures deleted <==> exists m | m in copies :: m in old(db).pins
    {
      UnpinKeeps(db, copies);
      var unpinned := DeletePins(copies);
      SupersedePending(unpinned);
      deleted := unpinned != [];
      assert deleted ==> unpinned[0] in Among(unpinned);
      assert forall m | m in copies && m in old(db).pins :: m in Among(unpinned);
    }

    method DeletePins(copies: seq<string>) returns (unpinned: seq<string>)
      modifies this
      ensures Among(unpinned) == set m | m in copies && m in old(db).pins
      ensures db == old(db).(pins := old(db).pins - Among(unpinned))
    {
      unpinned := [];
      var at := 0;
      while at < |copies|
        invariant 0 <= at <= |copies|
        invariant Among(unpinned) == set m | m in copies[..at] && m in old(db).pins
        invariant db == old(db).(pins := old(db).pins - Among(unpinned))
      {
        var title := copies[at];
        assert copies[..at + 1] == copies[..at] + [title];
        if title in db.pins {
          db := db.(pins := db.pins - {title});
          assert Among(unpinned + [title]) == Among(unpinned) + {title};
          unpinned := unpinned + [title];
        }
        at := at + 1;
      }
      assert copies[..at] == copies;
    }

    /** The transaction of a removal, its title read before it began. */
    method RemovePin(id: Id, title: string)
      requires Valid() && id in db.issued && db.issued[id] == title
      modifies this
      ensures Valid() && (old(Current(db)) ==> Current(db))
      ensures db == CategoryTables.RemovePin(old(db), id, title)
    {
      RemovePinKeeps(db, id, title);
      db := db.(pins := map m | m in db.pins && db.pins[m].id != id :: db.pins[m]);
      SupersedePending([title]);
      assert Among([title]) == {title};
    }

    // ----- config.rs

    method ImportSettings(known: set<Name>, values: seq<string>)
      modifies this
      ensures db == ImportFallbacks(old(db), spelling, known, values)
    {
      for at := 0 to |values|
        invariant db == ImportFallbacks(old(db), spelling, known, values[..at])
      {
        assert values[..at + 1][..at] == values[..at];
        if spelling.form(values[at]) in known {
          db := db.(fallback := spelling.form(values[at]));
        }
      }
      assert values[..|values|] == values;
    }

    method CreateBundled(categories: seq<string>)
      modifies this
      ensures db == ImportCategories(old(db), spelling, categories)
    {
      for at := 0 to |categories|
        invariant db == ImportCategories(old(db), spelling, categories[..at])
      {
        assert categories[..at + 1][..at] == categories[..at];
        var refused := spelling.Refusing(categories[at]);
        if refused.Some? {
          continue;
        }
        var name := spelling.form(categories[at]);
        if name !in db.categories.Values {
          Insert(name);
        }
      }
      assert categories[..|categories|] == categories;
    }

    method MapFolders(known: set<Name>, mappings: seq<BundledMapping>)
      modifies this
      ensures db == ImportMappings(old(db), spelling, known, mappings)
    {
      for at := 0 to |mappings|
        invariant db == ImportMappings(old(db), spelling, known, mappings[..at])
      {
        assert mappings[..at + 1][..at] == mappings[..at];
        MapFolder(known, mappings[at]);
      }
      assert mappings[..|mappings|] == mappings;
    }

    method MapFolder(known: set<Name>, m: BundledMapping)
      modifies this
      ensures db == ImportMapping(old(db), spelling, known, m)
    {
      var missing := m.category.Some? && spelling.form(m.category.value) !in known;
      if m.declared {
        if !m.instance || !m.path {
          return;
        }
        if m.folder !in db.folders {
          db := db.(folders := db.folders[m.folder := None]);
        }
        if m.category.Some? && !missing {
          db := db.(folders := db.folders[m.folder := Some(spelling.form(m.category.value))]);
        }
        return;
      }
      if missing || m.category.None? {
        return;
      }
      if m.instance && m.folder in db.folders {
        db := db.(folders := db.folders[m.folder := Some(spelling.form(m.category.value))]);
      }
    }

    method CopiesHere(copies: seq<string>) returns (listed: seq<string>)
      ensures listed == Listed(db, copies)
    {
      listed := [];
      for at := 0 to |copies|
        invariant listed == Listed(db, copies[..at])
      {
        assert copies[..at + 1][..at] == copies[..at];
        if copies[at] in db.media {
          listed := listed + [copies[at]];
        }
      }
      assert copies[..|copies|] == copies;
    }

    /** A reason too long is a pin skipped, and changed nothing; a title gone would refuse the import, and none is. */
    method PinBundled(known: set<Name>, over: BundledPin)
      modifies this
      ensures db == ImportPin(old(db), spelling, known, over)
    {
      var copies := CopiesHere(over.copies);
      var category := spelling.form(over.target);
      if copies == [] || category !in known {
        return;
      }
      var refused := PinIn(copies, category, over.reason);
      assert refused != Some(NotFound);
    }

    method PinAllBundled(known: set<Name>, pins: seq<BundledPin>)
      modifies this
      ensures db == ImportPins(old(db), spelling, known, pins)
    {
      for at := 0 to |pins|
        invariant db == ImportPins(old(db), spelling, known, pins[..at])
      {
        assert pins[..at + 1][..at] == pins[..at];
        PinBundled(known, pins[at]);
      }
      assert pins[..|pins|] == pins;
    }

    method RestoredRules(known: set<Name>, rules: seq<BundledRule>) returns (restored: seq<BundledRule>)
      ensures restored == Restored(spelling, known, rules)
    {
      restored := [];
      for at := 0 to |rules|
        invariant restored == Restored(spelling, known, rules[..at])
      {
        assert rules[..at + 1][..at] == rules[..at];
        var rule := rules[at];
        if rule.importable && rule.scoped && spelling.form(rule.target) in known {
          restored := restored + [rule];
        }
      }
      assert rules[..|rules|] == rules;
    }

    /** Refused past its first insert, it leaves rows for the caller to drop. */
    method RestoreRules(known: set<Name>, rules: seq<BundledRule>, replace: bool) returns (refused: Option<Refusal>)
      modifies this
      ensures match CategoryImport.ImportRules(old(db), spelling, known, rules, replace)
        case Done(after) => refused.None? && db == after
        case Refused(why) => refused == Some(why)
    {
      var restored := RestoredRules(known, rules);
      var replaced := replace && restored != [];
      if replaced {
        db := db.(rules := map[]);
      }
      ghost var before := db;
      for at := 0 to |restored|
        invariant InsertRules(before, spelling, restored[..at], replaced) == Done(db)
      {
        assert restored[..at + 1][..at] == restored[..at];
        if replaced || !restored[at].present {
          if |db.rules| >= MAX_RULES {
            RefusedRules(before, spelling, restored, replaced, at);
            return Some(TooManyRules);
          }
          db := db.(rules := db.rules[db.next := spelling.form(restored[at].target)], next := db.next + 1);
        }
      }
      assert restored[..|restored|] == restored;
      refused := None;
    }

    method RestoreRuleTest(known: set<Name>, test: BundledTest)
      modifies this
      ensures db == CategoryImport.RestoreRuleTest(old(db), spelling, known, test)
    {
      var expected := spelling.form(test.expected);
      if !test.instance || expected !in known || !test.readable || test.here {
        return;
      }
      db := db.(tests := db.tests[db.next := Test(expected, None)], next := db.next + 1);
    }

    /** The whole transaction: half way through a name may be of a category still to come, at its end none is. */
    method Import(bundle: Bundle) returns (refused: Option<Refusal>)
      requires Valid()
      modifies this
      ensures Valid() && (old(Current(db)) ==> Current(db))
      ensures Commits(CategoryImport.Import(old(db), spelling, bundle), old(db), db, refused)
    {
      ImportKeeps(db, spelling, bundle);
      refused := TakeBundle(bundle);
    }

    /** It commits every part of the bundle it can restore, or nothing. */
    method TakeBundle(bundle: Bundle) returns (refused: Option<Refusal>)
      modifies this
      ensures Commits(CategoryImport.Import(old(db), spelling, bundle), old(db), db, refused)
    {
      var began := db;
      var bundled := set raw | raw in bundle.categories && spelling.Refusing(raw).None? :: spelling.form(raw);
      var known := db.categories.Values + bundled;
      assert known == WithBundled(db, spelling, bundle.categories);
      ImportSettings(known, bundle.fallbacks);
      CreateBundled(bundle.categories);
      MapFolders(known, bundle.mappings);
      PinAllBundled(known, bundle.pins);
      assert db == ImportRows(old(db), spelling, known, bundle);
      refused := RestoreRules(known, bundle.rules, bundle.replaceRules);
      if refused.Some? {
        db := began;
        return;
      }
      ghost var ruled := db;
      for at := 0 to |bundle.tests|
        invariant db == ImportTests(ruled, spelling, known, bundle.tests[..at])
      {
        assert bundle.tests[..at + 1][..at] == bundle.tests[..at];
        RestoreRuleTest(known, bundle.tests[at]);
      }
      assert bundle.tests[..|bundle.tests|] == bundle.tests;
    }
  }

  lemma PinToKeeps(t: Tables, spelling: Spelling, titles: seq<string>, raw: string, reason: Option<string>)
    requires Live(t)
    ensures Keeps(t, PinTo(t, spelling, titles, raw, reason).From(t))
  {
    if spelling.form(raw) in t.categories.Values {
      PinInKeeps(t, titles, spelling.form(raw), reason);
    }
  }

  lemma RepinnedOneMore(t: Tables, titles: seq<string>, title: string, category: Name,
                        before: seq<string>, changed: seq<string>)
    requires Among(before) == Repinned(t, titles, category)
    requires var held := PinAll(t, titles, category).pins;
      changed == if title in held && held[title].target == category then before else before + [title]
    ensures Among(changed) == Repinned(t, titles + [title], category)
  {
    PinAllShape(t, titles, category);
    assert Among(before + [title]) == Among(before) + {title};
  }

  /** A rule refused refuses the rules after it too. */
  lemma {:induction false} RefusedRules(t: Tables, spelling: Spelling, rules: seq<BundledRule>, replaced: bool, at: nat)
    requires at < |rules| && InsertRules(t, spelling, rules[..at + 1], replaced) == Refused(TooManyRules)
    ensures InsertRules(t, spelling, rules, replaced) == Refused(TooManyRules)
    decreases |rules|
  {
    if at + 1 < |rules| {
      assert rules[..|rules| - 1][..at + 1] == rules[..at + 1];
      RefusedRules(t, spelling, rules[..|rules| - 1], replaced, at);
    } else {
      assert rules[..at + 1] == rules;
    }
  }

  lemma SameLibrary(t: Tables, titles: seq<string>, category: Name)
    ensures PinAll(t, titles, category).media == t.media
  {
    PinAllShape(t, titles, category);
  }

  lemma UsedIsCounted(
    t: Tables, name: Name, rules: set<Id>, folders: set<Folder>, overrides: set<string>, tests: set<Id>)
    requires rules == set r | r in t.rules && t.rules[r] == name
    requires folders == set f | f in t.folders && t.folders[f] == Some(name)
    requires overrides == set m | m in t.pins && t.pins[m].target == name
    requires tests == set c | c in t.tests && t.tests[c].expected == name
    ensures |rules| + |folders| + |overrides| + |tests| > 0 <==> IsUsed(t, name)
  {
    if IsUsed(t, name) {
      if r :| r in t.rules && t.rules[r] == name {
        assert r in rules;
      } else if f :| f in t.folders && t.folders[f] == Some(name) {
        assert f in folders;
      } else if m :| m in t.pins && t.pins[m].target == name {
        assert m in overrides;
      } else {
        var c :| c in t.tests && t.tests[c].expected == name;
        assert c in tests;
      }
    }
  }
}
