/**
 * What every run of transactions keeps: each name still names a category, and each live proposal was
 * decided under the pin in force.
 */
module CategoryRuns {
  import opened Options
  import opened CategoryTables

  /** Names stay names of categories, and proposals current where they were. */
  ghost predicate Keeps(t: Tables, after: Tables) {
    Live(after) && (Current(t) ==> Current(after))
  }

  /** Whatever else changed, the same proposals stand under the same pins. */
  lemma StillCurrent(t: Tables, after: Tables)
    requires after.proposals == t.proposals && after.pins == t.pins && after.categories == t.categories
    ensures Current(t) ==> Current(after)
  {
    if Current(t) {
      forall d | d in after.proposals && after.proposals[d].live
        ensures InForce(after, after.proposals[d].title, after.proposals[d].under)
      {
        assert InForce(t, t.proposals[d].title, t.proposals[d].under);
      }
    }
  }

  // ----- renaming

  lemma MoveCarries(t: Tables, previous: Name, name: Name, n: Name)
    requires n in t.categories.Values
    ensures To(previous, name, n) in Moved(t, previous, name).categories.Values
  {
    var i :| i in t.categories && t.categories[i] == n;
    assert Moved(t, previous, name).categories[i] == To(previous, name, n);
  }

  lemma MoveKeepsNames(t: Tables, previous: Name, name: Name)
    requires NamesAmong(t, t.categories.Values) && previous in t.categories.Values
    ensures NamesAmong(Moved(t, previous, name), Moved(t, previous, name).categories.Values)
  {
    var after := Moved(t, previous, name);
    forall n | n in t.categories.Values ensures To(previous, name, n) in after.categories.Values {
      MoveCarries(t, previous, name, n);
    }
    forall f | f in after.folders && after.folders[f].Some? && after.folders[f].value != ""
      ensures after.folders[f].value in after.categories.Values
    {
      assert after.folders[f].value == To(previous, name, t.folders[f].value);
    }
  }

  lemma MoveKeepsIds(t: Tables, previous: Name, name: Name)
    requires OneIdEach(t) && Supplied(t) && MoveReferences(t, previous, name).Done?
    ensures OneIdEach(Moved(t, previous, name)) && Supplied(Moved(t, previous, name))
  {
    assert forall i | i in t.categories :: t.categories[i] in t.categories.Values;
  }

  lemma MoveKeepsCurrent(t: Tables, previous: Name, name: Name)
    ensures Current(t) ==> Current(Moved(t, previous, name))
  {
    if Current(t) {
      var after := Moved(t, previous, name);
      forall d | d in after.proposals && after.proposals[d].live
        ensures InForce(after, after.proposals[d].title, after.proposals[d].under)
      {
        assert InForce(t, t.proposals[d].title, t.proposals[d].under);
      }
    }
  }

  /** A move the unique constraint lets through keeps every name live, and every proposal current. */
  lemma MoveKeeps(t: Tables, previous: Name, name: Name)
    requires Live(t) && previous in t.categories.Values && MoveReferences(t, previous, name).Done?
    ensures Keeps(t, Moved(t, previous, name))
  {
    MoveKeepsNames(t, previous, name);
    MoveKeepsIds(t, previous, name);
    MoveKeepsCurrent(t, previous, name);
  }

  /** Where a name stands: every column of every table that holds one. */
  ghost predicate Mentions(t: Tables, n: Name) {
    n in t.categories.Values || n == t.fallback || n in t.rules.Values || Some(n) in t.folders.Values ||
    (exists m | m in t.pins :: t.pins[m].target == n) || n in t.retired.Values ||
    (exists c | c in t.tests :: t.tests[c].expected == n || t.tests[c].actual == Some(n)) ||
    (exists d | d in t.proposals :: t.proposals[d].target == n) || n in t.routing.Values
  }

  /** After a rename no column anywhere, history included, still says the old name. */
  lemma MoveLeavesNoTrace(t: Tables, previous: Name, name: Name)
    requires previous != name
    ensures !Mentions(Moved(t, previous, name), previous)
  {
    var after := Moved(t, previous, name);
    assert forall n: Name :: To(previous, name, n) != previous;
    assert forall f | f in after.folders :: after.folders[f] != Some(previous);
  }

  lemma MoveBackColumns<K>(column: map<K, Name>, previous: Name, name: Name)
    requires name !in column.Values
    ensures MovedColumn(MovedColumn(column, previous, name), name, previous) == column
  {
    assert forall k | k in column :: column[k] in column.Values;
  }

  lemma MoveBackNames(t: Tables, previous: Name, name: Name)
    requires !Mentions(t, name)
    ensures var back := Moved(Moved(t, previous, name), name, previous);
      back.categories == t.categories && back.fallback == t.fallback && back.rules == t.rules &&
      back.retired == t.retired && back.routing == t.routing
  {
    MoveBackColumns(t.categories, previous, name);
    MoveBackColumns(t.rules, previous, name);
    MoveBackColumns(t.retired, previous, name);
    MoveBackColumns(t.routing, previous, name);
  }

  lemma MoveBackPins(t: Tables, previous: Name, name: Name)
    requires forall m | m in t.pins :: t.pins[m].target != name
    ensures Moved(Moved(t, previous, name), name, previous).pins == t.pins
  {
  }

  lemma MoveBackTests(t: Tables, previous: Name, name: Name)
    requires forall c | c in t.tests :: t.tests[c].expected != name && t.tests[c].actual != Some(name)
    ensures Moved(Moved(t, previous, name), name, previous).tests == t.tests
  {
  }

  lemma MoveBackProposals(t: Tables, previous: Name, name: Name)
    requires forall d | d in t.proposals :: t.proposals[d].target != name
    ensures Moved(Moved(t, previous, name), name, previous).proposals == t.proposals
  {
  }

  lemma MoveBackFolders(t: Tables, previous: Name, name: Name)
    requires Some(name) !in t.folders.Values
    ensures Moved(Moved(t, previous, name), name, previous).folders == t.folders
  {
    assert forall f | f in t.folders :: t.folders[f] in t.folders.Values;
  }

  /** And it loses nothing: renamed back from a name nothing else held, every table is as it was. */
  lemma MoveBack(t: Tables, previous: Name, name: Name)
    requires !Mentions(t, name)
    ensures Moved(Moved(t, previous, name), name, previous) == t
  {
    MoveBackNames(t, previous, name);
    MoveBackPins(t, previous, name);
    MoveBackTests(t, previous, name);
    MoveBackProposals(t, previous, name);
    MoveBackFolders(t, previous, name);
  }

  // ----- the other transactions on categories

  lemma CreateKeeps(t: Tables, spelling: Spelling, raw: string, isDefault: bool, owner: bool)
    requires Live(t)
    ensures Keeps(t, Create(t, spelling, raw, isDefault, owner).From(t))
  {
    var name := spelling.form(raw);
    if Create(t, spelling, raw, isDefault, owner).Done? {
      var after := Create(t, spelling, raw, isDefault, owner).tables;
      assert after.categories[t.next] == name;
      forall n | n in t.categories.Values ensures n in after.categories.Values {
        var i :| i in t.categories && t.categories[i] == n;
        assert after.categories[i] == n;
      }
      CreateCurrent(t, after);
    }
  }

  /** A new category takes no other's id. */
  lemma CreateCurrent(t: Tables, after: Tables)
    requires after.proposals == t.proposals && after.pins == t.pins
    requires forall i | i in t.categories :: i in after.categories && after.categories[i] == t.categories[i]
    ensures Current(t) ==> Current(after)
  {
    if Current(t) {
      forall d | d in after.proposals && after.proposals[d].live
        ensures InForce(after, after.proposals[d].title, after.proposals[d].under)
      {
        assert InForce(t, t.proposals[d].title, t.proposals[d].under);
      }
    }
  }

  lemma RenameKeeps(t: Tables, spelling: Spelling, id: Id, raw: string)
    requires Live(t)
    ensures Keeps(t, Rename(t, spelling, id, raw).From(t))
  {
    if Rename(t, spelling, id, raw).Done? && t.categories[id] != spelling.form(raw) {
      MoveKeeps(t, t.categories[id], spelling.form(raw));
    }
  }

  lemma RemoveKeeps(t: Tables, id: Id)
    requires Live(t)
    ensures Keeps(t, Remove(t, id).From(t))
  {
    if Remove(t, id).Done? {
      var after := Remove(t, id).tables;
      forall n | n in t.categories.Values && n != t.categories[id] ensures n in after.categories.Values {
        var i :| i in t.categories && t.categories[i] == n;
        assert after.categories[i] == n;
      }
      RemoveCurrent(t, id);
    }
  }

  /** No pin is to the category that goes. */
  lemma RemoveCurrent(t: Tables, id: Id)
    requires Remove(t, id).Done?
    ensures Current(t) ==> Current(Remove(t, id).tables)
  {
    if Current(t) {
      var after := Remove(t, id).tables;
      forall d | d in after.proposals && after.proposals[d].live
        ensures InForce(after, after.proposals[d].title, after.proposals[d].under)
      {
        assert InForce(t, t.proposals[d].title, t.proposals[d].under);
      }
    }
  }

  lemma WriteKeeps(t: Tables, slot: Slot, name: Name)
    requires Live(t)
    ensures Keeps(t, WriteGuarded(t, slot, name).From(t))
  {
    if name in t.categories.Values {
      WrittenNames(t, slot, name);
      StillCurrent(t, Written(t, slot, name));
    }
  }

  lemma WrittenNames(t: Tables, slot: Slot, name: Name)
    requires NamesAmong(t, t.categories.Values) && name in t.categories.Values
    ensures NamesAmong(Written(t, slot, name), t.categories.Values)
  {
    match slot {
      case Rule(_) =>
      case Mapping(_) =>
      case Expectation(_) =>
      case Fallback =>
    }
  }

  // ----- pins

  /** What pinning `titles` to `category` may leave of `t`: those pinned there, every other pin as it was. */
  ghost predicate PinnedAll(t: Tables, after: Tables, titles: set<string>, category: Name) {
    after == t.(pins := after.pins, next := after.next, issued := after.issued) &&
    after.pins.Keys == t.pins.Keys + titles &&
    (forall m | m in after.pins :: m in titles ==> after.pins[m].target == category) &&
    (forall m | m in after.pins :: m !in titles ==> after.pins[m] == t.pins[m])
  }

  /** No pin id was ever given to another title since. */
  ghost predicate IssuedGrew(t: Tables, after: Tables) {
    t.next <= after.next && forall i | i in t.issued :: i in after.issued && after.issued[i] == t.issued[i]
  }

  lemma PinOneShape(t: Tables, title: string, category: Name)
    ensures PinnedAll(t, PinOne(t, title, category), {title}, category)
  {
    var after := PinOne(t, title, category);
    if title in t.pins {
      assert after == t.(pins := t.pins[title := t.pins[title].(target := category)]);
    } else {
      assert after.pins == t.pins[title := Pin(t.next, category)];
    }
    assert after.pins.Keys == t.pins.Keys + {title};
  }

  lemma PinOneSupplied(t: Tables, title: string, category: Name)
    requires Supplied(t) && title in t.media
    ensures Supplied(PinOne(t, title, category)) && IssuedGrew(t, PinOne(t, title, category))
  {
    var after := PinOne(t, title, category);
    PinOneShape(t, title, category);
    if title !in t.pins {
      assert t.next !in t.issued;
      assert after.pins[title] == Pin(t.next, category) && after.issued == t.issued[t.next := title];
    } else {
      assert after.pins[title].id == t.pins[title].id && after.issued == t.issued && after.next == t.next;
    }
    forall m | m in after.pins ensures SuppliedPin(after, m) {
      assert m != title ==> SuppliedPin(t, m);
    }
  }

  ghost predicate SuppliedPin(t: Tables, m: string)
    requires m in t.pins
  {
    m in t.media && t.pins[m].id in t.issued && t.issued[t.pins[m].id] == m
  }

  lemma PinnedTwice(t: Tables, a: Tables, b: Tables, titles: set<string>, title: string, category: Name)
    requires PinnedAll(t, a, titles, category) && PinnedAll(a, b, {title}, category)
    ensures PinnedAll(t, b, titles + {title}, category)
  {
  }

  lemma {:induction false} PinAllShape(t: Tables, titles: seq<string>, category: Name)
    ensures PinnedAll(t, PinAll(t, titles, category), Among(titles), category)
    decreases |titles|
  {
    if titles != [] {
      var last := |titles| - 1;
      var before := PinAll(t, titles[..last], category);
      PinAllShape(t, titles[..last], category);
      PinOneShape(before, titles[last], category);
      PinnedTwice(t, before, PinOne(before, titles[last], category), Among(titles[..last]), titles[last], category);
      assert Among(titles) == Among(titles[..last]) + {titles[last]};
    }
  }

  lemma {:induction false} PinAllSupplied(t: Tables, titles: seq<string>, category: Name)
    requires Supplied(t) && forall m | m in titles :: m in t.media
    ensures Supplied(PinAll(t, titles, category)) && IssuedGrew(t, PinAll(t, titles, category))
    decreases |titles|
  {
    if titles != [] {
      var last := |titles| - 1;
      PinAllSupplied(t, titles[..last], category);
      PinAllShape(t, titles[..last], category);
      PinOneSupplied(PinAll(t, titles[..last], category), titles[last], category);
    }
  }

  /** Every live proposal of `t` outside `titles` stands under the pin of `after`, and so is current. */
  lemma SupersedeKeeps(t: Tables, after: Tables, titles: set<string>)
    requires after.proposals == t.proposals && after.categories == t.categories
    requires forall d | d in t.proposals && t.proposals[d].live && t.proposals[d].title !in titles ::
      SamePin(t, after, t.proposals[d].title)
    ensures Current(t) ==> Current(Supersede(after, titles))
  {
    if Current(t) {
      var superseded := Supersede(after, titles);
      forall d | d in superseded.proposals && superseded.proposals[d].live
        ensures InForce(superseded, superseded.proposals[d].title, superseded.proposals[d].under)
      {
        InForceStill(t, superseded, t.proposals[d].title, t.proposals[d].under);
      }
    }
  }

  lemma InForceStill(t: Tables, after: Tables, title: string, under: Option<Id>)
    requires InForce(t, title, under) && SamePin(t, after, title) && after.categories == t.categories
    ensures InForce(after, title, under)
  {
  }

  /** A proposal is as it was, but live only where the pin in force after is the one it was decided under. */
  ghost predicate StandsInForce(t: Tables, after: Tables, d: Id)
    requires d in t.proposals && d in after.proposals
  {
    var p := t.proposals[d];
    after.proposals[d] == p.(live := p.live && InForce(after, p.title, p.under))
  }

  /** Superseded are the live proposals whose title's category changed, and no other. */
  ghost predicate SupersededExactly(t: Tables, after: Tables) {
    after.proposals.Keys == t.proposals.Keys &&
    forall d | d in t.proposals :: d in after.proposals && StandsInForce(t, after, d)
  }

  lemma SupersedesExactly(t: Tables, after: Tables, titles: set<string>)
    requires Current(t) && after.proposals == t.proposals && after.categories == t.categories
    requires forall m :: m !in titles ==> SamePin(t, after, m)
    requires forall m | m in titles :: !SamePin(t, after, m)
    ensures SupersededExactly(t, Supersede(after, titles))
  {
    var superseded := Supersede(after, titles);
    forall d | d in t.proposals ensures d in superseded.proposals && StandsInForce(t, superseded, d) {
      var p := t.proposals[d];
      assert p.title in titles || SamePin(t, after, p.title);
      assert p.live ==> InForce(t, p.title, p.under);
    }
  }

  ghost predicate SamePin(t: Tables, after: Tables, title: string) {
    (title in t.pins <==> title in after.pins) &&
    (title in t.pins ==> t.pins[title].target == after.pins[title].target)
  }

  lemma PinInKeeps(t: Tables, titles: seq<string>, category: Name, reason: Option<string>)
    requires Live(t) && category in t.categories.Values
    ensures Keeps(t, PinIn(t, titles, category, reason).From(t))
  {
    if PinIn(t, titles, category, reason).Done? {
      var after := PinAll(t, titles, category);
      PinAllShape(t, titles, category);
      PinAllSupplied(t, titles, category);
      SupersedeKeeps(t, after, Repinned(t, titles, category));
      PinnedNames(t, after, Among(titles), category);
      SupersedeLive(after, Repinned(t, titles, category));
    }
  }

  /** Pinned to the category it has, a title keeps its proposals; to another, it keeps none. */
  lemma PinInSupersedes(t: Tables, titles: seq<string>, category: Name, reason: Option<string>)
    requires Current(t)
    ensures SupersededExactly(t, PinIn(t, titles, category, reason).From(t))
  {
    if PinIn(t, titles, category, reason).Done? {
      PinAllShape(t, titles, category);
      SupersedesExactly(t, PinAll(t, titles, category), Repinned(t, titles, category));
    } else {
      assert forall d | d in t.proposals :: StandsInForce(t, t, d);
    }
  }

  lemma PinInIssues(t: Tables, titles: seq<string>, category: Name, reason: Option<string>)
    requires Supplied(t)
    ensures IssuedGrew(t, PinIn(t, titles, category, reason).From(t))
  {
    if PinIn(t, titles, category, reason).Done? {
      PinAllSupplied(t, titles, category);
    }
  }

  lemma PinnedNames(t: Tables, after: Tables, titles: set<string>, category: Name)
    requires NamesAmong(t, t.categories.Values) && category in t.categories.Values
    requires PinnedAll(t, after, titles, category)
    ensures NamesAmong(after, t.categories.Values)
  {
  }

  /** `keep` pins to a category nobody checked: that it exists is what the invariant says of folders. */
  lemma KeepKeeps(t: Tables, title: string, reason: Option<string>)
    requires Live(t)
    ensures Keeps(t, Keep(t, title, reason).From(t))
  {
    if Keep(t, title, reason).Done? {
      var held := t.media[title];
      PinInKeeps(t, [title], FolderCategory(t, (held.instance, held.folder.value)).value, reason);
    }
  }

  lemma UnpinKeeps(t: Tables, copies: seq<string>)
    requires Live(t)
    ensures Keeps(t, UnpinExternal(t, copies))
  {
    var unpinned := set m | m in copies && m in t.pins;
    var after := t.(pins := t.pins - unpinned);
    FewerPinsLive(t, after);
    SupersedeKeeps(t, after, unpinned);
    SupersedeLive(after, unpinned);
  }

  lemma FewerPinsLive(t: Tables, after: Tables)
    requires Live(t) && after == t.(pins := after.pins)
    requires forall m | m in after.pins :: m in t.pins && after.pins[m] == t.pins[m]
    ensures Live(after)
  {
    forall m | m in after.pins ensures SuppliedPin(after, m) {
      assert SuppliedPin(t, m);
    }
  }

  lemma UnpinSupersedes(t: Tables, copies: seq<string>)
    requires Current(t)
    ensures SupersededExactly(t, UnpinExternal(t, copies))
  {
    var unpinned := set m | m in copies && m in t.pins;
    SupersedesExactly(t, t.(pins := t.pins - unpinned), unpinned);
  }

  /** Safe although `title` was read before: the id, if it still stands, is that title's. */
  lemma RemovePinKeeps(t: Tables, id: Id, title: string)
    requires Live(t) && id in t.issued && t.issued[id] == title
    ensures Keeps(t, RemovePin(t, id, title))
  {
    var after := t.(pins := map m | m in t.pins && t.pins[m].id != id :: t.pins[m]);
    FewerPinsLive(t, after);
    SupersedeKeeps(t, after, {title});
    SupersedeLive(after, {title});
  }

  /** Where the pin still stands: gone already, its title's proposals are superseded all the same. */
  lemma RemovePinSupersedes(t: Tables, id: Id, title: string)
    requires Valid(t) && title in t.pins && t.pins[title].id == id
    ensures SupersededExactly(t, RemovePin(t, id, title))
  {
    var after := t.(pins := map m | m in t.pins && t.pins[m].id != id :: t.pins[m]);
    forall m | m != title ensures SamePin(t, after, m) {
      assert m in t.pins ==> t.issued[t.pins[m].id] == m;
    }
    SupersedesExactly(t, after, {title});
  }

  // ----- a simulation

  lemma PinnedInForce(t: Tables, title: string)
    requires NamesAmong(t, t.categories.Values)
    ensures InForce(t, title, PinnedTo(t, title))
  {
    if title in t.pins {
      var i :| i in t.categories && t.categories[i] == t.pins[title].target;
      assert PinnedUnder(t, title, i);
    }
  }

  lemma {:induction false} ProposedKeeps(t: Tables, decided: seq<(string, Name)>)
    requires Live(t)
    ensures Keeps(t, Proposed(t, decided))
    ensures t.next <= Proposed(t, decided).next
    decreases |decided|
  {
    if decided != [] {
      var before := Proposed(t, decided[..|decided| - 1]);
      var (title, target) := decided[|decided| - 1];
      ProposedKeeps(t, decided[..|decided| - 1]);
      PinnedInForce(t, title);
      InForceStill(t, before, title, PinnedTo(t, title));
      ProposedOnce(before, title, target, PinnedTo(t, title));
    }
  }

  lemma ProposedOnce(t: Tables, title: string, target: Name, under: Option<Id>)
    requires Live(t) && InForce(t, title, under)
    ensures Keeps(t, Propose(t, title, target, under))
  {
    var after := Propose(t, title, target, under);
    forall m | m in after.pins ensures SuppliedPin(after, m) {
      assert SuppliedPin(t, m);
    }
    if Current(t) {
      forall d | d in after.proposals && after.proposals[d].live
        ensures InForce(after, after.proposals[d].title, after.proposals[d].under)
      {
        if d != t.next {
          assert InForce(t, t.proposals[d].title, t.proposals[d].under);
        }
      }
    }
  }

  lemma SupersedeLive(t: Tables, titles: set<string>)
    requires Live(t)
    ensures Live(Supersede(t, titles))
  {
  }

  lemma RoutingUnread(t: Tables, routing: map<string, Name>)
    requires Live(t)
    ensures Keeps(t, t.(routing := routing))
  {
    StillCurrent(t, t.(routing := routing));
  }

  lemma SimulateKeeps(t: Tables, verdicts: map<string, Name>, decided: seq<(string, Name)>)
    requires Live(t)
    ensures Keeps(t, Simulate(t, verdicts, decided))
  {
    var held := map m | m in verdicts && m in t.media :: verdicts[m];
    var superseded := Supersede(t, held.Keys);
    SupersedeKeeps(t, t, held.Keys);
    SupersedeLive(t, held.Keys);
    ProposedKeeps(superseded, decided);
    RoutingUnread(Proposed(superseded, decided), t.routing + held);
  }

  // ----- converging the names at a start

  ghost predicate Idempotent(form: string -> string) {
    forall n :: form(form(n)) == form(n)
  }

  ghost predicate Distinct(names: seq<Name>) {
    forall i, j | 0 <= i < j < |names| :: names[i] != names[j]
  }

  type Held = map<Id, Name>

  /** A category no further run would rename: in its stored form, or kept from it by another. */
  ghost predicate SettledAt(held: Held, form: string -> string, i: Id)
    requires i in held
  {
    form(held[i]) == held[i] || form(held[i]) in held.Values
  }

  ghost predicate Settled(held: Held, form: string -> string) {
    forall i | i in held :: SettledAt(held, form, i)
  }

  /** Half way: those of `names` are settled, in their stored form or as they were, the others untouched. */
  ghost predicate Converging(from: Held, held: Held, form: string -> string, names: set<Name>) {
    held.Keys == from.Keys && forall i | i in from :: ConvergingAt(from, held, form, names, i)
  }

  ghost predicate ConvergingAt(from: Held, held: Held, form: string -> string, names: set<Name>, i: Id)
    requires i in from && i in held
  {
    if from[i] in names then (held[i] == from[i] || held[i] == form(from[i])) && SettledAt(held, form, i)
    else held[i] == from[i]
  }

  lemma MoveKeepsSettled(held: Held, form: string -> string, previous: Name, i: Id)
    requires Idempotent(form) && i in held && SettledAt(held, form, i) && held[i] != previous
    requires form(previous) != previous
    ensures SettledAt(MovedColumn(held, previous, form(previous)), form, i)
  {
    assert form(form(held[i])) == form(held[i]);
    if form(held[i]) != held[i] {
      var j :| j in held && held[j] == form(held[i]);
      assert MovedColumn(held, previous, form(previous))[j] == form(held[i]);
    }
  }

  lemma ConvergeOne(from: Held, held: Held, form: string -> string, names: set<Name>, at: Id)
    requires Idempotent(form) && Converging(from, held, form, names) && at in from && from[at] !in names
    requires forall i, j | i in held && j in held && held[i] == held[j] :: i == j
    requires form(from[at]) != from[at] && form(from[at]) !in held.Values
    ensures Converging(from, MovedColumn(held, from[at], form(from[at])), form, names + {from[at]})
  {
    var previous := from[at];
    assert ConvergingAt(from, held, form, names, at);
    forall i | i in from
      ensures ConvergingAt(from, MovedColumn(held, previous, form(previous)), form, names + {previous}, i)
    {
      assert ConvergingAt(from, held, form, names, i);
      if i == at {
        assert form(form(previous)) == form(previous);
      } else if from[i] in names {
        MoveKeepsSettled(held, form, previous, i);
      }
    }
  }

  lemma {:induction false} ConvergedShape(t: Tables, form: string -> string, names: seq<Name>)
    requires Live(t) && Idempotent(form) && Distinct(names) && Among(names) <= t.categories.Values
    ensures Keeps(t, Converged(t, form, names))
    ensures Converging(t.categories, Converged(t, form, names).categories, form, Among(names))
    decreases |names|
  {
    if names != [] {
      var last := |names| - 1;
      var previous := names[last];
      var before := Converged(t, form, names[..last]);
      ConvergedShape(t, form, names[..last]);
      assert Among(names) == Among(names[..last]) + {previous};
      var at :| at in t.categories && t.categories[at] == previous;
      assert ConvergingAt(t.categories, before.categories, form, Among(names[..last]), at);
      assert previous !in names[..last];
      assert previous in before.categories.Values;
      if form(previous) != previous && form(previous) !in before.categories.Values {
        ConvergeOne(t.categories, before.categories, form, Among(names[..last]), at);
        MoveKeeps(before, previous, form(previous));
      } else {
        assert SettledAt(before.categories, form, at);
        forall i | i in t.categories
          ensures ConvergingAt(t.categories, before.categories, form, Among(names), i)
        {
          assert ConvergingAt(t.categories, before.categories, form, Among(names[..last]), i);
        }
      }
    }
  }

  /** A second run finds nothing to rename, whatever order it reads the names in. */
  lemma {:induction false} SettledStays(t: Tables, form: string -> string, names: seq<Name>)
    requires Settled(t.categories, form) && Among(names) <= t.categories.Values
    ensures Converged(t, form, names) == t
    decreases |names|
  {
    if names != [] {
      SettledStays(t, form, names[..|names| - 1]);
      assert names[|names| - 1] in t.categories.Values;
    }
  }

  /** One run over every name ends in a fixpoint, keeps each row, and gives it its name or its stored form. */
  lemma ConvergeIsAFixpoint(t: Tables, form: string -> string, names: seq<Name>, again: seq<Name>)
    requires Live(t) && Idempotent(form) && Distinct(names) && Among(names) == t.categories.Values
    requires Among(again) == Converged(t, form, names).categories.Values
    ensures var after := Converged(t, form, names);
      Keeps(t, after) && Settled(after.categories, form) && Converged(after, form, again) == after &&
      after.categories.Keys == t.categories.Keys &&
      forall i | i in t.categories :: after.categories[i] in {t.categories[i], form(t.categories[i])}
  {
    ConvergedShape(t, form, names);
    var after := Converged(t, form, names);
    forall i | i in t.categories
      ensures SettledAt(after.categories, form, i)
      ensures after.categories[i] in {t.categories[i], form(t.categories[i])}
    {
      assert t.categories[i] in Among(names);
      assert ConvergingAt(t.categories, after.categories, form, Among(names), i);
    }
    SettledStays(after, form, again);
  }

  lemma {:induction false} ConvergeIssues(t: Tables, form: string -> string, names: seq<Name>)
    ensures Converged(t, form, names).issued == t.issued && Converged(t, form, names).next == t.next
    decreases |names|
  {
    if names != [] {
      ConvergeIssues(t, form, names[..|names| - 1]);
    }
  }

  lemma {:induction false} ProposedIssues(t: Tables, decided: seq<(string, Name)>)
    ensures IssuedGrew(t, Proposed(t, decided))
    decreases |decided|
  {
    if decided != [] {
      ProposedIssues(t, decided[..|decided| - 1]);
    }
  }
}
