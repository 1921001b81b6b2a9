/**
 * Whole histories of the category tables: any transactions, in any order, syncs among them, which list,
 * retire and restore titles (backend/src/services/sync.rs).
 */
module CategoryHistory {
  import opened Options
  import opened CategoryTables
  import opened CategoryRuns
  import opened CategoryImport

  // ----- a sync retires the pins of titles that went, and restores those of titles that came back

  /** The pin a title leaves behind, by what names the title across syncs. */
  ghost predicate LeavesPin(t: Tables, titles: set<string>, m: string, w: Work) {
    m in titles && m in t.pins && m in t.media && t.media[m].Named() == Some(w)
  }

  ghost function RetiredBy(t: Tables, titles: set<string>): map<Work, Name> {
    var left := set m | m in titles && m in t.pins && m in t.media && t.media[m].Named().Some? ::
      t.media[m].Named().value;
    map w | w in left :: var m :| LeavesPin(t, titles, m, w); t.pins[m].target
  }

  ghost function Retire(t: Tables, titles: set<string>): Tables {
    Supersede(t, titles).(retired := t.retired + RetiredBy(t, titles), pins := t.pins - titles,
                          media := t.media - titles, routing := t.routing - titles)
  }

  ghost predicate ComesBack(t: Tables, instance: string, m: string) {
    m in t.media && m !in t.pins && t.media[m].Named().Some? && t.media[m].Named().value.0 == instance &&
    t.media[m].Named().value in t.retired && t.retired[t.media[m].Named().value] in t.categories.Values
  }

  ghost function Returned(t: Tables, instance: string): set<string> {
    set m | m in t.media && ComesBack(t, instance, m)
  }

  ghost function AnyOf(titles: set<string>): string
    requires titles != {}
  {
    var m :| m in titles; m
  }

  /** The pins given back, one new row each: no proposal is superseded. */
  ghost function GiveBack(t: Tables, titles: set<string>, retired: map<Work, Name>): Tables
    requires forall m | m in titles :: m in t.media && t.media[m].Named().Some? && t.media[m].Named().value in retired
    ensures GiveBack(t, titles, retired).media == t.media
  {
    if titles == {} then t
    else
      var m := AnyOf(titles);
      PinOne(GiveBack(t, titles - {m}, retired), m, retired[t.media[m].Named().value])
  }

  predicate Listed(media: map<string, Title>, w: Work) {
    exists m | m in media :: media[m].Named() == Some(w)
  }

  ghost function Restore(t: Tables, instance: string): Tables {
    GiveBack(t, Returned(t, instance), t.retired).(
      retired := map w | w in t.retired && !(w.0 == instance && Listed(t.media, w)) :: t.retired[w])
  }

  lemma RetireNames(t: Tables, titles: set<string>)
    requires NamesAmong(t, t.categories.Values)
    ensures NamesAmong(Retire(t, titles), t.categories.Values)
  {
    forall w | w in RetiredBy(t, titles) ensures RetiredBy(t, titles)[w] in t.categories.Values {
      var m :| LeavesPin(t, titles, m, w) && RetiredBy(t, titles)[w] == t.pins[m].target;
    }
  }

  lemma RetireKeeps(t: Tables, titles: set<string>)
    requires Live(t)
    ensures Keeps(t, Retire(t, titles))
  {
    var unpinned := t.(pins := t.pins - titles);
    RetireNames(t, titles);
    SupersedeKeeps(t, unpinned, titles);
    StillCurrent(Supersede(unpinned, titles), Retire(t, titles));
    assert Supplied(Retire(t, titles)) by {
      assert Supplied(Supersede(t, titles));
    }
  }

  /** What giving pins back leaves: exactly those titles newly pinned, each where it was retired from. */
  ghost predicate GivenBack(t: Tables, after: Tables, titles: set<string>, retired: map<Work, Name>) {
    after == t.(pins := after.pins, next := after.next, issued := after.issued) &&
    after.pins.Keys == t.pins.Keys + titles && (forall m | m in t.pins :: after.pins[m] == t.pins[m]) &&
    (forall m | m in titles && m in t.media && t.media[m].Named().Some? && t.media[m].Named().value in retired ::
      after.pins[m].target == retired[t.media[m].Named().value])
  }

  ghost predicate Returnable(t: Tables, titles: set<string>, retired: map<Work, Name>) {
    forall m | m in titles ::
      m !in t.pins && m in t.media && t.media[m].Named().Some? && t.media[m].Named().value in retired
  }

  lemma GivenBackOnce(
    t: Tables, before: Tables, after: Tables, titles: set<string>, m: string, retired: map<Work, Name>)
    requires Returnable(t, titles, retired) && m in titles
    requires GivenBack(t, before, titles - {m}, retired)
    requires PinnedAll(before, after, {m}, retired[t.media[m].Named().value])
    ensures GivenBack(t, after, titles, retired)
  {
  }

  lemma {:induction false} GiveBackShape(t: Tables, titles: set<string>, retired: map<Work, Name>)
    requires Supplied(t) && Returnable(t, titles, retired)
    ensures GivenBack(t, GiveBack(t, titles, retired), titles, retired)
    ensures Supplied(GiveBack(t, titles, retired)) && IssuedGrew(t, GiveBack(t, titles, retired))
    decreases |titles|
  {
    if titles != {} {
      var m := AnyOf(titles);
      var before, category := GiveBack(t, titles - {m}, retired), retired[t.media[m].Named().value];
      GiveBackShape(t, titles - {m}, retired);
      PinOneShape(before, m, category);
      PinOneSupplied(before, m, category);
      GivenBackOnce(t, before, PinOne(before, m, category), titles, m, retired);
    }
  }

  /** A restored pin names a category that exists: names stay live through every sync. */
  lemma RestoreKeepsNames(t: Tables, instance: string)
    requires Live(t)
    ensures Live(Restore(t, instance))
  {
    GiveBackShape(t, Returned(t, instance), t.retired);
    var back := GiveBack(t, Returned(t, instance), t.retired);
    assert forall m | m in Returned(t, instance) :: back.pins[m].target in t.categories.Values;
    assert NamesAmong(back, t.categories.Values);
    assert Restore(t, instance) == back.(retired := Restore(t, instance).retired);
  }

  /** A title about to be given its pin back has a live proposal, decided while it had none. */
  ghost predicate Awaited(t: Tables, instance: string) {
    exists d | d in t.proposals :: t.proposals[d].live && t.proposals[d].title in Returned(t, instance)
  }

  /** Given back a pin, a title's live proposals are no more in force, and no other title's change. */
  lemma RestoredInForce(t: Tables, instance: string, d: Id)
    requires Valid(t) && d in t.proposals && t.proposals[d].live
    ensures InForce(Restore(t, instance), t.proposals[d].title, t.proposals[d].under) <==>
      t.proposals[d].title !in Returned(t, instance)
  {
    GiveBackShape(t, Returned(t, instance), t.retired);
    assert InForce(t, t.proposals[d].title, t.proposals[d].under);
  }

  /**
   * Restoring a pin supersedes nothing, so proposals stay current exactly when no title restored has
   * one live: a title listed before its external id was known, then given the id of one that went.
   */
  lemma RestoreKeepsProposalsUnlessAwaited(t: Tables, instance: string)
    requires Valid(t)
    ensures Valid(Restore(t, instance)) <==> !Awaited(t, instance)
  {
    var after := Restore(t, instance);
    RestoreKeepsNames(t, instance);
    GiveBackShape(t, Returned(t, instance), t.retired);
    assert after.proposals == t.proposals;
    forall d | d in t.proposals && t.proposals[d].live
      ensures InForce(after, t.proposals[d].title, t.proposals[d].under) <==>
        t.proposals[d].title !in Returned(t, instance)
    {
      RestoredInForce(t, instance, d);
    }
  }

  // ----- one sync, one transaction

  /**
   * A title the Arr lists, as it reads it. `newer`: its row was read again after this read began;
   * `moved`: a move landed since.
   */
  datatype Listing = Listing(
    title: string, kind: string, folder: Option<string>, external: Option<int>, newer: bool, moved: bool)

  /** The Arr's id now names another title: of another kind, or of another external id where both are known. */
  predicate IsReassigned(t: Tables, listing: Listing) {
    listing.title in t.media &&
    var held := t.media[listing.title];
    held.kind != listing.kind ||
    (held.external.Some? && listing.external.Some? && held.external != listing.external)
  }

  function Reassigned(t: Tables, listed: seq<Listing>): set<string> {
    set listing | listing in listed && IsReassigned(t, listing) :: listing.title
  }

  function UpsertedMedia(media: map<string, Title>, instance: string, listing: Listing): map<string, Title> {
    if listing.title !in media then
      media[listing.title := Title(instance, listing.kind, listing.folder, listing.external)]
    else if listing.newer then media
    else
      var held := media[listing.title];
      media[listing.title := held.(
        folder := if listing.moved then held.folder else listing.folder, external := listing.external)]
  }

  function UpsertedAll(media: map<string, Title>, instance: string, listed: seq<Listing>): map<string, Title> {
    if listed == [] then media
    else UpsertedMedia(UpsertedAll(media, instance, listed[..|listed| - 1]), instance, listed[|listed| - 1])
  }

  function Upserts(t: Tables, instance: string, listed: seq<Listing>): Tables {
    t.(media := UpsertedAll(t.media, instance, listed))
  }

  /** A folder listed keeps its category under its path, a new one has none, a stale one goes. */
  function SyncedFolders(folders: map<Folder, Option<Name>>, instance: string, paths: seq<string>, stale: set<Folder>)
    : map<Folder, Option<Name>>
  {
    var listed := set path | path in paths :: (instance, path);
    map f | f in folders.Keys - stale + listed :: if f in folders then folders[f] else None
  }

  datatype Sync = Sync(
    instance: string, paths: seq<string>, stale: set<Folder>, listed: seq<Listing>, gone: set<string>)

  /** A sync as far as the titles it lists: the tables its restore finds. */
  ghost function ListedBy(t: Tables, sync: Sync): Tables {
    var foldered := t.(folders := SyncedFolders(t.folders, sync.instance, sync.paths, sync.stale));
    Upserts(Retire(foldered, Reassigned(foldered, sync.listed)), sync.instance, sync.listed)
  }

  ghost function Synced(t: Tables, sync: Sync): Tables {
    Retire(Restore(ListedBy(t, sync), sync.instance), sync.gone)
  }

  /** Of a title, no more is asked than that it is listed. */
  lemma MediaKeep(t: Tables, media: map<string, Title>)
    requires Live(t) && t.media.Keys <= media.Keys
    ensures Keeps(t, t.(media := media))
  {
    var after := t.(media := media);
    forall m | m in after.pins ensures SuppliedPin(after, m) {
      assert SuppliedPin(t, m);
    }
    StillCurrent(t, after);
  }

  lemma {:induction false} NoneDropped(media: map<string, Title>, instance: string, listed: seq<Listing>)
    ensures media.Keys <= UpsertedAll(media, instance, listed).Keys
    decreases |listed|
  {
    if listed != [] {
      NoneDropped(media, instance, listed[..|listed| - 1]);
    }
  }

  lemma UpsertsKeep(t: Tables, instance: string, listed: seq<Listing>)
    requires Live(t)
    ensures Keeps(t, Upserts(t, instance, listed)) && IssuedGrew(t, Upserts(t, instance, listed))
  {
    NoneDropped(t.media, instance, listed);
    MediaKeep(t, UpsertedAll(t.media, instance, listed));
  }

  lemma ListedByKeeps(t: Tables, sync: Sync)
    requires Live(t)
    ensures Keeps(t, ListedBy(t, sync)) && IssuedGrew(t, ListedBy(t, sync))
  {
    var folders := SyncedFolders(t.folders, sync.instance, sync.paths, sync.stale);
    var foldered := t.(folders := folders);
    FoldersKeep(t, folders);
    RetireKeeps(foldered, Reassigned(foldered, sync.listed));
    UpsertsKeep(Retire(foldered, Reassigned(foldered, sync.listed)), sync.instance, sync.listed);
  }

  /** A title this sync gives its pin back, and does not retire, has a live proposal. */
  ghost predicate AwaitedBy(t: Tables, sync: Sync) {
    var listed := ListedBy(t, sync);
    exists d | d in listed.proposals :: listed.proposals[d].live &&
      listed.proposals[d].title in Returned(listed, sync.instance) - sync.gone
  }

  lemma SyncKeepsNames(t: Tables, sync: Sync)
    requires Live(t)
    ensures Live(Synced(t, sync)) && IssuedGrew(t, Synced(t, sync))
  {
    var listed := ListedBy(t, sync);
    ListedByKeeps(t, sync);
    RestoreKeepsNames(listed, sync.instance);
    GiveBackShape(listed, Returned(listed, sync.instance), listed.retired);
    RetireKeeps(Restore(listed, sync.instance), sync.gone);
  }

  /** A title retired takes its proposals along, so those of the others alone decide. */
  ghost predicate RetiredAt(t: Tables, after: Tables, gone: set<string>, d: Id)
    requires d in t.proposals && d in after.proposals
  {
    var p := t.proposals[d];
    after.proposals[d] == p.(live := p.live && p.title !in gone) &&
    (p.title !in gone ==> (InForce(after, p.title, p.under) <==> InForce(t, p.title, p.under)))
  }

  lemma RetiredInForce(t: Tables, gone: set<string>, d: Id)
    requires d in t.proposals
    ensures d in Retire(t, gone).proposals && RetiredAt(t, Retire(t, gone), gone, d)
  {
  }

  lemma SyncKeepsProposalsUnlessAwaited(t: Tables, sync: Sync)
    requires Valid(t)
    ensures Valid(Synced(t, sync)) <==> !AwaitedBy(t, sync)
  {
    ListedByKeeps(t, sync);
    SyncKeepsNames(t, sync);
    RestoredThenRetired(ListedBy(t, sync), sync.instance, sync.gone);
  }

  /** Restored and then retired, a proposal of `t` is live and in force as those two leave it. */
  lemma RestoredThenRetiredAt(t: Tables, instance: string, gone: set<string>, d: Id)
    requires Valid(t) && d in t.proposals
    ensures var p, after := t.proposals[d], Retire(Restore(t, instance), gone);
      d in after.proposals && after.proposals[d] == p.(live := p.live && p.title !in gone) &&
      (after.proposals[d].live ==> (InForce(after, p.title, p.under) <==> p.title !in Returned(t, instance)))
  {
    GiveBackShape(t, Returned(t, instance), t.retired);
    RetiredInForce(Restore(t, instance), gone, d);
    if t.proposals[d].live {
      RestoredInForce(t, instance, d);
    }
  }

  lemma RestoredThenRetired(t: Tables, instance: string, gone: set<string>)
    requires Valid(t)
    ensures Current(Retire(Restore(t, instance), gone)) <==>
      !exists d | d in t.proposals :: t.proposals[d].live && t.proposals[d].title in Returned(t, instance) - gone
  {
    var after := Retire(Restore(t, instance), gone);
    GiveBackShape(t, Returned(t, instance), t.retired);
    assert after.proposals.Keys == t.proposals.Keys;
    forall d | d in t.proposals
      ensures after.proposals[d].live ==> (
        InForce(after, after.proposals[d].title, after.proposals[d].under) <==>
        t.proposals[d].title !in Returned(t, instance))
      ensures after.proposals[d].live <==> t.proposals[d].live && t.proposals[d].title !in gone
    {
      RestoredThenRetiredAt(t, instance, gone, d);
    }
  }

  // ----- the writes that only take away, or touch no name

  /** Rules, declared folders and test cases deleted. */
  function Delete(t: Tables, rules: set<Id>, folders: set<Folder>, tests: set<Id>): Tables {
    t.(rules := t.rules - rules, folders := t.folders - folders, tests := t.tests - tests)
  }

  /** Decisions that leave `pending`: sent, applied, failed, or replaced by one that was. */
  function Settled(proposals: map<Id, Proposal>, settled: set<Id>): map<Id, Proposal> {
    map d | d in proposals :: proposals[d].(live := proposals[d].live && d !in settled)
  }

  function MovedTo(media: map<string, Title>, title: string, folder: Option<string>): map<string, Title> {
    if title in media then media[title := media[title].(folder := folder)] else media
  }

  /** An instance goes with its folders, its titles and the pins of theirs, those retired too. */
  function RemoveInstance(t: Tables, instance: string): Tables {
    var titles := set m | m in t.media && t.media[m].instance == instance;
    Supersede(t.(pins := t.pins - titles), titles).(
      media := t.media - titles, routing := t.routing - titles,
      folders := map f | f in t.folders && f.0 != instance :: t.folders[f],
      retired := map w | w in t.retired && w.0 != instance :: t.retired[w])
  }

  lemma DeleteKeeps(t: Tables, rules: set<Id>, folders: set<Folder>, tests: set<Id>)
    requires Live(t)
    ensures Keeps(t, Delete(t, rules, folders, tests))
  {
    StillCurrent(t, Delete(t, rules, folders, tests));
  }

  /** Fewer proposals are live, and those as they were. */
  lemma FewerKeep(t: Tables, proposals: map<Id, Proposal>)
    requires Live(t) && proposals.Keys <= t.proposals.Keys
    requires forall d | d in proposals && proposals[d].live :: proposals[d] == t.proposals[d]
    ensures Keeps(t, t.(proposals := proposals))
  {
    var after := t.(proposals := proposals);
    forall m | m in after.pins ensures SuppliedPin(after, m) {
      assert SuppliedPin(t, m);
    }
    if Current(t) {
      forall d | d in proposals && proposals[d].live ensures InForce(after, proposals[d].title, proposals[d].under) {
        assert InForce(t, t.proposals[d].title, t.proposals[d].under);
      }
    }
  }

  lemma RemoveInstanceKeeps(t: Tables, instance: string)
    requires Live(t)
    ensures Keeps(t, RemoveInstance(t, instance))
  {
    var titles := set m | m in t.media && t.media[m].instance == instance;
    var unpinned := t.(pins := t.pins - titles);
    FewerPinsLive(t, unpinned);
    SupersedeKeeps(t, unpinned, titles);
    SupersedeLive(unpinned, titles);
    StillCurrent(Supersede(unpinned, titles), RemoveInstance(t, instance));
    RemoveInstanceLive(Supersede(unpinned, titles), RemoveInstance(t, instance), titles);
  }

  lemma RemoveInstanceLive(t: Tables, after: Tables, titles: set<string>)
    requires Live(t) && t.pins.Keys !! titles
    requires after == t.(media := t.media - titles, routing := after.routing, folders := after.folders,
                         retired := after.retired)
    requires forall f | f in after.folders :: f in t.folders && after.folders[f] == t.folders[f]
    requires forall w | w in after.retired :: w in t.retired && after.retired[w] == t.retired[w]
    ensures Live(after)
  {
    forall m | m in after.pins ensures SuppliedPin(after, m) {
      assert SuppliedPin(t, m);
    }
  }

  // ----- histories

  datatype CategoryWrite =
    | DoCreate(raw: string, isDefault: bool, owner: bool)
    | DoRename(id: Id, raw: string)
    | DoRemove(id: Id)
    | DoConverge(names: seq<Name>)
    | DoWrite(slot: Slot, name: Name)
    | DoImport(bundle: Bundle)

  datatype PinWrite =
    | DoPin(titles: seq<string>, raw: string, reason: Option<string>)
    | DoKeep(title: string, reason: Option<string>)
    | DoUnpin(copies: seq<string>)
    | DoRemovePin(id: Id, title: string)
    | DoSimulate(verdicts: map<string, Name>, decided: seq<(string, Name)>)

  /** A path declared or its mapping cleared, a move recorded, decisions past their retention: rows of other tables. */
  datatype RowWrite =
    | DoUnmap(folder: Folder)
    | DoDelete(rules: set<Id>, folders: set<Folder>, tests: set<Id>)
    | DoSettle(settled: set<Id>)
    | DoForget(forgotten: set<Id>)
    | DoRetire(gone: set<string>)
    | DoMove(title: string, to: Option<string>)
    | DoRemoveInstance(instance: string)

  datatype Transaction =
    | OnCategories(category: CategoryWrite)
    | OnPins(pin: PinWrite)
    | OnRows(row: RowWrite)
    | DoSync(sync: Sync)

  /** A removal's title is the one its pin id had when it was read, at any time before. */
  ghost predicate GivenPin(t: Tables, tx: PinWrite) {
    tx.DoRemovePin? ==> tx.id in t.issued && t.issued[tx.id] == tx.title
  }

  /** A start converges the names it has just read. */
  ghost predicate GivenCategory(t: Tables, tx: CategoryWrite) {
    tx.DoConverge? ==> Distinct(tx.names) && Among(tx.names) <= t.categories.Values
  }

  /** What a transaction was given that it does not check. */
  ghost predicate Given(t: Tables, tx: Transaction) {
    match tx
    case OnCategories(category) => GivenCategory(t, category)
    case OnPins(pin) => GivenPin(t, pin)
    case _ => true
  }

  function ApplyCategory(t: Tables, spelling: Spelling, tx: CategoryWrite): Tables {
    match tx
    case DoCreate(raw, isDefault, owner) => Create(t, spelling, raw, isDefault, owner).From(t)
    case DoRename(id, raw) => Rename(t, spelling, id, raw).From(t)
    case DoRemove(id) => Remove(t, id).From(t)
    case DoConverge(names) => Converged(t, spelling.form, names)
    case DoWrite(slot, name) => WriteGuarded(t, slot, name).From(t)
    case DoImport(bundle) => Import(t, spelling, bundle).From(t)
  }

  ghost function ApplyPin(t: Tables, spelling: Spelling, tx: PinWrite): Tables {
    match tx
    case DoPin(titles, raw, reason) => PinTo(t, spelling, titles, raw, reason).From(t)
    case DoKeep(title, reason) => Keep(t, title, reason).From(t)
    case DoUnpin(copies) => UnpinExternal(t, copies)
    case DoRemovePin(id, title) => RemovePin(t, id, title)
    case DoSimulate(verdicts, decided) => Simulate(t, verdicts, decided)
  }

  ghost function ApplyRow(t: Tables, tx: RowWrite): Tables {
    match tx
    case DoUnmap(folder) => t.(folders := t.folders[folder := None])
    case DoDelete(rules, folders, tests) => Delete(t, rules, folders, tests)
    case DoSettle(settled) => t.(proposals := Settled(t.proposals, settled))
    case DoForget(forgotten) => t.(proposals := t.proposals - forgotten)
    case DoRetire(gone) => Retire(t, gone)
    case DoMove(title, to) => t.(media := MovedTo(t.media, title, to))
    case DoRemoveInstance(instance) => RemoveInstance(t, instance)
  }

  ghost function Apply(t: Tables, spelling: Spelling, tx: Transaction): Tables {
    match tx
    case OnCategories(category) => ApplyCategory(t, spelling, category)
    case OnPins(pin) => ApplyPin(t, spelling, pin)
    case OnRows(row) => ApplyRow(t, row)
    case DoSync(sync) => Synced(t, sync)
  }

  lemma CategoriesKept(t: Tables, spelling: Spelling, tx: CategoryWrite)
    requires Live(t) && GivenCategory(t, tx) && Idempotent(spelling.form)
    ensures Keeps(t, ApplyCategory(t, spelling, tx))
  {
    match tx {
      case DoCreate(raw, isDefault, owner) => CreateKeeps(t, spelling, raw, isDefault, owner);
      case DoRename(id, raw) => RenameKeeps(t, spelling, id, raw);
      case DoRemove(id) => RemoveKeeps(t, id);
      case DoConverge(names) => ConvergedShape(t, spelling.form, names);
      case DoWrite(slot, name) => WriteKeeps(t, slot, name);
      case DoImport(bundle) => ImportKeeps(t, spelling, bundle);
    }
  }

  lemma PinsKept(t: Tables, spelling: Spelling, tx: PinWrite)
    requires Live(t) && GivenPin(t, tx)
    ensures Keeps(t, ApplyPin(t, spelling, tx))
  {
    match tx {
      case DoPin(titles, raw, reason) =>
        if spelling.form(raw) in t.categories.Values {
          PinInKeeps(t, titles, spelling.form(raw), reason);
        }
      case DoKeep(title, reason) => KeepKeeps(t, title, reason);
      case DoUnpin(copies) => UnpinKeeps(t, copies);
      case DoRemovePin(id, title) => RemovePinKeeps(t, id, title);
      case DoSimulate(verdicts, decided) => SimulateKeeps(t, verdicts, decided);
    }
  }

  lemma RowsKept(t: Tables, tx: RowWrite)
    requires Live(t)
    ensures Keeps(t, ApplyRow(t, tx))
  {
    match tx {
      case DoUnmap(folder) => FoldersKeep(t, t.folders[folder := None]);
      case DoDelete(rules, folders, tests) => DeleteKeeps(t, rules, folders, tests);
      case DoSettle(settled) => FewerKeep(t, Settled(t.proposals, settled));
      case DoForget(forgotten) => FewerKeep(t, t.proposals - forgotten);
      case DoRetire(gone) => RetireKeeps(t, gone);
      case DoMove(title, to) => MediaKeep(t, MovedTo(t.media, title, to));
      case DoRemoveInstance(instance) => RemoveInstanceKeeps(t, instance);
    }
  }

  /** Every transaction keeps names live; all but a sync keep proposals current whatever they find. */
  lemma ApplyKeepsNames(t: Tables, spelling: Spelling, tx: Transaction)
    requires Live(t) && Given(t, tx) && Idempotent(spelling.form)
    ensures Live(Apply(t, spelling, tx))
    ensures !tx.DoSync? ==> Keeps(t, Apply(t, spelling, tx))
  {
    match tx {
      case OnCategories(category) => CategoriesKept(t, spelling, category);
      case OnPins(pin) => PinsKept(t, spelling, pin);
      case OnRows(row) => RowsKept(t, row);
      case DoSync(sync) => SyncKeepsNames(t, sync);
    }
  }

  ghost predicate Awaits(t: Tables, tx: Transaction) {
    tx.DoSync? && AwaitedBy(t, tx.sync)
  }

  /** The one transaction that may leave a proposal behind is the sync that restores an awaited title. */
  lemma ApplyKeeps(t: Tables, spelling: Spelling, tx: Transaction)
    requires Valid(t) && Given(t, tx) && Idempotent(spelling.form)
    ensures Valid(Apply(t, spelling, tx)) <==> !Awaits(t, tx)
  {
    match tx {
      case DoSync(sync) => SyncKeepsProposalsUnlessAwaited(t, sync);
      case _ => ApplyKeepsNames(t, spelling, tx);
    }
  }

  /** The tables between the transactions of `history`, each given what it does not check. */
  ghost predicate Run(states: seq<Tables>, spelling: Spelling, history: seq<Transaction>) {
    |states| == |history| + 1 && forall i | 0 <= i < |history| :: StepAt(states, spelling, history, i)
  }

  ghost predicate StepAt(states: seq<Tables>, spelling: Spelling, history: seq<Transaction>, i: nat)
    requires i < |history| && i + 1 < |states|
  {
    Steps(states[i], spelling, history[i], states[i + 1])
  }

  ghost predicate Steps(t: Tables, spelling: Spelling, tx: Transaction, after: Tables) {
    Given(t, tx) && after == Apply(t, spelling, tx)
  }

  ghost predicate Onward<S(!new)>(states: seq<S>, kept: S -> bool, k: nat)
    requires k + 1 < |states|
  {
    kept(states[k]) ==> kept(states[k + 1])
  }

  /** What each step keeps holds from wherever it held. */
  lemma {:induction false} Along<S(!new)>(states: seq<S>, kept: S -> bool, i: nat, j: nat)
    requires i <= j < |states| && kept(states[i])
    requires forall k: nat | i <= k < j :: Onward(states, kept, k)
    ensures kept(states[j])
    decreases j
  {
    if i < j {
      Along(states, kept, i, j - 1);
      assert Onward(states, kept, j - 1);
    }
  }

  lemma StepsKeepNames(t: Tables, spelling: Spelling, tx: Transaction, after: Tables)
    requires Steps(t, spelling, tx, after) && Live(t) && Idempotent(spelling.form)
    ensures Live(after)
  {
    ApplyKeepsNames(t, spelling, tx);
  }

  lemma StepAtKeepsNames(states: seq<Tables>, spelling: Spelling, history: seq<Transaction>, i: nat)
    requires i < |history| && i + 1 < |states| && StepAt(states, spelling, history, i)
    requires Live(states[i]) && Idempotent(spelling.form)
    ensures Live(states[i + 1])
  {
    StepsKeepNames(states[i], spelling, history[i], states[i + 1]);
  }

  /** All along every history, syncs that restore awaited titles among it, each name names a category. */
  lemma NamesStayLive(states: seq<Tables>, spelling: Spelling, history: seq<Transaction>, i: nat)
    requires Run(states, spelling, history) && Live(states[0]) && Idempotent(spelling.form) && i <= |history|
    ensures Live(states[i])
  {
    var kept := (t: Tables) => Live(t);
    forall k: nat | k < i ensures Onward(states, kept, k) {
      if Live(states[k]) {
        StepAtKeepsNames(states, spelling, history, k);
      }
    }
    Along(states, kept, 0, i);
  }

  lemma StepAtKeeps(states: seq<Tables>, spelling: Spelling, history: seq<Transaction>, i: nat)
    requires i < |history| && i + 1 < |states| && StepAt(states, spelling, history, i)
    requires Valid(states[i]) && Idempotent(spelling.form) && !Awaits(states[i], history[i])
    ensures Valid(states[i + 1])
  {
    ApplyKeeps(states[i], spelling, history[i]);
  }

  /** No sync before the `i`-th transaction restores an awaited title. */
  ghost predicate Unawaited(states: seq<Tables>, history: seq<Transaction>, i: nat)
    requires |states| == |history| + 1 && i <= |history|
  {
    forall k | 0 <= k < i :: !Awaits(states[k], history[k])
  }

  /** And as long as no sync restores an awaited title, each live proposal stands under the pin in force. */
  lemma HistoryKeeps(states: seq<Tables>, spelling: Spelling, history: seq<Transaction>, i: nat)
    requires Run(states, spelling, history) && Valid(states[0]) && Idempotent(spelling.form) && i <= |history|
    requires Unawaited(states, history, i)
    ensures Valid(states[i])
  {
    var kept := (t: Tables) => Valid(t);
    forall k: nat | k < i ensures Onward(states, kept, k) {
      if Valid(states[k]) {
        StepAtKeeps(states, spelling, history, k);
      }
    }
    Along(states, kept, 0, i);
  }

  lemma CategoriesIssue(t: Tables, spelling: Spelling, tx: CategoryWrite)
    requires Live(t)
    ensures IssuedGrew(t, ApplyCategory(t, spelling, tx))
  {
    match tx {
      case DoConverge(names) => ConvergeIssues(t, spelling.form, names);
      case DoImport(bundle) => ImportKeeps(t, spelling, bundle);
      case DoCreate(raw, isDefault, owner) => CreateIssues(t, spelling, raw, isDefault, owner);
      case DoRename(id, raw) => RenameIssues(t, spelling, id, raw);
      case DoRemove(id) => RemoveIssues(t, id);
      case DoWrite(slot, name) => WriteIssues(t, slot, name);
    }
  }

  lemma PinsIssue(t: Tables, spelling: Spelling, tx: PinWrite)
    requires Live(t)
    ensures IssuedGrew(t, ApplyPin(t, spelling, tx))
  {
    match tx {
      case DoPin(titles, raw, reason) => PinInIssues(t, titles, spelling.form(raw), reason);
      case DoKeep(title, reason) => KeepIssues(t, title, reason);
      case DoSimulate(verdicts, decided) => SimulateIssues(t, verdicts, decided);
      case DoUnpin(copies) => assert UnpinExternal(t, copies).issued == t.issued;
      case DoRemovePin(id, title) => assert RemovePin(t, id, title).issued == t.issued;
    }
  }

  lemma RowsIssue(t: Tables, tx: RowWrite)
    requires Live(t)
    ensures IssuedGrew(t, ApplyRow(t, tx))
  {
    assert ApplyRow(t, tx).issued == t.issued && ApplyRow(t, tx).next == t.next;
  }

  lemma ApplyIssues(t: Tables, spelling: Spelling, tx: Transaction)
    requires Live(t)
    ensures IssuedGrew(t, Apply(t, spelling, tx))
  {
    match tx {
      case OnCategories(category) => CategoriesIssue(t, spelling, category);
      case OnPins(pin) => PinsIssue(t, spelling, pin);
      case OnRows(row) => RowsIssue(t, row);
      case DoSync(sync) => SyncKeepsNames(t, sync);
    }
  }

  lemma KeepIssues(t: Tables, title: string, reason: Option<string>)
    requires Supplied(t)
    ensures IssuedGrew(t, Keep(t, title, reason).From(t))
  {
    if Keep(t, title, reason).Done? {
      var held := t.media[title];
      PinInIssues(t, [title], FolderCategory(t, (held.instance, held.folder.value)).value, reason);
    }
  }

  lemma SimulateIssues(t: Tables, verdicts: map<string, Name>, decided: seq<(string, Name)>)
    requires Live(t)
    ensures IssuedGrew(t, Simulate(t, verdicts, decided))
  {
    var held := map m | m in verdicts && m in t.media :: verdicts[m];
    var superseded := Supersede(t, held.Keys);
    ProposedIssues(superseded, decided);
    assert superseded.issued == t.issued && superseded.next == t.next;
    RoutingIssues(Proposed(superseded, decided), t.routing + held);
    GrewFurther(t, superseded, Proposed(superseded, decided));
    GrewFurther(t, Proposed(superseded, decided), Simulate(t, verdicts, decided));
  }

  lemma RoutingIssues(t: Tables, routing: map<string, Name>)
    ensures IssuedGrew(t, t.(routing := routing))
  {
    assert t.(routing := routing).issued == t.issued && t.(routing := routing).next == t.next;
  }

  lemma CreateIssues(t: Tables, spelling: Spelling, raw: string, isDefault: bool, owner: bool)
    ensures IssuedGrew(t, Create(t, spelling, raw, isDefault, owner).From(t))
  {
    assert Create(t, spelling, raw, isDefault, owner).From(t).issued == t.issued;
  }

  lemma RenameIssues(t: Tables, spelling: Spelling, id: Id, raw: string)
    ensures IssuedGrew(t, Rename(t, spelling, id, raw).From(t))
  {
    assert Rename(t, spelling, id, raw).From(t).issued == t.issued;
  }

  lemma RemoveIssues(t: Tables, id: Id)
    ensures IssuedGrew(t, Remove(t, id).From(t))
  {
    assert Remove(t, id).From(t).issued == t.issued;
  }

  lemma WriteIssues(t: Tables, slot: Slot, name: Name)
    ensures IssuedGrew(t, WriteGuarded(t, slot, name).From(t))
  {
    assert Written(t, slot, name).issued == t.issued && Written(t, slot, name).next == t.next;
  }

  /** A pin's id read at any time still names the title it was read with, whatever ran meanwhile. */
  lemma ReadStaysGiven(
    states: seq<Tables>, spelling: Spelling, history: seq<Transaction>, i: nat, j: nat, title: string)
    requires Run(states, spelling, history) && Live(states[0]) && Idempotent(spelling.form)
    requires i <= j <= |history| && title in states[i].pins
    ensures Given(states[j], OnPins(DoRemovePin(states[i].pins[title].id, title)))
  {
    NamesStayLive(states, spelling, history, i);
    HistoryIssues(states, spelling, history, i, j);
  }

  lemma StepsIssue(t: Tables, spelling: Spelling, tx: Transaction, after: Tables)
    requires Steps(t, spelling, tx, after) && Live(t)
    ensures IssuedGrew(t, after)
  {
    ApplyIssues(t, spelling, tx);
  }

  lemma StepAtIssues(states: seq<Tables>, spelling: Spelling, history: seq<Transaction>, i: nat)
    requires i < |history| && i + 1 < |states| && StepAt(states, spelling, history, i) && Live(states[i])
    ensures IssuedGrew(states[i], states[i + 1])
  {
    StepsIssue(states[i], spelling, history[i], states[i + 1]);
  }

  lemma GrewFurther(a: Tables, b: Tables, c: Tables)
    requires IssuedGrew(a, b) && IssuedGrew(b, c)
    ensures IssuedGrew(a, c)
  {
  }

  lemma HistoryIssues(states: seq<Tables>, spelling: Spelling, history: seq<Transaction>, i: nat, j: nat)
    requires Run(states, spelling, history) && Live(states[0]) && Idempotent(spelling.form) && i <= j <= |history|
    ensures IssuedGrew(states[i], states[j])
  {
    var kept := (t: Tables) => IssuedGrew(states[i], t);
    forall k: nat | i <= k < j ensures Onward(states, kept, k) {
      NamesStayLive(states, spelling, history, k);
      StepAtIssues(states, spelling, history, k);
      if IssuedGrew(states[i], states[k]) {
        GrewFurther(states[i], states[k], states[k + 1]);
      }
    }
    Along(states, kept, i, j);
  }

  // ----- an awaited title, reached

  /** An installation with one category, and names stored as they are typed. */
  function Plain(): Spelling {
    Spelling((raw: string) => raw, (c: char) => true)
  }

  function Fresh(): Tables {
    Tables(map[0 := "anime"], "anime", map[], map[], map[], map[], map[], map[], map[], map[], 1, map[])
  }

  /** One title listed by an instance, under the external id `external`. */
  function OneListed(title: string, external: Option<int>): Sync {
    Sync("radarr", [], {}, [Listing(title, "movie", None, external, false, false)], {})
  }

  /** Nothing else is listed, and no title listed is one whose pin waits. */
  ghost predicate ListsAlone(t: Tables, title: string, external: Option<int>) {
    t.folders == map[] && t.media == map[] && t.pins == map[] &&
    forall w | w in t.retired :: external != Some(w.2)
  }

  lemma ListsOne(t: Tables, title: string, external: Option<int>)
    requires t.folders == map[]
    requires title in t.media ==> t.media[title].kind == "movie" && t.media[title].external.None?
    ensures ListedBy(t, OneListed(title, external)) ==
      t.(media := UpsertedMedia(t.media, "radarr", Listing(title, "movie", None, external, false, false)))
  {
    var sync := OneListed(title, external);
    var listing := Listing(title, "movie", None, external, false, false);
    assert SyncedFolders(t.folders, "radarr", [], {}) == t.folders;
    forall listing | listing in sync.listed ensures !IsReassigned(t, listing) {
    }
    assert Reassigned(t, sync.listed) == {};
    RetiresNone(t);
    assert sync.listed == [listing] && [listing][..0] == [];
    assert UpsertedAll(t.media, "radarr", []) == t.media;
  }

  lemma RetiresNone(t: Tables)
    ensures Retire(t, {}) == t
  {
    SupersedesNone(t);
    RetiredByNone(t);
    assert t.retired + map[] == t.retired && t.pins - {} == t.pins && t.media - {} == t.media;
  }

  lemma RetiredByNone(t: Tables)
    ensures RetiredBy(t, {}) == map[]
  {
    assert RetiredBy(t, {}).Keys == {};
  }

  lemma SupersedesNone(t: Tables)
    ensures Supersede(t, {}) == t
  {
    assert Supersede(t, {}).proposals == t.proposals;
  }

  lemma RestoresNone(t: Tables, instance: string)
    requires forall m, w | m in t.media && w in t.retired :: t.media[m].Named() != Some(w)
    ensures Restore(t, instance) == t
  {
    assert Returned(t, instance) == {};
    assert Restore(t, instance).retired == t.retired;
  }

  lemma SyncsOne(t: Tables, title: string, external: Option<int>)
    requires ListsAlone(t, title, external)
    ensures Synced(t, OneListed(title, external)) ==
      t.(media := map[title := Title("radarr", "movie", None, external)])
  {
    ListsOne(t, title, external);
    var listed := ListedBy(t, OneListed(title, external));
    RestoresNone(listed, "radarr");
    RetiresNone(listed);
  }

  function Last(states: seq<Tables>): Tables
    requires states != []
  {
    states[|states| - 1]
  }

  lemma RunThen(states: seq<Tables>, history: seq<Transaction>, tx: Transaction, after: Tables)
    requires Run(states, Plain(), history) && Steps(Last(states), Plain(), tx, after)
    ensures Run(states + [after], Plain(), history + [tx]) && Last(states + [after]) == after
  {
    var (longer, later) := (states + [after], history + [tx]);
    forall i | 0 <= i < |later| ensures StepAt(longer, Plain(), later, i) {
      if i < |history| {
        assert StepAt(states, Plain(), history, i);
      }
    }
  }

  /** What an installation runs through from its first day. */
  ghost predicate Lived(states: seq<Tables>, history: seq<Transaction>) {
    Run(states, Plain(), history) && states[0] == Fresh()
  }

  lemma ListsFirst() returns (states: seq<Tables>, history: seq<Transaction>)
    ensures Lived(states, history)
    ensures Last(states) == Fresh().(media := map["m1" := Title("radarr", "movie", None, Some(7))])
  {
    var tx := DoSync(OneListed("m1", Some(7)));
    SyncsOne(Fresh(), "m1", Some(7));
    RunThen([Fresh()], [], tx, Apply(Fresh(), Plain(), tx));
    states, history := [Fresh()] + [Apply(Fresh(), Plain(), tx)], [] + [tx];
  }

  lemma PinsFirst(before: seq<Tables>, past: seq<Transaction>) returns (states: seq<Tables>, history: seq<Transaction>)
    requires Lived(before, past)
    requires Last(before) == Fresh().(media := map["m1" := Title("radarr", "movie", None, Some(7))])
    ensures Lived(states, history) && PinnedM1(Last(states))
  {
    var tx := OnPins(DoPin(["m1"], "anime", None));
    PinsM1(Last(before));
    RunThen(before, past, tx, Apply(Last(before), Plain(), tx));
    states, history := before + [Apply(Last(before), Plain(), tx)], past + [tx];
  }

  lemma PinsM1(t: Tables)
    requires t == Fresh().(media := map["m1" := Title("radarr", "movie", None, Some(7))])
    ensures PinTo(t, Plain(), ["m1"], "anime", None).From(t) ==
      t.(pins := map["m1" := Pin(1, "anime")], issued := map[1 := "m1"], next := 2)
  {
    assert t.categories[0] in t.categories.Values;
    assert PinAll(t, [], "anime") == t && ["m1"][..0] == [];
    var all := PinAll(t, ["m1"], "anime");
    assert all == PinOne(t, "m1", "anime");
    assert Supersede(all, Repinned(t, ["m1"], "anime")).proposals == all.proposals;
  }

  /** One title pinned, then gone: its pin waits under the id it was listed by. */
  ghost predicate LeftBehind(t: Tables) {
    t.categories == map[0 := "anime"] && t.folders == map[] && t.media == map[] && t.pins == map[] &&
    t.retired == map[("radarr", "movie", 7) := "anime"] && t.proposals == map[]
  }

  lemma RetiresFirst(before: seq<Tables>, past: seq<Transaction>)
    returns (states: seq<Tables>, history: seq<Transaction>)
    requires Lived(before, past) && PinnedM1(Last(before))
    ensures Lived(states, history) && LeftBehind(Last(states))
  {
    var tx := OnRows(DoRetire({"m1"}));
    RetiresM1(Last(before));
    RunThen(before, past, tx, Apply(Last(before), Plain(), tx));
    states, history := before + [Apply(Last(before), Plain(), tx)], past + [tx];
  }

  ghost predicate PinnedM1(t: Tables) {
    t.categories == map[0 := "anime"] && t.folders == map[] && t.retired == map[] && t.proposals == map[] &&
    t.media == map["m1" := Title("radarr", "movie", None, Some(7))] && t.pins == map["m1" := Pin(1, "anime")]
  }

  lemma RetiresM1(t: Tables)
    requires PinnedM1(t)
    ensures LeftBehind(Retire(t, {"m1"}))
  {
    var w := ("radarr", "movie", 7);
    assert LeavesPin(t, {"m1"}, "m1", w);
    assert RetiredBy(t, {"m1"}) == map[w := "anime"];
  }

  lemma ListsSecond(before: seq<Tables>, past: seq<Transaction>)
    returns (states: seq<Tables>, history: seq<Transaction>)
    requires Lived(before, past) && LeftBehind(Last(before))
    ensures Lived(states, history)
    ensures Last(states) == Last(before).(media := map["m2" := Title("radarr", "movie", None, None)])
  {
    var tx := DoSync(OneListed("m2", None));
    SyncsOne(Last(before), "m2", None);
    RunThen(before, past, tx, Apply(Last(before), Plain(), tx));
    states, history := before + [Apply(Last(before), Plain(), tx)], past + [tx];
  }

  /** And another listed without an external id, the simulation's proposal for it pending. */
  ghost predicate Proposing(t: Tables) {
    t.categories == map[0 := "anime"] && t.folders == map[] && t.pins == map[] &&
    t.media == map["m2" := Title("radarr", "movie", None, None)] &&
    t.retired == map[("radarr", "movie", 7) := "anime"] &&
    exists d | d in t.proposals :: t.proposals[d].live && t.proposals[d].title == "m2"
  }

  lemma SimulatesSecond(waits: Tables, before: seq<Tables>, past: seq<Transaction>)
    returns (states: seq<Tables>, history: seq<Transaction>)
    requires Lived(before, past) && LeftBehind(waits) && Valid(Last(before))
    requires Last(before) == waits.(media := map["m2" := Title("radarr", "movie", None, None)])
    ensures Lived(states, history) && Proposing(Last(states)) && Valid(Last(states))
  {
    var tx, after := SimulatesM2(Last(before));
    RunThen(before, past, tx, after);
    states, history := before + [after], past + [tx];
  }

  lemma SimulatesM2(t: Tables) returns (tx: Transaction, after: Tables)
    requires t.categories == map[0 := "anime"] && t.folders == map[] && t.pins == map[]
    requires t.media == map["m2" := Title("radarr", "movie", None, None)]
    requires t.retired == map[("radarr", "movie", 7) := "anime"]
    requires Valid(t)
    ensures Steps(t, Plain(), tx, after) && Valid(after) && Proposing(after)
  {
    var verdicts, decided := map["m2" := "anime"], [("m2", "anime")];
    tx, after := OnPins(DoSimulate(verdicts, decided)), Simulate(t, verdicts, decided);
    SimulateKeeps(t, verdicts, decided);
    ProposesM2(t);
  }

  lemma ProposesM2(t: Tables)
    requires t.categories == map[0 := "anime"] && t.folders == map[] && t.pins == map[]
    requires t.media == map["m2" := Title("radarr", "movie", None, None)]
    requires t.retired == map[("radarr", "movie", 7) := "anime"]
    ensures Proposing(Simulate(t, map["m2" := "anime"], [("m2", "anime")]))
  {
    var decided := [("m2", "anime")];
    var held := map m | m in map["m2" := "anime"] && m in t.media :: map["m2" := "anime"][m];
    var superseded := Supersede(t, held.Keys);
    assert decided[..0] == [] && Proposed(superseded, []) == superseded;
    var after := Proposed(superseded, decided);
    assert after == Propose(superseded, "m2", "anime", PinnedTo(superseded, "m2"));
    assert after.proposals[superseded.next].live && after.proposals[superseded.next].title == "m2";
  }

  /**
   * Such a restore comes of an ordinary history: a title pinned and gone, another listed without an external
   * id and simulated, then listed again under the id of the first.
   */
  lemma RestoredUnderAnOldProposal() returns (states: seq<Tables>, history: seq<Transaction>, sync: Sync)
    ensures Run(states, Plain(), history) && states[0] == Fresh() && Valid(Fresh()) && Valid(Last(states))
    ensures Live(Synced(Last(states), sync)) && !Current(Synced(Last(states), sync))
  {
    FreshIsValid();
    states, history := ListsFirst();
    states, history := PinsFirst(states, history);
    states, history := RetiresFirst(states, history);
    var waits := Last(states);
    states, history := ListsSecond(states, history);
    NamesStayLive(states, Plain(), history, |history|);
    states, history := SimulatesSecond(waits, states, history);
    sync := OneListed("m2", Some(7));
    AwaitsM2(Last(states));
    SyncKeepsNames(Last(states), sync);
    SyncKeepsProposalsUnlessAwaited(Last(states), sync);
  }

  lemma FreshIsValid()
    ensures Valid(Fresh()) && Idempotent(Plain().form)
  {
    assert Fresh().categories[0] in Fresh().categories.Values;
  }

  lemma AwaitsM2(t: Tables)
    requires Proposing(t)
    ensures AwaitedBy(t, OneListed("m2", Some(7)))
  {
    ListsOne(t, "m2", Some(7));
    var listed := ListedBy(t, OneListed("m2", Some(7)));
    assert listed.media["m2"].Named() == Some(("radarr", "movie", 7));
    assert listed.categories[0] in listed.categories.Values;
    assert ComesBack(listed, "radarr", "m2");
    var d :| d in t.proposals && t.proposals[d].live && t.proposals[d].title == "m2";
    assert listed.proposals[d].title in Returned(listed, "radarr") - {};
  }
}
