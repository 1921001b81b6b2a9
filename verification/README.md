# Routarr, modelled and proved

Routarr moves films and series between the folders of Sonarr and Radarr, by rules its operator writes.
This project models the parts of it that keep promises over whole runs, and proves them:

- **The category tables** (`CategoryTables`, `CategoryRuns`, `CategoryImport`, `CategoryHistory`,
  `CategoryEffects`, `CategoryStore`). Rules, folders, pins, retired pins, test cases and the fallback name a category by
  text, with no foreign key. Each transaction is a function on the tables, of which the rows it leaves and the
  refusals it makes are proved one by one, and each handler a method on a database object too. All along every history of them, syncs that list, retire and restore titles included,
  each name still names a category. Each live proposal was decided under the pin in force as long as no sync
  gives a pin back to a title that has one, the only step that can break it.
- **The migration protocol** (`Migrations`). A start is the databases it commits and how it ends, so a stop
  is a prefix. Stopped after any commit and run again, a start ends as it would have; over starts of any
  builds of one growing list, each stopped anywhere, a start is refused exactly when a build with a longer list
  had reached its record.
- **The query builder** (`Conditions`). A search through LIKE finds exactly the texts the value stands in,
  and the text and the values of any calls keep exactly the rows every call asks for.
- **Sealed secrets** (`Secrets`). Over any number of starts that each carry the key last used, with secrets
  saved and removed in between, every secret opens to the text last saved, nothing is left to reseal, and no
  guard refuses such a start. Which rows may get any other start refused is an exact condition.
- **Connection admission** (`Listener`). Permits, shares and reserved places under every interleaving of
  accepting, admitting and dropping, a place given back in the two steps it is dropped in.
- **Deprecated calls** (`DeprecatedCalls`). The batching writer leaves the table storing call by call leaves,
  and where it would not is an exact condition. Which answered flushes find their calls stored is another.
- **The scripts** (`ContractBreaks`, `Licences`, `ApiTypes`, `Globs`). A search over cyclic schema graphs, a
  recursive-descent reader of licence expressions, two bounded fixpoints, and a glob turned into a pattern.
- **Text and addresses** (`Paths`, `Placeholders`, `Outbound`, `Addresses`). Folder containment as an order
  and as lists of names, one-pass substitution, digit grouping, credential masking, redirects, network
  ranges and the forwarded-address walk.

`Options` and `Texts` hold what several modules share. Code that changes things step by step is a class or a
method with loops, proved equal to a function; what the source promises is proved of that function.
Strings are sequences of characters, and a transaction is one atomic step.

Where the code does less than its documentation says, the code is modelled, an input shows the difference, and
a theorem says exactly when the code does meet it:

- a released path resolves now, unless an array's `items` are gone: `ContractBreaks.LostItemsGoUnreported`,
  `ContractBreaks.ReleasedPathStands`;
- the search comes back, unless some circle holds no place where both contracts name a reference:
  `ContractBreaks.OffsetReferencesNeverEnd`, `ContractBreaks.SomeStackSuffices`;
- a restore keeps proposals current, unless one awaits it: `CategoryHistory.RestoredUnderAnOldProposal`,
  `CategoryHistory.SyncKeepsProposalsUnlessAwaited`;
- an older build is turned away, unless the newer one stopped before its record:
  `Migrations.UnrecordedIsNotRefused`, `Migrations.RefusedExactlyWhenRecordedLonger`, `Migrations.FinishedHolds`;
- a start whose key opens a stored secret is served, unless each store holding any has one that does not open:
  `Secrets.OneDamagedRowMayRefuse`, `Secrets.MayBeRefused`;
- containment is a matter of the key, unless of two writings of one key one climbs and the other does not, which
  takes a space beside a `.` or `..` at an end, or neither climbs and one is empty where the other is a share that
  names nothing: `Paths.ASpaceHidesAClimb`, `Paths.TwoSystemsOfOneKey`, `Paths.WithinByKey`,
  `Paths.ClimbsAsWritten`, `Paths.SystemsOfOneKey`;
- a flush is answered once every call sent before it is stored, unless a batch failed:
  `DeprecatedCalls.AnsweredUnstored`, `DeprecatedCalls.AnsweredOnceStored`;
- a batch leaves what its calls leave one by one, unless a call was dropped and the batch is not steady:
  `DeprecatedCalls.DroppedIsUnsteady`, `DeprecatedCalls.CountedAsOneByOne`, `DeprecatedCalls.BatchIsOneByOne`;
- a key is logged once a day, unless a call of it was dropped, or lost with its batch, before a restart:
  `DeprecatedCalls.LoggedTwiceAfterALoss`, `DeprecatedCalls.CountedAsOneByOne`.

## Model

| member | source | states |
|---|---|---|
| `ContractBreaks.PayloadBreaks` | scripts/contract-breaks.py:64-108 | every break reported is real, and all there are at any reached position are reported; a search that comes back reports nothing exactly when along every released path the kind and the format are what the release says where it says one, an absent one counting as a JSON null; it comes back whenever the stack covers the distances between references both contracts name, and only over contracts where those distances fit the stack |
| `ContractBreaks.Comparison.Compare` | scripts/contract-breaks.py:77-87 | one visit: what was noted before stays, and each position it skips because the pair of names is in `seen` is accounted for by the visit that recorded the pair |
| `ContractBreaks.Comparison.CompareResolved` | scripts/contract-breaks.py:89-105 | nothing noted means the position breaks nothing and every hop from it was accounted for |
| `ContractBreaks.Comparison.CompareFacet` | scripts/contract-breaks.py:89-93 | the type or format is reported exactly when the release says one and the current contract says another, or says none where the released one is not null |
| `ContractBreaks.ReachedExplained` | scripts/contract-breaks.py:85-88 | every position any walk reaches was accounted for as the first one was, revisits cut included |
| `ContractBreaks.GoodIsStanding` | scripts/contract-breaks.py:89-105 | a position breaks nothing exactly when it stands, said of the fields of the two schemas: kind, format, fields still documented and required |
| `ContractBreaks.WalkLeads` | scripts/contract-breaks.py:73-105 | the walks of the search are the paths both contracts lead along, references followed by name |
| `ContractBreaks.AtLeads` | scripts/contract-breaks.py:73-105 | where a released path leads, told from one schema to the next, is where the search finds it |
| `ContractBreaks.CleanIsServed` | scripts/contract-breaks.py:64-108 | a schema without a break serves every released path as it was released, and one with a break does not |
| `ContractBreaks.ReleasedPathStands` | scripts/contract-breaks.py:64-108 | with nothing to report, a released path of any length leads somewhere now exactly when the current contract says what each array on it holds, and then to a schema of the same type and format whose still documented required fields stay required |
| `ContractBreaks.LostItemsGoUnreported` | scripts/contract-breaks.py:104-105 | an array whose `items` are gone is reported by nothing |
| `ContractBreaks.SomeStackSuffices` | scripts/contract-breaks.py:85-88 | some stack is deep enough exactly when references both contracts name stand at bounded distances |
| `ContractBreaks.AlignedReferencesEnd` | scripts/contract-breaks.py:85-88 | where the contracts name references at the same places the search comes back, given the frames their size asks for |
| `ContractBreaks.OffsetReferencesNeverEnd` | scripts/contract-breaks.py:85-88 | two contracts whose references never stand at one place exhaust every stack |
| `CategoryRuns.MoveKeeps` | backend/src/api/categories.rs:255-283 | a move the unique names let through keeps every name live and every id unique, and proposals current where they were |
| `CategoryRuns.MoveLeavesNoTrace` | backend/src/api/categories.rs:261-273 | after a rename no column of any table still says the old name |
| `CategoryRuns.MoveBack` | backend/src/api/categories.rs:255-283 | renamed back from a name nothing else held, every table is as it was |
| `CategoryEffects.MoveIsRefused` | backend/src/api/categories.rs:255-283 | a move is refused exactly when a category has the old name and another the new one |
| `CategoryEffects.MovedRowsDo` | backend/src/api/categories.rs:255-283 | row by row: a column that said the old name says the new one, and no other row changes |
| `CategoryRuns.CreateKeeps` | backend/src/api/categories.rs:129-178 | a category made, or refused, leaves names live and proposals current |
| `CategoryTables.TakenNames` | backend/src/api/categories.rs:80-105 | a name is taken exactly when its stored form has 1 to 64 characters, each one a name may hold, and each refusal is of what fails first |
| `CategoryEffects.CreateDoes` | backend/src/api/categories.rs:129-178 | one row more under a new id, the fallback moved only where asked, each refusal exactly when its check fails |
| `CategoryRuns.RenameKeeps` | backend/src/api/categories.rs:204-252 | so does a rename |
| `CategoryEffects.RenameDoes` | backend/src/api/categories.rs:204-252 | the row asked for is renamed and what names it follows; refused exactly for a bad name, an unknown id or a name another row has |
| `CategoryRuns.RemoveKeeps` | backend/src/api/categories.rs:285-360 | so does a removal, which retired pins do not hold back |
| `CategoryEffects.UsedIsNamed` | backend/src/api/categories.rs:285-330 | a rule, a folder, a pin or a test names the category, and nothing else holds it back |
| `CategoryEffects.RemoveDoes` | backend/src/api/categories.rs:285-360 | the row and the retired pins to it go, and nothing else; refused exactly when unknown, the fallback or used |
| `CategoryRuns.WriteKeeps` | backend/src/api/categories.rs:183-199 | so does any write of a name guarded by the check in its own transaction |
| `CategoryEffects.WriteDoes` | backend/src/api/categories.rs:183-199 | one cell is written, with the name of a category, or the write is refused |
| `CategoryRuns.PinInKeeps` | backend/src/api/exceptions.rs:333-383 | pins to a category that exists keep names live, and proposals current where they were |
| `CategoryRuns.PinInSupersedes` | backend/src/api/exceptions.rs:351-381 | of every proposal: it is live after exactly if it was and the pin now in force is the one it was decided under, so a title pinned to the category it has keeps its own |
| `CategoryEffects.PinInDoes` | backend/src/api/exceptions.rs:333-383 | each title asked for, and no other, is pinned to the name under a new id or its own, and those pinned elsewhere or nowhere lose their proposals |
| `CategoryEffects.PinToDoes` | backend/src/api/exceptions.rs:292-328 | a pin is to the stored form of the name asked for; refused, in that order, exactly for a bad name, an unknown one, a reason too long or an unknown title |
| `CategoryRuns.KeepKeeps` | backend/src/api/exceptions.rs:151-189 | `keep` pins to a category nobody checked, which the invariant on folders says exists |
| `CategoryEffects.KeepDoes` | backend/src/api/exceptions.rs:130-189 | a title is kept only where its folder is mapped to a name that is not empty, and is then pinned to that name, every other pin as it was; refused as unmapped exactly when a listed title's folder is unknown, unmapped or mapped to nothing |
| `CategoryRuns.UnpinKeeps` | backend/src/api/exceptions.rs:247-268 | pins removed leave names live and proposals current |
| `CategoryRuns.UnpinSupersedes` | backend/src/api/exceptions.rs:247-268 | a removal supersedes what was decided under a pin it removes, and no other proposal |
| `CategoryEffects.UnpinDoes` | backend/src/api/exceptions.rs:247-268 | the pins of the copies go, with the proposals made under them, and nothing else |
| `CategoryRuns.RemovePinKeeps` | backend/src/api/exceptions.rs:385-405 | removal by id is safe although its title was read before the transaction |
| `CategoryRuns.RemovePinSupersedes` | backend/src/api/exceptions.rs:385-405 | so does a removal by id, while its pin stands |
| `CategoryEffects.RemovePinDoes` | backend/src/api/exceptions.rs:385-405 | the pin of that id goes, with the proposals of the title it was read to pin, and nothing else |
| `CategoryRuns.SimulateKeeps` | backend/src/api/exceptions.rs:191-207 | a simulation taken as one step leaves only proposals decided under the pin in force |
| `CategoryEffects.SimulateDoes` | backend/src/api/exceptions.rs:191-207 | the pending proposals of the titles judged are over, one live proposal stands for each title decided, and no other row changes |
| `CategoryRuns.ConvergeIsAFixpoint` | backend/src/api/categories.rs:365-386 | one run over every name ends in a fixpoint a second run leaves alone, each row with its name or its stored form |
| `CategoryImport.ImportKeeps` | backend/src/api/config.rs:292-690 | a bundle of any content, imported or refused whole, keeps the invariant |
| `CategoryEffects.ImportDoes` | backend/src/api/config.rs:292-690 | every part of the bundle reaches its own column and no other, and a refusal is for its rules |
| `CategoryEffects.CategoriesDo` | backend/src/api/config.rs:406-429 | the categories of the bundle are added under new ids, and none there was is changed |
| `CategoryEffects.FallbacksDo` | backend/src/api/config.rs:365-404 | the last value that names a known category is the fallback |
| `CategoryEffects.MappingsDo` | backend/src/api/config.rs:486-557 | of the mappings of one folder, the last to name a known category decides |
| `CategoryEffects.BundledPinsDo` | backend/src/api/config.rs:560-622 | of the exceptions that pin one title, the last decides |
| `CategoryEffects.InsertsDo` | backend/src/api/config.rs:626-660 | the rules asked for are written in their order, until one would be the 1001st |
| `CategoryEffects.TestsDo` | backend/src/api/config.rs:702-766 | the tests written are those of an instance here, a known category, a readable title and no twin, in their order |
| `CategoryImport.CategoriesKeep` | backend/src/api/config.rs:406-429 | by the end of its loop every name counted on from the bundle is a category |
| `CategoryImport.MappingKeeps` | backend/src/api/config.rs:486-557 | a mapping, declared or not, names a category that exists or stays as it was |
| `CategoryImport.RulesKeep` | backend/src/api/config.rs:626-660 | rules inserted past a replace or an append name categories that exist |
| `CategoryImport.TestsKeep` | backend/src/api/config.rs:702-766 | so do the tests restored |
| `CategoryHistory.RetireKeeps` | backend/src/services/sync.rs:782-835 | titles removed by a sync leave names live and proposals current |
| `CategoryEffects.RetireDoes` | backend/src/services/sync.rs:782-835 | titles that go take their rows and pins, and leave no proposal live |
| `CategoryEffects.RetiredPinsWait` | backend/src/services/sync.rs:782-835 | what a pin was to waits under the work its title names |
| `CategoryHistory.RestoreKeepsNames` | backend/src/services/sync.rs:838-871 | pins given back name categories that exist |
| `CategoryEffects.RestoreDoes` | backend/src/services/sync.rs:838-871 | exactly the unpinned titles whose work waits are pinned, to what waits for it, and no proposal changes |
| `CategoryEffects.RestoreForgets` | backend/src/services/sync.rs:858-871 | a pin that waits is forgotten exactly when a title of its instance names its work, given back or not |
| `CategoryHistory.RestoreKeepsProposalsUnlessAwaited` | backend/src/services/sync.rs:838-871 | proposals stay current exactly when no title given its pin back has one live |
| `CategoryHistory.SyncKeepsProposalsUnlessAwaited` | backend/src/services/sync.rs:560-641 | one whole sync, from its folders and reassigned titles to those that went, keeps proposals current exactly when no title it gives a pin back to and keeps has one live |
| `CategoryHistory.SyncKeepsNames` | backend/src/services/sync.rs:668-716 | the same sync, of a library or of one title, keeps every name live and gives no pin id out twice |
| `CategoryEffects.SyncedMedia` | backend/src/services/sync.rs:560-641 | the library a sync leaves: what it lists over all but the titles given away, less those that went |
| `CategoryEffects.SyncedPin` | backend/src/services/sync.rs:560-641 | a title neither gone nor given away keeps its pin, and one given away has only the pin it is given back |
| `CategoryEffects.SyncedProposals` | backend/src/services/sync.rs:560-641 | the proposals of titles gone or given away are over, and no other changes |
| `CategoryHistory.ListedByKeeps` | backend/src/services/sync.rs:726-768 | titles whose id now names another are retired, the others inserted or updated, and neither touches a name |
| `CategoryEffects.ReassignedIs` | backend/src/services/sync.rs:726-768 | an id names another title exactly when the kinds differ, or both readings have an external id and those differ |
| `CategoryHistory.RemoveInstanceKeeps` | backend/src/api/instances.rs:320-380 | an instance removed with its folders, titles and pins leaves names live and proposals current |
| `CategoryEffects.RemoveInstanceDoes` | backend/src/api/instances.rs:320-380 | an instance goes with its folders, titles, pins, retired pins and proposals, and nothing else |
| `CategoryHistory.FewerKeep` | backend/src/services/maintenance.rs:252-299 | decisions settled or past their retention leave the rest as they were |
| `CategoryEffects.SettleDoes` | backend/src/services/maintenance.rs:252-299 | decisions settled are live no more, those forgotten go, and no other proposal changes |
| `CategoryHistory.RestoredUnderAnOldProposal` | backend/src/services/sync.rs:848-857 | an ordinary history from a fresh installation to a sync that leaves a live proposal decided under another pin: a title pinned and gone, another listed without an external id, simulated, then listed under the id of the first |
| `CategoryHistory.ApplyKeeps` | backend/src/api/categories.rs:129-393 | of every transaction, only a sync that restores an awaited title breaks the invariant |
| `CategoryHistory.NamesStayLive` | backend/src/api/categories.rs:180-199 | at every point of every history, whatever its syncs restore, each name a row refers to is a category's |
| `CategoryHistory.HistoryKeeps` | backend/src/api/exceptions.rs:330-383 | at every point up to which no sync restored an awaited title, each live proposal stands under the pin in force |
| `CategoryHistory.ReadStaysGiven` | backend/src/api/exceptions.rs:389-401 | a pin's id, read at any point of a history, names the same title at any later one |
| `CategoryStore.Database.Create` | backend/src/api/categories.rs:129-178 | its statements commit a category or nothing, and leave every name a category's and proposals current |
| `CategoryStore.Database.MoveReferences` | backend/src/api/categories.rs:255-283 | its statements move every column or, refused, none |
| `CategoryStore.Database.Rename` | backend/src/api/categories.rs:204-252 | so does a rename, through the moves of every column |
| `CategoryStore.Database.Remove` | backend/src/api/categories.rs:285-360 | refused exactly while a rule, folder, pin or test names it, or it is the fallback; the retired pins go with it, and no name is left behind |
| `CategoryStore.Database.ConvergeNames` | backend/src/api/categories.rs:365-386 | the loop, one transaction a name, is the fold whose fixpoint is proved |
| `CategoryStore.Database.PinIn` | backend/src/api/exceptions.rs:333-383 | the loop upserts each title and supersedes exactly those whose category changed; a reason too long changes nothing |
| `CategoryStore.Database.Pin` | backend/src/api/exceptions.rs:292-328 | checked under the lock: commits every pin or none, and keeps the invariant |
| `CategoryStore.Database.Keep` | backend/src/api/exceptions.rs:151-189 | the three refusals in order, each said of the tables; else the title is pinned to what its folder is mapped to, every other pin as it was |
| `CategoryStore.Database.UnpinExternal` | backend/src/api/exceptions.rs:247-268 | only copies that had a pin lose their proposals, and the answer says whether one had |
| `CategoryStore.Database.RemovePin` | backend/src/api/exceptions.rs:399-402 | the pin of that id goes, with its title's proposals, the invariant kept although the title was read before |
| `CategoryStore.Database.RestoreRules` | backend/src/api/config.rs:626-660 | a replace that restores no rule replaces none; past the limit the import is refused |
| `CategoryStore.Database.Import` | backend/src/api/config.rs:356-677 | the whole transaction commits what its one-step form answers, or nothing; names it writes half way of categories still to come are categories' at its end |
| `Migrations.RecordedAPrefix` | backend/src/db.rs:413-455 | at every commit the names recorded are a prefix of the list and the scripts executed are the rest of it, each once and in order |
| `Migrations.StoppedAnywhereResumes` | backend/src/db.rs:256-261 | stopped after any commit and run again, a run ends with the outcome, names, schema and openers of an uninterrupted one |
| `Migrations.CommitsOpen` | backend/src/db.rs:351-397 | nothing a run commits is ahead of its own build |
| `Migrations.StartGrows` | backend/src/db.rs:256-261 | one completed start is refused exactly when the database outgrew its build, and else leaves the whole list recorded |
| `Migrations.RefusedExactlyWhenOutgrown` | backend/src/db.rs:351-397 | over any completed starts, refused exactly when a build with a longer list started before; any other leaves the migrations of its own build and no other |
| `Migrations.OnlyTheRecordShows` | backend/src/db.rs:351-397 | of all a run commits, its record alone changes which builds are turned away; stopped before it, a start leaves every build as it found it |
| `Migrations.RefusedExactlyWhenRecordedLonger` | backend/src/db.rs:256-397 | over any starts stopped after any commit, a start is refused exactly when a build with a longer list had reached its record |
| `Migrations.FinishedHolds` | backend/src/db.rs:413-455 | a start that finishes holds its own list and whatever else was recorded, so it ends on migrations it does not know exactly when it began on some |
| `Migrations.RefusedExactly` | backend/src/db.rs:266-384 | each refusal is exact, over the names recorded: by a newer build, before release 0.1.5 (a former name recorded and not the last), between releases (the last recorded beside one of neither list); refused, nothing is committed |
| `Migrations.OldNamesRewritten` | backend/src/db.rs:266-320 | a run that commits over a former name began on one that held the last of them and no name of neither list |
| `Migrations.UnrecordedIsNotRefused` | backend/src/db.rs:387-397 | stopped before its record, a start leaves what an older build takes for its own |
| `Migrations.InstallDayKept` | backend/src/db.rs:299-316 | every commit of the run that reads 0.1.5's names dates the first migration by the earliest of theirs |
| `Migrations.EveryRowStands` | backend/src/db.rs:387-470 | through every commit of the migrations and the record, a migration recorded keeps its date, a new one has today's, and no other release's row changes |
| `Migrations.Migrator.ReadTheNames` | backend/src/db.rs:266-320 | its refusals in order, changing no row; else one commit, over a former name only where the last of them is recorded |
| `Migrations.Migrator.InstallDay` | backend/src/db.rs:301-310 | the earliest of the dates recorded under 0.1.5's names |
| `Migrations.Migrator.ApplyMigrations` | backend/src/db.rs:413-455 | the loop commits what the run says, and foreign keys are on again after success and failure alike |
| `Migrations.Migrator.RunMigrations` | backend/src/db.rs:256-261 | the statements commit exactly the run the other lemmas are about |
| `Conditions.EscapeLike` | backend/src/db.rs:488-497 | the loop writes the escaped form the search lemma reads |
| `Conditions.EscapedReadsItself` | backend/src/db.rs:488-497 | at the head of a pattern an escaped value reads itself, ASCII case aside, and then the rest |
| `Conditions.SearchFindsWhatWasTyped` | backend/src/db.rs:536-543 | the pattern matches exactly the texts in which the value stands |
| `Conditions.UnderscoreStandsForAny` | backend/src/db.rs:488-497 | unescaped, an underscore finds every text that is not empty; escaped, those that hold one |
| `Conditions.LessAtTheFirstDifference` | backend/src/db.rs:545-559 | the order of timestamps is that of the first character they differ by, or of the shorter |
| `Conditions.StatementKeepsWhatEveryCallAsks` | backend/src/db.rs:508-582 | whatever calls are made, the rows kept are exactly those every call asks for, the i-th `?` taking the i-th value |
| `Conditions.TextAsksForItsValues` | backend/src/db.rs:513-582 | the text itself holds one `?` for each value bound, when alias, columns and conditions hold none |
| `Conditions.Builder.Contains` | backend/src/db.rs:536-543 | the text grows by the test of the column with its escape, and the values by the escaped value between percents |
| `Conditions.Builder.Equal` | backend/src/db.rs:520-525 | the text grows by the test of the column and the values by the value, or neither grows without one |
| `Conditions.Builder.Fails` | backend/src/db.rs:568-571 | the text grows by the condition negated, and nothing is bound |
| `Secrets.ResealedIsFresh` | backend/src/services/maintenance.rs:84-109 | a value that opened is fresh after its row is rewritten, opens to the same text, and needs nothing more |
| `Secrets.ResealedIs` | backend/src/services/maintenance.rs:84-109 | a value is left as it is exactly where it is fresh or no key given opens it; any other is sealed anew |
| `Secrets.LoadedServes` | backend/src/crypto.rs:65-155 | a box opens exactly what was sealed under one of the keys it was given, whole or a passphrase, in either form, and seals in the newer form under the key in hand |
| `Secrets.UnsaltedSeals` | backend/src/crypto.rs:65-155 | without a salt a passphrase seals and opens as `enc:v1:` under SHA-256 alone, a whole key as `enc:v2:` |
| `Secrets.SealThenOpen` | backend/src/crypto.rs:99-155 | a sealed text opens to itself, fresh and in no need of resealing |
| `Secrets.LostKeyClosesTheSeals` | backend/src/crypto.rs:141-151 | a start that carries no key that sealed a value cannot open it, and leaves it as it is |
| `Secrets.MarkedTextIsNotSealed` | backend/src/crypto.rs:99-155 | a text sealed comes back exactly when it does not read as sealed, or reads as a seal of itself under a key tried; any other that reads as sealed is passed through as documented |
| `Secrets.EveryFormOpens` | backend/src/crypto.rs:65-96 | plaintext, `enc:v1:` and `enc:v2:` seals of a passphrase or a whole key open at a start still given that key |
| `Secrets.RotationsKeepEverySecret` | backend/src/services/maintenance.rs:84-172 | over any chain of starts carrying the last key, with rows saved and removed between them, each secret opens to the text last saved and nothing is left to reseal |
| `Secrets.StoppedStartHolds` | backend/src/services/maintenance.rs:84-172 | rows resealed in part hold as they did |
| `Secrets.RotationsAreNeverRefused` | backend/src/main.rs:108-149 | none of those starts is refused, whichever row of each store is sampled |
| `Secrets.RefusesWhenNoneOpens` | backend/src/main.rs:124-139 | the guard refuses exactly when it tried a value, opened none, and was not told to go on |
| `Secrets.ForeignKeyIsRefused` | backend/src/main.rs:108-149 | a key that opens no seal is refused, whichever rows are tried |
| `Secrets.OneDamagedRowMayRefuse` | backend/src/main.rs:113-131 | one damaged row tried alone refuses a start whose key opens the rest |
| `Secrets.MayBeRefused` | backend/src/main.rs:108-149 | of any rows: some values tried get a start refused exactly when something is sealed and each store holding a seal holds one that does not open |
| `Secrets.Installation.RefuseALostMasterKey` | backend/src/main.rs:153-194 | refuses exactly when no key is configured or in the file and a value reads as sealed, unless allowed |
| `Secrets.Installation.MasterKey` | backend/src/crypto.rs:193-217 | a new key is written only over a missing or blank file, and only when none is configured |
| `Secrets.Installation.OpenStorage` | backend/src/main.rs:72-83 | each refusal said of the rows and the keys: lost exactly where seals stand and no key is given, foreign only where each store holding a seal holds one closed to the key in hand and the one superseded, and always where neither opens any; what it answers opens what was sealed under either, in either form, and a key file is written only where there is none to lose |
| `Secrets.Installation.RefuseAForeignMasterKey` | backend/src/main.rs:108-149 | refused, each store holding a seal holds one that does not open; served, one opens wherever there is any |
| `Secrets.Installation.Serve` | backend/src/main.rs:50-102 | one start over rows its keys read: refused only for want of any key, and else every row reads to the key in hand alone |
| `Secrets.Installation.Restart` | backend/src/main.rs:50-102 | of any chain of starts, each with the key of the last in hand or superseded, none is refused as foreign, and every secret reads under the last key as the text last saved |
| `Secrets.Installation.ResealSecrets` | backend/src/services/maintenance.rs:84-172 | every secret row but a blank setting is resealed as the rotation lemmas have it, and no other changes; a value nothing opens is left |
| `Listener.StepKeeps` | backend/src/listener.rs:78-114 | every step keeps permits, shares, the excess and the reserved places adding up |
| `Listener.OpenPlacesAreBounded` | backend/src/listener.rs:86-107 | after any run clients hold at most half the connections plus one share per bucket, shares equal the connections holding them, and reserved places serve the loopback alone |
| `Listener.NothingUnderflows` | backend/src/listener.rs:101 | the places taken are those in use, and a share returned was counted |
| `Listener.WaitsWhenAllIsTaken` | backend/src/listener.rs:183-195 | the next connection waits exactly while every place is taken, and takes an open one while there is any |
| `Listener.CrowdedAtHalf` | backend/src/listener.rs:101-102 | a client is looked at as crowded exactly when the connections served by open places are half of them or more |
| `Listener.ServedAtOnce` | backend/src/listener.rs:89-100 | a place kept for the health check serves the loopback and closes the rest, a proxy is served whatever it holds |
| `Listener.ClosedOnlyPastItsShare` | backend/src/listener.rs:101-105 | from the accept to the share, whoever leaves in between: a client is served exactly when it holds fewer than its share, what it is still giving back included, or fewer than half the places served somebody when it was accepted; closed, it gives back its permit |
| `Listener.EverythingIsGivenBack` | backend/src/services/accounts.rs:288-299 | once every connection has ended the state is the first one again |
| `Listener.WithinTheShares` | backend/src/listener.rs:101-104 | whatever came within the shares is at most one share per client |
| `Listener.Places.Acquire` | backend/src/listener.rs:189-195 | an open permit first, one kept for the health check exactly when none is open |
| `Listener.Places.Answer` | backend/src/listener.rs:89-103 | who is served at once and who is refused; of the others the share, asked exactly when half the places serve somebody |
| `Listener.Places.CountShare` | backend/src/services/accounts.rs:273-285 | counts a share exactly below the limit, the entry looked up left behind |
| `Listener.Places.UncountShare` | backend/src/services/accounts.rs:288-299 | one share less, an address that holds nothing leaving the table |
| `DeprecatedCalls.BatchIsOneByOne` | backend/src/api/deprecated.rs:214-272 | a batch leaves the counts, times and names of storing call by call, and the days exactly when each key's last call was made the day one was last logged |
| `DeprecatedCalls.CountedAsOneByOne` | backend/src/api/deprecated.rs:140-242 | over every run and every cut into batches: the counts are those of storing one by one the calls whose batch was stored; the whole table is too while no call is dropped, whatever failed; a key is logged once a day per process always, and across restarts while nothing is lost |
| `DeprecatedCalls.AnsweredOnceStored` | backend/src/api/deprecated.rs:183-238 | an answered flush finds every call sent before it in the table exactly when none of them was in a batch that failed, whatever was dropped |
| `DeprecatedCalls.DroppedIsUnsteady` | backend/src/api/deprecated.rs:155-176 | a run whose full queue drops the call a day would be logged by, so that a stored batch leaves another day than its calls one by one |
| `DeprecatedCalls.AnsweredUnstored` | backend/src/api/deprecated.rs:234-238 | a flush answered after the insert of the call before it failed: the table holds nothing |
| `DeprecatedCalls.CountedIsFresh` | backend/src/api/deprecated.rs:155-170 | each call counted, stored one by one, leaves its row logged on its own day |
| `DeprecatedCalls.RowTells` | backend/src/api/deprecated.rs:244-272 | a row counts one more for each call to its key, with the name and time of the last of them |
| `DeprecatedCalls.DayTells` | backend/src/api/deprecated.rs:244-272 | its day is that of the last call logged |
| `DeprecatedCalls.DroppedWhenFull` | backend/src/api/deprecated.rs:155-176 | in every run the queue is bounded, and a call is dropped exactly when it is full |
| `DeprecatedCalls.LoggedTwiceAfterALoss` | backend/src/api/deprecated.rs:155-170 | a call logged and lost with its batch is logged again the same day after a restart |
| `DeprecatedCalls.Calls.Count` | backend/src/api/deprecated.rs:140-177 | logged unless the process or a row says today; a queue full of orders not yet taken drops the call |
| `DeprecatedCalls.Calls.WriteBatch` | backend/src/api/deprecated.rs:214-242 | the batch stored in one transaction or lost whole, then its flushes answered either way |
| `DeprecatedCalls.Calls.Take` | backend/src/api/deprecated.rs:219-233 | one order off the queue, its place freed at once: a call merged into what is kept of its key, a flush left to answer |
| `DeprecatedCalls.Calls.Drain` | backend/src/api/deprecated.rs:216-234 | the loop keeps of each key what merging every call taken keeps, and the flushes in order |
| `DeprecatedCalls.Insert` | backend/src/api/deprecated.rs:244-272 | one statement per key leaves the same rows in whatever order the map gives them |
| `Licences.ReadsTheOneTree` | scripts/check-licences.py:28-78 | tokens read as a tree exactly when the tree is proper and they spell it, so a tree is unique and every other sequence raises |
| `Licences.WordsNameNoLicence` | scripts/check-licences.py:53-55 | where a licence belongs a word or a closing parenthesis raises, and any other token is read |
| `Licences.NothingReadsNone` | scripts/check-licences.py:56-58 | nothing after `WITH` is decided as the exception "None" |
| `Licences.StaysAllowed` | scripts/check-licences.py:28-78 | a longer allow-list never refuses what was allowed |
| `Licences.WrittenIsDecided` | scripts/check-licences.py:28-78 | every expression, parenthesised only where it must be, is accepted and decided as it means |
| `Licences.Allows` | scripts/check-licences.py:28-78 | the one pass raises exactly where no tree is read, and else answers its value |
| `Licences.Reader.Term` | scripts/check-licences.py:47-59 | one term read and decided, `WITH` taking any next token or none |
| `Licences.Reader.Both` | scripts/check-licences.py:61-66 | the `AND` loop reads every term whatever the value so far |
| `Licences.Reader.Either` | scripts/check-licences.py:68-73 | so does the `OR` loop |
| `ApiTypes.ResolveFlattened` | scripts/check-api-types.py:223-239 | within one pass more than there are structs, each has its own fields, those of the whole types it splices, and the marks of the others |
| `ApiTypes.UnmarkedIffWhole` | scripts/check-api-types.py:223-239 | a struct loses its marks exactly when no circle, unknown type or unread mark is reached from it, and then has the fields of every struct reached |
| `ApiTypes.SpliceInto` | scripts/check-api-types.py:230-236 | the marks of one struct, in any order, replaced where their type is known and clean |
| `ApiTypes.SplicePass` | scripts/check-api-types.py:228-238 | a pass resolves the types one level deeper, and one that moves nothing leaves only marks that cannot be replaced |
| `ApiTypes.Extended` | scripts/check-api-types.py:276-288 | within the same bound every interface has exactly the fields of all it extends, however far and through circles |
| `ApiTypes.Pass` | scripts/check-api-types.py:278-287 | one turn takes from every parent what it held |
| `Globs.GlobPattern` | scripts/check-claude-md.py:34-60 | the loop writes the pieces the other lemmas read, an unclosed brace a letter |
| `Globs.ReadsTheOneWay` | scripts/check-claude-md.py:34-60 | the pieces of a glob are the one list that spells it, each the longest that may stand there and a brace a choice wherever one closes it |
| `Globs.MatchesInParts` | scripts/check-claude-md.py:34-60 | a pattern matches exactly the paths laid out of parts its pieces accept, in their order |
| `Globs.MatchesByChoosing` | scripts/check-claude-md.py:40-44 | a pattern matches what it matches for some literal of each brace |
| `Globs.MatchesByFolders` | scripts/check-claude-md.py:45-58 | with every `**` a whole folder, the pattern matches exactly the paths that fit folder by folder |
| `Globs.WholeIsAlone` | scripts/check-claude-md.py:45-50 | every `**` is a whole folder exactly when each opens one and one without its slash ends the glob |
| `Globs.GlobMatchesByFolders` | scripts/check-claude-md.py:34-60 | so does a glob with braces, for some choice at each |
| `Globs.NameStopsAtTheSlash` | scripts/check-claude-md.py:51-56 | `*` and `?` never cross a slash |
| `Paths.WithinItself` | backend/src/paths.rs:87-97 | a path is within itself exactly when it does not climb |
| `Paths.WithinEachOther` | backend/src/paths.rs:87-97 | two folders within each other are the same |
| `Paths.WithinPasses` | backend/src/paths.rs:87-97 | containment is transitive |
| `Paths.FoldersOfAPath` | backend/src/paths.rs:87-97 | the folders holding one path form a chain |
| `Paths.WithinIsFirstNames` | backend/src/paths.rs:87-97 | of absolute paths that do not climb, containment is: one system, and the folder's names the first of the path's |
| `Paths.KeyAgain` | backend/src/paths.rs:40-77 | a key is its own key exactly when no white space stood before the closing separators |
| `Paths.AbsoluteKey` | backend/src/paths.rs:25-50 | the key of an absolute path keeps its root and closes with no other separator |
| `Paths.AbsoluteExactly` | backend/src/paths.rs:25-50 | a path is absolute exactly when its key is, save a drive alone and a share without a name on its server |
| `Paths.ASpaceHidesAClimb` | backend/src/paths.rs:67-97 | two writings of one key, one refused as climbing and one not |
| `Paths.KeyClimbs` | backend/src/paths.rs:40-77 | a key climbs exactly where the path, read without the spaces around it, does |
| `Paths.ClimbsAsWritten` | backend/src/paths.rs:67-70 | a path climbs as written exactly by a step of the trimmed path that no space around it touches |
| `Paths.OneKeyClimbsAlike` | backend/src/paths.rs:67-85 | two paths of one key, neither with spaces around it, climb together |
| `Paths.WithinByKey` | backend/src/paths.rs:67-97 | two writings of one key lie in the same folders, and hold the same paths, exactly when both climb or neither does and, not climbing, both are Windows paths or neither is |
| `Paths.SystemsOfOneKey` | backend/src/paths.rs:15-50 | one key is of two systems exactly as the empty path and a share of separators alone, spaces around them aside |
| `Paths.TrimmedByKey` | backend/src/paths.rs:67-97 | without spaces around them any two writings of one key stand for one another, that pair apart |
| `Paths.TwoSystemsOfOneKey` | backend/src/paths.rs:87-97 | two backslashes and the empty path: one key, the first within itself and the second not within it |
| `Paths.CollateSorts` | backend/src/paths.rs:100-102 | the collation is a total preorder whose ties are exactly the same folders |
| `Placeholders.Substitute` | backend/src/localization.rs:461-488 | the loop writes what the lemmas are about |
| `Placeholders.WrittenIsFilled` | backend/src/localization.rs:461-488 | a list of literals and placeholders comes out with each known one replaced once, unknown ones kept, values never read again, where no stray brace opens a known name in what follows it |
| `Placeholders.EveryTemplateIsWritten` | backend/src/localization.rs:461-488 | every template is such a list, so what it is filled to is said of all of them |
| `Placeholders.KeptAsItIs` | backend/src/localization.rs:461-488 | a template that names nothing known is unchanged, stray braces included |
| `Placeholders.GroupDigits` | backend/src/localization.rs:232-253 | `None` exactly for what is no whole number; else the digits back once the separators are lost, every group after the first of three |
| `Placeholders.WholeIsDigits` | backend/src/localization.rs:233-236 | what is grouped is every whole number, a sign and digits, and nothing else |
| `Outbound.JoinedThenCut` | backend/src/http.rs:160-166 | credentials put between a head and a bare tail are those cut out again |
| `Outbound.CarriedExactly` | backend/src/http.rs:160-166 | what an address carries is what stands after its first `://` and before the last `@` that no `/`, `?` or `#` comes before |
| `Outbound.MaskedIsCut` | backend/src/http.rs:169-174 | the mask keeps what surrounds the credentials, and masked twice is masked once |
| `Outbound.MaskTellsNothing` | backend/src/http.rs:169-174 | addresses alike but for their credentials are masked alike |
| `Outbound.SavedComesBack` | backend/src/http.rs:194-203 | an address sent back as it was shown is the one saved |
| `Outbound.SavedMoves` | backend/src/http.rs:194-203 | moved elsewhere with the mask kept, it carries the saved credentials and no others |
| `Outbound.OnlyForTheMask` | backend/src/http.rs:194-199 | saved credentials come back for the mask alone |
| `Outbound.StrippedCarriesNone` | backend/src/http.rs:185-190 | an address stripped carries no credentials |
| `Outbound.FollowedStaysPut` | backend/src/http.rs:93-129 | along every chain followed the host stays, https stays, and the port goes at most once from 80 to 443 |
| `Outbound.FollowedExactly` | backend/src/http.rs:93-129 | a chain is followed exactly when it asks six addresses at most, of one host, and goes from http to https at most once, the port staying or going from 80 to 443 |
| `Outbound.RefusedAfterSix` | backend/src/http.rs:116-129 | of a redirect that keeps the origin, the one after six addresses is an error; any other is left as the answer |
| `Outbound.FewAreFollowed` | backend/src/http.rs:116-129 | six addresses are asked at most |
| `Addresses.Parse` | backend/src/config.rs:168-177 | an entry is refused exactly without an address or with a prefix wider than its family |
| `Addresses.ContainsIsDivision` | backend/src/config.rs:179-196 | a range holds the addresses of its family equal to its base after division by its size |
| `Addresses.RangesNest` | backend/src/config.rs:179-196 | two ranges that share an address nest |
| `Addresses.AloneItListsItself` | backend/src/config.rs:168-196 | an entry without a prefix lists its own address alone |
| `Addresses.ClientAddress` | backend/src/api/auth.rs:672-695 | the loop is the walk the other lemmas are about |
| `Addresses.WalksPastListedOnly` | backend/src/api/auth.rs:685-693 | it passes listed addresses only, and stops only where nobody listed or nothing readable is next |
| `Addresses.NothingLeftOfAStopCounts` | backend/src/api/auth.rs:672-695 | a chain stopped by an unlisted or unreadable hop is not moved by anything to its left |
| `Addresses.OneBucketOneNetwork` | backend/src/services/accounts.rs:81-89 | an IPv4 address shares its bucket with itself alone, an IPv6 one with exactly those of its /64 |
| `Addresses.MappedReadsAsIpv4` | backend/src/config.rs:173-185 | an IPv4 address carried in an IPv6 one reads as itself |
| `Addresses.OthersReadAsTheyAre` | backend/src/config.rs:173-185 | and no other address is read as another |

## Left out

- Descriptions, display orders, timestamps, reasons kept beside a pin, and the report an import answers.
- The rule validator, the scope of a rule and the filter of rules already present, which an import calls: each is a flag on the bundled rule.
- The rule engine, the executor and a simulation's own decisions: a simulation is one step that proposes what it is given, a move one that sets a title's folder.
- Which titles a sync finds gone, which of its folders are stale, and when a row or a move is newer than its read: given to the sync as it runs. Of a title listed, its kind, folder and external id alone.
- A sync's statements one by one: they are functions on the tables, the order pins are given back in left open.
- Unicode lower-casing, composition and alphanumeric tests: a cleaned name is a function of the text, idempotent where a lemma asks, and `Paths` lower-cases character by character.
- A database whose fallback setting is missing: the tables hold a fallback from the start.
- SQLite, its pool and its write-ahead log: a table is a map and a transaction one step. Dates are set aside where a resumed migration is compared with an uninterrupted one.
- The fields of a version number: versions are ordered by `rank`, and builds that migrate past one another are prefixes of one list.
- AES, Argon2, SHA-256 and base64: keys are symbolic, a value opens under the key it was sealed with and no other. A setting the code does not seal is taken not to read as sealed.
- The API key made before the storage opens, and the mode and durability of key files.
- The order in which `contract-breaks.py` reads fields, left open so that the sorted one is covered, and its text of a break.
- Serving a connection, its timeouts and the drain after a stop, which hold no place the model does not count.
- Concurrent counting of deprecated calls, a clock set back, a read of the day logged that fails, and a process killed with calls queued: calls are counted one by one and a restart follows a flush.
- The report of recent callers, and the headers and `Location` written on a deprecated path's answer.
- Cutting an expression into tokens, and Python's recursion limit on nested parentheses, in `check-licences.py`.
- Reading Rust and TypeScript sources, in `check-api-types.py`: structs, interfaces and what they name are given.
- Newlines in the paths a glob is held to.
- The table of separators by language, and the bidirectional marks around a value, in `localization.rs`.
- Parsing of addresses and URLs: an address is its family and bits, a hop is one or unreadable, a URL its scheme, host in lower case and port.
- `is_plain`: containment is proved of every absolute path that does not climb, plain or not.
- `attempts_to_clear`, `lexical`, `reachable` and the display form of an address: each says what its body says.
- Routing, middleware, fixed route and grant tables, environment reading, error texts, the frontend and the remaining scripts.
