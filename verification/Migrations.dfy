/**
 * The migration half of backend/src/db.rs: one database opened in turn by builds of different ages.
 *
 * A run is the databases it commits, one after the other, and how it ends. A stop leaves the last
 * one committed, so resuming is another run from there.
 */
module Migrations {
  import opened Options

  type Date = int

  /**
   * `migrations` and `openers` are the tables `_migrations` and `_opened_by`, `None` before they are
   * made, and `schema` the scripts executed, in order. `column` is `_opened_by` having its `schema`
   * column: an opener's is `None` where the release that wrote the row recorded none.
   */
  datatype Database = Database(
    migrations: Option<map<string, Date>>,
    schema: seq<string>,
    openers: Option<map<string, Option<string>>>,
    column: bool)

  /**
   * `former` are the names Routarr 0.1.5 left for what the first migration of `list` builds now, in the
   * order they ran. `rank` orders versions as `release` reads them, and `breaks` says which scripts fail.
   */
  datatype Build = Build(
    version: string,
    list: seq<string>,
    former: seq<string>,
    rank: string -> nat,
    breaks: (string, seq<string>) -> bool)

  datatype Reason = OpenedByNewer | BeforeRelease015 | BetweenReleases

  datatype Outcome = Finished | Refused(why: Reason) | Failed(name: string)

  datatype Run = Run(commits: seq<Database>, outcome: Outcome) {
    function Last(from: Database): Database {
      if commits == [] then from else commits[|commits| - 1]
    }
  }

  function Then(first: Database, rest: Run): Run {
    Run([first] + rest.commits, rest.outcome)
  }

  // ----- reading the records

  predicate IsNewerSchema(b: Build, name: string) {
    name != "" && name != "unknown" && name !in b.list && name !in b.former
  }

  /** The opener `version` migrated the database further than `b` knows. */
  predicate Ahead(d: Database, b: Build, version: string) {
    d.openers.Some? && version in d.openers.value &&
    match d.openers.value[version]
    case Some(schema) => IsNewerSchema(b, schema)
    case None => b.rank(version) > b.rank(b.version)
  }

  ghost predicate OpenedAhead(d: Database, b: Build) {
    exists version :: Ahead(d, b, version)
  }

  function Recorded(d: Database): set<string> {
    if d.migrations.Some? then d.migrations.value.Keys else {}
  }

  // ----- the names of 0.1.5

  predicate HoldsOldNames(d: Database, b: Build) {
    exists name | name in Recorded(d) :: name in b.former
  }

  /** 0.1.5 itself opened it last: an older release stopped at another of the names. */
  predicate HoldsLast(d: Database, b: Build) {
    b.former != [] && b.former[|b.former| - 1] in Recorded(d)
  }

  /** A name neither of 0.1.5's nor of this build's. */
  predicate Stray(d: Database, b: Build, name: string) {
    name in Recorded(d) && name !in b.former && name !in b.list
  }

  ghost predicate Earliest(dates: map<string, Date>, former: seq<string>, date: Date) {
    (exists name | name in dates :: name in former && dates[name] == date) &&
    forall name | name in dates && name in former :: date <= dates[name]
  }

  ghost function Installed(dates: map<string, Date>, former: seq<string>): Date
    requires exists name | name in dates :: name in former
  {
    SomeEarliest(dates, former);
    var date :| Earliest(dates, former, date);
    date
  }

  lemma SomeEarliest(dates: map<string, Date>, former: seq<string>)
    requires exists name | name in dates :: name in former
    ensures exists date :: Earliest(dates, former, date)
  {
    var old015 := set name | name in dates && name in former;
    var name :| name in dates && name in former;
    assert name in old015;
    var best := EarliestAmong(dates, old015);
    assert Earliest(dates, former, dates[best]);
  }

  lemma {:induction false} EarliestAmong(dates: map<string, Date>, names: set<string>) returns (best: string)
    requires names != {} && forall name | name in names :: name in dates
    ensures best in names && forall name | name in names :: dates[best] <= dates[name]
  {
    best :| best in names;
    if names != {best} {
      var other := EarliestAmong(dates, names - {best});
      best := if dates[other] <= dates[best] then other else best;
    }
  }

  function Without015(dates: map<string, Date>, former: seq<string>): map<string, Date> {
    map name | name in dates && name !in former :: dates[name]
  }

  /** 0.1.5's names forgotten and the first migration recorded in their place, at `installed`. */
  function Rewritten(d: Database, b: Build, installed: Date): Database
    requires d.migrations.Some? && b.list != []
  {
    d.(migrations := Some(Without015(d.migrations.value, b.former)[b.list[0] := installed]))
  }

  // ----- one run

  function Record(d: Database, b: Build): Database
    requires d.openers.Some? && b.list != []
  {
    d.(openers := Some(d.openers.value[b.version := Some(b.list[|b.list| - 1])]))
  }

  /** A script's own tables: the first makes `_opened_by`, the second gives it its `schema`. */
  function Executed(d: Database, b: Build, i: nat, now: Date): Database
    requires i < |b.list| && d.migrations.Some?
  {
    d.(migrations := Some(d.migrations.value[b.list[i] := now]), schema := d.schema + [b.list[i]],
       openers := if i == 0 && d.openers.None? then Some(map[]) else d.openers,
       column := d.column || i == 1)
  }

  /** The migrations from the `i`-th on, each its own transaction, then the record of this release. */
  function ApplyFrom(d: Database, b: Build, i: nat, now: Date): Run
    requires i <= |b.list| && d.migrations.Some?
    decreases |b.list| - i
  {
    if i == |b.list| then
      if d.openers.Some? && d.column && b.list != [] then Run([Record(d, b)], Finished)
      else Run([], Failed("_opened_by"))
    else if b.list[i] in Recorded(d) then ApplyFrom(d, b, i + 1, now)
    else if b.breaks(b.list[i], d.schema) then Run([], Failed(b.list[i]))
    else Then(Executed(d, b, i, now), ApplyFrom(Executed(d, b, i, now), b, i + 1, now))
  }

  function Applied(d: Database, b: Build, now: Date): Run {
    if d.migrations.Some? then ApplyFrom(d, b, 0, now)
    else
      var made := d.(migrations := Some(map[]));
      Then(made, ApplyFrom(made, b, 0, now))
  }

  ghost function RunOf(d: Database, b: Build, now: Date): Run {
    if OpenedAhead(d, b) then Run([], Refused(OpenedByNewer))
    else if !HoldsOldNames(d, b) then Applied(d, b, now)
    else if !HoldsLast(d, b) then Run([], Refused(BeforeRelease015))
    else if exists name :: Stray(d, b, name) then Run([], Refused(BetweenReleases))
    else if b.list == [] || b.list[0] in Recorded(d) then Run([], Failed("_migrations"))
    else
      var rewritten := Rewritten(d, b, Installed(d.migrations.value, b.former));
      Then(rewritten, Applied(rewritten, b, now))
  }

  // ----- what no commit touches

  function OpenerRows(d: Database): map<string, Option<string>> {
    if d.openers.Some? then d.openers.value else map[]
  }

  /** A migration recorded keeps its date and a new one has today's, and no other release's row changes. */
  ghost predicate RowsStand(d: Database, b: Build, now: Date, after: Database) {
    d.migrations.Some? && after.migrations.Some? && Recorded(d) <= Recorded(after) &&
    (forall name | name in Recorded(after) ::
      after.migrations.value[name] == if name in Recorded(d) then d.migrations.value[name] else now) &&
    forall version | version != b.version :: OpenerStands(OpenerRows(d), OpenerRows(after), version)
  }

  predicate OpenerStands(
    before: map<string, Option<string>>, after: map<string, Option<string>>, version: string)
  {
    (version in after <==> version in before) && (version in before ==> after[version] == before[version])
  }

  lemma RowsStandOn(d: Database, b: Build, now: Date, between: Database, after: Database)
    requires RowsStand(d, b, now, between) && RowsStand(between, b, now, after)
    ensures RowsStand(d, b, now, after)
  {
    forall version | version != b.version ensures OpenerStands(OpenerRows(d), OpenerRows(after), version) {
      assert OpenerStands(OpenerRows(d), OpenerRows(between), version);
      assert OpenerStands(OpenerRows(between), OpenerRows(after), version);
    }
  }

  lemma ExecutedRowsStand(d: Database, b: Build, i: nat, now: Date)
    requires i < |b.list| && d.migrations.Some? && b.list[i] !in Recorded(d)
    ensures RowsStand(d, b, now, Executed(d, b, i, now))
  {
  }

  /** Through every commit of the migrations and of the record. */
  lemma {:induction false} EveryRowStands(d: Database, b: Build, i: nat, now: Date, j: nat)
    requires i <= |b.list| && d.migrations.Some? && j < |ApplyFrom(d, b, i, now).commits|
    ensures RowsStand(d, b, now, ApplyFrom(d, b, i, now).commits[j])
    decreases |b.list| - i
  {
    if i < |b.list| {
      if b.list[i] in Recorded(d) {
        EveryRowStands(d, b, i + 1, now, j);
      } else {
        var next := Executed(d, b, i, now);
        ExecutedRowsStand(d, b, i, now);
        if j > 0 {
          EveryRowStands(next, b, i + 1, now, j - 1);
          RowsStandOn(d, b, now, next, ApplyFrom(d, b, i, now).commits[j]);
        }
      }
    }
  }

  /** The first migration alone makes the table of openers: past it, a database without one ends no start. */
  lemma {:induction false} NoOpenersNoRecord(d: Database, b: Build, i: nat, now: Date)
    requires 0 < i <= |b.list| && d.migrations.Some? && d.openers.None?
    ensures ApplyFrom(d, b, i, now).outcome.Failed?
    decreases |b.list| - i
  {
    if i < |b.list| {
      if b.list[i] in Recorded(d) {
        NoOpenersNoRecord(d, b, i + 1, now);
      } else if !b.breaks(b.list[i], d.schema) {
        NoOpenersNoRecord(Executed(d, b, i, now), b, i + 1, now);
      }
    }
  }

  // ----- a build's own list

  /** Names once each, none of 0.1.5's and none that stands for no migration. */
  ghost predicate WellListed(list: seq<string>, former: seq<string>) {
    (forall i, j | 0 <= i < j < |list| :: list[i] != list[j]) &&
    (forall i | 0 <= i < |list| :: list[i] !in former && list[i] != "" && list[i] != "unknown")
  }

  function Among(list: seq<string>): set<string> {
    set name | name in list
  }

  /** The migrations recorded are the first `k` of `list`, and the schema those on top of `from`. */
  ghost predicate UpTo(d: Database, list: seq<string>, from: seq<string>, k0: nat, k: nat)
    requires k0 <= k <= |list|
  {
    d.migrations.Some? && Recorded(d) == Among(list[..k]) && d.schema == from + list[k0..k]
  }

  lemma ExecutedUpTo(d: Database, b: Build, i: nat, now: Date)
    requires i < |b.list| && UpTo(d, b.list, d.schema, i, i)
    ensures var next := Executed(d, b, i, now);
      UpTo(next, b.list, next.schema, i + 1, i + 1) && UpTo(next, b.list, d.schema, i, i + 1)
  {
    assert b.list[..i + 1] == b.list[..i] + [b.list[i]];
    assert Among(b.list[..i + 1]) == Among(b.list[..i]) + {b.list[i]};
  }

  lemma ReachesFromBefore(c: Database, d: Database, list: seq<string>, i: nat, k: nat)
    requires i < k <= |list| && UpTo(c, list, d.schema + [list[i]], i + 1, k)
    ensures UpTo(c, list, d.schema, i, k)
  {
    assert d.schema + [list[i]] + list[i + 1..k] == d.schema + list[i..k];
  }

  /** Every commit of `run` holds a prefix of `list` from `k0` on, and its end, where it finished, all of it. */
  ghost predicate HoldsPrefixes(run: Run, d: Database, list: seq<string>, k0: nat) {
    (forall j | 0 <= j < |run.commits| :: Reaches(run.commits[j], list, d.schema, k0)) &&
    (run.outcome.Finished? ==> k0 <= |list| && UpTo(run.Last(d), list, d.schema, k0, |list|))
  }

  /**
   * At every commit of a run the names recorded are a prefix of the list and the scripts executed are
   * the rest of that prefix, each once and in order; a run that finishes has reached the whole list.
   */
  lemma {:induction false} RecordedAPrefix(d: Database, b: Build, i: nat, k: nat, now: Date)
    requires WellListed(b.list, b.former) && i <= k <= |b.list| && UpTo(d, b.list, d.schema, k, k)
    ensures HoldsPrefixes(ApplyFrom(d, b, i, now), d, b.list, k)
    decreases |b.list| - i
  {
    if i == |b.list| {
      RecordUpTo(d, b, now);
    } else {
      PrefixAt(d, b, i, k);
      if i < k {
        RecordedAPrefix(d, b, i + 1, k, now);
      } else {
        RecordedFromExecuted(d, b, i, now);
      }
    }
  }

  lemma PrefixAt(d: Database, b: Build, i: nat, k: nat)
    requires WellListed(b.list, b.former) && i <= k <= |b.list| && i < |b.list| && UpTo(d, b.list, d.schema, k, k)
    ensures b.list[i] in Recorded(d) <==> i < k
  {
    if i < k {
      assert b.list[i] in b.list[..k];
    } else {
      assert b.list[i] !in b.list[..i];
    }
  }

  lemma RecordUpTo(d: Database, b: Build, now: Date)
    requires UpTo(d, b.list, d.schema, |b.list|, |b.list|)
    ensures HoldsPrefixes(ApplyFrom(d, b, |b.list|, now), d, b.list, |b.list|)
  {
    if d.openers.Some? && d.column && b.list != [] {
      var after := Record(d, b);
      assert Recorded(after) == Recorded(d);
      assert UpTo(after, b.list, d.schema, |b.list|, |b.list|);
    }
  }

  lemma {:induction false} RecordedFromExecuted(d: Database, b: Build, i: nat, now: Date)
    requires WellListed(b.list, b.former) && i < |b.list| && UpTo(d, b.list, d.schema, i, i)
    requires b.list[i] !in Recorded(d)
    ensures HoldsPrefixes(ApplyFrom(d, b, i, now), d, b.list, i)
    decreases |b.list| - i, 0
  {
    if !b.breaks(b.list[i], d.schema) {
      var next := Executed(d, b, i, now);
      ExecutedUpTo(d, b, i, now);
      RecordedAPrefix(next, b, i + 1, i + 1, now);
      PrefixesFromBefore(ApplyFrom(next, b, i + 1, now), next, d, b.list, i);
    }
  }

  lemma PrefixesFromBefore(rest: Run, next: Database, d: Database, list: seq<string>, i: nat)
    requires i < |list| && next.schema == d.schema + [list[i]]
    requires UpTo(next, list, d.schema, i, i + 1) && HoldsPrefixes(rest, next, list, i + 1)
    ensures HoldsPrefixes(Then(next, rest), d, list, i)
  {
    forall j | 0 <= j < |rest.commits| ensures Reaches(rest.commits[j], list, d.schema, i) {
      var k :| i + 1 <= k <= |list| && UpTo(rest.commits[j], list, next.schema, i + 1, k);
      ReachesFromBefore(rest.commits[j], d, list, i, k);
    }
    if rest.outcome.Finished? {
      ReachesFromBefore(rest.Last(next), d, list, i, |list|);
      assert Then(next, rest).Last(d) == rest.Last(next);
    }
  }

  ghost predicate Reaches(d: Database, list: seq<string>, from: seq<string>, k0: nat) {
    exists k :: k0 <= k <= |list| && UpTo(d, list, from, k0, k)
  }

  // ----- stopping and starting again

  /** The same but for the dates the migrations are recorded at. */
  ghost predicate Alike(x: Database, y: Database) {
    x.migrations.Some? == y.migrations.Some? && Recorded(x) == Recorded(y) && x.schema == y.schema &&
    x.openers == y.openers && x.column == y.column
  }

  /** Two runs, from `x` and from `y`, that end alike. */
  ghost predicate EndAlike(x: Database, one: Run, y: Database, other: Run) {
    one.outcome == other.outcome && Alike(one.Last(x), other.Last(y))
  }

  lemma {:induction false} ClockUnread(x: Database, y: Database, b: Build, i: nat, now: Date, later: Date)
    requires i <= |b.list| && x.migrations.Some? && Alike(x, y)
    ensures EndAlike(x, ApplyFrom(x, b, i, now), y, ApplyFrom(y, b, i, later))
    decreases |b.list| - i
  {
    if i < |b.list| {
      if b.list[i] in Recorded(x) {
        ClockUnread(x, y, b, i + 1, now, later);
      } else if !b.breaks(b.list[i], x.schema) {
        ClockUnread(Executed(x, b, i, now), Executed(y, b, i, later), b, i + 1, now, later);
      }
    }
  }

  lemma {:induction false} SkipsApplied(d: Database, b: Build, from: nat, i: nat, now: Date)
    requires from <= i <= |b.list| && d.migrations.Some?
    requires forall j | from <= j < i :: b.list[j] in Recorded(d)
    ensures ApplyFrom(d, b, from, now) == ApplyFrom(d, b, i, now)
    decreases i - from
  {
    if from < i {
      SkipsApplied(d, b, from + 1, i, now);
    }
  }

  lemma {:induction false} ResumesFrom(d: Database, b: Build, i: nat, j: nat, now: Date, later: Date)
    requires i <= |b.list| && d.migrations.Some? && forall m | 0 <= m < i :: b.list[m] in Recorded(d)
    requires j < |ApplyFrom(d, b, i, now).commits|
    ensures var c := ApplyFrom(d, b, i, now).commits[j];
      c.migrations.Some? && EndAlike(c, ApplyFrom(c, b, 0, later), d, ApplyFrom(d, b, i, now))
    decreases |b.list| - i
  {
    var c := ApplyFrom(d, b, i, now).commits[j];
    if i == |b.list| {
      SkipsApplied(c, b, 0, i, later);
      assert c.openers.value[b.version := Some(b.list[|b.list| - 1])] == c.openers.value;
      assert Record(c, b) == c;
    } else if b.list[i] in Recorded(d) {
      ResumesFrom(d, b, i + 1, j, now, later);
    } else {
      var next := Executed(d, b, i, now);
      if j == 0 {
        SkipsApplied(next, b, 0, i + 1, later);
        ClockUnread(next, next, b, i + 1, later, now);
      } else {
        ResumesFrom(next, b, i + 1, j - 1, now, later);
      }
    }
  }

  /** A run begun is never refused again: nothing it commits is ahead of its build. */
  lemma {:induction false} CommitsOpen(d: Database, b: Build, i: nat, now: Date, j: nat)
    requires WellListed(b.list, b.former) && i <= |b.list| && d.migrations.Some?
    requires !OpenedAhead(d, b) && !HoldsOldNames(d, b)
    requires j < |ApplyFrom(d, b, i, now).commits|
    ensures !OpenedAhead(ApplyFrom(d, b, i, now).commits[j], b) && !HoldsOldNames(ApplyFrom(d, b, i, now).commits[j], b)
    decreases |b.list| - i
  {
    var c := ApplyFrom(d, b, i, now).commits[j];
    if i == |b.list| {
      forall version ensures !Ahead(c, b, version) {
        assert !Ahead(d, b, version);
      }
    } else if b.list[i] in Recorded(d) {
      CommitsOpen(d, b, i + 1, now, j);
    } else {
      var next := Executed(d, b, i, now);
      forall version ensures !Ahead(next, b, version) {
        assert !Ahead(d, b, version);
      }
      if j > 0 {
        CommitsOpen(next, b, i + 1, now, j - 1);
      }
    }
  }

  lemma RewrittenOpens(d: Database, b: Build, installed: Date)
    requires WellListed(b.list, b.former) && b.list != [] && d.migrations.Some? && !OpenedAhead(d, b)
    ensures !OpenedAhead(Rewritten(d, b, installed), b) && !HoldsOldNames(Rewritten(d, b, installed), b)
  {
    forall version ensures !Ahead(Rewritten(d, b, installed), b, version) {
      assert !Ahead(d, b, version);
    }
  }

  lemma AppliedResumes(d: Database, b: Build, j: nat, now: Date, later: Date)
    requires WellListed(b.list, b.former) && !OpenedAhead(d, b) && !HoldsOldNames(d, b)
    requires j < |Applied(d, b, now).commits|
    ensures var c := Applied(d, b, now).commits[j];
      EndAlike(c, RunOf(c, b, later), d, Applied(d, b, now))
  {
    var made := if d.migrations.Some? then d else d.(migrations := Some(map[]));
    var c := Applied(d, b, now).commits[j];
    forall version ensures !Ahead(made, b, version) {
      assert !Ahead(d, b, version);
    }
    if d.migrations.None? && j == 0 {
      ClockUnread(made, made, b, 0, later, now);
    } else {
      var at := if d.migrations.Some? then j else j - 1;
      CommitsOpen(made, b, 0, now, at);
      ResumesFrom(made, b, 0, at, now, later);
    }
  }

  /**
   * Stopped after any of its commits and run again at any later time, a run ends as it would have
   * uninterrupted: the same outcome, the same names, schema and openers.
   */
  lemma StoppedAnywhereResumes(d: Database, b: Build, j: nat, now: Date, later: Date)
    requires WellListed(b.list, b.former) && j < |RunOf(d, b, now).commits|
    ensures var c := RunOf(d, b, now).commits[j];
      EndAlike(c, RunOf(c, b, later), d, RunOf(d, b, now))
  {
    if !HoldsOldNames(d, b) {
      AppliedResumes(d, b, j, now, later);
    } else {
      var rewritten := Rewritten(d, b, Installed(d.migrations.value, b.former));
      RewrittenOpens(d, b, Installed(d.migrations.value, b.former));
      if j == 0 {
        ClockUnread(rewritten, rewritten, b, 0, later, now);
      } else {
        AppliedResumes(rewritten, b, j - 1, now, later);
      }
    }
  }

  // ----- which databases a run turns away

  /** The release `version` opened the database at a migration `b` has not, or at none and is later than `b`. */
  predicate OpenedPast(d: Database, b: Build, version: string) {
    d.openers.Some? && version in d.openers.value &&
    match d.openers.value[version]
    case None => b.rank(b.version) < b.rank(version)
    case Some(last) =>
      last != "" && last != "unknown" && (forall i | 0 <= i < |b.list| :: b.list[i] != last) &&
      forall i | 0 <= i < |b.former| :: b.former[i] != last
  }

  ghost predicate HoldsFormer(d: Database, b: Build) {
    exists i :: 0 <= i < |b.former| && b.former[i] in Recorded(d)
  }

  ghost predicate HoldsLastFormer(d: Database, b: Build) {
    exists i :: i + 1 == |b.former| && 0 <= i && b.former[i] in Recorded(d)
  }

  /** A name recorded that neither 0.1.5 nor this build ever gave a migration. */
  ghost predicate HoldsAnother(d: Database, b: Build) {
    exists name | name in Recorded(d) ::
      (forall i | 0 <= i < |b.former| :: b.former[i] != name) && forall i | 0 <= i < |b.list| :: b.list[i] != name
  }

  lemma AheadIsPast(d: Database, b: Build)
    ensures OpenedAhead(d, b) <==> exists version :: OpenedPast(d, b, version)
  {
    forall version ensures Ahead(d, b, version) <==> OpenedPast(d, b, version) {
    }
  }

  lemma HeldNames(d: Database, b: Build)
    ensures HoldsOldNames(d, b) <==> HoldsFormer(d, b)
    ensures HoldsLast(d, b) <==> HoldsLastFormer(d, b)
    ensures (exists name :: Stray(d, b, name)) <==> HoldsAnother(d, b)
  {
    if HoldsOldNames(d, b) {
      var name :| name in Recorded(d) && name in b.former;
      var i :| 0 <= i < |b.former| && b.former[i] == name;
      assert b.former[i] in Recorded(d);
    }
    if HoldsLast(d, b) {
      assert (|b.former| - 1) + 1 == |b.former| && b.former[|b.former| - 1] in Recorded(d);
    }
    forall name ensures Stray(d, b, name) <==> (name in Recorded(d) &&
      (forall i | 0 <= i < |b.former| :: b.former[i] != name) && forall i | 0 <= i < |b.list| :: b.list[i] != name) {
    }
  }

  /**
   * When a run is refused and why, of every database and build: a later opener, a release older than 0.1.5's
   * last migration, a build between releases. Refused, it commits nothing.
   */
  lemma RefusedExactly(d: Database, b: Build, now: Date)
    ensures var (run, past) := (RunOf(d, b, now), exists version :: OpenedPast(d, b, version));
      (run.outcome == Refused(OpenedByNewer) <==> past) &&
      (run.outcome == Refused(BeforeRelease015) <==> !past && HoldsFormer(d, b) && !HoldsLastFormer(d, b)) &&
      (run.outcome == Refused(BetweenReleases) <==> !past && HoldsLastFormer(d, b) && HoldsAnother(d, b)) &&
      (run.outcome.Refused? ==> run.commits == [])
  {
    AheadIsPast(d, b);
    HeldNames(d, b);
    if !HoldsOldNames(d, b) {
      NeverRefused(if d.migrations.Some? then d else d.(migrations := Some(map[])), b, 0, now);
    } else if b.list != [] {
      NeverRefused(Rewritten(d, b, Installed(d.migrations.value, b.former)), b, 0, now);
    }
  }

  /**
   * A run that commits on 0.1.5's names began on the last of them, with no other release's beside; it forgets
   * those names, records the first migration in their place, and touches nothing else.
   */
  lemma OldNamesRewritten(d: Database, b: Build, now: Date)
    requires HoldsFormer(d, b) && RunOf(d, b, now).commits != []
    ensures HoldsLastFormer(d, b) && !HoldsAnother(d, b)
    ensures var first := RunOf(d, b, now).commits[0];
      b.list != [] && b.list[0] !in Recorded(d) && first == d.(migrations := first.migrations) &&
      Recorded(first) == (set name | name in Recorded(d) && name !in b.former) + {b.list[0]} &&
      forall name | name in Recorded(d) && name !in b.former ::
        first.migrations.value[name] == d.migrations.value[name]
  {
    RefusedExactly(d, b, now);
    HeldNames(d, b);
  }

  // ----- builds of different ages

  /** A build of the one growing list, late enough to record its schema, no older than 0.1.5. */
  ghost predicate Descends(b: Build, full: seq<string>, former: seq<string>) {
    b.former == former && 2 <= |b.list| <= |full| && b.list == full[..|b.list|] && b.rank("0.1.5") <= b.rank(b.version)
  }

  /** A database nobody opened, or one that 0.1.5 left, `dates` its records. */
  ghost predicate Untouched(d: Database) {
    d == Database(None, [], None, false)
  }

  ghost predicate LeftBy015(d: Database, full: seq<string>, former: seq<string>) {
    full != [] && d.migrations.Some? && former != [] && former[|former| - 1] in Recorded(d) &&
    Recorded(d) <= Among(former) && d.schema == [full[0]] && d.openers == Some(map["0.1.5" := None]) && !d.column
  }

  /** Openers of builds of the list: each recorded a migration before the `m`-th, and one the last of those. */
  ghost predicate OpenedUpTo(d: Database, full: seq<string>, m: nat) {
    0 < m <= |full| && d.openers.Some? && d.column &&
    OpenersWithin(d.openers.value, full, m) &&
    (exists v | v in d.openers.value :: d.openers.value[v] == Some(full[m - 1]))
  }

  /** The database after completed starts, the longest list among them of `m` names: 0 is none yet. */
  ghost predicate Grown(d: Database, full: seq<string>, former: seq<string>, m: nat) {
    if m == 0 then Untouched(d) || LeftBy015(d, full, former)
    else 2 <= m <= |full| && UpTo(d, full, [], 0, m) && OpenedUpTo(d, full, m)
  }

  lemma {:induction false} OpenersAfter(d: Database, b: Build, i: nat, now: Date)
    requires i <= |b.list| && d.migrations.Some? && b.list != [] && ApplyFrom(d, b, i, now).outcome.Finished?
    ensures var last := ApplyFrom(d, b, i, now).Last(d);
      last.column && last.openers ==
        Some((if d.openers.Some? then d.openers.value else map[])[b.version := Some(b.list[|b.list| - 1])])
    decreases |b.list| - i
  {
    if i < |b.list| {
      if b.list[i] in Recorded(d) {
        OpenersAfter(d, b, i + 1, now);
      } else {
        OpenersAfter(Executed(d, b, i, now), b, i + 1, now);
      }
    }
  }

  /** Every opener is 0.1.5, or recorded one of the first `n` migrations. */
  ghost predicate OpenersWithin(openers: map<string, Option<string>>, full: seq<string>, n: nat)
    requires n <= |full|
  {
    forall v | v in openers :: (openers[v] == None && v == "0.1.5") || Within(openers[v], full, n)
  }

  ghost predicate Within(schema: Option<string>, full: seq<string>, n: nat)
    requires n <= |full|
  {
    exists j | 0 <= j < n :: schema == Some(full[j])
  }

  lemma OpenedByThis(d: Database, full: seq<string>, former: seq<string>, b: Build, now: Date)
    requires Descends(b, full, former) && d.migrations.Some? && ApplyFrom(d, b, 0, now).outcome.Finished?
    requires d.openers.Some? ==> OpenersWithin(d.openers.value, full, |b.list|)
    ensures OpenedUpTo(ApplyFrom(d, b, 0, now).Last(d), full, |b.list|)
  {
    var last, n := ApplyFrom(d, b, 0, now).Last(d), |b.list|;
    OpenersAfter(d, b, 0, now);
    assert b.list[n - 1] == full[n - 1];
    assert last.openers.value[b.version] == Some(full[n - 1]);
    assert Within(last.openers.value[b.version], full, n);
  }

  /** From a database whose records are the first `k` names, with openers of no later build. */
  lemma FinishedGrows(d: Database, full: seq<string>, former: seq<string>, b: Build, k: nat, now: Date)
    requires WellListed(full, former) && Descends(b, full, former) && k <= |b.list|
    requires UpTo(d, b.list, [], 0, k) && !ApplyFrom(d, b, 0, now).outcome.Failed?
    requires d.openers.Some? ==> OpenersWithin(d.openers.value, full, |b.list|)
    ensures Grown(ApplyFrom(d, b, 0, now).Last(d), full, former, |b.list|)
  {
    NeverRefused(d, b, 0, now);
    OpenedByThis(d, full, former, b, now);
    assert UpTo(d, b.list, d.schema, k, k);
    RecordedAPrefix(d, b, 0, k, now);
    WholeList(ApplyFrom(d, b, 0, now).Last(d), full, b.list, d.schema, k);
  }

  lemma WholeList(last: Database, full: seq<string>, list: seq<string>, schema: seq<string>, k: nat)
    requires k <= |list| <= |full| && list == full[..|list|] && schema == list[0..k]
    requires UpTo(last, list, schema, k, |list|)
    ensures UpTo(last, full, [], 0, |list|)
  {
    assert list[0..k] + list[k..|list|] == list;
    assert full[0..|list|] == list && list[..|list|] == list;
  }

  lemma {:induction false} NeverRefused(d: Database, b: Build, i: nat, now: Date)
    requires i <= |b.list| && d.migrations.Some?
    ensures !ApplyFrom(d, b, i, now).outcome.Refused?
    decreases |b.list| - i
  {
    if i < |b.list| {
      if b.list[i] in Recorded(d) {
        NeverRefused(d, b, i + 1, now);
      } else {
        NeverRefused(Executed(d, b, i, now), b, i + 1, now);
      }
    }
  }

  /** Who a start turns away: exactly the builds whose list the database has outgrown. */
  lemma AheadMeansLonger(d: Database, full: seq<string>, former: seq<string>, b: Build, m: nat)
    requires WellListed(full, former) && Descends(b, full, former) && Grown(d, full, former, m)
    ensures OpenedAhead(d, b) <==> |b.list| < m
  {
    if m > 0 {
      if |b.list| < m {
        var v :| v in d.openers.value && d.openers.value[v] == Some(full[m - 1]);
        assert full[m - 1] !in full[..|b.list|];
        assert Ahead(d, b, v);
      } else {
        forall v ensures !Ahead(d, b, v) {
          if v in d.openers.value && d.openers.value[v].Some? {
            var j :| 0 <= j < m && d.openers.value[v] == Some(full[j]);
            assert full[j] == b.list[j];
          }
        }
      }
    } else {
      assert forall v :: !Ahead(d, b, v);
    }
  }

  lemma FromUntouched(d: Database, full: seq<string>, former: seq<string>, b: Build, now: Date)
    requires WellListed(full, former) && Descends(b, full, former) && Untouched(d) && !RunOf(d, b, now).outcome.Failed?
    requires !OpenedAhead(d, b)
    ensures RunOf(d, b, now).outcome.Finished? && Grown(RunOf(d, b, now).Last(d), full, former, |b.list|)
  {
    var made := d.(migrations := Some(map[]));
    NeverRefused(made, b, 0, now);
    FinishedGrows(made, full, former, b, 0, now);
  }

  lemma From015(d: Database, full: seq<string>, former: seq<string>, b: Build, now: Date)
    requires WellListed(full, former) && Descends(b, full, former) && LeftBy015(d, full, former)
    requires !RunOf(d, b, now).outcome.Failed?
    requires !OpenedAhead(d, b)
    ensures RunOf(d, b, now).outcome.Finished? && Grown(RunOf(d, b, now).Last(d), full, former, |b.list|)
  {
    var rewritten := Rewritten(d, b, Installed(d.migrations.value, b.former));
    assert b.list[0] == full[0] && b.list[0] !in Recorded(d);
    assert forall name :: !Stray(d, b, name);
    assert Recorded(rewritten) == {full[0]};
    assert b.list[..1] == [full[0]] && b.list[0..1] == [full[0]];
    NeverRefused(rewritten, b, 0, now);
    FinishedGrows(rewritten, full, former, b, 1, now);
  }

  lemma FromGrown(d: Database, full: seq<string>, former: seq<string>, b: Build, m: nat, now: Date)
    requires WellListed(full, former) && Descends(b, full, former) && 0 < m <= |b.list| && Grown(d, full, former, m)
    requires !RunOf(d, b, now).outcome.Failed? && !OpenedAhead(d, b)
    ensures RunOf(d, b, now).outcome.Finished? && Grown(RunOf(d, b, now).Last(d), full, former, |b.list|)
  {
    assert full[..m] == b.list[..m] && full[0..m] == b.list[0..m];
    assert forall i | 0 <= i < m :: full[i] in full[..m];
    assert !HoldsOldNames(d, b);
    NeverRefused(d, b, 0, now);
    forall v | v in d.openers.value && Within(d.openers.value[v], full, m)
      ensures Within(d.openers.value[v], full, |b.list|)
    {
    }
    FinishedGrows(d, full, former, b, m, now);
  }

  /** One completed start. */
  lemma StartGrows(d: Database, full: seq<string>, former: seq<string>, b: Build, m: nat, now: Date)
    requires WellListed(full, former) && Descends(b, full, former) && Grown(d, full, former, m)
    requires !RunOf(d, b, now).outcome.Failed?
    ensures RunOf(d, b, now).outcome.Refused? <==> |b.list| < m
    ensures !RunOf(d, b, now).outcome.Refused? ==> Grown(RunOf(d, b, now).Last(d), full, former, |b.list|)
    ensures RunOf(d, b, now).outcome.Refused? ==> RunOf(d, b, now).Last(d) == d
  {
    AheadMeansLonger(d, full, former, b, m);
    if m > 0 {
      if m <= |b.list| {
        FromGrown(d, full, former, b, m, now);
      }
    } else if Untouched(d) {
      FromUntouched(d, full, former, b, now);
    } else {
      From015(d, full, former, b, now);
    }
  }

  datatype Start = Start(build: Build, at: Date)

  ghost function After(d: Database, starts: seq<Start>): Database {
    if starts == [] then d
    else
      var last := starts[|starts| - 1];
      RunOf(After(d, starts[..|starts| - 1]), last.build, last.at).Last(After(d, starts[..|starts| - 1]))
  }

  /** Each start of a build of the one list, refused or finished: none failed, none was stopped half way. */
  ghost predicate Completed(d: Database, full: seq<string>, former: seq<string>, starts: seq<Start>) {
    starts != [] ==>
      var (before, last) := (starts[..|starts| - 1], starts[|starts| - 1]);
      Completed(d, full, former, before) && Descends(last.build, full, former) &&
      !RunOf(After(d, before), last.build, last.at).outcome.Failed?
  }

  /** The length of the longest list among the builds started, 0 for none. */
  function Longest(starts: seq<Start>): nat {
    if starts == [] then 0
    else
      var before, n := Longest(starts[..|starts| - 1]), |starts[|starts| - 1].build.list|;
      if n > before then n else before
  }

  lemma {:induction false} StartsGrow(d: Database, full: seq<string>, former: seq<string>, starts: seq<Start>)
    requires WellListed(full, former) && Grown(d, full, former, 0) && Completed(d, full, former, starts)
    ensures Longest(starts) <= |full| && Grown(After(d, starts), full, former, Longest(starts))
    decreases |starts|
  {
    if starts != [] {
      var before, last := starts[..|starts| - 1], starts[|starts| - 1];
      StartsGrow(d, full, former, before);
      StartGrows(After(d, before), full, former, last.build, Longest(before), last.at);
    }
  }

  /**
   * After any completed starts of any builds of the one list, a start is refused exactly when a build
   * with a longer list started before. Any other leaves the database holding the migrations of its
   * own build and none it does not know.
   */
  lemma RefusedExactlyWhenOutgrown(d: Database, full: seq<string>, former: seq<string>, starts: seq<Start>,
                                   b: Build, now: Date)
    requires WellListed(full, former) && Grown(d, full, former, 0) && Completed(d, full, former, starts)
    requires Descends(b, full, former)
    requires !RunOf(After(d, starts), b, now).outcome.Failed?
    ensures RunOf(After(d, starts), b, now).outcome.Refused? <==> |b.list| < Longest(starts)
    ensures var last := RunOf(After(d, starts), b, now).Last(After(d, starts));
      if |b.list| < Longest(starts) then last == After(d, starts)
      else Recorded(last) == Among(b.list) && last.schema == b.list
  {
    StartsGrow(d, full, former, starts);
    StartGrows(After(d, starts), full, former, b, Longest(starts), now);
    if |b.list| >= Longest(starts) {
      var last := RunOf(After(d, starts), b, now).Last(After(d, starts));
      assert full[..|b.list|] == b.list && full[0..|b.list|] == b.list;
    }
  }

  // ----- starts stopped anywhere

  /** The commit `j` of a run is its record of the release: the last one of a run that finished. */
  predicate IsRecord(run: Run, j: nat) {
    run.outcome.Finished? && j + 1 == |run.commits|
  }

  /** The length of the longest list recorded once a build's run has reached its commit `j`, `m` before. */
  function Records(run: Run, j: nat, b: Build, m: nat): nat {
    if IsRecord(run, j) then |b.list| else m
  }

  lemma {:induction false} FinishedHasARecord(d: Database, b: Build, i: nat, now: Date)
    requires i <= |b.list| && d.migrations.Some? && ApplyFrom(d, b, i, now).outcome.Finished?
    ensures ApplyFrom(d, b, i, now).commits != []
    decreases |b.list| - i
  {
    if i < |b.list| && b.list[i] in Recorded(d) {
      FinishedHasARecord(d, b, i + 1, now);
    }
  }

  /** The openers an `older` build is turned away by are the same of both. */
  ghost predicate ShowsAlike(c: Database, d: Database, older: Build) {
    forall version :: Ahead(c, older, version) <==> Ahead(d, older, version)
  }

  lemma {:induction false} UnrecordedShowsNothing(d: Database, b: Build, older: Build, i: nat, now: Date, j: nat)
    requires i <= |b.list| && d.migrations.Some? && j < |ApplyFrom(d, b, i, now).commits|
    requires !IsRecord(ApplyFrom(d, b, i, now), j)
    ensures ShowsAlike(ApplyFrom(d, b, i, now).commits[j], d, older)
    decreases |b.list| - i
  {
    if i < |b.list| {
      if b.list[i] in Recorded(d) {
        UnrecordedShowsNothing(d, b, older, i + 1, now, j);
      } else if j > 0 {
        var next := Executed(d, b, i, now);
        UnrecordedShowsNothing(next, b, older, i + 1, now, j - 1);
        assert ShowsAlike(next, d, older);
      }
    }
  }

  /**
   * What another build is turned away by changes at one commit alone, the record of a run that
   * finished: stopped before it, a start leaves no trace of itself.
   */
  lemma OnlyTheRecordShows(d: Database, b: Build, older: Build, now: Date, j: nat)
    requires j < |RunOf(d, b, now).commits| && !IsRecord(RunOf(d, b, now), j)
    ensures OpenedAhead(RunOf(d, b, now).commits[j], older) <==> OpenedAhead(d, older)
  {
    var from := if HoldsOldNames(d, b) then Rewritten(d, b, Installed(d.migrations.value, b.former)) else d;
    var made := if from.migrations.Some? then from else from.(migrations := Some(map[]));
    var first := (if HoldsOldNames(d, b) then 1 else 0) + if from.migrations.Some? then 0 else 1;
    assert ShowsAlike(made, d, older) && ShowsAlike(from, d, older);
    var c := RunOf(d, b, now).commits[j];
    if j >= first {
      UnrecordedShowsNothing(made, b, older, 0, now, j - first);
      assert ShowsAlike(c, made, older);
    }
    assert ShowsAlike(c, d, older);
    if version :| Ahead(c, older, version) {
      assert Ahead(d, older, version);
    }
    if version :| Ahead(d, older, version) {
      assert Ahead(c, older, version);
    }
  }

  /** A database some start has begun: its first `k` migrations, its openers within the first `m`. */
  ghost predicate Standing(d: Database, full: seq<string>, m: nat, k: nat) {
    m <= k <= |full| && UpTo(d, full, [], 0, k) && (k >= 2 ==> d.column) &&
    if k == 0 then d.openers.None? else d.openers.Some? && OpenedWithin(d.openers.value, full, m)
  }

  /**
   * The database after any starts, stopped or not: the first `k` migrations recorded and executed, and
   * the longest list recorded as having opened it of `m` names.
   */
  ghost predicate Stands(d: Database, full: seq<string>, former: seq<string>, m: nat, k: nat) {
    Standing(d, full, m, k) || (k == 0 && m == 0 && (Untouched(d) || LeftBy015(d, full, former)))
  }

  ghost predicate OpenedWithin(openers: map<string, Option<string>>, full: seq<string>, m: nat)
    requires m <= |full|
  {
    OpenersWithin(openers, full, m) && (m > 0 ==> exists v | v in openers :: openers[v] == Some(full[m - 1]))
  }

  lemma WithinFurther(openers: map<string, Option<string>>, full: seq<string>, m: nat, n: nat)
    requires m <= n <= |full| && OpenersWithin(openers, full, m)
    ensures OpenersWithin(openers, full, n)
  {
    forall v | v in openers && Within(openers[v], full, m) ensures Within(openers[v], full, n) {
    }
  }

  lemma RecordStands(d: Database, full: seq<string>, former: seq<string>, b: Build, m: nat, k: nat)
    requires Descends(b, full, former) && Standing(d, full, m, k) && m <= |b.list| <= k
    ensures Standing(Record(d, b), full, |b.list|, k)
  {
    var n, openers := |b.list|, Record(d, b).openers.value;
    WithinFurther(d.openers.value, full, m, n);
    assert b.list[n - 1] == full[n - 1];
    assert openers[b.version] == Some(full[n - 1]) && Within(openers[b.version], full, n);
    assert Recorded(Record(d, b)) == Recorded(d);
  }

  lemma ExecutedStands(d: Database, full: seq<string>, former: seq<string>, b: Build, m: nat, k: nat, now: Date)
    requires Descends(b, full, former) && Standing(d, full, m, k) && k < |b.list|
    ensures Standing(Executed(d, b, k, now), full, m, k + 1)
  {
    assert b.list[k] == full[k];
    assert full[..k + 1] == full[..k] + [full[k]] && full[0..k] == full[..k] && full[0..k + 1] == full[..k + 1];
    assert Among(full[..k + 1]) == Among(full[..k]) + {full[k]};
  }

  /** Where a run that stands at `k` goes next: nothing to do below it, a script at it, the record past its list. */
  lemma StandingAt(d: Database, full: seq<string>, former: seq<string>, b: Build, i: nat, m: nat, k: nat)
    requires WellListed(full, former) && Descends(b, full, former) && Standing(d, full, m, k) && i < |b.list| && i <= k
    ensures b.list[i] in Recorded(d) <==> i < k
  {
    assert b.list[i] == full[i];
    if i < k {
      assert full[i] in full[..k];
    } else {
      assert full[i] !in full[..k];
    }
  }

  lemma {:induction false} CommitStands(
    d: Database, full: seq<string>, former: seq<string>, b: Build, i: nat, m: nat, k: nat, now: Date, j: nat)
    returns (reached: nat)
    requires WellListed(full, former) && Descends(b, full, former) && Standing(d, full, m, k)
    requires m <= |b.list| && i <= |b.list| && i <= k && j < |ApplyFrom(d, b, i, now).commits|
    ensures Standing(ApplyFrom(d, b, i, now).commits[j], full, Records(ApplyFrom(d, b, i, now), j, b, m), reached)
    decreases |b.list| - i
  {
    if i == |b.list| {
      RecordStands(d, full, former, b, m, k);
      reached := k;
    } else {
      StandingAt(d, full, former, b, i, m, k);
      if i < k {
        reached := CommitStands(d, full, former, b, i + 1, m, k, now, j);
      } else {
        reached := CommitStandsExecuted(d, full, former, b, m, k, now, j);
      }
    }
  }

  lemma {:induction false} CommitStandsExecuted(
    d: Database, full: seq<string>, former: seq<string>, b: Build, m: nat, k: nat, now: Date, j: nat)
    returns (reached: nat)
    requires WellListed(full, former) && Descends(b, full, former) && Standing(d, full, m, k)
    requires m <= |b.list| && k < |b.list| && b.list[k] !in Recorded(d) && j < |ApplyFrom(d, b, k, now).commits|
    ensures Standing(ApplyFrom(d, b, k, now).commits[j], full, Records(ApplyFrom(d, b, k, now), j, b, m), reached)
    decreases |b.list| - k, 0
  {
    var next := Executed(d, b, k, now);
    ExecutedStands(d, full, former, b, m, k, now);
    ThenAt(next, b, k + 1, now, j);
    if j > 0 {
      reached := CommitStands(next, full, former, b, k + 1, m, k + 1, now, j - 1);
    } else {
      reached := k + 1;
    }
  }

  lemma ThenAt(first: Database, b: Build, i: nat, now: Date, j: nat)
    requires i <= |b.list| && first.migrations.Some?
    requires j < |Then(first, ApplyFrom(first, b, i, now)).commits|
    ensures var rest := ApplyFrom(first, b, i, now);
      var run := Then(first, rest);
      if j == 0 then run.commits[j] == first && !IsRecord(run, j)
      else run.commits[j] == rest.commits[j - 1] && IsRecord(run, j) == IsRecord(rest, j - 1)
  {
    if j == 0 && ApplyFrom(first, b, i, now).outcome.Finished? {
      FinishedHasARecord(first, b, i, now);
    }
  }

  /** Who a start turns away: exactly the builds whose list is shorter than the longest recorded. */
  lemma AheadOfStanding(d: Database, full: seq<string>, former: seq<string>, b: Build, m: nat, k: nat)
    requires WellListed(full, former) && Descends(b, full, former) && Stands(d, full, former, m, k)
    ensures OpenedAhead(d, b) <==> |b.list| < m
  {
    if |b.list| < m {
      var v :| v in d.openers.value && d.openers.value[v] == Some(full[m - 1]);
      assert full[m - 1] !in full[..|b.list|];
      assert Ahead(d, b, v);
    } else {
      forall v ensures !Ahead(d, b, v) {
        if d.openers.Some? && v in d.openers.value && d.openers.value[v].Some? {
          var j :| 0 <= j < m && d.openers.value[v] == Some(full[j]);
          assert full[j] == b.list[j];
        }
      }
    }
  }

  /** The first commit of the run from a database no start has begun yet. */
  lemma FirstStands(d: Database, full: seq<string>, former: seq<string>, b: Build, now: Date)
    returns (first: Database, k: nat)
    requires WellListed(full, former) && Descends(b, full, former) && !OpenedAhead(d, b)
    requires Untouched(d) || LeftBy015(d, full, former)
    ensures k < 2 && Standing(first, full, 0, k) && RunOf(d, b, now) == Then(first, ApplyFrom(first, b, 0, now))
  {
    if Untouched(d) {
      first, k := d.(migrations := Some(map[])), 0;
    } else {
      first, k := Rewritten(d, b, Installed(d.migrations.value, b.former)), 1;
      assert b.list[0] == full[0] && b.list[0] !in Recorded(d);
      assert forall name :: !Stray(d, b, name);
      assert Recorded(first) == {full[0]};
      assert full[..1] == [full[0]] && full[0..1] == [full[0]];
    }
  }

  lemma StandingKeepsNoOldNames(d: Database, full: seq<string>, former: seq<string>, b: Build, m: nat, k: nat)
    requires WellListed(full, former) && Descends(b, full, former) && Standing(d, full, m, k)
    ensures !HoldsOldNames(d, b)
  {
    forall name | name in Recorded(d) ensures name !in b.former {
      assert name in full[..k];
    }
  }

  /** Stopped after any of its commits, a run leaves the database standing, the longer for its record alone. */
  lemma HaltStands(d: Database, full: seq<string>, former: seq<string>, b: Build, m: nat, k: nat, now: Date, j: nat)
    returns (reached: nat)
    requires WellListed(full, former) && Descends(b, full, former) && Stands(d, full, former, m, k)
    requires j < |RunOf(d, b, now).commits|
    ensures m <= |b.list|
    ensures Stands(RunOf(d, b, now).commits[j], full, former, Records(RunOf(d, b, now), j, b, m), reached)
  {
    AheadOfStanding(d, full, former, b, m, k);
    if Standing(d, full, m, k) {
      StandingKeepsNoOldNames(d, full, former, b, m, k);
      reached := CommitStands(d, full, former, b, 0, m, k, now, j);
    } else {
      var first, from := FirstStands(d, full, former, b, now);
      ThenAt(first, b, 0, now, j);
      reached := from;
      if j > 0 {
        reached := CommitStands(first, full, former, b, 0, 0, from, now, j - 1);
      }
    }
  }

  /** A start stopped after `commits` of its commits: all of them when it ran to its end, whatever that was. */
  datatype Halt = Halt(build: Build, at: Date, commits: nat)

  /** What a start leaves of the database it found. */
  ghost function Stopped(d: Database, halt: Halt): Database {
    var run := RunOf(d, halt.build, halt.at);
    if 0 < halt.commits <= |run.commits| then run.commits[halt.commits - 1] else d
  }

  /** The longest list recorded once a start has stopped, `m` before it. */
  ghost function Recording(d: Database, halt: Halt, m: nat): nat {
    if halt.commits > 0 && IsRecord(RunOf(d, halt.build, halt.at), halt.commits - 1) && |halt.build.list| > m
    then |halt.build.list| else m
  }

  ghost function Left(d: Database, halts: seq<Halt>): Database {
    if halts == [] then d else Stopped(Left(d, halts[..|halts| - 1]), halts[|halts| - 1])
  }

  /** A build of the one list, stopped where its run had something to stop after. */
  ghost predicate Stops(d: Database, full: seq<string>, former: seq<string>, halt: Halt) {
    Descends(halt.build, full, former) && halt.commits <= |RunOf(d, halt.build, halt.at).commits|
  }

  ghost predicate Possible(d: Database, full: seq<string>, former: seq<string>, halts: seq<Halt>) {
    halts != [] ==>
      Possible(d, full, former, halts[..|halts| - 1]) &&
      Stops(Left(d, halts[..|halts| - 1]), full, former, halts[|halts| - 1])
  }

  /** The longest list among the builds whose start reached its record, 0 for none. */
  ghost function LongestRecorded(d: Database, halts: seq<Halt>): nat {
    if halts == [] then 0
    else Recording(Left(d, halts[..|halts| - 1]), halts[|halts| - 1], LongestRecorded(d, halts[..|halts| - 1]))
  }

  lemma StoppedStands(d: Database, full: seq<string>, former: seq<string>, halt: Halt, m: nat, k: nat)
    returns (reached: nat)
    requires WellListed(full, former) && Stops(d, full, former, halt) && Stands(d, full, former, m, k)
    ensures Stands(Stopped(d, halt), full, former, Recording(d, halt, m), reached)
  {
    reached := k;
    if halt.commits > 0 {
      reached := HaltStands(d, full, former, halt.build, m, k, halt.at, halt.commits - 1);
    }
  }

  lemma {:induction false} HaltsStand(d: Database, full: seq<string>, former: seq<string>, halts: seq<Halt>)
    returns (k: nat)
    requires WellListed(full, former) && Grown(d, full, former, 0) && Possible(d, full, former, halts)
    ensures Stands(Left(d, halts), full, former, LongestRecorded(d, halts), k)
    decreases |halts|
  {
    if halts == [] {
      k := 0;
    } else {
      var before, last := halts[..|halts| - 1], halts[|halts| - 1];
      k := HaltsStand(d, full, former, before);
      k := StoppedStands(Left(d, before), full, former, last, LongestRecorded(d, before), k);
    }
  }

  /**
   * After any starts of builds of the one list, each stopped after any of its commits, a start is refused
   * exactly when a build with a longer list had reached its record.
   */
  lemma RefusedExactlyWhenRecordedLonger(d: Database, full: seq<string>, former: seq<string>, halts: seq<Halt>,
                                         b: Build, now: Date)
    requires WellListed(full, former) && Grown(d, full, former, 0) && Possible(d, full, former, halts)
    requires Descends(b, full, former)
    ensures RunOf(Left(d, halts), b, now).outcome.Refused? <==> |b.list| < LongestRecorded(d, halts)
  {
    var at := Left(d, halts);
    var k := HaltsStand(d, full, former, halts);
    AheadOfStanding(at, full, former, b, LongestRecorded(d, halts), k);
    if !OpenedAhead(at, b) {
      if Standing(at, full, LongestRecorded(d, halts), k) {
        StandingKeepsNoOldNames(at, full, former, b, LongestRecorded(d, halts), k);
        NeverRefused(at, b, 0, now);
      } else {
        var first, from := FirstStands(at, full, former, b, now);
        NeverRefused(first, b, 0, now);
      }
    }
  }

  lemma {:induction false} FinishedAdds(d: Database, b: Build, i: nat, now: Date)
    requires i <= |b.list| && d.migrations.Some? && ApplyFrom(d, b, i, now).outcome.Finished?
    ensures Recorded(ApplyFrom(d, b, i, now).Last(d)) == Recorded(d) + Among(b.list[i..])
    decreases |b.list| - i
  {
    if i == |b.list| {
      assert Recorded(Record(d, b)) == Recorded(d);
    } else {
      assert b.list[i..] == [b.list[i]] + b.list[i + 1..];
      assert Among(b.list[i..]) == {b.list[i]} + Among(b.list[i + 1..]);
      if b.list[i] in Recorded(d) {
        FinishedHasARecord(d, b, i, now);
        FinishedAdds(d, b, i + 1, now);
      } else {
        FinishedAdds(Executed(d, b, i, now), b, i + 1, now);
      }
    }
  }

  /**
   * A start that finishes forgets 0.1.5's names, adds its own list and leaves the rest: it ends on a database
   * of migrations it knows exactly when it began on one, which no opener need tell it.
   */
  lemma FinishedHolds(d: Database, b: Build, now: Date)
    requires RunOf(d, b, now).outcome.Finished?
    ensures Recorded(RunOf(d, b, now).Last(d)) == Recorded(d) - Among(b.former) + Among(b.list)
    ensures Recorded(RunOf(d, b, now).Last(d)) <= Among(b.list) <==> Recorded(d) <= Among(b.list) + Among(b.former)
  {
    var from := if HoldsOldNames(d, b) then Rewritten(d, b, Installed(d.migrations.value, b.former)) else d;
    var made := if from.migrations.Some? then from else from.(migrations := Some(map[]));
    assert b.list[0..] == b.list;
    FinishedHasARecord(made, b, 0, now);
    FinishedAdds(made, b, 0, now);
    assert RunOf(d, b, now).Last(d) == ApplyFrom(made, b, 0, now).Last(made);
  }

  /** Stopped between its last migration and its record, a start leaves what an older build takes for its own. */
  lemma UnrecordedIsNotRefused(newer: Build, older: Build, now: Date, later: Date)
    requires newer.list == ["a", "b", "c"] && older.list == ["a", "b"]
    requires WellListed(newer.list, newer.former) && older.former == newer.former
    requires forall name, schema :: !newer.breaks(name, schema)
    ensures var run := RunOf(Database(None, [], None, false), newer, now);
      |run.commits| == 5 && var c := run.commits[3];
      RunOf(c, older, later).outcome.Finished? && "c" in Recorded(RunOf(c, older, later).Last(c))
  {
    var c := ThreeApplied(newer, now);
    assert newer.list[0] == "a" && newer.list[1] == "b" && newer.list[2] == "c";
    OlderOpens(c, older, later);
  }

  lemma OlderOpens(c: Database, older: Build, later: Date)
    requires older.list == ["a", "b"] && Recorded(c) == {"a", "b", "c"}
    requires c.openers == Some(map[]) && c.column && c.migrations.Some? && !HoldsOldNames(c, older)
    ensures RunOf(c, older, later) == Run([Record(c, older)], Finished)
  {
    assert forall version :: !Ahead(c, older, version);
    assert older.list[0] == "a" && older.list[1] == "b";
    SkipsApplied(c, older, 0, 2, later);
  }

  lemma ThreeApplied(newer: Build, now: Date) returns (c: Database)
    requires newer.list == ["a", "b", "c"] && forall name, schema :: !newer.breaks(name, schema)
    ensures Recorded(c) == {"a", "b", "c"} && c.openers == Some(map[]) && c.column && c.migrations.Some?
    ensures var run := RunOf(Database(None, [], None, false), newer, now);
      |run.commits| == 5 && run.commits[3] == c
  {
    var d := Database(None, [], None, false);
    assert forall version :: !Ahead(d, newer, version);
    var made := d.(migrations := Some(map[]));
    var a := Executed(made, newer, 0, now);
    var b := Executed(a, newer, 1, now);
    c := Executed(b, newer, 2, now);
    assert newer.list[0] == "a" && newer.list[1] == "b" && newer.list[2] == "c";
    assert ApplyFrom(c, newer, 3, now).commits == [Record(c, newer)];
    assert ApplyFrom(b, newer, 2, now).commits == [c, Record(c, newer)];
    assert ApplyFrom(a, newer, 1, now).commits == [b, c, Record(c, newer)];
    assert ApplyFrom(made, newer, 0, now).commits == [a, b, c, Record(c, newer)];
  }

  // ----- the install day

  lemma {:induction false} DatesKept(d: Database, b: Build, i: nat, now: Date, j: nat, name: string)
    requires i <= |b.list| && name in Recorded(d) && j < |ApplyFrom(d, b, i, now).commits|
    ensures var c := ApplyFrom(d, b, i, now).commits[j];
      name in Recorded(c) && c.migrations.value[name] == d.migrations.value[name]
    decreases |b.list| - i
  {
    if i < |b.list| {
      if b.list[i] in Recorded(d) {
        DatesKept(d, b, i + 1, now, j, name);
      } else if j > 0 {
        DatesKept(Executed(d, b, i, now), b, i + 1, now, j - 1, name);
      }
    }
  }

  /** What 0.1.5 left is dated, in every commit of the run that reads it, by the earliest of its dates. */
  lemma InstallDayKept(d: Database, b: Build, now: Date, j: nat)
    requires HoldsOldNames(d, b) && j < |RunOf(d, b, now).commits|
    ensures b.list != [] && b.list[0] in Recorded(RunOf(d, b, now).commits[j])
    ensures Earliest(d.migrations.value, b.former, RunOf(d, b, now).commits[j].migrations.value[b.list[0]])
  {
    var rewritten := Rewritten(d, b, Installed(d.migrations.value, b.former));
    assert RunOf(d, b, now) == Then(rewritten, Applied(rewritten, b, now));
    SomeEarliest(d.migrations.value, b.former);
    assert rewritten.migrations.value[b.list[0]] == Installed(d.migrations.value, b.former);
    if j > 0 {
      DatesKept(rewritten, b, 0, now, j - 1, b.list[0]);
    }
  }

  // ----- the statements

  function Resumed(commits: seq<Database>, rest: Run): Run {
    Run(commits + rest.commits, rest.outcome)
  }

  lemma ResumedThen(commits: seq<Database>, next: Database, rest: Run)
    ensures Resumed(commits + [next], rest) == Resumed(commits, Then(next, rest))
  {
  }

  class Migrator {
    const build: Build
    var db: Database
    var foreignKeys: bool
    ghost var commits: seq<Database>

    constructor (db: Database, build: Build)
      ensures this.db == db && this.build == build && foreignKeys && commits == []
    {
      this.db, this.build, foreignKeys, commits := db, build, true, [];
    }

    method Commit(d: Database)
      modifies this`db, this`commits
      ensures db == d && commits == old(commits) + [d]
    {
      db, commits := d, commits + [d];
    }

    method RefuseANewerSchema() returns (refused: bool)
      ensures refused <==> OpenedAhead(db, build)
    {
      refused := db.openers.Some? && exists version | version in db.openers.value :: Ahead(db, build, version);
    }

    /** The least of the dates 0.1.5's names were recorded at. */
    method InstallDay(dates: map<string, Date>) returns (installed: Date)
      requires exists name | name in dates :: name in build.former
      ensures Earliest(dates, build.former, installed)
    {
      var found := false;
      installed := 0;
      for at := 0 to |build.former|
        invariant found <==> exists name | name in dates :: name in build.former[..at]
        invariant found ==> exists name | name in dates :: name in build.former[..at] && dates[name] == installed
        invariant found ==> forall name | name in dates && name in build.former[..at] :: installed <= dates[name]
      {
        var name := build.former[at];
        assert build.former[..at + 1] == build.former[..at] + [name];
        if name in dates && (!found || dates[name] < installed) {
          found, installed := true, dates[name];
        }
      }
      assert build.former[..|build.former|] == build.former;
    }

    /** Forgetting 0.1.5's names and recording the first migration is one transaction. */
    method ReadTheNames(ghost now: Date) returns (outcome: Outcome)
      requires !OpenedAhead(db, build)
      modifies this
      ensures foreignKeys == old(foreignKeys)
      ensures outcome.Finished? ==>
        Resumed(commits, Applied(db, build, now)) == Resumed(old(commits), RunOf(old(db), build, now))
      ensures !outcome.Finished? ==> (
        db == old(db) && commits == old(commits) && RunOf(db, build, now) == Run([], outcome))
      ensures old(commits) <= commits
      ensures db == if commits == old(commits) then old(db) else commits[|commits| - 1]
    {
      if !HoldsOldNames(db, build) {
        return Finished;
      }
      if !HoldsLast(db, build) {
        return Refused(BeforeRelease015);
      }
      if exists name | name in Recorded(db) :: Stray(db, build, name) {
        return Refused(BetweenReleases);
      }
      if build.list == [] || build.list[0] in Recorded(db) {
        return Failed("_migrations");
      }
      var installed := InstallDay(db.migrations.value);
      OneEarliest(db.migrations.value, build.former, installed);
      Commit(Rewritten(db, build, installed));
      outcome := Finished;
    }

    /** A script and its record in one transaction: a failure leaves the database as it was. */
    method ApplyMigration(i: nat, now: Date) returns (applied: bool)
      requires i < |build.list| && db.migrations.Some?
      modifies this`db, this`commits
      ensures applied <==> !build.breaks(build.list[i], old(db).schema)
      ensures if applied then db == Executed(old(db), build, i, now) && commits == old(commits) + [db]
        else db == old(db) && commits == old(commits)
    {
      if build.breaks(build.list[i], db.schema) {
        return false;
      }
      Commit(Executed(db, build, i, now));
      applied := true;
    }

    /** Foreign keys are off for a script alone, and on again whether it succeeds or fails. */
    method ApplyMigrations(now: Date) returns (outcome: Outcome)
      requires foreignKeys
      modifies this
      ensures foreignKeys
      ensures Run(commits, outcome) == Resumed(old(commits), Applied(old(db), build, now))
      ensures old(commits) <= commits
      ensures db == if commits == old(commits) then old(db) else commits[|commits| - 1]
    {
      if db.migrations.None? {
        Commit(db.(migrations := Some(map[])));
      }
      for i := 0 to |build.list|
        invariant db.migrations.Some? && foreignKeys
        invariant old(commits) <= commits
        invariant Resumed(commits, ApplyFrom(db, build, i, now)) == Resumed(old(commits), Applied(old(db), build, now))
        invariant db == if commits == old(commits) then old(db) else commits[|commits| - 1]
      {
        if build.list[i] in Recorded(db) {
          continue;
        }
        foreignKeys := false;
        ghost var next := Executed(db, build, i, now);
        ResumedThen(commits, next, ApplyFrom(next, build, i + 1, now));
        var applied := ApplyMigration(i, now);
        foreignKeys := true;
        if !applied {
          return Failed(build.list[i]);
        }
      }
      if db.openers.None? || !db.column || build.list == [] {
        return Failed("_opened_by");
      }
      Commit(Record(db, build));
      outcome := Finished;
    }

    method RunMigrations(now: Date) returns (outcome: Outcome)
      requires foreignKeys && commits == []
      modifies this
      ensures Run(commits, outcome) == RunOf(old(db), build, now)
      ensures db == RunOf(old(db), build, now).Last(old(db))
      ensures foreignKeys
    {
      var newer := RefuseANewerSchema();
      if newer {
        return Refused(OpenedByNewer);
      }
      outcome := ReadTheNames(now);
      if outcome.Finished? {
        outcome := ApplyMigrations(now);
      }
    }
  }

  lemma OneEarliest(dates: map<string, Date>, former: seq<string>, installed: Date)
    requires Earliest(dates, former, installed)
    ensures Installed(dates, former) == installed
  {
    SomeEarliest(dates, former);
  }
}
