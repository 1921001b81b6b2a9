/**
 * The counter of calls to old paths, backend/src/api/deprecated.rs: calls are queued, and a task of
 * its own stores what is waiting, a batch per transaction, each key merged into one statement.
 * Calls are counted one by one.
 */
module DeprecatedCalls {
  import opened Options

  const QUEUED: nat := 4096

  /** A time as it is stored: a date, and the time of day. */
  datatype Time = Time(day: nat, second: nat)

  predicate NotAfter(a: Time, b: Time) {
    a.day < b.day || (a.day == b.day && a.second <= b.second)
  }

  datatype Key = Key(kind: string, id: string, verb: string, path: string)

  datatype Call = Call(key: Key, name: string, at: Time, logged: bool)

  datatype Order = Count(call: Call) | Flush(id: nat)

  /** A row of `deprecated_calls`; `loggedOn` is empty until a call is logged. */
  datatype Row = Row(calls: nat, name: string, at: Time, loggedOn: Option<nat>)

  type Table = map<Key, Row>

  function Look(table: Table, key: Key): Option<Row> {
    if key in table then Some(table[key]) else None
  }

  function LoggedOn(table: Table, key: Key): Option<nat> {
    if key in table then table[key].loggedOn else None
  }

  // ----- the statement, one call at a time, and a batch

  /** The row after the statement: inserted, or the counts added and the rest taken from the call. */
  function Upserted(row: Option<Row>, call: Call, n: nat): Row {
    match row
    case None => Row(n, call.name, call.at, if call.logged then Some(call.at.day) else None)
    case Some(was) => Row(was.calls + n, call.name, call.at, if call.logged then Some(call.at.day) else was.loggedOn)
  }

  function Stored(table: Table, call: Call, n: nat): Table {
    table[call.key := Upserted(Look(table, call.key), call, n)]
  }

  /** Every call stored by a statement of its own. */
  function OneByOne(table: Table, calls: seq<Call>): Table {
    if calls == [] then table else Stored(OneByOne(table, calls[..|calls| - 1]), calls[|calls| - 1], 1)
  }

  /** What a batch keeps of a key: its last call, logged if any was, and how many there were. */
  datatype Kept = Kept(call: Call, count: nat)

  function With(kept: map<Key, Kept>, call: Call): map<Key, Kept> {
    if call.key in kept then
      kept[call.key := Kept(call.(logged := kept[call.key].call.logged || call.logged), kept[call.key].count + 1)]
    else
      kept[call.key := Kept(call, 1)]
  }

  function Merged(calls: seq<Call>): (kept: map<Key, Kept>)
    ensures forall k | k in kept :: kept[k].call.key == k
  {
    if calls == [] then map[] else With(Merged(calls[..|calls| - 1]), calls[|calls| - 1])
  }

  function BatchRow(table: Table, kept: map<Key, Kept>, k: Key): Row
    requires k in table || k in kept
  {
    if k in kept then Upserted(Look(table, k), kept[k].call, kept[k].count) else table[k]
  }

  function BatchStored(table: Table, kept: map<Key, Kept>): Table {
    map k | k in table.Keys + kept.Keys :: BatchRow(table, kept, k)
  }

  /** The day of the last logged call to `k`. */
  function LastLogged(calls: seq<Call>, k: Key): Option<nat> {
    if calls == [] then None
    else
      var last := calls[|calls| - 1];
      if last.key == k && last.logged then Some(last.at.day) else LastLogged(calls[..|calls| - 1], k)
  }

  function CallsTo(calls: seq<Call>, k: Key): nat {
    if calls == [] then 0 else CallsTo(calls[..|calls| - 1], k) + if calls[|calls| - 1].key == k then 1 else 0
  }

  /** What is merged for a key: how often it was called, and whether any call to it was logged. */
  lemma {:induction false} MergedKey(calls: seq<Call>, k: Key)
    ensures k in Merged(calls) <==> CallsTo(calls, k) > 0
    ensures k in Merged(calls) ==> Merged(calls)[k].count == CallsTo(calls, k)
    ensures LastLogged(calls, k).Some? <==> (k in Merged(calls) && Merged(calls)[k].call.logged)
  {
    if calls != [] {
      MergedKey(calls[..|calls| - 1], k);
    }
  }

  function RowOf(table: Table, calls: seq<Call>, k: Key): Row
    requires k in Merged(calls)
  {
    var kept, before := Merged(calls)[k], if k in table then table[k].calls else 0;
    Row(before + kept.count, kept.call.name, kept.call.at,
      if LastLogged(calls, k).Some? then LastLogged(calls, k) else LoggedOn(table, k))
  }

  /** The row of a key once its calls are stored one at a time. */
  lemma {:induction false} OneByOneKey(table: Table, calls: seq<Call>, k: Key)
    ensures k !in Merged(calls) ==> Look(OneByOne(table, calls), k) == Look(table, k)
    ensures k in Merged(calls) ==> Look(OneByOne(table, calls), k) == Some(RowOf(table, calls, k))
  {
    if calls != [] {
      OneByOneKey(table, calls[..|calls| - 1], k);
      MergedKey(calls[..|calls| - 1], k);
    }
  }

  // ----- what storing call by call leaves, told by the calls themselves

  predicate LastTo(calls: seq<Call>, k: Key, i: nat) {
    i < |calls| && calls[i].key == k && forall j | i < j < |calls| :: calls[j].key != k
  }

  predicate LastLoggedTo(calls: seq<Call>, k: Key, i: nat) {
    i < |calls| && calls[i].key == k && calls[i].logged &&
    forall j | i < j < |calls| :: calls[j].key != k || !calls[j].logged
  }

  function PlacesOf(calls: seq<Call>, k: Key): set<nat> {
    set i: nat | i < |calls| && calls[i].key == k
  }

  lemma {:induction false} CallsToAre(calls: seq<Call>, k: Key)
    ensures CallsTo(calls, k) == |PlacesOf(calls, k)|
  {
    if calls != [] {
      var last := |calls| - 1;
      CallsToAre(calls[..last], k);
      PlacesOneMore(calls, k);
    }
  }

  lemma PlacesOneMore(calls: seq<Call>, k: Key)
    requires calls != []
    ensures var last := |calls| - 1;
      |PlacesOf(calls, k)| == |PlacesOf(calls[..last], k)| + if calls[last].key == k then 1 else 0
  {
    var last := |calls| - 1;
    var before := PlacesOf(calls[..last], k);
    if calls[last].key == k {
      assert PlacesOf(calls, k) == before + {last};
    } else {
      assert PlacesOf(calls, k) == before;
    }
  }

  /** The row of a key called, but for its day: one more for each call, and the rest as in the last of them. */
  lemma RowTells(table: Table, calls: seq<Call>, k: Key, i: nat)
    requires LastTo(calls, k, i)
    ensures k in OneByOne(table, calls)
    ensures var row := OneByOne(table, calls)[k];
      row.name == calls[i].name && row.at == calls[i].at &&
      row.calls == (if k in table then table[k].calls else 0) + |PlacesOf(calls, k)|
  {
    LastIsMerged(calls, k, i);
    MergedKey(calls, k);
    OneByOneKey(table, calls, k);
    CallsToAre(calls, k);
  }

  lemma {:induction false} LastIsMerged(calls: seq<Call>, k: Key, i: nat)
    requires LastTo(calls, k, i)
    ensures k in Merged(calls) && Merged(calls)[k].call.name == calls[i].name && Merged(calls)[k].call.at == calls[i].at
  {
    if i < |calls| - 1 {
      LastIsMerged(calls[..|calls| - 1], k, i);
    }
  }

  /** A row's day is that of the last call logged to its key. */
  lemma {:induction false} DayTells(table: Table, calls: seq<Call>, k: Key, i: nat)
    requires LastLoggedTo(calls, k, i)
    ensures LoggedOn(OneByOne(table, calls), k) == Some(calls[i].at.day)
  {
    if i < |calls| - 1 {
      DayTells(table, calls[..|calls| - 1], k, i);
    }
  }

  /** With no call to it logged, the day it had before. */
  lemma {:induction false} DayStays(table: Table, calls: seq<Call>, k: Key)
    requires forall call | call in calls && call.key == k :: !call.logged
    ensures LoggedOn(OneByOne(table, calls), k) == LoggedOn(table, k)
  {
    if calls != [] {
      assert calls[|calls| - 1] in calls;
      DayStays(table, calls[..|calls| - 1], k);
    }
  }

  lemma {:induction false} UncalledTells(table: Table, calls: seq<Call>, k: Key)
    requires forall call | call in calls :: call.key != k
    ensures Look(OneByOne(table, calls), k) == Look(table, k)
  {
    if calls != [] {
      UncalledTells(table, calls[..|calls| - 1], k);
    }
  }

  /** Equal but for the day logged. */
  predicate SameCounts(a: Table, b: Table) {
    a.Keys == b.Keys && forall k | k in a :: a[k].(loggedOn := None) == b[k].(loggedOn := None)
  }

  /** No call is followed, on another day, by one to the same key that was not logged. */
  predicate Steady(calls: seq<Call>) {
    forall k | k in Merged(calls) ::
      LastLogged(calls, k).None? || LastLogged(calls, k).value == Merged(calls)[k].call.at.day
  }

  /**
   * A batch leaves the counts, the times and the names that storing call by call leaves; and the
   * days logged, exactly when in the batch each key's last call was made the day one was last logged.
   */
  lemma BatchIsOneByOne(table: Table, calls: seq<Call>)
    ensures SameCounts(BatchStored(table, Merged(calls)), OneByOne(table, calls))
    ensures BatchStored(table, Merged(calls)) == OneByOne(table, calls) <==> Steady(calls)
  {
    var batch, single := BatchStored(table, Merged(calls)), OneByOne(table, calls);
    forall k
      ensures k in batch <==> k in single
      ensures k in batch ==> batch[k].(loggedOn := None) == single[k].(loggedOn := None)
      ensures k in Merged(calls) ==> (batch[k] == single[k] <==>
        (LastLogged(calls, k).None? || LastLogged(calls, k).value == Merged(calls)[k].call.at.day))
      ensures k in batch && k !in Merged(calls) ==> batch[k] == single[k]
    {
      KeyOfBatch(table, calls, k);
    }
    assert Steady(calls) ==> batch == single;
  }

  lemma KeyOfBatch(table: Table, calls: seq<Call>, k: Key)
    ensures k in BatchStored(table, Merged(calls)) <==> k in OneByOne(table, calls)
    ensures k in OneByOne(table, calls) ==>
      BatchStored(table, Merged(calls))[k].(loggedOn := None) == OneByOne(table, calls)[k].(loggedOn := None)
    ensures k in Merged(calls) ==> (BatchStored(table, Merged(calls))[k] == OneByOne(table, calls)[k] <==>
      (LastLogged(calls, k).None? || LastLogged(calls, k).value == Merged(calls)[k].call.at.day))
    ensures k in table && k !in Merged(calls) ==> BatchStored(table, Merged(calls))[k] == OneByOne(table, calls)[k]
  {
    OneByOneKey(table, calls, k);
    MergedKey(calls, k);
  }

  lemma {:induction false} OneByOneAppends(table: Table, a: seq<Call>, b: seq<Call>)
    ensures OneByOne(table, a + b) == OneByOne(OneByOne(table, a), b)
    decreases |b|
  {
    if b == [] {
      assert a + b == a;
    } else {
      assert (a + b)[..|a + b| - 1] == a + b[..|b| - 1];
      OneByOneAppends(table, a, b[..|b| - 1]);
    }
  }

  lemma {:induction false} SameCountsStay(a: Table, b: Table, calls: seq<Call>)
    requires SameCounts(a, b)
    ensures SameCounts(OneByOne(a, calls), OneByOne(b, calls))
  {
    if calls != [] {
      SameCountsStay(a, b, calls[..|calls| - 1]);
    }
  }

  // ----- the counter, its queue and the writer, step by step

  /**
   * `logged` is what the process remembers having logged; `sent` every order of this database, the
   * first `taken` of them taken from the queue by the writer, the first `done` written; `fate` whether
   * each of those was stored; `counted` every call, those of this run from `since`.
   * A full queue drops a call, a failed transaction a batch.
   */
  datatype State = State(
    table: Table, logged: map<Key, nat>, sent: seq<Order>, taken: nat, done: nat, fate: seq<bool>, clock: Time,
    counted: seq<Call>, since: nat, dropped: bool, failed: bool)

  predicate Ordered(s: State) {
    s.done <= s.taken <= |s.sent| && |s.fate| == s.done
  }

  datatype Step =
    | Counted(key: Key, name: string, at: Time)
    | Flushed(id: nat)
    | Taken
    | Written(stored: bool)
    | Restarted

  function New(table: Table, clock: Time): State {
    State(table, map[], [], 0, 0, [], clock, [], 0, false, false)
  }

  function CallsOf(orders: seq<Order>): seq<Call> {
    if orders == [] then []
    else
      var last := orders[|orders| - 1];
      CallsOf(orders[..|orders| - 1]) + if last.Count? then [last.call] else []
  }

  /** What the writer has taken and not written yet. */
  function Batch(s: State): seq<Order>
    requires Ordered(s)
  {
    s.sent[s.done..s.taken]
  }

  ghost predicate Enabled(s: State, step: Step)
    requires Ordered(s)
  {
    match step
    case Counted(_, _, at) => NotAfter(s.clock, at)
    case Flushed(_) => |s.sent| - s.taken < QUEUED
    case Taken => s.taken < |s.sent|
    case Written(_) => s.done < s.taken
    case Restarted => s.done == |s.sent|
  }

  /** A call to be counted: logged unless this process, or a row, says it was today. */
  function Seen(table: Table, logged: map<Key, nat>, key: Key, name: string, at: Time): Call {
    var known := key in logged && logged[key] == at.day;
    Call(key, name, at, !known && LoggedOn(table, key) != Some(at.day))
  }

  function AfterCount(s: State, key: Key, name: string, at: Time): (t: State)
    requires Ordered(s)
  {
    var call := Seen(s.table, s.logged, key, name, at);
    var t := s.(logged := s.logged[key := at.day], clock := at, counted := s.counted + [call]);
    if |s.sent| - s.taken < QUEUED then t.(sent := s.sent + [Count(call)]) else t.(dropped := true)
  }

  function Fates(n: nat, stored: bool): (r: seq<bool>)
    ensures |r| == n && forall i | 0 <= i < n :: r[i] == stored
  {
    seq(n, _ => stored)
  }

  /** The batch is stored whole or lost whole. */
  function AfterWrite(s: State, stored: bool): State
    requires Ordered(s)
  {
    s.(table := if stored then BatchStored(s.table, Merged(CallsOf(Batch(s)))) else s.table,
       done := s.taken, fate := s.fate + Fates(s.taken - s.done, stored), failed := s.failed || !stored)
  }

  function Next(s: State, step: Step): (t: State)
    requires Ordered(s) && (step.Taken? ==> s.taken < |s.sent|)
    ensures Ordered(t)
  {
    match step
    case Counted(key, name, at) => AfterCount(s, key, name, at)
    case Flushed(id) => s.(sent := s.sent + [Flush(id)])
    case Taken => s.(taken := s.taken + 1)
    case Written(stored) => AfterWrite(s, stored)
    case Restarted => s.(logged := map[], since := |s.counted|)
  }

  /** The orders whose batch was stored. */
  function Survivors(orders: seq<Order>, fate: seq<bool>): seq<Order>
    requires |fate| <= |orders|
  {
    if fate == [] then []
    else
      var last := |fate| - 1;
      Survivors(orders, fate[..last]) + if fate[last] then [orders[last]] else []
  }

  lemma {:induction false} CallsOfAppended(a: seq<Order>, b: seq<Order>)
    ensures CallsOf(a + b) == CallsOf(a) + CallsOf(b)
    decreases |b|
  {
    if b == [] {
      assert a + b == a;
    } else {
      assert (a + b)[..|a + b| - 1] == a + b[..|b| - 1];
      CallsOfAppended(a, b[..|b| - 1]);
    }
  }

  lemma CallsOfOneMore(orders: seq<Order>, order: Order)
    ensures CallsOf(orders + [order]) == CallsOf(orders) + if order.Count? then [order.call] else []
  {
    assert (orders + [order])[..|orders|] == orders;
  }

  // ----- one log a day while the process runs

  /** Of the calls counted in this run, none was made after the day the process remembers. */
  ghost predicate Remembers(s: State) {
    s.since <= |s.counted| &&
    (forall k | k in s.logged :: s.logged[k] <= s.clock.day) &&
    forall i | s.since <= i < |s.counted| ::
      s.counted[i].key in s.logged && s.counted[i].at.day <= s.logged[s.counted[i].key]
  }

  ghost predicate OncePerDay(calls: seq<Call>, since: nat) {
    forall i, j | since <= i < j < |calls| && calls[i].logged && calls[j].logged && calls[i].key == calls[j].key ::
      calls[i].at.day != calls[j].at.day
  }

  lemma CountedIsRemembered(s: State, step: Step)
    requires Ordered(s) && Enabled(s, step) && step.Counted? && Remembers(s)
    ensures Remembers(Next(s, step))
  {
    var t := Next(s, step);
    forall i | t.since <= i < |t.counted|
      ensures t.counted[i].key in t.logged && t.counted[i].at.day <= t.logged[t.counted[i].key]
    {
      if i < |s.counted| {
        assert t.counted[i] == s.counted[i];
      }
    }
  }

  lemma CountedOncePerDay(s: State, step: Step)
    requires Ordered(s) && Enabled(s, step) && step.Counted? && Remembers(s) && OncePerDay(s.counted, s.since)
    ensures OncePerDay(Next(s, step).counted, s.since)
  {
    var call := Seen(s.table, s.logged, step.key, step.name, step.at);
    var calls := s.counted + [call];
    forall i, j | s.since <= i < j < |calls| && calls[i].logged && calls[j].logged && calls[i].key == calls[j].key
      ensures calls[i].at.day != calls[j].at.day
    {
      assert calls[i] == s.counted[i];
      assert calls[i].key in s.logged && calls[i].at.day <= s.logged[calls[i].key];
    }
    assert Next(s, step).counted == calls;
  }

  lemma RunStaysOncePerDay(s: State, step: Step)
    requires Ordered(s) && Enabled(s, step) && Remembers(s) && OncePerDay(s.counted, s.since)
    ensures Remembers(Next(s, step)) && OncePerDay(Next(s, step).counted, Next(s, step).since)
  {
    if step.Counted? {
      CountedIsRemembered(s, step);
      CountedOncePerDay(s, step);
    }
  }

  // ----- while nothing is lost, the table is the one storing call by call leaves

  /** Each call stored leaves the row logged on its own day. */
  ghost predicate Fresh(table: Table, calls: seq<Call>) {
    calls != [] ==>
      Fresh(table, calls[..|calls| - 1]) &&
      LoggedOn(OneByOne(table, calls), calls[|calls| - 1].key) == Some(calls[|calls| - 1].at.day)
  }

  lemma {:induction false} FreshFurther(table: Table, a: seq<Call>, b: seq<Call>)
    requires Fresh(table, a + b)
    ensures Fresh(table, a) && Fresh(OneByOne(table, a), b)
    decreases |b|
  {
    if b == [] {
      assert a + b == a;
    } else {
      assert (a + b)[..|a + b| - 1] == a + b[..|b| - 1];
      FreshFurther(table, a, b[..|b| - 1]);
      OneByOneAppends(table, a, b);
    }
  }

  lemma {:induction false} FreshRows(table: Table, calls: seq<Call>, k: Key)
    requires Fresh(table, calls) && k in Merged(calls)
    ensures LoggedOn(OneByOne(table, calls), k) == Some(Merged(calls)[k].call.at.day)
  {
    if calls[|calls| - 1].key != k {
      FreshRows(table, calls[..|calls| - 1], k);
    }
  }

  lemma FreshIsSteady(table: Table, calls: seq<Call>)
    requires Fresh(table, calls)
    ensures Steady(calls)
  {
    forall k | k in Merged(calls)
      ensures LastLogged(calls, k).None? || LastLogged(calls, k).value == Merged(calls)[k].call.at.day
    {
      FreshRows(table, calls, k);
      OneByOneKey(table, calls, k);
    }
  }

  predicate NotLater(a: Option<nat>, b: Option<nat>) {
    a.Some? ==> b.Some? && a.value <= b.value
  }

  function LoggedAfter(table: Table, calls: seq<Call>, n: nat, k: Key): Option<nat>
    requires n <= |calls|
  {
    LoggedOn(OneByOne(table, calls[..n]), k)
  }

  /** The more of the calls are stored, the later the day a row was logged. */
  ghost predicate Growing(table: Table, calls: seq<Call>) {
    forall m: nat, n: nat, k | m <= n <= |calls| ::
      NotLater(LoggedAfter(table, calls, m, k), LoggedAfter(table, calls, n, k))
  }

  ghost predicate Faithful(start: Table, s: State) {
    Ordered(s) &&
    CallsOf(s.sent) == s.counted &&
    s.table == OneByOne(start, CallsOf(s.sent[..s.done])) &&
    Fresh(start, s.counted) &&
    Growing(start, s.counted)
  }

  /** What the process remembers is what the rows will say; what it forgot, they say already. */
  ghost predicate InForce(start: Table, s: State) {
    forall k ::
      NotLater(LoggedOn(OneByOne(start, s.counted), k), Some(s.clock.day)) &&
      LoggedOn(OneByOne(start, s.counted), k) == if k in s.logged then Some(s.logged[k]) else LoggedOn(s.table, k)
  }

  lemma OneMore(start: Table, calls: seq<Call>, call: Call)
    ensures OneByOne(start, calls + [call]) == Stored(OneByOne(start, calls), call, 1)
  {
    assert (calls + [call])[..|calls|] == calls;
  }

  lemma CallsOfPrefix(sent: seq<Order>, m: nat, n: nat)
    requires m <= n <= |sent|
    ensures CallsOf(sent[..n]) == CallsOf(sent[..m]) + CallsOf(sent[m..n])
  {
    assert sent[..n] == sent[..m] + sent[m..n];
    CallsOfAppended(sent[..m], sent[m..n]);
  }

  lemma PrefixNotLater(table: Table, a: seq<Call>, b: seq<Call>, calls: seq<Call>, k: Key)
    requires Growing(table, calls) && a <= b <= calls
    ensures NotLater(LoggedOn(OneByOne(table, a), k), LoggedOn(OneByOne(table, b), k))
  {
    assert NotLater(LoggedAfter(table, calls, |a|, k), LoggedAfter(table, calls, |b|, k));
    assert calls[..|a|] == a && calls[..|b|] == b;
  }

  lemma StoredIsNotLater(start: Table, s: State, k: Key)
    requires Faithful(start, s)
    ensures NotLater(LoggedOn(s.table, k), LoggedOn(OneByOne(start, s.counted), k))
  {
    CallsOfPrefix(s.sent, s.done, |s.sent|);
    assert s.sent[..|s.sent|] == s.sent;
    PrefixNotLater(start, CallsOf(s.sent[..s.done]), s.counted, s.counted, k);
  }

  lemma CountedIsFresh(start: Table, s: State, key: Key, name: string, at: Time)
    requires Faithful(start, s) && InForce(start, s) && NotAfter(s.clock, at)
    ensures var call := Seen(s.table, s.logged, key, name, at);
      LoggedOn(OneByOne(start, s.counted + [call]), key) == Some(at.day) && Fresh(start, s.counted + [call])
  {
    var call := Seen(s.table, s.logged, key, name, at);
    OneMore(start, s.counted, call);
    StoredIsNotLater(start, s, key);
    assert NotLater(LoggedOn(OneByOne(start, s.counted), key), Some(s.clock.day));
    assert (s.counted + [call])[..|s.counted|] == s.counted;
  }

  lemma CountedGrows(start: Table, s: State, call: Call)
    requires Growing(start, s.counted) && InForce(start, s) && NotAfter(s.clock, call.at)
    ensures Growing(start, s.counted + [call])
  {
    var calls := s.counted + [call];
    forall m: nat, n: nat, k | m <= n <= |calls|
      ensures NotLater(LoggedAfter(start, calls, m, k), LoggedAfter(start, calls, n, k))
    {
      if m <= |s.counted| {
        var least := if n <= |s.counted| then n else |s.counted|;
        assert calls[..m] == s.counted[..m] && calls[..least] == s.counted[..least];
        PrefixNotLater(start, s.counted[..m], s.counted[..least], s.counted, k);
        if n == |calls| {
          OneMoreIsNotEarlier(start, s, call, k);
          assert calls[..n] == calls && s.counted[..least] == s.counted;
        }
      }
    }
  }

  lemma OneMoreIsNotEarlier(start: Table, s: State, call: Call, k: Key)
    requires InForce(start, s) && NotAfter(s.clock, call.at)
    ensures NotLater(LoggedOn(OneByOne(start, s.counted), k), LoggedOn(OneByOne(start, s.counted + [call]), k))
  {
    OneMore(start, s.counted, call);
    assert NotLater(LoggedOn(OneByOne(start, s.counted), k), Some(s.clock.day));
  }

  lemma CountedIsFaithful(start: Table, s: State, t: State, call: Call)
    requires Faithful(start, s)
    requires Fresh(start, s.counted + [call]) && Growing(start, s.counted + [call])
    requires t ==
      s.(logged := t.logged, clock := t.clock, counted := s.counted + [call], sent := s.sent + [Count(call)])
    ensures Faithful(start, t)
  {
    CallsOfOneMore(s.sent, Count(call));
    assert t.sent[..t.done] == s.sent[..s.done];
  }

  lemma CountedKeeps(start: Table, s: State, key: Key, name: string, at: Time)
    requires Faithful(start, s) && InForce(start, s) && NotAfter(s.clock, at) && |s.sent| - s.taken < QUEUED
    ensures Faithful(start, Next(s, Counted(key, name, at))) && InForce(start, Next(s, Counted(key, name, at)))
  {
    var call := Seen(s.table, s.logged, key, name, at);
    var t := s.(
      logged := s.logged[key := at.day], clock := at, counted := s.counted + [call], sent := s.sent + [Count(call)]);
    assert Next(s, Counted(key, name, at)) == t;
    CountedIsFresh(start, s, key, name, at);
    CountedGrows(start, s, call);
    CountedIsFaithful(start, s, t, call);
    CountedIsInForce(start, s, t, call);
  }

  lemma CountedIsInForce(start: Table, s: State, t: State, call: Call)
    requires InForce(start, s) && NotAfter(s.clock, call.at)
    requires t.counted == s.counted + [call] && t.clock == call.at && t.table == s.table
    requires t.logged == s.logged[call.key := call.at.day]
    requires LoggedOn(OneByOne(start, t.counted), call.key) == Some(call.at.day)
    ensures InForce(start, t)
  {
    OneMore(start, s.counted, call);
    forall k
      ensures NotLater(LoggedOn(OneByOne(start, t.counted), k), Some(t.clock.day))
      ensures LoggedOn(OneByOne(start, t.counted), k) ==
        if k in t.logged then Some(t.logged[k]) else LoggedOn(t.table, k)
    {
      assert NotLater(LoggedOn(OneByOne(start, s.counted), k), Some(s.clock.day));
    }
  }

  /** A batch of fresh calls is stored as they would be one by one. */
  lemma BatchOfFresh(start: Table, sent: seq<Order>, m: nat, n: nat)
    requires m <= n <= |sent| && Fresh(start, CallsOf(sent))
    ensures BatchStored(OneByOne(start, CallsOf(sent[..m])), Merged(CallsOf(sent[m..n]))) ==
      OneByOne(start, CallsOf(sent[..n]))
  {
    var before, batch := CallsOf(sent[..m]), CallsOf(sent[m..n]);
    CallsOfPrefix(sent, m, n);
    CallsOfPrefix(sent, n, |sent|);
    assert sent[..|sent|] == sent;
    FreshFurther(start, before + batch, CallsOf(sent[n..|sent|]));
    FreshFurther(start, before, batch);
    FreshIsSteady(OneByOne(start, before), batch);
    BatchIsOneByOne(OneByOne(start, before), batch);
    OneByOneAppends(start, before, batch);
  }

  lemma WrittenIsFaithful(start: Table, s: State)
    requires Faithful(start, s) && s.done < s.taken
    ensures Faithful(start, AfterWrite(s, true))
  {
    BatchOfFresh(start, s.sent, s.done, s.taken);
  }

  lemma WrittenKeeps(start: Table, s: State)
    requires Faithful(start, s) && InForce(start, s) && s.done < s.taken
    ensures Faithful(start, AfterWrite(s, true)) && InForce(start, AfterWrite(s, true))
  {
    WrittenIsFaithful(start, s);
    FurtherIsNotEarlier(start, s, AfterWrite(s, true));
  }

  /** A row that said all there is to say says it still. */
  lemma FurtherIsNotEarlier(start: Table, s: State, t: State)
    requires Faithful(start, s) && Faithful(start, t) && InForce(start, s)
    requires t.counted == s.counted && t.logged == s.logged && t.clock == s.clock
    requires t.sent == s.sent && s.done <= t.done
    ensures InForce(start, t)
  {
    forall k
      ensures NotLater(LoggedOn(OneByOne(start, t.counted), k), Some(t.clock.day))
      ensures LoggedOn(OneByOne(start, t.counted), k) ==
        if k in t.logged then Some(t.logged[k]) else LoggedOn(t.table, k)
    {
      assert NotLater(LoggedOn(OneByOne(start, s.counted), k), Some(s.clock.day));
      RowsGrow(start, s, t, k);
      StoredIsNotLater(start, t, k);
    }
  }

  lemma RowsGrow(start: Table, s: State, t: State, k: Key)
    requires Faithful(start, s) && Faithful(start, t)
    requires t.counted == s.counted && t.sent == s.sent && s.done <= t.done
    ensures NotLater(LoggedOn(s.table, k), LoggedOn(t.table, k))
  {
    CallsOfPrefix(s.sent, s.done, t.done);
    CallsOfPrefix(s.sent, t.done, |s.sent|);
    assert s.sent[..|s.sent|] == s.sent;
    PrefixNotLater(start, CallsOf(s.sent[..s.done]), CallsOf(s.sent[..t.done]), s.counted, k);
  }

  // ----- while no call is dropped, a batch is stored as its calls would be one by one

  /** In the order they were made, none after `day`. */
  predicate InOrder(calls: seq<Call>, day: nat) {
    (forall i, j | 0 <= i < j < |calls| :: calls[i].at.day <= calls[j].at.day) &&
    forall i | 0 <= i < |calls| :: calls[i].at.day <= day
  }

  /** Cut anywhere, what comes first is steady. */
  ghost predicate SteadyThroughout(calls: seq<Call>) {
    forall n: nat | n <= |calls| :: Steady(calls[..n])
  }

  /** Of a key whose calls wait, the process remembers the day of the last, and no row says a later one. */
  predicate Waiting(table: Table, logged: map<Key, nat>, calls: seq<Call>, k: Key)
    requires k in Merged(calls)
  {
    var day := Merged(calls)[k].call.at.day;
    k in logged && logged[k] == day && NotLater(LoggedOn(table, k), Some(day))
  }

  /** `calls` are those sent and not written yet, none of them dropped. */
  ghost predicate Steadfast(table: Table, logged: map<Key, nat>, day: nat, calls: seq<Call>) {
    InOrder(calls, day) && SteadyThroughout(calls) && (forall k :: NotLater(LoggedOn(table, k), Some(day))) &&
    forall k | k in Merged(calls) :: Waiting(table, logged, calls, k)
  }

  lemma MergedOneMore(calls: seq<Call>, call: Call)
    ensures Merged(calls + [call]) == With(Merged(calls), call)
    ensures LastLogged(calls + [call], call.key) ==
      if call.logged then Some(call.at.day) else LastLogged(calls, call.key)
    ensures forall k | k != call.key :: LastLogged(calls + [call], k) == LastLogged(calls, k)
  {
    assert (calls + [call])[..|calls|] == calls;
  }

  lemma {:induction false} MergedDay(calls: seq<Call>, k: Key) returns (i: nat)
    requires k in Merged(calls)
    ensures i < |calls| && calls[i].key == k && Merged(calls)[k].call.at == calls[i].at
  {
    var last := |calls| - 1;
    if calls[last].key == k {
      i := last;
    } else {
      i := MergedDay(calls[..last], k);
    }
  }

  /** Of a key called again, the later calls alone say its last day and, if any was logged, the last logged. */
  lemma {:induction false} LaterCallsDecide(a: seq<Call>, b: seq<Call>, k: Key)
    ensures k in Merged(b) ==> k in Merged(a + b) && Merged(a + b)[k].call.at == Merged(b)[k].call.at
    ensures LastLogged(b, k).Some? ==> LastLogged(a + b, k) == LastLogged(b, k)
    decreases |b|
  {
    if b != [] {
      var last := |b| - 1;
      LaterCallsDecide(a, b[..last], k);
      assert (a + b[..last]) + [b[last]] == a + b && b[..last] + [b[last]] == b;
      MergedOneMore(a + b[..last], b[last]);
      MergedOneMore(b[..last], b[last]);
    }
  }

  lemma SteadyLater(a: seq<Call>, b: seq<Call>)
    requires Steady(a + b)
    ensures Steady(b)
  {
    forall k | k in Merged(b)
      ensures LastLogged(b, k).None? || LastLogged(b, k).value == Merged(b)[k].call.at.day
    {
      LaterCallsDecide(a, b, k);
    }
  }

  lemma SteadyThroughoutLater(a: seq<Call>, b: seq<Call>)
    requires SteadyThroughout(a + b)
    ensures Steady(a) && SteadyThroughout(b)
  {
    assert (a + b)[..|a|] == a;
    forall n: nat | n <= |b| ensures Steady(b[..n]) {
      assert (a + b)[..|a| + n] == a + b[..n];
      SteadyLater(a, b[..n]);
    }
  }

  /** A key's first call on another day is logged: the process does not know it, and no row is of that day. */
  lemma CountedStaysSteady(table: Table, logged: map<Key, nat>, day: nat, calls: seq<Call>,
                           key: Key, name: string, at: Time)
    requires Steadfast(table, logged, day, calls) && day <= at.day
    ensures Steady(calls + [Seen(table, logged, key, name, at)])
  {
    var call := Seen(table, logged, key, name, at);
    MergedOneMore(calls, call);
    assert calls[..|calls|] == calls;
    forall k | k in Merged(calls + [call])
      ensures LastLogged(calls + [call], k).None? ||
        LastLogged(calls + [call], k).value == Merged(calls + [call])[k].call.at.day
    {
      if k != key {
        assert k in Merged(calls);
      } else if !call.logged && LastLogged(calls, k).Some? {
        MergedKey(calls, k);
        assert Waiting(table, logged, calls, k);
        var i := MergedDay(calls, k);
      }
    }
  }

  lemma OneMoreThroughout(calls: seq<Call>, call: Call)
    requires SteadyThroughout(calls) && Steady(calls + [call])
    ensures SteadyThroughout(calls + [call])
  {
    var longer := calls + [call];
    forall n: nat | n <= |longer| ensures Steady(longer[..n]) {
      assert longer[..n] == if n <= |calls| then calls[..n] else longer;
    }
  }

  lemma OneMoreWaits(table: Table, logged: map<Key, nat>, calls: seq<Call>, call: Call)
    requires forall k | k in Merged(calls) :: Waiting(table, logged, calls, k)
    requires NotLater(LoggedOn(table, call.key), Some(call.at.day))
    ensures var known, longer := logged[call.key := call.at.day], calls + [call];
      forall k | k in Merged(longer) :: Waiting(table, known, longer, k)
  {
    var known, longer := logged[call.key := call.at.day], calls + [call];
    MergedOneMore(calls, call);
    forall k | k in Merged(longer) ensures Waiting(table, known, longer, k) {
      assert k != call.key ==> Waiting(table, logged, calls, k);
    }
  }

  lemma CountedStaysSteadfast(table: Table, logged: map<Key, nat>, day: nat, calls: seq<Call>,
                              key: Key, name: string, at: Time)
    requires Steadfast(table, logged, day, calls) && day <= at.day
    ensures Steadfast(table, logged[key := at.day], at.day, calls + [Seen(table, logged, key, name, at)])
  {
    var call := Seen(table, logged, key, name, at);
    CountedStaysSteady(table, logged, day, calls, key, name, at);
    OneMoreThroughout(calls, call);
    forall k ensures NotLater(LoggedOn(table, k), Some(at.day)) {
      assert NotLater(LoggedOn(table, k), Some(day));
    }
    OneMoreWaits(table, logged, calls, call);
  }

  /** The row a batch leaves was logged no later than its calls were made. */
  lemma BatchLoggedOn(table: Table, batch: seq<Call>, k: Key)
    ensures LoggedOn(BatchStored(table, Merged(batch)), k) ==
      if k in Merged(batch) && Merged(batch)[k].call.logged then Some(Merged(batch)[k].call.at.day)
      else LoggedOn(table, k)
  {
  }

  lemma StoredStaysSteadfast(table: Table, logged: map<Key, nat>, day: nat, batch: seq<Call>, rest: seq<Call>)
    requires Steadfast(table, logged, day, batch + rest)
    ensures Steady(batch) && Steadfast(table, logged, day, rest)
    ensures Steadfast(BatchStored(table, Merged(batch)), logged, day, rest)
  {
    var stored, calls := BatchStored(table, Merged(batch)), batch + rest;
    SteadyThroughoutLater(batch, rest);
    assert forall i | 0 <= i < |rest| :: rest[i] == calls[|batch| + i];
    forall k ensures NotLater(LoggedOn(stored, k), Some(day)) {
      BatchLoggedOn(table, batch, k);
      assert NotLater(LoggedOn(table, k), Some(day));
      if k in Merged(batch) {
        var i := MergedDay(batch, k);
        assert calls[i] == batch[i];
      }
    }
    forall k | k in Merged(rest) ensures Waiting(table, logged, rest, k) && Waiting(stored, logged, rest, k) {
      LaterCallsDecide(batch, rest, k);
      assert Waiting(table, logged, calls, k);
      BatchLoggedOn(table, batch, k);
      if k in Merged(batch) {
        var i := MergedDay(batch, k);
        var j := MergedDay(rest, k);
        assert calls[i] == batch[i] && calls[|batch| + j] == rest[j];
      }
    }
  }

  /** The calls sent and not written yet. */
  function Unwritten(s: State): seq<Call>
    requires Ordered(s)
  {
    CallsOf(s.sent[s.done..])
  }

  ghost predicate StateSteadfast(s: State) {
    Ordered(s) && Steadfast(s.table, s.logged, s.clock.day, Unwritten(s))
  }

  lemma CountedSteadfast(s: State, key: Key, name: string, at: Time)
    requires StateSteadfast(s) && NotAfter(s.clock, at) && |s.sent| - s.taken < QUEUED
    ensures StateSteadfast(AfterCount(s, key, name, at))
  {
    var call, t := Seen(s.table, s.logged, key, name, at), AfterCount(s, key, name, at);
    CountedStaysSteadfast(s.table, s.logged, s.clock.day, Unwritten(s), key, name, at);
    assert t.sent[t.done..] == s.sent[s.done..] + [Count(call)];
    CallsOfOneMore(s.sent[s.done..], Count(call));
  }

  lemma WrittenSteadfast(s: State, stored: bool)
    requires StateSteadfast(s)
    ensures Steady(CallsOf(Batch(s))) && StateSteadfast(AfterWrite(s, stored))
  {
    assert s.sent[s.done..] == Batch(s) + s.sent[s.taken..];
    CallsOfAppended(Batch(s), s.sent[s.taken..]);
    StoredStaysSteadfast(s.table, s.logged, s.clock.day, CallsOf(Batch(s)), CallsOf(s.sent[s.taken..]));
  }

  lemma SteadfastKept(s: State, step: Step)
    requires StateSteadfast(s) && Enabled(s, step) && !Next(s, step).dropped
    ensures StateSteadfast(Next(s, step))
  {
    match step
    case Counted(key, name, at) => CountedSteadfast(s, key, name, at);
    case Written(stored) => WrittenSteadfast(s, stored);
    case Flushed(id) => FlushIsNoCall(s, id);
    case Taken =>
    case Restarted => assert s.sent[s.done..] == [];
  }

  lemma FlushIsNoCall(s: State, id: nat)
    requires Ordered(s)
    ensures Unwritten(Next(s, Flushed(id))) == Unwritten(s)
  {
    assert Next(s, Flushed(id)).sent[s.done..] == s.sent[s.done..] + [Flush(id)];
    CallsOfOneMore(s.sent[s.done..], Flush(id));
    assert Unwritten(s) + [] == Unwritten(s);
  }

  // ----- every run

  ghost predicate Leads(s: State, step: Step, t: State) {
    Ordered(s) && Enabled(s, step) && t == Next(s, step)
  }

  ghost predicate Reached(start: Table, clock: Time, steps: seq<Step>, s: State)
    decreases |steps|
  {
    if steps == [] then s == New(start, clock)
    else
      var earlier, step := steps[..|steps| - 1], steps[|steps| - 1];
      exists before :: Reached(start, clock, earlier, before) && Leads(before, step, s)
  }

  /** No row says it was logged after the clock's day. */
  ghost predicate Past(table: Table, clock: Time) {
    forall k | k in table :: NotLater(table[k].loggedOn, Some(clock.day))
  }

  /** The calls the table holds: those of the batches that were stored. */
  function Held(s: State): seq<Call>
    requires Ordered(s)
  {
    CallsOf(Survivors(s.sent, s.fate))
  }

  ghost predicate Sound(start: Table, s: State) {
    Ordered(s) && Remembers(s) && OncePerDay(s.counted, s.since) &&
    SameCounts(s.table, OneByOne(start, Held(s))) &&
    (!s.failed ==> Survivors(s.sent, s.fate) == s.sent[..s.done]) &&
    (!s.dropped ==> StateSteadfast(s) && s.table == OneByOne(start, Held(s))) &&
    (!s.failed && !s.dropped ==> Faithful(start, s) && InForce(start, s) && OncePerDay(s.counted, 0))
  }

  lemma StartIsSound(start: Table, clock: Time)
    requires Past(start, clock)
    ensures Sound(start, New(start, clock))
  {
    var s := New(start, clock);
    assert s.sent[..0] == [] && s.counted[..0] == [];
    forall k ensures NotLater(LoggedOn(OneByOne(start, s.counted), k), Some(clock.day)) {
    }
    assert Unwritten(s) == [];
  }

  lemma BatchCounts(start: Table, table: Table, before: seq<Call>, batch: seq<Call>)
    requires SameCounts(table, OneByOne(start, before))
    ensures SameCounts(BatchStored(table, Merged(batch)), OneByOne(start, before + batch))
  {
    BatchIsOneByOne(table, batch);
    SameCountsStay(table, OneByOne(start, before), batch);
    OneByOneAppends(start, before, batch);
  }

  lemma {:induction false} SurvivorsAppended(orders: seq<Order>, fate: seq<bool>, n: nat, stored: bool)
    requires |fate| + n <= |orders|
    ensures Survivors(orders, fate + Fates(n, stored)) ==
      Survivors(orders, fate) + if stored then orders[|fate|..|fate| + n] else []
    decreases n
  {
    if n == 0 {
      assert fate + Fates(n, stored) == fate;
    } else {
      var longer := fate + Fates(n, stored);
      assert longer[..|longer| - 1] == fate + Fates(n - 1, stored);
      SurvivorsAppended(orders, fate, n - 1, stored);
      assert orders[|fate|..|fate| + n] == orders[|fate|..|fate| + n - 1] + [orders[|fate| + n - 1]];
    }
  }

  /** Orders sent since change nothing of those written. */
  lemma {:induction false} SurvivorsBefore(orders: seq<Order>, more: seq<Order>, fate: seq<bool>)
    requires |fate| <= |orders|
    ensures Survivors(orders + more, fate) == Survivors(orders, fate)
    decreases |fate|
  {
    if fate != [] {
      SurvivorsBefore(orders, more, fate[..|fate| - 1]);
    }
  }

  lemma HeldWritten(s: State, stored: bool)
    requires Ordered(s)
    ensures Survivors(s.sent, AfterWrite(s, stored).fate) == Survivors(s.sent, s.fate) + if stored then Batch(s) else []
    ensures Held(AfterWrite(s, stored)) == Held(s) + if stored then CallsOf(Batch(s)) else []
  {
    var before, written, t := Survivors(s.sent, s.fate), (if stored then Batch(s) else []), AfterWrite(s, stored);
    assert t.sent == s.sent && t.fate == s.fate + Fates(s.taken - s.done, stored);
    SurvivorsAppended(s.sent, s.fate, s.taken - s.done, stored);
    assert Survivors(t.sent, t.fate) == before + written;
    CallsOfAppended(before, written);
  }

  lemma CountsWritten(start: Table, s: State, stored: bool)
    requires Ordered(s) && SameCounts(s.table, OneByOne(start, Held(s)))
    ensures SameCounts(AfterWrite(s, stored).table, OneByOne(start, Held(AfterWrite(s, stored))))
  {
    HeldWritten(s, stored);
    if stored {
      BatchCounts(start, s.table, Held(s), CallsOf(Batch(s)));
    } else {
      assert Held(s) + [] == Held(s);
    }
  }

  /** With no call dropped the rows themselves are kept, the days logged among them. */
  lemma RowsKept(start: Table, s: State, step: Step)
    requires StateSteadfast(s) && s.table == OneByOne(start, Held(s)) && Enabled(s, step)
    ensures Next(s, step).table == OneByOne(start, Held(Next(s, step)))
  {
    var t := Next(s, step);
    match step
    case Written(stored) =>
      HeldWritten(s, stored);
      WrittenSteadfast(s, stored);
      if stored {
        BatchIsOneByOne(s.table, CallsOf(Batch(s)));
        OneByOneAppends(start, Held(s), CallsOf(Batch(s)));
      } else {
        assert Held(s) + [] == Held(s);
      }
    case _ =>
      assert t.sent == s.sent + t.sent[|s.sent|..];
      SurvivorsBefore(s.sent, t.sent[|s.sent|..], s.fate);
      assert t.table == s.table && t.fate == s.fate;
  }

  lemma CountsKept(start: Table, s: State, step: Step)
    requires Ordered(s) && SameCounts(s.table, OneByOne(start, Held(s))) && Enabled(s, step)
    ensures SameCounts(Next(s, step).table, OneByOne(start, Held(Next(s, step))))
  {
    var t := Next(s, step);
    match step
    case Written(stored) =>
      CountsWritten(start, s, stored);
    case _ =>
      assert t.sent == s.sent + t.sent[|s.sent|..];
      SurvivorsBefore(s.sent, t.sent[|s.sent|..], s.fate);
      assert t.table == s.table && t.fate == s.fate;
  }

  lemma AllSurvive(s: State, step: Step)
    requires Ordered(s) && Survivors(s.sent, s.fate) == s.sent[..s.done] && Enabled(s, step) && !Next(s, step).failed
    ensures var t := Next(s, step); Survivors(t.sent, t.fate) == t.sent[..t.done]
  {
    var t := Next(s, step);
    match step
    case Written(stored) =>
      HeldWritten(s, true);
      assert s.sent[..s.taken] == s.sent[..s.done] + Batch(s);
    case _ =>
      assert t.sent == s.sent + t.sent[|s.sent|..];
      SurvivorsBefore(s.sent, t.sent[|s.sent|..], s.fate);
      assert t.sent[..t.done] == s.sent[..s.done];
  }

  /** A day a call was logged on is not one its row is still to be logged on. */
  lemma LoggedIsOver(start: Table, s: State, key: Key, name: string, at: Time, i: nat)
    requires Faithful(start, s) && InForce(start, s) && NotAfter(s.clock, at)
    requires i < |s.counted| && s.counted[i].logged && s.counted[i].key == key && s.counted[i].at.day == at.day
    ensures !Seen(s.table, s.logged, key, name, at).logged
  {
    assert s.counted[..i + 1][..i] == s.counted[..i];
    assert LoggedOn(OneByOne(start, s.counted[..i + 1]), key) == Some(at.day);
    PrefixNotLater(start, s.counted[..i + 1], s.counted, s.counted, key);
    assert NotLater(LoggedOn(OneByOne(start, s.counted), key), Some(s.clock.day));
  }

  lemma CountedOnceForAll(start: Table, s: State, key: Key, name: string, at: Time)
    requires Faithful(start, s) && InForce(start, s) && OncePerDay(s.counted, 0) && NotAfter(s.clock, at)
    ensures OncePerDay(s.counted + [Seen(s.table, s.logged, key, name, at)], 0)
  {
    var calls := s.counted + [Seen(s.table, s.logged, key, name, at)];
    forall i, j | 0 <= i < j < |calls| && calls[i].logged && calls[j].logged && calls[i].key == calls[j].key
      ensures calls[i].at.day != calls[j].at.day
    {
      assert calls[i] == s.counted[i];
      if j == |s.counted| && calls[i].at.day == at.day {
        LoggedIsOver(start, s, key, name, at, i);
      }
    }
  }

  lemma QueuedElseKeeps(start: Table, s: State, step: Step)
    requires Faithful(start, s) && InForce(start, s) && Enabled(s, step)
    requires step.Flushed? || step.Taken? || step.Restarted?
    ensures Faithful(start, Next(s, step)) && InForce(start, Next(s, step)) && Next(s, step).counted == s.counted
  {
    match step
    case Flushed(id) =>
      CallsOfOneMore(s.sent, Flush(id));
      assert Next(s, step).sent[..s.done] == s.sent[..s.done];
    case Taken =>
    case Restarted =>
      assert s.sent[..s.done] == s.sent;
  }

  lemma LosslessKept(start: Table, s: State, step: Step)
    requires Faithful(start, s) && InForce(start, s) && OncePerDay(s.counted, 0)
    requires Enabled(s, step) && !Next(s, step).failed && !Next(s, step).dropped
    ensures var t := Next(s, step); Faithful(start, t) && InForce(start, t) && OncePerDay(t.counted, 0)
  {
    match step
    case Counted(key, name, at) =>
      CountedKeeps(start, s, key, name, at);
      CountedOnceForAll(start, s, key, name, at);
    case Written(_) =>
      WrittenKeeps(start, s);
    case _ =>
      QueuedElseKeeps(start, s, step);
  }

  lemma {:induction false} RunsAreSound(start: Table, clock: Time, steps: seq<Step>, s: State)
    requires Past(start, clock) && Reached(start, clock, steps, s)
    ensures Sound(start, s)
    decreases |steps|
  {
    if steps == [] {
      StartIsSound(start, clock);
    } else {
      var earlier, step := steps[..|steps| - 1], steps[|steps| - 1];
      var before :| Reached(start, clock, earlier, before) && Leads(before, step, s);
      RunsAreSound(start, clock, earlier, before);
      RunStaysOncePerDay(before, step);
      CountsKept(start, before, step);
      if !s.dropped {
        SteadfastKept(before, step);
        RowsKept(start, before, step);
      }
      if !s.failed {
        AllSurvive(before, step);
        if !s.dropped {
          LosslessKept(start, before, step);
        }
      }
    }
  }

  /**
   * Whatever was dropped or failed, a process logs a key once a day, and the counts are those of storing one by
   * one the calls whose batch was stored: every call written, while none failed. While no call is dropped so is
   * the whole table, whatever failed; while nothing is lost, a key is logged once a day across restarts too.
   */
  lemma CountedAsOneByOne(start: Table, clock: Time, steps: seq<Step>, s: State)
    requires Past(start, clock) && Reached(start, clock, steps, s)
    ensures Ordered(s) && OncePerDay(s.counted, s.since) && SameCounts(s.table, OneByOne(start, Held(s)))
    ensures !s.failed ==> SameCounts(s.table, OneByOne(start, CallsOf(s.sent[..s.done])))
    ensures !s.dropped ==> s.table == OneByOne(start, Held(s))
    ensures !s.failed && !s.dropped ==>
      s.table == OneByOne(start, CallsOf(s.sent[..s.done])) && OncePerDay(s.counted, 0)
  {
    RunsAreSound(start, clock, steps, s);
  }

  /** The calls sent before the `n`-th order, and those of them whose batch was stored. */
  function Before(s: State, n: nat): (seq<Call>, seq<Call>)
    requires Ordered(s) && n <= s.done
  {
    (CallsOf(s.sent[..n]), CallsOf(Survivors(s.sent, s.fate[..n])))
  }

  lemma OneFateMore(sent: seq<Order>, fate: seq<bool>)
    requires 0 < |fate| <= |sent|
    ensures var last := |fate| - 1;
      CallsOf(Survivors(sent, fate)) == CallsOf(Survivors(sent, fate[..last])) +
        if fate[last] && sent[last].Count? then [sent[last].call] else []
  {
    var before, order := Survivors(sent, fate[..|fate| - 1]), sent[|fate| - 1];
    CallsOfOneMore(before, order);
    assert before + [] == before && CallsOf(before) + [] == CallsOf(before);
  }

  /** Every call among the orders written was stored. */
  ghost predicate AllStored(sent: seq<Order>, fate: seq<bool>)
    requires |fate| <= |sent|
  {
    forall i | 0 <= i < |fate| && sent[i].Count? :: fate[i]
  }

  lemma OneMoreStored(sent: seq<Order>, fate: seq<bool>)
    requires 0 < |fate| <= |sent|
    ensures var last := |fate| - 1;
      AllStored(sent, fate) <==> AllStored(sent, fate[..last]) && (sent[last].Count? ==> fate[last])
  {
    var last := |fate| - 1;
    if AllStored(sent, fate[..last]) && (sent[last].Count? ==> fate[last]) {
      forall i | 0 <= i < |fate| && sent[i].Count? ensures fate[i] {
        assert i < last ==> fate[..last][i];
      }
    }
    if AllStored(sent, fate) {
      assert forall i | 0 <= i < last && sent[i].Count? :: fate[..last][i] == fate[i];
    }
  }

  lemma OneCallMore(a: seq<Call>, b: seq<Call>, call: Call)
    ensures a + [call] == b + [call] <==> a == b
  {
    if a + [call] == b + [call] {
      assert (a + [call])[..|a|] == (b + [call])[..|b|];
    }
  }

  lemma {:induction false} SurvivorsOf(sent: seq<Order>, fate: seq<bool>)
    requires |fate| <= |sent|
    ensures |CallsOf(Survivors(sent, fate))| <= |CallsOf(sent[..|fate|])|
    ensures CallsOf(Survivors(sent, fate)) == CallsOf(sent[..|fate|]) <==> AllStored(sent, fate)
    decreases |fate|
  {
    if fate != [] {
      var last := |fate| - 1;
      var kept, calls := CallsOf(Survivors(sent, fate[..last])), CallsOf(sent[..last]);
      SurvivorsOf(sent, fate[..last]);
      OneMoreStored(sent, fate);
      OneFateMore(sent, fate);
      assert sent[..|fate|] == sent[..last] + [sent[last]];
      CallsOfOneMore(sent[..last], sent[last]);
      if sent[last].Count? {
        OneCallMore(kept, calls, sent[last].call);
        assert !fate[last] ==> CallsOf(Survivors(sent, fate)) == kept && |kept| < |calls + [sent[last].call]|;
      } else {
        assert CallsOf(Survivors(sent, fate)) == kept && CallsOf(sent[..|fate|]) == calls;
      }
    }
  }

  lemma {:induction false} SurvivorsGrow(sent: seq<Order>, fate: seq<bool>, n: nat)
    requires n <= |fate| <= |sent|
    ensures CallsOf(Survivors(sent, fate[..n])) <= CallsOf(Survivors(sent, fate))
    decreases |fate|
  {
    if n == |fate| {
      assert fate[..n] == fate;
    } else {
      var last := |fate| - 1;
      assert fate[..last][..n] == fate[..n];
      SurvivorsGrow(sent, fate[..last], n);
      OneFateMore(sent, fate);
    }
  }

  /**
   * A flush is answered with its batch. The table then holds every call sent before it exactly when none of
   * them was in a batch that failed: the flush is answered all the same.
   */
  lemma AnsweredOnceStored(start: Table, clock: Time, steps: seq<Step>, s: State, flush: nat)
    requires Past(start, clock) && Reached(start, clock, steps, s) && Ordered(s)
    requires flush < s.done && s.sent[flush].Flush?
    ensures SameCounts(s.table, OneByOne(start, Held(s))) && Before(s, flush).1 <= Held(s)
    ensures Before(s, flush).1 == Before(s, flush).0 <==> AllStored(s.sent, s.fate[..flush])
    ensures !s.failed ==> Before(s, flush).0 <= Held(s)
    ensures !s.dropped ==> s.table == OneByOne(start, Held(s))
  {
    RunsAreSound(start, clock, steps, s);
    SurvivorsOf(s.sent, s.fate[..flush]);
    SurvivorsGrow(s.sent, s.fate, flush);
    assert s.fate[..|s.fate|] == s.fate;
    if !s.failed {
      CallsOfPrefix(s.sent, flush, s.done);
    }
  }

  /** One call, then a flush, in a batch that fails: the flush is answered and the table holds nothing. */
  lemma AnsweredUnstored(key: Key, name: string, clock: Time) returns (steps: seq<Step>, s: State)
    ensures Reached(map[], clock, steps, s) && Ordered(s)
    ensures s.done == 2 && s.sent[0].Count? && s.sent[1].Flush? && s.table == map[] && !s.dropped
  {
    steps, s := CallThenFlush(key, name, clock);
    steps, s := Leading(clock, steps, s, Taken);
    steps, s := Leading(clock, steps, s, Taken);
    steps, s := Leading(clock, steps, s, Written(false));
  }

  lemma CallThenFlush(key: Key, name: string, clock: Time) returns (steps: seq<Step>, s: State)
    ensures Reached(map[], clock, steps, s) && Ordered(s)
    ensures |s.sent| == 2 && s.taken == 0 && s.done == 0 && s.sent[0].Count? && s.sent[1].Flush?
    ensures s.table == map[] && !s.dropped
  {
    steps, s := Leading(clock, [], New(map[], clock), Counted(key, name, clock));
    steps, s := Leading(clock, steps, s, Flushed(0));
  }

  lemma Leading(clock: Time, before: seq<Step>, s: State, step: Step) returns (steps: seq<Step>, t: State)
    requires Reached(map[], clock, before, s) && Ordered(s) && Enabled(s, step)
    ensures Reached(map[], clock, steps, t) && Ordered(t) && t == Next(s, step)
  {
    steps, t := before + [step], Next(s, step);
    assert steps[..|before|] == before;
    assert Leads(s, step, t);
  }

  // ----- the queue, and what is lost

  /** The queue holds what it can at most, and a call is dropped exactly when it is full. */
  lemma DroppedWhenFull(
    start: Table, clock: Time, steps: seq<Step>, s: State, key: Key, name: string, at: Time)
    requires Reached(start, clock, steps, s) && Ordered(s) && Enabled(s, Counted(key, name, at))
    ensures |s.sent| - s.taken <= QUEUED
    ensures
      var log := !(key in s.logged && s.logged[key] == at.day) &&
        !(key in s.table && s.table[key].loggedOn == Some(at.day));
      var t, call := Next(s, Counted(key, name, at)), Call(key, name, at, log);
      t.counted == s.counted + [call] && t.logged == s.logged[key := at.day] && t.table == s.table &&
      t.sent == (if |s.sent| - s.taken == QUEUED then s.sent else s.sent + [Count(call)]) &&
      t.taken == s.taken && t.dropped == (s.dropped || |s.sent| - s.taken == QUEUED) && t.failed == s.failed
  {
    QueueBounded(start, clock, steps, s);
  }

  lemma {:induction false} QueueBounded(start: Table, clock: Time, steps: seq<Step>, s: State)
    requires Reached(start, clock, steps, s)
    ensures Ordered(s) && |s.sent| - s.taken <= QUEUED
    decreases |steps|
  {
    if steps != [] {
      var earlier, step := steps[..|steps| - 1], steps[|steps| - 1];
      var before :| Reached(start, clock, earlier, before) && Leads(before, step, s);
      QueueBounded(start, clock, earlier, before);
      StaysBounded(before, step);
    }
  }

  lemma StaysBounded(s: State, step: Step)
    requires Ordered(s) && Enabled(s, step) && |s.sent| - s.taken <= QUEUED
    ensures |Next(s, step).sent| - Next(s, step).taken <= QUEUED
  {
  }

  /**
   * A call logged and lost with its batch is known to this process alone: after a restart the next call of the
   * day is logged again.
   */
  lemma LoggedTwiceAfterALoss(key: Key, name: string, clock: Time) returns (steps: seq<Step>, s: State)
    ensures Reached(map[], clock, steps, s) && Ordered(s) && s.failed && !s.dropped
    ensures s.counted == [Call(key, name, clock, true), Call(key, name, clock, true)] && !OncePerDay(s.counted, 0)
  {
    steps, s := Leading(clock, [], New(map[], clock), Counted(key, name, clock));
    steps, s := Leading(clock, steps, s, Taken);
    steps, s := Leading(clock, steps, s, Written(false));
    steps, s := Leading(clock, steps, s, Restarted);
    steps, s := Leading(clock, steps, s, Counted(key, name, clock));
    var call := Call(key, name, clock, true);
    assert s.counted == [call, call];
    assert s.counted[0].at.day == s.counted[1].at.day;
  }

  // ----- where a batch is not what its calls would be one by one

  /** Orders none of which is a call. */
  predicate FlushesOnly(orders: seq<Order>) {
    forall i | 0 <= i < |orders| :: orders[i].Flush?
  }

  lemma {:induction false} FlushesAreNoCalls(orders: seq<Order>)
    requires FlushesOnly(orders)
    ensures CallsOf(orders) == []
  {
    if orders != [] {
      FlushesAreNoCalls(orders[..|orders| - 1]);
    }
  }

  lemma {:induction false} Filled(clock: Time, before: seq<Step>, s: State, n: nat)
    returns (steps: seq<Step>, t: State)
    requires Reached(map[], clock, before, s) && Ordered(s) && |s.sent| - s.taken + n <= QUEUED
    ensures Reached(map[], clock, steps, t) && Ordered(t)
    ensures |t.sent| == |s.sent| + n && t == s.(sent := t.sent) && s.sent <= t.sent && FlushesOnly(t.sent[|s.sent|..])
    decreases n
  {
    steps, t := before, s;
    if n > 0 {
      steps, t := Filled(clock, before, s, n - 1);
      steps, t := Leading(clock, steps, t, Flushed(0));
    }
  }

  lemma {:induction false} AllTaken(clock: Time, before: seq<Step>, s: State, n: nat)
    returns (steps: seq<Step>, t: State)
    requires Reached(map[], clock, before, s) && Ordered(s) && s.taken + n <= |s.sent|
    ensures Reached(map[], clock, steps, t) && Ordered(t) && t == s.(taken := s.taken + n)
    decreases n
  {
    steps, t := before, s;
    if n > 0 {
      steps, t := AllTaken(clock, before, s, n - 1);
      steps, t := Leading(clock, steps, t, Taken);
    }
  }

  /** A call made on each of two days, the first one waiting in a full queue. */
  lemma FullQueue(key: Key, name: string, first: Time) returns (steps: seq<Step>, s: State)
    ensures Reached(map[], first, steps, s) && Ordered(s)
    ensures |s.sent| == QUEUED && s.taken == 0 && s.done == 0 && s.table == map[] && s.clock == first
    ensures !s.failed && !s.dropped
    ensures s.logged == map[key := first.day] && CallsOf(s.sent) == [Call(key, name, first, true)]
  {
    steps, s := Leading(first, [], New(map[], first), Counted(key, name, first));
    var call := Call(key, name, first, true);
    var one := s.sent;
    assert one == [Count(call)];
    steps, s := Filled(first, steps, s, QUEUED - 1);
    assert s.sent == one + s.sent[1..];
    CallsOfAppended(one, s.sent[1..]);
    FlushesAreNoCalls(s.sent[1..]);
    CallsOfOneMore([], Count(call));
    assert [] + [Count(call)] == one && [] + [call] == [call] && [call] + [] == [call];
  }

  /** The call that would have been logged on the second day is dropped, and the next, known of that day, sent. */
  lemma DroppedBetween(key: Key, name: string, first: Time, second: Time) returns (steps: seq<Step>, s: State)
    requires first.day < second.day
    ensures Reached(map[], first, steps, s) && Ordered(s) && s.dropped && !s.failed
    ensures s.done == 0 && 0 < s.taken == |s.sent| && s.table == map[]
    ensures CallsOf(s.sent) == [Call(key, name, first, true), Call(key, name, second, false)]
  {
    steps, s := FullQueue(key, name, first);
    steps, s := Leading(first, steps, s, Counted(key, name, second));
    steps, s := Leading(first, steps, s, Taken);
    var sent := s.sent;
    steps, s := Leading(first, steps, s, Counted(key, name, second));
    CallsOfOneMore(sent, Count(Call(key, name, second, false)));
    steps, s := AllTaken(first, steps, s, |s.sent| - s.taken);
  }

  lemma UnsteadyPair(key: Key, name: string, first: Time, second: Time)
    requires first.day < second.day
    ensures !Steady([Call(key, name, first, true), Call(key, name, second, false)])
  {
    var a, b := Call(key, name, first, true), Call(key, name, second, false);
    assert [] + [a] == [a] && [a] + [b] == [a, b];
    MergedOneMore([], a);
    MergedOneMore([a], b);
    assert key in Merged([a, b]) && LastLogged([a, b], key) == Some(first.day);
  }

  /** A call dropped by a full queue can leave a batch stored that is not what its calls leave one by one. */
  lemma DroppedIsUnsteady(key: Key, name: string, first: Time, second: Time) returns (steps: seq<Step>, s: State)
    requires first.day < second.day
    ensures Reached(map[], first, steps, s) && Ordered(s) && s.dropped && !s.failed
    ensures s.table != OneByOne(map[], Held(s))
  {
    steps, s := DroppedBetween(key, name, first, second);
    var before, batch := s, CallsOf(Batch(s));
    assert Batch(s) == s.sent;
    UnsteadyPair(key, name, first, second);
    BatchIsOneByOne(map[], batch);
    HeldWritten(s, true);
    assert Held(before) == [] && [] + batch == batch;
    steps, s := Leading(first, steps, s, Written(true));
  }

  // ----- the object the handlers and the writer share

  function FlushesOf(orders: seq<Order>): seq<nat> {
    if orders == [] then []
    else
      var last := orders[|orders| - 1];
      FlushesOf(orders[..|orders| - 1]) + if last.Flush? then [last.id] else []
  }

  /**
   * `kept` and `waiting` are what the writer holds of the orders it has taken and not written yet; `now` is
   * the state the steps so far lead to.
   */
  class Calls {
    var table: Table
    var logged: map<Key, nat>
    var queue: seq<Order>
    var kept: map<Key, Kept>
    var waiting: seq<nat>
    var answered: seq<nat>
    ghost var now: State

    ghost predicate Valid()
      reads this
    {
      Ordered(now) && table == now.table && logged == now.logged && queue == now.sent[now.taken..] &&
      kept == Merged(CallsOf(Batch(now))) && waiting == FlushesOf(Batch(now)) &&
      answered == FlushesOf(now.sent[..now.done])
    }

    constructor (table: Table, clock: Time)
      ensures Valid() && now == New(table, clock) && answered == []
    {
      this.table, logged, queue, kept, waiting, answered := table, map[], [], map[], [], [];
      now := New(table, clock);
    }

    method Count(key: Key, name: string, at: Time)
      requires Valid() && Enabled(now, Counted(key, name, at))
      modifies this
      ensures Valid() && now == Next(old(now), Counted(key, name, at)) && answered == old(answered)
    {
      var known := key in logged && logged[key] == at.day;
      var log := !known && !LoggedToday(key, at.day);
      logged := logged[key := at.day];
      var call := Call(key, name, at, log);
      SentLater(now, Next(now, Counted(key, name, at)));
      now := Next(now, Counted(key, name, at));
      if |queue| < QUEUED {
        queue := queue + [Order.Count(call)];
      }
    }

    predicate LoggedToday(key: Key, day: nat)
      reads this
    {
      LoggedOn(table, key) == Some(day)
    }

    method Flush(id: nat)
      requires Valid() && Enabled(now, Flushed(id))
      modifies this
      ensures Valid() && now == Next(old(now), Flushed(id)) && answered == old(answered)
    {
      SentLater(now, Next(now, Flushed(id)));
      now := Next(now, Flushed(id));
      queue := queue + [Order.Flush(id)];
    }

    /** One order off the queue: a call merged into what is kept of its key, a flush left to answer. */
    method Take()
      requires Valid() && queue != []
      modifies this
      ensures Valid() && now == Next(old(now), Taken) && queue == old(queue[1..]) && answered == old(answered)
    {
      TakenOne(now);
      KeepOrder(queue[0]);
      now, queue := Next(now, Taken), queue[1..];
    }

    method KeepOrder(order: Order)
      modifies this`kept, this`waiting
      ensures kept == if order.Count? then With(old(kept), order.call) else old(kept)
      ensures waiting == old(waiting) + if order.Flush? then [order.id] else []
    {
      match order {
        case Count(call) =>
          Merge(call);
          assert waiting + [] == waiting;
        case Flush(id) =>
          waiting := waiting + [id];
      }
    }

    method Merge(call: Call)
      modifies this`kept
      ensures kept == With(old(kept), call)
    {
      if call.key in kept {
        var was := kept[call.key];
        kept := kept[call.key := Kept(call.(logged := was.call.logged || call.logged), was.count + 1)];
      } else {
        kept := kept[call.key := Kept(call, 1)];
      }
    }

    /** Everything that waits, one order after the other. */
    method Drain()
      requires Valid()
      modifies this
      ensures Valid() && queue == [] && now == old(now).(taken := |old(now).sent|) && answered == old(answered)
      ensures kept == Merged(CallsOf(now.sent[now.done..])) && waiting == FlushesOf(now.sent[now.done..])
    {
      while queue != []
        invariant Valid() && now == old(now).(taken := now.taken) && answered == old(answered)
        decreases |queue|
      {
        Take();
      }
      assert Batch(now) == now.sent[now.done..];
    }

    /** The batch stored in one transaction, or lost; then its flushes are answered either way. */
    method WriteBatch(stored: bool)
      requires Valid() && Enabled(now, Written(stored))
      modifies this
      ensures Valid() && now == Next(old(now), Written(stored))
      ensures answered == old(answered) + old(waiting) && kept == map[] && waiting == []
    {
      BatchAnswered(now);
      if stored {
        table := Insert(table, kept);
      }
      answered := answered + waiting;
      kept, waiting := map[], [];
      now := Next(now, Written(stored));
    }
  }

  lemma SentLater(s: State, t: State)
    requires Ordered(s) && Ordered(t) && s.sent <= t.sent && t.done == s.done && t.taken == s.taken
    ensures Batch(t) == Batch(s) && t.sent[..t.done] == s.sent[..s.done]
    ensures t.sent[t.taken..] == s.sent[s.taken..] + t.sent[|s.sent|..]
  {
  }

  lemma TakenOne(s: State)
    requires Ordered(s) && s.taken < |s.sent|
    ensures var t, order := Next(s, Taken), s.sent[s.taken..][0];
      t.sent[t.taken..] == s.sent[s.taken..][1..] &&
      Merged(CallsOf(Batch(t))) ==
        (if order.Count? then With(Merged(CallsOf(Batch(s))), order.call) else Merged(CallsOf(Batch(s)))) &&
      FlushesOf(Batch(t)) == FlushesOf(Batch(s)) + if order.Flush? then [order.id] else []
  {
    assert s.sent[s.done..s.taken + 1] == s.sent[s.done..s.taken] + [s.sent[s.taken]];
    assert s.sent[s.taken..][1..] == s.sent[s.taken + 1..];
    OneOrderMore(Batch(s), s.sent[s.taken]);
  }

  lemma BatchAnswered(s: State)
    requires Ordered(s)
    ensures FlushesOf(s.sent[..s.taken]) == FlushesOf(s.sent[..s.done]) + FlushesOf(Batch(s))
  {
    assert s.sent[..s.taken] == s.sent[..s.done] + Batch(s);
    FlushesOfAppended(s.sent[..s.done], Batch(s));
  }

  function Except(kept: map<Key, Kept>, left: set<Key>): map<Key, Kept> {
    map k | k in kept && k !in left :: kept[k]
  }

  lemma OneKeyMore(table: Table, kept: map<Key, Kept>, left: set<Key>, k: Key)
    requires k in kept && k in left && kept[k].call.key == k
    ensures Stored(BatchStored(table, Except(kept, left)), kept[k].call, kept[k].count) ==
      BatchStored(table, Except(kept, left - {k}))
  {
  }

  lemma NoKeyYet(table: Table, kept: map<Key, Kept>)
    ensures BatchStored(table, Except(kept, kept.Keys)) == table
    ensures Except(kept, {}) == kept
  {
  }

  /** One statement per key, in whatever order the map gives them. */
  method Insert(table: Table, kept: map<Key, Kept>) returns (rows: Table)
    requires forall k | k in kept :: kept[k].call.key == k
    ensures rows == BatchStored(table, kept)
  {
    NoKeyYet(table, kept);
    rows := table;
    var left := kept.Keys;
    while left != {}
      invariant left <= kept.Keys && rows == BatchStored(table, Except(kept, left))
      decreases |left|
    {
      var k :| k in left;
      OneKeyMore(table, kept, left, k);
      rows := Stored(rows, kept[k].call, kept[k].count);
      left := left - {k};
    }
  }

  lemma OneOrderMore(orders: seq<Order>, order: Order)
    ensures Merged(CallsOf(orders + [order])) ==
      if order.Count? then With(Merged(CallsOf(orders)), order.call) else Merged(CallsOf(orders))
    ensures FlushesOf(orders + [order]) == FlushesOf(orders) + if order.Flush? then [order.id] else []
  {
    CallsOfOneMore(orders, order);
    assert (orders + [order])[..|orders|] == orders;
    if order.Count? {
      var calls := CallsOf(orders) + [order.call];
      assert calls[..|calls| - 1] == CallsOf(orders) && CallsOf(orders + [order]) == calls;
    } else {
      assert CallsOf(orders + [order]) == CallsOf(orders);
    }
  }

  lemma {:induction false} FlushesOfAppended(a: seq<Order>, b: seq<Order>)
    ensures FlushesOf(a + b) == FlushesOf(a) + FlushesOf(b)
    decreases |b|
  {
    if b == [] {
      assert a + b == a;
    } else {
      assert (a + b)[..|a + b| - 1] == a + b[..|b| - 1];
      FlushesOfAppended(a, b[..|b| - 1]);
    }
  }
}
