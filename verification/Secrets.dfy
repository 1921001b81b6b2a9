/**
 * Sealed secrets and the starts that change the key they are sealed with: backend/src/crypto.rs, the
 * resealing of backend/src/services/maintenance.rs and the two guards of backend/src/main.rs.
 *
 * Ciphers are symbolic: a value opens under the key it was sealed with and under no other, and keys
 * made in different ways, or of different inputs, differ.
 */
module Secrets {
  import opened Options
  import Texts

  datatype Key = Whole(bytes: string) | Argon2(phrase: string, salt: string) | Sha256(phrase: string)

  datatype Version = V1 | V2

  datatype Payload = NotBase64 | Truncated | Box(key: Key, nonce: nat, text: string)

  /** A stored string, by its prefix: what follows `enc:v1:` or `enc:v2:`, or a plaintext. */
  datatype Stored = Plain(text: string) | Sealed(version: Version, payload: Payload)

  /**
   * How strings are read: `whole` is the key an input is when it is base64 of 32 bytes, `parse` how a
   * text looks once stored, `looks` the plaintexts SQL takes for a seal (`LIKE 'enc:v%'`).
   */
  datatype Reading = Reading(whole: string -> Option<string>, parse: string -> Stored, looks: string -> bool)

  datatype SecretBox = SecretBox(cipher: Key, previous: Option<Key>, v1: seq<Key>, prefix: Version)

  datatype Opened = Text(text: string) | Malformed | WrongKey

  function DeriveKey(r: Reading, input: string, salt: Option<string>): Key {
    match r.whole(input)
    case Some(bytes) => Whole(bytes)
    case None => if salt.Some? then Argon2(input, salt.value) else Sha256(input)
  }

  /** A passphrase stretched with SHA-256 still opens `enc:v1:`, once a salt stretches it otherwise. */
  function OldKeys(r: Reading, inputs: seq<string>): seq<Key> {
    if inputs == [] then []
    else (if r.whole(inputs[0]).None? then [Sha256(inputs[0])] else []) + OldKeys(r, inputs[1..])
  }

  function Load(r: Reading, current: string, previous: Option<string>, salt: Option<string>): SecretBox {
    var inputs := [current] + if previous.Some? then [previous.value] else [];
    SecretBox(
      DeriveKey(r, current, salt),
      if previous.Some? then Some(DeriveKey(r, previous.value, salt)) else None,
      if salt.Some? then OldKeys(r, inputs) else [],
      if salt.Some? || r.whole(current).Some? then V2 else V1)
  }

  /** A value that already reads as sealed passes through. */
  function Seal(box: SecretBox, value: Stored, nonce: nat): Stored {
    match value
    case Sealed(_, _) => value
    case Plain(text) => Sealed(box.prefix, Box(box.cipher, nonce, text))
  }

  function KeysTried(box: SecretBox, version: Version): seq<Key> {
    [box.cipher] + (if box.previous.Some? then [box.previous.value] else []) + if version == V1 then box.v1 else []
  }

  function Open(box: SecretBox, stored: Stored): Opened {
    match stored
    case Plain(text) => Text(text)
    case Sealed(version, Box(key, _, text)) => if key in KeysTried(box, version) then Text(text) else WrongKey
    case Sealed(_, _) => Malformed
  }

  /** Plaintext, an old seal once a salt stretches passphrases, and a seal of a superseded key. */
  predicate NeedsReseal(box: SecretBox, stored: Stored) {
    match stored
    case Plain(_) => true
    case Sealed(version, payload) =>
      if version == V1 && box.prefix == V2 then true
      else if version != box.prefix && version != V1 then true
      else payload.Box? && payload.key != box.cipher
  }

  // ----- what a box opens

  /** Under the current key, in the current form: nothing is left to rewrite. */
  predicate Fresh(box: SecretBox, stored: Stored, text: string) {
    stored.Sealed? && stored.version == box.prefix && stored.payload.Box? &&
    stored.payload.key == box.cipher && stored.payload.text == text
  }

  /** One row rewritten, if it needs it and opens: a value nothing opens is the only copy, and is left. */
  function Resealed(r: Reading, box: SecretBox, stored: Stored, nonce: nat): Stored {
    if !NeedsReseal(box, stored) then stored
    else match Open(box, stored)
      case Text(text) => Seal(box, r.parse(text), nonce)
      case _ => stored
  }

  /** A value and the box agree on the text, which is one a seal does not pass through. */
  predicate Holds(r: Reading, box: SecretBox, stored: Stored, text: string) {
    Open(box, stored) == Text(text) && r.parse(text) == Plain(text)
  }

  lemma SealThenOpen(r: Reading, box: SecretBox, text: string, nonce: nat)
    requires r.parse(text) == Plain(text)
    ensures Holds(r, box, Seal(box, r.parse(text), nonce), text) && Fresh(box, Seal(box, r.parse(text), nonce), text)
    ensures !NeedsReseal(box, Seal(box, r.parse(text), nonce))
  {
  }

  /** What stands already sealed in `text` opens to `text`, as no text anybody types does. */
  predicate OpensToItself(box: SecretBox, typed: Stored, text: string) {
    match typed
    case Plain(plain) => plain == text
    case Sealed(version, Box(key, _, held)) => key in KeysTried(box, version) && held == text
    case Sealed(_, _) => false
  }

  /**
   * A text sealed comes back exactly when it does not read as sealed, or reads as a seal of itself under
   * a key the box tries: anything else that reads as sealed is stored as it is, and lost.
   */
  lemma MarkedTextIsNotSealed(r: Reading, box: SecretBox, text: string, nonce: nat)
    ensures Open(box, Seal(box, r.parse(text), nonce)) == Text(text) <==> OpensToItself(box, r.parse(text), text)
    ensures r.parse(text).Sealed? ==> Seal(box, r.parse(text), nonce) == r.parse(text)
    ensures r.parse(text).Sealed? && !r.parse(text).payload.Box? ==>
      Open(box, Seal(box, r.parse(text), nonce)) == Malformed
  {
    assert box.cipher in KeysTried(box, box.prefix);
  }

  /** Whatever opened is now fresh, and needs no rewriting again. */
  lemma ResealedIsFresh(r: Reading, box: SecretBox, stored: Stored, text: string, nonce: nat)
    requires Holds(r, box, stored, text)
    ensures Fresh(box, Resealed(r, box, stored, nonce), text) && !NeedsReseal(box, Resealed(r, box, stored, nonce))
    ensures Holds(r, box, Resealed(r, box, stored, nonce), text)
  {
  }

  // ----- the rows of an installation, and a start over them

  datatype Store = Instances | Settings | Webhooks

  /** A stored value. Every row of the first and last store is secret, and so are some settings. */
  datatype Row = Row(store: Store, value: Stored, secret: bool)

  /** A setting left blank means unset, and is left as it is. */
  predicate Rewrites(row: Row) {
    row.secret && !(row.store == Settings && row.value.Plain? && Texts.Blank(row.value.text))
  }

  function ResealedRow(r: Reading, box: SecretBox, row: Row, nonce: nat): Row {
    if Rewrites(row) then row.(value := Resealed(r, box, row.value, nonce)) else row
  }

  function ResealedRows(r: Reading, box: SecretBox, rows: seq<Row>, nonces: nat -> nat): seq<Row> {
    seq(|rows|, i requires 0 <= i < |rows| => ResealedRow(r, box, rows[i], nonces(i)))
  }

  /** What SQL takes for a seal: every one, and some plaintext. */
  predicate Marked(r: Reading, value: Stored) {
    value.Sealed? || r.looks(value.text)
  }

  /** One row of `store` taken for a seal, any of them, or none where there is none. */
  ghost predicate IsSample(r: Reading, rows: seq<Row>, store: Store, picked: Option<Stored>) {
    match picked
    case None => forall row | row in rows && row.store == store :: !Marked(r, row.value)
    case Some(value) => Marked(r, value) && exists row | row in rows :: row.store == store && row.value == value
  }

  datatype Sample = Sample(instance: Option<Stored>, setting: Option<Stored>, webhook: Option<Stored>)

  ghost predicate Sampled(r: Reading, rows: seq<Row>, sample: Sample) {
    IsSample(r, rows, Instances, sample.instance) && IsSample(r, rows, Settings, sample.setting) &&
    IsSample(r, rows, Webhooks, sample.webhook)
  }

  function Tried(sample: Sample): seq<Stored> {
    (if sample.instance.Some? then [sample.instance.value] else []) +
    (if sample.setting.Some? then [sample.setting.value] else []) +
    (if sample.webhook.Some? then [sample.webhook.value] else [])
  }

  function Closed(box: SecretBox, values: seq<Stored>): nat {
    if values == [] then 0 else (if Open(box, values[0]).Text? then 0 else 1) + Closed(box, values[1..])
  }

  /** The start guard: every value tried stays closed, and at least one was. */
  predicate RefusesForeignKey(box: SecretBox, sample: Sample, allowNew: bool) {
    var closed := Closed(box, Tried(sample));
    closed != 0 && closed >= |Tried(sample)| && !allowNew
  }

  lemma {:induction false} ClosedCounts(box: SecretBox, values: seq<Stored>)
    ensures Closed(box, values) <= |values|
    ensures Closed(box, values) == 0 <==> forall v | v in values :: Open(box, v).Text?
    ensures Closed(box, values) == |values| <==> forall v | v in values :: !Open(box, v).Text?
    decreases |values|
  {
    if values != [] {
      ClosedCounts(box, values[1..]);
    }
  }

  /** The guard refuses exactly when it tried a value and opened none it tried. */
  lemma RefusesWhenNoneOpens(box: SecretBox, sample: Sample)
    ensures RefusesForeignKey(box, sample, false) <==>
      Tried(sample) != [] && forall v | v in Tried(sample) :: !Open(box, v).Text?
    ensures !RefusesForeignKey(box, sample, true)
  {
    ClosedCounts(box, Tried(sample));
  }

  /** A key that opens no seal the database holds is refused, whichever rows are tried. */
  lemma ForeignKeyIsRefused(r: Reading, box: SecretBox, rows: seq<Row>, sample: Sample)
    requires Sampled(r, rows, sample)
    requires exists row | row in rows :: Marked(r, row.value)
    requires forall row | row in rows && Marked(r, row.value) :: !Open(box, row.value).Text?
    ensures RefusesForeignKey(box, sample, false)
  {
    RefusesWhenNoneOpens(box, sample);
    var row :| row in rows && Marked(r, row.value);
    match row.store {
      case Instances => assert sample.instance.Some?;
      case Settings => assert sample.setting.Some?;
      case Webhooks => assert sample.webhook.Some?;
    }
  }

  predicate Closes(r: Reading, box: SecretBox, row: Row) {
    Marked(r, row.value) && !Open(box, row.value).Text?
  }

  /** Of each store that holds what reads as sealed, at least one such row does not open. */
  ghost predicate EachStoreMayClose(r: Reading, box: SecretBox, rows: seq<Row>) {
    (exists row | row in rows :: Marked(r, row.value)) &&
    forall store | StoreMarked(r, rows, store) :: StoreMayClose(r, box, rows, store)
  }

  ghost predicate SomeSealOpens(r: Reading, box: SecretBox, rows: seq<Row>) {
    exists row | row in rows :: Marked(r, row.value) && Open(box, row.value).Text?
  }

  ghost predicate StoreMarked(r: Reading, rows: seq<Row>, store: Store) {
    exists row | row in rows :: row.store == store && Marked(r, row.value)
  }

  ghost predicate StoreMayClose(r: Reading, box: SecretBox, rows: seq<Row>, store: Store) {
    exists row | row in rows :: row.store == store && Closes(r, box, row)
  }

  /** The worst row of a store a start may try: one that does not open, where there is one. */
  lemma WorstSample(r: Reading, box: SecretBox, rows: seq<Row>, store: Store) returns (picked: Option<Stored>)
    requires StoreMarked(r, rows, store) ==> StoreMayClose(r, box, rows, store)
    ensures IsSample(r, rows, store, picked)
    ensures picked.Some? <==> StoreMarked(r, rows, store)
    ensures picked.Some? ==> !Open(box, picked.value).Text?
  {
    if StoreMarked(r, rows, store) {
      var row :| row in rows && row.store == store && Closes(r, box, row);
      picked := Some(row.value);
    } else {
      picked := None;
    }
  }

  lemma ClosedSampleIsOfItsStore(r: Reading, box: SecretBox, rows: seq<Row>, store: Store, picked: Option<Stored>)
    requires IsSample(r, rows, store, picked) && (picked.Some? ==> !Open(box, picked.value).Text?)
    ensures StoreMarked(r, rows, store) ==> StoreMayClose(r, box, rows, store)
    ensures picked.Some? ==> StoreMarked(r, rows, store)
  {
    if picked.Some? {
      var row :| row in rows && row.store == store && row.value == picked.value;
      assert Closes(r, box, row);
    }
  }

  /**
   * Whether a start may be refused is a matter of its rows: it may, for some rows tried, exactly when
   * there is something sealed and each store holding any holds a row that does not open.
   */
  lemma MayBeRefused(r: Reading, box: SecretBox, rows: seq<Row>)
    ensures (exists sample :: Sampled(r, rows, sample) && RefusesForeignKey(box, sample, false)) <==>
      EachStoreMayClose(r, box, rows)
  {
    if EachStoreMayClose(r, box, rows) {
      SomeSampleIsRefused(r, box, rows);
    }
    forall sample | Sampled(r, rows, sample) && RefusesForeignKey(box, sample, false)
      ensures EachStoreMayClose(r, box, rows)
    {
      RefusedSampleCloses(r, box, rows, sample);
    }
  }

  lemma SomeSampleIsRefused(r: Reading, box: SecretBox, rows: seq<Row>)
    requires EachStoreMayClose(r, box, rows)
    ensures exists sample :: Sampled(r, rows, sample) && RefusesForeignKey(box, sample, false)
  {
    var instance := WorstSample(r, box, rows, Instances);
    var setting := WorstSample(r, box, rows, Settings);
    var webhook := WorstSample(r, box, rows, Webhooks);
    var sample := Sample(instance, setting, webhook);
    var row :| row in rows && Marked(r, row.value);
    assert StoreMarked(r, rows, row.store);
    RefusesWhenNoneOpens(box, sample);
    assert Sampled(r, rows, sample) && RefusesForeignKey(box, sample, false);
  }

  lemma RefusedSampleCloses(r: Reading, box: SecretBox, rows: seq<Row>, sample: Sample)
    requires Sampled(r, rows, sample) && RefusesForeignKey(box, sample, false)
    ensures EachStoreMayClose(r, box, rows)
  {
    RefusesWhenNoneOpens(box, sample);
    assert forall v | v in Tried(sample) :: !Open(box, v).Text?;
    assert sample.instance.Some? ==> sample.instance.value in Tried(sample);
    assert sample.setting.Some? ==> sample.setting.value in Tried(sample);
    assert sample.webhook.Some? ==> sample.webhook.value in Tried(sample);
    ClosedSampleIsOfItsStore(r, box, rows, Instances, sample.instance);
    ClosedSampleIsOfItsStore(r, box, rows, Settings, sample.setting);
    ClosedSampleIsOfItsStore(r, box, rows, Webhooks, sample.webhook);
  }

  /** A row that reads as sealed and holds no base64. */
  function Damaged(): Row {
    Row(Instances, Sealed(V2, NotBase64), true)
  }

  /** One damaged row tried alone refuses a start, though its key opens the rest of the store. */
  lemma OneDamagedRowMayRefuse(r: Reading, box: SecretBox, good: string)
    ensures
      var rows := [Damaged(), Row(Instances, Sealed(V2, Box(box.cipher, 0, good)), true)];
      var sample := Sample(Some(Sealed(V2, NotBase64)), None, None);
      Sampled(r, rows, sample) && RefusesForeignKey(box, sample, false) && Open(box, rows[1].value) == Text(good)
  {
    var rows := [Damaged(), Row(Instances, Sealed(V2, Box(box.cipher, 0, good)), true)];
    var sample := Sample(Some(Sealed(V2, NotBase64)), None, None);
    assert rows[0] in rows;
    RefusesWhenNoneOpens(box, sample);
  }

  // ----- rotations

  /** Every value a start may rewrite opens to its text, and no other reads as sealed. */
  ghost predicate AllHold(r: Reading, box: SecretBox, rows: seq<Row>, texts: seq<string>) {
    |texts| == |rows| &&
    forall i | 0 <= i < |rows| ::
      if Rewrites(rows[i]) then Holds(r, box, rows[i].value, texts[i]) else rows[i].value.Plain?
  }

  ghost predicate AllFresh(box: SecretBox, rows: seq<Row>, texts: seq<string>) {
    |texts| == |rows| && forall i | 0 <= i < |rows| && Rewrites(rows[i]) :: Fresh(box, rows[i].value, texts[i])
  }

  /** What is written while a server serves: a value at a row, in a new one past the last, or a row gone. */
  datatype Change =
    | Saved(at: nat, store: Store, secret: bool, text: string, nonce: nat)
    | Removed(at: nat)

  datatype Start = Start(current: string, previous: Option<string>, nonces: nat -> nat, changes: seq<Change>)

  function BoxOf(r: Reading, salt: string, start: Start): SecretBox {
    Load(r, start.current, start.previous, Some(salt))
  }

  /** The key last used is the one in use, or the one superseded. */
  predicate Carries(before: Start, after: Start) {
    after.current == before.current || after.previous == Some(before.current)
  }

  /** A secret is sealed as it is saved; a blank setting, and what is no secret, is kept plain. */
  function SavedRow(box: SecretBox, change: Change): Row
    requires change.Saved?
  {
    var plain := Row(change.store, Plain(change.text), change.secret);
    if Rewrites(plain) then plain.(value := Seal(box, plain.value, change.nonce)) else plain
  }

  function Put<T>(s: seq<T>, at: nat, x: T): (after: seq<T>)
    ensures |after| == if at < |s| then |s| else |s| + 1
    ensures after[if at < |s| then at else |s|] == x && forall i | 0 <= i < |s| && i != at :: after[i] == s[i]
  {
    if at < |s| then s[at := x] else s + [x]
  }

  function Without<T>(s: seq<T>, at: nat): (after: seq<T>)
    ensures |after| == if at < |s| then |s| - 1 else |s|
    ensures forall i | 0 <= i < |after| :: after[i] == if i < at then s[i] else s[i + 1]
  {
    if at < |s| then s[..at] + s[at + 1..] else s
  }

  function Changed(box: SecretBox, rows: seq<Row>, changes: seq<Change>): seq<Row> {
    if changes == [] then rows
    else
      var before, last := Changed(box, rows, changes[..|changes| - 1]), changes[|changes| - 1];
      match last
      case Saved(at, _, _, _, _) => Put(before, at, SavedRow(box, last))
      case Removed(at) => Without(before, at)
  }

  /** The texts the rows stand for, changed alike. */
  function Retold(texts: seq<string>, changes: seq<Change>): seq<string> {
    if changes == [] then texts
    else
      var before, last := Retold(texts, changes[..|changes| - 1]), changes[|changes| - 1];
      match last
      case Saved(at, _, _, text, _) => Put(before, at, text)
      case Removed(at) => Without(before, at)
  }

  /** No text saved reads as a seal. */
  predicate Typed(r: Reading, changes: seq<Change>) {
    forall change | change in changes && change.Saved? :: r.parse(change.text) == Plain(change.text)
  }

  /** The rows once every start has resealed what it found and what was changed under it was. */
  function After(r: Reading, salt: string, rows: seq<Row>, starts: seq<Start>): seq<Row> {
    if starts == [] then rows
    else
      var last := starts[|starts| - 1];
      var found := After(r, salt, rows, starts[..|starts| - 1]);
      Changed(BoxOf(r, salt, last), ResealedRows(r, BoxOf(r, salt, last), found, last.nonces), last.changes)
  }

  function TextsAfter(texts: seq<string>, starts: seq<Start>): seq<string> {
    if starts == [] then texts
    else Retold(TextsAfter(texts, starts[..|starts| - 1]), starts[|starts| - 1].changes)
  }

  ghost predicate Chained(starts: seq<Start>) {
    forall i | 0 < i < |starts| :: Carries(starts[i - 1], starts[i])
  }

  ghost predicate AllTyped(r: Reading, starts: seq<Start>) {
    forall start | start in starts :: Typed(r, start.changes)
  }

  /** A box whose rows all open is never refused, whichever are tried. */
  lemma HoldingIsNotRefused(r: Reading, box: SecretBox, rows: seq<Row>, texts: seq<string>, sample: Sample)
    requires AllHold(r, box, rows, texts) && Sampled(r, rows, sample)
    ensures !RefusesForeignKey(box, sample, false)
  {
    RefusesWhenNoneOpens(box, sample);
    forall v | v in Tried(sample) ensures Open(box, v).Text? {
      var row :| row in rows && row.value == v;
      var i :| 0 <= i < |rows| && rows[i] == row;
    }
  }

  /** Rows resealed in part, where a start was stopped, hold as they did. */
  ghost predicate PartlyResealed(r: Reading, box: SecretBox, rows: seq<Row>, part: seq<Row>) {
    |part| == |rows| &&
    forall i | 0 <= i < |rows| :: part[i] == rows[i] || exists nonce :: part[i] == ResealedRow(r, box, rows[i], nonce)
  }

  lemma StoppedStartHolds(r: Reading, box: SecretBox, rows: seq<Row>, part: seq<Row>, texts: seq<string>)
    requires AllHold(r, box, rows, texts) && PartlyResealed(r, box, rows, part)
    ensures AllHold(r, box, part, texts)
  {
    forall i | 0 <= i < |part|
      ensures if Rewrites(part[i]) then Holds(r, box, part[i].value, texts[i]) else part[i].value.Plain?
    {
      if part[i] != rows[i] {
        var nonce :| part[i] == ResealedRow(r, box, rows[i], nonce);
        ResealedIsFresh(r, box, rows[i].value, texts[i], nonce);
      }
    }
  }

  lemma ResealedRowsAreFresh(r: Reading, box: SecretBox, rows: seq<Row>, texts: seq<string>, nonces: nat -> nat)
    requires AllHold(r, box, rows, texts)
    ensures AllHold(r, box, ResealedRows(r, box, rows, nonces), texts)
    ensures AllFresh(box, ResealedRows(r, box, rows, nonces), texts)
  {
    var after := ResealedRows(r, box, rows, nonces);
    forall i | 0 <= i < |rows|
      ensures if Rewrites(rows[i])
        then Rewrites(after[i]) && Fresh(box, after[i].value, texts[i]) && Holds(r, box, after[i].value, texts[i])
        else after[i] == rows[i]
    {
      assert after[i] == ResealedRow(r, box, rows[i], nonces(i));
      if Rewrites(rows[i]) {
        ResealedIsFresh(r, box, rows[i].value, texts[i], nonces(i));
      }
    }
  }

  /** A row of the box opens to its text, and is fresh if a start would rewrite it. */
  ghost predicate Stands(r: Reading, box: SecretBox, row: Row, text: string) {
    if Rewrites(row) then Holds(r, box, row.value, text) && Fresh(box, row.value, text) else row.value.Plain?
  }

  ghost predicate AllStand(r: Reading, box: SecretBox, rows: seq<Row>, texts: seq<string>) {
    |texts| == |rows| && forall i | 0 <= i < |rows| :: Stands(r, box, rows[i], texts[i])
  }

  /** What is changed under a key stands under it. */
  lemma {:induction false} ChangedStand(
    r: Reading, box: SecretBox, rows: seq<Row>, texts: seq<string>, changes: seq<Change>)
    requires AllStand(r, box, rows, texts) && Typed(r, changes)
    ensures AllStand(r, box, Changed(box, rows, changes), Retold(texts, changes))
    decreases |changes|
  {
    if changes != [] {
      var front, last := changes[..|changes| - 1], changes[|changes| - 1];
      assert last in changes && forall change | change in front :: change in changes;
      ChangedStand(r, box, rows, texts, front);
      if last.Saved? {
        SavedStands(r, box, last);
      }
    }
  }

  lemma SavedStands(r: Reading, box: SecretBox, change: Change)
    requires change.Saved? && r.parse(change.text) == Plain(change.text)
    ensures Stands(r, box, SavedRow(box, change), change.text)
  {
    SealThenOpen(r, box, change.text, change.nonce);
  }

  /** Fresh under the key last used, a row opens under the box of a start that carries that key. */
  lemma CarriedKeyOpens(r: Reading, salt: string, before: Start, after: Start, rows: seq<Row>, texts: seq<string>)
    requires Carries(before, after) && AllStand(r, BoxOf(r, salt, before), rows, texts)
    ensures AllHold(r, BoxOf(r, salt, after), rows, texts)
  {
    forall i | 0 <= i < |rows|
      ensures
        if Rewrites(rows[i]) then Holds(r, BoxOf(r, salt, after), rows[i].value, texts[i]) else rows[i].value.Plain?
    {
      assert Stands(r, BoxOf(r, salt, before), rows[i], texts[i]);
    }
  }

  lemma FreshNeedsNothing(box: SecretBox, rows: seq<Row>, texts: seq<string>)
    requires AllFresh(box, rows, texts)
    ensures forall row | row in rows && Rewrites(row) :: !NeedsReseal(box, row.value)
  {
    forall row | row in rows && Rewrites(row) ensures !NeedsReseal(box, row.value) {
      var i :| 0 <= i < |rows| && rows[i] == row;
      assert Fresh(box, rows[i].value, texts[i]);
    }
  }

  /** What a start leaves stands under its key, when what it finds holds. */
  lemma StartStands(r: Reading, salt: string, rows: seq<Row>, texts: seq<string>, starts: seq<Start>)
    requires starts != [] && Typed(r, starts[|starts| - 1].changes)
    requires var before := starts[..|starts| - 1];
      AllHold(r, BoxOf(r, salt, starts[|starts| - 1]), After(r, salt, rows, before), TextsAfter(texts, before))
    ensures AllStand(r, BoxOf(r, salt, starts[|starts| - 1]), After(r, salt, rows, starts), TextsAfter(texts, starts))
  {
    var start, before := starts[|starts| - 1], starts[..|starts| - 1];
    var box, found, told := BoxOf(r, salt, start), After(r, salt, rows, before), TextsAfter(texts, before);
    ResealedRowsAreFresh(r, box, found, told, start.nonces);
    ChangedStand(r, box, ResealedRows(r, box, found, start.nonces), told, start.changes);
  }

  /** What the `n`-th start finds opens, though it was sealed under keys long superseded. */
  lemma {:induction false} EveryStartHolds(
    r: Reading, salt: string, rows: seq<Row>, texts: seq<string>, starts: seq<Start>)
    requires starts != [] && Chained(starts) && AllTyped(r, starts)
    requires AllHold(r, BoxOf(r, salt, starts[0]), rows, texts)
    ensures var before := starts[..|starts| - 1];
      AllHold(r, BoxOf(r, salt, starts[|starts| - 1]), After(r, salt, rows, before), TextsAfter(texts, before))
    decreases |starts|
  {
    if |starts| > 1 {
      var before, last := starts[..|starts| - 1], starts[|starts| - 1];
      ChainBefore(r, starts);
      EveryStartHolds(r, salt, rows, texts, before);
      StartStands(r, salt, rows, texts, before);
      CarriedKeyOpens(r, salt, before[|before| - 1], last, After(r, salt, rows, before), TextsAfter(texts, before));
    }
  }

  lemma ChainBefore(r: Reading, starts: seq<Start>)
    requires |starts| > 1 && Chained(starts) && AllTyped(r, starts)
    ensures var before, last := starts[..|starts| - 1], starts[|starts| - 1];
      Chained(before) && AllTyped(r, before) && before[0] == starts[0] &&
      Typed(r, before[|before| - 1].changes) && Carries(before[|before| - 1], last)
  {
    var before := starts[..|starts| - 1];
    assert forall start | start in before :: start in starts;
    assert before[|before| - 1] in before;
    assert Carries(starts[|starts| - 2], starts[|starts| - 1]);
  }

  /**
   * Over any number of starts, each carrying the key the last one used, and whatever is saved or removed
   * while they serve, every secret opens to the text last saved, whatever form and key it was stored
   * under, and no row a start may rewrite needs rewriting after it.
   */
  lemma RotationsKeepEverySecret(r: Reading, salt: string, rows: seq<Row>, texts: seq<string>, starts: seq<Start>)
    requires starts != [] && Chained(starts) && AllTyped(r, starts)
    requires AllHold(r, BoxOf(r, salt, starts[0]), rows, texts)
    ensures var (last, after) := (BoxOf(r, salt, starts[|starts| - 1]), After(r, salt, rows, starts));
      AllHold(r, last, after, TextsAfter(texts, starts)) && AllFresh(last, after, TextsAfter(texts, starts)) &&
      forall row | row in after && Rewrites(row) :: !NeedsReseal(last, row.value)
  {
    var n := |starts| - 1;
    var box, after, told := BoxOf(r, salt, starts[n]), After(r, salt, rows, starts), TextsAfter(texts, starts);
    EveryStartHolds(r, salt, rows, texts, starts);
    assert starts[n] in starts;
    StartStands(r, salt, rows, texts, starts);
    StandingHolds(r, box, after, told);
    FreshNeedsNothing(box, after, told);
  }

  lemma StandingHolds(r: Reading, box: SecretBox, rows: seq<Row>, texts: seq<string>)
    requires AllStand(r, box, rows, texts)
    ensures AllHold(r, box, rows, texts) && AllFresh(box, rows, texts)
  {
    assert forall i | 0 <= i < |rows| :: Stands(r, box, rows[i], texts[i]);
  }

  /** And none of those starts is refused, whichever row of each store it tries. */
  lemma RotationsAreNeverRefused(
    r: Reading, salt: string, rows: seq<Row>, texts: seq<string>, starts: seq<Start>, sample: Sample)
    requires starts != [] && Chained(starts) && AllTyped(r, starts)
    requires AllHold(r, BoxOf(r, salt, starts[0]), rows, texts)
    requires Sampled(r, After(r, salt, rows, starts[..|starts| - 1]), sample)
    ensures !RefusesForeignKey(BoxOf(r, salt, starts[|starts| - 1]), sample, false)
  {
    var box, before := BoxOf(r, salt, starts[|starts| - 1]), starts[..|starts| - 1];
    EveryStartHolds(r, salt, rows, texts, starts);
    HoldingIsNotRefused(r, box, After(r, salt, rows, before), TextsAfter(texts, before), sample);
  }

  /** One start between that carries no key ends it: the seals it leaves open under neither. */
  lemma LostKeyClosesTheSeals(r: Reading, salt: string, one: Start, other: Start, text: string, nonce: nat)
    requires DeriveKey(r, one.current, Some(salt)) !in KeysTried(BoxOf(r, salt, other), V2)
    ensures Open(BoxOf(r, salt, other), Seal(BoxOf(r, salt, one), Plain(text), nonce)) == WrongKey
    ensures Resealed(r, BoxOf(r, salt, other), Seal(BoxOf(r, salt, one), Plain(text), nonce), nonce) ==
      Seal(BoxOf(r, salt, one), Plain(text), nonce)
  {
  }

  /** Every form a secret was ever stored in, under a key a start still gives, opens at that start. */
  lemma EveryFormOpens(r: Reading, salt: string, start: Start, input: string, text: string, nonce: nat)
    requires r.parse(text) == Plain(text) && (input == start.current || start.previous == Some(input))
    ensures var box := BoxOf(r, salt, start);
      Holds(r, box, Plain(text), text) &&
      Holds(r, box, Sealed(V2, Box(DeriveKey(r, input, Some(salt)), nonce, text)), text) &&
      Holds(r, box, Sealed(V1, Box(DeriveKey(r, input, None), nonce, text)), text)
  {
    var inputs := [start.current] + if start.previous.Some? then [start.previous.value] else [];
    if r.whole(input).None? {
      OldKeyAmong(r, inputs, input);
    }
  }

  lemma {:induction false} OldKeyAmong(r: Reading, inputs: seq<string>, input: string)
    requires input in inputs && r.whole(input).None?
    ensures Sha256(input) in OldKeys(r, inputs)
    decreases |inputs|
  {
    if inputs[0] != input {
      OldKeyAmong(r, inputs[1..], input);
    }
  }

  // ----- what a key opens, whatever the box that holds it

  /**
   * A key made of `input`: the bytes it spells, or a passphrase stretched with the salt. One stretched
   * with SHA-256 opens the older seals alone.
   */
  predicate MadeOf(r: Reading, salt: string, input: string, version: Version, key: Key) {
    match r.whole(input)
    case Some(bytes) => key == Whole(bytes)
    case None => key == Argon2(input, salt) || (version == V1 && key == Sha256(input))
  }

  /** A stored value reads as `text` to whoever knows `hand`, and the key it supersedes where one is given. */
  predicate Reads(r: Reading, salt: string, hand: string, previous: Option<string>, stored: Stored, text: string) {
    match stored
    case Plain(plain) => plain == text
    case Sealed(version, Box(key, _, held)) =>
      held == text && (MadeOf(r, salt, hand, version, key) ||
        (previous.Some? && MadeOf(r, salt, previous.value, version, key)))
    case Sealed(_, _) => false
  }

  predicate Readable(r: Reading, salt: string, hand: string, previous: Option<string>, stored: Stored) {
    match stored
    case Plain(plain) => true
    case Sealed(_, Box(_, _, held)) => Reads(r, salt, hand, previous, stored, held)
    case Sealed(_, _) => false
  }

  /** A row a start may rewrite reads as its text, which is no seal, and no other row holds one. */
  predicate RowReads(r: Reading, salt: string, hand: string, previous: Option<string>, row: Row, text: string) {
    if Rewrites(row) then Reads(r, salt, hand, previous, row.value, text) && r.parse(text) == Plain(text)
    else row.value.Plain?
  }

  ghost predicate RowsRead(
    r: Reading, salt: string, hand: string, previous: Option<string>, rows: seq<Row>, texts: seq<string>)
  {
    |texts| == |rows| && forall i | 0 <= i < |rows| :: RowReads(r, salt, hand, previous, rows[i], texts[i])
  }

  /** What a box answers of any stored value, and what it makes of any text. */
  ghost predicate Serves(r: Reading, salt: string, hand: string, previous: Option<string>, box: SecretBox) {
    (forall stored, text :: Open(box, stored) == Text(text) <==> Reads(r, salt, hand, previous, stored, text)) &&
    forall text, nonce :: SealsUnder(r, salt, hand, box, text, nonce)
  }

  /** A seal is of the newest form, under the key in hand and never the one it supersedes. */
  predicate SealsUnder(r: Reading, salt: string, hand: string, box: SecretBox, text: string, nonce: nat) {
    match Seal(box, Plain(text), nonce)
    case Sealed(V2, Box(key, made, held)) => MadeOf(r, salt, hand, V2, key) && made == nonce && held == text
    case _ => false
  }

  /** A box loaded opens what was sealed under the keys it was given, in either form, and nothing else. */
  lemma LoadedServes(r: Reading, salt: string, hand: string, previous: Option<string>)
    ensures Serves(r, salt, hand, previous, Load(r, hand, previous, Some(salt)))
  {
    var box := Load(r, hand, previous, Some(salt));
    forall stored, text ensures Open(box, stored) == Text(text) <==> Reads(r, salt, hand, previous, stored, text) {
      OldKeysAre(r, hand, previous);
    }
  }

  lemma OldKeysAre(r: Reading, hand: string, previous: Option<string>)
    ensures var inputs := [hand] + if previous.Some? then [previous.value] else [];
      forall key :: key in OldKeys(r, inputs) <==>
        ((r.whole(hand).None? && key == Sha256(hand)) ||
        (previous.Some? && r.whole(previous.value).None? && key == Sha256(previous.value)))
  {
    if previous.Some? {
      assert [hand] + [previous.value] == [hand, previous.value];
      assert [hand, previous.value][1..] == [previous.value];
      OneOldKey(r, previous.value);
    } else {
      assert [hand] + [] == [hand];
      OneOldKey(r, hand);
    }
  }

  lemma OneOldKey(r: Reading, input: string)
    ensures OldKeys(r, [input]) == if r.whole(input).None? then [Sha256(input)] else []
  {
    assert [input][1..] == [];
  }

  /** With a salt, all but a seal of the newest form under the key in hand is rewritten, where it can be told. */
  lemma LoadedReseals(r: Reading, salt: string, hand: string, previous: Option<string>, stored: Stored)
    ensures NeedsReseal(Load(r, hand, previous, Some(salt)), stored) <==>
      match stored
      case Sealed(V2, Box(key, _, _)) => !MadeOf(r, salt, hand, V2, key)
      case Sealed(V2, _) => false
      case _ => true
  {
  }

  /** A value is left as it is where it is fresh, or where no key given opens it; any other is sealed anew. */
  lemma ResealedIs(r: Reading, salt: string, hand: string, previous: Option<string>, stored: Stored, nonce: nat)
    ensures var box := Load(r, hand, previous, Some(salt));
      Resealed(r, box, stored, nonce) ==
        match stored
        case Plain(text) => Seal(box, r.parse(text), nonce)
        case Sealed(version, Box(key, _, text)) =>
          if (version == V2 && MadeOf(r, salt, hand, V2, key)) || !Readable(r, salt, hand, previous, stored) then stored
          else Seal(box, r.parse(text), nonce)
        case Sealed(_, _) => stored
  {
    LoadedServes(r, salt, hand, previous);
    LoadedReseals(r, salt, hand, previous, stored);
    var box := Load(r, hand, previous, Some(salt));
    match stored
    case Sealed(_, Box(_, _, text)) =>
      assert Open(box, stored) == Text(text) <==> Reads(r, salt, hand, previous, stored, text);
    case _ =>
  }

  /**
   * Without a salt a passphrase is stretched with SHA-256 alone and seals in the older form, and a key
   * given whole seals in the newer; what either opens was sealed under one of the keys given.
   */
  lemma UnsaltedSeals(r: Reading, hand: string, previous: Option<string>, text: string, nonce: nat, stored: Stored)
    ensures var box := Load(r, hand, previous, None);
      Seal(box, Plain(text), nonce) == (match r.whole(hand)
        case Some(bytes) => Sealed(V2, Box(Whole(bytes), nonce, text))
        case None => Sealed(V1, Box(Sha256(hand), nonce, text))) &&
      (stored.Sealed? && stored.payload.Box? ==>
        (Open(box, stored).Text? <==> (stored.payload.key == Unsalted(r, hand) ||
          (previous.Some? && stored.payload.key == Unsalted(r, previous.value)))))
  {
  }

  function Unsalted(r: Reading, input: string): Key {
    if r.whole(input).Some? then Whole(r.whole(input).value) else Sha256(input)
  }

  /** Rows that read to the keys given hold under the box that serves them. */
  lemma RowsReadHold(
    r: Reading, salt: string, hand: string, previous: Option<string>, box: SecretBox, rows: seq<Row>,
    texts: seq<string>)
    requires Serves(r, salt, hand, previous, box) && RowsRead(r, salt, hand, previous, rows, texts)
    ensures AllHold(r, box, rows, texts)
  {
    forall i | 0 <= i < |rows|
      ensures if Rewrites(rows[i]) then Holds(r, box, rows[i].value, texts[i]) else rows[i].value.Plain?
    {
      assert RowReads(r, salt, hand, previous, rows[i], texts[i]);
    }
  }

  /** Rows that stand under a box read to the key in its hand alone. */
  lemma StandingReads(
    r: Reading, salt: string, hand: string, previous: Option<string>, box: SecretBox, rows: seq<Row>,
    texts: seq<string>)
    requires Serves(r, salt, hand, previous, box) && AllStand(r, box, rows, texts)
    ensures RowsRead(r, salt, hand, None, rows, texts)
  {
    forall i | 0 <= i < |rows| ensures RowReads(r, salt, hand, None, rows[i], texts[i]) {
      assert Stands(r, box, rows[i], texts[i]);
      assert SealsUnder(r, salt, hand, box, texts[i], 0);
    }
  }

  /** What reads to a key reads to whoever has it in hand, or gives it as the one superseded. */
  lemma CarriedReads(
    r: Reading, salt: string, last: string, hand: string, previous: Option<string>, rows: seq<Row>,
    texts: seq<string>)
    requires RowsRead(r, salt, last, None, rows, texts) && (hand == last || previous == Some(last))
    ensures RowsRead(r, salt, hand, previous, rows, texts)
  {
    forall i | 0 <= i < |rows| ensures RowReads(r, salt, hand, previous, rows[i], texts[i]) {
      assert RowReads(r, salt, last, None, rows[i], texts[i]);
    }
  }

  /** A row reads as sealed to SQL: every seal, and some plaintext. */
  ghost predicate HoldsSeals(r: Reading, rows: seq<Row>) {
    exists row | row in rows :: row.value.Sealed? || r.looks(row.value.text)
  }

  /** Some row of each store that holds what reads as sealed is closed to both keys. */
  ghost predicate EachStoreHidesOne(
    r: Reading, salt: string, hand: string, previous: Option<string>, rows: seq<Row>)
  {
    forall one | one in rows && Marked(r, one.value) :: StoreHidesOne(r, salt, hand, previous, rows, one.store)
  }

  ghost predicate StoreHidesOne(
    r: Reading, salt: string, hand: string, previous: Option<string>, rows: seq<Row>, store: Store)
  {
    exists row | row in rows ::
      row.store == store && Marked(r, row.value) && !Readable(r, salt, hand, previous, row.value)
  }

  /** A seal in some store is open to one of the keys. */
  ghost predicate SomeSealReads(
    r: Reading, salt: string, hand: string, previous: Option<string>, rows: seq<Row>)
  {
    exists row | row in rows :: Marked(r, row.value) && Readable(r, salt, hand, previous, row.value)
  }

  /** Rows that read to the keys given hide nothing from them. */
  lemma RowsReadHideNone(
    r: Reading, salt: string, hand: string, previous: Option<string>, rows: seq<Row>, texts: seq<string>)
    requires RowsRead(r, salt, hand, previous, rows, texts)
    ensures HoldsSeals(r, rows) ==> !EachStoreHidesOne(r, salt, hand, previous, rows)
  {
    forall row | row in rows ensures Readable(r, salt, hand, previous, row.value) {
      var i :| 0 <= i < |rows| && rows[i] == row;
      assert RowReads(r, salt, hand, previous, rows[i], texts[i]);
    }
  }

  // ----- opening the storage

  datatype KeyFile = Missing | Blank | Unreadable | Holding(key: string)

  datatype Config = Config(secretKey: Option<string>, previous: Option<string>, allowNew: bool)

  datatype Refusal = LostMasterKey | ForeignMasterKey | UnreadableKeyFile

  /** No key is given: none is configured, and the file has none to read. */
  predicate NoKey(config: Config, file: KeyFile) {
    config.secretKey.None? && (file.Missing? || file.Blank?)
  }

  /** The key a start works under: the one configured, the file's, or the one it makes. */
  function KeyInHand(config: Config, file: KeyFile, generated: string): Option<string> {
    if config.secretKey.Some? then config.secretKey
    else if file.Holding? then Some(file.key)
    else if file.Unreadable? then None
    else Some(generated)
  }

  /** One process over a database: what it is given, and what is saved or removed while it serves. */
  datatype Run = Run(config: Config, generated: string, nonces: nat -> nat, changes: seq<Change>)

  /** Each run has the key of the one before in hand, or gives it as the one superseded. */
  ghost predicate KeyCarried(last: Option<string>, file: KeyFile, runs: seq<Run>)
    decreases |runs|
  {
    runs == [] ||
    (var hand := KeyInHand(runs[0].config, file, runs[0].generated);
    hand.Some? && (last.None? || hand == last || runs[0].config.previous == last) &&
    KeyCarried(hand, if NoKey(runs[0].config, file) then Holding(runs[0].generated) else file, runs[1..]))
  }

  function ToldAfter(texts: seq<string>, runs: seq<Run>): seq<string> {
    if runs == [] then texts
    else Retold(ToldAfter(texts, runs[..|runs| - 1]), runs[|runs| - 1].changes)
  }

  /** A box that may be refused shows what neither key opens, in each store that holds a seal. */
  lemma RefusedHides(
    r: Reading, salt: string, hand: string, previous: Option<string>, box: SecretBox, rows: seq<Row>)
    requires Serves(r, salt, hand, previous, box) && EachStoreMayClose(r, box, rows)
    ensures HoldsSeals(r, rows) && EachStoreHidesOne(r, salt, hand, previous, rows)
  {
    forall one | one in rows && Marked(r, one.value)
      ensures StoreHidesOne(r, salt, hand, previous, rows, one.store)
    {
      assert StoreMarked(r, rows, one.store);
      assert StoreMayClose(r, box, rows, one.store);
      var other :| other in rows && other.store == one.store && Closes(r, box, other);
    }
  }

  /** What a box opens, one of its keys reads. */
  lemma OpenedReads(r: Reading, salt: string, hand: string, previous: Option<string>, box: SecretBox, rows: seq<Row>)
    requires Serves(r, salt, hand, previous, box) && SomeSealOpens(r, box, rows)
    ensures SomeSealReads(r, salt, hand, previous, rows)
  {
    var row :| row in rows && Marked(r, row.value) && Open(box, row.value).Text?;
    assert Open(box, row.value) == Text(Open(box, row.value).text);
  }

  /** A run leaves every row to be read by the key it had in hand, alone. */
  lemma RunReads(
    r: Reading, salt: string, hand: string, previous: Option<string>, box: SecretBox, rows: seq<Row>,
    texts: seq<string>, run: Run)
    requires Serves(r, salt, hand, previous, box) && RowsRead(r, salt, hand, previous, rows, texts)
    requires Typed(r, run.changes)
    ensures RowsRead(
      r, salt, hand, None, Changed(box, ResealedRows(r, box, rows, run.nonces), run.changes),
      Retold(texts, run.changes))
  {
    RowsReadHold(r, salt, hand, previous, box, rows, texts);
    ResealedRowsAreFresh(r, box, rows, texts, run.nonces);
    var resealed := ResealedRows(r, box, rows, run.nonces);
    ChangedStand(r, box, resealed, texts, run.changes);
    StandingReads(
      r, salt, hand, previous, box, Changed(box, resealed, run.changes), Retold(texts, run.changes));
  }

  class Installation {
    const r: Reading
    const salt: string
    var keyFile: KeyFile
    var rows: seq<Row>

    constructor (r: Reading, salt: string, keyFile: KeyFile, rows: seq<Row>)
      ensures this.r == r && this.salt == salt && this.keyFile == keyFile && this.rows == rows
    {
      this.r, this.salt, this.keyFile, this.rows := r, salt, keyFile, rows;
    }

    /** A start that would make a key while the database holds seals is turned away, before it makes one. */
    method RefuseALostMasterKey(config: Config) returns (refused: bool)
      ensures refused <==>
        config.secretKey.None? && (keyFile.Missing? || keyFile.Blank?) && !config.allowNew && HoldsSeals(r, rows)
    {
      if config.secretKey.Some? || keyFile.Holding? || keyFile.Unreadable? {
        return false;
      }
      var marked := exists row | row in rows :: Marked(r, row.value);
      refused := marked && !config.allowNew;
    }

    /** The key configured, the file's, or a new one written where there is none. */
    method MasterKey(config: Config, generated: string) returns (key: Option<string>)
      modifies this`keyFile
      ensures key.None? <==> config.secretKey.None? && old(keyFile).Unreadable?
      ensures keyFile != old(keyFile) ==>
        config.secretKey.None? && (old(keyFile).Missing? || old(keyFile).Blank?) && keyFile == Holding(generated)
      ensures key.Some? ==> if config.secretKey.Some? then key == config.secretKey else keyFile == Holding(key.value)
    {
      if config.secretKey.Some? {
        return config.secretKey;
      }
      match keyFile {
        case Holding(held) => key := Some(held);
        case Unreadable => key := None;
        case _ =>
          keyFile := Holding(generated);
          key := Some(generated);
      }
    }

    method Pick(store: Store) returns (picked: Option<Stored>)
      ensures IsSample(r, rows, store, picked)
    {
      picked := None;
      for i := 0 to |rows|
        invariant IsSample(r, rows[..i], store, picked)
      {
        assert rows[..i + 1] == rows[..i] + [rows[i]];
        assert rows[i] in rows[..i + 1];
        if picked.None? && rows[i].store == store && Marked(r, rows[i].value) {
          picked := Some(rows[i].value);
        } else if picked.Some? {
          var row :| row in rows[..i] && row.store == store && row.value == picked.value;
          assert row in rows[..i + 1];
        }
      }
      assert rows[..|rows|] == rows;
    }

    /** One seal of each store is tried: a start is turned away when none of them opens. */
    method RefuseAForeignMasterKey(config: Config, box: SecretBox) returns (refused: bool)
      ensures refused ==> !config.allowNew && EachStoreMayClose(r, box, rows)
      ensures !refused ==> config.allowNew || !HoldsSeals(r, rows) || SomeSealOpens(r, box, rows)
    {
      var instance := Pick(Instances);
      var setting := Pick(Settings);
      var webhook := Pick(Webhooks);
      var sample := Sample(instance, setting, webhook);
      refused := RefusesForeignKey(box, sample, config.allowNew);
      if refused {
        RefusedSampleCloses(r, box, rows, sample);
      } else if HoldsSeals(r, rows) && !SomeSealOpens(r, box, rows) {
        ForeignKeyIsRefused(r, box, rows, sample);
      }
    }

    /**
     * The order of a start: the lost key is looked for before a new one can be written, and the key in
     * hand tried on what the database holds after. It is lost exactly where seals stand and no key is
     * given, and foreign only where each store holding a seal holds one closed to the key in hand and to
     * the one superseded: always, where neither opens any. Nothing else refuses, and what it answers
     * opens what was sealed under either key, in either form, and seals under the key in hand.
     */
    method OpenStorage(config: Config, generated: string) returns (box: Option<SecretBox>, refused: Option<Refusal>)
      modifies this`keyFile
      ensures box.Some? <==> refused.None?
      ensures refused == Some(LostMasterKey) <==>
        NoKey(config, old(keyFile)) && !config.allowNew && HoldsSeals(r, rows)
      ensures refused == Some(UnreadableKeyFile) <==> config.secretKey.None? && old(keyFile).Unreadable?
      ensures keyFile ==
        if NoKey(config, old(keyFile)) && refused != Some(LostMasterKey) then Holding(generated) else old(keyFile)
      ensures keyFile != old(keyFile) ==> config.allowNew || !HoldsSeals(r, rows)
      ensures box.Some? || refused == Some(ForeignMasterKey) ==>
        KeyInHand(config, old(keyFile), generated).Some?
      ensures refused == Some(ForeignMasterKey) ==>
        var hand := KeyInHand(config, old(keyFile), generated).value;
        !config.allowNew && HoldsSeals(r, rows) && EachStoreHidesOne(r, salt, hand, config.previous, rows)
      ensures box.Some? ==>
        var hand := KeyInHand(config, old(keyFile), generated).value;
        Serves(r, salt, hand, config.previous, box.value) &&
        (config.allowNew || !HoldsSeals(r, rows) || SomeSealReads(r, salt, hand, config.previous, rows))
    {
      box, refused := None, None;
      var lost := RefuseALostMasterKey(config);
      if lost {
        return None, Some(LostMasterKey);
      }
      var key := MasterKey(config, generated);
      if key.None? {
        return None, Some(UnreadableKeyFile);
      }
      var loaded := Load(r, key.value, config.previous, Some(salt));
      LoadedServes(r, salt, key.value, config.previous);
      var foreign := RefuseAForeignMasterKey(config, loaded);
      if foreign {
        RefusedHides(r, salt, key.value, config.previous, loaded, rows);
        return None, Some(ForeignMasterKey);
      }
      if !config.allowNew && HoldsSeals(r, rows) {
        OpenedReads(r, salt, key.value, config.previous, loaded, rows);
      }
      box := Some(loaded);
    }

    /** Row by row: one that does not open is left, the only copy of what it holds. */
    method ResealSecrets(box: SecretBox, nonces: nat -> nat)
      modifies this`rows
      ensures rows == ResealedRows(r, box, old(rows), nonces) && |rows| == |old(rows)|
      ensures forall i | 0 <= i < |rows| ::
        var was := old(rows)[i];
        rows[i] ==
          if !was.secret || (was.store.Settings? && was.value.Plain? && Texts.Blank(was.value.text)) then was
          else was.(value := Resealed(r, box, was.value, nonces(i)))
    {
      for i := 0 to |rows|
        invariant |rows| == |old(rows)| && forall j | i <= j < |rows| :: rows[j] == old(rows)[j]
        invariant forall j | 0 <= j < i :: rows[j] == ResealedRow(r, box, old(rows)[j], nonces(j))
      {
        var row := rows[i];
        if Rewrites(row) && NeedsReseal(box, row.value) {
          var read := Open(box, row.value);
          if read.Text? {
            rows := rows[i := row.(value := Seal(box, r.parse(read.text), nonces(i)))];
          }
        }
        assert rows[i] == ResealedRow(r, box, row, nonces(i));
      }
      assert rows == ResealedRows(r, box, old(rows), nonces);
    }

    /**
     * One process: opened, resealed, then served. Over rows its keys read it is turned away only for want
     * of any key, and leaves every row to be read by the key in its hand.
     */
    method Serve(run: Run, ghost texts: seq<string>) returns (refused: Option<Refusal>)
      requires Typed(r, run.changes) && KeyInHand(run.config, keyFile, run.generated).Some?
      requires RowsRead(
        r, salt, KeyInHand(run.config, keyFile, run.generated).value, run.config.previous, rows, texts)
      modifies this
      ensures refused.Some? ==> refused == Some(LostMasterKey) && NoKey(run.config, old(keyFile))
      ensures refused.None? ==>
        var hand := KeyInHand(run.config, old(keyFile), run.generated);
        RowsRead(r, salt, hand.value, None, rows, Retold(texts, run.changes)) &&
        keyFile == (if NoKey(run.config, old(keyFile)) then Holding(run.generated) else old(keyFile))
    {
      ghost var hand, previous := KeyInHand(run.config, keyFile, run.generated).value, run.config.previous;
      RowsReadHideNone(r, salt, hand, previous, rows, texts);
      var box;
      box, refused := OpenStorage(run.config, run.generated);
      if refused.Some? {
        assert refused.value.LostMasterKey?;
        return;
      }
      RunReads(r, salt, hand, previous, box.value, rows, texts, run);
      ResealSecrets(box.value, run.nonces);
      rows := Changed(box.value, rows, run.changes);
    }

    /**
     * One process after another, each carrying the key of the last, over rows the first one's keys read:
     * none is refused for its key, whatever rows it tries, and one is turned away only for want of any
     * key at all. Run to the end, every secret reads under the last key alone, as the text last saved.
     */
    method Restart(runs: seq<Run>, ghost texts: seq<string>) returns (refused: Option<Refusal>)
      requires runs != [] && KeyCarried(None, keyFile, runs)
      requires RowsRead(
        r, salt, KeyInHand(runs[0].config, keyFile, runs[0].generated).value, runs[0].config.previous, rows, texts)
      requires forall run | run in runs :: Typed(r, run.changes)
      modifies this
      ensures refused.None? || refused == Some(LostMasterKey)
      ensures (forall run | run in runs :: run.config.secretKey.Some?) || old(keyFile).Holding? ==> refused.None?
      ensures refused.None? ==>
        var last := KeyInHand(runs[|runs| - 1].config, keyFile, runs[|runs| - 1].generated);
        last.Some? && RowsRead(r, salt, last.value, None, rows, ToldAfter(texts, runs))
    {
      refused := None;
      ghost var last: Option<string>, told := None, texts;
      for i := 0 to |runs|
        invariant refused.None? && KeyCarried(last, keyFile, runs[i..])
        invariant i == 0 ==> told == texts && rows == old(rows) && keyFile == old(keyFile)
        invariant i > 0 ==> last.Some? && RowsRead(r, salt, last.value, None, rows, told)
        invariant i > 0 ==> last == KeyInHand(runs[i - 1].config, keyFile, runs[i - 1].generated)
        invariant told == ToldAfter(texts, runs[..i])
        invariant old(keyFile).Holding? ==> keyFile.Holding?
      {
        var run := runs[i];
        ghost var hand := KeyInHand(run.config, keyFile, run.generated);
        assert runs[i..][0] == run && runs[i..][1..] == runs[i + 1..] && run in runs;
        if i > 0 {
          CarriedReads(r, salt, last.value, hand.value, run.config.previous, rows, told);
        }
        refused := Serve(run, told);
        if refused.Some? {
          return;
        }
        last, told := hand, Retold(told, run.changes);
        assert runs[..i + 1][..i] == runs[..i];
      }
      assert runs[..|runs|] == runs;
    }
  }
}
