/**
 The two SQL tables both transports keep, and the effect of every statement they issue.

 A table is a map from row id to row. Ids come from a counter that only grows (BIGSERIAL in
 PostgreSQL, AUTOINCREMENT in SQLite), so no id is ever used twice. Times are nanoseconds.
 A time that goes into a statement was read before, be it by the program or by the database.
 */
module Tables {
  import opened Basics

  type Bytes = seq<nat>
  type Metadata = map<string, string>

  const SECOND: int := 1_000_000_000
  const MAX_RETRIES_EXCEEDED := "max retries exceeded"

  datatype Row = Row(
    uuid: string,
    topic: string,
    payload: Bytes,
    metadata: Metadata,
    availableAt: int,
    lockedUntil: Option<int>,
    retryCount: nat)

  datatype DeadRow = DeadRow(
    uuid: string,
    topic: string,
    payload: Bytes,
    metadata: Metadata,
    errorMessage: string,
    failedAt: int,
    retryCount: nat)

  datatype Tables = Tables(messages: map<nat, Row>, dead: map<nat, DeadRow>, nextId: nat, nextDeadId: nat)

  /** What a message says: the part that publication fixes once and for all. */
  datatype Content = Content(topic: string, payload: Bytes, metadata: Metadata)

  function ContentOf(r: Row): Content {
    Content(r.topic, r.payload, r.metadata)
  }

  function DeadContentOf(d: DeadRow): Content {
    Content(d.topic, d.payload, d.metadata)
  }

  /** A message handed to Publish; delay is its parsed protoflow_delay, if it has one that parses. */
  datatype Outgoing = Outgoing(uuid: string, payload: Bytes, metadata: Metadata, delay: Option<int>)

  /** The row of a message that is published with the clock at the given time. */
  function NewRow(topic: string, m: Outgoing, at: int): Row {
    Row(m.uuid, topic, m.payload, m.metadata, if m.delay.Some? then at + m.delay.value else at, None, 0)
  }

  /** The clock is read again for every message. */
  function NewRows(topic: string, batch: seq<Outgoing>, times: seq<int>): (rows: seq<Row>)
    requires |times| == |batch|
    ensures |rows| == |batch|
  {
    seq(|batch|, i requires 0 <= i < |batch| => NewRow(topic, batch[i], times[i]))
  }

  // ---- selection ----

  predicate Eligible(r: Row, topic: string, now: int) {
    r.topic == topic && r.availableAt <= now && (r.lockedUntil.None? || r.lockedUntil.value < now)
  }

  /** From when on a row can be fetched: it must be due, and a lock on it must have expired. */
  function ReadyAt(r: Row): int {
    if r.lockedUntil.Some? then Max(r.availableAt, r.lockedUntil.value + 1) else r.availableAt
  }

  /** id is a row the fetch query may return: a least available_at among the eligible rows it does not skip. */
  predicate IsNext(messages: map<nat, Row>, topic: string, now: int, skipped: set<nat>, id: nat) {
    && id in messages
    && id !in skipped
    && Eligible(messages[id], topic, now)
    && forall j :: j in messages && j !in skipped && Eligible(messages[j], topic, now)
                   ==> messages[id].availableAt <= messages[j].availableAt
  }

  lemma {:induction false} LeastDue(ms: map<nat, Row>, ids: set<nat>) returns (id: nat)
    requires ids != {} && forall i :: i in ids ==> i in ms
    ensures id in ids && forall i :: i in ids ==> ms[id].availableAt <= ms[i].availableAt
    decreases |ids|
  {
    id :| id in ids;
    if ids != {id} {
      var rest := LeastDue(ms, ids - {id});
      if ms[rest].availableAt < ms[id].availableAt {
        id := rest;
      }
    }
  }

  /** The fetch query finds a row whenever there is one to find. */
  lemma NextExists(messages: map<nat, Row>, topic: string, now: int, skipped: set<nat>, some: nat)
    requires some in messages && some !in skipped && Eligible(messages[some], topic, now)
    ensures exists id :: IsNext(messages, topic, now, skipped, id)
  {
    var due := set id | id in messages && id !in skipped && Eligible(messages[id], topic, now);
    assert some in due;
    var id := LeastDue(messages, due);
    assert IsNext(messages, topic, now, skipped, id);
  }

  // ---- insertion under the UNIQUE constraint on uuid ----

  predicate UuidsUnique(messages: map<nat, Row>) {
    forall i, j :: i in messages && j in messages && messages[i].uuid == messages[j].uuid ==> i == j
  }

  predicate DistinctUuids(rows: seq<Row>) {
    forall i, j :: 0 <= i < j < |rows| ==> rows[i].uuid != rows[j].uuid
  }

  predicate NoClash(messages: map<nat, Row>, rows: seq<Row>) {
    forall i, id :: 0 <= i < |rows| && id in messages ==> rows[i].uuid != messages[id].uuid
  }

  predicate CanInsert(messages: map<nat, Row>, rows: seq<Row>) {
    DistinctUuids(rows) && NoClash(messages, rows)
  }

  predicate InRange(id: nat, from: nat, n: nat) {
    from <= id < from + n
  }

  /** The ids the counter hands out for n insertions. */
  function FreshIds(from: nat, n: nat): (ids: set<nat>)
    ensures forall id :: id in ids <==> InRange(id, from, n)
  {
    set id: nat | id < from + n && InRange(id, from, n)
  }

  /** What the n consecutive ids from a base on stand for. */
  function Numbered<T>(from: nat, xs: seq<T>): map<nat, T> {
    map id | id in FreshIds(from, |xs|) :: xs[id - from]
  }

  lemma NumberedAt<T>(from: nat, xs: seq<T>, k: nat)
    requires k < |xs|
    ensures from + k in Numbered(from, xs) && Numbered(from, xs)[from + k] == xs[k]
  {
    assert from + k in FreshIds(from, |xs|);
  }

  function InsertRows(t: Tables, rows: seq<Row>): Tables {
    t.(messages := t.messages + Numbered(t.nextId, rows), nextId := t.nextId + |rows|)
  }

  // ---- single-row statements ----

  function DeleteRow(t: Tables, id: nat): Tables {
    t.(messages := t.messages - {id})
  }

  function LockRow(t: Tables, id: nat, until: int): Tables {
    if id in t.messages then t.(messages := t.messages[id := t.messages[id].(lockedUntil := Some(until))]) else t
  }

  function UnlockRow(t: Tables, id: nat): Tables {
    if id in t.messages then t.(messages := t.messages[id := t.messages[id].(lockedUntil := None)]) else t
  }

  function RetryRow(r: Row, availableAt: int): Row {
    r.(retryCount := r.retryCount + 1, lockedUntil := None, availableAt := availableAt)
  }

  function ScheduleRetry(t: Tables, id: nat, availableAt: int): Tables {
    if id in t.messages then t.(messages := t.messages[id := RetryRow(t.messages[id], availableAt)]) else t
  }

  function DeadOf(r: Row, failedAt: int): DeadRow {
    DeadRow(r.uuid, r.topic, r.payload, r.metadata, MAX_RETRIES_EXCEEDED, failedAt, r.retryCount)
  }

  /** INSERT INTO dead_letter_queue ... SELECT ... FROM messages WHERE id: copies the row if it is there. */
  function CopyToDead(t: Tables, id: nat, failedAt: int): Tables {
    if id in t.messages
    then t.(dead := t.dead[t.nextDeadId := DeadOf(t.messages[id], failedAt)], nextDeadId := t.nextDeadId + 1)
    else t
  }

  /** PostgreSQL's WITH moved AS (DELETE ...) INSERT ...: the copy and the deletion in one statement. */
  function MoveToDead(t: Tables, id: nat, failedAt: int): Tables {
    DeleteRow(CopyToDead(t, id, failedAt), id)
  }

  function ClearExpired(r: Row, now: int): Row {
    if r.lockedUntil.Some? && r.lockedUntil.value < now then r.(lockedUntil := None) else r
  }

  function CleanupLocks(t: Tables, now: int): Tables {
    t.(messages := map id | id in t.messages :: ClearExpired(t.messages[id], now))
  }

  function ExpiredIds(ms: map<nat, Row>, now: int): set<nat> {
    set id | id in ms && ms[id].lockedUntil.Some? && ms[id].lockedUntil.value < now
  }

  /** Cleanup unlocks exactly the expired rows, and changes nothing else about any row. */
  lemma CleanupUnlocksExpired(t: Tables, now: int, id: nat)
    requires id in t.messages
    ensures var row, row' := t.messages[id], CleanupLocks(t, now).messages[id];
            && (row' != row <==> row.lockedUntil.Some? && row.lockedUntil.value < now)
            && row' == row.(lockedUntil := row'.lockedUntil)
            && (row'.lockedUntil == None || now <= row'.lockedUntil.value)
  {
  }

  /** The rows the cleanup reports are those it changed. */
  lemma CleanupReports(t: Tables, now: int)
    ensures ExpiredIds(t.messages, now)
            == set id | id in t.messages && CleanupLocks(t, now).messages[id] != t.messages[id]
  {
    forall id | id in t.messages
      ensures CleanupLocks(t, now).messages[id] != t.messages[id] <==> id in ExpiredIds(t.messages, now)
    {
      CleanupUnlocksExpired(t, now, id);
    }
  }

  // ---- dead letter queue ----

  function DeadIn(t: Tables, topic: string): set<nat> {
    set d | d in t.dead && t.dead[d].topic == topic
  }

  function PendingIn(t: Tables, topic: string): set<nat> {
    set id | id in t.messages && t.messages[id].topic == topic
  }

  function PurgeDead(t: Tables, topic: string): Tables {
    t.(dead := t.dead - DeadIn(t, topic))
  }

  datatype Dialect = Postgres | Sqlite

  /** What the database's own clock puts into a column: SQLite's CURRENT_TIMESTAMP has whole seconds only. */
  function DatabaseTime(dialect: Dialect, at: int): int {
    match dialect
    case Postgres => at
    case Sqlite => at - at % SECOND
  }

  lemma DatabaseTimeBounds(dialect: Dialect, at: int)
    ensures at - SECOND < DatabaseTime(dialect, at) <= at
  {
  }

  lemma DatabaseTimeGrows(dialect: Dialect, a: int, b: int)
    requires a <= b
    ensures DatabaseTime(dialect, a) <= DatabaseTime(dialect, b)
  {
  }

  /** The row a replay inserts: a fresh uuid, unlocked and never retried. */
  function ReplayedRow(d: DeadRow, suffix: string, availableAt: int): Row {
    Row(d.uuid + "-replay-" + suffix, d.topic, d.payload, d.metadata, availableAt, None, 0)
  }

  /** The suffix bulk replay gives the i-th row it moves: PostgreSQL appends row_number(), SQLite does not. */
  function BulkSuffix(dialect: Dialect, stamp: nat, i: nat): string {
    match dialect
    case Postgres => Decimal(stamp) + "-" + Decimal(i + 1)
    case Sqlite => Decimal(stamp)
  }

  /** order lists the ids in s, each once: the order in which the database visits them. */
  predicate Lists(order: seq<nat>, s: set<nat>) {
    && (forall i :: 0 <= i < |order| ==> order[i] in s)
    && (forall d :: d in s ==> d in order)
    && (forall i, j :: 0 <= i < j < |order| ==> order[i] != order[j])
  }

  function ReplayedRows(dialect: Dialect, t: Tables, order: seq<nat>, stamp: nat, availableAt: int): (rows: seq<Row>)
    requires forall i :: 0 <= i < |order| ==> order[i] in t.dead
    ensures |rows| == |order|
  {
    seq(|order|, i requires 0 <= i < |order| =>
          ReplayedRow(t.dead[order[i]], BulkSuffix(dialect, stamp, i), availableAt))
  }
}
