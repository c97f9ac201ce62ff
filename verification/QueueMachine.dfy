/**
 The queue as a state machine: two tables, a clock and any number of workers.

 Every SQL statement, or transaction, is one atomic step. A worker is one execution of
 processAvailableMessages; between its statements other workers may run, and its nack is two
 statements (PostgreSQL) or up to three (SQLite). A statement that fails, or that runs on a
 cancelled context, changes nothing: its worker just leaves (Abandon).

 A statement takes effect at the time now; a clock reading that goes into it (at) may be older, for
 whoever read the clock may have been held up on the way. Only what a nack writes is known to have been
 read after its SELECT.
 */
module QueueMachine {
  import opened Basics
  import opened Tables

  // ---- configuration ----

  /** oneStatement: the move to the dead letter queue is a single statement. */
  datatype Config = Config(dialect: Dialect, oneStatement: bool, maxRetries: nat, lockTimeout: int) {
    predicate Valid() {
      0 < lockTimeout
    }

    /** No backoff this configuration can ask for overflows the 64-bit nanosecond count. */
    predicate BackoffFits() {
      match dialect
      case Postgres => maxRetries <= 34
      case Sqlite => maxRetries <= 9_223_372_036
    }
  }

  const DEFAULT_MAX_RETRIES: nat := 3
  const DEFAULT_LOCK_TIMEOUT: int := 30 * SECOND

  function PostgresConfig(maxRetries: int, lockTimeout: int): (c: Config)
    ensures c.Valid() && c.oneStatement && 0 < c.maxRetries
  {
    Config(Postgres, true,
           if maxRetries <= 0 then DEFAULT_MAX_RETRIES else maxRetries,
           if lockTimeout <= 0 then DEFAULT_LOCK_TIMEOUT else lockTimeout)
  }

  function SqliteConfig(maxRetries: int): (c: Config)
    ensures c.Valid() && !c.oneStatement
  {
    Config(Sqlite, false, if maxRetries < 0 then DEFAULT_MAX_RETRIES else maxRetries, DEFAULT_LOCK_TIMEOUT)
  }

  /** The delay a nack that read this retry count asks for, in Go's wrapping 64-bit arithmetic. */
  function Backoff(cfg: Config, retryCount: nat): int {
    match cfg.dialect
    case Postgres => WrapInt64(WrapInt64(Pow2(retryCount)) * SECOND)
    case Sqlite => WrapInt64((retryCount + 1) * SECOND)
  }

  // ---- history ----

  /**
   What has happened so far; no statement reads it. A message is named by the id its publication
   gave it: origin and deadOrigin say which message a row of either table stands for, firstAt and
   deadFirst when that row first became available.
   */
  datatype History = History(
    born: map<nat, Content>,
    origin: map<nat, nat>,
    firstAt: map<nat, int>,
    deadOrigin: map<nat, nat>,
    deadFirst: map<nat, int>,
    acked: set<nat>,
    purged: set<nat>)

  function Lookup(m: map<nat, nat>, key: nat): nat {
    if key in m then m[key] else key
  }

  function OriginOf(h: History, id: nat): nat {
    Lookup(h.origin, id)
  }

  function FirstOf(h: History, id: nat): int {
    if id in h.firstAt then h.firstAt[id] else 0
  }

  function DeadOriginOf(h: History, d: nat): nat {
    Lookup(h.deadOrigin, d)
  }

  function DeadFirstOf(h: History, d: nat): int {
    if d in h.deadFirst then h.deadFirst[d] else 0
  }

  function Availabilities(rows: seq<Row>): (times: seq<int>)
    ensures |times| == |rows|
  {
    seq(|rows|, i requires 0 <= i < |rows| => rows[i].availableAt)
  }

  function RecordInsert(h: History, from: nat, rows: seq<Row>, origins: seq<nat>): History
    requires |origins| == |rows|
  {
    h.(origin := h.origin + Numbered(from, origins),
       firstAt := h.firstAt + Numbered(from, Availabilities(rows)))
  }

  /** The ids n published rows get; each stands for itself. */
  function Selves(from: nat, n: nat): (ids: seq<nat>)
    ensures |ids| == n
  {
    if n == 0 then [] else Selves(from, n - 1) + [from + n - 1]
  }

  lemma {:induction false} SelvesAt(from: nat, n: nat, k: nat)
    requires k < n
    ensures Selves(from, n)[k] == from + k
  {
    if k < n - 1 {
      SelvesAt(from, n - 1, k);
    }
  }

  function RecordPublish(h: History, from: nat, rows: seq<Row>): History {
    RecordInsert(h, from, rows, Selves(from, |rows|)).(
    born := h.born + Numbered(from, seq(|rows|, i requires 0 <= i < |rows| => ContentOf(rows[i]))))
  }

  function OriginsAt(h: History, order: seq<nat>): (origins: seq<nat>)
    ensures |origins| == |order|
  {
    seq(|order|, i requires 0 <= i < |order| => DeadOriginOf(h, order[i]))
  }

  function RecordReplay(h: History, from: nat, rows: seq<Row>, order: seq<nat>): History
    requires |order| == |rows|
  {
    RecordInsert(h, from, rows, OriginsAt(h, order))
  }

  function RecordCopy(h: History, t: Tables, id: nat): History {
    if id in t.messages
    then h.(deadOrigin := h.deadOrigin[t.nextDeadId := OriginOf(h, id)],
            deadFirst := h.deadFirst[t.nextDeadId := FirstOf(h, id)])
    else h
  }

  function RecordAck(h: History, t: Tables, id: nat): History {
    if id in t.messages then h.(acked := h.acked + {OriginOf(h, id)}) else h
  }

  function RecordPurge(h: History, ds: set<nat>): History {
    h.(purged := h.purged + (set d | d in ds :: DeadOriginOf(h, d)))
  }

  // ---- states and steps ----

  /**
   Where a worker is: its delivery is unresolved; its nack has read the retry count, at the time since;
   its nack is past the INSERT of the copy, which was made or not.
   */
  datatype Job =
    | Holding(id: nat, lease: int)
    | Nacking(id: nat, lease: int, count: nat, since: int)
    | Copied(id: nat, lease: int, made: bool)
  {
    /** The row is as good as moved: its copy is in the dead letter queue. */
    predicate Hides() {
      Copied? && made
    }
  }

  datatype State = State(now: int, tables: Tables, jobs: map<nat, Job>, hist: History)

  /** The rows that only wait for a SQLite nack to delete them: their copies are already in the dead letter queue. */
  function HiddenIds(jobs: map<nat, Job>): set<nat> {
    set w | w in jobs && jobs[w].Hides() :: jobs[w].id
  }

  datatype Step =
    | Tick(elapsed: nat)
    | Publish(topic: string, batch: seq<Outgoing>, times: seq<int>)
    | Fetch(w: nat, topic: string, skipped: set<nat>, id: nat, at: int)
    | Ack(w: nat)
    | Unlock(w: nat)
    | NackRead(w: nat)
    | NackWrite(w: nat, at: int)
    | Copy(w: nat, ok: bool, at: int)
    | DeleteCopied(w: nat)
    | Abandon(w: nat)
    | ReplayOne(d: nat, stamp: nat, at: int)
    | ReplayAll(topic: string, stamp: nat, order: seq<nat>, at: int)
    | Purge(topic: string)
    | Cleanup(at: int)

  /** The times were read by now, one for each message. */
  predicate ReadBy(batch: seq<Outgoing>, times: seq<int>, now: int) {
    |times| == |batch| && forall i :: 0 <= i < |times| ==> times[i] <= now
  }

  /** The row a single replay inserts. */
  function ReplayedOne(cfg: Config, t: Tables, d: nat, stamp: nat, at: int): Row
    requires d in t.dead
  {
    ReplayedRow(t.dead[d], Decimal(stamp), DatabaseTime(cfg.dialect, at))
  }

  /** The rows a bulk replay inserts. */
  function ReplayedAll(cfg: Config, t: Tables, stamp: nat, order: seq<nat>, at: int): (rows: seq<Row>)
    requires forall i :: 0 <= i < |order| ==> order[i] in t.dead
    ensures |rows| == |order|
  {
    ReplayedRows(cfg.dialect, t, order, stamp, DatabaseTime(cfg.dialect, at))
  }

  predicate Enabled(cfg: Config, s: State, step: Step) {
    var t := s.tables;
    match step
    case Tick(_) => true
    case Publish(topic, batch, times) => ReadBy(batch, times, s.now) && CanInsert(t.messages, NewRows(topic, batch, times))
    case Fetch(w, topic, skipped, id, at) => w !in s.jobs && at <= s.now && IsNext(t.messages, topic, at, skipped, id)
    case Ack(w) => w in s.jobs && s.jobs[w].Holding?
    case Unlock(w) => w in s.jobs && s.jobs[w].Holding?
    case NackRead(w) => w in s.jobs && s.jobs[w].Holding?
    case NackWrite(w, at) =>
      && w in s.jobs && s.jobs[w].Nacking? && s.jobs[w].since <= at <= s.now
      && (cfg.oneStatement || s.jobs[w].count < cfg.maxRetries)
    case Copy(w, _, at) =>
      && w in s.jobs && s.jobs[w].Nacking? && s.jobs[w].since <= at <= s.now
      && !cfg.oneStatement && s.jobs[w].count >= cfg.maxRetries
    case DeleteCopied(w) => w in s.jobs && s.jobs[w].Copied?
    case Abandon(w) => w in s.jobs
    case ReplayOne(d, stamp, at) => d in t.dead && at <= s.now && CanInsert(t.messages, [ReplayedOne(cfg, t, d, stamp, at)])
    case ReplayAll(topic, stamp, order, at) =>
      Lists(order, DeadIn(t, topic)) && at <= s.now && CanInsert(t.messages, ReplayedAll(cfg, t, stamp, order, at))
    case Purge(_) => true
    case Cleanup(at) => cfg.dialect.Postgres? && at <= s.now
  }

  // ---- the effect of each statement on a state ----

  function AfterPublish(s: State, rows: seq<Row>): State {
    s.(tables := InsertRows(s.tables, rows), hist := RecordPublish(s.hist, s.tables.nextId, rows))
  }

  function AfterAck(s: State, w: nat): State
    requires w in s.jobs
  {
    var id := s.jobs[w].id;
    s.(tables := DeleteRow(s.tables, id), jobs := s.jobs - {w}, hist := RecordAck(s.hist, s.tables, id))
  }

  function AfterNackRead(s: State, w: nat): State
    requires w in s.jobs
  {
    var job := s.jobs[w];
    if job.id in s.tables.messages
    then s.(jobs := s.jobs[w := Nacking(job.id, job.lease, s.tables.messages[job.id].retryCount, s.now)])
    else s.(jobs := s.jobs - {w})
  }

  function AfterRetry(cfg: Config, s: State, w: nat, at: int): State
    requires w in s.jobs && s.jobs[w].Nacking?
  {
    var job := s.jobs[w];
    s.(tables := ScheduleRetry(s.tables, job.id, at + Backoff(cfg, job.count)), jobs := s.jobs - {w})
  }

  function AfterMove(s: State, w: nat, failedAt: int): State
    requires w in s.jobs
  {
    var id := s.jobs[w].id;
    s.(tables := MoveToDead(s.tables, id, failedAt), jobs := s.jobs - {w}, hist := RecordCopy(s.hist, s.tables, id))
  }

  function AfterCopy(s: State, w: nat, ok: bool, failedAt: int): State
    requires w in s.jobs
  {
    var job := s.jobs[w];
    var s' := s.(jobs := s.jobs[w := Copied(job.id, job.lease, ok)]);
    if ok
    then s'.(tables := CopyToDead(s.tables, job.id, failedAt), hist := RecordCopy(s.hist, s.tables, job.id))
    else s'
  }

  function AfterReplay(s: State, ds: set<nat>, order: seq<nat>, rows: seq<Row>): State
    requires |order| == |rows|
  {
    s.(tables := InsertRows(s.tables.(dead := s.tables.dead - ds), rows),
       hist := RecordReplay(s.hist, s.tables.nextId, rows, order))
  }

  function AfterPurge(s: State, topic: string): State {
    s.(tables := PurgeDead(s.tables, topic), hist := RecordPurge(s.hist, DeadIn(s.tables, topic)))
  }

  function Next(cfg: Config, s: State, step: Step): State
    requires Enabled(cfg, s, step)
  {
    var t := s.tables;
    match step
    case Tick(elapsed) => s.(now := s.now + elapsed)
    case Publish(topic, batch, times) => AfterPublish(s, NewRows(topic, batch, times))
    case Fetch(w, topic, skipped, id, at) =>
      s.(tables := LockRow(t, id, at + cfg.lockTimeout), jobs := s.jobs[w := Holding(id, at + cfg.lockTimeout)])
    case Ack(w) => AfterAck(s, w)
    case Unlock(w) => s.(tables := UnlockRow(t, s.jobs[w].id), jobs := s.jobs - {w})
    case NackRead(w) => AfterNackRead(s, w)
    case NackWrite(w, at) =>
      if s.jobs[w].count >= cfg.maxRetries then AfterMove(s, w, DatabaseTime(cfg.dialect, at)) else AfterRetry(cfg, s, w, at)
    case Copy(w, ok, at) => AfterCopy(s, w, ok, DatabaseTime(cfg.dialect, at))
    case DeleteCopied(w) => s.(tables := DeleteRow(t, s.jobs[w].id), jobs := s.jobs - {w})
    case Abandon(w) => s.(jobs := s.jobs - {w})
    case ReplayOne(d, stamp, at) => AfterReplay(s, {d}, [d], [ReplayedOne(cfg, t, d, stamp, at)])
    case ReplayAll(topic, stamp, order, at) => AfterReplay(s, DeadIn(t, topic), order, ReplayedAll(cfg, t, stamp, order, at))
    case Purge(topic) => AfterPurge(s, topic)
    case Cleanup(at) => s.(tables := CleanupLocks(t, at))
  }

  // ---- runs ----

  const EMPTY_HISTORY := History(map[], map[], map[], map[], map[], {}, {})

  predicate Initial(s: State) {
    s.tables == Tables(map[], map[], 1, 1) && s.jobs == map[] && s.hist == EMPTY_HISTORY
  }

  datatype Run = Run(cfg: Config, states: seq<State>, steps: seq<Step>) {
    predicate StepAt(i: nat)
      requires i < |steps| && i + 1 < |states|
    {
      Enabled(cfg, states[i], steps[i]) && states[i + 1] == Next(cfg, states[i], steps[i])
    }

    ghost predicate Valid() {
      cfg.Valid() && |states| == |steps| + 1 && forall i :: 0 <= i < |steps| ==> StepAt(i)
    }

    ghost predicate FromStart() {
      Valid() && Initial(states[0])
    }

    /** The lease discipline: every delivery is resolved no later than its locked_until. */
    ghost predicate KeepsLeases() {
      forall i :: 0 <= i < |states| ==> InTime(states[i])
    }

    /** No SQLite move deletes a row it could not copy, and none that copied a row fails to delete it. */
    ghost predicate MovesSucceed() {
      forall i :: 0 <= i < |steps| && i < |states| ==> MoveSucceeds(states[i], steps[i])
    }

    /** No SQLite move deletes a row it could not copy. */
    ghost predicate NothingDropped() {
      forall i :: 0 <= i < |steps| && i < |states| ==> !Drops(states[i], steps[i])
    }

    /** No SQLite move that copied a row fails to delete it. */
    ghost predicate DeletesSucceed() {
      forall i :: 0 <= i < |steps| && i < |states| ==> !Doubles(states[i], steps[i])
    }
  }

  predicate InTime(s: State) {
    forall w :: w in s.jobs ==> s.now <= s.jobs[w].lease
  }

  /** The DELETE of a SQLite move whose INSERT failed. */
  predicate Drops(s: State, step: Step) {
    step.DeleteCopied? && step.w in s.jobs && s.jobs[step.w].Copied? && !s.jobs[step.w].made
  }

  /** The end of a SQLite move whose INSERT succeeded and whose DELETE did not. */
  predicate Doubles(s: State, step: Step) {
    step.Abandon? && step.w in s.jobs && s.jobs[step.w].Hides()
  }

  predicate MoveSucceeds(s: State, step: Step) {
    !Drops(s, step) && !Doubles(s, step)
  }

  // ---- bookkeeping every step keeps ----

  ghost predicate WellFormed(s: State) {
    Booked(s) && UuidsUnique(s.tables.messages)
  }

  /** The history covers every row and every worker, and ids stay below their counters. */
  ghost predicate Booked(s: State) {
    RowsBooked(s) && DeadBooked(s) && (forall w :: w in s.jobs ==> s.jobs[w].id in s.hist.origin)
  }

  ghost predicate RowsBooked(s: State) {
    var t, h := s.tables, s.hist;
    && (forall id :: id in t.messages ==> id in h.origin)
    && (forall id :: id in h.origin ==> id < t.nextId)
    && h.firstAt.Keys == h.origin.Keys
    && (forall o :: o in h.born ==> o < t.nextId)
  }

  ghost predicate DeadBooked(s: State) {
    var t, h := s.tables, s.hist;
    && (forall d :: d in t.dead ==> d in h.deadOrigin)
    && (forall d :: d in h.deadOrigin ==> d < t.nextDeadId)
    && h.deadFirst.Keys == h.deadOrigin.Keys
  }

  /** No row appears, and those that remain keep the uuid and the content they had. */
  ghost predicate RowsKept(ms: map<nat, Row>, ms': map<nat, Row>) {
    forall id :: id in ms' ==>
      id in ms && ms'[id].uuid == ms[id].uuid && ContentOf(ms'[id]) == ContentOf(ms[id])
  }

  predicate Inserts(step: Step) {
    step.Publish? || step.ReplayOne? || step.ReplayAll?
  }

  lemma OnlyInsertionsAddRows(cfg: Config, s: State, step: Step)
    requires Enabled(cfg, s, step) && !Inserts(step)
    ensures RowsKept(s.tables.messages, Next(cfg, s, step).tables.messages)
  {
  }

  // ---- what a step does to one row, one dead letter, one worker ----

  /** The rows an inserting step adds. */
  function InsertedBy(cfg: Config, s: State, step: Step): seq<Row>
    requires Enabled(cfg, s, step) && Inserts(step)
  {
    match step
    case Publish(to, batch, times) => NewRows(to, batch, times)
    case ReplayOne(d, stamp, at) => [ReplayedOne(cfg, s.tables, d, stamp, at)]
    case ReplayAll(_, stamp, order, at) => ReplayedAll(cfg, s.tables, stamp, order, at)
  }

  predicate NeverTried(rows: seq<Row>) {
    forall i :: 0 <= i < |rows| ==> rows[i].retryCount == 0 && rows[i].lockedUntil == None
  }

  lemma InsertsRows(cfg: Config, s: State, step: Step)
    requires Enabled(cfg, s, step) && Inserts(step)
    ensures var rows, s' := InsertedBy(cfg, s, step), Next(cfg, s, step);
            && s'.tables.messages == InsertRows(s.tables, rows).messages
            && s'.hist.firstAt == s.hist.firstAt + Numbered(s.tables.nextId, Availabilities(rows))
            && NeverTried(rows)
  {
  }

  lemma RowInserted(t: Tables, firstAt: map<nat, int>, rows: seq<Row>, id: nat)
    requires id in InsertRows(t, rows).messages
    requires id in t.messages ==> id < t.nextId
    ensures var ms, first := InsertRows(t, rows).messages, firstAt + Numbered(t.nextId, Availabilities(rows));
            if id in t.messages
            then ms[id] == t.messages[id] && (id in first <==> id in firstAt) && (id in first ==> first[id] == firstAt[id])
            else && t.nextId <= id < t.nextId + |rows| && ms[id] == rows[id - t.nextId]
                 && id in first && first[id] == ms[id].availableAt
  {
    assert id in FreshIds(t.nextId, |rows|) <==> InRange(id, t.nextId, |rows|);
  }

  lemma RowAfterInsertion(cfg: Config, s: State, step: Step, id: nat)
    requires Booked(s) && Enabled(cfg, s, step) && Inserts(step) && id in Next(cfg, s, step).tables.messages
    ensures var s' := Next(cfg, s, step);
            if id in s.tables.messages
            then s'.tables.messages[id] == s.tables.messages[id] && FirstOf(s'.hist, id) == FirstOf(s.hist, id)
            else var row := s'.tables.messages[id];
                 && s.tables.nextId <= id
                 && row.retryCount == 0 && row.lockedUntil == None
                 && FirstOf(s'.hist, id) == row.availableAt
  {
    InsertsRows(cfg, s, step);
    RowInserted(s.tables, s.hist.firstAt, InsertedBy(cfg, s, step), id);
  }

  /** Only a nack's UPDATE changes a row's retry count or availability. */
  lemma RowAfterOther(cfg: Config, s: State, step: Step, id: nat)
    requires Enabled(cfg, s, step) && !Inserts(step) && id in Next(cfg, s, step).tables.messages
    ensures id in s.tables.messages && Next(cfg, s, step).hist.firstAt == s.hist.firstAt
    ensures var row, row' := s.tables.messages[id], Next(cfg, s, step).tables.messages[id];
            if step.NackWrite? && s.jobs[step.w].id == id
            then s.jobs[step.w].count < cfg.maxRetries
                 && row' == row.(retryCount := row.retryCount + 1, lockedUntil := None,
                                 availableAt := step.at + Backoff(cfg, s.jobs[step.w].count))
            else row'.retryCount == row.retryCount && row'.availableAt == row.availableAt
  {
  }

  lemma DeadAfter(cfg: Config, s: State, step: Step, d: nat)
    requires Booked(s) && Enabled(cfg, s, step) && d in Next(cfg, s, step).tables.dead
    ensures var s' := Next(cfg, s, step);
            if d in s.tables.dead
            then s'.tables.dead[d] == s.tables.dead[d] && DeadFirstOf(s'.hist, d) == DeadFirstOf(s.hist, d)
            else && (step.NackWrite? || step.Copy?)
                 && s.jobs[step.w].Nacking? && cfg.maxRetries <= s.jobs[step.w].count
                 && s.jobs[step.w].id in s.tables.messages
                 && (var row := s.tables.messages[s.jobs[step.w].id];
                     s'.tables.dead[d] == DeadRow(row.uuid, row.topic, row.payload, row.metadata, "max retries exceeded",
                                                  DatabaseTime(cfg.dialect, step.at), row.retryCount))
                 && s.jobs[step.w].since <= step.at <= s.now
                 && DeadFirstOf(s'.hist, d) == FirstOf(s.hist, s.jobs[step.w].id)
  {
  }

  lemma JobAfter(cfg: Config, s: State, step: Step, w: nat)
    requires Enabled(cfg, s, step) && w in Next(cfg, s, step).jobs
    ensures var job := Next(cfg, s, step).jobs[w];
            if w in s.jobs
            then job.id == s.jobs[w].id && job.lease == s.jobs[w].lease
            else step.Fetch? && step.w == w && job == Holding(step.id, step.at + cfg.lockTimeout)
  {
  }

  lemma InsertKeepsUuidsUnique(t: Tables, rows: seq<Row>)
    requires UuidsUnique(t.messages) && CanInsert(t.messages, rows)
    ensures UuidsUnique(InsertRows(t, rows).messages)
  {
    var ms := InsertRows(t, rows).messages;
    forall i, j | i in ms && j in ms && ms[i].uuid == ms[j].uuid
      ensures i == j
    {
    }
  }

  lemma WellFormedPublish(s: State, rows: seq<Row>)
    requires WellFormed(s) && CanInsert(s.tables.messages, rows)
    ensures WellFormed(AfterPublish(s, rows))
  {
    InsertKeepsUuidsUnique(s.tables, rows);
  }

  lemma WellFormedReplay(s: State, ds: set<nat>, order: seq<nat>, rows: seq<Row>)
    requires WellFormed(s) && CanInsert(s.tables.messages, rows) && |order| == |rows|
    ensures WellFormed(AfterReplay(s, ds, order, rows))
  {
    InsertKeepsUuidsUnique(s.tables.(dead := s.tables.dead - ds), rows);
  }

  lemma WellFormedNext(cfg: Config, s: State, step: Step)
    requires WellFormed(s) && Enabled(cfg, s, step)
    ensures WellFormed(Next(cfg, s, step))
  {
    var t := s.tables;
    match step
    case Publish(topic, batch, times) => WellFormedPublish(s, NewRows(topic, batch, times));
    case ReplayOne(d, stamp, at) => WellFormedReplay(s, {d}, [d], [ReplayedOne(cfg, t, d, stamp, at)]);
    case ReplayAll(topic, stamp, order, at) =>
      WellFormedReplay(s, DeadIn(t, topic), order, ReplayedAll(cfg, t, stamp, order, at));
    case _ =>
      BookedOther(cfg, s, step);
      OnlyInsertionsAddRows(cfg, s, step);
  }

  lemma RowsBookedOther(cfg: Config, s: State, step: Step)
    requires Booked(s) && Enabled(cfg, s, step) && !Inserts(step)
    ensures RowsBooked(Next(cfg, s, step))
  {
  }

  lemma DeadBookedOther(cfg: Config, s: State, step: Step)
    requires Booked(s) && Enabled(cfg, s, step) && !Inserts(step)
    ensures DeadBooked(Next(cfg, s, step))
  {
  }

  lemma JobsBookedOther(cfg: Config, s: State, step: Step)
    requires Booked(s) && Enabled(cfg, s, step) && !Inserts(step)
    ensures forall w :: w in Next(cfg, s, step).jobs ==> Next(cfg, s, step).jobs[w].id in Next(cfg, s, step).hist.origin
  {
  }

  lemma BookedOther(cfg: Config, s: State, step: Step)
    requires Booked(s) && Enabled(cfg, s, step) && !Inserts(step)
    ensures Booked(Next(cfg, s, step))
  {
    RowsBookedOther(cfg, s, step);
    DeadBookedOther(cfg, s, step);
    JobsBookedOther(cfg, s, step);
  }

  lemma {:induction false} RunWellFormed(r: Run, i: nat)
    requires r.FromStart() && i < |r.states|
    ensures WellFormed(r.states[i])
  {
    if i > 0 {
      RunWellFormed(r, i - 1);
      assert r.StepAt(i - 1);
      WellFormedNext(r.cfg, r.states[i - 1], r.steps[i - 1]);
    }
  }

  // ---- several statements in a row ----

  predicate CanRun(cfg: Config, s: State, steps: seq<Step>)
    decreases |steps|
  {
    steps == [] || (Enabled(cfg, s, steps[0]) && CanRun(cfg, Next(cfg, s, steps[0]), steps[1..]))
  }

  function RunTo(cfg: Config, s: State, steps: seq<Step>): State
    requires CanRun(cfg, s, steps)
    decreases |steps|
  {
    if steps == [] then s else RunTo(cfg, Next(cfg, s, steps[0]), steps[1..])
  }

  lemma RunCons(cfg: Config, s: State, step: Step, rest: seq<Step>)
    requires Enabled(cfg, s, step) && CanRun(cfg, Next(cfg, s, step), rest)
    ensures CanRun(cfg, s, [step] + rest) && RunTo(cfg, s, [step] + rest) == RunTo(cfg, Next(cfg, s, step), rest)
  {
    assert ([step] + rest)[1..] == rest;
  }

  lemma {:induction false} RunAppend(cfg: Config, s: State, first: seq<Step>, rest: seq<Step>)
    requires CanRun(cfg, s, first) && CanRun(cfg, RunTo(cfg, s, first), rest)
    ensures CanRun(cfg, s, first + rest) && RunTo(cfg, s, first + rest) == RunTo(cfg, RunTo(cfg, s, first), rest)
    decreases |first|
  {
    if first == [] {
      assert first + rest == rest;
    } else {
      RunAppend(cfg, Next(cfg, s, first[0]), first[1..], rest);
      RunCons(cfg, s, first[0], first[1..] + rest);
      assert first + rest == [first[0]] + (first[1..] + rest);
    }
  }

  // ---- building runs ----

  function Last(r: Run): State
    requires r.states != []
  {
    r.states[|r.states| - 1]
  }

  function Extend(r: Run, step: Step): Run
    requires r.states != [] && Enabled(r.cfg, Last(r), step)
  {
    Run(r.cfg, r.states + [Next(r.cfg, Last(r), step)], r.steps + [step])
  }

  /** Only workers below n ever take part. */
  ghost predicate WorkersBelow(r: Run, n: nat) {
    forall i, w :: 0 <= i < |r.states| && w in r.states[i].jobs ==> w < n
  }

  lemma ExtendFromStart(r: Run, step: Step)
    requires r.FromStart() && Enabled(r.cfg, Last(r), step)
    ensures Extend(r, step).FromStart()
    ensures r.MovesSucceed() && MoveSucceeds(Last(r), step) ==> Extend(r, step).MovesSucceed()
    ensures forall n: nat :: WorkersBelow(r, n) && (forall w :: w in Next(r.cfg, Last(r), step).jobs ==> w < n)
                        ==> WorkersBelow(Extend(r, step), n)
    ensures r.KeepsLeases() && InTime(Next(r.cfg, Last(r), step)) ==> Extend(r, step).KeepsLeases()
  {
    var r' := Extend(r, step);
    forall i: nat | i < |r'.steps|
      ensures r'.StepAt(i)
    {
      assert i < |r.steps| ==> r.StepAt(i);
    }
  }

  /** r' goes on from where r ends. */
  ghost predicate Continues(r: Run, r': Run) {
    r'.cfg == r.cfg && r.states <= r'.states && r.steps <= r'.steps
  }

  lemma ContinuesThrough(a: Run, b: Run, c: Run)
    requires Continues(a, b) && Continues(b, c)
    ensures Continues(a, c)
  {
  }

  // ---- how an object got where it is ----

  /** r is a run of cfg, from the start, that ends in s. */
  ghost predicate Tells(r: Run, cfg: Config, s: State) {
    r.FromStart() && r.cfg == cfg && r.states != [] && Last(r) == s && WellFormed(s)
  }

  lemma TellsNext(r: Run, cfg: Config, s: State, step: Step)
    requires Tells(r, cfg, s) && Enabled(cfg, s, step)
    ensures Tells(Extend(r, step), cfg, Next(cfg, s, step)) && Continues(r, Extend(r, step))
  {
    ExtendFromStart(r, step);
    WellFormedNext(cfg, s, step);
  }

  lemma {:induction false} TellsAll(r: Run, cfg: Config, s: State, steps: seq<Step>) returns (r': Run)
    requires Tells(r, cfg, s) && CanRun(cfg, s, steps)
    ensures Tells(r', cfg, RunTo(cfg, s, steps)) && Continues(r, r')
    decreases |steps|
  {
    r' := r;
    if steps != [] {
      TellsNext(r, cfg, s, steps[0]);
      r' := TellsAll(Extend(r, steps[0]), cfg, Next(cfg, s, steps[0]), steps[1..]);
      ContinuesThrough(r, Extend(r, steps[0]), r');
    }
  }

  lemma TellsFromStart(cfg: Config, s: State)
    requires cfg.Valid() && Initial(s)
    ensures Tells(Run(cfg, [s], []), cfg, s)
  {
  }
}
