/**
 How long a message waits: every retry moves its available_at forward by the backoff its retry
 count asks for, so a dead letter is at least the sum of all backoffs old.
 */
module BackoffBounds {
  import opened Basics
  import opened Tables
  import opened QueueMachine
  import opened Conservation
  import opened Leases

  // ---- the arithmetic ----

  /** The delay the n-th retry is meant to have: 2^n seconds in PostgreSQL, n + 1 seconds in SQLite. */
  function Intended(dialect: Dialect, n: nat): nat {
    match dialect
    case Postgres => Pow2(n) * SECOND
    case Sqlite => (n + 1) * SECOND
  }

  /** The delay of the first n retries together. */
  function Total(dialect: Dialect, n: nat): nat {
    if n == 0 then 0 else Total(dialect, n - 1) + Intended(dialect, n - 1)
  }

  lemma {:induction false} TotalClosedForm(n: nat)
    ensures Total(Postgres, n) == (Pow2(n) - 1) * SECOND
    ensures Total(Sqlite, n) == n * (n + 1) / 2 * SECOND
  {
    if n > 0 {
      TotalClosedForm(n - 1);
      Triangle(n);
    }
  }

  lemma Triangle(n: nat)
    requires 0 < n
    ensures (n - 1) * n / 2 * SECOND + n * SECOND == n * (n + 1) / 2 * SECOND
  {
    assert n * (n + 1) == (n - 1) * n + 2 * n;
  }

  lemma {:induction false} TotalIsWhole(dialect: Dialect, n: nat)
    ensures Total(dialect, n) % SECOND == 0
  {
    if n > 0 {
      TotalIsWhole(dialect, n - 1);
    }
  }

  /** What comes before all the backoffs are over comes before in whole seconds, too. */
  lemma BeforeTotal(dialect: Dialect, n: nat, at: int)
    requires at < Total(dialect, n)
    ensures DatabaseTime(dialect, at) < DatabaseTime(dialect, Total(dialect, n))
  {
    TotalIsWhole(dialect, n);
    DatabaseTimeBounds(dialect, at);
  }

  /** The 64-bit computation gives the intended PostgreSQL backoff up to 2^33 seconds, and never after. */
  lemma PostgresBackoffExactIff(cfg: Config, n: nat)
    requires cfg.dialect.Postgres?
    ensures Backoff(cfg, n) == Pow2(n) * SECOND <==> n <= 33
  {
    Pow2At33And34();
    if n <= 33 {
      Pow2Monotone(n, 33);
    } else {
      Pow2Monotone(34, n);
    }
  }

  lemma SqliteBackoffExactIff(cfg: Config, n: nat)
    requires cfg.dialect.Sqlite?
    ensures Backoff(cfg, n) == (n + 1) * SECOND <==> n < 9_223_372_036
  {
  }

  /** All the backoffs a configuration can ask for are exact if and only if it passes the check BackoffFits. */
  lemma BackoffFitsExactly(cfg: Config)
    ensures cfg.BackoffFits() <==> forall n: nat :: n < cfg.maxRetries ==> Backoff(cfg, n) == Intended(cfg.dialect, n)
  {
    forall n: nat
      ensures Backoff(cfg, n) == Intended(cfg.dialect, n)
              <==> (if cfg.dialect.Postgres? then n <= 33 else n < 9_223_372_036)
    {
      match cfg.dialect
      case Postgres => PostgresBackoffExactIff(cfg, n);
      case Sqlite => SqliteBackoffExactIff(cfg, n);
    }
    if !cfg.BackoffFits() {
      var n: nat := if cfg.dialect.Postgres? then 34 else 9_223_372_036;
      assert n < cfg.maxRetries && Backoff(cfg, n) != Intended(cfg.dialect, n);
    }
  }

  // ---- nothing is delivered early, in every interleaving ----

  /** When the message that a row, or a dead letter, stands for was first to be available. */
  function MessageDue(h: History, id: nat): int {
    FirstOf(h, OriginOf(h, id))
  }

  /** The message of row id, as h has it, was to be available by time t. */
  predicate DueBy(h: History, id: nat, t: int) {
    MessageDue(h, id) <= t
  }

  function DeadMessageDue(h: History, d: nat): int {
    FirstOf(h, DeadOriginOf(h, d))
  }

  /** Every row and every dead letter stands for a message on record. */
  ghost predicate Traced(h: History) {
    && (forall id :: id in h.origin ==> h.origin[id] in h.origin)
    && (forall d :: d in h.deadOrigin ==> h.deadOrigin[d] in h.origin)
  }

  /**
   A row waits for its message to become due, or it has been due; what has been fetched, or is a dead
   letter, has been due. A row may be made available early, but only by a worker that has fetched it.
   */
  ghost predicate NotEarly(s: State) {
    && Traced(s.hist)
    && (forall id :: id in s.tables.messages ==>
          DueBy(s.hist, id, s.tables.messages[id].availableAt) || DueBy(s.hist, id, s.now))
    && (forall w :: w in s.jobs ==> DueBy(s.hist, s.jobs[w].id, s.now))
    && (forall d :: d in s.tables.dead ==> DeadMessageDue(s.hist, d) <= s.now)
  }

  /** History is only added to. */
  ghost predicate Remembers(h: History, h': History) {
    && (forall id :: id in h.origin ==> id in h'.origin && h'.origin[id] == h.origin[id] && FirstOf(h', id) == FirstOf(h, id))
    && (forall d :: d in h.deadOrigin ==> d in h'.deadOrigin && h'.deadOrigin[d] == h.deadOrigin[d])
  }

  lemma NextRemembers(cfg: Config, s: State, step: Step)
    requires Booked(s) && Enabled(cfg, s, step)
    ensures Remembers(s.hist, Next(cfg, s, step).hist)
  {
    forall id | id in s.hist.origin
      ensures var h' := Next(cfg, s, step).hist;
              id in h'.origin && h'.origin[id] == s.hist.origin[id] && FirstOf(h', id) == FirstOf(s.hist, id)
    {
      SameRowNext(cfg, s, step, id);
    }
  }

  lemma NewlyNumbered(m: map<nat, nat>, from: nat, xs: seq<nat>, id: nat)
    requires id !in m && id in m + Numbered(from, xs)
    ensures from <= id < from + |xs| && (m + Numbered(from, xs))[id] == xs[id - from]
  {
  }

  /** o is what a row id inserted into s may stand for: itself, or the message of a dead letter. */
  ghost predicate OriginKnown(s: State, id: nat, o: nat) {
    o == id || exists d :: d in s.tables.dead && o == DeadOriginOf(s.hist, d)
  }

  lemma ReplayedOrigin(h: History, from: nat, order: seq<nat>, id: nat) returns (d: nat)
    requires id !in h.origin && id in h.origin + Numbered(from, OriginsAt(h, order))
    ensures d in order && (h.origin + Numbered(from, OriginsAt(h, order)))[id] == DeadOriginOf(h, d)
  {
    NewlyNumbered(h.origin, from, OriginsAt(h, order), id);
    d := order[id - from];
  }

  lemma PublishedOrigin(h: History, from: nat, n: nat, id: nat)
    requires id !in h.origin && id in h.origin + Numbered(from, Selves(from, n))
    ensures (h.origin + Numbered(from, Selves(from, n)))[id] == id
  {
    NewlyNumbered(h.origin, from, Selves(from, n), id);
    SelvesAt(from, n, id - from);
  }

  lemma OnlyInsertionsAddOrigins(cfg: Config, s: State, step: Step)
    requires Enabled(cfg, s, step) && !Inserts(step)
    ensures Next(cfg, s, step).hist.origin == s.hist.origin
  {
  }

  lemma PublishOrigin(cfg: Config, s: State, step: Step, id: nat)
    requires step.Publish? && Enabled(cfg, s, step)
    requires id in Next(cfg, s, step).hist.origin && id !in s.hist.origin
    ensures OriginKnown(s, id, Next(cfg, s, step).hist.origin[id])
  {
    PublishedOrigin(s.hist, s.tables.nextId, |step.batch|, id);
  }

  lemma ReplayOneOrigin(cfg: Config, s: State, step: Step, id: nat)
    requires step.ReplayOne? && Enabled(cfg, s, step)
    requires id in Next(cfg, s, step).hist.origin && id !in s.hist.origin
    ensures OriginKnown(s, id, Next(cfg, s, step).hist.origin[id])
  {
    var d := ReplayedOrigin(s.hist, s.tables.nextId, [step.d], id);
  }

  lemma ReplayAllOrigin(cfg: Config, s: State, step: Step, id: nat)
    requires step.ReplayAll? && Enabled(cfg, s, step)
    requires id in Next(cfg, s, step).hist.origin && id !in s.hist.origin
    ensures OriginKnown(s, id, Next(cfg, s, step).hist.origin[id])
  {
    var d := ReplayedOrigin(s.hist, s.tables.nextId, step.order, id);
  }

  lemma NewOrigin(cfg: Config, s: State, step: Step, id: nat)
    requires Enabled(cfg, s, step) && id in Next(cfg, s, step).hist.origin && id !in s.hist.origin
    ensures OriginKnown(s, id, Next(cfg, s, step).hist.origin[id])
  {
    if step.Publish? {
      PublishOrigin(cfg, s, step, id);
    } else if step.ReplayOne? {
      ReplayOneOrigin(cfg, s, step, id);
    } else if step.ReplayAll? {
      ReplayAllOrigin(cfg, s, step, id);
    } else {
      OnlyInsertionsAddOrigins(cfg, s, step);
    }
  }

  lemma NewDeadOrigin(cfg: Config, s: State, step: Step, d: nat)
    requires Booked(s) && Enabled(cfg, s, step) && d in Next(cfg, s, step).hist.deadOrigin && d !in s.hist.deadOrigin
    ensures (step.NackWrite? || step.Copy?) && step.w in s.jobs
    ensures Next(cfg, s, step).hist.deadOrigin[d] == OriginOf(s.hist, s.jobs[step.w].id)
  {
  }

  lemma TracedNext(cfg: Config, s: State, step: Step)
    requires Booked(s) && Enabled(cfg, s, step) && Traced(s.hist)
    ensures Traced(Next(cfg, s, step).hist)
  {
    var h' := Next(cfg, s, step).hist;
    NextRemembers(cfg, s, step);
    forall id | id in h'.origin
      ensures h'.origin[id] in h'.origin
    {
      if id !in s.hist.origin {
        NewOrigin(cfg, s, step, id);
      }
    }
    forall d | d in h'.deadOrigin
      ensures h'.deadOrigin[d] in h'.origin
    {
      if d !in s.hist.deadOrigin {
        NewDeadOrigin(cfg, s, step, d);
      }
    }
  }

  lemma DueStays(h: History, h': History, id: nat, t: int, t': int)
    requires Traced(h) && Remembers(h, h') && id in h.origin && DueBy(h, id, t) && t <= t'
    ensures DueBy(h', id, t')
  {
  }

  /** A row that stands for a dead letter's message, or for the message of a fetched row. */
  lemma DueInherited(h: History, h': History, o: nat, t: int)
    requires Remembers(h, h') && o in h.origin && FirstOf(h, o) <= t
    ensures FirstOf(h', o) <= t
  {
  }

  lemma NextIsLater(cfg: Config, s: State, step: Step)
    requires Enabled(cfg, s, step)
    ensures s.now <= Next(cfg, s, step).now
  {
  }

  lemma OldRowNotEarly(cfg: Config, s: State, step: Step, id: nat)
    requires Booked(s) && Enabled(cfg, s, step) && NotEarly(s) && id in s.tables.messages
    requires id in Next(cfg, s, step).tables.messages
    ensures var s' := Next(cfg, s, step);
            DueBy(s'.hist, id, s'.tables.messages[id].availableAt) || DueBy(s'.hist, id, s'.now)
  {
    var s' := Next(cfg, s, step);
    var row, row' := s.tables.messages[id], s'.tables.messages[id];
    NextRemembers(cfg, s, step);
    NextIsLater(cfg, s, step);
    if DueBy(s.hist, id, s.now) {
      DueStays(s.hist, s'.hist, id, s.now, s'.now);
    } else {
      assert DueBy(s.hist, id, row.availableAt);
      NotFetchedYet(cfg, s, step, id);
      DueStays(s.hist, s'.hist, id, row.availableAt, row'.availableAt);
    }
  }

  lemma NotFetchedYet(cfg: Config, s: State, step: Step, id: nat)
    requires Booked(s) && Enabled(cfg, s, step) && id in s.tables.messages && id in Next(cfg, s, step).tables.messages
    requires forall w :: w in s.jobs ==> s.jobs[w].id != id
    ensures Next(cfg, s, step).tables.messages[id].availableAt == s.tables.messages[id].availableAt
  {
    if Inserts(step) { RowAfterInsertion(cfg, s, step, id); } else { RowAfterOther(cfg, s, step, id); }
  }

  lemma NewRowNotEarly(cfg: Config, s: State, step: Step, id: nat)
    requires Booked(s) && Enabled(cfg, s, step) && NotEarly(s)
    requires id in Next(cfg, s, step).tables.messages && id !in s.tables.messages
    ensures var s' := Next(cfg, s, step);
            DueBy(s'.hist, id, s'.tables.messages[id].availableAt) || DueBy(s'.hist, id, s'.now)
  {
    var s' := Next(cfg, s, step);
    NewRowOnRecord(cfg, s, step, id);
    NewOrigin(cfg, s, step, id);
    NextRemembers(cfg, s, step);
    NextIsLater(cfg, s, step);
    var o := s'.hist.origin[id];
    if o != id {
      var d :| d in s.tables.dead && o == DeadOriginOf(s.hist, d);
      assert d in s.hist.deadOrigin && DeadMessageDue(s.hist, d) <= s.now;
      DueInherited(s.hist, s'.hist, o, s.now);
    }
  }

  lemma NewRowOnRecord(cfg: Config, s: State, step: Step, id: nat)
    requires Booked(s) && Enabled(cfg, s, step)
    requires id in Next(cfg, s, step).tables.messages && id !in s.tables.messages
    ensures id in Next(cfg, s, step).hist.origin && id !in s.hist.origin
    ensures FirstOf(Next(cfg, s, step).hist, id) == Next(cfg, s, step).tables.messages[id].availableAt
  {
    if Inserts(step) {
      RowAfterInsertion(cfg, s, step, id);
      BookedInserted(cfg, s, step, id);
    } else {
      OnlyInsertionsAddRows(cfg, s, step);
    }
  }

  lemma BookedInserted(cfg: Config, s: State, step: Step, id: nat)
    requires Enabled(cfg, s, step) && Inserts(step)
    requires id in Next(cfg, s, step).tables.messages && id !in s.tables.messages
    ensures id in Next(cfg, s, step).hist.origin
  {
  }

  lemma JobNotEarly(cfg: Config, s: State, step: Step, w: nat)
    requires Booked(s) && Enabled(cfg, s, step) && NotEarly(s) && w in Next(cfg, s, step).jobs
    ensures var s' := Next(cfg, s, step); DueBy(s'.hist, s'.jobs[w].id, s'.now)
  {
    var s', id := Next(cfg, s, step), Next(cfg, s, step).jobs[w].id;
    WasDue(cfg, s, step, w);
    NextRemembers(cfg, s, step);
    NextIsLater(cfg, s, step);
    DueStays(s.hist, s'.hist, id, s.now, s'.now);
  }

  lemma WasDue(cfg: Config, s: State, step: Step, w: nat)
    requires Booked(s) && Enabled(cfg, s, step) && NotEarly(s) && w in Next(cfg, s, step).jobs
    ensures var id := Next(cfg, s, step).jobs[w].id; id in s.hist.origin && DueBy(s.hist, id, s.now)
  {
    JobAfter(cfg, s, step, w);
  }

  lemma DeadNotEarly(cfg: Config, s: State, step: Step, d: nat)
    requires Booked(s) && Enabled(cfg, s, step) && NotEarly(s) && d in Next(cfg, s, step).tables.dead
    ensures var s' := Next(cfg, s, step); DeadMessageDue(s'.hist, d) <= s'.now
  {
    var s' := Next(cfg, s, step);
    var o := DeadOriginOf(s'.hist, d);
    DeadWasDue(cfg, s, step, d);
    NextRemembers(cfg, s, step);
    NextIsLater(cfg, s, step);
    DueInherited(s.hist, s'.hist, o, s.now);
  }

  /** Dead letter d, as h' has it, stands for a message that was due by t according to h. */
  ghost predicate DeadDueBy(h: History, h': History, d: nat, t: int) {
    var o := DeadOriginOf(h', d);
    o in h.origin && FirstOf(h, o) <= t
  }

  lemma OldDeadWasDue(s: State, h': History, d: nat)
    requires Booked(s) && NotEarly(s) && d in s.tables.dead && Remembers(s.hist, h')
    ensures DeadDueBy(s.hist, h', d, s.now)
  {
    assert d in s.hist.deadOrigin && DeadMessageDue(s.hist, d) <= s.now;
  }

  lemma NewDeadWasDue(s: State, h': History, w: nat, d: nat)
    requires Booked(s) && NotEarly(s) && w in s.jobs
    requires d in h'.deadOrigin && h'.deadOrigin[d] == OriginOf(s.hist, s.jobs[w].id)
    ensures DeadDueBy(s.hist, h', d, s.now)
  {
    assert DueBy(s.hist, s.jobs[w].id, s.now);
  }

  lemma DeadWasDue(cfg: Config, s: State, step: Step, d: nat)
    requires Booked(s) && Enabled(cfg, s, step) && NotEarly(s) && d in Next(cfg, s, step).tables.dead
    ensures DeadDueBy(s.hist, Next(cfg, s, step).hist, d, s.now)
  {
    if d in s.tables.dead {
      NextRemembers(cfg, s, step);
      OldDeadWasDue(s, Next(cfg, s, step).hist, d);
    } else {
      DeadOnRecord(cfg, s, step, d);
      NewDeadOrigin(cfg, s, step, d);
      NewDeadWasDue(s, Next(cfg, s, step).hist, step.w, d);
    }
  }

  lemma DeadOnRecord(cfg: Config, s: State, step: Step, d: nat)
    requires Booked(s) && Enabled(cfg, s, step) && d in Next(cfg, s, step).tables.dead && d !in s.tables.dead
    ensures d in Next(cfg, s, step).hist.deadOrigin && d !in s.hist.deadOrigin
  {
  }

  lemma NotEarlyNext(cfg: Config, s: State, step: Step)
    requires Booked(s) && Enabled(cfg, s, step) && NotEarly(s)
    ensures NotEarly(Next(cfg, s, step))
  {
    var s' := Next(cfg, s, step);
    TracedNext(cfg, s, step);
    forall id | id in s'.tables.messages
      ensures DueBy(s'.hist, id, s'.tables.messages[id].availableAt) || DueBy(s'.hist, id, s'.now)
    {
      if id in s.tables.messages {
        OldRowNotEarly(cfg, s, step, id);
      } else {
        NewRowNotEarly(cfg, s, step, id);
      }
    }
    forall w | w in s'.jobs
      ensures DueBy(s'.hist, s'.jobs[w].id, s'.now)
    {
      JobNotEarly(cfg, s, step, w);
    }
    forall d | d in s'.tables.dead
      ensures DeadMessageDue(s'.hist, d) <= s'.now
    {
      DeadNotEarly(cfg, s, step, d);
    }
  }

  lemma NotEarlyStep(r: Run, i: nat)
    requires r.FromStart() && i < |r.steps| && NotEarly(r.states[i])
    ensures NotEarly(r.states[i + 1])
  {
    RunWellFormed(r, i);
    StepHolds(r, i);
    NotEarlyNext(r.cfg, r.states[i], r.steps[i]);
  }

  lemma NotEarlyAtFirst(s: State)
    requires Initial(s)
    ensures NotEarly(s)
  {
  }

  lemma {:induction false} RunNotEarly(r: Run, i: nat)
    requires r.FromStart() && i < |r.states|
    ensures NotEarly(r.states[i])
  {
    if i > 0 {
      RunNotEarly(r, i - 1);
      NotEarlyStep(r, i - 1);
    } else {
      NotEarlyAtFirst(r.states[0]);
    }
  }

  lemma InsertedFirst(s: State, rows: seq<Row>, k: nat)
    requires k < |rows|
    ensures var h := RecordPublish(s.hist, s.tables.nextId, rows);
            s.tables.nextId + k in h.origin && FirstOf(h, s.tables.nextId + k) == rows[k].availableAt
  {
    NumberedAt(s.tables.nextId, Availabilities(rows), k);
    NumberedAt(s.tables.nextId, Selves(s.tables.nextId, |rows|), k);
  }

  /** In s' the row of the k-th message that was published in s, with the clock at the given time, is on record as due. */
  predicate RecordedDue(s: State, m: Outgoing, at: int, k: nat, s': State) {
    && s.tables.nextId + k in s'.hist.origin
    && FirstOf(s'.hist, s.tables.nextId + k) == at + (if m.delay.Some? then m.delay.value else 0)
  }

  lemma PublishDue(cfg: Config, s: State, step: Step, k: nat)
    requires step.Publish? && k < |step.batch| && Enabled(cfg, s, step)
    ensures s.tables.nextId + k in Next(cfg, s, step).hist.origin
    ensures FirstOf(Next(cfg, s, step).hist, s.tables.nextId + k)
            == step.times[k] + (if step.batch[k].delay.Some? then step.batch[k].delay.value else 0)
  {
    InsertedFirst(s, NewRows(step.topic, step.batch, step.times), k);
  }

  lemma PublishRecorded(cfg: Config, s: State, step: Step, s': State, k: nat)
    requires step.Publish? && k < |step.batch|
    requires Enabled(cfg, s, step) && s' == Next(cfg, s, step)
    ensures RecordedDue(s, step.batch[k], step.times[k], k, s')
  {
    PublishDue(cfg, s, step, k);
  }

  lemma StepHolds(r: Run, i: nat)
    requires r.Valid() && i < |r.steps|
    ensures Enabled(r.cfg, r.states[i], r.steps[i]) && r.states[i + 1] == Next(r.cfg, r.states[i], r.steps[i])
  {
    assert r.StepAt(i);
  }

  lemma PublishedFirst(r: Run, i: nat, k: nat)
    requires r.Valid() && i < |r.steps| && r.steps[i].Publish? && k < |r.steps[i].batch|
    ensures k < |r.steps[i].times| && RecordedDue(r.states[i], r.steps[i].batch[k], r.steps[i].times[k], k, r.states[i + 1])
  {
    StepHolds(r, i);
    PublishRecorded(r.cfg, r.states[i], r.steps[i], r.states[i + 1], k);
  }

  lemma FetchedDue(r: Run, j: nat)
    requires r.Valid() && j < |r.steps| && r.steps[j].Fetch? && NotEarly(r.states[j])
    ensures MessageDue(r.states[j].hist, r.steps[j].id) <= r.states[j].now
  {
    assert r.StepAt(j);
  }

  /**
   A message published with a delay is not delivered before that delay has passed since the clock was
   read for it, whatever other workers do, under whatever row: its own, or one that replays its dead letter.
   */
  lemma NoDeliveryBeforeDelay(r: Run, i: nat, j: nat, k: nat)
    requires r.FromStart() && i < j < |r.steps|
    requires r.steps[i].Publish? && k < |r.steps[i].batch|
    requires r.steps[j].Fetch? && OriginOf(r.states[j].hist, r.steps[j].id) == r.states[i].tables.nextId + k
    ensures k < |r.steps[i].times|
    ensures var delay, at := r.steps[i].batch[k].delay, r.steps[i].times[k];
            if delay.Some? then at + delay.value <= r.states[j].now else at <= r.states[j].now
  {
    PublishedFirst(r, i, k);
    SameRowForEver(r, i + 1, j, r.states[i].tables.nextId + k);
    RunNotEarly(r, j);
    FetchedDue(r, j);
  }

  // ---- the whole wait, while leases are kept ----

  /** The row of a worker was available when it was fetched, and before its retry count was read. */
  predicate WasDueFor(row: Row, job: Job, now: int) {
    row.availableAt <= now && (job.Nacking? ==> row.availableAt <= job.since)
  }

  /** The dead letter failed no earlier than all its backoffs after its row first became available. */
  predicate DiedDue(cfg: Config, s: State, d: nat)
    requires d in s.tables.dead
  {
    DatabaseTime(cfg.dialect, DeadFirstOf(s.hist, d) + Total(cfg.dialect, s.tables.dead[d].retryCount)) <= s.tables.dead[d].failedAt
  }

  /** Rows have moved forward by all the backoffs they count, a fetched row was due, and dead letters waited for all of them. */
  ghost predicate Waited(cfg: Config, s: State) {
    && (forall id :: id in s.tables.messages ==>
          FirstOf(s.hist, id) + Total(cfg.dialect, s.tables.messages[id].retryCount) <= s.tables.messages[id].availableAt)
    && (forall w :: w in s.jobs && s.jobs[w].id in s.tables.messages ==>
          WasDueFor(s.tables.messages[s.jobs[w].id], s.jobs[w], s.now))
    && (forall d :: d in s.tables.dead ==> DiedDue(cfg, s, d))
  }

  lemma RowWaited(cfg: Config, s: State, step: Step, id: nat)
    requires Booked(s) && Enabled(cfg, s, step) && Exclusive(s) && Waited(cfg, s)
    requires step.NackWrite? && s.jobs[step.w].count < cfg.maxRetries ==>
               Backoff(cfg, s.jobs[step.w].count) == Intended(cfg.dialect, s.jobs[step.w].count)
    requires id in Next(cfg, s, step).tables.messages
    ensures var s' := Next(cfg, s, step);
            && FirstOf(s'.hist, id) + Total(cfg.dialect, s'.tables.messages[id].retryCount) <= s'.tables.messages[id].availableAt
            && (id in s.tables.messages ==> s.tables.messages[id].availableAt <= s'.tables.messages[id].availableAt)
  {
    if Inserts(step) {
      RowAfterInsertion(cfg, s, step, id);
      assert Total(cfg.dialect, 0) == 0;
    } else {
      RowAfterOther(cfg, s, step, id);
      if step.NackWrite? && s.jobs[step.w].id == id {
        assert HoldsLock(s, s.jobs[step.w]) && WasDueFor(s.tables.messages[id], s.jobs[step.w], s.now);
      }
    }
  }

  lemma JobsOfOthers(cfg: Config, s: State, step: Step, w: nat)
    requires Enabled(cfg, s, step) && w in s.jobs && w in Next(cfg, s, step).jobs
    ensures Next(cfg, s, step).jobs[w] == s.jobs[w]
            || ((step.NackRead? || step.Copy?) && step.w == w
                && (Next(cfg, s, step).jobs[w].Nacking? ==> Next(cfg, s, step).jobs[w].since == s.now))
  {
  }

  lemma HeldRowDue(cfg: Config, s: State, step: Step, w: nat)
    requires Booked(s) && Enabled(cfg, s, step) && Exclusive(s) && Waited(cfg, s)
    requires w in Next(cfg, s, step).jobs && Next(cfg, s, step).jobs[w].id in Next(cfg, s, step).tables.messages
    ensures var s' := Next(cfg, s, step); WasDueFor(s'.tables.messages[s'.jobs[w].id], s'.jobs[w], s'.now)
  {
    var id := Next(cfg, s, step).jobs[w].id;
    JobAfter(cfg, s, step, w);
    NextIsLater(cfg, s, step);
    if Inserts(step) { RowAfterInsertion(cfg, s, step, id); } else { RowAfterOther(cfg, s, step, id); }
    if w in s.jobs {
      JobsOfOthers(cfg, s, step, w);
    }
  }

  lemma DiedWaited(cfg: Config, s: State, step: Step, d: nat)
    requires Booked(s) && Enabled(cfg, s, step) && Waited(cfg, s) && d in Next(cfg, s, step).tables.dead
    ensures DiedDue(cfg, Next(cfg, s, step), d)
  {
    DeadAfter(cfg, s, step, d);
    if d !in s.tables.dead {
      var row := s.tables.messages[s.jobs[step.w].id];
      var due := FirstOf(s.hist, s.jobs[step.w].id) + Total(cfg.dialect, row.retryCount);
      assert WasDueFor(row, s.jobs[step.w], s.now);
      DatabaseTimeGrows(cfg.dialect, due, step.at);
    } else {
      assert DiedDue(cfg, s, d);
    }
  }

  lemma WaitedNext(cfg: Config, s: State, step: Step)
    requires Booked(s) && Enabled(cfg, s, step) && Exclusive(s) && Waited(cfg, s)
    requires step.NackWrite? && s.jobs[step.w].count < cfg.maxRetries ==>
               Backoff(cfg, s.jobs[step.w].count) == Intended(cfg.dialect, s.jobs[step.w].count)
    ensures Waited(cfg, Next(cfg, s, step))
  {
    var s' := Next(cfg, s, step);
    forall id | id in s'.tables.messages
      ensures FirstOf(s'.hist, id) + Total(cfg.dialect, s'.tables.messages[id].retryCount) <= s'.tables.messages[id].availableAt
    {
      RowWaited(cfg, s, step, id);
    }
    forall w | w in s'.jobs && s'.jobs[w].id in s'.tables.messages
      ensures WasDueFor(s'.tables.messages[s'.jobs[w].id], s'.jobs[w], s'.now)
    {
      HeldRowDue(cfg, s, step, w);
    }
    forall d | d in s'.tables.dead
      ensures DiedDue(cfg, s', d)
    {
      DiedWaited(cfg, s, step, d);
    }
  }

  lemma WaitedStep(r: Run, i: nat)
    requires r.FromStart() && r.KeepsLeases() && r.cfg.BackoffFits() && i < |r.steps| && Waited(r.cfg, r.states[i])
    ensures Waited(r.cfg, r.states[i + 1])
  {
    RunWellFormed(r, i);
    LeasesExclude(r, i);
    StepHolds(r, i);
    BackoffFitsExactly(r.cfg);
    WaitedNext(r.cfg, r.states[i], r.steps[i]);
  }

  lemma WaitedAtFirst(cfg: Config, s: State)
    requires Initial(s)
    ensures Waited(cfg, s)
  {
  }

  lemma {:induction false} RunWaited(r: Run, i: nat)
    requires r.FromStart() && r.KeepsLeases() && r.cfg.BackoffFits() && i < |r.states|
    ensures Waited(r.cfg, r.states[i])
  {
    if i > 0 {
      RunWaited(r, i - 1);
      WaitedStep(r, i - 1);
    } else {
      WaitedAtFirst(r.cfg, r.states[0]);
    }
  }

  /** A dead letter failed no earlier than all its backoffs after its row first became available, as far as the column tells. */
  lemma DeadLettersWaited(r: Run, i: nat, d: nat)
    requires r.FromStart() && r.KeepsLeases() && r.cfg.BackoffFits()
    requires i < |r.states| && d in r.states[i].tables.dead
    ensures var s, n := r.states[i], r.cfg.maxRetries;
            match r.cfg.dialect
            case Postgres => DeadFirstOf(s.hist, d) + (Pow2(n) - 1) * SECOND <= s.tables.dead[d].failedAt
            case Sqlite => DatabaseTime(Sqlite, DeadFirstOf(s.hist, d) + n * (n + 1) / 2 * SECOND) <= s.tables.dead[d].failedAt
  {
    RunWaited(r, i);
    LeasesBoundRetries(r, i);
    TotalClosedForm(r.cfg.maxRetries);
    assert DiedDue(r.cfg, r.states[i], d);
  }

  lemma AvailabilityNext(r: Run, i: nat, id: nat)
    requires r.FromStart() && r.KeepsLeases() && r.cfg.BackoffFits() && i < |r.steps|
    requires id in r.states[i].tables.messages && id in r.states[i + 1].tables.messages
    ensures r.states[i].tables.messages[id].availableAt <= r.states[i + 1].tables.messages[id].availableAt
  {
    RunWaited(r, i);
    RunWellFormed(r, i);
    LeasesExclude(r, i);
    assert r.StepAt(i);
    BackoffFitsExactly(r.cfg);
    RowWaited(r.cfg, r.states[i], r.steps[i], id);
  }

  lemma WasThere(r: Run, i: nat, j: nat, id: nat)
    requires r.FromStart() && i < j < |r.states|
    requires id in r.states[i].tables.messages && id in r.states[j].tables.messages
    ensures id in r.states[j - 1].tables.messages
  {
    RunWellFormed(r, i);
    SameRowForEver(r, i, j - 1, id);
    SameRowForEver(r, j - 1, j, id);
  }

  /** While leases are kept a row's available_at never decreases. */
  lemma {:induction false} AvailabilityNeverDecreases(r: Run, i: nat, j: nat, id: nat)
    requires r.FromStart() && r.KeepsLeases() && r.cfg.BackoffFits() && i <= j < |r.states|
    requires id in r.states[i].tables.messages && id in r.states[j].tables.messages
    ensures r.states[i].tables.messages[id].availableAt <= r.states[j].tables.messages[id].availableAt
    decreases j
  {
    if i < j {
      WasThere(r, i, j, id);
      AvailabilityNeverDecreases(r, i, j - 1, id);
      AvailabilityNext(r, j - 1, id);
    }
  }
}
