/**
 The conditions of the queue's guarantees are needed, and its bounds are attained: runs that reach
 the bound, or break the guarantee as soon as the condition is dropped.
 */
module Witnesses {
  import opened Basics
  import opened Tables
  import opened QueueMachine
  import opened Conservation
  import opened Leases
  import opened BackoffBounds
  import Draining
  import Replay

  const MESSAGE := Outgoing("m", [], map[], None)

  /** The only row is row 1, counting c retries, first available at time 0; no dead letter yet. */
  ghost predicate OneRow(s: State, c: nat) {
    var t := s.tables;
    && t.messages.Keys == {1} && t.messages[1].topic == "t" && t.messages[1].retryCount == c
    && t.dead == map[] && t.nextDeadId == 1
    && FirstOf(s.hist, 1) == 0 && OriginOf(s.hist, 1) == 1 && s.hist.born.Keys == {1}
    && s.hist.acked == {} && s.hist.purged == {}
  }

  lemma InsertAlone(t: Tables, rows: seq<Row>)
    requires t.messages == map[] && |rows| == 1
    ensures InsertRows(t, rows) == t.(messages := map[t.nextId := rows[0]], nextId := t.nextId + 1)
  {
    assert FreshIds(t.nextId, 1) == {t.nextId};
  }

  const START := State(0, Tables(map[], map[], 1, 1), map[], EMPTY_HISTORY)

  lemma FirstPublication(rows: seq<Row>)
    requires rows == NewRows("t", [MESSAGE], [0])
    ensures OneRow(AfterPublish(START, rows), 0)
    ensures AfterPublish(START, rows).tables.messages == map[1 := NewRow("t", MESSAGE, 0)]
  {
    InsertAlone(START.tables, rows);
    InsertedFirst(START, rows, 0);
    SelvesAt(1, 1, 0);
    NumberedAt(1, Selves(1, 1), 0);
  }

  lemma Begin(cfg: Config) returns (r: Run)
    requires cfg.Valid()
    ensures r.FromStart() && r.KeepsLeases() && r.MovesSucceed() && r.cfg == cfg
    ensures OneRow(Last(r), 0) && Last(r).jobs == map[] && Last(r).now == 0 && WorkersBelow(r, 0) && Alone(r)
    ensures var row := Last(r).tables.messages[1]; row.availableAt == 0 && row.lockedUntil == None
  {
    r := Run(cfg, [START], []);
    var step := Publish("t", [MESSAGE], [0]);
    ExtendFromStart(r, step);
    r := Extend(r, step);
    FirstPublication(NewRows("t", [MESSAGE], [0]));
  }

  /** Worker 0 alone takes part: it passes over no row, and only retries; nothing is published but at first. */
  ghost predicate Alone(r: Run) {
    forall i :: 0 <= i < |r.steps| ==> AloneStep(r.steps[i]) && (r.steps[i].Publish? ==> i == 0)
  }

  predicate AloneStep(step: Step) {
    match step
    case Tick(_) => true
    case Publish(_, _, _) => true
    case Fetch(w, _, skipped, _, _) => w == 0 && skipped == {}
    case NackRead(_) => true
    case NackWrite(_, _) => true
    case _ => false
  }

  lemma JobsAfterAlone(cfg: Config, s: State, step: Step)
    requires Enabled(cfg, s, step) && AloneStep(step) && s.jobs.Keys <= {0}
    ensures Next(cfg, s, step).jobs.Keys <= {0}
  {
  }

  lemma {:induction false} AloneAt(r: Run, i: nat)
    requires r.FromStart() && Alone(r) && i < |r.states|
    ensures r.states[i].jobs.Keys <= {0}
  {
    if i > 0 {
      AloneAt(r, i - 1);
      assert r.StepAt(i - 1) && AloneStep(r.steps[i - 1]);
      JobsAfterAlone(r.cfg, r.states[i - 1], r.steps[i - 1]);
    }
  }

  lemma AloneMeans(r: Run)
    requires r.FromStart() && Alone(r)
    ensures WorkersBelow(r, 1) && r.MovesSucceed()
  {
    forall i, w | 0 <= i < |r.states| && w in r.states[i].jobs
      ensures w < 1
    {
      AloneAt(r, i);
    }
    forall i | 0 <= i < |r.steps|
      ensures MoveSucceeds(r.states[i], r.steps[i])
    {
      assert AloneStep(r.steps[i]);
    }
  }

  lemma WaitForRow(r: Run, c: nat) returns (r': Run)
    requires r.FromStart() && OneRow(Last(r), c)
    ensures r'.FromStart() && Continues(r, r') && r'.states != []
    ensures Last(r') == Last(r).(now := Max(Last(r).now, ReadyAt(Last(r).tables.messages[1])))
    ensures Alone(r) ==> Alone(r')
    ensures r.KeepsLeases() && Last(r).jobs == map[] ==> r'.KeepsLeases()
    ensures r.MovesSucceed() ==> r'.MovesSucceed()
    ensures forall n: nat :: WorkersBelow(r, n) ==> WorkersBelow(r', n)
  {
    var s := Last(r);
    assert s == r.states[|r.states| - 1];
    var wait: nat := Max(s.now, ReadyAt(s.tables.messages[1])) - s.now;
    ExtendFromStart(r, Tick(wait));
    r' := Extend(r, Tick(wait));
  }

  /** The last step of r' is the fetch of row 1, available at the given time. */
  ghost predicate EndsWithFetch(r': Run, w: nat, availableAt: int) {
    var i := |r'.steps| - 1;
    && 0 <= i < |r'.states| && r'.steps[i].Fetch? && r'.steps[i].w == w && r'.steps[i].topic == "t" && r'.steps[i].id == 1
    && 1 in r'.states[i].tables.messages && r'.states[i].tables.messages[1].availableAt == availableAt
  }

  /** A further worker fetches the row, which is ready. */
  lemma FetchReady(r: Run, w: nat, c: nat) returns (r': Run)
    requires r.FromStart() && OneRow(Last(r), c) && w !in Last(r).jobs
    requires ReadyAt(Last(r).tables.messages[1]) <= Last(r).now
    ensures r'.FromStart() && OneRow(Last(r'), c)
    ensures var s, s' := Last(r), Last(r');
            && s'.now == s.now
            && s'.jobs == s.jobs[w := Holding(1, s'.now + r.cfg.lockTimeout)]
            && s'.tables.messages[1].availableAt == s.tables.messages[1].availableAt
    ensures r.KeepsLeases() ==> r'.KeepsLeases()
    ensures r.MovesSucceed() ==> r'.MovesSucceed()
    ensures forall n: nat :: WorkersBelow(r, n) && w < n ==> WorkersBelow(r', n)
    ensures Continues(r, r') && EndsWithFetch(r', w, Last(r).tables.messages[1].availableAt)
    ensures Alone(r) && w == 0 ==> Alone(r')
  {
    var step := Fetch(w, "t", {}, 1, Last(r).now);
    ExtendFromStart(r, step);
    r' := Extend(r, step);
  }

  /** A further worker waits for the row, however it is locked, and fetches it. */
  lemma FetchRow(r: Run, w: nat, c: nat) returns (r': Run)
    requires r.FromStart() && OneRow(Last(r), c) && w !in Last(r).jobs
    ensures r'.FromStart() && r'.cfg == r.cfg && OneRow(Last(r'), c)
    ensures var s, s' := Last(r), Last(r');
            && s'.now == Max(s.now, ReadyAt(s.tables.messages[1]))
            && s'.jobs == s.jobs[w := Holding(1, s'.now + r.cfg.lockTimeout)]
            && s'.tables.messages[1].availableAt == s.tables.messages[1].availableAt
    ensures r.KeepsLeases() && Last(r).jobs == map[] ==> r'.KeepsLeases()
    ensures r.MovesSucceed() ==> r'.MovesSucceed()
    ensures forall n: nat :: WorkersBelow(r, n) && w < n ==> WorkersBelow(r', n)
    ensures Continues(r, r') && EndsWithFetch(r', w, Last(r).tables.messages[1].availableAt)
    ensures Alone(r) && w == 0 ==> Alone(r')
  {
    var ready := WaitForRow(r, c);
    r' := FetchReady(ready, w, c);
    ContinuesThrough(r, ready, r');
  }

  lemma WorkerStep(r: Run, step: Step) returns (r': Run)
    requires r.FromStart() && Enabled(r.cfg, Last(r), step)
    requires step.NackRead? || step.NackWrite? || step.Copy? || step.DeleteCopied?
    ensures r'.FromStart() && r'.cfg == r.cfg && Last(r') == Next(r.cfg, Last(r), step)
    ensures r.KeepsLeases() ==> r'.KeepsLeases()
    ensures r.MovesSucceed() && MoveSucceeds(Last(r), step) ==> r'.MovesSucceed()
    ensures forall n: nat :: WorkersBelow(r, n) ==> WorkersBelow(r', n)
    ensures Continues(r, r') && (Alone(r) && AloneStep(step) ==> Alone(r'))
  {
    assert Last(r) == r.states[|r.states| - 1];
    ExtendFromStart(r, step);
    r' := Extend(r, step);
  }

  /** Worker 0, which has just fetched the row, nacks it. */
  lemma NackNow(r: Run, c: nat) returns (r': Run)
    requires r.FromStart() && OneRow(Last(r), c) && c < r.cfg.maxRetries
    requires Last(r).jobs == map[0 := Holding(1, Last(r).now + r.cfg.lockTimeout)]
    ensures r'.FromStart() && Continues(r, r') && OneRow(Last(r'), c + 1) && Last(r').jobs == map[]
    ensures Last(r').tables.messages[1].availableAt == Last(r).now + Backoff(r.cfg, c)
    ensures Last(r').tables.messages[1].lockedUntil == None && Last(r').now == Last(r).now
    ensures (r.KeepsLeases() ==> r'.KeepsLeases()) && (Alone(r) ==> Alone(r'))
  {
    r' := WorkerStep(r, NackRead(0));
    r' := WorkerStep(r', NackWrite(0, Last(r').now));
  }

  /** A lone worker fetches the row as soon as it can, and nacks it at once. */
  lemma NackAtOnce(r: Run, c: nat) returns (r': Run)
    requires r.FromStart() && OneRow(Last(r), c) && c < r.cfg.maxRetries && Last(r).jobs == map[]
    ensures r'.FromStart() && r'.cfg == r.cfg && OneRow(Last(r'), c + 1) && Last(r').jobs == map[]
    ensures var s, s', row' := Last(r), Last(r'), Last(r').tables.messages[1];
            && s'.now == Max(s.now, ReadyAt(s.tables.messages[1]))
            && row'.availableAt == s'.now + Backoff(r.cfg, c) && row'.lockedUntil == None
    ensures r.KeepsLeases() ==> r'.KeepsLeases()
    ensures Alone(r) ==> Alone(r')
  {
    r' := FetchRow(r, 0, c);
    r' := NackNow(r', c);
  }

  /** The lone worker's clock and the row's availability after n nacks at once. */
  function EagerTime(cfg: Config, n: nat): int {
    if n == 0 then 0 else EagerTime(cfg, n - 1) + Max(0, Backoff(cfg, n - 1))
  }

  lemma {:induction false} NackTimes(cfg: Config, n: nat) returns (r: Run)
    requires cfg.Valid() && n <= cfg.maxRetries
    ensures r.FromStart() && r.KeepsLeases() && Alone(r) && r.cfg == cfg && OneRow(Last(r), n) && Last(r).jobs == map[]
    ensures var row := Last(r).tables.messages[1];
            && row.lockedUntil == None && Max(Last(r).now, row.availableAt) == EagerTime(cfg, n)
            && (0 < n && 0 <= Backoff(cfg, n - 1) ==> Last(r).now <= row.availableAt)
  {
    if n == 0 {
      r := Begin(cfg);
    } else {
      r := NackTimes(cfg, n - 1);
      r := NackAtOnce(r, n - 1);
    }
  }

  // ---- the backoff bound needs backoffs that fit ----

  lemma {:induction false} EagerTimeWithinTotal(cfg: Config, n: nat)
    ensures EagerTime(cfg, n) <= Total(cfg.dialect, n)
    ensures (exists k: nat :: k < n && Backoff(cfg, k) != Intended(cfg.dialect, k)) ==> EagerTime(cfg, n) < Total(cfg.dialect, n)
  {
    if n > 0 {
      EagerTimeWithinTotal(cfg, n - 1);
      BackoffWithinIntended(cfg, n - 1);
      if k: nat :| k < n && Backoff(cfg, k) != Intended(cfg.dialect, k) {
        assert k == n - 1 || k < n - 1;
      }
    }
  }

  /** Wrapping around never lengthens a backoff. */
  lemma BackoffWithinIntended(cfg: Config, k: nat)
    ensures Backoff(cfg, k) <= Intended(cfg.dialect, k)
  {
    Pow2At33And34();
    if cfg.dialect.Postgres? {
      PostgresBackoffExactIff(cfg, k);
      if k > 33 {
        Pow2Monotone(34, k);
      }
    }
  }

  /** Row 1 was copied at time at, if insertOk, and then deleted. */
  ghost predicate Ended(dialect: Dialect, s: State, insertOk: bool, at: int) {
    && s.tables.messages == map[] && s.hist.born.Keys == {1} && s.hist.acked == {} && s.hist.purged == {}
    && (if insertOk
        then s.tables.dead.Keys == {1} && s.tables.dead[1].failedAt == DatabaseTime(dialect, at) && DeadFirstOf(s.hist, 1) == 0
        else s.tables.dead == map[])
  }

  lemma FinalMove(r: Run) returns (r': Run)
    requires r.FromStart() && OneRow(Last(r), r.cfg.maxRetries) && r.cfg.oneStatement
    requires 0 in Last(r).jobs && Last(r).jobs[0] == Nacking(1, Last(r).jobs[0].lease, r.cfg.maxRetries, Last(r).now)
    ensures r'.FromStart() && r'.cfg == r.cfg && Ended(r.cfg.dialect, Last(r'), true, Last(r).now)
    ensures r.KeepsLeases() ==> r'.KeepsLeases()
    ensures r.MovesSucceed() ==> r'.MovesSucceed()
  {
    r' := WorkerStep(r, NackWrite(0, Last(r).now));
  }

  lemma FinalCopy(r: Run, insertOk: bool) returns (r': Run)
    requires r.FromStart() && OneRow(Last(r), r.cfg.maxRetries) && !r.cfg.oneStatement
    requires 0 in Last(r).jobs && Last(r).jobs[0] == Nacking(1, Last(r).jobs[0].lease, r.cfg.maxRetries, Last(r).now)
    ensures r'.FromStart() && r'.cfg == r.cfg && Ended(r.cfg.dialect, Last(r'), insertOk, Last(r).now)
    ensures r.KeepsLeases() ==> r'.KeepsLeases()
    ensures r.MovesSucceed() && insertOk ==> r'.MovesSucceed()
  {
    r' := WorkerStep(r, Copy(0, insertOk, Last(r).now));
    r' := WorkerStep(r', DeleteCopied(0));
  }

  lemma FinalNack(r: Run, insertOk: bool) returns (r': Run)
    requires r.FromStart() && OneRow(Last(r), r.cfg.maxRetries) && (r.cfg.oneStatement ==> insertOk)
    requires 0 in Last(r).jobs && Last(r).jobs[0].Holding? && Last(r).jobs[0].id == 1
    ensures r'.FromStart() && r'.cfg == r.cfg && Ended(r.cfg.dialect, Last(r'), insertOk, Last(r).now)
    ensures r.KeepsLeases() ==> r'.KeepsLeases()
    ensures r.MovesSucceed() && insertOk ==> r'.MovesSucceed()
  {
    r' := WorkerStep(r, NackRead(0));
    if r.cfg.oneStatement {
      r' := FinalMove(r');
    } else {
      r' := FinalCopy(r', insertOk);
    }
  }

  /** The run of a lone worker that nacks at once, to the end: dead letter 1 fails as early as it can. */
  lemma NackToDeath(cfg: Config, insertOk: bool) returns (r: Run)
    requires cfg.Valid() && (cfg.oneStatement ==> insertOk)
    ensures r.FromStart() && r.KeepsLeases() && r.cfg == cfg && Ended(cfg.dialect, Last(r), insertOk, EagerTime(cfg, cfg.maxRetries))
    ensures insertOk ==> r.MovesSucceed()
  {
    r := NackTimes(cfg, cfg.maxRetries);
    AloneMeans(r);
    r := FetchRow(r, 0, cfg.maxRetries);
    r := FinalNack(r, insertOk);
  }

  /** Dead letter d of state i waited for all the backoffs of a full set of retries, as far as its failed_at tells. */
  ghost predicate WaitedInFull(r: Run, i: nat, d: nat)
    requires i < |r.states| && d in r.states[i].tables.dead
  {
    DatabaseTime(r.cfg.dialect, DeadFirstOf(r.states[i].hist, d) + Total(r.cfg.dialect, r.cfg.maxRetries))
    <= r.states[i].tables.dead[d].failedAt
  }

  lemma LeasedWaitedInFull(r: Run, i: nat, d: nat)
    requires r.FromStart() && r.KeepsLeases() && r.cfg.BackoffFits() && i < |r.states| && d in r.states[i].tables.dead
    ensures WaitedInFull(r, i, d)
  {
    RunWaited(r, i);
    LeasesBoundRetries(r, i);
    assert DiedDue(r.cfg, r.states[i], d);
  }

  lemma DiedTooEarly(r: Run, at: int)
    requires r.FromStart() && r.states != [] && Ended(r.cfg.dialect, Last(r), true, at)
    requires at < Total(r.cfg.dialect, r.cfg.maxRetries)
    ensures 1 in r.states[|r.states| - 1].tables.dead && !WaitedInFull(r, |r.states| - 1, 1)
  {
    BeforeTotal(r.cfg.dialect, r.cfg.maxRetries, at);
  }

  lemma MisfitRun(cfg: Config) returns (r: Run)
    requires cfg.Valid() && !cfg.BackoffFits()
    ensures r.FromStart() && r.KeepsLeases() && r.cfg == cfg && r.states != []
    ensures 1 in r.states[|r.states| - 1].tables.dead && !WaitedInFull(r, |r.states| - 1, 1)
  {
    r := NackToDeath(cfg, true);
    BackoffFitsExactly(cfg);
    EagerTimeWithinTotal(cfg, cfg.maxRetries);
    DiedTooEarly(r, EagerTime(cfg, cfg.maxRetries));
  }

  /** Every dead letter of every run that keeps its leases has waited in full, if and only if the backoffs fit. */
  lemma WaitedInFullIff(cfg: Config)
    requires cfg.Valid()
    ensures cfg.BackoffFits() <==>
            forall r: Run, i: nat, d: nat ::
              r.FromStart() && r.KeepsLeases() && r.cfg == cfg && i < |r.states| && d in r.states[i].tables.dead
              ==> WaitedInFull(r, i, d)
  {
    if cfg.BackoffFits() {
      forall r: Run, i: nat, d: nat |
        r.FromStart() && r.KeepsLeases() && r.cfg == cfg && i < |r.states| && d in r.states[i].tables.dead
        ensures WaitedInFull(r, i, d)
      {
        LeasedWaitedInFull(r, i, d);
      }
    } else {
      var r := MisfitRun(cfg);
    }
  }

  // ---- so does the order of a row's own deadlines ----

  /** The retry count whose backoff is the first not to fit. */
  function FirstMisfit(dialect: Dialect): nat {
    match dialect
    case Postgres => 34
    case Sqlite => 9_223_372_036
  }

  /** The first backoff that does not fit wraps around to a negative one. */
  lemma FirstMisfitIsNegative(cfg: Config)
    ensures Backoff(cfg, FirstMisfit(cfg.dialect)) < 0 <= Backoff(cfg, FirstMisfit(cfg.dialect) - 1)
    ensures cfg.BackoffFits() <==> cfg.maxRetries <= FirstMisfit(cfg.dialect)
  {
    Pow2At33And34();
  }

  /** Between states i and j of r, row id is not made available earlier. */
  ghost predicate NotHastened(r: Run, i: nat, j: nat, id: nat)
    requires i < |r.states| && j < |r.states|
  {
    id in r.states[i].tables.messages && id in r.states[j].tables.messages ==>
      r.states[i].tables.messages[id].availableAt <= r.states[j].tables.messages[id].availableAt
  }

  /** A lone worker whose last retry brings the row forward. */
  lemma HasteningRun(cfg: Config) returns (r: Run, r': Run)
    requires cfg.Valid() && !cfg.BackoffFits()
    ensures r.FromStart() && r'.FromStart() && r'.KeepsLeases() && Continues(r, r') && r'.cfg == cfg && Alone(r')
    ensures 1 in Last(r).tables.messages && 1 in Last(r').tables.messages
    ensures Last(r').tables.messages[1].availableAt < Last(r).tables.messages[1].availableAt
    ensures EndsWithFetch(r, 0, Last(r).tables.messages[1].availableAt)
    ensures OneRow(Last(r'), FirstMisfit(cfg.dialect) + 1) && Last(r').jobs == map[]
  {
    var n := FirstMisfit(cfg.dialect);
    FirstMisfitIsNegative(cfg);
    var before := NackTimes(cfg, n);
    r := FetchRow(before, 0, n);
    r' := NackNow(r, n);
  }

  /** While leases are kept no row is ever made available earlier, if and only if the backoffs fit. */
  lemma AvailabilityNeverDecreasesIff(cfg: Config)
    requires cfg.Valid()
    ensures cfg.BackoffFits() <==>
            forall r: Run, i: nat, j: nat, id: nat ::
              r.FromStart() && r.KeepsLeases() && r.cfg == cfg && i <= j < |r.states| ==> NotHastened(r, i, j, id)
  {
    if cfg.BackoffFits() {
      forall r: Run, i: nat, j: nat, id: nat | r.FromStart() && r.KeepsLeases() && r.cfg == cfg && i <= j < |r.states|
        ensures NotHastened(r, i, j, id)
      {
        if id in r.states[i].tables.messages && id in r.states[j].tables.messages {
          AvailabilityNeverDecreases(r, i, j, id);
        }
      }
    } else {
      var r, r' := HasteningRun(cfg);
      var i, j := |r.states| - 1, |r'.states| - 1;
      assert r'.states[i] == Last(r) && r'.states[j] == Last(r');
      assert !NotHastened(r', i, j, 1);
    }
  }

  // ---- SQLite's move needs its INSERT to succeed ----

  /** If the INSERT of a SQLite move fails, the DELETE still runs: a published, unresolved message is then in neither table. */
  lemma FailedInsertLoses(cfg: Config) returns (r: Run, o: nat)
    requires cfg.Valid() && !cfg.oneStatement
    ensures r.FromStart() && r.KeepsLeases() && r.cfg == cfg
    ensures var s := Last(r); o in s.hist.born && Places(s, o) == 0
  {
    r := NackToDeath(cfg, false);
    o := 1;
    assert RowsOf(Last(r), 1) == {} && DeadRowsOf(Last(r), 1) == {};
  }

  // ---- the retry bound is attained, and leases are needed ----

  /** Workers below n, and only they, are at row 1; those below read have read count c, the others hold it. */
  ghost predicate AllAtRow(s: State, n: nat, read: nat, c: nat) {
    && (forall w: nat :: w in s.jobs <==> w < n)
    && (forall w :: w in s.jobs ==> s.jobs[w].id == 1 && !s.jobs[w].Copied?)
    && (forall w :: w in s.jobs && w < read ==> s.jobs[w].Nacking? && s.jobs[w].count == c && s.jobs[w].since <= s.now)
    && (forall w :: w in s.jobs && read <= w ==> s.jobs[w].Holding?)
  }

  lemma {:induction false} AllFetch(r: Run, n: nat, c: nat) returns (r': Run)
    requires r.FromStart() && OneRow(Last(r), c) && Last(r).jobs == map[] && WorkersBelow(r, 1)
    ensures r'.FromStart() && r'.cfg == r.cfg && OneRow(Last(r'), c) && AllAtRow(Last(r'), n, 0, c) && WorkersBelow(r', Max(1, n))
  {
    r' := r;
    if n > 0 {
      r' := AllFetch(r, n - 1, c);
      assert WorkersBelow(r', n);
      var before := Last(r').jobs;
      r' := FetchRow(r', n - 1, c);
      assert forall w: nat :: w in Last(r').jobs <==> w in before || w == n - 1;
    }
  }

  lemma {:induction false} AllRead(r: Run, n: nat, read: nat, c: nat) returns (r': Run)
    requires r.FromStart() && OneRow(Last(r), c) && AllAtRow(Last(r), n, 0, c) && read <= n && 0 < n && WorkersBelow(r, n)
    ensures r'.FromStart() && r'.cfg == r.cfg && OneRow(Last(r'), c) && AllAtRow(Last(r'), n, read, c) && WorkersBelow(r', n)
    decreases read
  {
    r' := r;
    if read > 0 {
      r' := AllRead(r, n, read - 1, c);
      r' := WorkerStep(r', NackRead(read - 1));
    }
  }

  /** The workers from k on still have to write their retries: the row counts c + k. */
  ghost predicate Writing(s: State, n: nat, k: nat, c: nat) {
    && (forall w: nat :: w in s.jobs <==> k <= w < n)
    && (forall w :: w in s.jobs ==> s.jobs[w].Nacking? && s.jobs[w].id == 1 && s.jobs[w].count == c && s.jobs[w].since <= s.now)
  }

  lemma {:induction false} AllWrite(r: Run, n: nat, k: nat, c: nat) returns (r': Run)
    requires r.FromStart() && OneRow(Last(r), c) && AllAtRow(Last(r), n, n, c) && WorkersBelow(r, n)
    requires k <= n && c < r.cfg.maxRetries
    ensures r'.FromStart() && r'.cfg == r.cfg && OneRow(Last(r'), c + k) && Writing(Last(r'), n, k, c) && WorkersBelow(r', n)
    decreases k
  {
    r' := r;
    if k > 0 {
      r' := AllWrite(r, n, k - 1, c);
      r' := WorkerStep(r', NackWrite(k - 1, Last(r').now));
    }
  }

  lemma {:induction false} SmallSet(xs: set<nat>, n: nat)
    requires forall x: nat :: x in xs ==> x < n
    ensures |xs| <= n
  {
    if n == 0 {
      assert xs == {};
    } else {
      SmallSet(xs - {n - 1}, n - 1);
      assert xs <= (xs - {n - 1}) + {n - 1};
      SubsetSize(xs, (xs - {n - 1}) + {n - 1});
    }
  }

  lemma BelowMeansAtMostNacking(r: Run, n: nat)
    requires WorkersBelow(r, n)
    ensures forall i :: 0 <= i < |r.states| ==> AtMostNacking(r.states[i], n)
  {
    forall i, id: nat | 0 <= i < |r.states|
      ensures |Nackers(r.states[i], id)| <= n
    {
      SmallSet(Nackers(r.states[i], id), n);
    }
  }

  /** Without leases the retry bound is reached: n workers that overlap in nackMessage leave maxRetries + n - 1. */
  lemma RetryBoundAttained(cfg: Config, n: nat) returns (r: Run)
    requires cfg.Valid() && 0 < cfg.maxRetries && 0 < n
    ensures r.FromStart() && r.cfg == cfg
    ensures forall i :: 0 <= i < |r.states| ==> AtMostNacking(r.states[i], n)
    ensures OneRow(Last(r), cfg.maxRetries + n - 1)
  {
    r := NackTimes(cfg, cfg.maxRetries - 1);
    AloneMeans(r);
    r := AllFetch(r, n, cfg.maxRetries - 1);
    r := AllRead(r, n, n, cfg.maxRetries - 1);
    r := AllWrite(r, n, n, cfg.maxRetries - 1);
    BelowMeansAtMostNacking(r, n);
  }

  /** Without leases any number of workers can be at the same row. */
  lemma ExclusionNeedsLeases(cfg: Config, n: nat) returns (r: Run)
    requires cfg.Valid()
    ensures r.FromStart() && r.cfg == cfg
    ensures forall w: nat :: w < n ==> w in Last(r).jobs && Last(r).jobs[w].id == 1
  {
    r := Begin(cfg);
    r := AllFetch(r, n, 0);
  }

  // ---- SQLite's bulk replay can be blocked ----

  /** Nobody works and nothing is pending; n dead letters, all of the topic and with the uuid "m". */
  ghost predicate DeadOnly(r: Run, topic: string, n: nat) {
    && r.states != [] && Tells(r, r.cfg, Last(r)) && Last(r).jobs == map[] && Last(r).tables.messages == map[]
    && Draining.OnlyCalled(Last(r).tables, topic, "m") && |DeadIn(Last(r).tables, topic)| == n
  }

  /** One message is pending beside the dead letters. */
  predicate OneMore(t: Tables, topic: string, n: nat) {
    Draining.OnlyCalled(t, topic, "m") && |PendingIn(t, topic)| == 1 && |DeadIn(t, topic)| == n
  }

  lemma InsertThere(t: Tables, topic: string, rows: seq<Row>, n: nat)
    requires t.messages == map[] && Draining.OnlyCalled(t, topic, "m") && |DeadIn(t, topic)| == n
    requires |rows| == 1 && rows[0].topic == topic && rows[0].uuid == "m"
    ensures OneMore(InsertRows(t, rows), topic, n)
  {
    InsertAlone(t, rows);
    assert PendingIn(InsertRows(t, rows), topic) == {t.nextId};
    assert DeadIn(InsertRows(t, rows), topic) == DeadIn(t, topic);
  }

  lemma PublishThere(r: Run, topic: string, n: nat) returns (r': Run)
    requires DeadOnly(r, topic, n)
    ensures r'.states != [] && r'.cfg == r.cfg && Tells(r', r.cfg, Last(r')) && Last(r').jobs == map[]
    ensures OneMore(Last(r').tables, topic, n)
  {
    var s, step := Last(r), Publish(topic, [MESSAGE], [Last(r).now]);
    TellsNext(r, r.cfg, s, step);
    InsertThere(s.tables, topic, NewRows(topic, [MESSAGE], [s.now]), n);
    r' := Extend(r, step);
  }

  lemma NonePending(t: Tables, topic: string)
    requires Draining.OnlyCalled(t, topic, "m") && PendingIn(t, topic) == {}
    ensures t.messages == map[]
  {
    assert t.messages.Keys == PendingIn(t, topic);
  }

  lemma DrainThere(r: Run, topic: string, n: nat) returns (r': Run)
    requires r.states != [] && Tells(r, r.cfg, Last(r)) && Last(r).jobs == map[]
    requires OneMore(Last(r).tables, topic, n)
    ensures r'.cfg == r.cfg && DeadOnly(r', topic, n + 1)
  {
    var s := Last(r);
    var rounds := Draining.DrainEnds(r.cfg, s, 0, topic);
    Draining.DrainKeepsNames(r.cfg, s, 0, topic, rounds, "m");
    r' := TellsAll(r, r.cfg, s, Draining.DrainSteps(r.cfg, s, 0, topic, rounds));
    NonePending(Last(r').tables, topic);
  }

  lemma TwoOf(ds: set<nat>) returns (d: nat, e: nat)
    requires |ds| == 2
    ensures d != e && d in ds && e in ds
  {
    d :| d in ds;
    assert |ds - {d}| == 1;
    e :| e in ds - {d};
  }

  /**
   Every SQLite configuration and topic: a uuid published, killed, published again and killed again leaves
   two dead letters that cannot be replayed in bulk until one is replayed by itself or they are purged.
   */
  lemma SqliteReplayBlocked(cfg: Config, topic: string) returns (r: Run, d: nat, e: nat)
    requires cfg.Valid() && cfg.dialect.Sqlite?
    ensures r.FromStart() && r.cfg == cfg && r.states != [] && Replay.Twins(Last(r).tables, topic, d, e)
    ensures forall stamp: nat, order: seq<nat>, at: int :: !Enabled(cfg, Last(r), ReplayAll(topic, stamp, order, at))
  {
    r := Run(cfg, [START], []);
    TellsFromStart(cfg, START);
    r := PublishThere(r, topic, 0);
    r := DrainThere(r, topic, 0);
    r := PublishThere(r, topic, 1);
    r := DrainThere(r, topic, 1);
    d, e := TwoOf(DeadIn(Last(r).tables, topic));
    forall stamp: nat, order: seq<nat>, at: int
      ensures !Enabled(cfg, Last(r), ReplayAll(topic, stamp, order, at))
    {
      Replay.TwinsBlock(cfg, Last(r), topic, d, e, stamp, order, at);
    }
  }
}
