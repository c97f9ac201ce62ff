/**
 Dead letters wait for all their backoffs in every interleaving, whether leases are kept or not and
 however old the clock readings in the statements are, if and only if the backoffs fit 64 bits and a
 lock outlasts all of them together.
 */
module LeaseTiming {
  import opened Basics
  import opened Tables
  import opened QueueMachine
  import opened Leases
  import opened BackoffBounds
  import opened Witnesses

  /** A lock outlasts all the backoffs of a message. */
  predicate LongLocks(cfg: Config) {
    Total(cfg.dialect, cfg.maxRetries) <= cfg.lockTimeout + 1
  }

  // ---- a row that nobody can have fetched behind a worker's back ----

  /** The first lock on the row may have expired. */
  predicate Old(cfg: Config, s: State, id: nat) {
    FirstOf(s.hist, id) + cfg.lockTimeout < s.now
  }

  /** The row has moved forward by all the backoffs it counts, and its lock, if any, is still good. */
  predicate OnSchedule(cfg: Config, s: State, id: nat)
    requires id in s.tables.messages
  {
    var row, first := s.tables.messages[id], FirstOf(s.hist, id);
    && first + Total(cfg.dialect, row.retryCount) <= row.availableAt
    && (row.lockedUntil.Some? ==> first + cfg.lockTimeout <= row.lockedUntil.value)
  }

  /** The workers at the row, one at most, hold its lock and fetched it when it was due. */
  ghost predicate HeldByOne(s: State, id: nat)
    requires id in s.tables.messages
  {
    && (forall w :: w in s.jobs && s.jobs[w].id == id ==>
          HoldsLock(s, s.jobs[w]) && WasDueFor(s.tables.messages[id], s.jobs[w], s.now))
    && (forall v, w :: v in s.jobs && w in s.jobs && s.jobs[v].id == id && s.jobs[w].id == id ==> v == w)
  }

  ghost predicate Undisturbed(cfg: Config, s: State, id: nat)
    requires id in s.tables.messages
  {
    Old(cfg, s, id) || (OnSchedule(cfg, s, id) && HeldByOne(s, id))
  }

  /** A nack that has read the maximum read it after all the backoffs. */
  predicate ReadInTime(cfg: Config, s: State, w: nat)
    requires w in s.jobs
  {
    s.jobs[w].Nacking? && cfg.maxRetries <= s.jobs[w].count ==>
      FirstOf(s.hist, s.jobs[w].id) + Total(cfg.dialect, cfg.maxRetries) <= s.jobs[w].since
  }

  /** The dead letter failed no earlier than all the backoffs of a full set of retries. */
  predicate DiedInTime(cfg: Config, s: State, d: nat)
    requires d in s.tables.dead
  {
    DatabaseTime(cfg.dialect, DeadFirstOf(s.hist, d) + Total(cfg.dialect, cfg.maxRetries)) <= s.tables.dead[d].failedAt
  }

  ghost predicate AllInTime(cfg: Config, s: State) {
    && (forall id :: id in s.tables.messages ==> Undisturbed(cfg, s, id))
    && (forall w :: w in s.jobs ==> ReadInTime(cfg, s, w))
    && (forall d :: d in s.tables.dead ==> DiedInTime(cfg, s, d))
  }

  lemma {:induction false} TotalGrows(dialect: Dialect, m: nat, n: nat)
    requires m <= n
    ensures Total(dialect, m) <= Total(dialect, n)
    decreases n
  {
    if m < n {
      TotalGrows(dialect, m, n - 1);
    }
  }

  // ---- what a step does to a row that is not old yet ----

  /** The schedule is kept: a lock is put on a row that was due, and a retry waits for its backoff. */
  lemma OnScheduleNext(cfg: Config, s: State, step: Step, id: nat)
    requires cfg.BackoffFits() && Booked(s) && Enabled(cfg, s, step) && id in s.tables.messages && !Inserts(step)
    requires OnSchedule(cfg, s, id) && HeldByOne(s, id) && id in Next(cfg, s, step).tables.messages
    ensures OnSchedule(cfg, Next(cfg, s, step), id)
  {
    RowAfterOther(cfg, s, step, id);
    if step.NackWrite? && s.jobs[step.w].id == id {
      BackoffFitsExactly(cfg);
      assert HoldsLock(s, s.jobs[step.w]) && WasDueFor(s.tables.messages[id], s.jobs[step.w], s.now);
    }
  }

  lemma StillOnSchedule(cfg: Config, s: State, step: Step, id: nat)
    requires Booked(s) && Enabled(cfg, s, step) && id in s.tables.messages && Inserts(step)
    requires OnSchedule(cfg, s, id) && HeldByOne(s, id) && id in Next(cfg, s, step).tables.messages
    ensures OnSchedule(cfg, Next(cfg, s, step), id) && HeldByOne(Next(cfg, s, step), id)
  {
    RowAfterInsertion(cfg, s, step, id);
  }

  /** A lock that is still good keeps everybody else out, and no cleanup clears it. */
  lemma FetchedOnlyIfFree(cfg: Config, s: State, step: Step, id: nat)
    requires Enabled(cfg, s, step) && id in s.tables.messages
    requires !Old(cfg, s, id) && OnSchedule(cfg, s, id) && HeldByOne(s, id)
    ensures step.Fetch? && step.id == id ==> forall w :: w in s.jobs ==> s.jobs[w].id != id
    ensures step.Cleanup? ==> CleanupLocks(s.tables, step.at).messages[id] == s.tables.messages[id]
  {
    forall w | w in s.jobs && s.jobs[w].id == id
      ensures s.tables.messages[id].lockedUntil == Some(s.jobs[w].lease)
    {
      assert HoldsLock(s, s.jobs[w]);
    }
  }

  lemma HeldAfter(cfg: Config, s: State, step: Step, id: nat, w: nat)
    requires Booked(s) && Enabled(cfg, s, step) && id in s.tables.messages && !Inserts(step)
    requires !Old(cfg, s, id) && OnSchedule(cfg, s, id) && HeldByOne(s, id) && id in Next(cfg, s, step).tables.messages
    requires w in Next(cfg, s, step).jobs && Next(cfg, s, step).jobs[w].id == id
    ensures var s' := Next(cfg, s, step); HoldsLock(s', s'.jobs[w]) && WasDueFor(s'.tables.messages[id], s'.jobs[w], s'.now)
  {
    FetchedOnlyIfFree(cfg, s, step, id);
    JobAfter(cfg, s, step, w);
    if w in s.jobs {
      assert HoldsLock(s, s.jobs[w]) && WasDueFor(s.tables.messages[id], s.jobs[w], s.now);
      StillHeld(cfg, s, step, id, w);
    }
  }

  lemma StillHeld(cfg: Config, s: State, step: Step, id: nat, w: nat)
    requires Booked(s) && Enabled(cfg, s, step) && id in s.tables.messages && !Inserts(step)
    requires HeldByOne(s, id) && id in Next(cfg, s, step).tables.messages
    requires w in s.jobs && w in Next(cfg, s, step).jobs && s.jobs[w].id == id
    requires step.Fetch? ==> step.id != id
    requires step.Cleanup? ==> CleanupLocks(s.tables, step.at).messages[id] == s.tables.messages[id]
    requires HoldsLock(s, s.jobs[w]) && WasDueFor(s.tables.messages[id], s.jobs[w], s.now)
    ensures var s' := Next(cfg, s, step); HoldsLock(s', s'.jobs[w]) && WasDueFor(s'.tables.messages[id], s'.jobs[w], s'.now)
  {
  }

  lemma HeldByOneNext(cfg: Config, s: State, step: Step, id: nat)
    requires Booked(s) && Enabled(cfg, s, step) && id in s.tables.messages && !Inserts(step)
    requires !Old(cfg, s, id) && OnSchedule(cfg, s, id) && HeldByOne(s, id) && id in Next(cfg, s, step).tables.messages
    ensures HeldByOne(Next(cfg, s, step), id)
  {
    var s' := Next(cfg, s, step);
    FetchedOnlyIfFree(cfg, s, step, id);
    forall w | w in s'.jobs && s'.jobs[w].id == id
      ensures HoldsLock(s', s'.jobs[w]) && WasDueFor(s'.tables.messages[id], s'.jobs[w], s'.now)
    {
      HeldAfter(cfg, s, step, id, w);
    }
    forall v, w | v in s'.jobs && w in s'.jobs && s'.jobs[v].id == id && s'.jobs[w].id == id
      ensures v == w
    {
      JobAfter(cfg, s, step, v);
      JobAfter(cfg, s, step, w);
    }
  }

  lemma FreshRow(cfg: Config, s: State, step: Step, id: nat)
    requires Booked(s) && Enabled(cfg, s, step) && id !in s.tables.messages && id in Next(cfg, s, step).tables.messages
    ensures OnSchedule(cfg, Next(cfg, s, step), id) && HeldByOne(Next(cfg, s, step), id)
  {
    if Inserts(step) {
      RowAfterInsertion(cfg, s, step, id);
      assert Total(cfg.dialect, 0) == 0;
    } else {
      OnlyInsertionsAddRows(cfg, s, step);
    }
  }

  lemma OldStaysOld(cfg: Config, s: State, step: Step, id: nat)
    requires Booked(s) && Enabled(cfg, s, step) && id in s.hist.origin && Old(cfg, s, id)
    ensures Old(cfg, Next(cfg, s, step), id)
  {
    NextRemembers(cfg, s, step);
    NextIsLater(cfg, s, step);
  }

  lemma UndisturbedNext(cfg: Config, s: State, step: Step, id: nat)
    requires cfg.BackoffFits() && Booked(s) && Enabled(cfg, s, step) && AllInTime(cfg, s)
    requires id in Next(cfg, s, step).tables.messages
    ensures Undisturbed(cfg, Next(cfg, s, step), id)
  {
    if id !in s.tables.messages {
      FreshRow(cfg, s, step, id);
    } else if Old(cfg, s, id) {
      OldStaysOld(cfg, s, step, id);
    } else {
      assert Undisturbed(cfg, s, id);
      if Inserts(step) {
        StillOnSchedule(cfg, s, step, id);
      } else {
        OnScheduleNext(cfg, s, step, id);
        HeldByOneNext(cfg, s, step, id);
      }
    }
  }

  /** Whoever reads the maximum now finds the row old, or on schedule. */
  lemma ReadsInTime(cfg: Config, s: State, w: nat)
    requires LongLocks(cfg) && AllInTime(cfg, s) && w in s.jobs && s.jobs[w].id in s.tables.messages
    requires cfg.maxRetries <= s.tables.messages[s.jobs[w].id].retryCount
    ensures FirstOf(s.hist, s.jobs[w].id) + Total(cfg.dialect, cfg.maxRetries) <= s.now
  {
    var id := s.jobs[w].id;
    assert Undisturbed(cfg, s, id);
    if !Old(cfg, s, id) {
      assert WasDueFor(s.tables.messages[id], s.jobs[w], s.now);
      TotalGrows(cfg.dialect, cfg.maxRetries, s.tables.messages[id].retryCount);
    }
  }

  lemma ReadInTimeNext(cfg: Config, s: State, step: Step, w: nat)
    requires LongLocks(cfg) && Booked(s) && Enabled(cfg, s, step) && AllInTime(cfg, s) && w in Next(cfg, s, step).jobs
    ensures ReadInTime(cfg, Next(cfg, s, step), w)
  {
    JobAfter(cfg, s, step, w);
    if w in s.jobs {
      NextRemembers(cfg, s, step);
      JobsOfOthers(cfg, s, step, w);
      assert ReadInTime(cfg, s, w);
      if step.NackRead? && step.w == w && cfg.maxRetries <= Next(cfg, s, step).jobs[w].count {
        ReadsInTime(cfg, s, w);
      }
    }
  }

  lemma DiedInTimeNext(cfg: Config, s: State, step: Step, d: nat)
    requires Booked(s) && Enabled(cfg, s, step) && AllInTime(cfg, s) && d in Next(cfg, s, step).tables.dead
    ensures DiedInTime(cfg, Next(cfg, s, step), d)
  {
    DeadAfter(cfg, s, step, d);
    if d in s.tables.dead {
      assert DiedInTime(cfg, s, d);
    } else {
      assert ReadInTime(cfg, s, step.w);
      DatabaseTimeGrows(cfg.dialect, FirstOf(s.hist, s.jobs[step.w].id) + Total(cfg.dialect, cfg.maxRetries), step.at);
    }
  }

  lemma AllInTimeNext(cfg: Config, s: State, step: Step)
    requires cfg.BackoffFits() && LongLocks(cfg) && Booked(s) && Enabled(cfg, s, step) && AllInTime(cfg, s)
    ensures AllInTime(cfg, Next(cfg, s, step))
  {
    var s' := Next(cfg, s, step);
    forall id | id in s'.tables.messages
      ensures Undisturbed(cfg, s', id)
    {
      UndisturbedNext(cfg, s, step, id);
    }
    forall w | w in s'.jobs
      ensures ReadInTime(cfg, s', w)
    {
      ReadInTimeNext(cfg, s, step, w);
    }
    forall d | d in s'.tables.dead
      ensures DiedInTime(cfg, s', d)
    {
      DiedInTimeNext(cfg, s, step, d);
    }
  }

  lemma {:induction false} RunAllInTime(r: Run, i: nat)
    requires r.FromStart() && r.cfg.BackoffFits() && LongLocks(r.cfg) && i < |r.states|
    ensures AllInTime(r.cfg, r.states[i])
  {
    if i > 0 {
      RunAllInTime(r, i - 1);
      RunWellFormed(r, i - 1);
      StepHolds(r, i - 1);
      AllInTimeNext(r.cfg, r.states[i - 1], r.steps[i - 1]);
    }
  }

  /** Every dead letter has waited for all the backoffs, as far as its failed_at tells. */
  lemma RunDiedInTime(r: Run, i: nat)
    requires r.FromStart() && r.cfg.BackoffFits() && LongLocks(r.cfg) && i < |r.states|
    ensures var s := r.states[i];
            forall d :: d in s.tables.dead ==>
              DatabaseTime(r.cfg.dialect, DeadFirstOf(s.hist, d) + Total(r.cfg.dialect, r.cfg.maxRetries)) <= s.tables.dead[d].failedAt
  {
    RunAllInTime(r, i);
    forall d | d in r.states[i].tables.dead
      ensures DiedInTime(r.cfg, r.states[i], d)
    {
    }
  }

  // ---- an early death when a lock can expire before ----

  /** Workers below n, and only they, hold row 1, which counts c; the clock shows one lock timeout and a bit. */
  ghost predicate Crowd(cfg: Config, s: State, n: nat, c: nat) {
    && OneRow(s, c) && s.now == cfg.lockTimeout + 1
    && (forall w: nat :: w in s.jobs <==> w < n)
    && (forall w :: w in s.jobs ==> s.jobs[w].Holding? && s.jobs[w].id == 1)
  }

  /** The row's first lock: put on at time 0, now expired. */
  predicate FirstLock(cfg: Config, s: State) {
    1 in s.tables.messages && s.tables.messages[1].availableAt == 0 && s.tables.messages[1].lockedUntil == Some(cfg.lockTimeout)
  }

  lemma OneStep(r: Run, step: Step) returns (r': Run)
    requires r.FromStart() && Enabled(r.cfg, Last(r), step)
    ensures r'.FromStart() && r'.cfg == r.cfg && r'.states != [] && Last(r') == Next(r.cfg, Last(r), step)
  {
    ExtendFromStart(r, step);
    r' := Extend(r, step);
  }

  lemma CrowdOfOne(cfg: Config) returns (r: Run)
    requires cfg.Valid()
    ensures r.FromStart() && r.cfg == cfg && Crowd(cfg, Last(r), 1, 0) && FirstLock(cfg, Last(r))
  {
    r := Begin(cfg);
    r := OneStep(r, Fetch(0, "t", {}, 1, 0));
    r := OneStep(r, Tick(cfg.lockTimeout + 1));
  }

  /** Its reading of the clock a good one, worker n gets the row, and gives it back: unlocked, and due since time 0. */
  lemma InAndOut(r: Run, n: nat) returns (r': Run)
    requires r.FromStart() && Crowd(r.cfg, Last(r), n, 0) && FirstLock(r.cfg, Last(r))
    ensures r'.FromStart() && r'.cfg == r.cfg && Crowd(r.cfg, Last(r'), n, 0)
    ensures Last(r').tables.messages[1].availableAt == 0 && Last(r').tables.messages[1].lockedUntil == None
  {
    r' := OneStep(r, Fetch(n, "t", {}, 1, Last(r).now));
    r' := OneStep(r', Unlock(n));
  }

  /** Then, with one as old as the first worker's, it gets it again, under a lock that has already expired. */
  lemma BackAgain(r: Run, n: nat) returns (r': Run)
    requires r.FromStart() && r.cfg.Valid() && Crowd(r.cfg, Last(r), n, 0)
    requires Last(r).tables.messages[1].availableAt == 0 && Last(r).tables.messages[1].lockedUntil == None
    ensures r'.FromStart() && r'.cfg == r.cfg && Crowd(r.cfg, Last(r'), n + 1, 0) && FirstLock(r.cfg, Last(r'))
  {
    r' := OneStep(r, Fetch(n, "t", {}, 1, 0));
  }

  /** In this way any number of workers get in. */
  lemma {:induction false} CrowdGathers(cfg: Config, n: nat) returns (r: Run)
    requires cfg.Valid() && 0 < n
    ensures r.FromStart() && r.cfg == cfg && Crowd(cfg, Last(r), n, 0)
    ensures FirstLock(cfg, Last(r))
  {
    if n == 1 {
      r := CrowdOfOne(cfg);
    } else {
      r := CrowdGathers(cfg, n - 1);
      r := InAndOut(r, n - 1);
      r := BackAgain(r, n - 1);
    }
  }

  lemma LastNacks(r: Run, n: nat, c: nat) returns (r': Run)
    requires r.FromStart() && Crowd(r.cfg, Last(r), n + 1, c) && c < r.cfg.maxRetries
    ensures r'.FromStart() && r'.cfg == r.cfg && Crowd(r.cfg, Last(r'), n, c + 1)
  {
    r' := OneStep(r, NackRead(n));
    r' := OneStep(r', NackWrite(n, Last(r').now));
  }

  /** All but worker 0 nack, one after the other. */
  lemma {:induction false} CrowdNacks(r: Run, n: nat, c: nat) returns (r': Run)
    requires r.FromStart() && 0 < n && Crowd(r.cfg, Last(r), n, c) && c + n - 1 <= r.cfg.maxRetries
    ensures r'.FromStart() && r'.cfg == r.cfg && Crowd(r.cfg, Last(r'), 1, c + n - 1)
    decreases n
  {
    r' := r;
    if n > 1 {
      r' := LastNacks(r, n - 1, c);
      r' := CrowdNacks(r', n - 1, c + 1);
    }
  }

  /** One expired lock is all it takes: as many workers as there are retries, and one more, all at once. */
  lemma EarlyDeath(cfg: Config) returns (r: Run)
    requires cfg.Valid() && !LongLocks(cfg)
    ensures r.FromStart() && r.cfg == cfg && |r.states| > 0
    ensures 1 in r.states[|r.states| - 1].tables.dead && !WaitedInFull(r, |r.states| - 1, 1)
  {
    r := CrowdGathers(cfg, cfg.maxRetries + 1);
    r := CrowdNacks(r, cfg.maxRetries + 1, 0);
    r := FinalNack(r, true);
    DiedTooEarly(r, cfg.lockTimeout + 1);
  }

  /**
   Every dead letter of every run, whether it keeps its leases or not, has waited for all the backoffs
   if and only if the backoffs fit and a lock outlasts all of them.
   */
  lemma WaitedInFullAnywayIff(cfg: Config)
    requires cfg.Valid()
    ensures cfg.BackoffFits() && LongLocks(cfg) <==>
            forall r: Run, i: nat, d: nat ::
              r.FromStart() && r.cfg == cfg && i < |r.states| && d in r.states[i].tables.dead ==> WaitedInFull(r, i, d)
  {
    if cfg.BackoffFits() && LongLocks(cfg) {
      forall r: Run, i: nat, d: nat | r.FromStart() && r.cfg == cfg && i < |r.states| && d in r.states[i].tables.dead
        ensures WaitedInFull(r, i, d)
      {
        RunDiedInTime(r, i);
      }
    } else if !LongLocks(cfg) {
      var r := EarlyDeath(cfg);
    } else {
      var r := MisfitRun(cfg);
    }
  }

  /** With its fixed lock timeout, SQLite's locks are long enough up to 7 retries. */
  lemma SqliteLocksAreLongIff(maxRetries: int)
    ensures var cfg := SqliteConfig(maxRetries); LongLocks(cfg) <==> cfg.maxRetries <= 7
  {
    var n := SqliteConfig(maxRetries).maxRetries;
    TotalClosedForm(7);
    TotalClosedForm(8);
    if n <= 7 {
      TotalGrows(Sqlite, n, 7);
    } else {
      TotalGrows(Sqlite, 8, n);
    }
  }

  /** With the default lock timeout, PostgreSQL's are up to 4. */
  lemma PostgresLocksAreLongIff(maxRetries: int)
    ensures var cfg := PostgresConfig(maxRetries, 0); LongLocks(cfg) <==> cfg.maxRetries <= 4
  {
    var n := PostgresConfig(maxRetries, 0).maxRetries;
    TotalClosedForm(4);
    TotalClosedForm(5);
    assert Pow2(4) == 16 && Pow2(5) == 32;
    if n <= 4 {
      TotalGrows(Postgres, n, 4);
    } else {
      TotalGrows(Postgres, 5, n);
    }
  }
}
