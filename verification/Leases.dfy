/**
 What the lease discipline buys: one worker per row, and retry counts that stop at the maximum.
 The bound on retry counts that holds without it is here too.
 */
module Leases {
  import opened Basics
  import opened Tables
  import opened QueueMachine
  import opened Conservation

  // ---- one worker per row ----

  /** Every worker's row is there, locked with that worker's lease, and no other worker's. */
  ghost predicate Exclusive(s: State) {
    && (forall w :: w in s.jobs ==> HoldsLock(s, s.jobs[w]))
    && (forall v, w :: v in s.jobs && w in s.jobs && s.jobs[v].id == s.jobs[w].id ==> v == w)
  }

  predicate HoldsLock(s: State, job: Job) {
    && job.id in s.tables.messages
    && s.tables.messages[job.id].lockedUntil == Some(job.lease)
    && (job.Nacking? ==> s.tables.messages[job.id].retryCount == job.count)
  }

  predicate RowUntouched(s: State, s': State, id: nat) {
    id in s.tables.messages ==> id in s'.tables.messages && s'.tables.messages[id] == s.tables.messages[id]
  }

  lemma ExclusiveWhenJobsStay(s: State, s': State)
    requires Exclusive(s) && s'.jobs == s.jobs
    requires forall w :: w in s.jobs ==> RowUntouched(s, s', s.jobs[w].id)
    ensures Exclusive(s')
  {
  }

  lemma ExclusiveWhenWorkerLeaves(s: State, s': State, w: nat)
    requires Exclusive(s) && w in s.jobs && s'.jobs == s.jobs - {w}
    requires forall v :: v in s.jobs && v != w ==> RowUntouched(s, s', s.jobs[v].id)
    ensures Exclusive(s')
  {
    forall v | v in s'.jobs
      ensures HoldsLock(s', s'.jobs[v])
    {
      assert HoldsLock(s, s.jobs[v]);
    }
  }

  lemma ExclusiveWhenWorkerAdvances(s: State, s': State, w: nat, job: Job)
    requires Exclusive(s) && s'.jobs == s.jobs[w := job] && HoldsLock(s', job)
    requires w in s.jobs ==> s.jobs[w].id == job.id
    requires w !in s.jobs ==> forall v :: v in s.jobs ==> s.jobs[v].id != job.id
    requires forall v :: v in s.jobs && v != w ==> RowUntouched(s, s', s.jobs[v].id)
    ensures Exclusive(s')
  {
    forall v | v in s'.jobs
      ensures HoldsLock(s', s'.jobs[v])
    {
      assert v != w ==> HoldsLock(s, s.jobs[v]);
    }
  }

  lemma LeasedRowsSurviveCleanup(s: State, at: int)
    requires InTime(s) && Exclusive(s) && at <= s.now
    ensures forall w :: w in s.jobs ==> RowUntouched(s, s.(tables := CleanupLocks(s.tables, at)), s.jobs[w].id)
  {
  }

  lemma ExclusiveWorkerStep(cfg: Config, s: State, step: Step)
    requires Enabled(cfg, s, step) && ByWorker(s, step) && Exclusive(s)
    ensures Exclusive(Next(cfg, s, step))
  {
    var s', w := Next(cfg, s, step), step.w;
    assert forall v :: v in s.jobs && v != w ==> RowUntouched(s, s', s.jobs[v].id);
    assert HoldsLock(s, s.jobs[w]);
    if step.NackRead? || step.Copy? {
      ExclusiveWhenWorkerAdvances(s, s', w, s'.jobs[w]);
    } else {
      ExclusiveWhenWorkerLeaves(s, s', w);
    }
  }

  lemma ExclusiveFetch(cfg: Config, s: State, step: Step)
    requires Enabled(cfg, s, step) && step.Fetch? && InTime(s) && Exclusive(s)
    ensures Exclusive(Next(cfg, s, step))
  {
    var s' := Next(cfg, s, step);
    assert forall v :: v in s.jobs ==> HoldsLock(s, s.jobs[v]) && s.jobs[v].id != step.id;
    ExclusiveWhenWorkerAdvances(s, s', step.w, s'.jobs[step.w]);
  }

  lemma ExclusiveNext(cfg: Config, s: State, step: Step)
    requires Booked(s) && Enabled(cfg, s, step) && InTime(s) && Exclusive(s)
    ensures Exclusive(Next(cfg, s, step))
  {
    if ByWorker(s, step) {
      ExclusiveWorkerStep(cfg, s, step);
    } else {
      var s' := Next(cfg, s, step);
      match step
      case Fetch(_, _, _, _, _) => ExclusiveFetch(cfg, s, step);
      case Cleanup(at) =>
        LeasedRowsSurviveCleanup(s, at);
        ExclusiveWhenJobsStay(s, s');
      case _ => ExclusiveWhenJobsStay(s, s');
    }
  }

  lemma ExclusiveStep(r: Run, i: nat)
    requires r.FromStart() && r.KeepsLeases() && i < |r.steps| && Exclusive(r.states[i])
    ensures Exclusive(r.states[i + 1])
  {
    RunWellFormed(r, i);
    assert r.StepAt(i) && InTime(r.states[i]);
    ExclusiveNext(r.cfg, r.states[i], r.steps[i]);
  }

  /** While leases are kept no row is ever held by two workers. */
  lemma {:induction false} LeasesExclude(r: Run, i: nat)
    requires r.FromStart() && r.KeepsLeases() && i < |r.states|
    ensures Exclusive(r.states[i])
  {
    if i > 0 {
      LeasesExclude(r, i - 1);
      ExclusiveStep(r, i - 1);
    }
  }

  lemma ExclusiveHidesAlone(s: State)
    requires Exclusive(s)
    ensures HiddenAlone(s)
  {
  }

  lemma SqliteLedger(r: Run, i: nat)
    requires r.FromStart() && r.MovesSucceed() && r.KeepsLeases() && i < |r.states|
    ensures AllAccounted(LedgerOf(r.states[i])) && SinglePlace(LedgerOf(r.states[i]))
  {
    forall j: nat | j < |r.states|
      ensures HiddenAlone(r.states[j])
    {
      LeasesExclude(r, j);
      ExclusiveHidesAlone(r.states[j]);
    }
    MovesThatSucceedDropNothing(r);
    RunAccounts(r, i);
    RunSinglePlace(r, i);
  }

  /** SQLite with leases kept and moves that succeed: like PostgreSQL, every message is in exactly one place. */
  lemma SqliteConserves(r: Run, i: nat)
    requires r.FromStart() && r.MovesSucceed() && r.KeepsLeases() && i < |r.states|
    ensures forall o :: o in r.states[i].hist.born ==> Kept(r.states[i], o)
    ensures forall topic :: TopicBalanced(r.states[i], topic)
  {
    SqliteLedger(r, i);
    forall o | o in r.states[i].hist.born
      ensures Kept(r.states[i], o)
    {
      LedgerKeeps(r.states[i], o);
    }
    forall topic
      ensures TopicBalanced(r.states[i], topic)
    {
      LedgerBalancesTopic(r.states[i], topic);
    }
  }

  // ---- the retry bound ----

  /** The workers whose nack of row id has read its retry count. */
  function Nackers(s: State, id: nat): set<nat> {
    set w | w in s.jobs && s.jobs[w].Nacking? && s.jobs[w].id == id
  }

  /** Those among them that will count one more retry. */
  function Retriers(cfg: Config, s: State, id: nat): set<nat> {
    set w | w in s.jobs && s.jobs[w].Nacking? && s.jobs[w].id == id && s.jobs[w].count < cfg.maxRetries
  }

  /** Retries counted and still to be counted for a row stay within the bound. */
  ghost predicate RowsBounded(cfg: Config, s: State, workers: nat) {
    forall id :: id in s.tables.messages ==>
      s.tables.messages[id].retryCount + |Retriers(cfg, s, id)| <= cfg.maxRetries + workers - 1
  }

  /** No nack has read more than its row counts now. */
  ghost predicate CountsLag(s: State) {
    forall w :: w in s.jobs && s.jobs[w].Nacking? && s.jobs[w].id in s.tables.messages ==>
      s.jobs[w].count <= s.tables.messages[s.jobs[w].id].retryCount
  }

  predicate DeadBounded(cfg: Config, s: State, workers: nat) {
    forall d :: d in s.tables.dead ==> cfg.maxRetries <= s.tables.dead[d].retryCount <= cfg.maxRetries + workers - 1
  }

  /** At most this many workers are inside nackMessage for the same row. */
  ghost predicate AtMostNacking(s: State, workers: nat) {
    forall id :: |Nackers(s, id)| <= workers
  }

  lemma SubsetSize(a: set<nat>, b: set<nat>)
    requires a <= b
    ensures |a| <= |b|
  {
    assert b == a + (b - a);
  }

  lemma CountsLagNext(cfg: Config, s: State, step: Step)
    requires Booked(s) && Enabled(cfg, s, step) && CountsLag(s)
    ensures CountsLag(Next(cfg, s, step))
  {
  }

  lemma DeadBoundedNext(cfg: Config, s: State, step: Step, workers: nat)
    requires Enabled(cfg, s, step) && CountsLag(s) && DeadBounded(cfg, s, workers) && RowsBounded(cfg, s, workers)
    ensures DeadBounded(cfg, Next(cfg, s, step), workers)
  {
  }

  /** Only a nack's UPDATE raises a retry count, and rows are inserted with none. */
  lemma RetryCountNext(cfg: Config, s: State, step: Step, id: nat)
    requires Booked(s) && Enabled(cfg, s, step) && id in Next(cfg, s, step).tables.messages
    requires step.NackWrite? ==> s.jobs[step.w].id != id
    ensures var row := Next(cfg, s, step).tables.messages[id];
            row.retryCount == if id in s.tables.messages then s.tables.messages[id].retryCount else 0
    ensures id !in s.tables.messages ==> s.tables.nextId <= id
  {
    if Inserts(step) {
      RowAfterInsertion(cfg, s, step, id);
    } else {
      RowAfterOther(cfg, s, step, id);
    }
  }

  lemma FreshRowsHaveNoRetriers(cfg: Config, s: State, id: nat)
    requires Booked(s) && s.tables.nextId <= id
    ensures Retriers(cfg, s, id) == {}
  {
  }

  /** Only a nack's SELECT adds a retrier. */
  lemma RetriersNext(cfg: Config, s: State, step: Step, id: nat)
    requires Enabled(cfg, s, step) && (step.NackRead? ==> s.jobs[step.w].id != id)
    ensures Retriers(cfg, Next(cfg, s, step), id) <= Retriers(cfg, s, id)
  {
  }

  lemma RowsBoundedNext(cfg: Config, s: State, step: Step, workers: nat, id: nat)
    requires Booked(s) && Enabled(cfg, s, step) && RowsBounded(cfg, s, workers) && CountsLag(s) && 1 <= workers
    requires AtMostNacking(Next(cfg, s, step), workers)
    requires id in Next(cfg, s, step).tables.messages
    ensures var s' := Next(cfg, s, step);
            s'.tables.messages[id].retryCount + |Retriers(cfg, s', id)| <= cfg.maxRetries + workers - 1
  {
    var s' := Next(cfg, s, step);
    if step.NackRead? && s.jobs[step.w].id == id {
      SubsetSize(Retriers(cfg, s', id), Nackers(s', id));
      if s'.tables.messages[id].retryCount >= cfg.maxRetries {
        assert Retriers(cfg, s', id) <= Retriers(cfg, s, id);
        SubsetSize(Retriers(cfg, s', id), Retriers(cfg, s, id));
      }
    } else if step.NackWrite? && s.jobs[step.w].id == id {
      assert step.w in Retriers(cfg, s, id);
      assert Retriers(cfg, s', id) == Retriers(cfg, s, id) - {step.w};
    } else {
      RetryCountNext(cfg, s, step, id);
      RetriersNext(cfg, s, step, id);
      if id !in s.tables.messages {
        FreshRowsHaveNoRetriers(cfg, s, id);
      }
      SubsetSize(Retriers(cfg, s', id), Retriers(cfg, s, id));
    }
  }

  /**
   The retry bound, in every interleaving: with at most this many workers nacking the same row at
   once, no row counts more than maxRetries + workers - 1, and whatever a nack sends to the dead
   letter queue counts at least maxRetries.
   */
  lemma {:induction false} RetriesBounded(r: Run, i: nat, workers: nat)
    requires r.FromStart() && i < |r.states| && 1 <= workers
    requires forall j :: 0 <= j <= i ==> AtMostNacking(r.states[j], workers)
    ensures RowsBounded(r.cfg, r.states[i], workers) && CountsLag(r.states[i]) && DeadBounded(r.cfg, r.states[i], workers)
  {
    if i > 0 {
      var s, step, s' := r.states[i - 1], r.steps[i - 1], r.states[i];
      RetriesBounded(r, i - 1, workers);
      RunWellFormed(r, i - 1);
      assert r.StepAt(i - 1);
      CountsLagNext(r.cfg, s, step);
      DeadBoundedNext(r.cfg, s, step, workers);
      forall id | id in s'.tables.messages
        ensures s'.tables.messages[id].retryCount + |Retriers(r.cfg, s', id)| <= r.cfg.maxRetries + workers - 1
      {
        RowsBoundedNext(r.cfg, s, step, workers, id);
      }
    }
  }

  lemma NoRetryAtZero(cfg: Config, s: State, step: Step, id: nat)
    requires cfg.maxRetries == 0 && Booked(s) && Enabled(cfg, s, step) && id in Next(cfg, s, step).tables.messages
    requires id in s.tables.messages ==> s.tables.messages[id].retryCount == 0
    ensures Next(cfg, s, step).tables.messages[id].retryCount == 0
  {
    if Inserts(step) {
      RowAfterInsertion(cfg, s, step, id);
    } else {
      RowAfterOther(cfg, s, step, id);
    }
  }

  ghost predicate Untried(s: State) {
    forall id :: id in s.tables.messages ==> s.tables.messages[id].retryCount == 0
  }

  lemma UntriedNext(cfg: Config, s: State, step: Step)
    requires cfg.maxRetries == 0 && Booked(s) && Enabled(cfg, s, step) && Untried(s)
    ensures Untried(Next(cfg, s, step))
  {
    forall id | id in Next(cfg, s, step).tables.messages
      ensures Next(cfg, s, step).tables.messages[id].retryCount == 0
    {
      NoRetryAtZero(cfg, s, step, id);
    }
  }

  /** With no retries allowed, none is ever counted, whatever the number of workers. */
  lemma {:induction false} NoRetriesAtZero(r: Run, i: nat)
    requires r.FromStart() && r.cfg.maxRetries == 0 && i < |r.states|
    ensures Untried(r.states[i])
  {
    if i > 0 {
      NoRetriesAtZero(r, i - 1);
      RunWellFormed(r, i - 1);
      assert r.StepAt(i - 1);
      UntriedNext(r.cfg, r.states[i - 1], r.steps[i - 1]);
    }
  }

  lemma ExclusiveNacksAlone(s: State)
    requires Exclusive(s)
    ensures AtMostNacking(s, 1)
  {
    forall id
      ensures |Nackers(s, id)| <= 1
    {
      AtMostOne(Nackers(s, id));
    }
  }

  /** While leases are kept no retry count passes maxRetries, and every dead letter carries exactly maxRetries. */
  lemma LeasesBoundRetries(r: Run, i: nat)
    requires r.FromStart() && r.KeepsLeases() && i < |r.states|
    ensures forall id :: id in r.states[i].tables.messages ==> r.states[i].tables.messages[id].retryCount <= r.cfg.maxRetries
    ensures forall d :: d in r.states[i].tables.dead ==> r.states[i].tables.dead[d].retryCount == r.cfg.maxRetries
  {
    forall j: nat | j <= i
      ensures AtMostNacking(r.states[j], 1)
    {
      LeasesExclude(r, j);
      ExclusiveNacksAlone(r.states[j]);
    }
    RetriesBounded(r, i, 1);
  }
}
