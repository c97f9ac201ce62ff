/**
 SQLite moves a dead row in two statements, an INSERT and a DELETE. While leases are kept and both
 succeed, no observer that overlooks the rows about to be deleted can tell it from a transport
 that moves rows in one statement, as PostgreSQL does.
 */
module SqliteRefinement {
  import opened Tables
  import opened QueueMachine
  import opened Conservation
  import opened Leases

  function OneStatement(cfg: Config): Config {
    cfg.(oneStatement := true)
  }

  function UnfinishedJobs(jobs: map<nat, Job>): map<nat, Job> {
    map w | w in jobs && !jobs[w].Copied? :: jobs[w]
  }

  /** The state as if every copied row were already deleted. */
  function Hide(s: State): State {
    s.(tables := s.tables.(messages := s.tables.messages - HiddenIds(s.jobs)), jobs := UnfinishedJobs(s.jobs))
  }

  /** What a SQLite statement counts as: the INSERT is the whole move, or its failure. */
  function Abstract(step: Step): Step {
    match step
    case Copy(w, ok, at) => if ok then NackWrite(w, at) else Abandon(w)
    case _ => step
  }

  /** Once its INSERT is done, a worker does nothing more that can be seen. */
  predicate Invisible(s: State, step: Step) {
    step.DeleteCopied? || (step.Abandon? && step.w in s.jobs && s.jobs[step.w].Copied?)
  }

  lemma WithoutPlus<T>(m: map<nat, T>, n: map<nat, T>, hidden: set<nat>)
    requires forall k :: k in n ==> k !in hidden
    ensures (m + n) - hidden == (m - hidden) + n
  {
  }

  lemma HiddenBelow(s: State)
    requires Booked(s)
    ensures forall id :: id in HiddenIds(s.jobs) ==> id < s.tables.nextId
  {
  }

  lemma HideInsertRows(t: Tables, hidden: set<nat>, rows: seq<Row>)
    requires forall id :: id in hidden ==> id < t.nextId
    ensures var t' := InsertRows(t, rows);
            t'.(messages := t'.messages - hidden) == InsertRows(t.(messages := t.messages - hidden), rows)
  {
    WithoutPlus(t.messages, Numbered(t.nextId, rows), hidden);
  }

  lemma HideInsert(s: State, ds: set<nat>, order: seq<nat>, rows: seq<Row>)
    requires Booked(s)
    ensures Hide(AfterPublish(s, rows)) == AfterPublish(Hide(s), rows)
    ensures |order| == |rows| ==> Hide(AfterReplay(s, ds, order, rows)) == AfterReplay(Hide(s), ds, order, rows)
  {
    HiddenBelow(s);
    HideInsertRows(s.tables, HiddenIds(s.jobs), rows);
    HideInsertRows(s.tables.(dead := s.tables.dead - ds), HiddenIds(s.jobs), rows);
  }

  lemma HideWorkerLeaves(s: State, w: nat)
    requires w in s.jobs && !s.jobs[w].Copied?
    ensures HiddenIds(s.jobs - {w}) == HiddenIds(s.jobs)
    ensures UnfinishedJobs(s.jobs - {w}) == UnfinishedJobs(s.jobs) - {w}
  {
    HiddenWithout(s.jobs, w);
  }

  lemma HideWorkerEnters(s: State, w: nat, job: Job)
    requires (w in s.jobs ==> !s.jobs[w].Copied?) && !job.Copied?
    ensures HiddenIds(s.jobs[w := job]) == HiddenIds(s.jobs)
    ensures UnfinishedJobs(s.jobs[w := job]) == UnfinishedJobs(s.jobs)[w := job]
  {
    HiddenWith(s.jobs, w, job);
  }

  lemma HiddenRowsLocked(s: State, id: nat)
    requires Exclusive(s) && InTime(s) && id in HiddenIds(s.jobs)
    ensures id in s.tables.messages && s.tables.messages[id].lockedUntil.Some? && s.now <= s.tables.messages[id].lockedUntil.value
  {
    var w :| w in s.jobs && s.jobs[w].Hides() && s.jobs[w].id == id;
    assert HoldsLock(s, s.jobs[w]);
  }

  lemma HideLock(t: Tables, hidden: set<nat>, id: nat, until: int)
    requires id !in hidden
    ensures LockRow(t, id, until).messages - hidden == LockRow(t.(messages := t.messages - hidden), id, until).messages
  {
  }

  lemma StillNext(ms: map<nat, Row>, hidden: set<nat>, topic: string, now: int, skipped: set<nat>, id: nat)
    requires IsNext(ms, topic, now, skipped, id) && id !in hidden
    ensures IsNext(ms - hidden, topic, now, skipped, id)
  {
  }

  lemma HideFetch(cfg: Config, s: State, step: Step)
    requires Booked(s) && Exclusive(s) && InTime(s) && Enabled(cfg, s, step) && step.Fetch?
    ensures Enabled(OneStatement(cfg), Hide(s), step)
    ensures Hide(Next(cfg, s, step)) == Next(OneStatement(cfg), Hide(s), step)
  {
    if step.id in HiddenIds(s.jobs) {
      HiddenRowsLocked(s, step.id);
    }
    StillNext(s.tables.messages, HiddenIds(s.jobs), step.topic, step.at, step.skipped, step.id);
    FetchShows(cfg, s, step);
  }

  lemma FetchShows(cfg: Config, s: State, step: Step)
    requires step.Fetch? && Enabled(cfg, s, step) && Enabled(OneStatement(cfg), Hide(s), step)
    requires step.id !in HiddenIds(s.jobs)
    ensures Hide(Next(cfg, s, step)) == Next(OneStatement(cfg), Hide(s), step)
  {
    HideWorkerEnters(s, step.w, Holding(step.id, step.at + cfg.lockTimeout));
    HideLock(s.tables, HiddenIds(s.jobs), step.id, step.at + cfg.lockTimeout);
  }

  lemma HideWorker(cfg: Config, s: State, step: Step)
    requires Exclusive(s) && Enabled(cfg, s, step) && ByWorker(s, step)
    requires !s.jobs[step.w].Copied? && !step.Copy?
    ensures Enabled(OneStatement(cfg), Hide(s), step)
    ensures Hide(Next(cfg, s, step)) == Next(OneStatement(cfg), Hide(s), step)
  {
    var w, id, hidden := step.w, s.jobs[step.w].id, HiddenIds(s.jobs);
    assert HoldsLock(s, s.jobs[w]);
    assert id !in hidden by { ExclusiveHidesAlone(s); }
    var s', a' := Next(cfg, s, step), Next(OneStatement(cfg), Hide(s), step);
    if step.NackRead? {
      HideWorkerEnters(s, w, s'.jobs[w]);
    } else {
      HideWorkerLeaves(s, w);
      assert s'.tables.messages - hidden == a'.tables.messages;
    }
  }

  lemma HideCopy(cfg: Config, s: State, step: Step)
    requires Exclusive(s) && Enabled(cfg, s, step) && step.Copy?
    ensures Enabled(OneStatement(cfg), Hide(s), Abstract(step))
    ensures Hide(Next(cfg, s, step)) == Next(OneStatement(cfg), Hide(s), Abstract(step))
  {
    var w, job := step.w, s.jobs[step.w];
    var copied := Copied(job.id, job.lease, step.ok);
    assert HoldsLock(s, job);
    assert job.id !in HiddenIds(s.jobs) by { ExclusiveHidesAlone(s); }
    HiddenWith(s.jobs, w, copied);
    assert UnfinishedJobs(s.jobs[w := copied]) == UnfinishedJobs(s.jobs) - {w};
    var hidden := HiddenIds(s.jobs);
    assert s.tables.messages - (hidden + {job.id}) == (s.tables.messages - hidden) - {job.id};
  }

  lemma HideDelete(cfg: Config, s: State, w: nat)
    requires Exclusive(s) && Enabled(cfg, s, DeleteCopied(w)) && s.jobs[w].made
    ensures Hide(Next(cfg, s, DeleteCopied(w))) == Hide(s)
  {
    var id := s.jobs[w].id;
    HiddenWithout(s.jobs, w);
    assert UnfinishedJobs(s.jobs - {w}) == UnfinishedJobs(s.jobs);
    assert id in HiddenIds(s.jobs);
    assert (s.tables.messages - {id}) - HiddenIds(s.jobs - {w}) == s.tables.messages - HiddenIds(s.jobs);
  }

  lemma HideGivingUp(s: State, w: nat)
    requires w in s.jobs && s.jobs[w].Copied? && !s.jobs[w].made
    ensures Hide(s.(jobs := s.jobs - {w})) == Hide(s)
  {
    HiddenWithout(s.jobs, w);
    assert UnfinishedJobs(s.jobs - {w}) == UnfinishedJobs(s.jobs);
  }

  lemma HideCleanup(s: State, at: int)
    ensures Hide(s.(tables := CleanupLocks(s.tables, at))) == Hide(s).(tables := CleanupLocks(Hide(s).tables, at))
  {
    assert CleanupLocks(s.tables, at).messages - HiddenIds(s.jobs) == CleanupLocks(Hide(s).tables, at).messages;
  }

  /** Every SQLite step is the corresponding step of the one-statement transport, or nothing it can see. */
  lemma SqliteStepRefines(cfg: Config, s: State, step: Step)
    requires Booked(s) && Exclusive(s) && InTime(s) && Enabled(cfg, s, step) && MoveSucceeds(s, step)
    ensures if Invisible(s, step) then Hide(Next(cfg, s, step)) == Hide(s)
            else Enabled(OneStatement(cfg), Hide(s), Abstract(step))
                 && Hide(Next(cfg, s, step)) == Next(OneStatement(cfg), Hide(s), Abstract(step))
  {
    var t := s.tables;
    if ByWorker(s, step) && !step.Copy? && !Invisible(s, step) {
      HideWorker(cfg, s, step);
    } else {
      match step
      case Fetch(_, _, _, _, _) => HideFetch(cfg, s, step);
      case Copy(_, _, _) => HideCopy(cfg, s, step);
      case DeleteCopied(w) => HideDelete(cfg, s, w);
      case Abandon(w) => HideGivingUp(s, w);
      case Cleanup(at) => HideCleanup(s, at);
      case Publish(topic, batch, times) => HideInsert(s, {}, [], NewRows(topic, batch, times));
      case ReplayOne(d, stamp, at) => HideInsert(s, {d}, [d], [ReplayedOne(cfg, t, d, stamp, at)]);
      case ReplayAll(topic, stamp, order, at) =>
        HideInsert(s, DeadIn(t, topic), order, ReplayedAll(cfg, t, stamp, order, at));
      case _ =>
    }
  }

  lemma HideInTime(s: State)
    requires InTime(s)
    ensures InTime(Hide(s))
  {
  }

  /** Each state of r shows as a state of a, in order, and nothing of a is left out: at says which. */
  ghost predicate Shows(r: Run, i: nat, a: Run, at: seq<nat>)
    requires i < |r.states|
  {
    && |at| == i + 1 && at[0] == 0 && at[i] == |a.states| - 1
    && (forall k :: 0 <= k < i ==> at[k] <= at[k + 1] <= at[k] + 1)
    && (forall k :: 0 <= k <= i ==> at[k] < |a.states| && a.states[at[k]] == Hide(r.states[k]))
  }

  lemma ShowsMore(r: Run, i: nat, a: Run, at: seq<nat>, a': Run)
    requires 0 < i < |r.states| && Shows(r, i - 1, a, at)
    requires a' == a || (|a'.states| == |a.states| + 1 && a'.states[..|a.states|] == a.states)
    requires a'.states != [] && Last(a') == Hide(r.states[i])
    ensures Shows(r, i, a', at + [|a'.states| - 1])
  {
    forall k | 0 <= k <= i
      ensures var at' := at + [|a'.states| - 1];
              at'[k] < |a'.states| && a'.states[at'[k]] == Hide(r.states[k])
    {
      if k < i {
        assert a'.states[at[k]] == a.states[at[k]];
      }
    }
  }

  lemma ShownStep(r: Run, i: nat, a: Run) returns (a': Run)
    requires r.FromStart() && r.KeepsLeases() && r.MovesSucceed() && 0 < i < |r.states|
    requires a.FromStart() && a.KeepsLeases() && a.cfg == OneStatement(r.cfg) && Last(a) == Hide(r.states[i - 1])
    ensures a'.FromStart() && a'.KeepsLeases() && a'.cfg == a.cfg && Last(a') == Hide(r.states[i])
    ensures a' == a || (|a'.states| == |a.states| + 1 && a'.states[..|a.states|] == a.states)
  {
    var before, step := r.states[i - 1], r.steps[i - 1];
    RunWellFormed(r, i - 1);
    LeasesExclude(r, i - 1);
    assert r.StepAt(i - 1) && InTime(before) && InTime(r.states[i]) && MoveSucceeds(before, step);
    SqliteStepRefines(r.cfg, before, step);
    HideInTime(r.states[i]);
    a' := a;
    if !Invisible(before, step) {
      ExtendFromStart(a, Abstract(step));
      a' := Extend(a, Abstract(step));
    }
  }

  /**
   Every SQLite run with leases kept and moves that succeed is, once the rows about to be deleted are
   overlooked, a run with one-statement moves that sometimes stands still.
   */
  lemma {:induction false} SqliteRefinesOneStatement(r: Run, i: nat) returns (a: Run, at: seq<nat>)
    requires r.FromStart() && r.KeepsLeases() && r.MovesSucceed() && i < |r.states|
    ensures a.FromStart() && a.KeepsLeases() && a.cfg == OneStatement(r.cfg) && Shows(r, i, a, at)
  {
    if i == 0 {
      assert Hide(r.states[0]) == r.states[0];
      a, at := Run(OneStatement(r.cfg), [r.states[0]], []), [0];
    } else {
      a, at := SqliteRefinesOneStatement(r, i - 1);
      var a' := ShownStep(r, i, a);
      ShowsMore(r, i, a, at, a');
      a, at := a', at + [|a'.states| - 1];
    }
  }
}
