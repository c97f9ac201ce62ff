/**
 The PostgreSQL transport, statement by statement. Every method is proved to take exactly the
 steps of the queue machine, whatever other workers execute between two of its statements.
 Whether a statement fails is an input; so are the statements of other workers.
 */
module PostgresTransport {
  import opened Basics
  import opened Tables
  import opened QueueMachine
  import opened Statements
  import opened Conservation
  import opened Leases
  import opened BackoffBounds
  import opened LeaseTiming
  import Replay

  /** Others' statements can run between a nack's SELECT and its write, and the clock is read among them, at the given time. */
  ghost predicate CanNack(cfg: Config, s: State, w: nat, others: seq<Step>, at: int)
    requires w in s.jobs
  {
    Others(cfg, AfterNackRead(s, w), w, others) && s.now <= at <= RunTo(cfg, AfterNackRead(s, w), others).now
  }

  /** A nack whose statements may fail, with others' statements between its SELECT and its write. */
  function AfterNack(cfg: Config, s: State, w: nat, readWorks: bool, others: seq<Step>, at: int, writeWorks: bool): State
    requires cfg.oneStatement && w in s.jobs && s.jobs[w].Holding? && CanNack(cfg, s, w, others, at)
  {
    if !readWorks || s.jobs[w].id !in s.tables.messages then Next(cfg, s, Abandon(w))
    else
      OthersLeaveAlone(cfg, AfterNackRead(s, w), w, others);
      var s' := RunTo(cfg, Next(cfg, s, NackRead(w)), others);
      Next(cfg, s', if writeWorks then NackWrite(w, at) else Abandon(w))
  }

  function AfterResult(
      cfg: Config, s: State, w: nat, signal: Signal, works: bool, others: seq<Step>, at: int, writeWorks: bool): State
    requires cfg.oneStatement && w in s.jobs && s.jobs[w].Holding? && CanNack(cfg, s, w, others, at)
  {
    match signal
    case Acked => Next(cfg, s, if works then Ack(w) else Abandon(w))
    case Nacked => AfterNack(cfg, s, w, works, others, at, writeWorks)
    case Cancelled => Next(cfg, s, Abandon(w))
    case Closing => Next(cfg, s, if works then Unlock(w) else Abandon(w))
  }

  lemma UndisturbedNack(cfg: Config, s: State, w: nat, at: int)
    requires cfg.oneStatement && w in s.jobs && s.jobs[w].Holding? && s.jobs[w].id in s.tables.messages
    requires CanNack(cfg, s, w, [], at)
    ensures Settled(cfg, s.tables, AfterNack(cfg, s, w, true, [], at, true).tables, s.jobs[w].id, at)
  {
    NackWriteDoes(cfg, AfterNackRead(s, w), w, at);
  }

  /**
   What a verdict does to the tables: an ack removes the row, a closing transport unlocks it, a cancelled
   context leaves it locked, and a nack that nobody disturbs retries or buries it.
   */
  lemma ResultDoes(
      cfg: Config, s: State, w: nat, signal: Signal, works: bool, others: seq<Step>, at: int, writeWorks: bool)
    requires cfg.oneStatement && w in s.jobs && s.jobs[w].Holding? && CanNack(cfg, s, w, others, at)
    ensures var id, t, t' := s.jobs[w].id, s.tables, AfterResult(cfg, s, w, signal, works, others, at, writeWorks).tables;
            && (signal.Cancelled? || !works ==> t' == t)
            && (signal.Acked? && works ==> Removed(t, t', id))
            && (signal.Closing? && works ==> Unlocked(t, t', id))
            && (signal.Nacked? && works && others == [] && id in t.messages ==>
                  if writeWorks then Settled(cfg, t, t', id, at) else t' == t)
  {
    if signal.Nacked? && works && others == [] && s.jobs[w].id in s.tables.messages && writeWorks {
      UndisturbedNack(cfg, s, w, at);
    }
  }

  /** Others' statements can run while the handler works, and then during a nack. */
  ghost predicate CanHandle(cfg: Config, s: State, w: nat, during: seq<Step>, others: seq<Step>, writtenAt: int) {
    && Others(cfg, s, w, during)
    && w in RunTo(cfg, s, during).jobs
    && CanNack(cfg, RunTo(cfg, s, during), w, others, writtenAt)
  }

  /** A delivery: the handler works, others' statements run, and the verdict is carried out. */
  function AfterDelivery(
      cfg: Config, s: State, w: nat, during: seq<Step>, signal: Signal, works: bool, others: seq<Step>, writtenAt: int,
      writeWorks: bool): State
    requires cfg.oneStatement && w in s.jobs && s.jobs[w].Holding? && CanHandle(cfg, s, w, during, others, writtenAt)
  {
    OthersLeaveAlone(cfg, s, w, during);
    AfterResult(cfg, RunTo(cfg, s, during), w, signal, works, others, writtenAt, writeWorks)
  }

  class Transport {
    const cfg: Config

    // The database.
    var messages: map<nat, Row>
    var dead: map<nat, DeadRow>
    var nextId: nat
    var nextDeadId: nat

    var now: int
    var closed: bool

    // Where the workers are and what has happened: kept for the proofs, read by no statement.
    var jobs: map<nat, Job>
    var hist: History
    ghost var run: Run

    function View(): State
      reads this
    {
      State(now, Tables(messages, dead, nextId, nextDeadId), jobs, hist)
    }

    /** The object is where a run of the queue machine has taken it. */
    ghost predicate Valid()
      reads this
    {
      Tells(run, cfg, View()) && cfg.oneStatement && cfg.dialect.Postgres?
    }

    constructor (maxRetries: int, lockTimeout: int, now: int)
      ensures Valid() && Initial(View()) && !closed && cfg.dialect == Postgres && cfg.oneStatement
      ensures cfg.maxRetries == if maxRetries <= 0 then 3 else maxRetries
      ensures cfg.lockTimeout == if lockTimeout <= 0 then 30_000_000_000 else lockTimeout
    {
      cfg := PostgresConfig(maxRetries, lockTimeout);
      messages, dead, nextId, nextDeadId := map[], map[], 1, 1;
      this.now := now;
      closed := false;
      jobs, hist := map[], EMPTY_HISTORY;
      run := Run(cfg, [State(now, Tables(map[], map[], 1, 1), map[], EMPTY_HISTORY)], []);
      new;
      TellsFromStart(cfg, View());
    }

    /** Other workers' statements run, and time passes. */
    method Interfere(others: seq<Step>)
      requires Valid() && CanRun(cfg, View(), others)
      modifies this
      ensures View() == RunTo(cfg, old(View()), others)
      ensures Valid() && Continues(old(run), run) && closed == old(closed)
    {
      run := TellsAll(run, cfg, View(), others);
      var s := RunTo(cfg, View(), others);
      now, jobs, hist := s.now, s.jobs, s.hist;
      messages, dead, nextId, nextDeadId := s.tables.messages, s.tables.dead, s.tables.nextId, s.tables.nextDeadId;
    }

    /** All messages of the batch are published, in one transaction, or none is; times is what the clock showed for each. */
    method Publish(topic: string, batch: seq<Outgoing>, times: seq<int>, fault: Fault) returns (ok: bool)
      requires Valid() && ReadBy(batch, times, now)
      modifies this
      ensures ok <==> !old(closed) && !Fails(fault, |batch|) && CanInsert(old(messages), NewRows(topic, batch, times))
      ensures ok ==> View() == Next(cfg, old(View()), Step.Publish(topic, batch, times))
      ensures ok ==> nextId == old(nextId) + |batch| && HasBatch(messages, old(nextId), topic, batch, times)
      ensures !ok ==> View() == old(View())
      ensures Valid() && Continues(old(run), run) && closed == old(closed)
    {
      if closed {
        return false;
      }
      var tx;
      ok, tx := InsertBatch(messages, nextId, topic, batch, times, fault);
      if ok {
        ghost var step := Step.Publish(topic, batch, times);
        ghost var after := Next(cfg, View(), step);
        TellsNext(run, cfg, View(), step);
        run := Extend(run, step);
        hist := RecordPublish(hist, nextId, NewRows(topic, batch, times));
        messages, nextId := tx, nextId + |batch|;
        assert View() == after;
      }
    }

    /** Locks the topic's next available row and returns it, unless the statement fails or there is none. */
    method FetchAndLockMessage(w: nat, topic: string, skipped: set<nat>, at: int, works: bool) 
      returns (found: Option<nat>, uuid: string, msg: Content)
      requires Valid() && w !in jobs && at <= now
      modifies this
      ensures Valid() && Continues(old(run), run) && closed == old(closed)
      ensures found.Some? ==>
                && old(IsNext(messages, topic, at, skipped, found.value))
                && (var row := old(messages)[found.value];
                    && row.topic == topic && row.availableAt <= at && (row.lockedUntil.None? || row.lockedUntil.value < at)
                    && messages == old(messages)[found.value := row.(lockedUntil := Some(at + cfg.lockTimeout))])
                && View() == Next(cfg, old(View()), Fetch(w, topic, skipped, found.value, at))
                && uuid == old(messages)[found.value].uuid && msg == ContentOf(old(messages)[found.value])
      ensures found.None? ==>
                && View() == old(View())
                && (works ==> forall id :: id in messages && id !in skipped && messages[id].topic == topic
                                           && (messages[id].lockedUntil.None? || messages[id].lockedUntil.value < at)
                                           ==> at < messages[id].availableAt)
      ensures !works ==> found.None?
    {
      found, uuid, msg := None, "", Content("", [], map[]);
      if works {
        found := SelectNext(messages, topic, at, skipped);
      }
      if found.Some? {
        var id, lockUntil := found.value, at + cfg.lockTimeout;
        ghost var step := Fetch(w, topic, skipped, id, at);
        ghost var after := Next(cfg, View(), step);
        TellsNext(run, cfg, View(), step);
        run := Extend(run, step);
        uuid, msg := messages[id].uuid, ContentOf(messages[id]);
        messages := messages[id := messages[id].(lockedUntil := Some(lockUntil))];
        jobs := jobs[w := Holding(id, lockUntil)];
        assert View() == after;
      }
    }

    /** DELETE ... WHERE id: resolves the delivery of worker w. */
    method AckMessage(w: nat, id: nat, works: bool)
      requires Valid() && w in jobs && jobs[w].Holding? && jobs[w].id == id
      modifies this
      ensures View() == Next(cfg, old(View()), if works then Ack(w) else Abandon(w))
      ensures messages == (if works then old(messages) - {id} else old(messages)) && dead == old(dead)
      ensures Valid() && Continues(old(run), run) && closed == old(closed)
    {
      ghost var step := if works then Ack(w) else Abandon(w);
      ghost var after := Next(cfg, View(), step);
      TellsNext(run, cfg, View(), step);
      run := Extend(run, step);
      if works {
        hist := RecordAck(hist, Tables(messages, dead, nextId, nextDeadId), id);
        messages := messages - {id};
      }
      jobs := jobs - {w};
      assert View() == after;
    }

    /** UPDATE ... SET locked_until = NULL WHERE id. */
    method UnlockMessage(w: nat, id: nat, works: bool)
      requires Valid() && w in jobs && jobs[w].Holding? && jobs[w].id == id
      modifies this
      ensures View() == Next(cfg, old(View()), if works then Unlock(w) else Abandon(w))
      ensures dead == old(dead)
      ensures messages == if works && id in old(messages)
                          then old(messages)[id := old(messages)[id].(lockedUntil := None)] else old(messages)
      ensures Valid() && Continues(old(run), run) && closed == old(closed)
    {
      ghost var step := if works then Unlock(w) else Abandon(w);
      ghost var after := Next(cfg, View(), step);
      TellsNext(run, cfg, View(), step);
      run := Extend(run, step);
      if works && id in messages {
        messages := messages[id := messages[id].(lockedUntil := None)];
      }
      jobs := jobs - {w};
      assert View() == after;
    }

    /** SELECT retry_count ... WHERE id; the worker is done if that fails or the row is gone. */
    method ReadRetryCount(w: nat, id: nat, works: bool) returns (retryCount: Option<nat>)
      requires Valid() && w in jobs && jobs[w].Holding? && jobs[w].id == id
      modifies this
      ensures View() == Next(cfg, old(View()), if works then NackRead(w) else Abandon(w))
      ensures retryCount == if works && id in old(messages) then Some(old(messages)[id].retryCount) else None
      ensures messages == old(messages) && dead == old(dead)
      ensures Valid() && Continues(old(run), run) && closed == old(closed)
    {
      ghost var step := if works then NackRead(w) else Abandon(w);
      ghost var after := Next(cfg, View(), step);
      TellsNext(run, cfg, View(), step);
      run := Extend(run, step);
      if works && id in messages {
        retryCount := Some(messages[id].retryCount);
        jobs := jobs[w := Nacking(id, jobs[w].lease, messages[id].retryCount, now)];
      } else {
        retryCount := None;
        jobs := jobs - {w};
      }
      assert View() == after;
    }

    /** WITH moved AS (DELETE ... RETURNING ...) INSERT INTO dead_letter_queue ...: one statement. */
    method MoveToDLQ(w: nat, id: nat, at: int, works: bool)
      requires Valid() && w in jobs && jobs[w].Nacking? && jobs[w].id == id && cfg.maxRetries <= jobs[w].count
      requires jobs[w].since <= at <= now
      modifies this
      ensures View() == Next(cfg, old(View()), if works then NackWrite(w, at) else Abandon(w))
      ensures !works || id !in old(messages) ==> View().tables == old(View().tables)
      ensures works && id in old(messages) ==> DeadLettered(old(View().tables), View().tables, id, at)
      ensures Valid() && Continues(old(run), run) && closed == old(closed)
    {
      ghost var step := if works then NackWrite(w, at) else Abandon(w);
      ghost var after := Next(cfg, View(), step);
      TellsNext(run, cfg, View(), step);
      if works {
        NackWriteDoes(cfg, View(), w, at);
      }
      run := Extend(run, step);
      if works && id in messages {
        hist := RecordCopy(hist, Tables(messages, dead, nextId, nextDeadId), id);
        dead := dead[nextDeadId := DeadOf(messages[id], DatabaseTime(cfg.dialect, at))];
        nextDeadId := nextDeadId + 1;
        messages := messages - {id};
      }
      jobs := jobs - {w};
      assert View() == after;
    }

    /** UPDATE ... SET retry_count = retry_count + 1, with a backoff that doubles from retry to retry. */
    method ScheduleNextRetry(w: nat, id: nat, retryCount: nat, at: int, works: bool)
      requires Valid() && w in jobs && jobs[w].Nacking? && jobs[w].id == id && jobs[w].count == retryCount
      requires jobs[w].since <= at <= now
      requires retryCount < cfg.maxRetries
      modifies this
      ensures View() == Next(cfg, old(View()), if works then NackWrite(w, at) else Abandon(w))
      ensures !works || id !in old(messages) ==> View().tables == old(View().tables)
      ensures works && id in old(messages) ==>
                && Retried(old(View().tables), View().tables, id, at + Backoff(cfg, retryCount))
                && (retryCount <= 33 ==> Backoff(cfg, retryCount) == Pow2(retryCount) * 1_000_000_000)
      ensures Valid() && Continues(old(run), run) && closed == old(closed)
    {
      ghost var step := if works then NackWrite(w, at) else Abandon(w);
      ghost var after := Next(cfg, View(), step);
      TellsNext(run, cfg, View(), step);
      PostgresBackoffExactIff(cfg, retryCount);
      if works {
        NackWriteDoes(cfg, View(), w, at);
      }
      run := Extend(run, step);
      if works && id in messages {
        var backoffSeconds := WrapInt64(Pow2(retryCount));
        var availableAt := at + WrapInt64(backoffSeconds * SECOND);
        messages := messages[id := RetryRow(messages[id], availableAt)];
      }
      jobs := jobs - {w};
      assert View() == after;
    }

    /** The statement that ends a nack: the move to the dead letter queue, or the next retry after its backoff. */
    method WriteNack(w: nat, id: nat, retryCount: nat, at: int, works: bool)
      requires Valid() && w in jobs && jobs[w].Nacking? && jobs[w].id == id && jobs[w].count == retryCount
      requires jobs[w].since <= at <= now
      modifies this
      ensures View() == Next(cfg, old(View()), if works then NackWrite(w, at) else Abandon(w))
      ensures Valid() && Continues(old(run), run) && closed == old(closed)
    {
      if retryCount >= cfg.maxRetries {
        MoveToDLQ(w, id, at, works);
      } else {
        ScheduleNextRetry(w, id, retryCount, at, works);
      }
    }

    /**
     Reads the retry count, then either schedules a retry or moves the row to the dead letter queue.
     Other workers' statements run in between, so the row may have changed, or gone, by then.
     */
    method NackMessage(w: nat, id: nat, readWorks: bool, others: seq<Step>, at: int, writeWorks: bool)
      requires Valid() && w in jobs && jobs[w].Holding? && jobs[w].id == id
      requires CanNack(cfg, View(), w, others, at)
      modifies this
      ensures View() == AfterNack(cfg, old(View()), w, readWorks, others, at, writeWorks)
      ensures Valid() && Continues(old(run), run) && closed == old(closed)
    {
      OthersLeaveAloneIfThere(cfg, AfterNackRead(View(), w), w, others);
      var retryCount := ReadRetryCount(w, id, readWorks);
      if retryCount.Some? {
        Interfere(others);
        WriteNack(w, id, retryCount.value, at, writeWorks);
      }
    }

    /** What ends a delivery: the handler's verdict, a cancelled context or the transport's closing. */
    method HandleMessageResult(w: nat, id: nat, signal: Signal, works: bool, others: seq<Step>, at: int, writeWorks: bool)
      requires Valid() && w in jobs && jobs[w].Holding? && jobs[w].id == id
      requires CanNack(cfg, View(), w, others, at)
      modifies this
      ensures View() == AfterResult(cfg, old(View()), w, signal, works, others, at, writeWorks)
      ensures Valid() && Continues(old(run), run) && closed == old(closed)
    {
      match signal {
        case Acked => AckMessage(w, id, works);
        case Nacked => NackMessage(w, id, works, others, at, writeWorks);
        case Cancelled => UnlockMessage(w, id, false);
        case Closing => UnlockMessage(w, id, works);
      }
    }

    /** WITH replayed AS (DELETE FROM dead_letter_queue ... RETURNING ...) INSERT INTO messages ... */
    method MoveBack(ds: set<nat>, order: seq<nat>, rows: seq<Row>, ghost step: Step)
      requires Valid() && |order| == |rows| && Enabled(cfg, View(), step)
      requires Next(cfg, View(), step) == AfterReplay(View(), ds, order, rows)
      modifies this
      ensures Valid() && Continues(old(run), run) && closed == old(closed)
      ensures View() == AfterReplay(old(View()), ds, order, rows)
    {
      ghost var after := AfterReplay(View(), ds, order, rows);
      TellsNext(run, cfg, View(), step);
      run := Extend(run, step);
      hist := RecordReplay(hist, nextId, rows, order);
      dead := dead - ds;
      messages, nextId := messages + Numbered(nextId, rows), nextId + |rows|;
      assert View() == after;
    }

    /** Moves one dead letter back, under a new uuid. */
    method ReplayDLQMessage(d: nat, stamp: nat, at: int, fault: Fault) returns (r: ReplayOutcome)
      requires Valid() && at <= now
      modifies this
      ensures Valid() && Continues(old(run), run) && closed == old(closed)
      ensures r == ReplayDone <==> fault == NoFault && Enabled(cfg, old(View()), ReplayOne(d, stamp, at))
      ensures r == ReplayDone ==> View() == Next(cfg, old(View()), ReplayOne(d, stamp, at))
      ensures r != ReplayDone ==> View() == old(View())
      ensures fault == NoFault ==> (r == NotFound <==> d !in old(dead))
    {
      if fault == AtBegin || fault.AtInsert? {
        return Failed;
      }
      if d !in dead {
        return NotFound;
      }
      var row := ReplayedOne(cfg, View().tables, d, stamp, at);
      if !CanInsert(messages, [row]) || fault == AtCommit {
        return Failed;
      }
      assert Enabled(cfg, View(), ReplayOne(d, stamp, at));
      MoveBack({d}, [d], [row], ReplayOne(d, stamp, at));
      return ReplayDone;
    }

    /** Moves all the topic's dead letters back in one statement, or none. */
    method ReplayAllDLQ(topic: string, stamp: nat, order: seq<nat>, at: int, fault: Fault) returns (ok: bool, affected: nat)
      requires Valid() && Lists(order, DeadIn(View().tables, topic)) && at <= now
      modifies this
      ensures Valid() && Continues(old(run), run) && closed == old(closed)
      ensures ok <==> fault == NoFault && Enabled(cfg, old(View()), ReplayAll(topic, stamp, order, at))
      ensures ok ==>
                && View() == Next(cfg, old(View()), ReplayAll(topic, stamp, order, at))
                && affected == |DeadIn(old(View()).tables, topic)|
      ensures !ok ==> View() == old(View())
    {
      Replay.ListsSize(order, DeadIn(View().tables, topic));
      if fault != NoFault || !CanInsert(messages, ReplayedAll(cfg, View().tables, stamp, order, at)) {
        return false, 0;
      }
      assert Enabled(cfg, View(), ReplayAll(topic, stamp, order, at));
      MoveBack(DeadIn(View().tables, topic), order, ReplayedAll(cfg, View().tables, stamp, order, at), ReplayAll(topic, stamp, order, at));
      return true, |order|;
    }

    /** Discards the topic's dead letters. */
    method PurgeDLQ(topic: string, works: bool) returns (affected: nat)
      requires Valid()
      modifies this
      ensures Valid() && Continues(old(run), run) && closed == old(closed)
      ensures works ==>
                && View() == Next(cfg, old(View()), Purge(topic))
                && affected == |DeadIn(old(View()).tables, topic)|
      ensures !works ==> View() == old(View()) && affected == 0
    {
      if !works {
        return 0;
      }
      ghost var step := Purge(topic);
      ghost var after := Next(cfg, View(), step);
      TellsNext(run, cfg, View(), step);
      run := Extend(run, step);
      var ds := DeadIn(View().tables, topic);
      hist := RecordPurge(hist, ds);
      dead := dead - ds;
      assert View() == after;
      return |ds|;
    }

    /** Clears the locks that have expired by the database's reading of the clock, and reports how many. */
    method CleanupExpiredLocks(at: int, works: bool) returns (affected: nat)
      requires Valid() && at <= now
      modifies this
      ensures Valid() && Continues(old(run), run) && closed == old(closed)
      ensures works ==> View() == Next(cfg, old(View()), Cleanup(at))
      ensures works ==>
                && messages.Keys == old(messages).Keys
                && affected == |set id | id in old(messages) && messages[id] != old(messages)[id]|
      ensures !works ==> View() == old(View()) && affected == 0
    {
      if !works {
        return 0;
      }
      ghost var step := Cleanup(at);
      ghost var after := Next(cfg, View(), step);
      TellsNext(run, cfg, View(), step);
      run := Extend(run, step);
      CleanupReports(View().tables, at);
      affected := |ExpiredIds(messages, at)|;
      messages := map id | id in messages :: ClearExpired(messages[id], at);
      assert View() == after;
    }

    /** SELECT COUNT(*) ... WHERE topic. Pending, dead, acknowledged and purged messages are all there ever were. */
    method GetPendingCount(topic: string, works: bool) returns (ok: bool, count: nat)
      requires Valid()
      ensures ok == works && (!works ==> count == 0)
      ensures works ==> count == |PendingIn(View().tables, topic)|
      ensures works ==> count + |DeadIn(View().tables, topic)| + |hist.acked * BornIn(hist, topic)|
                        + |hist.purged * BornIn(hist, topic)| == |BornIn(hist, topic)|
    {
      BalancesTopic(topic);
      return works, if works then |PendingIn(View().tables, topic)| else 0;
    }

    method GetDLQCount(topic: string, works: bool) returns (ok: bool, count: nat)
      requires Valid()
      ensures ok == works && (!works ==> count == 0)
      ensures works ==> count == |DeadIn(View().tables, topic)|
      ensures works ==> |PendingIn(View().tables, topic)| + count + |hist.acked * BornIn(hist, topic)|
                        + |hist.purged * BornIn(hist, topic)| == |BornIn(hist, topic)|
    {
      BalancesTopic(topic);
      return works, if works then |DeadIn(View().tables, topic)| else 0;
    }

    /** After Close nothing more is published; the tables stay as they are. */
    method Close()
      requires Valid()
      modifies this`closed
      ensures Valid() && closed && View() == old(View())
    {
      closed := true;
    }

    /**
     One turn of the polling loop: fetch a row, hand it over unless the subscriber is gone, see its
     delivery to the end. The handler takes its time: others' statements run meanwhile, and leases expire.
     */
    method ProcessAvailableMessages(
        w: nat, topic: string, skipped: set<nat>, at: int, fetchWorks: bool, during: seq<Step>,
        signal: Signal, works: bool, others: seq<Step>, writtenAt: int, writeWorks: bool)
      returns (found: Option<nat>)
      requires Valid() && w !in jobs && at <= now
      requires forall id :: Enabled(cfg, View(), Fetch(w, topic, skipped, id, at)) ==>
                 CanHandle(cfg, Next(cfg, View(), Fetch(w, topic, skipped, id, at)), w, during, others, writtenAt)
      modifies this
      ensures Valid() && Continues(old(run), run) && closed == old(closed)
      ensures found.None? ==> View() == old(View())
      ensures found.Some? ==>
                && old(Enabled(cfg, View(), Fetch(w, topic, skipped, found.value, at)))
                && View() == AfterDelivery(cfg, Next(cfg, old(View()), Fetch(w, topic, skipped, found.value, at)),
                                           w, during, signal, works, others, writtenAt, writeWorks)
    {
      var uuid, msg;
      found, uuid, msg := FetchAndLockMessage(w, topic, skipped, at, fetchWorks);
      if found.Some? {
        OthersLeaveAlone(cfg, View(), w, during);
        Interfere(during);
        HandleMessageResult(w, found.value, signal, works, others, writtenAt, writeWorks);
      }
    }

    // ---- what holds of every transport object, whatever it and other workers have done ----

    /** Every published message is in exactly one place, with the content it was published with. */
    lemma Conserves()
      requires Valid()
      ensures forall o :: o in hist.born ==> Kept(View(), o)
    {
      PostgresConserves(run, |run.states| - 1);
    }

    lemma BalancesTopic(topic: string)
      requires Valid()
      ensures var t := View().tables;
              |BornIn(hist, topic)| == |PendingIn(t, topic)| + |DeadIn(t, topic)|
                                       + |hist.acked * BornIn(hist, topic)| + |hist.purged * BornIn(hist, topic)|
    {
      PostgresBalancesTopic(run, |run.states| - 1, topic);
      assert PendingIn(View().tables, topic) - {} == PendingIn(View().tables, topic);
    }

    /** Retry counts stay below maxRetries plus the number of workers that nack one row at once. */
    lemma RetriesStayBounded(workers: nat)
      requires Valid() && 1 <= workers && forall j :: 0 <= j < |run.states| ==> AtMostNacking(run.states[j], workers)
      ensures forall id :: id in messages ==> messages[id].retryCount <= cfg.maxRetries + workers - 1
      ensures forall d :: d in dead ==> cfg.maxRetries <= dead[d].retryCount <= cfg.maxRetries + workers - 1
    {
      RetriesBounded(run, |run.states| - 1, workers);
    }

    /** With backoffs that fit and long locks, a dead letter has waited for all the backoffs. */
    lemma DeadLettersHaveWaited()
      requires Valid() && cfg.BackoffFits() && LongLocks(cfg)
      ensures forall d :: d in dead ==>
                DatabaseTime(cfg.dialect, DeadFirstOf(hist, d) + Total(cfg.dialect, cfg.maxRetries)) <= dead[d].failedAt
    {
      RunDiedInTime(run, |run.states| - 1);
    }
  }
}
