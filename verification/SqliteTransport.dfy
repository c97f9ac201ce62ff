/**
 The SQLite transport, statement by statement. It differs from the PostgreSQL one in its backoff,
 in the suffix of a replayed uuid, in what it reports for a dead letter that is not there, and in
 moving a dead row with two statements between which other workers may run.
 */
module SqliteTransport {
  import opened Basics
  import opened Tables
  import opened QueueMachine
  import opened Statements
  import opened Conservation
  import opened Leases
  import opened BackoffBounds
  import opened LeaseTiming
  import Replay

  /**
   What fails and what other workers do while a nack runs: before its first write, for which the clock is
   read at the given time, and before its DELETE.
   */
  datatype NackWeather = NackWeather(
    readWorks: bool, before: seq<Step>, at: int, writeWorks: bool, between: seq<Step>, deleteWorks: bool)

  /** The state in which a nack's first write finds the tables. */
  function BeforeWrite(cfg: Config, s: State, w: nat, weather: NackWeather): State
    requires w in s.jobs && s.jobs[w].Holding? && Others(cfg, AfterNackRead(s, w), w, weather.before)
  {
    RunTo(cfg, Next(cfg, s, NackRead(w)), weather.before)
  }

  /** The state after the INSERT, done or failed. */
  function Copying(cfg: Config, s: State, w: nat, weather: NackWeather): State
    requires w in s.jobs
  {
    AfterCopy(s, w, weather.writeWorks, DatabaseTime(cfg.dialect, weather.at))
  }

  ghost predicate Possible(cfg: Config, s: State, w: nat, weather: NackWeather) {
    && w in s.jobs && s.jobs[w].Holding?
    && Others(cfg, AfterNackRead(s, w), w, weather.before)
    && s.now <= weather.at <= BeforeWrite(cfg, s, w, weather).now
    && (w in BeforeWrite(cfg, s, w, weather).jobs ==>
          Others(cfg, Copying(cfg, BeforeWrite(cfg, s, w, weather), w, weather), w, weather.between))
  }

  /** The statements after the read: one UPDATE, or an INSERT and, whatever became of it, a DELETE. */
  function AfterWrites(cfg: Config, s: State, w: nat, weather: NackWeather): State
    requires !cfg.oneStatement && w in s.jobs && s.jobs[w].Nacking? && s.jobs[w].since <= weather.at <= s.now
    requires Others(cfg, Copying(cfg, s, w, weather), w, weather.between)
  {
    if s.jobs[w].count < cfg.maxRetries then Next(cfg, s, if weather.writeWorks then NackWrite(w, weather.at) else Abandon(w))
    else
      OthersLeaveAlone(cfg, Copying(cfg, s, w, weather), w, weather.between);
      var s' := RunTo(cfg, Next(cfg, s, Copy(w, weather.writeWorks, weather.at)), weather.between);
      Next(cfg, s', if weather.deleteWorks then DeleteCopied(w) else Abandon(w))
  }

  function AfterNack(cfg: Config, s: State, w: nat, weather: NackWeather): State
    requires !cfg.oneStatement && Possible(cfg, s, w, weather)
  {
    if !weather.readWorks || s.jobs[w].id !in s.tables.messages then Next(cfg, s, Abandon(w))
    else
      OthersLeaveAlone(cfg, AfterNackRead(s, w), w, weather.before);
      AfterWrites(cfg, BeforeWrite(cfg, s, w, weather), w, weather)
  }

  function AfterResult(cfg: Config, s: State, w: nat, signal: Signal, works: bool, weather: NackWeather): State
    requires !cfg.oneStatement && Possible(cfg, s, w, weather)
  {
    match signal
    case Acked => Next(cfg, s, if works then Ack(w) else Abandon(w))
    case Nacked => AfterNack(cfg, s, w, weather)
    case Cancelled => Next(cfg, s, if works then Unlock(w) else Abandon(w))
    case Closing => Next(cfg, s, if works then Unlock(w) else Abandon(w))
  }

  /** Nothing fails and nobody else does anything while a nack runs. */
  predicate Undisturbed(weather: NackWeather) {
    weather.readWorks && weather.before == [] && weather.writeWorks && weather.between == [] && weather.deleteWorks
  }

  lemma UndisturbedNack(cfg: Config, s: State, w: nat, weather: NackWeather)
    requires !cfg.oneStatement && Possible(cfg, s, w, weather) && Undisturbed(weather)
    requires s.jobs[w].id in s.tables.messages
    ensures Settled(cfg, s.tables, AfterNack(cfg, s, w, weather).tables, s.jobs[w].id, weather.at)
  {
    var s' := AfterNackRead(s, w);
    if s'.jobs[w].count < cfg.maxRetries {
      NackWriteDoes(cfg, s', w, weather.at);
    } else {
      CopyThenDelete(cfg, s', w, weather.at);
    }
  }

  lemma CopyThenDelete(cfg: Config, s: State, w: nat, at: int)
    requires Enabled(cfg, s, Copy(w, true, at)) && s.jobs[w].id in s.tables.messages
    ensures var s' := Next(cfg, s, Copy(w, true, at));
            && Enabled(cfg, s', DeleteCopied(w))
            && DeadLettered(s.tables, Next(cfg, s', DeleteCopied(w)).tables, s.jobs[w].id, DatabaseTime(cfg.dialect, at))
  {
  }

  /**
   What a verdict does to the tables: an ack removes the row, a closing transport or a cancelled context
   unlocks it, and a nack that nobody disturbs retries or buries it.
   */
  lemma ResultDoes(cfg: Config, s: State, w: nat, signal: Signal, works: bool, weather: NackWeather)
    requires !cfg.oneStatement && Possible(cfg, s, w, weather)
    ensures var id, t, t' := s.jobs[w].id, s.tables, AfterResult(cfg, s, w, signal, works, weather).tables;
            && (!signal.Nacked? && !works ==> t' == t)
            && (signal.Acked? && works ==> Removed(t, t', id))
            && ((signal.Closing? || signal.Cancelled?) && works ==> Unlocked(t, t', id))
            && (signal.Nacked? && Undisturbed(weather) && id in t.messages ==> Settled(cfg, t, t', id, weather.at))
            && (signal.Nacked? && !weather.readWorks ==> t' == t)
  {
    if signal.Nacked? && Undisturbed(weather) && s.jobs[w].id in s.tables.messages {
      UndisturbedNack(cfg, s, w, weather);
    }
  }

  /** Others' statements can run while the handler works, and then during a nack. */
  ghost predicate CanHandle(cfg: Config, s: State, w: nat, during: seq<Step>, weather: NackWeather) {
    Others(cfg, s, w, during) && Possible(cfg, RunTo(cfg, s, during), w, weather)
  }

  /** A delivery: the handler works, others' statements run, and the verdict is carried out. */
  function AfterDelivery(
      cfg: Config, s: State, w: nat, during: seq<Step>, signal: Signal, works: bool, weather: NackWeather): State
    requires !cfg.oneStatement && w in s.jobs && CanHandle(cfg, s, w, during, weather)
  {
    AfterResult(cfg, RunTo(cfg, s, during), w, signal, works, weather)
  }

  lemma SplitSize(a: set<nat>, b: set<nat>)
    ensures |a| == |a - b| + |a * b|
  {
    assert a == (a - b) + (a * b);
  }

  class Transport {
    const cfg: Config

    // The database.
    var messages: map<nat, Row>
    var dead: map<nat, DeadRow>
    var nextId: nat
    var nextDeadId: nat

    var now: int
    var closed: bool

    // Where the workers are and what has happened: kept for the proofs, read by no statement.
    var jobs: map<nat, Job>
    var hist: History
    ghost var run: Run

    function View(): State
      reads this
    {
      State(now, Tables(messages, dead, nextId, nextDeadId), jobs, hist)
    }

    /** The object is where a run of the queue machine has taken it. */
    ghost predicate Valid()
      reads this
    {
      Tells(run, cfg, View()) && !cfg.oneStatement && cfg.dialect.Sqlite?
    }

    constructor (maxRetries: int, now: int)
      ensures Valid() && Initial(View()) && !closed && cfg.dialect == Sqlite && !cfg.oneStatement
      ensures cfg.maxRetries == (if maxRetries < 0 then 3 else maxRetries) && cfg.lockTimeout == 30_000_000_000
    {
      cfg := SqliteConfig(maxRetries);
      messages, dead, nextId, nextDeadId := map[], map[], 1, 1;
      this.now := now;
      closed := false;
      jobs, hist := map[], EMPTY_HISTORY;
      run := Run(cfg, [State(now, Tables(map[], map[], 1, 1), map[], EMPTY_HISTORY)], []);
      new;
      TellsFromStart(cfg, View());
    }

    /** Other workers' statements run, and time passes. */
    method Interfere(others: seq<Step>)
      requires Valid() && CanRun(cfg, View(), others)
      modifies this
      ensures View() == RunTo(cfg, old(View()), others)
      ensures Valid() && Continues(old(run), run) && closed == old(closed)
    {
      run := TellsAll(run, cfg, View(), others);
      var s := RunTo(cfg, View(), others);
      now, jobs, hist := s.now, s.jobs, s.hist;
      messages, dead, nextId, nextDeadId := s.tables.messages, s.tables.dead, s.tables.nextId, s.tables.nextDeadId;
    }

    /** All messages of the batch are published, in one transaction, or none is; times is what the clock showed for each. */
    method Publish(topic: string, batch: seq<Outgoing>, times: seq<int>, fault: Fault) returns (ok: bool)
      requires Valid() && ReadBy(batch, times, now)
      modifies this
      ensures ok <==> !old(closed) && !Fails(fault, |batch|) && CanInsert(old(messages), NewRows(topic, batch, times))
      ensures ok ==> View() == Next(cfg, old(View()), Step.Publish(topic, batch, times))
      ensures ok ==> nextId == old(nextId) + |batch| && HasBatch(messages, old(nextId), topic, batch, times)
      ensures !ok ==> View() == old(View())
      ensures Valid() && Continues(old(run), run) && closed == old(closed)
    {
      if closed {
        return false;
      }
      var tx;
      ok, tx := InsertBatch(messages, nextId, topic, batch, times, fault);
      if ok {
        ghost var step := Step.Publish(topic, batch, times);
        ghost var after := Next(cfg, View(), step);
        TellsNext(run, cfg, View(), step);
        run := Extend(run, step);
        hist := RecordPublish(hist, nextId, NewRows(topic, batch, times));
        messages, nextId := tx, nextId + |batch|;
        assert View() == after;
      }
    }

    /** In one transaction, selects the topic's next available row and locks it for thirty seconds. */
    method FetchAndLockMessage(w: nat, topic: string, skipped: set<nat>, at: int, works: bool)
      returns (found: Option<nat>, uuid: string, msg: Content)
      requires Valid() && w !in jobs && at <= now
      modifies this
      ensures Valid() && Continues(old(run), run) && closed == old(closed)
      ensures found.Some? ==>
                && old(IsNext(messages, topic, at, skipped, found.value))
                && (var row := old(messages)[found.value];
                    && row.topic == topic && row.availableAt <= at && (row.lockedUntil.None? || row.lockedUntil.value < at)
                    && messages == old(messages)[found.value := row.(lockedUntil := Some(at + cfg.lockTimeout))])
                && View() == Next(cfg, old(View()), Fetch(w, topic, skipped, found.value, at))
                && uuid == old(messages)[found.value].uuid && msg == ContentOf(old(messages)[found.value])
      ensures found.None? ==>
                && View() == old(View())
                && (works ==> forall id :: id in messages && id !in skipped && messages[id].topic == topic
                                           && (messages[id].lockedUntil.None? || messages[id].lockedUntil.value < at)
                                           ==> at < messages[id].availableAt)
      ensures !works ==> found.None?
    {
      found, uuid, msg := None, "", Content("", [], map[]);
      if works {
        found := SelectNext(messages, topic, at, skipped);
      }
      if found.Some? {
        var id, lockUntil := found.value, at + cfg.lockTimeout;
        ghost var step := Fetch(w, topic, skipped, id, at);
        ghost var after := Next(cfg, View(), step);
        TellsNext(run, cfg, View(), step);
        run := Extend(run, step);
        uuid, msg := messages[id].uuid, ContentOf(messages[id]);
        messages := messages[id := messages[id].(lockedUntil := Some(lockUntil))];
        jobs := jobs[w := Holding(id, lockUntil)];
        assert View() == after;
      }
    }

    /** DELETE ... WHERE id: resolves the delivery of worker w. */
    method AckMessage(w: nat, id: nat, works: bool)
      requires Valid() && w in jobs && jobs[w].Holding? && jobs[w].id == id
      modifies this
      ensures View() == Next(cfg, old(View()), if works then Ack(w) else Abandon(w))
      ensures messages == (if works then old(messages) - {id} else old(messages)) && dead == old(dead)
      ensures Valid() && Continues(old(run), run) && closed == old(closed)
    {
      ghost var step := if works then Ack(w) else Abandon(w);
      ghost var after := Next(cfg, View(), step);
      TellsNext(run, cfg, View(), step);
      run := Extend(run, step);
      if works {
        hist := RecordAck(hist, Tables(messages, dead, nextId, nextDeadId), id);
        messages := messages - {id};
      }
      jobs := jobs - {w};
      assert View() == after;
    }

    /** UPDATE ... SET locked_until = NULL WHERE id. */
    method UnlockMessage(w: nat, id: nat, works: bool)
      requires Valid() && w in jobs && jobs[w].Holding? && jobs[w].id == id
      modifies this
      ensures View() == Next(cfg, old(View()), if works then Unlock(w) else Abandon(w))
      ensures dead == old(dead)
      ensures messages == if works && id in old(messages)
                          then old(messages)[id := old(messages)[id].(lockedUntil := None)] else old(messages)
      ensures Valid() && Continues(old(run), run) && closed == old(closed)
    {
      ghost var step := if works then Unlock(w) else Abandon(w);
      ghost var after := Next(cfg, View(), step);
      TellsNext(run, cfg, View(), step);
      run := Extend(run, step);
      if works && id in messages {
        messages := messages[id := messages[id].(lockedUntil := None)];
      }
      jobs := jobs - {w};
      assert View() == after;
    }

    /** SELECT retry_count ... WHERE id; the worker is done if that fails or the row is gone. */
    method ReadRetryCount(w: nat, id: nat, works: bool) returns (retryCount: Option<nat>)
      requires Valid() && w in jobs && jobs[w].Holding? && jobs[w].id == id
      modifies this
      ensures View() == Next(cfg, old(View()), if works then NackRead(w) else Abandon(w))
      ensures retryCount == if works && id in old(messages) then Some(old(messages)[id].retryCount) else None
      ensures messages == old(messages) && dead == old(dead)
      ensures Valid() && Continues(old(run), run) && closed == old(closed)
    {
      ghost var step := if works then NackRead(w) else Abandon(w);
      ghost var after := Next(cfg, View(), step);
      TellsNext(run, cfg, View(), step);
      run := Extend(run, step);
      if works && id in messages {
        retryCount := Some(messages[id].retryCount);
        jobs := jobs[w := Nacking(id, jobs[w].lease, messages[id].retryCount, now)];
      } else {
        retryCount := None;
        jobs := jobs - {w};
      }
      assert View() == after;
    }

    /** UPDATE ... SET retry_count = retry_count + 1, with a backoff that grows by a second per retry. */
    method ScheduleNextRetry(w: nat, id: nat, retryCount: nat, at: int, works: bool)
      requires Valid() && w in jobs && jobs[w].Nacking? && jobs[w].id == id && jobs[w].count == retryCount
      requires retryCount < cfg.maxRetries && jobs[w].since <= at <= now
      modifies this
      ensures View() == Next(cfg, old(View()), if works then NackWrite(w, at) else Abandon(w))
      ensures !works || id !in old(messages) ==> View().tables == old(View().tables)
      ensures works && id in old(messages) ==>
                && Retried(old(View().tables), View().tables, id, at + Backoff(cfg, retryCount))
                && (retryCount < 9_223_372_036 ==> Backoff(cfg, retryCount) == (retryCount + 1) * 1_000_000_000)
      ensures Valid() && Continues(old(run), run) && closed == old(closed)
    {
      ghost var step := if works then NackWrite(w, at) else Abandon(w);
      ghost var after := Next(cfg, View(), step);
      TellsNext(run, cfg, View(), step);
      SqliteBackoffExactIff(cfg, retryCount);
      if works {
        NackWriteDoes(cfg, View(), w, at);
      }
      run := Extend(run, step);
      if works && id in messages {
        var availableAt := at + WrapInt64((retryCount + 1) * SECOND);
        messages := messages[id := RetryRow(messages[id], availableAt)];
      }
      jobs := jobs - {w};
      assert View() == after;
    }

    /** INSERT INTO dead_letter_queue ... SELECT ... FROM messages WHERE id; a failure is only logged. */
    method InsertCopy(w: nat, id: nat, at: int, works: bool)
      requires Valid() && w in jobs && jobs[w].Nacking? && jobs[w].id == id && cfg.maxRetries <= jobs[w].count
      requires jobs[w].since <= at <= now
      modifies this
      ensures View() == Next(cfg, old(View()), Copy(w, works, at))
      ensures messages == old(messages) && (!works || id !in old(messages) ==> dead == old(dead))
      ensures works && id in old(messages) ==>
                var row := old(messages)[id];
                dead == old(dead)[old(nextDeadId) :=
                           DeadRow(
                             row.uuid, row.topic, row.payload, row.metadata, "max retries exceeded", at - at % 1_000_000_000, row.retryCount)]
      ensures Valid() && Continues(old(run), run) && closed == old(closed)
    {
      ghost var step := Copy(w, works, at);
      ghost var after := Next(cfg, View(), step);
      TellsNext(run, cfg, View(), step);
      run := Extend(run, step);
      if works && id in messages {
        hist := RecordCopy(hist, Tables(messages, dead, nextId, nextDeadId), id);
        dead := dead[nextDeadId := DeadOf(messages[id], DatabaseTime(cfg.dialect, at))];
        nextDeadId := nextDeadId + 1;
      }
      jobs := jobs[w := Copied(id, jobs[w].lease, works)];
      assert View() == after;
    }

    /** DELETE FROM messages WHERE id, after the INSERT. */
    method DeleteAfterCopy(w: nat, id: nat, works: bool)
      requires Valid() && w in jobs && jobs[w].Copied? && jobs[w].id == id
      modifies this
      ensures View() == Next(cfg, old(View()), if works then DeleteCopied(w) else Abandon(w))
      ensures messages == (if works then old(messages) - {id} else old(messages)) && dead == old(dead)
      ensures Valid() && Continues(old(run), run) && closed == old(closed)
    {
      ghost var step := if works then DeleteCopied(w) else Abandon(w);
      ghost var after := Next(cfg, View(), step);
      TellsNext(run, cfg, View(), step);
      run := Extend(run, step);
      if works {
        messages := messages - {id};
      }
      jobs := jobs - {w};
      assert View() == after;
    }

    /**
     Reads the retry count, then schedules a retry, or copies the row to the dead letter queue and
     deletes it. Other workers' statements run in between.
     */
    method NackMessage(w: nat, id: nat, weather: NackWeather)
      requires Valid() && w in jobs && jobs[w].id == id && Possible(cfg, View(), w, weather)
      modifies this
      ensures View() == AfterNack(cfg, old(View()), w, weather)
      ensures Valid() && Continues(old(run), run) && closed == old(closed)
    {
      OthersLeaveAloneIfThere(cfg, AfterNackRead(View(), w), w, weather.before);
      var retryCount := ReadRetryCount(w, id, weather.readWorks);
      if retryCount.Some? {
        Interfere(weather.before);
        FinishNack(w, id, retryCount.value, weather);
      }
    }

    /** INSERT, and then DELETE, whatever became of the INSERT. */
    method MoveToDLQ(w: nat, id: nat, weather: NackWeather)
      requires Valid() && w in jobs && jobs[w].Nacking? && jobs[w].id == id && cfg.maxRetries <= jobs[w].count
      requires jobs[w].since <= weather.at <= now
      requires Others(cfg, Copying(cfg, View(), w, weather), w, weather.between)
      modifies this
      ensures View() == AfterWrites(cfg, old(View()), w, weather)
      ensures Valid() && Continues(old(run), run) && closed == old(closed)
    {
      OthersLeaveAlone(cfg, Copying(cfg, View(), w, weather), w, weather.between);
      InsertCopy(w, id, weather.at, weather.writeWorks);
      Interfere(weather.between);
      DeleteAfterCopy(w, id, weather.deleteWorks);
    }

    method FinishNack(w: nat, id: nat, retryCount: nat, weather: NackWeather)
      requires Valid() && w in jobs && jobs[w].Nacking? && jobs[w].id == id && jobs[w].count == retryCount
      requires jobs[w].since <= weather.at <= now
      requires Others(cfg, Copying(cfg, View(), w, weather), w, weather.between)
      modifies this
      ensures View() == AfterWrites(cfg, old(View()), w, weather)
      ensures Valid() && Continues(old(run), run) && closed == old(closed)
    {
      if retryCount >= cfg.maxRetries {
        MoveToDLQ(w, id, weather);
      } else {
        ScheduleNextRetry(w, id, retryCount, weather.at, weather.writeWorks);
      }
    }

    /** What ends a delivery; here unlocking does not depend on the subscriber's context. */
    method HandleMessageResult(w: nat, id: nat, signal: Signal, works: bool, weather: NackWeather)
      requires Valid() && w in jobs && jobs[w].id == id && Possible(cfg, View(), w, weather)
      modifies this
      ensures View() == AfterResult(cfg, old(View()), w, signal, works, weather)
      ensures Valid() && Continues(old(run), run) && closed == old(closed)
    {
      match signal {
        case Acked => AckMessage(w, id, works);
        case Nacked => NackMessage(w, id, weather);
        case Cancelled => UnlockMessage(w, id, works);
        case Closing => UnlockMessage(w, id, works);
      }
    }

    /** INSERT INTO messages ... SELECT ... FROM dead_letter_queue, then DELETE FROM dead_letter_queue, in one transaction. */
    method MoveBack(ds: set<nat>, order: seq<nat>, rows: seq<Row>, ghost step: Step)
      requires Valid() && |order| == |rows| && Enabled(cfg, View(), step)
      requires Next(cfg, View(), step) == AfterReplay(View(), ds, order, rows)
      modifies this
      ensures Valid() && Continues(old(run), run) && closed == old(closed)
      ensures View() == AfterReplay(old(View()), ds, order, rows)
    {
      ghost var after := AfterReplay(View(), ds, order, rows);
      TellsNext(run, cfg, View(), step);
      run := Extend(run, step);
      hist := RecordReplay(hist, nextId, rows, order);
      messages, nextId := messages + Numbered(nextId, rows), nextId + |rows|;
      dead := dead - ds;
      assert View() == after;
    }

    /** Moves one dead letter back, under a new uuid; a dead letter that is not there is reported as moved. */
    method ReplayDLQMessage(d: nat, stamp: nat, at: int, fault: Fault) returns (ok: bool)
      requires Valid() && at <= now
      modifies this
      ensures Valid() && Continues(old(run), run) && closed == old(closed)
      ensures ok <==> fault == NoFault && (d in old(dead) ==> Enabled(cfg, old(View()), ReplayOne(d, stamp, at)))
      ensures ok && d in old(dead) ==> View() == Next(cfg, old(View()), ReplayOne(d, stamp, at))
      ensures !ok || d !in old(dead) ==> View() == old(View())
    {
      if fault != NoFault || d !in dead {
        return fault == NoFault;
      }
      var row := ReplayedOne(cfg, View().tables, d, stamp, at);
      if !CanInsert(messages, [row]) {
        return false;
      }
      assert Enabled(cfg, View(), ReplayOne(d, stamp, at));
      MoveBack({d}, [d], [row], ReplayOne(d, stamp, at));
      return true;
    }

    /** Moves all the topic's dead letters back in one transaction, or none. */
    method ReplayAllDLQ(topic: string, stamp: nat, order: seq<nat>, at: int, fault: Fault) returns (ok: bool, affected: nat)
      requires Valid() && Lists(order, DeadIn(View().tables, topic)) && at <= now
      modifies this
      ensures Valid() && Continues(old(run), run) && closed == old(closed)
      ensures ok <==> fault == NoFault && Enabled(cfg, old(View()), ReplayAll(topic, stamp, order, at))
      ensures ok ==>
                && View() == Next(cfg, old(View()), ReplayAll(topic, stamp, order, at))
                && affected == |DeadIn(old(View()).tables, topic)|
      ensures !ok ==> View() == old(View())
    {
      Replay.ListsSize(order, DeadIn(View().tables, topic));
      if fault != NoFault || !CanInsert(messages, ReplayedAll(cfg, View().tables, stamp, order, at)) {
        return false, 0;
      }
      assert Enabled(cfg, View(), ReplayAll(topic, stamp, order, at));
      MoveBack(DeadIn(View().tables, topic), order, ReplayedAll(cfg, View().tables, stamp, order, at), ReplayAll(topic, stamp, order, at));
      return true, |order|;
    }

    /** Discards the topic's dead letters. */
    method PurgeDLQ(topic: string, works: bool) returns (affected: nat)
      requires Valid()
      modifies this
      ensures Valid() && Continues(old(run), run) && closed == old(closed)
      ensures works ==>
                && View() == Next(cfg, old(View()), Purge(topic))
                && affected == |DeadIn(old(View()).tables, topic)|
      ensures !works ==> View() == old(View()) && affected == 0
    {
      if !works {
        return 0;
      }
      ghost var step := Purge(topic);
      ghost var after := Next(cfg, View(), step);
      TellsNext(run, cfg, View(), step);
      run := Extend(run, step);
      var ds := DeadIn(View().tables, topic);
      hist := RecordPurge(hist, ds);
      dead := dead - ds;
      assert View() == after;
      return |ds|;
    }

    /**
     SELECT COUNT(*) ... WHERE topic. While leases are kept and moves succeed, pending, dead,
     acknowledged and purged messages are all there ever were, but that the rows a nack has copied
     and not yet deleted are counted twice.
     */
    method GetPendingCount(topic: string, works: bool) returns (ok: bool, count: nat)
      requires Valid()
      ensures ok == works && (!works ==> count == 0)
      ensures works ==> count == |PendingIn(View().tables, topic)|
      ensures works && run.KeepsLeases() && run.MovesSucceed() ==>
                count + |DeadIn(View().tables, topic)| + |hist.acked * BornIn(hist, topic)| + |hist.purged * BornIn(hist, topic)|
                == |BornIn(hist, topic)| + |PendingIn(View().tables, topic) * HiddenIds(jobs)|
    {
      BalancesTopic(topic);
      return works, if works then |PendingIn(View().tables, topic)| else 0;
    }

    method GetDLQCount(topic: string, works: bool) returns (ok: bool, count: nat)
      requires Valid()
      ensures ok == works && (!works ==> count == 0)
      ensures works ==> count == |DeadIn(View().tables, topic)|
      ensures works && run.KeepsLeases() && run.MovesSucceed() ==>
                |PendingIn(View().tables, topic)| + count + |hist.acked * BornIn(hist, topic)| + |hist.purged * BornIn(hist, topic)|
                == |BornIn(hist, topic)| + |PendingIn(View().tables, topic) * HiddenIds(jobs)|
    {
      BalancesTopic(topic);
      return works, if works then |DeadIn(View().tables, topic)| else 0;
    }

    /** After Close nothing more is published; the tables stay as they are. */
    method Close()
      requires Valid()
      modifies this`closed
      ensures Valid() && closed && View() == old(View())
    {
      closed := true;
    }

    /**
     One turn of the polling loop: fetch a row, hand it over unless the subscriber is gone, see its
     delivery to the end. The handler takes its time: others' statements run meanwhile, and leases expire.
     */
    method ProcessAvailableMessages(
        w: nat, topic: string, skipped: set<nat>, at: int, fetchWorks: bool, during: seq<Step>,
        signal: Signal, works: bool, weather: NackWeather)
      returns (found: Option<nat>)
      requires Valid() && w !in jobs && at <= now
      requires forall id :: Enabled(cfg, View(), Fetch(w, topic, skipped, id, at)) ==>
                 CanHandle(cfg, Next(cfg, View(), Fetch(w, topic, skipped, id, at)), w, during, weather)
      modifies this
      ensures Valid() && Continues(old(run), run) && closed == old(closed)
      ensures found.None? ==> View() == old(View())
      ensures found.Some? ==>
                && old(Enabled(cfg, View(), Fetch(w, topic, skipped, found.value, at)))
                && View() == AfterDelivery(cfg, Next(cfg, old(View()), Fetch(w, topic, skipped, found.value, at)),
                                           w, during, signal, works, weather)
    {
      var uuid, msg;
      found, uuid, msg := FetchAndLockMessage(w, topic, skipped, at, fetchWorks);
      if found.Some? {
        OthersLeaveAlone(cfg, View(), w, during);
        Interfere(during);
        HandleMessageResult(w, found.value, signal, works, weather);
      }
    }

    // ---- what holds of every transport object ----

    /** If no row was deleted that could not be copied, every open message is in one of the tables. */
    lemma NeverLoses(o: nat)
      requires Valid() && run.NothingDropped() && o in hist.born && o !in hist.acked && o !in hist.purged
      ensures RowsOf(View(), o) != {} || DeadRowsOf(View(), o) != {}
    {
      SqliteNeverLoses(run, |run.states| - 1, o);
    }

    /** While leases are kept and moves succeed, every message is in exactly one place, with its content. */
    lemma Conserves()
      requires Valid() && run.KeepsLeases() && run.MovesSucceed()
      ensures forall o :: o in hist.born ==> Kept(View(), o)
    {
      SqliteConserves(run, |run.states| - 1);
    }

    lemma BalancesTopic(topic: string)
      requires Valid()
      ensures run.KeepsLeases() && run.MovesSucceed() ==>
                var t := View().tables;
                |BornIn(hist, topic)| + |PendingIn(t, topic) * HiddenIds(jobs)|
                == |PendingIn(t, topic)| + |DeadIn(t, topic)|
                   + |hist.acked * BornIn(hist, topic)| + |hist.purged * BornIn(hist, topic)|
    {
      if run.KeepsLeases() && run.MovesSucceed() {
        SqliteConserves(run, |run.states| - 1);
        assert TopicBalanced(View(), topic);
        SplitSize(PendingIn(View().tables, topic), HiddenIds(jobs));
      }
    }

    /** Retry counts stay below maxRetries plus the number of workers that nack one row at once. */
    lemma RetriesStayBounded(workers: nat)
      requires Valid() && 1 <= workers && forall j :: 0 <= j < |run.states| ==> AtMostNacking(run.states[j], workers)
      ensures forall id :: id in messages ==> messages[id].retryCount <= cfg.maxRetries + workers - 1
      ensures forall d :: d in dead ==> cfg.maxRetries <= dead[d].retryCount <= cfg.maxRetries + workers - 1
    {
      RetriesBounded(run, |run.states| - 1, workers);
    }

    /** With backoffs that fit and long locks, a dead letter has waited for all the backoffs. */
    lemma DeadLettersHaveWaited()
      requires Valid() && cfg.BackoffFits() && LongLocks(cfg)
      ensures forall d :: d in dead ==>
                DatabaseTime(cfg.dialect, DeadFirstOf(hist, d) + Total(cfg.dialect, cfg.maxRetries)) <= dead[d].failedAt
    {
      RunDiedInTime(run, |run.states| - 1);
    }
  }
}
