/**
 What both transports share: the loops and queries that only compute, and what a transport does not
 control, namely failing statements and other workers' statements between its own.
 */
module Statements {
  import opened Basics
  import opened Tables
  import opened QueueMachine

  /** Where a transaction over n statements fails, if it does. */
  datatype Fault = NoFault | AtBegin | AtInsert(i: nat) | AtCommit

  predicate Fails(fault: Fault, n: nat) {
    fault == AtBegin || fault == AtCommit || (fault.AtInsert? && fault.i < n)
  }

  predicate Involves(step: Step, w: nat) {
    match step
    case Fetch(v, _, _, _, _) => v == w
    case Ack(v) => v == w
    case Unlock(v) => v == w
    case NackRead(v) => v == w
    case NackWrite(v, _) => v == w
    case Copy(v, _, _) => v == w
    case DeleteCopied(v) => v == w
    case Abandon(v) => v == w
    case _ => false
  }

  /** Statements other workers may execute from state s on: they can run, and w is not among them. */
  predicate Others(cfg: Config, s: State, w: nat, steps: seq<Step>) {
    CanRun(cfg, s, steps) && forall i :: 0 <= i < |steps| ==> !Involves(steps[i], w)
  }

  /** Other workers never change where w is. */
  lemma {:induction false} OthersLeaveAlone(cfg: Config, s: State, w: nat, steps: seq<Step>)
    requires Others(cfg, s, w, steps) && w in s.jobs
    ensures w in RunTo(cfg, s, steps).jobs && RunTo(cfg, s, steps).jobs[w] == s.jobs[w]
    decreases |steps|
  {
    if steps != [] {
      var s' := Next(cfg, s, steps[0]);
      assert w in s'.jobs && s'.jobs[w] == s.jobs[w];
      assert forall i :: 0 <= i < |steps[1..]| ==> steps[1..][i] == steps[i + 1];
      OthersLeaveAlone(cfg, s', w, steps[1..]);
    }
  }

  lemma OthersLeaveAloneIfThere(cfg: Config, s: State, w: nat, steps: seq<Step>)
    requires Others(cfg, s, w, steps)
    ensures w in s.jobs ==> w in RunTo(cfg, s, steps).jobs && RunTo(cfg, s, steps).jobs[w] == s.jobs[w]
  {
    if w in s.jobs {
      OthersLeaveAlone(cfg, s, w, steps);
    }
  }

  /** What ends a delivery: the handler's verdict, a cancelled context or the transport's closing. */
  datatype Signal = Acked | Nacked | Cancelled | Closing

  datatype ReplayOutcome = ReplayDone | NotFound | Failed

  // ---- what has become of a row ----

  /** From t to t' the row has gone to the dead letter queue, and nothing else has changed. */
  predicate DeadLettered(t: Tables, t': Tables, id: nat, failedAt: int)
    requires id in t.messages
  {
    var row := t.messages[id];
    && t'.messages == t.messages - {id}
    && t'.dead == t.dead[t.nextDeadId := DeadRow(row.uuid, row.topic, row.payload, row.metadata,
                                                 "max retries exceeded", failedAt, row.retryCount)]
  }

  /** From t to t' the row was unlocked for one more retry at a later time, and nothing else has changed. */
  predicate Retried(t: Tables, t': Tables, id: nat, availableAt: int)
    requires id in t.messages
  {
    var row := t.messages[id];
    && t'.messages == t.messages[id := row.(retryCount := row.retryCount + 1, lockedUntil := None, availableAt := availableAt)]
    && t'.dead == t.dead
  }

  /** From t to t' a row that was nacked is a dead letter if its retries are used up, and is retried otherwise. */
  predicate Settled(cfg: Config, t: Tables, t': Tables, id: nat, at: int)
    requires id in t.messages
  {
    if cfg.maxRetries <= t.messages[id].retryCount then DeadLettered(t, t', id, DatabaseTime(cfg.dialect, at))
    else Retried(t, t', id, at + Backoff(cfg, t.messages[id].retryCount))
  }

  /** From t to t' the row is gone, and nothing else has changed. */
  predicate Removed(t: Tables, t': Tables, id: nat) {
    t'.messages == t.messages - {id} && t'.dead == t.dead
  }

  /** From t to t' the row, if there is one, was unlocked, and nothing else has changed. */
  predicate Unlocked(t: Tables, t': Tables, id: nat) {
    && t'.dead == t.dead
    && t'.messages == if id in t.messages then t.messages[id := t.messages[id].(lockedUntil := None)] else t.messages
  }

  /** What the UPDATE or the move at the end of a nack does, if the row is still there. */
  lemma NackWriteDoes(cfg: Config, s: State, w: nat, at: int)
    requires Enabled(cfg, s, NackWrite(w, at))
    ensures var id, count, t' := s.jobs[w].id, s.jobs[w].count, Next(cfg, s, NackWrite(w, at)).tables;
            if id !in s.tables.messages then t' == s.tables
            else if cfg.maxRetries <= count then DeadLettered(s.tables, t', id, DatabaseTime(cfg.dialect, at))
            else Retried(s.tables, t', id, at + Backoff(cfg, count))
  {
  }

  // ---- a transaction that inserts row by row ----

  lemma ClashMeansNoInsert(ms: map<nat, Row>, from: nat, rows: seq<Row>, i: nat)
    requires i < |rows|
    requires var tx := ms + Numbered(from, rows[..i]); exists id :: id in tx && tx[id].uuid == rows[i].uuid
    ensures !CanInsert(ms, rows)
  {
    var tx := ms + Numbered(from, rows[..i]);
    var id :| id in tx && tx[id].uuid == rows[i].uuid;
    if id in Numbered(from, rows[..i]) {
      assert rows[id - from].uuid == rows[i].uuid;
    }
  }

  lemma NumberedOneMore(from: nat, rows: seq<Row>, i: nat)
    requires i < |rows|
    ensures Numbered(from, rows[..i + 1]) == Numbered(from, rows[..i])[from + i := rows[i]]
  {
  }

  lemma NewUuid(ms: map<nat, Row>, from: nat, rows: seq<Row>, i: nat)
    requires i < |rows| && forall id :: id in ms ==> id < from
    requires var tx := ms + Numbered(from, rows[..i]); forall id :: id in tx ==> tx[id].uuid != rows[i].uuid
    ensures forall j :: 0 <= j < i ==> rows[j].uuid != rows[i].uuid
    ensures forall id :: id in ms ==> rows[i].uuid != ms[id].uuid
  {
    var tx := ms + Numbered(from, rows[..i]);
    forall j | 0 <= j < i
      ensures rows[j].uuid != rows[i].uuid
    {
      NumberedAt(from, rows[..i], j);
      assert tx[from + j] == rows[j];
    }
    forall id | id in ms
      ensures rows[i].uuid != ms[id].uuid
    {
      assert id !in FreshIds(from, i);
      assert tx[id] == ms[id];
    }
  }

  lemma CanInsertOneMore(ms: map<nat, Row>, rows: seq<Row>, i: nat)
    requires i < |rows| && CanInsert(ms, rows[..i])
    requires forall j :: 0 <= j < i ==> rows[j].uuid != rows[i].uuid
    requires forall id :: id in ms ==> rows[i].uuid != ms[id].uuid
    ensures CanInsert(ms, rows[..i + 1])
  {
    var longer := rows[..i + 1];
    forall j, k | 0 <= j < k < |longer|
      ensures longer[j].uuid != longer[k].uuid
    {
      assert k < i ==> rows[..i][j].uuid != rows[..i][k].uuid;
    }
    forall j, id | 0 <= j < |longer| && id in ms
      ensures longer[j].uuid != ms[id].uuid
    {
      assert j < i ==> rows[..i][j].uuid != ms[id].uuid;
    }
  }

  lemma InsertOneMore(ms: map<nat, Row>, from: nat, rows: seq<Row>, i: nat)
    requires i < |rows| && CanInsert(ms, rows[..i]) && forall id :: id in ms ==> id < from
    requires var tx := ms + Numbered(from, rows[..i]); forall id :: id in tx ==> tx[id].uuid != rows[i].uuid
    ensures CanInsert(ms, rows[..i + 1])
    ensures ms + Numbered(from, rows[..i + 1]) == (ms + Numbered(from, rows[..i]))[from + i := rows[i]]
  {
    NumberedOneMore(from, rows, i);
    NewUuid(ms, from, rows, i);
    CanInsertOneMore(ms, rows, i);
  }

  /** Every message of the batch has a row that says what it says, due when its delay is over, unlocked and untried. */
  ghost predicate HasBatch(ms: map<nat, Row>, from: nat, topic: string, batch: seq<Outgoing>, times: seq<int>)
    requires |times| == |batch|
  {
    forall k :: 0 <= k < |batch| ==> RowOfBatch(ms, from + k, topic, batch[k], times[k])
  }

  predicate RowOfBatch(ms: map<nat, Row>, id: nat, topic: string, m: Outgoing, at: int) {
    id in ms && ms[id] == Row(m.uuid, topic, m.payload, m.metadata, at + (if m.delay.Some? then m.delay.value else 0), None, 0)
  }

  lemma BatchInserted(ms: map<nat, Row>, from: nat, topic: string, batch: seq<Outgoing>, times: seq<int>)
    requires |times| == |batch|
    ensures HasBatch(ms + Numbered(from, NewRows(topic, batch, times)), from, topic, batch, times)
  {
    forall k | 0 <= k < |batch|
      ensures RowOfBatch(ms + Numbered(from, NewRows(topic, batch, times)), from + k, topic, batch[k], times[k])
    {
      NumberedAt(from, NewRows(topic, batch, times), k);
    }
  }

  /** Publish's transaction: inserts the batch row by row and gives up at the first statement that fails. */
  method InsertBatch(ms: map<nat, Row>, from: nat, topic: string, batch: seq<Outgoing>, times: seq<int>, fault: Fault)
    returns (ok: bool, tx: map<nat, Row>)
    requires |times| == |batch| && forall id :: id in ms ==> id < from
    ensures ok <==> !Fails(fault, |batch|) && CanInsert(ms, NewRows(topic, batch, times))
    ensures ok ==> tx == ms + Numbered(from, NewRows(topic, batch, times)) && HasBatch(tx, from, topic, batch, times)
  {
    tx := ms;
    if fault == AtBegin {
      return false, tx;
    }
    ghost var rows := NewRows(topic, batch, times);
    for i := 0 to |batch|
      invariant fault != AtBegin && (fault.AtInsert? ==> i <= fault.i)
      invariant CanInsert(ms, rows[..i])
      invariant tx == ms + Numbered(from, rows[..i])
    {
      var row := NewRow(topic, batch[i], times[i]);
      if fault == AtInsert(i) {
        return false, tx;
      }
      if exists id :: id in tx && tx[id].uuid == row.uuid {
        ClashMeansNoInsert(ms, from, rows, i);
        return false, tx;
      }
      InsertOneMore(ms, from, rows, i);
      tx := tx[from + i := row];
    }
    assert rows[..|batch|] == rows;
    BatchInserted(ms, from, topic, batch, times);
    ok := fault != AtCommit;
  }

  /** The fetch query: a least available_at among the rows that are due, unlocked and not skipped. */
  method SelectNext(ms: map<nat, Row>, topic: string, now: int, skipped: set<nat>) returns (found: Option<nat>)
    ensures found.Some? ==> IsNext(ms, topic, now, skipped, found.value)
    ensures found.None? ==> forall id :: id in ms && id !in skipped ==> !Eligible(ms[id], topic, now)
  {
    found := None;
    var due := set id | id in ms && id !in skipped && Eligible(ms[id], topic, now);
    if due != {} {
      ghost var some :| some in due;
      NextExists(ms, topic, now, skipped, some);
      var id :| id in due && IsNext(ms, topic, now, skipped, id);
      found := Some(id);
    } else {
      forall id | id in ms && id !in skipped
        ensures !Eligible(ms[id], topic, now)
      {
        assert id !in due;
      }
    }
  }
}
