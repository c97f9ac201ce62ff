/** Replaying dead letters: all or nothing, exactly when it succeeds, and what it leaves behind. */
module Replay {
  import opened Basics
  import opened Tables
  import opened QueueMachine

  // ---- the uuids bulk replay makes up ----

  predicate IsDigits(s: string) {
    forall i :: 0 <= i < |s| ==> '0' <= s[i] <= '9'
  }

  /** A text ending in a dash and digits can be taken apart in only one way. */
  lemma SplitAtLastDash(a: string, x: string, b: string, y: string)
    requires IsDigits(x) && IsDigits(y) && a + "-" + x == b + "-" + y
    ensures a == b && x == y
  {
    var s := a + "-" + x;
    assert s[|a|] == '-' && s[|b|] == '-';
    if |a| < |b| {
      assert false;
    } else if |b| < |a| {
      assert false;
    }
    assert s[..|a|] == a && s[..|b|] == b;
    assert s[|a| + 1..] == x && s[|b| + 1..] == y;
  }

  lemma ReplayedUuid(d: DeadRow, stamp: nat, i: nat, now: int)
    ensures ReplayedRow(d, BulkSuffix(Postgres, stamp, i), now).uuid
            == d.uuid + "-replay-" + Decimal(stamp) + "-" + Decimal(i + 1)
  {
  }

  lemma NumbersDiffer(a: string, m: nat, b: string, n: nat)
    requires m != n
    ensures a + "-" + Decimal(m) != b + "-" + Decimal(n)
  {
    if a + "-" + Decimal(m) == b + "-" + Decimal(n) {
      DecimalIsDigits(m);
      DecimalIsDigits(n);
      SplitAtLastDash(a, Decimal(m), b, Decimal(n));
      DecimalInjective(m, n);
    }
  }

  /** PostgreSQL's row_number() makes the new uuids different even if the dead letters share one. */
  lemma PostgresReplayDistinct(t: Tables, order: seq<nat>, stamp: nat, now: int)
    requires forall i :: 0 <= i < |order| ==> order[i] in t.dead
    ensures DistinctUuids(ReplayedRows(Postgres, t, order, stamp, now))
  {
    var rows := ReplayedRows(Postgres, t, order, stamp, now);
    forall i, j | 0 <= i < j < |rows|
      ensures rows[i].uuid != rows[j].uuid
    {
      ReplayedUuid(t.dead[order[i]], stamp, i, now);
      ReplayedUuid(t.dead[order[j]], stamp, j, now);
      NumbersDiffer(t.dead[order[i]].uuid + "-replay-" + Decimal(stamp), i + 1,
                    t.dead[order[j]].uuid + "-replay-" + Decimal(stamp), j + 1);
    }
  }

  /** No two dead letters of the topic share a uuid. */
  predicate DeadUuidsDistinct(t: Tables, topic: string) {
    forall c, d :: c in DeadIn(t, topic) && d in DeadIn(t, topic) && t.dead[c].uuid == t.dead[d].uuid ==> c == d
  }

  lemma SqliteReplayDistinctIff(t: Tables, topic: string, order: seq<nat>, stamp: nat, now: int)
    requires Lists(order, DeadIn(t, topic))
    ensures DistinctUuids(ReplayedRows(Sqlite, t, order, stamp, now)) <==> DeadUuidsDistinct(t, topic)
  {
    var rows, suffix := ReplayedRows(Sqlite, t, order, stamp, now), "-replay-" + Decimal(stamp);
    forall i | 0 <= i < |rows|
      ensures rows[i].uuid == t.dead[order[i]].uuid + suffix
    {
    }
    if DistinctUuids(rows) {
      forall c, d | c in DeadIn(t, topic) && d in DeadIn(t, topic) && c != d
        ensures t.dead[c].uuid != t.dead[d].uuid
      {
        var i :| 0 <= i < |order| && order[i] == c;
        var j :| 0 <= j < |order| && order[j] == d;
        assert rows[i].uuid != rows[j].uuid;
      }
    } else {
      var i, j :| 0 <= i < j < |rows| && rows[i].uuid == rows[j].uuid;
      SameSuffix(t.dead[order[i]].uuid, t.dead[order[j]].uuid, suffix);
      assert order[i] in DeadIn(t, topic) && order[j] in DeadIn(t, topic) && order[i] != order[j];
    }
  }

  lemma SameSuffix(a: string, b: string, suffix: string)
    requires a + suffix == b + suffix
    ensures a == b
  {
    assert |a| == |b|;
    assert (a + suffix)[..|a|] == a && (b + suffix)[..|b|] == b;
  }

  // ---- when bulk replay succeeds ----

  /** PostgreSQL: bulk replay succeeds if and only if no message already uses one of the new uuids. */
  lemma PostgresReplayAllIff(cfg: Config, s: State, topic: string, stamp: nat, order: seq<nat>, at: int)
    requires cfg.dialect.Postgres? && Lists(order, DeadIn(s.tables, topic)) && at <= s.now
    ensures Enabled(cfg, s, ReplayAll(topic, stamp, order, at))
            <==> NoClash(s.tables.messages, ReplayedAll(cfg, s.tables, stamp, order, at))
  {
    PostgresReplayDistinct(s.tables, order, stamp, DatabaseTime(cfg.dialect, at));
  }

  /** SQLite: it must also find no uuid twice among the topic's dead letters; if it does, no later attempt succeeds. */
  lemma SqliteReplayAllIff(cfg: Config, s: State, topic: string, stamp: nat, order: seq<nat>, at: int)
    requires cfg.dialect.Sqlite? && Lists(order, DeadIn(s.tables, topic)) && at <= s.now
    ensures Enabled(cfg, s, ReplayAll(topic, stamp, order, at))
            <==> DeadUuidsDistinct(s.tables, topic)
                 && NoClash(s.tables.messages, ReplayedAll(cfg, s.tables, stamp, order, at))
  {
    SqliteReplayDistinctIff(s.tables, topic, order, stamp, DatabaseTime(cfg.dialect, at));
  }

  // ---- how long two dead letters with one uuid block it ----

  /** Two dead letters of the topic have the same uuid. */
  predicate Twins(t: Tables, topic: string, d: nat, e: nat) {
    d != e && d in DeadIn(t, topic) && e in DeadIn(t, topic) && t.dead[d].uuid == t.dead[e].uuid
  }

  /** The statements that can separate them: a replay of one of the two by itself, and a purge. */
  predicate Separates(step: Step, topic: string, d: nat, e: nat) {
    match step
    case ReplayOne(one, _, _) => one == d || one == e
    case Purge(to) => to == topic
    case _ => false
  }

  lemma TwinsBlock(cfg: Config, s: State, topic: string, d: nat, e: nat, stamp: nat, order: seq<nat>, at: int)
    requires cfg.dialect.Sqlite? && Twins(s.tables, topic, d, e)
    ensures !Enabled(cfg, s, ReplayAll(topic, stamp, order, at))
  {
    if Lists(order, DeadIn(s.tables, topic)) && at <= s.now {
      assert !DeadUuidsDistinct(s.tables, topic);
      SqliteReplayAllIff(cfg, s, topic, stamp, order, at);
    }
  }

  lemma TwinsStay(cfg: Config, s: State, step: Step, topic: string, d: nat, e: nat)
    requires cfg.dialect.Sqlite? && Booked(s) && Enabled(cfg, s, step)
    requires Twins(s.tables, topic, d, e) && !Separates(step, topic, d, e)
    ensures Twins(Next(cfg, s, step).tables, topic, d, e)
  {
    if step.ReplayAll? && step.topic == topic {
      TwinsBlock(cfg, s, topic, d, e, step.stamp, step.order, step.at);
    }
  }

  /** SQLite's bulk replay of the topic stays impossible for as long as neither is replayed singly nor purged. */
  lemma {:induction false} BlockedForAsLong(r: Run, topic: string, d: nat, e: nat, i: nat, j: nat)
    requires r.FromStart() && r.cfg.dialect.Sqlite? && i <= j < |r.states|
    requires Twins(r.states[i].tables, topic, d, e)
    requires forall k :: i <= k < j ==> !Separates(r.steps[k], topic, d, e)
    ensures Twins(r.states[j].tables, topic, d, e)
    ensures forall stamp, order, at :: !Enabled(r.cfg, r.states[j], ReplayAll(topic, stamp, order, at))
    decreases j
  {
    if i < j {
      BlockedForAsLong(r, topic, d, e, i, j - 1);
      RunWellFormed(r, j - 1);
      assert r.StepAt(j - 1);
      TwinsStay(r.cfg, r.states[j - 1], r.steps[j - 1], topic, d, e);
    }
    forall stamp, order, at
      ensures !Enabled(r.cfg, r.states[j], ReplayAll(topic, stamp, order, at))
    {
      TwinsBlock(r.cfg, r.states[j], topic, d, e, stamp, order, at);
    }
  }

  // ---- what bulk replay does ----

  lemma ListsSize(order: seq<nat>, ds: set<nat>)
    requires Lists(order, ds)
    ensures |order| == |ds|
    decreases |order|
  {
    if order == [] {
      assert ds == {};
    } else {
      var last := order[|order| - 1];
      var rest := order[..|order| - 1];
      forall d | d in ds - {last}
        ensures d in rest
      {
        var k :| 0 <= k < |order| && order[k] == d;
        assert rest[k] == d;
      }
      ListsSize(rest, ds - {last});
    }
  }

  lemma FreshIdsSize(from: nat, n: nat)
    ensures |FreshIds(from, n)| == n
  {
    if n > 0 {
      FreshIdsSize(from, n - 1);
      assert FreshIds(from, n) == FreshIds(from, n - 1) + {from + n - 1};
    }
  }

  predicate ReplayOf(d: DeadRow, r: Row, now: int) {
    r.topic == d.topic && r.payload == d.payload && r.metadata == d.metadata && r.retryCount == 0 && r.lockedUntil == None && r.availableAt == now && r.uuid != d.uuid
  }

  /** The rows are there under fresh ids, and nothing else has changed. */
  ghost predicate Inserted(t: Tables, ms: map<nat, Row>, rows: seq<Row>) {
    && ms.Keys == t.messages.Keys + FreshIds(t.nextId, |rows|)
    && (forall id :: id in t.messages ==> ms[id] == t.messages[id])
    && (forall id :: id in FreshIds(t.nextId, |rows|) ==> id in ms && ms[id] == rows[id - t.nextId])
  }

  lemma InsertedAt(t: Tables, rows: seq<Row>)
    requires forall id :: id in t.messages ==> id < t.nextId
    ensures Inserted(t, InsertRows(t, rows).messages, rows)
  {
  }

  /** From t to t', the topic's dead letters are gone, and no others. */
  ghost predicate DeadReplayed(t: Tables, t': Tables, topic: string) {
    && DeadIn(t', topic) == {}
    && (forall d :: d in t.dead && t.dead[d].topic != topic ==> d in t'.dead && t'.dead[d] == t.dead[d])
  }

  /** From t to t', the dead letters in this order became new pending messages of the topic, and no other message changed. */
  ghost predicate MessagesReplayed(t: Tables, t': Tables, topic: string, order: seq<nat>, now: int) {
    && |PendingIn(t', topic)| == |PendingIn(t, topic)| + |order|
    && t'.messages.Keys == t.messages.Keys + FreshIds(t.nextId, |order|)
    && (forall id :: id in t.messages ==> id in t'.messages && t'.messages[id] == t.messages[id])
    && (forall i :: 0 <= i < |order| ==> order[i] in t.dead)
    && (forall id :: id in FreshIds(t.nextId, |order|) ==> ReplayOf(t.dead[order[id - t.nextId]], t'.messages[id], now))
  }

  ghost predicate BulkReplayed(t: Tables, t': Tables, topic: string, order: seq<nat>, now: int) {
    DeadReplayed(t, t', topic) && MessagesReplayed(t, t', topic, order, now)
  }

  lemma PendingGrows(t: Tables, t': Tables, topic: string, n: nat)
    requires (forall id :: id in t.messages ==> id < t.nextId)
    requires t'.messages.Keys == t.messages.Keys + FreshIds(t.nextId, n)
    requires forall id :: id in t.messages ==> id in t'.messages && t'.messages[id] == t.messages[id]
    requires forall id :: id in FreshIds(t.nextId, n) ==> t'.messages[id].topic == topic
    ensures |PendingIn(t', topic)| == |PendingIn(t, topic)| + n
  {
    FreshIdsSize(t.nextId, n);
    assert PendingIn(t', topic) == PendingIn(t, topic) + FreshIds(t.nextId, n);
  }

  /**
   Bulk replay empties the topic's dead letter queue and reports how many it moved; the topic gains
   as many messages, each with the content of the dead letter it replaces, due at the database's time, unlocked and
   with no retry counted; no other row of either table changes, and uuids stay unique.
   */
  lemma ReplayAllMoves(cfg: Config, s: State, topic: string, stamp: nat, order: seq<nat>, at: int)
    requires WellFormed(s) && Enabled(cfg, s, ReplayAll(topic, stamp, order, at))
    ensures var t' := Next(cfg, s, ReplayAll(topic, stamp, order, at)).tables;
            BulkReplayed(s.tables, t', topic, order, DatabaseTime(cfg.dialect, at)) && |order| == |DeadIn(s.tables, topic)| && UuidsUnique(t'.messages)
  {
    var t, rows, availableAt := s.tables, ReplayedAll(cfg, s.tables, stamp, order, at), DatabaseTime(cfg.dialect, at);
    WellFormedNext(cfg, s, ReplayAll(topic, stamp, order, at));
    ListsSize(order, DeadIn(t, topic));
    ReplayedTables(t, InsertRows(t.(dead := t.dead - DeadIn(t, topic)), rows), topic, order, rows, availableAt);
  }

  lemma DeadQueueEmptied(t: Tables, t': Tables, topic: string)
    requires t'.dead == t.dead - DeadIn(t, topic)
    ensures DeadReplayed(t, t', topic)
  {
  }

  /** The fresh rows are replays of the dead letters, and on the topic. */
  ghost predicate ReplayedInto(t: Tables, ms: map<nat, Row>, topic: string, order: seq<nat>, now: int) {
    && (forall i :: 0 <= i < |order| ==> order[i] in t.dead)
    && (forall id :: id in FreshIds(t.nextId, |order|) ==>
          id in ms && ReplayOf(t.dead[order[id - t.nextId]], ms[id], now) && ms[id].topic == topic)
  }

  lemma ReplayedContents(t: Tables, ms: map<nat, Row>, topic: string, order: seq<nat>, rows: seq<Row>, now: int)
    requires |rows| == |order| && forall i :: 0 <= i < |order| ==> order[i] in t.dead && t.dead[order[i]].topic == topic
    requires forall i :: 0 <= i < |order| ==> ReplayOf(t.dead[order[i]], rows[i], now)
    requires Inserted(t, ms, rows)
    ensures ReplayedInto(t, ms, topic, order, now)
  {
  }

  lemma ReplayedSize(t: Tables, t': Tables, topic: string, order: seq<nat>, rows: seq<Row>, now: int)
    requires forall id :: id in t.messages ==> id < t.nextId
    requires |rows| == |order| && Inserted(t, t'.messages, rows) && ReplayedInto(t, t'.messages, topic, order, now)
    ensures |PendingIn(t', topic)| == |PendingIn(t, topic)| + |order|
  {
    PendingGrows(t, t', topic, |order|);
  }

  lemma ReplayedPending(t: Tables, t': Tables, topic: string, order: seq<nat>, rows: seq<Row>, now: int)
    requires |rows| == |order| && Inserted(t, t'.messages, rows) && ReplayedInto(t, t'.messages, topic, order, now)
    requires |PendingIn(t', topic)| == |PendingIn(t, topic)| + |order|
    ensures MessagesReplayed(t, t', topic, order, now)
  {
  }

  lemma ReplayedTables(t: Tables, t': Tables, topic: string, order: seq<nat>, rows: seq<Row>, now: int)
    requires forall id :: id in t.messages ==> id < t.nextId
    requires |rows| == |order| && forall i :: 0 <= i < |order| ==> order[i] in t.dead && t.dead[order[i]].topic == topic
    requires t'.messages == InsertRows(t, rows).messages && t'.dead == t.dead - DeadIn(t, topic)
    requires forall i :: 0 <= i < |order| ==> ReplayOf(t.dead[order[i]], rows[i], now)
    ensures BulkReplayed(t, t', topic, order, now)
  {
    DeadQueueEmptied(t, t', topic);
    InsertedAt(t, rows);
    ReplayedContents(t, t'.messages, topic, order, rows, now);
    ReplayedSize(t, t', topic, order, rows, now);
    ReplayedPending(t, t', topic, order, rows, now);
  }

  // ---- which rows the statements write ----

  /** The row a replay makes of a dead letter, written out. */
  lemma ReplayedRowIs(dialect: Dialect, d: DeadRow, suffix: string, at: int)
    ensures ReplayedRow(d, suffix, DatabaseTime(dialect, at))
            == Row(d.uuid + "-replay-" + suffix, d.topic, d.payload, d.metadata,
                   if dialect.Sqlite? then at - at % SECOND else at, None, 0)
  {
  }

  lemma InsertedRow(t: Tables, rows: seq<Row>, i: nat)
    requires i < |rows|
    ensures t.nextId + i in InsertRows(t, rows).messages && InsertRows(t, rows).messages[t.nextId + i] == rows[i]
  {
    NumberedAt(t.nextId, rows, i);
  }

  lemma InsertedByReplay(s: State, ds: set<nat>, order: seq<nat>, rows: seq<Row>, i: nat)
    requires |order| == |rows| && i < |rows|
    ensures var ms := AfterReplay(s, ds, order, rows).tables.messages;
            s.tables.nextId + i in ms && ms[s.tables.nextId + i] == rows[i]
  {
    InsertedRow(s.tables.(dead := s.tables.dead - ds), rows, i);
  }

  lemma RowOfReplay(cfg: Config, t: Tables, stamp: nat, order: seq<nat>, at: int, i: nat)
    requires i < |order| && forall k :: 0 <= k < |order| ==> order[k] in t.dead
    ensures var d := t.dead[order[i]];
            ReplayedAll(cfg, t, stamp, order, at)[i]
            == Row(d.uuid + "-replay-" + (if cfg.dialect.Postgres? then Decimal(stamp) + "-" + Decimal(i + 1) else Decimal(stamp)),
                   d.topic, d.payload, d.metadata, if cfg.dialect.Sqlite? then at - at % SECOND else at, None, 0)
  {
    ReplayedRowIs(cfg.dialect, t.dead[order[i]], BulkSuffix(cfg.dialect, stamp, i), at);
  }

  /** Bulk replay makes of the i-th dead letter it visits a row whose uuid tells the stamp and, in PostgreSQL, its number. */
  lemma ReplayAllMakes(cfg: Config, s: State, topic: string, stamp: nat, order: seq<nat>, at: int, i: nat)
    requires Enabled(cfg, s, ReplayAll(topic, stamp, order, at)) && i < |order|
    ensures var d, ms := s.tables.dead[order[i]], Next(cfg, s, ReplayAll(topic, stamp, order, at)).tables.messages;
            && s.tables.nextId + i in ms
            && ms[s.tables.nextId + i]
               == Row(d.uuid + "-replay-" + (if cfg.dialect.Postgres? then Decimal(stamp) + "-" + Decimal(i + 1) else Decimal(stamp)),
                      d.topic, d.payload, d.metadata, if cfg.dialect.Sqlite? then at - at % SECOND else at, None, 0)
  {
    RowOfReplay(cfg, s.tables, stamp, order, at, i);
    InsertedByReplay(s, DeadIn(s.tables, topic), order, ReplayedAll(cfg, s.tables, stamp, order, at), i);
  }

  lemma InsertedAlone(t: Tables, row: Row)
    ensures InsertRows(t, [row]).messages == t.messages[t.nextId := row]
  {
  }

  /** A single replay exchanges the dead letter for a message with its content, and changes nothing else. */
  lemma ReplayOneMoves(cfg: Config, s: State, d: nat, stamp: nat, at: int)
    requires Enabled(cfg, s, ReplayOne(d, stamp, at))
    ensures var letter, t, t' := s.tables.dead[d], s.tables, Next(cfg, s, ReplayOne(d, stamp, at)).tables;
            && t'.dead == t.dead - {d}
            && t'.messages
               == t.messages[t.nextId := Row(letter.uuid + "-replay-" + Decimal(stamp), letter.topic, letter.payload, letter.metadata,
                                             if cfg.dialect.Sqlite? then at - at % SECOND else at, None, 0)]
  {
    var t := s.tables.(dead := s.tables.dead - {d});
    ReplayedRowIs(cfg.dialect, s.tables.dead[d], Decimal(stamp), at);
    InsertedAlone(t, ReplayedOne(cfg, s.tables, d, stamp, at));
  }

  /** A purge discards the topic's dead letters and no others. */
  lemma PurgeDiscards(cfg: Config, s: State, topic: string, d: nat)
    ensures var t, t' := s.tables, Next(cfg, s, Purge(topic)).tables;
            && t'.messages == t.messages
            && (d in t'.dead <==> d in t.dead && t.dead[d].topic != topic)
            && (d in t'.dead ==> t'.dead[d] == t.dead[d])
  {
  }
}
