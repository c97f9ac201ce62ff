/**
 A consumer that nacks whatever it is given drains its topic: every delivery uses up exactly one of
 the retries the pending rows have left, whichever of the due rows the database picks and however
 long the consumer waits in between.
 */
module Draining {
  import opened Basics
  import opened Tables
  import opened QueueMachine

  // ---- the measure ----

  /** How many deliveries row r can still take before a nack declares it dead. */
  function Left(cfg: Config, r: Row): nat {
    if cfg.maxRetries <= r.retryCount then 1 else cfg.maxRetries + 1 - r.retryCount
  }

  /** The deliveries left in the topic's rows with ids below n. */
  function LeftBelow(cfg: Config, ms: map<nat, Row>, topic: string, n: nat): nat {
    if n == 0 then 0
    else LeftBelow(cfg, ms, topic, n - 1)
         + (if n - 1 in ms && ms[n - 1].topic == topic then Left(cfg, ms[n - 1]) else 0)
  }

  function DeliveriesLeft(cfg: Config, t: Tables, topic: string): nat {
    LeftBelow(cfg, t.messages, topic, t.nextId)
  }

  lemma {:induction false} LeftUnchanged(cfg: Config, ms: map<nat, Row>, ms': map<nat, Row>, topic: string, n: nat)
    requires forall id :: id < n ==> (id in ms <==> id in ms') && (id in ms ==> ms[id] == ms'[id])
    ensures LeftBelow(cfg, ms, topic, n) == LeftBelow(cfg, ms', topic, n)
  {
    if n > 0 {
      LeftUnchanged(cfg, ms, ms', topic, n - 1);
    }
  }

  /** Changing or deleting one row changes the sum by that row's share. */
  lemma {:induction false} LeftOfOne(cfg: Config, ms: map<nat, Row>, ms': map<nat, Row>, topic: string, id: nat, n: nat)
    requires id in ms && ms[id].topic == topic && id < n
    requires ms' == ms - {id} || (id in ms' && ms' == ms[id := ms'[id]] && ms'[id].topic == topic)
    ensures LeftBelow(cfg, ms', topic, n) + Left(cfg, ms[id])
         == LeftBelow(cfg, ms, topic, n) + (if id in ms' then Left(cfg, ms'[id]) else 0)
  {
    if id == n - 1 {
      LeftUnchanged(cfg, ms, ms', topic, n - 1);
    } else {
      LeftOfOne(cfg, ms, ms', topic, id, n - 1);
    }
  }

  lemma {:induction false} NothingLeftIff(cfg: Config, ms: map<nat, Row>, topic: string, n: nat)
    ensures LeftBelow(cfg, ms, topic, n) == 0 <==> forall id :: id < n && id in ms ==> ms[id].topic != topic
  {
    if n > 0 {
      NothingLeftIff(cfg, ms, topic, n - 1);
    }
  }

  // ---- one round: wait, be given a row, nack it ----

  /** at is the reading of the clock that goes into the fetch. */
  datatype Round = Round(wait: nat, id: nat, at: int)

  /** The statements that end a nack; those that move a dead row depend on the dialect. */
  function LastSteps(cfg: Config, count: nat, w: nat, now: int): seq<Step> {
    if cfg.maxRetries <= count && !cfg.oneStatement then [Copy(w, true, now), DeleteCopied(w)] else [NackWrite(w, now)]
  }

  /** The statements the worker issues in a round. */
  function RoundSteps(cfg: Config, s: State, w: nat, topic: string, round: Round): seq<Step>
    requires CanRound(s, w, topic, round)
  {
    [Tick(round.wait), Fetch(w, topic, {}, round.id, round.at), NackRead(w)]
    + LastSteps(cfg, s.tables.messages[round.id].retryCount, w, s.now + round.wait)
  }

  predicate CanRound(s: State, w: nat, topic: string, round: Round) {
    w !in s.jobs && round.at <= s.now + round.wait && IsNext(s.tables.messages, topic, round.at, {}, round.id)
  }

  function AfterRound(cfg: Config, s: State, w: nat, topic: string, round: Round): State
    requires CanRound(s, w, topic, round)
  {
    var t, id, now := s.tables, round.id, s.now + round.wait;
    if cfg.maxRetries <= t.messages[id].retryCount
    then State(now, MoveToDead(t, id, DatabaseTime(cfg.dialect, now)), s.jobs, RecordCopy(s.hist, t, id))
    else State(now, ScheduleRetry(t, id, now + Backoff(cfg, t.messages[id].retryCount)), s.jobs, s.hist)
  }

  /** The worker's nack, from its SELECT to its last statement. */
  lemma NackRuns(cfg: Config, s: State, w: nat, id: nat)
    requires w in s.jobs && s.jobs[w].Nacking? && s.jobs[w].id == id && id in s.tables.messages
    requires s.jobs[w].count == s.tables.messages[id].retryCount && s.jobs[w].since == s.now
    ensures CanRun(cfg, s, LastSteps(cfg, s.jobs[w].count, w, s.now))
    ensures RunTo(cfg, s, LastSteps(cfg, s.jobs[w].count, w, s.now))
            == if cfg.maxRetries <= s.jobs[w].count then AfterMove(s, w, DatabaseTime(cfg.dialect, s.now)) else AfterRetry(cfg, s, w, s.now)
  {
    if cfg.maxRetries <= s.jobs[w].count && !cfg.oneStatement {
      var s' := Next(cfg, s, Copy(w, true, s.now));
      assert s'.jobs - {w} == s.jobs - {w};
      RunCons(cfg, s', DeleteCopied(w), []);
      RunCons(cfg, s, Copy(w, true, s.now), [DeleteCopied(w)]);
    } else {
      RunCons(cfg, s, NackWrite(w, s.now), []);
    }
  }

  /** Where the worker is once its nack has read the retry count. */
  function Midway(cfg: Config, s: State, w: nat, topic: string, round: Round): State
    requires CanRound(s, w, topic, round)
  {
    var now, id, lease := s.now + round.wait, round.id, round.at + cfg.lockTimeout;
    State(now, LockRow(s.tables, id, lease), s.jobs[w := Nacking(id, lease, s.tables.messages[id].retryCount, now)], s.hist)
  }

  lemma FetchRuns(cfg: Config, s: State, w: nat, topic: string, round: Round, tail: seq<Step>)
    requires CanRound(s, w, topic, round) && CanRun(cfg, Midway(cfg, s, w, topic, round), tail)
    ensures var steps := [Tick(round.wait), Fetch(w, topic, {}, round.id, round.at), NackRead(w)] + tail;
            CanRun(cfg, s, steps) && RunTo(cfg, s, steps) == RunTo(cfg, Midway(cfg, s, w, topic, round), tail)
  {
    var fetch := Fetch(w, topic, {}, round.id, round.at);
    var s1 := Next(cfg, s, Tick(round.wait));
    assert Enabled(cfg, s1, fetch);
    var s2 := Next(cfg, s1, fetch);
    assert Next(cfg, s2, NackRead(w)) == Midway(cfg, s, w, topic, round);
    RunCons(cfg, s2, NackRead(w), tail);
    RunCons(cfg, s1, fetch, [NackRead(w)] + tail);
    RunCons(cfg, s, Tick(round.wait), [fetch] + ([NackRead(w)] + tail));
    assert [Tick(round.wait), fetch, NackRead(w)] + tail == [Tick(round.wait)] + ([fetch] + ([NackRead(w)] + tail));
  }

  /** The statements of a round can run, one after the other, and have the effect of a round. */
  lemma RoundRuns(cfg: Config, s: State, w: nat, topic: string, round: Round)
    requires CanRound(s, w, topic, round)
    ensures CanRun(cfg, s, RoundSteps(cfg, s, w, topic, round))
    ensures RunTo(cfg, s, RoundSteps(cfg, s, w, topic, round)) == AfterRound(cfg, s, w, topic, round)
  {
    var mid, count := Midway(cfg, s, w, topic, round), s.tables.messages[round.id].retryCount;
    NackRuns(cfg, mid, w, round.id);
    FetchRuns(cfg, s, w, topic, round, LastSteps(cfg, count, w, mid.now));
    MidwayIsEnough(cfg, s, w, topic, round);
  }

  lemma MidwayIsEnough(cfg: Config, s: State, w: nat, topic: string, round: Round)
    requires CanRound(s, w, topic, round)
    ensures var mid, count := Midway(cfg, s, w, topic, round), s.tables.messages[round.id].retryCount;
            AfterRound(cfg, s, w, topic, round)
            == if cfg.maxRetries <= count then AfterMove(mid, w, DatabaseTime(cfg.dialect, mid.now)) else AfterRetry(cfg, mid, w, mid.now)
  {
    var mid, count := Midway(cfg, s, w, topic, round), s.tables.messages[round.id].retryCount;
    assert mid.jobs - {w} == s.jobs;
    LockedRoundIsRound(s, round.id, round.at + cfg.lockTimeout, mid.now + Backoff(cfg, count));
  }

  /** A nack clears or discards the lock, so it leaves the same tables as if the row had never been locked. */
  lemma LockedRoundIsRound(s: State, id: nat, lease: int, availableAt: int)
    requires id in s.tables.messages
    ensures var t := LockRow(s.tables, id, lease);
            && (forall now :: MoveToDead(t, id, now) == MoveToDead(s.tables, id, now))
            && ScheduleRetry(t, id, availableAt) == ScheduleRetry(s.tables, id, availableAt)
            && RecordCopy(s.hist, t, id) == RecordCopy(s.hist, s.tables, id)
  {
    assert LockRow(s.tables, id, lease).messages - {id} == s.tables.messages - {id};
  }

  // ---- every round uses up one delivery ----

  ghost predicate IdsBelow(t: Tables) {
    && (forall id :: id in t.messages ==> id < t.nextId)
    && (forall d :: d in t.dead ==> d < t.nextDeadId)
  }

  lemma MoveCounts(t: Tables, id: nat, now: int, topic: string)
    requires IdsBelow(t) && id in t.messages && t.messages[id].topic == topic
    ensures IdsBelow(MoveToDead(t, id, now))
    ensures |PendingIn(MoveToDead(t, id, now), topic)| + 1 == |PendingIn(t, topic)|
    ensures |DeadIn(MoveToDead(t, id, now), topic)| == |DeadIn(t, topic)| + 1
  {
    assert PendingIn(MoveToDead(t, id, now), topic) == PendingIn(t, topic) - {id};
    assert DeadIn(MoveToDead(t, id, now), topic) == DeadIn(t, topic) + {t.nextDeadId};
  }

  lemma RetryCounts(t: Tables, id: nat, at: int, topic: string)
    requires IdsBelow(t)
    ensures IdsBelow(ScheduleRetry(t, id, at))
    ensures PendingIn(ScheduleRetry(t, id, at), topic) == PendingIn(t, topic)
    ensures DeadIn(ScheduleRetry(t, id, at), topic) == DeadIn(t, topic)
  {
  }

  lemma RoundMovesNothingElse(cfg: Config, s: State, w: nat, topic: string, round: Round)
    requires IdsBelow(s.tables) && CanRound(s, w, topic, round)
    ensures var t, t' := s.tables, AfterRound(cfg, s, w, topic, round).tables;
            && IdsBelow(t')
            && |PendingIn(t', topic)| + |DeadIn(t', topic)| == |PendingIn(t, topic)| + |DeadIn(t, topic)|
  {
    var now := s.now + round.wait;
    MoveCounts(s.tables, round.id, DatabaseTime(cfg.dialect, now), topic);
    RetryCounts(s.tables, round.id, now + Backoff(cfg, s.tables.messages[round.id].retryCount), topic);
  }

  lemma RoundUsesOne(cfg: Config, s: State, w: nat, topic: string, round: Round)
    requires IdsBelow(s.tables) && CanRound(s, w, topic, round)
    ensures var t, t' := s.tables, AfterRound(cfg, s, w, topic, round).tables;
            DeliveriesLeft(cfg, t', topic) + 1 == DeliveriesLeft(cfg, t, topic)
  {
    var t, t' := s.tables, AfterRound(cfg, s, w, topic, round).tables;
    LeftOfOne(cfg, t.messages, t'.messages, topic, round.id, t.nextId);
  }

  lemma EmptyIffNothingLeft(cfg: Config, t: Tables, topic: string)
    requires IdsBelow(t)
    ensures PendingIn(t, topic) == {} <==> DeliveriesLeft(cfg, t, topic) == 0
  {
    NothingLeftIff(cfg, t.messages, topic, t.nextId);
    assert forall id :: id in PendingIn(t, topic) <==> id in t.messages && t.messages[id].topic == topic;
  }

  // ---- whole drains ----

  predicate CanRounds(cfg: Config, s: State, w: nat, topic: string, rounds: seq<Round>)
    decreases |rounds|
  {
    rounds == []
    || (CanRound(s, w, topic, rounds[0]) && CanRounds(cfg, AfterRound(cfg, s, w, topic, rounds[0]), w, topic, rounds[1..]))
  }

  function AfterRounds(cfg: Config, s: State, w: nat, topic: string, rounds: seq<Round>): State
    requires CanRounds(cfg, s, w, topic, rounds)
    decreases |rounds|
  {
    if rounds == [] then s else AfterRounds(cfg, AfterRound(cfg, s, w, topic, rounds[0]), w, topic, rounds[1..])
  }

  /** All the statements of the rounds. */
  function DrainSteps(cfg: Config, s: State, w: nat, topic: string, rounds: seq<Round>): seq<Step>
    requires CanRounds(cfg, s, w, topic, rounds)
    decreases |rounds|
  {
    if rounds == [] then []
    else RoundSteps(cfg, s, w, topic, rounds[0])
         + DrainSteps(cfg, AfterRound(cfg, s, w, topic, rounds[0]), w, topic, rounds[1..])
  }

  /** They can run, one after the other, and have the effect of the rounds. */
  lemma {:induction false} DrainRuns(cfg: Config, s: State, w: nat, topic: string, rounds: seq<Round>)
    requires CanRounds(cfg, s, w, topic, rounds)
    ensures CanRun(cfg, s, DrainSteps(cfg, s, w, topic, rounds))
    ensures RunTo(cfg, s, DrainSteps(cfg, s, w, topic, rounds)) == AfterRounds(cfg, s, w, topic, rounds)
    decreases |rounds|
  {
    if rounds != [] {
      var s' := AfterRound(cfg, s, w, topic, rounds[0]);
      RoundRuns(cfg, s, w, topic, rounds[0]);
      DrainRuns(cfg, s', w, topic, rounds[1..]);
      RunAppend(cfg, s, RoundSteps(cfg, s, w, topic, rounds[0]), DrainSteps(cfg, s', w, topic, rounds[1..]));
    }
  }

  /**
   However a consumer that nacks everything proceeds, each delivery uses up one of those left; so
   the topic is empty after exactly that many, and every message it held is a dead letter then.
   */
  lemma {:induction false} DrainIsExact(cfg: Config, s: State, w: nat, topic: string, rounds: seq<Round>)
    requires IdsBelow(s.tables) && CanRounds(cfg, s, w, topic, rounds)
    ensures var t, t' := s.tables, AfterRounds(cfg, s, w, topic, rounds).tables;
            && IdsBelow(t')
            && |rounds| + DeliveriesLeft(cfg, t', topic) == DeliveriesLeft(cfg, t, topic)
            && (PendingIn(t', topic) == {} <==> |rounds| == DeliveriesLeft(cfg, t, topic))
            && |PendingIn(t', topic)| + |DeadIn(t', topic)| == |PendingIn(t, topic)| + |DeadIn(t, topic)|
    decreases |rounds|
  {
    if rounds != [] {
      RoundUsesOne(cfg, s, w, topic, rounds[0]);
      RoundMovesNothingElse(cfg, s, w, topic, rounds[0]);
      DrainIsExact(cfg, AfterRound(cfg, s, w, topic, rounds[0]), w, topic, rounds[1..]);
    } else {
      EmptyIffNothingLeft(cfg, s.tables, topic);
    }
  }

  /** All there is, in either table, is on the topic and has the uuid. */
  predicate OnlyCalled(t: Tables, topic: string, uuid: string) {
    && (forall id :: id in t.messages ==> t.messages[id].topic == topic && t.messages[id].uuid == uuid)
    && (forall d :: d in t.dead ==> t.dead[d].topic == topic && t.dead[d].uuid == uuid)
  }

  /** A drain changes no worker, topic or uuid. */
  lemma {:induction false} DrainKeepsNames(cfg: Config, s: State, w: nat, topic: string, rounds: seq<Round>, uuid: string)
    requires CanRounds(cfg, s, w, topic, rounds) && OnlyCalled(s.tables, topic, uuid)
    ensures AfterRounds(cfg, s, w, topic, rounds).jobs == s.jobs
    ensures OnlyCalled(AfterRounds(cfg, s, w, topic, rounds).tables, topic, uuid)
    decreases |rounds|
  {
    if rounds != [] {
      DrainKeepsNames(cfg, AfterRound(cfg, s, w, topic, rounds[0]), w, topic, rounds[1..], uuid);
    }
  }

  /** While the topic holds a message, the consumer gets one by waiting until that message is ready. */
  lemma NextRound(s: State, w: nat, topic: string, first: nat) returns (round: Round)
    requires w !in s.jobs && first in PendingIn(s.tables, topic)
    ensures CanRound(s, w, topic, round) && s.now + round.wait == Max(s.now, ReadyAt(s.tables.messages[first]))
  {
    var ms, now := s.tables.messages, Max(s.now, ReadyAt(s.tables.messages[first]));
    var due := set id | id in ms && Eligible(ms[id], topic, now);
    assert first in due;
    var id := LeastDue(ms, due);
    round := Round(now - s.now, id, now);
  }

  lemma {:induction false} RoundsEnd(cfg: Config, s: State, w: nat, topic: string) returns (rounds: seq<Round>)
    requires IdsBelow(s.tables) && w !in s.jobs
    ensures CanRounds(cfg, s, w, topic, rounds) && |rounds| == DeliveriesLeft(cfg, s.tables, topic)
    decreases DeliveriesLeft(cfg, s.tables, topic)
  {
    EmptyIffNothingLeft(cfg, s.tables, topic);
    if PendingIn(s.tables, topic) == {} {
      rounds := [];
    } else {
      var first :| first in PendingIn(s.tables, topic);
      var round := NextRound(s, w, topic, first);
      RoundUsesOne(cfg, s, w, topic, round);
      RoundMovesNothingElse(cfg, s, w, topic, round);
      var rest := RoundsEnd(cfg, AfterRound(cfg, s, w, topic, round), w, topic);
      rounds := [round] + rest;
      assert rounds[1..] == rest;
    }
  }

  /** From every state statements of the worker lead to the end of a drain, in exactly the deliveries left. */
  lemma DrainEnds(cfg: Config, s: State, w: nat, topic: string) returns (rounds: seq<Round>)
    requires IdsBelow(s.tables) && w !in s.jobs
    ensures CanRounds(cfg, s, w, topic, rounds) && |rounds| == DeliveriesLeft(cfg, s.tables, topic)
    ensures var steps := DrainSteps(cfg, s, w, topic, rounds);
            CanRun(cfg, s, steps) && RunTo(cfg, s, steps) == AfterRounds(cfg, s, w, topic, rounds)
            && var t' := RunTo(cfg, s, steps).tables;
               PendingIn(t', topic) == {} && |DeadIn(t', topic)| == |DeadIn(s.tables, topic)| + |PendingIn(s.tables, topic)|
  {
    rounds := RoundsEnd(cfg, s, w, topic);
    DrainIsExact(cfg, s, w, topic, rounds);
    DrainRuns(cfg, s, w, topic, rounds);
  }
}
