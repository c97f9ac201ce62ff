/**
 With one poller that resolves every delivery, a topic is delivered in the order of available_at, as
 long as nothing is inserted behind the last delivery.
 */
module DeliveryOrder {
  import opened Basics
  import opened Tables
  import opened QueueMachine
  import opened BackoffBounds
  import opened Witnesses

  // ---- the poller, and what is put before it ----

  /** p alone fetches from the topic, passing over no row, and resolves what it fetched. */
  predicate Polls(step: Step, topic: string, p: nat) {
    match step
    case Fetch(w, t, skipped, _, _) => t == topic ==> w == p && skipped == {}
    case Abandon(w) => w != p
    case _ => true
  }

  /** p is the topic's only poller throughout the run. */
  ghost predicate PolledBy(r: Run, topic: string, p: nat) {
    forall i :: 0 <= i < |r.steps| ==> Polls(r.steps[i], topic, p)
  }

  /** Time t is not before the last delivery, if there was one. */
  predicate NotBefore(last: Option<int>, t: int) {
    last.Some? ==> last.value <= t
  }

  /** None of the rows is due before the topic's last delivery was. */
  predicate Keeping(rows: seq<Row>, topic: string, last: Option<int>) {
    forall i :: 0 <= i < |rows| && rows[i].topic == topic ==> NotBefore(last, rows[i].availableAt)
  }

  /** The available_at of a delivered row. */
  function DeliveredAt(r: Run, i: nat): int
    requires i < |r.steps| && i < |r.states| && r.steps[i].Fetch?
  {
    if r.steps[i].id in r.states[i].tables.messages then r.states[i].tables.messages[r.steps[i].id].availableAt else 0
  }

  function NewLast(s: State, step: Step, topic: string, last: Option<int>): Option<int> {
    if step.Fetch? && step.topic == topic && step.id in s.tables.messages
    then Some(s.tables.messages[step.id].availableAt) else last
  }

  /** The available_at of the topic's last delivery before state i. */
  function LastAt(r: Run, topic: string, i: nat): Option<int>
    requires i < |r.states| && |r.states| == |r.steps| + 1
  {
    if i == 0 then None else NewLast(r.states[i - 1], r.steps[i - 1], topic, LastAt(r, topic, i - 1))
  }

  ghost predicate KeepsUp(cfg: Config, s: State, step: Step, topic: string, last: Option<int>) {
    Inserts(step) && Enabled(cfg, s, step) ==> Keeping(InsertedBy(cfg, s, step), topic, last)
  }

  /** Nothing is inserted behind the last delivery. */
  ghost predicate NothingBehind(r: Run, topic: string)
    requires |r.states| == |r.steps| + 1
  {
    forall i :: 0 <= i < |r.steps| ==> KeepsUp(r.cfg, r.states[i], r.steps[i], topic, LastAt(r, topic, i))
  }

  /** All rows of the topic are due no earlier than the last delivery; only p can hold one, and no other is locked. */
  ghost predicate PollerAt(s: State, topic: string, p: nat, last: Option<int>) {
    && NotBefore(last, s.now)
    && (forall id :: id in s.tables.messages && s.tables.messages[id].topic == topic ==>
          NotBefore(last, s.tables.messages[id].availableAt))
    && (forall id :: id in s.tables.messages && s.tables.messages[id].topic == topic ==>
          s.tables.messages[id].lockedUntil == None || (p in s.jobs && s.jobs[p].id == id))
    && (forall w :: w in s.jobs && s.jobs[w].id in s.tables.messages && s.tables.messages[s.jobs[w].id].topic == topic ==>
          w == p && (s.jobs[w].Nacking? ==> NotBefore(last, s.jobs[w].since)))
  }

  // ---- one step ----

  lemma InsertedRowDue(t: Tables, rows: seq<Row>, topic: string, last: Option<int>, id: nat)
    requires id in InsertRows(t, rows).messages && id !in t.messages
    requires InsertRows(t, rows).messages[id].topic == topic && Keeping(rows, topic, last)
    ensures NotBefore(last, InsertRows(t, rows).messages[id].availableAt)
  {
  }

  /** Only a fetch locks a row; topics never change. */
  lemma LockAfter(cfg: Config, s: State, step: Step, id: nat)
    requires Enabled(cfg, s, step) && !Inserts(step) && id in Next(cfg, s, step).tables.messages
    ensures id in s.tables.messages && Next(cfg, s, step).tables.messages[id].topic == s.tables.messages[id].topic
    ensures var until := Next(cfg, s, step).tables.messages[id].lockedUntil;
            until == None || until == s.tables.messages[id].lockedUntil || (step.Fetch? && step.id == id)
  {
  }

  lemma FetchIsNotBefore(cfg: Config, s: State, step: Step, topic: string, p: nat, last: Option<int>)
    requires Enabled(cfg, s, step) && step.Fetch? && step.topic == topic
    requires Polls(step, topic, p) && PollerAt(s, topic, p, last)
    ensures var at := s.tables.messages[step.id].availableAt;
            NewLast(s, step, topic, last) == Some(at) && NotBefore(last, at) && at <= s.now
    ensures forall id :: id in s.tables.messages && s.tables.messages[id].topic == topic ==>
              NotBefore(NewLast(s, step, topic, last), s.tables.messages[id].availableAt)
  {
    forall id | id in s.tables.messages && s.tables.messages[id].topic == topic
      ensures s.tables.messages[step.id].availableAt <= s.tables.messages[id].availableAt
    {
      assert s.tables.messages[id].lockedUntil == None;
      assert Eligible(s.tables.messages[id], topic, step.at) || step.at < s.tables.messages[id].availableAt;
    }
  }

  lemma RetriedRowDue(cfg: Config, s: State, step: Step, topic: string, p: nat, last: Option<int>)
    requires Enabled(cfg, s, step) && step.NackWrite? && s.jobs[step.w].count < cfg.maxRetries
    requires PollerAt(s, topic, p, last) && 0 <= Backoff(cfg, s.jobs[step.w].count)
    requires s.jobs[step.w].id in s.tables.messages && s.tables.messages[s.jobs[step.w].id].topic == topic
    ensures NotBefore(last, step.at + Backoff(cfg, s.jobs[step.w].count))
  {
  }

  lemma RowStaysDue(cfg: Config, s: State, step: Step, topic: string, p: nat, last: Option<int>, id: nat)
    requires Booked(s) && Enabled(cfg, s, step) && Polls(step, topic, p) && PollerAt(s, topic, p, last)
    requires KeepsUp(cfg, s, step, topic, last)
    requires step.NackWrite? && s.jobs[step.w].count < cfg.maxRetries ==> 0 <= Backoff(cfg, s.jobs[step.w].count)
    requires id in Next(cfg, s, step).tables.messages && Next(cfg, s, step).tables.messages[id].topic == topic
    ensures NotBefore(NewLast(s, step, topic, last), Next(cfg, s, step).tables.messages[id].availableAt)
  {
    if Inserts(step) {
      RowAfterInsertion(cfg, s, step, id);
      if id !in s.tables.messages {
        InsertsRows(cfg, s, step);
        InsertedRowDue(s.tables, InsertedBy(cfg, s, step), topic, last, id);
      }
    } else {
      RowAfterOther(cfg, s, step, id);
      LockAfter(cfg, s, step, id);
      if step.Fetch? && step.topic == topic {
        FetchIsNotBefore(cfg, s, step, topic, p, last);
      } else if step.NackWrite? && s.jobs[step.w].id == id {
        RetriedRowDue(cfg, s, step, topic, p, last);
      }
    }
  }

  lemma LockStaysWithPoller(cfg: Config, s: State, step: Step, topic: string, p: nat, last: Option<int>, id: nat)
    requires Booked(s) && Enabled(cfg, s, step) && Polls(step, topic, p) && PollerAt(s, topic, p, last)
    requires id in Next(cfg, s, step).tables.messages && Next(cfg, s, step).tables.messages[id].topic == topic
    ensures var s' := Next(cfg, s, step);
            s'.tables.messages[id].lockedUntil == None || (p in s'.jobs && s'.jobs[p].id == id)
  {
    if Inserts(step) {
      RowAfterInsertion(cfg, s, step, id);
    } else {
      LockAfter(cfg, s, step, id);
    }
  }

  lemma HolderStaysPoller(cfg: Config, s: State, step: Step, topic: string, p: nat, last: Option<int>, w: nat)
    requires Booked(s) && Enabled(cfg, s, step) && Polls(step, topic, p) && PollerAt(s, topic, p, last)
    requires var s' := Next(cfg, s, step);
             w in s'.jobs && s'.jobs[w].id in s'.tables.messages && s'.tables.messages[s'.jobs[w].id].topic == topic
    ensures w == p
    ensures w in s.jobs ==> s.jobs[w].id in s.tables.messages && s.tables.messages[s.jobs[w].id].topic == topic
  {
    var id := Next(cfg, s, step).jobs[w].id;
    JobAfter(cfg, s, step, w);
    if Inserts(step) {
      RowAfterInsertion(cfg, s, step, id);
    } else {
      LockAfter(cfg, s, step, id);
    }
  }

  lemma ReadingStaysLate(cfg: Config, s: State, step: Step, topic: string, p: nat, last: Option<int>, w: nat)
    requires Booked(s) && Enabled(cfg, s, step) && Polls(step, topic, p) && PollerAt(s, topic, p, last)
    requires var s' := Next(cfg, s, step);
             w in s'.jobs && s'.jobs[w].id in s'.tables.messages && s'.tables.messages[s'.jobs[w].id].topic == topic
    ensures var s' := Next(cfg, s, step); s'.jobs[w].Nacking? ==> NotBefore(NewLast(s, step, topic, last), s'.jobs[w].since)
  {
    HolderStaysPoller(cfg, s, step, topic, p, last, w);
    if w in s.jobs {
      JobsOfOthers(cfg, s, step, w);
    } else {
      JobAfter(cfg, s, step, w);
    }
  }

  lemma PollerAtNext(cfg: Config, s: State, step: Step, topic: string, p: nat, last: Option<int>)
    requires Booked(s) && Enabled(cfg, s, step) && Polls(step, topic, p) && PollerAt(s, topic, p, last)
    requires KeepsUp(cfg, s, step, topic, last)
    requires step.NackWrite? && s.jobs[step.w].count < cfg.maxRetries ==> 0 <= Backoff(cfg, s.jobs[step.w].count)
    ensures PollerAt(Next(cfg, s, step), topic, p, NewLast(s, step, topic, last))
  {
    var s' := Next(cfg, s, step);
    NextIsLater(cfg, s, step);
    forall id | id in s'.tables.messages && s'.tables.messages[id].topic == topic
      ensures NotBefore(NewLast(s, step, topic, last), s'.tables.messages[id].availableAt)
      ensures s'.tables.messages[id].lockedUntil == None || (p in s'.jobs && s'.jobs[p].id == id)
    {
      RowStaysDue(cfg, s, step, topic, p, last, id);
      LockStaysWithPoller(cfg, s, step, topic, p, last, id);
    }
    forall w | w in s'.jobs && s'.jobs[w].id in s'.tables.messages && s'.tables.messages[s'.jobs[w].id].topic == topic
      ensures w == p && (s'.jobs[w].Nacking? ==> NotBefore(NewLast(s, step, topic, last), s'.jobs[w].since))
    {
      HolderStaysPoller(cfg, s, step, topic, p, last, w);
      ReadingStaysLate(cfg, s, step, topic, p, last, w);
    }
    if step.Fetch? && step.topic == topic {
      FetchIsNotBefore(cfg, s, step, topic, p, last);
    }
  }

  // ---- whole runs ----

  lemma PollerAtStep(r: Run, topic: string, p: nat, i: nat)
    requires r.FromStart() && r.cfg.BackoffFits() && PolledBy(r, topic, p) && i < |r.steps|
    requires PollerAt(r.states[i], topic, p, LastAt(r, topic, i))
    requires KeepsUp(r.cfg, r.states[i], r.steps[i], topic, LastAt(r, topic, i))
    ensures PollerAt(r.states[i + 1], topic, p, LastAt(r, topic, i + 1))
    ensures LastAt(r, topic, i).Some? ==>
              LastAt(r, topic, i + 1).Some? && LastAt(r, topic, i).value <= LastAt(r, topic, i + 1).value
  {
    RunWellFormed(r, i);
    BackoffFitsExactly(r.cfg);
    StepHolds(r, i);
    assert Polls(r.steps[i], topic, p);
    PollerAtNext(r.cfg, r.states[i], r.steps[i], topic, p, LastAt(r, topic, i));
    if r.steps[i].Fetch? && r.steps[i].topic == topic {
      FetchIsNotBefore(r.cfg, r.states[i], r.steps[i], topic, p, LastAt(r, topic, i));
    }
  }

  lemma {:induction false} RunPollerAt(r: Run, topic: string, p: nat, i: nat)
    requires r.FromStart() && r.cfg.BackoffFits() && PolledBy(r, topic, p) && NothingBehind(r, topic) && i < |r.states|
    ensures PollerAt(r.states[i], topic, p, LastAt(r, topic, i))
  {
    if i > 0 {
      RunPollerAt(r, topic, p, i - 1);
      assert KeepsUp(r.cfg, r.states[i - 1], r.steps[i - 1], topic, LastAt(r, topic, i - 1));
      PollerAtStep(r, topic, p, i - 1);
    }
  }

  /** By state i something was delivered that was available at time t, or later. */
  ghost predicate DeliveredFrom(r: Run, topic: string, i: nat, t: int)
    requires i < |r.states| && |r.states| == |r.steps| + 1
  {
    LastAt(r, topic, i).Some? && t <= LastAt(r, topic, i).value
  }

  lemma LastRisesOnce(r: Run, topic: string, p: nat, i: nat, t: int)
    requires r.FromStart() && r.cfg.BackoffFits() && PolledBy(r, topic, p) && NothingBehind(r, topic) && i < |r.steps|
    requires DeliveredFrom(r, topic, i, t)
    ensures DeliveredFrom(r, topic, i + 1, t)
  {
    RunPollerAt(r, topic, p, i);
    assert KeepsUp(r.cfg, r.states[i], r.steps[i], topic, LastAt(r, topic, i));
    PollerAtStep(r, topic, p, i);
  }

  /** The last delivery is never before an earlier one. */
  lemma {:induction false} LastRises(r: Run, topic: string, p: nat, i: nat, j: nat, t: int)
    requires r.FromStart() && r.cfg.BackoffFits() && PolledBy(r, topic, p) && NothingBehind(r, topic) && i <= j < |r.states|
    requires DeliveredFrom(r, topic, i, t)
    ensures DeliveredFrom(r, topic, j, t)
    decreases j
  {
    if i < j {
      LastRises(r, topic, p, i, j - 1, t);
      LastRisesOnce(r, topic, p, j - 1, t);
    }
  }

  lemma DeliveredIsLast(r: Run, topic: string, i: nat)
    requires r.FromStart() && i < |r.steps| && r.steps[i].Fetch? && r.steps[i].topic == topic
    ensures LastAt(r, topic, i + 1) == Some(DeliveredAt(r, i))
  {
    StepHolds(r, i);
  }

  /**
   Deliveries of a topic with a single poller come in the order of available_at, if the backoffs fit and
   nothing is inserted behind the last one.
   */
  lemma DeliveredInOrder(r: Run, topic: string, p: nat, i: nat, j: nat)
    requires r.FromStart() && r.cfg.BackoffFits() && PolledBy(r, topic, p) && NothingBehind(r, topic) && i < j < |r.steps|
    requires r.steps[i].Fetch? && r.steps[i].topic == topic
    requires r.steps[j].Fetch? && r.steps[j].topic == topic
    ensures DeliveredAt(r, i) <= DeliveredAt(r, j)
  {
    DeliveredIsLast(r, topic, i);
    DeliveredIsLast(r, topic, j);
    LastRises(r, topic, p, i + 1, j + 1, DeliveredAt(r, i));
  }

  // ---- if and only if the backoffs fit ----

  /** Deliveries i and j of topic, in this order, if that is what they are, are in the order of available_at. */
  ghost predicate InOrder(r: Run, topic: string, i: nat, j: nat)
    requires i < |r.steps| && j < |r.steps| && |r.states| == |r.steps| + 1
  {
    r.steps[i].Fetch? && r.steps[i].topic == topic && r.steps[j].Fetch? && r.steps[j].topic == topic ==>
      DeliveredAt(r, i) <= DeliveredAt(r, j)
  }

  lemma AlonePolls(r: Run)
    requires r.FromStart() && Alone(r)
    ensures PolledBy(r, "t", 0) && NothingBehind(r, "t")
  {
    forall i | 0 <= i < |r.steps|
      ensures Polls(r.steps[i], "t", 0)
      ensures KeepsUp(r.cfg, r.states[i], r.steps[i], "t", LastAt(r, "t", i))
    {
      assert AloneStep(r.steps[i]);
    }
  }

  lemma EndsDelivering(r: Run, r': Run, w: nat, at: int) returns (i: nat)
    requires r.FromStart() && EndsWithFetch(r, w, at) && Continues(r, r') && |r'.states| == |r'.steps| + 1
    ensures i == |r.steps| - 1 && i < |r'.steps|
    ensures r'.steps[i].Fetch? && r'.steps[i].topic == "t" && DeliveredAt(r', i) == at
  {
    i := |r.steps| - 1;
    assert r'.steps[i] == r.steps[i] && r'.states[i] == r.states[i];
  }

  /** A run that ends with a delivery, and continues one that ended with a later one. */
  lemma Disordered(first: Run, r: Run, late: int, early: int) returns (i: nat, j: nat)
    requires first.FromStart() && EndsWithFetch(first, 0, late) && Continues(first, r)
    requires r.FromStart() && EndsWithFetch(r, 0, early) && early < late
    ensures i < j < |r.steps| && !InOrder(r, "t", i, j)
  {
    i := EndsDelivering(first, r, 0, late);
    j := EndsDelivering(r, r, 0, early);
  }

  /** A lone poller gets a row again, earlier than it had it. */
  lemma HastenedTwice(cfg: Config) returns (first: Run, r: Run, late: int, early: int)
    requires cfg.Valid() && !cfg.BackoffFits()
    ensures first.FromStart() && EndsWithFetch(first, 0, late) && Continues(first, r)
    ensures r.FromStart() && r.cfg == cfg && Alone(r) && EndsWithFetch(r, 0, early) && early < late
  {
    var second;
    first, second := HasteningRun(cfg);
    r := FetchRow(second, 0, FirstMisfit(cfg.dialect) + 1);
    late, early := Last(first).tables.messages[1].availableAt, Last(second).tables.messages[1].availableAt;
    ContinuesThrough(first, second, r);
  }

  lemma Disorder(cfg: Config) returns (r: Run, i: nat, j: nat)
    requires cfg.Valid() && !cfg.BackoffFits()
    ensures r.FromStart() && r.cfg == cfg && PolledBy(r, "t", 0) && NothingBehind(r, "t")
    ensures i < j < |r.steps| && !InOrder(r, "t", i, j)
  {
    var first, late, early;
    first, r, late, early := HastenedTwice(cfg);
    AlonePolls(r);
    i, j := Disordered(first, r, late, early);
  }

  /**
   With a single poller and nothing inserted behind the last delivery, a topic is always delivered in
   order if and only if the backoffs fit.
   */
  lemma DeliveredInOrderIff(cfg: Config)
    requires cfg.Valid()
    ensures cfg.BackoffFits() <==>
            forall r: Run, topic: string, p: nat, i: nat, j: nat ::
              r.FromStart() && r.cfg == cfg && PolledBy(r, topic, p) && NothingBehind(r, topic) && i < j < |r.steps|
              ==> InOrder(r, topic, i, j)
  {
    if cfg.BackoffFits() {
      forall r: Run, topic: string, p: nat, i: nat, j: nat |
        r.FromStart() && r.cfg == cfg && PolledBy(r, topic, p) && NothingBehind(r, topic) && i < j < |r.steps|
        ensures InOrder(r, topic, i, j)
      {
        if r.steps[i].Fetch? && r.steps[i].topic == topic && r.steps[j].Fetch? && r.steps[j].topic == topic {
          DeliveredInOrder(r, topic, p, i, j);
        }
      }
    } else {
      var r, i, j := Disorder(cfg);
    }
  }

  // ---- what is inserted behind the last delivery ----

  /** The step replays dead letters of the topic, one at least. */
  predicate ReplaysInto(s: State, step: Step, topic: string) {
    match step
    case ReplayOne(d, _, _) => d in s.tables.dead && s.tables.dead[d].topic == topic
    case ReplayAll(to, _, order, _) => to == topic && order != []
    case _ => false
  }

  /** A replay keeps the order if and only if the database's clock, cut as its column is, is not behind. */
  lemma ReplayKeepsUpIff(cfg: Config, s: State, step: Step, topic: string, last: Option<int>)
    requires Enabled(cfg, s, step) && ReplaysInto(s, step, topic)
    ensures KeepsUp(cfg, s, step, topic, last)
            <==> (last.Some? ==> last.value <= if cfg.dialect.Sqlite? then step.at - step.at % SECOND else step.at)
  {
    var rows := InsertedBy(cfg, s, step);
    assert rows[0].topic == topic && rows[0].availableAt == DatabaseTime(cfg.dialect, step.at);
  }

  /** A publication does if and only if no message for the topic asks to be available before the last delivery. */
  lemma PublishKeepsUpIff(cfg: Config, s: State, step: Step, topic: string, last: Option<int>)
    requires Enabled(cfg, s, step) && step.Publish? && step.topic == topic
    ensures KeepsUp(cfg, s, step, topic, last)
            <==> forall k :: 0 <= k < |step.batch| && last.Some? ==>
                   last.value <= step.times[k] + (if step.batch[k].delay.Some? then step.batch[k].delay.value else 0)
  {
    var rows := InsertedBy(cfg, s, step);
    assert forall k :: 0 <= k < |rows| ==>
             && rows[k].topic == topic
             && rows[k].availableAt == step.times[k] + (if step.batch[k].delay.Some? then step.batch[k].delay.value else 0);
  }

  predicate NonNegativeDelays(batch: seq<Outgoing>) {
    forall i :: 0 <= i < |batch| && batch[i].delay.Some? ==> 0 <= batch[i].delay.value
  }

  /** The clock is read when the statement takes effect. */
  predicate ReadNow(s: State, step: Step) {
    match step
    case Publish(_, _, times) => forall k :: 0 <= k < |times| ==> times[k] == s.now
    case Fetch(_, _, _, _, at) => at == s.now
    case NackWrite(_, at) => at == s.now
    case Copy(_, _, at) => at == s.now
    case ReplayOne(_, _, at) => at == s.now
    case ReplayAll(_, _, _, at) => at == s.now
    case Cleanup(at) => at == s.now
    case _ => true
  }

  /** All clock readings are current. */
  ghost predicate Current(r: Run)
    requires |r.states| == |r.steps| + 1
  {
    forall i :: 0 <= i < |r.steps| ==> ReadNow(r.states[i], r.steps[i])
  }

  /** Messages for the topic ask for no negative delay, and SQLite's dead letters stay where they are. */
  predicate Orderly(dialect: Dialect, s: State, step: Step, topic: string) {
    && (step.Publish? && step.topic == topic ==> NonNegativeDelays(step.batch))
    && (dialect.Sqlite? ==> !ReplaysInto(s, step, topic))
  }

  lemma CurrentKeepsUp(cfg: Config, s: State, step: Step, topic: string, last: Option<int>)
    requires Enabled(cfg, s, step) && Orderly(cfg.dialect, s, step, topic) && ReadNow(s, step) && NotBefore(last, s.now)
    ensures KeepsUp(cfg, s, step, topic, last)
  {
    if step.Publish? && step.topic == topic {
      PublishKeepsUpIff(cfg, s, step, topic, last);
    } else if Inserts(step) && ReplaysInto(s, step, topic) {
      ReplayKeepsUpIff(cfg, s, step, topic, last);
    } else if Inserts(step) {
      NoneOfTopic(cfg, s, step, topic);
    }
  }

  lemma NoneOfTopic(cfg: Config, s: State, step: Step, topic: string)
    requires Enabled(cfg, s, step) && Inserts(step) && !(step.Publish? && step.topic == topic) && !ReplaysInto(s, step, topic)
    ensures forall i :: 0 <= i < |InsertedBy(cfg, s, step)| ==> InsertedBy(cfg, s, step)[i].topic != topic
  {
  }

  ghost predicate AllOrderly(r: Run, topic: string)
    requires |r.states| == |r.steps| + 1
  {
    forall i :: 0 <= i < |r.steps| ==> Orderly(r.cfg.dialect, r.states[i], r.steps[i], topic)
  }

  lemma CurrentStep(r: Run, topic: string, p: nat, i: nat)
    requires r.FromStart() && r.cfg.BackoffFits() && PolledBy(r, topic, p) && Current(r) && AllOrderly(r, topic)
    requires i < |r.steps| && PollerAt(r.states[i], topic, p, LastAt(r, topic, i))
    ensures KeepsUp(r.cfg, r.states[i], r.steps[i], topic, LastAt(r, topic, i))
    ensures PollerAt(r.states[i + 1], topic, p, LastAt(r, topic, i + 1))
  {
    StepHolds(r, i);
    assert ReadNow(r.states[i], r.steps[i]) && Orderly(r.cfg.dialect, r.states[i], r.steps[i], topic);
    CurrentKeepsUp(r.cfg, r.states[i], r.steps[i], topic, LastAt(r, topic, i));
    PollerAtStep(r, topic, p, i);
  }

  lemma {:induction false} CurrentPollerAt(r: Run, topic: string, p: nat, i: nat)
    requires r.FromStart() && r.cfg.BackoffFits() && PolledBy(r, topic, p) && Current(r) && AllOrderly(r, topic)
    requires i < |r.states|
    ensures PollerAt(r.states[i], topic, p, LastAt(r, topic, i))
  {
    if i > 0 {
      CurrentPollerAt(r, topic, p, i - 1);
      CurrentStep(r, topic, p, i - 1);
    }
  }

  lemma CurrentInsertsNothingBehind(r: Run, topic: string, p: nat)
    requires r.FromStart() && r.cfg.BackoffFits() && PolledBy(r, topic, p) && Current(r) && AllOrderly(r, topic)
    ensures NothingBehind(r, topic)
  {
    forall i | 0 <= i < |r.steps|
      ensures KeepsUp(r.cfg, r.states[i], r.steps[i], topic, LastAt(r, topic, i))
    {
      CurrentPollerAt(r, topic, p, i);
      CurrentStep(r, topic, p, i);
    }
  }

  /**
   While all clock readings are current and delays are not negative, nothing is inserted behind the last
   delivery, PostgreSQL's replays included: a single poller gets the topic in order.
   */
  lemma CurrentIsInOrder(r: Run, topic: string, p: nat)
    requires r.FromStart() && r.cfg.BackoffFits() && PolledBy(r, topic, p) && Current(r) && AllOrderly(r, topic)
    ensures NothingBehind(r, topic)
    ensures forall i: nat, j: nat :: i < j < |r.steps| ==> InOrder(r, topic, i, j)
  {
    CurrentInsertsNothingBehind(r, topic, p);
    forall i: nat, j: nat | i < j < |r.steps|
      ensures InOrder(r, topic, i, j)
    {
      if r.steps[i].Fetch? && r.steps[i].topic == topic && r.steps[j].Fetch? && r.steps[j].topic == topic {
        DeliveredInOrder(r, topic, p, i, j);
      }
    }
  }

  // ---- SQLite's replays can overtake ----

  /** A run of poller 0, with current readings. */
  ghost predicate Sound(r: Run) {
    r.FromStart() && |r.states| == |r.steps| + 1 && PolledBy(r, "t", 0) && Current(r)
  }

  lemma PollStep(r: Run, step: Step) returns (r': Run)
    requires Sound(r) && Enabled(r.cfg, Last(r), step) && Polls(step, "t", 0) && ReadNow(Last(r), step)
    ensures Sound(r') && Continues(r, r') && Last(r') == Next(r.cfg, Last(r), step)
    ensures |r'.steps| == |r.steps| + 1 && r'.steps[|r.steps|] == step && r'.states[|r.steps|] == Last(r)
  {
    ExtendFromStart(r, step);
    r' := Extend(r, step);
  }

  /** Nothing is pending and nobody works; the dead letters are as given. */
  predicate Idle(s: State, now: int, dead: map<nat, DeadRow>) {
    s.tables.messages == map[] && s.jobs == map[] && s.now == now && s.tables.dead == dead
  }

  const FIRST_DEAD := DeadRow("m", "t", [], map[], MAX_RETRIES_EXCEEDED, 0, 0)

  /** Worker 0 holds row id, the only one, which was the given one before. */
  predicate Held(s: State, id: nat, row: Row) {
    && id in s.tables.messages && s.tables.messages == map[id := s.tables.messages[id]]
    && s.tables.messages[id].(lockedUntil := None) == row
    && 0 in s.jobs && s.jobs == map[0 := s.jobs[0]] && s.jobs[0].Holding? && s.jobs[0].id == id
  }

  /** The last step delivers a row that was available at the given time. */
  ghost predicate EndsDelivered(r: Run, at: int) {
    && 0 < |r.steps| && |r.states| == |r.steps| + 1
    && r.steps[|r.steps| - 1].Fetch? && r.steps[|r.steps| - 1].topic == "t" && DeliveredAt(r, |r.steps| - 1) == at
  }

  lemma FetchOnly(r: Run, id: nat, row: Row) returns (r': Run)
    requires Sound(r) && Last(r).jobs == map[] && Last(r).tables.messages == map[id := row]
    requires row.topic == "t" && row.lockedUntil == None && row.availableAt <= Last(r).now
    ensures Sound(r') && Continues(r, r') && |r'.steps| > |r.steps| && EndsDelivered(r', row.availableAt)
    ensures Held(Last(r'), id, row) && Last(r').now == Last(r).now
    ensures Last(r').tables.dead == Last(r).tables.dead && Last(r').tables.nextDeadId == Last(r).tables.nextDeadId
  {
    r' := PollStep(r, Fetch(0, "t", {}, id, Last(r).now));
  }

  lemma PublishOnly(r: Run) returns (r': Run)
    requires Sound(r) && Idle(Last(r), Last(r).now, Last(r).tables.dead)
    ensures Sound(r') && Continues(r, r')
    ensures var s, s' := Last(r), Last(r');
            && s'.now == s.now && s'.jobs == map[] && s'.tables.messages == map[s.tables.nextId := NewRow("t", MESSAGE, s.now)]
            && s'.tables.dead == s.tables.dead && s'.tables.nextDeadId == s.tables.nextDeadId
  {
    var now := Last(r).now;
    InsertAlone(Last(r).tables, NewRows("t", [MESSAGE], [now]));
    r' := PollStep(r, Publish("t", [MESSAGE], [now]));
  }

  lemma PublishAndFetch(r: Run) returns (r': Run, id: nat)
    requires Sound(r) && Idle(Last(r), Last(r).now, Last(r).tables.dead)
    ensures Sound(r') && Continues(r, r') && EndsDelivered(r', Last(r).now)
    ensures Held(Last(r'), id, NewRow("t", MESSAGE, Last(r).now)) && Last(r').now == Last(r).now
    ensures Last(r').tables.dead == Last(r).tables.dead && Last(r').tables.nextDeadId == Last(r).tables.nextDeadId
  {
    id := Last(r).tables.nextId;
    r' := PublishOnly(r);
    r' := FetchOnly(r', id, NewRow("t", MESSAGE, Last(r).now));
  }

  /** With no retries allowed, its nack moves it. */
  lemma KillFetched(r: Run, id: nat) returns (r': Run)
    requires Sound(r) && r.cfg == SqliteConfig(0) && Last(r).now == 0 && Last(r).tables.dead == map[] && Last(r).tables.nextDeadId == 1
    requires Held(Last(r), id, NewRow("t", MESSAGE, 0))
    ensures Sound(r') && r'.cfg == r.cfg && Idle(Last(r'), 0, map[1 := FIRST_DEAD])
  {
    r' := PollStep(r, NackRead(0));
    r' := PollStep(r', Copy(0, true, 0));
    r' := PollStep(r', DeleteCopied(0));
  }

  lemma AckFetched(r: Run, id: nat, row: Row) returns (r': Run)
    requires Sound(r) && Held(Last(r), id, row)
    ensures Sound(r') && Continues(r, r') && Idle(Last(r'), Last(r).now, Last(r).tables.dead)
  {
    r' := PollStep(r, Ack(0));
  }

  lemma ReplayOnly(r: Run) returns (r': Run, row: Row)
    requires Sound(r) && r.cfg == SqliteConfig(0) && Idle(Last(r), SECOND / 2, map[1 := FIRST_DEAD])
    ensures Sound(r') && Continues(r, r') && Last(r').jobs == map[] && Last(r').now == Last(r).now
    ensures Last(r').tables.messages == map[Last(r).tables.nextId := row]
    ensures row.topic == "t" && row.lockedUntil == None && row.availableAt == 0
  {
    var now := Last(r).now;
    row := ReplayedOne(r.cfg, Last(r).tables, 1, 0, now);
    InsertAlone(Last(r).tables.(dead := Last(r).tables.dead - {1}), [row]);
    r' := PollStep(r, ReplayOne(1, 0, now));
  }

  /** The dead letter comes back as of the last whole second, and is delivered next. */
  lemma ReplayAndFetch(r: Run) returns (r': Run)
    requires Sound(r) && r.cfg == SqliteConfig(0) && Idle(Last(r), SECOND / 2, map[1 := FIRST_DEAD])
    ensures Sound(r') && Continues(r, r') && |r'.steps| > |r.steps| && EndsDelivered(r', 0)
  {
    var row;
    r', row := ReplayOnly(r);
    r' := FetchOnly(r', Last(r).tables.nextId, row);
  }

  lemma DeliveryStays(r: Run, r': Run, i: nat)
    requires Continues(r, r') && |r.states| == |r.steps| + 1 && |r'.states| == |r'.steps| + 1
    requires i < |r.steps| && r.steps[i].Fetch?
    ensures i < |r'.steps| && r'.steps[i] == r.steps[i] && DeliveredAt(r', i) == DeliveredAt(r, i)
  {
    assert r'.states[i] == r.states[i];
  }

  /**
   SQLite: with a single poller, current readings and backoffs that fit, a message delivered within the
   second is overtaken by a dead letter replayed after it.
   */
  lemma SqliteReplayOvertakes() returns (r: Run, i: nat, j: nat)
    ensures r.FromStart() && r.cfg == SqliteConfig(0) && r.cfg.BackoffFits() && |r.states| == |r.steps| + 1
    ensures PolledBy(r, "t", 0) && Current(r) && i < j < |r.steps| && !InOrder(r, "t", i, j)
  {
    var r0 := Run(SqliteConfig(0), [START], []);
    var r1, id1 := PublishAndFetch(r0);
    var r2 := KillFetched(r1, id1);
    var r3 := PollStep(r2, Tick(SECOND / 2));
    var r4, id2 := PublishAndFetch(r3);
    var r5 := AckFetched(r4, id2, NewRow("t", MESSAGE, SECOND / 2));
    r := ReplayAndFetch(r5);
    i, j := |r4.steps| - 1, |r.steps| - 1;
    ContinuesThrough(r4, r5, r);
    DeliveryStays(r4, r, i);
  }
}
