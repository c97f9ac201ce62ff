/**
 The dead letter metrics of each topic. Every topic has a heap object of its own, which the map of
 topics points to; averages are reals.
 */
module DlqMetrics {
  import opened Basics

  /** The value a Go uint64 has after a conversion from int64. */
  function ToUint64(count: int): nat
    requires -TWO_TO_THE_63 <= count < TWO_TO_THE_63
  {
    if 0 <= count then count else count + TWO_TO_THE_64
  }

  // ---- what is counted ----

  /** The average of one more number, given that of n. */
  function Rolled(average: real, n: nat, x: int): real {
    (average * n as real + x as real) / (n + 1) as real
  }

  datatype Operation =
    | Received(retries: int, at: int)
    | Replayed(at: int)
    | Purged(count: nat, at: int)
    | Synced(count: nat, at: int)

  /** oldestAt and newestAt are None until a message has been received. */
  datatype Counts = Counts(
    received: nat, current: nat, replayed: nat, purged: nat, averageRetries: real,
    oldestAt: Option<int>, newestAt: Option<int>, updatedAt: Option<int>)
  {
    /** The counts after one more operation. */
    function After(op: Operation): Counts {
      match op
      case Received(retries, at) =>
        Counts(received + 1, current + 1, replayed, purged, Rolled(averageRetries, received, retries),
               if oldestAt.None? then Some(at) else oldestAt, Some(at), Some(at))
      case Replayed(at) =>
        this.(replayed := replayed + 1, current := if current > 0 then current - 1 else 0, updatedAt := Some(at))
      case Purged(count, at) =>
        this.(purged := WrapUint64(purged + count), current := if current >= count then current - count else 0,
              updatedAt := Some(at))
      case Synced(count, at) =>
        this.(current := count, updatedAt := Some(at))
    }
  }

  const NOTHING := Counts(0, 0, 0, 0, 0.0, None, None, None)

  /** The counts of a topic after a run. */
  function Counted(log: seq<Operation>): Counts {
    if log == [] then NOTHING else Counted(log[..|log| - 1]).After(log[|log| - 1])
  }

  lemma CountedLonger(log: seq<Operation>, op: Operation)
    ensures Counted(log + [op]) == Counted(log).After(op)
  {
    assert (log + [op])[..|log|] == log;
  }

  // ---- the average ----

  function RetriesOf(log: seq<Operation>): seq<int> {
    if log == [] then []
    else
      var op := log[|log| - 1];
      RetriesOf(log[..|log| - 1]) + if op.Received? then [op.retries] else []
  }

  /** The sum of the retry counts, as far as the average and the number of messages tell. */
  function SumTold(average: real, n: nat): real {
    average * n as real
  }

  lemma ProductOfQuotient(x: real, n: real)
    requires 0.0 < n
    ensures x / n * n == x
  {
  }

  /** One step of the rolling average tells the exact sum. */
  lemma RollingStep(average: real, n: nat, x: int)
    ensures SumTold(Rolled(average, n, x), n + 1) == SumTold(average, n) + x as real
  {
    ProductOfQuotient(average * n as real + x as real, (n + 1) as real);
  }

  lemma StepTold(c: Counts, op: Operation)
    ensures var d := c.After(op);
            && d.received == c.received + (if op.Received? then 1 else 0)
            && SumTold(d.averageRetries, d.received)
               == SumTold(c.averageRetries, c.received) + (if op.Received? then op.retries as real else 0.0)
  {
    if op.Received? {
      RollingStep(c.averageRetries, c.received, op.retries);
    }
  }

  lemma {:induction false} AverageTellsSum(log: seq<Operation>)
    ensures Counted(log).received == |RetriesOf(log)|
    ensures SumTold(Counted(log).averageRetries, Counted(log).received) == Sum(RetriesOf(log)) as real
  {
    if log != [] {
      var front, op := log[..|log| - 1], log[|log| - 1];
      AverageTellsSum(front);
      StepTold(Counted(front), op);
      if op.Received? {
        SumOfLonger(RetriesOf(front), op.retries);
      } else {
        assert RetriesOf(front) + [] == RetriesOf(front);
      }
    }
  }

  lemma MeanTold(average: real, n: nat, sum: real)
    requires 0 < n && SumTold(average, n) == sum
    ensures average == sum / n as real
  {
  }

  /** The rolling average is the exact mean of all retry counts recorded. */
  lemma AverageIsMean(log: seq<Operation>)
    requires RetriesOf(log) != []
    ensures Counted(log).averageRetries == Sum(RetriesOf(log)) as real / |RetriesOf(log)| as real
  {
    AverageTellsSum(log);
    MeanTold(Counted(log).averageRetries, |RetriesOf(log)|, Sum(RetriesOf(log)) as real);
  }

  // ---- when ----

  /** When messages were received. */
  function ReceptionsOf(log: seq<Operation>): seq<int> {
    if log == [] then []
    else
      var op := log[|log| - 1];
      ReceptionsOf(log[..|log| - 1]) + if op.Received? then [op.at] else []
  }

  /** The counts tell when the first and the last message was received, and when the last operation was. */
  lemma {:induction false} TimesTold(log: seq<Operation>)
    ensures var c, times := Counted(log), ReceptionsOf(log);
            && |times| == c.received
            && c.oldestAt == (if times == [] then None else Some(times[0]))
            && c.newestAt == (if times == [] then None else Some(times[|times| - 1]))
            && c.updatedAt == (if log == [] then None else Some(log[|log| - 1].at))
  {
    if log != [] {
      TimesTold(log[..|log| - 1]);
    }
  }

  // ---- after a correction ----

  /** SetCurrentCount overwrites the current count, whatever it was, and no other number. */
  lemma CorrectedTo(log: seq<Operation>, count: nat, at: int)
    ensures Counted(log + [Synced(count, at)]) == Counted(log).(current := count, updatedAt := Some(at))
  {
    CountedLonger(log, Synced(count, at));
  }

  // ---- the balance ----

  /** More messages replayed or purged than the count at the time says there are, or the count set to another number. */
  predicate Upsets(c: Counts, op: Operation) {
    match op
    case Received(_, _) => false
    case Replayed(_) => c.current == 0
    case Purged(count, _) => c.current < count
    case Synced(count, _) => c.current != count
  }

  predicate NeverSynced(log: seq<Operation>) {
    forall i :: 0 <= i < |log| ==> !log[i].Synced?
  }

  predicate NeverUpset(log: seq<Operation>) {
    log != [] ==>
      var front := log[..|log| - 1];
      NeverUpset(front) && !Upsets(Counted(front), log[|log| - 1])
  }

  function PurgedBy(log: seq<Operation>): nat {
    if log == [] then 0
    else
      var op := log[|log| - 1];
      PurgedBy(log[..|log| - 1]) + if op.Purged? then op.count else 0
  }

  /** What is purged is counted modulo 2^64. */
  lemma {:induction false} PurgedWraps(log: seq<Operation>)
    ensures Counted(log).purged == WrapUint64(PurgedBy(log))
  {
    if log != [] {
      var front, op := log[..|log| - 1], log[|log| - 1];
      PurgedWraps(front);
      if op.Purged? {
        WrapUint64Sum(PurgedBy(front), op.count);
      }
    }
  }

  /** What is told of the messages beyond those received. */
  function Surplus(log: seq<Operation>): int {
    var c := Counted(log);
    c.current + c.replayed + PurgedBy(log) - c.received
  }

  lemma {:induction false} SurplusOnlyGrows(log: seq<Operation>)
    requires NeverSynced(log)
    ensures Surplus(log) >= 0
    ensures Surplus(log) == 0 <==> NeverUpset(log)
  {
    if log != [] {
      var front := log[..|log| - 1];
      assert forall i :: 0 <= i < |front| ==> front[i] == log[i];
      SurplusOnlyGrows(front);
    }
  }

  /**
   Without SetCurrentCount, what was received is what is there, was replayed or was purged if and
   only if no more than the current count was ever replayed or purged. The purge counter tells what was
   purged up to 2^64.
   */
  lemma BalancedIff(log: seq<Operation>)
    requires NeverSynced(log)
    ensures var c := Counted(log);
            && (c.received == c.current + c.replayed + PurgedBy(log) <==> NeverUpset(log))
            && c.purged == WrapUint64(PurgedBy(log))
  {
    SurplusOnlyGrows(log);
    PurgedWraps(log);
  }

  // ---- totals ----

  datatype Totals = Totals(messages: nat, replayed: nat, purged: nat) {
    function Plus(c: Counts): Totals {
      Totals(messages + c.current, replayed + c.replayed, purged + c.purged)
    }

    function Add(that: Totals): Totals {
      Totals(messages + that.messages, replayed + that.replayed, purged + that.purged)
    }
  }

  const NO_TOTALS := Totals(0, 0, 0)

  lemma AddNothing(t: Totals)
    ensures NO_TOTALS.Add(t) == t && t.Add(NO_TOTALS) == t
  {
  }

  /** The sums over all topics, in whatever order. */
  ghost function Sums<K>(m: map<K, Counts>): Totals {
    if m == map[] then NO_TOTALS
    else
      var k :| k in m;
      Sums(m - {k}).Plus(m[k])
  }

  lemma {:induction false} AnyLast<K>(m: map<K, Counts>, k: K)
    requires k in m
    ensures Sums(m) == Sums(m - {k}).Plus(m[k])
    decreases |m|
  {
    var j :| j in m && Sums(m) == Sums(m - {j}).Plus(m[j]);
    if j != k {
      var a, b := m - {j}, m - {k};
      AnyLast(a, k);
      AnyLast(b, j);
      assert a - {k} == b - {j} && a[k] == m[k] && b[j] == m[j];
      PlusCommutes(Sums(a - {k}), m[k], m[j]);
    }
  }

  /** The order makes no difference: any topic may be the last one added, with what is current, replayed and purged. */
  lemma SumsWithout<K>(m: map<K, Counts>, k: K)
    ensures Sums<K>(map[]) == Totals(0, 0, 0)
    ensures k in m ==>
              var rest := Sums(m - {k});
              Sums(m) == Totals(rest.messages + m[k].current, rest.replayed + m[k].replayed, rest.purged + m[k].purged)
  {
    if k in m {
      AnyLast(m, k);
    }
  }

  lemma PlusCommutes(t: Totals, c: Counts, d: Counts)
    ensures t.Plus(c).Plus(d) == t.Plus(d).Plus(c)
  {
  }

  datatype Snapshot = Snapshot(totals: Totals, topics: map<string, Counts>, collectedAt: int)

  lemma AddStep<K>(sums: Totals, totals: Totals, todo: map<K, Counts>, k: K)
    requires sums == totals.Add(Sums(todo)) && k in todo
    ensures sums == totals.Plus(todo[k]).Add(Sums(todo - {k}))
    ensures |todo - {k}| < |todo|
  {
    SumsWithout(todo, k);
  }

  /** The loop of GetSnapshot, which adds up the counts of one topic after the other. */
  method AddUp<K(==)>(views: map<K, Counts>) returns (totals: Totals)
    ensures totals == Sums(views)
  {
    ghost var sums := Sums(views);
    totals := NO_TOTALS;
    AddNothing(sums);
    var todo := views;
    while todo != map[]
      invariant sums == totals.Add(Sums(todo))
      decreases |todo|
    {
      var k :| k in todo;
      AddStep(sums, totals, todo, k);
      totals := totals.Plus(todo[k]);
      todo := todo - {k};
    }
    AddNothing(totals);
  }

  // ---- the metrics ----

  class TopicMetrics {
    var received: nat
    var current: nat
    var replayed: nat
    var purged: nat
    var averageRetries: real
    var oldestAt: Option<int>
    var newestAt: Option<int>
    var updatedAt: Option<int>
    ghost var log: seq<Operation>

    function View(): Counts
      reads this
    {
      Counts(received, current, replayed, purged, averageRetries, oldestAt, newestAt, updatedAt)
    }

    ghost predicate Valid()
      reads this
    {
      View() == Counted(log)
    }

    constructor ()
      ensures Valid() && log == []
    {
      received, current, replayed, purged, averageRetries := 0, 0, 0, 0, 0.0;
      oldestAt, newestAt, updatedAt := None, None, None;
      log := [];
    }

    method Receive(retryCount: int, now: int)
      requires Valid()
      modifies this
      ensures Valid() && log == old(log) + [Received(retryCount, now)]
    {
      ghost var after := View().After(Received(retryCount, now));
      var average := Rolled(averageRetries, received, retryCount);
      received := received + 1;
      current := current + 1;
      updatedAt := Some(now);
      if oldestAt.None? {
        oldestAt := Some(now);
      }
      newestAt := Some(now);
      averageRetries := average;
      assert View() == after;
      CountedLonger(log, Received(retryCount, now));
      log := log + [Received(retryCount, now)];
    }

    method Replay(now: int)
      requires Valid()
      modifies this
      ensures Valid() && log == old(log) + [Replayed(now)]
    {
      ghost var after := View().After(Replayed(now));
      replayed := replayed + 1;
      if current > 0 {
        current := current - 1;
      }
      updatedAt := Some(now);
      assert View() == after;
      CountedLonger(log, Replayed(now));
      log := log + [Replayed(now)];
    }

    method Purge(count: nat, now: int)
      requires Valid()
      modifies this
      ensures Valid() && log == old(log) + [Purged(count, now)]
    {
      ghost var after := View().After(Purged(count, now));
      purged := WrapUint64(purged + count);
      if current >= count {
        current := current - count;
      } else {
        current := 0;
      }
      updatedAt := Some(now);
      assert View() == after;
      CountedLonger(log, Purged(count, now));
      log := log + [Purged(count, now)];
    }

    method Sync(count: nat, now: int)
      requires Valid()
      modifies this
      ensures Valid() && log == old(log) + [Synced(count, now)]
    {
      ghost var after := View().After(Synced(count, now));
      current := count;
      updatedAt := Some(now);
      assert View() == after;
      CountedLonger(log, Synced(count, now));
      log := log + [Synced(count, now)];
    }

    method Apply(op: Operation)
      requires Valid()
      modifies this
      ensures Valid() && log == old(log) + [op]
    {
      match op {
        case Received(retries, at) => Receive(retries, at);
        case Replayed(at) => Replay(at);
        case Purged(count, at) => Purge(count, at);
        case Synced(count, at) => Sync(count, at);
      }
    }
  }

  class Metrics {
    var topics: map<string, TopicMetrics>

    /** No two topics share an object. */
    ghost predicate Valid()
      reads this, topics.Values
    {
      && (forall t :: t in topics ==> topics[t].Valid())
      && (forall t, u :: t in topics && u in topics && t != u ==> topics[t] != topics[u])
    }

    /** What has been recorded for a topic. */
    ghost function Log(topic: string): seq<Operation>
      reads this, topics.Values
    {
      if topic in topics then topics[topic].log else []
    }

    constructor ()
      ensures Valid() && topics == map[]
    {
      topics := map[];
    }

    /** One more operation has been recorded for the topic, and nothing for any other. */
    twostate predicate Recorded(topic: string, op: Operation)
      reads this, topics.Values
    {
      && topics.Keys == old(topics.Keys) + {topic}
      && Log(topic) == old(Log(topic)) + [op]
      && forall other :: other != topic ==> Log(other) == old(Log(other))
    }

    /** getOrCreateTopicMetrics. */
    method GetOrCreate(topic: string) returns (m: TopicMetrics)
      requires Valid()
      modifies this
      ensures Valid() && topic in topics && topics[topic] == m
      ensures topics.Keys == old(topics.Keys) + {topic}
      ensures forall t :: t in old(topics) ==> topics[t] == old(topics[t])
      ensures topic !in old(topics) ==> fresh(m) && m.log == []
      ensures forall t :: Log(t) == old(Log(t))
    {
      if topic in topics {
        return topics[topic];
      }
      m := new TopicMetrics();
      topics := topics[topic := m];
    }

    /** The topic has an object, which notes the operation. */
    method RecordKnown(topic: string, op: Operation)
      requires Valid() && topic in topics
      modifies topics.Values
      ensures Valid() && Log(topic) == old(Log(topic)) + [op]
      ensures forall other :: other != topic ==> Log(other) == old(Log(other))
    {
      topics[topic].Apply(op);
    }

    /** What all operations have in common: the topic's object is found or made, and notes the operation. */
    method Record(topic: string, op: Operation)
      requires Valid()
      modifies this, topics.Values
      ensures Valid() && Recorded(topic, op)
    {
      var _ := GetOrCreate(topic);
      RecordKnown(topic, op);
    }

    method RecordMessageToDLQ(topic: string, retryCount: int, now: int)
      requires Valid()
      modifies this, topics.Values
      ensures Valid() && Recorded(topic, Received(retryCount, now))
    {
      Record(topic, Received(retryCount, now));
    }

    method RecordMessageReplayed(topic: string, now: int)
      requires Valid()
      modifies this, topics.Values
      ensures Valid() && Recorded(topic, Replayed(now))
    {
      Record(topic, Replayed(now));
    }

    method RecordMessagesPurged(topic: string, count: int, now: int)
      requires Valid() && -TWO_TO_THE_63 <= count < TWO_TO_THE_63
      modifies this, topics.Values
      ensures Valid() && Recorded(topic, Purged(if 0 <= count then count else count + 0x1_0000_0000_0000_0000, now))
    {
      Record(topic, Purged(ToUint64(count), now));
    }

    method SetCurrentCount(topic: string, count: nat, now: int)
      requires Valid()
      modifies this, topics.Values
      ensures Valid() && Recorded(topic, Synced(count, now))
    {
      Record(topic, Synced(count, now));
    }

    /** Copies of the counts of all topics. */
    function Views(): map<string, Counts>
      reads this, topics.Values
    {
      map t | t in topics :: topics[t].View()
    }

    lemma ViewsAreCounted()
      requires Valid()
      ensures Views().Keys == topics.Keys && forall t :: t in topics ==> Views()[t] == Counted(Log(t))
    {
      forall t | t in topics
        ensures Views()[t] == Counted(Log(t))
      {
        assert topics[t].Valid();
      }
    }

    method GetSnapshot(now: int) returns (s: Snapshot)
      requires Valid()
      ensures s.topics.Keys == topics.Keys && s.collectedAt == now
      ensures forall t :: t in topics ==> s.topics[t] == Counted(Log(t))
      ensures s.totals == Sums(s.topics)
    {
      var totals := AddUp(Views());
      s := Snapshot(totals, Views(), now);
      ViewsAreCounted();
    }

    /** GetTopicMetrics. */
    method GetTopicMetrics(topic: string) returns (c: Option<Counts>)
      requires Valid()
      ensures c == if topic in topics then Some(Counted(Log(topic))) else None
    {
      c := if topic in topics then Some(topics[topic].View()) else None;
    }

    /** Every topic starts from nothing again. */
    method Reset()
      requires Valid()
      modifies this
      ensures Valid() && topics == map[]
    {
      topics := map[];
    }
  }
}
