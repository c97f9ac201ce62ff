/**
 The statistics of a handler, which any number of invocations update concurrently: each starts and
 finishes under the lock, so that a run is an interleaving of starts and finishes.
 */
module HandlerStats {
  import opened Basics
  import opened LatencyWindow
  import opened ThroughputWindow

  const THROUGHPUT_WINDOW_SIZE: int := 60_000_000_000

  /** A category a classifier may answer; it may also be a text that means nothing here. */
  datatype Category = CategoryNone | Validation | Transport | Downstream | OtherCategory | Unknown(text: string)

  /** An error is its text; None is success. */
  type Classifier = Option<string> -> Category

  datatype Event =
    | Start
    | Finish(queueDepth: int, queueLag: int, duration: int, err: Option<string>, category: Category, at: int)

  function Front(events: seq<Event>): seq<Event>
    requires events != []
  {
    events[..|events| - 1]
  }

  function Latest(events: seq<Event>): Event
    requires events != []
  {
    events[|events| - 1]
  }

  // ---- errors ----

  datatype ErrorBreakdown = ErrorBreakdown(
    validation: nat, transport: nat, downstream: nat, other: nat, lastError: string)
  {
    function Total(): nat {
      validation + transport + downstream + other
    }

    /** The breakdown after one more message; success of category none leaves no trace. */
    function Record(category: Category, err: Option<string>): ErrorBreakdown {
      if category == CategoryNone && err.None? then this
      else
        var counted :=
          match category
          case Validation => this.(validation := validation + 1)
          case Transport => this.(transport := transport + 1)
          case Downstream => this.(downstream := downstream + 1)
          case _ => this.(other := other + 1);
        if err.Some? then counted.(lastError := err.value) else counted
    }
  }

  const NO_ERRORS := ErrorBreakdown(0, 0, 0, 0, "")

  // ---- the counters ----

  /** The counters that depend on the events alone. */
  datatype Counters = Counters(
    inFlight: nat, maxInFlight: nat, processed: nat, failed: nat, totalTime: int, errors: ErrorBreakdown)
  {
    function Started(): Counters {
      this.(inFlight := inFlight + 1, maxInFlight := Max(maxInFlight, inFlight + 1))
    }

    function Finished(duration: int, err: Option<string>, category: Category): Counters {
      Counters(if inFlight > 0 then inFlight - 1 else 0, maxInFlight, processed + 1,
               if err.Some? then failed + 1 else failed, WrapInt64(totalTime + duration),
               errors.Record(category, err))
    }

    /** The counters after one more event. */
    function After(e: Event): Counters {
      if e.Start? then Started() else Finished(e.duration, e.err, e.category)
    }
  }

  method CountFinish(before: Counters, duration: int, err: Option<string>, category: Category) returns (c: Counters)
    ensures c == before.Finished(duration, err, category)
  {
    c := before;
    if c.inFlight > 0 {
      c := c.(inFlight := c.inFlight - 1);
    }
    c := c.(processed := c.processed + 1);
    if err.Some? {
      c := c.(failed := c.failed + 1);
    }
    c := c.(totalTime := WrapInt64(c.totalTime + duration));
    c := c.(errors := c.errors.Record(category, err));
  }

  const NOTHING := Counters(0, 0, 0, 0, 0, NO_ERRORS)

  /** The counters after a run. */
  function Tallied(events: seq<Event>): Counters {
    if events == [] then NOTHING else Tallied(Front(events)).After(Latest(events))
  }

  lemma TallyOfLonger(events: seq<Event>, e: Event)
    ensures Tallied(events + [e]) == Tallied(events).After(e)
    ensures DurationsOf(events + [e]) == DurationsOf(events) + if e.Start? then [] else [e.duration]
    ensures TimesOf(events + [e]) == TimesOf(events) + if e.Start? then [] else [e.at]
  {
    assert Front(events + [e]) == events;
  }

  /** The number of events of a run that satisfy p. */
  function Count(events: seq<Event>, p: Event -> bool): nat {
    if events == [] then 0 else Count(Front(events), p) + if p(Latest(events)) then 1 else 0
  }

  const IS_START := (e: Event) => e.Start?
  const IS_FINISH := (e: Event) => e.Finish?
  const IS_FAILURE := (e: Event) => e.Finish? && e.err.Some?

  /** Successes that were put into a category of errors. */
  const IS_MISFILED := (e: Event) => e.Finish? && e.err.None? && e.category != CategoryNone

  lemma {:induction false} CountIsZeroIff(events: seq<Event>, p: Event -> bool)
    ensures Count(events, p) == 0 <==> forall i :: 0 <= i < |events| ==> !p(events[i])
  {
    if events != [] {
      CountIsZeroIff(Front(events), p);
      assert forall i :: 0 <= i < |events| - 1 ==> events[i] == Front(events)[i];
    }
  }

  /** Processed and failed count the finishes and the failures. */
  lemma {:induction false} TotalsCount(events: seq<Event>)
    ensures Tallied(events).processed == Count(events, IS_FINISH)
    ensures Tallied(events).failed == Count(events, IS_FAILURE)
  {
    if events != [] {
      TotalsCount(Front(events));
    }
  }

  lemma SumWraps(total: int, durations: seq<int>, d: int)
    requires total == WrapInt64(Sum(durations))
    ensures WrapInt64(total + d) == WrapInt64(Sum(durations + [d]))
  {
    SumOfLonger(durations, d);
    WrapAfterWrap(Sum(durations), d);
  }

  function DurationsOf(events: seq<Event>): seq<int> {
    if events == [] then []
    else if Latest(events).Start? then DurationsOf(Front(events))
    else DurationsOf(Front(events)) + [Latest(events).duration]
  }

  function TimesOf(events: seq<Event>): seq<int> {
    if events == [] then []
    else if Latest(events).Start? then TimesOf(Front(events))
    else TimesOf(Front(events)) + [Latest(events).at]
  }

  /** The total time is the sum of the durations, as int64 has it, one for each message processed. */
  lemma {:induction false} TimeIsSum(events: seq<Event>)
    ensures Tallied(events).totalTime == WrapInt64(Sum(DurationsOf(events)))
    ensures Tallied(events).processed == |DurationsOf(events)|
  {
    if events != [] {
      TimeIsSum(Front(events));
      if Latest(events).Finish? {
        SumWraps(Tallied(Front(events)).totalTime, DurationsOf(Front(events)), Latest(events).duration);
      }
    }
  }

  // ---- in flight ----

  function Open(events: seq<Event>): int {
    Count(events, IS_START) - Count(events, IS_FINISH)
  }

  /** At no time had more invocations finished than started. */
  predicate Matched(events: seq<Event>) {
    forall n: nat :: n <= |events| ==> Open(events[..n]) >= 0
  }

  lemma MatchedFront(events: seq<Event>)
    requires events != []
    ensures Matched(events) <==> Matched(Front(events)) && Open(events) >= 0
  {
    assert events[..|events|] == events;
    assert forall n: nat :: n < |events| ==> events[..n] == Front(events)[..n];
    assert Matched(events) && Open(events) >= 0 ==> Matched(Front(events));
  }

  lemma {:induction false} InFlightAtLeast(events: seq<Event>)
    ensures Tallied(events).inFlight >= Open(events)
    ensures Tallied(events).inFlight == Open(events) <==> Matched(events)
  {
    if events != [] {
      InFlightAtLeast(Front(events));
      MatchedFront(events);
    }
  }

  /** The counter is right if and only if starts and finishes are matched: one finish too many, and it never is again. */
  lemma InFlightExactIff(events: seq<Event>)
    ensures Tallied(events).inFlight == Count(events, IS_START) - Count(events, IS_FINISH) <==> Matched(events)
  {
    InFlightAtLeast(events);
  }

  /** The maximum is the largest number there ever was in flight. */
  lemma {:induction false} MaxIsLargest(events: seq<Event>) returns (peak: nat)
    ensures peak <= |events| && Tallied(events).maxInFlight == Tallied(events[..peak]).inFlight
    ensures forall n: nat :: n <= |events| ==> Tallied(events[..n]).inFlight <= Tallied(events).maxInFlight
  {
    if events == [] {
      return 0;
    }
    var front := Front(events);
    peak := MaxIsLargest(front);
    assert events[..peak] == front[..peak] && front[..|front|] == front && events[..|events|] == events;
    forall n: nat | n <= |events|
      ensures Tallied(events[..n]).inFlight <= Tallied(events).maxInFlight
    {
      if n < |events| {
        assert events[..n] == front[..n];
      }
    }
    if Tallied(events).maxInFlight != Tallied(front).maxInFlight {
      peak := |events|;
    }
  }

  // ---- the error buckets ----

  lemma BucketsStep(c: Counters, e: Event)
    ensures c.After(e).errors.Total() - c.After(e).failed
            == c.errors.Total() - c.failed + if IS_MISFILED(e) then 1 else 0
  {
  }

  lemma {:induction false} BucketsCount(events: seq<Event>)
    ensures Tallied(events).errors.Total() == Tallied(events).failed + Count(events, IS_MISFILED)
  {
    if events != [] {
      BucketsCount(Front(events));
      BucketsStep(Tallied(Front(events)), Latest(events));
    }
  }

  /** The buckets sum up to the failures if and only if the classifier put every success into category none. */
  lemma BucketsExactIff(events: seq<Event>)
    ensures Tallied(events).errors.Total() == Tallied(events).failed <==>
              forall i :: 0 <= i < |events| ==>
                !(events[i].Finish? && events[i].err.None? && events[i].category != CategoryNone)
  {
    BucketsCount(events);
    CountIsZeroIff(events, IS_MISFILED);
  }

  // ---- each bucket ----

  const IS_VALIDATION := (e: Event) => e.Finish? && e.category == Validation
  const IS_TRANSPORT := (e: Event) => e.Finish? && e.category == Transport
  const IS_DOWNSTREAM := (e: Event) => e.Finish? && e.category == Downstream

  /** Failures of no category, and whatever is put into category other or into one that means nothing. */
  const IS_OTHER := (e: Event) =>
    e.Finish? && (e.category == OtherCategory || e.category.Unknown? || (e.category == CategoryNone && e.err.Some?))

  /** Each bucket counts what was put into its category, success or failure. */
  lemma {:induction false} BucketsAre(events: seq<Event>)
    ensures var errors := Tallied(events).errors;
            && errors.validation == Count(events, IS_VALIDATION) && errors.transport == Count(events, IS_TRANSPORT)
            && errors.downstream == Count(events, IS_DOWNSTREAM) && errors.other == Count(events, IS_OTHER)
  {
    if events != [] {
      BucketsAre(Front(events));
    }
  }

  /** The last error is the text of the last failure, and empty before the first one. */
  lemma {:induction false} LastErrorIs(events: seq<Event>, i: nat)
    requires i <= |events|
    requires forall j :: i <= j < |events| ==> !IS_FAILURE(events[j])
    requires 0 < i ==> IS_FAILURE(events[i - 1])
    ensures Tallied(events).errors.lastError == if 0 < i then events[i - 1].err.value else ""
  {
    if i < |events| {
      LastErrorIs(Front(events), i);
      assert !IS_FAILURE(Latest(events));
    } else if 0 < i {
      assert IS_FAILURE(Latest(events));
    }
  }

  // ---- latency ----

  /** The latency shown: percentiles of the recent durations, but the average of all of them. */
  function LatencyOf(durations: seq<int>): LatencyMetrics {
    MetricsOf(durations, LATENCY_SAMPLE_SIZE).(
    averageNs := if durations == [] then 0 else TruncatedDiv(WrapInt64(Sum(durations)), |durations|))
  }

  lemma QuotientBounds(sum: nat, n: nat)
    requires 0 < n
    ensures sum / n * n <= sum < (sum / n + 1) * n
  {
    assert sum == sum / n * n + sum % n;
  }

  /** a is the mean of n numbers with this sum, rounded toward zero. */
  predicate IsMean(a: int, n: nat, sum: int) {
    if 0 <= sum then a * n <= sum < (a + 1) * n else (a - 1) * n < sum <= a * n
  }

  /** As long as the total time does not overflow, the average is the mean of all durations, rounded toward zero. */
  lemma AverageIsMean(durations: seq<int>)
    requires durations != [] && -TWO_TO_THE_63 <= Sum(durations) < TWO_TO_THE_63
    ensures IsMean(LatencyOf(durations).averageNs, |durations|, Sum(durations))
    ensures LatencyOf(durations).lastNs == durations[|durations| - 1]
  {
    AverageShown(durations);
    TruncatedBounds(Sum(durations), |durations|);
  }

  lemma AverageShown(durations: seq<int>)
    requires durations != [] && -TWO_TO_THE_63 <= Sum(durations) < TWO_TO_THE_63
    ensures LatencyOf(durations).averageNs == TruncatedDiv(Sum(durations), |durations|)
    ensures LatencyOf(durations).lastNs == durations[|durations| - 1]
  {
  }

  lemma TruncatedBounds(sum: int, n: nat)
    requires 0 < n
    ensures IsMean(TruncatedDiv(sum, n), n, sum)
  {
    if 0 <= sum {
      QuotientBounds(sum, n);
    } else {
      QuotientBounds(-sum, n);
      Negated(-sum / n, n);
    }
  }

  lemma Negated(q: int, n: int)
    ensures -q * n == -(q * n) && (-q - 1) * n == -((q + 1) * n)
  {
  }

  /** The percentiles shown are those of the last 256 durations. */
  lemma LatencyTells(durations: seq<int>)
    requires durations != [] && Durations(durations)
    ensures TellsQuantiles(LatencyOf(durations), SortSamples(durations[if |durations| < 256 then 0 else |durations| - 256..]))
    ensures LatencyOf(durations).sampleSize == if |durations| < 256 then |durations| else 256
  {
    MetricsTellQuantiles(durations, LATENCY_SAMPLE_SIZE);
    var m := MetricsOf(durations, LATENCY_SAMPLE_SIZE);
    assert Recent(durations, LATENCY_SAMPLE_SIZE) == durations[if |durations| < 256 then 0 else |durations| - 256..];
  }

  predicate Shows(latency: LatencyMetrics, durations: seq<int>) {
    latency == LatencyOf(durations)
  }

  // ---- dependencies ----

  datatype Status = StatusUnknown | Healthy | Degraded

  datatype Dependency = Dependency(name: string, status: Status, details: string, lastChecked: int)

  function Subscriber(queue: string): string {
    "subscriber:" + queue
  }

  function Publisher(queue: string): string {
    "publisher:" + queue
  }

  lemma RolesDiffer(a: string, b: string)
    ensures Subscriber(a) != Publisher(b) && Subscriber(a) != "" && Publisher(b) != ""
  {
    assert Subscriber(a)[0] == 's' && Publisher(b)[0] == 'p';
  }

  /** The index points, for every name, at the entry of that name, and there is only one. */
  predicate Indexed(deps: seq<Dependency>, index: map<string, nat>) {
    && (forall name :: name in index ==> index[name] < |deps| && deps[index[name]].name == name)
    && (forall i :: 0 <= i < |deps| ==> deps[i].name in index && index[deps[i].name] == i)
  }

  function EntryOf(deps: seq<Dependency>, index: map<string, nat>, name: string): Option<Dependency>
    requires Indexed(deps, index)
  {
    if name in index then Some(deps[index[name]]) else None
  }

  /** lag is the time elapsed in whole milliseconds, or 0 if that is negative. */
  predicate InMillis(lag: int, elapsed: int) {
    0 <= lag && lag * 1_000_000 <= Max(0, elapsed) < (lag + 1) * 1_000_000
  }

  /** extractBacklogHints: -1 stands for what the metadata does not say. */
  method BacklogHints(depth: Option<int>, enqueuedAt: Option<int>, at: int) returns (queueDepth: int, queueLag: int)
    ensures queueDepth == if depth.Some? then depth.value else -1
    ensures enqueuedAt.None? ==> queueLag == -1
    ensures enqueuedAt.Some? ==> InMillis(queueLag, at - enqueuedAt.value)
  {
    queueDepth := if depth.Some? then depth.value else -1;
    queueLag := -1;
    if enqueuedAt.Some? {
      queueLag := TruncatedDiv(at - enqueuedAt.value, NANOS_PER_MILLI);
      if queueLag < 0 {
        queueLag := 0;
      }
    }
  }

  // ---- the statistics ----

  class HandlerStats {
    const consumeQueue: string
    const publishQueue: string
    var counters: Counters
    var lastQueueDepth: int
    var estimatedLag: int
    var lastProcessedAt: int
    var latency: LatencyMetrics
    var throughput: ThroughputSnapshot
    var totalMessages: nat
    var dependencies: seq<Dependency>
    var dependencyIndex: map<string, nat>
    const latencyWindow: LatencyWindow
    const throughputWindow: ThroughputWindow
    ghost var events: seq<Event>
    ghost var durations: seq<int>
    ghost var times: seq<int>

    ghost predicate Latencies()
      reads `durations, latencyWindow, latencyWindow.samples
    {
      && latencyWindow.Valid() && latencyWindow.samples.Length == LATENCY_SAMPLE_SIZE
      && latencyWindow.history == durations
    }

    ghost predicate Throughputs()
      reads `times, throughputWindow
    {
      && throughputWindow.Valid() && throughputWindow.horizon == THROUGHPUT_WINDOW_SIZE
      && throughputWindow.history == times
    }

    ghost predicate Tallies()
      reads `counters, `totalMessages, `events, `durations, `times
    {
      && counters == Tallied(events) && totalMessages == counters.processed
      && durations == DurationsOf(events) && times == TimesOf(events)
    }

    ghost predicate Valid()
      reads this, latencyWindow, latencyWindow.samples, throughputWindow
    {
      Tallies() && Latencies() && Throughputs() && Indexed(dependencies, dependencyIndex)
    }

    constructor (consumeQueue: string, publishQueue: string)
      ensures Valid() && events == []
      ensures fresh(latencyWindow) && fresh(latencyWindow.samples) && fresh(throughputWindow)
      ensures this.consumeQueue == consumeQueue && this.publishQueue == publishQueue
      ensures lastQueueDepth == -1 && estimatedLag == -1 && lastProcessedAt == 0
      ensures latency == LatencyMetrics(0, 0, 0, 0, 0, 0) && throughput == ThroughputSnapshot(0, 0.0, 0.0)
      ensures latencyWindow.samples.Length == 256 && throughputWindow.horizon == 60_000_000_000
      ensures dependencyIndex.Keys == (if consumeQueue != "" then {"subscriber:" + consumeQueue} else {})
                                      + (if publishQueue != "" then {"publisher:" + publishQueue} else {})
    {
      this.consumeQueue, this.publishQueue := consumeQueue, publishQueue;
      counters, lastQueueDepth, estimatedLag, lastProcessedAt, totalMessages := NOTHING, -1, -1, 0, 0;
      latency, throughput := LatencyMetrics(0, 0, 0, 0, 0, 0), ThroughputSnapshot(0, 0.0, 0.0);
      dependencies, dependencyIndex := [], map[];
      events, durations, times := [], [], [];
      latencyWindow := new LatencyWindow(LATENCY_SAMPLE_SIZE);
      throughputWindow := new ThroughputWindow(THROUGHPUT_WINDOW_SIZE);
      new;
      AddDependencies();
    }

    method AddDependencies()
      requires dependencies == [] && dependencyIndex == map[]
      modifies `dependencies, `dependencyIndex
      ensures Indexed(dependencies, dependencyIndex)
      ensures dependencyIndex.Keys == (if consumeQueue != "" then {Subscriber(consumeQueue)} else {})
                                      + (if publishQueue != "" then {Publisher(publishQueue)} else {})
    {
      RolesDiffer(consumeQueue, publishQueue);
      if consumeQueue != "" {
        AddDependency(Subscriber(consumeQueue));
      }
      if publishQueue != "" {
        AddDependency(Publisher(publishQueue));
      }
    }

    /** Appends an entry; the index finds the latest of a name, and every entry while the names are new. */
    method AddDependency(name: string)
      modifies `dependencies, `dependencyIndex
      ensures dependencies == old(dependencies) + [Dependency(name, StatusUnknown, "", 0)]
      ensures dependencyIndex == old(dependencyIndex)[name := |old(dependencies)|]
      ensures old(Indexed(dependencies, dependencyIndex)) ==>
                (Indexed(dependencies, dependencyIndex) <==> name !in old(dependencyIndex))
    {
      ghost var index := dependencyIndex;
      dependencies := dependencies + [Dependency(name, StatusUnknown, "", 0)];
      dependencyIndex := dependencyIndex[name := |dependencies| - 1];
      if old(Indexed(dependencies, dependencyIndex)) && name in index {
        assert dependencies[index[name]].name == name && dependencyIndex[name] != index[name];
      }
    }

    /**
     onMessageStart: depth and enqueuedAt are what the message's metadata says, if it says it; the
     hints handed on to onMessageFinish are -1 for what it does not say.
     */
    method OnMessageStart(depth: Option<int>, enqueuedAt: Option<int>, at: int) returns (queueDepth: int, queueLag: int)
      requires Valid()
      modifies `counters, `events
      ensures Valid() && events == old(events) + [Start]
      ensures queueDepth == if depth.Some? then depth.value else -1
      ensures enqueuedAt.None? ==> queueLag == -1
      ensures enqueuedAt.Some? ==> InMillis(queueLag, at - enqueuedAt.value)
    {
      queueDepth, queueLag := BacklogHints(depth, enqueuedAt, at);
      CountStart();
    }

    method CountStart()
      requires Tallies()
      modifies `counters, `events
      ensures Tallies() && events == old(events) + [Start]
    {
      TallyOfLonger(events, Start);
      counters := counters.(inFlight := counters.inFlight + 1);
      if counters.inFlight > counters.maxInFlight {
        counters := counters.(maxInFlight := counters.inFlight);
      }
      events := events + [Start];
    }

    /** setDependencyStatusLocked, which ignores an empty name. */
    method SetDependencyStatus(name: string, status: Status, details: string, at: int)
      requires Indexed(dependencies, dependencyIndex)
      modifies `dependencies, `dependencyIndex
      ensures Indexed(dependencies, dependencyIndex)
      ensures name != "" ==> EntryOf(dependencies, dependencyIndex, name) == Some(Dependency(name, status, details, at))
      ensures forall other :: other != name || name == "" ==>
                EntryOf(dependencies, dependencyIndex, other) == old(EntryOf(dependencies, dependencyIndex, other))
    {
      if name == "" {
        return;
      }
      if name !in dependencyIndex {
        dependencies := dependencies + [Dependency(name, StatusUnknown, "", 0)];
        dependencyIndex := dependencyIndex[name := |dependencies| - 1];
      }
      var idx := dependencyIndex[name];
      var dep := dependencies[idx];
      dependencies := dependencies[idx := dep.(status := status, details := details, lastChecked := at)];
    }

    /** The subscriber is healthy, and so is the publisher, if there is one, unless the handler failed. */
    predicate DependenciesTell(err: Option<string>, at: int)
      reads `dependencies, `dependencyIndex
    {
      && Indexed(dependencies, dependencyIndex)
      && EntryOf(dependencies, dependencyIndex, "subscriber:" + consumeQueue)
         == Some(Dependency("subscriber:" + consumeQueue, Healthy, "", at))
      && (publishQueue != "" ==>
            EntryOf(dependencies, dependencyIndex, "publisher:" + publishQueue)
            == Some(if err.Some? then Dependency("publisher:" + publishQueue, Degraded, err.value, at)
                    else Dependency("publisher:" + publishQueue, Healthy, "", at)))
    }

    /** onMessageFinish: at is the time of the call, queueDepth and queueLag the hints taken at the start. */
    method OnMessageFinish(queueDepth: int, queueLag: int, duration: int, err: Option<string>, classify: Classifier,
                           at: int)
      requires Valid()
      modifies this, latencyWindow, latencyWindow.samples, throughputWindow
      ensures Valid()
      ensures events == old(events) + [Finish(queueDepth, queueLag, duration, err, classify(err), at)]
      ensures lastQueueDepth == if queueDepth >= 0 then queueDepth else old(lastQueueDepth)
      ensures estimatedLag == if queueLag >= 0 then queueLag else old(estimatedLag)
      ensures lastProcessedAt == at
      ensures Shows(latency, durations) && Describes(throughput, throughputWindow.samples, at)
      ensures DependenciesTell(err, at)
    {
      RecordFinish(queueDepth, queueLag, duration, err, classify(err), at);
      assert Tallies() && Latencies() && Throughputs();
      UpdateDependencies(err, at);
      assert Tallies() && Latencies() && Throughputs();
    }

    /** onMessageFinish but for the dependencies. */
    method RecordFinish(queueDepth: int, queueLag: int, duration: int, err: Option<string>, category: Category, at: int)
      requires Tallies() && Latencies() && Throughputs()
      modifies this, latencyWindow, latencyWindow.samples, throughputWindow
      ensures Tallies() && Latencies() && Throughputs()
      ensures events == old(events) + [Finish(queueDepth, queueLag, duration, err, category, at)]
      ensures lastQueueDepth == if queueDepth >= 0 then queueDepth else old(lastQueueDepth)
      ensures estimatedLag == if queueLag >= 0 then queueLag else old(estimatedLag)
      ensures lastProcessedAt == at
      ensures Shows(latency, durations) && Describes(throughput, throughputWindow.samples, at)
      ensures dependencies == old(dependencies) && dependencyIndex == old(dependencyIndex)
    {
      latencyWindow.Add(duration);
      var recent := latencyWindow.Snapshot();
      var rate := throughputWindow.AddAndSnapshot(at);
      Register(queueDepth, queueLag, duration, err, category, at, rate);
      ShowLatency(recent, duration);
    }

    method Register(queueDepth: int, queueLag: int, duration: int, err: Option<string>, category: Category, at: int,
                    rate: ThroughputSnapshot)
      requires Tallies()
      modifies this
      ensures Tallies()
      ensures events == old(events) + [Finish(queueDepth, queueLag, duration, err, category, at)]
      ensures durations == old(durations) + [duration] && times == old(times) + [at]
      ensures lastQueueDepth == if queueDepth >= 0 then queueDepth else old(lastQueueDepth)
      ensures estimatedLag == if queueLag >= 0 then queueLag else old(estimatedLag)
      ensures lastProcessedAt == at && throughput == rate
      ensures dependencies == old(dependencies) && dependencyIndex == old(dependencyIndex)
    {
      UpdateFields(queueDepth, queueLag, duration, err, category, at, rate);
      Note(Finish(queueDepth, queueLag, duration, err, category, at));
    }

    /** What onMessageFinish does to the fields, given what the throughput window shows. */
    method UpdateFields(queueDepth: int, queueLag: int, duration: int, err: Option<string>, category: Category, at: int,
                    rate: ThroughputSnapshot)
      modifies `counters, `lastQueueDepth, `estimatedLag, `lastProcessedAt, `throughput, `totalMessages
      ensures counters == old(counters).Finished(duration, err, category)
      ensures lastQueueDepth == if queueDepth >= 0 then queueDepth else old(lastQueueDepth)
      ensures estimatedLag == if queueLag >= 0 then queueLag else old(estimatedLag)
      ensures lastProcessedAt == at && throughput == rate && totalMessages == counters.processed
    {
      if queueDepth >= 0 {
        lastQueueDepth := queueDepth;
      }
      if queueLag >= 0 {
        estimatedLag := queueLag;
      }
      counters := CountFinish(counters, duration, err, category);
      lastProcessedAt, throughput, totalMessages := at, rate, counters.processed;
    }

    ghost method Note(e: Event)
      requires e.Finish? && counters == Tallied(events).After(e) && totalMessages == counters.processed
      requires durations == DurationsOf(events) && times == TimesOf(events)
      modifies `events, `durations, `times
      ensures Tallies() && events == old(events) + [e]
      ensures durations == old(durations) + [e.duration] && times == old(times) + [e.at]
    {
      TallyOfLonger(events, e);
      events, durations, times := events + [e], durations + [e.duration], times + [e.at];
    }

    method ShowLatency(recent: LatencyMetrics, duration: int)
      requires Tallies() && durations != [] && duration == durations[|durations| - 1]
      requires recent == MetricsOf(durations, LATENCY_SAMPLE_SIZE)
      modifies `latency
      ensures Shows(latency, durations)
    {
      TimeIsSum(events);
      latency := recent.(lastNs := duration, averageNs := TruncatedDiv(counters.totalTime, counters.processed));
    }

    /** The part of onMessageFinish that updates the dependencies. */
    method UpdateDependencies(err: Option<string>, at: int)
      requires Indexed(dependencies, dependencyIndex)
      modifies `dependencies, `dependencyIndex
      ensures DependenciesTell(err, at)
      ensures publishQueue != "" && err.Some? ==>
                EntryOf(dependencies, dependencyIndex, "publisher:" + publishQueue)
                == Some(Dependency("publisher:" + publishQueue, Degraded, err.value, at))
      ensures publishQueue != "" && err.None? ==>
                EntryOf(dependencies, dependencyIndex, "publisher:" + publishQueue)
                == Some(Dependency("publisher:" + publishQueue, Healthy, "", at))
      ensures EntryOf(dependencies, dependencyIndex, "subscriber:" + consumeQueue)
              == Some(Dependency("subscriber:" + consumeQueue, Healthy, "", at))
    {
      RolesDiffer(consumeQueue, publishQueue);
      SetDependencyStatus(Subscriber(consumeQueue), Healthy, "", at);
      if publishQueue != "" {
        var status, details := Healthy, "";
        if err.Some? {
          status, details := Degraded, err.value;
        }
        SetDependencyStatus(Publisher(publishQueue), status, details, at);
      }
    }
  }
}
