/**
 What becomes of an event whose handler fails: counting attempts, republishing with a delay, and
 the dead letter at the end. Here as functions on event values; EventService proves that the code,
 which works on a shared extension map, computes them.
 */
module Lifecycle {
  import opened Basics
  import opened ErrorChains
  import opened Envelope
  import opened EventMessages

  const DEFAULT_MAX_ATTEMPTS: int := 3

  // ---- extensions ----

  function WithExtension(e: Event, k: Name, v: Value): Event {
    e.(extensions := Some(ExtensionsOf(e)[k := v]))
  }

  /** A float64 is truncated; for one that does not fit an int, Go leaves the result to the implementation. */
  function GetInt(e: Event, k: Name): int {
    if k !in ExtensionsOf(e) then 0
    else
      match ExtensionsOf(e)[k]
      case GInt(n) => n
      case GInt64(n) => n
      case GFloat(x) => Truncate(x)
      case _ => 0
  }

  function GetAttempt(e: Event): int {
    GetInt(e, PfAttempt)
  }

  function GetMaxAttempts(e: Event): int {
    if GetInt(e, PfMaxAttempts) == 0 then DEFAULT_MAX_ATTEMPTS else GetInt(e, PfMaxAttempts)
  }

  predicate ExceedsMaxAttempts(e: Event) {
    GetAttempt(e) >= GetMaxAttempts(e)
  }

  function IncrementAttempt(e: Event): Event {
    WithExtension(e, PfAttempt, GInt(WrapInt64(GetAttempt(e) + 1)))
  }

  function Delayed(e: Event, delay: int): Event {
    WithExtension(e, PfDelayMs, GInt64(TruncatedDiv(delay, NANOS_PER_MILLI)))
  }

  /** PrepareForDLQ; message is the error's text. */
  function Buried(e: Event, topic: string, message: string): Event {
    WithExtension(WithExtension(WithExtension(e, PfDeadLetter, GBool(true)), PfOriginalTopic, GStr(topic)),
                  PfErrorMessage, GStr(message))
  }

  // ---- one delivery ----

  /** How events of a type are consumed: a registration may fix the maximum; the transport may support delays. */
  datatype Consumer = Consumer(topic: string, maxAttempts: Option<int>, supportsDelay: bool)

  /** RegisterCloudEventsHandler, which replaces a maximum that is not positive by the default. */
  function Registered(topic: string, maxAttempts: int, supportsDelay: bool): Consumer {
    Consumer(topic, Some(if maxAttempts <= 0 then DEFAULT_MAX_ATTEMPTS else maxAttempts), supportsDelay)
  }

  datatype Publication = Publication(topic: string, event: Event)

  /**
   acked: the transport's message is done with; buried: the event went the way of a dead letter;
   seen: the event the handler was given, as it stands when it returns.
   */
  datatype Outcome = Outcome(acked: bool, buried: bool, published: seq<Publication>, seen: Event)

  /** The event as the handler sees it: the attempt is counted, and the registered maximum filled in. */
  function Seen(c: Consumer, e: Event): Event {
    var counted := IncrementAttempt(e);
    if c.maxAttempts.Some? then WithExtension(counted, PfMaxAttempts, GInt(c.maxAttempts.value)) else counted
  }

  /** PublishEvent: an invalid event is refused; the topic is the event's type. */
  function PublishEvent(e: Event, works: bool): seq<Publication> {
    if Validate(e) && works then [Publication(e.eventType, e)] else []
  }

  /** handleCloudEventsResult: seen is the event as it stands when the handler returns; message is the error's text. */
  function Answer(c: Consumer, seen: Event, err: Option<Err>, message: string, works: bool): Outcome {
    var (result, delay) := ClassifyError(err);
    var bury := Outcome(true, true, PublishEvent(Buried(seen, c.topic, message), works), seen);
    match result
    case ResultAck => Outcome(true, false, [], seen)
    case ResultSkip => Outcome(true, false, [], seen)
    case ResultRetry => if ExceedsMaxAttempts(seen) then bury else Outcome(false, false, [], seen)
    case ResultRetryAfter =>
      if ExceedsMaxAttempts(seen) then bury
      else if c.supportsDelay then
        var again := PublishEvent(Delayed(seen, delay), works);
        Outcome(again != [], false, again, seen)
      else Outcome(false, false, [], seen)
    case ResultDeadLetter => bury
  }

  /** wrapCloudEventsHandler: err is the handler's verdict, works the publisher's. */
  function Deliver(c: Consumer, e: Event, err: Option<Err>, message: string, works: bool): Outcome {
    Answer(c, Seen(c, e), err, message, works)
  }

  /**
   What a delivery can lose: it is acknowledged without anything being published in its place
   exactly if the handler accepted or skipped it, or it was to be buried and could not be published.
   */
  lemma AckedWithoutTraceIff(c: Consumer, e: Event, err: Option<Err>, message: string, works: bool)
    ensures var o, seen := Deliver(c, e, err, message, works), Seen(c, e);
            o.acked && o.published == [] <==>
            || err.None?
            || ClassifyError(err).0 == ResultSkip
            || ((ShouldDeadLetter(err) || (IsRetryable(err) && ExceedsMaxAttempts(seen)))
                && !(works && Validate(seen)))
  {
    ExactlyOneOutcome(err);
  }

  /** What the integer accessors make of an entry: any kind of number, rounded toward zero; anything else is 0. */
  lemma IntegersRead(e: Event, k: Name)
    ensures k !in ExtensionsOf(e) ==> GetInt(e, k) == 0
    ensures k in ExtensionsOf(e) ==>
              var v, n := ExtensionsOf(e)[k], GetInt(e, k);
              if v.GInt? then n == v.n
              else if v.GInt64? then n == v.n
              else if v.GFloat? then (if 0.0 <= v.x then n as real <= v.x < n as real + 1.0 else n as real - 1.0 < v.x <= n as real)
              else n == 0
  {
  }

  /** The limit is the event's own maximum, and 3 if that is missing or 0. */
  lemma LimitRead(e: Event)
    ensures GetMaxAttempts(e) == if GetInt(e, PfMaxAttempts) == 0 then 3 else GetInt(e, PfMaxAttempts)
    ensures ExceedsMaxAttempts(e) <==> GetMaxAttempts(e) <= GetInt(e, PfAttempt)
  {
  }

  /** The handler sees the event with its attempt counted and a registered maximum, and is shown everything else as it came. */
  lemma HandlerSees(c: Consumer, e: Event, k: Name)
    ensures var ext, seen := ExtensionsOf(e), Seen(c, e);
            && seen == e.(extensions := Some(ExtensionsOf(seen)))
            && (if k.PfMaxAttempts? && c.maxAttempts.Some?
                then k in ExtensionsOf(seen) && ExtensionsOf(seen)[k] == GInt(c.maxAttempts.value)
                else if k.PfAttempt?
                then k in ExtensionsOf(seen)
                     && (-TWO_TO_THE_63 <= GetInt(e, k) < TWO_TO_THE_63 - 1 ==> ExtensionsOf(seen)[k] == GInt(GetInt(e, k) + 1))
                else (k in ExtensionsOf(seen) <==> k in ext) && (k in ext ==> ExtensionsOf(seen)[k] == ext[k]))
  {
  }

  /**
   Exactly when a delivery is left to the transport: the error asks for a retry, attempts are left, and the
   event is not republished with a delay. Nothing is published then.
   */
  lemma UnacknowledgedIff(c: Consumer, seen: Event, err: Option<Err>, message: string, works: bool)
    ensures var o := Answer(c, seen, err, message, works);
            && (!o.acked <==>
                  && IsRetryable(err) && GetAttempt(seen) < GetMaxAttempts(seen)
                  && !(ClassifyError(err).0 == ResultRetryAfter && c.supportsDelay && works && Validate(seen)))
            && (!o.acked ==> o.published == [] && !o.buried)
            && o.seen == seen
  {
    ExactlyOneOutcome(err);
  }

  /**
   Exactly when something is published: one event, to the type of the event the handler was given, which
   tells the delay, or if the event was buried that it was, where it comes from and what the error says.
   */
  lemma AnswerPublishes(c: Consumer, seen: Event, err: Option<Err>, message: string, works: bool)
    ensures var o, ext, left := Answer(c, seen, err, message, works), ExtensionsOf(seen), GetAttempt(seen) < GetMaxAttempts(seen);
            && (o.buried <==> ShouldDeadLetter(err) || (IsRetryable(err) && !left))
            && (o.published != [] <==>
                  works && Validate(seen)
                  && (o.buried || (ClassifyError(err).0 == ResultRetryAfter && left && c.supportsDelay)))
            && (o.published != [] ==>
                  && |o.published| == 1 && o.published[0].topic == seen.eventType
                  && o.published[0].event == seen.(extensions := Some(
                       if o.buried
                       then ext[PfDeadLetter := GBool(true)][PfOriginalTopic := GStr(c.topic)][PfErrorMessage := GStr(message)]
                       else ext[PfDelayMs := GInt64(TruncatedDiv(ClassifyError(err).1, 1_000_000))])))
  {
    ExactlyOneOutcome(err);
  }

  // ---- the whole life of an event that is always retried ----

  /** The event as the next consumer receives it. */
  function Wire(e: Event, show: Value -> string): Event
    requires Validate(e)
  {
    FromMessage(ToMessage(e, "", show).value)
  }

  function Limit(c: Consumer, e: Event): int {
    GetMaxAttempts(Seen(c, e))
  }

  predicate FloatAt(e: Event, k: Name) {
    k in ExtensionsOf(e) && ExtensionsOf(e)[k].GFloat?
  }

  /**
   A valid CloudEvent with counters that float64 can carry. The limit may be one more if it need not be
   converted.
   */
  predicate Carried(c: Consumer, e: Event) {
    && Validate(e) && AvoidsKnown(e)
    && 0 <= GetAttempt(e) <= TWO_TO_THE_53
    && (Limit(c, e) <= TWO_TO_THE_53
        || (Limit(c, e) == TWO_TO_THE_53 + 1 && (c.maxAttempts.Some? || FloatAt(e, PfMaxAttempts))))
  }

  /** Such an event, on a transport that supports delays. */
  predicate Fits(c: Consumer, e: Event) {
    Carried(c, e) && c.supportsDelay
  }

  lemma NormalizedInt(e: Event, k: Name)
    requires -TWO_TO_THE_53 <= GetInt(e, k) <= TWO_TO_THE_53
    ensures GetInt(NormalizeEvent(e), k) == GetInt(e, k)
  {
    DoubleExactUpTo53Bits(GetInt(e, k));
  }

  /** The entries a republication may change. */
  function Counters(c: Consumer): set<Name> {
    { PfAttempt, PfDelayMs } + (if c.maxAttempts.Some? then { PfMaxAttempts } else {})
  }

  function Stripped(c: Consumer, e: Event): Event {
    e.(extensions := Some(ExtensionsOf(e) - Counters(c)))
  }

  /** Up to normalization the two events differ at most in attempt, delay and, if registered, maximum. */
  predicate SameButCounters(c: Consumer, e: Event, f: Event) {
    NormalizeEvent(Stripped(c, e)) == NormalizeEvent(Stripped(c, f))
  }

  lemma SeenCounts(c: Consumer, e: Event)
    requires Fits(c, e)
    ensures GetAttempt(Seen(c, e)) == GetAttempt(e) + 1
    ensures Validate(Seen(c, e)) && AvoidsKnown(Seen(c, e))
  {
  }

  lemma DelayedChangesCounters(c: Consumer, e: Event, delay: int)
    requires Fits(c, e)
    ensures var p := Delayed(Seen(c, e), delay);
            && Stripped(c, p) == Stripped(c, e)
            && Validate(p) && AvoidsKnown(p)
            && GetAttempt(p) == GetAttempt(e) + 1
            && GetInt(p, PfMaxAttempts) == GetInt(Seen(c, e), PfMaxAttempts)
  {
    assert ExtensionsOf(Stripped(c, Delayed(Seen(c, e), delay))) == ExtensionsOf(Stripped(c, e));
  }

  lemma NormalizedStripped(c: Consumer, e: Event)
    ensures Stripped(c, NormalizeEvent(e)) == NormalizeEvent(Stripped(c, e))
  {
    var ext, k := ExtensionsOf(e), Counters(c);
    assert NormalizeAll(ext) - k == NormalizeAll(ext - k);
  }

  lemma {:induction false} NormalizeTwice(v: Value)
    ensures Normalize(Normalize(v)) == Normalize(v)
  {
    JsonRoundTrip(v);
    DecodedIsNormal(ToJson(v));
  }

  lemma NormalizeEventTwice(e: Event)
    ensures NormalizeEvent(NormalizeEvent(e)) == NormalizeEvent(e)
  {
    NormalizeTwice(e.data);
    forall k | k in ExtensionsOf(e)
      ensures Normalize(Normalize(ExtensionsOf(e)[k])) == Normalize(ExtensionsOf(e)[k])
    {
      NormalizeTwice(ExtensionsOf(e)[k]);
    }
    assert NormalizeAll(NormalizeAll(ExtensionsOf(e))) == NormalizeAll(ExtensionsOf(e));
  }

  /** The wire changes nothing but the representation of numbers. */
  lemma WireKeeps(c: Consumer, p: Event, show: Value -> string)
    requires Validate(p) && AvoidsKnown(p)
    ensures Wire(p, show) == NormalizeEvent(p)
    ensures Validate(Wire(p, show)) && AvoidsKnown(Wire(p, show)) && SameButCounters(c, Wire(p, show), p)
  {
    MessageRoundTrip(p, "", show);
    NormalizedStripped(c, p);
    NormalizeEventTwice(Stripped(c, p));
  }

  lemma LimitIs(c: Consumer, e: Event)
    ensures var m := if c.maxAttempts.Some? then c.maxAttempts.value else GetInt(e, PfMaxAttempts);
            Limit(c, e) == if m == 0 then DEFAULT_MAX_ATTEMPTS else m
  {
  }

  lemma LimitSurvives(c: Consumer, e: Event, delay: int)
    requires Fits(c, e) && 0 < Limit(c, e)
    ensures Limit(c, NormalizeEvent(Delayed(Seen(c, e), delay))) == Limit(c, e)
    ensures FloatAt(e, PfMaxAttempts) && c.maxAttempts.None? ==>
              FloatAt(NormalizeEvent(Delayed(Seen(c, e), delay)), PfMaxAttempts)
  {
    var p := Delayed(Seen(c, e), delay);
    DelayedChangesCounters(c, e, delay);
    LimitIs(c, e);
    LimitIs(c, NormalizeEvent(p));
    if c.maxAttempts.None? && !FloatAt(e, PfMaxAttempts) {
      NormalizedInt(p, PfMaxAttempts);
    }
  }

  /** w is e, i attempts later: the limit is the same, and nothing but the counters changed. */
  predicate Aged(c: Consumer, e: Event, w: Event, i: nat) {
    && Fits(c, w) && GetAttempt(w) == GetAttempt(e) + i && Limit(c, w) == Limit(c, e)
    && SameButCounters(c, w, e) && w.eventType == e.eventType
  }

  /** One delivery with attempts left: the event comes back with one attempt more and nothing else changed. */
  lemma ComesBack(c: Consumer, e: Event, delay: int, show: Value -> string)
    requires Fits(c, e) && GetAttempt(e) + 1 < Limit(c, e)
    ensures var p := Delayed(Seen(c, e), delay);
            Validate(p) && SameButCounters(c, p, e) && Aged(c, e, Wire(p, show), 1)
  {
    var p := Delayed(Seen(c, e), delay);
    DelayedChangesCounters(c, e, delay);
    WireKeeps(c, p, show);
    NormalizedInt(p, PfAttempt);
    LimitSurvives(c, e, delay);
  }

  /** The i-th delivery of an event whose handler answers it with the error errs(i). */
  function Delivery(c: Consumer, received: seq<Event>, errs: nat -> Err, i: nat): Outcome
    requires i < |received|
  {
    Deliver(c, received[i], Some(errs(i)), "", true)
  }

  /** The delivery did not bury the event, and w is the event that its publication is decoded to. */
  predicate Follows(o: Outcome, w: Event, show: Value -> string) {
    !o.buried && |o.published| == 1 && Validate(o.published[0].event) && w == Wire(o.published[0].event, show)
  }

  /** The event as it is received again and again up to its first burial, if everything published is delivered. */
  predicate Life(c: Consumer, received: seq<Event>, errs: nat -> Err, show: Value -> string) {
    && 0 < |received|
    && forall i: nat :: i < |received| - 1 ==> Follows(Delivery(c, received, errs, i), received[i + 1], show)
  }

  predicate Flagged(e: Event, k: Name) {
    k in ExtensionsOf(e) && ExtensionsOf(e)[k] == GBool(true)
  }

  /** The delivery counts attempt n; the event goes on with nothing but its counters changed, or is buried. */
  predicate GoesBy(c: Consumer, e: Event, o: Outcome, n: int) {
    && o.acked && |o.published| == 1 && o.published[0].topic == e.eventType && Validate(o.published[0].event)
    && GetAttempt(o.seen) == n
    && GetAttempt(o.published[0].event) == n
    && (if o.buried
        then Flagged(o.published[0].event, PfDeadLetter)
        else SameButCounters(c, o.published[0].event, e))
  }

  lemma DeliveryGoesBy(c: Consumer, e: Event, err: Err)
    requires Fits(c, e) && AsRetryAfter(err).Some?
    ensures var o := Deliver(c, e, Some(err), "", true);
            && GoesBy(c, e, o, GetAttempt(e) + 1)
            && (o.buried <==> GetAttempt(e) + 1 >= Limit(c, e))
            && (!o.buried ==> o.published[0].event == Delayed(Seen(c, e), AsRetryAfter(err).value))
  {
    SeenCounts(c, e);
    DelayedChangesCounters(c, e, AsRetryAfter(err).value);
  }

  lemma NextOneFits(c: Consumer, e: Event, err: Err, w: Event, show: Value -> string)
    requires Fits(c, e) && AsRetryAfter(err).Some? && Follows(Deliver(c, e, Some(err), "", true), w, show)
    ensures Aged(c, e, w, 1)
  {
    DeliveryGoesBy(c, e, err);
    ComesBack(c, e, AsRetryAfter(err).value, show);
  }

  lemma AgedTwice(c: Consumer, e: Event, v: Event, w: Event, i: nat, j: nat)
    requires Aged(c, e, v, i) && Aged(c, v, w, j)
    ensures Aged(c, e, w, i + j)
  {
  }

  lemma GoesByToo(c: Consumer, e: Event, v: Event, o: Outcome, n: int, i: nat)
    requires GoesBy(c, v, o, n) && Aged(c, e, v, i)
    ensures GoesBy(c, e, o, n)
  {
  }

  lemma LifeGoesStepwise(c: Consumer, received: seq<Event>, errs: nat -> Err, show: Value -> string, i: nat)
    requires Life(c, received, errs, show) && i + 1 < |received| && Fits(c, received[i])
    requires AsRetryAfter(errs(i)).Some?
    ensures Aged(c, received[i], received[i + 1], 1)
  {
    assert Follows(Delivery(c, received, errs, i), received[i + 1], show);
    NextOneFits(c, received[i], errs(i), received[i + 1], show);
  }

  lemma {:induction false} ReceivedAged(
    c: Consumer, received: seq<Event>, errs: nat -> Err, show: Value -> string, i: nat)
    requires Life(c, received, errs, show) && Fits(c, received[0])
    requires forall n: nat :: AsRetryAfter(errs(n)).Some?
    requires i < |received|
    ensures Aged(c, received[0], received[i], i)
  {
    if i > 0 {
      ReceivedAged(c, received, errs, show, i - 1);
      LifeGoesStepwise(c, received, errs, show, i - 1);
      AgedTwice(c, received[0], received[i - 1], received[i], i - 1, 1);
    }
  }

  lemma LifeAt(c: Consumer, received: seq<Event>, errs: nat -> Err, show: Value -> string, i: nat)
    requires Life(c, received, errs, show) && Fits(c, received[0])
    requires forall n: nat :: AsRetryAfter(errs(n)).Some?
    requires i < |received|
    ensures var e, o := received[0], Delivery(c, received, errs, i);
            GoesBy(c, e, o, GetAttempt(e) + 1 + i) && (o.buried <==> GetAttempt(e) + 1 + i >= Limit(c, e))
  {
    ReceivedAged(c, received, errs, show, i);
    DeliveryGoesBy(c, received[i], errs(i));
    GoesByToo(c, received[0], received[i], Delivery(c, received, errs, i), GetAttempt(received[0]) + 1 + i, i);
  }

  /** How often an event is delivered that always fails, as far as its attempts and its limit say. */
  function Deliveries(c: Consumer, e: Event): nat {
    Max(1, Limit(c, e) - GetAttempt(e))
  }

  lemma NotBuriedBefore(c: Consumer, received: seq<Event>, errs: nat -> Err, show: Value -> string, i: nat)
    requires Life(c, received, errs, show) && i < |received| - 1
    ensures !Delivery(c, received, errs, i).buried
  {
    assert Follows(Delivery(c, received, errs, i), received[i + 1], show);
  }

  lemma LifeIsBounded(c: Consumer, received: seq<Event>, errs: nat -> Err, show: Value -> string)
    requires Life(c, received, errs, show) && Fits(c, received[0])
    requires forall n: nat :: AsRetryAfter(errs(n)).Some?
    ensures |received| <= Deliveries(c, received[0])
  {
    var last: nat := Deliveries(c, received[0]) - 1;
    if last + 1 < |received| {
      LifeAt(c, received, errs, show, last);
      NotBuriedBefore(c, received, errs, show, last);
    }
  }

  /**
   The life of an event that is always to be retried after a delay: it is handled with attempts
   a + 1, a + 2, ..., at most up to m, once each; every delivery republishes it with nothing but its
   counters changed, except that of attempt m, which buries it.
   */
  lemma LifeOfAnEvent(c: Consumer, received: seq<Event>, errs: nat -> Err, show: Value -> string)
    requires Life(c, received, errs, show) && Fits(c, received[0])
    requires forall n: nat :: AsRetryAfter(errs(n)).Some?
    ensures |received| <= Deliveries(c, received[0])
    ensures forall i: nat :: i < |received| ==>
              && GoesBy(c, received[0], Delivery(c, received, errs, i), GetAttempt(received[0]) + 1 + i)
              && (Delivery(c, received, errs, i).buried <==> i + 1 == Deliveries(c, received[0]))
  {
    LifeIsBounded(c, received, errs, show);
    forall i: nat | i < |received|
      ensures GoesBy(c, received[0], Delivery(c, received, errs, i), GetAttempt(received[0]) + 1 + i)
      ensures Delivery(c, received, errs, i).buried <==> i + 1 == Deliveries(c, received[0])
    {
      LifeAt(c, received, errs, show, i);
    }
  }

  lemma Continued(c: Consumer, received: seq<Event>, errs: nat -> Err, show: Value -> string, w: Event)
    requires Life(c, received, errs, show)
    requires Follows(Delivery(c, received, errs, |received| - 1), w, show)
    ensures Life(c, received + [w], errs, show)
  {
    var longer := received + [w];
    forall i: nat | i < |longer| - 1
      ensures Follows(Delivery(c, longer, errs, i), longer[i + 1], show)
    {
      assert Delivery(c, longer, errs, i) == Delivery(c, received, errs, i);
    }
  }

  lemma SomethingFollows(c: Consumer, e: Event, err: Err, show: Value -> string) returns (w: Event)
    requires Fits(c, e) && AsRetryAfter(err).Some? && GetAttempt(e) + 1 < Limit(c, e)
    ensures Follows(Deliver(c, e, Some(err), "", true), w, show)
  {
    DeliveryGoesBy(c, e, err);
    w := Wire(Deliver(c, e, Some(err), "", true).published[0].event, show);
  }

  lemma LastMayGoOn(c: Consumer, received: seq<Event>, errs: nat -> Err, show: Value -> string)
    requires Life(c, received, errs, show) && Fits(c, received[0])
    requires forall n: nat :: AsRetryAfter(errs(n)).Some?
    requires |received| < Deliveries(c, received[0])
    ensures var e := received[|received| - 1]; Fits(c, e) && GetAttempt(e) + 1 < Limit(c, e)
  {
    ReceivedAged(c, received, errs, show, |received| - 1);
  }

  lemma LivesOn(c: Consumer, received: seq<Event>, errs: nat -> Err, show: Value -> string)
    returns (w: Event)
    requires Life(c, received, errs, show) && Fits(c, received[0])
    requires forall n: nat :: AsRetryAfter(errs(n)).Some?
    requires |received| < Deliveries(c, received[0])
    ensures Life(c, received + [w], errs, show)
  {
    LastMayGoOn(c, received, errs, show);
    w := SomethingFollows(c, received[|received| - 1], errs(|received| - 1), show);
    Continued(c, received, errs, show, w);
  }

  lemma LastIsBuried(c: Consumer, received: seq<Event>, errs: nat -> Err, show: Value -> string)
    requires Life(c, received, errs, show) && Fits(c, received[0])
    requires forall n: nat :: AsRetryAfter(errs(n)).Some?
    requires |received| == Deliveries(c, received[0])
    ensures Delivery(c, received, errs, |received| - 1).buried
  {
    LifeAt(c, received, errs, show, |received| - 1);
  }

  lemma {:induction false} LivedOut(c: Consumer, m: nat, received: seq<Event>, errs: nat -> Err, show: Value -> string)
    returns (whole: seq<Event>)
    requires Life(c, received, errs, show) && Fits(c, received[0])
    requires forall n: nat :: AsRetryAfter(errs(n)).Some?
    requires |received| <= m == Deliveries(c, received[0])
    ensures Life(c, whole, errs, show) && whole[0] == received[0] && |whole| == m
    decreases m - |received|
  {
    if |received| == m {
      whole := received;
    } else {
      var w := LivesOn(c, received, errs, show);
      whole := LivedOut(c, m, received + [w], errs, show);
    }
  }

  /** And every such event gets there: it is delivered exactly Deliveries times and then buried. */
  lemma LifeIsLived(c: Consumer, e: Event, errs: nat -> Err, show: Value -> string)
    returns (received: seq<Event>)
    requires Fits(c, e) && forall n: nat :: AsRetryAfter(errs(n)).Some?
    ensures Life(c, received, errs, show) && received[0] == e && |received| == Deliveries(c, e)
    ensures Delivery(c, received, errs, |received| - 1).buried
  {
    received := LivedOut(c, Deliveries(c, e), [e], errs, show);
    LastIsBuried(c, received, errs, show);
  }

  /** A fresh event, delivered to a registered consumer, is handled as often as the registration says. */
  lemma RegisteredLife(topic: string, maxAttempts: int, e: Event, errs: nat -> Err, show: Value -> string)
    returns (received: seq<Event>)
    requires Validate(e) && AvoidsKnown(e) && GetAttempt(e) == 0 && maxAttempts <= TWO_TO_THE_53 + 1
    requires forall n: nat :: AsRetryAfter(errs(n)).Some?
    ensures var c := Registered(topic, maxAttempts, true);
            && Life(c, received, errs, show) && received[0] == e
            && c == Consumer(topic, Some(if maxAttempts <= 0 then 3 else maxAttempts), true)
            && |received| == (if maxAttempts <= 0 then 3 else maxAttempts)
            && Delivery(c, received, errs, |received| - 1).buried
  {
    received := LifeIsLived(Registered(topic, maxAttempts, true), e, errs, show);
  }

  // ---- does it ever end? ----

  /** A valid event on a transport with delays, whose attempts can still be counted; its limit is any int. */
  predicate Countable(c: Consumer, e: Event) {
    Validate(e) && AvoidsKnown(e) && c.supportsDelay && 0 <= GetAttempt(e) <= TWO_TO_THE_53
  }

  /** The limit is out of reach: a count that travels as a float64 stops at 2^53. */
  predicate Endless(c: Consumer, e: Event) {
    Countable(c, e) && TWO_TO_THE_53 + 2 <= Limit(c, e)
  }

  lemma CountStops(n: int)
    requires 0 <= n <= TWO_TO_THE_53
    ensures 0 <= Double(n + 1) <= TWO_TO_THE_53
  {
    if n < TWO_TO_THE_53 {
      DoubleExactUpTo53Bits(n + 1);
    } else {
      DoubleNotExactAfter();
    }
  }

  lemma RepublishedIsValid(c: Consumer, e: Event, delay: int)
    requires Validate(e) && AvoidsKnown(e)
    ensures var p := Delayed(Seen(c, e), delay); Validate(p) && AvoidsKnown(p) && p.eventType == e.eventType
  {
  }

  lemma RepublishedCounts(c: Consumer, e: Event, delay: int)
    requires Countable(c, e)
    ensures var p := Delayed(Seen(c, e), delay);
            && GetAttempt(Seen(c, e)) == GetAttempt(e) + 1
            && GetAttempt(NormalizeEvent(p)) == Double(GetAttempt(e) + 1)
            && GetInt(p, PfMaxAttempts) == GetInt(Seen(c, e), PfMaxAttempts)
  {
    assert ExtensionsOf(Delayed(Seen(c, e), delay))[PfAttempt] == GInt(GetAttempt(e) + 1);
  }

  /** With attempts left, the delivery republishes the event. */
  lemma Republishes(c: Consumer, e: Event, err: Err)
    requires Countable(c, e) && AsRetryAfter(err).Some? && GetAttempt(e) + 1 < Limit(c, e)
    ensures var o, p := Deliver(c, e, Some(err), "", true), Delayed(Seen(c, e), AsRetryAfter(err).value);
            !o.buried && o.published == [Publication(p.eventType, p)]
  {
    RepublishedCounts(c, e, AsRetryAfter(err).value);
    RepublishedIsValid(c, e, AsRetryAfter(err).value);
  }

  lemma FollowsIs(o: Outcome, topic: string, p: Event, w: Event, show: Value -> string)
    requires o.published == [Publication(topic, p)] && Validate(p) && !o.buried
    ensures Follows(o, w, show) <==> w == Wire(p, show)
  {
  }

  /** What becomes of an entry that is an integer, or an integral float64, on the wire. */
  lemma LimitTravels(c: Consumer, e: Event, delay: int)
    requires Endless(c, e)
    ensures TWO_TO_THE_53 + 2 <= Limit(c, NormalizeEvent(Delayed(Seen(c, e), delay)))
  {
    var p := Delayed(Seen(c, e), delay);
    RepublishedCounts(c, e, delay);
    LimitIs(c, e);
    LimitIs(c, NormalizeEvent(p));
    if c.maxAttempts.None? {
      DoubleStaysLarge(GetInt(p, PfMaxAttempts));
    }
  }

  lemma NormalizedIsEndless(c: Consumer, e: Event, delay: int)
    requires Endless(c, e)
    ensures var w := NormalizeEvent(Delayed(Seen(c, e), delay));
            0 <= GetAttempt(w) <= TWO_TO_THE_53 && TWO_TO_THE_53 + 2 <= Limit(c, w)
  {
    RepublishedCounts(c, e, delay);
    CountStops(GetAttempt(e));
    LimitTravels(c, e, delay);
  }

  lemma EndlessOnTheWire(c: Consumer, e: Event, delay: int, show: Value -> string)
    requires Endless(c, e) && Validate(Delayed(Seen(c, e), delay))
    ensures Endless(c, Wire(Delayed(Seen(c, e), delay), show))
  {
    RepublishedIsValid(c, e, delay);
    WireKeeps(c, Delayed(Seen(c, e), delay), show);
    NormalizedIsEndless(c, e, delay);
  }

  /** An endless event is not buried, and comes back endless. */
  lemma EndlessGoesOn(c: Consumer, e: Event, err: Err, w: Event, show: Value -> string)
    requires Endless(c, e) && AsRetryAfter(err).Some?
    ensures !Deliver(c, e, Some(err), "", true).buried
    ensures Follows(Deliver(c, e, Some(err), "", true), w, show) ==> Endless(c, w)
  {
    var p := Delayed(Seen(c, e), AsRetryAfter(err).value);
    Republishes(c, e, err);
    RepublishedIsValid(c, e, AsRetryAfter(err).value);
    FollowsIs(Deliver(c, e, Some(err), "", true), p.eventType, p, w, show);
    EndlessOnTheWire(c, e, AsRetryAfter(err).value, show);
  }

  lemma EndlessStep(c: Consumer, received: seq<Event>, errs: nat -> Err, show: Value -> string, i: nat)
    requires Life(c, received, errs, show) && i + 1 < |received| && Endless(c, received[i])
    requires AsRetryAfter(errs(i)).Some?
    ensures Endless(c, received[i + 1])
  {
    assert Follows(Delivery(c, received, errs, i), received[i + 1], show);
    EndlessGoesOn(c, received[i], errs(i), received[i + 1], show);
  }

  lemma {:induction false} EndlessLife(c: Consumer, received: seq<Event>, errs: nat -> Err, show: Value -> string, i: nat)
    requires Life(c, received, errs, show) && Endless(c, received[0]) && i < |received|
    requires forall n: nat :: AsRetryAfter(errs(n)).Some?
    ensures Endless(c, received[i])
  {
    if i > 0 {
      EndlessLife(c, received, errs, show, i - 1);
      EndlessStep(c, received, errs, show, i - 1);
    }
  }

  /** A life that ends: the last delivery buries the event. */
  predicate Ends(c: Consumer, e: Event, received: seq<Event>, errs: nat -> Err, show: Value -> string) {
    Life(c, received, errs, show) && received[0] == e && Delivery(c, received, errs, |received| - 1).buried
  }

  /** The one limit that only the first hop brings down to where float64 can carry it. */
  lemma LimitRoundsDown(c: Consumer, e: Event, delay: int)
    requires Countable(c, e) && c.maxAttempts.None? && !FloatAt(e, PfMaxAttempts) && Limit(c, e) == TWO_TO_THE_53 + 1
    ensures Limit(c, NormalizeEvent(Delayed(Seen(c, e), delay))) == TWO_TO_THE_53
  {
    var p := Delayed(Seen(c, e), delay);
    RepublishedCounts(c, e, delay);
    LimitIs(c, e);
    LimitIs(c, NormalizeEvent(p));
    DoubleNotExactAfter();
  }

  function Later(errs: nat -> Err): nat -> Err {
    (n: nat) => errs(n + 1)
  }

  lemma DeliveryShifted(c: Consumer, e: Event, rest: seq<Event>, errs: nat -> Err, i: nat)
    requires i < |rest|
    ensures Delivery(c, [e] + rest, errs, i + 1) == Delivery(c, rest, Later(errs), i)
  {
    assert ([e] + rest)[i + 1] == rest[i];
    assert Later(errs)(i) == errs(i + 1);
  }

  lemma LaterFollows(c: Consumer, e: Event, rest: seq<Event>, errs: nat -> Err, show: Value -> string, i: nat)
    requires Life(c, rest, Later(errs), show) && i + 1 < |rest|
    ensures Follows(Delivery(c, [e] + rest, errs, i + 1), rest[i + 1], show)
  {
    DeliveryShifted(c, e, rest, errs, i);
    assert Follows(Delivery(c, rest, Later(errs), i), rest[i + 1], show);
  }

  /** A life with one delivery before it. */
  lemma Preceded(c: Consumer, e: Event, rest: seq<Event>, errs: nat -> Err, show: Value -> string)
    requires rest != [] && Life(c, rest, Later(errs), show)
    requires Follows(Deliver(c, e, Some(errs(0)), "", true), rest[0], show)
    ensures Life(c, [e] + rest, errs, show)
  {
    var received := [e] + rest;
    forall i: nat | i < |received| - 1
      ensures Follows(Delivery(c, received, errs, i), received[i + 1], show)
    {
      if i > 0 {
        LaterFollows(c, e, rest, errs, show, i - 1);
      } else {
        assert Delivery(c, received, errs, 0) == Deliver(c, e, Some(errs(0)), "", true);
      }
    }
  }

  lemma NormalizedFits(c: Consumer, e: Event, delay: int)
    requires Countable(c, e) && c.maxAttempts.None? && !FloatAt(e, PfMaxAttempts) && Limit(c, e) == TWO_TO_THE_53 + 1
    ensures var w := NormalizeEvent(Delayed(Seen(c, e), delay));
            0 <= GetAttempt(w) <= TWO_TO_THE_53 && Limit(c, w) <= TWO_TO_THE_53
  {
    RepublishedCounts(c, e, delay);
    CountStops(GetAttempt(e));
    LimitRoundsDown(c, e, delay);
  }

  lemma FirstHopFits(c: Consumer, e: Event, delay: int, show: Value -> string)
    requires Countable(c, e) && c.maxAttempts.None? && !FloatAt(e, PfMaxAttempts) && Limit(c, e) == TWO_TO_THE_53 + 1
    requires Validate(Delayed(Seen(c, e), delay))
    ensures Fits(c, Wire(Delayed(Seen(c, e), delay), show))
  {
    RepublishedIsValid(c, e, delay);
    WireKeeps(c, Delayed(Seen(c, e), delay), show);
    NormalizedFits(c, e, delay);
  }

  lemma FirstHop(c: Consumer, e: Event, err: Err, show: Value -> string) returns (w: Event)
    requires Countable(c, e) && c.maxAttempts.None? && !FloatAt(e, PfMaxAttempts) && Limit(c, e) == TWO_TO_THE_53 + 1
    requires GetAttempt(e) < TWO_TO_THE_53 && AsRetryAfter(err).Some?
    ensures Follows(Deliver(c, e, Some(err), "", true), w, show) && Fits(c, w)
  {
    var p := Delayed(Seen(c, e), AsRetryAfter(err).value);
    Republishes(c, e, err);
    RepublishedIsValid(c, e, AsRetryAfter(err).value);
    w := Wire(p, show);
    FollowsIs(Deliver(c, e, Some(err), "", true), p.eventType, p, w, show);
    FirstHopFits(c, e, AsRetryAfter(err).value, show);
  }

  lemma BuriedAtOnce(c: Consumer, e: Event, err: Err)
    requires Countable(c, e) && AsRetryAfter(err).Some? && Limit(c, e) <= GetAttempt(e) + 1
    ensures Deliver(c, e, Some(err), "", true).buried
  {
    RepublishedCounts(c, e, 0);
  }

  lemma EndsLater(c: Consumer, e: Event, w: Event, errs: nat -> Err, show: Value -> string) returns (received: seq<Event>)
    requires Fits(c, w) && Follows(Deliver(c, e, Some(errs(0)), "", true), w, show)
    requires forall n: nat :: AsRetryAfter(errs(n)).Some?
    ensures Ends(c, e, received, errs, show)
  {
    var rest := LifeIsLived(c, w, Later(errs), show);
    Preceded(c, e, rest, errs, show);
    DeliveryShifted(c, e, rest, errs, |rest| - 1);
    received := [e] + rest;
  }

  lemma LimitOneBeyond(c: Consumer, e: Event, errs: nat -> Err, show: Value -> string) returns (received: seq<Event>)
    requires Countable(c, e) && c.maxAttempts.None? && !FloatAt(e, PfMaxAttempts) && Limit(c, e) == TWO_TO_THE_53 + 1
    requires forall n: nat :: AsRetryAfter(errs(n)).Some?
    ensures Ends(c, e, received, errs, show)
  {
    if GetAttempt(e) == TWO_TO_THE_53 {
      received := [e];
      BuriedAtOnce(c, e, errs(0));
    } else {
      var w := FirstHop(c, e, errs(0), show);
      received := EndsLater(c, e, w, errs, show);
    }
  }

  /**
   An event that is always to be retried after a delay is buried in the end if and only if its limit
   is at most 2^53 + 1. Beyond that, counting stops short of it, and the event comes back for ever.
   A limit whose float64 is no int is left out: what it is read as is up to the implementation of Go.
   */
  lemma EndsIff(c: Consumer, e: Event, errs: nat -> Err, show: Value -> string)
    requires Countable(c, e) && (c.maxAttempts.None? ==> Double(Limit(c, e)) < TWO_TO_THE_63)
    requires forall n: nat :: AsRetryAfter(errs(n)).Some?
    ensures (exists received :: Ends(c, e, received, errs, show)) <==> Limit(c, e) <= TWO_TO_THE_53 + 1
  {
    if Limit(c, e) <= TWO_TO_THE_53 + 1 {
      var received;
      if Fits(c, e) {
        received := LifeIsLived(c, e, errs, show);
      } else {
        received := LimitOneBeyond(c, e, errs, show);
      }
      assert Ends(c, e, received, errs, show);
    } else {
      forall received | Ends(c, e, received, errs, show)
        ensures false
      {
        EndlessLife(c, received, errs, show, |received| - 1);
        EndlessGoesOn(c, received[|received| - 1], errs(|received| - 1), e, show);
      }
    }
  }

  // ---- what a publication tells its receiver ----

  lemma DelayRounds(delay: nat)
    ensures TruncatedDiv(delay, NANOS_PER_MILLI) * NANOS_PER_MILLI <= delay
    ensures delay < (TruncatedDiv(delay, NANOS_PER_MILLI) + 1) * NANOS_PER_MILLI
    ensures 0 <= TruncatedDiv(delay, NANOS_PER_MILLI) <= delay
  {
  }

  /** A republished event tells the delay in whole milliseconds, rounded down. */
  lemma DelayArrives(c: Consumer, e: Event, delay: nat, show: Value -> string)
    requires Validate(e) && AvoidsKnown(e) && delay < TWO_TO_THE_63
    ensures var ms := GetInt(Wire(Delayed(e, delay), show), PfDelayMs);
            ms * 1_000_000 <= delay < (ms + 1) * 1_000_000
  {
    var p := Delayed(e, delay);
    WireKeeps(c, p, show);
    DelayRounds(delay);
    assert GetInt(p, PfDelayMs) == TruncatedDiv(delay, NANOS_PER_MILLI);
    NormalizedInt(p, PfDelayMs);
  }

  /** w has the mark, the topic and the error text of a dead letter; at name k it has what e has, normalized. */
  predicate Tells(w: Event, e: Event, topic: string, message: string, k: Name) {
    var ext, ext' := ExtensionsOf(e), ExtensionsOf(w);
    && PfDeadLetter in ext' && ext'[PfDeadLetter] == GBool(true)
    && PfOriginalTopic in ext' && ext'[PfOriginalTopic] == GStr(topic)
    && PfErrorMessage in ext' && ext'[PfErrorMessage] == GStr(message)
    && (!k.PfDeadLetter? && !k.PfOriginalTopic? && !k.PfErrorMessage? ==>
          (k in ext' <==> k in ext) && (k in ext' ==> ext'[k] == Normalize(ext[k])))
    && w == NormalizeEvent(e).(extensions := w.extensions)
  }

  lemma BuriedAt(e: Event, topic: string, message: string, k: Name)
    ensures var ext, ext' := ExtensionsOf(e), ExtensionsOf(NormalizeEvent(Buried(e, topic, message)));
            if k.PfDeadLetter? then k in ext' && ext'[k] == GBool(true)
            else if k.PfOriginalTopic? then k in ext' && ext'[k] == GStr(topic)
            else if k.PfErrorMessage? then k in ext' && ext'[k] == GStr(message)
            else (k in ext' <==> k in ext) && (k in ext' ==> ext'[k] == Normalize(ext[k]))
  {
  }

  lemma BuriedTells(e: Event, topic: string, message: string, k: Name)
    ensures Tells(NormalizeEvent(Buried(e, topic, message)), e, topic, message, k)
  {
    BuriedAt(e, topic, message, PfDeadLetter);
    BuriedAt(e, topic, message, PfOriginalTopic);
    BuriedAt(e, topic, message, PfErrorMessage);
    BuriedAt(e, topic, message, k);
  }

  /** A dead letter tells where and why it died, and everything else the event told. */
  lemma DeadLetterTells(c: Consumer, e: Event, topic: string, message: string, show: Value -> string, k: Name)
    requires Validate(e) && AvoidsKnown(e)
    ensures Tells(Wire(Buried(e, topic, message), show), e, topic, message, k)
  {
    WireKeeps(c, Buried(e, topic, message), show);
    BuriedTells(e, topic, message, k);
  }

  // ---- after the burial ----

  /**
   Where dead letters go: not to the topic's dead letter topic, unless the event's own type names it,
   and never if the topic is the event's type.
   */
  lemma DeadLetterTopicIff(c: Consumer, e: Event, err: Option<Err>, message: string)
    requires Deliver(c, e, err, message, true).buried && Deliver(c, e, err, message, true).published != []
    ensures var topic := Deliver(c, e, err, message, true).published[0].topic;
            && (topic == c.topic + ".dead" <==> e.eventType == c.topic + ".dead")
            && (e.eventType == c.topic ==> topic == c.topic && topic != c.topic + ".dead")
  {
    assert |c.topic + ".dead"| > |c.topic|;
  }

  lemma UnburiedIsRepublished(c: Consumer, e: Event, err: Err)
    requires var o := Deliver(c, e, Some(err), "", true); !o.buried && o.published != []
    ensures AsRetryAfter(err).Some?
    ensures var o, p := Deliver(c, e, Some(err), "", true), Delayed(Seen(c, e), AsRetryAfter(err).value);
            o.published == [Publication(p.eventType, p)]
  {
  }

  /** What comes back has the type it had. */
  lemma RepublishedAsItself(c: Consumer, e: Event, err: Err, w: Event, show: Value -> string)
    requires Validate(e) && AvoidsKnown(e) && Follows(Deliver(c, e, Some(err), "", true), w, show)
    ensures Validate(w) && AvoidsKnown(w) && w.eventType == e.eventType
  {
    UnburiedIsRepublished(c, e, err);
    var p := Delayed(Seen(c, e), AsRetryAfter(err).value);
    RepublishedIsValid(c, e, AsRetryAfter(err).value);
    FollowsIs(Deliver(c, e, Some(err), "", true), p.eventType, p, w, show);
    WireKeeps(c, p, show);
  }

  /** A valid event of the same type. */
  predicate SameType(e: Event, w: Event) {
    Validate(w) && AvoidsKnown(w) && w.eventType == e.eventType
  }

  lemma TypeStep(c: Consumer, received: seq<Event>, errs: nat -> Err, show: Value -> string, i: nat)
    requires Life(c, received, errs, show) && i + 1 < |received| && Validate(received[i]) && AvoidsKnown(received[i])
    ensures SameType(received[i], received[i + 1])
  {
    assert Follows(Delivery(c, received, errs, i), received[i + 1], show);
    RepublishedAsItself(c, received[i], errs(i), received[i + 1], show);
  }

  lemma {:induction false} TypeStays(c: Consumer, received: seq<Event>, errs: nat -> Err, show: Value -> string, i: nat)
    requires Life(c, received, errs, show) && Validate(received[0]) && AvoidsKnown(received[0]) && i < |received|
    ensures SameType(received[0], received[i])
  {
    if i > 0 {
      TypeStays(c, received, errs, show, i - 1);
      TypeStep(c, received, errs, show, i - 1);
    }
  }

  /**
   In no life of an event, whatever its handler answers, is anything published to the dead letter
   topic of its consumer: every publication, the burial too, goes back to the topic it came from.
   */
  lemma NothingReachesDLQTopic(
      c: Consumer, received: seq<Event>, errs: nat -> Err, show: Value -> string, i: nat, k: nat)
    requires Life(c, received, errs, show) && Validate(received[0]) && AvoidsKnown(received[0])
    requires received[0].eventType == c.topic && i < |received| && k < |Delivery(c, received, errs, i).published|
    ensures var topic := Delivery(c, received, errs, i).published[k].topic;
            topic == c.topic && topic != c.topic + ".dead"
  {
    TypeStays(c, received, errs, show, i);
    assert |c.topic + ".dead"| > |c.topic|;
  }

  lemma BuriedIsValid(c: Consumer, e: Event, topic: string, message: string)
    requires Validate(e) && AvoidsKnown(e)
    ensures var b := Buried(Seen(c, e), topic, message); Validate(b) && AvoidsKnown(b)
  {
  }

  lemma BuriedCounts(c: Consumer, e: Event, topic: string, message: string)
    requires Carried(c, e)
    ensures var b := Buried(Seen(c, e), topic, message);
            && GetAttempt(NormalizeEvent(b)) == Double(GetAttempt(e) + 1)
            && GetInt(b, PfMaxAttempts) == GetInt(Seen(c, e), PfMaxAttempts)
  {
    assert ExtensionsOf(Buried(Seen(c, e), topic, message))[PfAttempt] == GInt(GetAttempt(e) + 1);
  }

  /** The limit of a dead letter is that of the event; a negative one stays negative. */
  lemma BuriedLimit(c: Consumer, e: Event, topic: string, message: string)
    requires Carried(c, e)
    ensures var limit := Limit(c, NormalizeEvent(Buried(Seen(c, e), topic, message)));
            if -TWO_TO_THE_53 <= Limit(c, e) then limit == Limit(c, e) else limit < 0
  {
    var b := Buried(Seen(c, e), topic, message);
    BuriedCounts(c, e, topic, message);
    LimitIs(c, e);
    LimitIs(c, NormalizeEvent(b));
    if c.maxAttempts.None? && !FloatAt(e, PfMaxAttempts) {
      if -TWO_TO_THE_53 <= GetInt(b, PfMaxAttempts) {
        NormalizedInt(b, PfMaxAttempts);
      } else {
        DoubleStaysLarge(GetInt(b, PfMaxAttempts));
      }
    }
  }

  lemma BuriesIff(c: Consumer, w: Event, err: Option<Err>, message: string)
    requires 0 <= GetAttempt(w) <= TWO_TO_THE_53
    ensures Deliver(c, w, err, message, true).buried
            <==> ShouldDeadLetter(err) || (IsRetryable(err) && GetAttempt(w) + 1 >= Limit(c, w))
  {
    ExactlyOneOutcome(err);
    assert GetAttempt(Seen(c, w)) == GetAttempt(w) + 1;
  }

  /**
   A dead letter comes back to the consumer it came from, with the attempts it had. What happens then
   does not depend on its being one: it is buried again by a dead-letter error, or by a retryable one
   when that would be the attempt after the last.
   */
  lemma BuriedAgainIff(c: Consumer, e: Event, message: string, err: Option<Err>, again: string, show: Value -> string)
    requires Carried(c, e)
    ensures var w := Wire(Buried(Seen(c, e), c.topic, message), show);
            Deliver(c, w, err, again, true).buried
            <==> ShouldDeadLetter(err) || (IsRetryable(err) && GetAttempt(e) + 2 >= Limit(c, e))
  {
    BuriedIsValid(c, e, c.topic, message);
    BuriedCounts(c, e, c.topic, message);
    BuriedLimit(c, e, c.topic, message);
    CountStops(GetAttempt(e));
    WireKeeps(c, Buried(Seen(c, e), c.topic, message), show);
    if GetAttempt(e) < TWO_TO_THE_53 {
      DoubleExactUpTo53Bits(GetAttempt(e) + 1);
    } else {
      DoubleNotExactAfter();
    }
    BuriesIff(c, Wire(Buried(Seen(c, e), c.topic, message), show), err, again);
  }
}
