/** Handler errors: trees of wrapped errors, Go's errors.Is and errors.As over them, and their classification. */
module ErrorChains {
  import opened Basics

  datatype Kind = RetryKind | DeadLetterKind | SkipKind | UnprocessableKind

  /**
   An error value. Sentinel stands for ErrRetry, ErrDeadLetter, ErrSkip and ErrUnprocessable, which
   are compared by identity; Wrapped for fmt.Errorf with one %w; Joined for errors.Join; Foreign for
   any error without an Unwrap method.
   */
  datatype Err =
    | Sentinel(kind: Kind)
    | Foreign(text: string)
    | RetryAfter(delay: int, cause: Option<Err>)
    | DeadLetter(reason: string, cause: Option<Err>)
    | Wrapped(text: string, inner: Err)
    | Joined(errs: seq<Err>)

  /** What an error's own Is method, or identity, says about a sentinel. */
  predicate Matches(e: Err, k: Kind) {
    match e
    case Sentinel(kind) => kind == k
    case RetryAfter(_, _) => k == RetryKind
    case DeadLetter(_, _) => k == DeadLetterKind
    case _ => false
  }

  // ---- the standard library's searches ----

  /** errors.Is: the error itself, then depth first whatever it unwraps to. */
  predicate Is(e: Err, k: Kind) {
    Matches(e, k) ||
    match e
    case RetryAfter(_, cause) => cause.Some? && Is(cause.value, k)
    case DeadLetter(_, cause) => cause.Some? && Is(cause.value, k)
    case Wrapped(_, inner) => Is(inner, k)
    case Joined(errs) => AnyIs(errs, k)
    case _ => false
  }

  predicate AnyIs(errs: seq<Err>, k: Kind) {
    errs != [] && (Is(errs[0], k) || AnyIs(errs[1..], k))
  }

  /** errors.As for *RetryAfterError: the delay of the first one met, depth first. */
  function AsRetryAfter(e: Err): Option<int> {
    match e
    case RetryAfter(delay, _) => Some(delay)
    case DeadLetter(_, cause) => if cause.Some? then AsRetryAfter(cause.value) else None
    case Wrapped(_, inner) => AsRetryAfter(inner)
    case Joined(errs) => FirstRetryAfter(errs)
    case _ => None
  }

  function FirstRetryAfter(errs: seq<Err>): Option<int> {
    if errs == [] then None
    else
      var first := AsRetryAfter(errs[0]);
      if first.Some? then first else FirstRetryAfter(errs[1..])
  }

  // ---- classification ----

  datatype HandlerResult = ResultAck | ResultRetry | ResultRetryAfter | ResultDeadLetter | ResultSkip

  function ClassifyError(err: Option<Err>): (HandlerResult, int) {
    if err.None? then (ResultAck, 0)
    else
      var after := AsRetryAfter(err.value);
      if after.Some? then (ResultRetryAfter, after.value)
      else if Is(err.value, DeadLetterKind) then (ResultDeadLetter, 0)
      else if Is(err.value, SkipKind) then (ResultSkip, 0)
      else if Is(err.value, UnprocessableKind) then (ResultDeadLetter, 0)
      else if Is(err.value, RetryKind) then (ResultRetry, 0)
      else (ResultRetry, 0)
  }

  predicate IsRetryable(err: Option<Err>) {
    err.Some? && (ClassifyError(err).0 == ResultRetry || ClassifyError(err).0 == ResultRetryAfter)
  }

  predicate ShouldDeadLetter(err: Option<Err>) {
    err.Some? && ClassifyError(err).0 == ResultDeadLetter
  }

  // ---- the flat view: every error of the tree, outermost first ----

  function Flat(e: Err): (all: seq<Err>)
    ensures |all| > 0 && all[0] == e
  {
    [e] +
    match e
    case RetryAfter(_, cause) => if cause.Some? then Flat(cause.value) else []
    case DeadLetter(_, cause) => if cause.Some? then Flat(cause.value) else []
    case Wrapped(_, inner) => Flat(inner)
    case Joined(errs) => FlatAll(errs)
    case _ => []
  }

  function FlatAll(errs: seq<Err>): seq<Err> {
    if errs == [] then [] else Flat(errs[0]) + FlatAll(errs[1..])
  }

  predicate Has(all: seq<Err>, k: Kind) {
    exists i :: 0 <= i < |all| && Matches(all[i], k)
  }

  /** The delay of the first retry-after error in the list. */
  function FirstDelay(all: seq<Err>): (d: Option<int>)
    ensures d.None? <==> forall i :: 0 <= i < |all| ==> !all[i].RetryAfter?
    ensures d.Some? ==> exists i :: 0 <= i < |all| && all[i].RetryAfter? && all[i].delay == d.value
                                    && forall j :: 0 <= j < i ==> !all[j].RetryAfter?
  {
    if all == [] then None
    else if all[0].RetryAfter? then Some(all[0].delay)
    else
      var d := FirstDelay(all[1..]);
      assert d.Some? ==> exists i :: 0 <= i < |all[1..]| && all[1..][i].RetryAfter? && all[i + 1] == all[1..][i];
      d
  }

  lemma HasSplit(a: seq<Err>, b: seq<Err>, k: Kind)
    ensures Has(a + b, k) <==> Has(a, k) || Has(b, k)
  {
    if i :| 0 <= i < |a| && Matches(a[i], k) {
      assert Matches((a + b)[i], k);
    }
    if i :| 0 <= i < |b| && Matches(b[i], k) {
      assert Matches((a + b)[|a| + i], k);
    }
  }

  lemma {:induction false} FirstDelaySplit(a: seq<Err>, b: seq<Err>)
    ensures FirstDelay(a + b) == if FirstDelay(a).Some? then FirstDelay(a) else FirstDelay(b)
  {
    if a == [] {
      assert a + b == b;
    } else {
      assert (a + b)[1..] == a[1..] + b;
      FirstDelaySplit(a[1..], b);
    }
  }

  predicate AnyRetryAfter(all: seq<Err>) {
    exists i :: 0 <= i < |all| && all[i].RetryAfter?
  }

  predicate AnyDeadLetter(all: seq<Err>) {
    exists i :: 0 <= i < |all| && all[i].DeadLetter?
  }

  lemma HasMeans(all: seq<Err>, k: Kind)
    ensures Has(all, k)
            <==> || Sentinel(k) in all
                 || (k == RetryKind && AnyRetryAfter(all))
                 || (k == DeadLetterKind && AnyDeadLetter(all))
  {
  }

  /**
   errors.Is finds a sentinel if and only if some error of the tree is that sentinel, or is of the
   type that stands for it: a retry-after error for ErrRetry, a dead-letter error for ErrDeadLetter.
   */
  lemma IsFindsAnywhere(e: Err, k: Kind)
    ensures Is(e, k)
            <==> || Sentinel(k) in Flat(e)
                 || (k == RetryKind && AnyRetryAfter(Flat(e)))
                 || (k == DeadLetterKind && AnyDeadLetter(Flat(e)))
  {
    IsSearchesAll(e, k);
    HasMeans(Flat(e), k);
  }

  lemma {:induction false} IsSearchesAll(e: Err, k: Kind)
    ensures Is(e, k) <==> Has(Flat(e), k)
  {
    HasSplit([e], Flat(e)[1..], k);
    assert [e] + Flat(e)[1..] == Flat(e);
    assert Has([e], k) <==> Matches(e, k) by { assert [e][0] == e; }
    match e
    case RetryAfter(_, cause) => if cause.Some? { IsSearchesAll(cause.value, k); }
    case DeadLetter(_, cause) => if cause.Some? { IsSearchesAll(cause.value, k); }
    case Wrapped(_, inner) => IsSearchesAll(inner, k);
    case Joined(errs) => AnyIsSearchesAll(errs, k);
    case _ =>
  }

  lemma {:induction false} AnyIsSearchesAll(errs: seq<Err>, k: Kind)
    ensures AnyIs(errs, k) <==> Has(FlatAll(errs), k)
  {
    if errs != [] {
      IsSearchesAll(errs[0], k);
      AnyIsSearchesAll(errs[1..], k);
      HasSplit(Flat(errs[0]), FlatAll(errs[1..]), k);
    }
  }

  /** errors.As finds the outermost retry-after error: the first one of the flat view. */
  lemma {:induction false} AsFindsOutermost(e: Err)
    ensures AsRetryAfter(e) == FirstDelay(Flat(e))
  {
    match e
    case DeadLetter(_, cause) => if cause.Some? { AsFindsOutermost(cause.value); assert Flat(e)[1..] == Flat(cause.value); }
    case Wrapped(_, inner) => AsFindsOutermost(inner); assert Flat(e)[1..] == Flat(inner);
    case Joined(errs) => AsFindsFirst(errs); assert Flat(e)[1..] == FlatAll(errs);
    case _ =>
  }

  lemma {:induction false} AsFindsFirst(errs: seq<Err>)
    ensures FirstRetryAfter(errs) == FirstDelay(FlatAll(errs))
  {
    if errs != [] {
      AsFindsOutermost(errs[0]);
      AsFindsFirst(errs[1..]);
      FirstDelaySplit(Flat(errs[0]), FlatAll(errs[1..]));
    }
  }

  // ---- what classification means ----

  /**
   A retry-after error anywhere decides, and the outermost one gives the delay. Otherwise a
   dead-letter error anywhere decides, then a skip, then an unprocessable error, which is a dead
   letter too. Anything else is retried.
   */
  lemma ClassificationMeans(e: Err)
    ensures var all := Flat(e);
            var dead := AnyDeadLetter(all) || Sentinel(DeadLetterKind) in all;
            var skip, unprocessable := Sentinel(SkipKind) in all, Sentinel(UnprocessableKind) in all;
            ClassifyError(Some(e)) ==
            if AnyRetryAfter(all) then (ResultRetryAfter, FirstDelay(all).value)
            else if dead || (!skip && unprocessable) then (ResultDeadLetter, 0)
            else if skip then (ResultSkip, 0)
            else (ResultRetry, 0)
  {
    AsFindsOutermost(e);
    IsFindsAnywhere(e, DeadLetterKind);
    IsFindsAnywhere(e, SkipKind);
    IsFindsAnywhere(e, UnprocessableKind);
  }

  /** An error wrapped again and again, outermost text first. */
  function WrapAll(texts: seq<string>, e: Err): Err {
    if texts == [] then e else Wrapped(texts[0], WrapAll(texts[1..], e))
  }

  /** Wrapping, however deep, changes neither result nor delay. */
  lemma {:induction false} WrappingChangesNothing(texts: seq<string>, e: Err)
    ensures ClassifyError(Some(WrapAll(texts, e))) == ClassifyError(Some(e))
    ensures forall k :: Is(WrapAll(texts, e), k) == Is(e, k)
    ensures AsRetryAfter(WrapAll(texts, e)) == AsRetryAfter(e)
  {
    if texts != [] {
      WrappingChangesNothing(texts[1..], e);
    }
  }

  /** A retry-after error deep inside a dead-letter error still wins: the event is retried, not buried. */
  lemma RetryAfterBeatsDeadLetter(reason: string, texts: seq<string>, delay: int, cause: Option<Err>)
    ensures ClassifyError(Some(DeadLetter(reason, Some(WrapAll(texts, RetryAfter(delay, cause)))))) == (ResultRetryAfter, delay)
  {
    WrappingChangesNothing(texts, RetryAfter(delay, cause));
  }

  /** Every error is exactly one of retryable, dead letter and skip; only success is acknowledged. */
  lemma ExactlyOneOutcome(err: Option<Err>)
    ensures err.None? <==> ClassifyError(err).0 == ResultAck
    ensures err.None? ==> ClassifyError(err).1 == 0
    ensures err.Some? ==>
              var a, b, c := IsRetryable(err), ShouldDeadLetter(err), ClassifyError(err).0 == ResultSkip;
              (a || b || c) && !(a && b) && !(a && c) && !(b && c)
    ensures err.Some? ==> (IsRetryable(err) <==>
              var all := Flat(err.value);
              || AnyRetryAfter(all)
              || (!AnyDeadLetter(all) && forall k :: k in {DeadLetterKind, SkipKind, UnprocessableKind} ==> Sentinel(k) !in all))
  {
    if err.Some? {
      ClassificationMeans(err.value);
    }
  }
}
