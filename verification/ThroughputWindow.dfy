/**
 The throughput of a handler: the times of its messages within a horizon, compacted as time goes by.
 Times and durations are integral nanoseconds; rates are reals.
 */
module ThroughputWindow {
  import opened Basics

  const NANOS_PER_SECOND: real := 1_000_000_000.0

  // ---- what is kept ----

  predicate NonDecreasing(times: seq<int>) {
    forall i, j :: 0 <= i < j < |times| ==> times[i] <= times[j]
  }

  /** What compaction leaves: the times from the first one on that is not before the cutoff. */
  function DropLeading(times: seq<int>, cutoff: int): seq<int> {
    if times != [] && times[0] < cutoff then DropLeading(times[1..], cutoff) else times
  }

  /** What the window holds after messages at these times. */
  function Samples(times: seq<int>, horizon: int): seq<int> {
    if times == [] then []
    else
      var now := times[|times| - 1];
      DropLeading(Samples(times[..|times| - 1], horizon) + [now], now - horizon)
  }

  /** The times not before the cutoff, in order. */
  function NotBefore(times: seq<int>, cutoff: int): seq<int> {
    if times == [] then []
    else
      NotBefore(times[..|times| - 1], cutoff)
      + if times[|times| - 1] < cutoff then [] else [times[|times| - 1]]
  }

  lemma {:induction false} NotBeforeOfParts(s: seq<int>, t: seq<int>, cutoff: int)
    ensures NotBefore(s + t, cutoff) == NotBefore(s, cutoff) + NotBefore(t, cutoff)
  {
    if t == [] {
      assert s + t == s;
    } else {
      NotBeforeOfParts(s, t[..|t| - 1], cutoff);
      assert (s + t)[..|s + t| - 1] == s + t[..|t| - 1];
    }
  }

  lemma {:induction false} NoneNotBefore(s: seq<int>, cutoff: int)
    requires forall i :: 0 <= i < |s| ==> s[i] < cutoff
    ensures NotBefore(s, cutoff) == []
  {
    if s != [] {
      NoneNotBefore(s[..|s| - 1], cutoff);
    }
  }

  lemma {:induction false} AllNotBefore(s: seq<int>, cutoff: int)
    requires forall i :: 0 <= i < |s| ==> cutoff <= s[i]
    ensures NotBefore(s, cutoff) == s
  {
    if s != [] {
      AllNotBefore(s[..|s| - 1], cutoff);
      assert s == s[..|s| - 1] + [s[|s| - 1]];
    }
  }

  lemma {:induction false} NotBeforeTwice(s: seq<int>, earlier: int, later: int)
    requires earlier <= later
    ensures NotBefore(NotBefore(s, earlier), later) == NotBefore(s, later)
  {
    if s != [] {
      NotBeforeTwice(s[..|s| - 1], earlier, later);
      var tail := if s[|s| - 1] < earlier then [] else [s[|s| - 1]];
      NotBeforeOfParts(NotBefore(s[..|s| - 1], earlier), tail, later);
      if tail != [] {
        assert tail[..0] == [];
      }
    }
  }

  /** Of times in order, dropping the leading ones is filtering. */
  lemma {:induction false} DropLeadingFilters(times: seq<int>, cutoff: int)
    requires NonDecreasing(times)
    ensures DropLeading(times, cutoff) == NotBefore(times, cutoff)
  {
    if times != [] && times[0] < cutoff {
      DropLeadingFilters(times[1..], cutoff);
      assert times == times[..1] + times[1..];
      NotBeforeOfParts(times[..1], times[1..], cutoff);
      NoneNotBefore(times[..1], cutoff);
    } else {
      AllNotBefore(times, cutoff);
    }
  }

  lemma SamplesOfLonger(times: seq<int>, now: int, horizon: int)
    ensures Samples(times + [now], horizon) == DropLeading(Samples(times, horizon) + [now], now - horizon)
  {
    assert (times + [now])[..|times|] == times;
  }

  lemma WindowStep(before: seq<int>, now: int, kept: seq<int>, cutoff: int)
    requires NonDecreasing(kept + [now]) && NotBefore(kept, cutoff) == NotBefore(before, cutoff)
    ensures DropLeading(kept + [now], cutoff) == NotBefore(before + [now], cutoff)
  {
    DropLeadingFilters(kept + [now], cutoff);
    NotBeforeOfParts(kept, [now], cutoff);
    NotBeforeOfParts(before, [now], cutoff);
  }

  lemma AppendInOrder(s: seq<int>, x: int, now: int)
    requires NonDecreasing(s + [x]) && x <= now
    ensures NonDecreasing(s + [x] + [now])
  {
    forall i | 0 <= i < |s|
      ensures s[i] <= x
    {
      assert (s + [x])[i] <= (s + [x])[|s|];
    }
    forall i, j | 0 <= i < j < |s|
      ensures s[i] <= s[j]
    {
      assert (s + [x])[i] <= (s + [x])[j];
    }
  }

  lemma InOrderParts(s: seq<int>, now: int)
    requires NonDecreasing(s + [now]) && s != []
    ensures var front, last := s[..|s| - 1], s[|s| - 1];
            NonDecreasing(front + [last]) && NonDecreasing(front + [now]) && last <= now
  {
    var front, last := s[..|s| - 1], s[|s| - 1];
    forall i, j | 0 <= i < j < |s|
      ensures s[i] <= s[j]
    {
      assert (s + [now])[i] <= (s + [now])[j];
    }
    forall i | 0 <= i < |s|
      ensures s[i] <= now
    {
      assert (s + [now])[i] <= (s + [now])[|s|];
    }
    assert front + [last] == s;
  }

  lemma {:induction false} FilteredInOrder(s: seq<int>, cutoff: int, now: int)
    requires NonDecreasing(s + [now])
    ensures NonDecreasing(NotBefore(s, cutoff) + [now])
  {
    if s != [] {
      var front, last := s[..|s| - 1], s[|s| - 1];
      InOrderParts(s, now);
      FilteredInOrder(front, cutoff, last);
      FilteredInOrder(front, cutoff, now);
      if cutoff <= last {
        AppendInOrder(NotBefore(front, cutoff), last, now);
      } else {
        assert NotBefore(s, cutoff) == NotBefore(front, cutoff);
      }
    }
  }

  /**
   As long as time does not run backwards, the window holds exactly the recorded times within the
   horizon, in order.
   */
  lemma {:induction false} SamplesAreWindow(times: seq<int>, horizon: int)
    requires NonDecreasing(times) && times != []
    ensures Samples(times, horizon) == NotBefore(times, times[|times| - 1] - horizon)
  {
    var before, now := times[..|times| - 1], times[|times| - 1];
    if before != [] {
      SamplesAreWindow(before, horizon);
    }
    WindowOfLonger(before, now, horizon);
    assert times == before + [now];
  }

  lemma WindowOfFirst(now: int, horizon: int)
    ensures Samples([now], horizon) == NotBefore([now], now - horizon)
  {
    SamplesOfLonger([], now, horizon);
    assert [] + [now] == [now];
    WindowStep([], now, [], now - horizon);
  }

  lemma LastBeforeNow(before: seq<int>, now: int)
    requires before != [] && NonDecreasing(before + [now])
    ensures before[|before| - 1] <= now
  {
    assert before[|before| - 1] == (before + [now])[|before| - 1] <= (before + [now])[|before|];
  }

  lemma WindowOfNext(before: seq<int>, now: int, horizon: int)
    requires before != [] && NonDecreasing(before + [now])
    requires Samples(before, horizon) == NotBefore(before, before[|before| - 1] - horizon)
    ensures Samples(before + [now], horizon) == NotBefore(before + [now], now - horizon)
  {
    var cutoff := before[|before| - 1] - horizon;
    SamplesOfLonger(before, now, horizon);
    LastBeforeNow(before, now);
    FilteredInOrder(before, cutoff, now);
    NotBeforeTwice(before, cutoff, now - horizon);
    WindowStep(before, now, NotBefore(before, cutoff), now - horizon);
  }

  lemma WindowOfLonger(before: seq<int>, now: int, horizon: int)
    requires NonDecreasing(before + [now])
    requires before != [] ==> Samples(before, horizon) == NotBefore(before, before[|before| - 1] - horizon)
    ensures Samples(before + [now], horizon) == NotBefore(before + [now], now - horizon)
  {
    if before == [] {
      WindowOfFirst(now, horizon);
      assert before + [now] == [now];
    } else {
      WindowOfNext(before, now, horizon);
    }
  }

  lemma {:induction false} DropLeadingSize(kept: seq<int>, now: int, cutoff: int)
    ensures |DropLeading(kept + [now], cutoff)| <= |kept| + 1
    ensures cutoff <= now ==> DropLeading(kept + [now], cutoff) != []
  {
    if kept != [] && kept[0] < cutoff {
      assert (kept + [now])[1..] == kept[1..] + [now];
      DropLeadingSize(kept[1..], now, cutoff);
    }
  }

  /** After a message the window is empty if and only if the horizon is negative; it holds no more than was recorded. */
  lemma {:induction false} SamplesNonEmptyIff(times: seq<int>, horizon: int)
    ensures times != [] ==> (Samples(times, horizon) != [] <==> 0 <= horizon)
    ensures |Samples(times, horizon)| <= |times|
  {
    if times != [] {
      var before, now := times[..|times| - 1], times[|times| - 1];
      SamplesNonEmptyIff(before, horizon);
      DropLeadingSize(Samples(before, horizon), now, now - horizon);
      if horizon < 0 {
        assert Samples(before, horizon) == [];
        assert [now][1..] == [];
      }
    }
  }

  // ---- the window ----

  datatype ThroughputSnapshot = ThroughputSnapshot(count: nat, windowSeconds: real, currentRps: real)

  /** The snapshot of samples at a time: the window starts at its first sample, and lasts at least a nanosecond. */
  predicate Describes(s: ThroughputSnapshot, samples: seq<int>, now: int) {
    if samples == [] then s == ThroughputSnapshot(0, 0.0, 0.0)
    else
      && s.count == |samples|
      && s.windowSeconds * 1_000_000_000.0 == (if now <= samples[0] then 1 else now - samples[0]) as real
      && s.currentRps * s.windowSeconds == |samples| as real
  }

  lemma DropOne(times: seq<int>, cutoff: int)
    requires times != [] && times[0] < cutoff
    ensures DropLeading(times, cutoff) == DropLeading(times[1..], cutoff)
  {
  }

  lemma DropNone(times: seq<int>, cutoff: int)
    requires times != [] ==> cutoff <= times[0]
    ensures DropLeading(times, cutoff) == times
  {
  }

  class ThroughputWindow {
    const horizon: int
    var samples: seq<int>
    ghost var history: seq<int>

    ghost predicate Valid()
      reads this
    {
      samples == Samples(history, horizon)
    }

    constructor (horizon: int)
      ensures Valid() && history == [] && this.horizon == horizon
    {
      this.horizon := horizon;
      samples, history := [], [];
    }

    method AddAndSnapshot(now: int) returns (s: ThroughputSnapshot)
      requires Valid()
      modifies this
      ensures Valid() && history == old(history) + [now]
      ensures Describes(s, samples, now)
    {
      SamplesOfLonger(history, now, horizon);
      samples := samples + [now];
      Cleanup(now);
      history := history + [now];
      s := Snapshot(now);
    }

    method Cleanup(now: int)
      modifies `samples
      ensures samples == DropLeading(old(samples), now - horizon)
    {
      var cutoff := now - horizon;
      var idx := 0;
      while idx < |samples| && samples[idx] < cutoff
        invariant 0 <= idx <= |samples| && samples == old(samples)
        invariant DropLeading(samples, cutoff) == DropLeading(samples[idx..], cutoff)
      {
        DropOne(samples[idx..], cutoff);
        assert samples[idx..][1..] == samples[idx + 1..];
        idx := idx + 1;
      }
      DropNone(samples[idx..], cutoff);
      samples := samples[idx..];
    }

    method Snapshot(now: int) returns (s: ThroughputSnapshot)
      ensures Describes(s, samples, now)
    {
      if samples == [] {
        return ThroughputSnapshot(0, 0.0, 0.0);
      }
      var span := now - samples[0];
      if span <= 0 {
        span := 1;
      }
      var seconds := span as real / NANOS_PER_SECOND;
      s := ThroughputSnapshot(|samples|, seconds, |samples| as real / seconds);
    }
  }
}
