/**
 * Model of app/analysis/credit_speed.py: the windowed "credit per minute"
 * estimator.
 *
 * The history samples are (instant, credit) pairs. Python appends whatever
 * `credit_all` the parser hands over; only the subtraction in the
 * interpolation or in the final `credit_all - interpolated` rejects a value
 * that is not a number, so a sample's credit is either a number (a Python
 * int, float or bool) or `NonNumeric`, and `add` has a third outcome,
 * `TypeError`, for the exception that subtraction raises.
 */
module Estimator {
  import opened Wrappers
  import opened Interpolation

  /** `timedelta(minutes=1)` and `timedelta(minutes=2)` in microseconds. */
  const ONE_MINUTE: int := 60_000_000
  const TWO_MINUTES: int := 120_000_000

  datatype Credit = Num(amount: real) | NonNumeric
  datatype Sample = Sample(t: int, v: Credit)

  /** What `add` does: returns `None`, returns an integer delta, or raises. */
  datatype AddOutcome = NoDelta | Delta(delta: int) | TypeError

  /** Python's `int(x)` on a float: truncation toward zero. */
  function TruncToZero(x: real): (r: int)
    ensures 0.0 <= x ==> 0 <= r && r as real <= x < r as real + 1.0
    ensures x < 0.0 ==> r <= 0 && r as real - 1.0 < x <= r as real
  {
    if 0.0 <= x then x.Floor else -((-x).Floor)
  }

  /** `a` is what remains of `b` after removing some elements from its front. */
  predicate IsSuffix(a: seq<Sample>, b: seq<Sample>) {
    |a| <= |b| && a == b[|b| - |a|..]
  }

  predicate Sorted(h: seq<Sample>) {
    forall i, j :: 0 <= i < j < |h| ==> h[i].t <= h[j].t
  }

  /** The `popleft` loop: drop samples from the front while the first is older than `cutoff`. */
  function EvictOlder(h: seq<Sample>, cutoff: int): seq<Sample>
    decreases |h|
  {
    if |h| > 0 && h[0].t < cutoff then EvictOlder(h[1..], cutoff) else h
  }

  /** The history after `add(v, timestamp)`: append, then evict from the front. */
  function Retained(h: seq<Sample>, v: Credit, timestamp: int): seq<Sample> {
    EvictOlder(h + [Sample(timestamp, v)], timestamp - TWO_MINUTES)
  }

  /** `before` after scanning `h` in order: the last sample with t <= target. */
  function LastAtOrBefore(h: seq<Sample>, target: int): Option<Sample>
    decreases |h|
  {
    if |h| == 0 then None
    else if h[|h| - 1].t <= target then Some(h[|h| - 1])
    else LastAtOrBefore(h[..|h| - 1], target)
  }

  /** `after` after scanning `h` in order: the first sample with t >= target. */
  function FirstAtOrAfter(h: seq<Sample>, target: int): Option<Sample>
    decreases |h|
  {
    if |h| == 0 then None
    else match FirstAtOrAfter(h[..|h| - 1], target)
      case Some(s) => Some(s)
      case None => if h[|h| - 1].t >= target then Some(h[|h| - 1]) else None
  }

  /** `linear_interpolate(before, after, target)` on credits: it returns `v0`
      untouched for an empty interval and otherwise subtracts `v1 - v0`,
      which fails unless both are numbers. */
  function InterpolateSamples(b: Sample, a: Sample, target: int): Credit {
    match (b.v, a.v)
    case (Num(v0), Num(v1)) => Num(LinearInterpolate(b.t, v0, a.t, v1, target))
    case (_, _) => if a.t <= b.t then b.v else NonNumeric
  }

  /** The value `add` returns, computed from the retained history `h`. */
  function Outcome(h: seq<Sample>, v: Credit, timestamp: int): AddOutcome {
    var target := timestamp - ONE_MINUTE;
    match (LastAtOrBefore(h, target), FirstAtOrAfter(h, target))
    case (Some(b), Some(a)) =>
      (match (v, InterpolateSamples(b, a, target))
       case (Num(c), Num(i)) => Delta(TruncToZero(c - i))
       case (_, _) => TypeError)
    case (_, _) => NoDelta
  }

  /** Class `CreditSpeed`: one history per counter stream, updated in place. */
  class CreditSpeed {
    var history: seq<Sample>

    constructor ()
      ensures history == []
    {
      history := [];
    }

    method Add(creditAll: Credit, timestamp: int) returns (r: AddOutcome)
      modifies this
      ensures history == Retained(old(history), creditAll, timestamp)
      ensures r == Outcome(history, creditAll, timestamp)
      ensures |history| > 0 && history[|history| - 1] == Sample(timestamp, creditAll)
      ensures IsSuffix(history, old(history) + [Sample(timestamp, creditAll)])
      ensures history[0].t >= timestamp - TWO_MINUTES
      ensures r.NoDelta? <==> forall k :: 0 <= k < |history| ==> history[k].t > timestamp - ONE_MINUTE
    {
      history := history + [Sample(timestamp, creditAll)];
      var cutoff := timestamp - TWO_MINUTES;
      while |history| > 0 && history[0].t < cutoff
        invariant EvictOlder(history, cutoff) == Retained(old(history), creditAll, timestamp)
        decreases |history|
      {
        history := history[1..];
      }

      var oneMinAgo := timestamp - ONE_MINUTE;
      var before: Option<Sample> := None;
      var after: Option<Sample> := None;
      for i := 0 to |history|
        invariant before == LastAtOrBefore(history[..i], oneMinAgo)
        invariant after == FirstAtOrAfter(history[..i], oneMinAgo)
      {
        var s := history[i];
        assert history[..i + 1][..i] == history[..i];
        if s.t <= oneMinAgo {
          before := Some(s);
        }
        if s.t >= oneMinAgo && after.None? {
          after := Some(s);
        }
      }
      assert history[..|history|] == history;

      if before.Some? && after.Some? {
        var interpolated := InterpolateSamples(before.value, after.value, oneMinAgo);
        if creditAll.Num? && interpolated.Num? {
          r := Delta(TruncToZero(creditAll.amount - interpolated.amount));
        } else {
          r := TypeError;
        }
      } else {
        r := NoDelta;
      }
      RetainedKeepsNewest(old(history), creditAll, timestamp);
      RetainedIsSuffix(old(history), creditAll, timestamp);
      NoDeltaIffNothingOldEnough(old(history), creditAll, timestamp);
    }
  }

  // ---------------------------------------------------------------------------
  // Eviction

  /** Eviction removes a prefix whose every sample is older than the cutoff,
      and leaves a history that is empty or starts at or after the cutoff. */
  lemma {:induction false} EvictOlderShape(h: seq<Sample>, cutoff: int)
    ensures IsSuffix(EvictOlder(h, cutoff), h)
    ensures forall k :: 0 <= k < |h| - |EvictOlder(h, cutoff)| ==> h[k].t < cutoff
    ensures EvictOlder(h, cutoff) == [] || EvictOlder(h, cutoff)[0].t >= cutoff
    decreases |h|
  {
    if |h| > 0 && h[0].t < cutoff {
      EvictOlderShape(h[1..], cutoff);
      var r := EvictOlder(h[1..], cutoff);
      forall k | 0 <= k < |h| - |r|
        ensures h[k].t < cutoff
      {
        if k > 0 {
          assert h[k] == h[1..][k - 1];
        }
      }
    }
  }

  /** A sample at or after the cutoff at the end of the history is never evicted. */
  lemma {:induction false} EvictKeepsLast(h: seq<Sample>, cutoff: int)
    requires |h| > 0 && h[|h| - 1].t >= cutoff
    ensures |EvictOlder(h, cutoff)| > 0
    ensures EvictOlder(h, cutoff)[|EvictOlder(h, cutoff)| - 1] == h[|h| - 1]
    decreases |h|
  {
    EvictOlderShape(h, cutoff);
    if h[0].t < cutoff {
      assert |h| > 1;
      EvictKeepsLast(h[1..], cutoff);
    }
  }

  /** After `add`, the history ends with the sample just added. */
  lemma RetainedKeepsNewest(h: seq<Sample>, v: Credit, timestamp: int)
    ensures |Retained(h, v, timestamp)| > 0
    ensures Retained(h, v, timestamp)[|Retained(h, v, timestamp)| - 1] == Sample(timestamp, v)
  {
    EvictKeepsLast(h + [Sample(timestamp, v)], timestamp - TWO_MINUTES);
  }

  /** After `add`, the history is a suffix of the old history plus the new
      sample (only the front is ever removed), and it starts inside the window. */
  lemma RetainedIsSuffix(h: seq<Sample>, v: Credit, timestamp: int)
    ensures IsSuffix(Retained(h, v, timestamp), h + [Sample(timestamp, v)])
    ensures |Retained(h, v, timestamp)| > 0 && Retained(h, v, timestamp)[0].t >= timestamp - TWO_MINUTES
  {
    EvictOlderShape(h + [Sample(timestamp, v)], timestamp - TWO_MINUTES);
    RetainedKeepsNewest(h, v, timestamp);
  }

  /** For a history in time order and a new sample no earlier than its last one,
      the new history is still in time order and lies wholly in the two-minute window. */
  lemma RetainedWindow(h: seq<Sample>, v: Credit, timestamp: int)
    requires Sorted(h)
    requires |h| > 0 ==> h[|h| - 1].t <= timestamp
    ensures Sorted(Retained(h, v, timestamp))
    ensures forall k :: 0 <= k < |Retained(h, v, timestamp)| ==>
      timestamp - TWO_MINUTES <= Retained(h, v, timestamp)[k].t <= timestamp
  {
    var full := h + [Sample(timestamp, v)];
    SortedAppend(h, Sample(timestamp, v));
    RetainedIsSuffix(h, v, timestamp);
    var r := Retained(h, v, timestamp);
    SortedSuffix(r, full);
    RetainedKeepsNewest(h, v, timestamp);
    forall k | 0 <= k < |r|
      ensures timestamp - TWO_MINUTES <= r[k].t <= timestamp
    {
      if 0 < k {
        assert r[0].t <= r[k].t;
      }
      if k < |r| - 1 {
        assert r[k].t <= r[|r| - 1].t;
      }
    }
  }

  lemma SortedAppend(h: seq<Sample>, s: Sample)
    requires Sorted(h)
    requires |h| > 0 ==> h[|h| - 1].t <= s.t
    ensures Sorted(h + [s])
  {
    var full := h + [s];
    forall i, j | 0 <= i < j < |full|
      ensures full[i].t <= full[j].t
    {
      assert full[i] == h[i];
      if j < |h| {
        assert full[j] == h[j];
      } else {
        assert h[i].t <= h[|h| - 1].t;
      }
    }
  }

  lemma SortedSuffix(a: seq<Sample>, b: seq<Sample>)
    requires Sorted(b) && IsSuffix(a, b)
    ensures Sorted(a)
  {
    var off := |b| - |a|;
    forall i, j | 0 <= i < j < |a|
      ensures a[i].t <= a[j].t
    {
      assert a[i] == b[off + i] && a[j] == b[off + j];
    }
  }

  // ---------------------------------------------------------------------------
  // The scan for `before` and `after`

  /** `before` is missing exactly when no sample is at or before the target;
      otherwise it is a sample at or before the target with none such after it. */
  lemma {:induction false} LastAtOrBeforeIsLast(h: seq<Sample>, target: int)
    ensures LastAtOrBefore(h, target).None? <==> forall k :: 0 <= k < |h| ==> h[k].t > target
    ensures LastAtOrBefore(h, target).Some? ==>
      exists k :: 0 <= k < |h| && h[k] == LastAtOrBefore(h, target).value && h[k].t <= target &&
        forall j :: k < j < |h| ==> h[j].t > target
    decreases |h|
  {
    if |h| > 0 && h[|h| - 1].t > target {
      var p := h[..|h| - 1];
      LastAtOrBeforeIsLast(p, target);
      assert forall k :: 0 <= k < |p| ==> p[k] == h[k];
    }
  }

  /** `after` is missing exactly when no sample is at or after the target;
      otherwise it is a sample at or after the target with none such before it. */
  lemma {:induction false} FirstAtOrAfterIsFirst(h: seq<Sample>, target: int)
    ensures FirstAtOrAfter(h, target).None? <==> forall k :: 0 <= k < |h| ==> h[k].t < target
    ensures FirstAtOrAfter(h, target).Some? ==>
      exists k :: 0 <= k < |h| && h[k] == FirstAtOrAfter(h, target).value && h[k].t >= target &&
        forall j :: 0 <= j < k ==> h[j].t < target
    decreases |h|
  {
    if |h| > 0 {
      var p := h[..|h| - 1];
      FirstAtOrAfterIsFirst(p, target);
      assert forall k :: 0 <= k < |p| ==> p[k] == h[k];
    }
  }

  /** The new sample is at or after `timestamp - 1min` and is retained, so
      after `add` the `after` sample always exists. */
  lemma AfterAlwaysExists(h: seq<Sample>, v: Credit, timestamp: int)
    ensures FirstAtOrAfter(Retained(h, v, timestamp), timestamp - ONE_MINUTE).Some?
  {
    var r := Retained(h, v, timestamp);
    RetainedKeepsNewest(h, v, timestamp);
    FirstAtOrAfterIsFirst(r, timestamp - ONE_MINUTE);
    assert r[|r| - 1].t >= timestamp - ONE_MINUTE;
  }

  /** `add` returns `None` exactly when no retained sample is at or before
      `timestamp - 1min`. */
  lemma NoDeltaIffNothingOldEnough(h: seq<Sample>, v: Credit, timestamp: int)
    ensures var r := Retained(h, v, timestamp);
      Outcome(r, v, timestamp).NoDelta? <==>
        forall k :: 0 <= k < |r| ==> r[k].t > timestamp - ONE_MINUTE
  {
    var r := Retained(h, v, timestamp);
    AfterAlwaysExists(h, v, timestamp);
    LastAtOrBeforeIsLast(r, timestamp - ONE_MINUTE);
  }

  /** `before` lies at or before the target and `after` at or after it, so the
      interpolation interval is empty only when both sit exactly on the target. */
  lemma BeforeAfterBracketTarget(h: seq<Sample>, target: int)
    requires LastAtOrBefore(h, target).Some? && FirstAtOrAfter(h, target).Some?
    ensures LastAtOrBefore(h, target).value.t <= target <= FirstAtOrAfter(h, target).value.t
    ensures FirstAtOrAfter(h, target).value.t <= LastAtOrBefore(h, target).value.t <==>
      LastAtOrBefore(h, target).value.t == target == FirstAtOrAfter(h, target).value.t
  {
    LastAtOrBeforeIsLast(h, target);
    FirstAtOrAfterIsFirst(h, target);
  }

  predicate AllNumeric(h: seq<Sample>) {
    forall k :: 0 <= k < |h| ==> h[k].v.Num?
  }

  /** With numeric credits only (the estimator's declared use), `add` never
      raises; a delta is `credit_all - interpolated` truncated toward zero,
      where `interpolated` is `linear_interpolate(before, after, target)` and
      lies between the credits of `before` and `after`. */
  lemma NumericDelta(h: seq<Sample>, c: real, timestamp: int)
    requires AllNumeric(h)
    ensures var r := Retained(h, Num(c), timestamp);
      var target := timestamp - ONE_MINUTE;
      var o := Outcome(r, Num(c), timestamp);
      !o.TypeError? &&
      (o.Delta? ==>
        var b := LastAtOrBefore(r, target).value;
        var a := FirstAtOrAfter(r, target).value;
        b.v.Num? && a.v.Num? &&
        var i := LinearInterpolate(b.t, b.v.amount, a.t, a.v.amount, target);
        o.delta == TruncToZero(c - i) &&
        (b.v.amount <= a.v.amount ==> b.v.amount <= i <= a.v.amount) &&
        (a.v.amount <= b.v.amount ==> a.v.amount <= i <= b.v.amount))
  {
    var r := Retained(h, Num(c), timestamp);
    var target := timestamp - ONE_MINUTE;
    var full := h + [Sample(timestamp, Num(c))];
    assert AllNumeric(full) by {
      forall k | 0 <= k < |full| ensures full[k].v.Num? {
        if k < |h| { assert full[k] == h[k]; }
      }
    }
    RetainedIsSuffix(h, Num(c), timestamp);
    assert AllNumeric(r) by {
      forall k | 0 <= k < |r| ensures r[k].v.Num? {
        assert r[k] == full[|full| - |r| + k];
      }
    }
    AfterAlwaysExists(h, Num(c), timestamp);
    LastAtOrBeforeIsLast(r, target);
    FirstAtOrAfterIsFirst(r, target);
    if LastAtOrBefore(r, target).Some? {
      var b := LastAtOrBefore(r, target).value;
      var a := FirstAtOrAfter(r, target).value;
      BeforeAfterBracketTarget(r, target);
      if b.t < a.t {
        BetweenEndpoints(b.t, b.v.amount, a.t, a.v.amount, target);
      }
    }
  }

  // ---------------------------------------------------------------------------
  // The worked example: samples (0s, 100), (30s, 130), (60s, 160), (65s, 166)

  lemma WorkedExample()
    ensures var h1 := Retained([], Num(100.0), 0);
      var h2 := Retained(h1, Num(130.0), 30_000_000);
      var h3 := Retained(h2, Num(160.0), 60_000_000);
      var h4 := Retained(h3, Num(166.0), 65_000_000);
      Outcome(h1, Num(100.0), 0) == NoDelta &&
      Outcome(h2, Num(130.0), 30_000_000) == NoDelta &&
      Outcome(h3, Num(160.0), 60_000_000) == Delta(60) &&
      Outcome(h4, Num(166.0), 65_000_000) == Delta(61)
  {
    var s0 := Sample(0, Num(100.0));
    var s1 := Sample(30_000_000, Num(130.0));
    var s2 := Sample(60_000_000, Num(160.0));
    var s3 := Sample(65_000_000, Num(166.0));
    assert Retained([], Num(100.0), 0) == [s0];
    assert Retained([s0], Num(130.0), 30_000_000) == [s0, s1];
    assert Retained([s0, s1], Num(160.0), 60_000_000) == [s0, s1, s2];
    assert Retained([s0, s1, s2], Num(166.0), 65_000_000) == [s0, s1, s2, s3];
    assert [s0][..0] == [];
    assert [s0, s1][..1] == [s0];
    assert [s0, s1, s2][..2] == [s0, s1];
    assert [s0, s1, s2, s3][..3] == [s0, s1, s2];
    assert LastAtOrBefore([s0], -30_000_000) == None;
    assert LastAtOrBefore([s0, s1], -30_000_000) == None;
    assert FirstAtOrAfter([s0], 0) == Some(s0);
    assert FirstAtOrAfter([s0, s1], 0) == Some(s0);
    assert FirstAtOrAfter([s0, s1, s2], 0) == Some(s0);
    assert LastAtOrBefore([s0, s1], 0) == Some(s0);
    assert LastAtOrBefore([s0, s1, s2], 0) == Some(s0);
    assert LastAtOrBefore([s0, s1], 5_000_000) == Some(s0);
    assert LastAtOrBefore([s0, s1, s2], 5_000_000) == Some(s0);
    assert LastAtOrBefore([s0, s1, s2, s3], 5_000_000) == Some(s0);
    assert FirstAtOrAfter([s0], 5_000_000) == None;
    assert FirstAtOrAfter([s0, s1], 5_000_000) == Some(s1);
    assert FirstAtOrAfter([s0, s1, s2], 5_000_000) == Some(s1);
    assert FirstAtOrAfter([s0, s1, s2, s3], 5_000_000) == Some(s1);
    assert LinearInterpolate(0, 100.0, 30_000_000, 130.0, 5_000_000) == 105.0;
  }
}
