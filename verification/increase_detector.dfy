/** The increase decision of check_price_increase (main.py:65-97). */
module IncreaseDetector {
  import opened Wrappers
  import opened PriceHistory

  /** Minimum rise, in percent, that raises an alert; the comparison is inclusive. */
  const ThresholdPercent: real := 2.0

  /** The pair `(triggered, percent)` the source returns. */
  datatype Detection = Detection(triggered: bool, percent: real)

  /** The division by the baseline price raises when that price is zero. */
  datatype CheckError = ZeroBaseline

  /** What the source returns when it cannot or need not compare: `(False, 0)`. */
  const NoIncrease: Detection := Detection(false, 0.0)

  /**
   * Index of the sample with the smallest timestamp, scanning left to right and
   * replacing the candidate only on a strictly smaller timestamp, so that among
   * equal timestamps the first one wins.
   */
  function OldestIndex(s: seq<Sample>): (i: nat)
    requires |s| > 0
    ensures i < |s|
    ensures forall j :: 0 <= j < |s| ==> s[i].timestamp <= s[j].timestamp
    ensures forall j :: 0 <= j < i ==> s[j].timestamp > s[i].timestamp
  {
    if |s| == 1 then 0
    else
      var k := OldestIndex(s[..|s| - 1]);
      if s[|s| - 1].timestamp < s[k].timestamp then |s| - 1 else k
  }

  /** The baseline sample: the oldest one retained in the window. */
  function Baseline(s: seq<Sample>): (b: Sample)
    requires |s| > 0
    ensures b in s
    ensures forall j :: 0 <= j < |s| ==> b.timestamp <= s[j].timestamp
  {
    s[OldestIndex(s)]
  }

  /** In an ascending window the baseline is the first sample. */
  lemma BaselineOfAscending(s: seq<Sample>)
    requires |s| > 0 && Ascending(s)
    ensures Baseline(s) == s[0]
  {
  }

  /** Percentage change from `base` to `current`. */
  function Percent(current: real, base: real): real
    requires base != 0.0
  {
    (current - base) / base * 100.0
  }

  /** For a positive baseline, the percentage reaches the threshold exactly when
      the current price is at least 102% of the baseline. */
  lemma PercentReachesThresholdIff(current: real, base: real)
    requires base > 0.0
    ensures Percent(current, base) >= ThresholdPercent <==> 100.0 * current >= 102.0 * base
  {
    var p := Percent(current, base);
    assert p * base == (current - base) * 100.0;
    if p >= ThresholdPercent {
      assert p * base >= ThresholdPercent * base;
    } else {
      assert p * base < ThresholdPercent * base;
    }
  }

  /** For a fixed positive baseline, a higher current price never lowers the percentage. */
  lemma PercentMonotone(c1: real, c2: real, base: real)
    requires base > 0.0 && c1 <= c2
    ensures Percent(c1, base) <= Percent(c2, base)
  {
    var p1, p2 := Percent(c1, base), Percent(c2, base);
    assert p1 * base == (c1 - base) * 100.0;
    assert p2 * base == (c2 - base) * 100.0;
    if p1 > p2 {
      assert p1 * base > p2 * base;
    }
  }

  /** A price that has not risen above a positive baseline never triggers. */
  lemma NoRiseNeverTriggers(window: seq<Sample>, current: real)
    requires |window| >= 2 && Baseline(window).price > 0.0 && current <= Baseline(window).price
    ensures Evaluate(window, current).Success? && !Evaluate(window, current).value.triggered
  {
    var base := Baseline(window).price;
    PercentMonotone(current, base, base);
    assert Percent(base, base) == 0.0;
  }

  /**
   * Decides on a trimmed window whose last sample carries `current`: fewer than
   * two samples is `(False, 0)`; otherwise the percentage against the baseline,
   * triggered when at least `ThresholdPercent`.
   */
  function Evaluate(window: seq<Sample>, current: real): (r: Result<Detection, CheckError>)
    ensures |window| < 2 ==> r == Success(NoIncrease)
    ensures r.Failure? <==> |window| >= 2 && Baseline(window).price == 0.0
    ensures r.Success? && |window| >= 2 ==>
      r.value.percent == Percent(current, Baseline(window).price)
    ensures r.Success? ==> (r.value.triggered <==> |window| >= 2 && r.value.percent >= ThresholdPercent)
  {
    if |window| < 2 then Success(NoIncrease)
    else
      var base := Baseline(window).price;
      if base == 0.0 then Failure(ZeroBaseline)
      else
        var p := Percent(current, base);
        Success(Detection(p >= ThresholdPercent, p))
  }

  /** The new history and the decision of one call of check_price_increase. */
  datatype CheckResult = CheckResult(history: History, outcome: Result<Detection, CheckError>)

  /**
   * One call of check_price_increase for `sym`: `fetched` is the price lookup's
   * answer and `now` the clock reading taken after it.
   */
  function CheckPriceIncrease(h: History, sym: Symbol, fetched: Option<real>, now: real): (r: CheckResult)
    ensures fetched.None? ==> r.history == h && r.outcome == Success(NoIncrease)
    ensures fetched.Some? ==> sym in r.history && NewerThan(r.history[sym], now - WindowSeconds)
    ensures fetched.Some? ==> |r.history[sym]| > 0 && r.history[sym][|r.history[sym]| - 1] == Sample(now, fetched.value)
    ensures forall k :: k in h && k != sym ==> k in r.history && r.history[k] == h[k]
    ensures fetched.Some? && |r.history[sym]| < 2 ==> r.outcome == Success(NoIncrease)
    ensures r.outcome.Success? && r.outcome.value.triggered ==>
      && fetched.Some? && |r.history[sym]| >= 2
      && r.outcome.value.percent >= ThresholdPercent
      && Baseline(r.history[sym]).price != 0.0
      && r.outcome.value.percent == Percent(fetched.value, Baseline(r.history[sym]).price)
  {
    match fetched
    case None => CheckResult(h, Success(NoIncrease))
    case Some(price) =>
      var h' := Record(h, sym, price, now);
      CheckResult(h', Evaluate(h'[sym], price))
  }

  /** A failed lookup changes nothing and reports no increase. */
  lemma FailedLookupChangesNothing(h: History, sym: Symbol, now: real)
    ensures CheckPriceIncrease(h, sym, None, now) == CheckResult(h, Success(NoIncrease))
  {
  }

  /**
   * After a successful lookup the symbol's samples are exactly the earlier ones
   * still in the window followed by the new one, every one of them newer than
   * `now - WindowSeconds`, and no other symbol's samples change.
   */
  lemma CheckRecordsInWindow(h: History, sym: Symbol, price: real, now: real)
    ensures var r := CheckPriceIncrease(h, sym, Some(price), now);
      && r.history.Keys == h.Keys + {sym}
      && (forall k :: k in h && k != sym ==> r.history[k] == h[k])
      && NewerThan(r.history[sym], now - WindowSeconds)
      && r.history[sym] == Trim(SamplesOf(h, sym), now - WindowSeconds) + [Sample(now, price)]
  {
  }

  /**
   * A trigger needs an earlier sample still inside the window that the current
   * price exceeds by at least 2%: the baseline, which is no later than any
   * retained sample.
   */
  lemma {:induction false} TriggerMeansRiseOverBaseline(h: History, sym: Symbol, price: real, now: real)
    requires forall x :: x in SamplesOf(h, sym) ==> x.price > 0.0
    ensures var r := CheckPriceIncrease(h, sym, Some(price), now);
      r.outcome.Success? && r.outcome.value.triggered <==>
        exists b :: b in SamplesOf(h, sym) && b.timestamp > now - WindowSeconds
          && b == Baseline(r.history[sym]) && 100.0 * price >= 102.0 * b.price
  {
    var r := CheckPriceIncrease(h, sym, Some(price), now);
    var w := r.history[sym];
    var stale := Trim(SamplesOf(h, sym), now - WindowSeconds);
    assert w == stale + [Sample(now, price)];
    if |w| >= 2 {
      var i := OldestIndex(w);
      TrimMembers(SamplesOf(h, sym), now - WindowSeconds);
      if i < |stale| {
        assert w[i] == stale[i] && stale[i] in stale;
        PercentReachesThresholdIff(price, w[i].price);
      } else {
        assert w[i] == Sample(now, price);
      }
    }
  }
}
