/** Worked timelines of check_price_increase for one symbol, computed on the model. */
module Scenarios {
  import opened Wrappers
  import opened PriceHistory
  import opened IncreaseDetector

  /** First BTC sample: one sample only, so no comparison. */
  lemma FirstSample()
    ensures CheckPriceIncrease(map[], "BTC", Some(100.0), 0.0)
      == CheckResult(map["BTC" := [Sample(0.0, 100.0)]], Success(NoIncrease))
  {
    var r := CheckPriceIncrease(map[], "BTC", Some(100.0), 0.0);
    assert r.history["BTC"] == [Sample(0.0, 100.0)];
    assert r.history.Keys == {"BTC"};
  }

  /** Second BTC sample at t = 120: a 1.5% rise, below the threshold. */
  lemma SecondSample()
    ensures CheckPriceIncrease(map["BTC" := [Sample(0.0, 100.0)]], "BTC", Some(101.5), 120.0)
      == CheckResult(map["BTC" := [Sample(0.0, 100.0), Sample(120.0, 101.5)]], Success(Detection(false, 1.5)))
  {
    var a, b := Sample(0.0, 100.0), Sample(120.0, 101.5);
    TrimKeepsAllIff([a], -180.0);
    assert Baseline([a, b]) == a;
    assert Percent(101.5, 100.0) == 1.5;
    var r := CheckPriceIncrease(map["BTC" := [a]], "BTC", Some(101.5), 120.0);
    assert r.history["BTC"] == [a, b];
    assert r.history.Keys == {"BTC"};
  }

  /** Third BTC sample at t = 200: exactly 2% over the t = 0 baseline, which triggers. */
  lemma ThirdSample()
    ensures CheckPriceIncrease(map["BTC" := [Sample(0.0, 100.0), Sample(120.0, 101.5)]], "BTC", Some(102.0), 200.0).outcome
      == Success(Detection(true, 2.0))
  {
    var a, b, c := Sample(0.0, 100.0), Sample(120.0, 101.5), Sample(200.0, 102.0);
    TrimKeepsAllIff([a, b], -100.0);
    var r := CheckPriceIncrease(map["BTC" := [a, b]], "BTC", Some(102.0), 200.0);
    assert r.history["BTC"] == [a, b, c];
    assert Baseline([a, b, c]) == a;
    assert Percent(102.0, 100.0) == 2.0;
  }

  /** Prices 100, 101.5 and 102 at t = 0, 120 and 200: the inclusive threshold triggers on the third. */
  lemma ExactThresholdTriggers()
    ensures var r1 := CheckPriceIncrease(map[], "BTC", Some(100.0), 0.0);
      var r2 := CheckPriceIncrease(r1.history, "BTC", Some(101.5), 120.0);
      var r3 := CheckPriceIncrease(r2.history, "BTC", Some(102.0), 200.0);
      && r1.outcome == Success(NoIncrease)
      && r2.outcome == Success(Detection(false, 1.5))
      && r3.outcome == Success(Detection(true, 2.0))
  {
    FirstSample();
    SecondSample();
    ThirdSample();
  }

  /** Prices 100 and 101 at t = 0 and 310: the t = 0 sample is evicted, leaving one sample and no trigger. */
  lemma EvictedBaselineDoesNotTrigger()
    ensures var r1 := CheckPriceIncrease(map[], "BTC", Some(100.0), 0.0);
      var r2 := CheckPriceIncrease(r1.history, "BTC", Some(101.0), 310.0);
      && r2.history["BTC"] == [Sample(310.0, 101.0)]
      && r2.outcome == Success(NoIncrease)
  {
    FirstSample();
  }

  /** A sample exactly `WindowSeconds` old is already outside the window. */
  lemma WindowBoundaryIsExclusive()
    ensures var r1 := CheckPriceIncrease(map[], "BTC", Some(100.0), 0.0);
      var r2 := CheckPriceIncrease(r1.history, "BTC", Some(150.0), 300.0);
      && r2.history["BTC"] == [Sample(300.0, 150.0)]
      && r2.outcome == Success(NoIncrease)
  {
    FirstSample();
  }

  /** A rise of 1.99% over a sample five seconds older does not trigger. */
  lemma JustBelowThresholdDoesNotTrigger()
    ensures CheckPriceIncrease(map["ETH" := [Sample(0.0, 100.0)]], "ETH", Some(101.99), 5.0).outcome
      == Success(Detection(false, 1.99))
  {
    var a, b := Sample(0.0, 100.0), Sample(5.0, 101.99);
    TrimKeepsAllIff([a], -295.0);
    var r := CheckPriceIncrease(map["ETH" := [a]], "ETH", Some(101.99), 5.0);
    assert r.history["ETH"] == [a, b];
    assert Baseline([a, b]) == a;
    assert Percent(101.99, 100.0) == 1.99;
  }
}
