/** One pass of monitor_prices over a snapshot of the watchlist (main.py:99-116). */
module PollCycle {
  import opened Wrappers
  import opened PriceHistory
  import opened IncreaseDetector
  import Watchlist

  /** What the price source and the clock gave for one symbol in this pass. */
  datatype Reading = Reading(fetched: Option<real>, now: real)

  /** An alert for one symbol; it is sent to every authorized user. */
  datatype Alert = Alert(symbol: Symbol, percent: real)

  /** The history after one pass and the alerts it raised, in watchlist order. */
  datatype CycleResult = CycleResult(history: History, alerts: seq<Alert>)

  /** The alert a single check raises, if any; a zero-baseline error raises none. */
  function AlertOf(sym: Symbol, outcome: Result<Detection, CheckError>): (a: seq<Alert>)
    ensures |a| <= 1
    ensures |a| == 1 <==> outcome.Success? && outcome.value.triggered
    ensures |a| == 1 ==> a[0] == Alert(sym, outcome.value.percent)
  {
    if outcome.Success? && outcome.value.triggered then [Alert(sym, outcome.value.percent)] else []
  }

  /** The symbols of `pairs` whose lookup succeeded in this pass. */
  function Fetched(pairs: seq<Symbol>, readings: seq<Reading>): (f: set<Symbol>)
    requires |readings| == |pairs|
    ensures forall i :: 0 <= i < |pairs| && readings[i].fetched.Some? ==> pairs[i] in f
    ensures forall k :: k in f ==> exists i :: 0 <= i < |pairs| && pairs[i] == k && readings[i].fetched.Some?
  {
    if pairs == [] then {}
    else
      var rest := Fetched(pairs[1..], readings[1..]);
      assert forall k :: k in rest ==> exists i :: 0 <= i < |pairs| && pairs[i] == k && readings[i].fetched.Some? by {
        forall k | k in rest ensures exists i :: 0 <= i < |pairs| && pairs[i] == k && readings[i].fetched.Some? {
          var j :| 0 <= j < |pairs[1..]| && pairs[1..][j] == k && readings[1..][j].fetched.Some?;
          assert pairs[j + 1] == k && readings[j + 1].fetched.Some?;
        }
      }
      (if readings[0].fetched.Some? then {pairs[0]} else {}) + rest
  }

  /**
   * Checks every symbol of `pairs` in order, with `readings[i]` for `pairs[i]`,
   * threading the history through and collecting one alert per triggered check.
   */
  function Poll(h: History, pairs: seq<Symbol>, readings: seq<Reading>): (r: CycleResult)
    requires |readings| == |pairs|
    ensures |r.alerts| <= |pairs|
    ensures forall a :: a in r.alerts ==> a.symbol in pairs && a.percent >= ThresholdPercent
    ensures r.history.Keys == h.Keys + Fetched(pairs, readings)
    ensures forall k :: k in h && k !in pairs ==> r.history[k] == h[k]
    decreases |pairs|
  {
    if pairs == [] then CycleResult(h, [])
    else
      var c := CheckPriceIncrease(h, pairs[0], readings[0].fetched, readings[0].now);
      var rest := Poll(c.history, pairs[1..], readings[1..]);
      CycleResult(rest.history, AlertOf(pairs[0], c.outcome) + rest.alerts)
  }

  /** A symbol whose lookup failed in every reading of the pass keeps its samples untouched. */
  lemma {:induction false} FailedSymbolUntouched(h: History, pairs: seq<Symbol>, readings: seq<Reading>, sym: Symbol)
    requires |readings| == |pairs| && sym in h
    requires forall i :: 0 <= i < |pairs| && pairs[i] == sym ==> readings[i].fetched.None?
    ensures Poll(h, pairs, readings).history[sym] == h[sym]
    decreases |pairs|
  {
    if pairs != [] {
      var c := CheckPriceIncrease(h, pairs[0], readings[0].fetched, readings[0].now);
      assert sym in c.history && c.history[sym] == h[sym];
      forall i | 0 <= i < |pairs[1..]| && pairs[1..][i] == sym ensures readings[1..][i].fetched.None? {
        assert pairs[i + 1] == sym;
      }
      FailedSymbolUntouched(c.history, pairs[1..], readings[1..], sym);
    }
  }

  /** A non-empty pass is the first symbol's check followed by a pass over the rest. */
  lemma PollStep(h: History, pairs: seq<Symbol>, readings: seq<Reading>)
    requires |readings| == |pairs| && pairs != []
    ensures var c := CheckPriceIncrease(h, pairs[0], readings[0].fetched, readings[0].now);
      var rest := Poll(c.history, pairs[1..], readings[1..]);
      Poll(h, pairs, readings) == CycleResult(rest.history, AlertOf(pairs[0], c.outcome) + rest.alerts)
  {
  }

  /** A pass over one symbol is one check, alerting exactly when that check triggers. */
  lemma PollSingle(h: History, sym: Symbol, reading: Reading)
    ensures var c := CheckPriceIncrease(h, sym, reading.fetched, reading.now);
      Poll(h, [sym], [reading]) == CycleResult(c.history, AlertOf(sym, c.outcome))
  {
    PollStep(h, [sym], [reading]);
    var c := CheckPriceIncrease(h, sym, reading.fetched, reading.now);
    assert [sym][1..] == [] && [reading][1..] == [];
    assert Poll(c.history, [], []) == CycleResult(c.history, []);
  }

  /** The history after a pass over `p1 + p2` is that of a pass over `p2` after one over `p1`. */
  lemma {:induction false} PollConcatHistory(h: History, p1: seq<Symbol>, r1: seq<Reading>, p2: seq<Symbol>, r2: seq<Reading>)
    requires |r1| == |p1| && |r2| == |p2|
    ensures Poll(h, p1 + p2, r1 + r2).history == Poll(Poll(h, p1, r1).history, p2, r2).history
    decreases |p1|
  {
    if p1 == [] {
      assert p1 + p2 == p2 && r1 + r2 == r2;
    } else {
      var q, rq := p1 + p2, r1 + r2;
      assert q[1..] == p1[1..] + p2 by { }
      assert rq[1..] == r1[1..] + r2 by { }
      var c := CheckPriceIncrease(h, p1[0], r1[0].fetched, r1[0].now);
      assert Poll(h, q, rq).history == Poll(c.history, q[1..], rq[1..]).history by {
        assert q[0] == p1[0] && rq[0] == r1[0];
      }
      assert Poll(h, p1, r1).history == Poll(c.history, p1[1..], r1[1..]).history;
      PollConcatHistory(c.history, p1[1..], r1[1..], p2, r2);
    }
  }

  /** The alerts of a pass over `p1 + p2` are those over `p1` followed by those over `p2` after it. */
  lemma {:induction false} PollConcatAlerts(h: History, p1: seq<Symbol>, r1: seq<Reading>, p2: seq<Symbol>, r2: seq<Reading>)
    requires |r1| == |p1| && |r2| == |p2|
    ensures Poll(h, p1 + p2, r1 + r2).alerts
      == Poll(h, p1, r1).alerts + Poll(Poll(h, p1, r1).history, p2, r2).alerts
    decreases |p1|
  {
    if p1 == [] {
      assert p1 + p2 == p2 && r1 + r2 == r2;
    } else {
      var q, rq := p1 + p2, r1 + r2;
      assert q[1..] == p1[1..] + p2 by { }
      assert rq[1..] == r1[1..] + r2 by { }
      var c := CheckPriceIncrease(h, p1[0], r1[0].fetched, r1[0].now);
      var head := AlertOf(p1[0], c.outcome);
      var tail1 := Poll(c.history, p1[1..], r1[1..]);
      var later := Poll(tail1.history, p2, r2).alerts;
      var whole := Poll(c.history, q[1..], rq[1..]).alerts;
      assert Poll(h, q, rq).alerts == head + whole by {
        assert q[0] == p1[0] && rq[0] == r1[0];
      }
      assert Poll(h, p1, r1).alerts == head + tail1.alerts by { }
      assert Poll(h, p1, r1).history == tail1.history by { }
      assert whole == tail1.alerts + later by {
        PollConcatAlerts(c.history, p1[1..], r1[1..], p2, r2);
      }
      Regroup(Poll(h, q, rq).alerts, head, whole, tail1.alerts, later, Poll(h, p1, r1).alerts);
    }
  }

  /** Regrouping of alert lists: `head + (t + l)` read as `(head + t) + l`. */
  lemma Regroup(all: seq<Alert>, head: seq<Alert>, whole: seq<Alert>, t: seq<Alert>, l: seq<Alert>, first: seq<Alert>)
    requires all == head + whole && whole == t + l && first == head + t
    ensures all == first + l
  {
  }

  /**
   * A pass over `p1 + p2` is a pass over `p1` followed by a pass over `p2` from
   * the history it left, with the alerts of the two passes in that order.
   */
  lemma PollConcat(h: History, p1: seq<Symbol>, r1: seq<Reading>, p2: seq<Symbol>, r2: seq<Reading>)
    requires |r1| == |p1| && |r2| == |p2|
    ensures var first := Poll(h, p1, r1);
      var second := Poll(first.history, p2, r2);
      Poll(h, p1 + p2, r1 + r2) == CycleResult(second.history, first.alerts + second.alerts)
  {
    PollConcatHistory(h, p1, r1, p2, r2);
    PollConcatAlerts(h, p1, r1, p2, r2);
  }

  /** Prefixing at most one alert for a symbol no later alert names keeps alert symbols distinct. */
  lemma PrefixKeepsDistinct(head: seq<Alert>, rest: seq<Alert>, sym: Symbol)
    requires |head| <= 1 && (forall i :: 0 <= i < |head| ==> head[i].symbol == sym)
    requires forall j :: 0 <= j < |rest| ==> rest[j].symbol != sym
    requires forall i, j :: 0 <= i < j < |rest| ==> rest[i].symbol != rest[j].symbol
    ensures var a := head + rest; forall i, j :: 0 <= i < j < |a| ==> a[i].symbol != a[j].symbol
  {
    var a := head + rest;
    forall i, j | 0 <= i < j < |a| ensures a[i].symbol != a[j].symbol {
      if i < |head| {
        assert a[j] == rest[j - |head|];
      } else {
        assert a[i] == rest[i - |head|] && a[j] == rest[j - |head|];
      }
    }
  }

  /** On a duplicate-free watchlist a pass raises at most one alert per symbol. */
  lemma {:induction false} PollAlertsDistinct(h: History, pairs: seq<Symbol>, readings: seq<Reading>)
    requires |readings| == |pairs|
    requires Watchlist.NoDuplicates(pairs)
    ensures var a := Poll(h, pairs, readings).alerts;
      forall i, j :: 0 <= i < j < |a| ==> a[i].symbol != a[j].symbol
    decreases |pairs|
  {
    if pairs != [] {
      var c := CheckPriceIncrease(h, pairs[0], readings[0].fetched, readings[0].now);
      assert Watchlist.NoDuplicates(pairs[1..]);
      PollAlertsDistinct(c.history, pairs[1..], readings[1..]);
      var rest := Poll(c.history, pairs[1..], readings[1..]).alerts;
      assert pairs[0] !in pairs[1..];
      forall j | 0 <= j < |rest| ensures rest[j].symbol != pairs[0] {
        assert rest[j] in rest;
      }
      PollStep(h, pairs, readings);
      PrefixKeepsDistinct(AlertOf(pairs[0], c.outcome), rest, pairs[0]);
    }
  }
}
