/** The per-symbol sliding window of price samples (main.py, check_price_increase). */
module PriceHistory {

  /** An upper-case ticker such as "BTC". */
  type Symbol = string

  /** One observed price at one instant (seconds since the epoch). */
  datatype Sample = Sample(timestamp: real, price: real)

  /** Every symbol's retained samples, in insertion order. */
  type History = map<Symbol, seq<Sample>>

  /** Length of the trailing window, in seconds. */
  const WindowSeconds: real := 300.0

  /** The samples recorded for `sym`, or none when it was never recorded. */
  function SamplesOf(h: History, sym: Symbol): seq<Sample>
  {
    if sym in h then h[sym] else []
  }

  /** Timestamps never decrease along `s`. */
  predicate Ascending(s: seq<Sample>)
  {
    forall i, j :: 0 <= i < j < |s| ==> s[i].timestamp <= s[j].timestamp
  }

  /** Every sample of `s` is strictly newer than `cutoff`. */
  predicate NewerThan(s: seq<Sample>, cutoff: real)
  {
    forall i :: 0 <= i < |s| ==> s[i].timestamp > cutoff
  }

  /** No sample of `s` is later than `now`. */
  predicate NotAfter(s: seq<Sample>, now: real)
  {
    forall i :: 0 <= i < |s| ==> s[i].timestamp <= now
  }

  /** Keeps the samples whose timestamp is strictly greater than `cutoff`. */
  function Trim(s: seq<Sample>, cutoff: real): (r: seq<Sample>)
    ensures |r| <= |s|
    ensures NewerThan(r, cutoff)
  {
    if s == [] then []
    else if s[0].timestamp > cutoff then [s[0]] + Trim(s[1..], cutoff)
    else Trim(s[1..], cutoff)
  }

  /** A sample survives trimming exactly when it was present and is newer than the cutoff. */
  lemma {:induction false} TrimMembers(s: seq<Sample>, cutoff: real)
    ensures forall x :: x in Trim(s, cutoff) <==> x in s && x.timestamp > cutoff
  {
    if s != [] {
      TrimMembers(s[1..], cutoff);
      assert forall x :: x in s <==> x == s[0] || x in s[1..];
    }
  }

  /** Trimming distributes over concatenation: it only deletes, it never reorders. */
  lemma {:induction false} TrimConcat(a: seq<Sample>, b: seq<Sample>, cutoff: real)
    ensures Trim(a + b, cutoff) == Trim(a, cutoff) + Trim(b, cutoff)
  {
    if a == [] {
      assert a + b == b;
    } else {
      assert (a + b)[1..] == a[1..] + b;
      TrimConcat(a[1..], b, cutoff);
    }
  }

  /** A sequence already inside the window is left as it is, and only such a sequence is. */
  lemma {:induction false} TrimKeepsAllIff(s: seq<Sample>, cutoff: real)
    ensures Trim(s, cutoff) == s <==> NewerThan(s, cutoff)
  {
    if s != [] {
      TrimKeepsAllIff(s[1..], cutoff);
      if s[0].timestamp > cutoff {
        assert NewerThan(s, cutoff) <==> NewerThan(s[1..], cutoff) by {
          if NewerThan(s[1..], cutoff) {
            forall i | 0 <= i < |s| ensures s[i].timestamp > cutoff {
              if i > 0 { assert s[i] == s[1..][i - 1]; }
            }
          }
        }
        assert Trim(s, cutoff) == [s[0]] + Trim(s[1..], cutoff);
      } else {
        assert |Trim(s[1..], cutoff)| <= |s[1..]| < |s|;
      }
    }
  }

  /** Trimming twice with the same cutoff is trimming once. */
  lemma TrimIdempotent(s: seq<Sample>, cutoff: real)
    ensures Trim(Trim(s, cutoff), cutoff) == Trim(s, cutoff)
  {
    TrimKeepsAllIff(Trim(s, cutoff), cutoff);
  }

  /** Trimming keeps the ascending time order of what it retains. */
  lemma {:induction false} TrimAscending(s: seq<Sample>, cutoff: real)
    requires Ascending(s)
    ensures Ascending(Trim(s, cutoff))
  {
    if s != [] {
      assert Ascending(s[1..]) by {
        forall i, j | 0 <= i < j < |s[1..]|
          ensures s[1..][i].timestamp <= s[1..][j].timestamp
        {
          assert s[1..][i] == s[i + 1] && s[1..][j] == s[j + 1];
        }
      }
      TrimAscending(s[1..], cutoff);
      if s[0].timestamp > cutoff {
        var t := Trim(s[1..], cutoff);
        TrimMembers(s[1..], cutoff);
        forall j | 0 <= j < |t| ensures s[0].timestamp <= t[j].timestamp {
          assert t[j] in s[1..];
        }
      }
    }
  }

  /** Index of the first sample of an ascending `s` that lies inside the window. */
  function FirstInWindow(s: seq<Sample>, cutoff: real): (k: nat)
    ensures k <= |s|
    ensures forall i :: 0 <= i < k ==> s[i].timestamp <= cutoff
    ensures k < |s| ==> s[k].timestamp > cutoff
  {
    if s == [] || s[0].timestamp > cutoff then 0
    else 1 + FirstInWindow(s[1..], cutoff)
  }

  /** On an ascending sequence, trimming drops exactly the stale prefix. */
  lemma {:induction false} TrimAscendingIsSuffix(s: seq<Sample>, cutoff: real)
    requires Ascending(s)
    ensures Trim(s, cutoff) == s[FirstInWindow(s, cutoff)..]
  {
    var k := FirstInWindow(s, cutoff);
    if s != [] {
      if s[0].timestamp > cutoff {
        assert NewerThan(s, cutoff);
        TrimKeepsAllIff(s, cutoff);
      } else {
        assert Ascending(s[1..]) by {
          forall i, j | 0 <= i < j < |s[1..]|
            ensures s[1..][i].timestamp <= s[1..][j].timestamp
          {
            assert s[1..][i] == s[i + 1] && s[1..][j] == s[j + 1];
          }
        }
        TrimAscendingIsSuffix(s[1..], cutoff);
        assert s[1..][k - 1..] == s[k..];
      }
    }
  }

  /**
   * Appends `Sample(now, price)` to `sym`'s samples and drops every sample of
   * that symbol whose timestamp is at most `now - WindowSeconds`.
   */
  function Record(h: History, sym: Symbol, price: real, now: real): (h': History)
    ensures h'.Keys == h.Keys + {sym}
    ensures forall k :: k in h && k != sym ==> h'[k] == h[k]
    ensures NewerThan(h'[sym], now - WindowSeconds)
    ensures h'[sym] == Trim(SamplesOf(h, sym), now - WindowSeconds) + [Sample(now, price)]
    ensures forall x :: x in h'[sym] <==>
      x == Sample(now, price) || (x in SamplesOf(h, sym) && x.timestamp > now - WindowSeconds)
  {
    var stored := SamplesOf(h, sym);
    var newest := Sample(now, price);
    TrimConcat(stored, [newest], now - WindowSeconds);
    TrimKeepsFresh(newest, now);
    TrimMembers(stored, now - WindowSeconds);
    var w := Trim(stored + [newest], now - WindowSeconds);
    assert w == Trim(stored, now - WindowSeconds) + [newest];
    h[sym := w]
  }

  /** A sample taken at `now` is inside the window that ends at `now`. */
  lemma TrimKeepsFresh(newest: Sample, now: real)
    requires newest.timestamp == now
    ensures Trim([newest], now - WindowSeconds) == [newest]
  {
    assert [newest][1..] == [];
  }

  /** The newly recorded sample is retained, as the last one. */
  lemma RecordKeepsNewest(h: History, sym: Symbol, price: real, now: real)
    ensures var s := Record(h, sym, price, now)[sym]; |s| > 0 && s[|s| - 1] == Sample(now, price)
  {
  }

  /** Recording at a time no earlier than every stored sample keeps the samples ascending. */
  lemma RecordAscending(h: History, sym: Symbol, price: real, now: real)
    requires Ascending(SamplesOf(h, sym))
    requires NotAfter(SamplesOf(h, sym), now)
    ensures Ascending(Record(h, sym, price, now)[sym])
    ensures NotAfter(Record(h, sym, price, now)[sym], now)
  {
    var t := Trim(SamplesOf(h, sym), now - WindowSeconds);
    TrimAscending(SamplesOf(h, sym), now - WindowSeconds);
    TrimMembers(SamplesOf(h, sym), now - WindowSeconds);
    forall j | 0 <= j < |t| ensures t[j].timestamp <= now {
      assert t[j] in SamplesOf(h, sym);
    }
  }
}
