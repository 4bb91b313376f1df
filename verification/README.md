# ForWind bot price-alert core, modelled in Dafny

The ForWind Telegram bot watches a list of trading symbols. It raises an alert
when a symbol's price rises by at least 2% within a trailing 5-minute window.
This project models the decision logic of `main.py` as pure Dafny functions
and proves properties about them:

- **Sliding window** (`PriceHistory`). Each successful check appends a
  `(timestamp, price)` sample for the symbol. It then drops every sample whose
  timestamp is at most `now - 300`.
- **Increase detection** (`IncreaseDetector`). Fewer than two retained samples
  give `(False, 0)`. Otherwise the baseline is the first retained sample with
  the smallest timestamp, and `percent = (current - base) / base * 100`. The
  check triggers when `percent >= 2.0`.
- **One poll cycle** (`PollCycle`). The detector is folded over a snapshot of
  the watchlist, and one alert is collected per triggered check. A symbol listed
  twice is checked twice; on a duplicate-free watchlist, `PollAlertsDistinct`
  gives at most one alert per symbol.
- **Authorization and the on/off switch** (`Access`, `Monitoring`). `/start`
  and `/end` are pure transitions that return the new state and a reply.
- **Watchlist** (`Watchlist`). `/add` and `/delete` work on a `seq<string>`
  whose invariant is "no duplicates".
- **Command runs** (`Session`). Any sequence of commands keeps the watchlist
  duplicate-free. Effective starts and effective stops alternate.

The price lookup, the clock, and the configured user IDs are parameters:

- The price lookup is an `Option<real>`: `None` when the exchange call failed.
- The clock reading `now` is a `real`.
- The authorized user IDs are a `seq<int>`.

Prices and percentages are exact `real`s.

Behaviour of the code worth noting:

- Deleting a symbol does not clear its stored samples (main.py:228). If the
  symbol is re-added within 300 seconds, its old samples still serve as a
  baseline.
- The window keeps samples strictly newer than `now - 300`. A sample exactly
  300 seconds old is evicted (see `Scenarios.WindowBoundaryIsExclusive`).
- The division at main.py:95 is unguarded. A zero baseline price raises
  `ZeroDivisionError` only after the history has been updated. `monitor_prices`
  catches that exception and moves on (main.py:115-116). The model therefore
  returns `Failure(ZeroBaseline)` with the updated history, instead of
  excluding the input by a precondition. A negative baseline is computed as
  written. The properties about the percentage assume a positive baseline.

## Model

| member | source | states |
|---|---|---|
| PriceHistory.Trim | main.py:83-85 | every retained sample is strictly newer than the cutoff, and the result is no longer than its input |
| PriceHistory.TrimMembers | main.py:85 | a sample is retained exactly when it was present and is strictly newer than the cutoff, so nothing is added |
| PriceHistory.TrimKeepsFresh | main.py:78-85 | a sample taken at `now` survives the trim at `now` |
| PriceHistory.TrimConcat | main.py:85 | trimming is a filter: trimming a concatenation is the concatenation of the trimmed parts, so relative order is kept |
| PriceHistory.TrimKeepsAllIff | main.py:85 | trimming leaves a sequence unchanged if and only if every sample of it is inside the window |
| PriceHistory.TrimIdempotent | main.py:85 | trimming twice at the same instant removes nothing more |
| PriceHistory.TrimAscending | main.py:78-85 | trimming an ascending-by-time history leaves it ascending |
| PriceHistory.FirstInWindow | main.py:83-85 | the position of the first sample of an ascending history that is inside the window; everything before it is stale |
| PriceHistory.TrimAscendingIsSuffix | main.py:83-85 | on an ascending history, trimming drops exactly the stale prefix and keeps the rest as a suffix |
| PriceHistory.Record | main.py:74-85 | after recording at `now`, the symbol's samples are the earlier in-window samples followed by the new one, all newer than `now - 300`; other symbols are untouched and the key set gains only the symbol |
| PriceHistory.RecordKeepsNewest | main.py:78-85 | the just-recorded sample is always retained, as the last one |
| PriceHistory.RecordAscending | main.py:72-85 | recording at a time no earlier than every stored sample keeps the samples ascending and not later than `now` |
| IncreaseDetector.OldestIndex | main.py:91-92 | the chosen sample has the minimum timestamp, and every earlier sample has a strictly larger one: the first minimum wins, as `min` with a key does |
| IncreaseDetector.Baseline | main.py:91-92 | the baseline is a retained sample no later than any other retained sample |
| IncreaseDetector.BaselineOfAscending | main.py:91-92 | in an ascending window the baseline is the first sample |
| IncreaseDetector.PercentReachesThresholdIff | main.py:94-97 | for a positive baseline, the threshold is reached exactly when the current price is at least 102% of the baseline, inclusive |
| IncreaseDetector.PercentMonotone | main.py:95 | for a fixed positive baseline, a higher current price never gives a lower percentage |
| IncreaseDetector.NoRiseNeverTriggers | main.py:92-97 | with at least two samples and a positive baseline, a current price no higher than the baseline is evaluated without error and never triggers |
| IncreaseDetector.Evaluate | main.py:87-97 | fewer than two samples give `(False, 0)`; the computation fails exactly on a zero baseline price; otherwise the percentage is measured against the baseline, and it triggers exactly when the percentage is at least 2.0 |
| IncreaseDetector.CheckPriceIncrease | main.py:65-97 | a failed lookup returns `(False, 0)` with the history unchanged; after a successful one, the symbol's samples all lie inside the window and end with the new sample, and other symbols are untouched; fewer than two samples give `(False, 0)`; a trigger needs at least two samples and a percentage of at least 2.0, measured from the fetched price against the oldest retained sample |
| IncreaseDetector.FailedLookupChangesNothing | main.py:68-70 | a lookup that yields nothing leaves the history unchanged and reports no increase |
| IncreaseDetector.CheckRecordsInWindow | main.py:72-85 | after a successful lookup the symbol's window holds the still-fresh earlier samples plus the new one, all inside the window, and other symbols keep their samples |
| IncreaseDetector.TriggerMeansRiseOverBaseline | main.py:84-97 | with positive stored prices, a check triggers if and only if an earlier in-window sample is the baseline and the price is at least 102% of it |
| Scenarios.FirstSample | main.py:84-89 | a first sample alone never triggers |
| Scenarios.SecondSample | main.py:92-97 | 100 at t=0 then 101.5 at t=120 is a 1.5% rise, below the threshold |
| Scenarios.ThirdSample | main.py:92-97 | adding 102 at t=200 is exactly 2.0% over the t=0 baseline and triggers |
| Scenarios.ExactThresholdTriggers | main.py:65-97 | the timeline t=0:100, t=120:101.5, t=200:102 triggers exactly at the third check, with percent 2.0 |
| Scenarios.EvictedBaselineDoesNotTrigger | main.py:83-89 | samples at t=0 and t=310 leave only the t=310 sample, so there is no trigger |
| Scenarios.WindowBoundaryIsExclusive | main.py:84-85 | a sample exactly 300 seconds old is evicted, even with a 50% rise |
| Scenarios.JustBelowThresholdDoesNotTrigger | main.py:92-97 | 100 then 101.99 five seconds later is a 1.99% rise and does not trigger |
| PollCycle.AlertOf | main.py:105-106 | a check yields one alert, for its symbol and percentage, exactly when it triggered, and none otherwise; a zero-baseline failure yields none |
| PollCycle.Poll | main.py:99-116 | one pass over a watchlist snapshot: no more alerts than watched symbols, each for a watched symbol with percent at least 2.0; the history gains exactly the symbols whose lookup succeeded; unwatched symbols keep their samples |
| PollCycle.PollSingle | main.py:103-106 | a pass over one symbol is one check, and it alerts exactly when that check triggers |
| PollCycle.PollConcatHistory | main.py:103-105 | the history after a pass over two lists in sequence is the history of the second pass run after the first |
| PollCycle.PollConcatAlerts | main.py:103-106 | the alerts of a pass over two lists in sequence are the first pass's alerts followed by the second's |
| PollCycle.PollConcat | main.py:103-106 | a pass over `p1 + p2` equals a pass over `p1` followed by a pass over `p2`; with `PollSingle`, every triggered check in the pass gives its alert, in watchlist order |
| PollCycle.PollAlertsDistinct | main.py:103-106 | on a duplicate-free watchlist a pass raises at most one alert per symbol |
| PollCycle.Fetched | main.py:103-105 | exactly the watched symbols whose lookup succeeded at some position of the pass, both directions |
| PollCycle.FailedSymbolUntouched | main.py:103-105 | a watched symbol whose lookup failed throughout the pass keeps its samples unchanged |
| Access.CheckAuth | main.py:122-129 | a user is authorized exactly when listed; an empty list authorizes nobody |
| Monitoring.StartCommand | main.py:131-152 | unauthorized: nothing changes; running: "already active" and still running; stopped with an empty watchlist: stays stopped; otherwise switches on, and only then |
| Monitoring.EndCommand | main.py:154-167 | unauthorized: nothing changes; stopped: "already stopped" no-op; running: switches off; an authorized end always leaves monitoring off |
| Monitoring.StartTwiceActivatesOnce | main.py:138-149 | two consecutive starts, by any two users, switch monitoring on at most once; when the first sender is authorized or both starts come from the same user, the second is refused and leaves the state as the first left it |
| Monitoring.EndTwiceIsIdempotent | main.py:161-165 | after an authorized end, a second end by any user leaves monitoring stopped and switches nothing off; an authorized second end reports "already stopped" |
| Watchlist.UpperChar | main.py:190 | lower-case ASCII letters map to their capitals and every other character is left as it is in the model; no result is a lower-case ASCII letter |
| Watchlist.Upper | main.py:190 | the argument is upper-cased character by character, keeping its length |
| Watchlist.UpperIdempotent | main.py:190 | upper-casing twice is upper-casing once |
| Watchlist.IndexOf | main.py:224-228 | the index of the first occurrence of the symbol, with no earlier occurrence |
| Watchlist.RemoveFirst | main.py:228 | `list.remove` deletes one occurrence and nothing else, as multisets; putting the symbol back at its first index restores the list, so the rest keep their order |
| Watchlist.DropAtNoDuplicates | main.py:228 | dropping one entry of a duplicate-free list removes exactly that value, keeps every other value and keeps the list duplicate-free |
| Watchlist.RemoveFirstOfNoDuplicates | main.py:224-228 | on a duplicate-free list, removal makes the symbol absent, keeps every other symbol and keeps the list duplicate-free |
| Watchlist.AddCommand | main.py:181-211 | an add succeeds exactly for an authorized user with an argument whose upper-cased form is new and whose lookup succeeded; success appends it at the end; every refusal leaves the list unchanged with its specific reply |
| Watchlist.DeleteCommand | main.py:213-232 | a delete succeeds exactly for an authorized user with an argument whose upper-cased form is listed, and then removes that symbol's first occurrence; otherwise the list is unchanged and the reply says why |
| Watchlist.AddKeepsNoDuplicates | main.py:192-204 | adds keep the list duplicate-free, and after a successful add the symbol appears exactly once |
| Watchlist.DeleteKeepsNoDuplicates | main.py:222-228 | a successful delete leaves the symbol absent, the other symbols in their order, and no duplicates |
| Watchlist.AddThenDeleteRestores | main.py:181-232 | adding a new symbol and then deleting it, by any spelling with the same upper-case form, restores the original list |
| Session.Step | main.py:131-232 | /start switches monitoring on exactly when the user is authorized, monitoring is stopped and the watchlist is non-empty; /end switches it off exactly when the user is authorized and monitoring is running; /start and /end leave the watchlist alone, and /add and /delete leave the switch alone |
| Session.StartsAndStopsAlternate | main.py:138-165 | over any command sequence, effective starts exceed effective stops by one exactly when monitoring ends up on, counting the initial state: monitoring is never switched on twice without a stop in between |
| Session.StepKeepsNoDuplicates | main.py:181-232 | every command keeps the watchlist duplicate-free |
| Session.RunKeepsNoDuplicates | main.py:181-232 | every command sequence keeps the watchlist duplicate-free |
| Session.UnauthorizedRunChangesNothing | main.py:122-134 | commands from users outside the authorized list change neither the switch nor the watchlist |

## Left out

- The exchange client and `get_current_price` (main.py:50-63) are network calls. Their answer is the `Option<real>` parameter.
- Watchlist persistence (`save_trading_pairs`/`load_trading_pairs`, main.py:35-47) is file I/O. A failed save after a successful append is also left out: the in-memory list keeps the symbol, and the reply reports an error (main.py:209-211).
- The monitor thread, `time.sleep(5)`, daemon thread creation, and the unsynchronized `is_monitoring` flag (main.py:99-119, 146-149) are concurrency and timing. Only one pass of the loop is modelled, as `PollCycle.Poll` over a snapshot of the list. The code iterates the live list, and other threads may mutate it mid-pass.
- After `/end`, the old thread exits only when it next re-reads the flag. A `/start` that arrives before then lets the old thread continue beside the new one. This is a property of the thread interleaving and is not modelled.
- Telegram handlers, reply wording, Markdown formatting, logging, `list_command` and `help_command` (main.py:11-21, 107-114, 169-179, 234-275) are user interface and I/O. Replies are modelled as enumerations without their text.
- Sending each alert to every authorized user (main.py:108-113) is I/O. `PollCycle.Poll` yields one alert per triggered check.
- The second price fetch inside the alert text (main.py:107) is a network race with no effect on the decision.
- IEEE floating-point rounding of the percentage is not modelled. Arithmetic is exact `real`.
- Loading the token and user IDs from the environment (main.py:24-26) is configuration. The authorized IDs are a parameter.
- Watchlist.UpperChar: only ASCII `a`-`z` are mapped. Python's `str.upper` also maps non-ASCII lower-case letters, such as `é` to `É`.
- Watchlist.Upper: only ASCII `a`-`z` are upper-cased. Python's `str.upper` also maps other Unicode letters, and some of those change length (`ß` becomes `SS`).
- IncreaseDetector.PercentMonotone: stated only for a positive baseline. With a negative baseline, which the code would also accept, the percentage falls as the price rises.
