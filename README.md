# raising-bot core, modelled in Dafny

raising-bot stages SPX bull call spreads with Interactive Brokers.

**Before the open.** It reads signals from a Telegram message. Each signal names an expiry, a short-call strike and a long-call strike. For each signal the bot:
- resolves the two option contracts;
- skips spreads that are already on the books;
- places a two-leg combo order that is held (not transmitted). The order carries a price condition on the SPX index at the midpoint of the strikes.

**At the open.** It compares the official open price with each staged order's trigger. It cancels the orders whose trigger was reached (NO-GO) and transmits the others (GO).

**Until the close.** A recovery loop runs. It re-sends orders the broker rejected, and it retries signals whose option lookup or order build failed, once the live SPX price reaches their long-call strike. A small web console shows the bot's output; it strips the timestamp prefix from each line and keeps only the latest market-open countdown line.

The modules:

- `wrappers.dfy`: Option and Result.
- `console_utils.dfy`: the console's `stripTimestamp` and `dedupeCountdowns`.
- `signal_parsing.dfy`: strike rounding to $5 and the turning of pattern matches into signal records.
- `market_clock.dfy`: the next trading-day open and the countdown split.
- `retry.dfy`: the two retry wrappers. The broker's answer to attempt i is given as an oracle.
- `orders.dfy`: the order records, the duplicate check, the contract and order builders, and the sort by trigger.
- `pipeline.dfy`: the bot's session state as a value (`BotState`). It has one function per transition: staging a batch of signals, the GO/NO-GO pass, and one iteration of the recovery loop. Lemmas cover what each transition keeps (ids fresh and distinct, backlog keys distinct), what it sends (held placements when staging, transmitting placements in recovery), and GO/NO-GO exclusivity.
- `bot.dfy`: class `Bot` holds the same state in fields that its methods update in place, as main.py does. Every method is proved to perform the `Pipeline` transition on `old` state, and to keep `Valid()`.
- `findings.dfy`: two defects of main.py as written, next to the corrected behaviour.

Conventions:
- A float is an exact `real`.
- A conId or an order id is an `int`.
- The broker's order list fetched at start-up is a sequence of `ExistingOrder` records. Each key of the dict it comes from may be missing, so each field is an `Option`.

The repository's tests expect two things that main.py does not do:
- main.py has no per-signal duplicate budget, although tests/test_main.py:39-53 and tests/test_integration.py:33 build signals with `allowed_duplicates`. `is_duplicate_order` answers true on any match, which `Orders.DuplicateCountAgrees` states as "a budget of one".
- main.py has no PEG MID mapping, although tests/test_main.py:263-278 expects PEG MID to become REL. `build_staged_order` keeps the signal's order type and sets no price field for types other than LMT, STP, STP LMT and SNAP MID.

The model follows the code.

## Model

| member | source | states |
|---|---|---|
| ConsoleUtils.StripTimestamp | raising-bot-web/src/utils/consoleUtils.ts:1 | A line not starting with `[TS:` comes back unchanged. The result is always a suffix of the line. When something was removed, the result does not start with whitespace (the `\s*` consumed it all). |
| ConsoleUtils.CloseIndex | raising-bot-web/src/utils/consoleUtils.ts:1 | The `[^\]]+\]` part: the index of the first `]` at or after `from`, or the end of the line when there is none. |
| ConsoleUtils.SkipWhitespace | raising-bot-web/src/utils/consoleUtils.ts:1 | The `\s*` part: drops exactly the leading run of JavaScript whitespace. |
| ConsoleUtils.StripTimestampBlock | raising-bot-web/src/utils/consoleUtils.ts:1 | `[TS:` + a non-empty body without `]` + `]` + whitespace + text strips to exactly the text. |
| ConsoleUtils.StripPrintedLine | print_utils.py:5-7 | A line as the bot's print wrapper writes it (`[TS:<time>]`, a space, the message) strips back to the message. |
| ConsoleUtils.EmptyTimestampKept | raising-bot-web/src/utils/consoleUtils.ts:1 | `[TS:]` with an empty body does not match the pattern, and the line is kept whole. |
| ConsoleUtils.DedupeWithoutCountdown | raising-bot-web/src/utils/consoleUtils.ts:3-10 | Without a countdown line, the lines come back unchanged. |
| ConsoleUtils.DedupeWithCountdown | raising-bot-web/src/utils/consoleUtils.ts:3-10 | With a countdown line, the result is the other lines in their order, followed by the last countdown line. |
| ConsoleUtils.DedupeBounds | raising-bot-web/src/utils/consoleUtils.ts:3-10 | At most one countdown line survives. The result is never longer than the input and holds only input lines. |
| ConsoleUtils.DedupeIdempotent | raising-bot-web/src/utils/consoleUtils.ts:3-10 | Deduplicating twice gives the same as once. |
| SignalParsing.ParseDecimal | signal_utils.py:44 | `float()` on strike text: it accepts exactly the non-empty texts of digits with at most one `.` and at least one digit. The value is the digits read as an integer, divided by 10 to the number of digits after the point. It is never negative, and a run of digits reads as the integer it spells. |
| SignalParsing.ParseFractionExample | signal_utils.py:44 | `5902.5` reads as 5902.5. |
| SignalParsing.NatToString | signal_utils.py:44 | `str()` of an integer is a non-empty run of digits. It starts with `0` exactly when the number is 0, so there is no leading zero. |
| SignalParsing.CanonicalDigitsUnique | signal_utils.py:44 | A run of digits without a leading zero is the `str()` of the number it spells, and of no other. |
| SignalParsing.ParseNatToString | signal_utils.py:44 | Reading back the text `str()` wrote gives the same number. |
| SignalParsing.RoundHalfEven | signal_utils.py:44 | Python's `round()`: within one half of the argument, and a tie goes to the even integer. |
| SignalParsing.NearestFive | signal_utils.py:44 | `round(x / 5) * 5` is a multiple of 5 within 2.5 of the strike. |
| SignalParsing.NearestFiveIsNearest | signal_utils.py:44 | No multiple of 5 is closer to the strike than the rounded one. |
| SignalParsing.HalfWayStrikes | signal_utils.py:44 | Half-way strikes go to the even multiple of 5: 5902.5 becomes 5900 and 5907.5 becomes 5910. |
| SignalParsing.RoundStrike | signal_utils.py:42-46 | Text that is not a number comes back unchanged. Otherwise the result is a non-empty run of digits without a leading zero, which reads back as the nearest multiple of 5. |
| SignalParsing.RoundStrikeExamples | tests/test_signal_utils.py:181-186 | 5902 becomes 5900, 5903 becomes 5905, 5897 becomes 5895, and 5900 stays 5900. |
| SignalParsing.RemoveDashes | signal_utils.py:52 | The result has no `-`, is no longer than the input, and dash-free text is unchanged. |
| SignalParsing.RemoveDashesAppend | signal_utils.py:52 | Removing dashes distributes over concatenation. |
| SignalParsing.ExpiryFromDate | signal_utils.py:52 | A `YYYY-MM-DD` date becomes `YYYYMMDD`. |
| SignalParsing.ExpiryExample | tests/test_signal_utils.py:59-67 | `2025-12-31` becomes `20251231`. |
| SignalParsing.NormalizeMatch | signal_utils.py:51-67 | A match yields a record exactly when both strikes read as numbers. The record has the dash-free expiry, both strikes rounded to 5, the trigger at their mean, and the configured order type and prices. |
| SignalParsing.ParseAllOrder | signal_utils.py:48-68 | There is one record per well-formed match, in match order, and record k is the normalisation of the k-th well-formed match. |
| SignalParsing.ParseAllAppend | signal_utils.py:50-67 | The records of two parts of a message are the records of each part. |
| SignalParsing.MalformedSkipped | signal_utils.py:65-67 | A malformed match contributes nothing and the scan goes on past it. |
| SignalParsing.ParseAllEmpty | signal_utils.py:68 | There is no record exactly when no match is well formed. |
| SignalParsing.ParseMultiSignalMessage | signal_utils.py:48-68 | The loop returns None exactly when no match is well formed. Otherwise it returns the records of `ParseAll`, and that list is not empty. |
| MarketClock.Weekday | main.py:50 | `weekday()` is in 0..6. |
| MarketClock.NoThreeWeekendDays | main.py:50-51 | Two weekend days in a row are followed by a weekday, so the skip loop runs at most twice. |
| MarketClock.FirstWeekdayFrom | main.py:50-51 | The first weekday at or after the start day, at most two days later. Every day skipped is a weekend day. |
| MarketClock.GetTradingDayOpen | main.py:37-53 | The result is at 9:30:00.000 on a weekday. Its day is the first weekday from today, or from tomorrow for `next`. `next` gives a later day within 3 days, and `today` on a weekday gives today. |
| MarketClock.CountdownParts | main.py:115-116 | hours·3600 + minutes·60 + seconds equals the seconds left, with minutes and seconds below 60. |
| Retry.RequestWithRetry | main.py:94-106 | The request succeeds exactly when some attempt 1..n was signalled. The attempts made run up to the first signalled one, or all n. |
| Retry.FirstSuccess | main.py:172-179 | The first attempt whose lookup succeeds, or 0 when none does. |
| Retry.GetOptionConIdWithRetry | main.py:169-179 | The result is the conId of the first successful attempt. It is Some exactly when some attempt succeeds, and the attempts made stop there. |
| Retry.FirstSuccessIs | main.py:172-174 | The first successful attempt is the one after a run of failures. |
| Orders.InsertInt | main.py:253 | Inserting into a sorted list gives a sorted list with the element added. |
| Orders.SortInts | main.py:253 | `sorted()` gives a sorted permutation. |
| Orders.SortPair | main.py:253 | `sorted([a, b])` is `[a, b]` when a ≤ b, otherwise `[b, a]`. |
| Orders.LegConIds | main.py:67 | The conIds of a contract's legs, in leg order. |
| Orders.AnyExistingMatch | main.py:60-64 | True exactly when some existing order is a BAG whose stored leg list equals the leg ids as given and whose trigger is equal. |
| Orders.AnyManagedMatch | main.py:66-69 | True exactly when some managed order's sorted leg ids and trigger are equal. |
| Orders.IsDuplicateOrder | main.py:55-70 | True exactly when an existing order matches or a managed order matches. |
| Orders.DuplicateCountAgrees | main.py:55-70 | The count of matches across both lists is at least 1 exactly when the check answers true: a duplicate budget of one. |
| Orders.ExistingLegOrderMatters | main.py:61-63 | An existing order whose legs are stored in descending conId order is not recognised against the sorted leg ids, whereas a managed order with the same legs is. |
| Orders.BuildComboContract | main.py:181-186 | The contract is a BAG on the underlying in USD on SMART, with two 1:1 SMART legs: BUY on the LC conId, then SELL on the SC conId. |
| Orders.BuildStagedOrder | main.py:188-222 | Fails exactly when LMT lacks a limit price, STP lacks a stop price, or STP LMT lacks either. Otherwise the order is BUY 1 DAY, held, with the account and the signal's type, and its only condition is "CBOE price of the trigger conId above the trigger price". The limit and aux prices follow the type table, with the SNAP MID offset defaulting to the configured one. |
| Orders.InsertByTrigger | main.py:455 | Inserting into a trigger-sorted list gives a trigger-sorted list with the order added. |
| Orders.SortByTrigger | main.py:455 | `sort(key=trigger)` gives a trigger-sorted permutation. |
| Orders.SortByTriggerStable | main.py:455 | The sort is stable: orders with the same trigger keep their relative order. |
| Pipeline.MaxOrderId | main.py:416 | The maximum over the list of `orderId` (0 when absent), attained by some order. |
| Pipeline.AdjustedNextIdFresh | main.py:414-422 | After the adjustment, nextOrderId has not decreased and lies above every existing order's id. |
| Pipeline.StageOutcomeOf | main.py:247-274 | Staged happens exactly when both legs resolve, the pair is not a duplicate and the order builds; the staged order is then the built one, held. Skipped happens exactly when both legs resolve and the sorted pair with the trigger is a duplicate. The signal goes to the backlog exactly when a leg does not resolve, or when both resolve, the pair is not a duplicate and the order cannot be built (the raise is caught at line 267). |
| Pipeline.StageSignalStaged | main.py:224-265 | Staging one signal appends exactly one managed order when staged and none otherwise, under the old nextOrderId, held, with one matching Place call. When not staged, the managed orders, nextOrderId and the calls are unchanged. The error ids are unchanged. |
| Pipeline.StageAllStaged | main.py:239-274 | A batch appends at most one managed order per signal, under consecutive ids from the old nextOrderId. Each is held and has its own Place call, in order. Earlier managed orders and the error ids are unchanged. |
| Pipeline.RecordFailureKeys | main.py:267-274 | A failed signal is in the backlog afterwards, and the backlog still holds each key once. |
| Pipeline.RecordFailureHas | main.py:269-273 | Recording the same failed signal twice is the same as once. |
| Pipeline.StageSignalInv | main.py:224-274 | One signal keeps the invariant: managed ids are distinct and below nextOrderId, and backlog keys are distinct. |
| Pipeline.StageAllInv | main.py:239-274 | A batch keeps the same invariant. |
| Pipeline.StagedIsDuplicate | main.py:253-265 | Once a spread is staged, the same legs and trigger are a duplicate. |
| Pipeline.StageSignalIdempotent | main.py:247-265 | Processing the same signal twice in a row has the effect of processing it once. |
| Pipeline.DuplicateSkipped | main.py:254-256 | A duplicate signal changes nothing. |
| Pipeline.NoGoNeverTransmitted | main.py:125-128 | An order whose trigger is at or below the open is cancelled and never placed. |
| Pipeline.GoTransmitted | main.py:129-133 | An order whose trigger is above the open is placed transmitting, is not cancelled, and is left transmitting. |
| Pipeline.CancelsBeforeTransmissions | main.py:455-456 | Over the sorted list, every cancel comes before every transmission. |
| Pipeline.SortedPassDecidesAll | main.py:455-456 | Sorting loses no order: each one gets its decision. |
| Pipeline.MinOf | main.py:306 | `min()`: an element no greater than any other. |
| Pipeline.FirstWithId | main.py:315-320 | The first managed order carrying the error id, or none. |
| Pipeline.RemoveFirst | main.py:318 | `list.remove()`: when present, the first occurrence is cut out and the rest keep their order, so there is one occurrence fewer; unchanged otherwise. |
| Pipeline.PopAt | main.py:362 | `pop(idx)` removes position idx. An index past the end raises, and the surrounding handler at 372-373 leaves the list unchanged. |
| Pipeline.EntryOutcomeOf | main.py:339-375 | A backlog entry is submitted only with the live price at or above its LC strike. It is then the order `build_staged_order` makes, transmitting. A drop (a duplicate) also needs the price there. |
| Pipeline.EntryOutcomeCases | main.py:345-371 | An entry is submitted exactly when the price reaches its LC strike, both legs resolve, the legs are not a duplicate and the order builds; its contract is the combo of the resolved legs. It is dropped exactly when the price reaches the strike, both legs resolve and they are a duplicate. |
| Pipeline.BacklogPhaseGated | main.py:339-371 | The backlog retry leaves the managed orders alone, and every order it sends is the submission of a snapshot entry whose LC strike the live price has reached. |
| Pipeline.OnlyActingChanges | main.py:289-308 | An iteration that does not act changes nothing. The loop ends exactly when past the close or when nothing is pending. |
| Pipeline.StrikeGate | main.py:289-308 | The iteration acts exactly when it runs before the close with work pending and a live price, some error order or backlog entry has an LC strike, and the price is at or above the lowest of them. It reports the price below the strike exactly when, under the same conditions, the price is below it. |
| Pipeline.StaleIdsWait | main.py:297-308 | With an empty backlog and error ids that no managed order carries, there is no strike to reach, so the iteration takes the waiting branch and raises on `last_status_print` instead of clearing them. |
| Pipeline.NoPriceRaises | main.py:297-300 | Before the close, with work pending and no live price, the iteration raises on `last_status_print`. |
| Pipeline.ErrorEntryLive | main.py:326-332 | Re-sending an error order appends one transmitting Place under the next id. |
| Pipeline.ErrorPhaseLive | main.py:314-334 | The whole error retry appends only transmitting Place calls under consecutive fresh ids. |
| Pipeline.BacklogEntryLive | main.py:345-371 | A backlog entry appends at most one call: a transmitting Place under the next id. |
| Pipeline.BacklogPhaseLive | main.py:337-375 | The whole backlog retry appends only transmitting Place calls under consecutive fresh ids. |
| Pipeline.RecoveryPassLive | main.py:288-377 | The same holds for a whole iteration of the recovery loop. |
| Pipeline.ErrorEntryInv | main.py:315-332 | Re-sending under a fresh id keeps managed ids distinct and below nextOrderId. |
| Pipeline.ErrorPhaseInv | main.py:314-334 | The error retry keeps the invariant. |
| Pipeline.PopAtKeys | main.py:362 | Popping keeps the backlog keys distinct. |
| Pipeline.BacklogEntryInv | main.py:339-371 | A backlog entry keeps the backlog keys distinct, leaves the managed orders alone, and never lowers nextOrderId. |
| Pipeline.BacklogPhaseInv | main.py:337-375 | The same holds for the whole backlog retry. |
| Pipeline.RecoveryPassInv | main.py:288-377 | An iteration keeps the invariant. |
| Pipeline.ErrorEntryRetried | main.py:315-334 | One error id changes at most one thing: its managed order takes a fresh id and a transmitting order, and only with the live price at or above its LC strike. Contract, strikes and trigger stay the same, the backlog is untouched, and error ids are only removed. |
| Pipeline.ErrorPhaseRetried | main.py:314-334 | The same holds for the whole error retry. |
| Pipeline.UnmatchedErrorIdsCleared | main.py:315-319 | Error ids that no managed order carries are removed, one occurrence each. |
| Pipeline.UnmatchedEntryDropped | main.py:315-319 | One error id that no managed order carries: the step removes its first occurrence from the list and changes nothing else. |
| Pipeline.MatchedEntryKept | main.py:320-332 | An error id that some managed order carries stays on the list, whether or not the order is re-sent. |
| Pipeline.ErrorPhaseRenames | main.py:314-334 | The error retry keeps the number of managed orders. An order whose id changed carries a fresh id, at or above the old nextOrderId, and its old id was in the snapshot. |
| Pipeline.ErrorPhaseClearsUnmatched | main.py:314-334 | For a snapshot of distinct session ids taken from the list, mixed or not: the ids no managed order carried at the start are removed from the list, once each, and the retried ids stay. |
| Pipeline.BacklogPhaseFixed | main.py:337-375 | The corrected backlog retry (Findings): it leaves the managed orders alone and never grows the backlog. |
| Pipeline.FixedPhaseKeepsUnhandled | main.py:337-375 | With each handled entry popped at its current position, the backlog afterwards is exactly the entries not handled, in order. |
| Pipeline.SortKeepsIds | main.py:455 | Sorting keeps managed ids distinct. |
| Pipeline.SortKeepsBound | main.py:455 | Sorting keeps every managed id below nextOrderId. |
| Bot.Bot.constructor | main.py:435 | A session starts with the given nextOrderId, no managed orders, no error ids and no calls. The backlog is the module-level `failed_conid_signals` (line 35), which a new session inherits. |
| Bot.Bot.AdjustNextOrderId | main.py:414-422 | Performs `AdjustedNextId` on nextOrderId only, and keeps `Valid()`. |
| Bot.Bot.StageOrder | main.py:224-237 | Takes the current id, increments nextOrderId, places the order held, and appends and returns the managed order. |
| Bot.Bot.RecordFailedSignal | main.py:267-274 | Performs `RecordFailure`. |
| Bot.Bot.ProcessSignal | main.py:247-274 | One loop body performs `StageSignal`. |
| Bot.Bot.ProcessAndStageNewSignals | main.py:239-274 | Performs `StageAll` on the batch and keeps `Valid()`. |
| Bot.Bot.SortManagedOrders | main.py:455 | Replaces the managed orders by `SortByTrigger` of them and keeps `Valid()`. |
| Bot.Bot.ProcessManagedOrders | main.py:121-133 | Appends `Decisions` to the calls and sets the managed orders to `AfterDecisions`. Nothing else changes. |
| Bot.Bot.DecideAtOpen | main.py:455-456 | Sorts, then decides: the decisions over the sorted list. |
| Bot.Bot.RetryErrorOrders | main.py:314-334 | Performs `ErrorPhase` over the snapshot of the error ids and keeps `Valid()`. |
| Bot.Bot.RetryErrorId | main.py:315-332 | One loop body performs `ErrorEntryStep` for the error id. |
| Bot.Bot.ResolveLeg | main.py:347-356 | The lookup at the strike, or at the fallback strike when it fails. |
| Bot.Bot.DecideEntry | main.py:345-373 | Returns the pipeline's decision `EntryOutcomeOf` for the entry. It is Stay below the LC strike, on an unresolved leg or on a failed build. It is Drop for a duplicate. Otherwise it is Submit with the built order made transmitting. |
| Bot.Bot.RetryFailedSignal | main.py:339-371 | One loop body performs `BacklogEntryStep` at the snapshot index. A dropped entry is popped. A submitted one is placed under the next id and then popped. |
| Bot.Bot.RetryFailedSignals | main.py:337-375 | Performs `BacklogPhase` over the snapshot of the backlog and keeps `Valid()`. |
| Bot.Bot.RecoveryIteration | main.py:288-377 | One iteration returns the outcome and state of `RecoveryPass`, and keeps `Valid()`. |
| Findings.EntryOutcomes | main.py:345-371 | With the lookup always succeeding and no managed orders, a MKT signal is submitted at or above its LC strike and stays below it. |
| Findings.ThreeEntryBacklog | main.py:339-371 | LC strikes 5900, 5920 and 6000 with the live price at 5950: the first two are submitted and the third stays. |
| Findings.PopByIndexKeepsSentEntry | main.py:339-371 | For a backlog [a, b, c] where a and b are submitted and c is not, the pass as written sends a and b but leaves [b] in the backlog. |
| Findings.FixedPopKeepsUnsentEntry | main.py:339-371 | On the same backlog, the corrected pass leaves exactly [c]. |
| Findings.WaitingBranchRaises | main.py:297-300 | With one backlog entry and no live price yet, the first iteration raises. |
| Findings.StatusWait | main.py:299-302 | The intended throttle prints exactly when more than 30 seconds have passed since the last print, and then remembers the time. |
| Findings.WaitPrintsThrottled | main.py:299-302 | Under the intended throttle, status prints are more than 30 seconds apart, whatever the clock readings. |

## Left out

- Time zones, wall-clock time and sleeps. A date-time is a local exchange date with a day counted from a Monday. `Weekday` uses that count for the weekday.
- Threads, the broker connection, Telegram, files and the web server. An option lookup is a function of (expiry, strike, attempt). It is pure, so the same lookup gives the same answer every time.
- The signal regular expression. A message is given as its matches' three groups, in match order.
- `float()` on text with a sign, an exponent, spaces, `inf`/`nan` or non-ASCII digits. `ParseDecimal` covers digits and at most one `.`, the alphabet of the strike groups. Binary floating point is not modelled: prices and strikes are exact reals.
- `str()` of the trigger price in `parse_multi_signal_message`. The record keeps the number.
- `get_signal_hash` and the `hash` field of a managed order (SHA-256). Nothing the core does reads them.
- `connect_with_retry`, `fetch_existing_orders`, `get_trigger_conid_with_retry`, `start_spx_stream`, `fetch_open_price_with_retry`, `wait_until_market_open`'s loop and `main_loop`. These are orchestration around I/O. The model takes their results as inputs: the existing orders, the trigger conId, the open price and the live price.
- The `Signal` record and `to_signal` are not part of the shown `signal_utils.py`. `Orders.Signal` carries the fields main.py reads. Neither `allowed_duplicates` nor PEG MID appears in the core, so neither is modelled.
- `error_order_ids` and the dicts in `existing_orders` are filled by broker callbacks, and ibkr_app.py's callback bodies are not part of this model. The error ids are a list.
- Pipeline.RecoveryPass: the loop re-reads `app.current_spx_price` before each entry (lines 321 and 340). The model reads one snapshot per iteration, so the `None` branches at 322-324 and 341-343 are not modelled.
- Pipeline.BacklogEntryStep: an order submitted from the backlog is not appended to the managed orders, as written. A later duplicate check does not see it unless the start-up order list had it.
- Bot.Bot.DecideEntry: `get_option_conid_with_retry` raising after its attempts is modelled as None from the lookup. The `except` at 372 catches it, and the entry stays.
- Orders.BuildStagedOrder: for order types other than LMT, STP, STP LMT and SNAP MID, neither price is set and no error is raised, as written.
- The loop of `main_loop` restarting after an exception (498-500) is outside the model. A raising iteration is reported as the outcome `StatusPrintUnbound`.

## Findings

| source | as written | input that shows it | evidently intended | confidence | as-written member | corrected member |
|---|---|---|---|---|---|---|
| main.py:339-371 | Each handled backlog entry is popped at its index in the snapshot taken before the loop. The live list shrinks, so a later pop removes the wrong entry, or raises IndexError, which the handler swallows. | Backlog of MKT signals with LC strikes 5900, 5920 and 6000, live price 5950, every lookup succeeding. Both 5900 and 5920 are sent live, yet [5920] stays in the backlog (and is sent again next iteration), while 6000 is removed without ever being sent. | Remove the handled entry itself, so the backlog keeps exactly the entries not handled. | high, not executed | Findings.PopByIndexKeepsSentEntry | Pipeline.BacklogPhaseFixed |
| main.py:297-302 | `last_status_print` is assigned only inside the loop (line 302), which makes it local to the function. The first read at line 300 raises UnboundLocalError. | Backlog with one signal and the live price not yet streamed. The first iteration raises, and the recovery loop is abandoned. | A throttled wait that prints at most every 30 seconds, with the variable initialised before the loop. | high, not executed | Findings.WaitingBranchRaises | Findings.StatusWait |
