/** The bot's session state as a value and the state transitions of main.py as functions
    of it: staging a batch of signals, the GO/NO-GO pass at the open, and one pass of the
    post-open recovery loop. The Bot class (bot.dfy) performs the same transitions in place
    and is proved against these functions. */
module Pipeline {
  import opened Wrappers
  import opened Retry
  import opened Orders

  /** A call the bot makes on the broker connection. */
  datatype Action = Place(id: int, contract: Contract, order: Order) | Cancel(id: int)

  /** A backlog entry: the signal and the expiry recorded with it. */
  type BacklogEntry = (Signal, string)

  /** nextOrderId, the managed orders, the failed-conId backlog, the broker's error order ids
      and the calls made so far. */
  datatype BotState = BotState(nextOrderId: int, managed: seq<ManagedOrder>,
                               failed: seq<BacklogEntry>, errorIds: seq<int>, log: seq<Action>)

  /** What a pass needs besides the state: the option lookup, the broker's order list
      fetched at start-up, the trigger index conId and the configuration. */
  datatype Env = Env(resolve: Resolver, existing: seq<ExistingOrder>, triggerConId: int, cfg: Config)

  // ---- invariants ----

  predicate DistinctIds(ms: seq<ManagedOrder>) {
    forall i, j :: 0 <= i < j < |ms| ==> ms[i].id != ms[j].id
  }

  predicate IdsBelow(ms: seq<ManagedOrder>, next: int) {
    forall i :: 0 <= i < |ms| ==> ms[i].id < next
  }

  /** The key under which the backlog tells signals apart. */
  function SignalKey(s: Signal): (string, real, real, real) {
    (s.expiry, s.lcStrike, s.scStrike, s.triggerPrice)
  }

  predicate DistinctKeys(b: seq<BacklogEntry>) {
    forall i, j :: 0 <= i < j < |b| ==> SignalKey(b[i].0) != SignalKey(b[j].0)
  }

  /** Managed ids are distinct and below nextOrderId, so a fresh id never clashes;
      the backlog holds each signal key once. */
  predicate Inv(st: BotState) {
    DistinctIds(st.managed) && IdsBelow(st.managed, st.nextOrderId) && DistinctKeys(st.failed)
  }

  // ---- start-up: nextOrderId adjustment ----

  /** `max(order.get("orderId", 0) for order in existing_orders)` over a non-empty list. */
  function MaxOrderId(existing: seq<ExistingOrder>): (m: int)
    requires existing != []
    ensures forall i :: 0 <= i < |existing| ==> existing[i].orderId.GetOr(0) <= m
    ensures exists i :: 0 <= i < |existing| && existing[i].orderId.GetOr(0) == m
  {
    if |existing| == 1 then existing[0].orderId.GetOr(0)
    else
      var m := MaxOrderId(existing[1..]);
      assert forall i :: 1 <= i < |existing| ==> existing[i] == existing[1..][i - 1];
      if existing[0].orderId.GetOr(0) >= m then existing[0].orderId.GetOr(0) else m
  }

  /** The id the session continues from once the broker's order list is known. */
  function AdjustedNextId(next: int, existing: seq<ExistingOrder>): int {
    if existing != [] && MaxOrderId(existing) >= next then MaxOrderId(existing) + 1 else next
  }

  /** The adjusted id is above every id the broker reported, and never below the API's. */
  lemma AdjustedNextIdFresh(next: int, existing: seq<ExistingOrder>)
    ensures AdjustedNextId(next, existing) >= next
    ensures forall i :: 0 <= i < |existing| ==> existing[i].orderId.GetOr(0) < AdjustedNextId(next, existing)
  {
  }

  // ---- staging ----

  /** Whether some backlog entry has key `k` (the set comprehension of the source). */
  predicate InBacklog(b: seq<BacklogEntry>, k: (string, real, real, real)) {
    exists i :: 0 <= i < |b| && SignalKey(b[i].0) == k
  }

  /** The except branch: add the signal to the backlog unless its key is already there. */
  function RecordFailure(st: BotState, s: Signal): BotState {
    if InBacklog(st.failed, SignalKey(s)) then st else st.(failed := st.failed + [(s, s.expiry)])
  }

  /** The managed order `stage_order` records. */
  function Staged(id: int, s: Signal, c: Contract, o: Order): ManagedOrder {
    ManagedOrder(id, s.triggerPrice, s.lcStrike, s.scStrike, c, o)
  }

  /** What staging does with one signal. */
  datatype StageOutcome = ToBacklog | Skip | Stage(lcConId: int, scConId: int, order: Order)

  /** The decision of `process_and_stage_new_signals` for one signal: resolve both legs,
      skip a duplicate, otherwise build the order; a lookup that fails or an order that
      cannot be built sends the signal to the backlog. */
  function StageOutcomeOf(env: Env, managed: seq<ManagedOrder>, s: Signal): (r: StageOutcome)
    ensures r.Stage? ==> && ResolveConId(env.resolve, s.expiry, s.lcStrike) == Some(r.lcConId)
                         && ResolveConId(env.resolve, s.expiry, s.scStrike) == Some(r.scConId)
                         && BuildStagedOrder(env.cfg, s, env.triggerConId) == Success(r.order)
                         && !r.order.transmit
    ensures r.Skip? <==> && ResolveConId(env.resolve, s.expiry, s.lcStrike).Some?
                         && ResolveConId(env.resolve, s.expiry, s.scStrike).Some?
                         && IsDuplicateOrder(SortInts([ResolveConId(env.resolve, s.expiry, s.lcStrike).value,
                                                       ResolveConId(env.resolve, s.expiry, s.scStrike).value]),
                                             s.triggerPrice, env.existing, managed)
    ensures r.Stage? <==> && ResolveConId(env.resolve, s.expiry, s.lcStrike).Some?
                          && ResolveConId(env.resolve, s.expiry, s.scStrike).Some?
                          && !IsDuplicateOrder(SortInts([ResolveConId(env.resolve, s.expiry, s.lcStrike).value,
                                                         ResolveConId(env.resolve, s.expiry, s.scStrike).value]),
                                               s.triggerPrice, env.existing, managed)
                          && BuildStagedOrder(env.cfg, s, env.triggerConId).Success?
    ensures r.ToBacklog? <==> || ResolveConId(env.resolve, s.expiry, s.lcStrike).None?
                              || ResolveConId(env.resolve, s.expiry, s.scStrike).None?
                              || (&& !IsDuplicateOrder(SortInts([ResolveConId(env.resolve, s.expiry, s.lcStrike).value,
                                                                 ResolveConId(env.resolve, s.expiry, s.scStrike).value]),
                                                       s.triggerPrice, env.existing, managed)
                                  && BuildStagedOrder(env.cfg, s, env.triggerConId).Failure?)
  {
    var lc := ResolveConId(env.resolve, s.expiry, s.lcStrike);
    var sc := ResolveConId(env.resolve, s.expiry, s.scStrike);
    if lc.None? || sc.None? then ToBacklog
    else if IsDuplicateOrder(SortInts([lc.value, sc.value]), s.triggerPrice, env.existing, managed) then Skip
    else
      match BuildStagedOrder(env.cfg, s, env.triggerConId)
      case Failure(_) => ToBacklog
      case Success(o) => Stage(lc.value, sc.value, o)
  }

  /** One iteration of `process_and_stage_new_signals`: a staged order goes to the broker
      held for review under the next id and joins the managed orders. */
  function StageSignal(st: BotState, env: Env, s: Signal): BotState {
    match StageOutcomeOf(env, st.managed, s)
    case ToBacklog => RecordFailure(st, s)
    case Skip => st
    case Stage(lc, sc, o) =>
      var c := BuildComboContract(env.cfg, lc, sc);
      st.(nextOrderId := st.nextOrderId + 1,
          managed := st.managed + [Staged(st.nextOrderId, s, c, o)],
          log := st.log + [Place(st.nextOrderId, c, o)])
  }

  /** The whole batch, signal by signal. */
  function StageAll(st: BotState, env: Env, signals: seq<Signal>): BotState
    decreases |signals|
  {
    if signals == [] then st
    else StageSignal(StageAll(st, env, signals[..|signals| - 1]), env, signals[|signals| - 1])
  }

  /** The calls that stage `ms`: one non-transmitting Place per order, under its id. */
  function Placements(ms: seq<ManagedOrder>): (acts: seq<Action>)
    ensures |acts| == |ms|
  {
    seq(|ms|, i requires 0 <= i < |ms| => Place(ms[i].id, ms[i].contract, ms[i].order))
  }

  /** `t` follows from `st` by staging: new managed orders are appended under consecutive
      ids starting at the old nextOrderId, each with one held (not transmitted) Place call,
      and the error ids are untouched. */
  predicate StagedFrom(st: BotState, t: BotState) {
    var n := |st.managed|;
    && n <= |t.managed| && t.managed[..n] == st.managed
    && t.nextOrderId == st.nextOrderId + (|t.managed| - n)
    && (forall k :: n <= k < |t.managed| ==> t.managed[k].id == st.nextOrderId + (k - n)
                                              && !t.managed[k].order.transmit)
    && t.log == st.log + Placements(t.managed[n..])
    && t.errorIds == st.errorIds
  }

  lemma StagedFromSame(st: BotState, t: BotState)
    requires t.managed == st.managed && t.nextOrderId == st.nextOrderId
    requires t.log == st.log && t.errorIds == st.errorIds
    ensures StagedFrom(st, t)
  {
    assert t.managed[..|st.managed|] == st.managed;
    assert t.managed[|st.managed|..] == [];
  }

  lemma StagedFromOne(st: BotState, t: BotState, m: ManagedOrder)
    requires t.managed == st.managed + [m] && m.id == st.nextOrderId && !m.order.transmit
    requires t.nextOrderId == st.nextOrderId + 1 && t.errorIds == st.errorIds
    requires t.log == st.log + [Place(m.id, m.contract, m.order)]
    ensures StagedFrom(st, t)
  {
    assert t.managed[..|st.managed|] == st.managed;
    assert t.managed[|st.managed|..] == [m];
  }

  /** Staging one signal appends exactly one held order when it is staged and nothing
      otherwise. */
  lemma StageSignalStaged(st: BotState, env: Env, s: Signal)
    ensures StagedFrom(st, StageSignal(st, env, s))
    ensures |StageSignal(st, env, s).managed|
         == |st.managed| + (if StageOutcomeOf(env, st.managed, s).Stage? then 1 else 0)
    ensures !StageOutcomeOf(env, st.managed, s).Stage? ==>
              var t := StageSignal(st, env, s);
              t.managed == st.managed && t.nextOrderId == st.nextOrderId && t.log == st.log
  {
    var t := StageSignal(st, env, s);
    match StageOutcomeOf(env, st.managed, s)
    case ToBacklog => StagedFromSame(st, t);
    case Skip => StagedFromSame(st, t);
    case Stage(lc, sc, o) => StagedFromOne(st, t, Staged(st.nextOrderId, s, BuildComboContract(env.cfg, lc, sc), o));
  }

  lemma PlacementsAppend(x: seq<ManagedOrder>, y: seq<ManagedOrder>)
    ensures Placements(x + y) == Placements(x) + Placements(y)
  {
    assert forall i :: 0 <= i < |x| + |y| ==> Placements(x + y)[i] == (Placements(x) + Placements(y))[i];
  }

  lemma {:induction false} StagedFromTrans(a: BotState, b: BotState, c: BotState)
    requires StagedFrom(a, b) && StagedFrom(b, c)
    ensures StagedFrom(a, c)
  {
    var n, m := |a.managed|, |b.managed|;
    assert c.managed[..n] == b.managed[..n] by {
      assert c.managed[..m] == b.managed;
      assert c.managed[..n] == c.managed[..m][..n];
    }
    assert c.managed[n..] == b.managed[n..] + c.managed[m..] by {
      assert c.managed == b.managed + c.managed[m..];
    }
    PlacementsAppend(b.managed[n..], c.managed[m..]);
    assert forall k :: n <= k < m ==> c.managed[k] == b.managed[k];
  }

  /** Staging a batch only appends: the new managed orders carry consecutive fresh ids, each
      is held for review, and the calls made are exactly their placements. */
  lemma {:induction false} StageAllStaged(st: BotState, env: Env, signals: seq<Signal>)
    ensures StagedFrom(st, StageAll(st, env, signals))
    ensures |StageAll(st, env, signals).managed| <= |st.managed| + |signals|
    decreases |signals|
  {
    if signals == [] {
      assert st.managed[|st.managed|..] == [];
    } else {
      var prefix := StageAll(st, env, signals[..|signals| - 1]);
      StageAllStaged(st, env, signals[..|signals| - 1]);
      StageSignalStaged(prefix, env, signals[|signals| - 1]);
      StagedFromTrans(st, prefix, StageAll(st, env, signals));
    }
  }

  lemma RecordFailureKeys(st: BotState, s: Signal)
    requires DistinctKeys(st.failed)
    ensures DistinctKeys(RecordFailure(st, s).failed)
    ensures InBacklog(RecordFailure(st, s).failed, SignalKey(s))
  {
    if !InBacklog(st.failed, SignalKey(s)) {
      var b := st.failed + [(s, s.expiry)];
      assert SignalKey(b[|b| - 1].0) == SignalKey(s);
    }
  }

  /** Staging keeps the invariant: the fresh id is above every managed id, and a failed
      signal is only added under a new key. */
  lemma StageSignalInv(st: BotState, env: Env, s: Signal)
    requires Inv(st)
    ensures Inv(StageSignal(st, env, s))
  {
    match StageOutcomeOf(env, st.managed, s)
    case ToBacklog => RecordFailureKeys(st, s);
    case Skip =>
    case Stage(lc, sc, o) =>
      AppendFresh(st.managed, st.nextOrderId, Staged(st.nextOrderId, s, BuildComboContract(env.cfg, lc, sc), o));
  }

  /** Appending an order under the next id keeps ids distinct and below the next one. */
  lemma AppendFresh(ms: seq<ManagedOrder>, next: int, m: ManagedOrder)
    requires DistinctIds(ms) && IdsBelow(ms, next) && m.id == next
    ensures DistinctIds(ms + [m]) && IdsBelow(ms + [m], next + 1)
  {
  }

  lemma {:induction false} StageAllInv(st: BotState, env: Env, signals: seq<Signal>)
    requires Inv(st)
    ensures Inv(StageAll(st, env, signals))
    decreases |signals|
  {
    if signals != [] {
      StageAllInv(st, env, signals[..|signals| - 1]);
      StageSignalInv(StageAll(st, env, signals[..|signals| - 1]), env, signals[|signals| - 1]);
    }
  }

  /** A staged order is recognised as a duplicate of the signal that produced it. */
  lemma StagedIsDuplicate(env: Env, managed: seq<ManagedOrder>, id: int, s: Signal, lc: int, sc: int, o: Order)
    ensures IsDuplicateOrder(SortInts([lc, sc]), s.triggerPrice, env.existing,
                             managed + [Staged(id, s, BuildComboContract(env.cfg, lc, sc), o)])
  {
    var ms := managed + [Staged(id, s, BuildComboContract(env.cfg, lc, sc), o)];
    assert ManagedMatches(SortInts([lc, sc]), s.triggerPrice, ms[|ms| - 1]);
  }

  /** Staging is idempotent: the same signal a second time is either found as a duplicate
      or finds its key already in the backlog, and changes nothing. */
  lemma StageSignalIdempotent(st: BotState, env: Env, s: Signal)
    ensures StageSignal(StageSignal(st, env, s), env, s) == StageSignal(st, env, s)
  {
    match StageOutcomeOf(env, st.managed, s)
    case ToBacklog =>
      RecordFailureHas(st, s);
      assert StageOutcomeOf(env, RecordFailure(st, s).managed, s) == ToBacklog;
    case Skip =>
    case Stage(lc, sc, o) =>
      StagedIsDuplicate(env, st.managed, st.nextOrderId, s, lc, sc, o);
  }

  lemma RecordFailureHas(st: BotState, s: Signal)
    ensures InBacklog(RecordFailure(st, s).failed, SignalKey(s))
    ensures RecordFailure(RecordFailure(st, s), s) == RecordFailure(st, s)
  {
    if !InBacklog(st.failed, SignalKey(s)) {
      var b := st.failed + [(s, s.expiry)];
      assert SignalKey(b[|b| - 1].0) == SignalKey(s);
    }
  }

  /** A signal whose legs resolve and match a known order stages nothing. */
  lemma DuplicateSkipped(st: BotState, env: Env, s: Signal, lc: int, sc: int)
    requires ResolveConId(env.resolve, s.expiry, s.lcStrike) == Some(lc)
    requires ResolveConId(env.resolve, s.expiry, s.scStrike) == Some(sc)
    requires IsDuplicateOrder(SortInts([lc, sc]), s.triggerPrice, env.existing, st.managed)
    ensures StageSignal(st, env, s) == st
  {
  }

  // ---- GO/NO-GO at the open ----

  /** The decision for one staged order: NO-GO (cancel) when the open is at or above its
      trigger, otherwise GO (place again under the same id, now transmitting). */
  function Decision(open: real, m: ManagedOrder): Action {
    if open >= m.trigger then Cancel(m.id) else Place(m.id, m.contract, m.order.(transmit := true))
  }

  /** The managed order after its decision: a GO order's order object now transmits. */
  function AfterDecision(open: real, m: ManagedOrder): ManagedOrder {
    if open >= m.trigger then m else m.(order := m.order.(transmit := true))
  }

  function Decisions(open: real, ms: seq<ManagedOrder>): (acts: seq<Action>)
    ensures |acts| == |ms|
  {
    seq(|ms|, i requires 0 <= i < |ms| => Decision(open, ms[i]))
  }

  function AfterDecisions(open: real, ms: seq<ManagedOrder>): (r: seq<ManagedOrder>)
    ensures |r| == |ms|
  {
    seq(|ms|, i requires 0 <= i < |ms| => AfterDecision(open, ms[i]))
  }

  /** A NO-GO order is cancelled and, ids being distinct, never transmitted in that pass. */
  lemma NoGoNeverTransmitted(open: real, ms: seq<ManagedOrder>, i: int)
    requires DistinctIds(ms) && 0 <= i < |ms| && open >= ms[i].trigger
    ensures Cancel(ms[i].id) in Decisions(open, ms)
    ensures forall k :: 0 <= k < |ms| && Decisions(open, ms)[k].Place? ==> Decisions(open, ms)[k].id != ms[i].id
  {
    assert Decisions(open, ms)[i] == Cancel(ms[i].id);
  }

  /** A GO order is placed again, transmitting, under its own id and is never cancelled. */
  lemma GoTransmitted(open: real, ms: seq<ManagedOrder>, i: int)
    requires DistinctIds(ms) && 0 <= i < |ms| && open < ms[i].trigger
    ensures Place(ms[i].id, ms[i].contract, ms[i].order.(transmit := true)) in Decisions(open, ms)
    ensures Cancel(ms[i].id) !in Decisions(open, ms)
    ensures AfterDecisions(open, ms)[i].order.transmit
  {
    assert Decisions(open, ms)[i] == Place(ms[i].id, ms[i].contract, ms[i].order.(transmit := true));
  }

  /** With the orders sorted by trigger, all cancellations come before all transmissions. */
  lemma CancelsBeforeTransmissions(open: real, ms: seq<ManagedOrder>)
    requires SortedByTrigger(ms)
    ensures forall i, j :: 0 <= i < j < |ms| && Decisions(open, ms)[i].Place? ==> Decisions(open, ms)[j].Place?
  {
  }

  /** Sorting loses no order: each staged order gets its decision in the sorted pass. */
  lemma SortedPassDecidesAll(open: real, ms: seq<ManagedOrder>, m: ManagedOrder)
    requires m in ms
    ensures Decision(open, m) in Decisions(open, SortByTrigger(ms))
  {
    var sorted := SortByTrigger(ms);
    assert m in multiset(sorted);
    var i :| 0 <= i < |sorted| && sorted[i] == m;
    assert Decisions(open, sorted)[i] == Decision(open, m);
  }

  // ---- the post-open recovery loop ----

  /** How one pass of the recovery loop ends. StatusPrintUnbound: the waiting branch reads
      `last_status_print` before any assignment to it and raises. */
  datatype StepOutcome = Concluded | StatusPrintUnbound | BelowLowestStrike | Acted

  /** `[mo.lc_strike for mo in managed_orders if mo.id in app.error_order_ids]` */
  function ErrorStrikes(ms: seq<ManagedOrder>, errorIds: seq<int>): seq<real> {
    if ms == [] then []
    else (if ms[0].id in errorIds then [ms[0].lcStrike] else []) + ErrorStrikes(ms[1..], errorIds)
  }

  /** `[signal.lc_strike for signal, _ in failed_conid_signals]` */
  function BacklogStrikes(b: seq<BacklogEntry>): (r: seq<real>)
    ensures |r| == |b|
  {
    seq(|b|, i requires 0 <= i < |b| => b[i].0.lcStrike)
  }

  function MinOf(xs: seq<real>): (m: real)
    requires xs != []
    ensures m in xs && forall x :: x in xs ==> m <= x
  {
    if |xs| == 1 then xs[0]
    else
      var m := MinOf(xs[1..]);
      assert forall x :: x in xs ==> x == xs[0] || x in xs[1..];
      if xs[0] <= m then xs[0] else m
  }

  /** The index of the first managed order with id `id`. */
  function FirstWithId(ms: seq<ManagedOrder>, id: int): (r: Option<nat>)
    ensures r.Some? ==> r.value < |ms| && ms[r.value].id == id
                        && forall k :: 0 <= k < r.value ==> ms[k].id != id
    ensures r.None? ==> forall k :: 0 <= k < |ms| ==> ms[k].id != id
  {
    if ms == [] then None
    else if ms[0].id == id then Some(0)
    else
      match FirstWithId(ms[1..], id)
      case None => None
      case Some(k) => Some(k + 1)
  }

  /** `list.remove(x)`: drop the first occurrence. */
  function RemoveFirst(l: seq<int>, x: int): (r: seq<int>)
    ensures x in l ==> multiset(r) == multiset(l) - multiset{x}
    ensures x in l ==> exists k :: 0 <= k < |l| && l[k] == x && x !in l[..k] && r == l[..k] + l[k + 1..]
    ensures x !in l ==> r == l
  {
    if l == [] then []
    else if l[0] == x then
      assert l == [l[0]] + l[1..];
      assert l[..0] == [];
      l[1..]
    else
      assert l == [l[0]] + l[1..];
      var rest := RemoveFirst(l[1..], x);
      RemoveFirstPast(l, x, rest);
      [l[0]] + rest
  }

  /** The first occurrence in the tail is the first occurrence in the list. */
  lemma RemoveFirstPast<T>(l: seq<T>, x: T, rest: seq<T>)
    requires l != [] && l[0] != x
    requires x in l[1..] ==> exists k :: 0 <= k < |l[1..]| && l[1..][k] == x && x !in l[1..][..k]
                                           && rest == l[1..][..k] + l[1..][k + 1..]
    ensures x in l ==> exists k :: 0 <= k < |l| && l[k] == x && x !in l[..k] && [l[0]] + rest == l[..k] + l[k + 1..]
  {
    if x in l {
      assert x in l[1..] by {
        var i :| 0 <= i < |l| && l[i] == x;
        assert l[1..][i - 1] == x;
      }
      var k :| 0 <= k < |l[1..]| && l[1..][k] == x && x !in l[1..][..k] && rest == l[1..][..k] + l[1..][k + 1..];
      var j := k + 1;
      SliceShift(l, k);
      assert l[j] == x && x !in l[..j];
      assert [l[0]] + rest == l[..j] + l[j + 1..];
    }
  }

  /** Slicing the tail at k is slicing the list at k + 1, past its head. */
  lemma SliceShift<T>(l: seq<T>, k: nat)
    requires k + 1 < |l|
    ensures l[..k + 1] == [l[0]] + l[1..][..k] && l[k + 2..] == l[1..][k + 1..] && l[k + 1] == l[1..][k]
  {
  }

  /** One error id of the snapshot: drop it when no managed order carries it; otherwise,
      with the live price at or above that order's LC strike, send the order again,
      transmitting, under a fresh id which the managed order takes over. */
  function ErrorEntryStep(st: BotState, eid: int, live: real): BotState {
    match FirstWithId(st.managed, eid)
    case None => st.(errorIds := RemoveFirst(st.errorIds, eid))
    case Some(i) =>
      var mo := st.managed[i];
      if live >= mo.lcStrike then
        var o := mo.order.(transmit := true);
        st.(nextOrderId := st.nextOrderId + 1,
            managed := st.managed[i := mo.(id := st.nextOrderId, order := o)],
            log := st.log + [Place(st.nextOrderId, mo.contract, o)])
      else st
  }

  /** The error retry over the snapshot `list(app.error_order_ids)`. */
  function ErrorPhase(st: BotState, ids: seq<int>, live: real): BotState
    decreases |ids|
  {
    if ids == [] then st
    else ErrorEntryStep(ErrorPhase(st, ids[..|ids| - 1], live), ids[|ids| - 1], live)
  }

  /** A lookup at the signal's strike, and, when that raises, at the fallback strike. */
  function ResolveWithFallback(resolve: Resolver, expiry: string, strike: real, fallback: real): Option<int> {
    var r := ResolveConId(resolve, expiry, strike);
    if r.Some? then r else ResolveConId(resolve, expiry, fallback)
  }

  /** `list.pop(i)` inside the surrounding `try`: an index past the end raises IndexError,
      which the handler reports, and the list stays as it is. */
  function PopAt<T>(l: seq<T>, i: nat): (r: seq<T>)
    ensures i < |l| ==> r == l[..i] + l[i + 1..]
    ensures i >= |l| ==> r == l
  {
    if i < |l| then l[..i] + l[i + 1..] else l
  }

  /** Both legs of a backlog entry: LC at its strike or else LC-5, SC at its strike or else
      SC+5 (None when a lookup raises). */
  function ResolveLegs(resolve: Resolver, e: BacklogEntry): Option<(int, int)> {
    var lc := ResolveWithFallback(resolve, e.1, e.0.lcStrike, e.0.lcStrike - 5.0);
    var sc := ResolveWithFallback(resolve, e.1, e.0.scStrike, e.0.scStrike + 5.0);
    if lc.None? || sc.None? then None else Some((lc.value, sc.value))
  }

  /** Whether the spread of the resolved legs is already known to the broker or staged. */
  predicate LegsDuplicate(env: Env, managed: seq<ManagedOrder>, e: BacklogEntry, legs: (int, int)) {
    IsDuplicateOrder(SortInts([legs.0, legs.1]), e.0.triggerPrice, env.existing, managed)
  }

  /** What the retry does with one backlog entry. */
  datatype EntryOutcome = Stay | Drop | Submit(contract: Contract, order: Order)

  /** The decision for a backlog entry: it stays while the live price is below its LC
      strike, when a leg cannot be resolved (directly or at LC-5 / SC+5) or when the order
      cannot be built; a duplicate is dropped; otherwise its spread is submitted live. */
  function EntryOutcomeOf(env: Env, managed: seq<ManagedOrder>, e: BacklogEntry, live: real): (r: EntryOutcome)
    ensures r.Submit? ==> r.order.transmit && e.0.lcStrike <= live
    ensures r.Submit? ==> BuildStagedOrder(env.cfg, e.0, env.triggerConId).Success?
                          && r.order == BuildStagedOrder(env.cfg, e.0, env.triggerConId).value.(transmit := true)
  {
    if live < e.0.lcStrike then Stay
    else
      match ResolveLegs(env.resolve, e)
      case None => Stay
      case Some(legs) =>
        if IsDuplicateOrder(SortInts([legs.0, legs.1]), e.0.triggerPrice, env.existing, managed) then Drop
        else
          match BuildStagedOrder(env.cfg, e.0, env.triggerConId)
          case Failure(_) => Stay
          case Success(o) => Submit(BuildComboContract(env.cfg, legs.0, legs.1), o.(transmit := true))
  }

  /** The decision table both ways: an entry is submitted exactly when the live price has
      reached its LC strike, both legs resolve (directly or at the fallback strikes), the
      spread is not a duplicate and the order builds, and the contract sent is the combo of
      the resolved legs; it is dropped exactly when the resolved spread is a duplicate. */
  lemma EntryOutcomeCases(env: Env, managed: seq<ManagedOrder>, e: BacklogEntry, live: real)
    ensures var r := EntryOutcomeOf(env, managed, e, live);
      && (r.Submit? <==> && e.0.lcStrike <= live && ResolveLegs(env.resolve, e).Some?
                         && !LegsDuplicate(env, managed, e, ResolveLegs(env.resolve, e).value)
                         && BuildStagedOrder(env.cfg, e.0, env.triggerConId).Success?)
      && (r.Submit? ==> r.contract == BuildComboContract(env.cfg, ResolveLegs(env.resolve, e).value.0,
                                                         ResolveLegs(env.resolve, e).value.1))
      && (r.Drop? <==> && e.0.lcStrike <= live && ResolveLegs(env.resolve, e).Some?
                       && LegsDuplicate(env, managed, e, ResolveLegs(env.resolve, e).value))
  {
  }

  /** Whether the pass takes the entry off the backlog. None of this depends on what the
      pass has done before: the managed orders do not change during it. */
  predicate Handled(env: Env, managed: seq<ManagedOrder>, e: BacklogEntry, live: real) {
    !EntryOutcomeOf(env, managed, e, live).Stay?
  }

  /** Entry `idx` of the snapshot. A handled entry is popped at `idx`, the snapshot index,
      from the live list; a submitted one is first placed under a fresh id. */
  function BacklogEntryStep(st: BotState, env: Env, idx: nat, e: BacklogEntry, live: real): BotState {
    match EntryOutcomeOf(env, st.managed, e, live)
    case Stay => st
    case Drop => st.(failed := PopAt(st.failed, idx))
    case Submit(c, o) =>
      st.(nextOrderId := st.nextOrderId + 1,
          log := st.log + [Place(st.nextOrderId, c, o)],
          failed := PopAt(st.failed, idx))
  }

  /** The failed-conId retry over the first `n` entries of the snapshot. */
  function BacklogPhase(st: BotState, env: Env, entries: seq<BacklogEntry>, n: nat, live: real): BotState
    requires n <= |entries|
  {
    if n == 0 then st
    else BacklogEntryStep(BacklogPhase(st, env, entries, n - 1, live), env, n - 1, entries[n - 1], live)
  }

  /** The loop keeps going while before the close and there is an error id or a backlog entry. */
  predicate Pending(st: BotState) {
    st.errorIds != [] || st.failed != []
  }

  /** One iteration of `run_post_open_retry_loops`, with `live` the price snapshot it acts on. */
  function RecoveryPass(st: BotState, env: Env, beforeClose: bool, live: Option<real>): (StepOutcome, BotState) {
    if !(beforeClose && Pending(st)) then (Concluded, st)
    else
      var strikes := ErrorStrikes(st.managed, st.errorIds) + BacklogStrikes(st.failed);
      if strikes == [] || live.None? then (StatusPrintUnbound, st)
      else if live.value < MinOf(strikes) then (BelowLowestStrike, st)
      else
        var s1 := if st.errorIds != [] then ErrorPhase(st, st.errorIds, live.value) else st;
        var s2 := if s1.failed != [] then BacklogPhase(s1, env, s1.failed, |s1.failed|, live.value) else s1;
        (Acted, s2)
  }

  /** Only an iteration that acts changes anything. */
  lemma OnlyActingChanges(st: BotState, env: Env, beforeClose: bool, live: Option<real>)
    ensures RecoveryPass(st, env, beforeClose, live).0 != Acted ==> RecoveryPass(st, env, beforeClose, live).1 == st
    ensures RecoveryPass(st, env, beforeClose, live).0 == Concluded <==> !(beforeClose && Pending(st))
  {
  }

  /** The strike gate: an iteration acts exactly when, before the close and with work
      pending, the live price has reached the lowest LC strike of the error orders and the
      backlog; with strikes and a price but below the lowest strike it only waits. */
  lemma StrikeGate(st: BotState, env: Env, beforeClose: bool, live: Option<real>)
    ensures var strikes := ErrorStrikes(st.managed, st.errorIds) + BacklogStrikes(st.failed);
      (RecoveryPass(st, env, beforeClose, live).0 == Acted
       <==> beforeClose && Pending(st) && live.Some? && strikes != [] && live.value >= MinOf(strikes))
    ensures var strikes := ErrorStrikes(st.managed, st.errorIds) + BacklogStrikes(st.failed);
      (RecoveryPass(st, env, beforeClose, live).0 == BelowLowestStrike
       <==> beforeClose && Pending(st) && live.Some? && strikes != [] && live.value < MinOf(strikes))
  {
  }

  /** Before the close, with work pending but no live price, the iteration raises. */
  lemma NoPriceRaises(st: BotState, env: Env)
    requires Pending(st)
    ensures RecoveryPass(st, env, true, None).0 == StatusPrintUnbound
  {
  }

  // ---- what the recovery pass changes ----

  /** `t` follows from `st` by live placements: every call appended is a transmitting Place
      under consecutive fresh ids from the old nextOrderId. */
  predicate LiveFrom(st: BotState, t: BotState) {
    var n := |st.log|;
    && n <= |t.log| && t.log[..n] == st.log
    && t.nextOrderId == st.nextOrderId + (|t.log| - n)
    && forall k :: n <= k < |t.log| ==>
         t.log[k].Place? && t.log[k].id == st.nextOrderId + (k - n) && t.log[k].order.transmit
  }

  lemma LiveFromSame(st: BotState, t: BotState)
    requires t.log == st.log && t.nextOrderId == st.nextOrderId
    ensures LiveFrom(st, t)
  {
  }

  lemma LiveFromOne(st: BotState, t: BotState, c: Contract, o: Order)
    requires o.transmit && t.log == st.log + [Place(st.nextOrderId, c, o)]
    requires t.nextOrderId == st.nextOrderId + 1
    ensures LiveFrom(st, t)
  {
    assert t.log[..|st.log|] == st.log;
  }

  lemma {:induction false} LiveFromTrans(a: BotState, b: BotState, c: BotState)
    requires LiveFrom(a, b) && LiveFrom(b, c)
    ensures LiveFrom(a, c)
  {
    assert c.log[..|a.log|] == c.log[..|b.log|][..|a.log|];
    assert forall k :: |a.log| <= k < |b.log| ==> c.log[k] == b.log[k];
  }

  lemma ErrorEntryLive(st: BotState, eid: int, live: real)
    ensures LiveFrom(st, ErrorEntryStep(st, eid, live))
  {
    var t := ErrorEntryStep(st, eid, live);
    match FirstWithId(st.managed, eid)
    case None => LiveFromSame(st, t);
    case Some(i) =>
      if live >= st.managed[i].lcStrike {
        LiveFromOne(st, t, st.managed[i].contract, st.managed[i].order.(transmit := true));
      } else {
        LiveFromSame(st, t);
      }
  }

  lemma {:induction false} ErrorPhaseLive(st: BotState, ids: seq<int>, live: real)
    ensures LiveFrom(st, ErrorPhase(st, ids, live))
    decreases |ids|
  {
    if ids == [] {
      LiveFromSame(st, st);
    } else {
      var mid := ErrorPhase(st, ids[..|ids| - 1], live);
      ErrorPhaseLive(st, ids[..|ids| - 1], live);
      ErrorEntryLive(mid, ids[|ids| - 1], live);
      LiveFromTrans(st, mid, ErrorPhase(st, ids, live));
    }
  }

  lemma BacklogEntryLive(st: BotState, env: Env, idx: nat, e: BacklogEntry, live: real)
    ensures LiveFrom(st, BacklogEntryStep(st, env, idx, e, live))
  {
    var t := BacklogEntryStep(st, env, idx, e, live);
    match EntryOutcomeOf(env, st.managed, e, live)
    case Stay => LiveFromSame(st, t);
    case Drop => LiveFromSame(st, t);
    case Submit(c, o) => LiveFromOne(st, t, c, o);
  }

  lemma {:induction false} BacklogPhaseLive(st: BotState, env: Env, entries: seq<BacklogEntry>, n: nat, live: real)
    requires n <= |entries|
    ensures LiveFrom(st, BacklogPhase(st, env, entries, n, live))
  {
    if n == 0 {
      LiveFromSame(st, st);
    } else {
      var mid := BacklogPhase(st, env, entries, n - 1, live);
      BacklogPhaseLive(st, env, entries, n - 1, live);
      BacklogEntryLive(mid, env, n - 1, entries[n - 1], live);
      LiveFromTrans(st, mid, BacklogPhase(st, env, entries, n, live));
    }
  }

  /** `a` is the submission of an entry of the snapshot whose LC strike the live price has
      reached. */
  predicate SentFrom(env: Env, managed: seq<ManagedOrder>, entries: seq<BacklogEntry>, live: real, a: Action) {
    exists j :: 0 <= j < |entries| && entries[j].0.lcStrike <= live && a.Place?
                && EntryOutcomeOf(env, managed, entries[j], live) == Submit(a.contract, a.order)
  }

  /** One backlog step leaves managed alone and sends at most the entry's submission. */
  lemma BacklogStepSends(st: BotState, env: Env, entries: seq<BacklogEntry>, n: nat, live: real)
    requires 0 < n <= |entries|
    ensures var mid, t := BacklogPhase(st, env, entries, n - 1, live), BacklogPhase(st, env, entries, n, live);
      && t.managed == mid.managed && |mid.log| <= |t.log| && t.log[..|mid.log|] == mid.log
      && forall k :: |mid.log| <= k < |t.log| ==> SentFrom(env, mid.managed, entries, live, t.log[k])
  {
    var mid := BacklogPhase(st, env, entries, n - 1, live);
    var t := BacklogPhase(st, env, entries, n, live);
    assert t == BacklogEntryStep(mid, env, n - 1, entries[n - 1], live);
    match EntryOutcomeOf(env, mid.managed, entries[n - 1], live)
    case Stay =>
    case Drop =>
    case Submit(c, o) =>
      assert t.log == mid.log + [Place(mid.nextOrderId, c, o)];
      assert t.log[..|mid.log|] == mid.log;
      assert t.log[|mid.log|] == Place(mid.nextOrderId, c, o);
  }

  /** If what `b` adds to `a` and what `c` adds to `b` all satisfy `p`, so does what `c`
      adds to `a`. */
  lemma AddedAll<T>(a: seq<T>, b: seq<T>, c: seq<T>, p: T -> bool)
    requires |a| <= |b| <= |c| && c[..|b|] == b
    requires forall k :: |a| <= k < |b| ==> p(b[k])
    requires forall k :: |b| <= k < |c| ==> p(c[k])
    ensures forall k :: |a| <= k < |c| ==> p(c[k])
  {
    assert forall k :: |a| <= k < |b| ==> c[k] == c[..|b|][k];
  }

  /** The per-entry gate over the whole backlog pass: every order it sends is the
      submission of an entry of the snapshot whose LC strike the live price has reached,
      decided against the managed orders, which the pass leaves alone. */
  lemma {:induction false} BacklogPhaseGated(st: BotState, env: Env, entries: seq<BacklogEntry>, n: nat, live: real)
    requires n <= |entries|
    ensures BacklogPhase(st, env, entries, n, live).managed == st.managed
    ensures |st.log| <= |BacklogPhase(st, env, entries, n, live).log|
    ensures var t := BacklogPhase(st, env, entries, n, live);
      forall k :: |st.log| <= k < |t.log| ==> SentFrom(env, st.managed, entries, live, t.log[k])
  {
    if n > 0 {
      var mid := BacklogPhase(st, env, entries, n - 1, live);
      var t := BacklogPhase(st, env, entries, n, live);
      BacklogPhaseGated(st, env, entries, n - 1, live);
      BacklogStepSends(st, env, entries, n, live);
      AddedAll(st.log, mid.log, t.log, a => SentFrom(env, st.managed, entries, live, a));
    }
  }

  /** Everything one recovery iteration sends is a live (transmitting) order under a fresh,
      consecutive id; nothing is cancelled and nothing is held for review. */
  lemma RecoveryPassLive(st: BotState, env: Env, beforeClose: bool, live: Option<real>)
    ensures LiveFrom(st, RecoveryPass(st, env, beforeClose, live).1)
  {
    var r := RecoveryPass(st, env, beforeClose, live);
    if r.0 != Acted {
      LiveFromSame(st, st);
    } else {
      var s1 := if st.errorIds != [] then ErrorPhase(st, st.errorIds, live.value) else st;
      if st.errorIds != [] { ErrorPhaseLive(st, st.errorIds, live.value); } else { LiveFromSame(st, st); }
      if s1.failed != [] {
        BacklogPhaseLive(s1, env, s1.failed, |s1.failed|, live.value);
        LiveFromTrans(st, s1, r.1);
      }
    }
  }

  // ---- the recovery pass keeps the invariant ----

  lemma ErrorEntryInv(st: BotState, eid: int, live: real)
    requires Inv(st)
    ensures Inv(ErrorEntryStep(st, eid, live))
  {
    match FirstWithId(st.managed, eid)
    case None =>
    case Some(i) =>
      if live >= st.managed[i].lcStrike {
        var t := ErrorEntryStep(st, eid, live);
        assert forall j :: 0 <= j < |t.managed| && j != i ==> t.managed[j] == st.managed[j];
      }
  }

  lemma {:induction false} ErrorPhaseInv(st: BotState, ids: seq<int>, live: real)
    requires Inv(st)
    ensures Inv(ErrorPhase(st, ids, live))
    decreases |ids|
  {
    if ids != [] {
      ErrorPhaseInv(st, ids[..|ids| - 1], live);
      ErrorEntryInv(ErrorPhase(st, ids[..|ids| - 1], live), ids[|ids| - 1], live);
    }
  }

  lemma PopAtKeys(b: seq<BacklogEntry>, i: nat)
    requires DistinctKeys(b)
    ensures DistinctKeys(PopAt(b, i))
  {
    if i < |b| {
      var r := PopAt(b, i);
      assert forall a :: 0 <= a < |r| ==> r[a] == b[if a < i then a else a + 1];
    }
  }

  lemma BacklogEntryInv(st: BotState, env: Env, idx: nat, e: BacklogEntry, live: real)
    requires DistinctKeys(st.failed)
    ensures DistinctKeys(BacklogEntryStep(st, env, idx, e, live).failed)
    ensures BacklogEntryStep(st, env, idx, e, live).managed == st.managed
    ensures BacklogEntryStep(st, env, idx, e, live).nextOrderId >= st.nextOrderId
  {
    PopAtKeys(st.failed, idx);
  }

  lemma {:induction false} BacklogPhaseInv(st: BotState, env: Env, entries: seq<BacklogEntry>, n: nat, live: real)
    requires DistinctKeys(st.failed) && n <= |entries|
    ensures DistinctKeys(BacklogPhase(st, env, entries, n, live).failed)
    ensures BacklogPhase(st, env, entries, n, live).managed == st.managed
    ensures BacklogPhase(st, env, entries, n, live).nextOrderId >= st.nextOrderId
  {
    BacklogPhaseKeys(st, env, entries, n, live);
    BacklogPhaseIds(st, env, entries, n, live);
  }

  lemma {:induction false} BacklogPhaseKeys(st: BotState, env: Env, entries: seq<BacklogEntry>, n: nat, live: real)
    requires DistinctKeys(st.failed) && n <= |entries|
    ensures DistinctKeys(BacklogPhase(st, env, entries, n, live).failed)
  {
    if n > 0 {
      BacklogPhaseKeys(st, env, entries, n - 1, live);
      BacklogEntryInv(BacklogPhase(st, env, entries, n - 1, live), env, n - 1, entries[n - 1], live);
    }
  }

  lemma {:induction false} BacklogPhaseIds(st: BotState, env: Env, entries: seq<BacklogEntry>, n: nat, live: real)
    requires n <= |entries|
    ensures BacklogPhase(st, env, entries, n, live).nextOrderId >= st.nextOrderId
    ensures BacklogPhase(st, env, entries, n, live).managed == st.managed
  {
    if n > 0 {
      BacklogPhaseIds(st, env, entries, n - 1, live);
    }
  }

  /** A recovery iteration keeps managed ids distinct and below nextOrderId, and the
      backlog keys distinct. */
  lemma RecoveryPassInv(st: BotState, env: Env, beforeClose: bool, live: Option<real>)
    requires Inv(st)
    ensures Inv(RecoveryPass(st, env, beforeClose, live).1)
  {
    var r := RecoveryPass(st, env, beforeClose, live);
    if r.0 == Acted {
      var s1 := if st.errorIds != [] then ErrorPhase(st, st.errorIds, live.value) else st;
      if st.errorIds != [] { ErrorPhaseInv(st, st.errorIds, live.value); }
      if s1.failed != [] { BacklogPhaseInv(s1, env, s1.failed, |s1.failed|, live.value); }
    }
  }

  // ---- what the error retry changes ----

  /** `t.managed` is `st.managed` with, at most, some orders sent again: same orders in the
      same places; an order whose id changed had its LC strike at or below the live price,
      now transmits and carries a fresh id; the backlog is untouched and error ids are only
      ever removed. */
  predicate RetriedFrom(st: BotState, t: BotState, live: real) {
    && |t.managed| == |st.managed| && t.failed == st.failed
    && multiset(t.errorIds) <= multiset(st.errorIds)
    && t.nextOrderId >= st.nextOrderId
    && forall i :: 0 <= i < |st.managed| ==>
         var a, b := st.managed[i], t.managed[i];
         && b.contract == a.contract && b.trigger == a.trigger
         && b.lcStrike == a.lcStrike && b.scStrike == a.scStrike
         && (b.order == a.order || b.order == a.order.(transmit := true))
         && (b.id != a.id ==> a.lcStrike <= live && b.order.transmit && st.nextOrderId <= b.id < t.nextOrderId)
  }

  lemma ErrorEntryRetried(st: BotState, eid: int, live: real)
    ensures RetriedFrom(st, ErrorEntryStep(st, eid, live), live)
  {
    match FirstWithId(st.managed, eid)
    case None =>
      if eid in st.errorIds { } else { }
    case Some(i) =>
  }

  lemma {:induction false} RetriedFromTrans(a: BotState, b: BotState, c: BotState, live: real)
    requires RetriedFrom(a, b, live) && RetriedFrom(b, c, live)
    ensures RetriedFrom(a, c, live)
  {
    forall i | 0 <= i < |a.managed|
      ensures c.managed[i].id != a.managed[i].id ==> a.managed[i].lcStrike <= live && c.managed[i].order.transmit
                                                     && a.nextOrderId <= c.managed[i].id < c.nextOrderId
    {
    }
  }

  lemma {:induction false} ErrorPhaseRetried(st: BotState, ids: seq<int>, live: real)
    ensures RetriedFrom(st, ErrorPhase(st, ids, live), live)
    decreases |ids|
  {
    if ids != [] {
      var mid := ErrorPhase(st, ids[..|ids| - 1], live);
      ErrorPhaseRetried(st, ids[..|ids| - 1], live);
      ErrorEntryRetried(mid, ids[|ids| - 1], live);
      RetriedFromTrans(st, mid, ErrorPhase(st, ids, live), live);
    }
  }

  /** A re-placed order keeps its error id in the list until a later pass finds no managed
      order under it; a pass in which none of the error ids matches a managed order empties
      the list. */
  lemma {:induction false} UnmatchedErrorIdsCleared(st: BotState, ids: seq<int>, live: real)
    requires forall x, k :: x in ids && 0 <= k < |st.managed| ==> st.managed[k].id != x
    requires multiset(ids) <= multiset(st.errorIds)
    ensures multiset(ErrorPhase(st, ids, live).errorIds) == multiset(st.errorIds) - multiset(ids)
    ensures ErrorPhase(st, ids, live).managed == st.managed
    decreases |ids|
  {
    if ids == [] {
      assert multiset(st.errorIds) - multiset{} == multiset(st.errorIds);
    } else {
      var init, y := ids[..|ids| - 1], ids[|ids| - 1];
      assert ids == init + [y];
      assert forall x :: x in init ==> x in ids;
      UnmatchedErrorIdsCleared(st, init, live);
      var mid := ErrorPhase(st, init, live);
      assert multiset(ids) == multiset(init) + multiset{y};
      assert y in ids;
      assert forall k :: 0 <= k < |mid.managed| ==> mid.managed[k].id != y;
      UnmatchedIdRemoved(mid, y, live, multiset(st.errorIds), multiset(init));
    }
  }

  /** One unmatched error id: the step only drops its first occurrence from the list. */
  lemma UnmatchedEntryDropped(st: BotState, x: int, live: real)
    requires FirstWithId(st.managed, x).None?
    ensures ErrorEntryStep(st, x, live) == st.(errorIds := RemoveFirst(st.errorIds, x))
  {
  }

  /** The error retry only renames managed orders: an order whose id changed now carries a
      fresh id at or above the old nextOrderId, and its old id was in the snapshot. */
  lemma {:induction false} ErrorPhaseRenames(st: BotState, ids: seq<int>, live: real)
    ensures var t := ErrorPhase(st, ids, live);
      && |t.managed| == |st.managed| && t.nextOrderId >= st.nextOrderId
      && forall k :: 0 <= k < |t.managed| ==>
           t.managed[k].id == st.managed[k].id || (t.managed[k].id >= st.nextOrderId && st.managed[k].id in ids)
    decreases |ids|
  {
    if ids != [] {
      var init, y := ids[..|ids| - 1], ids[|ids| - 1];
      ErrorPhaseRenames(st, init, live);
      var mid := ErrorPhase(st, init, live);
      var t := ErrorPhase(st, ids, live);
      assert t == ErrorEntryStep(mid, y, live);
      ErrorEntryRenames(mid, y, live);
      forall k | 0 <= k < |t.managed|
        ensures t.managed[k].id == st.managed[k].id || (t.managed[k].id >= st.nextOrderId && st.managed[k].id in ids)
      {
        if t.managed[k].id != mid.managed[k].id {
          assert mid.managed[k].id == y;
          if mid.managed[k].id != st.managed[k].id {
            assert st.managed[k].id in init;
          }
        } else if mid.managed[k].id != st.managed[k].id {
          assert st.managed[k].id in init;
        }
      }
    }
  }

  /** One error id renames at most the order carrying it, to the fresh id. */
  lemma ErrorEntryRenames(st: BotState, x: int, live: real)
    ensures var t := ErrorEntryStep(st, x, live);
      && |t.managed| == |st.managed| && t.nextOrderId >= st.nextOrderId
      && forall k :: 0 <= k < |t.managed| ==>
           t.managed[k].id == st.managed[k].id || (t.managed[k].id == st.nextOrderId && st.managed[k].id == x)
  {
  }

  /** Whether no managed order carries `x`. */
  predicate Unmatched(ms: seq<ManagedOrder>, x: int) {
    FirstWithId(ms, x).None?
  }

  /** The ids of `ids` that no order of `ms` carries, in order. */
  function UnmatchedIds(ms: seq<ManagedOrder>, ids: seq<int>): seq<int>
    decreases |ids|
  {
    if ids == [] then []
    else UnmatchedIds(ms, ids[..|ids| - 1]) + (if Unmatched(ms, ids[|ids| - 1]) then [ids[|ids| - 1]] else [])
  }

  /** A mixed snapshot: the ids that no managed order carried when the pass began are
      removed from the error list, and the retried ones stay on it. Error ids are ids the
      session handed out (below nextOrderId); the snapshot is taken of the list. */
  lemma {:induction false} ErrorPhaseClearsUnmatched(st: BotState, ids: seq<int>, live: real)
    requires forall i, j :: 0 <= i < j < |ids| ==> ids[i] != ids[j]
    requires forall i :: 0 <= i < |ids| ==> ids[i] < st.nextOrderId
    requires multiset(ids) <= multiset(st.errorIds)
    ensures multiset(ErrorPhase(st, ids, live).errorIds) == multiset(st.errorIds) - multiset(UnmatchedIds(st.managed, ids))
    decreases |ids|
  {
    if ids == [] {
      assert multiset(st.errorIds) - multiset{} == multiset(st.errorIds);
    } else {
      var init, y := ids[..|ids| - 1], ids[|ids| - 1];
      assert ids == init + [y];
      assert multiset(ids) == multiset(init) + multiset{y};
      assert y !in init by {
        forall i | 0 <= i < |init| ensures init[i] != y {
          assert init[i] == ids[i];
        }
      }
      ErrorPhaseClearsUnmatched(st, init, live);
      ErrorPhaseRenames(st, init, live);
      var mid := ErrorPhase(st, init, live);
      var done := multiset(UnmatchedIds(st.managed, init));
      assert done <= multiset(init) by {
        UnmatchedSubset(st.managed, init);
      }
      if Unmatched(st.managed, y) {
        forall k | 0 <= k < |mid.managed| ensures mid.managed[k].id != y {
          assert st.managed[k].id != y;
        }
        UnmatchedIdRemoved(mid, y, live, multiset(st.errorIds), done);
        assert UnmatchedIds(st.managed, ids) == UnmatchedIds(st.managed, init) + [y];
        assert multiset(UnmatchedIds(st.managed, ids)) == done + multiset{y};
        assert ErrorPhase(st, ids, live) == ErrorEntryStep(mid, y, live);
      } else {
        var i := FirstWithId(st.managed, y).value;
        assert mid.managed[i].id == y;
        MatchedEntryKept(mid, y, live, i);
        assert UnmatchedIds(st.managed, ids) == UnmatchedIds(st.managed, init);
        assert ErrorPhase(st, ids, live) == ErrorEntryStep(mid, y, live);
      }
    }
  }

  lemma {:induction false} UnmatchedSubset(ms: seq<ManagedOrder>, ids: seq<int>)
    ensures multiset(UnmatchedIds(ms, ids)) <= multiset(ids)
    decreases |ids|
  {
    if ids != [] {
      var init := ids[..|ids| - 1];
      UnmatchedSubset(ms, init);
      assert ids == init + [ids[|ids| - 1]];
    }
  }

  /** With an empty backlog, error ids that no managed order carries give no strike, so the
      iteration takes the waiting branch and reaches the unbound read instead of clearing
      them. */
  lemma StaleIdsWait(st: BotState, env: Env, live: Option<real>)
    requires st.failed == [] && st.errorIds != []
    requires forall k :: 0 <= k < |st.managed| ==> st.managed[k].id !in st.errorIds
    ensures RecoveryPass(st, env, true, live).0 == StatusPrintUnbound
  {
    NoErrorStrikes(st.managed, st.errorIds);
  }

  lemma {:induction false} NoErrorStrikes(ms: seq<ManagedOrder>, errorIds: seq<int>)
    requires forall k :: 0 <= k < |ms| ==> ms[k].id !in errorIds
    ensures ErrorStrikes(ms, errorIds) == []
  {
    if ms != [] {
      assert ms[0].id !in errorIds;
      NoErrorStrikes(ms[1..], errorIds);
    }
  }

  /** An error id some managed order carries stays on the list, retried or not. */
  lemma MatchedEntryKept(st: BotState, x: int, live: real, i: nat)
    requires i < |st.managed| && st.managed[i].id == x
    ensures ErrorEntryStep(st, x, live).errorIds == st.errorIds
  {
  }

  lemma UnmatchedIdRemoved(mid: BotState, y: int, live: real, all: multiset<int>, done: multiset<int>)
    requires forall k :: 0 <= k < |mid.managed| ==> mid.managed[k].id != y
    requires multiset(mid.errorIds) == all - done && done + multiset{y} <= all
    ensures multiset(ErrorEntryStep(mid, y, live).errorIds) == all - (done + multiset{y})
    ensures ErrorEntryStep(mid, y, live).managed == mid.managed
  {
    assert (all - done)[y] >= 1;
    assert y in mid.errorIds;
    assert (all - done) - multiset{y} == all - (done + multiset{y});
  }

  // ---- the backlog retry with the pop fixed ----

  /** The position of `x` in `l`, or |l| when absent. */
  function IndexOf<T(==)>(l: seq<T>, x: T): (i: nat)
    ensures i <= |l|
    ensures i < |l| ==> l[i] == x
    ensures forall k :: 0 <= k < i ==> l[k] != x
  {
    if l == [] || l[0] == x then 0 else 1 + IndexOf(l[1..], x)
  }

  /** The backlog retry with each handled entry popped at its current position in the live
      list, which is what the snapshot index was meant to find. */
  function BacklogPhaseFixed(st: BotState, env: Env, entries: seq<BacklogEntry>, n: nat, live: real): (r: BotState)
    requires n <= |entries|
    ensures r.managed == st.managed && |r.failed| <= |st.failed|
  {
    if n == 0 then st
    else
      var mid := BacklogPhaseFixed(st, env, entries, n - 1, live);
      EntryStepPops(mid, env, IndexOf(mid.failed, entries[n - 1]), entries[n - 1], live);
      BacklogEntryStep(mid, env, IndexOf(mid.failed, entries[n - 1]), entries[n - 1], live)
  }

  /** The entries of `es` that a pass leaves in the backlog, in order. */
  function Unhandled(env: Env, managed: seq<ManagedOrder>, es: seq<BacklogEntry>, live: real): (r: seq<BacklogEntry>)
    ensures forall x :: x in r ==> x in es
  {
    if es == [] then []
    else
      var init := Unhandled(env, managed, es[..|es| - 1], live);
      init + (if Handled(env, managed, es[|es| - 1], live) then [] else [es[|es| - 1]])
  }

  /** An entry step pops exactly the handled entries and leaves the managed orders alone. */
  lemma EntryStepPops(st: BotState, env: Env, idx: nat, e: BacklogEntry, live: real)
    ensures BacklogEntryStep(st, env, idx, e, live).failed
            == if Handled(env, st.managed, e, live) then PopAt(st.failed, idx) else st.failed
    ensures BacklogEntryStep(st, env, idx, e, live).managed == st.managed
  {
  }

  predicate DistinctEntries(es: seq<BacklogEntry>) {
    forall i, j :: 0 <= i < j < |es| ==> es[i] != es[j]
  }

  /** Popping `x` at its own position from `u + [x] + rest`. */
  lemma PopOwnPosition<T>(u: seq<T>, x: T, rest: seq<T>)
    requires x !in u
    ensures IndexOf(u + ([x] + rest), x) == |u|
    ensures PopAt(u + ([x] + rest), |u|) == u + rest
    ensures u + ([x] + rest) == (u + [x]) + rest
  {
    var l := u + ([x] + rest);
    IndexOfFirst(u, x, [x] + rest);
    assert l[..|u|] == u && l[|u| + 1..] == rest;
  }

  /** `x` not in `u` and at the head of `v` is found right after `u`. */
  lemma IndexOfFirst<T>(u: seq<T>, x: T, v: seq<T>)
    requires x !in u && v != [] && v[0] == x
    ensures IndexOf(u + v, x) == |u|
  {
    var l := u + v;
    assert l[|u|] == x;
    assert forall k :: 0 <= k < |u| ==> l[k] == u[k];
  }

  lemma SplitAt<T>(s: seq<T>, n: nat)
    requires 0 < n <= |s|
    ensures s[n - 1..] == [s[n - 1]] + s[n..]
    ensures s[..n][..n - 1] == s[..n - 1]
    ensures s[..n][n - 1] == s[n - 1]
  {
  }

  lemma NotYetSeen(env: Env, managed: seq<ManagedOrder>, entries: seq<BacklogEntry>, n: nat, live: real)
    requires DistinctEntries(entries) && 0 < n <= |entries|
    ensures entries[n - 1] !in Unhandled(env, managed, entries[..n - 1], live)
  {
    var u := Unhandled(env, managed, entries[..n - 1], live);
    forall y | y in u ensures y != entries[n - 1] {
      var k :| 0 <= k < n - 1 && entries[..n - 1][k] == y;
    }
  }

  /** One step of the fixed pass on a backlog laid out as `u + [x] + rest`. */
  lemma FixedStep(mid: BotState, env: Env, u: seq<BacklogEntry>, x: BacklogEntry, rest: seq<BacklogEntry>, live: real)
    requires mid.failed == u + ([x] + rest) && x !in u
    ensures BacklogEntryStep(mid, env, IndexOf(mid.failed, x), x, live).failed
            == (u + (if Handled(env, mid.managed, x, live) then [] else [x])) + rest
    ensures BacklogEntryStep(mid, env, IndexOf(mid.failed, x), x, live).managed == mid.managed
  {
    PopOwnPosition(u, x, rest);
    EntryStepPops(mid, env, |u|, x, live);
  }

  lemma UnhandledSnoc(env: Env, managed: seq<ManagedOrder>, entries: seq<BacklogEntry>, n: nat, live: real)
    requires 0 < n <= |entries|
    ensures Unhandled(env, managed, entries[..n], live)
            == Unhandled(env, managed, entries[..n - 1], live)
               + (if Handled(env, managed, entries[n - 1], live) then [] else [entries[n - 1]])
  {
    SplitAt(entries, n);
  }

  lemma {:induction false} FixedPhaseRemaining(st: BotState, env: Env, entries: seq<BacklogEntry>, n: nat, live: real)
    requires st.failed == entries && DistinctEntries(entries) && n <= |entries|
    ensures BacklogPhaseFixed(st, env, entries, n, live).failed
            == Unhandled(env, st.managed, entries[..n], live) + entries[n..]
    ensures BacklogPhaseFixed(st, env, entries, n, live).managed == st.managed
  {
    if n == 0 {
      assert entries[..0] == [];
    } else {
      FixedPhaseRemaining(st, env, entries, n - 1, live);
      var mid := BacklogPhaseFixed(st, env, entries, n - 1, live);
      SplitAt(entries, n);
      NotYetSeen(env, st.managed, entries, n, live);
      FixedStep(mid, env, Unhandled(env, st.managed, entries[..n - 1], live), entries[n - 1], entries[n..], live);
      UnhandledSnoc(env, st.managed, entries, n, live);
    }
  }

  /** With the pop fixed, the backlog after the pass holds exactly the entries that were not
      handled, in their order: nothing sent stays behind and nothing pending is dropped. */
  lemma FixedPhaseKeepsUnhandled(st: BotState, env: Env, live: real)
    requires DistinctKeys(st.failed)
    ensures BacklogPhaseFixed(st, env, st.failed, |st.failed|, live).failed
            == Unhandled(env, st.managed, st.failed, live)
  {
    assert DistinctEntries(st.failed) by {
      forall i, j | 0 <= i < j < |st.failed| ensures st.failed[i] != st.failed[j] {
        assert SignalKey(st.failed[i].0) != SignalKey(st.failed[j].0);
      }
    }
    FixedPhaseRemaining(st, env, st.failed, |st.failed|, live);
    assert st.failed[..|st.failed|] == st.failed;
    assert st.failed[|st.failed|..] == [];
  }

  // ---- sorting keeps ids distinct ----

  lemma {:induction false} InsertKeepsIds(x: ManagedOrder, u: seq<ManagedOrder>)
    requires SortedByTrigger(u) && DistinctIds(u)
    requires forall k :: 0 <= k < |u| ==> u[k].id != x.id
    ensures DistinctIds(InsertByTrigger(x, u))
  {
    if u != [] && x.trigger > u[0].trigger {
      var rest := InsertByTrigger(x, u[1..]);
      InsertKeepsIds(x, u[1..]);
      forall m | m in rest ensures m.id != u[0].id {
        assert m in multiset(u[1..]) + multiset{x};
      }
      assert forall k :: 0 <= k < |rest| ==> rest[k] in rest;
    }
  }

  /** Sorting by trigger keeps managed ids distinct. */
  lemma {:induction false} SortKeepsIds(s: seq<ManagedOrder>)
    requires DistinctIds(s)
    ensures DistinctIds(SortByTrigger(s))
  {
    if s != [] {
      var sorted := SortByTrigger(s[1..]);
      SortKeepsIds(s[1..]);
      forall k | 0 <= k < |sorted| ensures sorted[k].id != s[0].id {
        assert sorted[k] in multiset(s[1..]);
      }
      InsertKeepsIds(s[0], sorted);
    }
  }

  /** Sorting by trigger keeps every id below nextOrderId. */
  lemma SortKeepsBound(s: seq<ManagedOrder>, next: int)
    requires IdsBelow(s, next)
    ensures IdsBelow(SortByTrigger(s), next)
  {
    var sorted := SortByTrigger(s);
    forall k | 0 <= k < |sorted| ensures sorted[k].id < next {
      assert sorted[k] in multiset(s);
    }
  }
}
