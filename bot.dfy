/** The bot's session as an object: the connection's nextOrderId and error ids, the managed
    order list, the failed-conId backlog and the calls made on the connection, updated in
    place the way main.py updates them. Every method is proved to perform the transition
    Pipeline defines on the same state. */
module Bot {
  import opened Wrappers
  import opened Retry
  import opened Orders
  import opened Pipeline

  class Bot {
    var nextOrderId: int
    var managed: seq<ManagedOrder>
    var failed: seq<BacklogEntry>
    var errorIds: seq<int>
    var log: seq<Action>

    function State(): BotState
      reads this
    {
      BotState(nextOrderId, managed, failed, errorIds, log)
    }

    predicate Valid()
      reads this
    {
      Inv(State())
    }

    /** A session whose connection reported `firstId` as the next valid order id. The
        failed-conId backlog is a module-level list that outlives a session, so a new
        session starts with whatever backlog the process already holds. */
    constructor (firstId: int, backlog: seq<BacklogEntry>)
      requires DistinctKeys(backlog)
      ensures State() == BotState(firstId, [], backlog, [], [])
      ensures Valid()
    {
      nextOrderId, managed, failed, errorIds, log := firstId, [], backlog, [], [];
    }

    /** The start-up adjustment: continue above the highest id among the broker's orders. */
    method AdjustNextOrderId(existing: seq<ExistingOrder>)
      requires Valid()
      modifies this
      ensures State() == old(State()).(nextOrderId := AdjustedNextId(old(nextOrderId), existing))
      ensures Valid()
    {
      if existing != [] {
        var maxExisting := MaxOrderId(existing);
        if maxExisting >= nextOrderId {
          nextOrderId := maxExisting + 1;
        }
      }
    }

    /** `stage_order`: take the next id, place the order held for review, and return the
        managed order for the caller to append. */
    method StageOrder(s: Signal, contract: Contract, order: Order) returns (mo: ManagedOrder)
      modifies this
      ensures mo == Staged(old(nextOrderId), s, contract, order)
      ensures State() == old(State()).(nextOrderId := old(nextOrderId) + 1,
                                       log := old(log) + [Place(mo.id, contract, order)])
    {
      var orderId := nextOrderId;
      nextOrderId := nextOrderId + 1;
      log := log + [Place(orderId, contract, order)];
      mo := Staged(orderId, s, contract, order);
    }

    /** The except branch of the staging loop. */
    method RecordFailedSignal(s: Signal)
      modifies this
      ensures State() == RecordFailure(old(State()), s)
    {
      if !InBacklog(failed, SignalKey(s)) {
        failed := failed + [(s, s.expiry)];
      }
    }

    /** `process_and_stage_new_signals`. */
    method ProcessAndStageNewSignals(signals: seq<Signal>, env: Env)
      requires Valid()
      modifies this
      ensures State() == StageAll(old(State()), env, signals)
      ensures Valid()
    {
      if signals == [] {
        return;
      }
      for i := 0 to |signals|
        invariant State() == StageAll(old(State()), env, signals[..i])
        invariant Valid()
      {
        assert signals[..i + 1][..i] == signals[..i];
        StageSignalInv(State(), env, signals[i]);
        ProcessSignal(signals[i], env);
      }
      assert signals[..|signals|] == signals;
    }

    /** The body of the staging loop for one signal. */
    method ProcessSignal(s: Signal, env: Env)
      modifies this
      ensures State() == StageSignal(old(State()), env, s)
    {
      var lc, lcTries := GetOptionConIdWithRetry(Lookups(env.resolve, s.expiry, s.lcStrike), 3);
      if lc.None? {
        RecordFailedSignal(s);
        return;
      }
      var sc, scTries := GetOptionConIdWithRetry(Lookups(env.resolve, s.expiry, s.scStrike), 3);
      if sc.None? {
        RecordFailedSignal(s);
        return;
      }
      var legIds := SortInts([lc.value, sc.value]);
      if IsDuplicateOrder(legIds, s.triggerPrice, env.existing, managed) {
        return;
      }
      var contract := BuildComboContract(env.cfg, lc.value, sc.value);
      var built := BuildStagedOrder(env.cfg, s, env.triggerConId);
      if built.Failure? {
        RecordFailedSignal(s);
        return;
      }
      assert StageOutcomeOf(env, managed, s) == Stage(lc.value, sc.value, built.value);
      var mo := StageOrder(s, contract, built.value);
      managed := managed + [mo];
    }

    /** `managed_orders.sort(key=lambda x: x.trigger)` */
    method SortManagedOrders()
      requires Valid()
      modifies this
      ensures State() == old(State()).(managed := SortByTrigger(old(managed)))
      ensures Valid()
    {
      SortKeepsIds(managed);
      SortKeepsBound(managed, nextOrderId);
      managed := SortByTrigger(managed);
    }

    /** `process_managed_orders`: at the opening price, cancel each NO-GO order and send each
        GO order again with transmit set, the managed order's own order object changed. */
    method ProcessManagedOrders(open: real)
      requires Valid()
      modifies this
      ensures managed == AfterDecisions(open, old(managed))
      ensures log == old(log) + Decisions(open, old(managed))
      ensures nextOrderId == old(nextOrderId) && failed == old(failed) && errorIds == old(errorIds)
      ensures Valid()
    {
      var i := 0;
      while i < |managed|
        invariant 0 <= i <= |managed| == |old(managed)|
        invariant forall k :: 0 <= k < i ==> managed[k] == AfterDecision(open, old(managed)[k])
        invariant forall k :: i <= k < |managed| ==> managed[k] == old(managed)[k]
        invariant log == old(log) + Decisions(open, old(managed)[..i])
        invariant nextOrderId == old(nextOrderId) && failed == old(failed) && errorIds == old(errorIds)
      {
        var mo := managed[i];
        if open >= mo.trigger {
          log := log + [Cancel(mo.id)];
        } else {
          var finalOrder := mo.order.(transmit := true);
          managed := managed[i := mo.(order := finalOrder)];
          log := log + [Place(mo.id, mo.contract, finalOrder)];
        }
        assert Decisions(open, old(managed)[..i + 1]) == Decisions(open, old(managed)[..i]) + [Decision(open, old(managed)[i])];
        i := i + 1;
      }
      assert old(managed)[..i] == old(managed);
      assert forall k :: 0 <= k < |managed| ==> managed[k].id == old(managed)[k].id;
    }

    /** The decision at the open: sort by trigger, then GO/NO-GO each order. */
    method DecideAtOpen(open: real)
      requires Valid()
      modifies this
      ensures managed == AfterDecisions(open, SortByTrigger(old(managed)))
      ensures log == old(log) + Decisions(open, SortByTrigger(old(managed)))
      ensures nextOrderId == old(nextOrderId) && failed == old(failed) && errorIds == old(errorIds)
      ensures Valid()
    {
      SortManagedOrders();
      ProcessManagedOrders(open);
    }

    /** The error retry over a snapshot of the error ids. */
    method RetryErrorOrders(live: real)
      requires Valid()
      modifies this
      ensures State() == ErrorPhase(old(State()), old(errorIds), live)
      ensures Valid()
    {
      var ids := errorIds;
      for k := 0 to |ids|
        invariant State() == ErrorPhase(old(State()), ids[..k], live)
        invariant Valid()
      {
        assert ids[..k + 1][..k] == ids[..k];
        ErrorEntryInv(State(), ids[k], live);
        RetryErrorId(ids[k], live);
      }
      assert ids[..|ids|] == ids;
    }

    /** One error id of the snapshot: drop it when no managed order carries it, otherwise
        re-send that order, transmitting, under a fresh id once the live price reaches its
        LC strike. */
    method RetryErrorId(errorId: int, live: real)
      modifies this
      ensures State() == ErrorEntryStep(old(State()), errorId, live)
    {
      var found := FirstWithId(managed, errorId);
      if found.None? {
        errorIds := RemoveFirst(errorIds, errorId);
        return;
      }
      var j := found.value;
      var mo := managed[j];
      if live >= mo.lcStrike {
        var newId := nextOrderId;
        nextOrderId := nextOrderId + 1;
        var order := mo.order.(transmit := true);
        log := log + [Place(newId, mo.contract, order)];
        managed := managed[j := mo.(id := newId, order := order)];
      }
    }

    /** One leg's lookup with its fallback strike. */
    method ResolveLeg(resolve: Resolver, expiry: string, strike: real, fallback: real) returns (r: Option<int>)
      ensures r == ResolveWithFallback(resolve, expiry, strike, fallback)
    {
      var tries;
      r, tries := GetOptionConIdWithRetry(Lookups(resolve, expiry, strike), 3);
      if r.None? {
        r, tries := GetOptionConIdWithRetry(Lookups(resolve, expiry, fallback), 3);
      }
    }

    /** The failed-conId retry over a snapshot of the backlog, popping by snapshot index. */
    method RetryFailedSignals(live: real, env: Env)
      requires Valid()
      modifies this
      ensures State() == BacklogPhase(old(State()), env, old(failed), |old(failed)|, live)
      ensures Valid()
    {
      var entries := failed;
      for idx := 0 to |entries|
        invariant State() == BacklogPhase(old(State()), env, entries, idx, live)
        invariant Valid()
      {
        BacklogEntryInv(State(), env, idx, entries[idx], live);
        RetryFailedSignal(idx, entries[idx], live, env);
      }
    }

    /** The lookups and checks of the backlog loop body for one entry: the live price gate,
        both legs with their fallbacks (the short leg only once the long leg resolved), the
        duplicate check against the managed orders and the order build. */
    method DecideEntry(env: Env, entry: BacklogEntry, live: real) returns (out: EntryOutcome)
      ensures out == EntryOutcomeOf(env, managed, entry, live)
    {
      var s, expiry := entry.0, entry.1;
      if live < s.lcStrike {
        return Stay;
      }
      var lc := ResolveLeg(env.resolve, expiry, s.lcStrike, s.lcStrike - 5.0);
      if lc.None? {
        assert ResolveLegs(env.resolve, entry).None?;
        return Stay;
      }
      var sc := ResolveLeg(env.resolve, expiry, s.scStrike, s.scStrike + 5.0);
      if sc.None? {
        assert ResolveLegs(env.resolve, entry).None?;
        return Stay;
      }
      assert ResolveLegs(env.resolve, entry) == Some((lc.value, sc.value));
      var legIds := SortInts([lc.value, sc.value]);
      if IsDuplicateOrder(legIds, s.triggerPrice, env.existing, managed) {
        return Drop;
      }
      var contract := BuildComboContract(env.cfg, lc.value, sc.value);
      var built := BuildStagedOrder(env.cfg, s, env.triggerConId);
      if built.Failure? {
        return Stay;
      }
      return Submit(contract, built.value.(transmit := true));
    }

    /** The body of the backlog loop for entry `idx` of the snapshot. */
    method RetryFailedSignal(idx: nat, entry: BacklogEntry, live: real, env: Env)
      modifies this
      ensures State() == BacklogEntryStep(old(State()), env, idx, entry, live)
    {
      var out := DecideEntry(env, entry, live);
      match out
      case Stay =>
      case Drop =>
        failed := PopAt(failed, idx);
      case Submit(contract, order) =>
        var orderId := nextOrderId;
        nextOrderId := nextOrderId + 1;
        log := log + [Place(orderId, contract, order)];
        failed := PopAt(failed, idx);
    }

    /** One iteration of `run_post_open_retry_loops` on the price snapshot `live`. */
    method RecoveryIteration(beforeClose: bool, live: Option<real>, env: Env) returns (outcome: StepOutcome)
      requires Valid()
      modifies this
      ensures (outcome, State()) == RecoveryPass(old(State()), env, beforeClose, live)
      ensures Valid()
    {
      if !(beforeClose && (errorIds != [] || failed != [])) {
        return Concluded;
      }
      var allLcStrikes := ErrorStrikes(managed, errorIds) + BacklogStrikes(failed);
      if allLcStrikes == [] || live.None? {
        return StatusPrintUnbound;
      }
      var lowest := MinOf(allLcStrikes);
      if live.value < lowest {
        return BelowLowestStrike;
      }
      if errorIds != [] {
        RetryErrorOrders(live.value);
      }
      if failed != [] {
        RetryFailedSignals(live.value, env);
      }
      return Acted;
    }
  }
}
