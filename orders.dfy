/** The order side of main.py as values: the broker's contract and order records as the
    core fills them in, signals, managed orders, the duplicate check, the two builders,
    and the ordering by trigger used before the GO/NO-GO pass. */
module Orders {
  import opened Wrappers

  datatype ComboLeg = ComboLeg(conId: int, ratio: int, action: string, exchange: string)

  datatype Contract = Contract(symbol: string, secType: string, currency: string, exchange: string,
                               comboLegs: seq<ComboLeg>)

  /** A price condition on the trigger instrument: active once its price is more than `price`. */
  datatype PriceCondition = PriceCondition(conId: int, exchange: string, isMore: bool, price: real,
                                           triggerMethod: int)

  /** The broker's order record; None stands for a price field left unset. */
  datatype Order = Order(action: string, totalQuantity: int, tif: string, transmit: bool,
                         orderType: string, account: string,
                         lmtPrice: Option<real>, auxPrice: Option<real>,
                         conditions: seq<PriceCondition>, eTradeOnly: bool, firmQuoteOnly: bool)

  /** A normalised signal as main.py reads it. */
  datatype Signal = Signal(expiry: string, lcStrike: real, scStrike: real, triggerPrice: real,
                           orderType: string, lmtPrice: Option<real>, stopPrice: Option<real>,
                           snapMidOffset: Option<real>)

  /** An order this session placed; its id and its order's `transmit` change later. */
  datatype ManagedOrder = ManagedOrder(id: int, trigger: real, lcStrike: real, scStrike: real,
                                       contract: Contract, order: Order)

  /** One entry of the broker's open/filled order list, a dictionary read with `get`:
      None for a missing key. */
  datatype ExistingOrder = ExistingOrder(orderId: Option<int>, secType: Option<string>,
                                         legConIds: Option<seq<int>>, triggerPrice: Option<real>)

  /** The configuration values the builders read. */
  datatype Config = Config(underlyingSymbol: string, account: string, snapMidOffset: real)

  // ---- sorting leg ids ----

  predicate IsSorted(s: seq<int>) {
    forall i, j :: 0 <= i < j < |s| ==> s[i] <= s[j]
  }

  function InsertInt(x: int, s: seq<int>): (r: seq<int>)
    requires IsSorted(s)
    ensures multiset(r) == multiset(s) + multiset{x}
    ensures |r| == |s| + 1 && (r[0] == x || (s != [] && r[0] == s[0]))
    ensures IsSorted(r)
  {
    if s == [] || x <= s[0] then
      ConsSorted(x, s);
      [x] + s
    else
      SortedTail(s);
      var rest := InsertInt(x, s[1..]);
      ConsSorted(s[0], rest);
      assert multiset([s[0]] + rest) == multiset(s) + multiset{x} by {
        assert s == [s[0]] + s[1..];
      }
      [s[0]] + rest
  }

  lemma SortedTail(s: seq<int>)
    requires IsSorted(s) && s != []
    ensures IsSorted(s[1..]) && forall j :: 0 <= j < |s| - 1 ==> s[0] <= s[1..][j]
  {
  }

  /** A value no greater than the head of a sorted list can go in front of it. */
  lemma ConsSorted(h: int, s: seq<int>)
    requires IsSorted(s) && (s != [] ==> h <= s[0])
    ensures IsSorted([h] + s)
  {
    assert forall j :: 0 <= j < |s| ==> h <= s[0] <= s[j];
  }

  /** Python's `sorted()` on a list of conIds. */
  function SortInts(s: seq<int>): (r: seq<int>)
    ensures IsSorted(r) && multiset(r) == multiset(s)
  {
    if s == [] then []
    else
      assert s == [s[0]] + s[1..];
      InsertInt(s[0], SortInts(s[1..]))
  }

  lemma SortPair(a: int, b: int)
    ensures SortInts([a, b]) == if a <= b then [a, b] else [b, a]
  {
    assert [a, b][1..] == [b];
    assert [b][1..] == [];
  }

  // ---- duplicate detection ----

  /** `[leg.conId for leg in contract.comboLegs]` */
  function LegConIds(c: Contract): (ids: seq<int>)
    ensures |ids| == |c.comboLegs|
    ensures forall i :: 0 <= i < |ids| ==> ids[i] == c.comboLegs[i].conId
  {
    seq(|c.comboLegs|, i requires 0 <= i < |c.comboLegs| => c.comboLegs[i].conId)
  }

  /** A broker order matches: a combo whose leg conIds, as listed, equal `legIds`, at the same trigger. */
  predicate ExistingMatches(legIds: seq<int>, trigger: real, o: ExistingOrder) {
    o.secType == Some("BAG") && o.legConIds.GetOr([]) == legIds && o.triggerPrice == Some(trigger)
  }

  /** A managed order matches: its sorted leg conIds equal `legIds`, at the same trigger. */
  predicate ManagedMatches(legIds: seq<int>, trigger: real, mo: ManagedOrder) {
    SortInts(LegConIds(mo.contract)) == legIds && mo.trigger == trigger
  }

  /** The first loop of `is_duplicate_order`. */
  function AnyExistingMatch(legIds: seq<int>, trigger: real, existing: seq<ExistingOrder>): (r: bool)
    ensures r <==> exists i :: 0 <= i < |existing| && ExistingMatches(legIds, trigger, existing[i])
  {
    if existing == [] then false
    else if ExistingMatches(legIds, trigger, existing[0]) then true
    else
      var r := AnyExistingMatch(legIds, trigger, existing[1..]);
      assert forall i :: 1 <= i < |existing| ==> existing[i] == existing[1..][i - 1];
      r
  }

  /** The second loop of `is_duplicate_order`. */
  function AnyManagedMatch(legIds: seq<int>, trigger: real, managed: seq<ManagedOrder>): (r: bool)
    ensures r <==> exists j :: 0 <= j < |managed| && ManagedMatches(legIds, trigger, managed[j])
  {
    if managed == [] then false
    else if ManagedMatches(legIds, trigger, managed[0]) then true
    else
      var r := AnyManagedMatch(legIds, trigger, managed[1..]);
      assert forall j :: 1 <= j < |managed| ==> managed[j] == managed[1..][j - 1];
      r
  }

  /** `is_duplicate_order(leg_ids, trigger_price, existing_orders, managed_orders)`: true
      exactly when a broker order or a managed order matches. */
  function IsDuplicateOrder(legIds: seq<int>, trigger: real, existing: seq<ExistingOrder>,
                            managed: seq<ManagedOrder>): (r: bool)
    ensures r <==> ((exists i :: 0 <= i < |existing| && ExistingMatches(legIds, trigger, existing[i]))
                    || (exists j :: 0 <= j < |managed| && ManagedMatches(legIds, trigger, managed[j])))
  {
    AnyExistingMatch(legIds, trigger, existing) || AnyManagedMatch(legIds, trigger, managed)
  }

  /** How many broker and managed orders match (the counting form of the check). */
  function DuplicateCount(legIds: seq<int>, trigger: real, existing: seq<ExistingOrder>,
                          managed: seq<ManagedOrder>): nat
  {
    CountExisting(legIds, trigger, existing) + CountManaged(legIds, trigger, managed)
  }

  function CountExisting(legIds: seq<int>, trigger: real, existing: seq<ExistingOrder>): nat {
    if existing == [] then 0
    else (if ExistingMatches(legIds, trigger, existing[0]) then 1 else 0)
         + CountExisting(legIds, trigger, existing[1..])
  }

  function CountManaged(legIds: seq<int>, trigger: real, managed: seq<ManagedOrder>): nat {
    if managed == [] then 0
    else (if ManagedMatches(legIds, trigger, managed[0]) then 1 else 0)
         + CountManaged(legIds, trigger, managed[1..])
  }

  /** The shown check is the counting check with one allowed order: some match exists
      exactly when the count reaches 1. */
  lemma DuplicateCountAgrees(legIds: seq<int>, trigger: real, existing: seq<ExistingOrder>,
                             managed: seq<ManagedOrder>)
    ensures DuplicateCount(legIds, trigger, existing, managed) >= 1
            <==> IsDuplicateOrder(legIds, trigger, existing, managed)
  {
    CountExistingPositive(legIds, trigger, existing);
    CountManagedPositive(legIds, trigger, managed);
  }

  lemma {:induction false} CountExistingPositive(legIds: seq<int>, trigger: real, existing: seq<ExistingOrder>)
    ensures CountExisting(legIds, trigger, existing) >= 1 <==> AnyExistingMatch(legIds, trigger, existing)
  {
    if existing != [] {
      CountExistingPositive(legIds, trigger, existing[1..]);
    }
  }

  lemma {:induction false} CountManagedPositive(legIds: seq<int>, trigger: real, managed: seq<ManagedOrder>)
    ensures CountManaged(legIds, trigger, managed) >= 1 <==> AnyManagedMatch(legIds, trigger, managed)
  {
    if managed != [] {
      CountManagedPositive(legIds, trigger, managed[1..]);
    }
  }

  /** Broker orders are compared with their legs as listed, managed orders after sorting:
      a broker order whose legs are listed in descending conId order is not recognised,
      while a managed order with the same legs is. */
  lemma ExistingLegOrderMatters(lo: int, hi: int, trigger: real, mo: ManagedOrder)
    requires lo < hi
    requires LegConIds(mo.contract) == [hi, lo] && mo.trigger == trigger
    ensures !IsDuplicateOrder(SortInts([lo, hi]), trigger,
                              [ExistingOrder(None, Some("BAG"), Some([hi, lo]), Some(trigger))], [])
    ensures IsDuplicateOrder(SortInts([lo, hi]), trigger, [], [mo])
  {
    SortPair(lo, hi);
    SortPair(hi, lo);
    assert ManagedMatches(SortInts([lo, hi]), trigger, [mo][0]);
  }

  // ---- builders ----

  /** `build_combo_contract(lc_conid, sc_conid)`: a two-leg combo that buys one long call and
      sells one short call, both routed SMART. */
  function BuildComboContract(cfg: Config, lcConId: int, scConId: int): (c: Contract)
    ensures c.secType == "BAG" && c.symbol == cfg.underlyingSymbol
    ensures c.currency == "USD" && c.exchange == "SMART"
    ensures |c.comboLegs| == 2
    ensures forall leg :: leg in c.comboLegs ==> leg.ratio == 1 && leg.exchange == "SMART"
    ensures c.comboLegs[0].action == "BUY" && c.comboLegs[0].conId == lcConId
    ensures c.comboLegs[1].action == "SELL" && c.comboLegs[1].conId == scConId
    ensures LegConIds(c) == [lcConId, scConId]
  {
    Contract(cfg.underlyingSymbol, "BAG", "USD", "SMART",
             [ComboLeg(lcConId, 1, "BUY", "SMART"), ComboLeg(scConId, 1, "SELL", "SMART")])
  }

  datatype OrderError = LmtNeedsLimitPrice | StpNeedsStopPrice | StpLmtNeedsBothPrices

  /** The order-type table: which types need which price on the signal. */
  predicate MissingRequiredPrice(s: Signal) {
    || (s.orderType == "LMT" && s.lmtPrice.None?)
    || (s.orderType == "STP" && s.stopPrice.None?)
    || (s.orderType == "STP LMT" && (s.lmtPrice.None? || s.stopPrice.None?))
  }

  /** The one condition every staged order carries: price above the signal's trigger. */
  function TriggerCondition(triggerConId: int, trigger: real): PriceCondition {
    PriceCondition(triggerConId, "CBOE", true, trigger, 0)
  }

  /** `build_staged_order(signal, trigger_conid)`. */
  function BuildStagedOrder(cfg: Config, s: Signal, triggerConId: int): (r: Result<Order, OrderError>)
    ensures r.Failure? <==> MissingRequiredPrice(s)
    ensures r.Success? ==>
      var o := r.value;
      && o.action == "BUY" && o.totalQuantity == 1 && o.tif == "DAY" && !o.transmit
      && o.orderType == s.orderType && o.account == cfg.account
      && o.conditions == [TriggerCondition(triggerConId, s.triggerPrice)]
      && !o.eTradeOnly && !o.firmQuoteOnly
    ensures r.Success? ==>
      r.value.lmtPrice == (if s.orderType == "LMT" || s.orderType == "STP LMT" then s.lmtPrice else None)
    ensures r.Success? ==>
      r.value.auxPrice == (if s.orderType == "STP" || s.orderType == "STP LMT" then s.stopPrice
                           else if s.orderType == "SNAP MID" then Some(s.snapMidOffset.GetOr(cfg.snapMidOffset))
                           else None)
  {
    var base := Order("BUY", 1, "DAY", false, s.orderType, cfg.account, None, None, [], true, true);
    var priced :=
      if s.orderType == "LMT" then
        if s.lmtPrice.None? then Failure(LmtNeedsLimitPrice) else Success(base.(lmtPrice := s.lmtPrice))
      else if s.orderType == "STP" then
        if s.stopPrice.None? then Failure(StpNeedsStopPrice) else Success(base.(auxPrice := s.stopPrice))
      else if s.orderType == "STP LMT" then
        if s.lmtPrice.None? || s.stopPrice.None? then Failure(StpLmtNeedsBothPrices)
        else Success(base.(lmtPrice := s.lmtPrice, auxPrice := s.stopPrice))
      else if s.orderType == "SNAP MID" then
        if s.snapMidOffset.Some? then Success(base.(auxPrice := s.snapMidOffset))
        else Success(base.(auxPrice := Some(cfg.snapMidOffset)))
      else
        Success(base);
    match priced
    case Failure(e) => Failure(e)
    case Success(o) =>
      Success(o.(conditions := o.conditions + [TriggerCondition(triggerConId, s.triggerPrice)],
                 eTradeOnly := false, firmQuoteOnly := false))
  }

  // ---- ordering by trigger ----

  predicate SortedByTrigger(s: seq<ManagedOrder>) {
    forall i, j :: 0 <= i < j < |s| ==> s[i].trigger <= s[j].trigger
  }

  /** Insert before the first order whose trigger is not below: earlier orders with an equal
      trigger stay ahead, as in a stable sort. */
  function InsertByTrigger(x: ManagedOrder, s: seq<ManagedOrder>): (r: seq<ManagedOrder>)
    requires SortedByTrigger(s)
    ensures multiset(r) == multiset(s) + multiset{x}
    ensures |r| == |s| + 1 && (r[0] == x || (s != [] && r[0] == s[0]))
    ensures SortedByTrigger(r)
  {
    if s == [] || x.trigger <= s[0].trigger then
      ConsSortedByTrigger(x, s);
      [x] + s
    else
      SortedByTriggerTail(s);
      var rest := InsertByTrigger(x, s[1..]);
      ConsSortedByTrigger(s[0], rest);
      assert multiset([s[0]] + rest) == multiset(s) + multiset{x} by {
        assert s == [s[0]] + s[1..];
      }
      [s[0]] + rest
  }

  lemma SortedByTriggerTail(s: seq<ManagedOrder>)
    requires SortedByTrigger(s) && s != []
    ensures SortedByTrigger(s[1..]) && forall j :: 0 <= j < |s| - 1 ==> s[0].trigger <= s[1..][j].trigger
  {
  }

  /** An order no later than the head of a sorted list can go in front of it. */
  lemma ConsSortedByTrigger(h: ManagedOrder, s: seq<ManagedOrder>)
    requires SortedByTrigger(s) && (s != [] ==> h.trigger <= s[0].trigger)
    ensures SortedByTrigger([h] + s)
  {
    assert forall j :: 0 <= j < |s| ==> h.trigger <= s[0].trigger <= s[j].trigger;
  }

  /** `managed_orders.sort(key=lambda x: x.trigger)` */
  function SortByTrigger(s: seq<ManagedOrder>): (r: seq<ManagedOrder>)
    ensures SortedByTrigger(r) && multiset(r) == multiset(s)
  {
    if s == [] then []
    else
      assert s == [s[0]] + s[1..];
      InsertByTrigger(s[0], SortByTrigger(s[1..]))
  }

  /** The orders with trigger `t`, in order. */
  function WithTrigger(s: seq<ManagedOrder>, t: real): seq<ManagedOrder> {
    if s == [] then [] else (if s[0].trigger == t then [s[0]] else []) + WithTrigger(s[1..], t)
  }

  lemma {:induction false} InsertByTriggerStable(x: ManagedOrder, s: seq<ManagedOrder>, t: real)
    requires SortedByTrigger(s)
    ensures WithTrigger(InsertByTrigger(x, s), t) == (if x.trigger == t then [x] else []) + WithTrigger(s, t)
  {
    if s != [] && x.trigger > s[0].trigger {
      SortedByTriggerTail(s);
      InsertByTriggerStable(x, s[1..], t);
      var rest := InsertByTrigger(x, s[1..]);
      WithTriggerCons(s[0], rest, t);
      WithTriggerCons(s[0], s[1..], t);
      assert [s[0]] + s[1..] == s;
    } else {
      WithTriggerCons(x, s, t);
    }
  }

  lemma WithTriggerCons(h: ManagedOrder, s: seq<ManagedOrder>, t: real)
    ensures WithTrigger([h] + s, t) == (if h.trigger == t then [h] else []) + WithTrigger(s, t)
  {
    assert ([h] + s)[1..] == s;
  }

  /** The sort is stable: among orders with equal triggers the original order is kept. */
  lemma {:induction false} SortByTriggerStable(s: seq<ManagedOrder>, t: real)
    ensures WithTrigger(SortByTrigger(s), t) == WithTrigger(s, t)
  {
    if s != [] {
      SortByTriggerStable(s[1..], t);
      InsertByTriggerStable(s[0], SortByTrigger(s[1..]), t);
    }
  }
}
