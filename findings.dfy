/** Two places where main.py does not do what it evidently means to, each shown on a
    concrete state, next to the behaviour it was meant to have. */
module Findings {
  import opened Wrappers
  import opened Retry
  import opened Orders
  import opened Pipeline

  // ---- 1. the backlog pop uses the snapshot index on the shrinking list ----

  /** A broker on which every option lookup succeeds at once, with conId 7. */
  function AlwaysSeven(): Resolver {
    (expiry: string, strike: real, attempt: nat) => Some(7)
  }

  lemma SevenResolves(expiry: string, strike: real)
    ensures ResolveConId(AlwaysSeven(), expiry, strike) == Some(7)
  {
    FirstSuccessIs(Lookups(AlwaysSeven(), expiry, strike), 3, 1);
  }

  function Env0(): Env {
    Env(AlwaysSeven(), [], 1, Config("SPX", "DU1", 0.1))
  }

  /** A market signal for the spread lc/lc+10 triggering at lc+5. */
  function MarketSignal(lc: real): Signal {
    Signal("20250101", lc, lc + 10.0, lc + 5.0, "MKT", None, None, None)
  }

  function Entry(lc: real): BacklogEntry {
    (MarketSignal(lc), "20250101")
  }

  /** With no managed orders and a live price at or above its LC strike, a market signal
      is submitted; below it, it stays. */
  lemma EntryOutcomes(lc: real, live: real)
    ensures live >= lc ==> EntryOutcomeOf(Env0(), [], Entry(lc), live).Submit?
    ensures live < lc ==> EntryOutcomeOf(Env0(), [], Entry(lc), live).Stay?
  {
    SevenResolves("20250101", lc);
    SevenResolves("20250101", lc + 10.0);
    assert ResolveLegs(AlwaysSeven(), Entry(lc)) == Some((7, 7));
    assert !IsDuplicateOrder(SortInts([7, 7]), lc + 5.0, [], []);
  }

  /** The three market signals A, B, C at LC strikes 5900, 5920 and 6000, with the live
      price at 5950: A and B are sent, C stays. */
  lemma ThreeEntryBacklog()
    ensures EntryOutcomeOf(Env0(), [], Entry(5900.0), 5950.0).Submit?
    ensures EntryOutcomeOf(Env0(), [], Entry(5920.0), 5950.0).Submit?
    ensures EntryOutcomeOf(Env0(), [], Entry(6000.0), 5950.0).Stay?
  {
    EntryOutcomes(5900.0, 5950.0);
    EntryOutcomes(5920.0, 5950.0);
    EntryOutcomes(6000.0, 5950.0);
  }

  /** Their backlog keys are distinct, as the backlog keeps them. */
  lemma ThreeEntryKeys()
    ensures DistinctKeys([Entry(5900.0), Entry(5920.0), Entry(6000.0)])
  {
  }

  lemma AppendTwo<T>(l: seq<T>, x: T, y: T)
    ensures l + [x] + [y] == l + [x, y]
  {
  }

  /** Popping [x, y, z] at 0 and then at 1 leaves [y]. */
  lemma PopsOfThree<T>(x: T, y: T, z: T)
    ensures PopAt([x, y, z], 0) == [y, z] && PopAt([y, z], 1) == [y]
  {
    assert [x, y, z][1..] == [y, z];
    assert [y, z][..1] == [y];
  }

  /** The prefixes of [x, y, z]. */
  lemma PrefixesOfThree<T>(x: T, y: T, z: T)
    ensures var l := [x, y, z];
            l[..3] == l && l[..2] == [x, y] && l[..2][..1] == [x] && l[..1] == [x] && l[..1][..0] == []
  {
  }

  /** One more entry of the snapshot. */
  lemma PhaseUnfold(st: BotState, env: Env, es: seq<BacklogEntry>, n: nat, live: real)
    requires n < |es|
    ensures BacklogPhase(st, env, es, n + 1, live)
            == BacklogEntryStep(BacklogPhase(st, env, es, n, live), env, n, es[n], live)
  {
  }

  /** A submitted entry is placed under the next id and popped at `idx`. */
  lemma SubmitStep(s: BotState, env: Env, idx: nat, e: BacklogEntry, live: real, c: Contract, o: Order)
    requires EntryOutcomeOf(env, s.managed, e, live) == Submit(c, o)
    ensures BacklogEntryStep(s, env, idx, e, live)
            == s.(nextOrderId := s.nextOrderId + 1, log := s.log + [Place(s.nextOrderId, c, o)],
                  failed := PopAt(s.failed, idx))
  {
  }

  /** An entry that stays changes nothing. */
  lemma StayStep(s: BotState, env: Env, idx: nat, e: BacklogEntry, live: real)
    requires EntryOutcomeOf(env, s.managed, e, live).Stay?
    ensures BacklogEntryStep(s, env, idx, e, live) == s
  {
  }

  /** A backlog [a, b, c] where a and b are sent and c is not, as with `ThreeEntryBacklog`.
      As written, a is sent and popped at 0, leaving [b, c]; b is sent and popped at 1, which
      removes c. c stays, so no pop is made for it. b stays in the backlog although it was
      sent, so the next pass sends it again; c is removed by b's pop although it was never
      sent. */
  lemma PopByIndexKeepsSentEntry(st: BotState, env: Env, a: BacklogEntry, b: BacklogEntry, c: BacklogEntry, live: real)
    requires st.failed == [a, b, c]
    requires EntryOutcomeOf(env, st.managed, a, live).Submit? && EntryOutcomeOf(env, st.managed, b, live).Submit?
    requires EntryOutcomeOf(env, st.managed, c, live).Stay?
    ensures BacklogPhase(st, env, st.failed, 3, live).failed == [b]
    ensures var ra, rb := EntryOutcomeOf(env, st.managed, a, live), EntryOutcomeOf(env, st.managed, b, live);
            BacklogPhase(st, env, st.failed, 3, live).log
            == st.log + [Place(st.nextOrderId, ra.contract, ra.order), Place(st.nextOrderId + 1, rb.contract, rb.order)]
  {
    var es := st.failed;
    var ra, rb := EntryOutcomeOf(env, st.managed, a, live), EntryOutcomeOf(env, st.managed, b, live);
    var s1 := st.(nextOrderId := st.nextOrderId + 1, log := st.log + [Place(st.nextOrderId, ra.contract, ra.order)],
                  failed := [b, c]);
    assert BacklogPhase(st, env, es, 0, live) == st;
    assert es[0] == a && es[1] == b && es[2] == c;
    PopsOfThree(a, b, c);
    PhaseUnfold(st, env, es, 0, live);
    SubmitStep(st, env, 0, a, live, ra.contract, ra.order);
    assert BacklogPhase(st, env, es, 1, live) == s1;
    var s2 := s1.(nextOrderId := s1.nextOrderId + 1, log := s1.log + [Place(s1.nextOrderId, rb.contract, rb.order)],
                  failed := [b]);
    PhaseUnfold(st, env, es, 1, live);
    SubmitStep(s1, env, 1, b, live, rb.contract, rb.order);
    assert BacklogPhase(st, env, es, 2, live) == s2;
    PhaseUnfold(st, env, es, 2, live);
    StayStep(s2, env, 2, c, live);
    assert BacklogPhase(st, env, es, 3, live) == s2;
    assert s2.log == st.log + [Place(st.nextOrderId, ra.contract, ra.order), Place(st.nextOrderId + 1, rb.contract, rb.order)] by {
      AppendTwo(st.log, Place(st.nextOrderId, ra.contract, ra.order), Place(st.nextOrderId + 1, rb.contract, rb.order));
    }
  }

  /** On the same backlog, popping each handled entry at its current position leaves exactly
      the entry that was not sent. */
  lemma FixedPopKeepsUnsentEntry(st: BotState, env: Env, a: BacklogEntry, b: BacklogEntry, c: BacklogEntry, live: real)
    requires st.failed == [a, b, c] && DistinctKeys(st.failed)
    requires EntryOutcomeOf(env, st.managed, a, live).Submit? && EntryOutcomeOf(env, st.managed, b, live).Submit?
    requires EntryOutcomeOf(env, st.managed, c, live).Stay?
    ensures BacklogPhaseFixed(st, env, st.failed, 3, live).failed == [c]
  {
    var es := st.failed;
    FixedPhaseKeepsUnhandled(st, env, live);
    PrefixesOfThree(a, b, c);
    assert Unhandled(env, st.managed, es[..1], live) == [];
    assert Unhandled(env, st.managed, es[..2], live) == [];
  }

  // ---- 2. the waiting branch reads last_status_print before assigning it ----

  /** As written, an iteration with work pending but nothing actionable raises: right after
      the open, while the live price stream has not delivered a price, the loop ends on its
      first iteration. */
  lemma WaitingBranchRaises(s: Signal)
    ensures var st := BotState(100, [], [(s, s.expiry)], [], []);
            RecoveryPass(st, Env0(), true, None).0 == StatusPrintUnbound
  {
  }

  /** The intended wait: print the status when more than 30 seconds have passed since the
      last print, and remember when it printed. */
  function StatusWait(lastPrint: real, now: real): (r: (bool, real))
    ensures r.0 <==> now - lastPrint > 30.0
    ensures r.1 == if r.0 then now else lastPrint
  {
    if now - lastPrint > 30.0 then (true, now) else (false, lastPrint)
  }

  /** The times at which a run of waits prints, starting from `lastPrint`. */
  function WaitPrints(lastPrint: real, times: seq<real>): seq<real>
    decreases times
  {
    if times == [] then []
    else
      var r := StatusWait(lastPrint, times[0]);
      (if r.0 then [times[0]] else []) + WaitPrints(r.1, times[1..])
  }

  /** With the wait as intended, prints are more than 30 seconds apart, whatever the clock. */
  lemma {:induction false} WaitPrintsThrottled(lastPrint: real, times: seq<real>)
    decreases times
    ensures var p := WaitPrints(lastPrint, times);
            && (|p| > 0 ==> p[0] > lastPrint + 30.0)
            && forall i :: 0 < i < |p| ==> p[i] > p[i - 1] + 30.0
  {
    if times != [] {
      var r := StatusWait(lastPrint, times[0]);
      WaitPrintsThrottled(r.1, times[1..]);
    }
  }
}
