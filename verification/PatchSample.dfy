/**
 A state on which the v5.2.0 patch applies and pays, so that the hypotheses of the
 other results are met together, and one on which a second call patches again.
 */
module PatchSample {
  import opened Dec
  import opened Rewards
  import opened RefCounts
  import opened Distribution
  import opened ValPatch
  import opened ValPatchProofs
  import opened SecondPass

  /** One token, one delegation whose recorded stake is one unit too high, seven coins of running rewards. */
  function SampleVal(del: string, d: Denom): Val {
    Val(1, ONE, map[del := ONE], map[0 := Hist(map[], 2)], map[d := 7 * ONE], 1,
        map[d := 9 * ONE], map[del := Start(0, ONE + 1, 3)], [])
  }

  function SampleEnv(): Env { Env(5, map[], {}, "") }

  function SampleState(val: string, del: string, d: Denom): State {
    State(map[val := SampleVal(del, d)], map[], map[d := 9], map[])
  }

  /** With exact counts to start from, the patch applies to the delegation and pays it the seven coins. */
  lemma SamplePatch(val: string, del: string, d: Denom)
    ensures RefsOk(SampleState(val, del, d), {})
    ensures var r := StepVisit(SampleEnv(), SampleState(val, del, d), Delegation(val, del));
            && r.Stepped? && r.patched
            && Amount(AccountOf(r.st, del), d) == 7
            && val in r.st.vals && Amount(r.st.vals[val].outstanding, d) == 2 * ONE
  {
    hide RefInv, Amount, AccountOf, SampleVal, PatchWithShares;
    SampleRefs(del, d);
    SampleVisit(val, del, d);
  }

  lemma SampleVisit(val: string, del: string, d: Denom)
    ensures var r := PatchWithShares(SampleEnv(), SampleState(val, del, d), val, del, ONE);
            && r.Stepped? && r.patched
            && Amount(AccountOf(r.st, del), d) == 7
            && val in r.st.vals && Amount(r.st.vals[val].outstanding, d) == 2 * ONE
  {
    hide Calculate, Withdraw, StartDelegation, EndPeriod, Add, RefInv, Amount, SampleVal, PatchWithShares;
    SampleRefs(del, d);
    SampleEnds(del, d);
    SampleCalculation(del, d);
    SamplePayment(val, del, d);
    PatchApplies(SampleEnv(), SampleState(val, del, d), val, del, ONE, SampleEnded(val, del, d));
  }

  /** A visit whose four parts succeed. */
  lemma PatchApplies(env: Env, st: State, val: string, del: string, shares: nat, st1: State)
    requires val in st.vals && EndPeriod(st.vals[val]).PeriodEnded?
    requires st1 == st.(vals := st.vals[val := EndPeriod(st.vals[val]).v],
                        pool := Add(st.pool, EndPeriod(st.vals[val]).toPool))
    requires var c := Calculate(st1.vals[val], del, shares, st.vals[val].period, env.height); c.Done? && c.patched
    requires var w := Withdraw(env, st1, val, del, shares, st.vals[val].period);
             w.Paid? && val in w.st.vals && StartDelegation(w.st.vals[val], del, env.height).Started?
    ensures var w := Withdraw(env, st1, val, del, shares, st.vals[val].period);
            PatchWithShares(env, st, val, del, shares) ==
            Stepped(w.st.(vals := w.st.vals[val := StartDelegation(w.st.vals[val], del, env.height).v]), true)
  {
    hide Calculate, Withdraw, StartDelegation, EndPeriod, Add;
  }

  lemma SampleRefs(del: string, d: Denom)
    ensures RefInv(SampleVal(del, d))
    ensures SampleVal(del, d).delegations == map[del := ONE] && SampleVal(del, d).period == 1
    ensures del in SampleVal(del, d).starts
  {
    var v := SampleVal(del, d);
    assert StartsAt(v.starts, 0) == {del};
    forall p: nat | p != 0 ensures StartsAt(v.starts, p) == {} {}
    forall p: nat ensures SlashRefs(v.slashes, p) == 0 {}
  }

  lemma SampleEnds(del: string, d: Denom)
    ensures EndPeriod(SampleVal(del, d)).PeriodEnded?
    ensures var w := EndPeriod(SampleVal(del, d)).v;
            && w.delegations == map[del := ONE] && w.tokens == 1 && w.shares == ONE && w.slashes == []
            && w.period == 2 && w.starts == map[del := Start(0, ONE + 1, 3)] && w.outstanding == map[d := 9 * ONE]
            && RecordAt(w, 0).ratio == map[] && Ratio(w, 1, d) == 7 * ONE
  {
    hide Add, QuoDecTruncate, Covers;
  }

  lemma SampleStake(w: Val)
    requires w.tokens == 1 && w.shares == ONE
    ensures CurrentStake(w, ONE) == ONE && Margin(ONE) == 95_000_000_000_000_000
  {
  }

  lemma SampleCalculation(del: string, d: Denom)
    requires EndPeriod(SampleVal(del, d)).PeriodEnded?
    ensures var w := EndPeriod(SampleVal(del, d)).v;
            && Calculate(w, del, ONE, 1, 5).Done? && Calculate(w, del, ONE, 1, 5).patched
            && Amount(Calculate(w, del, ONE, 1, 5).rewards, d) == 7 * ONE
  {
    hide EndPeriod, SampleVal, CurrentStake, Margin, Add, Sub, MulDecTruncate, MulTruncate, Amount, RecordAt;
    var w := EndPeriod(SampleVal(del, d)).v;
    SampleEnds(del, d);
    SampleStake(w);
    SampleSegment(w, d);
    EmptyAmount(d);
  }

  lemma SampleSegment(w: Val, d: Denom)
    requires RecordAt(w, 0).ratio == map[] && Ratio(w, 1, d) == 7 * ONE
    ensures Between(w, 0, 1, ONE).Fine? && Amount(Between(w, 0, 1, ONE).rewards, d) == 7 * ONE
  {
  }

  /** The state in which the sample delegation is withdrawn. */
  function SampleEnded(val: string, del: string, d: Denom): State
    requires EndPeriod(SampleVal(del, d)).PeriodEnded?
  {
    var st := SampleState(val, del, d);
    var e := EndPeriod(SampleVal(del, d));
    st.(vals := st.vals[val := e.v], pool := Add(st.pool, e.toPool))
  }

  lemma SamplePayment(val: string, del: string, d: Denom)
    requires EndPeriod(SampleVal(del, d)).PeriodEnded?
    ensures var r := Withdraw(SampleEnv(), SampleEnded(val, del, d), val, del, ONE, 1);
            && r.Paid? && val in r.st.vals
            && Amount(AccountOf(r.st, del), d) == 7
            && var s := StartDelegation(r.st.vals[val], del, 5);
               s.Started? && Amount(s.v.outstanding, d) == 2 * ONE
  {
    hide Calculate, Withdraw, StartDelegation, EndPeriod, Add, RefInv, Amount, SampleVal, DropStart, RecordAt;
    SampleRefs(del, d);
    SampleEnds(del, d);
    SampleCalculation(del, d);
    var st, w := SampleEnded(val, del, d), EndPeriod(SampleVal(del, d)).v;
    RestartDrops(SampleVal(del, d), del);
    SamplePaid(st, val, del, d, w);
    SampleAmounts(st, val, del, d, w);
    var out := WithdrawVal(SampleEnv(), st, val, del, ONE, 1);
    SampleRestart(w, del, out);
  }

  lemma SamplePaid(st: State, val: string, del: string, d: Denom, w: Val)
    requires val in st.vals && st.vals[val] == w && del in w.starts && DropStart(w, del).Some?
    requires Calculate(w, del, ONE, 1, 5).Done? && Calculate(w, del, ONE, 1, 5).patched
    requires st.bal == map[d := 9] && w.outstanding == map[d := 9 * ONE]
    ensures Withdraw(SampleEnv(), st, val, del, ONE, 1).Paid?
  {
    hide Calculate, DropStart, Covers;
    SampleSend(st.bal, d, Calculate(w, del, ONE, 1, 5).rewards);
  }

  lemma SampleSend(bal: Coins, d: Denom, rewards: Coins)
    requires bal == map[d := 9]
    ensures Covers(bal, Whole(Intersect(rewards, map[d := 9 * ONE])))
  {
  }

  lemma SampleAmounts(st: State, val: string, del: string, d: Denom, w: Val)
    requires val in st.vals && st.vals[val] == w && st.accounts == map[]
    requires w.outstanding == map[d := 9 * ONE]
    requires Withdraw(SampleEnv(), st, val, del, ONE, 1).Paid?
    requires Calculate(w, del, ONE, 1, 5).Done? && Amount(Calculate(w, del, ONE, 1, 5).rewards, d) == 7 * ONE
    ensures var r := Withdraw(SampleEnv(), st, val, del, ONE, 1);
            && val in r.st.vals && Amount(r.st.vals[val].outstanding, d) == 2 * ONE
            && Amount(AccountOf(r.st, del), d) == 7
  {
    hide Calculate, Withdraw, Surplus;
    WithdrawConserves(SampleEnv(), st, val, del, ONE, 1, d);
  }

  lemma SampleRestart(w: Val, del: string, out: Coins)
    requires del in w.starts && DropStart(w, del).Some? && w.period == 2 && w.shares == ONE
    requires del in w.delegations && RecordAt(DropStart(w, del).value, 1).refs == 1
    ensures var s := StartDelegation(DropStart(w, del).value.(outstanding := out), del, 5);
            s.Started? && s.v.outstanding == out
  {
    hide Decrement;
  }

  // ---------------------------------------------------------------- patched again by a second pass

  /** No record holds a ratio: nothing was ever earned. */
  ghost predicate NoRatios(v: Val) { forall p: nat :: RecordAt(v, p).ratio == map[] }

  lemma ZeroCoins(c: Coins)
    requires forall d :: Amount(c, d) == 0
    ensures c == map[]
  {
    assert forall d :: d in c ==> Amount(c, d) > 0;
  }

  lemma AddNothing()
    ensures Add(map[], map[]) == map[]
  {
    ZeroCoins(Add(map[], map[]));
  }

  lemma GrowNothing(den: nat)
    requires den > 0
    ensures QuoDecTruncate(map[], den) == map[]
  {
    ZeroCoins(QuoDecTruncate(map[], den));
  }

  /** A period without rewards. */
  lemma EndsQuietly(v: Val)
    requires v.tokens > 0 && v.current == map[] && v.period >= 1 && RecordAt(v, v.period - 1).refs > 0 && NoRatios(v)
    ensures EndPeriod(v).PeriodEnded? && EndPeriod(v).toPool == map[]
    ensures Decrement(v.hist, v.period - 1).Some?
    ensures EndPeriod(v).v == v.(hist := Decrement(v.hist, v.period - 1).value[v.period := Hist(map[], 1)],
                                 period := v.period + 1)
    ensures NoRatios(EndPeriod(v).v)
  {
    hide Add, QuoDecTruncate, Covers;
    AddNothing();
    GrowNothing(v.tokens * ONE);
    assert RecordAt(v, v.period - 1).ratio == map[];
    forall p: nat ensures RecordAt(EndPeriod(v).v, p).ratio == map[] { assert RecordAt(v, p).ratio == map[]; }
  }

  /** With no ratios the calculation returns whenever the slashed stake is within the margin. */
  lemma CalculatesQuietly(v: Val, del: string, shares: nat, ending: nat, height: nat)
    requires NoRatios(v) && del in v.starts && v.starts[del].height != height && v.starts[del].stake >= 0
    requires v.shares > 0 && v.starts[del].period <= ending
    requires forall i :: 0 <= i < |v.slashes| ==> v.slashes[i].fraction <= ONE && v.slashes[i].period <= ending
    requires SlashOnly(v.starts[del], Events(v, v.starts[del], height)).0 <=
             CurrentStake(v, shares) + Margin(CurrentStake(v, shares))
    ensures Calculate(v, del, shares, ending, height).Done?
  {
    hide CurrentStake, Margin, SlashOnly, Events, Calculate;
    forall p: nat, q: nat | p <= q <= ending ensures Rising(v, p, q) {
      assert RecordAt(v, p).ratio == map[];
    }
    CalculateReturns(v, del, shares, ending, height);
  }

  /** Started at genesis with three units too much stake, and slashed by four units since. */
  function RevivedVal(del: string): Val {
    Val(1, ONE, map[del := ONE], map[0 := Hist(map[], 1), 1 := Hist(map[], 2)], map[], 2,
        map[], map[del := Start(0, ONE + 3, 0)], [Slash(2, 1, 4)])
  }

  function RevivedState(val: string, del: string): State { State(map[val := RevivedVal(del)], map[], map[], map[]) }

  function OnePass(val: string, del: string): seq<Visit> { [Delegation(val, del), Ghost(val)] }

  lemma RevivedStakes(start: Start)
    requires start == Start(0, ONE + 3, 0)
    ensures SlashOnly(start, EventsBetween([Slash(2, 1, 4)], 0, 5)) == (ONE - 2, 1)
    ensures SlashOnly(start, EventsBetween(SetSlash([Slash(2, 1, 4)], Slash(1, 3, 1)), 0, 5)) == (ONE + 1, 3)
  {
    var s := [Slash(2, 1, 4)];
    assert s[..0] == [];
    EventsSnoc([], s[0], 0, 5);
    EventsSnoc([], s[0], 0, 1);
    assert [] + s == s;
    SlashOnlySnoc(start, [], s[0]);
    GhostMasks(start, s, Slash(1, 3, 1), 5);
    SlashProducts();
  }

  lemma SlashProducts()
    ensures MulTruncate(ONE + 3, ONE - 4) == ONE - 2 && MulTruncate(ONE + 3, ONE - 1) == ONE + 1
  {
  }

  /** The validator after the first visit, and after the second pass ended one more period. */
  function FirstEnded(del: string): Val {
    RevivedVal(del).(hist := map[0 := Hist(map[], 1), 1 := Hist(map[], 1), 2 := Hist(map[], 1)], period := 3)
  }

  function SecondEnded(del: string): Val {
    GhostSlash(FirstEnded(del)).(
      hist := map[0 := Hist(map[], 1), 1 := Hist(map[], 1), 3 := Hist(map[], 1)],
      period := 4)
  }

  lemma RevivedEnds(del: string)
    ensures EndPeriod(RevivedVal(del)) == PeriodEnded(FirstEnded(del), map[])
    ensures EndPeriod(GhostSlash(FirstEnded(del))) == PeriodEnded(SecondEnded(del), map[])
    ensures NoRatios(FirstEnded(del)) && NoRatios(SecondEnded(del))
  {
    hide EndPeriod, SetSlash;
    EndsQuietly(RevivedVal(del));
    EndsQuietly(GhostSlash(FirstEnded(del)));
  }

  lemma RevivedCalculations(del: string)
    ensures var c := Calculate(FirstEnded(del), del, ONE, 2, 5); c.Done? && !c.patched
    ensures var c := Calculate(SecondEnded(del), del, ONE, 3, 5); c.Done? && c.patched
  {
    hide Calculate, EndPeriod, SlashOnly, EventsBetween, SetSlash, CurrentStake, Margin, NoRatios;
    var v, w := FirstEnded(del), SecondEnded(del);
    RevivedEnds(del);
    RevivedStakes(v.starts[del]);
    SampleStake(v);
    SampleStake(w);
    GhostFractions();
    CalculatesQuietly(v, del, ONE, 2, 5);
    CalculatesQuietly(w, del, ONE, 3, 5);
    PatchMargin(v, del, ONE, 2, 5);
    PatchMargin(w, del, ONE, 3, 5);
  }

  lemma GhostFractions()
    ensures SetSlash([Slash(2, 1, 4)], Slash(1, 3, 1)) == [Slash(1, 3, 1), Slash(2, 1, 4)]
  {
    assert [Slash(2, 1, 4)][..0] == [];
  }

  lemma RevivedPayment(st: State, val: string, del: string)
    requires val in st.vals && st.vals[val] == SecondEnded(del)
    ensures var r := Withdraw(SampleEnv(), st, val, del, ONE, 3);
            r.Paid? && val in r.st.vals && StartDelegation(r.st.vals[val], del, 5).Started?
  {
    hide Withdraw, DropStart, StartDelegation, SecondEnded;
    RevivedPaid(st, val, del);
    var out := WithdrawnVal(SampleEnv(), st, val, del, ONE, 3);
    RevivedRestart(del, out);
  }

  lemma RevivedPaid(st: State, val: string, del: string)
    requires val in st.vals && st.vals[val] == SecondEnded(del)
    ensures Withdraw(SampleEnv(), st, val, del, ONE, 3).Paid?
  {
    hide Calculate, SetSlash, Add, Change, Send, Recipient;
    RevivedCalculations(del);
    var rewards := Intersect(Calculate(SecondEnded(del), del, ONE, 3, 5).rewards, map[]);
    ZeroCoins(rewards);
    ZeroCoins(Whole(map[]));
  }

  lemma RevivedRestart(del: string, out: Coins)
    requires del in SecondEnded(del).starts && DropStart(SecondEnded(del), del).Some?
    ensures StartDelegation(DropStart(SecondEnded(del), del).value.(outstanding := out), del, 5).Started?
  {
    hide SetSlash, TruncatedStake;
  }

  /**
   From exact counts and events in store order, a first complete pass patches
   nothing and a second one at the same height patches and restarts the delegation.
   */
  lemma SecondPassPatchesAgain(val: string, del: string)
    ensures RefsOk(RevivedState(val, del), {}) && Ordered(RevivedVal(del).slashes)
    ensures var r1 := RunVisits(SampleEnv(), RevivedState(val, del), OnePass(val, del));
            && r1.Passed? && r1.count == 0
            && var r2 := RunVisits(SampleEnv(), r1.st, OnePass(val, del)); r2.Passed? && r2.count == 1
  {
    RevivedRefs(del);
    RevivedPasses(val, del);
  }

  lemma RevivedPasses(val: string, del: string)
    ensures var r1 := RunVisits(SampleEnv(), RevivedState(val, del), OnePass(val, del));
            && r1.Passed? && r1.count == 0
            && var r2 := RunVisits(SampleEnv(), r1.st, OnePass(val, del)); r2.Passed? && r2.count == 1
  {
    hide *;
    FirstRun(val, del);
    SecondRun(val, del);
  }

  /** The state between the passes. */
  function GhostedState(val: string, del: string): State {
    RevivedState(val, del).(vals := map[val := GhostSlash(FirstEnded(del))])
  }

  lemma FirstRun(val: string, del: string)
    ensures RunVisits(SampleEnv(), RevivedState(val, del), OnePass(val, del)) == Passed(GhostedState(val, del), 0)
  {
    hide RunVisits, StepVisit, GhostSlash, FirstEnded, RevivedVal, OnePass, SampleEnv;
    var s1 := FirstVisit(val, del);
    TwoVisits(RevivedState(val, del), val, del);
    assert s1.vals[val := GhostSlash(FirstEnded(del))] == map[val := GhostSlash(FirstEnded(del))];
  }

  lemma SecondRun(val: string, del: string)
    ensures var r := RunVisits(SampleEnv(), GhostedState(val, del), OnePass(val, del)); r.Passed? && r.count == 1
  {
    hide RunVisits, StepVisit, GhostSlash, FirstEnded, RevivedVal, OnePass, SampleEnv;
    var s2 := SecondVisit(val, del);
    TwoVisits(GhostedState(val, del), val, del);
  }

  lemma RevivedRefs(del: string)
    ensures RefInv(RevivedVal(del))
  {
    var v := RevivedVal(del);
    assert StartsAt(v.starts, 0) == {del};
    assert v.slashes[..0] == [];
    forall p: nat | p != 0 ensures StartsAt(v.starts, p) == {} {}
    forall p: nat ensures SlashRefs(v.slashes, p) == if p == 1 then 1 else 0 { assert SlashRefs([], p) == 0; }
  }

  lemma FirstVisit(val: string, del: string) returns (s: State)
    ensures StepVisit(SampleEnv(), RevivedState(val, del), Delegation(val, del)) == Stepped(s, false)
    ensures s == RevivedState(val, del).(vals := map[val := FirstEnded(del)])
  {
    hide Calculate, EndPeriod, SetSlash, Add;
    RevivedEnds(del);
    RevivedCalculations(del);
    AddNothing();
    s := RevivedState(val, del).(vals := map[val := FirstEnded(del)]);
    assert RevivedState(val, del).vals[val := FirstEnded(del)] == s.vals;
  }

  lemma SecondVisit(val: string, del: string) returns (s: State)
    ensures StepVisit(SampleEnv(), RevivedState(val, del).(vals := map[val := GhostSlash(FirstEnded(del))]),
                      Delegation(val, del)) == Stepped(s, true)
    ensures val in s.vals
  {
    hide Calculate, EndPeriod, SetSlash, Add, Withdraw, StartDelegation, PatchWithShares;
    RevivedEnds(del);
    RevivedCalculations(del);
    AddNothing();
    var st := RevivedState(val, del).(vals := map[val := GhostSlash(FirstEnded(del))]);
    var st1 := st.(vals := st.vals[val := SecondEnded(del)], pool := map[]);
    RevivedPayment(st1, val, del);
    PatchApplies(SampleEnv(), st, val, del, ONE, st1);
    s := PatchWithShares(SampleEnv(), st, val, del, ONE).st;
  }

  lemma TwoVisits(st: State, val: string, del: string)
    requires StepVisit(SampleEnv(), st, Delegation(val, del)).Stepped?
    requires val in StepVisit(SampleEnv(), st, Delegation(val, del)).st.vals
    ensures var o := StepVisit(SampleEnv(), st, Delegation(val, del));
            RunVisits(SampleEnv(), st, OnePass(val, del)) ==
            Passed(o.st.(vals := o.st.vals[val := GhostSlash(o.st.vals[val])]), if o.patched then 1 else 0)
  {
    hide PatchWithShares, GhostSlash;
    var xs := OnePass(val, del);
    assert xs[..1] == [Delegation(val, del)] && xs[..1][..0] == [];
    var one := [Delegation(val, del)];
    assert one[..0] == [] && RunVisits(SampleEnv(), st, []) == Passed(st, 0);
    assert RunVisits(SampleEnv(), st, one) ==
           (var o := StepVisit(SampleEnv(), st, Delegation(val, del)); Passed(o.st, if o.patched then 1 else 0));
  }
}
