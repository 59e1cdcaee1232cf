/**
 The v5.2.0 patch as a whole (app/upgrades/v520/patch.go): withdrawing a patched
 delegation, starting it again, and the pass over all validators and delegations.

 Staking, bank and distribution stores are one state; the bank is a contract (a
 send fails for a blocked recipient or an uncovered amount and then moves nothing).
 */
module Distribution {
  import opened Types
  import opened Dec
  import opened Rewards
  import opened RefCounts

  /** Block height, withdraw addresses, recipients the bank refuses, and the registered base denom, if any. */
  datatype Env = Env(height: nat, withdrawAddr: map<string, string>, blocked: set<string>, baseDenom: Denom)

  /** bal is the distribution module's account, in whole coins; pool and outstanding are decimals. */
  datatype State = State(vals: map<string, Val>, pool: Coins, bal: Coins, accounts: map<string, Coins>)

  datatype Error = EmptyDistInfo | SendFailed | NotFound

  datatype Payment = Paid(st: State, coins: Coins) | Failed(e: Error) | Crashed(why: Panic)

  // ---------------------------------------------------------------- withdrawing

  function Recipient(env: Env, del: string): string {
    if del in env.withdrawAddr then env.withdrawAddr[del] else del
  }

  function AccountOf(st: State, who: string): Coins { if who in st.accounts then st.accounts[who] else map[] }

  /** SendCoinsFromModuleToAccount; None is the error. */
  function Send(env: Env, st: State, to: string, coins: Coins): Option<State> {
    if to in env.blocked || !Covers(st.bal, coins) then None
    else Some(st.(bal := Sub(st.bal, coins), accounts := st.accounts[to := Add(AccountOf(st, to), coins)]))
  }

  /** CustomWithdrawDelegationRewards. */
  function Withdraw(env: Env, st: State, val: string, del: string, shares: nat, ending: nat): Payment
    requires val in st.vals
  {
    var v := st.vals[val];
    if del !in v.starts then Failed(EmptyDistInfo)
    else
      var res := Calculate(v, del, shares, ending, env.height);
      if res.Panicked? then Crashed(res.why)
      else if !res.patched then Crashed(NotPatched)
      else
        var rewards := Intersect(res.rewards, v.outstanding);
        var sent := if Whole(rewards) == map[] then Some(st) else Send(env, st, Recipient(env, del), Whole(rewards));
        if sent.None? then Failed(SendFailed)
        else
          var dropped := DropStart(v, del);
          if dropped.None? then Crashed(RefUnderflow)
          else
            var w := dropped.value.(outstanding := Sub(v.outstanding, rewards));
            Paid(sent.value.(vals := st.vals[val := w], pool := Add(st.pool, Change(rewards))), Whole(rewards))
  }

  /** The state the reference-count panic interrupts: coins sent, outstanding rewards and pool updated. */
  function HalfSettled(env: Env, st: State, val: string, del: string, rewards: Coins): State
    requires val in st.vals && Covers(st.vals[val].outstanding, rewards)
  {
    var sent := if Whole(rewards) == map[] then Some(st) else Send(env, st, Recipient(env, del), Whole(rewards));
    var v := st.vals[val];
    (if sent.Some? then sent.value else st).(
      vals := st.vals[val := v.(outstanding := Sub(v.outstanding, rewards))],
      pool := Add(st.pool, Change(rewards)))
  }

  ghost predicate HalfWithdrawn(env: Env, st: State, end: State, val: string, del: string, shares: nat, ending: nat)
    requires val in st.vals
  {
    var c := Calculate(st.vals[val], del, shares, ending, env.height);
    && c.Done?
    && Covers(st.vals[val].outstanding, Intersect(c.rewards, st.vals[val].outstanding))
    && end == HalfSettled(env, st, val, del, Intersect(c.rewards, st.vals[val].outstanding))
  }

  const DEFAULT_BOND_DENOM := "stake"

  /** The coins a withdrawal reports: when nothing was paid, one zero coin of the base denom. */
  function Reported(env: Env, paid: Coins): map<Denom, int> {
    if paid == map[] then map[(if env.baseDenom == "" then DEFAULT_BOND_DENOM else env.baseDenom) := 0] else paid
  }

  /** What is reported is what was paid, in every denom, and never an empty list. */
  lemma ReportedIsPaid(env: Env, paid: Coins, d: Denom)
    ensures var r := Reported(env, paid);
            && (if d in r then r[d] == Amount(paid, d) else Amount(paid, d) == 0)
            && (r.Keys == paid.Keys || (paid == map[] && |r.Keys| == 1))
  {
    if paid == map[] {
      var base := if env.baseDenom == "" then DEFAULT_BOND_DENOM else env.baseDenom;
      assert Reported(env, paid).Keys == {base};
    }
  }

  /** Per denom: module balance less everything promised, in units of 10^-18. */
  ghost function Surplus(st: State, d: Denom): int {
    Amount(st.bal, d) * ONE - Promised(st.vals, d) - Amount(st.pool, d)
  }

  /** The module account covers, in every denom, all it has promised. */
  ghost predicate Solvent(st: State) { forall d: Denom :: Surplus(st, d) >= 0 }

  /** Outstanding rewards over all validators. */
  ghost function Promised(vals: map<string, Val>, d: Denom): nat { SumOf(Outs(vals, d)) }

  ghost function Outs(vals: map<string, Val>, d: Denom): map<string, nat> {
    map k | k in vals :: Amount(vals[k].outstanding, d)
  }

  ghost function Pick(m: map<string, nat>): string
    requires m != map[]
    ensures Pick(m) in m
  {
    var k :| k in m; k
  }

  ghost function SumOf(m: map<string, nat>): nat
    decreases |m|
  {
    if m == map[] then 0
    else
      assert (m - {Pick(m)}).Keys == m.Keys - {Pick(m)};
      m[Pick(m)] + SumOf(m - {Pick(m)})
  }

  lemma {:induction false} SumWithout(m: map<string, nat>, k: string)
    requires k in m
    ensures SumOf(m) == m[k] + SumOf(m - {k})
    decreases |m|
  {
    var j := Pick(m);
    if j != k {
      var mj, mk := m - {j}, m - {k};
      assert mj.Keys == m.Keys - {j} && mk.Keys == m.Keys - {k};
      SumWithout(mj, k);
      SumWithout(mk, j);
      assert mj - {k} == mk - {j};
    }
  }

  lemma SumUpdate(m: map<string, nat>, k: string, x: nat)
    requires k in m
    ensures SumOf(m[k := x]) == SumOf(m) - m[k] + x
  {
    SumWithout(m, k);
    SumWithout(m[k := x], k);
    assert m[k := x] - {k} == m - {k};
  }

  lemma OutsUpdate(vals: map<string, Val>, k: string, v: Val, d: Denom)
    ensures Outs(vals[k := v], d) == Outs(vals, d)[k := Amount(v.outstanding, d)]
  {
    hide Amount;
  }

  lemma PromisedUpdate(vals: map<string, Val>, k: string, v: Val, d: Denom)
    requires k in vals
    ensures Promised(vals[k := v], d) ==
            Promised(vals, d) - Amount(vals[k].outstanding, d) + Amount(v.outstanding, d)
  {
    hide SumOf, Amount;
    OutsUpdate(vals, k, v, d);
    SumUpdate(Outs(vals, d), k, Amount(v.outstanding, d));
  }

  /** What a successful withdrawal leaves, in terms of the rewards it settled. */
  lemma WithdrawShape(env: Env, st: State, val: string, del: string, shares: nat, ending: nat)
    returns (rewards: Coins, w: Val)
    requires val in st.vals && Withdraw(env, st, val, del, shares, ending).Paid?
    ensures var Paid(end, coins) := Withdraw(env, st, val, del, shares, ending);
            && Calculate(st.vals[val], del, shares, ending, env.height).Done?
            && rewards == Intersect(Calculate(st.vals[val], del, shares, ending, env.height).rewards,
                                    st.vals[val].outstanding)
            && Covers(st.vals[val].outstanding, rewards)
            && del !in w.starts
            && end.vals == st.vals[val := w] && w.outstanding == Sub(st.vals[val].outstanding, rewards)
            && end.pool == Add(st.pool, Change(rewards)) && coins == Whole(rewards)
            && (if coins == map[] then end.bal == st.bal && end.accounts == st.accounts
                else
                  && Covers(st.bal, coins) && end.bal == Sub(st.bal, coins)
                  && end.accounts == st.accounts[Recipient(env, del) := Add(AccountOf(st, Recipient(env, del)), coins)])
  {
    hide Calculate, Covers, Add, Sub, Intersect, Whole, Change, Decrement;
    var v := st.vals[val];
    rewards := Intersect(Calculate(v, del, shares, ending, env.height).rewards, v.outstanding);
    IntersectCovered(Calculate(v, del, shares, ending, env.height).rewards, v.outstanding);
    w := Withdraw(env, st, val, del, shares, ending).st.vals[val];
  }

  /**
   Withdrawal conserves value, per denom: outstanding rewards fall by the calculated
   rewards as far as they cover them, which is exactly the coins paid plus the
   remainder the community pool gains; the paid coins move from the module account
   to the recipient, the starting info is gone, and the surplus stays what it was.
   */
  lemma WithdrawConserves(env: Env, st: State, val: string, del: string, shares: nat, ending: nat, d: Denom)
    requires val in st.vals && Withdraw(env, st, val, del, shares, ending).Paid?
    ensures var Paid(end, coins) := Withdraw(env, st, val, del, shares, ending);
            && val in end.vals && end.vals.Keys == st.vals.Keys && del !in end.vals[val].starts
            && Calculate(st.vals[val], del, shares, ending, env.height).Done?
            && Amount(st.vals[val].outstanding, d) - Amount(end.vals[val].outstanding, d) ==
               Min(Amount(Calculate(st.vals[val], del, shares, ending, env.height).rewards, d),
                   Amount(st.vals[val].outstanding, d))
            && Amount(st.vals[val].outstanding, d) - Amount(end.vals[val].outstanding, d) ==
               Amount(coins, d) * ONE + (Amount(end.pool, d) - Amount(st.pool, d))
            && 0 <= Amount(end.pool, d) - Amount(st.pool, d) < ONE
            && Amount(st.bal, d) - Amount(end.bal, d) == Amount(coins, d)
            && (var to := if del in env.withdrawAddr then env.withdrawAddr[del] else del;
                && Amount(AccountOf(end, to), d) == Amount(AccountOf(st, to), d) + Amount(coins, d)
                && (forall a :: a != to ==> AccountOf(end, a) == AccountOf(st, a)))
            && (forall w :: w in st.vals && w != val ==> end.vals[w] == st.vals[w])
            && Surplus(end, d) == Surplus(st, d)
  {
    hide Withdraw, Promised, Covers, Add, Sub, Whole, Change, Amount, Calculate, Intersect, Min, AccountOf;
    var rewards, w := WithdrawShape(env, st, val, del, shares, ending);
    PromisedUpdate(st.vals, val, w, d);
    SplitAmount(Amount(rewards, d));
    SendAmounts(env, st, Withdraw(env, st, val, del, shares, ending).st, Recipient(env, del), Whole(rewards), d);
  }

  /** Solvency covers any one validator's outstanding rewards, in whole coins. */
  lemma SolventCovers(st: State, val: string, rewards: Coins)
    requires Solvent(st) && val in st.vals && Covers(st.vals[val].outstanding, rewards)
    ensures Covers(st.bal, Whole(rewards))
  {
    hide Whole, Amount, SumOf;
    forall d | d in Whole(rewards) ensures Amount(Whole(rewards), d) <= Amount(st.bal, d) {
      assert Surplus(st, d) >= 0;
      SumWithout(Outs(st.vals, d), val);
      CoveredAmount(st.vals[val].outstanding, rewards, d);
      WholeFits(Amount(rewards, d), Amount(st.vals[val].outstanding, d), Amount(st.bal, d));
    }
  }

  lemma CoveredAmount(a: Coins, b: Coins, d: Denom)
    requires Covers(a, b)
    ensures Amount(b, d) <= Amount(a, d)
  {
  }

  lemma WholeFits(x: nat, y: nat, bal: nat)
    requires x <= y <= bal * ONE
    ensures x / ONE <= bal
  {
    DivLe(x, bal);
  }

  /**
   Every way a withdrawal ends other than in payment: without starting info an error; on
   a panic of the calculation that panic; for a delegation that is not patched its own
   panic; otherwise a failed send or the reference-count panic.
   */
  lemma WithdrawOutcomes(env: Env, st: State, val: string, del: string, shares: nat, ending: nat)
    requires val in st.vals
    ensures var r := Withdraw(env, st, val, del, shares, ending);
            var c := Calculate(st.vals[val], del, shares, ending, env.height);
            && (r == Failed(EmptyDistInfo) <==> del !in st.vals[val].starts)
            && (del in st.vals[val].starts && c.Panicked? ==> r == Crashed(c.why))
            && (c.Done? && !c.patched ==> r == Crashed(NotPatched))
            && (c.Done? && c.patched ==>
                  || r.Paid? || r == Failed(SendFailed)
                  || (r == Crashed(RefUnderflow) && DropStart(st.vals[val], del).None?))
  {
    hide Between, WalkEvents, CurrentStake, Margin, Send, Sub, Add, Whole, Change, Intersect, Decrement;
  }

  /** A withdrawal with starting info fails only at the bank; from a solvent state only for a recipient it refuses. */
  lemma WithdrawFails(env: Env, st: State, val: string, del: string, shares: nat, ending: nat)
    requires val in st.vals && del in st.vals[val].starts
    requires Withdraw(env, st, val, del, shares, ending).Failed?
    ensures Withdraw(env, st, val, del, shares, ending).e == SendFailed
    ensures Solvent(st) ==> Recipient(env, del) in env.blocked
  {
    hide Calculate, Solvent, Covers, DropStart, Sub, Add, Change, Recipient, Intersect, Whole;
    var earned := Calculate(st.vals[val], del, shares, ending, env.height).rewards;
    var rewards := Intersect(earned, st.vals[val].outstanding);
    IntersectCovered(earned, st.vals[val].outstanding);
    if Solvent(st) { SolventCovers(st, val, rewards); }
  }

  /** What sending coins, or sending none, does to the two balances. */
  lemma SendAmounts(env: Env, st: State, end: State, to: string, coins: Coins, d: Denom)
    requires if coins == map[] then end.bal == st.bal && end.accounts == st.accounts
             else
               && Covers(st.bal, coins) && end.bal == Sub(st.bal, coins)
               && end.accounts == st.accounts[to := Add(AccountOf(st, to), coins)]
    ensures Amount(st.bal, d) - Amount(end.bal, d) == Amount(coins, d)
    ensures Amount(AccountOf(end, to), d) == Amount(AccountOf(st, to), d) + Amount(coins, d)
    ensures forall a :: a != to ==> AccountOf(end, a) == AccountOf(st, a)
  {
    hide Covers, Add, Sub, Amount;
    EmptyAmount(d);
  }

  lemma EmptyAmount(d: Denom)
    ensures Amount(map[], d) == 0
  {
  }

  lemma IntersectCovered(a: Coins, b: Coins)
    ensures Covers(b, Intersect(a, b))
  {
  }

  lemma SplitAmount(x: nat)
    ensures x == x / ONE * ONE + x % ONE && 0 <= x % ONE < ONE
  {
  }
}
