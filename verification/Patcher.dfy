/**
 The patch as it is written (app/upgrades/v520/patch.go): keeper stores updated
 in place, nested loops over validators and delegations, early returns and panics.
 Each method is tied to the functions the guarantees are proved about.
 */
module Patcher {
  import opened Types
  import opened Dec
  import opened Rewards
  import opened RefCounts
  import opened Distribution
  import opened ValPatch
  import opened ValPatchProofs
  import opened SecondPass
  import opened PatchSample

  datatype Answer = Good(coins: map<Denom, int>) | Fail(e: Error) | Crash(why: Panic)

  datatype Report = Completed(count: nat) | Aborted(err: Error) | Panicking(panic: Panic)

  /** Some order over a set of names, each once. */
  method Enumerate(names: set<string>) returns (out: seq<string>)
    ensures forall n :: n in out <==> n in names
    ensures forall i, j :: 0 <= i < j < |out| ==> out[i] != out[j]
  {
    out := [];
    var rest := names;
    while rest != {}
      invariant rest <= names
      invariant forall n :: n in out <==> n in names && n !in rest
      invariant forall i, j :: 0 <= i < j < |out| ==> out[i] != out[j]
      decreases rest
    {
      var n :| n in rest;
      out := out + [n];
      rest := rest - {n};
    }
  }

  /** A pass that visited everything there was, with the ghost event last on the one validator that gets it. */
  ghost predicate Complete(st: State, xs: seq<Visit>) {
    && (forall val, del :: val in st.vals && del in st.vals[val].delegations ==> Delegation(val, del) in xs)
    && Ghosted(xs) == (if PatchVal1() in st.vals then {PatchVal1()} else {})
    && GhostsLast(xs)
  }

  class Keepers {
    const env: Env
    var vals: map<string, Val>
    var pool: Coins
    var bal: Coins
    var accounts: map<string, Coins>

    constructor (env: Env, st: State)
      ensures this.env == env && St() == st
    {
      this.env := env;
      vals, pool, bal, accounts := st.vals, st.pool, st.bal, st.accounts;
    }

    function St(): State reads this { State(vals, pool, bal, accounts) }

    /** x/distribution's IncrementValidatorPeriod: ends the running period and returns its number. */
    method IncrementValidatorPeriod(val: string) returns (r: Option<Panic>, ending: nat)
      requires val in vals
      modifies this
      ensures ending == old(vals[val].period)
      ensures var e := EndPeriod(old(vals[val]));
              && (e.PeriodPanic? ==> r == Some(e.why) && St() == old(St()))
              && (e.PeriodEnded? ==>
                    r == None && St() == old(St()).(vals := old(vals)[val := e.v], pool := Add(old(pool), e.toPool)))
    {
      hide EndPeriod, Add;
      ending := vals[val].period;
      var e := EndPeriod(vals[val]);
      if e.PeriodPanic? {
        return Some(e.why), ending;
      }
      vals := vals[val := e.v];
      pool := Add(pool, e.toPool);
      r := None;
    }

    method SendCoinsFromModule(to: string, coins: Coins) returns (ok: bool)
      modifies this
      ensures ok == Send(env, old(St()), to, coins).Some?
      ensures St() == if ok then Send(env, old(St()), to, coins).value else old(St())
    {
      hide Add, Sub, Covers;
      if to in env.blocked || !Covers(bal, coins) {
        return false;
      }
      bal := Sub(bal, coins);
      accounts := accounts[to := Add(if to in accounts then accounts[to] else map[], coins)];
      ok := true;
    }

    method DecrementReferenceCount(val: string, period: nat) returns (ok: bool)
      requires val in vals
      modifies this`vals
      ensures ok == Decrement(old(vals[val]).hist, period).Some?
      ensures vals == if ok then old(vals)[val := old(vals[val]).(hist := Decrement(old(vals[val]).hist, period).value)]
                      else old(vals)
    {
      var historical := RecordAt(vals[val], period);
      if historical.refs == 0 {
        return false;
      }
      historical := historical.(refs := historical.refs - 1);
      var hist := vals[val].hist;
      if historical.refs == 0 {
        hist := hist - {period};
      } else {
        hist := hist[period := historical];
      }
      vals := vals[val := vals[val].(hist := hist)];
      ok := true;
    }

    /**
     CustomWithdrawDelegationRewards: a failed send leaves every store as it was, and so
     does every panic but the reference-count one, which finds the coins sent and the
     outstanding rewards and pool updated.
     */
    method WithdrawDelegationRewards(val: string, del: string, shares: nat, ending: nat) returns (r: Answer)
      requires val in vals
      modifies this
      ensures match Withdraw(env, old(St()), val, del, shares, ending)
              case Paid(st, coins) => r == Good(Reported(env, coins)) && St() == st
              case Failed(e) => r == Fail(e) && St() == old(St())
              case Crashed(why) =>
                && r == Crash(why)
                && (why != RefUnderflow ==> St() == old(St()))
                && (why == RefUnderflow ==> HalfWithdrawn(env, old(St()), St(), val, del, shares, ending))
    {
      hide Calculate, Covers, DropStart, Sub, Add, Intersect, Whole, Change;
      if del !in vals[val].starts {
        return Fail(EmptyDistInfo);
      }
      var res := CalculateDelegationRewards(vals[val], del, shares, ending, env.height);
      if res.Panicked? {
        CalculatePanics(vals[val], del, shares, ending, env.height);
        return Crash(res.why);
      }
      if !res.patched {
        return Crash(NotPatched);
      }
      var outstanding := vals[val].outstanding;
      var rewards := Intersect(res.rewards, outstanding);
      IntersectCovered(res.rewards, outstanding);
      var finalRewards, remainder := Whole(rewards), Change(rewards);
      if finalRewards != map[] {
        var sent := SendCoinsFromModule(Recipient(env, del), finalRewards);
        if !sent {
          return Fail(SendFailed);
        }
      }
      var ok := SettleRewards(val, del, rewards, remainder);
      if !ok {
        return Crash(RefUnderflow);
      }
      if finalRewards == map[] {
        var baseDenom := env.baseDenom;
        if baseDenom == "" {
          baseDenom := DEFAULT_BOND_DENOM;
        }
        return Good(map[baseDenom := 0]);
      }
      r := Good(finalRewards);
    }

    /** After the coins are sent: outstanding rewards, community pool, reference count and starting info. */
    method SettleRewards(val: string, del: string, rewards: Coins, remainder: Coins) returns (ok: bool)
      requires val in vals && del in vals[val].starts && Covers(vals[val].outstanding, rewards)
      modifies this
      ensures ok == DropStart(old(vals[val]), del).Some?
      ensures ok ==>
                var w := DropStart(old(vals[val]), del).value.(outstanding := Sub(old(vals[val]).outstanding, rewards));
                St() == old(St()).(vals := old(vals)[val := w], pool := Add(old(pool), remainder))
      ensures !ok ==>
                var w := old(vals[val]).(outstanding := Sub(old(vals[val]).outstanding, rewards));
                St() == old(St()).(vals := old(vals)[val := w], pool := Add(old(pool), remainder))
    {
      hide Covers, Decrement, Sub, Add;
      ghost var v0 := vals[val];
      ghost var v1 := v0.(outstanding := Sub(v0.outstanding, rewards));
      vals := vals[val := vals[val].(outstanding := Sub(vals[val].outstanding, rewards))];
      pool := Add(pool, remainder);
      var startingPeriod := vals[val].starts[del].period;
      ok := DecrementReferenceCount(val, startingPeriod);
      if !ok {
        return;
      }
      ghost var v2 := v1.(hist := Decrement(v0.hist, startingPeriod).value);
      UpdateAgain(old(vals), val, v1, v2);
      vals := vals[val := vals[val].(starts := vals[val].starts - {del})];
      UpdateAgain(old(vals), val, v2, v2.(starts := v0.starts - {del}));
    }

    /** customInitializeDelegation. */
    method InitializeDelegation(val: string, del: string) returns (r: Answer)
      requires val in vals
      modifies this`vals
      ensures match StartDelegation(old(vals[val]), del, env.height)
              case Started(v) => r == Good(map[]) && vals == old(vals)[val := v]
              case NoDelegation => r == Fail(NotFound)
              case InitPanic(why) => r == Crash(why)
    {
      var previousPeriod := if vals[val].period == 0 then 0xffff_ffff_ffff_ffff else vals[val].period - 1;
      var historical := RecordAt(vals[val], previousPeriod);
      if historical.refs > 2 {
        return Crash(RefOverflow);
      }
      historical := historical.(refs := historical.refs + 1);
      vals := vals[val := vals[val].(hist := vals[val].hist[previousPeriod := historical])];
      if del !in vals[val].delegations {
        return Fail(NotFound);
      }
      if vals[val].shares == 0 {
        return Crash(NoShares);
      }
      var stake := TruncatedStake(vals[val], vals[val].delegations[del]);
      vals := vals[val := vals[val].(starts := vals[val].starts[del := Start(previousPeriod, stake, env.height)])];
      r := Good(map[]);
    }

    /** The body of the inner loop. */
    method VisitDelegation(val: string, del: string, shares: nat) returns (r: Answer, patched: bool)
      requires val in vals && del in vals[val].delegations && vals[val].delegations[del] == shares
      modifies this
      ensures match StepVisit(env, old(St()), Delegation(val, del))
              case Stepped(st, p) => r.Good? && patched == p && St() == st
              case StepFailed(e) => r == Fail(e)
              case StepCrashed(why) => r == Crash(why)
    {
      hide EndPeriod, Calculate, Withdraw, StartDelegation, Add;
      patched := false;
      if shares <= 0 {
        vals := vals[val := vals[val].(delegations := vals[val].delegations - {del})];
        return Good(map[]), false;
      }
      var panic, endingPeriod := IncrementValidatorPeriod(val);
      if panic.Some? {
        return Crash(panic.value), false;
      }
      var res := CalculateDelegationRewards(vals[val], del, shares, endingPeriod, env.height);
      if res.Panicked? {
        return Crash(res.why), false;
      }
      if !res.patched {
        return Good(map[]), false;
      }
      ghost var st1 := St();
      r := WithdrawDelegationRewards(val, del, shares, endingPeriod);
      if !r.Good? {
        return;
      }
      WithdrawKeepsVal(env, st1, val, del, shares, endingPeriod);
      r := InitializeDelegation(val, del);
      patched := r.Good?;
    }

    /** The inner loop for one validator, and the ghost event when it is the one that gets it. */
    method PatchValidator(val: string, count0: nat, ghost st0: State, ghost xs0: seq<Visit>)
      returns (r: Report, ghost xs: seq<Visit>)
      requires val in vals && RunVisits(env, st0, xs0) == Passed(St(), count0)
      modifies this
      ensures Reports(env, st0, xs, r, St())
      ensures r.Completed? ==>
                && SameOthers(old(vals), vals, val)
                && Extends(xs0, xs, val, old(vals[val]).delegations.Keys)
      ensures !r.Completed? ==> exists dels :: xs == xs0 + Visits(val, dels)
      ensures r.Aborted? ==> r.err == SendFailed
    {
      hide StepVisit, GhostSlash, RunVisits, PatchVal1, Extends, SameOthers, Visits, Solvent, Recipient, Visiting;
      var count := count0;
      var dels := Enumerate(vals[val].delegations.Keys);
      ghost var all := vals[val].delegations.Keys;
      xs := xs0;
      VisitingStart(env, st0, xs0, St(), count0, val, dels);
      for j := 0 to |dels|
        invariant Visiting(env, st0, xs0, xs, old(vals), St(), count, val, dels, j)
      {
        var del := dels[j];
        ghost var st, before := St(), xs;
        VisitingNext(env, st0, xs0, xs, old(vals), st, count, val, dels, j);
        var answer, patched := VisitDelegation(val, del, vals[val].delegations[del]);
        xs := xs + [Delegation(val, del)];
        match answer
        case Fail(e) =>
          return Aborted(e), xs;
        case Crash(why) =>
          return Panicking(why), xs;
        case Good(_) =>
          VisitingOn(env, st0, xs0, before, old(vals), st, count, val, dels, j);
          if patched {
            count := count + 1;
          }
      }
      VisitingEnd(env, st0, xs0, xs, old(vals), St(), count, val, dels);
      if val == PatchVal1() {
        RunSnoc(env, st0, xs, Ghost(val));
        GhostStep(env, St(), val);
        SameOthersUpdate(old(vals), vals, val, GhostSlash(vals[val]));
        vals := vals[val := GhostSlash(vals[val])];
        xs := xs + [Ghost(val)];
      }
      ExtendsByVisits(xs0, val, dels, all);
      r := Completed(count);
    }

    /**
     CustomValPatch. A completed call is a complete pass: every delegation of every
     validator was visited, in some order, and the state and the patch count are
     what the visits give; an error or panic is the one the visits run into. From
     exact reference counts it is never a reference-count panic nor the not-patched one;
     an error is always a failed send, from a solvent state to a recipient the bank refuses.
     */
    method CustomValPatch() returns (r: Report, ghost xs: seq<Visit>)
      modifies this
      ensures Reports(env, old(St()), xs, r, St()) && GhostsLast(xs)
      ensures r.Completed? ==> Complete(old(St()), xs)
      ensures r.Panicking? && RefsOk(old(St()), {}) ==> !Unreachable(r.panic)
      ensures r.Aborted? ==> r.err == SendFailed
      ensures r.Aborted? && Solvent(old(St())) ==>
                exists x :: x in xs && x.Delegation? && Recipient(env, x.del) in env.blocked
    {
      hide RunVisits, Complete, Covered, Extends, PatchVal1, Visits, GhostsLast, RefsOk, Unreachable, RefInv;
      hide SameOthers, Untouched, Solvent, Recipient;
      var allVals := Enumerate(vals.Keys);
      var count := 0;
      xs := [];
      RunNothing(env, St());
      CoveredNothing(vals, allVals);
      UntouchedStart(vals, allVals);
      for i := 0 to |allVals|
        invariant Untouched(old(vals), vals, allVals[i..])
        invariant RunVisits(env, old(St()), xs) == Passed(St(), count)
        invariant Covered(old(vals), allVals[..i], xs)
      {
        var val := allVals[i];
        ghost var before := xs;
        ghost var was := vals;
        UntouchedHead(old(vals), vals, allVals, i);
        var report;
        report, xs := PatchValidator(val, count, old(St()), xs);
        if !report.Completed? {
          StoppedReachably(env, old(St()), allVals, i, before, xs, report, St());
          return report, xs;
        }
        count := report.count;
        CoveredSnoc(old(vals), allVals, i, before, xs);
        UntouchedTail(old(vals), was, vals, allVals, i);
      }
      assert allVals[..|allVals|] == allVals;
      CoveredIsComplete(old(St()), allVals, xs);
      r := Completed(count);
    }
  }

  // ---------------------------------------------------------------- bookkeeping of the loops

  /** How a report reads in terms of the visits made. */
  ghost predicate Reports(env: Env, st0: State, xs: seq<Visit>, r: Report, st: State) {
    match r
    case Completed(n) => RunVisits(env, st0, xs) == Passed(st, n)
    case Aborted(e) => RunVisits(env, st0, xs) == PassFailed(e)
    case Panicking(why) => RunVisits(env, st0, xs) == PassCrashed(why)
  }

  ghost predicate SameOthers(before: map<string, Val>, after: map<string, Val>, val: string) {
    && before.Keys == after.Keys
    && (forall w :: w in before && w != val ==> after[w] == before[w])
  }

  /** The delegations still to come have not been removed. */
  ghost predicate StillThere(now: map<string, nat>, rest: seq<string>) { forall d :: d in rest ==> d in now }

  lemma StillThereStart(now: map<string, nat>, dels: seq<string>)
    requires forall d :: d in dels <==> d in now
    ensures StillThere(now, dels[0..])
  {
  }

  lemma StillThereHead(now: map<string, nat>, dels: seq<string>, j: nat)
    requires j < |dels| && StillThere(now, dels[j..])
    ensures dels[j] in now
  {
    assert dels[j] == dels[j..][0];
  }

  lemma StillThereTail(now: map<string, nat>, later: map<string, nat>, dels: seq<string>, j: nat)
    requires j < |dels| && StillThere(now, dels[j..]) && (later == now || later == now - {dels[j]})
    requires forall i, k :: 0 <= i < k < |dels| ==> dels[i] != dels[k]
    ensures StillThere(later, dels[j + 1..])
  {
    assert dels[j..] == [dels[j]] + dels[j + 1..];
  }

  /** The validators still to come are as they were. */
  ghost predicate Untouched(before: map<string, Val>, now: map<string, Val>, rest: seq<string>) {
    && before.Keys == now.Keys
    && (forall n :: n in rest ==> n in before && now[n] == before[n])
  }

  lemma UntouchedStart(vals: map<string, Val>, names: seq<string>)
    requires forall n :: n in names <==> n in vals
    ensures Untouched(vals, vals, names[0..])
  {
  }

  lemma UntouchedHead(before: map<string, Val>, now: map<string, Val>, names: seq<string>, i: nat)
    requires i < |names| && Untouched(before, now, names[i..])
    ensures names[i] in before && names[i] in now && now[names[i]] == before[names[i]]
  {
    assert names[i] == names[i..][0];
  }

  lemma UntouchedTail(before: map<string, Val>, mid: map<string, Val>, now: map<string, Val>, names: seq<string>,
                      i: nat)
    requires i < |names| && Untouched(before, mid, names[i..]) && SameOthers(mid, now, names[i])
    requires forall j, k :: 0 <= j < k < |names| ==> names[j] != names[k]
    ensures Untouched(before, now, names[i + 1..])
  {
    assert names[i..] == [names[i]] + names[i + 1..];
  }

  function Visits(val: string, dels: seq<string>): seq<Visit> {
    seq(|dels|, i requires 0 <= i < |dels| => Delegation(val, dels[i]))
  }

  /** xs continues xs0 with all delegations in `dels`, all on `val`, and the ghost event last if `val` gets it. */
  ghost predicate Extends(xs0: seq<Visit>, xs: seq<Visit>, val: string, dels: set<string>) {
    && |xs0| <= |xs| && xs[..|xs0|] == xs0
    && (forall del :: del in dels ==> Delegation(val, del) in xs)
    && (forall i :: |xs0| <= i < |xs| ==> xs[i].val == val)
    && (forall i :: |xs0| <= i < |xs| && xs[i].Ghost? ==> i == |xs| - 1 && val == PatchVal1())
    && (val == PatchVal1() ==> |xs0| < |xs| && xs[|xs| - 1] == Ghost(val))
  }

  /** Every delegation of the given validators was visited, only those validators were, ghosts last. */
  ghost predicate Covered(vals: map<string, Val>, names: seq<string>, xs: seq<Visit>) {
    && (forall val, del :: val in names && val in vals && del in vals[val].delegations ==> Delegation(val, del) in xs)
    && (forall i :: 0 <= i < |xs| ==> xs[i].val in names)
    && (forall i :: 0 <= i < |xs| && xs[i].Ghost? ==> xs[i].val == PatchVal1())
    && (PatchVal1() in names ==> Ghost(PatchVal1()) in xs)
    && GhostsLast(xs)
  }

  /** The inner loop after j delegations. */
  ghost predicate Visiting(env: Env, st0: State, xs0: seq<Visit>, xs: seq<Visit>, vals0: map<string, Val>, st: State,
                           count: nat, val: string, dels: seq<string>, j: nat)
    requires j <= |dels|
  {
    && val in st.vals && RunVisits(env, st0, xs) == Passed(st, count)
    && xs == xs0 + Visits(val, dels[..j])
    && SameOthers(vals0, st.vals, val)
    && StillThere(st.vals[val].delegations, dels[j..])
  }

  lemma VisitingStart(env: Env, st0: State, xs0: seq<Visit>, st: State, count: nat, val: string, dels: seq<string>)
    requires val in st.vals && RunVisits(env, st0, xs0) == Passed(st, count)
    requires forall d :: d in dels <==> d in st.vals[val].delegations
    ensures Visiting(env, st0, xs0, xs0, st.vals, st, count, val, dels, 0)
  {
    hide RunVisits;
    assert xs0 + Visits(val, dels[..0]) == xs0;
    StillThereStart(st.vals[val].delegations, dels);
  }

  /** The next delegation is there, and what the pass makes of visiting it. */
  lemma VisitingNext(env: Env, st0: State, xs0: seq<Visit>, xs: seq<Visit>, vals0: map<string, Val>, st: State,
                     count: nat, val: string, dels: seq<string>, j: nat)
    requires j < |dels| && Visiting(env, st0, xs0, xs, vals0, st, count, val, dels, j)
    ensures val in st.vals && dels[j] in st.vals[val].delegations
    ensures var x := Delegation(val, dels[j]);
            && xs + [x] == xs0 + Visits(val, dels[..j + 1])
            && (StepVisit(env, st, x).StepFailed? ==> RunVisits(env, st0, xs + [x]) == PassFailed(SendFailed))
            && (StepVisit(env, st, x).StepFailed? ==> StepVisit(env, st, x).e == SendFailed)
            && (StepVisit(env, st, x).StepCrashed? ==>
                  RunVisits(env, st0, xs + [x]) == PassCrashed(StepVisit(env, st, x).why))
  {
    hide StepVisit, RunVisits, Visits, StillThere, SameOthers, Solvent, Recipient;
    StillThereHead(st.vals[val].delegations, dels, j);
    RunSnoc(env, st0, xs, Delegation(val, dels[j]));
    VisitsSnoc(xs0, val, dels, j);
    if StepVisit(env, st, Delegation(val, dels[j])).StepFailed? { VisitFails(env, st, val, dels[j]); }
  }

  lemma VisitingOn(env: Env, st0: State, xs0: seq<Visit>, xs: seq<Visit>, vals0: map<string, Val>, st: State,
                   count: nat, val: string, dels: seq<string>, j: nat)
    requires j < |dels| && Visiting(env, st0, xs0, xs, vals0, st, count, val, dels, j)
    requires forall i, k :: 0 <= i < k < |dels| ==> dels[i] != dels[k]
    requires StepVisit(env, st, Delegation(val, dels[j])).Stepped?
    ensures var o := StepVisit(env, st, Delegation(val, dels[j]));
            Visiting(env, st0, xs0, xs + [Delegation(val, dels[j])], vals0, o.st,
                     count + (if o.patched then 1 else 0), val, dels, j + 1)
  {
    hide StepVisit, RunVisits, Visits, StillThere, SameOthers;
    var x := Delegation(val, dels[j]);
    var end := StepVisit(env, st, x).st;
    RunSnoc(env, st0, xs, x);
    VisitsSnoc(xs0, val, dels, j);
    StepOthers(env, st, x);
    SameOthersTrans(vals0, st.vals, end.vals, val);
    StepDelegations(env, st, val, dels[j]);
    StillThereTail(st.vals[val].delegations, end.vals[val].delegations, dels, j);
  }

  lemma VisitingEnd(env: Env, st0: State, xs0: seq<Visit>, xs: seq<Visit>, vals0: map<string, Val>, st: State,
                    count: nat, val: string, dels: seq<string>)
    requires Visiting(env, st0, xs0, xs, vals0, st, count, val, dels, |dels|)
    ensures val in st.vals && RunVisits(env, st0, xs) == Passed(st, count)
    ensures xs == xs0 + Visits(val, dels) && SameOthers(vals0, st.vals, val)
  {
    hide RunVisits, Visits, SameOthers;
    assert dels[..|dels|] == dels;
  }

  lemma SameOthersTrans(a: map<string, Val>, b: map<string, Val>, c: map<string, Val>, val: string)
    requires SameOthers(a, b, val) && SameOthers(b, c, val)
    ensures SameOthers(a, c, val)
  {
  }

  lemma SameOthersUpdate(a: map<string, Val>, b: map<string, Val>, val: string, v: Val)
    requires SameOthers(a, b, val) && val in b
    ensures SameOthers(a, b[val := v], val)
  {
  }

  lemma RunNothing(env: Env, st: State)
    ensures RunVisits(env, st, []) == Passed(st, 0)
  {
  }

  lemma RunSnoc(env: Env, st0: State, xs: seq<Visit>, x: Visit)
    requires RunVisits(env, st0, xs).Passed?
    ensures var before := RunVisits(env, st0, xs);
            RunVisits(env, st0, xs + [x]) ==
            match StepVisit(env, before.st, x)
            case StepFailed(e) => PassFailed(e)
            case StepCrashed(why) => PassCrashed(why)
            case Stepped(st, patched) => Passed(st, before.count + (if patched then 1 else 0))
  {
    hide StepVisit;
    assert (xs + [x])[..|xs|] == xs;
  }

  lemma VisitsSnoc(xs0: seq<Visit>, val: string, dels: seq<string>, j: nat)
    requires j < |dels|
    ensures xs0 + Visits(val, dels[..j]) + [Delegation(val, dels[j])] == xs0 + Visits(val, dels[..j + 1])
  {
    assert Visits(val, dels[..j]) + [Delegation(val, dels[j])] == Visits(val, dels[..j + 1]);
  }

  lemma ExtendsByVisits(xs0: seq<Visit>, val: string, dels: seq<string>, all: set<string>)
    requires forall d :: d in dels <==> d in all
    ensures var xs := xs0 + Visits(val, dels);
            Extends(xs0, if val == PatchVal1() then xs + [Ghost(val)] else xs, val, all)
  {
    hide PatchVal1;
    var xs := if val == PatchVal1() then xs0 + Visits(val, dels) + [Ghost(val)] else xs0 + Visits(val, dels);
    forall d | d in all ensures Delegation(val, d) in xs {
      var i :| 0 <= i < |dels| && dels[i] == d;
      assert xs[|xs0| + i] == Delegation(val, d);
    }
  }

  lemma StepOthers(env: Env, st: State, x: Visit)
    requires StepVisit(env, st, x).Stepped? && x.Delegation?
    ensures SameOthers(st.vals, StepVisit(env, st, x).st.vals, x.val)
  {
    hide PatchWithShares, GhostSlash;
    StepKeepsValidators(env, st, x);
    var v := st.vals[x.val];
    if v.delegations[x.del] != 0 { OthersUntouched(env, st, x.val, x.del, v.delegations[x.del]); }
  }

  lemma GhostStep(env: Env, st: State, val: string)
    requires val in st.vals
    ensures StepVisit(env, st, Ghost(val)) == Stepped(st.(vals := st.vals[val := GhostSlash(st.vals[val])]), false)
  {
    hide GhostSlash;
  }

  lemma CoveredNothing(vals: map<string, Val>, names: seq<string>)
    ensures Covered(vals, names[..0], [])
  {
  }

  lemma CoveredSnoc(vals: map<string, Val>, names: seq<string>, i: nat, xs0: seq<Visit>, xs: seq<Visit>)
    requires i < |names| && names[i] in vals
    requires forall j, k :: 0 <= j < k < |names| ==> names[j] != names[k]
    requires Covered(vals, names[..i], xs0) && Extends(xs0, xs, names[i], vals[names[i]].delegations.Keys)
    ensures Covered(vals, names[..i + 1], xs)
  {
    hide PatchVal1;
    var val := names[i];
    assert names[..i + 1] == names[..i] + [val];
    assert val !in names[..i];
    forall v, del | v in names[..i + 1] && v in vals && del in vals[v].delegations ensures Delegation(v, del) in xs {
      if v != val {
        assert Delegation(v, del) in xs0;
        var j :| 0 <= j < |xs0| && xs0[j] == Delegation(v, del);
        assert xs[..|xs0|][j] == Delegation(v, del);
      }
    }
    forall j | 0 <= j < |xs| ensures xs[j].val in names[..i + 1] {
      if j < |xs0| { assert xs[..|xs0|][j] == xs0[j]; }
    }
    forall j | 0 <= j < |xs| && xs[j].Ghost? ensures xs[j].val == PatchVal1() {
      if j < |xs0| { assert xs[..|xs0|][j] == xs0[j]; }
    }
    if PatchVal1() in names[..i] {
      var j :| 0 <= j < |xs0| && xs0[j] == Ghost(PatchVal1());
      assert xs[..|xs0|][j] == Ghost(PatchVal1());
    }
    forall j, k | 0 <= j < k < |xs| && xs[j].Ghost? && xs[k].Delegation? ensures xs[j].val != xs[k].val {
      if k < |xs0| {
        assert xs[..|xs0|][j] == xs0[j] && xs[..|xs0|][k] == xs0[k];
      } else if j < |xs0| {
        assert xs[..|xs0|][j] == xs0[j];
      }
    }
  }

  lemma StoppedReachably(env: Env, st: State, names: seq<string>, i: nat, xs0: seq<Visit>, xs: seq<Visit>,
                         r: Report, end: State)
    requires i < |names| && Covered(st.vals, names[..i], xs0)
    requires forall j, k :: 0 <= j < k < |names| ==> names[j] != names[k]
    requires exists dels :: xs == xs0 + Visits(names[i], dels)
    requires Reports(env, st, xs, r, end)
    requires r.Aborted? ==> r.err == SendFailed
    ensures GhostsLast(xs)
    ensures r.Panicking? && RefsOk(st, {}) ==> !Unreachable(r.panic)
    ensures r.Aborted? && Solvent(st) ==>
              exists x :: x in xs && x.Delegation? && Recipient(env, x.del) in env.blocked
  {
    hide RunVisits, RefsOk, Unreachable, PatchVal1, Solvent, Recipient;
    assert names[i] !in names[..i];
    if RefsOk(st, {}) { PassKeepsRefs(env, st, xs); }
    if r.Aborted? && Solvent(st) { PassFailsOnlyBlocked(env, st, xs); }
  }

  lemma CoveredIsComplete(st: State, names: seq<string>, xs: seq<Visit>)
    requires Covered(st.vals, names, xs) && forall n :: n in names <==> n in st.vals
    ensures Complete(st, xs) && GhostsLast(xs)
  {
    hide PatchVal1;
    if PatchVal1() in st.vals {
      var j :| 0 <= j < |xs| && xs[j] == Ghost(PatchVal1());
      assert xs[j].Ghost? && xs[j].val == PatchVal1();
    }
    assert Ghosted(xs) == (if PatchVal1() in st.vals then {PatchVal1()} else {});
  }

  lemma UpdateAgain(m: map<string, Val>, k: string, a: Val, b: Val)
    ensures m[k := a][k := b] == m[k := b]
  {
  }

  lemma WithdrawKeepsVal(env: Env, st: State, val: string, del: string, shares: nat, ending: nat)
    requires val in st.vals && Withdraw(env, st, val, del, shares, ending).Paid?
    ensures val in Withdraw(env, st, val, del, shares, ending).st.vals
  {
    hide Withdraw, DropStart;
    var _ := WithdrawnVal(env, st, val, del, shares, ending);
  }

  /**
   What a completed patch leaves behind: the same surplus in every denom, no
   delegation paid twice, and on every validator but the one with the ghost event
   exact reference counts and nothing left to patch.
   */
  lemma CompletePassGuarantees(env: Env, st: State, xs: seq<Visit>, val: string, del: string, d: Denom)
    requires RefsOk(st, {}) && Complete(st, xs) && RunVisits(env, st, xs).Passed?
    requires val in st.vals && del in st.vals[val].delegations
    ensures var end := RunVisits(env, st, xs).st;
            && Surplus(end, d) == Surplus(st, d)
            && PatchCount(env, st, xs, val, del) <= 1
            && (val != PatchVal1() ==>
                  val in end.vals && RefInv(end.vals[val]) && Settled(end.vals[val], del, env.height))
  {
    hide RunVisits, RefInv, Settled, Surplus, PatchCount, PatchVal1, GhostsLast;
    PassKeepsRefs(env, st, xs);
    PassConserves(env, st, xs, d);
    PaidAtMostOnceInPass(env, st, xs, val, del);
    if val != PatchVal1() { PaidAtMostOnce(env, st, xs, val, del); }
  }

  /**
   Two completed calls at one height: the second patches nothing if and only if, in
   the state before both, the ghost event revives no delegation of its validator, which
   only those started at height 0 or 1 can be. Elsewhere nothing is patched again.
   */
  lemma SecondCall(env: Env, st: State, first: seq<Visit>, second: seq<Visit>)
    requires RefsOk(st, {}) && (PatchVal1() in st.vals ==> Ordered(st.vals[PatchVal1()].slashes))
    requires Complete(st, first) && RunVisits(env, st, first).Passed?
    requires var mid := RunVisits(env, st, first).st; Complete(mid, second) && RunVisits(env, mid, second).Passed?
    ensures RunVisits(env, RunVisits(env, st, first).st, second).count == 0 <==>
            (PatchVal1() in st.vals ==> forall del :: !Revives(st.vals[PatchVal1()], del, env.height))
  {
    hide RunVisits, Revives, Ordered, PatchVal1, GhostsLast, RefsOk;
    var mid := RunVisits(env, st, first).st;
    PassKeepsValidators(env, st, first);
    forall val, del | Delegation(val, del) in second
      ensures val in mid.vals && del in mid.vals[val].delegations && Delegation(val, del) in first
    {
      PassVisitsExisting(env, mid, second, val, del);
      PassDropsDelegations(env, st, first, val);
    }
    forall x | x in second && x.Delegation? ensures x in first { assert x == Delegation(x.val, x.del); }
    if PatchVal1() in st.vals {
      forall del | Revives(st.vals[PatchVal1()], del, env.height) ensures Delegation(PatchVal1(), del) in second {
        RevivedHasShares(st.vals[PatchVal1()], del, env.height);
        PassKeepsShares(env, st, first, PatchVal1(), del);
      }
    }
    SecondPassPatchesNothing(env, st, first, second);
  }

  lemma RevivedHasShares(v: Val, del: string, height: nat)
    requires Revives(v, del, height)
    ensures del in v.delegations && v.delegations[del] > 0
  {
  }

  /** Off that validator, no delegation is patched by the second of two completed calls. */
  lemma SecondCallElsewhere(env: Env, st: State, first: seq<Visit>, second: seq<Visit>, val: string, del: string)
    requires Complete(st, first) && RunVisits(env, st, first).Passed?
    requires var mid := RunVisits(env, st, first).st; Complete(mid, second) && RunVisits(env, mid, second).Passed?
    requires val in st.vals && val != PatchVal1() && del in st.vals[val].delegations
    ensures PatchCount(env, RunVisits(env, st, first).st, second, val, del) == 0
  {
    hide RunVisits, PatchVal1, GhostsLast, PatchCount;
    UnghostedSecondPass(env, st, first, second, val, del);
  }

  /** It does happen: a state from which a completed call patches nothing and a second one patches a delegation. */
  lemma SecondCallPatchesAgain(del: string)
    ensures var val := PatchVal1();
            var st, xs := RevivedState(val, del), OnePass(val, del);
            && RefsOk(st, {}) && Complete(st, xs)
            && RunVisits(SampleEnv(), st, xs) == Passed(GhostedState(val, del), 0)
            && Complete(GhostedState(val, del), xs)
            && RunVisits(SampleEnv(), GhostedState(val, del), xs).Passed?
            && RunVisits(SampleEnv(), GhostedState(val, del), xs).count == 1
  {
    hide RunVisits, PatchVal1, RefsOk, RefInv, SetSlash;
    var val := PatchVal1();
    SecondPassPatchesAgain(val, del);
    FirstRun(val, del);
    SecondRun(val, del);
    var xs := OnePass(val, del);
    assert xs[1] == Ghost(val) && Ghosted(xs) == {val};
    assert xs[0] == Delegation(val, del);
  }
}
