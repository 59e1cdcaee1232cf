/**
 CustomValPatch (app/upgrades/v520/patch.go) as a fold over the delegations it
 visits, and what a whole pass guarantees.
 */
module ValPatch {
  import opened Dec
  import opened Rewards
  import opened RefCounts
  import opened Distribution

  /** The one validator that gets a ghost slash event. */
  function PatchVal1(): string { "terpvaloper1rwyn6w46u3067enhpdceqasg2um8dddt6tehsv" }

  /**
   The body of the inner loop for one delegation, or the ghost slash event that ends
   the outer loop for one validator.
   */
  datatype Visit = Delegation(val: string, del: string) | Ghost(val: string)

  datatype Step = Stepped(st: State, patched: bool) | StepFailed(e: Error) | StepCrashed(why: Panic)

  /** A delegation with shares: end the period, calculate, and if patched withdraw and start again. */
  function PatchWithShares(env: Env, st: State, val: string, del: string, shares: nat): Step
    requires val in st.vals
  {
    var e := EndPeriod(st.vals[val]);
    if e.PeriodPanic? then StepCrashed(e.why)
    else
      var st1 := st.(vals := st.vals[val := e.v], pool := Add(st.pool, e.toPool));
      var ending := st.vals[val].period;
      var res := Calculate(e.v, del, shares, ending, env.height);
      if res.Panicked? then StepCrashed(res.why)
      else if !res.patched then Stepped(st1, false)
      else
        var paid := Withdraw(env, st1, val, del, shares, ending);
        match paid
        case Failed(err) => StepFailed(err)
        case Crashed(why) => StepCrashed(why)
        case Paid(st2, _) =>
          if val !in st2.vals then StepFailed(NotFound)
          else
            match StartDelegation(st2.vals[val], del, env.height)
            case InitPanic(why) => StepCrashed(why)
            case NoDelegation => StepFailed(NotFound)
            case Started(v) => Stepped(st2.(vals := st2.vals[val := v]), true)
  }

  function StepVisit(env: Env, st: State, x: Visit): Step {
    if x.val !in st.vals then StepFailed(NotFound)
    else
      var v := st.vals[x.val];
      match x
      case Ghost(val) => Stepped(st.(vals := st.vals[val := GhostSlash(v)]), false)
      case Delegation(val, del) =>
        if del !in v.delegations then StepFailed(NotFound)
        else if v.delegations[del] == 0 then
          Stepped(st.(vals := st.vals[val := v.(delegations := v.delegations - {del})]), false)
        else PatchWithShares(env, st, val, del, v.delegations[del])
  }

  datatype Pass = Passed(st: State, count: nat) | PassFailed(e: Error) | PassCrashed(why: Panic)

  function RunVisits(env: Env, st: State, xs: seq<Visit>): Pass {
    if xs == [] then Passed(st, 0)
    else
      var before := RunVisits(env, st, xs[..|xs| - 1]);
      if !before.Passed? then before
      else
        match StepVisit(env, before.st, xs[|xs| - 1])
        case StepFailed(e) => PassFailed(e)
        case StepCrashed(why) => PassCrashed(why)
        case Stepped(st', patched) => Passed(st', before.count + (if patched then 1 else 0))
  }

  /** Validators that got the ghost event. */
  function Ghosted(xs: seq<Visit>): set<string> { set i | 0 <= i < |xs| && xs[i].Ghost? :: xs[i].val }

  // ---------------------------------------------------------------- what a step leaves alone

  /** One delegation's inputs to the patch decision. */
  ghost predicate SameInputs(v: Val, w: Val, del: string) {
    && v.tokens == w.tokens && v.shares == w.shares && v.slashes == w.slashes
    && (del in v.starts <==> del in w.starts)
    && (del in v.starts ==> v.starts[del] == w.starts[del])
    && (del in w.delegations ==> del in v.delegations && v.delegations[del] == w.delegations[del])
  }

  lemma EndPeriodInputs(v: Val, del: string)
    requires EndPeriod(v).PeriodEnded?
    ensures SameInputs(v, EndPeriod(v).v, del)
  {
  }

  lemma DropInputs(v: Val, del: string, other: string)
    requires del in v.starts && DropStart(v, del).Some? && other != del
    ensures SameInputs(v, DropStart(v, del).value, other)
  {
  }

  /** A patched step went through withdrawal and restart of exactly this delegation. */
  lemma PatchedShape(env: Env, st: State, val: string, del: string, shares: nat) returns (w: Val, dropped: Val)
    requires val in st.vals && PatchWithShares(env, st, val, del, shares).Stepped?
    requires PatchWithShares(env, st, val, del, shares).patched
    ensures EndPeriod(st.vals[val]).PeriodEnded? && w == EndPeriod(st.vals[val]).v
    ensures del in w.starts && DropStart(w, del).Some?
    ensures exists out: Coins :: dropped == DropStart(w, del).value.(outstanding := out)
    ensures StartDelegation(dropped, del, env.height).Started?
    ensures PatchWithShares(env, st, val, del, shares).st.vals ==
            st.vals[val := StartDelegation(dropped, del, env.height).v]
  {
    hide Calculate, Add, EndPeriod, Withdraw, StartDelegation, DropStart;
    w := EndPeriod(st.vals[val]).v;
    var st1 := st.(vals := st.vals[val := w], pool := Add(st.pool, EndPeriod(st.vals[val]).toPool));
    var out := WithdrawnVal(env, st1, val, del, shares, st.vals[val].period);
    dropped := DropStart(w, del).value.(outstanding := out);
  }

  /** What a paid withdrawal makes of the validator. */
  lemma WithdrawnVal(env: Env, st: State, val: string, del: string, shares: nat, ending: nat) returns (out: Coins)
    requires val in st.vals && Withdraw(env, st, val, del, shares, ending).Paid?
    ensures del in st.vals[val].starts && DropStart(st.vals[val], del).Some?
    ensures Withdraw(env, st, val, del, shares, ending).st.vals ==
            st.vals[val := DropStart(st.vals[val], del).value.(outstanding := out)]
  {
    hide Calculate, Sub, Add, Intersect, Whole, Change, Covers, DropStart;
    out := Withdraw(env, st, val, del, shares, ending).st.vals[val].outstanding;
  }

  /** Every other delegation's inputs survive a step; so do the validator's own figures and slash events. */
  lemma StepKeepsInputs(env: Env, st: State, x: Visit, val: string, del: string)
    requires StepVisit(env, st, x).Stepped? && val in st.vals && x != Ghost(val)
    requires !StepVisit(env, st, x).patched || x != Delegation(val, del)
    ensures val in StepVisit(env, st, x).st.vals
    ensures SameInputs(st.vals[val], StepVisit(env, st, x).st.vals[val], del)
  {
    hide EndPeriod, StartDelegation, DropStart, GhostSlash, PatchWithShares, SameInputs;
    SameInputsRefl(st.vals[val], del);
    if x.Delegation? {
      var v := st.vals[x.val];
      var shares := v.delegations[x.del];
      if shares == 0 {
        RemovalInputs(v, x.del, del);
      } else {
        EndPeriodIfStepped(env, st, x.val, x.del, shares);
        EndPeriodInputs(v, del);
        if PatchWithShares(env, st, x.val, x.del, shares).patched {
          var w, dropped := PatchedShape(env, st, x.val, x.del, shares);
          if x.val == val { RestartInputs(v, w, dropped, x.del, env.height, del); }
        }
      }
    }
  }

  lemma SameInputsRefl(v: Val, del: string)
    ensures SameInputs(v, v, del)
  {
  }

  lemma SameInputsTrans(u: Val, v: Val, w: Val, del: string)
    requires SameInputs(v, w, del)
    ensures SameInputs(u, v, del) ==> SameInputs(u, w, del)
  {
  }

  lemma RemovalInputs(v: Val, del: string, other: string)
    ensures SameInputs(v, v.(delegations := v.delegations - {del}), other)
  {
  }

  /** Withdrawal and restart of one delegation, for the others. */
  lemma RestartInputs(v: Val, w: Val, dropped: Val, del: string, height: nat, other: string)
    requires SameInputs(v, w, other) && other != del && del in w.starts && DropStart(w, del).Some?
    requires exists out: Coins :: dropped == DropStart(w, del).value.(outstanding := out)
    requires StartDelegation(dropped, del, height).Started?
    ensures SameInputs(v, StartDelegation(dropped, del, height).v, other)
  {
    hide DropStart, StartDelegation, SameInputs;
    var out :| dropped == DropStart(w, del).value.(outstanding := out);
    DropInputs(w, del, other);
    OutstandingInputs(DropStart(w, del).value, out, other);
    StartInputs(dropped, del, height, other);
    SameInputsTrans(v, w, DropStart(w, del).value, other);
    SameInputsTrans(v, DropStart(w, del).value, dropped, other);
    SameInputsTrans(v, dropped, StartDelegation(dropped, del, height).v, other);
  }

  lemma OutstandingInputs(v: Val, out: Coins, del: string)
    ensures SameInputs(v, v.(outstanding := out), del)
  {
  }

  lemma EndPeriodIfStepped(env: Env, st: State, val: string, del: string, shares: nat)
    requires val in st.vals && PatchWithShares(env, st, val, del, shares).Stepped?
    ensures EndPeriod(st.vals[val]).PeriodEnded?
    ensures !PatchWithShares(env, st, val, del, shares).patched ==>
              PatchWithShares(env, st, val, del, shares).st.vals == st.vals[val := EndPeriod(st.vals[val]).v]
  {
    hide EndPeriod, Calculate, StartDelegation, DropStart, Withdraw, Add;
  }

  lemma StartInputs(v: Val, del: string, height: nat, other: string)
    requires StartDelegation(v, del, height).Started? && other != del
    ensures SameInputs(v, StartDelegation(v, del, height).v, other)
  {
    hide Increment, TruncatedStake;
  }
}
