/** Guarantees of a whole patch pass: settled delegations, exact reference counts, conserved value. */
module ValPatchProofs {
  import opened Dec
  import opened Rewards
  import opened RefCounts
  import opened Distribution
  import opened ValPatch

  // ---------------------------------------------------------------- the patch decision

  /** Nothing to patch: no starting info, no shares, started at this height, or slashed stake within the current one. */
  ghost predicate Settled(v: Val, del: string, height: nat) {
    del in v.starts && del in v.delegations && v.shares > 0 && v.starts[del].height != height ==>
      SlashOnly(v.starts[del], Events(v, v.starts[del], height)).0 <= CurrentStake(v, v.delegations[del])
  }

  lemma SettledFrame(v: Val, w: Val, del: string, height: nat)
    requires SameInputs(v, w, del) && Settled(v, del, height)
    ensures Settled(w, del, height)
  {
    hide SlashOnly, EventsBetween, QuoRound;
  }

  /** The calculation patches exactly what is not settled. */
  lemma PatchedIffUnsettled(v: Val, del: string, shares: nat, ending: nat, height: nat)
    requires Calculate(v, del, shares, ending, height).Done?
    requires del in v.delegations && v.delegations[del] == shares
    ensures Calculate(v, del, shares, ending, height).patched <==> !Settled(v, del, height)
  {
    hide SlashOnly, Between, Margin, CurrentStake, Add, EventsBetween, WalkEvents;
    var start := v.starts[del];
    if start.height != height { WalkStake(v, start, Events(v, start, height)); }
  }

  /** A visit to a settled delegation does not patch it. */
  lemma SettledIsNotPatched(env: Env, st: State, val: string, del: string)
    requires val in st.vals && Settled(st.vals[val], del, env.height)
    requires StepVisit(env, st, Delegation(val, del)).Stepped?
    ensures !StepVisit(env, st, Delegation(val, del)).patched
  {
    hide Settled, EndPeriod, Calculate, Withdraw, StartDelegation;
    var v := st.vals[val];
    if v.delegations[del] != 0 {
      EndPeriodIfStepped(env, st, val, del, v.delegations[del]);
      var w := EndPeriod(v).v;
      EndPeriodInputs(v, del);
      EndPeriodDelegations(v);
      SettledFrame(v, w, del, env.height);
      PatchedIffUnsettled(w, del, v.delegations[del], v.period, env.height);
    }
  }

  lemma EndPeriodDelegations(v: Val)
    requires EndPeriod(v).PeriodEnded?
    ensures EndPeriod(v).v.delegations == v.delegations
  {
  }

  /** Every visit settles the delegation it visits, patched or not. */
  lemma VisitSettles(env: Env, st: State, val: string, del: string)
    requires val in st.vals && StepVisit(env, st, Delegation(val, del)).Stepped?
    ensures var end := StepVisit(env, st, Delegation(val, del)).st;
            val in end.vals && Settled(end.vals[val], del, env.height)
  {
    hide EndPeriod, Calculate, Withdraw, StartDelegation, SlashOnly, CurrentStake;
    var v := st.vals[val];
    if v.delegations[del] != 0 {
      EndPeriodIfStepped(env, st, val, del, v.delegations[del]);
      var w := EndPeriod(v).v;
      EndPeriodDelegations(v);
      if StepVisit(env, st, Delegation(val, del)).patched {
        var _, dropped := PatchedShape(env, st, val, del, v.delegations[del]);
        StartedNow(dropped, del, env.height);
      } else {
        PatchedIffUnsettled(w, del, v.delegations[del], v.period, env.height);
      }
    }
  }

  lemma StartedNow(v: Val, del: string, height: nat)
    requires StartDelegation(v, del, height).Started?
    ensures var w := StartDelegation(v, del, height).v; del in w.starts && w.starts[del].height == height
  {
    hide Increment, TruncatedStake;
  }

  /**
   Right after a patch, calculating again at the same height yields no reward and no
   patch, whatever the ending period.
   */
  lemma PatchIsFixpoint(env: Env, st: State, val: string, del: string, shares: nat, ending: nat)
    requires val in st.vals && StepVisit(env, st, Delegation(val, del)).Stepped?
    requires StepVisit(env, st, Delegation(val, del)).patched
    ensures var end := StepVisit(env, st, Delegation(val, del)).st;
            val in end.vals && Calculate(end.vals[val], del, shares, ending, env.height) == Done(map[], false)
  {
    hide EndPeriod, Withdraw, StartDelegation, WalkEvents, Between;
    var _, dropped := PatchedShape(env, st, val, del, st.vals[val].delegations[del]);
    StartedNow(dropped, del, env.height);
  }

  /** Slash events that ended no period after the starting one leave the stake alone. */
  lemma {:induction false} OldSlashesDoNothing(start: Start, events: seq<Slash>)
    requires forall i :: 0 <= i < |events| ==> events[i].period <= start.period
    ensures SlashOnly(start, events) == (start.stake, start.period)
  {
    if events != [] { OldSlashesDoNothing(start, events[..|events| - 1]); }
  }

  lemma {:induction false} EventsAreSlashes(slashes: seq<Slash>, lo: nat, hi: nat, p: nat)
    requires forall i :: 0 <= i < |slashes| ==> slashes[i].period <= p
    ensures forall i :: 0 <= i < |EventsBetween(slashes, lo, hi)| ==> EventsBetween(slashes, lo, hi)[i].period <= p
  {
    if slashes != [] { EventsAreSlashes(slashes[..|slashes| - 1], lo, hi, p); }
  }

  /** A delegation started at the last ended period, with its truncated stake, is settled at every height. */
  lemma StartedIsSettled(v: Val, del: string, height: nat, later: nat)
    requires RefInv(v) && StartDelegation(v, del, height).Started?
    ensures Settled(StartDelegation(v, del, height).v, del, later)
  {
    hide SlashOnly, EventsBetween, Increment, RecordAt, RefsHeld, QuoRound, QuoTruncate;
    var w := StartDelegation(v, del, height).v;
    var start := w.starts[del];
    EventsAreSlashes(v.slashes, start.height, later, start.period);
    OldSlashesDoNothing(start, Events(w, start, later));
    TruncateBelowRound(v.delegations[del] * v.tokens, v.shares);
  }

  /**
   The patch lasts: a patched delegation is settled not only in this block but at
   every later height and in every later state of the validator, for as long as its
   tokens, shares, slash events and the delegation itself are the same.
   */
  lemma PatchLasts(env: Env, st: State, val: string, del: string, later: nat, w: Val)
    requires val in st.vals && RefInv(st.vals[val])
    requires StepVisit(env, st, Delegation(val, del)).Stepped? && StepVisit(env, st, Delegation(val, del)).patched
    requires val in StepVisit(env, st, Delegation(val, del)).st.vals
    requires SameInputs(StepVisit(env, st, Delegation(val, del)).st.vals[val], w, del)
    ensures Settled(w, del, later)
  {
    hide RefInv, EndPeriod, Settled, PatchWithShares, StartDelegation, DropStart, SameInputs;
    var ended, dropped := PatchedShape(env, st, val, del, st.vals[val].delegations[del]);
    EndPeriodKeepsRefs(st.vals[val]);
    DropStartKeepsRefs(ended, del);
    OutstandingIsNoRef(DropStart(ended, del).value, dropped.outstanding);
    assert dropped == DropStart(ended, del).value.(outstanding := dropped.outstanding);
    StartedIsSettled(dropped, del, env.height, later);
    SettledFrame(StartDelegation(dropped, del, env.height).v, w, del, later);
  }

  /** A settled delegation stays settled through any visits that give its validator no ghost event. */
  lemma StepKeepsSettled(env: Env, st: State, x: Visit, val: string, del: string)
    requires val in st.vals && Settled(st.vals[val], del, env.height)
    requires StepVisit(env, st, x).Stepped? && x != Ghost(val)
    ensures var end := StepVisit(env, st, x).st;
            val in end.vals && Settled(end.vals[val], del, env.height)
  {
    hide StepVisit, Settled, SameInputs;
    if x == Delegation(val, del) {
      VisitSettles(env, st, val, del);
    } else {
      StepKeepsInputs(env, st, x, val, del);
      SettledFrame(st.vals[val], StepVisit(env, st, x).st.vals[val], del, env.height);
    }
  }

  /** How often a run of visits patched one delegation. */
  function PatchCount(env: Env, st: State, xs: seq<Visit>, val: string, del: string): nat {
    if xs == [] then 0
    else
      var n := |xs| - 1;
      var before := RunVisits(env, st, xs[..n]);
      PatchCount(env, st, xs[..n], val, del) +
      (if before.Passed? && xs[n] == Delegation(val, del) && StepVisit(env, before.st, xs[n]).Stepped?
          && StepVisit(env, before.st, xs[n]).patched then 1 else 0)
  }

  lemma GhostedPrefix(xs: seq<Visit>, val: string)
    requires xs != [] && val !in Ghosted(xs)
    ensures val !in Ghosted(xs[..|xs| - 1]) && xs[|xs| - 1] != Ghost(val)
  {
  }

  /**
   A delegation is paid at most once per block: however often a run visits it, it
   is patched at most once, not at all if it was settled, and settled after the
   first visit.
   */
  lemma {:induction false} PaidAtMostOnce(env: Env, st: State, xs: seq<Visit>, val: string, del: string)
    requires RunVisits(env, st, xs).Passed? && val in st.vals && val !in Ghosted(xs)
    ensures var end := RunVisits(env, st, xs).st;
            && val in end.vals
            && (Settled(st.vals[val], del, env.height) || Delegation(val, del) in xs ==>
                  Settled(end.vals[val], del, env.height))
            && PatchCount(env, st, xs, val, del) <= 1
            && (PatchCount(env, st, xs, val, del) == 1 ==> Settled(end.vals[val], del, env.height))
            && (Settled(st.vals[val], del, env.height) ==> PatchCount(env, st, xs, val, del) == 0)
  {
    hide StepVisit, Settled;
    if xs != [] {
      var n := |xs| - 1;
      var x := xs[n];
      GhostedPrefix(xs, val);
      PaidAtMostOnce(env, st, xs[..n], val, del);
      var mid := RunVisits(env, st, xs[..n]).st;
      assert StepVisit(env, mid, x).Stepped?;
      StepKeepsValidators(env, mid, x);
      if x == Delegation(val, del) { VisitSettles(env, mid, val, del); }
      if Settled(mid.vals[val], del, env.height) {
        StepKeepsSettled(env, mid, x, val, del);
        if x == Delegation(val, del) { SettledIsNotPatched(env, mid, val, del); }
      }
      assert Delegation(val, del) in xs ==> Delegation(val, del) in xs[..n] || x == Delegation(val, del);
    }
  }

  lemma StepKeepsValidators(env: Env, st: State, x: Visit)
    requires StepVisit(env, st, x).Stepped?
    ensures StepVisit(env, st, x).st.vals.Keys == st.vals.Keys
  {
    hide PatchWithShares, EndPeriod, StartDelegation, DropStart, GhostSlash;
    if x.Delegation? && st.vals[x.val].delegations[x.del] != 0 {
      var shares := st.vals[x.val].delegations[x.del];
      EndPeriodIfStepped(env, st, x.val, x.del, shares);
      if PatchWithShares(env, st, x.val, x.del, shares).patched {
        var _, _ := PatchedShape(env, st, x.val, x.del, shares);
      }
    }
  }

  lemma GhostPatchesNothing(env: Env, st: State, x: Visit)
    requires x.Ghost? && StepVisit(env, st, x).Stepped?
    ensures !StepVisit(env, st, x).patched
  {
    hide GhostSlash;
  }

  // ---------------------------------------------------------------- reference counts over a pass

  ghost predicate RefsOk(st: State, except: set<string>) {
    forall w :: w in st.vals && w !in except ==> RefInv(st.vals[w])
  }

  /** The panics a pass must not reach: both reference-count ones and the "should not have been patched" one. */
  predicate Unreachable(why: Panic) { why == RefUnderflow || why == RefOverflow || why == NotPatched }

  lemma {:induction false} WalkPanics(v: Val, start: Start, events: seq<Slash>)
    ensures WalkEvents(v, start, events).Stopped? ==> !Unreachable(WalkEvents(v, start, events).why)
  {
    hide Covers, MulDecTruncate, MulTruncate, Add, RecordAt;
    if events != [] { WalkPanics(v, start, events[..|events| - 1]); }
  }

  lemma CalculatePanics(v: Val, del: string, shares: nat, ending: nat, height: nat)
    ensures Calculate(v, del, shares, ending, height).Panicked? ==>
              !Unreachable(Calculate(v, del, shares, ending, height).why)
  {
    hide Covers, MulDecTruncate, Add, RecordAt, WalkEvents, EventsBetween, CurrentStake, Margin;
    if del in v.starts { WalkPanics(v, v.starts[del], Events(v, v.starts[del], height)); }
  }

  lemma OutstandingIsNoRef(v: Val, out: Coins)
    requires RefInv(v)
    ensures RefInv(v.(outstanding := out))
  {
    hide StartsAt, SlashRefs;
    var w := v.(outstanding := out);
    forall p: nat ensures RecordAt(w, p).refs == RefsHeld(w, p) { RefsExact(v, p); }
  }

  lemma DelegationIsNoRef(v: Val, del: string)
    requires RefInv(v)
    ensures RefInv(v.(delegations := v.delegations - {del}))
  {
    hide StartsAt, SlashRefs;
    var w := v.(delegations := v.delegations - {del});
    forall p: nat ensures RecordAt(w, p).refs == RefsHeld(w, p) { RefsExact(v, p); }
  }

  /** The restart of a delegation whose outstanding rewards were settled in between. */
  lemma PatchedRefs(v: Val, del: string, height: nat, out: Coins)
    requires RefInv(v) && EndPeriod(v).PeriodEnded? && del in EndPeriod(v).v.starts
    ensures DropStart(EndPeriod(v).v, del).Some?
    ensures var dropped := DropStart(EndPeriod(v).v, del).value.(outstanding := out);
            var s := StartDelegation(dropped, del, height);
            && (s.InitPanic? ==> s.why == NoShares)
            && (s.Started? ==> RefInv(s.v))
  {
    hide RefInv, EndPeriod, Increment, Decrement;
    EndPeriodInputs(v, del);
    RestartKeepsRefs(v, del, height);
    var clean := DropStart(EndPeriod(v).v, del).value;
    OutstandingIsNoRef(clean, out);
    EndPeriodKeepsRefs(v);
    PeriodAtLeastOne(EndPeriod(v).v);
    StartKeepsRefs(clean.(outstanding := out), del, height);
  }

  lemma PatchWithSharesRefs(env: Env, st: State, val: string, del: string, shares: nat)
    requires val in st.vals && RefInv(st.vals[val])
    ensures var r := PatchWithShares(env, st, val, del, shares);
            && (r.StepCrashed? ==> !Unreachable(r.why))
            && (r.Stepped? ==> val in r.st.vals && RefInv(r.st.vals[val]))
  {
    hide RefInv, EndPeriod, Calculate, StartDelegation, DropStart, Withdraw, Unreachable;
    var v := st.vals[val];
    EndPeriodKeepsRefs(v);
    if EndPeriod(v).PeriodEnded? {
      var res := Calculate(EndPeriod(v).v, del, shares, v.period, env.height);
      CalculatePanics(EndPeriod(v).v, del, shares, v.period, env.height);
      if res.Done? && res.patched {
        PatchedStepRefs(env, st, val, del, shares);
        NoSharesIsReachable();
      }
    } else {
      PeriodPanics(v);
    }
  }

  lemma NoSharesIsReachable()
    ensures !Unreachable(NoShares)
  {
  }

  lemma PatchedStepRefs(env: Env, st: State, val: string, del: string, shares: nat)
    requires val in st.vals && RefInv(st.vals[val]) && EndPeriod(st.vals[val]).PeriodEnded?
    requires var res := Calculate(EndPeriod(st.vals[val]).v, del, shares, st.vals[val].period, env.height);
             res.Done? && res.patched
    ensures var r := PatchWithShares(env, st, val, del, shares);
            && (r.StepCrashed? ==> r.why == NoShares)
            && (r.Stepped? ==> val in r.st.vals && RefInv(r.st.vals[val]))
  {
    hide RefInv, EndPeriod, Calculate, StartDelegation, DropStart, Withdraw, Add;
    var v := st.vals[val];
    var w := EndPeriod(v).v;
    var st1 := st.(vals := st.vals[val := w], pool := Add(st.pool, EndPeriod(v).toPool));
    CalculateNeedsStart(w, del, shares, v.period, env.height);
    EndPeriodInputs(v, del);
    RestartKeepsRefs(v, del, env.height);
    var out := WithdrawVal(env, st1, val, del, shares, v.period);
    PatchedRefs(v, del, env.height, out);
  }

  lemma CalculateNeedsStart(v: Val, del: string, shares: nat, ending: nat, height: nat)
    requires Calculate(v, del, shares, ending, height).Done?
    ensures del in v.starts
  {
  }

  /** A withdrawal right after a calculation that patched pays, or fails at the bank; nothing else. */
  lemma WithdrawVal(env: Env, st: State, val: string, del: string, shares: nat, ending: nat) returns (out: Coins)
    requires val in st.vals && del in st.vals[val].starts && DropStart(st.vals[val], del).Some?
    requires Calculate(st.vals[val], del, shares, ending, env.height).Done?
    requires Calculate(st.vals[val], del, shares, ending, env.height).patched
    ensures var r := Withdraw(env, st, val, del, shares, ending);
            && !r.Crashed? && (r.Failed? ==> r.e == SendFailed)
            && (r.Paid? ==> r.st.vals == st.vals[val := DropStart(st.vals[val], del).value.(outstanding := out)])
  {
    hide Calculate, DropStart, Intersect, Sub, Whole, Change, Covers;
    var r := Withdraw(env, st, val, del, shares, ending);
    if r.Paid? { out := r.st.vals[val].outstanding; } else { out := map[]; }
  }

  lemma PeriodPanics(v: Val)
    requires EndPeriod(v).PeriodPanic?
    ensures EndPeriod(v).why == NegativeOutstanding || EndPeriod(v).why == RefUnderflow
    ensures !Unreachable(NegativeOutstanding)
  {
  }

  /** One visit keeps every count exact on validators without a ghost event, and reaches none of the three panics. */
  lemma StepRefs(env: Env, st: State, x: Visit, ghosts: set<string>)
    requires RefsOk(st, ghosts) && (x.Delegation? ==> x.val !in ghosts)
    ensures var r := StepVisit(env, st, x);
            && (r.StepCrashed? ==> !Unreachable(r.why))
            && (r.Stepped? ==> RefsOk(r.st, if x.Ghost? then ghosts + {x.val} else ghosts))
  {
    hide RefInv, PatchWithShares, GhostSlash;
    if x.val in st.vals && x.Delegation? && x.del in st.vals[x.val].delegations {
      var v := st.vals[x.val];
      if v.delegations[x.del] == 0 {
        DelegationIsNoRef(v, x.del);
      } else {
        PatchWithSharesRefs(env, st, x.val, x.del, v.delegations[x.del]);
        if StepVisit(env, st, x).Stepped? { OthersUntouched(env, st, x.val, x.del, v.delegations[x.del]); }
      }
    }
  }

  lemma OthersUntouched(env: Env, st: State, val: string, del: string, shares: nat)
    requires val in st.vals && PatchWithShares(env, st, val, del, shares).Stepped?
    ensures forall w :: w in PatchWithShares(env, st, val, del, shares).st.vals && w != val ==>
              w in st.vals && PatchWithShares(env, st, val, del, shares).st.vals[w] == st.vals[w]
  {
    hide PatchWithShares, EndPeriod, StartDelegation;
    EndPeriodIfStepped(env, st, val, del, shares);
    if PatchWithShares(env, st, val, del, shares).patched { var _, _ := PatchedShape(env, st, val, del, shares); }
  }

  /** A validator's ghost event comes after its delegations. */
  ghost predicate GhostsLast(xs: seq<Visit>) {
    forall i, j :: 0 <= i < j < |xs| && xs[i].Ghost? && xs[j].Delegation? ==> xs[i].val != xs[j].val
  }

  /**
   Reference counting over a whole pass: on every validator without a ghost event
   each record's count still equals the references held on it, and the pass stops
   on none of the two reference-count panics nor on the not-patched one.
   */
  lemma {:induction false} PassKeepsRefs(env: Env, st: State, xs: seq<Visit>)
    requires RefsOk(st, {}) && GhostsLast(xs)
    ensures var r := RunVisits(env, st, xs);
            && (r.PassCrashed? ==> !Unreachable(r.why))
            && (r.Passed? ==> RefsOk(r.st, Ghosted(xs)))
  {
    hide StepVisit, RefsOk;
    if xs == [] {
      assert Ghosted(xs) == {};
    } else {
      var n := |xs| - 1;
      var x := xs[n];
      PassKeepsRefs(env, st, xs[..n]);
      GhostedSnoc(xs);
      if RunVisits(env, st, xs[..n]).Passed? {
        StepRefs(env, RunVisits(env, st, xs[..n]).st, x, Ghosted(xs[..n]));
      }
    }
  }

  lemma GhostedSnoc(xs: seq<Visit>)
    requires xs != []
    ensures var front := xs[..|xs| - 1]; var x := xs[|xs| - 1];
            && Ghosted(xs) == (if x.Ghost? then Ghosted(front) + {x.val} else Ghosted(front))
            && (GhostsLast(xs) && x.Delegation? ==> x.val !in Ghosted(front))
  {
    var n := |xs| - 1;
    var front, x := xs[..n], xs[n];
    forall w | w in Ghosted(xs) ensures w in Ghosted(front) || (x.Ghost? && w == x.val) {
      var i :| 0 <= i < |xs| && xs[i].Ghost? && xs[i].val == w;
      if i < n { assert front[i].Ghost? && front[i].val == w; }
    }
    forall w | w in Ghosted(front) ensures w in Ghosted(xs) {
      var i :| 0 <= i < n && front[i].Ghost? && front[i].val == w;
      assert xs[i].Ghost? && xs[i].val == w;
    }
  }

  /**
   The exact extent of that: after a whole pass a validator's counts are exact if
   and only if it got no ghost event.
   */
  lemma RefsExactIffNoGhost(env: Env, st: State, xs: seq<Visit>, w: string)
    requires RefsOk(st, {}) && GhostsLast(xs) && RunVisits(env, st, xs).Passed?
    requires w in RunVisits(env, st, xs).st.vals
    ensures RefInv(RunVisits(env, st, xs).st.vals[w]) <==> w !in Ghosted(xs)
  {
    hide RunVisits, RefInv, Ghosted, Dangling;
    PassKeepsRefs(env, st, xs);
    if w in Ghosted(xs) {
      GhostDangles(env, st, xs, w);
      DanglingIsInexact(RunVisits(env, st, xs).st.vals[w]);
    }
  }

  lemma {:induction false} GhostDangles(env: Env, st: State, xs: seq<Visit>, w: string)
    requires RefsOk(st, {}) && GhostsLast(xs) && RunVisits(env, st, xs).Passed? && w in Ghosted(xs)
    ensures w in RunVisits(env, st, xs).st.vals && Dangling(RunVisits(env, st, xs).st.vals[w])
  {
    hide StepVisit, RefInv, Ghosted, Dangling, GhostSlash;
    if xs == [] {
      NothingGhosted();
    } else {
      var n := |xs| - 1;
      var front, x := xs[..n], xs[n];
      GhostedSnoc(xs);
      PassKeepsRefs(env, st, front);
      var mid := RunVisits(env, st, front).st;
      if w in Ghosted(front) { GhostDangles(env, st, front, w); }
      StepLeaves(env, mid, x, w);
      if x == Ghost(w) { GhostSlashDangles(mid.vals[w]); }
    }
  }

  lemma NothingGhosted()
    ensures Ghosted([]) == {}
  {
  }

  lemma StepLeaves(env: Env, st: State, x: Visit, w: string)
    requires StepVisit(env, st, x).Stepped?
    ensures var end := StepVisit(env, st, x).st;
            && x.val in st.vals
            && (x == Ghost(w) ==> w in end.vals && end.vals[w] == GhostSlash(st.vals[w]))
            && (x.val != w && w in st.vals ==> w in end.vals && end.vals[w] == st.vals[w])
  {
    hide PatchWithShares, GhostSlash;
    StepKeepsValidators(env, st, x);
    if x.Delegation? && st.vals[x.val].delegations[x.del] != 0 {
      OthersUntouched(env, st, x.val, x.del, st.vals[x.val].delegations[x.del]);
    }
  }

  /** At most one payment per delegation also on a validator with a ghost event, as that event comes last. */
  lemma {:induction false} PaidAtMostOnceInPass(env: Env, st: State, xs: seq<Visit>, val: string, del: string)
    requires RunVisits(env, st, xs).Passed? && val in st.vals && GhostsLast(xs)
    ensures PatchCount(env, st, xs, val, del) <= 1
  {
    hide StepVisit, Ghosted;
    if xs != [] {
      var n := |xs| - 1;
      GhostedSnoc(xs);
      if xs[n] == Delegation(val, del) {
        PaidAtMostOnce(env, st, xs, val, del);
      } else {
        PaidAtMostOnceInPass(env, st, xs[..n], val, del);
      }
    }
  }

  /** A visit changes no delegation but removes the visited one when it has no shares. */
  lemma StepDelegations(env: Env, st: State, val: string, del: string)
    requires StepVisit(env, st, Delegation(val, del)).Stepped?
    ensures val in st.vals && val in StepVisit(env, st, Delegation(val, del)).st.vals
    ensures del in st.vals[val].delegations
    ensures var before := st.vals[val].delegations;
            StepVisit(env, st, Delegation(val, del)).st.vals[val].delegations ==
            if before[del] == 0 then before - {del} else before
  {
    hide PatchWithShares, EndPeriod, StartDelegation, DropStart;
    var v := st.vals[val];
    if v.delegations[del] != 0 {
      EndPeriodIfStepped(env, st, val, del, v.delegations[del]);
      EndPeriodDelegations(v);
      if PatchWithShares(env, st, val, del, v.delegations[del]).patched {
        var w, dropped := PatchedShape(env, st, val, del, v.delegations[del]);
        RestartDelegations(w, dropped, del, env.height);
      }
    }
  }

  lemma RestartDelegations(w: Val, dropped: Val, del: string, height: nat)
    requires del in w.starts && DropStart(w, del).Some?
    requires exists out: Coins :: dropped == DropStart(w, del).value.(outstanding := out)
    requires StartDelegation(dropped, del, height).Started?
    ensures StartDelegation(dropped, del, height).v.delegations == w.delegations
  {
    hide Increment, Decrement, TruncatedStake;
  }

  // ---------------------------------------------------------------- value over a pass

  lemma StepConserves(env: Env, st: State, x: Visit, d: Denom)
    requires StepVisit(env, st, x).Stepped?
    ensures Surplus(StepVisit(env, st, x).st, d) == Surplus(st, d)
  {
    hide Promised, PatchWithShares, GhostSlash, Amount, EndPeriod;
    var v := st.vals[x.val];
    match x
    case Ghost(val) =>
      GhostOutstanding(v);
      PromisedUpdate(st.vals, val, GhostSlash(v), d);
    case Delegation(val, del) =>
      if v.delegations[del] == 0 {
        PromisedUpdate(st.vals, val, v.(delegations := v.delegations - {del}), d);
      } else {
        PatchConserves(env, st, val, del, v.delegations[del], d);
      }
  }

  lemma GhostOutstanding(v: Val)
    ensures GhostSlash(v).outstanding == v.outstanding
  {
  }

  lemma PatchConserves(env: Env, st: State, val: string, del: string, shares: nat, d: Denom)
    requires val in st.vals && PatchWithShares(env, st, val, del, shares).Stepped?
    ensures Surplus(PatchWithShares(env, st, val, del, shares).st, d) == Surplus(st, d)
  {
    hide Promised, Amount, EndPeriod, Calculate, Withdraw, StartDelegation, Add;
    var v := st.vals[val];
    var e := EndPeriod(v);
    var st1 := st.(vals := st.vals[val := e.v], pool := Add(st.pool, e.toPool));
    EndPeriodConserves(st, val, d);
    if PatchWithShares(env, st, val, del, shares).patched {
      var paid := Withdraw(env, st1, val, del, shares, v.period);
      WithdrawConserves(env, st1, val, del, shares, v.period, d);
      var s := StartDelegation(paid.st.vals[val], del, env.height);
      StartOutstanding(paid.st.vals[val], del, env.height);
      PromisedUpdate(paid.st.vals, val, s.v, d);
    }
  }

  lemma EndPeriodConserves(st: State, val: string, d: Denom)
    requires val in st.vals && EndPeriod(st.vals[val]).PeriodEnded?
    ensures var e := EndPeriod(st.vals[val]);
            Surplus(st.(vals := st.vals[val := e.v], pool := Add(st.pool, e.toPool)), d) == Surplus(st, d)
  {
    hide Promised, Amount, EndPeriod, Add;
    EndPeriodAccounts(st.vals[val], d);
    PromisedUpdate(st.vals, val, EndPeriod(st.vals[val]).v, d);
  }

  lemma StartOutstanding(v: Val, del: string, height: nat)
    requires StartDelegation(v, del, height).Started?
    ensures StartDelegation(v, del, height).v.outstanding == v.outstanding
  {
    hide Increment, TruncatedStake;
  }

  /** Over any pass that completes, module balance less everything promised is unchanged, per denom. */
  lemma {:induction false} PassConserves(env: Env, st: State, xs: seq<Visit>, d: Denom)
    requires RunVisits(env, st, xs).Passed?
    ensures Surplus(RunVisits(env, st, xs).st, d) == Surplus(st, d)
  {
    hide StepVisit, Surplus;
    if xs != [] {
      PassConserves(env, st, xs[..|xs| - 1], d);
      StepConserves(env, RunVisits(env, st, xs[..|xs| - 1]).st, xs[|xs| - 1], d);
    }
  }

  // ---------------------------------------------------------------- panics of a visit

  /**
   Exactly when a visit panics: a delegation with shares whose period cannot be ended or
   whose rewards cannot be calculated. No other step of the visit panics.
   */
  lemma VisitCrashesIff(env: Env, st: State, val: string, del: string)
    requires val in st.vals && RefInv(st.vals[val]) && del in st.vals[val].delegations
    ensures var v := st.vals[val];
            var shares := v.delegations[del];
            StepVisit(env, st, Delegation(val, del)).StepCrashed? <==>
            shares > 0 && (EndPeriod(v).PeriodPanic?
                           || Calculate(EndPeriod(v).v, del, shares, v.period, env.height).Panicked?)
  {
    hide EndPeriod, Calculate, Withdraw, StartDelegation, Add, RefInv;
    var v := st.vals[val];
    var shares := v.delegations[del];
    if shares > 0 && EndPeriod(v).PeriodEnded? {
      var e := EndPeriod(v);
      var c := Calculate(e.v, del, shares, v.period, env.height);
      if c.Done? && c.patched {
        CalculateNeedsStart(e.v, del, shares, v.period, env.height);
        PatchedHasShares(e.v, del, shares, v.period, env.height);
        EndPeriodInputs(v, del);
        RestartDrops(v, del);
        var st1 := st.(vals := st.vals[val := e.v], pool := Add(st.pool, e.toPool));
        var out := WithdrawVal(env, st1, val, del, shares, v.period);
        PatchedRefs(v, del, env.height, out);
        RestartShares(e.v, del, out, env.height);
      }
    }
  }

  lemma PatchedHasShares(v: Val, del: string, shares: nat, ending: nat, height: nat)
    requires Calculate(v, del, shares, ending, height).Done? && Calculate(v, del, shares, ending, height).patched
    ensures v.shares > 0
  {
    hide Between, WalkEvents, CurrentStake, Margin;
  }

  lemma RestartShares(w: Val, del: string, out: Coins, height: nat)
    requires del in w.starts && DropStart(w, del).Some? && w.shares > 0
    ensures StartDelegation(DropStart(w, del).value.(outstanding := out), del, height) != InitPanic(NoShares)
  {
    hide Increment, Decrement, TruncatedStake;
  }

  // ---------------------------------------------------------------- errors over a pass

  /**
   A visit to a delegation that is there can return no error but a failed send, and
   from a solvent state that only for a recipient the bank refuses.
   */
  lemma VisitFails(env: Env, st: State, val: string, del: string)
    requires val in st.vals && del in st.vals[val].delegations
    requires StepVisit(env, st, Delegation(val, del)).StepFailed?
    ensures StepVisit(env, st, Delegation(val, del)).e == SendFailed
    ensures Solvent(st) ==> Recipient(env, del) in env.blocked
  {
    hide EndPeriod, Calculate, Withdraw, StartDelegation, Add, Solvent;
    var v := st.vals[val];
    var shares := v.delegations[del];
    var e := EndPeriod(v);
    EndPeriodDelegations(v);
    var st1 := st.(vals := st.vals[val := e.v], pool := Add(st.pool, e.toPool));
    if Solvent(st) { EndPeriodSolvent(st, val); }
    CalculateNeedsStart(e.v, del, shares, v.period, env.height);
    if Withdraw(env, st1, val, del, shares, v.period).Paid? {
      WithdrawnDelegations(env, st1, val, del, shares, v.period);
      StartFinds(Withdraw(env, st1, val, del, shares, v.period).st.vals[val], del, env.height);
    } else {
      WithdrawFails(env, st1, val, del, shares, v.period);
    }
  }

  lemma EndPeriodSolvent(st: State, val: string)
    requires val in st.vals && EndPeriod(st.vals[val]).PeriodEnded? && Solvent(st)
    ensures var e := EndPeriod(st.vals[val]);
            Solvent(st.(vals := st.vals[val := e.v], pool := Add(st.pool, e.toPool)))
  {
    hide Surplus, EndPeriod, Add;
    var e := EndPeriod(st.vals[val]);
    var st1 := st.(vals := st.vals[val := e.v], pool := Add(st.pool, e.toPool));
    forall d: Denom ensures Surplus(st1, d) >= 0 { EndPeriodConserves(st, val, d); }
  }

  lemma WithdrawnDelegations(env: Env, st: State, val: string, del: string, shares: nat, ending: nat)
    requires val in st.vals && Withdraw(env, st, val, del, shares, ending).Paid?
    ensures var end := Withdraw(env, st, val, del, shares, ending).st;
            val in end.vals && end.vals[val].delegations == st.vals[val].delegations
  {
    hide Withdraw, Decrement;
    var _ := WithdrawnVal(env, st, val, del, shares, ending);
  }

  lemma StartFinds(v: Val, del: string, height: nat)
    requires del in v.delegations
    ensures !StartDelegation(v, del, height).NoDelegation?
  {
    hide Increment, TruncatedStake;
  }

  /** A pass from a solvent state fails at the bank only on a delegation whose recipient the bank refuses. */
  lemma {:induction false} PassFailsOnlyBlocked(env: Env, st: State, xs: seq<Visit>)
    requires Solvent(st) && RunVisits(env, st, xs) == PassFailed(SendFailed)
    ensures exists x :: x in xs && x.Delegation? && Recipient(env, x.del) in env.blocked
  {
    hide StepVisit, Solvent, Recipient;
    var n := |xs| - 1;
    var x := xs[n];
    if RunVisits(env, st, xs[..n]).Passed? {
      var mid := RunVisits(env, st, xs[..n]).st;
      PassSolvent(env, st, xs[..n]);
      SendFailedVisit(env, mid, x);
      VisitFails(env, mid, x.val, x.del);
      assert x in xs && x.Delegation? && Recipient(env, x.del) in env.blocked;
    } else {
      PassFailsOnlyBlocked(env, st, xs[..n]);
      var y :| y in xs[..n] && y.Delegation? && Recipient(env, y.del) in env.blocked;
      assert y in xs;
    }
  }

  lemma PassSolvent(env: Env, st: State, xs: seq<Visit>)
    requires Solvent(st) && RunVisits(env, st, xs).Passed?
    ensures Solvent(RunVisits(env, st, xs).st)
  {
    hide Surplus, RunVisits;
    forall d: Denom ensures Surplus(RunVisits(env, st, xs).st, d) >= 0 { PassConserves(env, st, xs, d); }
  }

  lemma SendFailedVisit(env: Env, st: State, x: Visit)
    requires StepVisit(env, st, x) == StepFailed(SendFailed)
    ensures x.Delegation? && x.val in st.vals && x.del in st.vals[x.val].delegations
  {
    hide PatchWithShares;
  }
}
