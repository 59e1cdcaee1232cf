/**
 Two patch passes at one height (app/upgrades/v520/patch.go): exactly which
 delegations a pass patches, and exactly which ones a second pass patches again.
 */
module SecondPass {
  import opened Dec
  import opened Rewards
  import opened RefCounts
  import opened Distribution
  import opened ValPatch
  import opened ValPatchProofs

  // ---------------------------------------------------------------- what one pass patches

  /** The delegation has shares and is not settled. */
  ghost predicate Pending(v: Val, del: string, height: nat) {
    del in v.delegations && v.delegations[del] > 0 && !Settled(v, del, height)
  }

  lemma PendingFrame(v: Val, w: Val, del: string, height: nat)
    requires SameInputs(v, w, del) && del in w.delegations
    ensures Pending(w, del, height) <==> Pending(v, del, height)
  {
    hide SlashOnly, EventsBetween, QuoRound;
  }

  /** A visit patches exactly what is pending. */
  lemma VisitPatchesPending(env: Env, st: State, val: string, del: string)
    requires val in st.vals && StepVisit(env, st, Delegation(val, del)).Stepped?
    ensures StepVisit(env, st, Delegation(val, del)).patched <==> Pending(st.vals[val], del, env.height)
  {
    hide Settled, EndPeriod, Calculate, Withdraw, StartDelegation;
    var v := st.vals[val];
    if v.delegations[del] != 0 {
      EndPeriodIfStepped(env, st, val, del, v.delegations[del]);
      var w := EndPeriod(v).v;
      EndPeriodInputs(v, del);
      EndPeriodDelegations(v);
      PendingFrame(v, w, del, env.height);
      PatchedIffUnsettled(w, del, v.delegations[del], v.period, env.height);
    }
  }

  /** What visits without a ghost event on `val` leave of one delegation: its inputs, or a start at this height. */
  lemma {:induction false} UntilGhost(env: Env, st: State, xs: seq<Visit>, val: string, del: string)
    requires RunVisits(env, st, xs).Passed? && val in st.vals && val !in Ghosted(xs)
    ensures var end := RunVisits(env, st, xs).st;
            && val in end.vals && end.vals[val].slashes == st.vals[val].slashes
            && (PatchCount(env, st, xs, val, del) == 0 ==> SameInputs(st.vals[val], end.vals[val], del))
            && (PatchCount(env, st, xs, val, del) != 0 ==>
                  del in end.vals[val].starts && end.vals[val].starts[del].height == env.height)
  {
    hide StepVisit, Settled, Ghosted, SameInputs;
    if xs == [] {
      SameInputsRefl(st.vals[val], del);
    } else {
      var n := |xs| - 1;
      var x := xs[n];
      GhostedPrefix(xs, val);
      UntilGhost(env, st, xs[..n], val, del);
      PaidAtMostOnce(env, st, xs[..n], val, del);
      var mid := RunVisits(env, st, xs[..n]).st;
      StepKeepsSlashes(env, mid, x, val);
      var end := StepVisit(env, mid, x).st;
      if x == Delegation(val, del) && StepVisit(env, mid, x).patched {
        if PatchCount(env, st, xs[..n], val, del) == 1 { SettledIsNotPatched(env, mid, val, del); }
        PatchStartsNow(env, mid, val, del);
      } else {
        StepKeepsInputs(env, mid, x, val, del);
        SameInputsTrans(st.vals[val], mid.vals[val], end.vals[val], del);
        SameStart(mid.vals[val], end.vals[val], del);
      }
    }
  }

  lemma SameStart(v: Val, w: Val, del: string)
    requires SameInputs(v, w, del)
    ensures del in v.starts ==> del in w.starts && w.starts[del] == v.starts[del]
  {
  }

  lemma StepKeepsSlashes(env: Env, st: State, x: Visit, val: string)
    requires StepVisit(env, st, x).Stepped? && val in st.vals && x != Ghost(val)
    ensures var end := StepVisit(env, st, x).st; val in end.vals && end.vals[val].slashes == st.vals[val].slashes
  {
    hide StepVisit;
    var other := if x.Delegation? then x.del + "'" else "";
    assert x.Delegation? ==> |other| != |x.del|;
    StepKeepsInputs(env, st, x, val, other);
  }

  lemma PatchStartsNow(env: Env, st: State, val: string, del: string)
    requires val in st.vals && StepVisit(env, st, Delegation(val, del)).Stepped?
    requires StepVisit(env, st, Delegation(val, del)).patched
    ensures var end := StepVisit(env, st, Delegation(val, del)).st;
            val in end.vals && del in end.vals[val].starts && end.vals[val].starts[del].height == env.height
  {
    hide PatchWithShares, EndPeriod, StartDelegation, DropStart;
    var _, dropped := PatchedShape(env, st, val, del, st.vals[val].delegations[del]);
    StartedNow(dropped, del, env.height);
  }

  /** Without a ghost event, a run patches a delegation exactly when it visits it and it was pending before the run. */
  lemma {:induction false} CountBeforeGhost(env: Env, st: State, xs: seq<Visit>, val: string, del: string)
    requires RunVisits(env, st, xs).Passed? && val in st.vals && val !in Ghosted(xs)
    ensures PatchCount(env, st, xs, val, del) ==
            if Delegation(val, del) in xs && Pending(st.vals[val], del, env.height) then 1 else 0
  {
    hide StepVisit, Settled, Ghosted, SameInputs, Pending;
    if xs != [] {
      var n := |xs| - 1;
      var x := xs[n];
      GhostedPrefix(xs, val);
      CountBeforeGhost(env, st, xs[..n], val, del);
      PaidAtMostOnce(env, st, xs[..n], val, del);
      UntilGhost(env, st, xs[..n], val, del);
      var mid := RunVisits(env, st, xs[..n]).st;
      assert Delegation(val, del) in xs <==> Delegation(val, del) in xs[..n] || x == Delegation(val, del);
      if x == Delegation(val, del) {
        if x in xs[..n] {
          SettledIsNotPatched(env, mid, val, del);
        } else {
          VisitedExists(env, mid, val, del);
          VisitPatchesPending(env, mid, val, del);
          PendingFrame(st.vals[val], mid.vals[val], del, env.height);
        }
      }
    }
  }

  lemma VisitedExists(env: Env, st: State, val: string, del: string)
    requires StepVisit(env, st, Delegation(val, del)).Stepped?
    ensures val in st.vals && del in st.vals[val].delegations
  {
    hide PatchWithShares;
  }

  /** The same over a pass, whose ghost events come last. */
  lemma {:induction false} PassPatchesPending(env: Env, st: State, xs: seq<Visit>, val: string, del: string)
    requires RunVisits(env, st, xs).Passed? && val in st.vals && GhostsLast(xs)
    ensures PatchCount(env, st, xs, val, del) ==
            if Delegation(val, del) in xs && Pending(st.vals[val], del, env.height) then 1 else 0
  {
    hide StepVisit, Ghosted, Pending;
    if xs != [] {
      var n := |xs| - 1;
      GhostedSnoc(xs);
      if xs[n] == Delegation(val, del) {
        CountBeforeGhost(env, st, xs, val, del);
      } else {
        PassPatchesPending(env, st, xs[..n], val, del);
        assert Delegation(val, del) in xs <==> Delegation(val, del) in xs[..n];
      }
    }
  }

  // ---------------------------------------------------------------- what the ghost event does to a stake

  /** Store order of slash events: by height, then period. */
  ghost predicate Ordered(slashes: seq<Slash>) {
    forall i, j :: 0 <= i < j < |slashes| ==> Before(slashes[i], slashes[j])
  }

  /** Before the ghost's height nothing changes. */
  lemma {:induction false} GhostOutOfRange(slashes: seq<Slash>, e: Slash, lo: nat, hi: nat)
    requires e.height < lo
    ensures EventsBetween(SetSlash(slashes, e), lo, hi) == EventsBetween(slashes, lo, hi)
  {
    if slashes != [] {
      var n := |slashes| - 1;
      if Before(slashes[n], e) {
        assert (slashes + [e])[..n + 1] == slashes;
      } else if Before(e, slashes[n]) {
        GhostOutOfRange(slashes[..n], e, lo, hi);
        var front := SetSlash(slashes[..n], e);
        assert (front + [slashes[n]])[..|front|] == front;
      } else {
        assert (slashes[..n] + [e])[..n] == slashes[..n];
      }
    }
  }

  lemma {:induction false} EarlyEvents(slashes: seq<Slash>, lo: nat, hi: nat)
    requires 1 <= hi && forall i :: 0 <= i < |slashes| ==> slashes[i].height <= 1
    ensures EventsBetween(slashes, lo, hi) == EventsBetween(slashes, lo, 1)
  {
    if slashes != [] { EarlyEvents(slashes[..|slashes| - 1], lo, hi); }
  }

  lemma {:induction false} PeriodBelow(start: Start, events: seq<Slash>, p: nat)
    requires start.period < p && forall i :: 0 <= i < |events| ==> events[i].period < p
    ensures SlashOnly(start, events).1 < p
  {
    if events != [] { PeriodBelow(start, events[..|events| - 1], p); }
  }

  lemma SlashOnlySnoc(start: Start, events: seq<Slash>, e: Slash)
    ensures var (stake, period) := SlashOnly(start, events);
            SlashOnly(start, events + [e]) ==
            if e.period <= period then (stake, period) else (MulTruncate(stake, ONE - e.fraction), e.period)
  {
    assert (events + [e])[..|events|] == events;
  }

  lemma EventsSnoc(slashes: seq<Slash>, e: Slash, lo: nat, hi: nat)
    ensures EventsBetween(slashes + [e], lo, hi) ==
            if lo <= e.height <= hi then EventsBetween(slashes, lo, hi) + [e] else EventsBetween(slashes, lo, hi)
  {
    assert (slashes + [e])[..|slashes|] == slashes;
  }

  /**
   From a start at or before height 1 the ghost event is met first among the later
   ones and names the running period, so it takes its fraction and every later slash
   is passed over.
   */
  lemma {:induction false} GhostMasks(start: Start, slashes: seq<Slash>, e: Slash, hi: nat)
    requires e.height == 1 && start.height <= 1 <= hi && start.period < e.period && Ordered(slashes)
    requires forall i :: 0 <= i < |slashes| ==> slashes[i].period < e.period
    ensures SlashOnly(start, EventsBetween(SetSlash(slashes, e), start.height, hi)) ==
            (MulTruncate(SlashOnly(start, EventsBetween(slashes, start.height, 1)).0, ONE - e.fraction), e.period)
  {
    hide MulTruncate, EventsBetween, SlashOnly;
    var lo := start.height;
    if slashes == [] {
      EmptyEvents(lo, hi);
      EmptyEvents(lo, 1);
      EventsSnoc([], e, lo, hi);
      SlashOnlySnoc(start, [], e);
      PeriodBelow(start, [], e.period);
      assert [] + [e] == [e];
    } else {
      var n := |slashes| - 1;
      var front, last := slashes[..n], slashes[n];
      assert slashes == front + [last];
      if Before(last, e) {
        AllEarly(slashes, e);
        EventsSnoc(slashes, e, lo, hi);
        EarlyEvents(slashes, lo, hi);
        BelowEvents(slashes, lo, 1, e.period);
        PeriodBelow(start, EventsBetween(slashes, lo, 1), e.period);
        SlashOnlySnoc(start, EventsBetween(slashes, lo, hi), e);
      } else {
        assert Before(e, last) && last.height > 1;
        GhostMasks(start, front, e, hi);
        EventsSnoc(SetSlash(front, e), last, lo, hi);
        EventsSnoc(front, last, lo, 1);
        SlashOnlySnoc(start, EventsBetween(SetSlash(front, e), lo, hi), last);
      }
    }
  }

  lemma EmptyEvents(lo: nat, hi: nat)
    ensures EventsBetween([], lo, hi) == []
  {
  }

  lemma AllEarly(slashes: seq<Slash>, e: Slash)
    requires slashes != [] && Ordered(slashes) && Before(slashes[|slashes| - 1], e) && e.height == 1
    ensures forall i :: 0 <= i < |slashes| ==> slashes[i].height <= 1
  {
    forall i | 0 <= i < |slashes| ensures slashes[i].height <= 1 {
      if i < |slashes| - 1 { assert Before(slashes[i], slashes[|slashes| - 1]); }
    }
  }

  lemma {:induction false} BelowEvents(slashes: seq<Slash>, lo: nat, hi: nat, p: nat)
    requires forall i :: 0 <= i < |slashes| ==> slashes[i].period < p
    ensures forall i :: 0 <= i < |EventsBetween(slashes, lo, hi)| ==> EventsBetween(slashes, lo, hi)[i].period < p
  {
    if slashes != [] { BelowEvents(slashes[..|slashes| - 1], lo, hi, p); }
  }

  /** The ghost event again changes nothing. */
  lemma {:induction false} GhostTwice(slashes: seq<Slash>, e: Slash)
    ensures SetSlash(SetSlash(slashes, e), e) == SetSlash(slashes, e)
  {
    if slashes != [] {
      var n := |slashes| - 1;
      var once := SetSlash(slashes, e);
      if Before(slashes[n], e) {
        assert once[..n + 1] == slashes && once[n + 1] == e;
      } else if Before(e, slashes[n]) {
        GhostTwice(slashes[..n], e);
        var front := SetSlash(slashes[..n], e);
        assert once[..|front|] == front && once[|front|] == slashes[n];
      } else {
        assert once[..n] == slashes[..n] && once[n] == e;
      }
    }
  }

  // ---------------------------------------------------------------- which delegations the ghost event revives

  /**
   A settled delegation, started at height 0 or 1, that owes being settled to slashes
   after height 1: without them, and less the smallest fraction, its stake exceeds
   the current one.
   */
  ghost predicate Revives(v: Val, del: string, height: nat) {
    && del in v.starts && del in v.delegations && v.delegations[del] > 0 && v.shares > 0
    && v.starts[del].height <= 1 && v.starts[del].height < height
    && Settled(v, del, height)
    && MulTruncate(SlashOnly(v.starts[del], EventsBetween(v.slashes, v.starts[del].height, 1)).0, ONE - 1) >
       CurrentStake(v, v.delegations[del])
  }

  /** The ghost event makes pending exactly the settled delegations it revives. */
  lemma GhostPends(v: Val, del: string, height: nat)
    requires RefInv(v) && Ordered(v.slashes) && Settled(v, del, height)
    ensures Pending(GhostSlash(v), del, height) <==> Revives(v, del, height)
  {
    hide SlashOnly, EventsBetween, QuoRound, MulTruncate, SetSlash, RecordAt, RefsHeld;
    if del in v.starts {
      var start := v.starts[del];
      var e := Slash(1, v.period, 1);
      if start.height > 1 {
        GhostOutOfRange(v.slashes, e, start.height, height);
      } else if start.height < height {
        GhostMasks(start, v.slashes, e, height);
      }
    }
  }

  lemma RevivesFrame(v: Val, w: Val, del: string, height: nat)
    requires SameInputs(v, w, del) && del in w.delegations
    ensures Revives(w, del, height) <==> Revives(v, del, height)
  {
    hide SlashOnly, EventsBetween, QuoRound, MulTruncate;
  }

  /** The state of a ghosted validator is that of an exact one with the ghost event put in, last. */
  lemma {:induction false} GhostMoment(env: Env, st: State, xs: seq<Visit>, val: string, del: string) returns (v: Val)
    requires RefsOk(st, {}) && GhostsLast(xs) && RunVisits(env, st, xs).Passed?
    requires val in st.vals && val in Ghosted(xs) && Delegation(val, del) in xs
    ensures val in RunVisits(env, st, xs).st.vals && RunVisits(env, st, xs).st.vals[val] == GhostSlash(v)
    ensures RefInv(v) && v.slashes == st.vals[val].slashes && Settled(v, del, env.height)
    ensures if Pending(st.vals[val], del, env.height) then del in v.starts && v.starts[del].height == env.height
            else SameInputs(st.vals[val], v, del)
  {
    hide StepVisit, Settled, Ghosted, SameInputs, Pending, RefInv, GhostSlash;
    v := st.vals[val];
    if xs == [] {
      NothingGhosted();
    } else {
      var n := |xs| - 1;
      var front, x := xs[..n], xs[n];
      GhostedSnoc(xs);
      var mid := RunVisits(env, st, front).st;
      assert x != Delegation(val, del) ==> Delegation(val, del) in front;
      StepLeaves(env, mid, x, val);
      if val in Ghosted(front) {
        v := GhostMoment(env, st, front, val, del);
        if x == Ghost(val) { GhostSlashTwice(v); }
      } else {
        v := mid.vals[val];
        PassKeepsRefs(env, st, front);
        PaidAtMostOnce(env, st, front, val, del);
        UntilGhost(env, st, front, val, del);
        CountBeforeGhost(env, st, front, val, del);
      }
    }
  }

  lemma GhostSlashTwice(v: Val)
    ensures GhostSlash(GhostSlash(v)) == GhostSlash(v)
  {
    GhostTwice(v.slashes, Slash(1, v.period, 1));
  }

  // ---------------------------------------------------------------- the second pass

  /**
   The second pass at the same height, delegation by delegation: one the first pass
   visited is patched again exactly when its validator got the ghost event and, in
   the state before both passes, that event revives it.
   */
  lemma SecondPassCount(env: Env, st: State, first: seq<Visit>, second: seq<Visit>, val: string, del: string)
    requires RefsOk(st, {}) && val in st.vals && Ordered(st.vals[val].slashes)
    requires GhostsLast(first) && RunVisits(env, st, first).Passed? && Delegation(val, del) in first
    requires GhostsLast(second) && RunVisits(env, RunVisits(env, st, first).st, second).Passed?
    requires Delegation(val, del) in second
    ensures PatchCount(env, RunVisits(env, st, first).st, second, val, del) ==
            if val in Ghosted(first) && Revives(st.vals[val], del, env.height) then 1 else 0
  {
    hide RunVisits, StepVisit, Settled, Ghosted, SameInputs, Pending, RefInv, GhostSlash, Revives, PatchCount;
    var mid := RunVisits(env, st, first).st;
    PassKeepsValidators(env, st, first);
    PassPatchesPending(env, mid, second, val, del);
    if val !in Ghosted(first) {
      PaidAtMostOnce(env, st, first, val, del);
      SettledIsNotPending(mid.vals[val], del, env.height);
    } else {
      var v := GhostMoment(env, st, first, val, del);
      PassVisitsExisting(env, mid, second, val, del);
      GhostDelegations(v);
      GhostPends(v, del, env.height);
      if Pending(st.vals[val], del, env.height) {
        StartedNowIsNotRevived(st.vals[val], v, del, env.height);
      } else {
        RevivesFrame(st.vals[val], v, del, env.height);
      }
    }
  }

  lemma SettledIsNotPending(v: Val, del: string, height: nat)
    requires Settled(v, del, height)
    ensures !Pending(v, del, height)
  {
  }

  lemma GhostDelegations(v: Val)
    ensures GhostSlash(v).delegations == v.delegations
  {
  }

  lemma StartedNowIsNotRevived(before: Val, v: Val, del: string, height: nat)
    requires Pending(before, del, height) && del in v.starts && v.starts[del].height == height
    ensures !Revives(before, del, height) && !Revives(v, del, height)
  {
  }

  lemma {:induction false} PassKeepsValidators(env: Env, st: State, xs: seq<Visit>)
    requires RunVisits(env, st, xs).Passed?
    ensures RunVisits(env, st, xs).st.vals.Keys == st.vals.Keys
  {
    hide StepVisit;
    if xs != [] {
      var n := |xs| - 1;
      PassKeepsValidators(env, st, xs[..n]);
      StepKeepsValidators(env, RunVisits(env, st, xs[..n]).st, xs[n]);
    }
  }

  lemma StepDropsDelegations(env: Env, st: State, x: Visit, val: string)
    requires StepVisit(env, st, x).Stepped? && val in st.vals
    ensures var end := StepVisit(env, st, x).st;
            val in end.vals && end.vals[val].delegations.Keys <= st.vals[val].delegations.Keys
  {
    hide StepVisit;
    if x == Ghost(val) {
      StepLeaves(env, st, x, val);
      GhostDelegations(st.vals[val]);
    } else {
      StepKeepsValidators(env, st, x);
      var end := StepVisit(env, st, x).st;
      forall del | del in end.vals[val].delegations ensures del in st.vals[val].delegations {
        if x == Delegation(val, del) {
          VisitedExists(env, st, val, del);
        } else {
          StepKeepsInputs(env, st, x, val, del);
        }
      }
    }
  }

  lemma {:induction false} PassDropsDelegations(env: Env, st: State, xs: seq<Visit>, val: string)
    requires RunVisits(env, st, xs).Passed? && val in st.vals
    ensures var end := RunVisits(env, st, xs).st;
            val in end.vals && end.vals[val].delegations.Keys <= st.vals[val].delegations.Keys
  {
    hide StepVisit;
    if xs != [] {
      var n := |xs| - 1;
      PassDropsDelegations(env, st, xs[..n], val);
      StepDropsDelegations(env, RunVisits(env, st, xs[..n]).st, xs[n], val);
    }
  }

  /** No pass removes a delegation with shares. */
  lemma {:induction false} PassKeepsShares(env: Env, st: State, xs: seq<Visit>, val: string, del: string)
    requires RunVisits(env, st, xs).Passed?
    requires val in st.vals && del in st.vals[val].delegations && st.vals[val].delegations[del] > 0
    ensures var end := RunVisits(env, st, xs).st;
            && val in end.vals && del in end.vals[val].delegations
            && end.vals[val].delegations[del] == st.vals[val].delegations[del]
  {
    hide StepVisit;
    if xs != [] {
      var n := |xs| - 1;
      PassKeepsShares(env, st, xs[..n], val, del);
      StepKeepsShares(env, RunVisits(env, st, xs[..n]).st, xs[n], val, del);
    }
  }

  lemma StepKeepsShares(env: Env, st: State, x: Visit, val: string, del: string)
    requires StepVisit(env, st, x).Stepped?
    requires val in st.vals && del in st.vals[val].delegations && st.vals[val].delegations[del] > 0
    ensures var end := StepVisit(env, st, x).st;
            && val in end.vals && del in end.vals[val].delegations
            && end.vals[val].delegations[del] == st.vals[val].delegations[del]
  {
    hide StepVisit;
    StepLeaves(env, st, x, val);
    if x == Ghost(val) {
      GhostDelegations(st.vals[val]);
    } else if x.val == val {
      StepDelegations(env, st, val, x.del);
    }
  }

  /** Whatever a run visited was there before the run. */
  lemma {:induction false} PassVisitsExisting(env: Env, st: State, xs: seq<Visit>, val: string, del: string)
    requires RunVisits(env, st, xs).Passed? && Delegation(val, del) in xs
    ensures val in st.vals && del in st.vals[val].delegations
  {
    hide StepVisit;
    var n := |xs| - 1;
    if xs[n] == Delegation(val, del) {
      var mid := RunVisits(env, st, xs[..n]).st;
      VisitedExists(env, mid, val, del);
      PassKeepsValidators(env, st, xs[..n]);
      PassDropsDelegations(env, st, xs[..n], val);
    } else {
      PassVisitsExisting(env, st, xs[..n], val, del);
    }
  }

  /** The number of patches is zero exactly when each delegation's is. */
  lemma {:induction false} CountIsZero(env: Env, st: State, xs: seq<Visit>)
    requires RunVisits(env, st, xs).Passed?
    ensures RunVisits(env, st, xs).count == 0 <==>
            forall val, del :: Delegation(val, del) in xs ==> PatchCount(env, st, xs, val, del) == 0
  {
    hide StepVisit;
    if xs != [] {
      var n := |xs| - 1;
      var front, x := xs[..n], xs[n];
      CountIsZero(env, st, front);
      var mid := RunVisits(env, st, front).st;
      if x.Ghost? { GhostPatchesNothing(env, mid, x); }
      if RunVisits(env, st, xs).count == 0 {
        forall val, del | Delegation(val, del) in xs ensures PatchCount(env, st, xs, val, del) == 0 {
          if Delegation(val, del) !in front { NotVisitedNotPatched(env, st, front, val, del); }
        }
      } else if RunVisits(env, st, front).count != 0 {
        var val, del :| Delegation(val, del) in front && PatchCount(env, st, front, val, del) != 0;
        assert Delegation(val, del) in xs && PatchCount(env, st, xs, val, del) != 0;
      } else {
        assert x == Delegation(x.val, x.del) && PatchCount(env, st, xs, x.val, x.del) != 0;
      }
    }
  }

  lemma {:induction false} NotVisitedNotPatched(env: Env, st: State, xs: seq<Visit>, val: string, del: string)
    requires Delegation(val, del) !in xs
    ensures PatchCount(env, st, xs, val, del) == 0
  {
    hide StepVisit;
    if xs != [] { NotVisitedNotPatched(env, st, xs[..|xs| - 1], val, del); }
  }

  /**
   The second pass as a whole patches nothing if and only if the ghost event of the
   first revives none of the delegations it visits.
   */
  lemma SecondPassPatchesNothing(env: Env, st: State, first: seq<Visit>, second: seq<Visit>)
    requires RefsOk(st, {}) && forall val :: val in Ghosted(first) && val in st.vals ==> Ordered(st.vals[val].slashes)
    requires GhostsLast(first) && RunVisits(env, st, first).Passed?
    requires GhostsLast(second) && RunVisits(env, RunVisits(env, st, first).st, second).Passed?
    requires forall x :: x in second && x.Delegation? ==> x in first
    ensures RunVisits(env, RunVisits(env, st, first).st, second).count == 0 <==>
            forall val, del :: Delegation(val, del) in second && val in Ghosted(first) && val in st.vals ==>
              !Revives(st.vals[val], del, env.height)
  {
    hide RunVisits, StepVisit, Ghosted, Revives, RefsOk, GhostsLast, PatchCount;
    var mid := RunVisits(env, st, first).st;
    CountIsZero(env, mid, second);
    forall val, del | Delegation(val, del) in second
      ensures val in st.vals
      ensures PatchCount(env, mid, second, val, del) != 0 <==>
              val in Ghosted(first) && Revives(st.vals[val], del, env.height)
    {
      PassVisitsExisting(env, st, first, val, del);
      if val in Ghosted(first) {
        SecondPassCount(env, st, first, second, val, del);
      } else {
        UnghostedSecondPass(env, st, first, second, val, del);
      }
    }
  }

  /** Off the ghosted validators a second pass patches nothing, in whatever order events are stored. */
  lemma UnghostedSecondPass(env: Env, st: State, first: seq<Visit>, second: seq<Visit>, val: string, del: string)
    requires val in st.vals && val !in Ghosted(first)
    requires RunVisits(env, st, first).Passed? && Delegation(val, del) in first
    requires GhostsLast(second) && RunVisits(env, RunVisits(env, st, first).st, second).Passed?
    ensures PatchCount(env, RunVisits(env, st, first).st, second, val, del) == 0
  {
    hide RunVisits, StepVisit, Settled, Ghosted, Pending, PatchCount;
    PaidAtMostOnce(env, st, first, val, del);
    var mid := RunVisits(env, st, first).st;
    SettledIsNotPending(mid.vals[val], del, env.height);
    PassPatchesPending(env, mid, second, val, del);
  }
}
