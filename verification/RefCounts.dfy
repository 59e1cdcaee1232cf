/**
 Historical records and who refers to them (app/upgrades/v520/patch.go,
 customDecrementReferenceCount, customIncrementReferenceCount,
 customInitializeDelegation), and IncrementValidatorPeriod, which belongs to
 x/distribution and is a contract.

 A record's references are the delegations that start at its period, the slash
 events that end it, and the validator's own for the last ended period.
 */
module RefCounts {
  import opened Types
  import opened Dec
  import opened Rewards

  // ---------------------------------------------------------------- references held

  function StartsAt(starts: map<string, Start>, p: nat): set<string> {
    set d | d in starts && starts[d].period == p
  }

  function SlashRefs(slashes: seq<Slash>, p: nat): nat {
    if slashes == [] then 0
    else SlashRefs(slashes[..|slashes| - 1], p) + (if slashes[|slashes| - 1].period == p then 1 else 0)
  }

  function RefsHeld(v: Val, p: nat): nat {
    |StartsAt(v.starts, p)| + SlashRefs(v.slashes, p) + (if p + 1 == v.period then 1 else 0)
  }

  /**
   Every count equals the references held, a record exists exactly while it is
   referred to, and nothing refers to the running period or beyond.
   */
  ghost predicate RefInv(v: Val) {
    && v.period >= 1
    && (forall p: nat :: RecordAt(v, p).refs == RefsHeld(v, p))
    && (forall p: nat :: p in v.hist ==> v.hist[p].refs > 0)
    && (forall d :: d in v.starts ==> v.starts[d].period < v.period)
    && (forall i :: 0 <= i < |v.slashes| ==> v.slashes[i].period < v.period)
  }

  /** Under the invariant, a record is present exactly when something refers to it. */
  lemma PresentIffReferred(v: Val, p: nat)
    requires RefInv(v)
    ensures p in v.hist <==> RefsHeld(v, p) > 0
  {
    assert RecordAt(v, p).refs == RefsHeld(v, p);
  }

  lemma {:induction false} NoSlashRefs(slashes: seq<Slash>, p: nat)
    requires forall i :: 0 <= i < |slashes| ==> slashes[i].period < p
    ensures SlashRefs(slashes, p) == 0
  {
    if slashes != [] { NoSlashRefs(slashes[..|slashes| - 1], p); }
  }

  lemma StartsWithout(starts: map<string, Start>, del: string, p: nat)
    requires del in starts
    ensures |StartsAt(starts - {del}, p)| == |StartsAt(starts, p)| - (if starts[del].period == p then 1 else 0)
  {
    assert StartsAt(starts - {del}, p) == StartsAt(starts, p) - {del};
  }

  lemma StartsWith(starts: map<string, Start>, del: string, s: Start, p: nat)
    requires del !in starts
    ensures |StartsAt(starts[del := s], p)| == |StartsAt(starts, p)| + (if s.period == p then 1 else 0)
  {
    if s.period == p {
      assert StartsAt(starts[del := s], p) == StartsAt(starts, p) + {del};
    } else {
      assert StartsAt(starts[del := s], p) == StartsAt(starts, p);
    }
  }

  // ---------------------------------------------------------------- counting

  /** customDecrementReferenceCount on the records; None is the panic. */
  function Decrement(hist: map<nat, Hist>, p: nat): Option<map<nat, Hist>> {
    if p !in hist || hist[p].refs == 0 then None
    else if hist[p].refs == 1 then Some(hist - {p})
    else Some(hist[p := hist[p].(refs := hist[p].refs - 1)])
  }

  /** customIncrementReferenceCount on the records; None is the panic. */
  function Increment(hist: map<nat, Hist>, p: nat): Option<map<nat, Hist>> {
    var h := if p in hist then hist[p] else Hist(map[], 0);
    if h.refs > 2 then None else Some(hist[p := h.(refs := h.refs + 1)])
  }

  // ---------------------------------------------------------------- ending a period

  datatype PeriodEnd = PeriodPanic(why: Panic) | PeriodEnded(v: Val, toPool: Coins)

  /** IncrementValidatorPeriod: ends the running period, whose number is v.period. */
  function EndPeriod(v: Val): PeriodEnd {
    if v.tokens == 0 && !Covers(v.outstanding, v.current) then PeriodPanic(NegativeOutstanding)
    else if v.period == 0 then PeriodPanic(RefUnderflow)
    else
      var hist := Decrement(v.hist, v.period - 1);
      if hist.None? then PeriodPanic(RefUnderflow)
      else
        var growth := if v.tokens == 0 then map[] else QuoDecTruncate(v.current, v.tokens * ONE);
        var ratio := Add(RecordAt(v, v.period - 1).ratio, growth);
        PeriodEnded(
          v.(hist := hist.value[v.period := Hist(ratio, 1)],
             outstanding := if v.tokens == 0 then Sub(v.outstanding, v.current) else v.outstanding,
             current := map[],
             period := v.period + 1),
          if v.tokens == 0 then v.current else map[])
  }

  /**
   Ending a period keeps the counts exact, never panics on them, and leaves one
   reference, the validator's, on the new record.
   */
  lemma EndPeriodKeepsRefs(v: Val)
    requires RefInv(v)
    ensures EndPeriod(v) != PeriodPanic(RefUnderflow)
    ensures EndPeriod(v).PeriodPanic? <==> v.tokens == 0 && !Covers(v.outstanding, v.current)
    ensures EndPeriod(v).PeriodEnded? ==>
              var w := EndPeriod(v).v;
              RefInv(w) && w.period == v.period + 1 && RecordAt(w, v.period).refs == 1
  {
    hide RefInv, StartsAt, SlashRefs, Covers, Add, Sub, QuoDecTruncate;
    PeriodAtLeastOne(v);
    RefsExact(v, v.period - 1);
    if EndPeriod(v).PeriodEnded? {
      var w := EndPeriod(v).v;
      forall p: nat ensures RecordAt(w, p).refs == RefsHeld(w, p) {
        hide EndPeriod;
        RefsExact(v, p);
        EndPeriodRecord(v, p);
        if p == v.period { FreshPeriod(v); }
      }
      EndPeriodPositive(v);
      EndPeriodRecord(v, v.period);
      LaterPeriod(v, w);
    }
  }

  lemma PeriodAtLeastOne(v: Val)
    requires RefInv(v)
    ensures v.period >= 1
  {
  }

  lemma LaterPeriod(v: Val, w: Val)
    requires RefInv(v) && w.starts == v.starts && w.slashes == v.slashes && w.period == v.period + 1
    requires forall p: nat :: RecordAt(w, p).refs == RefsHeld(w, p)
    requires forall p: nat :: p in w.hist ==> w.hist[p].refs > 0
    ensures RefInv(w)
  {
    hide RefsHeld, RecordAt;
  }

  lemma EndPeriodPositive(v: Val)
    requires RefInv(v) && EndPeriod(v).PeriodEnded?
    ensures forall p: nat :: p in EndPeriod(v).v.hist ==> EndPeriod(v).v.hist[p].refs > 0
  {
    hide RefsHeld, RecordAt, Add, Sub, QuoDecTruncate, Covers, Decrement;
    DecrementPositive(v.hist, v.period - 1);
  }

  lemma DecrementPositive(hist: map<nat, Hist>, p: nat)
    requires Decrement(hist, p).Some? && forall q: nat :: q in hist ==> hist[q].refs > 0
    ensures forall q: nat :: q in Decrement(hist, p).value ==> Decrement(hist, p).value[q].refs > 0
  {
  }

  lemma RefsExact(v: Val, p: nat)
    requires RefInv(v)
    ensures RecordAt(v, p).refs == RefsHeld(v, p)
  {
  }

  /** The count on each record after a period ended. */
  lemma EndPeriodRecord(v: Val, p: nat)
    requires EndPeriod(v).PeriodEnded?
    ensures v.period >= 1
    ensures RecordAt(EndPeriod(v).v, p).refs ==
            if p == v.period then 1 else if p == v.period - 1 then RecordAt(v, p).refs - 1 else RecordAt(v, p).refs
  {
    hide Add, Sub, QuoDecTruncate, Covers;
  }

  lemma FreshPeriod(v: Val)
    requires RefInv(v)
    ensures StartsAt(v.starts, v.period) == {} && SlashRefs(v.slashes, v.period) == 0
  {
    NoSlashRefs(v.slashes, v.period);
  }

  /**
   The cumulative ratio never falls from one period to the next and grows by no more
   exactly what the period's rewards give per token, truncated; without tokens the
   rewards leave outstanding for the pool instead.
   */
  lemma EndPeriodAccounts(v: Val, d: Denom)
    requires EndPeriod(v).PeriodEnded?
    ensures var e := EndPeriod(v);
            && Ratio(e.v, v.period, d) >= Ratio(v, v.period - 1, d)
            && (v.tokens > 0 ==>
                  var growth := Ratio(e.v, v.period, d) - Ratio(v, v.period - 1, d);
                  growth * v.tokens <= Amount(v.current, d) < (growth + 1) * v.tokens)
            && (v.tokens == 0 ==> Ratio(e.v, v.period, d) == Ratio(v, v.period - 1, d))
            && Amount(e.toPool, d) == (if v.tokens == 0 then Amount(v.current, d) else 0)
            && Amount(e.v.outstanding, d) + Amount(e.toPool, d) == Amount(v.outstanding, d)
            && Amount(e.v.current, d) == 0
  {
    hide Decrement, QuoTruncate;
    if v.tokens > 0 { PerToken(Amount(v.current, d), v.tokens); }
  }

  /** Every other record keeps its ratio as long as it is there. */
  lemma EndPeriodKeepsRatios(v: Val, p: nat)
    requires EndPeriod(v).PeriodEnded? && p != v.period && p in EndPeriod(v).v.hist
    ensures p in v.hist && EndPeriod(v).v.hist[p].ratio == v.hist[p].ratio
  {
    hide Add, Sub, QuoDecTruncate, Covers;
  }

  lemma PerToken(a: nat, tokens: nat)
    requires tokens > 0
    ensures QuoTruncate(a, tokens * ONE) * tokens <= a < (QuoTruncate(a, tokens * ONE) + 1) * tokens
  {
    var q := QuoTruncate(a, tokens * ONE);
    QuoTruncated(a, tokens * ONE);
    assert q * (tokens * ONE) == (q * tokens) * ONE;
    assert (q + 1) * (tokens * ONE) == ((q + 1) * tokens) * ONE;
  }

  // ---------------------------------------------------------------- withdrawing and starting again

  /** The end of a withdrawal: drop the reference on the starting period, then the starting info. */
  function DropStart(v: Val, del: string): Option<Val>
    requires del in v.starts
  {
    var hist := Decrement(v.hist, v.starts[del].period);
    if hist.None? then None else Some(v.(hist := hist.value, starts := v.starts - {del}))
  }

  lemma DropStartKeepsRefs(v: Val, del: string)
    requires RefInv(v) && del in v.starts
    ensures DropStart(v, del).Some? && RefInv(DropStart(v, del).value)
  {
    hide RefInv, StartsAt, SlashRefs, Decrement;
    var q := v.starts[del].period;
    RefsExact(v, q);
    StartsWithout(v.starts, del, q);
    DecrementSucceeds(v, q);
    var w := DropStart(v, del).value;
    forall p: nat ensures RecordAt(w, p).refs == RefsHeld(w, p) {
      RefsExact(v, p);
      StartsWithout(v.starts, del, p);
      DropRecord(v, del, p);
    }
    DropPositive(v, del);
    FewerStarts(v, w);
  }

  lemma DecrementSucceeds(v: Val, p: nat)
    requires RecordAt(v, p).refs > 0
    ensures Decrement(v.hist, p).Some?
  {
  }

  lemma DropRecord(v: Val, del: string, p: nat)
    requires del in v.starts && DropStart(v, del).Some?
    ensures RecordAt(DropStart(v, del).value, p).refs ==
            RecordAt(v, p).refs - (if p == v.starts[del].period then 1 else 0)
  {
  }

  lemma DropPositive(v: Val, del: string)
    requires RefInv(v) && del in v.starts && DropStart(v, del).Some?
    ensures forall p: nat :: p in DropStart(v, del).value.hist ==> DropStart(v, del).value.hist[p].refs > 0
  {
    hide RefsHeld, RecordAt;
  }

  lemma FewerStarts(v: Val, w: Val)
    requires RefInv(v) && w.slashes == v.slashes && w.period == v.period
    requires forall d :: d in w.starts ==> d in v.starts && w.starts[d] == v.starts[d]
    requires forall p: nat :: RecordAt(w, p).refs == RefsHeld(w, p)
    requires forall p: nat :: p in w.hist ==> w.hist[p].refs > 0
    ensures RefInv(w)
  {
    hide RefsHeld, RecordAt;
  }

  /** TokensFromSharesTruncated. */
  function TruncatedStake(v: Val, shares: nat): nat
    requires v.shares > 0
  {
    QuoTruncate(shares * v.tokens, v.shares)
  }

  datatype Init = InitPanic(why: Panic) | NoDelegation | Started(v: Val)

  /** customInitializeDelegation; period 0 would wrap around. */
  function StartDelegation(v: Val, del: string, height: nat): Init {
    var previous := if v.period == 0 then 0xffff_ffff_ffff_ffff else v.period - 1;
    var hist := Increment(v.hist, previous);
    if hist.None? then InitPanic(RefOverflow)
    else if del !in v.delegations then NoDelegation
    else if v.shares == 0 then InitPanic(NoShares)
    else
      var stake := TruncatedStake(v, v.delegations[del]);
      Started(v.(hist := hist.value, starts := v.starts[del := Start(previous, stake, height)]))
  }

  /**
   Starting a delegation keeps every count exact. It overflows exactly when more
   than two references are held on the last record, and panics otherwise only on a
   validator without shares.
   */
  lemma StartKeepsRefs(v: Val, del: string, height: nat)
    requires RefInv(v) && del !in v.starts
    ensures StartDelegation(v, del, height) == InitPanic(RefOverflow) <==> RefsHeld(v, v.period - 1) > 2
    ensures StartDelegation(v, del, height) == InitPanic(NoShares) <==>
            RefsHeld(v, v.period - 1) <= 2 && del in v.delegations && v.shares == 0
    ensures StartDelegation(v, del, height).InitPanic? ==>
              StartDelegation(v, del, height).why in {RefOverflow, NoShares}
    ensures StartDelegation(v, del, height).Started? ==> RefInv(StartDelegation(v, del, height).v)
  {
    hide RefInv, RefsHeld, TruncatedStake;
    PeriodAtLeastOne(v);
    RefsExact(v, v.period - 1);
    if StartDelegation(v, del, height).Started? { StartedRefs(v, del, height); }
  }

  lemma StartedRefs(v: Val, del: string, height: nat)
    requires RefInv(v) && del !in v.starts && StartDelegation(v, del, height).Started?
    ensures RefInv(StartDelegation(v, del, height).v)
  {
    hide StartsAt, SlashRefs, TruncatedStake;
    var w := StartDelegation(v, del, height).v;
    forall p: nat ensures RecordAt(w, p).refs == RefsHeld(w, p) {
      assert RecordAt(v, p).refs == RefsHeld(v, p);
      StartsWith(v.starts, del, w.starts[del], p);
    }
  }

  /** The stake a started delegation gets: its part of the tokens, truncated, at this height and the last period. */
  lemma StartStoresStake(v: Val, del: string, height: nat)
    requires StartDelegation(v, del, height).Started? && v.period >= 1
    ensures del in v.delegations && del in StartDelegation(v, del, height).v.starts
    ensures var s := StartDelegation(v, del, height).v.starts[del];
            && s.height == height && s.period == v.period - 1 && s.stake >= 0
            && s.stake * v.shares <= v.delegations[del] * v.tokens * ONE < (s.stake + 1) * v.shares
  {
    hide Increment;
    QuoTruncated(v.delegations[del] * v.tokens, v.shares);
  }

  /** Starting a delegation touches its own starting info and one count, and no ratio. */
  lemma StartFrame(v: Val, del: string, height: nat)
    requires StartDelegation(v, del, height).Started?
    ensures var w := StartDelegation(v, del, height).v;
            && w == v.(hist := w.hist, starts := w.starts) && w.starts - {del} == v.starts - {del}
            && (forall p: nat :: RecordAt(w, p).ratio == RecordAt(v, p).ratio)
  {
    hide TruncatedStake;
  }

  /** Dropping one removes its own starting info and one reference, and changes no ratio of a record that stays. */
  lemma DropFrame(v: Val, del: string)
    requires del in v.starts && DropStart(v, del).Some?
    ensures var w := DropStart(v, del).value;
            && w == v.(hist := w.hist, starts := v.starts - {del})
            && (forall p :: p in w.hist ==> p in v.hist && w.hist[p].ratio == v.hist[p].ratio)
  {
  }

  /**
   The whole bookkeeping of one patched delegation, run right after a period ended:
   neither reference-count panic is reached, and the counts are exact again.
   */
  lemma RestartKeepsRefs(v: Val, del: string, height: nat)
    requires RefInv(v) && EndPeriod(v).PeriodEnded? && del in v.starts
    ensures var w := EndPeriod(v).v;
            && DropStart(w, del).Some?
            && RefInv(DropStart(w, del).value)
            && RecordAt(DropStart(w, del).value, w.period - 1).refs == 1
            && var s := StartDelegation(DropStart(w, del).value, del, height);
               && (s.InitPanic? ==> s.why == NoShares)
               && (s.Started? ==> RefInv(s.v) && RecordAt(s.v, w.period - 1).refs == 2)
  {
    hide RefInv, Decrement, Increment, EndPeriod, DropStart, RefsHeld, RecordAt;
    RestartDrops(v, del);
    var dropped := DropStart(EndPeriod(v).v, del).value;
    RefsExact(dropped, dropped.period - 1);
    StartKeepsRefs(dropped, del, height);
    if StartDelegation(dropped, del, height).Started? { StartRecord(dropped, del, height); }
  }

  lemma RestartDrops(v: Val, del: string)
    requires RefInv(v) && EndPeriod(v).PeriodEnded? && del in v.starts
    ensures var w := EndPeriod(v).v;
            && del in w.starts && DropStart(w, del).Some?
            && var dropped := DropStart(w, del).value;
               && RefInv(dropped) && del !in dropped.starts
               && dropped.period == w.period >= 1
               && RecordAt(dropped, w.period - 1).refs == 1
  {
    hide RefInv, Decrement;
    EndPeriodKeepsRefs(v);
    var w := EndPeriod(v).v;
    OldStart(v, del);
    DropStartKeepsRefs(w, del);
    DropKeepsOthers(w, del, w.period - 1);
  }

  lemma StartRecord(v: Val, del: string, height: nat)
    requires v.period >= 1 && StartDelegation(v, del, height).Started?
    ensures RecordAt(StartDelegation(v, del, height).v, v.period - 1).refs == RecordAt(v, v.period - 1).refs + 1
  {
  }

  lemma OldStart(v: Val, del: string)
    requires RefInv(v) && del in v.starts && EndPeriod(v).PeriodEnded?
    ensures v.period >= 1 && EndPeriod(v).v.starts[del].period < EndPeriod(v).v.period - 1
  {
  }

  lemma DropKeepsOthers(v: Val, del: string, p: nat)
    requires del in v.starts && DropStart(v, del).Some? && v.starts[del].period != p
    ensures RecordAt(DropStart(v, del).value, p) == RecordAt(v, p)
  {
  }

  // ---------------------------------------------------------------- the ghost slash event

  /** Whether event a comes before event b in store order. */
  predicate Before(a: Slash, b: Slash) { a.height < b.height || (a.height == b.height && a.period < b.period) }

  /** SetValidatorSlashEvent: one event per height and period, in store order. */
  function SetSlash(slashes: seq<Slash>, e: Slash): seq<Slash> {
    if slashes == [] then [e]
    else
      var n := |slashes| - 1;
      if Before(slashes[n], e) then slashes + [e]
      else if Before(e, slashes[n]) then SetSlash(slashes[..n], e) + [slashes[n]]
      else slashes[..n] + [e]
  }

  /**
   The event written for one validator at the end of the patch: height 1, the running
   period, the smallest fraction.
   */
  function GhostSlash(v: Val): Val { v.(slashes := SetSlash(v.slashes, Slash(1, v.period, 1))) }

  lemma {:induction false} SetSlashRefers(slashes: seq<Slash>, e: Slash)
    ensures SlashRefs(SetSlash(slashes, e), e.period) >= 1
  {
    if slashes != [] {
      var n := |slashes| - 1;
      if Before(slashes[n], e) {
        assert (slashes + [e])[..n + 1] == slashes;
      } else if Before(e, slashes[n]) {
        SetSlashRefers(slashes[..n], e);
        var front := SetSlash(slashes[..n], e);
        assert (front + [slashes[n]])[..|front|] == front;
      } else {
        assert (slashes[..n] + [e])[..n] == slashes[..n];
      }
    }
  }

  /**
   The ghost event always breaks the invariant: it refers to the running period,
   which has no record, and takes no reference on it.
   */
  lemma GhostSlashBreaksRefs(v: Val)
    requires RefInv(v)
    ensures !RefInv(GhostSlash(v))
    ensures RefsHeld(GhostSlash(v), v.period) > RecordAt(GhostSlash(v), v.period).refs == 0
  {
    SetSlashRefers(v.slashes, Slash(1, v.period, 1));
    RefsExact(v, v.period);
    FreshPeriod(v);
    if RefInv(GhostSlash(v)) { RefsExact(GhostSlash(v), v.period); }
  }

  /** An event names the running period, whose record holds no count. */
  ghost predicate Dangling(v: Val) { SlashRefs(v.slashes, v.period) >= 1 && RecordAt(v, v.period).refs == 0 }

  lemma DanglingIsInexact(v: Val)
    requires Dangling(v)
    ensures !RefInv(v)
  {
    if RefInv(v) { RefsExact(v, v.period); }
  }

  lemma GhostSlashDangles(v: Val)
    requires RefInv(v) || Dangling(v)
    ensures Dangling(GhostSlash(v))
  {
    SetSlashRefers(v.slashes, Slash(1, v.period, 1));
    if RefInv(v) {
      RefsExact(v, v.period);
      FreshPeriod(v);
    }
  }

  /** Two periods later the record the ghost event names is gone, so the event reads an empty ratio. */
  lemma GhostRecordIsDropped(v: Val)
    requires RefInv(v) && v.tokens > 0
    ensures var g := GhostSlash(v);
            && EndPeriod(g).PeriodEnded?
            && EndPeriod(EndPeriod(g).v).PeriodEnded?
            && v.period !in EndPeriod(EndPeriod(g).v).v.hist
            && EndPeriod(EndPeriod(g).v).v.slashes == g.slashes
  {
    hide RefInv, Add, Sub, QuoDecTruncate, Covers, StartsAt, SlashRefs, SetSlash, Decrement, RecordAt;
    var g := GhostSlash(v);
    PeriodAtLeastOne(v);
    RefsExact(v, v.period - 1);
    SameRecord(v, g, v.period - 1);
    PeriodEnds(g);
    var g1 := EndPeriod(g).v;
    EndPeriodRecord(g, v.period);
    PeriodEnds(g1);
    LastRecordDropped(g1);
  }

  lemma SameRecord(v: Val, w: Val, p: nat)
    requires w.hist == v.hist
    ensures RecordAt(w, p) == RecordAt(v, p)
  {
  }

  /** With tokens and a count on the last record, a period ends. */
  lemma PeriodEnds(v: Val)
    requires v.tokens > 0 && v.period >= 1 && RecordAt(v, v.period - 1).refs > 0
    ensures EndPeriod(v).PeriodEnded? && EndPeriod(v).v.period == v.period + 1
    ensures EndPeriod(v).v.slashes == v.slashes && EndPeriod(v).v.tokens == v.tokens
  {
    hide Add, Sub, QuoDecTruncate, Covers;
  }

  lemma LastRecordDropped(v: Val)
    requires v.period >= 1 && RecordAt(v, v.period - 1).refs == 1 && EndPeriod(v).PeriodEnded?
    ensures v.period - 1 !in EndPeriod(v).v.hist
  {
    hide Add, Sub, QuoDecTruncate, Covers;
  }
}
