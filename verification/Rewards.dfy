/**
 Delegation rewards of the v5.2.0 patch (app/upgrades/v520/patch.go,
 CustomCalculateDelegationRewards and customCalculateDelegationRewardsBetween):
 the walk over slash events, the patch margin, and the bound on what is paid.
 */
module Rewards {
  import opened Dec

  /** A historical record: cumulative reward ratio and reference count. */
  datatype Hist = Hist(ratio: Coins, refs: nat)

  datatype Start = Start(period: nat, stake: int, height: nat)

  datatype Slash = Slash(height: nat, period: nat, fraction: nat)

  /** Everything the staking and distribution modules keep about one validator. */
  datatype Val = Val(
    tokens: nat,
    shares: nat,
    delegations: map<string, nat>,
    hist: map<nat, Hist>,
    current: Coins,
    period: nat,
    outstanding: Coins,
    starts: map<string, Start>,
    slashes: seq<Slash>)

  datatype Panic =
    | NoStartingInfo
    | NoShares
    | StartAfterEnd
    | NegativeStake
    | NegativeRewards
    | StakeTooHigh
    | NotPatched
    | RefUnderflow
    | RefOverflow
    | NegativeOutstanding

  datatype Calc = Panicked(why: Panic) | Done(rewards: Coins, patched: bool)

  /** Reading a record that is not there yields an empty one. */
  function RecordAt(v: Val, p: nat): Hist { if p in v.hist then v.hist[p] else Hist(map[], 0) }

  function Ratio(v: Val, p: nat, d: Denom): nat { Amount(RecordAt(v, p).ratio, d) }

  // ---------------------------------------------------------------- one segment

  datatype SegmentResult = Bad(why: Panic) | Fine(rewards: Coins)

  /** customCalculateDelegationRewardsBetween. */
  function Between(v: Val, from: nat, to: nat, stake: int): SegmentResult {
    if from > to then Bad(StartAfterEnd)
    else if stake < 0 then Bad(NegativeStake)
    else if !Covers(RecordAt(v, to).ratio, RecordAt(v, from).ratio) then Bad(NegativeRewards)
    else Fine(MulDecTruncate(Sub(RecordAt(v, to).ratio, RecordAt(v, from).ratio), stake))
  }

  /** A stretch of periods over which one stake earned. */
  datatype Segment = Segment(from: nat, to: nat, stake: int)

  /** What a segment earns before truncation, in units of 10^-36. */
  function Yield(v: Val, s: Segment, d: Denom): int { (Ratio(v, s.to, d) - Ratio(v, s.from, d)) * s.stake }

  /**
   Paid, in units of 10^-18, is at most earned, in units of 10^-36, and falls short by
   less than one unit in each of n segments.
   */
  ghost predicate LossWithin(earned: int, paid: nat, n: nat) {
    0 <= earned - paid * ONE <= n * (ONE - 1)
  }

  lemma LossAdds(e: int, p: nat, n: nat, y: int, q: nat)
    requires LossWithin(e, p, n) && LossWithin(y, q, 1)
    ensures LossWithin(e + y, p + q, n + 1)
  {
  }

  /** A segment pays its untruncated reward less under one unit, per denom. */
  lemma BetweenPays(v: Val, from: nat, to: nat, stake: int, d: Denom)
    requires Between(v, from, to, stake).Fine?
    ensures from <= to && stake >= 0 && Ratio(v, from, d) <= Ratio(v, to, d)
    ensures LossWithin(Yield(v, Segment(from, to, stake), d), Amount(Between(v, from, to, stake).rewards, d), 1)
  {
    var diff := Sub(RecordAt(v, to).ratio, RecordAt(v, from).ratio);
    assert Amount(diff, d) == Ratio(v, to, d) - Ratio(v, from, d) by {
      if d in RecordAt(v, from).ratio {} else {}
    }
    TruncationLoss(Amount(diff, d), stake);
  }

  /** Exactly when a segment pays, and which of the three panics it ends in otherwise. */
  lemma BetweenReturns(v: Val, from: nat, to: nat, stake: int)
    ensures Between(v, from, to, stake).Fine? <==> from <= to && stake >= 0 && Rising(v, from, to)
    ensures Between(v, from, to, stake) == Bad(StartAfterEnd) <==> from > to
    ensures Between(v, from, to, stake) == Bad(NegativeStake) <==> from <= to && stake < 0
    ensures Between(v, from, to, stake) == Bad(NegativeRewards) <==> from <= to && stake >= 0 && !Rising(v, from, to)
  {
    CoversAmounts(RecordAt(v, to).ratio, RecordAt(v, from).ratio);
    assert forall d :: Ratio(v, from, d) == Amount(RecordAt(v, from).ratio, d);
    assert forall d :: Ratio(v, to, d) == Amount(RecordAt(v, to).ratio, d);
  }

  /** In no denom does the cumulative ratio fall from one record to the other. */
  ghost predicate Rising(v: Val, from: nat, to: nat) { forall d: Denom :: Ratio(v, from, d) <= Ratio(v, to, d) }

  // ---------------------------------------------------------------- the walk over slash events

  /** IterateValidatorSlashEventsBetween: both ends included, in store order. */
  function EventsBetween(slashes: seq<Slash>, lo: nat, hi: nat): seq<Slash> {
    if slashes == [] then []
    else
      var rest := EventsBetween(slashes[..|slashes| - 1], lo, hi);
      var last := slashes[|slashes| - 1];
      if lo <= last.height <= hi then rest + [last] else rest
  }

  datatype Walk = Stopped(why: Panic) | At(rewards: Coins, stake: int, period: nat)

  /** The iterator's closure on one event. */
  function WalkEvent(v: Val, w: Walk, e: Slash): Walk {
    if w.Stopped? || e.period <= w.period then w
    else
      var seg := Between(v, w.period, e.period, w.stake);
      if seg.Bad? then Stopped(seg.why)
      else At(Add(w.rewards, seg.rewards), MulTruncate(w.stake, ONE - e.fraction), e.period)
  }

  function WalkEvents(v: Val, start: Start, events: seq<Slash>): Walk {
    if events == [] then At(map[], start.stake, start.period)
    else WalkEvent(v, WalkEvents(v, start, events[..|events| - 1]), events[|events| - 1])
  }

  // ---------------------------------------------------------------- the calculation

  /** TokensFromShares; the caller has checked that there are shares. */
  function CurrentStake(v: Val, shares: nat): nat
    requires v.shares > 0
  {
    QuoRound(shares * v.tokens, v.shares)
  }

  /** 0.095 of a stake, rounded. */
  function Margin(stake: nat): nat { MulRound(stake, 95_000_000_000_000_000) }

  function Events(v: Val, start: Start, height: nat): seq<Slash> {
    if height > start.height then EventsBetween(v.slashes, start.height, height) else []
  }

  /** CustomCalculateDelegationRewards for a delegation of `shares` shares. */
  function Calculate(v: Val, del: string, shares: nat, ending: nat, height: nat): Calc {
    if del !in v.starts then Panicked(NoStartingInfo)
    else
      var start := v.starts[del];
      if start.height == height then Done(map[], false)
      else
        var w := WalkEvents(v, start, Events(v, start, height));
        if w.Stopped? then Panicked(w.why)
        else if v.shares == 0 then Panicked(NoShares)
        else
          var current := CurrentStake(v, shares);
          if w.stake > current + Margin(current) then Panicked(StakeTooHigh)
          else
            var patched := w.stake > current;
            var last := Between(v, w.period, ending, if patched then current else w.stake);
            if last.Bad? then Panicked(last.why) else Done(Add(w.rewards, last.rewards), patched)
  }

  /** CustomCalculateDelegationRewards, as written: a loop that updates rewards, stake and starting period. */
  method CalculateDelegationRewards(v: Val, del: string, shares: nat, ending: nat, height: nat) returns (r: Calc)
    ensures r == Calculate(v, del, shares, ending, height)
  {
    hide Between, MulTruncate, EventsBetween, CurrentStake, Margin, Add, WalkEvents;
    if del !in v.starts {
      return Panicked(NoStartingInfo);
    }
    var start := v.starts[del];
    if start.height == height {
      return Done(map[], false);
    }
    var rewards: Coins := map[];
    var stake, startingPeriod := start.stake, start.period;
    if height > start.height {
      var events := EventsBetween(v.slashes, start.height, height);
      WalkStart(v, start, events);
      for i := 0 to |events|
        invariant WalkEvents(v, start, events[..i]) == At(rewards, stake, startingPeriod)
      {
        WalkStep(v, start, events, i);
        var endingPeriod := events[i].period;
        if endingPeriod > startingPeriod {
          var seg := Between(v, startingPeriod, endingPeriod, stake);
          if seg.Bad? {
            StoppedStays(v, start, events, i + 1);
            return Panicked(seg.why);
          }
          rewards := Add(rewards, seg.rewards);
          stake := MulTruncate(stake, ONE - events[i].fraction);
          startingPeriod := endingPeriod;
        }
      }
      assert events[..|events|] == events;
    } else {
      WalkStart(v, start, []);
    }
    if v.shares == 0 {
      return Panicked(NoShares);
    }
    var currentStake := CurrentStake(v, shares);
    var patched := false;
    if stake > currentStake {
      var marginOfErr := Margin(currentStake);
      if stake <= currentStake + marginOfErr {
        stake := currentStake;
        patched := true;
      } else {
        return Panicked(StakeTooHigh);
      }
    }
    var last := Between(v, startingPeriod, ending, stake);
    if last.Bad? {
      return Panicked(last.why);
    }
    r := Done(Add(rewards, last.rewards), patched);
  }

  lemma WalkStart(v: Val, start: Start, events: seq<Slash>)
    ensures WalkEvents(v, start, events[..0]) == WalkEvents(v, start, []) == At(map[], start.stake, start.period)
  {
    assert events[..0] == [];
  }

  lemma WalkStep(v: Val, start: Start, events: seq<Slash>, i: nat)
    requires i < |events|
    ensures WalkEvents(v, start, events[..i + 1]) == WalkEvent(v, WalkEvents(v, start, events[..i]), events[i])
  {
    assert events[..i + 1][..i] == events[..i];
  }

  lemma {:induction false} StoppedStays(v: Val, start: Start, events: seq<Slash>, i: nat)
    requires i <= |events| && WalkEvents(v, start, events[..i]).Stopped?
    ensures WalkEvents(v, start, events) == WalkEvents(v, start, events[..i])
    decreases |events|
  {
    if i == |events| {
      assert events[..i] == events;
    } else {
      assert events[..|events| - 1][..i] == events[..i];
      StoppedStays(v, start, events[..|events| - 1], i);
    }
  }

  // ---------------------------------------------------------------- segments paid

  /** The segments the walk over slash events paid for. */
  function WalkSegments(v: Val, start: Start, events: seq<Slash>): seq<Segment> {
    if events == [] then []
    else
      var w := WalkEvents(v, start, events[..|events| - 1]);
      var e := events[|events| - 1];
      var segs := WalkSegments(v, start, events[..|events| - 1]);
      if w.At? && e.period > w.period then segs + [Segment(w.period, e.period, w.stake)] else segs
  }

  /** All segments of a calculation that returned: the walk's, then the final one at the capped stake. */
  function Segments(v: Val, del: string, shares: nat, ending: nat, height: nat): seq<Segment>
    requires Returned(v, del, shares, ending, height)
  {
    var start := v.starts[del];
    var events := Events(v, start, height);
    var w := WalkEvents(v, start, events);
    WalkSegments(v, start, events) +
    [Segment(w.period, ending, if w.stake > CurrentStake(v, shares) then CurrentStake(v, shares) else w.stake)]
  }

  /** The calculation got past the same-height exit and did not panic. */
  predicate Returned(v: Val, del: string, shares: nat, ending: nat, height: nat) {
    && Calculate(v, del, shares, ending, height).Done?
    && v.starts[del].height != height
  }

  /** What the segments earn before truncation. */
  function Earned(v: Val, segs: seq<Segment>, d: Denom): int {
    if segs == [] then 0 else Earned(v, segs[..|segs| - 1], d) + Yield(v, segs[|segs| - 1], d)
  }

  /** Segments follow each other, periods strictly increase across slash events, and the stake never goes up. */
  ghost predicate Chained(segs: seq<Segment>) {
    forall i :: 0 <= i < |segs| - 1 ==>
      segs[i].from < segs[i].to == segs[i + 1].from && segs[i].stake >= segs[i + 1].stake
  }

  /** Stakes are not negative and the cumulative ratio does not fall over any segment. */
  ghost predicate Growing(v: Val, segs: seq<Segment>, d: Denom) {
    forall i :: 0 <= i < |segs| ==> segs[i].stake >= 0 && Ratio(v, segs[i].from, d) <= Ratio(v, segs[i].to, d)
  }

  lemma EarnedEmpty(v: Val, d: Denom)
    ensures Earned(v, [], d) == 0 && LossWithin(0, 0, 0) && Growing(v, [], d) && Amount(map[], d) == 0
  {
  }

  lemma GrowingSnoc(v: Val, segs: seq<Segment>, s: Segment, d: Denom)
    requires Growing(v, segs, d) && s.stake >= 0 && Ratio(v, s.from, d) <= Ratio(v, s.to, d)
    ensures Growing(v, segs + [s], d)
  {
    hide Ratio;
  }

  lemma EarnedSnoc(v: Val, segs: seq<Segment>, s: Segment, d: Denom)
    ensures Earned(v, segs + [s], d) == Earned(v, segs, d) + Yield(v, s, d)
  {
    hide Yield;
    assert (segs + [s])[..|segs|] == segs;
  }

  /** Segments run on from where the walk began to where it stands. */
  ghost predicate Spans(segs: seq<Segment>, start: Start, period: nat, stake: int) {
    if segs == [] then period == start.period && stake == start.stake
    else
      && segs[0].from == start.period && segs[0].stake == start.stake
      && segs[|segs| - 1].from < segs[|segs| - 1].to == period
      && segs[|segs| - 1].stake >= stake
  }

  /** One more segment from where the walk stands. */
  lemma ChainedSnoc(segs: seq<Segment>, start: Start, s: Segment)
    requires Chained(segs) && Spans(segs, start, s.from, s.stake)
    ensures Chained(segs + [s])
    ensures (segs + [s])[0].from == start.period && (segs + [s])[0].stake == start.stake
  {
  }

  lemma {:induction false} WalkSpans(v: Val, start: Start, events: seq<Slash>)
    requires WalkEvents(v, start, events).At?
    ensures var w := WalkEvents(v, start, events);
            var segs := WalkSegments(v, start, events);
            Chained(segs) && Spans(segs, start, w.period, w.stake)
  {
    hide Between, MulTruncate, Chained, Spans, Add;
    if events != [] {
      var front := events[..|events| - 1];
      var e := events[|events| - 1];
      WalkSpans(v, start, front);
      var w := WalkEvents(v, start, front);
      if e.period > w.period {
        var s := Segment(w.period, e.period, w.stake);
        StakeChecked(v, w.period, e.period, w.stake);
        SlashShrinks(w.stake, e.fraction);
        ChainedSnoc(WalkSegments(v, start, front), start, s);
        SpansSnoc(WalkSegments(v, start, front), start, s, MulTruncate(w.stake, ONE - e.fraction));
      }
    } else {
      NothingSpanned(start);
    }
  }

  lemma NothingSpanned(start: Start)
    ensures Chained([]) && Spans([], start, start.period, start.stake)
  {
  }

  lemma SpansSnoc(segs: seq<Segment>, start: Start, s: Segment, stake: int)
    requires Spans(segs, start, s.from, s.stake) && s.from < s.to && stake <= s.stake
    ensures Spans(segs + [s], start, s.to, stake)
  {
  }

  lemma StakeChecked(v: Val, from: nat, to: nat, stake: int)
    requires Between(v, from, to, stake).Fine?
    ensures stake >= 0 && from <= to
  {
  }

  /** What the walk has paid, against its segments: under one unit lost in each. */
  lemma {:induction false} WalkPays(v: Val, start: Start, events: seq<Slash>, d: Denom)
    requires WalkEvents(v, start, events).At?
    ensures var w := WalkEvents(v, start, events);
            var segs := WalkSegments(v, start, events);
            Growing(v, segs, d) && LossWithin(Earned(v, segs, d), Amount(w.rewards, d), |segs|)
  {
    hide Between, Earned, MulTruncate, LossWithin, Growing, Amount, Add;
    EarnedEmpty(v, d);
    if events != [] {
      var front := events[..|events| - 1];
      var e := events[|events| - 1];
      WalkPays(v, start, front, d);
      var w := WalkEvents(v, start, front);
      if e.period > w.period {
        PaysMore(v, WalkSegments(v, start, front), w.rewards, Segment(w.period, e.period, w.stake), d);
      }
    }
  }

  /** One more segment paid. */
  lemma PaysMore(v: Val, segs: seq<Segment>, paid: Coins, s: Segment, d: Denom)
    requires Growing(v, segs, d) && LossWithin(Earned(v, segs, d), Amount(paid, d), |segs|)
    requires Between(v, s.from, s.to, s.stake).Fine?
    ensures Growing(v, segs + [s], d)
    ensures var more := Between(v, s.from, s.to, s.stake).rewards;
            LossWithin(Earned(v, segs + [s], d), Amount(Add(paid, more), d), |segs| + 1)
  {
    hide Between, Yield, Earned, Ratio, LossWithin, Growing, Amount, Add;
    BetweenPays(v, s.from, s.to, s.stake, d);
    EarnedSnoc(v, segs, s, d);
    GrowingSnoc(v, segs, s, d);
    LossAdds(Earned(v, segs, d), Amount(paid, d), |segs|, Yield(v, s, d),
             Amount(Between(v, s.from, s.to, s.stake).rewards, d));
  }

  /**
   Reward bound, for any number of slash events: per denom the payment is within
   one unit per segment of what the segments earn untruncated, and never above it;
   the segments run from the starting period to the ending one with strictly
   increasing periods and a stake that never goes up.
   */
  lemma RewardsMatchSegments(v: Val, del: string, shares: nat, ending: nat, height: nat, d: Denom)
    requires Returned(v, del, shares, ending, height)
    ensures var segs := Segments(v, del, shares, ending, height);
            var paid := Amount(Calculate(v, del, shares, ending, height).rewards, d);
            && Chained(segs)
            && segs[0].from == v.starts[del].period && segs[0].stake <= v.starts[del].stake
            && segs[|segs| - 1].to == ending && segs[|segs| - 1].from <= ending
            && Growing(v, segs, d)
            && LossWithin(Earned(v, segs, d), paid, |segs|)
  {
    hide Between, Earned, MulTruncate, LossWithin, Growing, Chained, Spans, Amount, Add;
    hide WalkEvents, WalkSegments, Events, CurrentStake, Margin;
    var start := v.starts[del];
    var events := Events(v, start, height);
    var w := WalkEvents(v, start, events);
    var walked := WalkSegments(v, start, events);
    var segs := Segments(v, del, shares, ending, height);
    var last := segs[|segs| - 1];
    WalkPays(v, start, events, d);
    WalkSpans(v, start, events);
    assert segs == walked + [last];
    StakeChecked(v, w.period, ending, last.stake);
    PaysMore(v, walked, w.rewards, last, d);
    ChainedCapped(walked, start, w.stake, last);
  }

  /** The last segment, at a stake that may have been capped. */
  lemma ChainedCapped(segs: seq<Segment>, start: Start, stake: int, s: Segment)
    requires Chained(segs) && Spans(segs, start, s.from, stake) && s.stake <= stake
    ensures Chained(segs + [s])
    ensures (segs + [s])[0].from == start.period && (segs + [s])[0].stake <= start.stake
  {
  }

  /**
   Telescoping: chained segments whose first stake is at most `stake` earn at most
   stake times the total ratio growth.
   */
  lemma {:induction false} EarnedAtMost(v: Val, segs: seq<Segment>, stake: int, d: Denom)
    requires segs != [] && Chained(segs) && segs[0].stake <= stake
    requires Growing(v, segs, d)
    ensures Earned(v, segs, d) <= stake * (Ratio(v, segs[|segs| - 1].to, d) - Ratio(v, segs[0].from, d))
    ensures segs[|segs| - 1].stake <= stake
  {
    hide Ratio;
    var n := |segs| - 1;
    var s := segs[n];
    if n > 0 {
      EarnedAtMost(v, segs[..n], stake, d);
      assert segs[..n][n - 1] == segs[n - 1];
      Telescope(stake, Ratio(v, segs[0].from, d), Ratio(v, s.from, d), Ratio(v, s.to, d), s.stake);
    } else {
      assert segs[..0] == [];
      Telescope(stake, Ratio(v, s.from, d), Ratio(v, s.from, d), Ratio(v, s.to, d), s.stake);
    }
  }

  lemma Telescope(stake: int, a: int, b: int, c: int, less: int)
    requires less <= stake && b <= c
    ensures stake * (b - a) + (c - b) * less <= stake * (c - a)
  {
    MulLe(c - b, less, stake);
    assert stake * (b - a) + (c - b) * stake == stake * (c - a);
  }

  /** No delegator is paid more than the starting stake would have earned over the whole stretch without any slash. */
  lemma RewardBound(v: Val, del: string, shares: nat, ending: nat, height: nat, d: Denom)
    requires Returned(v, del, shares, ending, height)
    ensures Amount(Calculate(v, del, shares, ending, height).rewards, d) * ONE <=
            v.starts[del].stake * (Ratio(v, ending, d) - Ratio(v, v.starts[del].period, d))
  {
    hide Yield, Earned, Ratio, Between, WalkEvents, WalkSegments, CurrentStake, Margin;
    RewardsMatchSegments(v, del, shares, ending, height, d);
    EarnedAtMost(v, Segments(v, del, shares, ending, height), v.starts[del].stake, d);
  }

  // ---------------------------------------------------------------- the margin

  /** Stake and period after the slash events, without the rewards. */
  function SlashOnly(start: Start, events: seq<Slash>): (int, nat) {
    if events == [] then (start.stake, start.period)
    else
      var (stake, period) := SlashOnly(start, events[..|events| - 1]);
      var e := events[|events| - 1];
      if e.period <= period then (stake, period) else (MulTruncate(stake, ONE - e.fraction), e.period)
  }

  lemma {:induction false} WalkStake(v: Val, start: Start, events: seq<Slash>)
    requires WalkEvents(v, start, events).At?
    ensures var w := WalkEvents(v, start, events); (w.stake, w.period) == SlashOnly(start, events)
  {
    hide Between, MulTruncate, Add;
    if events != [] { WalkStake(v, start, events[..|events| - 1]); }
  }

  /**
   Patch margin, past the same-height exit: the calculation panics on too high a
   stake exactly when it gets to the comparison and the slashed stake exceeds the
   current one by more than the rounded 0.095 of it; when
   it returns, it counts as patched exactly when the slashed stake exceeds the
   current one at all, and the stake used last is the smaller of the two.
   */
  lemma PatchMargin(v: Val, del: string, shares: nat, ending: nat, height: nat)
    requires del in v.starts && v.starts[del].height != height && v.shares > 0
    ensures var slashed := SlashOnly(v.starts[del], Events(v, v.starts[del], height)).0;
            var current := CurrentStake(v, shares);
            var c := Calculate(v, del, shares, ending, height);
            && (c == Panicked(StakeTooHigh) <==>
                  && WalkEvents(v, v.starts[del], Events(v, v.starts[del], height)).At?
                  && slashed > current + Margin(current))
            && (c.Done? ==>
                  && slashed <= current + Margin(current)
                  && (c.patched <==> slashed > current)
                  && Segments(v, del, shares, ending, height)[|Segments(v, del, shares, ending, height)| - 1].stake ==
                     (if slashed <= current then slashed else current))
  {
    hide Between, Margin, CurrentStake, Add, EventsBetween, SlashOnly;
    var start := v.starts[del];
    var events := Events(v, start, height);
    if WalkEvents(v, start, events).At? { WalkStake(v, start, events); }
    WalkBelowMargin(v, start, events);
    BetweenPanics(v, ending);
  }

  /** Neither a segment nor the walk over slash events looks at the margin. */
  lemma BetweenPanics(v: Val, ending: nat)
    ensures forall from: nat, stake: int :: Between(v, from, ending, stake) != Bad(StakeTooHigh)
  {
  }

  lemma {:induction false} WalkBelowMargin(v: Val, start: Start, events: seq<Slash>)
    ensures WalkEvents(v, start, events) != Stopped(StakeTooHigh)
  {
    hide Between;
    if events != [] {
      WalkBelowMargin(v, start, events[..|events| - 1]);
      BetweenPanics(v, events[|events| - 1].period);
    }
  }

  // ---------------------------------------------------------------- when the calculation returns

  /** The segments the slash events cut the periods into, whether or not they can be paid. */
  function SlashSegments(start: Start, events: seq<Slash>): seq<Segment> {
    if events == [] then []
    else
      var front, e := events[..|events| - 1], events[|events| - 1];
      var (stake, period) := SlashOnly(start, front);
      var segs := SlashSegments(start, front);
      if e.period <= period then segs else segs + [Segment(period, e.period, stake)]
  }

  /** A segment with a stake to pay and ratios that do not fall. */
  ghost predicate Payable(v: Val, s: Segment) { s.from <= s.to && s.stake >= 0 && Rising(v, s.from, s.to) }

  /** The walk over the slash events gets to its end exactly when every segment on the way can be paid. */
  lemma {:induction false} WalkReturns(v: Val, start: Start, events: seq<Slash>)
    ensures WalkEvents(v, start, events).At? <==> forall s :: s in SlashSegments(start, events) ==> Payable(v, s)
  {
    hide Between, MulTruncate, Add, Payable, SlashOnly;
    if events != [] {
      var front, e := events[..|events| - 1], events[|events| - 1];
      WalkReturns(v, start, front);
      SlashOnlyStep(start, events);
      if WalkEvents(v, start, front).At? {
        WalkStake(v, start, front);
        var w := WalkEvents(v, start, front);
        PayableBetween(v, Segment(w.period, e.period, w.stake));
      }
    }
  }

  lemma SlashOnlyStep(start: Start, events: seq<Slash>)
    requires events != []
    ensures SlashOnly(start, events[..|events| - 1]).1 <= SlashOnly(start, events).1
  {
  }

  lemma PayableBetween(v: Val, s: Segment)
    ensures Payable(v, s) <==> Between(v, s.from, s.to, s.stake).Fine?
  {
    hide Between, Rising;
    BetweenReturns(v, s.from, s.to, s.stake);
  }

  /**
   Exactly when a calculation returns: at the starting height always; later, when
   there are shares, the slashed stake is within the margin, and every segment, the
   last one at the capped stake included, can be paid.
   */
  lemma CalculateReturnsIff(v: Val, del: string, shares: nat, ending: nat, height: nat)
    requires del in v.starts && v.starts[del].height != height
    ensures var start := v.starts[del];
            var (slashed, period) := SlashOnly(start, Events(v, start, height));
            Calculate(v, del, shares, ending, height).Done? <==>
            && v.shares > 0
            && slashed <= CurrentStake(v, shares) + Margin(CurrentStake(v, shares))
            && (forall s :: s in SlashSegments(start, Events(v, start, height)) ==> Payable(v, s))
            && (var current := CurrentStake(v, shares);
                Payable(v, Segment(period, ending, if slashed <= current then slashed else current)))
  {
    hide Between, Add, CurrentStake, Margin, SlashOnly, SlashSegments, EventsBetween, WalkEvents, Payable;
    var start := v.starts[del];
    var events := Events(v, start, height);
    WalkReturns(v, start, events);
    if WalkEvents(v, start, events).At? && v.shares > 0 {
      WalkStake(v, start, events);
      var (slashed, period) := SlashOnly(start, events);
      var current := CurrentStake(v, shares);
      PayableBetween(v, Segment(period, ending, if slashed <= current then slashed else current));
    }
  }

  /**
   So nothing is refused that should be paid: with ratios that never fall, fractions of
   at most one, periods that are over and a slashed stake within the margin, it returns.
   */
  lemma CalculateReturns(v: Val, del: string, shares: nat, ending: nat, height: nat)
    requires del in v.starts && v.starts[del].height != height && v.shares > 0
    requires v.starts[del].stake >= 0 && v.starts[del].period <= ending
    requires forall i :: 0 <= i < |v.slashes| ==> v.slashes[i].fraction <= ONE && v.slashes[i].period <= ending
    requires forall p: nat, q: nat :: p <= q <= ending ==> Rising(v, p, q)
    requires SlashOnly(v.starts[del], Events(v, v.starts[del], height)).0 <=
             CurrentStake(v, shares) + Margin(CurrentStake(v, shares))
    ensures Calculate(v, del, shares, ending, height).Done?
  {
    hide CurrentStake, Margin, SlashOnly, SlashSegments, EventsBetween, Rising, Calculate;
    var start := v.starts[del];
    EventsAmong(v.slashes, start.height, height, ending);
    SegmentsPayable(v, start, Events(v, start, height), ending);
    CalculateReturnsIff(v, del, shares, ending, height);
  }

  lemma {:induction false} EventsAmong(slashes: seq<Slash>, lo: nat, hi: nat, ending: nat)
    requires forall i :: 0 <= i < |slashes| ==> slashes[i].fraction <= ONE && slashes[i].period <= ending
    ensures forall e :: e in EventsBetween(slashes, lo, hi) ==> e.fraction <= ONE && e.period <= ending
  {
    if slashes != [] { EventsAmong(slashes[..|slashes| - 1], lo, hi, ending); }
  }

  lemma {:induction false} SegmentsPayable(v: Val, start: Start, events: seq<Slash>, ending: nat)
    requires start.stake >= 0 && start.period <= ending
    requires forall e :: e in events ==> e.fraction <= ONE && e.period <= ending
    requires forall p: nat, q: nat :: p <= q <= ending ==> Rising(v, p, q)
    ensures forall s :: s in SlashSegments(start, events) ==> Payable(v, s)
    ensures SlashOnly(start, events).0 >= 0 && SlashOnly(start, events).1 <= ending
  {
    hide Rising, MulTruncate;
    if events != [] {
      var front, e := events[..|events| - 1], events[|events| - 1];
      assert e in events;
      SegmentsPayable(v, start, front, ending);
      NotNegative(SlashOnly(start, front).0, ONE - e.fraction);
    }
  }

  lemma NotNegative(a: int, b: int)
    requires a >= 0 && b >= 0
    ensures MulTruncate(a, b) >= 0
  {
    assert a * b >= 0;
  }

  /** Which slash events a calculation sees: those from the starting height to this one, in store order. */
  lemma {:induction false} EventsSeen(slashes: seq<Slash>, lo: nat, hi: nat, e: Slash)
    ensures e in EventsBetween(slashes, lo, hi) <==> e in slashes && lo <= e.height <= hi
  {
    if slashes != [] {
      EventsSeen(slashes[..|slashes| - 1], lo, hi, e);
      assert slashes == slashes[..|slashes| - 1] + [slashes[|slashes| - 1]];
    }
  }

  /** The current stake is the shares' part of the tokens, to half a unit but for the digits Quo drops first. */
  lemma CurrentStakeRounded(v: Val, shares: nat)
    requires v.shares > 0
    ensures var stake, part := CurrentStake(v, shares), shares * v.tokens * ONE;
            && 2 * (stake * v.shares - part) <= v.shares
            && 2 * (part - stake * v.shares) * ONE < (ONE + 2) * v.shares
  {
    QuoRounded(shares * v.tokens, v.shares);
  }

  /** The margin is 95 thousandths of the stake, to the nearest unit. */
  lemma MarginRounded(stake: nat)
    ensures -500 <= 1000 * Margin(stake) - 95 * stake <= 500
  {
    hide ChopRound;
    RoundingError(stake * 95_000_000_000_000_000);
  }
}
