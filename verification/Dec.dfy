/**
 Decimal arithmetic of the staking and distribution modules: LegacyDec as an
 integer scaled by 10^18, and DecCoins as a map from denom to positive amounts.
 */
module Dec {

  /** 1.0 */
  const ONE: nat := 1_000_000_000_000_000_000

  type Denom = string

  /** Division that truncates toward zero, as big.Int's Quo does. */
  function TruncDiv(x: int, d: nat): int
    requires d > 0
  {
    if x >= 0 then x / d else -((-x) / d)
  }

  function MulTruncate(a: int, b: int): int { TruncDiv(a * b, ONE) }

  /** Drops 18 digits, rounding half to even. */
  function ChopRound(x: nat): nat {
    var q, r := x / ONE, x % ONE;
    if 2 * r < ONE || (2 * r == ONE && q % 2 == 0) then q else q + 1
  }

  /** Mul of two non-negative decimals. */
  function MulRound(a: nat, b: nat): nat { ChopRound(a * b) }

  /** Quo of two non-negative decimals. */
  function QuoRound(a: nat, b: nat): nat
    requires b > 0
  {
    ChopRound(a * ONE * ONE / b)
  }

  function QuoTruncate(a: nat, b: nat): (r: nat)
    requires b > 0
    ensures a == 0 ==> r == 0
  {
    a * ONE / b
  }

  // ---------------------------------------------------------------- coins

  /** No entry is zero or negative. */
  type Coins = c: map<Denom, int> | forall d :: d in c ==> c[d] > 0

  function Amount(c: Coins, d: Denom): (a: nat) { if d in c then c[d] else 0 }

  function Add(a: Coins, b: Coins): (r: Coins)
    ensures forall d :: Amount(r, d) == Amount(a, d) + Amount(b, d)
  {
    map d | d in a.Keys + b.Keys :: Amount(a, d) + Amount(b, d)
  }

  /** Every amount of b is covered by a: otherwise Sub panics. */
  predicate Covers(a: Coins, b: Coins) { forall d :: d in b ==> Amount(b, d) <= Amount(a, d) }

  function Sub(a: Coins, b: Coins): (r: Coins)
    requires Covers(a, b)
    ensures forall d :: Amount(r, d) == Amount(a, d) - Amount(b, d)
  {
    map d | d in a && Amount(a, d) > Amount(b, d) :: Amount(a, d) - Amount(b, d)
  }

  function MulDecTruncate(a: Coins, stake: nat): (r: Coins)
    ensures forall d :: Amount(r, d) == Amount(a, d) * stake / ONE
  {
    map d | d in a && Amount(a, d) * stake / ONE > 0 :: Amount(a, d) * stake / ONE
  }

  function QuoDecTruncate(a: Coins, den: nat): (r: Coins)
    requires den > 0
    ensures forall d :: Amount(r, d) == QuoTruncate(Amount(a, d), den)
  {
    map d | d in a && QuoTruncate(Amount(a, d), den) > 0 :: QuoTruncate(Amount(a, d), den)
  }

  function Min(x: nat, y: nat): nat { if x <= y then x else y }

  function Intersect(a: Coins, b: Coins): (r: Coins)
    ensures forall d :: Amount(r, d) == Min(Amount(a, d), Amount(b, d))
  {
    map d | d in a && d in b :: Min(Amount(a, d), Amount(b, d))
  }

  /** TruncateDecimal: whole units, as an integer coin amount. */
  function Whole(a: Coins): (r: Coins)
    ensures forall d :: Amount(r, d) == Amount(a, d) / ONE
  {
    map d | d in a && Amount(a, d) / ONE > 0 :: Amount(a, d) / ONE
  }

  /** TruncateDecimal: what is left of each amount. */
  function Change(a: Coins): (r: Coins)
    ensures forall d :: Amount(r, d) == Amount(a, d) % ONE
  {
    map d | d in a && Amount(a, d) % ONE > 0 :: Amount(a, d) % ONE
  }

  // ---------------------------------------------------------------- what truncation and rounding may cost

  /** Truncating loses less than one unit and never gains. */
  lemma TruncationLoss(x: nat, stake: nat)
    ensures 0 <= x * stake - (x * stake / ONE) * ONE < ONE
  {
  }

  /** A slash by a non-negative fraction never increases a non-negative stake. */
  lemma SlashShrinks(stake: nat, fraction: nat)
    ensures MulTruncate(stake, ONE - fraction) <= stake
  {
    var k := ONE - fraction;
    if k >= 0 {
      assert stake * k <= stake * ONE by { MulLe(stake, k, ONE); }
      DivLe(stake * k, stake);
    } else {
      assert stake * k <= 0 by { MulLe(stake, k, 0); }
      if stake * k < 0 { assert (-(stake * k)) / ONE >= 0; }
    }
  }

  lemma MulLe(a: nat, x: int, y: int)
    requires x <= y
    ensures a * x <= a * y
  {
  }

  lemma DivLe(x: nat, y: nat)
    requires x <= y * ONE
    ensures x / ONE <= y
  {
  }

  /** Rounding moves a value by at most half a unit, and on a tie lands on an even one. */
  lemma RoundingError(x: nat)
    ensures -(ONE as int) <= 2 * (ChopRound(x) * ONE - x) <= ONE
    ensures 2 * (ChopRound(x) * ONE - x) == ONE || 2 * (ChopRound(x) * ONE - x) == -(ONE as int) ==>
              ChopRound(x) % 2 == 0
    ensures x / ONE <= ChopRound(x)
  {
    var q, r := x / ONE, x % ONE;
    assert x == q * ONE + r;
    assert (q + 1) * ONE == q * ONE + ONE;
  }

  /** A truncated quotient is never above the rounded one. */
  lemma TruncateBelowRound(a: nat, b: nat)
    requires b > 0
    ensures QuoTruncate(a, b) <= QuoRound(a, b)
  {
    hide ChopRound;
    var y := a * ONE;
    ScaledQuotient(y, b);
    RoundingError(y * ONE / b);
  }

  /** Dividing after scaling loses nothing: the whole part is still there. */
  lemma ScaledQuotient(y: nat, b: nat)
    requires b > 0
    ensures y / b <= y * ONE / b / ONE
  {
    var q := y / b;
    DivisionParts(y, b);
    MulLe(ONE, q * b, y);
    assert (q * ONE) * b == ONE * (q * b);
    DivMono(q * ONE, y * ONE, b);
    DivMono(q, y * ONE / b, ONE);
  }

  lemma DivMono(q: nat, y: nat, b: nat)
    requires b > 0 && q * b <= y
    ensures q <= y / b
  {
    var r := y / b;
    DivisionParts(y, b);
    if r < q { MulStep(r, q, b); }
  }

  lemma DivisionParts(y: nat, b: nat)
    requires b > 0
    ensures y == y / b * b + y % b
  {
  }

  lemma MulStep(r: nat, q: nat, b: nat)
    requires r < q
    ensures r * b + b <= q * b
  {
    var k := q - r - 1;
    assert q * b == r * b + b + k * b;
  }

  /** Covering, amount by amount. */
  lemma CoversAmounts(a: Coins, b: Coins)
    ensures Covers(a, b) <==> forall d :: Amount(b, d) <= Amount(a, d)
  {
    forall d | d in b && Covers(a, b) ensures Amount(b, d) <= Amount(a, d) {}
    if forall d :: Amount(b, d) <= Amount(a, d) {
      forall d | d in b ensures Amount(b, d) <= Amount(a, d) {}
    }
  }

  /** A truncated quotient is the largest one not above the true value. */
  lemma QuoTruncated(a: nat, b: nat)
    requires b > 0
    ensures QuoTruncate(a, b) * b <= a * ONE < (QuoTruncate(a, b) + 1) * b
  {
    var q := QuoTruncate(a, b);
    DivisionParts(a * ONE, b);
    assert (q + 1) * b == q * b + b;
  }

  /** A truncated product of non-negative decimals is the largest one not above the true value. */
  lemma MulTruncated(a: nat, b: nat)
    ensures MulTruncate(a, b) * ONE <= a * b < (MulTruncate(a, b) + 1) * ONE
  {
    assert a * b >= 0;
    DivisionParts(a * b, ONE);
  }

  /** A rounded quotient is within half a unit, up to what the first truncation drops. */
  lemma QuoRounded(a: nat, b: nat)
    requires b > 0
    ensures 2 * (QuoRound(a, b) * b - a * ONE) <= b
    ensures 2 * (a * ONE - QuoRound(a, b) * b) * ONE < (ONE + 2) * b
  {
    hide ChopRound;
    var x := a * ONE * ONE / b;
    var c := QuoRound(a, b);
    DivisionParts(a * ONE * ONE, b);
    RoundingError(x);
    Scaled(c, x, a * ONE, b);
  }

  lemma Scaled(c: nat, x: nat, y: nat, b: nat)
    requires b > 0 && x * b <= y * ONE < x * b + b
    requires -(ONE as int) <= 2 * (c * ONE - x) <= ONE
    ensures 2 * (c * b - y) <= b
    ensures 2 * (y - c * b) * ONE < (ONE + 2) * b
  {
    MulLe(b, 2 * (c * ONE - x), ONE);
    MulLe(b, -(ONE as int), 2 * (c * ONE - x));
    assert b * (2 * (c * ONE - x)) == 2 * (c * b) * ONE - 2 * (x * b);
    assert 2 * (c * b - y) * ONE == 2 * (c * b) * ONE - 2 * (y * ONE);
    assert 2 * (y - c * b) * ONE == 2 * (y * ONE) - 2 * (c * b) * ONE;
    assert b * ONE == ONE * b;
  }
}
