/**
 Unsigned varints: the writer of cmd/ipfs/add.go and app/wasmlc/verify.go, the
 string decoder of cmd/ipfs/cid.go, and the go-varint library's 63-bit decoder
 (a contract here, since the library is not part of this repository).
 */
module Varint {
  import opened Types

  const TWO63: nat := 0x8000_0000_0000_0000
  const TWO64: nat := 0x1_0000_0000_0000_0000

  type uint64 = x: int | 0 <= x < TWO64

  datatype VarintError = Overflow | NotMinimal | Underflow

  datatype Decoded = Ok(x: nat, n: nat) | Err(e: VarintError)

  // ---------------------------------------------------------------- reference definitions

  /** The varint of x: seven bits a byte, least significant first, high bit set on all but the last. */
  function Encode(x: nat): Bytes {
    if x < 128 then [x] else [x % 128 + 128] + Encode(x / 128)
  }

  /** The number spelled by the low seven bits of each byte, least significant first. */
  function LowBits(s: Bytes): nat {
    if s == [] then 0 else s[0] % 128 + 128 * LowBits(s[1..])
  }

  /** Index of the first byte with a clear high bit, or the length. */
  function Terminator(s: Bytes): (i: nat)
    ensures i <= |s|
    ensures forall j :: 0 <= j < i ==> s[j] >= 128
    ensures i < |s| ==> s[i] < 128
  {
    if s == [] || s[0] < 128 then 0 else 1 + Terminator(s[1..])
  }

  /** What uvarint (cid.go) accepts: up to 64 bits, minimal, terminated. */
  function Uvarint(s: Bytes): (r: Decoded)
    ensures r.Ok? ==> 1 <= r.n <= |s|
  {
    var i := Terminator(s);
    if i == |s| then Err(Underflow)
    else if i > 9 || (i == 9 && s[i] > 1) then Err(Overflow)
    else if s[i] == 0 && i > 0 then Err(NotMinimal)
    else Ok(LowBits(s[..i + 1]), i + 1)
  }

  /** Contract of go-varint's FromUvarint: at most nine bytes, that is 63 bits. */
  function FromUvarint(s: Bytes): (r: Decoded)
    ensures r.Ok? ==> 1 <= r.n <= |s|
  {
    var i := Terminator(s);
    if i == |s| && i < 9 then Err(Underflow)
    else if i >= 9 then Err(Overflow)
    else if s[i] == 0 && i > 0 then Err(NotMinimal)
    else Ok(LowBits(s[..i + 1]), i + 1)
  }

  function Pow128(k: nat): nat { if k == 0 then 1 else 128 * Pow128(k - 1) }

  /** A complete varint: terminated, and without a leading zero group. */
  ghost predicate Canonical(s: Bytes) {
    && s != []
    && (forall j :: 0 <= j < |s| - 1 ==> s[j] >= 128)
    && s[|s| - 1] < 128
    && (|s| > 1 ==> s[|s| - 1] != 0)
  }

  // ---------------------------------------------------------------- the encoding is canonical

  lemma {:induction false} EncodeCanonical(x: nat)
    ensures Canonical(Encode(x)) && LowBits(Encode(x)) == x
  {
    hide Canonical, LowBits;
    if x >= 128 {
      EncodeCanonical(x / 128);
      PutFirst(x % 128 + 128, Encode(x / 128));
    } else {
      OneGroup(x);
    }
  }

  lemma OneGroup(x: nat)
    requires x < 128
    ensures Canonical([x]) && LowBits([x]) == x
  {
    assert [x][1..] == [];
  }

  /** A group with the continuation bit put before a non-zero number. */
  lemma PutFirst(b: byte, tail: Bytes)
    requires b >= 128 && Canonical(tail) && LowBits(tail) > 0
    ensures Canonical([b] + tail) && LowBits([b] + tail) == b - 128 + 128 * LowBits(tail)
  {
    hide LowBits;
    var s := [b] + tail;
    assert s[|s| - 1] == tail[|tail| - 1] && forall j :: 0 < j < |s| ==> s[j] == tail[j - 1];
    PutFirstBits(b, tail);
    if tail == [0] { OneGroup(0); }
  }

  lemma PutFirstBits(b: byte, tail: Bytes)
    ensures LowBits([b] + tail) == b % 128 + 128 * LowBits(tail)
  {
    assert ([b] + tail)[1..] == tail;
  }

  lemma {:induction false} CanonicalIsEncode(s: Bytes)
    requires Canonical(s)
    ensures Encode(LowBits(s)) == s
    ensures |s| > 1 ==> LowBits(s) >= 128
    ensures s != [0] ==> LowBits(s) > 0
  {
    if |s| > 1 {
      var tail := s[1..];
      assert Canonical(tail);
      CanonicalIsEncode(tail);
      assert tail != [0];
      var v := LowBits(tail);
      assert LowBits(s) == s[0] % 128 + 128 * v;
      assert LowBits(s) / 128 == v && LowBits(s) % 128 == s[0] % 128;
      assert s == [s[0]] + tail;
    } else {
      assert s[1..] == [];
      assert LowBits(s) == s[0];
    }
  }

  /** A canonical varint of k + 1 bytes spells a number whose top group is the last byte. */
  lemma {:induction false} CanonicalBounds(s: Bytes)
    requires Canonical(s)
    ensures s[|s| - 1] * Pow128(|s| - 1) <= LowBits(s) < (s[|s| - 1] + 1) * Pow128(|s| - 1)
  {
    if |s| == 1 {
      assert s[1..] == [];
    } else {
      var tail := s[1..];
      CanonicalBounds(tail);
      var top, p := s[|s| - 1], Pow128(|tail| - 1);
      assert tail[|tail| - 1] == top && Pow128(|s| - 1) == 128 * p;
      TopGroup(top, p, LowBits(tail), s[0] % 128);
    }
  }

  lemma TopGroup(top: nat, p: nat, v: nat, d: nat)
    requires top * p <= v < (top + 1) * p && d < 128
    ensures top * (128 * p) <= d + 128 * v < (top + 1) * (128 * p)
  {
    assert top * (128 * p) == 128 * (top * p);
    assert (top + 1) * (128 * p) == 128 * ((top + 1) * p);
  }

  lemma {:induction false} Pow128Grows(a: nat, b: nat)
    requires a <= b
    ensures 1 <= Pow128(a) <= Pow128(b)
  {
    if b > 0 { if a < b { Pow128Grows(a, b - 1); } else { Pow128Grows(a - 1, b - 1); } }
  }

  lemma Pow128Nine()
    ensures Pow128(9) == TWO63
  {
    assert Pow128(3) == 0x20_0000;
    assert Pow128(6) == 128 * (128 * (128 * Pow128(3)));
    assert Pow128(9) == 128 * (128 * (128 * Pow128(6)));
  }

  /** The two size limits, in bytes: 63 bits is nine bytes, 64 bits is nine bytes or ten ending in 1. */
  lemma SizeLimits(s: Bytes)
    requires Canonical(s)
    ensures LowBits(s) < TWO63 <==> |s| <= 9
    ensures LowBits(s) < TWO64 <==> |s| <= 9 || (|s| == 10 && s[9] <= 1)
  {
    CanonicalBounds(s);
    Pow128Nine();
    var n := |s| - 1;
    var top, p := s[n], Pow128(n);
    if n <= 8 {
      Pow128Grows(n + 1, 9);
      assert (top + 1) * p <= 128 * p by { MulMono(top + 1, 128, p); }
    } else if n == 9 {
      if top <= 1 { MulMono(top + 1, 2, p); } else { MulMono(2, top, p); }
      MulMono(1, top, p);
    } else {
      Pow128Grows(10, n);
      MulMono(1, top, p);
    }
  }

  lemma MulMono(a: nat, b: nat, p: nat)
    requires a <= b
    ensures a * p <= b * p
  {
  }

  // ---------------------------------------------------------------- decoding

  lemma TerminatorOf(s: Bytes, rest: Bytes)
    requires Canonical(s)
    ensures Terminator(s + rest) == |s| - 1
  {
    TerminatorAt(s + rest, |s| - 1);
  }

  /** Round trip: with any bytes after it, the varint of a 64-bit number decodes to that number and its own length. */
  lemma RoundTrip64(x: uint64, rest: Bytes)
    ensures Uvarint(Encode(x) + rest) == Ok(x, |Encode(x)|)
  {
    var s := Encode(x);
    EncodeCanonical(x);
    TerminatorOf(s, rest);
    SizeLimits(s);
    assert (s + rest)[..|s|] == s;
  }

  /** The 63-bit decoder returns x exactly when x fits 63 bits, and overflows otherwise. */
  lemma RoundTrip63(x: nat, rest: Bytes)
    ensures FromUvarint(Encode(x) + rest) == if x < TWO63 then Ok(x, |Encode(x)|) else Err(Overflow)
  {
    var s := Encode(x);
    EncodeCanonical(x);
    TerminatorOf(s, rest);
    SizeLimits(s);
    assert (s + rest)[..|s|] == s;
  }

  /** Canonicity: whatever prefix the decoder accepts is exactly the encoding of the value it returns. */
  lemma AcceptedIsEncoding(s: Bytes)
    ensures Uvarint(s).Ok? ==> var Ok(x, n) := Uvarint(s); n <= |s| && x < TWO64 && s[..n] == Encode(x)
    ensures FromUvarint(s).Ok? ==> var Ok(x, n) := FromUvarint(s); n <= |s| && x < TWO63 && s[..n] == Encode(x)
    ensures FromUvarint(s).Ok? <==> Uvarint(s).Ok? && Uvarint(s).x < TWO63
    ensures FromUvarint(s).Ok? ==> FromUvarint(s) == Uvarint(s)
  {
    var i := Terminator(s);
    if i < |s| && (s[i] != 0 || i == 0) {
      var t := s[..i + 1];
      assert Canonical(t);
      CanonicalIsEncode(t);
      SizeLimits(t);
    }
  }

  /** Without a byte that ends the number uvarint reports underflow, and only then. */
  lemma UvarintUnderflows(s: Bytes)
    ensures Uvarint(s) == Err(Underflow) <==> forall b :: b in s ==> b >= 128
  {
    var i := Terminator(s);
    if i < |s| { assert s[i] in s; }
  }

  /**
   With the number ending at byte i: padded with a zero group it is not minimal, unless
   it is longer than ten bytes; longer than that, or 2^64 and more, it overflows;
   otherwise it is read.
   */
  lemma UvarintErrors(s: Bytes, i: nat)
    requires i < |s| && s[i] < 128 && forall j :: 0 <= j < i ==> s[j] >= 128
    ensures Uvarint(s) == Err(NotMinimal) <==> 0 < i <= 9 && s[i] == 0
    ensures Uvarint(s) == Err(Overflow) <==> i > 9 || (s[i] != 0 && LowBits(s[..i + 1]) >= TWO64)
    ensures Uvarint(s).Err? <==> Uvarint(s) == Err(NotMinimal) || Uvarint(s) == Err(Overflow)
  {
    TerminatorAt(s, i);
    if s[i] != 0 || i == 0 {
      assert Canonical(s[..i + 1]);
      SizeLimits(s[..i + 1]);
    }
  }

  /** Encodings are prefix-free: one encoding starts another only when the numbers are equal. */
  lemma PrefixFree(x: nat, y: nat)
    ensures Encode(x) <= Encode(y) ==> x == y
  {
    if Encode(x) <= Encode(y) {
      var s, t := Encode(x), Encode(y);
      EncodeCanonical(x);
      EncodeCanonical(y);
      TerminatorOf(s, t[|s|..]);
      TerminatorOf(t, []);
      assert s + t[|s|..] == t && t + [] == t;
    }
  }

  // ---------------------------------------------------------------- the writer

  /** byte(x) | 0x80. */
  function WithHighBit(x: nat): byte { x % 128 + 128 }

  method AppendUvarint(buf: Bytes, x: uint64) returns (out: Bytes)
    ensures out == buf + Encode(x)
  {
    out := buf;
    var v: nat := x;
    while v >= 0x80
      invariant out + Encode(v) == buf + Encode(x)
      decreases v
    {
      assert Encode(v) == [WithHighBit(v)] + Encode(v / 128);
      assert out + Encode(v) == out + [WithHighBit(v)] + Encode(v / 128);
      out := out + [WithHighBit(v)];
      v := v / 128;
    }
    out := out + [v];
  }

  // ---------------------------------------------------------------- the reader loop, on machine words

  function Pow2(k: nat): nat { if k == 0 then 1 else 2 * Pow2(k - 1) }

  /** Bitwise or. */
  function Or(x: nat, y: nat): nat {
    if x == 0 && y == 0 then 0
    else (if x % 2 == 1 || y % 2 == 1 then 1 else 0) + 2 * Or(x / 2, y / 2)
  }

  /** v << s on 64-bit words. */
  function Shl64(v: nat, s: nat): nat { if s >= 64 then 0 else (v * Pow2(s)) % TWO64 }

  lemma {:induction false} OrDisjoint(x: nat, y: nat, k: nat)
    requires x < Pow2(k)
    ensures Or(x, y * Pow2(k)) == x + y * Pow2(k)
    decreases k
  {
    if k == 0 {
      assert x == 0 && y * Pow2(0) == y;
      OrZero(y);
    } else {
      var p := Pow2(k - 1);
      assert Pow2(k) == 2 * p;
      var z := y * Pow2(k);
      assert z == 2 * (y * p) by { assert y * (2 * p) == 2 * (y * p); }
      OrDisjoint(x / 2, y, k - 1);
      if x != 0 || z != 0 {
        assert z / 2 == y * p && z % 2 == 0;
        assert Or(x, z) == x % 2 + 2 * Or(x / 2, y * p);
      }
    }
  }

  lemma {:induction false} OrZero(y: nat)
    ensures Or(0, y) == y && Or(y, 0) == y
  {
    if y != 0 { OrZero(y / 2); }
  }

  lemma {:induction false} Pow2Seven(i: nat)
    ensures Pow2(7 * i) == Pow128(i)
  {
    if i > 0 {
      Pow2Seven(i - 1);
      var k := 7 * (i - 1);
      assert Pow2(k + 1) == 2 * Pow2(k);
      assert Pow2(k + 2) == 2 * Pow2(k + 1);
      assert Pow2(k + 3) == 2 * Pow2(k + 2);
      assert Pow2(k + 4) == 2 * Pow2(k + 3);
      assert Pow2(k + 5) == 2 * Pow2(k + 4);
      assert Pow2(k + 6) == 2 * Pow2(k + 5);
      assert Pow2(k + 7) == 2 * Pow2(k + 6);
    }
  }

  lemma {:induction false} LowBitsSnoc(s: Bytes, b: byte)
    ensures LowBits(s + [b]) == LowBits(s) + (b % 128) * Pow128(|s|)
    ensures LowBits(s) < Pow128(|s|)
  {
    if s == [] {
      assert (s + [b])[1..] == [];
      assert s + [b] == [b];
    } else {
      LowBitsSnoc(s[1..], b);
      assert (s + [b])[1..] == s[1..] + [b];
      var p := Pow128(|s| - 1);
      assert Pow128(|s|) == 128 * p;
      assert 128 * ((b % 128) * p) == (b % 128) * (128 * p);
    }
  }

  /**
   One group on machine words: shifting it in is adding it, up to the ninth byte, and
   for a final tenth byte of 0 or 1.
   */
  lemma ShiftIn(s: Bytes, b: byte)
    requires |s| < 9 || (|s| == 9 && b <= 1)
    ensures Or(LowBits(s), Shl64(b % 128, 7 * |s|)) == LowBits(s + [b])
  {
    hide Pow2, Pow128, Or, LowBits;
    LowBitsSnoc(s, b);
    Pow2Seven(|s|);
    GroupFits(|s|, b % 128);
    OrDisjoint(LowBits(s), b % 128, 7 * |s|);
  }

  lemma GroupFits(i: nat, g: nat)
    requires g < 128 && (i < 9 || (i == 9 && g <= 1))
    ensures g * Pow128(i) < TWO64
    ensures g * Pow128(i) % TWO64 == g * Pow128(i)
  {
    hide Pow128;
    Pow128Nine();
    if i < 9 {
      Pow128Grows(i + 1, 9);
      assert Pow128(i + 1) == 128 * Pow128(i) by { PowStep(i); }
      MulMono(g, 128, Pow128(i));
    } else {
      MulMono(g, 1, Pow128(9));
    }
  }

  lemma PowStep(i: nat)
    ensures Pow128(i + 1) == 128 * Pow128(i)
  {
  }

  /** uvarint of cid.go, as written: a loop over or-ed, shifted 64-bit words. */
  method ReadUvarintString(buf: Bytes) returns (r: Decoded)
    ensures r == Uvarint(buf)
  {
    hide Pow2, Pow128, Or, LowBits, Shl64;
    var x: nat := 0;
    var s: nat := 0;
    LowBitsEmpty(buf);
    for i := 0 to |buf|
      invariant s == 7 * i
      invariant forall j :: 0 <= j < i ==> buf[j] >= 128
      invariant i <= 9 ==> x == LowBits(buf[..i])
    {
      var b := buf[i];
      assert buf[..i + 1] == buf[..i] + [b];
      if b < 0x80 {
        TerminatorAt(buf, i);
        if i > 9 || (i == 9 && b > 1) {
          return Err(Overflow);
        }
        if b == 0 && i > 0 {
          return Err(NotMinimal);
        }
        ShiftIn(buf[..i], b);
        return Ok(Or(x, Shl64(b, s)), i + 1);
      }
      if i < 9 { ShiftIn(buf[..i], b); }
      x := Or(x, Shl64(b % 128, s));
      s := s + 7;
    }
    r := Err(Underflow);
  }

  lemma LowBitsEmpty(s: Bytes)
    ensures LowBits(s[..0]) == 0
  {
  }

  lemma TerminatorAt(s: Bytes, i: nat)
    requires i < |s| && s[i] < 128 && forall j :: 0 <= j < i ==> s[j] >= 128
    ensures Terminator(s) == i
  {
  }
}
