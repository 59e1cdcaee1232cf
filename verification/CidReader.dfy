/**
 Decoding a CID from a reader (cmd/ipfs/cid.go, bufByteReader and CidFromReader):
 the byte-at-a-time decoder, its account of the bytes it took, and its agreement
 with the slice decoder.
 */
module CidReader {
  import opened Types
  import opened Varint
  import opened Cids

  const MAX_DIGEST_ALLOC: nat := 0x200_0000

  // ---------------------------------------------------------------- readers

  /** Why a reader has no more bytes. */
  datatype ReadError = EOF | UnexpectedEOF | Broken

  /** An io.Reader over `data`; once it is exhausted every read fails with `end`. */
  class Reader {
    const data: Bytes
    const end: ReadError
    var pos: nat

    constructor (data: Bytes, end: ReadError)
      ensures this.data == data && this.end == end && pos == 0 && Valid()
    {
      this.data, this.end, this.pos := data, end, 0;
    }

    ghost predicate Valid() reads this { pos <= |data| }

    /** The bytes not read yet. */
    function Rest(): Bytes
      requires Valid()
      reads this
    {
      data[pos..]
    }

    method ReadByte() returns (r: Option<byte>)
      requires Valid()
      modifies this
      ensures Valid()
      ensures r.Some? <==> old(Rest()) != []
      ensures r.Some? ==> old(Rest()) == [r.value] + Rest()
      ensures r.None? ==> Rest() == []
    {
      if pos == |data| {
        return None;
      }
      r := Some(data[pos]);
      pos := pos + 1;
    }

    /** io.ReadFull: n bytes, or all that is left. */
    method ReadFull(n: nat) returns (got: Bytes)
      requires Valid()
      modifies this
      ensures Valid() && old(Rest()) == got + Rest()
      ensures |got| == if n <= |old(Rest())| then n else |old(Rest())|
    {
      var m := if n <= |data| - pos then n else |data| - pos;
      got := data[pos..pos + m];
      pos := pos + m;
    }
  }

  /** bufByteReader: passes single bytes on and keeps a copy of each. */
  class BufByteReader {
    const direct: bool
    const r: Reader
    var dst: Bytes

    constructor (direct: bool, r: Reader)
      ensures this.direct == direct && this.r == r && dst == []
    {
      this.direct, this.r, this.dst := direct, r, [];
    }

    method ReadByte() returns (b: Option<byte>)
      requires r.Valid()
      modifies r, this`dst
      ensures r.Valid()
      ensures b.Some? <==> old(r.Rest()) != []
      ensures b.Some? ==> old(r.Rest()) == [b.value] + r.Rest() && dst == old(dst) + [b.value]
      ensures b.None? ==> r.Rest() == [] && dst == old(dst)
    {
      if direct {
        b := r.ReadByte();
        if b.None? {
          return;
        }
      } else {
        var p := r.ReadFull(1);
        if |p| < 1 {
          return None;
        }
        b := Some(p[0]);
      }
      dst := dst + [b.value];
    }

    /** go-varint's ReadUvarint over this reader, as a loop on 64-bit words. */
    method ReadUvarint() returns (v: Stream)
      requires r.Valid()
      modifies r, this`dst
      ensures r.Valid()
      ensures v == StreamUvarint(old(r.Rest()), r.end)
      ensures dst == old(dst) + old(r.Rest())[..v.n] && r.Rest() == old(r.Rest())[v.n..]
    {
      hide Or, Shl64, StreamUvarint, Reading;
      ghost var s := r.Rest();
      ghost var kept := dst;
      var x: nat := 0;
      var i: nat := 0;
      ReadingStart(s, kept);
      while true
        invariant r.Valid() && i <= |s| && i <= 8
        invariant r.Rest() == s[i..] && dst == kept + s[..i]
        invariant Reading(s, i, x)
        decreases |s| - i
      {
        var b := ReadByte();
        if b.None? {
          ReadingEnds(s, i, x, r.end);
          return Stopped(if r.end == EOF && i != 0 then Ended(UnexpectedEOF) else Ended(r.end), i);
        }
        TakeOne(s, i, b.value, r.Rest(), kept);
        if (i == 8 && b.value >= 0x80) || i >= 9 {
          ReadingOverflows(s, i, x, r.end);
          return Stopped(BadVarint(Overflow), i + 1);
        }
        if b.value < 0x80 {
          ReadingStops(s, i, x, r.end);
          if b.value == 0 && i > 0 {
            return Stopped(BadVarint(NotMinimal), i + 1);
          }
          return Got(Or(x, Shl64(b.value, 7 * i)), i + 1);
        }
        ReadingGoesOn(s, i, x);
        x := Or(x, Shl64(b.value % 128, 7 * i));
        i := i + 1;
      }
    }
  }

  // ---------------------------------------------------------------- what the loop computes

  datatype Reason = BadVarint(e: VarintError) | Ended(end: ReadError)

  /** A number and the bytes it took, or a reason and the bytes taken before stopping. */
  datatype Stream = Got(x: nat, n: nat) | Stopped(why: Reason, n: nat)

  function StreamUvarint(s: Bytes, end: ReadError): (r: Stream)
    ensures r.n <= |s|
  {
    var i := Terminator(s);
    if i < |s| && i <= 8 then
      if s[i] == 0 && i > 0 then Stopped(BadVarint(NotMinimal), i + 1) else Got(LowBits(s[..i + 1]), i + 1)
    else if |s| >= 9 then Stopped(BadVarint(Overflow), 9)
    else Stopped(if end == EOF && s != [] then Ended(UnexpectedEOF) else Ended(end), |s|)
  }

  /** i bytes taken, all with the continuation bit, and x built from them. */
  ghost predicate Reading(s: Bytes, i: nat, x: nat) {
    && i <= |s| && (forall j :: 0 <= j < i ==> s[j] >= 128)
    && x == LowBits(s[..i])
  }

  lemma ReadingStart(s: Bytes, kept: Bytes)
    ensures Reading(s, 0, 0) && kept + s[..0] == kept
  {
    LowBitsEmpty(s);
  }

  lemma TakeOne(s: Bytes, i: nat, b: byte, rest: Bytes, kept: Bytes)
    requires i <= |s| && s[i..] == [b] + rest
    ensures i < |s| && s[i] == b && rest == s[i + 1..] && kept + s[..i] + [b] == kept + s[..i + 1]
  {
    assert s[i] == s[i..][0] && s[i + 1..] == s[i..][1..];
  }

  lemma ReadingEnds(s: Bytes, i: nat, x: nat, end: ReadError)
    requires Reading(s, i, x) && s[i..] == [] && i <= 8
    ensures StreamUvarint(s, end) == Stopped(if end == EOF && i != 0 then Ended(UnexpectedEOF) else Ended(end), i)
  {
    assert i == |s|;
  }

  lemma ReadingOverflows(s: Bytes, i: nat, x: nat, end: ReadError)
    requires Reading(s, i, x) && i == 8 < |s| && s[i] >= 128
    ensures StreamUvarint(s, end) == Stopped(BadVarint(Overflow), 9)
  {
    hide LowBits;
  }

  lemma ReadingStops(s: Bytes, i: nat, x: nat, end: ReadError)
    requires Reading(s, i, x) && i < |s| && i <= 8 && s[i] < 128
    ensures StreamUvarint(s, end) ==
            if s[i] == 0 && i > 0 then Stopped(BadVarint(NotMinimal), i + 1) else Got(Or(x, Shl64(s[i], 7 * i)), i + 1)
  {
    hide LowBits, Or, Shl64;
    TerminatorAt(s, i);
    ShiftIn(s[..i], s[i]);
    assert s[..i] + [s[i]] == s[..i + 1];
  }

  lemma ReadingGoesOn(s: Bytes, i: nat, x: nat)
    requires Reading(s, i, x) && i < |s| && i < 8 && s[i] >= 128
    ensures Reading(s, i + 1, Or(x, Shl64(s[i] % 128, 7 * i)))
  {
    hide LowBits, Or, Shl64;
    ShiftIn(s[..i], s[i]);
    assert s[..i] + [s[i]] == s[..i + 1];
  }

  /** The stream decoder gets a number exactly when the slice decoder does, the same one, from as many bytes. */
  lemma StreamAgrees(s: Bytes, end: ReadError)
    ensures StreamUvarint(s, end).Got? <==> FromUvarint(s).Ok?
    ensures FromUvarint(s).Ok? ==> StreamUvarint(s, end) == Got(FromUvarint(s).x, FromUvarint(s).n)
  {
  }

  // ---------------------------------------------------------------- reading a whole CID

  /** BareEOF: io.EOF passed on as it is; InvalidCid: any error wrapped in ErrInvalidCid. */
  datatype ReadResult = Read(cid: Cid) | BareEOF | InvalidCid

  datatype Taken = Taken(n: nat, result: ReadResult)

  /** CidFromReader as a function of the bytes the reader would yield. */
  function StreamCid(s: Bytes, end: ReadError): (t: Taken)
    ensures t.n <= |s|
  {
    var v := StreamUvarint(s, end);
    if v.Stopped? then
      if v.why == Ended(EOF) then Taken(0, BareEOF) else Taken(v.n, InvalidCid)
    else if v.x == SHA2_256 then
      if |s| < 34 then Taken(|s|, InvalidCid)
      else if !IsMultihash(s[..34]) then Taken(34, InvalidCid)
      else Taken(34, Read(Cid(s[..34])))
    else if v.x != 1 then Taken(v.n, InvalidCid)
    else
      var k := StreamUvarint(s[v.n..], end);
      if k.Stopped? then Taken(v.n + k.n, InvalidCid)
      else StreamHash(s, v.n + k.n, end)
  }

  /** The multihash part, from offset `at`. */
  function StreamHash(s: Bytes, at: nat, end: ReadError): (t: Taken)
    requires at <= |s|
    ensures t.n <= |s|
  {
    var c := StreamUvarint(s[at..], end);
    if c.Stopped? then Taken(at + c.n, InvalidCid)
    else
      var l := StreamUvarint(s[at + c.n..], end);
      var p := at + c.n + l.n;
      if l.Stopped? || l.x > MAX_DIGEST_ALLOC then Taken(p, InvalidCid)
      else if |s| - p < l.x then Taken(|s|, InvalidCid)
      else if ReadMultihash(s[at..p + l.x]).None? then Taken(p + l.x, InvalidCid)
      else Taken(p + l.x, Read(Cid(s[..p + l.x])))
  }

  /** The first n bytes of s were taken and kept, the others are still to come. */
  ghost predicate TakenTo(s: Bytes, n: nat, kept: Bytes, rest: Bytes) {
    n == |kept| && s == kept + rest
  }

  lemma TakenParts(s: Bytes, n: nat, kept: Bytes, rest: Bytes)
    requires TakenTo(s, n, kept, rest)
    ensures n == |kept| <= |s| && kept == s[..n] && rest == s[n..]
  {
    Parts(kept, rest);
  }

  lemma TakenMore(s: Bytes, n: nat, kept: Bytes, got: Bytes, rest: Bytes)
    requires TakenTo(s, n, kept, got + rest)
    ensures TakenTo(s, n + |got|, kept + got, rest)
  {
    Regroup(kept, got, rest);
  }

  /** One number off the reader, after the first n bytes of s. */
  method NextUvarint(br: BufByteReader, ghost s: Bytes, ghost n: nat) returns (v: Stream)
    requires br.r.Valid() && TakenTo(s, n, br.dst, br.r.Rest())
    modifies br.r, br`dst
    ensures br.r.Valid() && n <= |s| && v == StreamUvarint(s[n..], br.r.end)
    ensures TakenTo(s, n + v.n, br.dst, br.r.Rest()) && |br.dst| == n + v.n
  {
    hide StreamUvarint;
    ghost var kept, rest := br.dst, br.r.Rest();
    TakenParts(s, n, kept, rest);
    v := br.ReadUvarint();
    assert rest == rest[..v.n] + rest[v.n..];
    TakenMore(s, n, kept, rest[..v.n], rest[v.n..]);
  }

  /** io.ReadFull after the first n bytes of s; the bytes are kept. */
  method NextBytes(br: BufByteReader, len: nat, ghost s: Bytes, ghost n: nat) returns (got: nat)
    requires br.r.Valid() && TakenTo(s, n, br.dst, br.r.Rest())
    modifies br.r, br`dst
    ensures br.r.Valid() && n <= |s| && got == (if |s| - n < len then |s| - n else len)
    ensures TakenTo(s, n + got, br.dst, br.r.Rest()) && |br.dst| == n + got
  {
    ghost var kept, rest := br.dst, br.r.Rest();
    TakenParts(s, n, kept, rest);
    var p := br.r.ReadFull(len);
    TakenMore(s, n, kept, p, br.r.Rest());
    br.dst := br.dst + p;
    got := |p|;
  }

  /**
   CidFromReader, as written. Whatever the outcome, the count it returns is the
   number of bytes it took from the reader.
   */
  method CidFromReader(direct: bool, r: Reader) returns (t: Taken)
    requires r.Valid()
    modifies r
    ensures r.Valid()
    ensures t == StreamCid(old(r.Rest()), r.end)
    ensures r.Rest() == old(r.Rest())[t.n..]
  {
    hide StreamUvarint, ReadMultihash, IsMultihash, StreamHash, TakenTo;
    ghost var s := r.Rest();
    var br := new BufByteReader(direct, r);
    NothingTaken(s);
    var vers := NextUvarint(br, s, 0);
    TakenParts(s, vers.n, br.dst, r.Rest());
    if vers.Stopped? {
      if vers.why == Ended(EOF) {
        EndedEOF(s, r.end);
        return Taken(0, BareEOF);
      }
      return Taken(|br.dst|, InvalidCid);
    }
    if vers.x == SHA2_256 {
      OneByte(s, r.end);
      var got := NextBytes(br, 33, s, 1);
      TakenParts(s, 1 + got, br.dst, r.Rest());
      if got < 33 {
        return Taken(|br.dst|, InvalidCid);
      }
      if !IsMultihash(br.dst) {
        return Taken(|br.dst|, InvalidCid);
      }
      return Taken(|br.dst|, Read(Cid(br.dst)));
    }
    if vers.x != 1 {
      return Taken(|br.dst|, InvalidCid);
    }
    var codec := NextUvarint(br, s, vers.n);
    if codec.Stopped? {
      TakenParts(s, vers.n + codec.n, br.dst, r.Rest());
      return Taken(|br.dst|, InvalidCid);
    }
    t := ReadHash(br, s);
  }

  lemma NothingTaken(s: Bytes)
    ensures TakenTo(s, 0, [], s) && s[0..] == s
  {
    assert [] + s == s;
  }

  /** The second half of CidFromReader: hash function, digest length, digest. */
  method ReadHash(br: BufByteReader, ghost s: Bytes) returns (t: Taken)
    requires br.r.Valid() && TakenTo(s, |br.dst|, br.dst, br.r.Rest())
    modifies br.r, br`dst
    ensures br.r.Valid() && |old(br.dst)| <= |s|
    ensures t == StreamHash(s, |old(br.dst)|, br.r.end)
    ensures br.r.Rest() == s[t.n..]
  {
    hide StreamUvarint, ReadMultihash, TakenTo;
    var mhStart := |br.dst|;
    var code := NextUvarint(br, s, mhStart);
    TakenParts(s, mhStart + code.n, br.dst, br.r.Rest());
    if code.Stopped? {
      return Taken(|br.dst|, InvalidCid);
    }
    var mhl := NextUvarint(br, s, mhStart + code.n);
    var prefixLength := |br.dst|;
    TakenParts(s, prefixLength, br.dst, br.r.Rest());
    if mhl.Stopped? {
      return Taken(prefixLength, InvalidCid);
    }
    if mhl.x > MAX_DIGEST_ALLOC {
      return Taken(prefixLength, InvalidCid);
    }
    var got := NextBytes(br, mhl.x, s, prefixLength);
    TakenParts(s, prefixLength + got, br.dst, br.r.Rest());
    if got < mhl.x {
      return Taken(prefixLength + got, InvalidCid);
    }
    FrontSlice(s, mhStart, prefixLength + mhl.x);
    if ReadMultihash(br.dst[mhStart..]).None? {
      return Taken(|br.dst|, InvalidCid);
    }
    t := Taken(|br.dst|, Read(Cid(br.dst)));
  }

  lemma FrontSlice(s: Bytes, i: nat, j: nat)
    requires i <= j <= |s|
    ensures s[..j][i..] == s[i..j]
  {
  }

  lemma EndedEOF(s: Bytes, end: ReadError)
    ensures var v := StreamUvarint(s, end); v.Stopped? && v.why == Ended(EOF) <==> s == [] && end == EOF
  {
    if s == [] { assert Terminator(s) == 0; }
  }

  lemma OneByte(s: Bytes, end: ReadError)
    requires StreamUvarint(s, end).Got? && StreamUvarint(s, end).x == SHA2_256
    ensures StreamUvarint(s, end).n == 1 && s[0] == 18
  {
    StreamAgrees(s, end);
    AcceptedIsEncoding(s);
    assert Encode(18) == [18];
    assert s[..StreamUvarint(s, end).n][0] == 18;
  }

  // ---------------------------------------------------------------- agreement

  /** io.EOF comes back bare exactly when the reader yields nothing and ends in io.EOF. */
  lemma BareEOFOnlyWhenEmpty(s: Bytes, end: ReadError)
    ensures StreamCid(s, end).result == BareEOF <==> s == [] && end == EOF
    ensures s == [] ==> StreamCid(s, end).n == 0
  {
    hide StreamUvarint, ReadMultihash, IsMultihash;
    EndedEOF(s, end);
    if s == [] { StreamAgrees(s, end); }
  }

  lemma V0Front(s: Bytes)
    requires |s| == 34 && s[0] == 18 && IsMultihash(s)
    ensures s[1] == 32
  {
    hide FromUvarint, Terminator, LowBits;
    var code, len, tail := MultihashParts(s);
    EncodeCanonical(code);
    assert s[0] == Encode(code)[0];
    assert Encode(code) == [18];
    assert s[1] == Encode(len)[0];
  }

  /**
   The two decoders agree. Reading succeeds exactly when the slice decoder accepts
   the same bytes with a digest of at most 32 MiB, and then both report the same
   length and the same CID.
   */
  lemma StreamAndSliceAgree(s: Bytes, end: ReadError)
    ensures var t := StreamCid(s, end);
            && (t.result.Read? <==>
                  CidFromBytes(s).Parsed? && PrefixOf(CidFromBytes(s).cid).mhLength <= 32 * 1024 * 1024)
            && (t.result.Read? ==> CidFromBytes(s) == Parsed(t.n, t.result.cid))
  {
    hide FromUvarint, StreamUvarint, Encode, ReadMultihash, IsMultihash, StreamHash, PrefixOf;
    StreamAgrees(s, end);
    if FromUvarint(s).Ok? {
      AcceptedSplit(s);
      if FromUvarint(s).x == SHA2_256 {
        OneByte(s, end);
        AgreeV0(s, end);
      } else if FromUvarint(s).x == 1 {
        EncodeOne();
        AgreeV1(s, end);
      } else {
        FirstByteOfOther(s);
      }
    } else {
      FirstByteOfOther(s);
    }
  }

  lemma FirstByteOfOther(s: Bytes)
    requires FromUvarint(s).Err? || (FromUvarint(s).x != SHA2_256 && FromUvarint(s).x != 1)
    ensures |s| > 2 ==> s[0] != 18
  {
    if |s| > 2 && s[0] == 18 {
      assert s == [18] + s[1..];
      FirstByte(18, s[1..]);
    }
  }

  lemma AgreeV0(s: Bytes, end: ReadError)
    requires FromUvarint(s) == Ok(SHA2_256, 1) && s != [] && s[0] == 18
    ensures var t := StreamCid(s, end);
            && (t.result.Read? <==> CidFromBytes(s).Parsed?)
            && (t.result.Read? ==> CidFromBytes(s) == Parsed(t.n, t.result.cid))
    ensures CidFromBytes(s).Parsed? ==> PrefixOf(CidFromBytes(s).cid).mhLength == 32
  {
    hide FromUvarint, StreamUvarint, Encode, ReadMultihash, IsMultihash;
    StreamAgrees(s, end);
    if |s| >= 34 && IsMultihash(s[..34]) { V0Front(s[..34]); }
  }

  lemma AgreeV1(s: Bytes, end: ReadError)
    requires FromUvarint(s) == Ok(1, 1) && s != [] && s[0] == 1
    ensures var t := StreamCid(s, end);
            && (t.result.Read? <==>
                  CidFromBytes(s).Parsed? && PrefixOf(CidFromBytes(s).cid).mhLength <= MAX_DIGEST_ALLOC)
            && (t.result.Read? ==> CidFromBytes(s) == Parsed(t.n, t.result.cid))
  {
    hide FromUvarint, StreamUvarint, Encode, ReadMultihash, StreamHash, PrefixOf;
    StreamAgrees(s, end);
    StreamAgrees(s[1..], end);
    var k := FromUvarint(s[1..]);
    if k.Ok? {
      var at := 1 + k.n;
      AgreeHash(s, at, end);
      if ReadMultihash(s[at..]).Some? { V1Front(s, at); }
    }
  }

  /** The version 1 CID at the front of s, and its digest length. */
  lemma V1Front(s: Bytes, at: nat)
    requires s != [] && s[0] == 1 && FromUvarint(s) == Ok(1, 1)
    requires FromUvarint(s[1..]).Ok? && at == 1 + FromUvarint(s[1..]).n && ReadMultihash(s[at..]).Some?
    ensures var m := ReadMultihash(s[at..]).value;
            && CidFromBytes(s) == Parsed(at + m.size, Cid(s[..at + m.size]))
            && PrefixOf(Cid(s[..at + m.size])).mhLength == |m.digest|
  {
    hide FromUvarint, Encode, ReadMultihash, PrefixOf;
    var k := FromUvarint(s[1..]).x;
    var size := ReadMultihash(s[at..]).value.size;
    AcceptedSplit(s[1..]);
    MultihashFront(s[at..]);
    var mhash := s[at..][..size];
    V1Prefix(k, mhash);
    EncodeOne();
    V1Bytes(s, at, size, Encode(k));
  }

  lemma V1Bytes(s: Bytes, at: nat, size: nat, codec: Bytes)
    requires s != [] && s[0] == 1 && 1 <= at && at + size <= |s|
    requires at == 1 + |codec| && s[1..] == codec + s[1..][|codec|..]
    ensures s[..at + size] == [1] + codec + s[at..][..size]
  {
    Parts(codec, s[1..][|codec|..]);
    assert s == [1] + s[1..];
  }

  lemma AgreeHash(s: Bytes, at: nat, end: ReadError)
    requires at <= |s|
    ensures var t := StreamHash(s, at, end);
            var m := ReadMultihash(s[at..]);
            && (t.result.Read? <==> m.Some? && |m.value.digest| <= MAX_DIGEST_ALLOC)
            && (t.result.Read? ==> t.n == at + m.value.size && t.result.cid == Cid(s[..t.n]))
  {
    hide FromUvarint, StreamUvarint, Encode;
    var u := s[at..];
    StreamAgrees(u, end);
    var c := FromUvarint(u);
    if c.Ok? {
      assert s[at + c.n..] == u[c.n..];
      StreamAgrees(u[c.n..], end);
      var l := FromUvarint(u[c.n..]);
      if l.Ok? && l.x <= MAX_DIGEST_ALLOC && l.x <= |u| - c.n - l.n {
        assert ReadMultihash(u).Some?;
        MultihashFront(u);
        assert s[at..at + c.n + l.n + l.x] == u[..c.n + l.n + l.x];
      }
    }
  }
}
