/**
 Content identifiers (cmd/ipfs/cid.go): construction, field access, slice
 decoding and prefixes. Multihash parsing is go-multihash's and is a contract.
 */
module Cids {
  import opened Types
  import opened Varint

  const SHA2_256: nat := 0x12
  const DAG_PROTOBUF: nat := 0x70
  const MAX_INT32: nat := 0x7fff_ffff

  // ---------------------------------------------------------------- multihashes

  datatype Multihash = Multihash(code: nat, digest: Bytes, size: nat)

  /** Contract of go-multihash's reader: code, length and digest at the front of a buffer. */
  function ReadMultihash(s: Bytes): (r: Option<Multihash>)
    ensures r.Some? ==> 2 <= r.value.size <= |s|
  {
    if |s| < 2 then None
    else
      var c := FromUvarint(s);
      if c.Err? then None
      else
        var l := FromUvarint(s[c.n..]);
        if l.Err? || l.x > MAX_INT32 || l.x > |s| - c.n - l.n then None
        else Some(Multihash(c.x, s[c.n + l.n..c.n + l.n + l.x], c.n + l.n + l.x))
  }

  /** mh.Cast and mh.Decode accept a buffer that is one multihash and nothing else. */
  predicate IsMultihash(s: Bytes) { ReadMultihash(s).Some? && ReadMultihash(s).value.size == |s| }

  // ---------------------------------------------------------------- identifiers

  datatype Cid = Cid(str: Bytes)

  datatype FromBytes = Parsed(n: nat, cid: Cid) | Invalid

  datatype Prefix = Prefix(version: nat, codec: nat, mhType: nat, mhLength: int)

  /** A decoded number, or the zero that ignoring the error leaves. */
  function Num(d: Decoded): nat { if d.Ok? then d.x else 0 }

  function Len(d: Decoded): nat { if d.Ok? then d.n else 0 }

  /** tryNewCidV0; NewCidV0 panics on None. */
  function TryNewCidV0(mhash: Bytes): Option<Cid> {
    if !IsMultihash(mhash) then None
    else
      var m := ReadMultihash(mhash).value;
      if m.code != SHA2_256 || |m.digest| != 32 then None else Some(Cid(mhash))
  }

  /** NewCidV1. The documented panic on an invalid multihash is not in the code. */
  function NewCidV1(codec: uint64, mhash: Bytes): Cid { Cid([1] + Encode(codec) + mhash) }

  function Version(c: Cid): nat {
    if |c.str| == 34 && c.str[0] == 18 && c.str[1] == 32 then 0 else 1
  }

  function Type(c: Cid): nat {
    if Version(c) == 0 then DAG_PROTOBUF
    else Num(Uvarint(c.str[Len(Uvarint(c.str))..]))
  }

  function Hash(c: Cid): Bytes {
    if Version(c) == 0 then c.str
    else
      var rest := c.str[Len(FromUvarint(c.str))..];
      rest[Len(FromUvarint(rest))..]
  }

  /** int(mhlen) of an unsigned 64-bit length. */
  function ToInt(x: nat): int { if x < TWO63 then x else x - TWO64 }

  function PrefixOf(c: Cid): Prefix {
    if Version(c) == 0 then Prefix(0, DAG_PROTOBUF, SHA2_256, 32)
    else
      var v := Uvarint(c.str);
      var s1 := c.str[Len(v)..];
      var k := Uvarint(s1);
      var s2 := s1[Len(k)..];
      var t := Uvarint(s2);
      var s3 := s2[Len(t)..];
      Prefix(Num(v), Num(k), Num(t), ToInt(Num(Uvarint(s3))))
  }

  /** Cid.Prefix as written: one running offset into the string. */
  method ReadPrefix(c: Cid) returns (p: Prefix)
    ensures p == PrefixOf(c)
  {
    hide Uvarint, ToInt;
    if Version(c) == 0 {
      return Prefix(0, DAG_PROTOBUF, SHA2_256, 32);
    }
    var offset := 0;
    var version := ReadUvarintString(c.str[offset..]);
    assert c.str[0..] == c.str;
    offset := offset + Len(version);
    var codec := ReadUvarintString(c.str[offset..]);
    DropTwice(c.str, offset, Len(codec));
    offset := offset + Len(codec);
    var mhtype := ReadUvarintString(c.str[offset..]);
    DropTwice(c.str, offset, Len(mhtype));
    offset := offset + Len(mhtype);
    var mhlen := ReadUvarintString(c.str[offset..]);
    p := Prefix(Num(version), Num(codec), Num(mhtype), ToInt(Num(mhlen)));
  }

  function CidFromBytes(data: Bytes): (r: FromBytes)
    ensures r.Parsed? ==> r.n <= |data| && r.cid.str == data[..r.n]
  {
    if |data| > 2 && data[0] == SHA2_256 && data[1] == 32 then
      if |data| < 34 || !IsMultihash(data[..34]) then Invalid else Parsed(34, Cid(data[..34]))
    else
      var v := FromUvarint(data);
      if v.Err? || v.x != 1 then Invalid
      else
        var k := FromUvarint(data[v.n..]);
        if k.Err? then Invalid
        else
          var m := ReadMultihash(data[v.n + k.n..]);
          if m.None? then Invalid
          else
            var l := v.n + k.n + m.value.size;
            Parsed(l, Cid(data[..l]))
  }

  function Cast(data: Bytes): Option<Cid> {
    var r := CidFromBytes(data);
    if r.Parsed? && r.n == |data| then Some(r.cid) else None
  }

  // ---------------------------------------------------------------- multihash facts

  /** What a decoder accepted splits the buffer into an encoding and the rest. */
  lemma AcceptedSplit(s: Bytes)
    requires FromUvarint(s).Ok?
    ensures var r := FromUvarint(s);
            && r.x < TWO63 && r.n == |Encode(r.x)| && s == Encode(r.x) + s[r.n..]
            && Uvarint(s) == r
  {
    AcceptedIsEncoding(s);
    var r := FromUvarint(s);
    assert s == s[..r.n] + s[r.n..];
  }

  /** A multihash, spelled out. */
  lemma MultihashParts(s: Bytes) returns (code: nat, len: nat, tail: Bytes)
    requires ReadMultihash(s).Some?
    ensures code < TWO63 && len <= MAX_INT32 && len <= |tail|
    ensures s == Encode(code) + (Encode(len) + tail)
    ensures ReadMultihash(s) == Some(Multihash(code, tail[..len], |Encode(code)| + |Encode(len)| + len))
  {
    hide FromUvarint, Uvarint, Encode, Terminator, LowBits;
    var c := FromUvarint(s);
    AcceptedSplit(s);
    var t := s[c.n..];
    var l := FromUvarint(t);
    AcceptedSplit(t);
    code, len, tail := c.x, l.x, t[l.n..];
    var a := c.n + l.n;
    assert s[a..a + l.x] == tail[..len];
  }

  lemma MultihashFromParts(code: nat, len: nat, tail: Bytes)
    requires code < TWO63 && len <= MAX_INT32 && len <= |tail|
    ensures ReadMultihash(Encode(code) + (Encode(len) + tail)) ==
            Some(Multihash(code, tail[..len], |Encode(code)| + |Encode(len)| + len))
  {
    hide FromUvarint, Uvarint, Encode, Terminator, LowBits;
    var s := Encode(code) + (Encode(len) + tail);
    RoundTrip63(code, Encode(len) + tail);
    assert s[|Encode(code)|..] == Encode(len) + tail;
    RoundTrip63(len, tail);
    var a := |Encode(code)| + |Encode(len)|;
    assert s[a..a + len] == tail[..len];
  }

  /** A multihash is read the same whatever follows it. */
  lemma MultihashSelfDelimiting(s: Bytes, rest: Bytes)
    requires IsMultihash(s)
    ensures ReadMultihash(s + rest) == ReadMultihash(s)
  {
    hide FromUvarint, Uvarint, Encode, Terminator, LowBits;
    var code, len, tail := MultihashParts(s);
    MultihashFromParts(code, len, tail + rest);
    assert s + rest == Encode(code) + (Encode(len) + (tail + rest));
    assert (tail + rest)[..len] == tail[..len];
  }

  /** The front that was read is itself a multihash, with the same fields. */
  lemma MultihashFront(s: Bytes)
    requires ReadMultihash(s).Some?
    ensures IsMultihash(s[..ReadMultihash(s).value.size])
    ensures ReadMultihash(s[..ReadMultihash(s).value.size]) == ReadMultihash(s)
  {
    hide FromUvarint, Uvarint, Encode, Terminator, LowBits;
    var code, len, tail := MultihashParts(s);
    MultihashFromParts(code, len, tail[..len]);
    assert s[..ReadMultihash(s).value.size] == Encode(code) + (Encode(len) + tail[..len]);
    assert tail[..len][..len] == tail[..len];
  }

  lemma FirstByte(x: byte, rest: Bytes)
    requires x < 128
    ensures FromUvarint([x] + rest) == Ok(x, 1) && Uvarint([x] + rest) == Ok(x, 1)
  {
    assert Encode(x) == [x];
    RoundTrip63(x, rest);
    RoundTrip64(x, rest);
  }

  // ---------------------------------------------------------------- version 1

  /**
   With any bytes after it, a version 1 CID of a 63-bit codec and a multihash decodes
   to itself and its own length.
   */
  lemma V1SelfDelimiting(codec: uint64, mhash: Bytes, rest: Bytes)
    requires codec < TWO63 && IsMultihash(mhash)
    ensures CidFromBytes(NewCidV1(codec, mhash).str + rest) ==
            Parsed(|NewCidV1(codec, mhash).str|, NewCidV1(codec, mhash))
  {
    hide FromUvarint, Uvarint, Encode, Terminator, LowBits;
    var c := NewCidV1(codec, mhash);
    var data := c.str + rest;
    assert data == [1] + (Encode(codec) + mhash + rest);
    FirstByte(1, Encode(codec) + mhash + rest);
    assert data[1..] == Encode(codec) + (mhash + rest);
    RoundTrip63(codec, mhash + rest);
    var k := |Encode(codec)|;
    assert data[1 + k..] == mhash + rest;
    MultihashSelfDelimiting(mhash, rest);
    assert data[..|c.str|] == c.str;
  }

  /**
   Casting the bytes of a new version 1 CID gives it back exactly when its codec
   fits 63 bits and its hash is one well-formed multihash.
   */
  lemma V1CastRoundTrip(codec: uint64, mhash: Bytes)
    ensures Cast(NewCidV1(codec, mhash).str) == Some(NewCidV1(codec, mhash)) <==> codec < TWO63 && IsMultihash(mhash)
  {
    hide FromUvarint, Uvarint, Encode, Terminator, LowBits;
    var c := NewCidV1(codec, mhash);
    if codec < TWO63 && IsMultihash(mhash) {
      V1SelfDelimiting(codec, mhash, []);
      assert c.str + [] == c.str;
    } else {
      assert c.str == [1] + (Encode(codec) + mhash);
      FirstByte(1, Encode(codec) + mhash);
      assert c.str[1..] == Encode(codec) + mhash;
      RoundTrip63(codec, mhash);
      assert c.str[1 + |Encode(codec)|..] == mhash;
    }
  }

  /** Type recovers any 64-bit codec; the version is 1; Hash recovers the hash exactly for 63-bit codecs. */
  lemma V1Parts(codec: uint64, mhash: Bytes)
    ensures var c := NewCidV1(codec, mhash);
            && Version(c) == 1
            && Type(c) == codec
            && (Hash(c) == mhash <==> codec < TWO63)
  {
    var c := NewCidV1(codec, mhash);
    assert c.str == [1] + (Encode(codec) + mhash);
    FirstByte(1, Encode(codec) + mhash);
    assert c.str[1..] == Encode(codec) + mhash;
    RoundTrip64(codec, mhash);
    RoundTrip63(codec, mhash);
    EncodeCanonical(codec);
    assert (Encode(codec) + mhash)[|Encode(codec)|..] == mhash;
  }

  /** Prefix recovers version, codec, hash function and digest length. */
  lemma V1Prefix(codec: uint64, mhash: Bytes)
    requires IsMultihash(mhash)
    ensures var m := ReadMultihash(mhash).value;
            PrefixOf(NewCidV1(codec, mhash)) == Prefix(1, codec, m.code, |m.digest|)
  {
    hide FromUvarint, Uvarint, Encode, Terminator, LowBits;
    var c := NewCidV1(codec, mhash);
    V1Parts(codec, mhash);
    assert c.str == [1] + (Encode(codec) + mhash);
    FirstByte(1, Encode(codec) + mhash);
    assert c.str[1..] == Encode(codec) + mhash;
    RoundTrip64(codec, mhash);
    assert (Encode(codec) + mhash)[|Encode(codec)|..] == mhash;
    var code, len, tail := MultihashParts(mhash);
    RoundTrip64(code, Encode(len) + tail);
    assert mhash[|Encode(code)|..] == Encode(len) + tail;
    RoundTrip64(len, tail);
  }

  // ---------------------------------------------------------------- version 0

  /** A version 1 CID whose multihash does not even start with a number has code and length 0 in its prefix. */
  lemma MalformedPrefix(codec: uint64, mhash: Bytes)
    requires Uvarint(mhash).Err?
    ensures PrefixOf(NewCidV1(codec, mhash)) == Prefix(1, codec, 0, 0)
  {
    hide Uvarint, Encode;
    V1Parts(codec, mhash);
    var c := NewCidV1(codec, mhash);
    FirstByte(1, Encode(codec) + mhash);
    RoundTrip64(codec, mhash);
    Parts([1], Encode(codec) + mhash);
    Parts(Encode(codec), mhash);
    Regroup([1], Encode(codec), mhash);
    assert mhash[0..] == mhash;
  }

  /** What tryNewCidV0 accepts: 34 bytes starting with 18, 32. */
  lemma V0Shape(mhash: Bytes)
    ensures TryNewCidV0(mhash).Some? <==> |mhash| == 34 && mhash[0] == 18 && mhash[1] == 32
  {
    hide Uvarint, FromUvarint, Terminator, LowBits;
    if TryNewCidV0(mhash).Some? {
      var c := FromUvarint(mhash);
      AcceptedIsEncoding(mhash);
      assert Encode(18) == [18];
      assert mhash[..c.n][0] == 18;
      var t := mhash[1..];
      var l := FromUvarint(t);
      AcceptedIsEncoding(t);
      assert Encode(32) == [32];
      assert t[..l.n][0] == 32;
    }
    if |mhash| == 34 && mhash[0] == 18 && mhash[1] == 32 {
      assert mhash == [18] + mhash[1..] && mhash[1..] == [32] + mhash[2..];
      FirstByte(18, mhash[1..]);
      FirstByte(32, mhash[2..]);
    }
  }

  /** A string is read as version 0 exactly when it is a multihash a version 0 CID can be made of. */
  lemma Version0Iff(c: Cid)
    ensures Version(c) == 0 <==> TryNewCidV0(c.str) == Some(c)
    ensures Version(c) <= 1
  {
    hide IsMultihash, ReadMultihash;
    V0Shape(c.str);
    if TryNewCidV0(c.str).Some? { V0Str(c.str); }
  }

  /** A version 0 CID is recognised as such, decodes to itself with anything after it, and is its own hash. */
  lemma V0RoundTrip(mhash: Bytes, rest: Bytes)
    requires TryNewCidV0(mhash).Some?
    ensures var c := TryNewCidV0(mhash).value;
            && Version(c) == 0 && Hash(c) == mhash && Type(c) == 0x70
            && PrefixOf(c) == Prefix(0, Type(c), ReadMultihash(mhash).value.code, |ReadMultihash(mhash).value.digest|)
            && CidFromBytes(c.str + rest) == Parsed(34, c)
            && Cast(c.str) == Some(c)
  {
    V0Shape(mhash);
    assert (mhash + rest)[..34] == mhash;
    assert mhash[..34] == mhash;
  }

  // ---------------------------------------------------------------- the decoder accepts nothing else

  /**
   Whatever CidFromBytes accepts was built by one of the constructors: a version 0
   CID, or a version 1 CID of a 63-bit codec and a well-formed multihash.
   */
  lemma ParsedIsConstructed(data: Bytes)
    ensures CidFromBytes(data).Parsed? ==>
              var c := CidFromBytes(data).cid;
              || (Version(c) == 0 && TryNewCidV0(c.str) == Some(c))
              || (Type(c) < TWO63 && IsMultihash(Hash(c)) && c == NewCidV1(Type(c), Hash(c)))
  {
    hide FromUvarint, Uvarint, Encode, Terminator, LowBits;
    var r := CidFromBytes(data);
    if r.Parsed? {
      if |data| > 2 && data[0] == SHA2_256 && data[1] == 32 {
        V0Shape(r.cid.str);
      } else {
        AcceptedSplit(data);
        EncodeOne();
        var k := FromUvarint(data[1..]);
        AcceptedSplit(data[1..]);
        var tail := data[1..][k.n..];
        assert tail == data[1 + k.n..];
        MultihashFront(tail);
        var mhash := tail[..ReadMultihash(tail).value.size];
        assert r.cid.str == [1] + Encode(k.x) + mhash;
        V1Parts(k.x, mhash);
      }
    }
  }

  /**
   Cast takes the whole input or nothing: it accepts exactly the bytes of a version 0
   CID or of a version 1 CID with a 63-bit codec and a valid multihash, as themselves.
   */
  lemma CastAccepts(data: Bytes)
    ensures Cast(data).Some? ==> Cast(data).value.str == data
    ensures Cast(data).Some? <==>
            || TryNewCidV0(data).Some?
            || (exists codec: uint64, mhash ::
                  codec < TWO63 && IsMultihash(mhash) && data == NewCidV1(codec, mhash).str)
  {
    hide FromUvarint, Uvarint, Encode, ReadMultihash, IsMultihash, CidFromBytes, TryNewCidV0, NewCidV1;
    ParsedIsConstructed(data);
    if Cast(data).Some? {
      WholeFront(data);
    } else if TryNewCidV0(data).Some? {
      V0RoundTrip(data, []);
      V0Str(data);
    } else if exists codec: uint64, mhash :: codec < TWO63 && IsMultihash(mhash) && data == NewCidV1(codec, mhash).str {
      var codec: uint64, mhash :| codec < TWO63 && IsMultihash(mhash) && data == NewCidV1(codec, mhash).str;
      V1CastRoundTrip(codec, mhash);
    }
  }

  lemma WholeFront(data: Bytes)
    ensures data[..|data|] == data
  {
  }

  lemma V0Str(mhash: Bytes)
    requires TryNewCidV0(mhash).Some?
    ensures TryNewCidV0(mhash).value.str == mhash
  {
  }

  /** Bytes after a CID of either version are refused. */
  lemma TrailingBytesRefused(c: Cid, rest: Bytes)
    requires rest != [] && Cast(c.str) == Some(c)
    ensures Cast(c.str + rest) == None
  {
    hide FromUvarint, Uvarint, Encode, ReadMultihash, IsMultihash, TryNewCidV0, NewCidV1, CidFromBytes;
    CastAccepts(c.str);
    if TryNewCidV0(c.str).Some? {
      V0RoundTrip(c.str, rest);
      V0RoundTrip(c.str, []);
      V0Str(c.str);
      V0Size(c.str);
    } else {
      var codec: uint64, mhash :| codec < TWO63 && IsMultihash(mhash) && c.str == NewCidV1(codec, mhash).str;
      V1SelfDelimiting(codec, mhash, rest);
    }
  }

  lemma V0Size(mhash: Bytes)
    requires TryNewCidV0(mhash).Some?
    ensures |mhash| == 34
  {
    V0Shape(mhash);
  }

  lemma EncodeOne()
    ensures Encode(1) == [1]
  {
  }

  // ---------------------------------------------------------------- prefixes

  /** The values the Go fields can hold. */
  predicate FitsGo(p: Prefix) {
    && p.version < TWO64 && p.codec < TWO64 && p.mhType < TWO64
    && -(TWO63 as int) <= p.mhLength < TWO63
  }

  /** uint64(int). */
  function ToUint64(x: int): nat
    requires -(TWO63 as int) <= x
  {
    if x >= 0 then x else x + TWO64
  }

  function PrefixBytes(p: Prefix): Bytes
    requires FitsGo(p)
  {
    Encode(p.version) + Encode(p.codec) + Encode(p.mhType) + Encode(ToUint64(p.mhLength))
  }

  /** PrefixFromBytes: four 63-bit numbers in a row; anything after them is ignored. */
  function PrefixFromBytes(s: Bytes): Option<Prefix> {
    var v := FromUvarint(s);
    if v.Err? then None
    else
      var k := FromUvarint(s[v.n..]);
      if k.Err? then None
      else
        var t := FromUvarint(s[v.n..][k.n..]);
        if t.Err? then None
        else
          var l := FromUvarint(s[v.n..][k.n..][t.n..]);
          if l.Err? then None else Some(Prefix(v.x, k.x, t.x, ToInt(l.x)))
  }

  /** PrefixFromBytes inverts Bytes exactly when every field fits 63 bits and the length is not negative. */
  lemma PrefixRoundTrip(p: Prefix, rest: Bytes)
    requires FitsGo(p)
    ensures PrefixFromBytes(PrefixBytes(p) + rest) ==
            if p.version < TWO63 && p.codec < TWO63 && p.mhType < TWO63 && p.mhLength >= 0 then Some(p) else None
  {
    hide FromUvarint, Uvarint, Encode, Terminator, LowBits, ToUint64, ToInt;
    var l := ToUint64(p.mhLength);
    var a, b, c, d := Encode(p.version), Encode(p.codec), Encode(p.mhType), Encode(l);
    FourParts(a, b, c, d, rest);
    RoundTrip63(p.version, b + (c + (d + rest)));
    RoundTrip63(p.codec, c + (d + rest));
    RoundTrip63(p.mhType, d + rest);
    RoundTrip63(l, rest);
    LengthFits(p.mhLength);
  }

  /** Whatever PrefixFromBytes accepts starts with the bytes of the prefix it returns. */
  lemma PrefixIsRead(s: Bytes)
    requires PrefixFromBytes(s).Some?
    ensures FitsGo(PrefixFromBytes(s).value) && PrefixBytes(PrefixFromBytes(s).value) <= s
  {
    hide FromUvarint, Uvarint, Encode, Terminator, LowBits;
    AcceptedSplit(s);
    var s1 := s[FromUvarint(s).n..];
    AcceptedSplit(s1);
    var s2 := s1[FromUvarint(s1).n..];
    AcceptedSplit(s2);
    var s3 := s2[FromUvarint(s2).n..];
    AcceptedSplit(s3);
    var p := PrefixFromBytes(s).value;
    var a, b, c, d := Encode(p.version), Encode(p.codec), Encode(p.mhType), Encode(ToUint64(p.mhLength));
    FourParts(a, b, c, d, s3[FromUvarint(s3).n..]);
  }

  lemma FourParts(a: Bytes, b: Bytes, c: Bytes, d: Bytes, rest: Bytes)
    ensures var s := a + b + c + d + rest;
            && s == a + (b + (c + (d + rest)))
            && s[|a|..] == b + (c + (d + rest)) && s[|a|..][|b|..] == c + (d + rest)
            && s[|a|..][|b|..][|c|..] == d + rest
  {
    Parts(a, b + (c + (d + rest)));
    Parts(b, c + (d + rest));
    Parts(c, d + rest);
    assert a + b + c + d + rest == a + (b + (c + (d + rest)));
  }

  lemma LengthFits(x: int)
    requires -(TWO63 as int) <= x < TWO63
    ensures ToUint64(x) < TWO63 <==> x >= 0
    ensures x >= 0 ==> ToInt(ToUint64(x)) == x
  {
  }

  /** varint.PutUvarint: writes the encoding at an offset and returns its length. */
  method PutUvarint(buf: array<byte>, at: nat, x: uint64) returns (n: nat)
    requires at + |Encode(x)| <= buf.Length
    modifies buf
    ensures n == |Encode(x)|
    ensures buf[..] == old(buf[..at]) + Encode(x) + old(buf[at + n..])
  {
    hide Encode, Written;
    n := 0;
    var v: nat := x;
    ghost var pre, all, post := buf[..at], Encode(x), buf[at..];
    WrittenStart(buf[..], pre, all, post);
    while v >= 0x80
      invariant n <= |all| && all[n..] == Encode(v) && Written(buf[..], pre, all, post, n)
      decreases v
    {
      EncodeMore(all, n, v);
      ghost var was := buf[..];
      WrittenNext(was, pre, all, post, n);
      buf[at + n] := WithHighBit(v);
      assert buf[..] == was[at + n := all[n]];
      n := n + 1;
      v := v / 128;
    }
    EncodeLast(all, n, v);
    ghost var was := buf[..];
    WrittenNext(was, pre, all, post, n);
    buf[at + n] := v;
    assert buf[..] == was[at + n := all[n]];
    n := n + 1;
    WrittenEnd(buf[..], pre, all, post);
    DropTwice(old(buf[..]), at, n);
  }

  /** The first n bytes of `all` written over the front of `post`. */
  ghost predicate Written(buf: Bytes, pre: Bytes, all: Bytes, post: Bytes, n: nat)
    requires n <= |all| <= |post|
  {
    buf == pre + all[..n] + post[n..]
  }

  lemma WrittenStart(buf: Bytes, pre: Bytes, all: Bytes, post: Bytes)
    requires buf == pre + post && |all| <= |post|
    ensures Written(buf, pre, all, post, 0)
  {
    assert pre + all[..0] + post[0..] == pre + post;
  }

  lemma WrittenNext(buf: Bytes, pre: Bytes, all: Bytes, post: Bytes, n: nat)
    requires n < |all| <= |post| && Written(buf, pre, all, post, n)
    ensures |pre| + n < |buf| && Written(buf[|pre| + n := all[n]], pre, all, post, n + 1)
  {
    assert all[..n + 1] == all[..n] + [all[n]] && post[n..] == [post[n]] + post[n + 1..];
  }

  lemma WrittenEnd(buf: Bytes, pre: Bytes, all: Bytes, post: Bytes)
    requires |all| <= |post| && Written(buf, pre, all, post, |all|)
    ensures buf == pre + all + post[|all|..]
  {
    assert all[..|all|] == all;
  }

  lemma EncodeMore(all: Bytes, n: nat, v: nat)
    requires n <= |all| && all[n..] == Encode(v) && v >= 128
    ensures n < |all| && all[n] == WithHighBit(v) && all[n + 1..] == Encode(v / 128)
  {
    assert Encode(v) == [WithHighBit(v)] + Encode(v / 128);
    assert all[n] == all[n..][0] && all[n + 1..] == all[n..][1..];
  }

  lemma EncodeLast(all: Bytes, n: nat, v: nat)
    requires n <= |all| && all[n..] == Encode(v) && v < 128
    ensures n + 1 == |all| && all[n] == v
  {
    assert all[n] == all[n..][0];
  }

  /**
   Prefix.Bytes as written: a buffer of the computed size filled at a running offset;
   the size panic is unreachable.
   */
  method WritePrefix(p: Prefix) returns (out: Bytes)
    requires FitsGo(p)
    ensures out == PrefixBytes(p)
  {
    var l := ToUint64(p.mhLength);
    var size := |Encode(p.version)| + |Encode(p.codec)| + |Encode(p.mhType)| + |Encode(l)|;
    var buf := new byte[size](_ => 0);
    var n := PutUvarint(buf, 0, p.version);
    assert buf[..n] == Encode(p.version);
    var m := PutUvarint(buf, n, p.codec);
    assert buf[..n + m] == Encode(p.version) + Encode(p.codec);
    n := n + m;
    m := PutUvarint(buf, n, p.mhType);
    assert buf[..n + m] == Encode(p.version) + Encode(p.codec) + Encode(p.mhType);
    n := n + m;
    m := PutUvarint(buf, n, l);
    n := n + m;
    assert n == size;
    out := buf[..];
  }
}
