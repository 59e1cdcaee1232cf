/**
 The two protobuf writers, encodeUnixFSFileBlock (cmd/ipfs/add.go) and
 MarshalIbcMerkleProof (app/wasmlc/verify.go), against a wire-format reader.
 */
module Wire {
  import opened Types
  import opened Varint

  // ---------------------------------------------------------------- a wire-format reader

  /** One field of a message: a varint (wire type 0) or bytes (wire type 2). */
  datatype Field = Number(num: nat, v: nat) | Blob(num: nat, data: Bytes)

  datatype Message = Fields(fs: seq<Field>) | Malformed

  /** One field at the front of a buffer, and its size. */
  function ReadField(s: Bytes): (r: Option<(Field, nat)>)
    ensures r.Some? ==> 0 < r.value.1 <= |s|
  {
    var tag := Uvarint(s);
    if tag.Err? then None
    else
      var v := Uvarint(s[tag.n..]);
      if v.Err? then None
      else if tag.x % 8 == 0 then Some((Number(tag.x / 8, v.x), tag.n + v.n))
      else if tag.x % 8 == 2 && v.x <= |s| - tag.n - v.n
      then Some((Blob(tag.x / 8, s[tag.n + v.n..tag.n + v.n + v.x]), tag.n + v.n + v.x))
      else None
  }

  /** All fields of a message, in order. */
  function ReadMessage(s: Bytes): Message
    decreases |s|
  {
    if s == [] then Fields([])
    else
      var f := ReadField(s);
      if f.None? then Malformed
      else
        var rest := ReadMessage(s[f.value.1..]);
        if rest.Malformed? then Malformed else Fields([f.value.0] + rest.fs)
  }

  // ---------------------------------------------------------------- the writers

  function WriteField(f: Field): Bytes {
    match f
    case Number(num, v) => Encode(8 * num) + Encode(v)
    case Blob(num, data) => Encode(8 * num + 2) + (Encode(|data|) + data)
  }

  function WriteMessage(fs: seq<Field>): Bytes {
    if fs == [] then [] else WriteField(fs[0]) + WriteMessage(fs[1..])
  }

  /** Numbers and lengths that fit a 64-bit word. */
  ghost predicate Fits(f: Field) {
    && 8 * f.num + 2 < TWO64
    && (f.Number? ==> f.v < TWO64)
    && (f.Blob? ==> |f.data| < TWO64)
  }

  lemma ReadWritten(f: Field, rest: Bytes)
    requires Fits(f)
    ensures ReadField(WriteField(f) + rest) == Some((f, |WriteField(f)|))
  {
    hide Uvarint, Encode, ReadField;
    match f
    case Number(num, v) =>
      var a, b := Encode(8 * num), Encode(v);
      Regroup(a, b, rest);
      RoundTrip64(8 * num, b + rest);
      RoundTrip64(v, rest);
      Parts(a, b + rest);
      ReadsNumber(a + (b + rest), num, v, |a|, |b|);
    case Blob(num, data) =>
      var a, b := Encode(8 * num + 2), Encode(|data|);
      Regroup(a, b + data, rest);
      Regroup(b, data, rest);
      RoundTrip64(8 * num + 2, b + (data + rest));
      RoundTrip64(|data|, data + rest);
      Parts(a, b + (data + rest));
      BlobPart(a, b, data, rest);
      ReadsBlob(a + (b + (data + rest)), num, data, |a|, |b|);
  }

  lemma ReadsNumber(s: Bytes, num: nat, v: nat, i: nat, j: nat)
    requires Uvarint(s) == Ok(8 * num, i) && Uvarint(s[i..]) == Ok(v, j)
    ensures ReadField(s) == Some((Number(num, v), i + j))
  {
    hide Uvarint;
    assert 8 * num % 8 == 0 && 8 * num / 8 == num;
  }

  lemma ReadsBlob(s: Bytes, num: nat, data: Bytes, i: nat, j: nat)
    requires Uvarint(s) == Ok(8 * num + 2, i) && Uvarint(s[i..]) == Ok(|data|, j)
    requires i + j + |data| <= |s| && s[i + j..i + j + |data|] == data
    ensures ReadField(s) == Some((Blob(num, data), i + j + |data|))
  {
    hide Uvarint;
    assert (8 * num + 2) % 8 == 2 && (8 * num + 2) / 8 == num;
  }

  lemma BlobPart(a: Bytes, b: Bytes, data: Bytes, rest: Bytes)
    ensures var s := a + (b + (data + rest));
            |a| + |b| + |data| <= |s| && s[|a| + |b|..|a| + |b| + |data|] == data
  {
  }

  /** A reader recovers exactly the fields that were written. */
  lemma {:induction false} WireRoundTrip(fs: seq<Field>)
    requires forall f :: f in fs ==> Fits(f)
    ensures ReadMessage(WriteMessage(fs)) == Fields(fs)
  {
    if fs != [] {
      var tail := WriteMessage(fs[1..]);
      ReadWritten(fs[0], tail);
      WireRoundTrip(fs[1..]);
      var s := WriteMessage(fs);
      assert s == WriteField(fs[0]) + tail;
      assert s[|WriteField(fs[0])|..] == tail;
      assert [fs[0]] + fs[1..] == fs;
      assert s != [] by { assert ReadField(s).Some?; }
    }
  }

  method AppendVarintField(buf: Bytes, fieldNum: nat, v: uint64) returns (out: Bytes)
    requires 8 * fieldNum + 2 < TWO64
    ensures out == buf + WriteField(Number(fieldNum, v))
  {
    hide Encode;
    out := AppendUvarint(buf, 8 * fieldNum);
    out := AppendUvarint(out, v);
    Assoc(buf, Encode(8 * fieldNum), Encode(v), []);
  }

  method AppendBytesField(buf: Bytes, fieldNum: nat, data: Bytes) returns (out: Bytes)
    requires 8 * fieldNum + 2 < TWO64 && |data| < TWO64
    ensures out == buf + WriteField(Blob(fieldNum, data))
  {
    hide Encode;
    out := AppendUvarint(buf, 8 * fieldNum + 2);
    out := AppendUvarint(out, |data|);
    out := out + data;
    Assoc(buf, Encode(8 * fieldNum + 2), Encode(|data|), data);
  }

  // ---------------------------------------------------------------- UnixFS file blocks

  const FILE_TYPE: nat := 2

  function UnixFS(data: Bytes): seq<Field> { [Number(1, FILE_TYPE), Blob(2, data), Number(3, |data|)] }

  /** The dag-pb node around the UnixFS message. */
  function FileBlock(data: Bytes): Bytes { WriteField(Blob(1, WriteMessage(UnixFS(data)))) }

  lemma UnixFSBytes(data: Bytes)
    ensures WriteMessage(UnixFS(data)) ==
            WriteField(Number(1, FILE_TYPE)) + WriteField(Blob(2, data)) + WriteField(Number(3, |data|))
  {
    hide Encode;
    var fs := UnixFS(data);
    assert fs[1..] == [Blob(2, data), Number(3, |data|)] && fs[1..][1..] == [Number(3, |data|)];
    assert fs[1..][1..][1..] == [];
    assert WriteMessage(fs[1..][1..]) == WriteField(Number(3, |data|)) + WriteMessage([]);
  }

  lemma FieldSize(data: Bytes)
    ensures |WriteField(Blob(2, data))| >= |data|
  {
    hide Encode;
  }

  method EncodeUnixFSFileBlock(data: Bytes) returns (block: Bytes)
    requires |WriteMessage(UnixFS(data))| < TWO64
    ensures block == FileBlock(data)
  {
    hide WriteField, WriteMessage;
    UnixFSBytes(data);
    FieldSize(data);
    var unixfs := AppendVarintField([], 1, FILE_TYPE);
    unixfs := AppendBytesField(unixfs, 2, data);
    unixfs := AppendVarintField(unixfs, 3, |data|);
    assert unixfs == WriteMessage(UnixFS(data));
    block := AppendBytesField([], 1, unixfs);
    assert [] + WriteField(Blob(1, unixfs)) == WriteField(Blob(1, unixfs));
  }

  /**
   A wire reader finds, in the block, one node whose payload holds file type, content
   and length; so blocks determine content.
   */
  lemma FileBlockReads(data: Bytes)
    requires |WriteMessage(UnixFS(data))| < TWO64
    ensures ReadMessage(FileBlock(data)) == Fields([Blob(1, WriteMessage(UnixFS(data)))])
    ensures ReadMessage(WriteMessage(UnixFS(data))) == Fields([Number(1, 2), Blob(2, data), Number(3, |data|)])
  {
    hide Encode, ReadMessage, ReadField;
    UnixFSBytes(data);
    var node := [Blob(1, WriteMessage(UnixFS(data)))];
    assert node[1..] == [];
    assert WriteMessage(node) == FileBlock(data) + WriteMessage([]) == FileBlock(data);
    WireRoundTrip(node);
    assert |WriteField(Blob(2, data))| >= |data|;
    WireRoundTrip(UnixFS(data));
  }

  lemma FileBlockInjective(a: Bytes, b: Bytes)
    requires |WriteMessage(UnixFS(a))| < TWO64 && |WriteMessage(UnixFS(b))| < TWO64
    ensures FileBlock(a) == FileBlock(b) <==> a == b
  {
    hide Encode, ReadMessage, ReadField, WriteField, WriteMessage;
    FileBlockReads(a);
    FileBlockReads(b);
    if FileBlock(a) == FileBlock(b) {
      var fa, fb := [Blob(1, WriteMessage(UnixFS(a)))], [Blob(1, WriteMessage(UnixFS(b)))];
      assert fa == fb;
      assert fa[0] == fb[0];
      assert UnixFS(a)[1] == UnixFS(b)[1];
    }
  }

  // ---------------------------------------------------------------- merkle proofs

  function ProofFields(proofs: seq<Bytes>): seq<Field> {
    seq(|proofs|, i requires 0 <= i < |proofs| => Blob(1, proofs[i]))
  }

  /** The repeated-field encoding. */
  function ProofList(proofs: seq<Bytes>): Bytes { WriteMessage(ProofFields(proofs)) }

  /** What MarshalIbcMerkleProof returns for proofs given by their own encodings: a single proof is not wrapped. */
  function MerkleProof(proofs: seq<Bytes>): Bytes {
    if |proofs| == 1 then proofs[0] else ProofList(proofs)
  }

  lemma {:induction false} WriteMessageSnoc(fs: seq<Field>, f: Field)
    ensures WriteMessage(fs + [f]) == WriteMessage(fs) + WriteField(f)
  {
    hide WriteField;
    if fs == [] {
      assert fs + [f] == [f] && [f][1..] == [];
      assert WriteMessage([f]) == WriteField(f) + WriteMessage([]);
    } else {
      WriteMessageSnoc(fs[1..], f);
      assert (fs + [f])[1..] == fs[1..] + [f] && (fs + [f])[0] == fs[0];
      assert WriteMessage(fs + [f]) == WriteField(fs[0]) + WriteMessage(fs[1..] + [f]);
    }
  }

  /** MarshalIbcMerkleProof, as written; each proof is its own encoding, None when marshalling it fails. */
  method MarshalIbcMerkleProof(proofs: seq<Option<Bytes>>) returns (r: Option<Bytes>)
    requires forall p :: p in proofs && p.Some? ==> |p.value| < TWO64
    ensures r.Some? <==> forall p :: p in proofs ==> p.Some?
    ensures r.Some? ==>
              r.value == MerkleProof(seq(|proofs|, i requires 0 <= i < |proofs| && proofs[i].Some? => proofs[i].value))
  {
    hide ProofList, Encode;
    if |proofs| == 1 {
      return proofs[0];
    }
    ProofListEmpty();
    var buf: Bytes := [];
    ghost var ps: seq<Bytes> := [];
    for i := 0 to |proofs|
      invariant |ps| == i && forall j :: 0 <= j < i ==> proofs[j] == Some(ps[j])
      invariant buf == ProofList(ps)
    {
      var bz := proofs[i];
      if bz.None? {
        return None;
      }
      assert bz in proofs;
      ProofListSnoc(ps, bz.value);
      buf := buf + [0x0a];
      buf := AppendUvarint(buf, |bz.value|);
      buf := buf + bz.value;
      ps := ps + [bz.value];
    }
    assert ps == seq(|proofs|, i requires 0 <= i < |proofs| && proofs[i].Some? => proofs[i].value);
    r := Some(buf);
  }

  lemma ProofListEmpty()
    ensures ProofList([]) == []
  {
  }

  lemma ProofListSnoc(ps: seq<Bytes>, p: Bytes)
    ensures ProofList(ps + [p]) == ProofList(ps) + [0x0a] + Encode(|p|) + p
  {
    hide *;
    BlobBytes(p);
    ProofListField(ps, p);
    Assoc(ProofList(ps), [0x0a], Encode(|p|), p);
  }

  lemma ProofListField(ps: seq<Bytes>, p: Bytes)
    ensures ProofList(ps + [p]) == ProofList(ps) + WriteField(Blob(1, p))
  {
    hide WriteMessage, Encode, WriteField;
    WriteMessageSnoc(ProofFields(ps), Blob(1, p));
    assert ProofFields(ps + [p]) == ProofFields(ps) + [Blob(1, p)];
  }

  lemma Assoc(a: Bytes, b: Bytes, c: Bytes, d: Bytes)
    ensures a + (b + c + d) == a + b + c + d
    ensures a + (b + (c + d)) == a + b + c + d
    ensures a + (b + c) == a + b + c
  {
  }

  lemma BlobBytes(p: Bytes)
    ensures WriteField(Blob(1, p)) == [0x0a] + Encode(|p|) + p
  {
    hide Encode;
    TagByte();
  }

  lemma TagByte()
    ensures Encode(8 * 1 + 2) == [0x0a]
  {
  }

  /** For any number of proofs but one, a wire reader recovers the exact list. */
  lemma MerkleProofReads(proofs: seq<Bytes>)
    requires |proofs| != 1 && forall p :: p in proofs ==> |p| < TWO64
    ensures ReadMessage(MerkleProof(proofs)) == Fields(ProofFields(proofs))
  {
    forall f | f in ProofFields(proofs) ensures Fits(f) {
      var i :| 0 <= i < |proofs| && ProofFields(proofs)[i] == f;
      assert proofs[i] in proofs;
    }
    WireRoundTrip(ProofFields(proofs));
  }

  /** A proof as its own message encodes it: at most one field, since the kinds of proof are alternatives. */
  ghost predicate OneProof(p: Bytes) {
    |p| < TWO64 && ReadMessage(p).Fields? && |ReadMessage(p).fs| <= 1
  }

  /**
   Where the encoding is injective: for single proofs of at most one field, and for
   any proofs in longer lists, equal bytes mean equal lists. The one exception is the empty list and the
   list of one empty proof, which are both written as no bytes.
   */
  lemma MerkleProofInjective(ps: seq<Bytes>, qs: seq<Bytes>)
    requires forall p :: p in ps + qs ==> |p| < TWO64
    requires (|ps| == 1 ==> OneProof(ps[0])) && (|qs| == 1 ==> OneProof(qs[0]))
    ensures MerkleProof(ps) == MerkleProof(qs) <==> ps == qs || {ps, qs} == {[], [[]]}
  {
    hide OneProof;
    if |ps| != 1 && |qs| != 1 {
      ListsInjective(ps, qs);
    } else if |ps| == 1 && |qs| != 1 {
      SingleIsNotList(ps[0], qs);
      assert ps == [ps[0]];
    } else if |qs| == 1 && |ps| != 1 {
      SingleIsNotList(qs[0], ps);
      assert qs == [qs[0]];
    } else {
      assert ps == [ps[0]] && qs == [qs[0]];
    }
  }

  /** Lists that are not single proofs are told apart without any condition on the proofs. */
  lemma ListsInjective(ps: seq<Bytes>, qs: seq<Bytes>)
    requires |ps| != 1 && |qs| != 1
    requires forall p :: p in ps + qs ==> |p| < TWO64
    ensures MerkleProof(ps) == MerkleProof(qs) <==> ps == qs
  {
    if MerkleProof(ps) == MerkleProof(qs) {
      MerkleProofReads(ps);
      MerkleProofReads(qs);
      assert ProofFields(ps) == ProofFields(qs);
      assert |ps| == |ProofFields(ps)| == |ProofFields(qs)| == |qs|;
      forall i | 0 <= i < |ps| ensures ps[i] == qs[i] {
        assert ProofFields(ps)[i] == ProofFields(qs)[i];
      }
    }
  }

  /** A proof of at most one field, written bare, is no list of several; it is the empty list only when it is empty. */
  lemma SingleIsNotList(p: Bytes, qs: seq<Bytes>)
    requires |qs| != 1 && OneProof(p) && forall q :: q in qs ==> |q| < TWO64
    ensures MerkleProof([p]) == MerkleProof(qs) <==> p == [] && qs == []
  {
    MerkleProofReads(qs);
    ProofListEmpty();
    if MerkleProof([p]) == MerkleProof(qs) { assert |ProofFields(qs)| == |qs| <= 1; }
  }

  /** The exception: no proofs and one empty proof. */
  lemma EmptyProofCollides()
    ensures OneProof([]) && MerkleProof([[]]) == MerkleProof([]) == []
  {
  }
}
