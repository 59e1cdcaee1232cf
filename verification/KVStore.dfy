/**
 The multistore of a running block and the two copy loops over it:
 syncKVStore (app/upgrades/v6_3/copy.go) and the older copyKVStore
 (app/upgrades/v6_1/upgrades.go).
 */
module KVStores {
  import opened Types

  function Elems(ks: seq<Bytes>): set<Bytes> { set k | k in ks }

  /** An iterator over a whole store: every key exactly once. */
  ghost predicate Enumerates(ks: seq<Bytes>, keys: set<Bytes>) {
    && (forall i, j :: 0 <= i < j < |ks| ==> ks[i] != ks[j])
    && (forall k :: k in ks <==> k in keys)
  }

  lemma {:induction false} EnumerationLength(ks: seq<Bytes>, keys: set<Bytes>)
    requires Enumerates(ks, keys)
    ensures |ks| == |keys|
  {
    if ks == [] {
      assert keys == {};
    } else {
      var n := |ks| - 1;
      var rest := keys - {ks[n]};
      forall k ensures k in ks[..n] <==> k in rest {
        if k in ks && k != ks[n] {
          var i :| 0 <= i < |ks| && ks[i] == k;
          assert ks[..n][i] == k;
        }
      }
      EnumerationLength(ks[..n], rest);
    }
  }

  method Iterator(store: KV) returns (ks: seq<Bytes>)
    ensures Enumerates(ks, store.Keys)
  {
    ks := [];
    var rest := store.Keys;
    while rest != {}
      invariant Enumerates(ks, store.Keys - rest)
      invariant rest <= store.Keys
      decreases rest
    {
      var k :| k in rest;
      ks := ks + [k];
      rest := rest - {k};
    }
    assert store.Keys - rest == store.Keys;
  }

  /** dst with every entry of src written over it (what a copy without deletion leaves). */
  function Overlay(dst: KV, src: KV): KV { dst + src }

  class MultiStore {
    var stores: map<string, KV>

    constructor (stores: map<string, KV>)
      ensures this.stores == stores
    {
      this.stores := stores;
    }

    method Set(name: string, key: Bytes, value: Bytes)
      requires name in stores
      modifies this
      ensures stores == old(stores)[name := old(stores)[name][key := value]]
    {
      stores := stores[name := stores[name][key := value]];
    }

    method Delete(name: string, key: Bytes)
      requires name in stores
      modifies this
      ensures stores == old(stores)[name := old(stores)[name] - {key}]
    {
      stores := stores[name := stores[name] - {key}];
    }

    /** Copies every src entry into dst, without deleting anything; returns the number of entries copied. */
    method CopyEntries(src: string, dst: string, ks: seq<Bytes>) returns (n: nat)
      requires src in stores && dst in stores
      requires Enumerates(ks, stores[src].Keys)
      modifies this
      ensures stores == old(stores)[dst := Overlay(old(stores)[dst], old(stores)[src])]
      ensures n == |old(stores)[src]|
    {
      hide Part, Enumerates;
      n := 0;
      ghost var from, to := stores[src], stores[dst];
      PartEnds(to, from, ks);
      while n < |ks|
        invariant n <= |ks|
        invariant stores == old(stores)[dst := to + Part(from, ks[..n])]
      {
        PartStep(to, from, ks, n);
        if src == dst { PartOfSelf(from, ks[..n]); }
        Set(dst, ks[n], stores[src][ks[n]]);
        n := n + 1;
      }
      assert ks[..n] == ks;
    }

    /** v6.1 copyKVStore: dest keys outside src survive. */
    method CopyKVStore(src: string, dst: string) returns (n: nat)
      requires src in stores && dst in stores
      modifies this
      ensures stores == old(stores)[dst := Overlay(old(stores)[dst], old(stores)[src])]
      ensures n == |old(stores)[src]|
    {
      var ks := Iterator(stores[src]);
      n := CopyEntries(src, dst, ks);
    }

    /**
     v6.3 syncKVStore: dest ends up equal to src whatever it held before, src is
     untouched, and the counters are the source size and the number of dest-only keys.
     */
    method SyncKVStore(src: string, dst: string) returns (set_: nat, deleted: nat)
      requires src in stores && dst in stores
      modifies this
      ensures stores == old(stores)[dst := old(stores)[src]]
      ensures set_ == |old(stores)[src]|
      ensures deleted == |old(stores)[dst].Keys - old(stores)[src].Keys|
    {
      ghost var from, to := stores[src], stores[dst];
      var ks := Iterator(stores[src]);
      set_ := CopyEntries(src, dst, ks);
      var live := Elems(ks);
      var dks := Iterator(stores[dst]);
      var extra := ExtraKeys(dks, live);
      ExtraAreDestOnly(to, from, ks, dks);
      DropExtra(to, from, extra);
      EnumerationLength(extra, to.Keys - from.Keys);
      deleted := DeleteAll(dst, extra);
      UpdateTwice(old(stores), dst, Overlay(to, from), from);
    }

    method DeleteAll(dst: string, extra: seq<Bytes>) returns (deleted: nat)
      requires dst in stores
      modifies this
      ensures stores == old(stores)[dst := old(stores)[dst] - Elems(extra)]
      ensures deleted == |extra|
    {
      deleted := 0;
      ghost var both := stores[dst];
      assert both - Elems(extra[..0]) == both;
      assert stores == old(stores)[dst := both];
      while deleted < |extra|
        invariant deleted <= |extra|
        invariant stores == old(stores)[dst := both - Elems(extra[..deleted])]
      {
        DropStep(both, extra, deleted);
        Delete(dst, extra[deleted]);
        deleted := deleted + 1;
      }
      assert extra[..deleted] == extra;
    }
  }

  // ---------------------------------------------------------------- map facts behind the loops

  /** The entries of `from` whose keys were visited. */
  ghost function Part(from: KV, ks: seq<Bytes>): KV { map k | k in ks && k in from :: from[k] }

  lemma PartStep(to: KV, from: KV, ks: seq<Bytes>, n: nat)
    requires n < |ks| && Enumerates(ks, from.Keys)
    ensures ks[n] in from
    ensures to + Part(from, ks[..n + 1]) == (to + Part(from, ks[..n]))[ks[n] := from[ks[n]]]
  {
    assert ks[n] in ks;
    PartSnoc(to, from, ks, n);
  }

  lemma PartSnoc(to: KV, from: KV, ks: seq<Bytes>, n: nat)
    requires n < |ks| && ks[n] in from
    ensures to + Part(from, ks[..n + 1]) == (to + Part(from, ks[..n]))[ks[n] := from[ks[n]]]
  {
    assert ks[..n + 1] == ks[..n] + [ks[n]];
  }

  lemma PartEnds(to: KV, from: KV, ks: seq<Bytes>)
    requires Enumerates(ks, from.Keys)
    ensures to + Part(from, ks[..0]) == to && Part(from, ks) == from && |ks| == |from|
  {
    assert Part(from, ks).Keys == from.Keys;
    EnumerationLength(ks, from.Keys);
  }

  lemma PartOfSelf(from: KV, ks: seq<Bytes>)
    ensures from + Part(from, ks) == from
  {
  }

  lemma DropStep(both: KV, extra: seq<Bytes>, n: nat)
    requires n < |extra|
    ensures both - Elems(extra[..n + 1]) == both - Elems(extra[..n]) - {extra[n]}
  {
    ElemsSnoc(extra, n);
  }

  lemma ElemsSnoc(ks: seq<Bytes>, n: nat)
    requires n < |ks|
    ensures Elems(ks[..n + 1]) == Elems(ks[..n]) + {ks[n]}
  {
    assert ks[..n + 1] == ks[..n] + [ks[n]];
  }

  lemma EnumeratesSnoc(ks: seq<Bytes>, keys: set<Bytes>, k: Bytes)
    requires Enumerates(ks, keys) && k !in keys
    ensures Enumerates(ks + [k], keys + {k})
  {
  }

  lemma ExtraAreDestOnly(to: KV, from: KV, ks: seq<Bytes>, dks: seq<Bytes>)
    requires Enumerates(ks, from.Keys) && Enumerates(dks, Overlay(to, from).Keys)
    ensures Elems(dks) - Elems(ks) == to.Keys - from.Keys
  {
  }

  lemma UpdateTwice(m: map<string, KV>, d: string, a: KV, b: KV)
    ensures m[d := a][d := b] == m[d := b]
  {
  }

  lemma DropExtra(to: KV, from: KV, extra: seq<Bytes>)
    requires forall k :: k in extra <==> k in to.Keys - from.Keys
    ensures Overlay(to, from) - Elems(extra) == from
  {
  }

  /** The keys of `dks` that are not live, in order. */
  method ExtraKeys(dks: seq<Bytes>, live: set<Bytes>) returns (extra: seq<Bytes>)
    requires forall i, j :: 0 <= i < j < |dks| ==> dks[i] != dks[j]
    ensures Enumerates(extra, Elems(dks) - live)
  {
    extra := [];
    for i := 0 to |dks|
      invariant Enumerates(extra, Elems(dks[..i]) - live)
    {
      ElemsSnoc(dks, i);
      assert dks[i] !in dks[..i];
      if dks[i] !in live {
        EnumeratesSnoc(extra, Elems(dks[..i]) - live, dks[i]);
        extra := extra + [dks[i]];
        assert Elems(dks[..i]) - live + {dks[i]} == Elems(dks[..i + 1]) - live;
      } else {
        assert Elems(dks[..i]) - live == Elems(dks[..i + 1]) - live;
      }
    }
    assert dks[..|dks|] == dks;
  }

  /** The copy without deletion agrees with the sync exactly when dest held no foreign key. */
  lemma SyncVersusCopy(dst: KV, src: KV)
    ensures Overlay(dst, src) == src <==> dst.Keys <= src.Keys
  {
    if dst.Keys <= src.Keys {
      assert Overlay(dst, src) == src;
    } else {
      var k :| k in dst && k !in src;
      assert k in Overlay(dst, src);
    }
  }

  /** A sync right after a sync sets the same entries again, deletes none and leaves the stores as they are. */
  method SyncAgain(ms: MultiStore, src: string, dst: string) returns (deleted: nat)
    requires src in ms.stores && dst in ms.stores
    modifies ms
    ensures deleted == 0
    ensures ms.stores == old(ms.stores)[dst := old(ms.stores)[src]]
  {
    var _, _ := ms.SyncKVStore(src, dst);
    ghost var once := ms.stores;
    assert once[dst] == once[src] && once[dst].Keys - once[src].Keys == {};
    var _, again := ms.SyncKVStore(src, dst);
    deleted := again;
    assert ms.stores == once;
  }
}
