/**
 The running application: key generation, the dual-store loops of the v6.3 and
 v6.4 handlers, arming, and EndBlocker, each tied to the functions the chain
 model is built from.
 */
module App {
  import opened Types
  import opened Layout
  import opened KVStores
  import opened Chain
  import opened ChainProofs

  /** DestStores: one dest name per migratable name, in the same order. */
  method DestStores(mig: seq<string>) returns (out: seq<string>)
    ensures |out| == |mig| && forall i :: 0 <= i < |mig| ==> out[i] == DestName(mig[i])
    ensures Names(out) == DestNames(mig)
  {
    out := [];
    for i := 0 to |mig|
      invariant |out| == i && forall j :: 0 <= j < i ==> out[j] == DestName(mig[j])
    {
      out := out + [DestName(mig[i])];
    }
    forall n ensures n in Names(out) <==> n in DestNames(mig) {
      if n in Names(out) {
        var i :| 0 <= i < |out| && out[i] == n;
        assert mig[i] in mig;
      }
      if n in DestNames(mig) {
        var i :| 0 <= i < |mig| && DestName(mig[i]) == n;
        assert out[i] == n;
      }
    }
  }

  method DualStorePairs(mig: seq<string>) returns (out: seq<(string, string)>)
    ensures |out| == |mig| && forall i :: 0 <= i < |mig| ==> out[i] == (mig[i], DestName(mig[i]))
  {
    out := [];
    for i := 0 to |mig|
      invariant |out| == i && forall j :: 0 <= j < i ==> out[j] == (mig[j], DestName(mig[j]))
    {
      out := out + [(mig[i], DestName(mig[i]))];
    }
  }

  lemma PairsEmpty(mig: seq<string>, stores: map<string, KV>)
    ensures NoIBC(mig[..0]) && PairsMounted(mig[..0], stores) && SyncPairs(mig[..0], stores) == stores
  {
  }

  /** What one more pair adds to the three descriptions of a pass over the pairs. */
  lemma PairsSnoc(mig: seq<string>, i: nat, stores: map<string, KV>)
    requires i < |mig|
    ensures NoIBC(mig[..i + 1]) <==> NoIBC(mig[..i]) && !IsIBCStore(mig[i])
    ensures PairsMounted(mig[..i + 1], stores) <==>
            PairsMounted(mig[..i], stores) && mig[i] in stores && DestName(mig[i]) in stores
    ensures SyncPairs(mig[..i + 1], stores) == SyncPair(SyncPairs(mig[..i], stores), mig[i])
    ensures NoIBC(mig) ==> !IsIBCStore(mig[i])
    ensures PairsMounted(mig, stores) ==> mig[i] in stores && DestName(mig[i]) in stores
  {
    assert mig[..i + 1][..i] == mig[..i] && mig[..i + 1] == mig[..i] + [mig[i]];
  }

  class TerpApp {
    const binary: Binary
    const ns: StoreNames
    const ms: MultiStore
    var keys: set<string>
    var plan: Option<Plan>
    var done: seq<Plan>
    var height: nat

    /** Every mounted key has a store. */
    ghost predicate Valid() reads this, ms { ms.stores.Keys == keys }

    constructor (binary: Binary, ns: StoreNames, ms: MultiStore, plan: Option<Plan>, done: seq<Plan>, height: nat)
      requires ms.stores.Keys == Mounted(binary, ns)
      ensures Valid() && this.binary == binary && this.ns == ns && this.ms == ms
      ensures this.plan == plan && this.done == done && this.height == height
      ensures keys == Mounted(binary, ns)
    {
      this.binary, this.ns, this.ms := binary, ns, ms;
      this.plan, this.done, this.height := plan, done, height;
      this.keys := {};
      new;
      GenerateKeys();
    }

    method GenerateKeys()
      modifies this`keys
      ensures keys == Mounted(binary, ns)
    {
      var names := ns.always;
      if binary.MountHooksStore() {
        names := names + {HOOKS};
      }
      if !binary.KeepersOnDest() {
        names := names + Names(ns.mig);
      }
      if binary.MountDestStores() {
        var dests := DestStores(ns.mig);
        names := names + Names(dests);
      }
      keys := names;
    }

    /**
     KeeperKey: a lookup that prefers the dest key when keepers are on dest trees. Every
     module finds its store: the dest tree of a migratable one on v6.4, its own otherwise.
     */
    function KeeperKey(storeKey: string): (r: Option<string>)
      requires keys == Mounted(binary, ns)
      reads this
      ensures ValidLayout(ns) && storeKey in Modules(ns) ==>
                && r == Some(if binary.V64? && storeKey in ns.mig then DestName(storeKey) else storeKey)
                && r.value in keys
    {
      assert ValidLayout(ns) && storeKey in Modules(ns) ==>
               KeeperName(binary, ns, storeKey) ==
               Some(if binary.V64? && storeKey in ns.mig then DestName(storeKey) else storeKey)
      by {
        if ValidLayout(ns) && storeKey in Modules(ns) { LiveRoutes(binary, ns, storeKey); }
      }
      if binary.KeepersOnDest() && DestName(storeKey) in keys then Some(DestName(storeKey))
      else if storeKey in keys then Some(storeKey)
      else None
    }

    /** SyncDestFromLive: fails exactly on a list holding an IBC-facing name; otherwise every mounted pair is synced. */
    method SyncDestFromLive() returns (err: bool)
      requires Valid()
      modifies ms
      ensures Valid()
      ensures err <==> !NoIBC(ns.mig)
      ensures !err ==> ms.stores == SyncPairs(ns.mig, old(ms.stores))
    {
      hide NoIBC, PairsMounted, SyncPairs, IsIBCStore, DestName;
      var pairs := DualStorePairs(ns.mig);
      var i := 0;
      PairsEmpty(ns.mig, ms.stores);
      while i < |pairs|
        invariant i <= |pairs| && Valid()
        invariant NoIBC(ns.mig[..i])
        invariant ms.stores == SyncPairs(ns.mig[..i], old(ms.stores))
      {
        var (src, dst) := pairs[i];
        PairsSnoc(ns.mig, i, old(ms.stores));
        if IsIBCStore(src) {
          return true;
        }
        if src in keys && dst in keys {
          var _, _ := ms.SyncKVStore(src, dst);
        }
        i := i + 1;
      }
      assert ns.mig[..i] == ns.mig;
      err := false;
    }

    /** The copy loop of the v6.3 handler: a missing store is an error here, not a skip. */
    method CopyDualStores() returns (err: bool)
      requires Valid()
      modifies ms
      ensures Valid()
      ensures err <==> !(NoIBC(ns.mig) && PairsMounted(ns.mig, old(ms.stores)))
      ensures !err ==> ms.stores == SyncPairs(ns.mig, old(ms.stores))
    {
      hide NoIBC, PairsMounted, SyncPairs, IsIBCStore, DestName;
      var pairs := DualStorePairs(ns.mig);
      var i := 0;
      PairsEmpty(ns.mig, ms.stores);
      while i < |pairs|
        invariant i <= |pairs| && Valid()
        invariant NoIBC(ns.mig[..i]) && PairsMounted(ns.mig[..i], old(ms.stores))
        invariant ms.stores == SyncPairs(ns.mig[..i], old(ms.stores))
      {
        var (src, dst) := pairs[i];
        PairsSnoc(ns.mig, i, old(ms.stores));
        if IsIBCStore(src) || src !in keys || dst !in keys {
          return true;
        }
        var _, _ := ms.SyncKVStore(src, dst);
        i := i + 1;
      }
      assert ns.mig[..i] == ns.mig;
      err := false;
    }

    method ArmNext() returns (err: bool)
      modifies this`plan
      ensures err <==> MaybeArmNext(old(plan), done, height).None?
      ensures plan == if err then old(plan) else MaybeArmNext(old(plan), done, height).value
    {
      if DoneHeight(done, UPGRADE_NAME) != height {
        return false;
      }
      if plan.Some? {
        return false;
      }
      var next := ScheduleUpgrade(done, height, Plan(NEXT_UPGRADE_NAME, height + NEXT_UPGRADE_GAP));
      if next.None? {
        return true;
      }
      plan := next;
      err := false;
    }

    method SyncDestWhileArmed() returns (err: bool)
      requires Valid()
      modifies ms
      ensures Valid()
      ensures err <==> SyncWhileArmed(ns.mig, plan, old(ms.stores)).None?
      ensures !err ==> ms.stores == SyncWhileArmed(ns.mig, plan, old(ms.stores)).value
    {
      if plan.None? || plan.value.name != NEXT_UPGRADE_NAME {
        return false;
      }
      err := SyncDestFromLive();
    }

    /** Arm, then sync; the v6.4 binary links a no-op instead. */
    method ArmHasherNext() returns (err: bool)
      requires Valid()
      modifies this`plan, ms
      ensures Valid()
      ensures binary.V64? ==> !err && plan == old(plan) && ms.stores == old(ms.stores)
      ensures !binary.V64? && !err ==>
                && MaybeArmNext(old(plan), done, height) == Some(plan)
                && SyncWhileArmed(ns.mig, plan, old(ms.stores)) == Some(ms.stores)
      ensures !binary.V64? && err ==>
                || MaybeArmNext(old(plan), done, height).None?
                || SyncWhileArmed(ns.mig, MaybeArmNext(old(plan), done, height).value, old(ms.stores)).None?
    {
      if binary.V64? {
        return false;
      }
      err := ArmNext();
      if err {
        return;
      }
      err := SyncDestWhileArmed();
    }

    /**
     EndBlocker on a block that started from commit `st`, with the body's writes
     and governance actions as the module manager's part: the state it leaves is
     the one the chain model commits, and it fails exactly when the model refuses.
     */
    method EndBlocker(blk: Block, ghost st: State, ghost applied: Option<string>) returns (err: bool)
      requires Valid() && height == st.height + 1
      modifies this`plan, ms
      ensures var out := Finish(binary, ns, st, old(ms.stores), old(plan), done, applied, blk);
              && (err <==> out.Refused?)
              && (!err ==> out.st == State(ms.stores, plan, done, height, binary, st.disk))
    {
      err := ModulesEndBlock(blk);
      if err {
        return;
      }
      err := ArmHasherNext();
    }

    /** Module manager: BeginBlock, transactions and EndBlock of every module, through KeeperKey. */
    method ModulesEndBlock(blk: Block) returns (err: bool)
      requires Valid()
      modifies this`plan, ms
      ensures Valid()
      ensures err == blk.fails
      ensures ms.stores == ApplyWrites(Routes(binary, ns), old(ms.stores), blk.body)
      ensures plan == Govern(old(plan), done, height, blk.gov)
    {
      var r := Routes(binary, ns);
      assert blk.body[..0] == [];
      for i := 0 to |blk.body|
        invariant Valid() && plan == old(plan)
        invariant ms.stores == ApplyWrites(r, old(ms.stores), blk.body[..i])
      {
        var w := blk.body[i];
        assert blk.body[..i + 1][..i] == blk.body[..i];
        if w.mod in r && r[w.mod] in ms.stores {
          match w.value
          case Some(v) => ms.Set(r[w.mod], w.key, v);
          case None => ms.Delete(r[w.mod], w.key);
        }
      }
      assert blk.body[..|blk.body|] == blk.body;
      plan := Govern(plan, done, height, blk.gov);
      err := blk.fails;
    }

    /** The mount checks that open the v6.4 handler. */
    method CheckMounts() returns (ok: bool)
      ensures ok <==> MountChecks(ns.mig, keys)
    {
      for i := 0 to |ns.mig|
        invariant forall j :: 0 <= j < i ==> ns.mig[j] !in keys && DestName(ns.mig[j]) in keys
      {
        if ns.mig[i] in keys {
          return false;
        }
        if DestName(ns.mig[i]) !in keys {
          return false;
        }
      }
      ok := "ibc" in keys && "b3-ibc" !in keys;
    }
  }
}
