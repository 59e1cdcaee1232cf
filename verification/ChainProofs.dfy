/** Safety of the hash migration over every run, and the run that completes it. */
module ChainProofs {
  import opened Types
  import opened Layout
  import opened LayoutProofs
  import opened Chain

  /** Every dest store holds exactly what its live store holds. */
  ghost predicate Mirrored(mig: seq<string>, stores: map<string, KV>) {
    forall s :: s in mig ==> s in stores && DestName(s) in stores && stores[DestName(s)] == stores[s]
  }

  ghost predicate Armed(plan: Option<Plan>) { plan.Some? && plan.value.name == NEXT_UPGRADE_NAME }

  ghost predicate UpgradeInv(st: State) {
    && (forall i :: 0 <= i < |st.done| ==> 1 <= st.done[i].height <= st.height)
    && (st.plan.Some? ==> DoneHeight(st.done, st.plan.value.name) == 0)
    && (st.disk.Some? ==> st.disk.value.height <= st.height + 1)
    && (st.disk.Some? && st.disk.value.height == st.height + 1 ==>
          Due(st) && st.plan.value.name == st.disk.value.name)
  }

  ghost predicate Inv(ns: StoreNames, st: State) {
    && ValidLayout(ns) && ns.mig != []
    && st.stores.Keys == Mounted(st.writer, ns)
    && UpgradeInv(st)
    && (!st.writer.V64? ==> DoneHeight(st.done, NEXT_UPGRADE_NAME) == 0)
    && (st.writer.V63? && Armed(st.plan) ==> Mirrored(ns.mig, st.stores))
  }

  /**
   v6.4 on a v6.3 commit with no plan due, no upgrade ever completed, and no plan named v6.4:
   nothing in the upgrade module objects to it.
   */
  ghost predicate StaleStart(b: Binary, st: State) {
    b.V64? && st.writer.V63? && !Due(st) && st.done == [] && !Armed(st.plan)
  }

  /** Such a start is harmless only where the dest stores happen to equal the live ones. */
  ghost predicate SafeStart(b: Binary, ns: StoreNames, st: State) {
    StaleStart(b, st) ==> Mirrored(ns.mig, st.stores)
  }

  // ---------------------------------------------------------------- completed upgrades

  lemma {:induction false} DoneHeightIn(done: seq<Plan>, name: string)
    ensures DoneHeight(done, name) == 0 || exists i :: 0 <= i < |done| && done[i] == Plan(name, DoneHeight(done, name))
  {
    if done != [] {
      var n := |done| - 1;
      if done[n].name == name {
        assert done[n] == Plan(name, DoneHeight(done, name));
      } else {
        DoneHeightIn(done[..n], name);
        if DoneHeight(done, name) != 0 {
          var i :| 0 <= i < |done[..n]| && done[..n][i] == Plan(name, DoneHeight(done, name));
          assert done[i] == Plan(name, DoneHeight(done, name));
        }
      }
    }
  }

  lemma DoneAppend(done: seq<Plan>, p: Plan, name: string)
    ensures DoneHeight(done + [p], name) == if p.name == name then p.height else DoneHeight(done, name)
  {
    assert (done + [p])[..|done|] == done;
  }

  /** Governance leaves a pending plan whose name is not done. */
  lemma {:induction false} GovernKeeps(plan: Option<Plan>, done: seq<Plan>, h: nat, gov: seq<GovOp>)
    requires plan.Some? ==> DoneHeight(done, plan.value.name) == 0
    ensures var p := Govern(plan, done, h, gov); p.Some? ==> DoneHeight(done, p.value.name) == 0
  {
    if gov != [] { GovernKeeps(plan, done, h, gov[..|gov| - 1]); }
  }

  // ---------------------------------------------------------------- copies

  lemma {:induction false} SyncPairsEffect(mig: seq<string>, ns: StoreNames, stores: map<string, KV>)
    requires ValidLayout(ns) && forall s :: s in mig ==> s in ns.mig
    ensures SyncPairs(mig, stores).Keys == stores.Keys
    ensures forall n :: n in stores && n !in DestNames(ns.mig) ==> SyncPairs(mig, stores)[n] == stores[n]
    ensures forall s :: s in mig && s in stores && DestName(s) in stores ==>
              SyncPairs(mig, stores)[DestName(s)] == stores[s]
  {
    hide DestName, SyncPair;
    if mig != [] {
      var k := |mig| - 1;
      var last := mig[k];
      SyncPairsEffect(mig[..k], ns, stores);
      SyncPairEffect(SyncPairs(mig[..k], stores), last);
      assert DestName(last) in DestNames(ns.mig);
      LiveIsNotDest(ns, last);
      forall s | s in mig && s in stores && DestName(s) in stores
        ensures SyncPairs(mig, stores)[DestName(s)] == stores[s]
      {
        DestNameInjective(s, last);
        if s != last { assert s in mig[..k]; }
      }
    }
  }

  lemma SyncPairEffect(stores: map<string, KV>, s: string)
    ensures var end := SyncPair(stores, s);
            && end.Keys == stores.Keys
            && (forall n :: n in stores && n != DestName(s) ==> end[n] == stores[n])
            && (s in stores && DestName(s) in stores ==> end[DestName(s)] == stores[s])
  {
    hide DestName;
  }

  lemma {:induction false} CopyPairsEffect(mig: seq<string>, ns: StoreNames, stores: map<string, KV>)
    requires ValidLayout(ns) && forall s :: s in mig ==> s in ns.mig
    ensures CopyPairs(mig, stores).Keys == stores.Keys
    ensures forall n :: n in stores && n !in DestNames(ns.mig) ==> CopyPairs(mig, stores)[n] == stores[n]
    ensures forall s :: s in mig && s in stores && DestName(s) in stores ==>
              CopyPairs(mig, stores)[DestName(s)] == stores[DestName(s)] + stores[s]
    ensures forall n :: n in stores && (forall s :: s in mig ==> DestName(s) != n) ==>
              CopyPairs(mig, stores)[n] == stores[n]
  {
    if mig != [] {
      var k := |mig| - 1;
      var last := mig[k];
      CopyPairsEffect(mig[..k], ns, stores);
      assert last in ns.mig;
      LiveIsNotDest(ns, last);
      forall s | s in mig && s in stores && DestName(s) in stores
        ensures CopyPairs(mig, stores)[DestName(s)] == stores[DestName(s)] + stores[s]
      {
        DestNameInjective(s, last);
        if s != last { assert s in mig[..k]; } else { CopyLast(mig, ns, stores); }
      }
    }
  }

  lemma CopyLast(mig: seq<string>, ns: StoreNames, stores: map<string, KV>)
    requires mig != [] && ValidLayout(ns) && mig[|mig| - 1] in ns.mig
    requires var last := mig[|mig| - 1]; last in stores && DestName(last) in stores
    requires var front := mig[..|mig| - 1]; var last := mig[|mig| - 1]; var mid := CopyPairs(front, stores);
             && mid.Keys == stores.Keys && mid[last] == stores[last]
             && (last in front ==> mid[DestName(last)] == stores[DestName(last)] + stores[last])
             && (last !in front ==> mid[DestName(last)] == stores[DestName(last)])
    ensures var last := mig[|mig| - 1]; CopyPairs(mig, stores)[DestName(last)] == stores[DestName(last)] + stores[last]
  {
    var last := mig[|mig| - 1];
    assert stores[DestName(last)] + stores[last] + stores[last] == stores[DestName(last)] + stores[last];
  }

  lemma LiveIsNotDest(ns: StoreNames, s: string)
    requires ValidLayout(ns) && s in ns.mig
    ensures s !in DestNames(ns.mig)
  {
    if s in DestNames(ns.mig) {
      var t :| t in ns.mig && DestName(t) == s;
      DestNameInjective(t, t);
    }
  }

  // ---------------------------------------------------------------- writes and views

  /** Routes lead to present stores, no two modules to the same one. */
  ghost predicate GoodRoutes(r: map<string, string>, stores: map<string, KV>) {
    && (forall m :: m in r ==> r[m] in stores)
    && (forall m, n :: m in r && n in r && m != n ==> r[m] != r[n])
  }

  lemma RoutesAreGood(b: Binary, ns: StoreNames, stores: map<string, KV>)
    requires ValidLayout(ns) && stores.Keys == Mounted(b, ns)
    ensures GoodRoutes(Routes(b, ns), stores)
    ensures Routes(b, ns).Keys == Modules(ns)
  {
    KeeperKeyTotalInjective(b, ns);
    var r := Routes(b, ns);
    forall m, n | m in r && n in r && m != n ensures r[m] != r[n] {
      assert KeeperName(b, ns, m) != KeeperName(b, ns, n);
    }
  }

  lemma ApplyWriteView(r: map<string, string>, stores: map<string, KV>, w: Write)
    requires GoodRoutes(r, stores)
    ensures ApplyWrite(r, stores, w).Keys == stores.Keys
    ensures ViewAlong(r, ApplyWrite(r, stores, w)) == RefWrite(ViewAlong(r, stores), w)
  {
    var left := ViewAlong(r, ApplyWrite(r, stores, w));
    var right := RefWrite(ViewAlong(r, stores), w);
    assert left.Keys == right.Keys;
    forall m | m in left ensures left[m] == right[m] {}
  }

  lemma {:induction false} ApplyWritesView(r: map<string, string>, stores: map<string, KV>, ws: seq<Write>)
    requires GoodRoutes(r, stores)
    ensures ApplyWrites(r, stores, ws).Keys == stores.Keys
    ensures ViewAlong(r, ApplyWrites(r, stores, ws)) == RefWrites(ViewAlong(r, stores), ws)
  {
    if ws != [] {
      ApplyWritesView(r, stores, ws[..|ws| - 1]);
      ApplyWriteView(r, ApplyWrites(r, stores, ws[..|ws| - 1]), ws[|ws| - 1]);
    }
  }

  lemma {:induction false} RefWritesConcat(v: View, xs: seq<Write>, ys: seq<Write>)
    ensures RefWrites(v, xs + ys) == RefWrites(RefWrites(v, xs), ys)
  {
    if ys == [] {
      assert xs + ys == xs;
    } else {
      var k := |ys| - 1;
      assert (xs + ys)[..|xs + ys| - 1] == xs + ys[..k];
      RefWritesConcat(v, xs, ys[..k]);
    }
  }

  lemma LiveRoutes(b: Binary, ns: StoreNames, m: string)
    requires ValidLayout(ns) && m in Modules(ns)
    ensures KeeperName(b, ns, m) == Some(if b.V64? && m in ns.mig then DestName(m) else m)
    ensures m !in DestNames(ns.mig)
  {
    FixedNamesArePlain();
    DestMounted(b, ns, m);
    PlainMounted(b, ns, m);
    if m in DestNames(ns.mig) {
      var x :| x in ns.mig && DestName(x) == m;
      DestNameInjective(x, x);
    }
  }

  /** Changing only dest trees is invisible while keepers are on live names. */
  lemma DestChangesInvisible(b: Binary, ns: StoreNames, s: map<string, KV>, t: map<string, KV>)
    requires ValidLayout(ns) && !b.V64? && s.Keys == t.Keys
    requires forall n :: n in s && n !in DestNames(ns.mig) ==> t[n] == s[n]
    ensures ViewOf(b, ns, t) == ViewOf(b, ns, s)
  {
    var r := Routes(b, ns);
    forall m | m in r ensures r[m] !in DestNames(ns.mig) { LiveRoutes(b, ns, m); }
    assert ViewAlong(r, t) == ViewAlong(r, s);
  }

  // ---------------------------------------------------------------- starting a binary

  lemma DeletedNotMounted(b: Binary, ns: StoreNames, name: string)
    requires ValidLayout(ns) && HasHandler(b, ns, name)
    ensures Registered(b, ns, name).value.deleted !! Mounted(b, ns)
  {
    FixedNamesArePlain();
    PlainMounted(b, ns, HOOKS);
    PlainMounted(b, ns, PROTOCOLPOOL);
    forall s | s in ns.mig ensures b.V64? ==> s !in Mounted(b, ns) { PlainMounted(b, ns, s); }
  }

  lemma AddedAreDest(b: Binary, ns: StoreNames, st: State, n: string)
    requires ValidLayout(ns) && !HasB3Prefix(n)
    ensures n !in LoaderUpgrades(b, ns, st).added
  {
    if n in DestNames(ns.mig) {
      var x :| x in ns.mig && DestName(x) == n;
      DestNameInjective(x, x);
    }
  }

  /**
   Which binary can start on which commit: the one that wrote it, v6.3 on a
   v63pre commit with a due plan, and v6.4 on a v6.3 commit. Mounted stores keep
   their committed content.
   */
  lemma StartableBinaries(b: Binary, ns: StoreNames, st: State)
    requires Inv(ns, st) && Load(b, ns, st).Some?
    ensures b == st.writer || (st.writer.Pre63? && b.V63? && Due(st)) || (st.writer.V63? && b.V64?)
    ensures Load(b, ns, st).value.Keys == Mounted(b, ns)
    ensures forall n :: n in Mounted(b, ns) && n in st.stores ==> Load(b, ns, st).value[n] == st.stores[n]
  {
    var u := LoaderUpgrades(b, ns, st);
    forall n | n in Mounted(b, ns) ensures (n in st.stores) != (n in u.added) {}
    if u.deleted != {} { DeletedNotMounted(b, ns, st.disk.value.name); }
    var s := ns.mig[0];
    assert s in ns.mig;
    FixedNamesArePlain();
    if b.Pre63? && !st.writer.Pre63? {
      PlainMounted(b, ns, HOOKS);
      PlainMounted(st.writer, ns, HOOKS);
      AddedAreDest(b, ns, st, HOOKS);
    } else if st.writer.Pre63? && !b.Pre63? {
      DestMounted(st.writer, ns, s);
      DestMounted(b, ns, s);
      assert DestName(s) in u.added;
    } else if st.writer.V64? && b.V63? {
      PlainMounted(b, ns, s);
      PlainMounted(st.writer, ns, s);
      AddedAreDest(b, ns, st, s);
    }
  }

  /**
   The swap itself: a binary that gets past the upgrade module reads through
   KeeperKey exactly what was committed if and only if the start is a safe one.
   */
  lemma StartKeepsView(b: Binary, ns: StoreNames, st: State)
    requires Inv(ns, st) && Load(b, ns, st).Some? && PreBlockPasses(b, ns, st)
    ensures ViewOf(b, ns, Load(b, ns, st).value) == ViewOf(st.writer, ns, st.stores) <==> SafeStart(b, ns, st)
  {
    hide Mirrored, Mounted, Load, Routes;
    if SafeStart(b, ns, st) {
      SafeKeepsView(b, ns, st);
    } else {
      V64ViewIsMirror(ns, st);
    }
  }

  lemma SafeKeepsView(b: Binary, ns: StoreNames, st: State)
    requires Inv(ns, st) && Load(b, ns, st).Some? && PreBlockPasses(b, ns, st) && SafeStart(b, ns, st)
    ensures ViewOf(b, ns, Load(b, ns, st).value) == ViewOf(st.writer, ns, st.stores)
  {
    StartableBinaries(b, ns, st);
    var loaded := Load(b, ns, st).value;
    RoutesAreGood(b, ns, loaded);
    RoutesAreGood(st.writer, ns, st.stores);
    forall m | m in Modules(ns)
      ensures loaded[Routes(b, ns)[m]] == st.stores[Routes(st.writer, ns)[m]]
    {
      RouteContent(b, ns, st, m);
    }
    SameViews(Routes(b, ns), loaded, Routes(st.writer, ns), st.stores);
  }

  /** On a v6.3 commit v6.4 reads what v6.3 read exactly when every dest store equals its live store. */
  lemma V64ViewIsMirror(ns: StoreNames, st: State)
    requires Inv(ns, st) && st.writer.V63? && Load(V64, ns, st).Some?
    ensures ViewOf(V64, ns, Load(V64, ns, st).value) == ViewOf(V63, ns, st.stores) <==> Mirrored(ns.mig, st.stores)
  {
    hide Load, Mounted, Routes, ViewOf, Inv;
    var v, w := ViewOf(V64, ns, Load(V64, ns, st).value), ViewOf(V63, ns, st.stores);
    ViewsOnV64(ns, st);
    forall m | m in Modules(ns)
      ensures m in v && m in w && m in st.stores && w[m] == st.stores[m]
      ensures if m in ns.mig then DestName(m) in st.stores && v[m] == st.stores[DestName(m)] else v[m] == st.stores[m]
    {
      V64Reads(ns, st, m);
    }
    SameOnModules(ns, v, w);
    assert forall m :: m in ns.mig ==> m in Modules(ns);
  }

  lemma ViewsOnV64(ns: StoreNames, st: State)
    requires Inv(ns, st) && st.writer.V63? && Load(V64, ns, st).Some?
    ensures ViewOf(V64, ns, Load(V64, ns, st).value).Keys == Modules(ns) == ViewOf(V63, ns, st.stores).Keys
  {
    hide Mounted, Load, Modules;
    StartableBinaries(V64, ns, st);
    RoutesAreGood(V64, ns, Load(V64, ns, st).value);
    RoutesAreGood(V63, ns, st.stores);
  }

  lemma V64Reads(ns: StoreNames, st: State, m: string)
    requires Inv(ns, st) && st.writer.V63? && Load(V64, ns, st).Some? && m in Modules(ns)
    ensures var v, w := ViewOf(V64, ns, Load(V64, ns, st).value), ViewOf(V63, ns, st.stores);
            && m in v && m in w && m in st.stores && w[m] == st.stores[m]
            && (if m in ns.mig then DestName(m) in st.stores && v[m] == st.stores[DestName(m)]
                else v[m] == st.stores[m])
  {
    hide Mounted, Load, KeeperName, DestName;
    StartableBinaries(V64, ns, st);
    RoutesAreGood(V64, ns, Load(V64, ns, st).value);
    RoutesAreGood(V63, ns, st.stores);
    LiveRoutes(V64, ns, m);
    LiveRoutes(V63, ns, m);
    DestMounted(V63, ns, m);
  }

  lemma SameOnModules(ns: StoreNames, v: View, w: View)
    requires v.Keys == Modules(ns) == w.Keys
    ensures v == w <==> forall m :: m in Modules(ns) ==> v[m] == w[m]
  {
  }

  lemma RouteContent(b: Binary, ns: StoreNames, st: State, m: string)
    requires Inv(ns, st) && Load(b, ns, st).Some? && PreBlockPasses(b, ns, st) && SafeStart(b, ns, st)
    requires m in Modules(ns)
    ensures m in Routes(b, ns) && m in Routes(st.writer, ns)
    ensures Routes(b, ns)[m] in Load(b, ns, st).value && Routes(st.writer, ns)[m] in st.stores
    ensures Load(b, ns, st).value[Routes(b, ns)[m]] == st.stores[Routes(st.writer, ns)[m]]
  {
    StartableBinaries(b, ns, st);
    RoutesAreGood(b, ns, Load(b, ns, st).value);
    RoutesAreGood(st.writer, ns, st.stores);
    LiveRoutes(b, ns, m);
    LiveRoutes(st.writer, ns, m);
    if b.V64? && st.writer.V63? { CutoverIsMirrored(ns, st); }
  }

  lemma SameViews(r: map<string, string>, s: map<string, KV>, q: map<string, string>, t: map<string, KV>)
    requires GoodRoutes(r, s) && GoodRoutes(q, t) && r.Keys == q.Keys
    requires forall m :: m in r ==> s[r[m]] == t[q[m]]
    ensures ViewAlong(r, s) == ViewAlong(q, t)
  {
  }

  /** v6.4 gets past the upgrade module on a v6.3 commit when its plan is due, which was armed, or on a stale start. */
  lemma CutoverIsMirrored(ns: StoreNames, st: State)
    requires Inv(ns, st) && st.writer.V63?
    ensures PreBlockPasses(V64, ns, st) <==> (Due(st) && Armed(st.plan)) || StaleStart(V64, st)
    ensures Armed(st.plan) ==> Mirrored(ns.mig, st.stores)
  {
    if st.done != [] { LastIsNotV64(st.done); }
  }

  lemma LastIsNotV64(done: seq<Plan>)
    requires done != [] && done[|done| - 1].height >= 1 && DoneHeight(done, NEXT_UPGRADE_NAME) == 0
    ensures done[|done| - 1].name != NEXT_UPGRADE_NAME
  {
  }

  // ---------------------------------------------------------------- one block

  /** A handler changes module contents by its keeper writes and by nothing else. */
  lemma HandleView(b: Binary, ns: StoreNames, name: string, stores: map<string, KV>, migration: seq<Write>)
    requires ValidLayout(ns) && stores.Keys == Mounted(b, ns) && HasHandler(b, ns, name)
    requires Handle(b, ns, name, stores, migration).Some?
    ensures var s := Handle(b, ns, name, stores, migration).value;
            && s.Keys == stores.Keys
            && ViewOf(b, ns, s) == RefWrites(ViewOf(b, ns, stores), HandlerWrites(name, migration))
  {
    hide Mounted, Routes, ViewAlong, RefWrites, ApplyWrites, SyncPairs, CopyPairs;
    var r := Routes(b, ns);
    RoutesAreGood(b, ns, stores);
    ApplyWritesView(r, stores, HandlerWrites(name, migration));
    var written := ApplyWrites(r, stores, HandlerWrites(name, migration));
    SyncPairsEffect(ns.mig, ns, written);
    CopyPairsEffect(ns.mig, ns, written);
    if name == UPGRADE_NAME {
      DestChangesInvisible(b, ns, written, SyncPairs(ns.mig, written));
    } else if name == V61 {
      DestChangesInvisible(b, ns, written, CopyPairs(ns.mig, written));
    }
  }

  /**
   Right after the v6.3 handler every dest store equals its live store; the v6.1 one
   leaves live entries on top of what dest held.
   */
  lemma HandlersCopy(ns: StoreNames, stores: map<string, KV>, migration: seq<Write>)
    requires ValidLayout(ns) && stores.Keys == Mounted(V63, ns)
    ensures Handle(V63, ns, UPGRADE_NAME, stores, migration).Some? ==>
              Mirrored(ns.mig, Handle(V63, ns, UPGRADE_NAME, stores, migration).value)
    ensures Handle(V63, ns, V61, stores, migration).Some? ==>
              var written := ApplyWrites(Routes(V63, ns), stores, migration);
              forall s :: s in ns.mig ==>
                && s in written && DestName(s) in written
                && DestName(s) in Handle(V63, ns, V61, stores, migration).value
                && Handle(V63, ns, V61, stores, migration).value[DestName(s)] == written[DestName(s)] + written[s]
  {
    hide Mounted, Routes, ApplyWrites, SyncPairs, CopyPairs;
    var w63 := ApplyWrites(Routes(V63, ns), stores, HandlerWrites(UPGRADE_NAME, migration));
    var w61 := ApplyWrites(Routes(V63, ns), stores, HandlerWrites(V61, migration));
    SyncPairsEffect(ns.mig, ns, w63);
    CopyPairsEffect(ns.mig, ns, w61);
    forall s | s in ns.mig ensures s !in DestNames(ns.mig) { LiveIsNotDest(ns, s); }
  }

  /** EndBlocker: dest trees match when v6.4 is armed, and module contents are untouched. */
  lemma SyncWhileArmedEffect(b: Binary, ns: StoreNames, plan: Option<Plan>, stores: map<string, KV>)
    requires ValidLayout(ns) && stores.Keys == Mounted(b, ns) && !b.V64?
    requires SyncWhileArmed(ns.mig, plan, stores).Some?
    ensures var s := SyncWhileArmed(ns.mig, plan, stores).value;
            && s.Keys == stores.Keys
            && ViewOf(b, ns, s) == ViewOf(b, ns, stores)
            && (b.V63? && Armed(plan) ==> Mirrored(ns.mig, s))
            && (!Armed(plan) ==> s == stores)
  {
    SyncPairsEffect(ns.mig, ns, stores);
    var s := SyncWhileArmed(ns.mig, plan, stores).value;
    DestChangesInvisible(b, ns, stores, s);
    if b.V63? && Armed(plan) {
      forall n | n in ns.mig
        ensures n in s && DestName(n) in s && s[DestName(n)] == s[n]
      {
        PlainMounted(b, ns, n);
        DestMounted(b, ns, n);
        LiveIsNotDest(ns, n);
      }
    }
  }

  /** What the upgrade keeper holds after the upgrade module ran in block h. */
  ghost predicate PlanOk(plan: Option<Plan>, done: seq<Plan>, h: nat) {
    && (forall i :: 0 <= i < |done| ==> 1 <= done[i].height <= h)
    && (plan.Some? ==> DoneHeight(done, plan.value.name) == 0)
  }

  lemma ArmKeeps(plan: Option<Plan>, done: seq<Plan>, h: nat)
    requires PlanOk(plan, done, h) && MaybeArmNext(plan, done, h).Some?
    ensures PlanOk(MaybeArmNext(plan, done, h).value, done, h)
  {
  }

  /** Everything after the upgrade module adds exactly the body's writes. */
  lemma FinishView(b: Binary, ns: StoreNames, st: State, stores: map<string, KV>, plan: Option<Plan>,
                   done: seq<Plan>, applied: Option<string>, blk: Block)
    requires ValidLayout(ns) && stores.Keys == Mounted(b, ns)
    requires Finish(b, ns, st, stores, plan, done, applied, blk).Committed?
    ensures var out := Finish(b, ns, st, stores, plan, done, applied, blk);
            && out.st.stores.Keys == stores.Keys
            && ViewOf(b, ns, out.st.stores) == RefWrites(ViewOf(b, ns, stores), blk.body)
            && (b.V63? && Armed(out.st.plan) ==> Mirrored(ns.mig, out.st.stores))
  {
    hide Mounted, Routes, ViewAlong, RefWrites, ApplyWrites, Govern, MaybeArmNext, Mirrored, SyncPairs;
    RoutesAreGood(b, ns, stores);
    ApplyWritesView(Routes(b, ns), stores, blk.body);
    if !b.V64? {
      var s1 := ApplyWrites(Routes(b, ns), stores, blk.body);
      var p2 := MaybeArmNext(Govern(plan, done, st.height + 1, blk.gov), done, st.height + 1).value;
      SyncWhileArmedEffect(b, ns, p2, s1);
    }
  }

  /** Everything after the upgrade module keeps the plan consistent with the completed upgrades. */
  lemma FinishPlan(b: Binary, ns: StoreNames, st: State, stores: map<string, KV>, plan: Option<Plan>,
                   done: seq<Plan>, applied: Option<string>, blk: Block)
    requires PlanOk(plan, done, st.height + 1)
    requires Finish(b, ns, st, stores, plan, done, applied, blk).Committed?
    ensures var out := Finish(b, ns, st, stores, plan, done, applied, blk);
            && PlanOk(out.st.plan, done, st.height + 1)
            && out.st == State(out.st.stores, out.st.plan, done, st.height + 1, b, st.disk)
            && out.applied == applied
  {
    var h := st.height + 1;
    GovernKeeps(plan, done, h, blk.gov);
    if !b.V64? { ArmKeeps(Govern(plan, done, h, blk.gov), done, h); }
  }

  /** Everything after the upgrade module keeps the invariant and adds exactly the body's writes. */
  lemma FinishKeeps(b: Binary, ns: StoreNames, st: State, stores: map<string, KV>, plan: Option<Plan>,
                    done: seq<Plan>, applied: Option<string>, blk: Block)
    requires Inv(ns, st) && stores.Keys == Mounted(b, ns) && PlanOk(plan, done, st.height + 1)
    requires !b.V64? ==> DoneHeight(done, NEXT_UPGRADE_NAME) == 0
    ensures var out := Finish(b, ns, st, stores, plan, done, applied, blk);
            && Inv(ns, out.st)
            && (out.Refused? ==> out.st == st)
            && (out.Committed? ==>
                  && out.st.writer == b && out.st.height == st.height + 1 && out.st.done == done
                  && out.applied == applied
                  && ViewOf(b, ns, out.st.stores) == RefWrites(ViewOf(b, ns, stores), blk.body))
  {
    var out := Finish(b, ns, st, stores, plan, done, applied, blk);
    if out.Committed? {
      FinishView(b, ns, st, stores, plan, done, applied, blk);
      FinishPlan(b, ns, st, stores, plan, done, applied, blk);
      CommitInv(ns, st, out.st);
    }
  }

  lemma CommitInv(ns: StoreNames, st: State, st': State)
    requires Inv(ns, st)
    requires st'.height == st.height + 1 && st'.disk == st.disk && PlanOk(st'.plan, st'.done, st'.height)
    requires st'.stores.Keys == Mounted(st'.writer, ns)
    requires !st'.writer.V64? ==> DoneHeight(st'.done, NEXT_UPGRADE_NAME) == 0
    requires st'.writer.V63? && Armed(st'.plan) ==> Mirrored(ns.mig, st'.stores)
    ensures Inv(ns, st')
  {
  }

  ghost predicate StepKeeps(b: Binary, ns: StoreNames, st: State, blk: Block) {
    var out := Exec(b, ns, st, blk);
    && Inv(ns, out.st)
    && (out.Refused? ==> out.st == st.(disk := out.st.disk))
    && (out.Committed? ==>
          && Load(b, ns, st).Some?
          && out.st.writer == b && out.st.height == st.height + 1
          && ViewOf(b, ns, out.st.stores) ==
             RefWrites(ViewOf(b, ns, Load(b, ns, st).value), BlockWrites(blk, out.applied))
          && (SafeStart(b, ns, st) ==>
                ViewOf(b, ns, out.st.stores) ==
                RefWrites(ViewOf(st.writer, ns, st.stores), BlockWrites(blk, out.applied))))
  }

  /**
   One step. Whatever the binary, the writes and the governance actions, the
   invariant holds again; a refused step leaves the commit alone; a committed
   block changes what its binary loaded by exactly its keeper writes, and after a
   safe start that is what was committed before.
   */
  lemma ExecKeeps(b: Binary, ns: StoreNames, st: State, blk: Block)
    requires Inv(ns, st)
    ensures StepKeeps(b, ns, st, blk)
  {
    if Load(b, ns, st).Some? && PreBlockPasses(b, ns, st) {
      if Due(st) { ExecDue(b, ns, st, blk); } else { ExecQuiet(b, ns, st, blk); }
    }
  }

  /** Starting and the writes before the upgrade module. */
  lemma StartBlock(b: Binary, ns: StoreNames, st: State, blk: Block)
    requires Inv(ns, st) && Load(b, ns, st).Some? && PreBlockPasses(b, ns, st)
    ensures var s0 := ApplyWrites(Routes(b, ns), Load(b, ns, st).value, blk.pre);
            && s0.Keys == Mounted(b, ns)
            && ViewOf(b, ns, s0) == RefWrites(ViewOf(b, ns, Load(b, ns, st).value), blk.pre)
    ensures b.V64? || !st.writer.V64?
    ensures SafeStart(b, ns, st) ==> ViewOf(b, ns, Load(b, ns, st).value) == ViewOf(st.writer, ns, st.stores)
  {
    StartableBinaries(b, ns, st);
    StartKeepsView(b, ns, st);
    RoutesAreGood(b, ns, Load(b, ns, st).value);
    ApplyWritesView(Routes(b, ns), Load(b, ns, st).value, blk.pre);
  }

  lemma ExecQuiet(b: Binary, ns: StoreNames, st: State, blk: Block)
    requires Inv(ns, st) && Load(b, ns, st).Some? && PreBlockPasses(b, ns, st) && !Due(st)
    ensures StepKeeps(b, ns, st, blk)
  {
    hide Mounted, Routes, ViewAlong, RefWrites, ApplyWrites, Finish, Mirrored;
    StartBlock(b, ns, st, blk);
    var s0 := ApplyWrites(Routes(b, ns), Load(b, ns, st).value, blk.pre);
    FinishKeeps(b, ns, st, s0, st.plan, st.done, None, blk);
    var v := ViewOf(b, ns, Load(b, ns, st).value);
    assert blk.pre + [] + blk.body == blk.pre + blk.body;
    RefWritesConcat(v, blk.pre, blk.body);
  }

  lemma ExecDue(b: Binary, ns: StoreNames, st: State, blk: Block)
    requires Inv(ns, st) && Load(b, ns, st).Some? && PreBlockPasses(b, ns, st) && Due(st)
    ensures StepKeeps(b, ns, st, blk)
  {
    hide Mounted, Routes, ViewAlong, RefWrites, ApplyWrites, Handle, Finish, Mirrored;
    StartBlock(b, ns, st, blk);
    var s0 := ApplyWrites(Routes(b, ns), Load(b, ns, st).value, blk.pre);
    var name := st.plan.value.name;
    if Handle(b, ns, name, s0, blk.migration).Some? {
      HandleView(b, ns, name, s0, blk.migration);
      DoneAppend(st.done, Plan(name, st.height + 1), NEXT_UPGRADE_NAME);
      FinishKeeps(b, ns, st, Handle(b, ns, name, s0, blk.migration).value, None,
                  st.done + [Plan(name, st.height + 1)], Some(name), blk);
      var v := ViewOf(b, ns, Load(b, ns, st).value);
      RefWritesConcat(v, blk.pre, HandlerWrites(name, blk.migration));
      RefWritesConcat(v, blk.pre + HandlerWrites(name, blk.migration), blk.body);
    }
  }

  // ---------------------------------------------------------------- what a block leaves alone

  /** The version entry the v6.3 handler drops: the version-map byte, 2, and the module's name. */
  lemma DroppedVersionKey()
    ensures |IBCHOOKS_VERSION_KEY| == 1 + |"ibchooks"| && IBCHOOKS_VERSION_KEY[0] == 2
    ensures forall i :: 0 <= i < |"ibchooks"| ==> IBCHOOKS_VERSION_KEY[i + 1] == "ibchooks"[i] as int
    ensures DROP_IBCHOOKS.mod == "upgrade" && DROP_IBCHOOKS.value == None
  {
  }

  /** A keeper write sets or removes one key of one store and changes nothing else. */
  lemma WriteIsLocal(r: map<string, string>, stores: map<string, KV>, w: Write)
    requires w.mod in r && r[w.mod] in stores
    ensures var end := ApplyWrite(r, stores, w);
            && end.Keys == stores.Keys
            && (forall n :: n in stores && n != r[w.mod] ==> end[n] == stores[n])
            && (forall k :: k != w.key ==>
                  (k in end[r[w.mod]] <==> k in stores[r[w.mod]])
                  && (k in stores[r[w.mod]] ==> end[r[w.mod]][k] == stores[r[w.mod]][k]))
            && (w.value.None? ==> w.key !in end[r[w.mod]])
            && (w.value.Some? ==> w.key in end[r[w.mod]] && end[r[w.mod]][w.key] == w.value.value)
  {
  }

  /** A block in which a module fails commits nothing, whatever else is in it. */
  lemma FailedBlock(b: Binary, ns: StoreNames, st: State, blk: Block)
    requires blk.fails
    ensures var out := Exec(b, ns, st, blk); out.Refused? && out.st == st.(disk := out.st.disk)
  {
    hide Load, Routes, ApplyWrites, Handle, Govern, MaybeArmNext, SyncWhileArmed, Registered;
  }

  /** Keeper writes before v6.4 land on live and always-mounted stores only. */
  lemma {:induction false} WritesMissDest(b: Binary, ns: StoreNames, stores: map<string, KV>, ws: seq<Write>)
    requires ValidLayout(ns) && !b.V64?
    ensures forall n :: n in stores && n in DestNames(ns.mig) ==>
              n in ApplyWrites(Routes(b, ns), stores, ws) && ApplyWrites(Routes(b, ns), stores, ws)[n] == stores[n]
  {
    hide Routes, Put;
    if ws != [] {
      var w := ws[|ws| - 1];
      WritesMissDest(b, ns, stores, ws[..|ws| - 1]);
      if w.mod in Routes(b, ns) { RouteIsNotDest(b, ns, w.mod); }
    }
  }

  lemma RouteIsNotDest(b: Binary, ns: StoreNames, m: string)
    requires ValidLayout(ns) && !b.V64? && m in Routes(b, ns)
    ensures Routes(b, ns)[m] !in DestNames(ns.mig)
  {
    LiveRoutes(b, ns, m);
  }

  /** A v6.3 block that applies no plan and ends unarmed leaves every dest store as it was. */
  lemma UnarmedBlockKeepsDest(ns: StoreNames, st: State, blk: Block)
    requires Inv(ns, st) && !Due(st) && Exec(V63, ns, st, blk).Committed? && !Armed(Exec(V63, ns, st, blk).st.plan)
    ensures st.writer.V63?
    ensures forall s :: s in ns.mig ==>
              && DestName(s) in st.stores && DestName(s) in Exec(V63, ns, st, blk).st.stores
              && Exec(V63, ns, st, blk).st.stores[DestName(s)] == st.stores[DestName(s)]
  {
    hide Routes, ApplyWrites, Mounted, Mirrored, Load;
    StartableBinaries(V63, ns, st);
    var loaded := Load(V63, ns, st).value;
    var s0 := ApplyWrites(Routes(V63, ns), loaded, blk.pre);
    WritesMissDest(V63, ns, loaded, blk.pre);
    WritesMissDest(V63, ns, s0, blk.body);
    forall s | s in ns.mig
      ensures DestName(s) in st.stores && DestName(s) in Exec(V63, ns, st, blk).st.stores
      ensures Exec(V63, ns, st, blk).st.stores[DestName(s)] == st.stores[DestName(s)]
    {
      DestMounted(V63, ns, s);
      assert DestName(s) in DestNames(ns.mig);
    }
  }

  /**
   Exactly when a handler succeeds. v6.3 and v6.1 need both trees of every pair and no
   IBC-facing name, which only the v6.3 binary can give them; v6.4 needs the v6.4 mounts.
   */
  lemma HandlersSucceed(b: Binary, ns: StoreNames, name: string, stores: map<string, KV>, migration: seq<Write>)
    requires ValidLayout(ns) && ns.mig != [] && stores.Keys == Mounted(b, ns)
    ensures Handle(b, ns, name, stores, migration).Some? <==>
            if name == UPGRADE_NAME || name == V61 then b.V63? && NoIBC(ns.mig)
            else name == NEXT_UPGRADE_NAME ==> b.V64?
  {
    hide Routes, ApplyWrites, SyncPairs, CopyPairs, Mounted, NoIBC;
    RoutesAreGood(b, ns, stores);
    ApplyWritesView(Routes(b, ns), stores, HandlerWrites(name, migration));
    var written := ApplyWrites(Routes(b, ns), stores, HandlerWrites(name, migration));
    MountedPairs(b, ns, written);
    MountChecksIff(b, ns);
  }

  lemma MountedPairs(b: Binary, ns: StoreNames, stores: map<string, KV>)
    requires ValidLayout(ns) && ns.mig != [] && stores.Keys == Mounted(b, ns)
    ensures PairsMounted(ns.mig, stores) <==> b.V63?
  {
    hide Mounted;
    assert ns.mig[0] in ns.mig;
    forall s | s in ns.mig ensures (s in stores) == !b.V64? && (DestName(s) in stores) == !b.Pre63? {
      PlainMounted(b, ns, s);
      DestMounted(b, ns, s);
    }
  }

  lemma MountChecksIff(b: Binary, ns: StoreNames)
    requires ValidLayout(ns) && ns.mig != []
    ensures MountChecks(ns.mig, Mounted(b, ns)) <==> b.V64?
  {
    hide Mounted;
    assert ns.mig[0] in ns.mig;
    forall s | s in ns.mig ensures (s in Mounted(b, ns)) == !b.V64? && (DestName(s) in Mounted(b, ns)) == !b.Pre63? {
      PlainMounted(b, ns, s);
      DestMounted(b, ns, s);
    }
    assert DestName("ibc") == "b3-ibc";
    AlwaysStoresKeepTheirTree(b, ns, "ibc");
    AlwaysMounted(b, ns, "ibc");
  }

  /** The checks on an arbitrary set of keys: no live tree, every dest tree, ibc, and no dest tree for it. */
  lemma MountChecksMean(mig: seq<string>, keys: set<string>)
    ensures MountChecks(mig, keys) <==>
            Names(mig) !! keys && DestNames(mig) <= keys && {"ibc"} <= keys && {DestName("ibc")} !! keys
  {
    assert DestName("ibc") == "b3-ibc";
    forall s | s in mig ensures s in Names(mig) && DestName(s) in DestNames(mig) {}
  }

  lemma AlwaysMounted(b: Binary, ns: StoreNames, n: string)
    requires n in ns.always
    ensures n in Mounted(b, ns)
  {
  }

  // ---------------------------------------------------------------- every run

  /** The invariant, in particular the mirror of live stores while v6.4 is armed, holds after every run. */
  lemma {:induction false} RunKeepsInv(ns: StoreNames, st: State, steps: seq<Step>)
    requires Inv(ns, st)
    ensures Inv(ns, Run(ns, st, steps))
  {
    if steps != [] {
      var last := steps[|steps| - 1];
      RunKeepsInv(ns, st, steps[..|steps| - 1]);
      ExecKeeps(last.b, ns, Run(ns, st, steps[..|steps| - 1]), last.blk);
    }
  }

  /**
   Armed invariant: whenever the last commit of a run is v6.3's and the stored plan
   is named v6.4, whoever scheduled it, every dest store equals its live store.
   */
  lemma ArmedInvariant(ns: StoreNames, st: State, steps: seq<Step>)
    requires Inv(ns, st)
    ensures var end := Run(ns, st, steps);
            end.writer.V63? && Armed(end.plan) ==> Mirrored(ns.mig, end.stores)
  {
    RunKeepsInv(ns, st, steps);
  }

  /** The step commits nothing, or its start is a safe one. */
  ghost predicate SafeStep(ns: StoreNames, st: State, t: Step) {
    Exec(t.b, ns, st, t.blk).Committed? ==> SafeStart(t.b, ns, st)
  }

  /** No block of the run was committed from an unsafe start. */
  ghost predicate SafeRun(ns: StoreNames, st: State, steps: seq<Step>) {
    forall i :: 0 <= i < |steps| ==> SafeStep(ns, Run(ns, st, steps[..i]), steps[i])
  }

  /**
   Migration refinement. After any sequence of attempts by any binaries, with any
   keeper writes and any governance actions, every module reads through KeeperKey
   exactly what a chain without the migration holds after the committed writes.
   */
  lemma {:induction false} MigrationRefinement(ns: StoreNames, st: State, steps: seq<Step>)
    requires Inv(ns, st) && SafeRun(ns, st, steps)
    ensures var end := Run(ns, st, steps);
            ViewOf(end.writer, ns, end.stores) ==
            RefWrites(ViewOf(st.writer, ns, st.stores), CommittedWrites(ns, st, steps))
  {
    hide SafeStart, Inv;
    if steps != [] {
      var last := steps[|steps| - 1];
      var before := steps[..|steps| - 1];
      var mid := Run(ns, st, before);
      RunKeepsInv(ns, st, before);
      SafePrefix(ns, st, steps);
      MigrationRefinement(ns, st, before);
      ExecKeeps(last.b, ns, mid, last.blk);
      var out := Exec(last.b, ns, mid, last.blk);
      var more := if out.Committed? then BlockWrites(last.blk, out.applied) else [];
      RefWritesConcat(ViewOf(st.writer, ns, st.stores), CommittedWrites(ns, st, before), more);
    }
  }

  lemma SafePrefix(ns: StoreNames, st: State, steps: seq<Step>)
    requires steps != [] && SafeRun(ns, st, steps)
    ensures var n := |steps| - 1;
            SafeRun(ns, st, steps[..n]) && SafeStep(ns, Run(ns, st, steps[..n]), steps[n])
  {
    hide SafeStep, Run;
    var n := |steps| - 1;
    forall i | 0 <= i < n ensures SafeStep(ns, Run(ns, st, steps[..n][..i]), steps[..n][i]) {
      assert steps[..n][..i] == steps[..i];
    }
  }

  /** Every run is safe that does not start on a v6.3 commit without a completed upgrade. */
  lemma {:induction false} RunsAreSafe(ns: StoreNames, st: State, steps: seq<Step>)
    requires Inv(ns, st) && (st.writer.V63? ==> st.done != [])
    ensures SafeRun(ns, st, steps)
    ensures var end := Run(ns, st, steps); end.writer.V63? ==> end.done != []
  {
    hide SafeStart, Inv, Exec;
    if steps != [] {
      var n := |steps| - 1;
      var before, last := steps[..n], steps[n];
      var mid := Run(ns, st, before);
      RunsAreSafe(ns, st, before);
      RunKeepsInv(ns, st, before);
      StepKeepsHistory(last.b, ns, mid, last.blk);
      forall i | 0 <= i < |steps| ensures SafeStep(ns, Run(ns, st, steps[..i]), steps[i]) {
        if i < n { assert before[i] == steps[i] && before[..i] == steps[..i]; }
      }
    }
  }

  lemma StepKeepsHistory(b: Binary, ns: StoreNames, st: State, blk: Block)
    requires Inv(ns, st) && (st.writer.V63? ==> st.done != [])
    ensures SafeStart(b, ns, st)
    ensures var end := Exec(b, ns, st, blk).st; end.writer.V63? ==> end.done != []
  {
    hide Mounted, Mirrored, ApplyWrites, Handle, Govern, MaybeArmNext, SyncWhileArmed;
    if Load(b, ns, st).Some? { StartableBinaries(b, ns, st); }
  }

  /** A chain as its first binary left it: no plan, nothing completed, no upgrade-info file. */
  function Genesis(b: Binary, stores: map<string, KV>, h: nat): State { State(stores, None, [], h, b, None) }

  /**
   From genesis. Whichever binary a chain began with and whatever it ran since, the
   invariant holds; on the v63pre and v6.4 binaries the refinement needs no guard.
   */
  lemma GenesisRuns(b: Binary, ns: StoreNames, stores: map<string, KV>, h: nat, steps: seq<Step>)
    requires ValidLayout(ns) && ns.mig != [] && stores.Keys == Mounted(b, ns)
    ensures var end := Run(ns, Genesis(b, stores, h), steps);
            && Inv(ns, end)
            && (end.writer.V63? && Armed(end.plan) ==> Mirrored(ns.mig, end.stores))
            && (!b.V63? ==>
                  ViewOf(end.writer, ns, end.stores) ==
                  RefWrites(ViewOf(b, ns, stores), CommittedWrites(ns, Genesis(b, stores, h), steps)))
  {
    hide Run, CommittedWrites, Mounted, Mirrored;
    var st := Genesis(b, stores, h);
    RunKeepsInv(ns, st, steps);
    if !b.V63? {
      RunsAreSafe(ns, st, steps);
      MigrationRefinement(ns, st, steps);
    }
  }
}
