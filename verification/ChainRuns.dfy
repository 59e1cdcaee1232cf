/** Arming over whole runs, the run that completes the cutover, and the start from which it is unsafe. */
module ChainRuns {
  import opened Types
  import opened Layout
  import opened LayoutProofs
  import opened Chain
  import opened ChainProofs

  // ---------------------------------------------------------------- arming safety

  /**
   MaybeArmNext schedules v6.4 only in the block that applied v6.3, only for that
   height plus two, and only when no plan is pending after the block's governance actions.
   */
  lemma ArmingSafety(b: Binary, ns: StoreNames, st: State, blk: Block)
    requires Inv(ns, st) && Exec(b, ns, st, blk).Committed? && Exec(b, ns, st, blk).armed
    ensures var out := Exec(b, ns, st, blk);
            && !b.V64?
            && out.applied == Some(UPGRADE_NAME)
            && DoneHeight(st.done, UPGRADE_NAME) == 0
            && DoneHeight(out.st.done, UPGRADE_NAME) == out.st.height
            && Govern(None, out.st.done, out.st.height, blk.gov) == None
            && out.st.plan == Some(Plan(NEXT_UPGRADE_NAME, out.st.height + 2))
  {
    hide Exec, Finish, Govern, DoneHeight, Mirrored, Mounted;
    var stores := CommittedThroughFinish(b, ns, st, blk);
    var h := st.height + 1;
    FinishArms(b, ns, st, stores, if Due(st) then None else st.plan, DoneAfter(st), AppliedIn(st), blk);
    DoneHeightIn(st.done, UPGRADE_NAME);
    if Due(st) { DoneAppend(st.done, Plan(st.plan.value.name, h), UPGRADE_NAME); }
  }

  /** Upgrades completed once the upgrade module let block height + 1 go on. */
  function DoneAfter(st: State): seq<Plan> {
    if Due(st) then st.done + [Plan(st.plan.value.name, st.height + 1)] else st.done
  }

  function AppliedIn(st: State): Option<string> {
    if Due(st) then Some(st.plan.value.name) else None
  }

  lemma CommittedThroughFinish(b: Binary, ns: StoreNames, st: State, blk: Block) returns (stores: map<string, KV>)
    requires Exec(b, ns, st, blk).Committed?
    ensures Exec(b, ns, st, blk) ==
            Finish(b, ns, st, stores, if Due(st) then None else st.plan, DoneAfter(st), AppliedIn(st), blk)
  {
    hide Load, Routes, ApplyWrites, Handle, Finish, Registered;
    stores := ApplyWrites(Routes(b, ns), Load(b, ns, st).value, blk.pre);
    if Due(st) { stores := Handle(b, ns, st.plan.value.name, stores, blk.migration).value; }
  }

  lemma FinishArms(b: Binary, ns: StoreNames, st: State, stores: map<string, KV>, plan: Option<Plan>,
                   done: seq<Plan>, applied: Option<string>, blk: Block)
    requires Finish(b, ns, st, stores, plan, done, applied, blk).Committed?
    ensures var out := Finish(b, ns, st, stores, plan, done, applied, blk);
            && out.st.done == done && out.st.height == st.height + 1 && out.applied == applied
            && (out.armed ==>
                  && !b.V64? && DoneHeight(done, UPGRADE_NAME) == st.height + 1
                  && Govern(plan, done, st.height + 1, blk.gov) == None
                  && out.st.plan == Some(Plan(NEXT_UPGRADE_NAME, st.height + 3)))
  {
  }

  /** Completed upgrades are never forgotten or moved to another height. */
  lemma DoneIsStable(b: Binary, ns: StoreNames, st: State, blk: Block, name: string)
    requires Inv(ns, st) && DoneHeight(st.done, name) != 0
    ensures DoneHeight(Exec(b, ns, st, blk).st.done, name) == DoneHeight(st.done, name)
  {
    if Due(st) { DoneAppend(st.done, Plan(st.plan.value.name, st.height + 1), name); }
  }

  function ArmCount(ns: StoreNames, st: State, steps: seq<Step>): nat {
    if steps == [] then 0
    else
      var last := steps[|steps| - 1];
      var before := steps[..|steps| - 1];
      var out := Exec(last.b, ns, Run(ns, st, before), last.blk);
      ArmCount(ns, st, before) + (if out.Committed? && out.armed then 1 else 0)
  }

  /** Over any run v6.4 is armed at most once, and never once v6.3 is already done. */
  lemma {:induction false} ArmedAtMostOnce(ns: StoreNames, st: State, steps: seq<Step>)
    requires Inv(ns, st)
    ensures ArmCount(ns, st, steps) <= 1
    ensures ArmCount(ns, st, steps) == 1 ==> DoneHeight(Run(ns, st, steps).done, UPGRADE_NAME) != 0
    ensures DoneHeight(st.done, UPGRADE_NAME) != 0 ==>
              ArmCount(ns, st, steps) == 0 && DoneHeight(Run(ns, st, steps).done, UPGRADE_NAME) != 0
  {
    if steps != [] {
      var last := steps[|steps| - 1];
      var before := steps[..|steps| - 1];
      var mid := Run(ns, st, before);
      ArmedAtMostOnce(ns, st, before);
      RunKeepsInv(ns, st, before);
      var out := Exec(last.b, ns, mid, last.blk);
      if DoneHeight(mid.done, UPGRADE_NAME) != 0 { DoneIsStable(last.b, ns, mid, last.blk, UPGRADE_NAME); }
      if out.Committed? && out.armed { ArmingSafety(last.b, ns, mid, last.blk); }
    }
  }

  // ---------------------------------------------------------------- the completing run

  /** A block without governance actions in which no module fails. */
  ghost predicate Plain(blk: Block) { blk.gov == [] && !blk.fails }

  lemma LoadOwnCommit(ns: StoreNames, st: State)
    requires Inv(ns, st) && LoaderUpgrades(st.writer, ns, st).added == {}
    ensures Load(st.writer, ns, st).Some?
  {
  }

  /** The binary that wrote the commit halts on a due plan it has no handler for, and leaves the upgrade-info file. */
  lemma HaltStep(ns: StoreNames, st: State, blk: Block)
    requires Inv(ns, st) && Due(st) && !HasHandler(st.writer, ns, st.plan.value.name)
    ensures Exec(st.writer, ns, st, blk) == Refused(st.(disk := Some(Plan(st.plan.value.name, st.height + 1))))
  {
    LoadOwnCommit(ns, st);
  }

  /** Apart from upgrades a chain goes on: a block without a failing module commits once the upgrade module lets it. */
  lemma QuietBlockCommits(ns: StoreNames, st: State, blk: Block)
    requires Inv(ns, st) && !Due(st) && PreBlockPasses(st.writer, ns, st) && !blk.fails
    requires st.writer.V64? || NoIBC(ns.mig)
    ensures var out := Exec(st.writer, ns, st, blk);
            && out.Committed? && out.applied == None && out.st.done == st.done && out.st.height == st.height + 1
            && (st.writer.V64? ==> out.st.plan == Govern(st.plan, st.done, st.height + 1, blk.gov) && !out.armed)
  {
    hide Mounted, Load, Routes, ApplyWrites, Govern, Mirrored, SyncPairs;
    LoadOwnCommit(ns, st);
  }

  ghost predicate HaltedFor(st: State, name: string) {
    && Due(st) && st.plan.value.name == name
    && st.disk == Some(Plan(name, st.height + 1))
  }

  lemma FinishPlain(b: Binary, ns: StoreNames, st: State, stores: map<string, KV>, plan: Option<Plan>,
                    done: seq<Plan>, applied: Option<string>, blk: Block)
    requires Plain(blk) && (b.V64? || NoIBC(ns.mig))
    requires !b.V64? ==> MaybeArmNext(plan, done, st.height + 1).Some?
    ensures var out := Finish(b, ns, st, stores, plan, done, applied, blk);
            && out.Committed? && out.applied == applied && out.st.done == done && out.st.disk == st.disk
            && out.st.plan == (if b.V64? then plan else MaybeArmNext(plan, done, st.height + 1).value)
            && out.armed == (out.st.plan != plan)
  {
  }

  lemma ApplyV63(ns: StoreNames, st: State, blk: Block)
    requires Inv(ns, st) && st.writer.Pre63? && HaltedFor(st, UPGRADE_NAME) && Plain(blk) && NoIBC(ns.mig)
    ensures var out := Exec(V63, ns, st, blk);
            && out.Committed? && out.applied == Some(UPGRADE_NAME) && out.armed
            && out.st.plan == Some(Plan(NEXT_UPGRADE_NAME, st.height + 3))
            && out.st.done == st.done + [Plan(UPGRADE_NAME, st.height + 1)]
            && out.st.disk == st.disk
  {
    hide Mounted, Load, Routes, ApplyWrites, Handle, Finish, Mirrored;
    LoadV63(ns, st);
    var s0 := ApplyWrites(Routes(V63, ns), Load(V63, ns, st).value, blk.pre);
    PreWritesKeepKeys(V63, ns, Load(V63, ns, st).value, blk.pre);
    HandleV63Succeeds(ns, s0, blk.migration);
    var done := st.done + [Plan(UPGRADE_NAME, st.height + 1)];
    DoneAppend(st.done, Plan(UPGRADE_NAME, st.height + 1), UPGRADE_NAME);
    DoneAppend(st.done, Plan(UPGRADE_NAME, st.height + 1), NEXT_UPGRADE_NAME);
    FinishPlain(V63, ns, st, Handle(V63, ns, UPGRADE_NAME, s0, blk.migration).value, None, done,
                Some(UPGRADE_NAME), blk);
  }

  lemma PreWritesKeepKeys(b: Binary, ns: StoreNames, stores: map<string, KV>, ws: seq<Write>)
    requires ValidLayout(ns) && stores.Keys == Mounted(b, ns)
    ensures ApplyWrites(Routes(b, ns), stores, ws).Keys == Mounted(b, ns)
  {
    RoutesAreGood(b, ns, stores);
    ApplyWritesView(Routes(b, ns), stores, ws);
  }

  lemma HandleV63Succeeds(ns: StoreNames, s0: map<string, KV>, migration: seq<Write>)
    requires ValidLayout(ns) && NoIBC(ns.mig) && s0.Keys == Mounted(V63, ns)
    ensures Handle(V63, ns, UPGRADE_NAME, s0, migration).Some?
  {
    RoutesAreGood(V63, ns, s0);
    ApplyWritesView(Routes(V63, ns), s0, HandlerWrites(UPGRADE_NAME, migration));
    AllPairsMounted(ns, ApplyWrites(Routes(V63, ns), s0, HandlerWrites(UPGRADE_NAME, migration)));
  }

  lemma LoadV63(ns: StoreNames, st: State)
    requires Inv(ns, st) && st.writer.Pre63? && HaltedFor(st, UPGRADE_NAME)
    ensures Load(V63, ns, st).Some? && Load(V63, ns, st).value.Keys == Mounted(V63, ns)
  {
    StoreUpgradesMatchLayouts(ns);
    var u := LoaderUpgrades(V63, ns, st);
    assert u == Registered(V63, ns, UPGRADE_NAME).value;
    forall n | n in Mounted(V63, ns) ensures (n in st.stores) != (n in u.added) {
      assert n in Mounted(Pre63, ns) + u.added - u.deleted;
    }
  }

  lemma AllPairsMounted(ns: StoreNames, stores: map<string, KV>)
    requires ValidLayout(ns) && stores.Keys == Mounted(V63, ns)
    ensures PairsMounted(ns.mig, stores)
  {
    forall s | s in ns.mig ensures s in stores && DestName(s) in stores {
      PlainMounted(V63, ns, s);
      DestMounted(V63, ns, s);
    }
  }

  lemma GapStep(ns: StoreNames, st: State, blk: Block)
    requires Inv(ns, st) && st.writer.V63? && Armed(st.plan) && !Due(st) && Plain(blk) && NoIBC(ns.mig)
    requires st.done != [] && st.done[|st.done| - 1] == Plan(UPGRADE_NAME, st.height)
    ensures var out := Exec(V63, ns, st, blk);
            && out.Committed? && out.applied == None
            && out.st.plan == st.plan && out.st.done == st.done && out.st.disk == st.disk
  {
    LoadOwnCommit(ns, st);
  }

  lemma ApplyV64(ns: StoreNames, st: State, blk: Block)
    requires Inv(ns, st) && st.writer.V63? && HaltedFor(st, NEXT_UPGRADE_NAME) && Plain(blk)
    ensures var out := Exec(V64, ns, st, blk);
            && out.Committed? && out.applied == Some(NEXT_UPGRADE_NAME)
            && out.st.plan == None
            && out.st.done == st.done + [Plan(NEXT_UPGRADE_NAME, st.height + 1)]
  {
    LoadV64(ns, st);
    var s0 := ApplyWrites(Routes(V64, ns), Load(V64, ns, st).value, blk.pre);
    PreWritesKeepKeys(V64, ns, Load(V64, ns, st).value, blk.pre);
    MountChecksPass(ns);
    FinishPlain(V64, ns, st, Handle(V64, ns, NEXT_UPGRADE_NAME, s0, blk.migration).value, None,
                st.done + [Plan(NEXT_UPGRADE_NAME, st.height + 1)], Some(NEXT_UPGRADE_NAME), blk);
  }

  /**
   Of the plans a v63pre chain can halt for, v6.1 and v6.3 let the v6.3 binary open the
   commit, because they add the dest stores; under any other name it is refused.
   */
  lemma V63Opens(ns: StoreNames, st: State, name: string)
    requires Inv(ns, st) && st.writer.Pre63? && HaltedFor(st, name)
    ensures Load(V63, ns, st).Some? <==> name == UPGRADE_NAME || name == V61
  {
    hide Mounted;
    var u := LoaderUpgrades(V63, ns, st);
    var s := ns.mig[0];
    assert s in ns.mig;
    DestMounted(Pre63, ns, s);
    DestMounted(V63, ns, s);
    forall n | n in Mounted(V63, ns) && (name == UPGRADE_NAME || name == V61)
      ensures (n in st.stores) != (n in u.added)
    {
      MountedOnV63(ns, n);
    }
  }

  lemma MountedOnV63(ns: StoreNames, n: string)
    requires ValidLayout(ns) && n in Mounted(V63, ns)
    ensures n in Mounted(Pre63, ns) <==> n !in DestNames(ns.mig)
  {
    StoreUpgradesMatchLayouts(ns);
  }

  lemma LoadV64(ns: StoreNames, st: State)
    requires Inv(ns, st) && st.writer.V63? && HaltedFor(st, NEXT_UPGRADE_NAME)
    ensures Load(V64, ns, st).Some? && Load(V64, ns, st).value.Keys == Mounted(V64, ns)
  {
    StoreUpgradesMatchLayouts(ns);
    var u := LoaderUpgrades(V64, ns, st);
    assert u == Registered(V64, ns, NEXT_UPGRADE_NAME).value;
    forall n | n in Mounted(V64, ns) ensures (n in st.stores) != (n in u.added) {
      assert n in Mounted(V63, ns) + u.added - u.deleted;
    }
  }

  /** The v6.4 handler's mount checks pass on the v6.4 key set and fail on the other two. */
  lemma MountChecksPass(ns: StoreNames)
    requires ValidLayout(ns) && ns.mig != []
    ensures forall b :: MountChecks(ns.mig, Mounted(b, ns)) <==> b.V64?
  {
    forall b ensures MountChecks(ns.mig, Mounted(b, ns)) <==> b.V64? { MountChecksIff(b, ns); }
  }

  function CutoverRun(halt1: Block, apply: Block, gap: Block, halt2: Block, cut: Block): seq<Step> {
    [Step(Pre63, halt1), Step(V63, apply), Step(V63, gap), Step(V63, halt2), Step(V64, cut)]
  }

  /**
   The intended upgrade goes through. From a v63pre commit whose plan v6.3 is due,
   with any keeper writes in the three blocks and no governance action or module
   error, v6.3 halts, applies, arms, runs the gap block, halts again, and v6.4
   applies: three blocks later the chain is on v6.4 with no plan left, and every
   module holds exactly the three blocks' writes on top of what it held.
   */
  lemma CutoverCompletes(ns: StoreNames, st: State, halt1: Block, apply: Block, gap: Block, halt2: Block, cut: Block)
    requires Inv(ns, st) && st.writer.Pre63? && NoIBC(ns.mig)
    requires Due(st) && st.plan.value.name == UPGRADE_NAME
    requires Plain(apply) && Plain(gap) && Plain(cut)
    ensures var end := Run(ns, st, CutoverRun(halt1, apply, gap, halt2, cut));
            && end.writer == V64 && end.height == st.height + 3 && end.plan == None
            && DoneHeight(end.done, UPGRADE_NAME) == st.height + 1
            && DoneHeight(end.done, NEXT_UPGRADE_NAME) == st.height + 3
            && end.stores.Keys == Mounted(V64, ns)
            && ViewOf(V64, ns, end.stores) ==
               RefWrites(ViewOf(Pre63, ns, st.stores),
                         apply.pre + (apply.migration + [DROP_IBCHOOKS]) + apply.body
                         + (gap.pre + gap.body) + (cut.pre + cut.migration + cut.body))
  {
    var s2, s3, s5 := CutoverStates(ns, st, halt1, apply, gap, halt2, cut);
    CutoverDone(st.done, st.height);
    CutoverViews(ViewOf(Pre63, ns, st.stores), ViewOf(V63, ns, s2.stores), ViewOf(V63, ns, s3.stores), apply, gap, cut);
  }

  /** The commits of the completing run, block by block. */
  lemma CutoverStates(ns: StoreNames, st: State, halt1: Block, apply: Block, gap: Block, halt2: Block, cut: Block)
    returns (s2: State, s3: State, s5: State)
    requires Inv(ns, st) && st.writer.Pre63? && NoIBC(ns.mig)
    requires Due(st) && st.plan.value.name == UPGRADE_NAME
    requires Plain(apply) && Plain(gap) && Plain(cut)
    ensures Run(ns, st, CutoverRun(halt1, apply, gap, halt2, cut)) == s5
    ensures s5.writer == V64 && s5.height == st.height + 3 && s5.plan == None
    ensures s5.stores.Keys == Mounted(V64, ns)
    ensures s5.done == st.done + [Plan(UPGRADE_NAME, st.height + 1)] + [Plan(NEXT_UPGRADE_NAME, st.height + 3)]
    ensures ViewOf(V63, ns, s2.stores) ==
            RefWrites(ViewOf(Pre63, ns, st.stores), BlockWrites(apply, Some(UPGRADE_NAME)))
    ensures ViewOf(V63, ns, s3.stores) == RefWrites(ViewOf(V63, ns, s2.stores), BlockWrites(gap, None))
    ensures ViewOf(V64, ns, s5.stores) ==
            RefWrites(ViewOf(V63, ns, s3.stores), BlockWrites(cut, Some(NEXT_UPGRADE_NAME)))
  {
    hide Load, Mounted, Finish, Exec, Handle, ViewOf, ViewAlong, RefWrites, BlockWrites;
    var s1 := CutoverHalt(ns, st, halt1);
    ApplyV63(ns, s1, apply);
    ExecKeeps(V63, ns, s1, apply);
    s2 := Exec(V63, ns, s1, apply).st;
    GapStep(ns, s2, gap);
    ExecKeeps(V63, ns, s2, gap);
    s3 := Exec(V63, ns, s2, gap).st;
    var s4 := CutoverHalt(ns, s3, halt2);
    ApplyV64(ns, s4, cut);
    ExecKeeps(V64, ns, s4, cut);
    s5 := Exec(V64, ns, s4, cut).st;
    FiveSteps(Stepper(ns), st, CutoverRun(halt1, apply, gap, halt2, cut), s1, s2, s3, s4, s5);
  }

  lemma CutoverHalt(ns: StoreNames, st: State, blk: Block) returns (s: State)
    requires Inv(ns, st) && Due(st) && !HasHandler(st.writer, ns, st.plan.value.name)
    ensures s == Exec(st.writer, ns, st, blk).st == st.(disk := Some(Plan(st.plan.value.name, st.height + 1)))
    ensures Inv(ns, s)
  {
    HaltStep(ns, st, blk);
    ExecKeeps(st.writer, ns, st, blk);
    s := Exec(st.writer, ns, st, blk).st;
  }

  lemma CutoverDone(done: seq<Plan>, h: nat)
    ensures var d := done + [Plan(UPGRADE_NAME, h + 1)] + [Plan(NEXT_UPGRADE_NAME, h + 3)];
            DoneHeight(d, UPGRADE_NAME) == h + 1 && DoneHeight(d, NEXT_UPGRADE_NAME) == h + 3
  {
    DoneAppend(done, Plan(UPGRADE_NAME, h + 1), UPGRADE_NAME);
    DoneAppend(done + [Plan(UPGRADE_NAME, h + 1)], Plan(NEXT_UPGRADE_NAME, h + 3), UPGRADE_NAME);
    DoneAppend(done + [Plan(UPGRADE_NAME, h + 1)], Plan(NEXT_UPGRADE_NAME, h + 3), NEXT_UPGRADE_NAME);
  }

  lemma CutoverViews(v0: View, v1: View, v2: View, apply: Block, gap: Block, cut: Block)
    requires v1 == RefWrites(v0, BlockWrites(apply, Some(UPGRADE_NAME)))
    requires v2 == RefWrites(v1, BlockWrites(gap, None))
    ensures RefWrites(v2, BlockWrites(cut, Some(NEXT_UPGRADE_NAME))) ==
            RefWrites(v0, apply.pre + (apply.migration + [DROP_IBCHOOKS]) + apply.body
                          + (gap.pre + gap.body) + (cut.pre + cut.migration + cut.body))
  {
    hide RefWrites;
    var wa, wg := BlockWrites(apply, Some(UPGRADE_NAME)), BlockWrites(gap, None);
    var wc := BlockWrites(cut, Some(NEXT_UPGRADE_NAME));
    QuietWrites(gap);
    RefWritesConcat(v0, wa, wg);
    RefWritesConcat(v0, wa + wg, wc);
  }

  lemma QuietWrites(blk: Block)
    ensures BlockWrites(blk, None) == blk.pre + blk.body
  {
    assert blk.pre + [] + blk.body == blk.pre + blk.body;
  }

  lemma FiveSteps(f: (State, Step) -> State, st: State, steps: seq<Step>,
                  s1: State, s2: State, s3: State, s4: State, s5: State)
    requires |steps| == 5
    requires f(st, steps[0]) == s1 && f(s1, steps[1]) == s2 && f(s2, steps[2]) == s3
    requires f(s3, steps[3]) == s4 && f(s4, steps[4]) == s5
    ensures RunWith(f, st, steps) == s5
  {
    RunExtend(f, st, steps, 0);
    RunExtend(f, st, steps, 1);
    RunExtend(f, st, steps, 2);
    RunExtend(f, st, steps, 3);
    RunExtend(f, st, steps, 4);
    assert steps[..5] == steps;
  }

  lemma RunExtend(f: (State, Step) -> State, st: State, steps: seq<Step>, k: nat)
    requires k < |steps|
    ensures RunWith(f, st, steps[..k + 1]) == f(RunWith(f, st, steps[..k]), steps[k])
  {
    assert steps[..k + 1][..k] == steps[..k];
  }

  // ---------------------------------------------------------------- the start no check refuses

  /**
   v6.4 started on a v6.3 commit, with no plan due: whatever plan is pending, whatever
   the upgrade-info file says and whatever the block writes, it commits exactly on a
   stale start, and its modules then continue from the dest stores.
   */
  lemma StaleCutover(ns: StoreNames, st: State, blk: Block)
    requires Inv(ns, st) && st.writer.V63? && !Due(st) && !blk.fails
    ensures var out := Exec(V64, ns, st, blk);
            && (out.Committed? <==> st.done == [] && !Armed(st.plan))
            && (out.Committed? ==>
                  && Load(V64, ns, st).Some?
                  && ViewOf(V64, ns, out.st.stores) ==
                     RefWrites(ViewOf(V64, ns, Load(V64, ns, st).value), blk.pre + blk.body)
                  && (ViewOf(V64, ns, Load(V64, ns, st).value) == ViewOf(V63, ns, st.stores) <==>
                      Mirrored(ns.mig, st.stores)))
  {
    hide Mounted, Load, Mirrored, ViewAlong, RefWrites;
    LoadStale(ns, st);
    CutoverIsMirrored(ns, st);
    V64ViewIsMirror(ns, st);
    ExecKeeps(V64, ns, st, blk);
    assert blk.pre + [] + blk.body == blk.pre + blk.body;
  }

  lemma LoadStale(ns: StoreNames, st: State)
    requires Inv(ns, st) && st.writer.V63? && !Due(st)
    ensures Load(V64, ns, st).Some?
  {
    assert Mounted(V64, ns) <= Mounted(V63, ns);
  }

  const NOTHING := Block([], [], [], [], false)

  function OneWrite(m: string, key: Bytes, value: Bytes): Block {
    Block([], [], [Write(m, key, Some(value))], [], false)
  }

  /** A chain begun on v6.3 with empty stores. */
  function EmptyChain(ns: StoreNames): State { Genesis(V63, map n | n in Mounted(V63, ns) :: map[], 1) }

  /** It writes one entry, and then is started on v6.4. */
  function StaleRun(m: string, key: Bytes, value: Bytes): seq<Step> {
    [Step(V63, OneWrite(m, key, value)), Step(V64, NOTHING)]
  }

  /** The refinement fails there: the entry v6.3 committed is gone, for every migratable module and every entry. */
  lemma StaleRunLosesKey(ns: StoreNames, m: string, key: Bytes, value: Bytes)
    requires ValidLayout(ns) && m in ns.mig
    ensures var st := EmptyChain(ns);
            var end := Run(ns, st, StaleRun(m, key, value));
            var kept := RefWrites(ViewOf(V63, ns, st.stores), CommittedWrites(ns, st, StaleRun(m, key, value)));
            && end.writer.V64?
            && m in ViewOf(V64, ns, end.stores) && key !in ViewOf(V64, ns, end.stores)[m]
            && m in kept && key in kept[m] && kept[m][key] == value
  {
    hide Exec, Mounted, RefWrites, ViewOf;
    var st := EmptyChain(ns);
    var s1 := FirstWrite(ns, m, key, value);
    DestMounted(V63, ns, m);
    DestNameInjective(m, m);
    LostOnV64(ns, s1, m);
    TwoSteps(ns, st, StaleRun(m, key, value));
    KeptByReference(ns, m, key, value);
    assert BlockWrites(OneWrite(m, key, value), None) + [] == [Write(m, key, Some(value))];
  }

  lemma TwoSteps(ns: StoreNames, st: State, steps: seq<Step>)
    requires |steps| == 2
    ensures var o1 := Exec(steps[0].b, ns, st, steps[0].blk);
            var o2 := Exec(steps[1].b, ns, o1.st, steps[1].blk);
            && Run(ns, st, steps) == o2.st
            && CommittedWrites(ns, st, steps) ==
               (if o1.Committed? then BlockWrites(steps[0].blk, o1.applied) else [])
               + (if o2.Committed? then BlockWrites(steps[1].blk, o2.applied) else [])
  {
    hide Exec, BlockWrites;
    var f := Stepper(ns);
    RunExtend(f, st, steps, 0);
    RunExtend(f, st, steps, 1);
    assert steps[..2] == steps && steps[..1][..0] == [];
    var one := steps[..1];
    assert one == [steps[0]] && one[..|one| - 1] == [];
    assert Run(ns, st, []) == st && CommittedWrites(ns, st, []) == [];
    assert CommittedWrites(ns, st, one) ==
           [] + (var o1 := Exec(steps[0].b, ns, st, steps[0].blk);
                 if o1.Committed? then BlockWrites(steps[0].blk, o1.applied) else []);
    assert steps[..|steps| - 1] == one;
  }

  lemma FirstWrite(ns: StoreNames, m: string, key: Bytes, value: Bytes) returns (s: State)
    requires ValidLayout(ns) && m in ns.mig
    ensures Exec(V63, ns, EmptyChain(ns), OneWrite(m, key, value)) == Committed(s, None, false)
    ensures s == State(EmptyChain(ns).stores[m := map[key := value]], None, [], 2, V63, None)
    ensures s.stores.Keys == Mounted(V63, ns) && Inv(ns, s)
  {
    hide Mounted, KeeperName;
    var st := EmptyChain(ns);
    assert m in Modules(ns);
    LiveRoutes(V63, ns, m);
    PlainMounted(V63, ns, m);
    LoadOwnCommit(ns, st);
    assert Load(V63, ns, st).value == st.stores;
    RoutesAreGood(V63, ns, st.stores);
    var ws := [Write(m, key, Some(value))];
    assert ws[..0] == [];
    assert ApplyWrites(Routes(V63, ns), st.stores, ws) == st.stores[m := map[key := value]];
    s := Exec(V63, ns, st, OneWrite(m, key, value)).st;
  }

  lemma LostOnV64(ns: StoreNames, s: State, m: string)
    requires Inv(ns, s) && s.writer.V63? && s.plan == None && s.done == [] && m in ns.mig
    requires DestName(m) in s.stores && s.stores[DestName(m)] == map[]
    ensures var out := Exec(V64, ns, s, NOTHING);
            && out.Committed? && out.st.writer.V64? && BlockWrites(NOTHING, out.applied) == []
            && m in ViewOf(V64, ns, out.st.stores) && ViewOf(V64, ns, out.st.stores)[m] == map[]
  {
    hide Mounted, Load, ViewAlong;
    StaleCutover(ns, s, NOTHING);
    ExecKeeps(V64, ns, s, NOTHING);
    V64Reads(ns, s, m);
  }

  lemma KeptByReference(ns: StoreNames, m: string, key: Bytes, value: Bytes)
    requires ValidLayout(ns) && m in ns.mig
    ensures var v := RefWrites(ViewOf(V63, ns, EmptyChain(ns).stores), [Write(m, key, Some(value))]);
            m in v && key in v[m] && v[m][key] == value
  {
    var st := EmptyChain(ns);
    assert m in Modules(ns);
    RoutesAreGood(V63, ns, st.stores);
    assert [Write(m, key, Some(value))][..0] == [];
  }
}
