/**
 The chain as a state machine: committed stores, upgrade plan, completed
 upgrades, height, the binary that wrote the last commit, and the upgrade-info
 file the upgrade keeper leaves on disk when it halts.

 One step is an attempt by some binary, chosen freely by the operator, to start
 on the committed state and execute the next block. The block carries arbitrary
 keeper writes and arbitrary governance actions on the plan.

 Parts that belong to the Cosmos SDK, and are therefore contracts here:
   * Load: a mounted store must be in the last commit or Added; an Added store
     must not be in the last commit; only mounted stores are committed again.
   * PreBlock: a due plan with a registered handler is applied, recorded as done
     and cleared; a due plan without a handler writes the upgrade-info file and
     halts; a pending plan whose handler is already registered stops the node;
     without a due plan the handler of the last completed upgrade must be registered.
   * ScheduleUpgrade refuses past heights and names already done, and replaces
     the pending plan.
   * GetDoneHeight is 0 for an upgrade that is not done.
   * Nothing writes a store between EndBlocker and the commit; a failed block
     leaves the last commit as it was.
 */
module Chain {
  import opened Types
  import opened Layout

  datatype Plan = Plan(name: string, height: nat)

  datatype State = State(
    stores: map<string, KV>,
    plan: Option<Plan>,
    done: seq<Plan>,
    height: nat,
    writer: Binary,
    disk: Option<Plan>)

  datatype Write = Write(mod: string, key: Bytes, value: Option<Bytes>)

  datatype GovOp = Schedule(plan: Plan) | Cancel

  /**
   pre: writes before the upgrade module runs (injected vote extensions);
   migration: module migrations, made only when a plan is applied;
   body: BeginBlock, transactions and the modules' EndBlock;
   fails: some module returned an error.
   */
  datatype Block = Block(pre: seq<Write>, migration: seq<Write>, body: seq<Write>, gov: seq<GovOp>, fails: bool)

  datatype Outcome =
    | Committed(st: State, applied: Option<string>, armed: bool)
    | Refused(st: State)

  const NEXT_UPGRADE_GAP := 2

  /** VersionMapByte followed by "ibchooks". */
  const IBCHOOKS_VERSION_KEY: Bytes := [2, 105, 98, 99, 104, 111, 111, 107, 115]

  const DROP_IBCHOOKS := Write("upgrade", IBCHOOKS_VERSION_KEY, None)

  // ---------------------------------------------------------------- upgrade keeper

  function DoneHeight(done: seq<Plan>, name: string): nat {
    if done == [] then 0
    else if done[|done| - 1].name == name then done[|done| - 1].height
    else DoneHeight(done[..|done| - 1], name)
  }

  /** ScheduleUpgrade at block height h: None is the error return. */
  function ScheduleUpgrade(done: seq<Plan>, h: nat, p: Plan): Option<Plan> {
    if p.height < h || DoneHeight(done, p.name) != 0 then None else Some(p)
  }

  function Govern(plan: Option<Plan>, done: seq<Plan>, h: nat, gov: seq<GovOp>): Option<Plan> {
    if gov == [] then plan
    else
      var before := Govern(plan, done, h, gov[..|gov| - 1]);
      match gov[|gov| - 1]
      case Cancel => None
      case Schedule(p) => if ScheduleUpgrade(done, h, p).Some? then Some(p) else before
  }

  /** MaybeArmNext: the plan afterwards, or None when scheduling fails. */
  function MaybeArmNext(plan: Option<Plan>, done: seq<Plan>, h: nat): Option<Option<Plan>> {
    if DoneHeight(done, UPGRADE_NAME) != h then Some(plan)
    else if plan.Some? then Some(plan)
    else if ScheduleUpgrade(done, h, Plan(NEXT_UPGRADE_NAME, h + NEXT_UPGRADE_GAP)).None? then None
    else Some(Some(Plan(NEXT_UPGRADE_NAME, h + NEXT_UPGRADE_GAP)))
  }

  // ---------------------------------------------------------------- keeper writes

  function Put(kv: KV, key: Bytes, value: Option<Bytes>): KV {
    match value
    case Some(v) => kv[key := v]
    case None => kv - {key}
  }

  /** Where each module's keeper reads and writes: its KeeperKey on binary `b`. */
  function Routes(b: Binary, ns: StoreNames): map<string, string> {
    map m | m in Modules(ns) && KeeperName(b, ns, m).Some? :: KeeperName(b, ns, m).value
  }

  /** A keeper write: it lands in the store behind KeeperKey. */
  function ApplyWrite(r: map<string, string>, stores: map<string, KV>, w: Write): map<string, KV> {
    if w.mod in r && r[w.mod] in stores
    then stores[r[w.mod] := Put(stores[r[w.mod]], w.key, w.value)]
    else stores
  }

  function ApplyWrites(r: map<string, string>, stores: map<string, KV>, ws: seq<Write>): map<string, KV> {
    if ws == [] then stores
    else ApplyWrite(r, ApplyWrites(r, stores, ws[..|ws| - 1]), ws[|ws| - 1])
  }

  // ---------------------------------------------------------------- dual-store copies

  /** One pair of SyncDestFromLive: skipped when either store is not mounted. */
  function SyncPair(stores: map<string, KV>, s: string): map<string, KV> {
    if s in stores && DestName(s) in stores then stores[DestName(s) := stores[s]] else stores
  }

  function SyncPairs(mig: seq<string>, stores: map<string, KV>): map<string, KV> {
    if mig == [] then stores else SyncPair(SyncPairs(mig[..|mig| - 1], stores), mig[|mig| - 1])
  }

  /** One pair of the v6.1 copy, which never deletes. */
  function CopyPair(stores: map<string, KV>, s: string): map<string, KV> {
    if s in stores && DestName(s) in stores
    then stores[DestName(s) := stores[DestName(s)] + stores[s]] else stores
  }

  function CopyPairs(mig: seq<string>, stores: map<string, KV>): map<string, KV> {
    if mig == [] then stores else CopyPair(CopyPairs(mig[..|mig| - 1], stores), mig[|mig| - 1])
  }

  predicate NoIBC(mig: seq<string>) { forall s :: s in mig ==> !IsIBCStore(s) }

  predicate PairsMounted(mig: seq<string>, stores: map<string, KV>) {
    forall s :: s in mig ==> s in stores && DestName(s) in stores
  }

  /** SyncDestWhileArmed: None is the error return. */
  function SyncWhileArmed(mig: seq<string>, plan: Option<Plan>, stores: map<string, KV>): Option<map<string, KV>> {
    if plan.None? || plan.value.name != NEXT_UPGRADE_NAME then Some(stores)
    else if !NoIBC(mig) then None
    else Some(SyncPairs(mig, stores))
  }

  // ---------------------------------------------------------------- handlers

  /** Mount checks of the v6.4 handler. */
  predicate MountChecks(mig: seq<string>, keys: set<string>) {
    && (forall s :: s in mig ==> s !in keys && DestName(s) in keys)
    && "ibc" in keys
    && "b3-ibc" !in keys
  }

  /** The writes the handler of plan `name` makes through keepers. */
  function HandlerWrites(name: string, migration: seq<Write>): seq<Write> {
    if name == UPGRADE_NAME then migration + [DROP_IBCHOOKS] else migration
  }

  /** Runs the handler registered for `name`; None is an error return. */
  function Handle(b: Binary, ns: StoreNames, name: string, stores: map<string, KV>, migration: seq<Write>)
    : Option<map<string, KV>>
  {
    var written := ApplyWrites(Routes(b, ns), stores, HandlerWrites(name, migration));
    if name == UPGRADE_NAME then
      if NoIBC(ns.mig) && PairsMounted(ns.mig, written) then Some(SyncPairs(ns.mig, written)) else None
    else if name == V61 then
      if NoIBC(ns.mig) && PairsMounted(ns.mig, written) then Some(CopyPairs(ns.mig, written)) else None
    else if name == NEXT_UPGRADE_NAME then
      if MountChecks(ns.mig, stores.Keys) then Some(written) else None
    else Some(written)
  }

  // ---------------------------------------------------------------- one block

  /** setupUpgradeStoreLoaders: the registered StoreUpgrades named on disk, if it is for the next height. */
  function LoaderUpgrades(b: Binary, ns: StoreNames, st: State): StoreUpgrades {
    if st.disk.Some? && st.disk.value.height == st.height + 1 && Registered(b, ns, st.disk.value.name).Some?
    then Registered(b, ns, st.disk.value.name).value
    else StoreUpgrades({}, {})
  }

  function Load(b: Binary, ns: StoreNames, st: State): Option<map<string, KV>> {
    var u := LoaderUpgrades(b, ns, st);
    var names := Mounted(b, ns);
    if exists n :: n in names && (n in st.stores) == (n in u.added) then None
    else Some(map n | n in names :: if n in st.stores && n !in u.deleted then st.stores[n] else map[])
  }

  predicate Due(st: State) { st.plan.Some? && st.plan.value.height <= st.height + 1 }

  predicate HasHandler(b: Binary, ns: StoreNames, name: string) { Registered(b, ns, name).Some? }

  /** The upgrade module lets the block go on: the right handler is there, or none is needed. */
  predicate PreBlockPasses(b: Binary, ns: StoreNames, st: State) {
    if Due(st) then HasHandler(b, ns, st.plan.value.name)
    else
      && (st.plan.Some? ==> !HasHandler(b, ns, st.plan.value.name))
      && (st.done != [] ==> HasHandler(b, ns, st.done[|st.done| - 1].name))
  }

  /** Rest of the block after the upgrade module: body, governance, EndBlocker, commit. */
  function Finish(b: Binary, ns: StoreNames, st: State, stores: map<string, KV>, plan: Option<Plan>,
                  done: seq<Plan>, applied: Option<string>, blk: Block): Outcome
  {
    var h := st.height + 1;
    var s1 := ApplyWrites(Routes(b, ns), stores, blk.body);
    var p1 := Govern(plan, done, h, blk.gov);
    if blk.fails then Refused(st)
    else if b.V64? then Committed(State(s1, p1, done, h, b, st.disk), applied, false)
    else
      var p2 := MaybeArmNext(p1, done, h);
      if p2.None? then Refused(st)
      else
        var s2 := SyncWhileArmed(ns.mig, p2.value, s1);
        if s2.None? then Refused(st)
        else Committed(State(s2.value, p2.value, done, h, b, st.disk), applied, p2.value != p1)
  }

  function Exec(b: Binary, ns: StoreNames, st: State, blk: Block): Outcome {
    var loaded := Load(b, ns, st);
    if loaded.None? then Refused(st)
    else if !PreBlockPasses(b, ns, st) then
      Refused(if Due(st) then st.(disk := Some(Plan(st.plan.value.name, st.height + 1))) else st)
    else
      var s0 := ApplyWrites(Routes(b, ns), loaded.value, blk.pre);
      if !Due(st) then Finish(b, ns, st, s0, st.plan, st.done, None, blk)
      else
        var name := st.plan.value.name;
        var s1 := Handle(b, ns, name, s0, blk.migration);
        if s1.None? then Refused(st)
        else Finish(b, ns, st, s1.value, None, st.done + [Plan(name, st.height + 1)], Some(name), blk)
  }

  // ---------------------------------------------------------------- runs

  datatype Step = Step(b: Binary, blk: Block)

  /** Folds a step function over a list of steps. */
  function RunWith(f: (State, Step) -> State, st: State, steps: seq<Step>): State {
    if steps == [] then st else f(RunWith(f, st, steps[..|steps| - 1]), steps[|steps| - 1])
  }

  function Stepper(ns: StoreNames): (State, Step) -> State {
    (s: State, t: Step) => Exec(t.b, ns, s, t.blk).st
  }

  function Run(ns: StoreNames, st: State, steps: seq<Step>): State { RunWith(Stepper(ns), st, steps) }

  // ---------------------------------------------------------------- the reference chain

  /** Module contents of a chain that has one store per module and no dual-store migration. */
  type View = map<string, KV>

  function RefWrite(v: View, w: Write): View {
    if w.mod in v then v[w.mod := Put(v[w.mod], w.key, w.value)] else v
  }

  function RefWrites(v: View, ws: seq<Write>): View {
    if ws == [] then v else RefWrite(RefWrites(v, ws[..|ws| - 1]), ws[|ws| - 1])
  }

  /** The keeper writes of a committed block, in order. */
  function BlockWrites(blk: Block, applied: Option<string>): seq<Write> {
    blk.pre + (if applied.Some? then HandlerWrites(applied.value, blk.migration) else []) + blk.body
  }

  /** The keeper writes of all blocks a run committed, in order. */
  function CommittedWrites(ns: StoreNames, st: State, steps: seq<Step>): seq<Write> {
    if steps == [] then []
    else
      var last := steps[|steps| - 1];
      var before := steps[..|steps| - 1];
      var out := Exec(last.b, ns, Run(ns, st, before), last.blk);
      CommittedWrites(ns, st, before) + (if out.Committed? then BlockWrites(last.blk, out.applied) else [])
  }

  /** Module contents read along routes `r`. */
  function ViewAlong(r: map<string, string>, stores: map<string, KV>): View {
    map m | m in r && r[m] in stores :: stores[r[m]]
  }

  /** Module contents read through KeeperKey on binary `b`. */
  function ViewOf(b: Binary, ns: StoreNames, stores: map<string, KV>): View {
    ViewAlong(Routes(b, ns), stores)
  }
}
