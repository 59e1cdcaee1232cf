/**
 Store layout of the three binaries that take part in the hash migration
 (app/keepers/keys.go, app/keepers/layout*.go, app/iavl/store.go and the
 StoreUpgrades of each plan).

 Everything is stated for arbitrary lists of always-mounted and migratable store
 names; `ShippedLayoutIsValid` shows that the lists in app/keepers/keys.go and
 app/iavl/store.go are covered.
 */
module Layout {
  import opened Types

  /** v63pre, v6.3.0 and v6.4.0 executables. */
  datatype Binary = Pre63 | V63 | V64 {
    predicate MountDestStores() { !Pre63? }
    predicate KeepersOnDest() { V64? }
    predicate MountHooksStore() { Pre63? }
  }

  const HOOKS := "hooks-for-ibc"
  const PROTOCOLPOOL := "protocolpool"
  const B3 := "b3-"

  // Plan names.
  const V61 := "v6.1"
  const V62 := "v6.2"
  const UPGRADE_NAME := "v6.3"
  const NEXT_UPGRADE_NAME := "v6.4"

  function AlwaysStoreNames(): seq<string> {
    ["upgrade", "ibc", "transfer", "08-wasm", "icahost", "icacontroller", "packetfowardmiddleware", "params"]
  }

  const SHA256_STORES: set<string> :=
    {"ibc", "transfer", "icahost", "icacontroller", "packetfowardmiddleware", "packetforwardmiddleware",
     "08-wasm", "capability"}

  function MigratableStores(): seq<string> {
    ["bank", "staking", "acc", "crisis", "mint", "distribution", "slashing", "gov", "consensus", "feegrant",
     "evidence", "authz", "wasm", "feeshare", "globalfee", "drip", "smartaccount", "tokenfactory",
     "hashmerchant", "cw-hooks"]
  }

  function DestName(src: string): string { B3 + src }

  predicate HasB3Prefix(name: string) { |name| >= 3 && name[..3] == B3 }

  predicate IsIBCStore(name: string) { name in SHA256_STORES }

  function AlgorithmName(name: string): string {
    if IsIBCStore(name) then "sha256"
    else if |name| > 3 && name[..3] == B3 then "blake3"
    else "sha256"
  }

  /** The always-mounted names and the migratable ones. */
  datatype StoreNames = StoreNames(always: set<string>, mig: seq<string>)

  /** Names of a list, as a set. */
  function Names(xs: seq<string>): set<string> { set x | x in xs }

  function DestNames(mig: seq<string>): set<string> { set s | s in mig :: DestName(s) }

  /** The store names binary `b` mounts. */
  function Mounted(b: Binary, ns: StoreNames): set<string> {
    ns.always
    + (if b.MountHooksStore() then {HOOKS} else {})
    + (if !b.KeepersOnDest() then Names(ns.mig) else {})
    + (if b.MountDestStores() then DestNames(ns.mig) else {})
  }

  /** Modules whose keeper outlives the migration (hooks-for-ibc does not). */
  function Modules(ns: StoreNames): set<string> { ns.always + Names(ns.mig) }

  /** The name behind KeeperKey(m) on binary `b`; None when nothing is mounted for `m`. */
  function KeeperName(b: Binary, ns: StoreNames, m: string): Option<string> {
    if b.KeepersOnDest() && DestName(m) in Mounted(b, ns) then Some(DestName(m))
    else if m in Mounted(b, ns) then Some(m)
    else None
  }

  /** A plain name: not a dest tree, and not one of the names some plan deletes. */
  predicate PlainName(s: string) { !HasB3Prefix(s) && s != HOOKS && s != PROTOCOLPOOL }

  /** What the migration asks of the two lists of names. */
  ghost predicate ValidLayout(ns: StoreNames) {
    && (forall s :: s in ns.mig ==> s !in ns.always && PlainName(s))
    && (forall s :: s in ns.always ==> PlainName(s))
    && "ibc" in ns.always
  }

  /** Store changes attached to a plan: applied by the loader before the first block of the new binary. */
  datatype StoreUpgrades = StoreUpgrades(added: set<string>, deleted: set<string>)

  /** The StoreUpgrades binary `b` registers under plan `name`; None when the plan is not registered there. */
  function Registered(b: Binary, ns: StoreNames, name: string): Option<StoreUpgrades> {
    if !b.V64? && name == V61 then Some(StoreUpgrades(DestNames(ns.mig), {PROTOCOLPOOL}))
    else if !b.V64? && name == V62 then Some(StoreUpgrades({}, {}))
    else if b.V63? && name == UPGRADE_NAME then Some(StoreUpgrades(DestNames(ns.mig), {HOOKS}))
    else if b.V64? && name == NEXT_UPGRADE_NAME then Some(StoreUpgrades({}, Names(ns.mig)))
    else None
  }

  // ---------------------------------------------------------------- names

  lemma DestNameInjective(a: string, b: string)
    ensures DestName(a) == DestName(b) ==> a == b
    ensures HasB3Prefix(DestName(a))
  {
    assert DestName(a)[3..] == a && DestName(b)[3..] == b;
    assert DestName(a)[..3] == B3;
  }

  lemma FixedNamesArePlain()
    ensures !HasB3Prefix(HOOKS) && !HasB3Prefix(PROTOCOLPOOL) && HOOKS != PROTOCOLPOOL
  {
    assert HOOKS[0] == 'h' && PROTOCOLPOOL[0] == 'p';
  }

  /** A dest name is mounted exactly for the migratable names, on the binaries that mount dest trees. */
  lemma DestMounted(b: Binary, ns: StoreNames, m: string)
    requires ValidLayout(ns)
    ensures DestName(m) in Mounted(b, ns) <==> b.MountDestStores() && m in ns.mig
  {
    FixedNamesArePlain();
    DestNameInjective(m, m);
    if DestName(m) in DestNames(ns.mig) {
      var s :| s in ns.mig && DestName(s) == DestName(m);
      DestNameInjective(s, m);
    }
  }

  /** A plain name is mounted exactly when it is always mounted, or live-migratable before v6.4, or the hooks store. */
  lemma PlainMounted(b: Binary, ns: StoreNames, m: string)
    requires !HasB3Prefix(m)
    ensures m in Mounted(b, ns) <==>
            m in ns.always || (m in ns.mig && !b.V64?) || (m == HOOKS && b.Pre63?)
  {
    forall s | s in ns.mig ensures DestName(s) != m { DestNameInjective(s, s); }
  }
}
