/** What the layouts of the three binaries guarantee, for every valid list of migratable names. */
module LayoutProofs {
  import opened Types
  import opened Layout

  /** KeeperKey resolves for every module, to a mounted store, and never to the same store for two modules. */
  lemma KeeperKeyTotalInjective(b: Binary, ns: StoreNames)
    requires ValidLayout(ns)
    ensures forall m :: m in Modules(ns) ==>
              KeeperName(b, ns, m).Some? && KeeperName(b, ns, m).value in Mounted(b, ns)
    ensures forall m, n :: m in Modules(ns) && n in Modules(ns) && m != n ==>
              KeeperName(b, ns, m) != KeeperName(b, ns, n)
  {
    forall m | m in Modules(ns)
      ensures KeeperName(b, ns, m) == Some(if b.V64? && m in ns.mig then DestName(m) else m)
      ensures KeeperName(b, ns, m).value in Mounted(b, ns)
      ensures !HasB3Prefix(m)
    {
      DestMounted(b, ns, m);
      PlainMounted(b, ns, m);
    }
    forall m, n | m in Modules(ns) && n in Modules(ns) && m != n
      ensures KeeperName(b, ns, m) != KeeperName(b, ns, n)
    {
      DestNameInjective(m, n);
      DestNameInjective(n, m);
    }
  }

  /** Which plans each binary has a handler for: every one up to its own, except that v6.4 keeps no older one. */
  lemma RegisteredPlans(b: Binary, ns: StoreNames, name: string)
    ensures Registered(b, ns, name).Some? <==>
            name in (match b
                     case Pre63 => {V61, V62}
                     case V63 => {V61, V62, UPGRADE_NAME}
                     case V64 => {NEXT_UPGRADE_NAME})
    ensures Registered(b, ns, name).Some? && !b.V64? && name != V62 ==>
              Registered(b, ns, name).value.added == DestNames(ns.mig)
  {
  }

  /**
   Each plan's Added and Deleted lead from the names the old binary committed
   to exactly the names the new binary mounts, Added names are new, and Deleted
   names were there.
   */
  lemma StoreUpgradesMatchLayouts(ns: StoreNames)
    requires ValidLayout(ns)
    ensures var u := Registered(V63, ns, UPGRADE_NAME).value;
            && Mounted(Pre63, ns) + u.added - u.deleted == Mounted(V63, ns)
            && u.added !! Mounted(Pre63, ns) && u.deleted <= Mounted(Pre63, ns)
    ensures var u := Registered(V64, ns, NEXT_UPGRADE_NAME).value;
            && Mounted(V63, ns) + u.added - u.deleted == Mounted(V64, ns)
            && u.added !! Mounted(V63, ns) && u.deleted <= Mounted(V63, ns)
  {
    forall n | n in DestNames(ns.mig) ensures HasB3Prefix(n) && n !in Names(ns.mig) && n !in ns.always && n != HOOKS {
      var s :| s in ns.mig && DestName(s) == n;
      DestNameInjective(s, s);
    }
    var u := Registered(V63, ns, UPGRADE_NAME).value;
    assert Mounted(Pre63, ns) + u.added - u.deleted == Mounted(V63, ns);
    var w := Registered(V64, ns, NEXT_UPGRADE_NAME).value;
    assert Mounted(V63, ns) + w.added - w.deleted == Mounted(V64, ns);
  }

  /**
   Hash policy after the cutover: a migratable module sits on a BLAKE3 tree
   exactly when its name is not empty, and every other module stays on SHA-256.
   Before the cutover every module is on SHA-256.
   */
  lemma HashPolicy(b: Binary, ns: StoreNames, m: string)
    requires ValidLayout(ns) && m in Modules(ns)
    ensures KeeperName(b, ns, m).Some?
    ensures AlgorithmName(KeeperName(b, ns, m).value) ==
            if b.V64? && m in ns.mig && m != "" then "blake3" else "sha256"
  {
    KeeperKeyTotalInjective(b, ns);
    DestMounted(b, ns, m);
    DestNameInjective(m, m);
    assert DestName(m) !in SHA256_STORES by { assert DestName(m)[0] == 'b'; }
    assert |m| > 3 ==> m[..3] != B3;
  }

  /** No IBC-facing store is ever copied: none of the always-mounted names has a dest tree on any binary. */
  lemma AlwaysStoresKeepTheirTree(b: Binary, ns: StoreNames, m: string)
    requires ValidLayout(ns) && m in ns.always
    ensures DestName(m) !in Mounted(b, ns) && KeeperName(b, ns, m) == Some(m)
  {
    DestMounted(b, ns, m);
  }

  // -------------------------------------------------- NewKVStoreKeys does not panic

  /** NewKVStoreKeys panics when one name is a prefix of another. */
  ghost predicate PrefixFree(names: set<string>) {
    forall a, b :: a in names && b in names && a != b ==> !(a <= b)
  }

  ghost predicate PrefixFreeBase(ns: StoreNames) {
    && PrefixFree(Modules(ns) + {HOOKS})
    && "" !in Modules(ns) && "b" !in Modules(ns) && "b3" !in Modules(ns)
  }

  /** The `b3-` prefix form keeps every binary's key set prefix-free (the reason given for not using a suffix). */
  lemma KeysPrefixFree(b: Binary, ns: StoreNames)
    requires ValidLayout(ns) && PrefixFreeBase(ns)
    ensures PrefixFree(Mounted(b, ns))
  {
    forall x, y | x in Mounted(b, ns) && y in Mounted(b, ns) && x != y ensures !(x <= y) {
      if x in DestNames(ns.mig) {
        DestNotPrefix(ns, x, y);
      } else if y in DestNames(ns.mig) {
        PlainNotPrefixOfDest(ns, x, y);
      }
    }
  }

  lemma DestNotPrefix(ns: StoreNames, x: string, y: string)
    requires ValidLayout(ns) && PrefixFreeBase(ns)
    requires x in DestNames(ns.mig) && x != y
    requires y in DestNames(ns.mig) || y in Modules(ns) + {HOOKS}
    ensures !(x <= y)
  {
    var s :| s in ns.mig && DestName(s) == x;
    DestNameInjective(s, s);
    if x <= y {
      if y in DestNames(ns.mig) {
        var t :| t in ns.mig && DestName(t) == y;
        assert s in Modules(ns) + {HOOKS} && t in Modules(ns) + {HOOKS};
        DestPrefix(s, t);
      } else {
        PrefixInherited(x, y);
        FixedNamesArePlain();
      }
    }
  }

  lemma PlainNotPrefixOfDest(ns: StoreNames, x: string, y: string)
    requires ValidLayout(ns) && PrefixFreeBase(ns)
    requires x in Modules(ns) + {HOOKS} && y in DestNames(ns.mig)
    ensures !(x <= y)
  {
    var t :| t in ns.mig && DestName(t) == y;
    if x <= y {
      PlainPrefixOfDest(x, t);
    }
  }

  lemma PrefixInherited(x: string, y: string)
    requires x <= y && HasB3Prefix(x)
    ensures HasB3Prefix(y)
  {
    assert y[..3] == x[..3];
  }

  lemma DestPrefix(s: string, t: string)
    requires DestName(s) <= DestName(t)
    ensures s <= t
  {
    assert DestName(s)[3..] == s && DestName(t)[3..] == t;
    assert s == t[..|s|];
  }

  lemma PlainPrefixOfDest(x: string, t: string)
    requires x <= DestName(t)
    ensures HasB3Prefix(x) || x == "" || x == "b" || x == "b3"
  {
    if |x| >= 3 {
      assert x[..3] == DestName(t)[..3] == B3;
    } else {
      assert x == B3[..|x|];
    }
  }

  // ---------------------------------------------------------------- the shipped lists

  const SHIPPED := StoreNames(Names(AlwaysStoreNames()), MigratableStores())

  /** The lists the binaries ship are valid, and no migratable store is IBC-facing. */
  lemma ShippedLayoutIsValid()
    ensures ValidLayout(SHIPPED) && SHIPPED.mig != []
    ensures forall s :: s in SHIPPED.mig ==> !IsIBCStore(s) && s != ""
  {
    var mig := MigratableStores();
    forall s | s in mig ensures s !in SHIPPED.always && PlainName(s) && !IsIBCStore(s) && s != "" {
      ShippedNameShape(s);
      ShapeIsValid(s);
    }
    forall s | s in SHIPPED.always ensures PlainName(s) { AlwaysNameShape(s); }
    assert AlwaysStoreNames()[1] == "ibc";
    assert mig[0] == "bank";
  }

  /** Enough of the spelling of the shipped names to tell them from every fixed name. */
  ghost predicate ShippedShape(s: string) {
    && |s| >= 3
    && s[0] !in {'u', 'i', 'p', '0'}
    && (s[0] == 't' ==> s[1] == 'o')
    && (s[0] == 'b' || s[0] == 'h' ==> s[1] == 'a')
    && (s[0] == 'c' ==> s[1] != 'a')
  }

  lemma ShippedNameShape(s: string)
    requires s in MigratableStores()
    ensures ShippedShape(s)
  {
  }

  lemma ShapeIsValid(s: string)
    requires ShippedShape(s)
    ensures s !in AlwaysStoreNames() && PlainName(s) && !IsIBCStore(s)
  {
    if s in AlwaysStoreNames() { AlwaysNameShape(s); }
  }

  lemma AlwaysNameShape(n: string)
    requires n in AlwaysStoreNames()
    ensures |n| >= 3 && n[0] in {'u', 'i', 't', '0', 'p'}
    ensures n[0] == 't' ==> n[1] == 'r'
    ensures n[0] == 'p' ==> n[1] == 'a'
  {
  }

  /**
   Of the always-mounted stores exactly the upgrade store and the leftover params are not
   IBC-facing; none is in a pair to be copied, and all stay on sha256.
   */
  lemma ShippedAlwaysAreIBC(n: string)
    requires n in AlwaysStoreNames()
    ensures IsIBCStore(n) <==> n != "upgrade" && n != "params"
    ensures n !in MigratableStores() && AlgorithmName(n) == "sha256"
  {
    AlwaysNameShape(n);
    if n in MigratableStores() {
      ShippedNameShape(n);
      ShapeIsValid(n);
    }
  }

  /** Every name some shipped binary mounts, dest trees apart. */
  function ShippedNames(): seq<string> { AlwaysStoreNames() + MigratableStores() + [HOOKS] }

  /** Long enough to tell which shipped name it is, or is a prefix of. */
  predicate Telling(n: string) {
    |n| >= 3 && (n[0] == 'f' || (n[0] == 'i' && n[1] == 'c') ==> |n| >= 4)
  }

  /** The position in the list, told from the first letters. */
  function Spelling(n: string): nat
    requires Telling(n)
  {
    match n[0]
    case 'u' => 0
    case 'i' => if n[1] != 'c' then 1 else if n[3] == 'h' then 4 else 5
    case 't' => if n[1] == 'r' then 2 else 25
    case '0' => 3
    case 'p' => if n[2] == 'c' then 6 else 7
    case 'b' => 8
    case 's' => if n[1] == 't' then 9 else if n[1] == 'l' then 14 else 24
    case 'a' => if n[1] == 'c' then 10 else 19
    case 'c' => if n[1] == 'r' then 11 else if n[1] == 'o' then 16 else 27
    case 'm' => 12
    case 'd' => if n[1] == 'i' then 13 else 23
    case 'g' => if n[1] == 'o' then 15 else 22
    case 'f' => if n[3] == 'g' then 17 else 21
    case 'e' => 18
    case 'w' => 20
    case 'h' => if n[1] == 'a' then 26 else 28
    case _ => 29
  }

  lemma AlwaysAreSpelled(i: nat)
    requires i < 8
    ensures Telling(AlwaysStoreNames()[i]) && Spelling(AlwaysStoreNames()[i]) == i
  {
  }

  lemma MigratableAreSpelled(i: nat)
    requires i < 20
    ensures Telling(MigratableStores()[i]) && Spelling(MigratableStores()[i]) == 8 + i
  {
    hide Spelling, Telling;
    if i < 7 { FirstAreSpelled(i); } else if i < 14 { NextAreSpelled(i); } else { LastAreSpelled(i); }
  }

  lemma FirstAreSpelled(i: nat)
    requires i < 7
    ensures Telling(MigratableStores()[i]) && Spelling(MigratableStores()[i]) == 8 + i
  {
  }

  lemma NextAreSpelled(i: nat)
    requires 7 <= i < 14
    ensures Telling(MigratableStores()[i]) && Spelling(MigratableStores()[i]) == 8 + i
  {
  }

  lemma LastAreSpelled(i: nat)
    requires 14 <= i < 20
    ensures Telling(MigratableStores()[i]) && Spelling(MigratableStores()[i]) == 8 + i
  {
  }

  lemma ShippedAreSpelled(i: nat)
    requires i < |ShippedNames()|
    ensures Telling(ShippedNames()[i]) && Spelling(ShippedNames()[i]) == i
  {
    hide Spelling, Telling, AlwaysStoreNames, MigratableStores;
    ListSizes();
    if i < 8 { AlwaysAreSpelled(i); } else if i < 28 { MigratableAreSpelled(i - 8); } else { HooksIsSpelled(); }
  }

  lemma ListSizes()
    ensures |AlwaysStoreNames()| == 8 && |MigratableStores()| == 20
  {
  }

  lemma HooksIsSpelled()
    ensures Telling(HOOKS) && Spelling(HOOKS) == 28
  {
  }

  /** No shipped name is repeated, and none is a prefix of another. */
  lemma ShippedNamesApart(i: nat, j: nat)
    requires i < |ShippedNames()| && j < |ShippedNames()| && ShippedNames()[i] <= ShippedNames()[j]
    ensures i == j
  {
    hide ShippedNames;
    ShippedAreSpelled(i);
    ShippedAreSpelled(j);
    SpelledByPrefix(ShippedNames()[i], ShippedNames()[j]);
  }

  lemma SpelledByPrefix(x: string, y: string)
    requires Telling(x) && Telling(y) && x <= y
    ensures Spelling(x) == Spelling(y)
  {
    assert x[0] == y[0] && x[1] == y[1] && x[2] == y[2] && (|x| >= 4 ==> x[3] == y[3]);
  }

  /**
   So the store keys each of the three shipped binaries mounts are all different and
   prefix-free; the SDK would panic on a repeated name or a prefix.
   */
  lemma ShippedKeysPrefixFree(b: Binary)
    ensures PrefixFree(Mounted(b, SHIPPED))
    ensures forall i, j :: 0 <= i < j < |ShippedNames()| ==> ShippedNames()[i] != ShippedNames()[j]
  {
    hide Mounted, ShippedNames, PrefixFreeBase;
    ShippedLayoutIsValid();
    ShippedBase();
    forall i, j | 0 <= i < j < |ShippedNames()| ensures ShippedNames()[i] != ShippedNames()[j] {
      if ShippedNames()[i] == ShippedNames()[j] { ShippedNamesApart(i, j); }
    }
    KeysPrefixFree(b, SHIPPED);
  }

  lemma ShippedBase()
    ensures PrefixFreeBase(SHIPPED)
  {
    hide ShippedNames, Modules;
    forall n | n in Modules(SHIPPED) ensures |n| >= 3 {
      var i := ShippedIndex(n);
      ShippedAreSpelled(i);
    }
    forall x, y | x in Modules(SHIPPED) + {HOOKS} && y in Modules(SHIPPED) + {HOOKS} && x != y ensures !(x <= y) {
      var i := ShippedIndex(x);
      var j := ShippedIndex(y);
      if x <= y { ShippedNamesApart(i, j); }
    }
  }

  lemma ShippedIndex(n: string) returns (i: nat)
    requires n in Modules(SHIPPED) || n == HOOKS
    ensures i < |ShippedNames()| && ShippedNames()[i] == n
  {
    hide AlwaysStoreNames, MigratableStores;
    ListSizes();
    if n in AlwaysStoreNames() {
      i :| 0 <= i < |AlwaysStoreNames()| && AlwaysStoreNames()[i] == n;
    } else if n in MigratableStores() {
      var k: nat :| k < |MigratableStores()| && MigratableStores()[k] == n;
      i := 8 + k;
    } else {
      i := 28;
    }
  }
}
