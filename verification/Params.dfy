/**
 The last read of the removed x/params module (app/upgrades/v6_1/params_migrate.go):
 leftover subspace values are copied into module stores, then the legacy store is
 wiped. Amino decoding, validation and the modules' defaults are inputs.
 */
module LegacyParams {
  import opened Types

  /** A decoded parameter; Nil is a nil coin list or decimal, which some fields refuse. */
  datatype Value = Nil | Raw(b: Bytes)

  type Params = map<string, Value>

  type Legacy = map<string, Bytes>

  datatype Field = Field(key: string, acceptsNil: bool)

  /** One migration step: module name, and fields in the order they are read. */
  datatype Spec = Spec(mod: string, fields: seq<Field>)

  /**
   decode: amino JSON of a field, None when it does not parse; valid: the module's
   own check; defaults: what each step starts from, the chain's bond denom included.
   */
  datatype Codec = Codec(decode: (string, string, Bytes) -> Option<Value>, valid: (string, Params) -> bool,
                         defaults: string -> Params)

  function Specs(): seq<Spec> {
    [Spec("tokenfactory", [Field("DenomCreationFee", false), Field("DenomCreationGasConsume", true)]),
     Spec("smartaccount", [Field("MaximumUnauthenticatedGas", true), Field("IsSmartAccountActive", true),
                           Field("CircuitBreakerControllers", true)]),
     Spec("feeshare", [Field("EnableFeeShare", true), Field("DeveloperShares", false), Field("AllowedDenoms", true)]),
     Spec("globalfee", [Field("MinimumGasPricesParam", false)]),
     Spec("wasm", [Field("uploadAccess", true), Field("instantiateAccess", true)])]
  }

  // ---------------------------------------------------------------- reading a subspace

  /** subspacePrefixedKey. */
  function PrefixedKey(name: string, key: string): string { name + "/" + key }

  /** Two subspace keys are equal only for the same subspace and the same key, since module names hold no slash. */
  lemma {:induction false} PrefixedKeysDistinct(a: string, x: string, b: string, y: string)
    requires '/' !in a && '/' !in b
    ensures PrefixedKey(a, x) == PrefixedKey(b, y) ==> a == b && x == y
  {
    var k, l := PrefixedKey(a, x), PrefixedKey(b, y);
    if k == l {
      assert k[|a|] == '/' && l[|b|] == '/';
      assert forall i :: 0 <= i < |a| ==> k[i] == a[i] != '/';
      assert forall i :: 0 <= i < |b| ==> l[i] == b[i] != '/';
      assert |a| == |b|;
      assert k[..|a|] == a && l[..|b|] == b;
      assert k[|a| + 1..] == x && l[|b| + 1..] == y;
    }
  }

  /** aminoGet, with the nil check some fields add: the value to use instead of the default, if any. */
  function Stored(codec: Codec, legacy: Option<Legacy>, mod: string, f: Field): Option<Value> {
    if legacy.None? || PrefixedKey(mod, f.key) !in legacy.value then None
    else
      var bz := legacy.value[PrefixedKey(mod, f.key)];
      if bz == [] then None
      else
        var v := codec.decode(mod, f.key, bz);
        if v == Some(Nil) && !f.acceptsNil then None else v
  }

  /** A parameter struct filled field by field. */
  function Fill(codec: Codec, legacy: Option<Legacy>, mod: string, fields: seq<Field>, p: Params): Params {
    if fields == [] then p
    else
      var n := |fields| - 1;
      var q := Fill(codec, legacy, mod, fields[..n], p);
      var v := Stored(codec, legacy, mod, fields[n]);
      if v.Some? then q[fields[n].key := v.value] else q
  }

  /**
   The legacy store holds a value for the field under its subspace and key: non-empty
   bytes that decode, and not to nil where the field refuses that.
   */
  ghost predicate Usable(codec: Codec, legacy: Option<Legacy>, mod: string, f: Field, v: Value) {
    && legacy.Some? && mod + "/" + f.key in legacy.value
    && var bz := legacy.value[mod + "/" + f.key];
       bz != [] && codec.decode(mod, f.key, bz) == Some(v) && (v != Nil || f.acceptsNil)
  }

  /** The same entry under k, or none. */
  ghost predicate Agree(q: Params, p: Params, k: string) {
    (k in q <==> k in p) && (k in p ==> q[k] == p[k])
  }

  /** The field holds the legacy value if there is a usable one, else what the defaults hold. */
  ghost predicate FieldIs(codec: Codec, legacy: Option<Legacy>, mod: string, f: Field, q: Params, defaults: Params) {
    && (forall v :: Usable(codec, legacy, mod, f, v) ==> f.key in q && q[f.key] == v)
    && ((forall v :: !Usable(codec, legacy, mod, f, v)) ==> Agree(q, defaults, f.key))
  }

  lemma StoredIsUsable(codec: Codec, legacy: Option<Legacy>, mod: string, f: Field)
    ensures forall v :: Usable(codec, legacy, mod, f, v) <==> Stored(codec, legacy, mod, f) == Some(v)
  {
  }

  ghost predicate DistinctKeys(fields: seq<Field>) {
    forall i, j :: 0 <= i < j < |fields| ==> fields[i].key != fields[j].key
  }

  /**
   Each field holds its legacy value if there is a usable one, else the default; every
   other entry is the default's.
   */
  lemma FillMeaning(codec: Codec, legacy: Option<Legacy>, mod: string, fields: seq<Field>, p: Params)
    requires DistinctKeys(fields)
    ensures forall f :: f in fields ==> FieldIs(codec, legacy, mod, f, Fill(codec, legacy, mod, fields, p), p)
    ensures forall k :: (forall i :: 0 <= i < |fields| ==> fields[i].key != k) ==>
              Agree(Fill(codec, legacy, mod, fields, p), p, k)
  {
    hide Stored, Fill, Agree, FieldIs;
    forall k | forall i :: 0 <= i < |fields| ==> fields[i].key != k
      ensures Agree(Fill(codec, legacy, mod, fields, p), p, k)
    {
      FillOther(codec, legacy, mod, fields, p, k);
    }
    forall f | f in fields ensures FieldIs(codec, legacy, mod, f, Fill(codec, legacy, mod, fields, p), p) {
      var i :| 0 <= i < |fields| && fields[i] == f;
      FillField(codec, legacy, mod, fields, p, i);
    }
  }

  lemma {:induction false} FillOther(codec: Codec, legacy: Option<Legacy>, mod: string, fields: seq<Field>, p: Params,
                                     k: string)
    requires forall i :: 0 <= i < |fields| ==> fields[i].key != k
    ensures Agree(Fill(codec, legacy, mod, fields, p), p, k)
  {
    hide Stored;
    if fields != [] { FillOther(codec, legacy, mod, fields[..|fields| - 1], p, k); }
  }

  lemma {:induction false} FillField(codec: Codec, legacy: Option<Legacy>, mod: string, fields: seq<Field>, p: Params,
                                     i: nat)
    requires i < |fields| && DistinctKeys(fields)
    ensures FieldIs(codec, legacy, mod, fields[i], Fill(codec, legacy, mod, fields, p), p)
  {
    hide Stored, Usable;
    var n := |fields| - 1;
    var front := fields[..n];
    StoredIsUsable(codec, legacy, mod, fields[i]);
    if i < n {
      assert front[i] == fields[i];
      FillField(codec, legacy, mod, front, p, i);
    } else {
      FillOther(codec, legacy, mod, front, p, fields[n].key);
      if Stored(codec, legacy, mod, fields[n]).Some? {
        assert Usable(codec, legacy, mod, fields[n], Stored(codec, legacy, mod, fields[n]).value);
      }
    }
  }

  // ---------------------------------------------------------------- one module

  /** The params written so far, and the module whose params its own keeper refused. */
  datatype Step = Wrote(params: map<string, Params>) | Rejected(mod: string, params: map<string, Params>)

  function MigrateModule(codec: Codec, keepers: set<string>, legacy: Option<Legacy>, params: map<string, Params>,
                         s: Spec): Step
  {
    if s.mod !in keepers || s.mod in params then Wrote(params)
    else
      var p := Fill(codec, legacy, s.mod, s.fields, codec.defaults(s.mod));
      if codec.valid(s.mod, p) then Wrote(params[s.mod := p]) else Rejected(s.mod, params)
  }

  function MigrateModules(codec: Codec, keepers: set<string>, legacy: Option<Legacy>, params: map<string, Params>,
                          specs: seq<Spec>): Step
  {
    if specs == [] then Wrote(params)
    else
      var before := MigrateModules(codec, keepers, legacy, params, specs[..|specs| - 1]);
      if before.Rejected? then before
      else MigrateModule(codec, keepers, legacy, before.params, specs[|specs| - 1])
  }

  /** Completed or stopped, the steps change no params that were there and write only modules they are for. */
  lemma {:induction false} MigrationKeepsParams(codec: Codec, keepers: set<string>, legacy: Option<Legacy>,
                                                params: map<string, Params>, specs: seq<Spec>)
    ensures var q := MigrateModules(codec, keepers, legacy, params, specs).params;
            && (forall m :: m in params ==> m in q && q[m] == params[m])
            && (forall m :: m in q ==> m in params || exists i :: 0 <= i < |specs| && specs[i].mod == m)
  {
    if specs != [] {
      hide Fill;
      var n := |specs| - 1;
      MigrationKeepsParams(codec, keepers, legacy, params, specs[..n]);
      var before := MigrateModules(codec, keepers, legacy, params, specs[..n]).params;
      var q := MigrateModules(codec, keepers, legacy, params, specs).params;
      forall m | m in q ensures m in params || exists i :: 0 <= i < |specs| && specs[i].mod == m {
        if m in before && m !in params {
          var i :| 0 <= i < n && specs[..n][i].mod == m;
          assert specs[i].mod == m;
        } else if m !in before {
          assert specs[n].mod == m;
        }
      }
    }
  }

  /** Where the steps stop: at the first module whose params are refused, with exactly the earlier ones written. */
  lemma {:induction false} StopsAt(codec: Codec, keepers: set<string>, legacy: Option<Legacy>,
                                   params: map<string, Params>, specs: seq<Spec>) returns (k: nat)
    requires MigrateModules(codec, keepers, legacy, params, specs).Rejected?
    ensures k < |specs|
    ensures var r := MigrateModules(codec, keepers, legacy, params, specs);
            && r.mod == specs[k].mod && r.mod in keepers && r.mod !in params + r.params
            && MigrateModules(codec, keepers, legacy, params, specs[..k]) == Wrote(r.params)
            && !codec.valid(r.mod, Fill(codec, legacy, r.mod, specs[k].fields, codec.defaults(r.mod)))
  {
    hide Fill;
    var n := |specs| - 1;
    MigrationKeepsParams(codec, keepers, legacy, params, specs[..n]);
    if MigrateModules(codec, keepers, legacy, params, specs[..n]).Rejected? {
      k := StopsAt(codec, keepers, legacy, params, specs[..n]);
      assert specs[..n][..k] == specs[..k];
    } else {
      k := n;
    }
  }

  /** After the steps every module with a keeper has params: its own if it had any, else stored values over defaults. */
  lemma {:induction false} MigratedModules(codec: Codec, keepers: set<string>, legacy: Option<Legacy>,
                                           params: map<string, Params>, specs: seq<Spec>, i: nat)
    requires forall i, j :: 0 <= i < j < |specs| ==> specs[i].mod != specs[j].mod
    requires MigrateModules(codec, keepers, legacy, params, specs).Wrote?
    requires i < |specs| && specs[i].mod in keepers
    ensures var q := MigrateModules(codec, keepers, legacy, params, specs).params;
            var m := specs[i].mod;
            && m in q
            && q[m] == (if m in params then params[m] else Fill(codec, legacy, m, specs[i].fields, codec.defaults(m)))
  {
    hide Fill;
    var n := |specs| - 1;
    var front := specs[..n];
    MigrationKeepsParams(codec, keepers, legacy, params, specs);
    MigrationKeepsParams(codec, keepers, legacy, params, front);
    if i < n {
      assert front[i] == specs[i];
      MigratedModules(codec, keepers, legacy, params, front, i);
    }
  }

  /**
   What the migration leaves in each module it writes, read off the legacy store: every
   field its legacy value or its default, and no entry besides.
   */
  lemma MigratedFields(codec: Codec, keepers: set<string>, legacy: Option<Legacy>, params: map<string, Params>, i: nat)
    requires MigrateModules(codec, keepers, legacy, params, Specs()).Wrote?
    requires i < |Specs()| && Specs()[i].mod in keepers && Specs()[i].mod !in params
    ensures var m, q := Specs()[i].mod, MigrateModules(codec, keepers, legacy, params, Specs()).params;
            && m in q
            && (forall f :: f in Specs()[i].fields ==> FieldIs(codec, legacy, m, f, q[m], codec.defaults(m)))
            && (forall k :: (forall f :: f in Specs()[i].fields ==> f.key != k) ==> Agree(q[m], codec.defaults(m), k))
  {
    hide MigrateModules, Fill, FieldIs, Agree;
    SpecsDistinct();
    SpecKeysDistinct(i);
    MigratedModules(codec, keepers, legacy, params, Specs(), i);
    FillMeaning(codec, legacy, Specs()[i].mod, Specs()[i].fields, codec.defaults(Specs()[i].mod));
  }

  /** The subspace keys the removed module may have left, and whether a nil value is refused. */
  function LegacyKeys(): seq<(string, string, bool)> {
    [("tokenfactory", "DenomCreationFee", true), ("tokenfactory", "DenomCreationGasConsume", false),
     ("smartaccount", "MaximumUnauthenticatedGas", false), ("smartaccount", "IsSmartAccountActive", false),
     ("smartaccount", "CircuitBreakerControllers", false),
     ("feeshare", "EnableFeeShare", false), ("feeshare", "DeveloperShares", true), ("feeshare", "AllowedDenoms", false),
     ("globalfee", "MinimumGasPricesParam", true),
     ("wasm", "uploadAccess", false), ("wasm", "instantiateAccess", false)]
  }

  /**
   No leftover value is lost: whatever a legacy key holds that decodes ends up in its
   module, unless the module already had params; a nil where it is refused, or nothing
   usable, leaves the default.
   */
  lemma LegacyKeyLands(codec: Codec, keepers: set<string>, legacy: Legacy, params: map<string, Params>, k: nat)
    requires k < |LegacyKeys()| && MigrateModules(codec, keepers, Some(legacy), params, Specs()).Wrote?
    requires LegacyKeys()[k].0 in keepers && LegacyKeys()[k].0 !in params
    ensures var (m, key, refusesNil) := LegacyKeys()[k];
            var q := MigrateModules(codec, keepers, Some(legacy), params, Specs()).params;
            var at := m + "/" + key;
            && m in q
            && (if at in legacy && legacy[at] != [] && codec.decode(m, key, legacy[at]).Some?
                   && !(refusesNil && codec.decode(m, key, legacy[at]) == Some(Nil))
                then key in q[m] && q[m][key] == codec.decode(m, key, legacy[at]).value
                else Agree(q[m], codec.defaults(m), key))
  {
    hide MigrateModules, Agree;
    var (m, key, refusesNil) := LegacyKeys()[k];
    var i, f := SpecOf(k);
    MigratedFields(codec, keepers, Some(legacy), params, i);
    var at := m + "/" + key;
    if at in legacy && legacy[at] != [] && codec.decode(m, key, legacy[at]).Some? {
      var v := codec.decode(m, key, legacy[at]).value;
      assert v != Nil || !refusesNil ==> Usable(codec, Some(legacy), m, f, v);
    }
  }

  lemma SpecOf(k: nat) returns (i: nat, f: Field)
    requires k < |LegacyKeys()|
    ensures i < |Specs()| && f in Specs()[i].fields
    ensures LegacyKeys()[k] == (Specs()[i].mod, f.key, !f.acceptsNil)
  {
    i := if k < 2 then 0 else if k < 5 then 1 else if k < 8 then 2 else if k < 9 then 3 else 4;
    var j := k - (if k < 2 then 0 else if k < 5 then 2 else if k < 8 then 5 else if k < 9 then 8 else 9);
    f := Specs()[i].fields[j];
  }

  lemma SpecKeysDistinct(i: nat)
    requires i < |Specs()|
    ensures DistinctKeys(Specs()[i].fields)
  {
  }

  /** When every module with a keeper already has params the steps change nothing, whatever the legacy store holds. */
  lemma {:induction false} SettledModules(codec: Codec, keepers: set<string>, legacy: Option<Legacy>,
                                          params: map<string, Params>, specs: seq<Spec>)
    requires forall i :: 0 <= i < |specs| && specs[i].mod in keepers ==> specs[i].mod in params
    ensures MigrateModules(codec, keepers, legacy, params, specs) == Wrote(params)
  {
    if specs != [] {
      var n := |specs| - 1;
      assert forall i :: 0 <= i < n ==> specs[..n][i] == specs[i];
      SettledModules(codec, keepers, legacy, params, specs[..n]);
    }
  }

  lemma SpecsDistinct()
    ensures forall i, j :: 0 <= i < j < |Specs()| ==> Specs()[i].mod != Specs()[j].mod
  {
    var s := Specs();
    assert s[0].mod[0] == 't' && s[1].mod[0] == 's' && s[2].mod[0] == 'f' && s[3].mod[0] == 'g' && s[4].mod[0] == 'w';
  }

  // ---------------------------------------------------------------- the whole migration

  datatype Result = Migrated(removed: nat) | Failed(mod: string) | Panicked(mod: string)

  function Keys(ks: seq<string>): set<string> { set k | k in ks }

  lemma DropOne(all: Legacy, ks: seq<string>, i: nat)
    requires i < |ks|
    ensures all - Keys(ks[..i + 1]) == all - Keys(ks[..i]) - {ks[i]}
  {
    assert ks[..i + 1] == ks[..i] + [ks[i]];
  }

  method CollectKeys(names: set<string>) returns (keys: seq<string>)
    ensures Keys(keys) == names && |keys| == |names|
  {
    keys := [];
    var rest := names;
    while rest != {}
      invariant rest <= names && Keys(keys) == names - rest
      invariant |keys| + |rest| == |names|
      decreases rest
    {
      var k :| k in rest;
      KeysSnoc(keys, k);
      keys := keys + [k];
      rest := rest - {k};
    }
  }

  lemma KeysSnoc(ks: seq<string>, k: string)
    ensures Keys(ks + [k]) == Keys(ks) + {k}
  {
  }

  class Migration {
    const codec: Codec
    const keepers: set<string>
    var legacy: Option<Legacy>
    var params: map<string, Params>

    constructor (codec: Codec, keepers: set<string>, legacy: Option<Legacy>, params: map<string, Params>)
      ensures this.codec == codec && this.keepers == keepers && this.legacy == legacy && this.params == params
    {
      this.codec, this.keepers, this.legacy, this.params := codec, keepers, legacy, params;
    }

    /** One module's step, filling its params field by field. */
    method MigrateOne(s: Spec) returns (err: bool)
      modifies this`params
      ensures match MigrateModule(codec, keepers, legacy, old(params), s)
              case Wrote(q) => !err && params == q
              case Rejected(m, q) => err && m == s.mod && params == q == old(params)
    {
      if s.mod !in keepers || s.mod in params {
        return false;
      }
      var p := codec.defaults(s.mod);
      assert s.fields[..0] == [];
      for i := 0 to |s.fields|
        invariant p == Fill(codec, legacy, s.mod, s.fields[..i], codec.defaults(s.mod))
        invariant params == old(params)
      {
        assert s.fields[..i + 1][..i] == s.fields[..i];
        var v := Stored(codec, legacy, s.mod, s.fields[i]);
        if v.Some? {
          p := p[s.fields[i].key := v.value];
        }
      }
      assert s.fields[..|s.fields|] == s.fields;
      if !codec.valid(s.mod, p) {
        return true;
      }
      params := params[s.mod := p];
      err := false;
    }

    /** wipeStore: collect the keys, then delete them. */
    method WipeStore() returns (n: nat)
      modifies this`legacy
      ensures legacy == (if old(legacy).None? then None else Some(map[]))
      ensures n == if old(legacy).None? then 0 else |old(legacy).value|
    {
      if legacy.None? {
        return 0;
      }
      var keys := CollectKeys(legacy.value.Keys);
      ghost var all := legacy.value;
      assert all - Keys(keys[..0]) == all;
      for i := 0 to |keys|
        invariant legacy == Some(all - Keys(keys[..i]))
      {
        DropOne(all, keys, i);
        legacy := Some(legacy.value - {keys[i]});
      }
      assert keys[..|keys|] == keys && Keys(keys) == all.Keys;
      assert all - all.Keys == map[];
      n := |keys|;
    }

    /**
     migrateLegacyParams; hashOk is the outcome of the hashmerchant step, which reads
     no subspace. All or nothing on the legacy store: on success it is empty, on any
     error or panic it is what it was. Module params are those of the steps up to the
     one that stopped; the first two modules panic on params they refuse, the others
     return an error.
     */
    method MigrateLegacyParams(hashOk: bool) returns (r: Result)
      modifies this
      ensures r.Migrated? <==> MigrateModules(codec, keepers, old(legacy), old(params), Specs()).Wrote? && hashOk
      ensures params == MigrateModules(codec, keepers, old(legacy), old(params), Specs()).params
      ensures r.Migrated? ==>
                && legacy == (if old(legacy).None? then None else Some(map[]))
                && r.removed == (if old(legacy).None? then 0 else |old(legacy).value|)
      ensures !r.Migrated? ==>
                var steps := MigrateModules(codec, keepers, old(legacy), old(params), Specs());
                && legacy == old(legacy)
                && r.mod == (if steps.Rejected? then steps.mod else "hashmerchant")
                && (r.Panicked? <==> steps.Rejected? && steps.mod in {Specs()[0].mod, Specs()[1].mod})
    {
      hide MigrateModule;
      var specs := Specs();
      StepsUnrolled(codec, keepers, legacy, params);
      SpecsDistinct();
      var err := MigrateOne(specs[0]);
      if err {
        return Panicked(specs[0].mod);
      }
      err := MigrateOne(specs[1]);
      if err {
        return Panicked(specs[1].mod);
      }
      err := MigrateOne(specs[2]);
      if err {
        return Failed(specs[2].mod);
      }
      err := MigrateOne(specs[3]);
      if err {
        return Failed(specs[3].mod);
      }
      err := MigrateOne(specs[4]);
      if err {
        return Failed(specs[4].mod);
      }
      if !hashOk {
        return Failed("hashmerchant");
      }
      var n := WipeStore();
      r := Migrated(n);
    }
  }

  /** The five calls in sequence. */
  function FiveSteps(codec: Codec, keepers: set<string>, legacy: Option<Legacy>, p: map<string, Params>): Step {
    var s := Specs();
    var a := MigrateModule(codec, keepers, legacy, p, s[0]);
    if a.Rejected? then a
    else
      var b := MigrateModule(codec, keepers, legacy, a.params, s[1]);
      if b.Rejected? then b
      else
        var c := MigrateModule(codec, keepers, legacy, b.params, s[2]);
        if c.Rejected? then c
        else
          var d := MigrateModule(codec, keepers, legacy, c.params, s[3]);
          if d.Rejected? then d else MigrateModule(codec, keepers, legacy, d.params, s[4])
  }

  lemma StepsUnrolled(codec: Codec, keepers: set<string>, legacy: Option<Legacy>, p: map<string, Params>)
    ensures MigrateModules(codec, keepers, legacy, p, Specs()) == FiveSteps(codec, keepers, legacy, p)
  {
    hide MigrateModule, MigrateModules;
    var s := Specs();
    assert s[..5] == s;
    StepSnoc(codec, keepers, legacy, p, s, 0);
    StepSnoc(codec, keepers, legacy, p, s, 1);
    StepSnoc(codec, keepers, legacy, p, s, 2);
    StepSnoc(codec, keepers, legacy, p, s, 3);
    StepSnoc(codec, keepers, legacy, p, s, 4);
  }

  lemma StepSnoc(codec: Codec, keepers: set<string>, legacy: Option<Legacy>, p: map<string, Params>, s: seq<Spec>,
                 i: nat)
    requires i < |s|
    ensures MigrateModules(codec, keepers, legacy, p, s[..0]) == Wrote(p)
    ensures var before := MigrateModules(codec, keepers, legacy, p, s[..i]);
            MigrateModules(codec, keepers, legacy, p, s[..i + 1]) ==
            if before.Rejected? then before else MigrateModule(codec, keepers, legacy, before.params, s[i])
  {
    hide MigrateModule;
    assert s[..i + 1][..i] == s[..i];
  }

  /**
   Running the migration again, on the store the first run wiped, finds nothing to
   do: it writes no module and cannot be rejected.
   */
  lemma MigrationIdempotent(codec: Codec, keepers: set<string>, legacy: Option<Legacy>, params: map<string, Params>,
                            again: Option<Legacy>)
    requires MigrateModules(codec, keepers, legacy, params, Specs()).Wrote?
    ensures var q := MigrateModules(codec, keepers, legacy, params, Specs()).params;
            MigrateModules(codec, keepers, again, q, Specs()) == Wrote(q)
  {
    hide MigrateModules;
    SpecsDistinct();
    var q := MigrateModules(codec, keepers, legacy, params, Specs()).params;
    forall i | 0 <= i < |Specs()| && Specs()[i].mod in keepers ensures Specs()[i].mod in q {
      MigratedModules(codec, keepers, legacy, params, Specs(), i);
    }
    SettledModules(codec, keepers, again, MigrateModules(codec, keepers, legacy, params, Specs()).params, Specs());
  }
}
