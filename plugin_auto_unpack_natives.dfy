/** The auto-unpack-natives plugin: a `resolveForgeConfig` hook that
    rewrites `packagerConfig.asar.unpack` of the resolved configuration in
    place so that native `.node` modules stay outside the asar archive. */
module AutoUnpackNatives {
  import opened Values
  import opened ForgeConfig

  const PackagerConfigKey := "packagerConfig"
  const AsarKey := "asar"
  const UnpackKey := "unpack"
  const ResolveForgeConfigHook := "resolveForgeConfig"

  /** The glob matching native modules. */
  const NativeGlob := "**/*.node"

  /** The only hook the plugin provides. */
  datatype Hook = Resolver

  /** `getHook`: the resolver for `resolveForgeConfig`, `null` otherwise. */
  function GetHook(name: string): (h: Option<Hook>)
    ensures h.Some? <==> name == ResolveForgeConfigHook
  {
    if name == ResolveForgeConfigHook then Some(Resolver) else None
  }

  /** `AsarRequired` is the "requires asar to be truthy or an object" error.
      `AsarNotObject` is the TypeError a strict-mode assignment of `unpack`
      raises on a truthy `asar` that cannot hold properties. */
  datatype UnpackError = AsarRequired | AsarNotObject

  /** The new `unpack` pattern: the existing pattern combined with the
      native glob in a brace alternation, or the native glob alone. */
  function NewUnpack(existing: Value): (u: string)
  {
    if Truthy(existing) then "{" + Display(existing) + "," + NativeGlob + "}" else NativeGlob
  }

  /** The new pattern always matches native modules, and keeps a truthy
      existing pattern as the first alternative. */
  lemma NewUnpackKeepsExisting(existing: Value)
    ensures var u := NewUnpack(existing);
      |u| >= |NativeGlob| &&
      (Truthy(existing) ==>
        u[..1] == "{" && u[1..1 + |Display(existing)|] == Display(existing) &&
        u[1 + |Display(existing)|..] == "," + NativeGlob + "}") &&
      (!Truthy(existing) ==> u == NativeGlob)
  {
    if Truthy(existing) {
      var d := Display(existing);
      var u := NewUnpack(existing);
      assert u == ("{" + d) + ("," + NativeGlob + "}");
      assert u[..1] == "{";
    }
  }

  function PackagerConfigPath(): seq<string> { [PackagerConfigKey] }
  function AsarPath(): seq<string> { [PackagerConfigKey, AsarKey] }
  function UnpackPath(): seq<string> { [PackagerConfigKey, AsarKey, UnpackKey] }

  /** A path of two keys that reads a defined value runs through stored
      records. */
  lemma DefinedPair(f: map<string, Value>, a: string, b: string)
    requires Lookup(f, [a, b]) != Undefined
    ensures Stored(f, [a]) && Lookup(f, [a]).Record? && b in Lookup(f, [a]).fields
    ensures CanSet(f, [a, b]) && Stored(f, [a, b])
  {
    assert [a, b][..1] == [a];
    assert [a][..0] == [];
    assert LookupIn(Record(f), [a][..0]) == Record(f);
    assert Lookup(f, [a]) == Field(Record(f), a);
    assert Lookup(f, [a, b]) == Field(Lookup(f, [a]), b);
    assert Lookup(f, [a][..0]) == Record(f) && a in f;
    assert Stored(f, [a][..0]);
  }

  /** The first step: a falsy `packagerConfig` becomes `{}`. */
  function WithPackagerConfig(f: map<string, Value>): map<string, Value>
  {
    assert CanSet(f, PackagerConfigPath()) by { assert PackagerConfigPath()[..0] == []; }
    if Truthy(Lookup(f, PackagerConfigPath())) then f else SetAt(f, PackagerConfigPath(), Record(map[]))
  }

  /** The second step, once `asar` is truthy: `true` becomes `{}`. */
  function WithAsarObject(f1: map<string, Value>): map<string, Value>
    requires Truthy(Lookup(f1, AsarPath()))
  {
    DefinedPair(f1, PackagerConfigKey, AsarKey);
    if Lookup(f1, AsarPath()) == Bool(true) then SetAt(f1, AsarPath(), Record(map[])) else f1
  }

  /** After the second step `unpack` can be assigned whenever `asar` is a
      record. */
  lemma UnpackSettable(f1: map<string, Value>)
    requires Truthy(Lookup(f1, AsarPath()))
    requires Lookup(WithAsarObject(f1), AsarPath()).Record?
    ensures CanSet(WithAsarObject(f1), UnpackPath())
  {
    DefinedPair(f1, PackagerConfigKey, AsarKey);
    if Lookup(f1, AsarPath()) == Bool(true) {
      SetThenLookup(f1, AsarPath(), Record(map[]));
    }
    assert UnpackPath()[..2] == AsarPath();
  }

  /** The error and the stored configuration after the hook has run on the
      stored configuration `f`. Changes made before an error persist. */
  function Outcome(f: map<string, Value>): (Option<UnpackError>, map<string, Value>)
  {
    var f1 := WithPackagerConfig(f);
    if !Truthy(Lookup(f1, AsarPath())) then (Some(AsarRequired), f1)
    else
      var f2 := WithAsarObject(f1);
      var asar := Lookup(f2, AsarPath());
      if !asar.Record? then (Some(AsarNotObject), f2)
      else
        UnpackSettable(f1);
        (None, SetAt(f2, UnpackPath(), Str(NewUnpack(Field(asar, UnpackKey)))))
  }

  /** The error cases: a falsy `asar` (a missing or falsy `packagerConfig`
      included) is refused; `true` and records are accepted; any other truthy
      value cannot hold `unpack`. */
  lemma OutcomeErrors(f: map<string, Value>)
    ensures var asar := Lookup(f, AsarPath());
      (Outcome(f).0 == Some(AsarRequired) <==> !Truthy(asar)) &&
      (Outcome(f).0 == Some(AsarNotObject) <==> Truthy(asar) && asar != Bool(true) && !asar.Record?) &&
      (Outcome(f).0 == None <==> asar == Bool(true) || asar.Record?)
  {
    AsarAfterFirstStep(f);
    var f1 := WithPackagerConfig(f);
    if Lookup(f1, AsarPath()) == Bool(true) {
      DefinedPair(f1, PackagerConfigKey, AsarKey);
      SetThenLookup(f1, AsarPath(), Record(map[]));
    }
  }

  /** Replacing a falsy `packagerConfig` by `{}` leaves `asar` reading
      `undefined`, as before. */
  lemma AsarAfterFirstStep(f: map<string, Value>)
    ensures Lookup(WithPackagerConfig(f), AsarPath()) == Lookup(f, AsarPath())
  {
    assert AsarPath()[..1] == PackagerConfigPath();
    if !Truthy(Lookup(f, PackagerConfigPath())) {
      SetThenLookup(f, PackagerConfigPath(), Record(map[]));
    }
  }

  /** A missing or falsy `packagerConfig` is set to `{}` before `asar` is
      refused, and the shared configuration keeps that `{}`. */
  lemma MissingPackagerConfigBecomesEmpty(f: map<string, Value>)
    requires !Truthy(Lookup(f, PackagerConfigPath()))
    ensures Outcome(f).0 == Some(AsarRequired)
    ensures Lookup(Outcome(f).1, PackagerConfigPath()) == Record(map[])
  {
    AsarAfterFirstStep(f);
    SetThenLookup(f, PackagerConfigPath(), Record(map[]));
    assert AsarPath()[..1] == PackagerConfigPath();
    assert Lookup(f, AsarPath()) == Undefined;
  }

  /** On success `asar` is a record whose `unpack` is the combined pattern
      built from the previous `unpack` (`true` counts as an empty record). */
  lemma OutcomeUnpack(f: map<string, Value>)
    requires Outcome(f).0 == None
    ensures var asar := Lookup(f, AsarPath());
      Lookup(Outcome(f).1, UnpackPath()) == Str(NewUnpack(Field(asar, UnpackKey))) &&
      Lookup(Outcome(f).1, AsarPath()).Record?
  {
    AsarAfterFirstStep(f);
    var f1 := WithPackagerConfig(f);
    DefinedPair(f1, PackagerConfigKey, AsarKey);
    if Lookup(f1, AsarPath()) == Bool(true) {
      SetThenLookup(f1, AsarPath(), Record(map[]));
    }
    var f2 := WithAsarObject(f1);
    UnpackSettable(f1);
    var u := Str(NewUnpack(Field(Lookup(f2, AsarPath()), UnpackKey)));
    SetThenLookup(f2, UnpackPath(), u);
    assert UnpackPath()[..2] == AsarPath();
    SetAtAlongPath(f2, UnpackPath(), u, 2);
  }

  /** Top-level fields other than `packagerConfig` are left alone, both as
      stored and as read through the environment layer. */
  lemma OutcomeLeavesOtherFields(f: map<string, Value>, env: map<string, string>, q: seq<string>)
    requires q != [] && q[0] != PackagerConfigKey
    ensures Lookup(Outcome(f).1, q) == Lookup(f, q)
    ensures Get(env, Outcome(f).1, q) == Get(env, f, q)
  {
    assert q[..0] == AsarPath()[..0] == UnpackPath()[..0] == PackagerConfigPath()[..0];
    var f1 := WithPackagerConfig(f);
    if !Truthy(Lookup(f, PackagerConfigPath())) {
      SetLeavesOthers(env, f, PackagerConfigPath(), Record(map[]), q, 0);
    }
    var asar := Lookup(f1, AsarPath());
    if Truthy(asar) {
      DefinedPair(f1, PackagerConfigKey, AsarKey);
      if asar == Bool(true) {
        SetLeavesOthers(env, f1, AsarPath(), Record(map[]), q, 0);
      }
      var f2 := WithAsarObject(f1);
      var asar2 := Lookup(f2, AsarPath());
      if asar2.Record? {
        UnpackSettable(f1);
        var u := Str(NewUnpack(Field(asar2, UnpackKey)));
        SetLeavesOthers(env, f2, UnpackPath(), u, q, 0);
      }
    }
  }

  /** Inside an existing `packagerConfig` record, fields other than `asar`
      are left alone. */
  lemma OutcomeLeavesPackagerFields(f: map<string, Value>, env: map<string, string>, q: seq<string>)
    requires |q| >= 2 && q[0] == PackagerConfigKey && q[1] != AsarKey
    requires Lookup(f, PackagerConfigPath()).Record?
    ensures Lookup(Outcome(f).1, q) == Lookup(f, q)
    ensures Get(env, Outcome(f).1, q) == Get(env, f, q)
  {
    assert q[..1] == AsarPath()[..1] == UnpackPath()[..1];
    var f1 := WithPackagerConfig(f);
    assert f1 == f;
    var asar := Lookup(f1, AsarPath());
    if Truthy(asar) {
      DefinedPair(f1, PackagerConfigKey, AsarKey);
      if asar == Bool(true) {
        SetLeavesOthers(env, f1, AsarPath(), Record(map[]), q, 1);
      }
      var f2 := WithAsarObject(f1);
      var asar2 := Lookup(f2, AsarPath());
      if asar2.Record? {
        UnpackSettable(f1);
        var u := Str(NewUnpack(Field(asar2, UnpackKey)));
        SetLeavesOthers(env, f2, UnpackPath(), u, q, 1);
      }
    }
  }

  /** Inside an existing `asar` record, fields other than `unpack` are
      left alone. */
  lemma OutcomeLeavesAsarFields(f: map<string, Value>, env: map<string, string>, q: seq<string>)
    requires |q| >= 3 && q[0] == PackagerConfigKey && q[1] == AsarKey && q[2] != UnpackKey
    requires Lookup(f, AsarPath()).Record?
    ensures Lookup(Outcome(f).1, q) == Lookup(f, q)
    ensures Get(env, Outcome(f).1, q) == Get(env, f, q)
  {
    DefinedPair(f, PackagerConfigKey, AsarKey);
    assert WithPackagerConfig(f) == f;
    assert WithAsarObject(f) == f;
    UnpackSettable(f);
    assert q[..2] == UnpackPath()[..2];
    var u := Str(NewUnpack(Field(Lookup(f, AsarPath()), UnpackKey)));
    SetLeavesOthers(env, f, UnpackPath(), u, q, 2);
  }

  /** `resolveForgeConfig`: mutates the shared configuration in place,
      step by step, and reports the error it throws. */
  method ResolveForgeConfig(config: ResolvedConfig) returns (err: Option<UnpackError>)
    modifies config
    ensures (err, config.fields) == Outcome(old(config.fields))
  {
    ghost var f := config.fields;
    var ok: bool;
    if !Truthy(Lookup(config.fields, PackagerConfigPath())) {
      ok := config.Set(PackagerConfigPath(), Record(map[]));
      assert PackagerConfigPath()[..0] == [];
    }
    ghost var f1 := config.fields;
    assert f1 == WithPackagerConfig(f);
    var asar := Lookup(config.fields, AsarPath());
    if !Truthy(asar) {
      return Some(AsarRequired);
    }
    DefinedPair(config.fields, PackagerConfigKey, AsarKey);
    if asar == Bool(true) {
      ok := config.Set(AsarPath(), Record(map[]));
    }
    assert config.fields == WithAsarObject(f1);
    asar := Lookup(config.fields, AsarPath());
    if !asar.Record? {
      return Some(AsarNotObject);
    }
    UnpackSettable(f1);
    ok := config.Set(UnpackPath(), Str(NewUnpack(Field(asar, UnpackKey))));
    err := None;
  }
}
