/** The `nbTokenConfig` provider: a configuration object holding the path
    delimiter (`:`) and the default token tree, whose `set(values)`
    replaces it by a merge of the old configuration and `values` into a
    fresh object. The src build merges shallowly with `angular.extend`; the
    dist build merges deeply with its own `extend`. */
module NbTokenConfig {

  import opened OrderedMap
  import opened JsValue
  import opened JqExtend

  /** `{delimiter: ':', defaults: {site: {name: undefined, slogan: undefined}}}` */
  function InitialConfig(): Value
  {
    Obj(Plain, [
      ("delimiter", Str(":")),
      ("defaults", Obj(Plain, [("site", Obj(Plain, [("name", Undef), ("slogan", Undef)]))]))])
  }

  /** The own enumerable keys of an object or an array, with their values. */
  function OwnEntries(v: Value): seq<(string, Value)>
  {
    match v
    case Obj(_, ms) => ms
    case Arr(items) => Indexed(items)
    case _ => []
  }

  /** `angular.extend(dst, srcs...)`: every key of every source that is an
      object is assigned into `dst`, `undefined` values included; other
      sources are skipped. angular.extend itself is not part of this model;
      it is modelled on AngularJS 1.x. */
  function AngularExtend(dst: Value, srcs: seq<Value>): (r: Value)
    requires dst.Obj?
    ensures r.Obj? && r.kind == dst.kind
    decreases |srcs|
  {
    if srcs == [] then dst
    else
      var next := if IsObject(srcs[0]) then Obj(dst.kind, Merge(dst.members, OwnEntries(srcs[0]))) else dst;
      AngularExtend(next, srcs[1..])
  }

  /** The src build's provider. */
  class ConfigProvider {
    var config: Value

    constructor()
      ensures config == InitialConfig()
    {
      config := InitialConfig();
    }

    /** `set(values)`: `config = angular.extend({}, config, values)`. */
    method Set(values: Value)
      modifies this
      ensures config == AngularExtend(EmptyObject(), [old(config), values])
    {
      config := AngularExtend(EmptyObject(), [config, values]);
    }

    /** `$get()` */
    method Get() returns (r: Value)
      ensures r == config
    {
      r := config;
    }
  }

  /** The dist build's provider. `mode` is the target check of the bundled
      `extend`: `AsWritten` is the build as it stands, `AsJQuery` the
      corrected one. */
  class DeepConfigProvider {
    var config: Value
    const mode: TargetCheck

    constructor(mode: TargetCheck)
      ensures config == InitialConfig() && this.mode == mode
    {
      config := InitialConfig();
      this.mode := mode;
    }

    /** `set(values)`: `config = extend(true, {}, config, values)`. */
    method Set(values: Value)
      modifies this
      ensures config == ExtendSpec(mode, [Bool(true), EmptyObject(), old(config), values])
    {
      config := Extend(mode, [Bool(true), EmptyObject(), config, values]);
    }

    /** `$get()` */
    method Get() returns (r: Value)
      ensures r == config
    {
      r := config;
    }
  }

  // ---------------------------------------------------------------------
  // Properties of the shallow merge

  /** After the src `set`, each top-level key holds the new value when
      `values` has the key (even `undefined`) and the old value otherwise:
      a section given in `values` replaces the old one whole. */
  lemma ShallowSet(c: Value, v: Value, k: string)
    requires c.Obj? && v.Obj? && UniqueKeys(c.members) && UniqueKeys(v.members)
    ensures Child(AngularExtend(EmptyObject(), [c, v]), k)
         == if HasKey(v.members, k) then Lookup(v.members, k) else Child(c, k)
  {
    var m1 := Merge([], c.members);
    var m2 := Merge(m1, v.members);
    assert [c, v][1..] == [v] && [v][1..] == [];
    assert OwnEntries(c) == c.members && OwnEntries(v) == v.members;
    assert AngularExtend(Obj(Plain, m2), []) == Obj(Plain, m2);
    assert AngularExtend(Obj(Plain, m1), [v]) == Obj(Plain, m2);
    assert AngularExtend(EmptyObject(), [c, v]) == Obj(Plain, m2);
    MergeFind(m1, v.members, k);
    FindLastUnique(v.members, k);
    MergeFind([], c.members, k);
    FindLastUnique(c.members, k);
  }

  /** A `values` argument that is not an object leaves the src `set` a copy
      of the old configuration: the configuration itself when it is a plain
      object with distinct keys, as the provider's always is. */
  lemma ShallowSetSkipsNonObject(c: Value, v: Value)
    requires c.Obj? && !IsObject(v)
    ensures AngularExtend(EmptyObject(), [c, v]) == AngularExtend(EmptyObject(), [c])
    ensures c.kind == Plain && UniqueKeys(c.members) ==> AngularExtend(EmptyObject(), [c, v]) == c
  {
    var first := Obj(Plain, Merge([], c.members));
    assert [c, v][1..] == [v] && [v][1..] == [];
    assert [c][1..] == [];
    assert AngularExtend(first, [v]) == first;
    assert AngularExtend(EmptyObject(), [c, v]) == first;
    if c.kind == Plain && UniqueKeys(c.members) {
      MergeFresh([], c.members);
      assert [] + c.members == c.members;
    }
  }

  // ---------------------------------------------------------------------
  // Properties of the deep merge

  /** `c` keeps the value at path `p` through a merge of `v`: `c` supplies
      it, and `v` lacks a key on the way or has plain objects up to there. */
  predicate KeptBy(c: Value, v: Value, p: seq<string>)
    decreases |p|
  {
    Supplies(c, p) && IsPlainObject(v) && UniqueKeys(v.members)
    && (Child(v, p[0]) == Undef
        || (|p| > 1 && IsPlainObject(Child(v, p[0])) && KeptBy(Child(c, p[0]), Child(v, p[0]), p[1..])))
  }

  /** Merging `c` and then `v` deeply into an object keeps every value of
      `c` that `v` does not reach. */
  lemma {:induction false} DeepKeeps(mode: TargetCheck, t: Value, c: Value, v: Value, p: seq<string>)
    requires t.Obj? && KeptBy(c, v, p)
    ensures Walk(MergeSource(mode, true, MergeSource(mode, true, t, c), v), p) == Walk(c, p)
    decreases |p|
  {
    var m1 := MergeSource(mode, true, t, c);
    ChildAfterMerge(mode, true, m1, v, p[0]);
    ChildAfterMerge(mode, true, t, c, p[0]);
    if Child(v, p[0]) == Undef {
      SuppliedWins(mode, t, c, p);
    } else {
      var cc := Child(c, p[0]);
      var t' := Normalize(mode, CloneFor(Child(t, p[0]), cc));
      DeepKeeps(mode, t', cc, Child(v, p[0]), p[1..]);
    }
  }

  /** The dist `set`: values given win, values not given survive, however
      deep. */
  lemma DeepSet(mode: TargetCheck, c: Value, v: Value, p: seq<string>)
    requires IsPlainObject(c) && IsPlainObject(v)
    ensures Supplies(v, p) ==>
      Walk(ExtendSpec(mode, [Bool(true), EmptyObject(), c, v]), p) == Walk(v, p)
    ensures KeptBy(c, v, p) ==>
      Walk(ExtendSpec(mode, [Bool(true), EmptyObject(), c, v]), p) == Walk(c, p)
  {
    ExtendDeepIntoEmpty(mode, c, v);
    var m1 := MergeSource(mode, true, EmptyObject(), c);
    if Supplies(v, p) {
      SuppliedWins(mode, m1, v, p);
    }
    if KeptBy(c, v, p) {
      DeepKeeps(mode, EmptyObject(), c, v, p);
    }
  }

  /** The dist `set` drops the members that hold `undefined`: even with no
      new values, `defaults.site` loses its `name` and `slogan` keys. */
  lemma DeepSetDropsUndefined(mode: TargetCheck)
    ensures ExtendSpec(mode, [Bool(true), EmptyObject(), InitialConfig(), EmptyObject()])
         == Obj(Plain, [("delimiter", Str(":")), ("defaults", Obj(Plain, [("site", EmptyObject())]))])
  {
    ExtendDeepIntoEmpty(mode, InitialConfig(), EmptyObject());
    var copied := CopyInitialConfig(mode);
    assert MergeSource(mode, true, copied, EmptyObject()) == copied;
  }

  lemma CopyInitialConfig(mode: TargetCheck) returns (r: Value)
    ensures r == Obj(Plain, [("delimiter", Str(":")), ("defaults", Obj(Plain, [("site", EmptyObject())]))])
    ensures MergeSource(mode, true, EmptyObject(), InitialConfig()) == r
  {
    var ic := InitialConfig();
    var withDelimiter := CopyDelimiter(mode);
    r := CopyDefaultsKey(mode, withDelimiter);
    assert MergePrefix(mode, true, EmptyObject(), ic, 2)
        == MergeKey(mode, true, withDelimiter, "defaults", ic.members[1].1);
  }

  lemma CopyDefaultsKey(mode: TargetCheck, withDelimiter: Value) returns (r: Value)
    requires withDelimiter == Obj(Plain, [("delimiter", Str(":"))])
    ensures r == Obj(Plain, [("delimiter", Str(":")), ("defaults", Obj(Plain, [("site", EmptyObject())]))])
    ensures MergeKey(mode, true, withDelimiter, "defaults", InitialConfig().members[1].1) == r
  {
    var defaults := InitialConfig().members[1].1;
    var copiedDefaults := CopyDefaults(mode);
    assert Child(withDelimiter, "defaults") == Undef;
    assert Normalize(mode, CloneFor(Undef, defaults)) == EmptyObject();
    assert MergeKey(mode, true, withDelimiter, "defaults", defaults)
        == SetChild(withDelimiter, "defaults", copiedDefaults);
    PutFresh(withDelimiter.members, "defaults", copiedDefaults);
    r := Obj(Plain, [("delimiter", Str(":")), ("defaults", copiedDefaults)]);
  }

  lemma CopyDelimiter(mode: TargetCheck) returns (r: Value)
    ensures r == Obj(Plain, [("delimiter", Str(":"))])
    ensures MergePrefix(mode, true, EmptyObject(), InitialConfig(), 1) == r
  {
    r := Obj(Plain, [("delimiter", Str(":"))]);
    assert MergePrefix(mode, true, EmptyObject(), InitialConfig(), 0) == EmptyObject();
  }

  lemma CopyDefaults(mode: TargetCheck) returns (r: Value)
    ensures r == Obj(Plain, [("site", EmptyObject())])
    ensures MergeSource(mode, true, EmptyObject(), InitialConfig().members[1].1) == r
  {
    var site := Obj(Plain, [("name", Undef), ("slogan", Undef)]);
    assert InitialConfig().members[1].1 == Obj(Plain, [("site", site)]);
    SingleMember(mode, EmptyObject(), "site", site);
    assert Normalize(mode, CloneFor(Undef, site)) == EmptyObject();
    CopyUndefinedSite(mode, site);
    r := Obj(Plain, [("site", EmptyObject())]);
    assert MergeKey(mode, true, EmptyObject(), "site", site) == SetChild(EmptyObject(), "site", EmptyObject());
  }

  /** `{name: undefined, slogan: undefined}` copies nothing. */
  lemma CopyUndefinedSite(mode: TargetCheck, site: Value)
    requires site == Obj(Plain, [("name", Undef), ("slogan", Undef)])
    ensures MergeSource(mode, true, EmptyObject(), site) == EmptyObject()
  {
    assert MergePrefix(mode, true, EmptyObject(), site, 0) == EmptyObject();
    assert MergePrefix(mode, true, EmptyObject(), site, 1) == EmptyObject();
  }

  /** As the dist build stands, an array given to `set` is stored as an
      object keyed by index strings: `set({tags: ['a', 'b']})` stores
      `tags: {"0": 'a', "1": 'b'}` rather than an array. */
  lemma DeepSetStoresArrayAsObject()
    ensures Child(ExtendSpec(AsWritten, [Bool(true), EmptyObject(), EmptyObject(), TagsValues()]), "tags")
         == Obj(Plain, [("0", Str("a")), ("1", Str("b"))])
  {
    ExtendDeepIntoEmpty(AsWritten, EmptyObject(), TagsValues());
    assert MergePrefix(AsWritten, true, EmptyObject(), EmptyObject(), 0) == EmptyObject();
    var tags := Arr([Str("a"), Str("b")]);
    SingleMember(AsWritten, EmptyObject(), "tags", tags);
    ChildAfterMergeKey(AsWritten, true, EmptyObject(), "tags", tags, "tags");
    assert Normalize(AsWritten, CloneFor(Undef, tags)) == EmptyObject();
    TagsIntoObject();
  }

  lemma TagsIntoObject()
    ensures MergeSource(AsWritten, true, EmptyObject(), Arr([Str("a"), Str("b")]))
         == Obj(Plain, [("0", Str("a")), ("1", Str("b"))])
  {
    var ab := [Str("a"), Str("b")];
    ArrayIntoObject(AsWritten, ab, 2);
    assert ab[..2] == ab;
    assert Indexed(ab) == [("0", Str("a")), ("1", Str("b"))];
  }

  /** `{tags: ['a', 'b']}` */
  function TagsValues(): Value
  {
    Obj(Plain, [("tags", Arr([Str("a"), Str("b")]))])
  }
}
