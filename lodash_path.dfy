/** Reading and writing a nested value by a delimited key path, as the
    service uses nb.lodash's `_.get(obj, path, default, delimiter)` and
    `_.set(obj, path, value, delimiter)`. nb.lodash is not part of this
    model; its two functions are modelled after lodash 3's `get` and `set`
    with the path string split on the given delimiter. Lodash's first test,
    which takes the whole path string as one own key when the object has
    such a key, is not modelled:
    - `get` walks the path and answers the default only when it ends on
      `undefined` (a `null` is returned as it is);
    - `set` leaves a root that is not an object alone, creates `[]` (before
      an index key) or `{}` (before any other key) where the path meets
      `null` or `undefined`, and writes nothing once the path meets a
      string, number or boolean. */
module LodashPath {

  import opened OrderedMap
  import opened JsValue
  import opened JsString

  /** The separator nb.lodash splits a path on when none is passed. */
  const LodashDefaultDelimiter: string := "."

  /** The value at `segs`, or `default` where that is `undefined`. */
  function GetPath(v: Value, segs: seq<string>, default: Value): (r: Value)
    ensures Walk(v, segs) != Undef ==> r == Walk(v, segs)
    ensures Walk(v, segs) == Undef ==> r == default
  {
    var found := Walk(v, segs);
    if found == Undef then default else found
  }

  /** `_.get(v, token, default, delim)`: the value at the path the token
      splits into, or the default where that is `undefined`. */
  function Get(v: Value, token: string, default: Value, delim: string): (r: Value)
    ensures Walk(v, Split(token, delim)) != Undef ==> r == Walk(v, Split(token, delim))
    ensures Walk(v, Split(token, delim)) == Undef ==> r == default
  {
    GetPath(v, Split(token, delim), default)
  }

  /** What `set` puts where the path meets `null` or `undefined`. */
  function Container(nextKey: string): (r: Value)
    ensures IsObject(r)
  {
    if ParseIndex(nextKey).Some? then Arr([]) else EmptyObject()
  }

  /** The child the walk of `set` continues into. */
  function Prepared(c: Value, nextKey: string): Value
  {
    if c.Null? || c.Undef? then Container(nextKey) else c
  }

  /** The value after `_.set(v, path, x)` with `path` split into `segs`. */
  function SetPath(v: Value, segs: seq<string>, x: Value): (r: Value)
    ensures !IsObject(v) ==> r == v
    ensures IsObject(v) ==> IsObject(r)
    decreases |segs|
  {
    if segs == [] || !IsObject(v) then v
    else if |segs| == 1 then SetChild(v, segs[0], x)
    else SetChild(v, segs[0], SetPath(Prepared(Child(v, segs[0]), segs[1]), segs[1..], x))
  }

  /** `_.set(v, token, x, delim)`: a root that is not an object is left
      alone; otherwise `x` is found at the token's path afterwards whenever
      `set` can reach it. */
  function Set(v: Value, token: string, x: Value, delim: string): (r: Value)
    ensures !IsObject(v) ==> r == v
    ensures IsObject(v) ==> IsObject(r)
    ensures Settable(v, Split(token, delim)) ==> Walk(r, Split(token, delim)) == x
  {
    var segs := Split(token, delim);
    if Settable(v, segs) then
      WalkAfterSet(v, segs, x);
      SetPath(v, segs, x)
    else
      SetPath(v, segs, x)
  }

  /** `set` reaches the end of `segs`: it starts at an object, every step
      goes through an object, or through `null`/`undefined` that it
      replaces, and array steps use index keys. */
  predicate Settable(v: Value, segs: seq<string>)
    decreases |segs|
  {
    |segs| > 0 && IsObject(v) && (v.Obj? || ParseIndex(segs[0]).Some?)
    && (|segs| == 1 || Settable(Prepared(Child(v, segs[0]), segs[1]), segs[1..]))
  }

  // ---------------------------------------------------------------------
  // Properties

  /** `get` after `set` on the same path gives the value set. */
  lemma {:induction false} GetAfterSet(v: Value, segs: seq<string>, x: Value, default: Value)
    requires Settable(v, segs) && x != Undef
    ensures GetPath(SetPath(v, segs, x), segs, default) == x
  {
    WalkAfterSet(v, segs, x);
  }

  lemma {:induction false} WalkAfterSet(v: Value, segs: seq<string>, x: Value)
    requires Settable(v, segs)
    ensures Walk(SetPath(v, segs, x), segs) == x
    decreases |segs|
  {
    if |segs| == 1 {
      ChildAfterSet(v, segs[0], x);
    } else {
      var inner := SetPath(Prepared(Child(v, segs[0]), segs[1]), segs[1..], x);
      ChildAfterSet(v, segs[0], inner);
      WalkAfterSet(Prepared(Child(v, segs[0]), segs[1]), segs[1..], x);
    }
  }

  /** `clear` (setting `undefined`) makes `get` answer its default. */
  lemma ClearGivesDefault(v: Value, segs: seq<string>, default: Value)
    requires Settable(v, segs)
    ensures GetPath(SetPath(v, segs, Undef), segs, default) == default
  {
    WalkAfterSet(v, segs, Undef);
  }

  /** `p` leaves the path `segs` at an object member with another key. */
  predicate Diverges(v: Value, segs: seq<string>, p: seq<string>)
    decreases |p|
  {
    |p| > 0 && |segs| > 0 && v.Obj?
    && (p[0] != segs[0] || (|segs| > 1 && Diverges(Child(v, p[0]), segs[1..], p[1..])))
  }

  /** `set` changes nothing off its own path. */
  lemma {:induction false} SetLeavesOthers(v: Value, segs: seq<string>, x: Value, p: seq<string>)
    requires Diverges(v, segs, p)
    ensures Walk(SetPath(v, segs, x), p) == Walk(v, p)
    decreases |p|
  {
    if p[0] != segs[0] {
      if |segs| == 1 {
        ChildAfterSetOther(v, segs[0], x, p[0]);
      } else {
        ChildAfterSetOther(v, segs[0], SetPath(Prepared(Child(v, segs[0]), segs[1]), segs[1..], x), p[0]);
      }
    } else {
      var c := Child(v, p[0]);
      assert Prepared(c, segs[1]) == c;
      ChildAfterSet(v, segs[0], SetPath(c, segs[1..], x));
      SetLeavesOthers(c, segs[1..], x, p[1..]);
    }
  }

  /** A path written with a one-character delimiter that no key contains
      reads the value at that key path. */
  lemma GetJoinedPath(v: Value, path: seq<string>, d: string, default: Value)
    requires |d| == 1 && |path| > 0 && DelimiterFree(path, d)
    ensures Get(v, Join(path, d), default, d) == GetPath(v, path, default)
  {
    SplitJoin(path, d);
  }

  /** A `:`-delimited token path given to `_.set` without a delimiter is one
      key: it writes a new top-level member named after the whole path and
      leaves the nested value in place, which a split-only `get` of the
      same path still reads. */
  lemma ClearWithDefaultDelimiter()
    ensures
      var tokens := Obj(Plain, [("site", Obj(Plain, [("name", Str("X"))]))]);
      var cleared := Set(tokens, "site:name", Undef, LodashDefaultDelimiter);
      cleared == Obj(Plain, [("site", Obj(Plain, [("name", Str("X"))])), ("site:name", Undef)])
      && Get(cleared, "site:name", Str("default"), ":") == Str("X")
  {
    var site := Obj(Plain, [("name", Str("X"))]);
    var cleared := ClearedAsOneKey(site);
    ReadThroughColon(site, cleared);
  }

  lemma ClearedAsOneKey(site: Value) returns (cleared: Value)
    ensures cleared == Obj(Plain, [("site", site), ("site:name", Undef)])
    ensures Set(Obj(Plain, [("site", site)]), "site:name", Undef, LodashDefaultDelimiter) == cleared
  {
    var tokens := Obj(Plain, [("site", site)]);
    SiteNameIsOneKey();
    assert !HasKey(tokens.members, "site:name");
    PutFresh(tokens.members, "site:name", Undef);
    cleared := Obj(Plain, [("site", site), ("site:name", Undef)]);
  }

  lemma ReadThroughColon(site: Value, cleared: Value)
    requires site == Obj(Plain, [("name", Str("X"))])
    requires cleared == Obj(Plain, [("site", site), ("site:name", Undef)])
    ensures Get(cleared, "site:name", Str("default"), ":") == Str("X")
  {
    SiteNameIsTwoKeys();
    KeyIndexIs(cleared.members, "site", 0);
    KeyIndexIs(site.members, "name", 0);
    assert Walk(cleared, ["site", "name"]) == Walk(site, ["name"]);
  }

  lemma SiteNameIsOneKey()
    ensures Split("site:name", LodashDefaultDelimiter) == ["site:name"]
  {
    SplitWithout("site:name", '.');
  }

  lemma SiteNameIsTwoKeys()
    ensures Split("site:name", ":") == ["site", "name"]
  {
    var s := "site:name";
    SplitAtFirst(s, ':', 4);
    assert s[..4] == "site" && s[5..] == "name";
    SplitWithout("name", ':');
  }
}
