/** Flattening the token tree into placeholder/value pairs
    (`getReplaceTokens`). Every non-array object is descended into; every
    other value (a scalar, `undefined`, `null` or an array) reached by a key
    path is a leaf and yields the entry `"[" + path.join(delimiter) + "]"`
    mapped to the leaf's formatted value. The i18n formatting call is the
    parameter `format`. */
module TokenFlatten {

  import opened OrderedMap
  import opened JsValue
  import opened JsString

  /** The placeholder a key path stands for. */
  function Placeholder(path: seq<string>, delim: string): string
  {
    "[" + Join(path, delim) + "]"
  }

  /** `getReplaceTokens(v, path)`: a fresh map into which the flattening of
      each member is merged in member order (`_.extend`). A missing `path`
      (the root call) starts from the empty path for an object and yields
      nothing for any other value. */
  function Flatten(v: Value, path: Option<seq<string>>, delim: string, format: Value -> string)
    : (r: Entries<string>)
    ensures !v.Obj? && path.Some? ==> |r| == 1
    ensures !v.Obj? && path.None? ==> r == []
    decreases v, 1, 0
  {
    if v.Obj? then
      FlattenMembers(v, if path.Some? then path.value else [], |v.members|, delim, format)
    else if path.Some? then
      [(Placeholder(path.value, delim), format(v))]
    else
      []
  }

  /** The map after the forEach over the first `n` members of object `v`. */
  function FlattenMembers(v: Value, path: seq<string>, n: nat, delim: string, format: Value -> string)
    : (r: Entries<string>)
    requires v.Obj? && n <= |v.members|
    ensures n == 0 ==> r == []
    decreases v, 0, n
  {
    if n == 0 then []
    else
      var m := v.members[n - 1];
      Merge(FlattenMembers(v, path, n - 1, delim, format),
            Flatten(m.1, Some(path + [m.0]), delim, format))
  }

  /** `getReplaceTokens(v, path)` as the service runs it: a fresh map, then
      a forEach over the members that extends the map with each member's
      flattening. */
  method GetReplaceTokens(v: Value, path: Option<seq<string>>, delim: string, format: Value -> string)
    returns (r: Entries<string>)
    ensures r == Flatten(v, path, delim, format)
    decreases v, 2
  {
    if v.Obj? {
      r := GetMemberTokens(v, if path.Some? then path.value else [], delim, format);
    } else if path.Some? {
      r := [(Placeholder(path.value, delim), format(v))];
    } else {
      r := [];
    }
  }

  /** The forEach of `getReplaceTokens` over the members of object `v`. */
  method GetMemberTokens(v: Value, path: seq<string>, delim: string, format: Value -> string)
    returns (r: Entries<string>)
    requires v.Obj?
    ensures r == FlattenMembers(v, path, |v.members|, delim, format)
    decreases v, 1
  {
    r := [];
    var i := 0;
    while i < |v.members|
      invariant 0 <= i <= |v.members|
      invariant r == FlattenMembers(v, path, i, delim, format)
    {
      r := ExtendWithMember(v, path, i, r, delim, format);
      i := i + 1;
    }
  }

  /** One call of the forEach callback: the map extended with the
      flattening of member `i`. */
  method ExtendWithMember(v: Value, path: seq<string>, i: nat, acc: Entries<string>, delim: string, format: Value -> string)
    returns (r: Entries<string>)
    requires v.Obj? && i < |v.members|
    requires acc == FlattenMembers(v, path, i, delim, format)
    ensures r == FlattenMembers(v, path, i + 1, delim, format)
    decreases v, 0
  {
    var m := v.members[i];
    var sub := GetReplaceTokens(m.1, Some(path + [m.0]), delim, format);
    r := Merge(acc, sub);
  }

  // ---------------------------------------------------------------------
  // Reference: the leaves of a tree, in visiting order

  /** The leaves under `v`, reached from `path`, each with its full path. */
  function Leaves(v: Value, path: seq<string>): seq<(seq<string>, Value)>
    decreases v, 1, 0
  {
    if v.Obj? then LeavesOfMembers(v, path, |v.members|) else [(path, v)]
  }

  function LeavesOfMembers(v: Value, path: seq<string>, n: nat): seq<(seq<string>, Value)>
    requires v.Obj? && n <= |v.members|
    decreases v, 0, n
  {
    if n == 0 then []
    else
      var m := v.members[n - 1];
      LeavesOfMembers(v, path, n - 1) + Leaves(m.1, path + [m.0])
  }

  /** The leaves of a whole tree: none for a root that is not an object. */
  function RootLeaves(v: Value): seq<(seq<string>, Value)>
  {
    if v.Obj? then Leaves(v, []) else []
  }

  /** The entry each leaf asks for. */
  function LeafEntries(ls: seq<(seq<string>, Value)>, delim: string, format: Value -> string)
    : (r: Entries<string>)
    ensures |r| == |ls|
  {
    if ls == [] then []
    else LeafEntries(ls[..|ls| - 1], delim, format) + [(Placeholder(ls[|ls| - 1].0, delim), format(ls[|ls| - 1].1))]
  }

  lemma {:induction false} LeafEntriesAppend(a: seq<(seq<string>, Value)>, b: seq<(seq<string>, Value)>, delim: string, format: Value -> string)
    ensures LeafEntries(a + b, delim, format) == LeafEntries(a, delim, format) + LeafEntries(b, delim, format)
    decreases |b|
  {
    if b == [] {
      assert a + b == a;
    } else {
      var b' := b[..|b| - 1];
      assert (a + b)[..|a + b| - 1] == a + b';
      assert (a + b)[|a + b| - 1] == b[|b| - 1];
      LeafEntriesAppend(a, b', delim, format);
    }
  }

  // ---------------------------------------------------------------------
  // Properties

  /** The flattened map never holds two entries for one placeholder. */
  lemma {:induction false} FlattenUnique(v: Value, path: Option<seq<string>>, delim: string, format: Value -> string)
    ensures UniqueKeys(Flatten(v, path, delim, format))
    decreases v, 1, 0
  {
    if v.Obj? {
      MembersUnique(v, if path.Some? then path.value else [], |v.members|, delim, format);
    }
  }

  lemma {:induction false} MembersUnique(v: Value, path: seq<string>, n: nat, delim: string, format: Value -> string)
    requires v.Obj? && n <= |v.members|
    ensures UniqueKeys(FlattenMembers(v, path, n, delim, format))
    decreases v, 0, n
  {
    if n > 0 {
      var m := v.members[n - 1];
      MembersUnique(v, path, n - 1, delim, format);
      MergeUnique(FlattenMembers(v, path, n - 1, delim, format), Flatten(m.1, Some(path + [m.0]), delim, format));
    }
  }

  /** Every key of the flattened map is the placeholder of a leaf, every
      leaf's placeholder is a key, and a placeholder reached by two leaves
      holds the value of the one visited last. */
  lemma {:induction false} FlattenIsLastLeafWins(v: Value, path: seq<string>, delim: string, format: Value -> string, k: string)
    ensures Find(Flatten(v, Some(path), delim, format), k) == FindLast(LeafEntries(Leaves(v, path), delim, format), k)
    decreases v, 1, 0
  {
    if v.Obj? {
      MembersAreLastLeafWins(v, path, |v.members|, delim, format, k);
    }
  }

  lemma {:induction false} MembersAreLastLeafWins(v: Value, path: seq<string>, n: nat, delim: string, format: Value -> string, k: string)
    requires v.Obj? && n <= |v.members|
    ensures Find(FlattenMembers(v, path, n, delim, format), k)
         == FindLast(LeafEntries(LeavesOfMembers(v, path, n), delim, format), k)
    decreases v, 0, n
  {
    if n > 0 {
      var m := v.members[n - 1];
      var childPath := path + [m.0];
      MembersAreLastLeafWins(v, path, n - 1, delim, format, k);
      FlattenIsLastLeafWins(m.1, childPath, delim, format, k);
      FlattenUnique(m.1, Some(childPath), delim, format);
      LastWinsStep(FlattenMembers(v, path, n - 1, delim, format), Flatten(m.1, Some(childPath), delim, format),
                   LeavesOfMembers(v, path, n - 1), Leaves(m.1, childPath), delim, format, k);
      MembersUnfold(v, path, n, delim, format);
    }
  }

  /** The map and the leaves after `n` members, each as the ones after
      `n - 1` members extended by member `n - 1`. */
  lemma MembersUnfold(v: Value, path: seq<string>, n: nat, delim: string, format: Value -> string)
    requires v.Obj? && 0 < n <= |v.members|
    ensures FlattenMembers(v, path, n, delim, format)
         == Merge(FlattenMembers(v, path, n - 1, delim, format),
                  Flatten(v.members[n - 1].1, Some(path + [v.members[n - 1].0]), delim, format))
    ensures LeavesOfMembers(v, path, n)
         == LeavesOfMembers(v, path, n - 1) + Leaves(v.members[n - 1].1, path + [v.members[n - 1].0])
  {
  }

  /** One member's step of the forEach keeps the flattened map in agreement
      with the last-wins reading of the leaves visited so far. */
  lemma LastWinsStep(acc: Entries<string>, child: Entries<string>,
                     accLeaves: seq<(seq<string>, Value)>, childLeaves: seq<(seq<string>, Value)>,
                     delim: string, format: Value -> string, k: string)
    requires UniqueKeys(child)
    requires Find(acc, k) == FindLast(LeafEntries(accLeaves, delim, format), k)
    requires Find(child, k) == FindLast(LeafEntries(childLeaves, delim, format), k)
    ensures Find(Merge(acc, child), k) == FindLast(LeafEntries(accLeaves + childLeaves, delim, format), k)
  {
    LeafEntriesAppend(accLeaves, childLeaves, delim, format);
    MergeAgreesWithLast(acc, child, LeafEntries(accLeaves, delim, format), LeafEntries(childLeaves, delim, format), k);
  }

  /** The root call: a non-object root yields the empty map, and the root
      never contributes an entry of its own. */
  lemma RootFlatten(v: Value, delim: string, format: Value -> string, k: string)
    ensures !v.Obj? ==> Flatten(v, None, delim, format) == []
    ensures Find(Flatten(v, None, delim, format), k) == FindLast(LeafEntries(RootLeaves(v), delim, format), k)
  {
    if v.Obj? {
      FlattenIsLastLeafWins(v, [], delim, format, k);
    }
  }

  /** When the leaves ask for pairwise distinct placeholders, flattening
      yields exactly one entry per leaf, in visiting order. */
  lemma {:induction false} FlattenOneEntryPerLeaf(v: Value, path: seq<string>, delim: string, format: Value -> string)
    requires UniqueKeys(LeafEntries(Leaves(v, path), delim, format))
    ensures Flatten(v, Some(path), delim, format) == LeafEntries(Leaves(v, path), delim, format)
    decreases v, 1, 0
  {
    if v.Obj? {
      MembersOneEntryPerLeaf(v, path, |v.members|, delim, format);
    }
  }

  lemma {:induction false} MembersOneEntryPerLeaf(v: Value, path: seq<string>, n: nat, delim: string, format: Value -> string)
    requires v.Obj? && n <= |v.members|
    requires UniqueKeys(LeafEntries(LeavesOfMembers(v, path, n), delim, format))
    ensures FlattenMembers(v, path, n, delim, format) == LeafEntries(LeavesOfMembers(v, path, n), delim, format)
    decreases v, 0, n
  {
    if n > 0 {
      var m := v.members[n - 1];
      var a := LeafEntries(LeavesOfMembers(v, path, n - 1), delim, format);
      var b := LeafEntries(Leaves(m.1, path + [m.0]), delim, format);
      assert LeavesOfMembers(v, path, n) == LeavesOfMembers(v, path, n - 1) + Leaves(m.1, path + [m.0]);
      LeafEntriesAppend(LeavesOfMembers(v, path, n - 1), Leaves(m.1, path + [m.0]), delim, format);
      UniqueKeysSplit(a, b);
      MembersOneEntryPerLeaf(v, path, n - 1, delim, format);
      FlattenOneEntryPerLeaf(m.1, path + [m.0], delim, format);
      MergeFresh(a, b);
      assert FlattenMembers(v, path, n, delim, format) == Merge(a, b);
    }
  }
}
