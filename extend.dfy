/** `extend([deep,] target, source...)` of the dist build, a copy of
    jQuery's `extend`: each source that is neither `null` nor `undefined`
    has its keys written into the target in enumeration order; in a deep
    copy plain objects and arrays are merged recursively into a clone
    instead of being shared, and `undefined` values are never copied.

    The check that replaces an unsuitable target by `{}` comes in two
    variants. `AsWritten` keeps only plain objects, which also throws away
    the `[]` clone made for an array; `AsJQuery` keeps every object, arrays
    included, as jQuery does. */
module JqExtend {

  import opened OrderedMap
  import opened JsValue

  datatype TargetCheck = AsWritten | AsJQuery

  /** `isPlainObject(v)`: an object made by the Object constructor that is
      neither a DOM node nor the window. */
  predicate IsPlainObject(v: Value)
    ensures IsPlainObject(v) ==> Truthy(v) && IsObject(v) && !v.Arr?
  {
    v.Obj? && v.kind == Plain
  }

  /** The target after the check that replaces it by `{}`. */
  function Normalize(mode: TargetCheck, t: Value): (r: Value)
    ensures IsObject(r)
    ensures mode == AsWritten ==> IsPlainObject(r)
    ensures IsPlainObject(t) ==> r == t
    ensures mode == AsJQuery && IsObject(t) ==> r == t
    ensures !IsObject(t) ==> r == EmptyObject()
  {
    if (if mode == AsWritten then IsPlainObject(t) else IsObject(t)) then t else EmptyObject()
  }

  /** The number of keys `for (key in options)` visits: an object's
      members, an array's or a string's indices; none for a number or a
      boolean. */
  function KeyCount(options: Value): nat
  {
    match options
    case Obj(_, ms) => |ms|
    case Arr(items) => |items|
    case Str(s) => |s|
    case _ => 0
  }

  /** A deep copy recurses into plain objects and arrays. */
  predicate Recurses(deep: bool, copy: Value)
  {
    deep && (IsPlainObject(copy) || copy.Arr?)
  }

  /** The clone a recursing copy is merged into: the target's own member
      when it has the copy's kind, a fresh `[]` or `{}` otherwise. */
  function CloneFor(src: Value, copy: Value): Value
  {
    if copy.Arr? then (if src.Arr? then src else Arr([]))
    else if IsPlainObject(src) then src else EmptyObject()
  }

  /** One turn of the inner loop: visiting `key` whose source value is
      `copy`. */
  function MergeKey(mode: TargetCheck, deep: bool, target: Value, key: string, copy: Value): (r: Value)
    ensures target.Obj? ==> r.Obj? && r.kind == target.kind
    ensures target.Arr? ==> r.Arr?
    decreases copy, 3
  {
    if Recurses(deep, copy) then
      SetChild(target, key, MergeSource(mode, true, Normalize(mode, CloneFor(Child(target, key), copy)), copy))
    else if copy != Undef then SetChild(target, key, copy)
    else target
  }

  /** The target after all the keys of one source. */
  function MergeSource(mode: TargetCheck, deep: bool, target: Value, options: Value): (r: Value)
    ensures target.Obj? ==> r.Obj? && r.kind == target.kind
    ensures target.Arr? ==> r.Arr?
    decreases options, 2, 0
  {
    MergePrefix(mode, deep, target, options, KeyCount(options))
  }

  /** The target after the first `n` keys of one source. */
  function MergePrefix(mode: TargetCheck, deep: bool, target: Value, options: Value, n: nat): (r: Value)
    requires n <= KeyCount(options)
    ensures target.Obj? ==> r.Obj? && r.kind == target.kind
    ensures target.Arr? ==> r.Arr?
    decreases options, 1, n
  {
    if n == 0 then target
    else
      var t := MergePrefix(mode, deep, target, options, n - 1);
      match options
      case Obj(_, ms) => MergeKey(mode, deep, t, ms[n - 1].0, ms[n - 1].1)
      case Arr(items) => MergeKey(mode, deep, t, NatToString(n - 1), items[n - 1])
      case Str(s) => SetChild(t, NatToString(n - 1), Str([s[n - 1]]))
      case _ => t
  }

  /** The outer loop from argument `i` on: `null` and `undefined` are
      skipped. */
  function MergeArgs(mode: TargetCheck, deep: bool, target: Value, args: seq<Value>, i: nat): (r: Value)
    ensures target.Obj? ==> r.Obj? && r.kind == target.kind
    ensures target.Arr? ==> r.Arr?
    decreases |args| - i
  {
    if i >= |args| then target
    else
      var t := if args[i].Null? || args[i].Undef? then target else MergeSource(mode, deep, target, args[i]);
      MergeArgs(mode, deep, t, args, i + 1)
  }

  /** `extend(args...)`: a first argument `true` asks for a deep copy into
      the second; a falsy target becomes `{}`; with a single argument (after
      the flag) that argument is both the target and the one source. */
  function ExtendSpec(mode: TargetCheck, args: seq<Value>): (r: Value)
    ensures IsObject(r)
    ensures mode == AsWritten ==> IsPlainObject(r)
  {
    var first := if |args| > 0 && Truthy(args[0]) then args[0] else EmptyObject();
    var deep := first.Bool?;
    var target := if deep then (if |args| > 1 && Truthy(args[1]) then args[1] else EmptyObject()) else first;
    var start := if deep then 2 else 1;
    MergeArgs(mode, deep, Normalize(mode, target), args, if start == |args| then start - 1 else start)
  }

  /** The loop over one source's keys, with a recursive call for each
      plain object or array in a deep copy. */
  method MergeSourceInto(mode: TargetCheck, deep: bool, target: Value, options: Value) returns (r: Value)
    ensures r == MergeSource(mode, deep, target, options)
    decreases options
  {
    r := target;
    var n := KeyCount(options);
    var i := 0;
    while i < n
      invariant 0 <= i <= n
      invariant r == MergePrefix(mode, deep, target, options, i)
    {
      var key, copy;
      if options.Obj? {
        key, copy := options.members[i].0, options.members[i].1;
      } else if options.Arr? {
        key, copy := NatToString(i), options.items[i];
      } else {
        key, copy := NatToString(i), Str([options.s[i]]);
      }
      if Recurses(deep, copy) {
        var clone := Normalize(mode, CloneFor(Child(r, key), copy));
        var merged := MergeSourceInto(mode, true, clone, copy);
        r := SetChild(r, key, merged);
      } else if copy != Undef {
        r := SetChild(r, key, copy);
      }
      i := i + 1;
    }
  }

  /** `extend(args...)` as the function runs it. */
  method Extend(mode: TargetCheck, args: seq<Value>) returns (r: Value)
    ensures r == ExtendSpec(mode, args)
  {
    var target := if |args| > 0 && Truthy(args[0]) then args[0] else EmptyObject();
    var i := 1;
    var deep := false;
    if target.Bool? {
      deep := target.b;
      target := if |args| > i && Truthy(args[i]) then args[i] else EmptyObject();
      i := i + 1;
    }
    target := Normalize(mode, target);
    if i == |args| {
      i := i - 1;
    }
    while i < |args|
      invariant MergeArgs(mode, deep, target, args, i) == ExtendSpec(mode, args)
      decreases |args| - i
    {
      if !(args[i].Null? || args[i].Undef?) {
        target := MergeSourceInto(mode, deep, target, args[i]);
      }
      i := i + 1;
    }
    r := target;
  }

  // ---------------------------------------------------------------------
  // Properties

  /** What visiting key `k` with source value `copy` leaves at `k`, given
      the target's value `src` there. */
  function MergedValue(mode: TargetCheck, deep: bool, src: Value, copy: Value): Value
  {
    if Recurses(deep, copy) then MergeSource(mode, true, Normalize(mode, CloneFor(src, copy)), copy)
    else if copy != Undef then copy
    else src
  }

  /** One turn of the inner loop changes the visited key only. */
  lemma ChildAfterMergeKey(mode: TargetCheck, deep: bool, t: Value, key: string, copy: Value, k: string)
    requires t.Obj?
    ensures Child(MergeKey(mode, deep, t, key, copy), k)
         == if k == key then MergedValue(mode, deep, Child(t, k), copy) else Child(t, k)
  {
    if Recurses(deep, copy) || copy != Undef {
      var x := if Recurses(deep, copy)
        then MergeSource(mode, true, Normalize(mode, CloneFor(Child(t, key), copy)), copy)
        else copy;
      if k == key {
        ChildAfterSet(t, key, x);
      } else {
        ChildAfterSetOther(t, key, x, k);
      }
    }
  }

  lemma {:induction false} ChildAfterMergePrefix(mode: TargetCheck, deep: bool, t: Value, s: Value, n: nat, k: string)
    requires t.Obj? && s.Obj? && UniqueKeys(s.members) && n <= |s.members|
    ensures Child(MergePrefix(mode, deep, t, s, n), k)
         == if HasKey(s.members[..n], k) then MergedValue(mode, deep, Child(t, k), Lookup(s.members, k)) else Child(t, k)
    decreases n
  {
    if n > 0 {
      ChildAfterMergePrefix(mode, deep, t, s, n - 1, k);
      ChildAfterMemberStep(mode, deep, t, s, n, k);
      PrefixStep(s.members, n, k);
    }
  }

  /** Member `n - 1` of an object source changes only its own key. */
  lemma ChildAfterMemberStep(mode: TargetCheck, deep: bool, t: Value, s: Value, n: nat, k: string)
    requires t.Obj? && s.Obj? && 0 < n <= |s.members|
    ensures Child(MergePrefix(mode, deep, t, s, n), k)
         == if s.members[n - 1].0 == k
            then MergedValue(mode, deep, Child(MergePrefix(mode, deep, t, s, n - 1), k), s.members[n - 1].1)
            else Child(MergePrefix(mode, deep, t, s, n - 1), k)
  {
    var last := s.members[n - 1];
    var prev := MergePrefix(mode, deep, t, s, n - 1);
    assert MergePrefix(mode, deep, t, s, n) == MergeKey(mode, deep, prev, last.0, last.1);
    ChildAfterMergeKey(mode, deep, prev, last.0, last.1, k);
  }

  /** After merging an object source, each key holds what the source's
      value makes of the target's; keys the source lacks are untouched. */
  lemma ChildAfterMerge(mode: TargetCheck, deep: bool, t: Value, s: Value, k: string)
    requires t.Obj? && s.Obj? && UniqueKeys(s.members)
    ensures Child(MergeSource(mode, deep, t, s), k)
         == if HasKey(s.members, k) then MergedValue(mode, deep, Child(t, k), Lookup(s.members, k)) else Child(t, k)
  {
    ChildAfterMergePrefix(mode, deep, t, s, |s.members|, k);
    assert s.members[..|s.members|] == s.members;
  }

  /** `s` supplies a value at path `p`: every step is a plain object and the
      value at the end is one `extend` copies as it is. */
  predicate Supplies(s: Value, p: seq<string>)
    decreases |p|
  {
    |p| > 0 && IsPlainObject(s) && UniqueKeys(s.members)
    && (if |p| == 1 then CopiedAsIs(Child(s, p[0]))
        else IsPlainObject(Child(s, p[0])) && Supplies(Child(s, p[0]), p[1..]))
  }

  /** Copied without recursion: not `undefined`, not a plain object, not an
      array. */
  predicate CopiedAsIs(v: Value)
  {
    v != Undef && !IsPlainObject(v) && !v.Arr?
  }

  /** In a deep merge the source's value wins wherever it supplies one. */
  lemma {:induction false} SuppliedWins(mode: TargetCheck, t: Value, s: Value, p: seq<string>)
    requires t.Obj? && Supplies(s, p)
    ensures Walk(MergeSource(mode, true, t, s), p) == Walk(s, p)
    decreases |p|
  {
    var c := Child(s, p[0]);
    ChildAfterMerge(mode, true, t, s, p[0]);
    if |p| > 1 {
      SuppliedWins(mode, Normalize(mode, CloneFor(Child(t, p[0]), c)), c, p[1..]);
    }
  }

  /** `s` does not reach path `p` (it lacks a key on the way, where the
      target is a plain object all along). */
  predicate Untouched(t: Value, s: Value, p: seq<string>)
    decreases |p|
  {
    |p| > 0 && IsPlainObject(s) && UniqueKeys(s.members) && t.Obj?
    && (Child(s, p[0]) == Undef
        || (|p| > 1 && IsPlainObject(Child(s, p[0])) && IsPlainObject(Child(t, p[0]))
            && Untouched(Child(t, p[0]), Child(s, p[0]), p[1..])))
  }

  /** In a deep merge the target keeps every value the source does not
      reach, however deep. */
  lemma {:induction false} UnsuppliedSurvives(mode: TargetCheck, t: Value, s: Value, p: seq<string>)
    requires Untouched(t, s, p)
    ensures Walk(MergeSource(mode, true, t, s), p) == Walk(t, p)
    decreases |p|
  {
    var c := Child(s, p[0]);
    ChildAfterMerge(mode, true, t, s, p[0]);
    if c != Undef {
      UnsuppliedSurvives(mode, Child(t, p[0]), c, p[1..]);
    }
  }

  /** `extend(true, {}, a, b)` merges `a` and then `b` deeply into `{}`. */
  lemma ExtendDeepIntoEmpty(mode: TargetCheck, a: Value, b: Value)
    requires !a.Null? && !a.Undef? && !b.Null? && !b.Undef?
    ensures ExtendSpec(mode, [Bool(true), EmptyObject(), a, b])
         == MergeSource(mode, true, MergeSource(mode, true, EmptyObject(), a), b)
  {
    var args := [Bool(true), EmptyObject(), a, b];
    var t1 := MergeSource(mode, true, EmptyObject(), a);
    var t2 := MergeSource(mode, true, t1, b);
    assert MergeArgs(mode, true, t2, args, 4) == t2;
    assert MergeArgs(mode, true, t1, args, 3) == t2;
    assert MergeArgs(mode, true, EmptyObject(), args, 2) == t2;
  }

  /** `false` is not a deep flag: it is a falsy target, replaced by `{}`, and
      the arguments after it are merged shallowly. */
  lemma ExtendFalseIsTarget(mode: TargetCheck, a: Value, b: Value)
    requires !a.Null? && !a.Undef? && !b.Null? && !b.Undef?
    ensures ExtendSpec(mode, [Bool(false), a, b])
         == MergeSource(mode, false, MergeSource(mode, false, EmptyObject(), a), b)
  {
    var args := [Bool(false), a, b];
    var t1 := MergeSource(mode, false, EmptyObject(), a);
    var t2 := MergeSource(mode, false, t1, b);
    assert MergeArgs(mode, false, t2, args, 3) == t2;
    assert MergeArgs(mode, false, t1, args, 2) == t2;
    assert MergeArgs(mode, false, EmptyObject(), args, 1) == t2;
  }

  /** A single plain-object argument is both the target and the source. */
  lemma ExtendSingleArgument(mode: TargetCheck, x: Value)
    requires IsPlainObject(x)
    ensures ExtendSpec(mode, [x]) == MergeSource(mode, false, x, x)
  {
    var t := MergeSource(mode, false, x, x);
    assert MergeArgs(mode, false, t, [x], 1) == t;
    assert MergeArgs(mode, false, x, [x], 0) == t;
  }

  /** A `null` or `undefined` source changes nothing, wherever it stands:
      merging with it gives what merging without it gives. */
  lemma {:induction false} NullSourceSkipped(mode: TargetCheck, deep: bool, t: Value, args: seq<Value>, i: nat, j: nat)
    requires i <= j < |args| && (args[j].Null? || args[j].Undef?)
    ensures MergeArgs(mode, deep, t, args, i) == MergeArgs(mode, deep, t, args[..j] + args[j + 1..], i)
    decreases j - i
  {
    var rest := args[..j] + args[j + 1..];
    if i == j {
      assert MergeArgs(mode, deep, t, args, i) == MergeArgs(mode, deep, t, args, i + 1);
      assert args[j + 1..] == rest[j..];
      MergeArgsFrom(mode, deep, t, args, j + 1, rest, j);
    } else {
      assert rest[i] == args[i];
      var t' := if args[i].Null? || args[i].Undef? then t else MergeSource(mode, deep, t, args[i]);
      NullSourceSkipped(mode, deep, t', args, i + 1, j);
    }
  }

  /** The outer loop depends only on the arguments still to come. */
  lemma {:induction false} MergeArgsFrom(mode: TargetCheck, deep: bool, t: Value, a: seq<Value>, i: nat, b: seq<Value>, k: nat)
    requires i <= |a| && k <= |b| && a[i..] == b[k..]
    ensures MergeArgs(mode, deep, t, a, i) == MergeArgs(mode, deep, t, b, k)
    decreases |a| - i
  {
    if i < |a| {
      assert a[i] == a[i..][0] == b[k..][0] == b[k];
      assert a[i + 1..] == a[i..][1..] && b[k + 1..] == b[k..][1..];
      var t' := if a[i].Null? || a[i].Undef? then t else MergeSource(mode, deep, t, a[i]);
      MergeArgsFrom(mode, deep, t', a, i + 1, b, k + 1);
    } else {
      assert |b[k..]| == 0;
    }
  }

  // ---------------------------------------------------------------------
  // Arrays in a deep copy

  /** An array's elements keyed by their index strings. */
  function Indexed(items: seq<Value>): (r: seq<(string, Value)>)
    ensures |r| == |items|
  {
    seq(|items|, i requires 0 <= i < |items| => (NatToString(i), items[i]))
  }

  /** Index strings of distinct indices differ. */
  lemma IndexKeysDistinct(i: nat, j: nat)
    requires i != j
    ensures NatToString(i) != NatToString(j)
  {
    ParseNatToString(i);
    ParseNatToString(j);
  }

  /** Merging an array of plainly copied values into `{}` gives an object
      keyed by the index strings. */
  lemma {:induction false} ArrayIntoObject(mode: TargetCheck, items: seq<Value>, n: nat)
    requires n <= |items| && forall i :: 0 <= i < |items| ==> CopiedAsIs(items[i])
    ensures MergePrefix(mode, true, EmptyObject(), Arr(items), n) == Obj(Plain, Indexed(items[..n]))
    decreases n
  {
    if n > 0 {
      ArrayIntoObject(mode, items, n - 1);
      var prev := Indexed(items[..n - 1]);
      var key := NatToString(n - 1);
      assert MergePrefix(mode, true, EmptyObject(), Arr(items), n)
          == MergeKey(mode, true, Obj(Plain, prev), key, items[n - 1]);
      MergeKeyCopies(mode, true, Obj(Plain, prev), key, items[n - 1]);
      IndexedStep(items, n);
      PutFresh(prev, key, items[n - 1]);
    }
  }

  lemma IndexedStep(items: seq<Value>, n: nat)
    requires 0 < n <= |items|
    ensures !HasKey(Indexed(items[..n - 1]), NatToString(n - 1))
    ensures Indexed(items[..n]) == Indexed(items[..n - 1]) + [(NatToString(n - 1), items[n - 1])]
  {
    var prev := Indexed(items[..n - 1]);
    forall j | 0 <= j < |prev| ensures prev[j].0 != NatToString(n - 1) {
      IndexKeysDistinct(j, n - 1);
    }
  }

  /** A value copied as it is is simply assigned. */
  lemma MergeKeyCopies(mode: TargetCheck, deep: bool, t: Value, key: string, copy: Value)
    requires CopiedAsIs(copy)
    ensures MergeKey(mode, deep, t, key, copy) == SetChild(t, key, copy)
  {
  }

  /** `t` with its first elements replaced by `c`. */
  function Overlay(t: seq<Value>, c: seq<Value>): (r: seq<Value>)
    ensures |r| == if |c| < |t| then |t| else |c|
    ensures forall i :: 0 <= i < |r| ==> r[i] == if i < |c| then c[i] else t[i]
  {
    if |c| < |t| then c + t[|c|..] else c
  }

  /** Merging an array of plainly copied values into an array overwrites
      it index by index and keeps its later elements. */
  lemma {:induction false} ArrayIntoArray(mode: TargetCheck, t: seq<Value>, c: seq<Value>, n: nat)
    requires n <= |c| && forall i :: 0 <= i < |c| ==> CopiedAsIs(c[i])
    ensures MergePrefix(mode, true, Arr(t), Arr(c), n) == Arr(Overlay(t, c[..n]))
    decreases n
  {
    if n > 0 {
      ArrayIntoArray(mode, t, c, n - 1);
      var prev := Overlay(t, c[..n - 1]);
      var key := NatToString(n - 1);
      assert MergePrefix(mode, true, Arr(t), Arr(c), n) == MergeKey(mode, true, Arr(prev), key, c[n - 1]);
      MergeKeyCopies(mode, true, Arr(prev), key, c[n - 1]);
      ParseNatToString(n - 1);
      OverlayStep(t, c, n);
    }
  }

  /** Writing element `n - 1` extends the overlay by that element. */
  lemma OverlayStep(t: seq<Value>, c: seq<Value>, n: nat)
    requires 0 < n <= |c|
    ensures SetIndex(Overlay(t, c[..n - 1]), n - 1, c[n - 1]) == Overlay(t, c[..n])
  {
    var a := SetIndex(Overlay(t, c[..n - 1]), n - 1, c[n - 1]);
    var b := Overlay(t, c[..n]);
    assert |a| == |b|;
    forall i | 0 <= i < |a| ensures a[i] == b[i] {
    }
  }

  // ---------------------------------------------------------------------
  // The target check and arrays

  /** As written, a deep-copied array never stays an array: the `[]` clone
      fails the plain-object check and is replaced by `{}`. */
  lemma DeepArrayBecomesObject(t: Value, key: string, items: seq<Value>)
    requires t.Obj?
    ensures Child(MergeKey(AsWritten, true, t, key, Arr(items)), key).Obj?
  {
    ChildAfterMergeKey(AsWritten, true, t, key, Arr(items), key);
  }

  /** With jQuery's check a deep-copied array is merged into an array. */
  lemma DeepArrayStaysArray(t: Value, key: string, items: seq<Value>)
    requires t.Obj?
    ensures Child(MergeKey(AsJQuery, true, t, key, Arr(items)), key).Arr?
  {
    ChildAfterMergeKey(AsJQuery, true, t, key, Arr(items), key);
  }

  /** `{a: [1, 2, 3]}`, a configuration holding an array. */
  function ConfigWithArray(): Value
  {
    Obj(Plain, [("a", Arr([Num(1), Num(2), Num(3)]))])
  }

  /** `{a: [9]}`, new values for it. */
  function ShorterArray(): Value
  {
    Obj(Plain, [("a", Arr([Num(9)]))])
  }

  /** A source with one member visits that member only. */
  lemma SingleMember(mode: TargetCheck, t: Value, k: string, copy: Value)
    ensures MergeSource(mode, true, t, Obj(Plain, [(k, copy)])) == MergeKey(mode, true, t, k, copy)
  {
    assert MergePrefix(mode, true, t, Obj(Plain, [(k, copy)]), 0) == t;
  }

  /** As written, `extend(true, {}, {a: [1, 2, 3]}, {a: [9]})` gives
      `{a: {"0": 9}}`: the array became an object and lost its tail. */
  lemma ArrayMergeAsWritten()
    ensures ExtendSpec(AsWritten, [Bool(true), EmptyObject(), ConfigWithArray(), ShorterArray()])
         == Obj(Plain, [("a", Obj(Plain, [("0", Num(9))]))])
  {
    ExtendDeepIntoEmpty(AsWritten, ConfigWithArray(), ShorterArray());
    var t1 := WrittenFirstSource();
    WrittenSecondSource(t1);
  }

  lemma WrittenFirstSource() returns (t1: Value)
    ensures t1 == Obj(Plain, [("a", Obj(Plain, Indexed([Num(1), Num(2), Num(3)])))])
    ensures MergeSource(AsWritten, true, EmptyObject(), ConfigWithArray()) == t1
  {
    var a123 := [Num(1), Num(2), Num(3)];
    ArrayIntoObject(AsWritten, a123, 3);
    assert a123[..3] == a123;
    var inner := Obj(Plain, Indexed(a123));
    assert MergeSource(AsWritten, true, EmptyObject(), Arr(a123)) == inner;
    t1 := Obj(Plain, [("a", inner)]);
    SingleMember(AsWritten, EmptyObject(), "a", Arr(a123));
    assert Normalize(AsWritten, CloneFor(Undef, Arr(a123))) == EmptyObject();
    assert MergeKey(AsWritten, true, EmptyObject(), "a", Arr(a123)) == SetChild(EmptyObject(), "a", inner);
  }

  lemma WrittenSecondSource(t1: Value)
    requires t1 == Obj(Plain, [("a", Obj(Plain, Indexed([Num(1), Num(2), Num(3)])))])
    ensures MergeSource(AsWritten, true, t1, ShorterArray()) == Obj(Plain, [("a", Obj(Plain, [("0", Num(9))]))])
  {
    ArrayIntoObject(AsWritten, [Num(9)], 1);
    assert [Num(9)][..1] == [Num(9)];
    assert Indexed([Num(9)]) == [("0", Num(9))];
    var inner := Obj(Plain, [("0", Num(9))]);
    assert MergeSource(AsWritten, true, EmptyObject(), Arr([Num(9)])) == inner;
    SingleMember(AsWritten, t1, "a", Arr([Num(9)]));
    KeyIndexIs(t1.members, "a", 0);
  }

  /** With jQuery's check the same call gives `{a: [9, 2, 3]}`: the array is
      merged index by index. */
  lemma ArrayMergeAsJQuery()
    ensures ExtendSpec(AsJQuery, [Bool(true), EmptyObject(), ConfigWithArray(), ShorterArray()])
         == Obj(Plain, [("a", Arr([Num(9), Num(2), Num(3)]))])
  {
    ExtendDeepIntoEmpty(AsJQuery, ConfigWithArray(), ShorterArray());
    var t1 := JQueryFirstSource();
    JQuerySecondSource(t1);
  }

  lemma JQueryFirstSource() returns (t1: Value)
    ensures t1 == Obj(Plain, [("a", Arr([Num(1), Num(2), Num(3)]))])
    ensures MergeSource(AsJQuery, true, EmptyObject(), ConfigWithArray()) == t1
  {
    var a123 := [Num(1), Num(2), Num(3)];
    ArrayIntoArray(AsJQuery, [], a123, 3);
    assert a123[..3] == a123;
    assert MergeSource(AsJQuery, true, Arr([]), Arr(a123)) == Arr(a123);
    assert Normalize(AsJQuery, CloneFor(Child(EmptyObject(), "a"), Arr(a123))) == Arr([]);
    t1 := Obj(Plain, [("a", Arr(a123))]);
    SingleMember(AsJQuery, EmptyObject(), "a", Arr(a123));
    assert MergeKey(AsJQuery, true, EmptyObject(), "a", Arr(a123)) == SetChild(EmptyObject(), "a", Arr(a123));
  }

  lemma JQuerySecondSource(t1: Value)
    requires t1 == Obj(Plain, [("a", Arr([Num(1), Num(2), Num(3)]))])
    ensures MergeSource(AsJQuery, true, t1, ShorterArray()) == Obj(Plain, [("a", Arr([Num(9), Num(2), Num(3)]))])
  {
    var a123 := [Num(1), Num(2), Num(3)];
    ArrayIntoArray(AsJQuery, a123, [Num(9)], 1);
    assert [Num(9)][..1] == [Num(9)];
    assert Overlay(a123, [Num(9)]) == [Num(9), Num(2), Num(3)];
    KeyIndexIs(t1.members, "a", 0);
    assert Child(t1, "a") == Arr(a123);
    SingleMember(AsJQuery, t1, "a", Arr([Num(9)]));
  }
}
