/** Replacing placeholders in a value (`replace(obj, tokens)`): objects and
    arrays are rewritten member by member, `undefined` is returned as it is,
    and every other value is turned into its string form, in which each
    placeholder of the token map, in map order, replaces its FIRST
    occurrence. `null` has no `toString`, so a `null` anywhere in the value
    makes the call throw a TypeError, modelled as `None`. */
module Substitution {

  import opened OrderedMap
  import opened JsValue
  import opened JsString

  /** No placeholder of `tokens` occurs in `s`. */
  ghost predicate NoPlaceholderIn(s: string, tokens: Entries<string>)
  {
    forall i, j :: 0 <= i < |tokens| ==> !OccursAt(s, tokens[i].0, j)
  }

  /** The forEach over the token map applied to one string: each entry, in
      order, replaces the first occurrence of its placeholder in the string
      as it stands after the entries before it. */
  function Substitute(s: string, tokens: Entries<string>): (r: string)
    ensures NoPlaceholderIn(s, tokens) ==> r == s
    decreases |tokens|
  {
    if tokens == [] then s
    else
      var s' := ReplaceFirst(s, tokens[0].0, tokens[0].1);
      assert NoPlaceholderIn(s, tokens) ==> s' == s && NoPlaceholderIn(s', tokens[1..]);
      Substitute(s', tokens[1..])
  }

  /** The string branch of `replace`: the loop over the token map. */
  method ReplaceString(s: string, tokens: Entries<string>) returns (r: string)
    ensures r == Substitute(s, tokens)
  {
    r := s;
    var i := 0;
    while i < |tokens|
      invariant 0 <= i <= |tokens|
      invariant Substitute(r, tokens[i..]) == Substitute(s, tokens)
    {
      assert tokens[i..][1..] == tokens[i + 1..];
      r := ReplaceFirst(r, tokens[i].0, tokens[i].1);
      i := i + 1;
    }
  }

  /** The result has the input's shape: `undefined` stays `undefined`, an
      array stays an array of the same length, an object keeps its kind and
      its keys in order, and every other value becomes a string. */
  predicate SameShape(v: Value, r: Value)
  {
    match v
    case Undef => r == Undef
    case Null => false
    case Arr(items) =>
      r.Arr? && |r.items| == |items|
      && forall i :: 0 <= i < |items| ==> SameShape(items[i], r.items[i])
    case Obj(kind, ms) =>
      r.Obj? && r.kind == kind && |r.members| == |ms|
      && forall i :: 0 <= i < |ms| ==> r.members[i].0 == ms[i].0 && SameShape(ms[i].1, r.members[i].1)
    case _ => r.Str?
  }

  /** What `replace(v, tokens)` returns; `None` when it throws. */
  function ReplaceSpec(v: Value, tokens: Entries<string>): (r: Option<Value>)
    ensures r.None? <==> !NullFree(v)
    ensures r.Some? ==> SameShape(v, r.value)
    decreases v, 1, 0
  {
    match v
    case Undef => Some(Undef)
    case Null => None
    case Arr(items) =>
      (match ReplaceItems(v, |items|, tokens)
       case None => None
       case Some(out) => Some(Arr(out)))
    case Obj(kind, ms) =>
      (match ReplaceMembers(v, |ms|, tokens)
       case None => None
       case Some(out) => Some(Obj(kind, out)))
    case _ => Some(Str(Substitute(ToString(v), tokens)))
  }

  /** The first `n` elements of array `v`, each replaced. */
  function ReplaceItems(v: Value, n: nat, tokens: Entries<string>): (r: Option<seq<Value>>)
    requires v.Arr? && n <= |v.items|
    ensures r.None? <==> exists i :: 0 <= i < n && !NullFree(v.items[i])
    ensures r.Some? ==> |r.value| == n && forall i :: 0 <= i < n ==> SameShape(v.items[i], r.value[i])
    decreases v, 0, n
  {
    if n == 0 then Some([])
    else
      match ReplaceItems(v, n - 1, tokens)
      case None => None
      case Some(prefix) =>
        match ReplaceSpec(v.items[n - 1], tokens)
        case None => None
        case Some(c) => Some(prefix + [c])
  }

  /** The first `n` members of object `v`, each value replaced. */
  function ReplaceMembers(v: Value, n: nat, tokens: Entries<string>): (r: Option<seq<(string, Value)>>)
    requires v.Obj? && n <= |v.members|
    ensures r.None? <==> exists i :: 0 <= i < n && !NullFree(v.members[i].1)
    ensures r.Some? ==> |r.value| == n
    ensures r.Some? ==> forall i :: 0 <= i < n ==>
      r.value[i].0 == v.members[i].0 && SameShape(v.members[i].1, r.value[i].1)
    decreases v, 0, n
  {
    if n == 0 then Some([])
    else
      match ReplaceMembers(v, n - 1, tokens)
      case None => None
      case Some(prefix) =>
        match ReplaceSpec(v.members[n - 1].1, tokens)
        case None => None
        case Some(c) => Some(prefix + [(v.members[n - 1].0, c)])
  }

  /** `replace(obj, tokens)` with the token map given: objects and arrays
      are rewritten in place, member by member, by a recursive call. */
  method ReplaceValue(v: Value, tokens: Entries<string>) returns (r: Option<Value>)
    ensures r == ReplaceSpec(v, tokens)
    decreases v, 1
  {
    match v {
      case Undef =>
        r := Some(Undef);
      case Null =>
        r := None;
      case Arr(_) =>
        r := ReplaceArray(v, tokens);
      case Obj(_, _) =>
        r := ReplaceObject(v, tokens);
      case _ =>
        var s := ReplaceString(ToString(v), tokens);
        r := Some(Str(s));
    }
  }

  /** The array branch of `replace`: each element, in index order, is
      replaced by the recursive call's result. */
  method ReplaceArray(v: Value, tokens: Entries<string>) returns (r: Option<Value>)
    requires v.Arr?
    ensures r == ReplaceSpec(v, tokens)
    decreases v, 0
  {
    var items := v.items;
    var out := items;
    var i := 0;
    while i < |items|
      invariant 0 <= i <= |items| && |out| == |items|
      invariant ReplaceItems(v, i, tokens) == Some(out[..i])
      invariant out[i..] == items[i..]
    {
      var c := ReplaceValue(items[i], tokens);
      if c.None? {
        return None;
      }
      out := out[i := c.value];
      assert out[..i + 1] == out[..i] + [c.value];
      i := i + 1;
    }
    assert out[..i] == out;
    r := Some(Arr(out));
  }

  /** The object branch of `replace`: each member's value, in key order, is
      replaced by the recursive call's result; the keys stay. */
  method ReplaceObject(v: Value, tokens: Entries<string>) returns (r: Option<Value>)
    requires v.Obj?
    ensures r == ReplaceSpec(v, tokens)
    decreases v, 0
  {
    var ms := v.members;
    var out := ms;
    var i := 0;
    while i < |ms|
      invariant 0 <= i <= |ms| && |out| == |ms|
      invariant ReplaceMembers(v, i, tokens) == Some(out[..i])
      invariant out[i..] == ms[i..]
    {
      var c := ReplaceValue(ms[i].1, tokens);
      if c.None? {
        return None;
      }
      out := out[i := (ms[i].0, c.value)];
      assert out[..i + 1] == out[..i] + [(ms[i].0, c.value)];
      i := i + 1;
    }
    assert out[..i] == out;
    r := Some(Obj(v.kind, out));
  }

  // ---------------------------------------------------------------------
  // Properties

  /** Only the first occurrence of a placeholder is replaced: a second
      occurrence of the same placeholder survives. */
  lemma FirstOccurrenceOnly()
    ensures Substitute("[a:b]-[a:b]", [("[a:b]", "Y")]) == "Y-[a:b]"
  {
    var s := "[a:b]-[a:b]";
    assert OccursAt(s, "[a:b]", 0);
    assert IndexOf(s, "[a:b]") == Some(0);
    ReplaceFirstAt(s, "[a:b]", "Y", 0);
    assert s[5..] == "-[a:b]";
  }

  /** A replacement value is read as a `replace` pattern: `$&` inserts the
      placeholder itself. */
  lemma DollarPatternInValue()
    ensures Substitute("[x]", [("[x]", "$&$&")]) == "[x][x]"
  {
    var s := "[x]";
    assert OccursAt(s, "[x]", 0);
    assert IndexOf(s, "[x]") == Some(0);
    assert s[..0] == "" && s[3..] == "";
    assert Expand("$&$&", "[x]", "", "") == "[x]" + Expand("$&", "[x]", "", "");
  }
}
