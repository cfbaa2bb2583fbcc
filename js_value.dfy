/** JavaScript values as the token service sees them: the token tree, the
    inputs of `replace`, the configuration object and the arguments of
    `extend` are all trees of this one type. */
module JsValue {

  import opened OrderedMap

  /** An object made by the `Object` constructor (a plain object) or any
      other object: a class instance, a DOM node, the window. */
  datatype ObjKind = Plain | Foreign

  /** A JavaScript value without cycles. An array hole reads as `Undef`.
      Members keep the object's key enumeration order. */
  datatype Value =
    | Undef
    | Null
    | Bool(b: bool)
    | Num(n: int)
    | Str(s: string)
    | Arr(items: seq<Value>)
    | Obj(kind: ObjKind, members: seq<(string, Value)>)

  /** `{}` */
  function EmptyObject(): Value { Obj(Plain, []) }

  /** JavaScript truthiness (`!!v`): every object, even an empty one, is
      truthy, so `x || {}` keeps any object; `undefined` and `null` are not. */
  predicate Truthy(v: Value)
    ensures IsObject(v) ==> Truthy(v)
    ensures v.Undef? || v.Null? ==> !Truthy(v)
  {
    match v
    case Undef => false
    case Null => false
    case Bool(b) => b
    case Num(n) => n != 0
    case Str(s) => s != ""
    case _ => true
  }

  /** `angular.isObject`: not null and of type 'object' (arrays included). */
  predicate IsObject(v: Value) { v.Arr? || v.Obj? }

  /** A scalar: what `toString` is called on in `replace`. */
  predicate IsScalar(v: Value) { v.Bool? || v.Num? || v.Str? }

  /** No `null` anywhere in the tree. */
  predicate NullFree(v: Value)
  {
    match v
    case Null => false
    case Arr(items) => forall i :: 0 <= i < |items| ==> NullFree(items[i])
    case Obj(_, ms) => forall i :: 0 <= i < |ms| ==> NullFree(ms[i].1)
    case _ => true
  }

  // ---------------------------------------------------------------------
  // Decimal digits

  function DigitChar(d: nat): char
    requires d < 10
  {
    "0123456789"[d]
  }

  /** Decimal form of a natural number, as `Number.prototype.toString`. */
  function NatToString(n: nat): (r: string)
    ensures |r| > 0
    ensures forall i :: 0 <= i < |r| ==> '0' <= r[i] <= '9'
    ensures |r| > 1 ==> r[0] != '0'
    decreases n
  {
    if n < 10 then [DigitChar(n)] else NatToString(n / 10) + [DigitChar(n % 10)]
  }

  /** Decimal form of an integer with a leading '-' when negative. */
  function IntToString(i: int): (r: string)
    ensures |r| > 0
    ensures (r[0] == '-') <==> i < 0
  {
    if i < 0 then "-" + NatToString(-i) else NatToString(i)
  }

  function DigitsValue(s: string): nat
    requires forall i :: 0 <= i < |s| ==> '0' <= s[i] <= '9'
  {
    if s == [] then 0
    else DigitsValue(s[..|s| - 1]) * 10 + (s[|s| - 1] as int - '0' as int)
  }

  /** The array index a property key names, if it is a canonical index
      ("0" or a digit string without leading zero). */
  function ParseIndex(k: string): (r: Option<nat>)
    ensures r.Some? ==> |k| > 0 && forall i :: 0 <= i < |k| ==> '0' <= k[i] <= '9'
    ensures r.Some? ==> |k| == 1 || k[0] != '0'
  {
    if |k| > 0 && (forall i :: 0 <= i < |k| ==> '0' <= k[i] <= '9') && (|k| == 1 || k[0] != '0')
    then Some(DigitsValue(k))
    else None
  }

  /** `String(v)` for a scalar, as `v.toString()` gives it: a string is
      itself, a number its decimal form, which reads back as the number. */
  function ToString(v: Value): (r: string)
    requires IsScalar(v)
    ensures v.Str? ==> r == v.s
    ensures v.Num? ==> |r| > 0 && (r[0] == '-' <==> v.n < 0)
    ensures v.Num? && v.n >= 0 ==> ParseIndex(r) == Some(v.n)
    ensures v.Bool? ==> r == "true" || r == "false"
  {
    match v
    case Bool(b) => if b then "true" else "false"
    case Num(n) => if n >= 0 then ParseNatToString(n); IntToString(n) else IntToString(n)
    case Str(s) => s
  }

  // ---------------------------------------------------------------------
  // Members of an object

  /** Reading `obj[k]`: the member's value, `Undef` when absent. */
  function Lookup(ms: seq<(string, Value)>, k: string): (r: Value)
    ensures !HasKey(ms, k) ==> r == Undef
    ensures r != Undef ==> exists i :: 0 <= i < |ms| && ms[i] == (k, r)
  {
    match Find(ms, k)
    case Some(v) => v
    case None => Undef
  }

  /** `v[k]` for any value: an object's member, an array's element. Every
      other read gives `Undef` in this model: a missing member, a named
      property of an array, and every property of a scalar, including a
      string's characters and `length`, which JavaScript would give. */
  function Child(v: Value, k: string): Value
  {
    match v
    case Obj(_, ms) => Lookup(ms, k)
    case Arr(items) =>
      (match ParseIndex(k)
       case Some(i) => if i < |items| then items[i] else Undef
       case None => Undef)
    case _ => Undef
  }

  /** `items[i] = x` on an array: the array grows to hold index `i`, with
      holes (read as `undefined`) in between. */
  function SetIndex(items: seq<Value>, i: nat, x: Value): (r: seq<Value>)
    ensures |r| == if i < |items| then |items| else i + 1
    ensures r[i] == x
    ensures forall j :: 0 <= j < |r| && j != i ==> r[j] == if j < |items| then items[j] else Undef
  {
    if i < |items| then items[i := x] else items + seq(i - |items|, _ => Undef) + [x]
  }

  /** `v[k] = x`: sets an object's member or an array's element. A named
      (non-index) property of an array is not modelled and is not set. */
  function SetChild(v: Value, k: string, x: Value): Value
  {
    match v
    case Obj(kind, ms) => Obj(kind, Put(ms, k, x))
    case Arr(items) =>
      (match ParseIndex(k)
       case Some(i) => Arr(SetIndex(items, i, x))
       case None => v)
    case _ => v
  }

  /** Walks a key path through nested values. */
  function Walk(v: Value, path: seq<string>): Value
    decreases path
  {
    if path == [] then v else Walk(Child(v, path[0]), path[1..])
  }

  /** Reading a member after writing it gives the written value. */
  lemma ChildAfterSet(v: Value, k: string, x: Value)
    requires IsObject(v) && (v.Obj? || ParseIndex(k).Some?)
    ensures Child(SetChild(v, k, x), k) == x
  {
    if v.Obj? {
      PutFind(v.members, k, x, k);
    }
  }

  /** Writing one member of an object leaves every other member alone. */
  lemma ChildAfterSetOther(v: Value, k: string, x: Value, k': string)
    requires v.Obj? && k' != k
    ensures Child(SetChild(v, k, x), k') == Child(v, k')
  {
    PutFind(v.members, k, x, k');
  }

  /** An array index written in decimal reads back as that index. */
  lemma ParseNatToString(n: nat)
    ensures ParseIndex(NatToString(n)) == Some(n)
  {
    DigitsOfNatToString(n);
  }

  lemma {:induction false} DigitsOfNatToString(n: nat)
    ensures DigitsValue(NatToString(n)) == n
    decreases n
  {
    var s := NatToString(n);
    if n >= 10 {
      DigitsOfNatToString(n / 10);
      assert s[..|s| - 1] == NatToString(n / 10);
    }
  }
}
