/** Insertion-ordered string-keyed maps: the shape of a JavaScript object
    read as a dictionary. Writing an existing key keeps its place; writing a
    new key appends it. Used for object members and for the flat
    placeholder map. */
module OrderedMap {

  datatype Option<T> = None | Some(value: T)

  type Entries<V> = seq<(string, V)>

  predicate UniqueKeys<V>(d: Entries<V>)
  {
    forall i, j :: 0 <= i < j < |d| ==> d[i].0 != d[j].0
  }

  predicate HasKey<V>(d: Entries<V>, k: string)
  {
    exists i :: 0 <= i < |d| && d[i].0 == k
  }

  /** The index of the first entry with key `k`. */
  function KeyIndex<V>(d: Entries<V>, k: string): (r: Option<nat>)
    ensures r.Some? ==> r.value < |d| && d[r.value].0 == k
    ensures r.Some? ==> forall j :: 0 <= j < r.value ==> d[j].0 != k
    ensures r.None? <==> !HasKey(d, k)
  {
    if d == [] then None
    else if d[0].0 == k then Some(0)
    else
      match KeyIndex(d[1..], k)
      case None => None
      case Some(i) => Some(i + 1)
  }

  /** The value of the first entry with key `k`: reading `obj[k]`. */
  function Find<V>(d: Entries<V>, k: string): (r: Option<V>)
    ensures r.Some? <==> HasKey(d, k)
  {
    match KeyIndex(d, k)
    case None => None
    case Some(i) => Some(d[i].1)
  }

  /** The value of the last entry with key `k`: what survives when the
      entries are written one after the other. */
  function FindLast<V>(d: Entries<V>, k: string): (r: Option<V>)
    ensures r.Some? <==> HasKey(d, k)
  {
    if d == [] then None
    else if d[|d| - 1].0 == k then Some(d[|d| - 1].1)
    else
      assert forall i :: 0 <= i < |d| - 1 ==> d[..|d| - 1][i] == d[i];
      FindLast(d[..|d| - 1], k)
  }

  /** `obj[k] = v`: an existing key keeps its place, a new one is appended. */
  function Put<V>(d: Entries<V>, k: string, v: V): Entries<V>
  {
    match KeyIndex(d, k)
    case None => d + [(k, v)]
    case Some(i) => d[i := (k, v)]
  }

  /** Writes every entry of `e`, in order, into `d`: lodash's `_.extend(d, e)`
      for a flat map. */
  function Merge<V>(d: Entries<V>, e: Entries<V>): Entries<V>
    decreases |e|
  {
    if e == [] then d else Merge(Put(d, e[0].0, e[0].1), e[1..])
  }

  /** The first index with key `k` is the one before which no entry has it. */
  lemma KeyIndexIs<V>(d: Entries<V>, k: string, i: nat)
    requires i < |d| && d[i].0 == k
    requires forall j :: 0 <= j < i ==> d[j].0 != k
    ensures KeyIndex(d, k) == Some(i)
  {
    var r := KeyIndex(d, k);
    assert r.Some?;
    assert !(r.value < i) && !(i < r.value);
  }

  /** Reading a key after writing it gives the written value; every other
      key reads as before. */
  lemma PutFind<V>(d: Entries<V>, k: string, v: V, k': string)
    ensures Find(Put(d, k, v), k') == if k' == k then Some(v) else Find(d, k')
  {
    var r := Put(d, k, v);
    match KeyIndex(d, k)
    case None =>
      KeyIndexIs(r, k, |d|);
      if k' != k {
        match KeyIndex(d, k')
        case None =>
        case Some(i) => KeyIndexIs(r, k', i);
      }
    case Some(i) =>
      KeyIndexIs(r, k, i);
      if k' != k {
        match KeyIndex(d, k')
        case None =>
          assert !HasKey(r, k');
        case Some(j) => KeyIndexIs(r, k', j);
      }
  }

  lemma PutUnique<V>(d: Entries<V>, k: string, v: V)
    requires UniqueKeys(d)
    ensures UniqueKeys(Put(d, k, v))
  {
  }

  /** Writing a key the map lacks appends it. */
  lemma PutFresh<V>(d: Entries<V>, k: string, v: V)
    requires !HasKey(d, k)
    ensures Put(d, k, v) == d + [(k, v)]
  {
  }

  lemma {:induction false} MergeUnique<V>(d: Entries<V>, e: Entries<V>)
    requires UniqueKeys(d)
    ensures UniqueKeys(Merge(d, e))
    decreases |e|
  {
    if e != [] {
      PutUnique(d, e[0].0, e[0].1);
      MergeUnique(Put(d, e[0].0, e[0].1), e[1..]);
    }
  }

  lemma {:induction false} FindLastAppend<V>(a: Entries<V>, b: Entries<V>, k: string)
    ensures FindLast(a + b, k) == if HasKey(b, k) then FindLast(b, k) else FindLast(a, k)
    decreases |b|
  {
    if b == [] {
      assert a + b == a;
    } else {
      var ab := a + b;
      var b' := b[..|b| - 1];
      assert ab[|ab| - 1] == b[|b| - 1];
      if b[|b| - 1].0 != k {
        assert ab[..|ab| - 1] == a + b';
        FindLastAppend(a, b', k);
        assert b == b' + [b[|b| - 1]];
        HasKeyConcat(b', [b[|b| - 1]], k);
      }
    }
  }

  lemma FindLastCons<V>(x: (string, V), e: Entries<V>, k: string)
    ensures FindLast([x] + e, k) ==
      if HasKey(e, k) then FindLast(e, k) else if x.0 == k then Some(x.1) else None
  {
    FindLastAppend([x], e, k);
  }

  /** Writing the entries of `e` into `d` leaves, at each key, the last value
      `e` gives it, and `d`'s value at every key `e` does not mention. */
  lemma {:induction false} MergeFind<V>(d: Entries<V>, e: Entries<V>, k: string)
    ensures Find(Merge(d, e), k) == if HasKey(e, k) then FindLast(e, k) else Find(d, k)
    decreases |e|
  {
    if e != [] {
      var d' := Put(d, e[0].0, e[0].1);
      assert Merge(d, e) == Merge(d', e[1..]);
      MergeFind(d', e[1..], k);
      PutFind(d, e[0].0, e[0].1, k);
      FirstEntryStep(e, k);
    }
  }

  /** How the first entry of `e` and the rest share the key `k`. */
  lemma FirstEntryStep<V>(e: Entries<V>, k: string)
    requires e != []
    ensures HasKey(e, k) <==> HasKey(e[1..], k) || e[0].0 == k
    ensures HasKey(e[1..], k) ==> FindLast(e, k) == FindLast(e[1..], k)
    ensures !HasKey(e[1..], k) && e[0].0 == k ==> FindLast(e, k) == Some(e[0].1)
  {
    assert e == [e[0]] + e[1..];
    FindLastCons(e[0], e[1..], k);
    HasKeyConcat([e[0]], e[1..], k);
  }

  /** Reading from a concatenation finds the first part's entry if it has one. */
  lemma FindAppend<V>(a: Entries<V>, b: Entries<V>, k: string)
    ensures Find(a + b, k) == if HasKey(a, k) then Find(a, k) else Find(b, k)
  {
    HasKeyConcat(a, b, k);
    match KeyIndex(a, k)
    case Some(i) =>
      KeyIndexIs(a + b, k, i);
    case None =>
      match KeyIndex(b, k)
      case None =>
      case Some(j) =>
        KeyIndexIs(a + b, k, |a| + j);
  }

  /** With unique keys the first and the last entry for a key are the same. */
  lemma {:induction false} FindLastUnique<V>(e: Entries<V>, k: string)
    requires UniqueKeys(e)
    ensures FindLast(e, k) == Find(e, k)
    decreases |e|
  {
    if e != [] {
      var init := e[..|e| - 1];
      var last := e[|e| - 1];
      assert e == init + [last];
      assert UniqueKeys(init);
      FindLastUnique(init, k);
      FindAppend(init, [last], k);
      if last.0 == k {
        assert !HasKey(init, k);
      }
    }
  }

  lemma HasKeyConcat<V>(a: Entries<V>, b: Entries<V>, k: string)
    ensures HasKey(a + b, k) <==> HasKey(a, k) || HasKey(b, k)
  {
    if HasKey(a, k) {
      var i :| 0 <= i < |a| && a[i].0 == k;
      assert (a + b)[i].0 == k;
    }
    if HasKey(a + b, k) {
      var i :| 0 <= i < |a + b| && (a + b)[i].0 == k;
      if i >= |a| { assert b[i - |a|].0 == k; }
    }
    if HasKey(b, k) {
      var i :| 0 <= i < |b| && b[i].0 == k;
      assert (a + b)[i + |a|].0 == k;
    }
  }

  /** A prefix of a map grows by one entry at a time; with unique keys the
      entry added is the one a read of its key finds. */
  lemma PrefixStep<V>(d: Entries<V>, n: nat, k: string)
    requires 0 < n <= |d|
    ensures HasKey(d[..n], k) <==> HasKey(d[..n - 1], k) || d[n - 1].0 == k
    ensures UniqueKeys(d) && d[n - 1].0 == k ==> !HasKey(d[..n - 1], k) && Find(d, k) == Some(d[n - 1].1)
  {
    assert d[..n] == d[..n - 1] + [d[n - 1]];
    HasKeyConcat(d[..n - 1], [d[n - 1]], k);
    assert HasKey([d[n - 1]], k) <==> d[n - 1].0 == k;
    if UniqueKeys(d) && d[n - 1].0 == k {
      assert forall j :: 0 <= j < n - 1 ==> d[j].0 != k;
      assert !HasKey(d[..n - 1], k);
      KeyIndexIs(d, k, n - 1);
    }
  }

  /** Writing entries with fresh, distinct keys only appends them. */
  lemma {:induction false} MergeFresh<V>(d: Entries<V>, e: Entries<V>)
    requires UniqueKeys(e)
    requires forall i :: 0 <= i < |e| ==> !HasKey(d, e[i].0)
    ensures Merge(d, e) == d + e
    decreases |e|
  {
    if e != [] {
      var d' := FreshStep(d, e);
      assert Merge(d, e) == Merge(d', e[1..]);
      MergeFresh(d', e[1..]);
    }
  }

  /** Writing the first of the fresh entries appends it, and the rest stay
      fresh. */
  lemma FreshStep<V>(d: Entries<V>, e: Entries<V>) returns (d': Entries<V>)
    requires e != [] && UniqueKeys(e)
    requires forall i :: 0 <= i < |e| ==> !HasKey(d, e[i].0)
    ensures d' == Put(d, e[0].0, e[0].1) && d' + e[1..] == d + e
    ensures UniqueKeys(e[1..])
    ensures forall i :: 0 <= i < |e[1..]| ==> !HasKey(d', e[1..][i].0)
  {
    d' := Put(d, e[0].0, e[0].1);
    PutFresh(d, e[0].0, e[0].1);
    assert d' + e[1..] == d + ([e[0]] + e[1..]);
    assert [e[0]] + e[1..] == e;
    forall i | 0 <= i < |e[1..]| ensures !HasKey(d', e[1..][i].0) {
      var key := e[i + 1].0;
      assert e[1..][i].0 == key;
      assert key != e[0].0;
      HasKeyConcat(d, [e[0]], key);
    }
  }

  /** The two halves of a map with unique keys have unique keys and no key
      in common. */
  lemma UniqueKeysSplit<V>(a: Entries<V>, b: Entries<V>)
    requires UniqueKeys(a + b)
    ensures UniqueKeys(a) && UniqueKeys(b)
    ensures forall i :: 0 <= i < |b| ==> !HasKey(a, b[i].0)
  {
    assert forall i :: 0 <= i < |a| ==> (a + b)[i] == a[i];
    assert forall i :: 0 <= i < |b| ==> (a + b)[|a| + i] == b[i];
  }

  /** Merging a map that agrees with the last-wins reading of `b` into one
      that agrees with the last-wins reading of `a` agrees with the
      last-wins reading of `a + b`. */
  lemma MergeAgreesWithLast<V>(acc: Entries<V>, child: Entries<V>, a: Entries<V>, b: Entries<V>, k: string)
    requires UniqueKeys(child)
    requires Find(acc, k) == FindLast(a, k) && Find(child, k) == FindLast(b, k)
    ensures Find(Merge(acc, child), k) == FindLast(a + b, k)
  {
    MergeFind(acc, child, k);
    FindLastUnique(child, k);
    FindLastAppend(a, b, k);
  }
}
