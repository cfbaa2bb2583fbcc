/** The JavaScript string built-ins the token service relies on:
    `indexOf`, `split` and `replace` on strings and `join` on arrays, as
    section 21.1.3 and section 22.1.3.12 of ECMA-262 (6th edition) define
    them for string arguments. */
module JsString {

  import opened OrderedMap

  /** `pat` occurs in `s` starting at index `i`. */
  predicate OccursAt(s: string, pat: string, i: int)
  {
    0 <= i && i + |pat| <= |s| && s[i..i + |pat|] == pat
  }

  function IndexFrom(s: string, pat: string, from: nat): (r: Option<nat>)
    requires from <= |s|
    ensures r.Some? ==> from <= r.value && OccursAt(s, pat, r.value)
    ensures r.Some? ==> forall j :: from <= j < r.value ==> !OccursAt(s, pat, j)
    ensures r.None? ==> forall j :: from <= j ==> !OccursAt(s, pat, j)
    decreases |s| - from
  {
    if from + |pat| > |s| then None
    else if s[from..from + |pat|] == pat then Some(from)
    else if from == |s| then None
    else IndexFrom(s, pat, from + 1)
  }

  /** `s.indexOf(pat)`: the first index where `pat` occurs (0 for the empty
      pattern), or nothing. */
  function IndexOf(s: string, pat: string): (r: Option<nat>)
    ensures r.Some? ==> OccursAt(s, pat, r.value)
    ensures r.Some? ==> forall j :: 0 <= j < r.value ==> !OccursAt(s, pat, j)
    ensures r.None? <==> forall j :: !OccursAt(s, pat, j)
  {
    IndexFrom(s, pat, 0)
  }

  /** The replacement text for one match (GetSubstitution, section
      21.1.3.14.1 of ECMA-262, 6th edition, for a pattern without capture
      groups): `$$` is a dollar sign, `$&` the match, `` $` `` the text before
      it and `$'` the text after it; every other character, a `$n` included,
      is itself. */
  function Expand(rep: string, matched: string, before: string, after: string): (r: string)
    ensures (forall i :: 0 <= i < |rep| ==> rep[i] != '$') ==> r == rep
    decreases |rep|
  {
    if rep == "" then ""
    else if rep[0] == '$' && |rep| >= 2 && rep[1] in "$&`'" then
      var piece := match rep[1]
        case '$' => "$"
        case '&' => matched
        case '`' => before
        case _ => after;
      piece + Expand(rep[2..], matched, before, after)
    else [rep[0]] + Expand(rep[1..], matched, before, after)
  }

  /** No `$` in a replacement: it stands for itself. */
  predicate DollarFree(rep: string)
  {
    forall i :: 0 <= i < |rep| ==> rep[i] != '$'
  }

  /** `s.replace(pat, rep)` with a string pattern: only the FIRST occurrence
      of `pat` is replaced (section 21.1.3.14 of ECMA-262, 6th edition); the
      text before and after it is kept. */
  function ReplaceFirst(s: string, pat: string, rep: string): (r: string)
    ensures (forall j :: !OccursAt(s, pat, j)) ==> r == s
    ensures IndexOf(s, pat).Some? ==> s[..IndexOf(s, pat).value] <= r
  {
    match IndexOf(s, pat)
    case None => s
    case Some(i) => SwapAt(s, pat, rep, i)
  }

  /** The occurrence of `pat` at `i` swapped for the expanded replacement. */
  function SwapAt(s: string, pat: string, rep: string, i: nat): (r: string)
    requires i + |pat| <= |s|
    ensures s[..i] <= r
  {
    var after := s[i + |pat|..];
    s[..i] + Expand(rep, pat, s[..i], after) + after
  }

  /** `segs.join(d)`: the first piece, then a delimiter before each further
      piece (see `JoinAppend`). */
  function Join(segs: seq<string>, d: string): (r: string)
    decreases |segs|
  {
    if segs == [] then ""
    else if |segs| == 1 then segs[0]
    else segs[0] + d + Join(segs[1..], d)
  }

  /** Joining two non-empty paths one after the other is joining each and
      putting the delimiter between them: the key path of a member is its
      parent's joined path, the delimiter and the member's key. */
  lemma {:induction false} JoinAppend(p: seq<string>, q: seq<string>, d: string)
    requires |p| > 0 && |q| > 0
    ensures Join(p + q, d) == Join(p, d) + d + Join(q, d)
    decreases |p|
  {
    if |p| == 1 {
      assert (p + q)[0] == p[0] && (p + q)[1..] == q;
    } else {
      assert (p + q)[0] == p[0] && (p + q)[1..] == p[1..] + q;
      JoinAppend(p[1..], q, d);
    }
  }

  /** `s.split(d)` without a limit: the pieces between the non-overlapping
      occurrences of `d`, found left to right; the empty separator splits
      into single characters. */
  function Split(s: string, d: string): (r: seq<string>)
    ensures d != "" ==> |r| > 0
    decreases |s|
  {
    if d == "" then
      (if s == "" then [] else [s[..1]] + Split(s[1..], d))
    else
      match IndexOf(s, d)
      case None => [s]
      case Some(i) => [s[..i]] + Split(s[i + |d|..], d)
  }

  /** A one-character separator that does not occur leaves the string whole. */
  lemma SplitWithout(s: string, c: char)
    requires c !in s
    ensures Split(s, [c]) == [s]
  {
    forall j ensures !OccursAt(s, [c], j) {
      if 0 <= j < |s| {
        assert s[j..j + 1] == [s[j]];
        assert s[j] in s;
      }
    }
  }

  /** Splitting on a one-character separator cuts at its first occurrence. */
  lemma SplitAtFirst(s: string, c: char, i: nat)
    requires i < |s| && s[i] == c && c !in s[..i]
    ensures Split(s, [c]) == [s[..i]] + Split(s[i + 1..], [c])
  {
    FirstOccurrence(s, c, i);
  }

  lemma FirstOccurrence(s: string, c: char, i: nat)
    requires i < |s| && s[i] == c && c !in s[..i]
    ensures IndexOf(s, [c]) == Some(i)
  {
    assert OccursAt(s, [c], i);
    forall j | 0 <= j < i ensures !OccursAt(s, [c], j) {
      assert s[j..j + 1] == [s[j]];
      assert s[j] == s[..i][j];
      assert s[..i][j] in s[..i];
    }
  }

  /** An occurrence whose first character appears nowhere before it is the
      one `indexOf` finds. */
  lemma FirstOccurrenceOf(s: string, pat: string, i: nat)
    requires |pat| > 0 && OccursAt(s, pat, i) && pat[0] !in s[..i]
    ensures IndexOf(s, pat) == Some(i)
  {
    forall j | 0 <= j < i ensures !OccursAt(s, pat, j) {
      if j + |pat| <= |s| {
        assert s[j..j + |pat|][0] == s[j];
        assert s[j] == s[..i][j];
        assert s[..i][j] in s[..i];
      }
    }
  }

  /** No segment contains the one-character delimiter. */
  predicate DelimiterFree(segs: seq<string>, d: string)
    requires |d| == 1
  {
    forall i :: 0 <= i < |segs| ==> d[0] !in segs[i]
  }

  /** Splitting a joined path gives the path back, when the delimiter is a
      single character that no segment contains. */
  lemma {:induction false} SplitJoin(segs: seq<string>, d: string)
    requires |d| == 1 && |segs| > 0 && DelimiterFree(segs, d)
    ensures Split(Join(segs, d), d) == segs
    decreases |segs|
  {
    var s := Join(segs, d);
    var h := segs[0];
    if |segs| == 1 {
    } else {
      var rest := Join(segs[1..], d);
      assert s == h + d + rest;
      assert OccursAt(s, d, |h|) by { assert s[|h|..|h| + 1] == d; }
      assert s[|h| + |d|..] == rest;
      assert s[..|h|] == h;
      SplitJoin(segs[1..], d);
      assert segs == [h] + segs[1..];
    }
  }

  /** Joining the pieces of a split gives the string back. */
  lemma {:induction false} JoinSplit(s: string, d: string)
    requires d != ""
    ensures Join(Split(s, d), d) == s
    decreases |s|
  {
    match IndexOf(s, d)
    case None =>
    case Some(i) =>
      var tail := s[i + |d|..];
      JoinSplit(tail, d);
      var r := Split(s, d);
      assert r == [s[..i]] + Split(tail, d);
      assert r[1..] == Split(tail, d);
      assert s[i..i + |d|] == d;
      assert s == s[..i] + s[i..i + |d|] + tail;
  }

  /** Distinct delimiter-free paths join to distinct strings. */
  lemma JoinInjective(p: seq<string>, q: seq<string>, d: string)
    requires |d| == 1 && |p| > 0 && |q| > 0
    requires DelimiterFree(p, d) && DelimiterFree(q, d)
    requires Join(p, d) == Join(q, d)
    ensures p == q
  {
    SplitJoin(p, d);
    SplitJoin(q, d);
  }

  /** `replace` with a string pattern leaves every later occurrence of the
      pattern in place: an occurrence at `j` that does not overlap the first
      one is still there, shifted by the change in length. */
  lemma ReplaceFirstKeepsLater(s: string, pat: string, rep: string, i: nat, j: nat)
    requires OccursAt(s, pat, i) && OccursAt(s, pat, j) && i + |pat| <= j
    requires DollarFree(rep)
    ensures OccursAt(ReplaceFirst(s, pat, rep), pat, j - |pat| + |rep|)
  {
    var f := FirstAtMost(s, pat, i);
    ReplaceFirstAt(s, pat, rep, f);
    ShiftedAfterSwap(s, pat, rep, f, j, ReplaceFirst(s, pat, rep));
  }

  lemma ShiftedAfterSwap(s: string, pat: string, rep: string, f: nat, j: nat, r: string)
    requires f + |pat| <= j && OccursAt(s, pat, j)
    requires r == s[..f] + rep + s[f + |pat|..]
    ensures OccursAt(r, pat, j - |pat| + |rep|)
  {
    var A := s[..f] + rep;
    ShiftedOccurrence(s, pat, f, j, A, s[f + |pat|..]);
    assert |A| + (j - f - |pat|) == j - |pat| + |rep|;
  }

  lemma FirstAtMost(s: string, pat: string, i: nat) returns (f: nat)
    requires OccursAt(s, pat, i)
    ensures IndexOf(s, pat) == Some(f) && f <= i
  {
    f := IndexOf(s, pat).value;
  }

  /** With a `$`-free replacement the first occurrence is swapped for it. */
  lemma ReplaceFirstAt(s: string, pat: string, rep: string, f: nat)
    requires IndexOf(s, pat) == Some(f) && DollarFree(rep)
    ensures ReplaceFirst(s, pat, rep) == s[..f] + rep + s[f + |pat|..]
  {
    var before, after := s[..f], s[f + |pat|..];
    ExpandDollarFree(rep, pat, before, after);
    ReplaceFirstUnfold(s, pat, rep, f, before, after);
  }

  lemma ReplaceFirstUnfold(s: string, pat: string, rep: string, f: nat, before: string, after: string)
    requires IndexOf(s, pat) == Some(f) && before == s[..f] && after == s[f + |pat|..]
    ensures ReplaceFirst(s, pat, rep) == before + Expand(rep, pat, before, after) + after
  {
    assert ReplaceFirst(s, pat, rep) == SwapAt(s, pat, rep, f);
  }

  lemma ExpandDollarFree(rep: string, matched: string, before: string, after: string)
    requires DollarFree(rep)
    ensures Expand(rep, matched, before, after) == rep
  {
  }

  lemma ShiftedOccurrence(s: string, pat: string, f: nat, j: nat, A: string, B: string)
    requires f + |pat| <= j && OccursAt(s, pat, j)
    requires B == s[f + |pat|..]
    ensures OccursAt(A + B, pat, |A| + (j - f - |pat|))
  {
    var o := j - f - |pat|;
    SliceOfSuffix(s, f + |pat|, o, |pat|);
    SliceOfConcat(A, B, o, |pat|);
  }

  lemma SliceOfSuffix(s: string, k: nat, o: nat, n: nat)
    requires k + o + n <= |s|
    ensures s[k..][o..o + n] == s[k + o..k + o + n]
  {
  }

  lemma SliceOfConcat(a: string, b: string, o: nat, n: nat)
    requires o + n <= |b|
    ensures (a + b)[|a| + o..|a| + o + n] == b[o..o + n]
  {
  }
}
