/** Sequence helpers mirroring the Python string built-ins the bot relies on:
    searching (`str.find`), replacing (`str.replace`) and `str(int)`. */
module Text {
  import opened Wrappers

  /** `pat` occurs in `s` starting at index `k`. */
  predicate OccursAt<T(==)>(s: seq<T>, pat: seq<T>, k: nat) {
    k + |pat| <= |s| && s[k..k + |pat|] == pat
  }

  predicate Contains<T(==)>(s: seq<T>, pat: seq<T>) {
    exists k :: 0 <= k <= |s| && OccursAt(s, pat, k)
  }

  /** A text contains its own prefix. */
  lemma ContainsPrefix<T>(pat: seq<T>, rest: seq<T>)
    ensures Contains(pat + rest, pat)
  {
    assert (pat + rest)[..|pat|] == pat;
    assert OccursAt(pat + rest, pat, 0);
  }

  /** An occurrence in `g` is still one, further on, in `t + g`. */
  lemma ContainsAfter<T>(t: seq<T>, g: seq<T>, pat: seq<T>)
    requires Contains(g, pat)
    ensures Contains(t + g, pat)
  {
    var k :| 0 <= k <= |g| && OccursAt(g, pat, k);
    assert (t + g)[|t| + k..|t| + k + |pat|] == g[k..k + |pat|];
    assert OccursAt(t + g, pat, |t| + k);
  }

  lemma ContainsMiddle<T>(t: seq<T>, pat: seq<T>, rest: seq<T>)
    ensures Contains(t + pat + rest, pat)
  {
    ContainsPrefix(pat, rest);
    ContainsAfter(t, pat + rest, pat);
    assert t + (pat + rest) == t + pat + rest;
  }

  /** Leftmost occurrence of `pat` at or after index `from`, as `s.find(pat, from)`. */
  function Find<T(==)>(s: seq<T>, pat: seq<T>, from: nat): (r: Option<nat>)
    ensures r.Some? ==> from <= r.value && OccursAt(s, pat, r.value)
    ensures r.Some? ==> forall k: nat :: from <= k < r.value ==> !OccursAt(s, pat, k)
    ensures r.None? ==> forall k: nat :: from <= k ==> !OccursAt(s, pat, k)
    decreases |s| - from
  {
    if |s| < from + |pat| then None
    else if OccursAt(s, pat, from) then Some(from)
    else Find(s, pat, from + 1)
  }

  /** Python's `s.replace(pat, rep)`: every leftmost, non-overlapping occurrence of `pat`
      is replaced, scanning left to right; an empty `pat` inserts `rep` around every element. */
  function ReplaceAll<T(==)>(s: seq<T>, pat: seq<T>, rep: seq<T>): (r: seq<T>)
    ensures pat == rep ==> r == s
    decreases |s|
  {
    if |pat| == 0 then
      (if |s| == 0 then rep else rep + [s[0]] + ReplaceAll(s[1..], pat, rep))
    else if OccursAt(s, pat, 0) then rep + ReplaceAll(s[|pat|..], pat, rep)
    else if |s| == 0 then []
    else [s[0]] + ReplaceAll(s[1..], pat, rep)
  }

  /** When no occurrence of `pat` starts inside the prefix `a`, replacing in `a + b`
      leaves `a` alone. */
  lemma {:induction false} ReplaceSkipsPrefix<T>(a: seq<T>, b: seq<T>, pat: seq<T>, rep: seq<T>)
    requires |pat| > 0
    requires forall k: nat :: k < |a| ==> !OccursAt(a + b, pat, k)
    ensures ReplaceAll(a + b, pat, rep) == a + ReplaceAll(b, pat, rep)
    decreases |a|
  {
    if |a| > 0 {
      assert !OccursAt(a + b, pat, 0);
      assert (a + b)[1..] == a[1..] + b;
      forall k: nat | k < |a[1..]|
        ensures !OccursAt(a[1..] + b, pat, k)
      {
        assert !OccursAt(a + b, pat, k + 1);
        if k + |pat| <= |a[1..] + b| {
          assert (a[1..] + b)[k..k + |pat|] == (a + b)[k + 1..k + 1 + |pat|];
        }
      }
      ReplaceSkipsPrefix(a[1..], b, pat, rep);
      assert ReplaceAll(a + b, pat, rep) == [a[0]] + ReplaceAll(a[1..] + b, pat, rep);
      assert a == [a[0]] + a[1..];
    } else {
      assert a + b == b;
    }
  }

  /** A sequence without any occurrence of `pat` is returned unchanged. */
  lemma ReplaceWithoutOccurrence<T>(s: seq<T>, pat: seq<T>, rep: seq<T>)
    requires |pat| > 0
    requires forall k: nat :: k < |s| ==> !OccursAt(s, pat, k)
    ensures ReplaceAll(s, pat, rep) == s
  {
    assert s + [] == s;
    ReplaceSkipsPrefix(s, [], pat, rep);
  }

  /** An occurrence at the front is replaced and scanning resumes after it. */
  lemma ReplaceAtFront<T>(a: seq<T>, b: seq<T>, pat: seq<T>, rep: seq<T>)
    requires |pat| > 0 && a == pat
    ensures ReplaceAll(a + b, pat, rep) == rep + ReplaceAll(b, pat, rep)
  {
    assert (a + b)[..|pat|] == pat;
    assert (a + b)[|pat|..] == b;
  }

  /** A pattern whose first element never appears in `a` cannot start inside `a`. */
  lemma NoStartInside<T>(a: seq<T>, b: seq<T>, pat: seq<T>)
    requires |pat| > 0 && pat[0] !in a
    ensures forall k: nat :: k < |a| ==> !OccursAt(a + b, pat, k)
  {
    forall k: nat | k < |a|
      ensures !OccursAt(a + b, pat, k)
    {
      assert (a + b)[k] == a[k];
    }
  }

  /** Decimal digit of `d`. */
  function DigitChar(d: nat): (c: char)
    requires d < 10
    ensures '0' <= c <= '9'
  {
    ['0', '1', '2', '3', '4', '5', '6', '7', '8', '9'][d]
  }

  /** Python's `str(n)` for a non-negative integer. */
  function NatToString(n: nat): (r: string)
    ensures |r| > 0
    ensures forall i :: 0 <= i < |r| ==> '0' <= r[i] <= '9'
    ensures n < 10 ==> |r| == 1
  {
    if n < 10 then [DigitChar(n)] else NatToString(n / 10) + [DigitChar(n % 10)]
  }
}
