/** String helpers with Python's `str` semantics, as used by the profiler's
    parser and by the style checks of its test suite. */
module Text {
  import opened Wrappers

  /** The characters Python's `str.strip()` removes from a byte string. */
  predicate IsSpace(c: char) {
    c == ' ' || c == '\t' || c == '\n' || c == '\r' || c == '\U{0B}' || c == '\U{0C}'
  }

  predicate AllSpace(s: string) {
    forall i :: 0 <= i < |s| ==> IsSpace(s[i])
  }

  /** The first index in `lo..hi` that is not whitespace, or `hi`. */
  function FirstKept(s: string, lo: nat, hi: nat): (r: nat)
    requires lo <= hi <= |s|
    decreases hi - lo
    ensures lo <= r <= hi
    ensures forall k :: lo <= k < r ==> IsSpace(s[k])
    ensures r < hi ==> !IsSpace(s[r])
  {
    if lo < hi && IsSpace(s[lo]) then FirstKept(s, lo + 1, hi) else lo
  }

  /** The end of `lo..hi` once trailing whitespace is cut, or `lo`. */
  function LastKept(s: string, lo: nat, hi: nat): (r: nat)
    requires lo <= hi <= |s|
    decreases hi - lo
    ensures lo <= r <= hi
    ensures forall k :: r <= k < hi ==> IsSpace(s[k])
    ensures r > lo ==> !IsSpace(s[r - 1])
  {
    if lo < hi && IsSpace(s[hi - 1]) then LastKept(s, lo, hi - 1) else hi
  }

  /** `s.strip()`: the longest slice of `s` that neither starts nor ends with
      whitespace, once all surrounding whitespace is gone. */
  function Strip(s: string): (r: string)
    ensures |r| > 0 ==> !IsSpace(r[0]) && !IsSpace(r[|r| - 1])
    ensures r == [] <==> AllSpace(s)
  {
    var a := FirstKept(s, 0, |s|);
    var e := LastKept(s, a, |s|);
    StripEnds(s, a, e);
    s[a..e]
  }

  /** The cut `Strip` makes: only whitespace before and after it. */
  lemma StripEnds(s: string, a: nat, e: nat)
    requires a == FirstKept(s, 0, |s|) && e == LastKept(s, a, |s|)
    ensures a <= e <= |s|
    ensures AllSpace(s[..a]) && AllSpace(s[e..])
    ensures e > a ==> !IsSpace(s[a]) && !IsSpace(s[e - 1])
    ensures e == a <==> AllSpace(s)
  {
    forall i | 0 <= i < a ensures IsSpace(s[..a][i]) {
      assert s[..a][i] == s[i];
    }
    forall i | 0 <= i < |s| - e ensures IsSpace(s[e..][i]) {
      assert s[e..][i] == s[e + i];
    }
    if e == a {
      forall i | 0 <= i < |s| ensures IsSpace(s[i]) {
      }
    } else {
      assert !IsSpace(s[a]);
    }
  }

  /** `Strip` keeps a slice of `s` with only whitespace around it. */
  lemma StripSlice(s: string)
    ensures exists a :: 0 <= a && a + |Strip(s)| <= |s| && Strip(s) == s[a..a + |Strip(s)|]
                        && AllSpace(s[..a]) && AllSpace(s[a + |Strip(s)|..])
  {
    var a := FirstKept(s, 0, |s|);
    var e := LastKept(s, a, |s|);
    StripEnds(s, a, e);
    assert Strip(s) == s[a..e];
  }

  /** Stripping twice removes nothing more. */
  lemma StripIdempotent(s: string)
    ensures Strip(Strip(s)) == Strip(s)
  {
    var r := Strip(s);
    if |r| > 0 {
      StripPadded([], r, []);
      assert [] + r + [] == r;
    }
  }

  /** Strip removes exactly the surrounding whitespace: a padded word with
      no whitespace at either end strips back to the word. */
  lemma StripPadded(pre: string, core: string, post: string)
    requires AllSpace(pre) && AllSpace(post)
    requires |core| > 0 && !IsSpace(core[0]) && !IsSpace(core[|core| - 1])
    ensures Strip(pre + core + post) == core
  {
    var x := pre + core + post;
    var a := |pre|;
    var e := |pre| + |core|;
    assert x[a] == core[0] && x[e - 1] == core[|core| - 1];
    forall k | 0 <= k < a ensures IsSpace(x[k]) {
      assert x[k] == pre[k];
    }
    forall k | e <= k < |x| ensures IsSpace(x[k]) {
      assert x[k] == post[k - e];
    }
    FirstKeptAt(x, 0, |x|, a);
    LastKeptAt(x, a, |x|, e);
    assert x[a..e] == core;
  }

  lemma {:induction false} FirstKeptAt(s: string, lo: nat, hi: nat, a: nat)
    requires lo <= a < hi <= |s| && !IsSpace(s[a])
    requires forall k :: lo <= k < a ==> IsSpace(s[k])
    ensures FirstKept(s, lo, hi) == a
    decreases a - lo
  {
    if lo < a {
      FirstKeptAt(s, lo + 1, hi, a);
    }
  }

  lemma {:induction false} LastKeptAt(s: string, lo: nat, hi: nat, e: nat)
    requires lo < e <= hi <= |s| && !IsSpace(s[e - 1])
    requires forall k :: e <= k < hi ==> IsSpace(s[k])
    ensures LastKept(s, lo, hi) == e
    decreases hi - e
  {
    if e < hi {
      LastKeptAt(s, lo, hi - 1, e);
    }
  }

  /** `s.startswith(p)`. */
  predicate StartsWith(s: string, p: string) {
    |p| <= |s| && s[..|p|] == p
  }

  /** `s.endswith(p)`. */
  predicate EndsWith(s: string, p: string) {
    |p| <= |s| && s[|s| - |p|..] == p
  }

  /** `pat` occurs in `s` starting at index `j`. */
  predicate OccursAt(s: string, pat: string, j: int) {
    0 <= j && j + |pat| <= |s| && s[j..j + |pat|] == pat
  }

  /** The first index at or after `from` where `pat` occurs (`s.find(pat, from)`),
      or `None` where Python returns -1. */
  function FindFrom(s: string, pat: string, from: nat): (r: Option<nat>)
    decreases |s| - from
    ensures r.Some? ==> from <= r.value && OccursAt(s, pat, r.value)
    ensures r.Some? ==> forall j :: from <= j < r.value ==> !OccursAt(s, pat, j)
    ensures r.None? ==> forall j :: from <= j ==> !OccursAt(s, pat, j)
  {
    if from + |pat| > |s| then None
    else if s[from..from + |pat|] == pat then Some(from)
    else FindFrom(s, pat, from + 1)
  }

  /** `s.find(pat)`. */
  function Find(s: string, pat: string): Option<nat> {
    FindFrom(s, pat, 0)
  }

  /** `s.split(sep)[0]`: everything before the first `sep`, or all of `s`. */
  function BeforeFirst(s: string, sep: char): (r: string)
    ensures StartsWith(s, r)
    ensures sep !in r
    ensures |r| < |s| ==> s[|r|] == sep
  {
    if |s| == 0 || s[0] == sep then [] else [s[0]] + BeforeFirst(s[1..], sep)
  }

  /** `split(sep)[0]` is the longest prefix free of `sep`: any prefix free
      of `sep` that ends at `sep` or at the end of `s` is the result. */
  lemma {:induction false} BeforeFirstAt(s: string, sep: char, i: nat)
    requires i <= |s| && sep !in s[..i] && (i < |s| ==> s[i] == sep)
    ensures BeforeFirst(s, sep) == s[..i]
  {
    if i > 0 {
      assert s[0] in s[..i];
      assert s[1..][..i - 1] == s[1..i];
      BeforeFirstAt(s[1..], sep, i - 1);
      assert s[..i] == [s[0]] + s[1..i];
    }
  }
}
