/** Searching in strings: the library calls (`find`, `rfind`) and the suffix/prefix
    overlap that the channel code is built from. */
module Strings {

  datatype Option<+T> = None | Some(value: T)

  /** `pat` occurs in `t` at position `i`. */
  predicate OccursAt(t: string, pat: string, i: int) {
    0 <= i && i + |pat| <= |t| && t[i..i + |pat|] == pat
  }

  /** `std::string::find`: the first occurrence at or after `from`. */
  function Find(t: string, pat: string, from: nat): (r: Option<nat>)
    ensures r.Some? ==> from <= r.value && OccursAt(t, pat, r.value)
    ensures r.Some? ==> forall i :: from <= i < r.value ==> !OccursAt(t, pat, i)
    ensures r.None? ==> forall i :: from <= i ==> !OccursAt(t, pat, i)
    decreases |t| - from
  {
    if from + |pat| > |t| then None
    else if OccursAt(t, pat, from) then Some(from)
    else Find(t, pat, from + 1)
  }

  /** `std::string::rfind`: the last occurrence that starts at or before `from`. */
  function RFindFrom(t: string, pat: string, from: int): (r: Option<nat>)
    ensures r.Some? ==> r.value <= from && OccursAt(t, pat, r.value)
    ensures r.Some? ==> forall i :: r.value < i <= from ==> !OccursAt(t, pat, i)
    ensures r.None? ==> forall i :: i <= from ==> !OccursAt(t, pat, i)
    decreases from
  {
    if from < 0 then None
    else if OccursAt(t, pat, from) then Some(from)
    else RFindFrom(t, pat, from - 1)
  }

  function RFind(t: string, pat: string): (r: Option<nat>)
    ensures r.Some? ==> OccursAt(t, pat, r.value)
    ensures r.Some? ==> forall i :: r.value < i ==> !OccursAt(t, pat, i)
    ensures r.None? ==> forall i :: !OccursAt(t, pat, i)
  {
    RFindFrom(t, pat, |t|)
  }

  /** The last `len` characters of `a` are the first `len` characters of `b`. */
  predicate IsOverlap(a: string, b: string, len: nat) {
    len <= |a| && len <= |b| && a[|a| - len..] == b[..len]
  }

  function LongestOverlapUpTo(a: string, b: string, len: nat): (r: nat)
    ensures r <= len && IsOverlap(a, b, r)
    ensures forall n: nat :: r < n <= len ==> !IsOverlap(a, b, n)
  {
    if len == 0 || IsOverlap(a, b, len) then
      assert len == 0 ==> a[|a| - len..] == b[..len];
      len
    else LongestOverlapUpTo(a, b, len - 1)
  }

  /** The longest suffix of `a` that is a prefix of `b`. */
  function Overlap(a: string, b: string): (r: nat)
    ensures IsOverlap(a, b, r)
    ensures forall n: nat :: r < n ==> !IsOverlap(a, b, n)
  {
    LongestOverlapUpTo(a, b, if |a| < |b| then |a| else |b|)
  }

  method SuffixPrefixOverlap(a: string, b: string) returns (r: nat)
    ensures r == Overlap(a, b)
  {
    if a == "" || b == "" {
      return 0;
    }
    var len := if |a| < |b| then |a| else |b|;
    while len > 0
      invariant len <= |a| && len <= |b|
      invariant forall n: nat :: len < n ==> !IsOverlap(a, b, n)
    {
      if a[|a| - len..] == b[..len] {
        assert IsOverlap(a, b, len);
        return len;
      }
      len := len - 1;
    }
    return 0;
  }

  // ---- facts about occurrences -------------------------------------------------

  lemma OccursAtShift(t: string, pat: string, h: nat, i: int)
    requires h <= |t| && 0 <= i
    ensures OccursAt(t, pat, h + i) <==> OccursAt(t[h..], pat, i)
  {
    if h + i + |pat| <= |t| {
      assert t[h..][i..i + |pat|] == t[h + i..h + i + |pat|];
    }
  }

  /** Searching from `h` is searching the text from `h` on. */
  lemma FindShift(t: string, pat: string, h: nat, from: nat)
    requires h <= |t|
    ensures Find(t, pat, h + from) ==
            match Find(t[h..], pat, from) case None => None case Some(i) => Some(h + i)
  {
    forall i: nat ensures OccursAt(t, pat, h + i) <==> OccursAt(t[h..], pat, i) {
      OccursAtShift(t, pat, h, i);
    }
    var x, y := Find(t, pat, h + from), Find(t[h..], pat, from);
    if x.Some? {
      assert OccursAt(t[h..], pat, x.value - h);
    }
    if y.Some? {
      assert OccursAt(t, pat, h + y.value);
    }
  }

  /** An occurrence inside `a` is an occurrence in `a + b`, and conversely. */
  lemma OccursInPrefix(a: string, b: string, pat: string, i: int)
    requires i + |pat| <= |a|
    ensures OccursAt(a + b, pat, i) <==> OccursAt(a, pat, i)
  {
    if 0 <= i {
      assert (a + b)[i..i + |pat|] == a[i..i + |pat|];
    }
  }

  /** A hit found in `a` stays the first hit when more text arrives. */
  lemma FindExtends(a: string, b: string, pat: string, from: nat)
    requires Find(a, pat, from).Some?
    ensures Find(a + b, pat, from) == Find(a, pat, from)
  {
    var q := Find(a, pat, from).value;
    forall i: int | i <= q ensures OccursAt(a + b, pat, i) <==> OccursAt(a, pat, i) {
      OccursInPrefix(a, b, pat, i);
    }
    assert OccursAt(a + b, pat, q);
  }

  /** A hit that `a` does not contain starts no earlier than the overlap `a` ends with. */
  lemma NewHitOverlaps(a: string, b: string, pat: string, q: nat)
    requires OccursAt(a + b, pat, q) && !OccursAt(a, pat, q)
    ensures q < |a| ==> IsOverlap(a, pat, |a| - q)
  {
    if q + |pat| <= |a| {
      OccursInPrefix(a, b, pat, q);
    } else if q < |a| {
      assert pat[..|a| - q] == (a + b)[q..q + |pat|][..|a| - q] == a[q..];
    }
  }

  /** A suffix of `a + b` longer than `b` that begins `pat` also gives an overlap of `a`. */
  lemma OverlapOfLonger(a: string, b: string, pat: string, n: nat)
    requires IsOverlap(a + b, pat, n) && n >= |b|
    ensures IsOverlap(a, pat, n - |b|)
  {
    var t := a + b;
    assert a[|a| - (n - |b|)..] == t[|t| - n..][..n - |b|] == pat[..n][..n - |b|] == pat[..n - |b|];
  }

  /** Overlaps look only at the end of the text. */
  lemma OverlapOfSuffix(t: string, pat: string, h: nat, n: nat)
    requires h + n <= |t|
    ensures IsOverlap(t, pat, n) <==> IsOverlap(t[h..], pat, n)
  {
    assert t[h..][|t| - h - n..] == t[|t| - n..];
  }

  /** What occurs inside an occurrence of `u` occurs inside `u`. */
  lemma OccursInside(t: string, u: string, s: string, p: int, q: int)
    requires OccursAt(t, u, p) && OccursAt(t, s, q) && p <= q && q + |s| <= p + |u|
    ensures OccursAt(u, s, q - p)
  {
    var k := q - p;
    forall i | 0 <= i < |s| ensures u[k + i] == s[i] {
      assert t[p..p + |u|][k + i] == t[q..q + |s|][i];
    }
  }

  lemma OccursOuter(t: string, u: string, s: string, p: int, k: int)
    requires OccursAt(t, u, p) && OccursAt(u, s, k)
    ensures OccursAt(t, s, p + k)
  {
    forall i | 0 <= i < |s| ensures t[p + k + i] == s[i] {
      assert t[p..p + |u|][k + i] == u[k..k + |s|][i];
    }
  }

  lemma Assoc<T>(a: seq<T>, b: seq<T>, c: seq<T>)
    ensures (a + b) + c == a + (b + c)
  {
  }

  lemma FindFits(t: string, pat: string, from: nat)
    requires Find(t, pat, from).Some?
    ensures from <= Find(t, pat, from).value && Find(t, pat, from).value + |pat| <= |t|
  {
  }

  /** The text around an occurrence. */
  lemma AroundHit(t: string, pat: string, i: nat)
    requires OccursAt(t, pat, i)
    ensures i + |pat| <= |t|
    ensures t[..i + |pat|] == t[..i] + pat
    ensures t == (t[..i] + pat) + t[i + |pat|..]
  {
    assert t == t[..i + |pat|] + t[i + |pat|..];
  }
}
