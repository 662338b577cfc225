/** Byte strings: one `char` stands for one byte.  `Less` is Go's `<` on strings,
    `Index` is strings.Index and `p <= s` is strings.HasPrefix(s, p). */
module Text {

  datatype Option<+T> = None | Some(value: T)

  /** Position of the first element that satisfies `p`, or the length. */
  function First<T>(xs: seq<T>, p: T -> bool): (i: nat)
    ensures i <= |xs| && (i < |xs| ==> p(xs[i]))
    ensures forall j :: 0 <= j < i ==> !p(xs[j])
  {
    if xs == [] || p(xs[0]) then 0 else 1 + First(xs[1..], p)
  }

  /** Length of the longest common prefix. */
  function Lcp(a: string, b: string): (n: nat)
    ensures n <= |a| && n <= |b|
    ensures a[..n] == b[..n]
    ensures n < |a| && n < |b| ==> a[n] != b[n]
  {
    if a == "" || b == "" || a[0] != b[0] then 0
    else
      var n := Lcp(a[1..], b[1..]);
      assert a[..n + 1] == [a[0]] + a[1..][..n] && b[..n + 1] == [b[0]] + b[1..][..n];
      n + 1
  }

  /** Lexicographic order on bytes. */
  predicate Less(a: string, b: string) {
    var n := Lcp(a, b);
    n < |b| && (n == |a| || a[n] < b[n])
  }

  /** `n` is where `a` and `b` first differ, so the byte there decides. */
  lemma LessAt(a: string, b: string, n: nat)
    requires n <= |a| && n <= |b| && a[..n] == b[..n]
    requires n < |a| && n < |b| ==> a[n] != b[n]
    ensures Lcp(a, b) == n
    ensures Less(a, b) <==> n < |b| && (n == |a| || a[n] < b[n])
  {
    hide Lcp;
    var m := Lcp(a, b);
    assert forall i :: 0 <= i < n ==> a[..n][i] == a[i] && b[..n][i] == b[i];
    assert forall i :: 0 <= i < m ==> a[..m][i] == a[i] && b[..m][i] == b[i];
  }

  lemma LessTotal(a: string, b: string)
    ensures a == b || Less(a, b) || Less(b, a)
    ensures !(Less(a, b) && Less(b, a)) && !Less(a, a)
  {
  }

  lemma LessTrans(a: string, b: string, c: string)
    requires Less(a, b) && Less(b, c)
    ensures Less(a, c)
  {
  }

  lemma PrefixLess(p: string, s: string)
    requires p <= s
    ensures p == s || Less(p, s)
    ensures !Less(s, p)
  {
  }

  /** When neither string is a prefix of the other, extending them keeps the order. */
  lemma LessExtend(a: string, b: string, a': string, b': string)
    requires Less(a, b) && !(a <= b)
    requires a <= a' && b <= b'
    ensures Less(a', b') && !(a' <= b')
  {
  }

  predicate OccursAt(s: string, sep: string, i: nat) {
    i + |sep| <= |s| && s[i..i + |sep|] == sep
  }

  /** First occurrence of `sep` in `s` at or after `i`, or -1. */
  function IndexFrom(s: string, sep: string, i: nat): (r: int)
    requires i <= |s|
    ensures r == -1 || (i <= r && OccursAt(s, sep, r))
    ensures forall j: nat :: i <= j && (r == -1 || j < r) ==> !OccursAt(s, sep, j)
    decreases |s| - i
  {
    if OccursAt(s, sep, i) then i
    else if i == |s| then -1
    else IndexFrom(s, sep, i + 1)
  }

  function Index(s: string, sep: string): (r: int)
    ensures r == -1 || (0 <= r && OccursAt(s, sep, r))
    ensures forall j: nat :: (r == -1 || j < r) ==> !OccursAt(s, sep, j)
  {
    IndexFrom(s, sep, 0)
  }

  /** An occurrence survives in, and comes from, any longer string that covers it. */
  lemma OccursPrefix(s: string, t: string, sep: string, i: nat)
    requires s <= t && i + |sep| <= |s|
    ensures OccursAt(s, sep, i) <==> OccursAt(t, sep, i)
  {
  }

  /** The first occurrence in `s` is also the first in every extension of `s`. */
  lemma IndexExtend(s: string, t: string, sep: string)
    requires s <= t && Index(s, sep) >= 0
    ensures Index(t, sep) == Index(s, sep)
  {
    var i := Index(s, sep);
    OccursPrefix(s, t, sep, i);
    var j := Index(t, sep);
    if 0 <= j < i {
      OccursPrefix(s, t, sep, j);
    }
  }

  /** Cutting just after the first occurrence leaves it the first occurrence. */
  lemma IndexCut(t: string, sep: string, n: nat)
    requires Index(t, sep) >= 0 && Index(t, sep) + |sep| <= n <= |t|
    ensures Index(t[..n], sep) == Index(t, sep)
  {
    OccursPrefix(t[..n], t, sep, Index(t, sep));
    IndexExtend(t[..n], t, sep);
  }

  /** strings.LastIndex(s, "/"). */
  function LastSlash(s: string): (r: int)
    ensures -1 <= r < |s| && (r >= 0 ==> s[r] == '/')
    ensures forall j :: r < j < |s| ==> s[j] != '/'
  {
    if s == "" then -1
    else if s[|s| - 1] == '/' then |s| - 1
    else LastSlash(s[..|s| - 1])
  }
}
