/** Wildcard matching: the greedy one-star-backtracking loops against the
    recursive meaning of `*` and `?`. */
module Glob {

  /** `*` stands for any run of bytes and, where `any` holds, `?` for any one byte. */
  ghost predicate Matches(p: string, s: string, any: bool)
    decreases |p| + |s|
  {
    if p == "" then s == ""
    else if p[0] == '*' then Matches(p[1..], s, any) || (s != "" && Matches(p, s[1..], any))
    else s != "" && ((any && p[0] == '?') || p[0] == s[0]) && Matches(p[1..], s[1..], any)
  }

  predicate Stars(p: string) {
    forall i :: 0 <= i < |p| ==> p[i] == '*'
  }

  /** Position of the scan: next pattern and input byte, the last star taken (or -1)
      and the input position it was last tried at. */
  datatype Scan = Scan(pi: nat, si: nat, star: int, mi: nat)

  ghost predicate Good(p: string, s: string, c: Scan) {
    && c.pi <= |p| && c.mi <= c.si <= |s|
    && -1 <= c.star < c.pi
    && (c.star >= 0 ==> p[c.star] == '*')
  }

  /** One round of the loop, when some branch applies. */
  function Step(p: string, s: string, any: bool, c: Scan): (r: Scan)
    requires Good(p, s, c) && c.si < |s|
    requires CanStep(p, s, any, c)
    ensures Good(p, s, r)
  {
    if Literal(p, s, any, c) then c.(pi := c.pi + 1, si := c.si + 1)
    else if c.pi < |p| && p[c.pi] == '*' then Scan(c.pi + 1, c.si, c.pi, c.si)
    else Scan(c.star + 1, c.mi + 1, c.star, c.mi + 1)
  }

  /** `any` says whether `?` is special; the literal test comes before the star test. */
  predicate Literal(p: string, s: string, any: bool, c: Scan)
    requires c.si < |s|
  {
    c.pi < |p| && ((any && p[c.pi] == '?') || p[c.pi] == s[c.si])
  }

  predicate CanStep(p: string, s: string, any: bool, c: Scan)
    requires c.si < |s|
  {
    Literal(p, s, any, c) || (c.pi < |p| && p[c.pi] == '*') || c.star >= 0
  }

  /** The verdict of the whole loop from position `c` on. */
  function Verdict(p: string, s: string, any: bool, c: Scan): (r: bool)
    requires Good(p, s, c)
    decreases |p| - c.star, |s| - c.mi, |s| - c.si
  {
    if c.si == |s| then Stars(p[c.pi..])
    else if !CanStep(p, s, any, c) then false
    else Verdict(p, s, any, Step(p, s, any, c))
  }

  const START := Scan(0, 0, -1, 0)

  /** The greedy matcher as a function. */
  function Greedy(p: string, s: string, any: bool): (r: bool) {
    Verdict(p, s, any, START)
  }

  // ---------- facts about the meaning ----------

  lemma StarAbsorbs(p: string, s: string, n: nat, any: bool)
    requires p != "" && p[0] == '*' && n <= |s| && Matches(p, s[n..], any)
    ensures Matches(p, s, any)
    decreases n
  {
    if n > 0 {
      assert s[n..] == s[1..][n - 1..];
      StarAbsorbs(p, s[1..], n - 1, any);
    } else {
      assert s[0..] == s;
    }
  }

  lemma StarChoice(p: string, s: string, any: bool)
    requires p != "" && p[0] == '*' && Matches(p, s, any)
    ensures exists n :: 0 <= n <= |s| && Matches(p[1..], s[n..], any)
    decreases |s|
  {
    if Matches(p[1..], s, any) {
      assert s[0..] == s;
    } else {
      StarChoice(p, s[1..], any);
      var n :| 0 <= n <= |s[1..]| && Matches(p[1..], s[1..][n..], any);
      assert s[1..][n..] == s[n + 1..];
    }
  }

  lemma MatchesEmpty(p: string, any: bool)
    ensures Matches(p, "", any) <==> Stars(p)
    decreases |p|
  {
  }

  /** A stretch of pattern without stars uses up as many input bytes. */
  lemma SegmentConsumes(p: string, s: string, n: nat, any: bool)
    requires n <= |p| && (forall i :: 0 <= i < n ==> p[i] != '*') && Matches(p, s, any)
    ensures n <= |s| && Matches(p[n..], s[n..], any)
    decreases n
  {
    if n > 0 {
      SegmentConsumes(p[1..], s[1..], n - 1, any);
      assert p[1..][n - 1..] == p[n..] && s[1..][n - 1..] == s[n..];
    } else {
      assert p[0..] == p && s[0..] == s;
    }
  }

  // ---------- soundness ----------

  /** What the scan still has to decide implies the whole match. */
  ghost predicate Implies(p: string, s: string, c: Scan, any: bool)
    requires Good(p, s, c)
  {
    && (Matches(p[c.pi..], s[c.si..], any) ==> Matches(p, s, any))
    && (c.star >= 0 && Matches(p[c.star..], s[c.mi..], any) ==> Matches(p, s, any))
  }

  lemma LiteralSound(p: string, s: string, any: bool, c: Scan)
    requires Good(p, s, c) && c.si < |s| && Literal(p, s, any, c) && Implies(p, s, c, any)
    ensures Implies(p, s, c.(pi := c.pi + 1, si := c.si + 1), any)
  {
    var p', s' := p[c.pi..], s[c.si..];
    assert p'[0] == p[c.pi] && s'[0] == s[c.si];
    assert p'[1..] == p[c.pi + 1..] && s'[1..] == s[c.si + 1..];
    if Matches(p'[1..], s'[1..], any) && p[c.pi] == '*' {
      StarAbsorbs(p', s', 1, any);
    }
  }

  lemma StarSound(p: string, s: string, any: bool, c: Scan)
    requires Good(p, s, c) && c.si < |s| && c.pi < |p| && p[c.pi] == '*' && Implies(p, s, c, any)
    ensures Implies(p, s, Scan(c.pi + 1, c.si, c.pi, c.si), any)
  {
    assert p[c.pi..][1..] == p[c.pi + 1..] && p[c.pi..][0] == '*';
  }

  lemma RetrySound(p: string, s: string, any: bool, c: Scan)
    requires Good(p, s, c) && c.si < |s| && c.star >= 0 && Implies(p, s, c, any)
    ensures Implies(p, s, Scan(c.star + 1, c.mi + 1, c.star, c.mi + 1), any)
  {
    var p', s' := p[c.star..], s[c.mi..];
    assert p'[1..] == p[c.star + 1..] && p'[0] == '*' && s'[1..] == s[c.mi + 1..];
    if Matches(p', s'[1..], any) || Matches(p'[1..], s'[1..], any) {
      StarAbsorbs(p', s', 1, any);
    }
  }

  lemma StepSound(p: string, s: string, any: bool, c: Scan)
    requires Good(p, s, c) && c.si < |s| && CanStep(p, s, any, c) && Implies(p, s, c, any)
    ensures Implies(p, s, Step(p, s, any, c), any)
  {
    hide Implies, Matches;
    if Literal(p, s, any, c) {
      LiteralSound(p, s, any, c);
    } else if c.pi < |p| && p[c.pi] == '*' {
      StarSound(p, s, any, c);
    } else {
      RetrySound(p, s, any, c);
    }
  }

  lemma {:induction false} VerdictSound(p: string, s: string, any: bool, c: Scan)
    requires Good(p, s, c) && Implies(p, s, c, any) && Verdict(p, s, any, c)
    ensures Matches(p, s, any)
    decreases |p| - c.star, |s| - c.mi, |s| - c.si
  {
    if c.si == |s| {
      MatchesEmpty(p[c.pi..], any);
      assert s[c.si..] == "";
    } else {
      StepSound(p, s, any, c);
      VerdictSound(p, s, any, Step(p, s, any, c));
    }
  }

  /** The greedy matcher accepts nothing the pattern does not mean. */
  lemma GreedySound(p: string, s: string, any: bool)
    requires Greedy(p, s, any)
    ensures Matches(p, s, any)
  {
    assert p[0..] == p && s[0..] == s;
    VerdictSound(p, s, any, START);
  }

  // ---------- completeness ----------

  /** The input holds no star byte or, where `?` is an ordinary byte, none but the last. */
  predicate Plain(s: string, any: bool) {
    forall i :: 0 <= i < |s| && s[i] == '*' ==> !any && i == |s| - 1
  }

  /** On plain input a match is still possible from here only, or with the last star
      reaching further. */
  ghost predicate Complete(p: string, s: string, c: Scan, any: bool)
    requires Good(p, s, c)
  {
    && (Matches(p, s, any) ==> Matches(p[c.pi..], s[c.si..], any) ||
                               (c.star >= 0 && c.mi < |s| && Matches(p[c.star..], s[c.mi + 1..], any)))
    && (c.star >= 0 ==> c.pi - c.star - 1 == c.si - c.mi)
    && (c.star >= 0 ==> forall i :: c.star < i < c.pi ==> p[i] != '*')
  }

  /** When the last star reaches further, the stretch after it is matched later. */
  lemma FurtherMatch(p: string, s: string, c: Scan, any: bool) returns (n: nat)
    requires Good(p, s, c) && Complete(p, s, c, any) && c.star >= 0 && c.mi < |s|
    requires Matches(p[c.star..], s[c.mi + 1..], any)
    ensures c.si < n <= |s| && Matches(p[c.pi..], s[n..], any)
  {
    hide Matches;
    var t := s[c.mi + 1..];
    StarChoice(p[c.star..], t, any);
    var k :| 0 <= k <= |t| && Matches(p[c.star..][1..], t[k..], any);
    assert p[c.star..][1..] == p[c.star + 1..] && t[k..] == s[c.mi + 1 + k..];
    var w := c.pi - c.star - 1;
    SegmentConsumes(p[c.star + 1..], s[c.mi + 1 + k..], w, any);
    n := c.mi + 1 + k + w;
    assert p[c.star + 1..][w..] == p[c.pi..] && s[c.mi + 1 + k..][w..] == s[n..];
  }

  /** Pattern and input both stand at a star, which must be the last byte of plain input. */
  predicate AtLastStar(p: string, s: string, c: Scan) {
    c.pi < |p| && c.si < |s| && p[c.pi] == '*' == s[c.si]
  }

  lemma LiteralComplete(p: string, s: string, any: bool, c: Scan)
    requires Good(p, s, c) && c.si < |s| && Literal(p, s, any, c) && Complete(p, s, c, any)
    requires !AtLastStar(p, s, c)
    ensures Complete(p, s, c.(pi := c.pi + 1, si := c.si + 1), any)
  {
    var p', s' := p[c.pi..], s[c.si..];
    assert p'[0] == p[c.pi] && s'[0] == s[c.si];
    assert p'[1..] == p[c.pi + 1..] && s'[1..] == s[c.si + 1..];
    assert Matches(p', s', any) ==> p[c.pi] == '*' || Matches(p'[1..], s'[1..], any);
  }

  lemma StarComplete(p: string, s: string, any: bool, c: Scan)
    requires Good(p, s, c) && c.si < |s| && c.pi < |p| && p[c.pi] == '*' && Complete(p, s, c, any)
    ensures Complete(p, s, Scan(c.pi + 1, c.si, c.pi, c.si), any)
  {
    assert s[c.si..][1..] == s[c.si + 1..];
    assert p[c.pi..][1..] == p[c.pi + 1..] && p[c.pi..][0] == p[c.pi];
    if Matches(p, s, any) && !Matches(p[c.pi..], s[c.si..], any) {
      var n := FurtherMatch(p, s, c, any);
      assert s[c.si..][n - c.si..] == s[n..];
      StarAbsorbs(p[c.pi..], s[c.si..], n - c.si, any);
    }
  }

  lemma RetryComplete(p: string, s: string, any: bool, c: Scan)
    requires Good(p, s, c) && c.si < |s| && !Literal(p, s, any, c) && Complete(p, s, c, any)
    requires c.star >= 0 && !(c.pi < |p| && p[c.pi] == '*')
    ensures Complete(p, s, Scan(c.star + 1, c.mi + 1, c.star, c.mi + 1), any)
  {
    assert !Matches(p[c.pi..], s[c.si..], any) by {
      assert s[c.si..][0] == s[c.si] && (c.pi < |p| ==> p[c.pi..][0] == p[c.pi]);
    }
    assert p[c.star..][1..] == p[c.star + 1..] && p[c.star..][0] == '*';
    if c.mi + 1 < |s| {
      assert s[c.mi + 1..][1..] == s[c.mi + 2..];
    }
  }

  lemma StepComplete(p: string, s: string, any: bool, c: Scan)
    requires Good(p, s, c) && c.si < |s| && CanStep(p, s, any, c) && Complete(p, s, c, any)
    requires !AtLastStar(p, s, c)
    ensures Complete(p, s, Step(p, s, any, c), any)
  {
    hide Complete, Matches;
    if Literal(p, s, any, c) {
      LiteralComplete(p, s, any, c);
    } else if c.pi < |p| && p[c.pi] == '*' {
      StarComplete(p, s, any, c);
    } else {
      RetryComplete(p, s, any, c);
    }
  }

  /** A pattern of plain bytes and stars that matches a lone star byte is all stars. */
  lemma {:induction false} LoneStar(p: string)
    requires Matches(p, "*", false)
    ensures Stars(p)
    decreases |p|
  {
    assert "*"[1..] == "";
    if Matches(p[1..], "*", false) {
      LoneStar(p[1..]);
      assert p == [p[0]] + p[1..];
    } else {
      MatchesEmpty(p, false);
    }
  }

  /** Taking the last star byte literally is right: whatever follows in the pattern has
      nothing left to match. */
  lemma LastStarComplete(p: string, s: string, c: Scan)
    requires Good(p, s, c) && Complete(p, s, c, false) && Plain(s, false) && Matches(p, s, false)
    requires AtLastStar(p, s, c)
    ensures Verdict(p, s, false, c)
  {
    assert s[c.si..] == "*";
    if Matches(p[c.pi..], s[c.si..], false) {
      LoneStar(p[c.pi..]);
    } else {
      var n := FurtherMatch(p, s, c, false);
      assert s[n..] == "";
      MatchesEmpty(p[c.pi..], false);
    }
    assert p[c.pi..] == [p[c.pi]] + p[c.pi + 1..];
    assert Verdict(p, s, false, c.(pi := c.pi + 1, si := c.si + 1));
  }

  lemma {:induction false} VerdictComplete(p: string, s: string, any: bool, c: Scan)
    requires Good(p, s, c) && Complete(p, s, c, any) && Plain(s, any) && Matches(p, s, any)
    ensures Verdict(p, s, any, c)
    decreases |p| - c.star, |s| - c.mi, |s| - c.si
  {
    if c.si == |s| {
      assert Matches(p[c.pi..], s[c.si..], any) by {
        if !Matches(p[c.pi..], s[c.si..], any) {
          var n := FurtherMatch(p, s, c, any);
        }
      }
      assert s[c.si..] == "";
      MatchesEmpty(p[c.pi..], any);
    } else if AtLastStar(p, s, c) {
      LastStarComplete(p, s, c);
    } else {
      assert CanStep(p, s, any, c) by {
        if c.star < 0 && c.pi < |p| {
          assert p[c.pi..][0] == p[c.pi] && s[c.si..][0] == s[c.si];
        }
      }
      StepComplete(p, s, any, c);
      VerdictComplete(p, s, any, Step(p, s, any, c));
    }
  }

  /** On plain input the greedy matchers decide the match exactly. */
  lemma GreedyExact(p: string, s: string, any: bool)
    requires Plain(s, any)
    ensures Greedy(p, s, any) <==> Matches(p, s, any)
  {
    assert p[0..] == p && s[0..] == s;
    if Greedy(p, s, any) {
      GreedySound(p, s, any);
    }
    if Matches(p, s, any) {
      VerdictComplete(p, s, any, START);
    }
  }

  // ---------- and on no other input ----------

  function Repeat(n: nat): (r: string)
    ensures |r| == n && forall i :: 0 <= i < n ==> r[i] == '?'
  {
    seq(n, _ => '?')
  }

  lemma AnyMatches(s: string)
    ensures Matches(Repeat(|s|), s, true)
    decreases |s|
  {
    if s != "" {
      assert Repeat(|s|)[1..] == Repeat(|s| - 1);
      AnyMatches(s[1..]);
    }
  }

  lemma LiteralPrefixMatches(a: string, p: string, s: string, any: bool)
    requires '*' !in a && Matches(p, s, any)
    ensures Matches(a + p, a + s, any)
    decreases |a|
  {
    if a == "" {
      assert a + p == p && a + s == s;
    } else {
      assert (a + p)[1..] == a[1..] + p && (a + s)[1..] == a[1..] + s;
      LiteralPrefixMatches(a[1..], p, s, any);
    }
  }

  /** Byte for byte, while the pattern has something literal for every input byte. */
  lemma {:induction false} LockStep(p: string, s: string, n: nat)
    requires n <= |s| < |p| && p[|s|] == '?'
    requires forall i :: n <= i < |s| ==> p[i] == '?' || p[i] == s[i]
    ensures !Verdict(p, s, true, Scan(n, n, -1, 0))
    decreases |s| - n
  {
    if n < |s| {
      LockStep(p, s, n + 1);
    } else {
      assert p[n..][0] == '?';
    }
  }

  /** Every input with a star byte has a pattern that matches it but is rejected. */
  lemma StarInputMissed(s: string) returns (p: string)
    requires '*' in s
    ensures Matches(p, s, true) && !Greedy(p, s, true)
    ensures |p| == |s| + 1 && p[|s|] == '?'
  {
    var i := FirstStar(s);
    var a, b := s[..i], s[i..];
    p := a + ("*" + Repeat(|b|));
    AnyMatches(b);
    assert ("*" + Repeat(|b|))[1..] == Repeat(|b|);
    LiteralPrefixMatches(a, "*" + Repeat(|b|), b, true);
    assert a + b == s;
    LockStep(p, s, 0);
  }

  /** The same for the matcher without `?`, when a byte follows the star. */
  lemma InnerStarMissed(s: string) returns (p: string)
    requires !Plain(s, false)
    ensures Matches(p, s, false) && !Greedy(p, s, false)
  {
    var i := FirstStar(s);
    var a, b := s[..i], s[i..];
    p := a + "*";
    AllMatch("*", b, false);
    LiteralPrefixMatches(a, "*", b, false);
    assert a + b == s;
    RunsOut(p, s, 0);
  }

  /** A pattern that is used up byte for byte while input is left has lost. */
  lemma {:induction false} RunsOut(p: string, s: string, n: nat)
    requires n <= |p| < |s| && p <= s
    ensures !Verdict(p, s, false, Scan(n, n, -1, 0))
    decreases |p| - n
  {
    if n < |p| {
      RunsOut(p, s, n + 1);
    }
  }

  lemma FirstStar(s: string) returns (i: nat)
    requires '*' in s
    ensures i < |s| && s[i] == '*' && '*' !in s[..i]
    decreases |s|
  {
    if s[0] == '*' {
      i := 0;
    } else {
      assert s == [s[0]] + s[1..];
      var j := FirstStar(s[1..]);
      i := j + 1;
      assert s[..i] == [s[0]] + s[1..][..j];
    }
  }

  /** Either matcher agrees with the meaning of every pattern on exactly the plain inputs. */
  lemma GreedyExactIff(s: string, any: bool)
    ensures (forall p :: Greedy(p, s, any) <==> Matches(p, s, any)) <==> Plain(s, any)
  {
    if Plain(s, any) {
      forall p ensures Greedy(p, s, any) <==> Matches(p, s, any) {
        GreedyExact(p, s, any);
      }
    } else if any {
      var p := StarInputMissed(s);
    } else {
      var p := InnerStarMissed(s);
    }
  }

  /** Without `?` in the pattern the two matchers are the same. */
  lemma {:induction false} MatchersAgree(p: string, s: string, c: Scan)
    requires '?' !in p && Good(p, s, c)
    ensures Verdict(p, s, false, c) == Verdict(p, s, true, c)
    decreases |p| - c.star, |s| - c.mi, |s| - c.si
  {
    if c.si < |s| {
      assert c.pi < |p| ==> p[c.pi] in p;
      if CanStep(p, s, true, c) {
        MatchersAgree(p, s, Step(p, s, true, c));
      }
    }
  }

  lemma {:induction false} MeaningsAgree(p: string, s: string)
    requires '?' !in p
    ensures Matches(p, s, false) == Matches(p, s, true)
    decreases |p| + |s|
  {
    if p != "" {
      assert forall i :: 0 <= i < |p| ==> p[i] in p;
      MeaningsAgree(p[1..], s);
      if s != "" {
        MeaningsAgree(p, s[1..]);
        MeaningsAgree(p[1..], s[1..]);
      }
    }
  }

  /** Patterns without `?` mean the same to both matchers and are decided the same. */
  lemma WildcardExact(p: string, s: string)
    requires '?' !in p
    ensures Greedy(p, s, false) == Greedy(p, s, true)
    ensures Matches(p, s, false) == Matches(p, s, true)
  {
    MatchersAgree(p, s, START);
    MeaningsAgree(p, s);
  }

  lemma Decides(p: string, s: string, any: bool)
    ensures Greedy(p, s, any) ==> Matches(p, s, any)
    ensures Plain(s, any) ==> (Greedy(p, s, any) <==> Matches(p, s, any))
  {
    if Greedy(p, s, any) {
      GreedySound(p, s, any);
    }
    if Plain(s, any) {
      GreedyExact(p, s, any);
    }
  }

  lemma VerdictUnfolds(p: string, s: string, any: bool, c: Scan)
    requires Good(p, s, c)
    ensures Verdict(p, s, any, c) ==
      if c.si == |s| then Stars(p[c.pi..])
      else CanStep(p, s, any, c) && Verdict(p, s, any, Step(p, s, any, c))
  {
  }

  // ---------- the two loops of the source ----------

  method MatchPattern(pattern: string, input: string) returns (r: bool)
    ensures r ==> Matches(pattern, input, true)
    ensures Plain(input, true) ==> (r <==> Matches(pattern, input, true))
    ensures r == Greedy(pattern, input, true)
  {
    Decides(pattern, input, true);
    hide Matches, Plain, Verdict, Stars;
    var pIdx, sIdx := 0, 0;
    var starIdx, matchIdx := -1, 0;
    while sIdx < |input|
      invariant Good(pattern, input, Scan(pIdx, sIdx, starIdx, matchIdx))
      invariant Verdict(pattern, input, true, Scan(pIdx, sIdx, starIdx, matchIdx)) == Greedy(pattern, input, true)
      decreases |pattern| - starIdx, |input| - matchIdx, |input| - sIdx
    {
      VerdictUnfolds(pattern, input, true, Scan(pIdx, sIdx, starIdx, matchIdx));
      if pIdx < |pattern| && (pattern[pIdx] == '?' || pattern[pIdx] == input[sIdx]) {
        sIdx := sIdx + 1;
        pIdx := pIdx + 1;
      } else if pIdx < |pattern| && pattern[pIdx] == '*' {
        starIdx := pIdx;
        matchIdx := sIdx;
        pIdx := pIdx + 1;
      } else if starIdx != -1 {
        pIdx := starIdx + 1;
        matchIdx := matchIdx + 1;
        sIdx := matchIdx;
      } else {
        return false;
      }
    }
    VerdictUnfolds(pattern, input, true, Scan(pIdx, sIdx, starIdx, matchIdx));
    r := SkipStars(pattern, pIdx);
  }

  /** The loop that skips trailing stars, and the final test. */
  method SkipStars(pattern: string, start: nat) returns (r: bool)
    requires start <= |pattern|
    ensures r == Stars(pattern[start..])
  {
    var i := start;
    while i < |pattern| && pattern[i] == '*'
      invariant start <= i <= |pattern|
      invariant forall j :: start <= j < i ==> pattern[j] == '*'
    {
      i := i + 1;
    }
    assert i < |pattern| ==> pattern[start..][i - start] == pattern[i];
    r := i == |pattern|;
  }

  method WildcardMatch(pattern: string, input: string) returns (r: bool)
    ensures r ==> Matches(pattern, input, false)
    ensures Plain(input, false) ==> (r <==> Matches(pattern, input, false))
    ensures r == Greedy(pattern, input, false)
  {
    Decides(pattern, input, false);
    hide Matches, Plain, Verdict, Stars;
    var pIdx, sIdx := 0, 0;
    var starIdx, matchIdx := -1, 0;
    while sIdx < |input|
      invariant Good(pattern, input, Scan(pIdx, sIdx, starIdx, matchIdx))
      invariant Verdict(pattern, input, false, Scan(pIdx, sIdx, starIdx, matchIdx)) == Greedy(pattern, input, false)
      decreases |pattern| - starIdx, |input| - matchIdx, |input| - sIdx
    {
      VerdictUnfolds(pattern, input, false, Scan(pIdx, sIdx, starIdx, matchIdx));
      if pIdx < |pattern| && pattern[pIdx] == input[sIdx] {
        sIdx := sIdx + 1;
        pIdx := pIdx + 1;
      } else if pIdx < |pattern| && pattern[pIdx] == '*' {
        starIdx := pIdx;
        matchIdx := sIdx;
        pIdx := pIdx + 1;
      } else if starIdx != -1 {
        pIdx := starIdx + 1;
        matchIdx := matchIdx + 1;
        sIdx := matchIdx;
      } else {
        return false;
      }
    }
    VerdictUnfolds(pattern, input, false, Scan(pIdx, sIdx, starIdx, matchIdx));
    r := SkipStars(pattern, pIdx);
  }

  // ---------- facts used by policies ----------

  lemma {:induction false} SelfMatches(p: string, any: bool)
    ensures Matches(p, p, any)
    decreases |p|
  {
    if p != "" {
      SelfMatches(p[1..], any);
      if p[0] == '*' {
        assert Matches(p[1..], p[1..], any);
      }
    }
  }

  lemma AllMatch(p: string, s: string, any: bool)
    requires p == "*"
    ensures Matches(p, s, any)
    decreases |s|
  {
  }

  /** A pattern without wildcards means itself and nothing else. */
  lemma {:induction false} LiteralMeans(p: string, s: string, any: bool)
    requires '*' !in p && (any ==> '?' !in p)
    ensures Matches(p, s, any) <==> p == s
    decreases |p|
  {
    if p != "" && s != "" {
      assert p[0] in p;
      LiteralMeans(p[1..], s[1..], any);
      assert p == [p[0]] + p[1..] && s == [s[0]] + s[1..];
    }
  }

  /** `?` means any one byte. */
  lemma AnyMeans(s: string)
    ensures Matches("?", s, true) <==> |s| == 1
  {
    assert "?"[1..] == "";
  }

  lemma {:induction false} JoinMatches(a: string, b: string, s: string, i: nat, any: bool)
    requires i <= |s| && Matches(a, s[..i], any) && Matches(b, s[i..], any)
    ensures Matches(a + b, s, any)
    decreases |a| + i
  {
    if a == "" {
      assert i == 0 && a + b == b && s[0..] == s;
    } else {
      assert (a + b)[1..] == a[1..] + b && (a + b)[0] == a[0];
      if i > 0 {
        assert s[..i][1..] == s[1..][..i - 1] && s[1..][i - 1..] == s[i..] && s[..i][0] == s[0];
      }
      if a[0] == '*' && Matches(a[1..], s[..i], any) {
        JoinMatches(a[1..], b, s, i, any);
      } else if a[0] == '*' {
        JoinMatches(a, b, s[1..], i - 1, any);
      } else {
        JoinMatches(a[1..], b, s[1..], i - 1, any);
      }
    }
  }

  lemma {:induction false} SplitMatches(a: string, b: string, s: string, any: bool) returns (i: nat)
    requires Matches(a + b, s, any)
    ensures i <= |s| && Matches(a, s[..i], any) && Matches(b, s[i..], any)
    decreases |a| + |s|
  {
    if a == "" {
      i := 0;
      assert a + b == b && s[0..] == s;
    } else {
      assert (a + b)[1..] == a[1..] + b && (a + b)[0] == a[0];
      if a[0] == '*' && Matches(a[1..] + b, s, any) {
        i := SplitMatches(a[1..], b, s, any);
      } else {
        var j := SplitMatches(if a[0] == '*' then a else a[1..], b, s[1..], any);
        i := j + 1;
        assert s[..i][1..] == s[1..][..j] && s[1..][j..] == s[i..] && s[..i][0] == s[0];
      }
    }
  }

  /** Patterns are matched piece by piece: with `LiteralMeans`, `AnyMeans` and `AllMatch`
      this says what every pattern means. */
  lemma MatchesConcat(a: string, b: string, s: string, any: bool)
    ensures Matches(a + b, s, any) <==>
            exists i :: 0 <= i <= |s| && Matches(a, s[..i], any) && Matches(b, s[i..], any)
  {
    if Matches(a + b, s, any) {
      var i := SplitMatches(a, b, s, any);
    } else {
      forall i | 0 <= i <= |s| ensures !(Matches(a, s[..i], any) && Matches(b, s[i..], any)) {
        if Matches(a, s[..i], any) && Matches(b, s[i..], any) {
          JoinMatches(a, b, s, i, any);
        }
      }
    }
  }
}
