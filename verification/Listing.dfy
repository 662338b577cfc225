/** What one listing shows: keys filtered by prefix and marker, collapsed by
    delimiter, in the order a walk offers them. */
module Listing {
  import opened Text
  import opened Tree

  /** What `getObj` answers for a key: ErrSkipObj, an object, or another error. */
  datatype GetResult<+T> = Skip | Found(obj: T) | Failed

  /** The parameters of one Walk call. */
  datatype Request<!T> = Request(
    prefix: string,
    delimiter: string,
    marker: string,
    max: int,
    getObj: string -> GetResult<T>,
    skipdirs: seq<string>)

  /** The common prefix `k` rolls up into, if the delimiter occurs past the prefix. */
  function CommonPrefix<T>(q: Request<T>, k: string): (r: Option<string>)
    requires q.prefix <= k
  {
    if q.delimiter == "" then None
    else
      var suffix := k[|q.prefix|..];
      var i := Index(suffix, q.delimiter);
      if i < 0 then None else Some(q.prefix + suffix[..i] + q.delimiter)
  }

  /** What key `k` contributes to a listing: nothing, itself, or a common prefix.
      A key `getObj` fails on still has its place: a page reaching it is an error. */
  function ItemOf<T>(q: Request<T>, k: string): (r: Option<string>) {
    if !(q.prefix <= k) then None
    else if CommonPrefix(q, k).Some? then CommonPrefix(q, k)
    else if q.getObj(k).Skip? then None
    else Some(k)
  }

  /** `getObj` is asked about key `k` and fails. */
  ghost predicate Fails<T>(q: Request<T>, k: string) {
    q.prefix <= k && CommonPrefix(q, k).None? && Less(q.marker, k) && q.getObj(k).Failed?
  }

  /** One of the first `n` items is a key `getObj` fails on. */
  ghost predicate FailsWithin<T>(q: Request<T>, items: seq<string>, n: nat) {
    exists j :: 0 <= j < |items| && j < n && Fails(q, items[j])
  }

  predicate IsCommonPrefix<T>(q: Request<T>, item: string) {
    q.prefix <= item && CommonPrefix(q, item).Some?
  }

  /** Offering one key to the results. */
  function Emit<T>(q: Request<T>, page: seq<string>, k: string): (r: seq<string>)
    ensures page <= r && |r| <= |page| + 1
  {
    match ItemOf(q, k)
    case None => page
    case Some(item) =>
      if !Less(q.marker, item) || (IsCommonPrefix(q, item) && item in page) then page
      else page + [item]
  }

  /** Offering keys one after the other, with no limit on the results. */
  function EmitAll<T>(q: Request<T>, page: seq<string>, ks: seq<string>): (r: seq<string>)
    ensures page <= r
    decreases |ks|
  {
    if ks == [] then page else EmitAll(q, Emit(q, page, ks[0]), ks[1..])
  }

  lemma EmitAllConcat<T>(q: Request<T>, page: seq<string>, a: seq<string>, b: seq<string>)
    ensures EmitAll(q, page, a + b) == EmitAll(q, EmitAll(q, page, a), b)
    decreases |a|
  {
    if a == [] {
      assert a + b == b;
    } else {
      assert (a + b)[1..] == a[1..] + b;
      EmitAllConcat(q, Emit(q, page, a[0]), a[1..], b);
    }
  }

  lemma EmitCons<T>(q: Request<T>, page: seq<string>, k: string, ks: seq<string>)
    ensures EmitAll(q, page, [k] + ks) == EmitAll(q, Emit(q, page, k), ks)
  {
  }

  /** A key `getObj` fails on takes the next place. */
  lemma FailureHasPlace<T>(q: Request<T>, page: seq<string>, k: string, target: seq<string>, n: nat)
    requires Fails(q, k) && |page| < n && Emit(q, page, k) <= target
    ensures FailsWithin(q, target, n)
  {
    assert ItemOf(q, k) == Some(k) && !IsCommonPrefix(q, k);
    assert Emit(q, page, k) == page + [k];
    assert target[|page|] == k;
  }

  lemma FailsInLonger<T>(q: Request<T>, a: seq<string>, b: seq<string>, n: nat)
    requires a <= b && FailsWithin(q, a, n)
    ensures FailsWithin(q, b, n)
  {
  }

  lemma EmitNothing<T>(q: Request<T>, page: seq<string>, ks: seq<string>)
    requires forall k :: k in ks ==> Emit(q, page, k) == page
    ensures EmitAll(q, page, ks) == page
    decreases |ks|
  {
  }

  // ---------- collapsing by delimiter ----------

  /** A common prefix is a leading part of every key that rolls up into it,
      and every longer key rolls up into it as well. */
  lemma CollapseExtend<T>(q: Request<T>, d: string, k: string)
    requires q.prefix <= d <= k && CommonPrefix(q, d).Some?
    ensures CommonPrefix(q, k) == CommonPrefix(q, d)
    ensures CommonPrefix(q, d).value <= d
  {
    var n := |q.prefix|;
    var i := Index(d[n..], q.delimiter);
    assert d[n..] <= k[n..];
    IndexExtend(d[n..], k[n..], q.delimiter);
    assert d[..n + i + |q.delimiter|] == q.prefix + d[n..][..i] + q.delimiter;
    assert d[n..][..i] == k[n..][..i];
  }

  /** `c` goes past the prefix and ends with the delimiter. */
  ghost predicate EndsWithDelimiter<T>(q: Request<T>, c: string) {
    |q.prefix| + |q.delimiter| <= |c| && c[|c| - |q.delimiter|..] == q.delimiter
  }

  /** The common prefix of a key is its shortest leading part that goes past the prefix
      and ends with the delimiter; a key without one has none. */
  lemma CommonPrefixIsShortest<T>(q: Request<T>, k: string)
    requires q.prefix <= k && q.delimiter != ""
    ensures CommonPrefix(q, k).None? ==> forall n :: 0 <= n <= |k| ==> !EndsWithDelimiter(q, k[..n])
    ensures CommonPrefix(q, k).Some? ==>
      var c := CommonPrefix(q, k).value;
      c <= k && EndsWithDelimiter(q, c) && forall n :: 0 <= n < |c| ==> !EndsWithDelimiter(q, k[..n])
  {
    var p, t := |q.prefix|, k[|q.prefix|..];
    forall n | 0 <= n <= |k| && EndsWithDelimiter(q, k[..n])
      ensures OccursAt(t, q.delimiter, n - |q.delimiter| - p)
    {
      var i := n - |q.delimiter| - p;
      assert t[i..i + |q.delimiter|] == k[p + i..n] == k[..n][n - |q.delimiter|..];
    }
    if CommonPrefix(q, k).Some? {
      CollapseExtend(q, k, k);
      var i := Index(t, q.delimiter);
      var c := CommonPrefix(q, k).value;
      assert |c| == p + i + |q.delimiter|;
      assert c[p + i..] == q.delimiter;
    }
  }

  /** `c` is the shortest leading part of `k` that goes past the prefix and ends with the delimiter. */
  ghost predicate Delimited<T>(q: Request<T>, k: string, c: string) {
    && q.delimiter != "" && c <= k && EndsWithDelimiter(q, c)
    && (forall n :: 0 <= n < |c| ==> !EndsWithDelimiter(q, k[..n]))
  }

  ghost predicate Undelimited<T>(q: Request<T>, k: string) {
    q.delimiter == "" || forall n :: 0 <= n <= |k| ==> !EndsWithDelimiter(q, k[..n])
  }

  lemma DelimitedUnique<T>(q: Request<T>, k: string, c: string, d: string)
    requires Delimited(q, k, c) && Delimited(q, k, d)
    ensures c == d
  {
    assert k[..|c|] == c && k[..|d|] == d;
  }

  /** What a key contributes, in terms of the key's own bytes: its shortest part up to a
      delimiter or, if there is none, itself unless `getObj` skips it. */
  lemma ItemMeaning<T>(q: Request<T>, k: string, item: string)
    ensures ItemOf(q, k) == Some(item) <==>
      q.prefix <= k && (Delimited(q, k, item) || (Undelimited(q, k) && item == k && !q.getObj(k).Skip?))
  {
    if q.prefix <= k && q.delimiter != "" {
      CommonPrefixIsShortest(q, k);
      hide EndsWithDelimiter, CommonPrefix;
      assert item <= k ==> k[..|item|] == item;
      if CommonPrefix(q, k).Some? {
        var c := CommonPrefix(q, k).value;
        assert Delimited(q, k, c) && k[..|c|] == c;
        if Delimited(q, k, item) {
          DelimitedUnique(q, k, c, item);
        }
      }
    }
  }

  lemma CollapseIdempotent<T>(q: Request<T>, k: string)
    requires q.prefix <= k && CommonPrefix(q, k).Some?
    ensures var c := CommonPrefix(q, k).value;
            q.prefix <= c <= k && CommonPrefix(q, c) == Some(c)
  {
    var n := |q.prefix|;
    var i := Index(k[n..], q.delimiter);
    var c := CommonPrefix(q, k).value;
    CollapseExtend(q, k, k);
    assert c[n..] == k[n..][..i + |q.delimiter|];
    IndexCut(k[n..], q.delimiter, i + |q.delimiter|);
    assert c[n..][..i] == k[n..][..i];
  }

  lemma ItemIsPrefix<T>(q: Request<T>, k: string)
    ensures ItemOf(q, k).Some? ==>
      var item := ItemOf(q, k).value;
      q.prefix <= item <= k && (item == k || Less(item, k)) &&
      (IsCommonPrefix(q, item) <==> CommonPrefix(q, k).Some?)
  {
    if ItemOf(q, k).Some? {
      PrefixLess(ItemOf(q, k).value, k);
      if CommonPrefix(q, k).Some? {
        CollapseIdempotent(q, k);
      }
    }
  }

  /** Keys that roll up somewhere else: a leading part of the other key decides. */
  lemma CollapseMeets<T>(q: Request<T>, k: string, l: string)
    requires ItemOf(q, k).Some? && ItemOf(q, l).Some?
    requires CommonPrefix(q, k).Some? && ItemOf(q, k).value <= l
    ensures ItemOf(q, l) == ItemOf(q, k) && IsCommonPrefix(q, ItemOf(q, k).value)
  {
    CollapseIdempotent(q, k);
    CollapseExtend(q, ItemOf(q, k).value, l);
  }

  /** Collapsing keeps the order: only equal common prefixes can coincide. */
  lemma ItemsOrdered<T>(q: Request<T>, k: string, l: string)
    requires Less(k, l) && ItemOf(q, k).Some? && ItemOf(q, l).Some?
    ensures var a, b := ItemOf(q, k).value, ItemOf(q, l).value;
            Less(a, b) || (a == b && IsCommonPrefix(q, a))
  {
    var a, b := ItemOf(q, k).value, ItemOf(q, l).value;
    assert a <= k && b <= l by {
      ItemIsPrefix(q, k);
      ItemIsPrefix(q, l);
    }
    if CommonPrefix(q, k).Some? && a <= l {
      CollapseMeets(q, k, l);
    } else if CommonPrefix(q, l).Some? && b <= k {
      CollapseMeets(q, l, k);
    } else {
      PrefixDecides(k, l, a, b);
    }
  }

  lemma PrefixDecides(k: string, l: string, a: string, b: string)
    requires Less(k, l) && a <= k && b <= l
    requires a == k || !(a <= l)
    requires b == l || !(b <= k)
    ensures Less(a, b)
  {
  }

  // ---------- the listing as a sorted set ----------

  /** Item shown because of one of the keys `ks`. */
  ghost predicate Shown<T>(q: Request<T>, ks: seq<string>, item: string) {
    Less(q.marker, item) && exists k :: k in ks && ItemOf(q, k) == Some(item)
  }

  /** Offering strictly increasing keys yields the items they contribute past the
      marker, each exactly once and in strictly increasing order. */
  lemma {:induction false} EmitAllExact<T>(q: Request<T>, ks: seq<string>)
    requires StrictlySorted(ks)
    ensures StrictlySorted(EmitAll(q, [], ks))
    ensures forall item :: item in EmitAll(q, [], ks) <==> Shown(q, ks, item)
    decreases |ks|
  {
    if ks != [] {
      var n := |ks| - 1;
      var k := ks[n];
      assert ks == ks[..n] + [k];
      EmitAllExact(q, ks[..n]);
      EmitAllConcat(q, [], ks[..n], [k]);
      var page := EmitAll(q, [], ks[..n]);
      assert EmitAll(q, [], ks) == Emit(q, page, k);
      ItemIsPrefix(q, k);
      forall x | x in page && ItemOf(q, k).Some?
        ensures Less(x, ItemOf(q, k).value) || (x == ItemOf(q, k).value && IsCommonPrefix(q, x))
      {
        var k' :| k' in ks[..n] && ItemOf(q, k') == Some(x);
        ItemsOrdered(q, k', k);
      }
      forall item ensures item in Emit(q, page, k) <==> Shown(q, ks, item) {
        assert Shown(q, ks, item) <==>
               Shown(q, ks[..n], item) || (Less(q.marker, item) && ItemOf(q, k) == Some(item)) by {
          assert forall x :: x in ks <==> x in ks[..n] || x == k;
        }
      }
      forall i, j | 0 <= i < j < |Emit(q, page, k)| ensures Less(Emit(q, page, k)[i], Emit(q, page, k)[j]) {
        if j == |page| {
          LessTotal(page[i], page[i]);
          assert page[i] in page;
        }
      }
    }
  }

  /** Two strictly increasing sequences with the same members are equal. */
  lemma {:induction false} SortedUnique(a: seq<string>, b: seq<string>)
    requires StrictlySorted(a) && StrictlySorted(b)
    requires forall x :: x in a <==> x in b
    ensures a == b
    decreases |a|
  {
    if a == [] {
      assert forall i :: 0 <= i < |b| ==> b[i] in b;
    } else {
      assert a[0] in a;
      var i :| 0 <= i < |b| && b[i] == a[0];
      assert b[0] in b;
      var j :| 0 <= j < |a| && a[j] == b[0];
      LessTotal(a[0], b[0]);
      assert i == 0;
      forall x ensures x in a[1..] <==> x in b[1..] {
        LessTotal(x, a[0]);
        assert x in a <==> x == a[0] || x in a[1..];
        assert x in b <==> x == a[0] || x in b[1..];
        assert forall k :: 0 <= k < |a[1..]| ==> a[1..][k] == a[k + 1];
        assert forall k :: 0 <= k < |b[1..]| ==> b[1..][k] == b[k + 1];
        LessTotal(a[0], a[0]);
      }
      SortedUnique(a[1..], b[1..]);
      assert a == [a[0]] + a[1..] && b == [b[0]] + b[1..];
    }
  }
}
