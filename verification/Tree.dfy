/** The directory tree a listing walks, the order in which the look-ahead of
    `processDir` visits siblings, and the object keys that order produces. */
module Tree {
  import opened Text

  datatype Entry = File(name: string) | Dir(name: string, children: seq<Entry>)

  /** What fs.ReadDir guarantees of a name: one path element, never "." or "..". */
  predicate ValidName(n: string) {
    n != "" && '/' !in n && n != "." && n != ".."
  }

  /** What fs.ReadDir guarantees of a directory: entries strictly sorted by bare name. */
  predicate ValidDir(es: seq<Entry>) {
    && (forall i :: 0 <= i < |es| ==>
          ValidName(es[i].name) && (es[i].Dir? ==> ValidDir(es[i].children)))
    && (forall i, j :: 0 <= i < j < |es| ==> Less(es[i].name, es[j].name))
  }

  /** A directory's key carries a trailing slash, and so does its place in the listing. */
  function SortKey(e: Entry): string {
    if e.Dir? then e.name + "/" else e.name
  }

  predicate StrictlySorted(ks: seq<string>) {
    forall i, j :: 0 <= i < j < |ks| ==> Less(ks[i], ks[j])
  }

  // ---------- the look-ahead ----------

  /** First index in [j, hi) whose bare name does not precede `d`, or `hi`. */
  function LookAhead(es: seq<Entry>, d: string, j: nat, hi: nat): (r: nat)
    requires j <= hi <= |es|
    ensures j <= r <= hi
    ensures forall k :: j <= k < r ==> Less(es[k].name, d)
    ensures r < hi ==> !Less(es[r].name, d)
    decreases hi - j
  {
    if j < hi && Less(es[j].name, d) then LookAhead(es, d, j + 1, hi) else j
  }

  /** Indices of [lo, hi) in the order the walk handles them: before a directory
      come all the later siblings whose name precedes the directory's key. */
  function Visit(es: seq<Entry>, skip: seq<string>, lo: nat, hi: nat): (r: seq<nat>)
    requires lo <= hi <= |es|
    ensures forall a :: 0 <= a < |r| ==> lo <= r[a] < hi
    decreases hi - lo
  {
    if lo == hi then []
    else if es[lo].name in skip then Visit(es, skip, lo + 1, hi)
    else if es[lo].File? then [lo] + Visit(es, skip, lo + 1, hi)
    else
      var j := LookAhead(es, es[lo].name + "/", lo + 1, hi);
      Visit(es, skip, lo + 1, j) + [lo] + Visit(es, skip, j, hi)
  }

  lemma LessBase(base: string, x: string, y: string)
    ensures Less(base + x, base + y) <==> Less(x, y)
  {
    var n := Lcp(x, y);
    assert (base + x)[..|base| + n] == base + x[..n] == base + y[..n] == (base + y)[..|base| + n];
    LessAt(base + x, base + y, |base| + n);
  }

  /** A directory key is never a proper prefix of a sibling's name or key. */
  lemma SlashNotInside(n: string, m: string)
    requires ValidName(n) && ValidName(m) && n != m
    ensures !(n + "/" <= m) && !(n + "/" <= m + "/")
  {
    assert (n + "/")[|n|] == '/' && (n + "/")[..|n|] == n;
    assert forall i :: 0 <= i < |m| ==> (m + "/")[i] == m[i] && m[i] in m;
    assert (m + "/")[..|m|] == m;
  }

  lemma VisitedMember(es: seq<Entry>, skip: seq<string>, lo: nat, hi: nat, i: nat)
    requires lo <= i < hi <= |es|
    ensures i in Visit(es, skip, lo, hi) <==> es[i].name !in skip
    decreases hi - lo
  {
    if es[lo].name in skip || es[lo].File? {
      if lo < i {
        VisitedMember(es, skip, lo + 1, hi, i);
      }
    } else if lo < i {
      var j := LookAhead(es, es[lo].name + "/", lo + 1, hi);
      if i < j {
        VisitedMember(es, skip, lo + 1, j, i);
      } else {
        VisitedMember(es, skip, j, hi, i);
      }
    }
  }

  predicate Within(order: seq<nat>, n: nat) {
    forall a :: 0 <= a < |order| ==> order[a] < n
  }

  ghost predicate OrderedBySortKey(es: seq<Entry>, order: seq<nat>)
    requires Within(order, |es|)
  {
    forall a, b :: 0 <= a < b < |order| ==> Less(SortKey(es[order[a]]), SortKey(es[order[b]]))
  }

  /** A later sibling that the look-ahead takes sorts before the directory. */
  lemma BeforeDir(d: Entry, e: Entry)
    requires d.Dir? && ValidName(d.name) && ValidName(e.name)
    requires Less(d.name, e.name) && Less(e.name, d.name + "/")
    ensures Less(SortKey(e), SortKey(d))
  {
    assert !(e.name <= d.name) by {
      if e.name <= d.name {
        PrefixLess(e.name, d.name);
      }
    }
    assert forall i :: 0 <= i < |e.name| ==> e.name[i] in e.name;
    assert (d.name + "/")[|d.name|] == '/' && (d.name + "/")[..|d.name|] == d.name;
    LessExtend(e.name, d.name + "/", SortKey(e), SortKey(d));
  }

  /** A later sibling that stops the look-ahead sorts after the directory. */
  lemma AfterDir(d: Entry, e: Entry)
    requires d.Dir? && ValidName(d.name) && ValidName(e.name)
    requires d.name != e.name && !Less(e.name, d.name + "/")
    ensures Less(SortKey(d), SortKey(e))
  {
    LessTotal(e.name, d.name + "/");
    SlashNotInside(d.name, e.name);
    LessExtend(d.name + "/", e.name, SortKey(d), SortKey(e));
  }

  lemma AfterFile(f: Entry, e: Entry)
    requires f.File? && Less(f.name, e.name)
    ensures Less(SortKey(f), SortKey(e))
  {
    hide Less;
    if e.Dir? {
      PrefixLess(e.name, SortKey(e));
      LessTrans(f.name, e.name, SortKey(e));
    }
  }

  /** Names that stop the look-ahead keep stopping it: nothing later precedes. */
  lemma LookAheadStops(es: seq<Entry>, d: string, j: nat, hi: nat, k: nat)
    requires ValidDir(es) && j <= hi <= |es|
    requires LookAhead(es, d, j, hi) <= k < hi
    ensures !Less(es[k].name, d)
  {
    var r := LookAhead(es, d, j, hi);
    if r < k && Less(es[k].name, d) {
      LessTrans(es[r].name, es[k].name, d);
    }
  }

  lemma OrderedConcat(es: seq<Entry>, a: seq<nat>, b: seq<nat>)
    requires Within(a, |es|) && Within(b, |es|)
    requires OrderedBySortKey(es, a) && OrderedBySortKey(es, b)
    requires forall i, j :: i in a && j in b ==> Less(SortKey(es[i]), SortKey(es[j]))
    ensures OrderedBySortKey(es, a + b)
  {
  }

  /** The look-ahead visits siblings in strictly increasing order of their keys. */
  lemma VisitOrdered(es: seq<Entry>, skip: seq<string>, lo: nat, hi: nat)
    requires ValidDir(es) && lo <= hi <= |es|
    ensures OrderedBySortKey(es, Visit(es, skip, lo, hi))
    decreases hi - lo
  {
    hide Less;
    if lo == hi {
    } else if es[lo].name in skip {
      VisitOrdered(es, skip, lo + 1, hi);
    } else if es[lo].File? {
      var rest := Visit(es, skip, lo + 1, hi);
      VisitOrdered(es, skip, lo + 1, hi);
      forall j | j in rest ensures Less(SortKey(es[lo]), SortKey(es[j])) {
        AfterFile(es[lo], es[j]);
      }
      OrderedConcat(es, [lo], rest);
    } else {
      var d := es[lo].name + "/";
      var j := LookAhead(es, d, lo + 1, hi);
      var before, after := Visit(es, skip, lo + 1, j), Visit(es, skip, j, hi);
      VisitOrdered(es, skip, lo + 1, j);
      VisitOrdered(es, skip, j, hi);
      forall i | i in before ensures Less(SortKey(es[i]), d) {
        BeforeDir(es[lo], es[i]);
      }
      forall k | k in after ensures Less(d, SortKey(es[k])) {
        LookAheadStops(es, d, lo + 1, hi, k);
        LessTotal(es[lo].name, es[k].name);
        AfterDir(es[lo], es[k]);
      }
      OrderedConcat(es, before, [lo]);
      forall i, k | i in before + [lo] && k in after ensures Less(SortKey(es[i]), SortKey(es[k])) {
        if i in before {
          LessTrans(SortKey(es[i]), d, SortKey(es[k]));
        }
      }
      OrderedConcat(es, before + [lo], after);
    }
  }

  // ---------- keys ----------

  function Gather<T>(blocks: seq<seq<T>>, order: seq<nat>): (r: seq<T>)
    requires Within(order, |blocks|)
  {
    if order == [] then [] else blocks[order[0]] + Gather(blocks, order[1..])
  }

  lemma GatherConcat<T>(blocks: seq<seq<T>>, a: seq<nat>, b: seq<nat>)
    requires Within(a, |blocks|) && Within(b, |blocks|)
    ensures Gather(blocks, a + b) == Gather(blocks, a) + Gather(blocks, b)
  {
    if a == [] {
      assert a + b == b;
    } else {
      assert (a + b)[1..] == a[1..] + b;
      GatherConcat(blocks, a[1..], b);
    }
  }

  lemma GatherMember<T>(blocks: seq<seq<T>>, order: seq<nat>, x: T)
    requires Within(order, |blocks|)
    ensures x in Gather(blocks, order) <==> exists a :: 0 <= a < |order| && x in blocks[order[a]]
  {
  }

  /** All keys below one sibling, in the order the walk reaches them. */
  function EntryKeys(skip: seq<string>, base: string, e: Entry): (r: seq<string>)
    decreases e, 1
  {
    if e.name in skip then []
    else if e.File? then [base + e.name]
    else [base + e.name + "/"] + Keys(skip, base + e.name + "/", e.children)
  }

  function Blocks(skip: seq<string>, base: string, es: seq<Entry>): (r: seq<seq<string>>)
    ensures |r| == |es|
    ensures forall i :: 0 <= i < |es| ==> r[i] == EntryKeys(skip, base, es[i])
    decreases es, 2
  {
    seq(|es|, i requires 0 <= i < |es| => EntryKeys(skip, base, es[i]))
  }

  /** All keys below the siblings [lo, hi), in the order of the walk. */
  function RangeKeys(skip: seq<string>, base: string, es: seq<Entry>, lo: nat, hi: nat): (r: seq<string>)
    requires lo <= hi <= |es|
    decreases es, 3
  {
    Gather(Blocks(skip, base, es), Visit(es, skip, lo, hi))
  }

  /** All keys below a directory whose own key is `base`, in the order of the walk. */
  function Keys(skip: seq<string>, base: string, es: seq<Entry>): (r: seq<string>)
    decreases es, 4
  {
    RangeKeys(skip, base, es, 0, |es|)
  }

  lemma RangeStep(skip: seq<string>, base: string, es: seq<Entry>, lo: nat, hi: nat)
    requires lo < hi <= |es|
    ensures es[lo].name in skip ==>
      RangeKeys(skip, base, es, lo, hi) == RangeKeys(skip, base, es, lo + 1, hi)
    ensures es[lo].name !in skip && es[lo].File? ==>
      RangeKeys(skip, base, es, lo, hi) == [base + es[lo].name] + RangeKeys(skip, base, es, lo + 1, hi)
    ensures es[lo].name !in skip && es[lo].Dir? ==>
      var j := LookAhead(es, es[lo].name + "/", lo + 1, hi);
      RangeKeys(skip, base, es, lo, hi) ==
      RangeKeys(skip, base, es, lo + 1, j) + EntryKeys(skip, base, es[lo]) + RangeKeys(skip, base, es, j, hi)
  {
    var blocks := Blocks(skip, base, es);
    assert Gather(blocks, [lo]) == EntryKeys(skip, base, es[lo]);
    if es[lo].name in skip {
    } else if es[lo].File? {
      GatherConcat(blocks, [lo], Visit(es, skip, lo + 1, hi));
    } else {
      var j := LookAhead(es, es[lo].name + "/", lo + 1, hi);
      GatherConcat(blocks, Visit(es, skip, lo + 1, j), [lo]);
      GatherConcat(blocks, Visit(es, skip, lo + 1, j) + [lo], Visit(es, skip, j, hi));
    }
  }

  /** The same keys without any order: the reference for what a listing may show. */
  ghost predicate IsKey(skip: seq<string>, base: string, es: seq<Entry>, k: string)
    decreases es
  {
    exists i :: 0 <= i < |es| && es[i].name !in skip &&
      (k == base + SortKey(es[i]) ||
       (es[i].Dir? && IsKey(skip, base + SortKey(es[i]), es[i].children, k)))
  }

  lemma KeysAreKeys(skip: seq<string>, base: string, es: seq<Entry>, k: string)
    ensures k in Keys(skip, base, es) <==> IsKey(skip, base, es, k)
    decreases es
  {
    var blocks, order := Blocks(skip, base, es), Visit(es, skip, 0, |es|);
    GatherMember(blocks, order, k);
    forall i | 0 <= i < |es|
      ensures i in order && k in blocks[i] <==>
              es[i].name !in skip && (k == base + SortKey(es[i]) ||
              (es[i].Dir? && IsKey(skip, base + SortKey(es[i]), es[i].children, k)))
    {
      VisitedMember(es, skip, 0, |es|, i);
      if es[i].Dir? {
        assert base + es[i].name + "/" == base + SortKey(es[i]);
        KeysAreKeys(skip, base + SortKey(es[i]), es[i].children, k);
      }
    }
  }

  /** Every key below a directory properly extends the directory's own key. */
  lemma KeysExtendBase(skip: seq<string>, base: string, es: seq<Entry>, k: string)
    requires ValidDir(es) && k in Keys(skip, base, es)
    ensures base <= k && base != k && Less(base, k)
    ensures exists i :: 0 <= i < |es| && base + SortKey(es[i]) <= k && (es[i].File? ==> k == base + es[i].name)
    decreases es
  {
    KeysAreKeys(skip, base, es, k);
    var i :| 0 <= i < |es| && es[i].name !in skip &&
      (k == base + SortKey(es[i]) ||
       (es[i].Dir? && IsKey(skip, base + SortKey(es[i]), es[i].children, k)));
    if k != base + SortKey(es[i]) {
      KeysAreKeys(skip, base + SortKey(es[i]), es[i].children, k);
      KeysExtendBase(skip, base + SortKey(es[i]), es[i].children, k);
    }
    assert base <= base + SortKey(es[i]) <= k;
    PrefixLess(base, k);
  }

  /** `k` is the key of `e`, or lies below it when `e` is a directory. */
  predicate Under(base: string, e: Entry, k: string) {
    if e.Dir? then base + SortKey(e) <= k else k == base + e.name
  }

  lemma EntryKeysUnder(skip: seq<string>, base: string, e: Entry, k: string)
    requires (e.Dir? ==> ValidDir(e.children)) && k in EntryKeys(skip, base, e)
    ensures Under(base, e, k)
  {
    if e.Dir? {
      assert base + e.name + "/" == base + SortKey(e);
      if k != base + SortKey(e) {
        KeysExtendBase(skip, base + SortKey(e), e.children, k);
      }
    }
  }

  /** Sibling order carries over to everything below the siblings. */
  lemma SiblingsOrderKeys(base: string, x: Entry, y: Entry, k: string, l: string)
    requires ValidName(x.name) && ValidName(y.name) && x.name != y.name
    requires Less(SortKey(x), SortKey(y))
    requires Under(base, x, k) && Under(base, y, l)
    ensures Less(k, l)
  {
    var a, b := base + SortKey(x), base + SortKey(y);
    LessBase(base, SortKey(x), SortKey(y));
    if x.Dir? {
      SlashNotInside(x.name, y.name);
      assert a[|base|..] == SortKey(x) && b[|base|..] == SortKey(y);
      LessExtend(a, b, k, l);
    } else {
      PrefixLess(b, l);
      if b != l {
        LessTrans(k, b, l);
      }
    }
  }

  ghost predicate AllLess(a: seq<string>, b: seq<string>) {
    forall x, y :: x in a && y in b ==> Less(x, y)
  }

  lemma SortedConcat(a: seq<string>, b: seq<string>)
    requires StrictlySorted(a) && StrictlySorted(b)
    requires AllLess(a, b)
    ensures StrictlySorted(a + b)
  {
  }

  lemma GatherSorted(blocks: seq<seq<string>>, order: seq<nat>)
    requires Within(order, |blocks|)
    requires forall a :: 0 <= a < |order| ==> StrictlySorted(blocks[order[a]])
    requires forall a, b :: 0 <= a < b < |order| ==> AllLess(blocks[order[a]], blocks[order[b]])
    ensures StrictlySorted(Gather(blocks, order))
  {
    if order != [] {
      GatherSorted(blocks, order[1..]);
      forall x, y | x in blocks[order[0]] && y in Gather(blocks, order[1..]) ensures Less(x, y) {
        GatherMember(blocks, order[1..], y);
        var b :| 0 <= b < |order[1..]| && y in blocks[order[1..][b]];
        assert AllLess(blocks[order[0]], blocks[order[b + 1]]);
      }
      SortedConcat(blocks[order[0]], Gather(blocks, order[1..]));
    }
  }

  lemma BlocksOrdered(skip: seq<string>, base: string, es: seq<Entry>, i: nat, j: nat)
    requires ValidDir(es) && i < |es| && j < |es| && Less(SortKey(es[i]), SortKey(es[j]))
    ensures AllLess(EntryKeys(skip, base, es[i]), EntryKeys(skip, base, es[j]))
  {
    LessTotal(SortKey(es[i]), SortKey(es[j]));
    LessTotal(es[i].name, es[j].name);
    forall x, y | x in EntryKeys(skip, base, es[i]) && y in EntryKeys(skip, base, es[j]) ensures Less(x, y) {
      EntryKeysUnder(skip, base, es[i], x);
      EntryKeysUnder(skip, base, es[j], y);
      SiblingsOrderKeys(base, es[i], es[j], x, y);
    }
  }

  /** The walk reaches full keys in strictly increasing byte order. */
  lemma KeysSorted(skip: seq<string>, base: string, es: seq<Entry>)
    requires ValidDir(es)
    ensures StrictlySorted(Keys(skip, base, es))
    decreases es
  {
    var blocks, order := Blocks(skip, base, es), Visit(es, skip, 0, |es|);
    VisitOrdered(es, skip, 0, |es|);
    forall a | 0 <= a < |order| ensures StrictlySorted(blocks[order[a]]) {
      if es[order[a]].Dir? {
        EntryKeysSorted(skip, base, es[order[a]]);
      }
    }
    forall a, b | 0 <= a < b < |order| ensures AllLess(blocks[order[a]], blocks[order[b]]) {
      BlocksOrdered(skip, base, es, order[a], order[b]);
    }
    GatherSorted(blocks, order);
  }

  lemma EntryKeysSorted(skip: seq<string>, base: string, e: Entry)
    requires e.Dir? && ValidDir(e.children)
    ensures StrictlySorted(EntryKeys(skip, base, e))
    decreases e
  {
    var d := base + e.name + "/";
    if e.name !in skip {
      KeysSorted(skip, d, e.children);
      forall k | k in Keys(skip, d, e.children) ensures Less(d, k) {
        KeysExtendBase(skip, d, e.children, k);
      }
      SortedConcat([d], Keys(skip, d, e.children));
    }
  }
}
