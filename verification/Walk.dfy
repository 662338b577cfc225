/** The recursive directory walk behind ListObjects, as the source runs it:
    a mutable `WalkState`, an index loop with look-ahead, pruning, and a limit. */
module Walk {
  import opened Text
  import opened Tree
  import opened Listing

  datatype WalkResults<+T> = WalkResults(
    commonPrefixes: seq<string>,
    objects: seq<T>,
    truncated: bool,
    nextMarker: string)

  /** Items that fill a page.  The limit is only tested after an item was added,
      so a negative max acts like 1; zero never reaches the walk. */
  function Limit(max: int): nat {
    if max < 1 then 1 else max
  }

  // ---------- the two result lists of a page ----------

  function CommonPrefixesOf<T>(q: Request<T>, page: seq<string>): (r: seq<string>)
    decreases |page|
  {
    if page == [] then []
    else
      var n := |page| - 1;
      var rest := CommonPrefixesOf(q, page[..n]);
      if IsCommonPrefix(q, page[n]) then rest + [page[n]] else rest
  }

  function ObjectsOf<T>(q: Request<T>, page: seq<string>): (r: seq<T>)
    decreases |page|
  {
    if page == [] then []
    else
      var n := |page| - 1;
      var rest := ObjectsOf(q, page[..n]);
      if !IsCommonPrefix(q, page[n]) && q.getObj(page[n]).Found? then rest + [q.getObj(page[n]).obj] else rest
  }

  lemma PageSnoc<T>(q: Request<T>, page: seq<string>, item: string)
    ensures CommonPrefixesOf(q, page + [item]) ==
            if IsCommonPrefix(q, item) then CommonPrefixesOf(q, page) + [item] else CommonPrefixesOf(q, page)
    ensures ObjectsOf(q, page + [item]) ==
            if !IsCommonPrefix(q, item) && q.getObj(item).Found? then ObjectsOf(q, page) + [q.getObj(item).obj]
            else ObjectsOf(q, page)
  {
  }

  lemma CommonPrefixMember<T>(q: Request<T>, page: seq<string>, c: string)
    ensures c in CommonPrefixesOf(q, page) <==> c in page && IsCommonPrefix(q, c)
    decreases |page|
  {
  }

  /** cpMap after adding `cps` one by one: each new prefix gets the next number. */
  function Numbering(cps: seq<string>): (m: map<string, nat>)
    decreases |cps|
  {
    if cps == [] then map[]
    else
      var n := |cps| - 1;
      Numbering(cps[..n])[cps[n] := n]
  }

  lemma NumberingMember(cps: seq<string>, c: string)
    ensures c in Numbering(cps) <==> c in cps
    decreases |cps|
  {
  }

  lemma NumberingSnoc(cps: seq<string>, c: string)
    ensures Numbering(cps + [c]) == Numbering(cps)[c := |cps|]
  {
  }

  /** With one number per prefix, the numbers are a bijection onto 0..|cps|-1. */
  lemma {:induction false} NumberingBijective(cps: seq<string>)
    requires |Numbering(cps)| == |cps|
    ensures forall i :: 0 <= i < |cps| ==> cps[i] in Numbering(cps) && Numbering(cps)[cps[i]] == i
    ensures forall c :: c in Numbering(cps) ==> Numbering(cps)[c] < |cps| && cps[Numbering(cps)[c]] == c
    decreases |cps|
  {
    if cps != [] {
      var n := |cps| - 1;
      NumberingSize(cps[..n]);
      NumberingBijective(cps[..n]);
      assert forall i :: 0 <= i < n ==> cps[..n][i] == cps[i];
    }
  }

  lemma NumberingSize(cps: seq<string>)
    ensures |Numbering(cps)| <= |cps|
    decreases |cps|
  {
  }

  /** CpArray: spreading the numbered map over an array restores the order of insertion. */
  method CpArray(m: map<string, nat>, ghost cps: seq<string>) returns (r: seq<string>)
    requires m == Numbering(cps) && |m| == |cps|
    ensures r == cps
  {
    NumberingBijective(cps);
    var a := new string[|m|](_ => "");
    var todo := m.Keys;
    while todo != {}
      invariant todo <= m.Keys
      invariant forall c :: c in m && c !in todo ==> a[m[c]] == c
      decreases |todo|
    {
      var c :| c in todo;
      a[m[c]] := c;
      todo := todo - {c};
    }
    forall i | 0 <= i < |cps| ensures a[i] == cps[i] {
      assert m[cps[i]] == i;
    }
    r := a[..];
  }

  // ---------- paths ----------

  function FullName(path: string, name: string): string {
    if path == "." then name else path + "/" + name
  }

  /** The key under which a directory's entries are listed. */
  function BaseOf(path: string): string {
    if path == "." then "" else path + "/"
  }

  lemma FullNameBase(path: string, name: string)
    requires ValidName(name)
    ensures FullName(path, name) == BaseOf(path) + name
    ensures BaseOf(FullName(path, name)) == BaseOf(path) + name + "/"
  {
  }

  // ---------- pruning ----------

  /** A directory rolled up into a common prefix hides nothing new below it. */
  lemma PruneCollapsed<T>(q: Request<T>, page: seq<string>, d: string, es: seq<Entry>)
    requires ValidDir(es) && q.prefix <= d && CommonPrefix(q, d).Some?
    requires CommonPrefix(q, d).value in page || !Less(q.marker, CommonPrefix(q, d).value)
    ensures EmitAll(q, page, Keys(q.skipdirs, d, es)) == page
  {
    forall k | k in Keys(q.skipdirs, d, es) ensures Emit(q, page, k) == page {
      KeysExtendBase(q.skipdirs, d, es, k);
      CollapseExtend(q, d, k);
      CollapseIdempotent(q, d);
    }
    EmitNothing(q, page, Keys(q.skipdirs, d, es));
  }

  /** Nothing below a directory matches a prefix that neither contains nor extends its key. */
  lemma PruneMismatch<T>(q: Request<T>, page: seq<string>, d: string, es: seq<Entry>)
    requires ValidDir(es) && !(q.prefix <= d) && !(d <= q.prefix)
    ensures EmitAll(q, page, Keys(q.skipdirs, d, es)) == page
  {
    forall k | k in Keys(q.skipdirs, d, es) ensures Emit(q, page, k) == page {
      KeysExtendBase(q.skipdirs, d, es, k);
    }
    EmitNothing(q, page, Keys(q.skipdirs, d, es));
  }

  lemma BeforeMarker<T>(q: Request<T>, page: seq<string>, k: string)
    requires !Less(q.marker, k)
    ensures Emit(q, page, k) == page
  {
    ItemIsPrefix(q, k);
    if ItemOf(q, k).Some? && Less(q.marker, ItemOf(q, k).value) && ItemOf(q, k).value != k {
      LessTrans(q.marker, ItemOf(q, k).value, k);
    }
  }

  /** Everything below a directory before the marker is before it too, unless the
      marker lies below the directory. */
  lemma PruneBeforeMarker<T>(q: Request<T>, page: seq<string>, d: string, es: seq<Entry>)
    requires ValidDir(es) && !Less(q.marker, d) && !(d <= q.marker)
    ensures EmitAll(q, page, Keys(q.skipdirs, d, es)) == page
  {
    LessTotal(d, q.marker);
    forall k | k in Keys(q.skipdirs, d, es) ensures Emit(q, page, k) == page {
      KeysExtendBase(q.skipdirs, d, es, k);
      LessExtend(d, q.marker, k, q.marker);
      LessTotal(k, q.marker);
      BeforeMarker(q, page, k);
    }
    EmitNothing(q, page, Keys(q.skipdirs, d, es));
  }

  /** Inside a directory's look-ahead, a nested look-ahead ends no later. */
  lemma NestedLookAhead(es: seq<Entry>, i: nat, k: nat)
    requires ValidDir(es) && i < |es| && es[i].Dir?
    requires i < k < LookAhead(es, es[i].name + "/", i + 1, |es|) && es[k].Dir?
    ensures LookAhead(es, es[k].name + "/", k + 1, |es|) ==
            LookAhead(es, es[k].name + "/", k + 1, LookAhead(es, es[i].name + "/", i + 1, |es|))
  {
    var d, d' := es[i].name + "/", es[k].name + "/";
    var j := LookAhead(es, d, i + 1, |es|);
    BeforeDir(es[i], es[k]);
    if j < |es| && Less(es[j].name, d') {
      LessTrans(es[j].name, d', d);
    }
    LookAheadMeets(es, d', k + 1, j);
  }

  lemma LookAheadMeets(es: seq<Entry>, d: string, j: nat, hi: nat)
    requires j <= hi <= |es| && (hi < |es| ==> !Less(es[hi].name, d))
    ensures LookAhead(es, d, j, |es|) == LookAhead(es, d, j, hi)
    decreases hi - j
  {
  }

  /** What the page becomes when the siblings [lo, hi) and then `tail` are offered. */
  ghost function Target<T>(q: Request<T>, base: string, es: seq<Entry>, page: seq<string>, lo: nat, hi: nat,
                           tail: seq<string>): (r: seq<string>)
    requires lo <= hi <= |es|
    ensures page <= r
  {
    EmitAll(q, page, RangeKeys(q.skipdirs, base, es, lo, hi) + tail)
  }

  // How handling sibling `lo` moves the walk towards its target.

  lemma StepSkip<T>(q: Request<T>, base: string, es: seq<Entry>, page: seq<string>, lo: nat, hi: nat, tail: seq<string>)
    requires lo < hi <= |es| && es[lo].name in q.skipdirs
    ensures Target(q, base, es, page, lo, hi, tail) == Target(q, base, es, page, lo + 1, hi, tail)
  {
  }

  lemma StepFile<T>(q: Request<T>, base: string, es: seq<Entry>, page: seq<string>, lo: nat, hi: nat, tail: seq<string>)
    requires lo < hi <= |es| && es[lo].name !in q.skipdirs && es[lo].File?
    ensures Target(q, base, es, page, lo, hi, tail) ==
            Target(q, base, es, Emit(q, page, base + es[lo].name), lo + 1, hi, tail)
  {
    hide RangeKeys, EmitAll, Emit;
    RangeStep(q.skipdirs, base, es, lo, hi);
    var k, rest := base + es[lo].name, RangeKeys(q.skipdirs, base, es, lo + 1, hi);
    assert [k] + rest + tail == [k] + (rest + tail);
    EmitCons(q, page, k, rest + tail);
  }

  lemma StepDir<T>(q: Request<T>, base: string, es: seq<Entry>, page: seq<string>, lo: nat, j: nat, hi: nat,
                   tail: seq<string>)
    requires lo < hi <= |es| && es[lo].name !in q.skipdirs && es[lo].Dir?
    requires j == LookAhead(es, es[lo].name + "/", lo + 1, hi)
    ensures Target(q, base, es, page, lo, hi, tail) ==
            Target(q, base, es, Target(q, base, es, page, lo + 1, j, EntryKeys(q.skipdirs, base, es[lo])), j, hi, tail)
  {
    hide RangeKeys, EntryKeys, EmitAll, LookAhead;
    RangeStep(q.skipdirs, base, es, lo, hi);
    var a := RangeKeys(q.skipdirs, base, es, lo + 1, j) + EntryKeys(q.skipdirs, base, es[lo]);
    var b := RangeKeys(q.skipdirs, base, es, j, hi);
    assert a + b + tail == a + (b + tail);
    EmitAllConcat(q, page, a, b + tail);
  }

  lemma TargetEnds<T>(q: Request<T>, base: string, es: seq<Entry>, page: seq<string>)
    ensures Target(q, base, es, page, 0, |es|, []) == EmitAll(q, page, Keys(q.skipdirs, base, es))
    ensures EmitAll(q, page, []) == page
    ensures forall i, tail :: 0 <= i <= |es| ==> Target(q, base, es, page, i, i, tail) == EmitAll(q, page, tail)
  {
    assert RangeKeys(q.skipdirs, base, es, 0, |es|) + [] == RangeKeys(q.skipdirs, base, es, 0, |es|);
    forall i, tail | 0 <= i <= |es| ensures Target(q, base, es, page, i, i, tail) == EmitAll(q, page, tail) {
      assert RangeKeys(q.skipdirs, base, es, i, i) + tail == tail;
    }
  }

  // ---------- the walk ----------

  class WalkState<T> {
    const q: Request<T>
    var cpmap: map<string, nat>
    var objects: seq<T>
    var pastMax: bool
    var newMarker: string
    var truncated: bool
    var walkErr: bool
    /** Objects and common prefixes together, in the order they were added. */
    ghost var page: seq<string>

    /** The result fields hold the page. */
    ghost predicate Filled()
      reads `objects, `cpmap, `page
    {
      && objects == ObjectsOf(q, page)
      && cpmap == Numbering(CommonPrefixesOf(q, page)) && |cpmap| == |CommonPrefixesOf(q, page)|
      && |objects| + |cpmap| == |page| <= Limit(q.max)
    }

    ghost predicate Valid()
      reads this
    {
      && Filled()
      && (pastMax <==> |page| >= Limit(q.max))
      && (pastMax ==> newMarker == page[|page| - 1])
      && (truncated ==> pastMax)
    }

    /** The walk has got to `target`, of which the page is at least a leading part.
        A walk that ran into an error found it within one page of the target. */
    ghost predicate Reached(target: seq<string>, now: seq<string>)
      reads this
    {
      if walkErr then FailsWithin(q, target, Limit(q.max))
      else if truncated then page <= target
      else now == target
    }

    /** The keys `ks` were offered on top of `was`: the page is a leading part of the
        unlimited result, and all of it unless the walk was cut short. */
    ghost predicate Offered(was: seq<string>, ks: seq<string>)
      reads this
    {
      Reached(EmitAll(q, was, ks), page)
    }

    constructor (q: Request<T>)
      ensures this.q == q && Valid() && page == [] && !truncated && !pastMax && !walkErr
    {
      this.q := q;
      cpmap, objects, pastMax, newMarker, truncated, walkErr, page := map[], [], false, "", false, false, [];
    }

    method AddObject(obj: T, key: string)
      requires Valid() && !pastMax
      requires q.getObj(key) == Found(obj) && !IsCommonPrefix(q, key)
      modifies this
      ensures Valid() && page == old(page) + [key] && truncated == old(truncated) && walkErr == old(walkErr)
      ensures objects == old(objects) + [obj] && cpmap == old(cpmap)
      ensures pastMax <==> |objects| + |cpmap| >= q.max
    {
      hide CommonPrefixesOf, ObjectsOf, Numbering;
      PageSnoc(q, page, key);
      page := page + [key];
      objects := objects + [obj];
      if |objects| + |cpmap| >= q.max {
        newMarker := key;
        pastMax := true;
      }
    }

    method AddCommonPrefix(c: string)
      requires Valid() && !pastMax && IsCommonPrefix(q, c)
      modifies this
      ensures Valid() && page == (if c in old(page) then old(page) else old(page) + [c])
      ensures truncated == old(truncated) && walkErr == old(walkErr) && objects == old(objects)
      ensures pastMax <==> |objects| + |cpmap| >= q.max
    {
      hide Numbering, CommonPrefixesOf, ObjectsOf;
      CommonPrefixMember(q, page, c);
      NumberingMember(CommonPrefixesOf(q, page), c);
      if c !in cpmap {
        PageSnoc(q, page, c);
        NumberingSnoc(CommonPrefixesOf(q, page), c);
        page := page + [c];
        cpmap := cpmap[c := |cpmap|];
      }
      if |objects| + |cpmap| >= q.max {
        newMarker := c;
        pastMax := true;
      }
    }

    method CheckAndMaybeAddCommonPrefix(k: string) returns (done: bool)
      requires Valid() && !pastMax
      modifies this
      ensures Valid() && truncated == old(truncated) && walkErr == old(walkErr)
      ensures done <==> !(q.prefix <= k) || CommonPrefix(q, k).Some?
      ensures done ==> page == Emit(q, old(page), k)
      ensures !done ==> page == old(page) && !pastMax
    {
      hide Filled;
      if q.prefix != "" && !(q.prefix <= k) {
        return true;
      }
      if q.delimiter != "" {
        var suffix := k[|q.prefix|..];
        var i := Index(suffix, q.delimiter);
        if i >= 0 {
          var c := q.prefix + suffix[..i] + q.delimiter;
          CollapseIdempotent(q, k);
          if Less(q.marker, c) {
            AddCommonPrefix(c);
          }
          return true;
        }
      }
      return false;
    }

    method AddContentEntry(k: string)
      requires Valid() && !pastMax && q.prefix <= k && CommonPrefix(q, k).None?
      requires Less(q.marker, k)
      modifies this
      ensures Valid() && truncated == old(truncated) && (walkErr || page == Emit(q, old(page), k))
      ensures walkErr <==> old(walkErr) || Fails(q, k)
    {
      match q.getObj(k)
      case Skip =>
      case Found(obj) => AddObject(obj, k);
      case Failed =>
        walkErr := true;
    }

    /** A leaf of the walk: a file, or a directory's own key. */
    method OfferKey(k: string) returns (collapsed: bool)
      requires Valid() && !pastMax && Less(q.marker, k)
      modifies this
      ensures Valid() && truncated == old(truncated) && (walkErr || page == Emit(q, old(page), k))
      ensures walkErr <==> old(walkErr) || Fails(q, k)
      ensures collapsed <==> !(q.prefix <= k) || CommonPrefix(q, k).Some?
      ensures collapsed ==> page == Emit(q, old(page), k)
    {
      collapsed := CheckAndMaybeAddCommonPrefix(k);
      if !collapsed {
        AddContentEntry(k);
      }
    }

    method OfferFile(k: string)
      requires Valid() && !pastMax
      modifies this
      ensures Valid() && truncated == old(truncated) && (walkErr || page == Emit(q, old(page), k))
      ensures walkErr <==> old(walkErr) || Fails(q, k)
    {
      if Less(q.marker, k) {
        var _ := OfferKey(k);
      } else {
        BeforeMarker(q, page, k);
      }
    }

    method ReadDirEntries(path: string, es: seq<Entry>)
      requires Valid() && ValidDir(es)
      modifies this
      ensures Valid() && (if old(walkErr) then walkErr else Offered(old(page), Keys(q.skipdirs, BaseOf(path), es)))
      decreases es, |es| + 1
    {
      hide Filled, RangeKeys, EmitAll, Emit, EntryKeys, FailsWithin, Fails;
      ghost var base, n := BaseOf(path), |es|;
      var i := 0;
      ghost var target := Target(q, base, es, page, i, n, []);
      TargetEnds(q, base, es, page);
      while i < |es|
        invariant i <= |es| && Valid()
        invariant if old(walkErr) then walkErr else Reached(target, Target(q, base, es, page, i, n, []))
      {
        if es[i].name in q.skipdirs {
          StepSkip(q, base, es, page, i, n, []);
          i := i + 1;
          continue;
        }
        if pastMax {
          truncated := true;
          return;
        }
        ghost var failed := walkErr;
        if es[i].Dir? {
          ghost var j := LookAhead(es, es[i].name + "/", i + 1, n);
          ghost var inner := Target(q, base, es, page, i + 1, j, EntryKeys(q.skipdirs, base, es[i]));
          StepDir(q, base, es, page, i, j, n, []);
          i := ProcessDir(path, es, i);
          if walkErr && !failed {
            FailsInLonger(q, inner, target, Limit(q.max));
          }
        } else {
          ghost var was, k := page, base + es[i].name;
          StepFile(q, base, es, page, i, n, []);
          FullNameBase(path, es[i].name);
          OfferFile(FullName(path, es[i].name));
          i := i + 1;
          if walkErr && !failed {
            FailureHasPlace(q, was, k, target, Limit(q.max));
          }
        }
      }
      TargetEnds(q, base, es, page);
    }

    method ProcessDir(path: string, es: seq<Entry>, current: nat) returns (i: nat)
      requires Valid() && !pastMax && ValidDir(es)
      requires current < |es| && es[current].Dir? && es[current].name !in q.skipdirs
      modifies this
      ensures Valid() && current < i <= |es|
      ensures var j := LookAhead(es, es[current].name + "/", current + 1, |es|);
              (!truncated ==> i == j) &&
              if old(walkErr) then walkErr
              else Reached(Target(q, BaseOf(path), es, old(page), current + 1, j,
                                  EntryKeys(q.skipdirs, BaseOf(path), es[current])), page)
      decreases es, |es| - current
    {
      hide Filled, RangeKeys, EmitAll, Emit, EntryKeys, LookAhead, Less, FailsWithin, Fails;
      var d := es[current].name + "/";
      ghost var base := BaseOf(path);
      ghost var j := LookAhead(es, d, current + 1, |es|);
      ghost var own := EntryKeys(q.skipdirs, base, es[current]);
      i := current + 1;
      ghost var target := Target(q, base, es, page, i, j, own);
      while i < |es|
        invariant current < i <= |es| && Valid() && (!truncated ==> i <= j)
        invariant if old(walkErr) then walkErr
                  else Reached(target, if truncated then page else Target(q, base, es, page, i, j, own))
      {
        if pastMax {
          truncated := true;
          return;
        }
        if !Less(es[i].name, d) {
          break;
        }
        if es[i].name in q.skipdirs {
          StepSkip(q, base, es, page, i, j, own);
          i := i + 1;
          continue;
        }
        ghost var failed := walkErr;
        if es[i].Dir? {
          NestedLookAhead(es, current, i);
          ghost var m := LookAhead(es, es[i].name + "/", i + 1, |es|);
          ghost var inner := Target(q, base, es, page, i + 1, m, EntryKeys(q.skipdirs, base, es[i]));
          StepDir(q, base, es, page, i, m, j, own);
          i := ProcessDir(path, es, i);
          if walkErr && !failed {
            FailsInLonger(q, inner, target, Limit(q.max));
          }
        } else {
          ghost var was, k := page, base + es[i].name;
          StepFile(q, base, es, page, i, j, own);
          FullNameBase(path, es[i].name);
          OfferFile(FullName(path, es[i].name));
          i := i + 1;
          if walkErr && !failed {
            FailureHasPlace(q, was, k, target, Limit(q.max));
          }
        }
      }
      if pastMax {
        truncated := true;
        return;
      }
      TargetEnds(q, base, es, page);
      ProcessDirItself(path, es[current]);
    }

    /** The part of processDir after its look-ahead loop. */
    method ProcessDirItself(path: string, e: Entry)
      requires Valid() && !pastMax && e.Dir? && e.name !in q.skipdirs
      requires ValidName(e.name) && ValidDir(e.children)
      modifies this
      ensures Valid() && (if old(walkErr) then walkErr else Offered(old(page), EntryKeys(q.skipdirs, BaseOf(path), e)))
      decreases e, 0
    {
      hide Filled, EmitAll, Keys, FailsWithin;
      var full := FullName(path, e.name);
      var k := full + "/";
      FullNameBase(path, e.name);
      EmitCons(q, page, k, Keys(q.skipdirs, k, e.children));
      ghost var was, target := page, EmitAll(q, page, [k] + Keys(q.skipdirs, k, e.children));
      if Less(q.marker, k) {
        var collapsed := OfferKey(k);
        if collapsed && (!(k <= q.prefix) || pastMax) {
          if q.prefix <= k {
            PruneCollapsed(q, page, k, e.children);
          } else {
            PruneMismatch(q, page, k, e.children);
          }
          return;
        }
        if !collapsed && q.getObj(k).Failed? {
          FailureHasPlace(q, was, k, target, Limit(q.max));
          return;
        }
      } else {
        BeforeMarker(q, page, k);
        if !(q.marker <= k || k <= q.marker) {
          PruneBeforeMarker(q, page, k, e.children);
          return;
        }
      }
      if pastMax {
        truncated := true;
        return;
      }
      ReadDirEntries(full, e.children);
    }
  }
}
