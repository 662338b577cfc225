/** The second traversal of the repository: sort each directory by name, with a
    slash added to directories, then visit.  It visits what the look-ahead visits. */
module WalkDir {
  import opened Text
  import opened Tree
  import Listing

  /** The order `sortFunc` asks slices.SortFunc for. */
  ghost predicate Sorted(es: seq<Entry>) {
    forall i, j :: 0 <= i < j < |es| ==> !Less(SortKey(es[j]), SortKey(es[i]))
  }

  function SortKeys(es: seq<Entry>): (r: seq<string>)
    ensures |r| == |es| && forall i :: 0 <= i < |es| ==> r[i] == SortKey(es[i])
  {
    seq(|es|, i requires 0 <= i < |es| => SortKey(es[i]))
  }

  /** The siblings in the order of the look-ahead. */
  function Visited(es: seq<Entry>): (r: seq<Entry>)
    ensures |r| == |Visit(es, [], 0, |es|)|
    ensures forall i :: 0 <= i < |r| ==> r[i] == es[Visit(es, [], 0, |es|)[i]]
  {
    var order := Visit(es, [], 0, |es|);
    seq(|order|, i requires 0 <= i < |order| => es[order[i]])
  }

  lemma SortKeyInjective(a: Entry, b: Entry)
    requires ValidName(a.name) && ValidName(b.name) && SortKey(a) == SortKey(b)
    ensures a.name == b.name && a.Dir? == b.Dir?
  {
    assert a.name[|a.name| - 1] in a.name && b.name[|b.name| - 1] in b.name;
    assert SortKey(a)[..|SortKey(a)| - 1] == SortKey(b)[..|SortKey(b)| - 1];
    assert a.Dir? ==> SortKey(a)[|SortKey(a)| - 1] == '/';
    assert b.Dir? ==> SortKey(b)[|SortKey(b)| - 1] == '/';
  }

  lemma SiblingsDistinct(es: seq<Entry>, a: Entry, b: Entry)
    requires ValidDir(es) && a in es && b in es && SortKey(a) == SortKey(b)
    ensures a == b
  {
    var i :| 0 <= i < |es| && es[i] == a;
    var j :| 0 <= j < |es| && es[j] == b;
    SortKeyInjective(a, b);
    LessTotal(a.name, b.name);
  }

  lemma MultisetMembers(s: seq<Entry>, es: seq<Entry>)
    requires multiset(s) == multiset(es)
    ensures forall e :: e in s <==> e in es
  {
    assert forall e :: e in s <==> e in multiset(s);
    assert forall e :: e in es <==> e in multiset(es);
  }

  lemma EntriesDistinct(es: seq<Entry>)
    requires ValidDir(es)
    ensures forall e :: e in multiset(es) ==> multiset(es)[e] == 1
    decreases |es|
  {
    if es != [] {
      var n := |es| - 1;
      assert es == es[..n] + [es[n]];
      EntriesDistinct(es[..n]);
      forall i | 0 <= i < n ensures es[i] != es[n] {
        LessTotal(es[i].name, es[n].name);
      }
      assert es[n] !in es[..n];
      assert multiset(es) == multiset(es[..n]) + multiset{es[n]};
    }
  }

  lemma DistinctPositions(s: seq<Entry>, i: nat, j: nat)
    requires i < j < |s| && multiset(s)[s[i]] == 1
    ensures s[i] != s[j]
  {
    assert s == s[..j] + s[j..];
    assert multiset(s) == multiset(s[..j]) + multiset(s[j..]);
    assert s[i] in s[..j] && s[j] in s[j..];
  }

  /** Whatever correct sort the library uses, the result is the look-ahead's order. */
  lemma LookAheadIsSort(es: seq<Entry>, s: seq<Entry>)
    requires ValidDir(es) && multiset(s) == multiset(es) && Sorted(s)
    ensures s == Visited(es)
  {
    var v := Visited(es);
    MultisetMembers(s, es);
    EntriesDistinct(es);
    forall i, j | 0 <= i < j < |s| ensures Less(SortKeys(s)[i], SortKeys(s)[j]) {
      assert s[i] in s && s[j] in s;
      DistinctPositions(s, i, j);
      LessTotal(SortKey(s[i]), SortKey(s[j]));
      if SortKey(s[i]) == SortKey(s[j]) {
        SiblingsDistinct(es, s[i], s[j]);
      }
    }
    VisitOrdered(es, [], 0, |es|);
    assert forall e :: e in v ==> e in es;
    forall i | 0 <= i < |es| ensures es[i] in v {
      VisitedMember(es, [], 0, |es|, i);
      var a :| 0 <= a < |v| && Visit(es, [], 0, |es|)[a] == i;
      assert v[a] == es[i];
    }
    SameKeys(es, s, v);
    Listing.SortedUnique(SortKeys(s), SortKeys(v));
    forall i | 0 <= i < |s| ensures s[i] == v[i] {
      assert SortKeys(s)[i] == SortKeys(v)[i];
      assert s[i] in s && v[i] in v;
      SiblingsDistinct(es, s[i], v[i]);
    }
  }

  lemma SameKeys(es: seq<Entry>, s: seq<Entry>, v: seq<Entry>)
    requires forall e :: e in s <==> e in es
    requires forall e :: e in v <==> e in es
    ensures forall k :: k in SortKeys(s) <==> k in SortKeys(v)
  {
    forall k ensures k in SortKeys(s) <==> k in SortKeys(v) {
      KeyOfEntry(s, k);
      KeyOfEntry(v, k);
    }
  }

  lemma KeyOfEntry(s: seq<Entry>, k: string)
    ensures k in SortKeys(s) <==> exists e :: e in s && SortKey(e) == k
  {
  }

  // ---------- sorting and visiting ----------

  /** Insertion into a sorted list, standing in for the library's sort. */
  function Insert(e: Entry, s: seq<Entry>): (r: seq<Entry>)
    ensures multiset(r) == multiset(s) + multiset{e}
  {
    if s == [] then [e]
    else if Less(SortKey(s[0]), SortKey(e)) then
      assert s == [s[0]] + s[1..];
      [s[0]] + Insert(e, s[1..])
    else [e] + s
  }

  ghost predicate NoneBefore(e: Entry, s: seq<Entry>) {
    forall f :: f in s ==> !Less(SortKey(f), SortKey(e))
  }

  lemma InsertSorted(e: Entry, s: seq<Entry>)
    requires Sorted(s)
    ensures Sorted(Insert(e, s))
  {
    if s != [] {
      assert NoneBefore(s[0], s[1..]);
      LessTotal(SortKey(s[0]), SortKey(e));
      if Less(SortKey(s[0]), SortKey(e)) {
        InsertSorted(e, s[1..]);
        MultisetMembers(Insert(e, s[1..]), s[1..] + [e]);
        ConsSorted(s[0], Insert(e, s[1..]));
      } else {
        forall f | f in s ensures !Less(SortKey(f), SortKey(e)) {
          if f in s[1..] && Less(SortKey(f), SortKey(e)) && SortKey(e) != SortKey(s[0]) {
            LessTrans(SortKey(f), SortKey(e), SortKey(s[0]));
          }
          assert s == [s[0]] + s[1..];
        }
        ConsSorted(e, s);
      }
    }
  }

  lemma ConsSorted(e: Entry, s: seq<Entry>)
    requires Sorted(s) && NoneBefore(e, s)
    ensures Sorted([e] + s)
  {
  }

  method SortSiblings(es: seq<Entry>) returns (s: seq<Entry>)
    ensures multiset(s) == multiset(es) && Sorted(s)
  {
    s := [];
    for i := 0 to |es|
      invariant multiset(s) == multiset(es[..i]) && Sorted(s)
    {
      InsertSorted(es[i], s);
      s := Insert(es[i], s);
      assert es[..i + 1] == es[..i] + [es[i]];
    }
    assert es[..|es|] == es;
  }

  /** What the callback answers: nil, fs.SkipDir, or anything that ends the walk. */
  datatype Control = Continue | SkipDir | SkipAll

  // ---------- what a callback sees ----------

  /** What fs.SkipDir takes away: the directory itself, or for a file the directory it is in. */
  function Scope(k: string): (r: string)
    ensures r <= k
  {
    k[..LastSlash(k) + 1]
  }

  /** Visiting x rules out visiting k later. */
  predicate RulesOut(callback: string -> Control, x: string, k: string) {
    callback(x) == SkipAll || (callback(x) == SkipDir && Scope(x) <= k)
  }

  predicate Blocked(callback: string -> Control, seen: seq<string>, k: string) {
    exists x :: x in seen && RulesOut(callback, x, k)
  }

  /** The keys visited after `seen` when `ks` are on offer: every key that none visited
      before it rules out. */
  function Seen(callback: string -> Control, seen: seq<string>, ks: seq<string>): (r: seq<string>)
    decreases |ks|
  {
    if ks == [] then seen
    else Seen(callback, if Blocked(callback, seen, ks[0]) then seen else seen + [ks[0]], ks[1..])
  }

  lemma {:induction false} SeenConcat(callback: string -> Control, seen: seq<string>, a: seq<string>, b: seq<string>)
    ensures Seen(callback, seen, a + b) == Seen(callback, Seen(callback, seen, a), b)
    decreases |a|
  {
    if a == [] {
      assert a + b == b;
    } else {
      assert (a + b)[1..] == a[1..] + b;
      SeenConcat(callback, if Blocked(callback, seen, a[0]) then seen else seen + [a[0]], a[1..], b);
    }
  }

  /** Keys that rule out nothing on offer change nothing. */
  lemma {:induction false} SeenApart(callback: string -> Control, before: seq<string>, seen: seq<string>,
                                     ks: seq<string>)
    requires forall k :: k in ks ==> !Blocked(callback, before, k)
    ensures Seen(callback, before + seen, ks) == before + Seen(callback, seen, ks)
    decreases |ks|
  {
    if ks != [] {
      BlockedConcat(callback, before, seen, ks[0]);
      var next := if Blocked(callback, seen, ks[0]) then seen else seen + [ks[0]];
      assert before + (seen + [ks[0]]) == before + seen + [ks[0]];
      SeenApart(callback, before, next, ks[1..]);
    }
  }

  lemma BlockedConcat(callback: string -> Control, a: seq<string>, b: seq<string>, k: string)
    ensures Blocked(callback, a + b, k) <==> Blocked(callback, a, k) || Blocked(callback, b, k)
  {
    assert forall x :: x in a + b <==> x in a || x in b;
  }

  lemma {:induction false} SeenNothing(callback: string -> Control, seen: seq<string>, ks: seq<string>)
    requires forall k :: k in ks ==> Blocked(callback, seen, k)
    ensures Seen(callback, seen, ks) == seen
    decreases |ks|
  {
    if ks != [] {
      SeenNothing(callback, seen, ks[1..]);
    }
  }

  /** A callback that never objects sees everything. */
  lemma {:induction false} SeenAll(callback: string -> Control, seen: seq<string>, ks: seq<string>)
    requires forall k :: callback(k) == Continue
    ensures Seen(callback, seen, ks) == seen + ks
    decreases |ks|
  {
    if ks != [] {
      SeenAll(callback, seen + [ks[0]], ks[1..]);
      assert seen + ks == seen + [ks[0]] + ks[1..];
    } else {
      assert seen + ks == seen;
    }
  }

  /** What is visited is on offer, in the order of the offer. */
  lemma {:induction false} SeenSorted(callback: string -> Control, seen: seq<string>, ks: seq<string>)
    requires StrictlySorted(seen + ks)
    ensures StrictlySorted(Seen(callback, seen, ks)) && Subset(Seen(callback, seen, ks), seen + ks)
    decreases |ks|
  {
    if ks == [] {
      assert seen + ks == seen;
    } else {
      var next := if Blocked(callback, seen, ks[0]) then seen else seen + [ks[0]];
      assert seen + ks == seen + [ks[0]] + ks[1..];
      DropOne(seen, ks[0], ks[1..]);
      SeenSorted(callback, next, ks[1..]);
    }
  }

  lemma DropOne(a: seq<string>, k: string, b: seq<string>)
    requires StrictlySorted(a + [k] + b)
    ensures StrictlySorted(a + b) && Subset(a + b, a + [k] + b)
  {
    var all := a + [k] + b;
    assert forall i :: 0 <= i < |a + b| ==> (a + b)[i] == all[if i < |a| then i else i + 1];
  }

  function Flatten(base: string, es: seq<Entry>): (r: seq<string>) {
    if es == [] then [] else EntryKeys([], base, es[0]) + Flatten(base, es[1..])
  }

  lemma FlattenSnoc(base: string, es: seq<Entry>, e: Entry)
    ensures Flatten(base, es + [e]) == Flatten(base, es) + EntryKeys([], base, e)
  {
    if es != [] {
      assert (es + [e])[1..] == es[1..] + [e];
      FlattenSnoc(base, es[1..], e);
    }
  }

  lemma GatherIsFlatten(base: string, es: seq<Entry>, order: seq<nat>, v: seq<Entry>)
    requires Within(order, |es|) && |v| == |order|
    requires forall i :: 0 <= i < |v| ==> v[i] == es[order[i]]
    ensures Gather(Blocks([], base, es), order) == Flatten(base, v)
  {
  }

  lemma FlattenConcat(base: string, a: seq<Entry>, b: seq<Entry>)
    ensures Flatten(base, a + b) == Flatten(base, a) + Flatten(base, b)
  {
    if a == [] {
      assert a + b == b;
    } else {
      assert (a + b)[1..] == a[1..] + b;
      FlattenConcat(base, a[1..], b);
    }
  }

  lemma FlattenMember(base: string, es: seq<Entry>, k: string)
    requires k in Flatten(base, es)
    ensures exists i :: 0 <= i < |es| && k in EntryKeys([], base, es[i])
  {
  }

  ghost predicate Subset(a: seq<string>, b: seq<string>) {
    forall k :: k in a ==> k in b
  }

  lemma SortedIsFlatten(base: string, es: seq<Entry>, s: seq<Entry>)
    requires ValidDir(es) && multiset(s) == multiset(es) && Sorted(s)
    ensures s == Visited(es) && Keys([], base, es) == Flatten(base, s)
    ensures forall i :: 0 <= i < |s| ==> s[i] in es
  {
    MultisetMembers(s, es);
    LookAheadIsSort(es, s);
    GatherIsFlatten(base, es, Visit(es, [], 0, |es|), s);
  }

  /** A directory's key: empty for the root, otherwise with a trailing slash. */
  predicate IsBase(base: string) {
    base == "" || base[|base| - 1] == '/'
  }

  lemma ScopeOfDir(k: string)
    requires k != "" && k[|k| - 1] == '/'
    ensures Scope(k) == k
  {
    assert k[..|k|] == k;
  }

  lemma ScopeOfFile(base: string, name: string)
    requires IsBase(base) && '/' !in name
    ensures Scope(base + name) == base
  {
    var k := base + name;
    forall j | |base| <= j < |k| ensures k[j] != '/' {
      assert k[j] == name[j - |base|] && name[j - |base|] in name;
    }
    assert base != "" ==> k[|base| - 1] == '/';
    assert LastSlash(k) == |base| - 1;
    assert k[..|base|] == base;
  }

  lemma ScopeOf(base: string, e: Entry)
    requires IsBase(base) && ValidName(e.name)
    ensures Scope(base + SortKey(e)) == if e.Dir? then base + SortKey(e) else base
  {
    hide Scope;
    if e.Dir? {
      ScopeOfDir(base + SortKey(e));
    } else {
      ScopeOfFile(base, e.name);
    }
  }

  lemma PrefixShift(base: string, x: string, t: string)
    ensures base + x <= base + t <==> x <= t
  {
    assert (base + t)[|base|..] == t && (base + x)[|base|..] == x;
    if x <= t {
      assert t == x + t[|x|..];
      assert base + t == (base + x) + t[|x|..];
    }
  }

  /** The subtrees of two siblings share no key. */
  lemma SubtreesApart(base: string, d: Entry, e: Entry, k: string)
    requires d.Dir? && ValidName(d.name) && ValidName(e.name) && d.name != e.name && Under(base, e, k)
    ensures !(base + SortKey(d) <= k)
  {
    SlashNotInside(d.name, e.name);
    SlashNotInside(e.name, d.name);
    var t := k[|base|..];
    assert base <= k && k == base + t;
    PrefixShift(base, SortKey(d), t);
    PrefixShift(base, SortKey(e), t);
  }

  /** How the walk below `d` left off, told by the keys it visited. */
  ghost predicate LeftOff(callback: string -> Control, d: string, log: seq<string>, c: Control) {
    match c
    case SkipAll => exists x :: x in log && callback(x) == SkipAll
    case SkipDir => false
    case Continue => forall x :: x in log ==> callback(x) != SkipAll && (callback(x) == SkipDir ==> d <= Scope(x))
  }

  /** The same for one entry: a file may also end the walk of the directory it is in. */
  ghost predicate EntryLeftOff(callback: string -> Control, base: string, e: Entry, log: seq<string>, c: Control) {
    if e.Dir? then LeftOff(callback, base + SortKey(e), log, c)
    else log == [base + e.name] && c == callback(base + e.name)
  }

  /** Nothing visited below the first i siblings affects a later one. */
  ghost predicate Free(callback: string -> Control, base: string, s: seq<Entry>, i: nat, log: seq<string>)
    requires i <= |s|
  {
    forall x :: x in log ==>
      (callback(x) != SkipAll &&
       (callback(x) == SkipDir ==> exists h :: 0 <= h < i && s[h].Dir? && base + SortKey(s[h]) <= Scope(x)))
  }

  ghost predicate Siblings(s: seq<Entry>) {
    && (forall i :: 0 <= i < |s| ==> ValidName(s[i].name) && (s[i].Dir? ==> ValidDir(s[i].children)))
    && (forall i, j :: 0 <= i < j < |s| ==> s[i].name != s[j].name)
  }

  lemma FreeUnblocked(callback: string -> Control, base: string, s: seq<Entry>, i: nat, log: seq<string>, k: string)
    requires Siblings(s) && i < |s| && Free(callback, base, s, i, log) && k in EntryKeys([], base, s[i])
    ensures !Blocked(callback, log, k)
  {
    EntryKeysUnder([], base, s[i], k);
    forall x | x in log ensures !RulesOut(callback, x, k) {
      if callback(x) == SkipDir {
        var h :| 0 <= h < i && s[h].Dir? && base + SortKey(s[h]) <= Scope(x);
        SubtreesApart(base, s[h], s[i], k);
      }
    }
  }

  /** One more sibling that the walk went on from. */
  lemma FreeNext(callback: string -> Control, base: string, s: seq<Entry>, i: nat, log: seq<string>, sub: seq<string>)
    requires i < |s| && Free(callback, base, s, i, log) && EntryLeftOff(callback, base, s[i], sub, Continue)
    ensures Free(callback, base, s, i + 1, log + sub)
  {
    forall x | x in log + sub
      ensures callback(x) != SkipAll
      ensures callback(x) == SkipDir ==> exists h :: 0 <= h < i + 1 && s[h].Dir? && base + SortKey(s[h]) <= Scope(x)
    {
      if x in sub && callback(x) == SkipDir {
        assert s[i].Dir? && base + SortKey(s[i]) <= Scope(x);
      }
    }
  }

  lemma FreeLeftOff(callback: string -> Control, base: string, s: seq<Entry>, i: nat, log: seq<string>)
    requires i <= |s| && Free(callback, base, s, i, log)
    ensures LeftOff(callback, base, log, Continue)
  {
  }

  lemma SortedSiblings(es: seq<Entry>, s: seq<Entry>)
    requires ValidDir(es) && multiset(s) == multiset(es)
    ensures Siblings(s)
  {
    MultisetMembers(s, es);
    EntriesDistinct(es);
    forall i | 0 <= i < |s| ensures s[i] in es {
      assert s[i] in s;
    }
    forall i, j | 0 <= i < j < |s| ensures s[i].name != s[j].name {
      DistinctPositions(s, i, j);
      var a :| 0 <= a < |es| && es[a] == s[i];
      var b :| 0 <= b < |es| && es[b] == s[j];
      LessTotal(es[a].name, es[b].name);
    }
  }

  /** Once a file has answered SkipDir nothing else in its directory is visited. */
  lemma RestSkipped(callback: string -> Control, base: string, s: seq<Entry>, log: seq<string>, x: string)
    requires Siblings(s) && x in log
    requires callback(x) == SkipAll || (callback(x) == SkipDir && Scope(x) == base)
    ensures Seen(callback, log, Flatten(base, s)) == log
  {
    forall k | k in Flatten(base, s) ensures Blocked(callback, log, k) {
      FlattenMember(base, s, k);
      var i :| 0 <= i < |s| && k in EntryKeys([], base, s[i]);
      EntryKeysUnder([], base, s[i], k);
      assert base <= k;
      assert RulesOut(callback, x, k);
    }
    SeenNothing(callback, log, Flatten(base, s));
  }

  /** One more sibling visited. */
  lemma SeenNext(callback: string -> Control, base: string, s: seq<Entry>, i: nat, log: seq<string>, sub: seq<string>)
    requires Siblings(s) && i < |s| && Free(callback, base, s, i, log)
    requires log == Seen(callback, [], Flatten(base, s[..i])) && sub == Seen(callback, [], EntryKeys([], base, s[i]))
    ensures log + sub == Seen(callback, [], Flatten(base, s[..i + 1]))
    ensures s == s[..i + 1] + s[i + 1..] && Flatten(base, s) == Flatten(base, s[..i + 1]) + Flatten(base, s[i + 1..])
  {
    hide Seen, EntryKeys, Flatten, Free, Blocked;
    assert s[..i + 1] == s[..i] + [s[i]];
    FlattenSnoc(base, s[..i], s[i]);
    SeenConcat(callback, [], Flatten(base, s[..i]), EntryKeys([], base, s[i]));
    forall k | k in EntryKeys([], base, s[i]) ensures !Blocked(callback, log, k) {
      FreeUnblocked(callback, base, s, i, log, k);
    }
    SeenApart(callback, log, [], EntryKeys([], base, s[i]));
    assert log + [] == log;
    assert s == s[..i + 1] + s[i + 1..];
    FlattenConcat(base, s[..i + 1], s[i + 1..]);
  }

  lemma NothingSeen(callback: string -> Control, base: string, s: seq<Entry>)
    ensures Seen(callback, [], Flatten(base, s[..0])) == [] && Free(callback, base, s, 0, []) && s[..|s|] == s
  {
  }

  /** walkDir below one directory: the keys the callback sees, in order. */
  method WalkChildren(base: string, es: seq<Entry>, callback: string -> Control) returns (log: seq<string>, c: Control)
    requires ValidDir(es) && IsBase(base)
    ensures log == Seen(callback, [], Keys([], base, es)) && LeftOff(callback, base, log, c)
    decreases es
  {
    hide Keys, Flatten, EntryKeys, Sorted, Visited, Seen, Free, Siblings, LeftOff, EntryLeftOff;
    var s := SortSiblings(es);
    SortedIsFlatten(base, es, s);
    SortedSiblings(es, s);
    NothingSeen(callback, base, s);
    log, c := [], Continue;
    for i := 0 to |s|
      invariant log == Seen(callback, [], Flatten(base, s[..i])) && Free(callback, base, s, i, log)
    {
      SiblingValid(s, i);
      var sub, r := WalkEntry(base, s[i], es, callback);
      SeenNext(callback, base, s, i, log, sub);
      if r != Continue {
        Ended(callback, base, s, i, log, sub, r);
        return log + sub, if r == SkipDir then Continue else SkipAll;
      }
      FreeNext(callback, base, s, i, log, sub);
      log := log + sub;
    }
    FreeLeftOff(callback, base, s, |s|, log);
  }

  lemma SiblingValid(s: seq<Entry>, i: nat)
    requires Siblings(s) && i < |s|
    ensures ValidName(s[i].name) && (s[i].Dir? ==> ValidDir(s[i].children))
  {
  }

  /** The key that made the walk of a directory end early. */
  lemma EndedBy(callback: string -> Control, base: string, e: Entry, sub: seq<string>, r: Control) returns (x: string)
    requires IsBase(base) && ValidName(e.name) && r != Continue && EntryLeftOff(callback, base, e, sub, r)
    ensures x in sub
    ensures if r == SkipAll then callback(x) == SkipAll else callback(x) == SkipDir && Scope(x) == base && sub == [x]
  {
    if r == SkipAll {
      x :| x in sub && callback(x) == SkipAll;
    } else {
      x := base + e.name;
      ScopeOf(base, e);
    }
  }

  lemma EndedLeftOff(callback: string -> Control, base: string, s: seq<Entry>, i: nat, log: seq<string>,
                     sub: seq<string>, r: Control, x: string)
    requires i <= |s| && Free(callback, base, s, i, log) && r != Continue && x in sub
    requires if r == SkipAll then callback(x) == SkipAll else callback(x) == SkipDir && Scope(x) == base && sub == [x]
    ensures LeftOff(callback, base, log + sub, if r == SkipDir then Continue else SkipAll)
  {
    assert x in log + sub;
    FreeLeftOff(callback, base, s, i, log);
    hide Free, Scope;
  }

  /** The walk of a directory ends early: the rest is not visited. */
  lemma Ended(callback: string -> Control, base: string, s: seq<Entry>, i: nat, log: seq<string>, sub: seq<string>,
              r: Control)
    requires Siblings(s) && i < |s| && IsBase(base) && Free(callback, base, s, i, log) && r != Continue
    requires EntryLeftOff(callback, base, s[i], sub, r) && log + sub == Seen(callback, [], Flatten(base, s[..i + 1]))
    requires Flatten(base, s) == Flatten(base, s[..i + 1]) + Flatten(base, s[i + 1..])
    ensures log + sub == Seen(callback, [], Flatten(base, s))
    ensures LeftOff(callback, base, log + sub, if r == SkipDir then Continue else SkipAll)
  {
    hide Seen, Flatten, Free, EntryLeftOff, LeftOff, Scope;
    var x := EndedBy(callback, base, s[i], sub, r);
    EndedLeftOff(callback, base, s, i, log, sub, r, x);
    assert x in log + sub;
    assert Siblings(s[i + 1..]);
    hide Siblings;
    SeenConcat(callback, [], Flatten(base, s[..i + 1]), Flatten(base, s[i + 1..]));
    RestSkipped(callback, base, s[i + 1..], log + sub, x);
  }

  /** One entry: SkipDir on a directory skips what is below it and nothing else. */
  method WalkEntry(base: string, e: Entry, ghost es: seq<Entry>, callback: string -> Control)
    returns (log: seq<string>, c: Control)
    requires e in es && IsBase(base) && ValidName(e.name) && (e.Dir? ==> ValidDir(e.children))
    ensures log == Seen(callback, [], EntryKeys([], base, e)) && EntryLeftOff(callback, base, e, log, c)
    decreases es, 0
  {
    hide Keys, Seen, Scope;
    var k := base + SortKey(e);
    ScopeOf(base, e);
    assert e.Dir? ==> k == base + e.name + "/";
    log, c := [k], callback(k);
    DirectoryFirst(callback, k, e);
    if c != Continue || e.File? {
      if c == SkipDir && e.Dir? { c := Continue; }
      return;
    }
    var sub, r := WalkChildren(k, e.children, callback);
    log, c := [k] + sub, r;
  }

  /** A directory's own key comes first; what follows depends on the answer to it. */
  lemma DirectoryFirst(callback: string -> Control, k: string, e: Entry)
    requires e.Dir? ==> ValidDir(e.children) && Scope(k) == k
    ensures Seen(callback, [], [k]) == [k]
    ensures e.Dir? ==> var ks := Keys([], k, e.children);
      Seen(callback, [], [k] + ks) == if callback(k) == Continue then [k] + Seen(callback, [], ks) else [k]
  {
    hide Keys;
    assert [] + [k] == [k] && [k][1..] == [];
    if e.Dir? {
      var ks := Keys([], k, e.children);
      SeenConcat(callback, [], [k], ks);
      if callback(k) == Continue {
        SeenApart(callback, [k], [], ks);
        assert [k] + [] == [k];
      } else {
        forall x | x in ks ensures Blocked(callback, [k], x) {
          KeysExtendBase([], k, e.children, x);
          assert k in [k] && RulesOut(callback, k, x);
        }
        SeenNothing(callback, [k], ks);
      }
    }
  }

  /** For any callback the visited keys strictly increase and are keys of the tree; one
      that always continues sees exactly the keys of the look-ahead. */
  lemma SeenMeaning(callback: string -> Control, base: string, es: seq<Entry>)
    requires ValidDir(es)
    ensures StrictlySorted(Seen(callback, [], Keys([], base, es)))
    ensures Subset(Seen(callback, [], Keys([], base, es)), Keys([], base, es))
    ensures (forall k :: callback(k) == Continue) ==> Seen(callback, [], Keys([], base, es)) == Keys([], base, es)
  {
    var ks := Keys([], base, es);
    hide Keys;
    KeysSorted([], base, es);
    assert [] + ks == ks;
    SeenSorted(callback, [], ks);
    if forall k :: callback(k) == Continue {
      SeenAll(callback, [], ks);
    }
  }

  /** One key alone draws an answer other than nil: it takes away the later keys it rules
      out, and no others. */
  lemma {:induction false} OneAnswer(callback: string -> Control, x: string, seen: seq<string>, ks: seq<string>)
    requires forall y :: y != x ==> callback(y) == Continue
    requires StrictlySorted(ks) && (x in seen || x in ks)
    ensures forall k :: k in Seen(callback, seen, ks) <==>
      k in seen || (k in ks && !(RulesOut(callback, x, k) && (x in seen || Less(x, k))))
    decreases |ks|
  {
    if ks != [] {
      var k := ks[0];
      assert Blocked(callback, seen, k) <==> x in seen && RulesOut(callback, x, k) by {
        assert forall y :: y in seen && RulesOut(callback, y, k) ==> y == x;
      }
      hide RulesOut, Blocked, Less;
      assert forall y :: y in ks <==> y == k || y in ks[1..];
      forall y | y in ks[1..] ensures Less(k, y) {
        var j :| 0 <= j < |ks[1..]| && ks[1..][j] == y;
        assert ks[j + 1] == y;
      }
      LessTotal(k, x);
      OneAnswer(callback, x, if Blocked(callback, seen, k) then seen else seen + [k], ks[1..]);
    }
  }

  /** SkipDir on a directory takes away the keys below it and no others. */
  lemma SkipOnlyBelow(callback: string -> Control, base: string, es: seq<Entry>, d: string, k: string)
    requires (forall x :: x != d ==> callback(x) == Continue) && callback(d) == SkipDir
    requires ValidDir(es) && d in Keys([], base, es) && d != "" && d[|d| - 1] == '/'
    ensures k in Seen(callback, [], Keys([], base, es)) <==> k in Keys([], base, es) && (k == d || !(d <= k))
  {
    hide Keys, Seen, Less;
    KeysSorted([], base, es);
    ScopeOfDir(d);
    LessTotal(d, d);
    if d <= k {
      PrefixLess(d, k);
    }
    OneAnswer(callback, d, [], Keys([], base, es));
  }

  /** SkipDir on a file takes away what comes after it in its directory, subdirectories
      included, and nothing else. */
  lemma SkipRestOfDirectory(callback: string -> Control, base: string, es: seq<Entry>, dir: string, name: string,
                            k: string)
    requires (forall x :: x != dir + name ==> callback(x) == Continue) && callback(dir + name) == SkipDir
    requires ValidDir(es) && dir + name in Keys([], base, es) && IsBase(dir) && '/' !in name
    ensures k in Seen(callback, [], Keys([], base, es)) <==>
            k in Keys([], base, es) && !(dir <= k && Less(dir + name, k))
  {
    hide Keys, Seen, Less;
    KeysSorted([], base, es);
    ScopeOfFile(dir, name);
    OneAnswer(callback, dir + name, [], Keys([], base, es));
  }

  /** Any other answer ends the walk: nothing after that key is visited. */
  lemma StopAt(callback: string -> Control, base: string, es: seq<Entry>, x: string, k: string)
    requires (forall y :: y != x ==> callback(y) == Continue) && callback(x) == SkipAll
    requires ValidDir(es) && x in Keys([], base, es)
    ensures k in Seen(callback, [], Keys([], base, es)) <==> k in Keys([], base, es) && !Less(x, k)
  {
    hide Keys, Seen, Less;
    KeysSorted([], base, es);
    OneAnswer(callback, x, [], Keys([], base, es));
  }
}
