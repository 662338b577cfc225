/** One page of ListMultipartUploads from an already sorted and filtered list. */
module Uploads {
  import opened Text

  datatype Upload = Upload(key: string, id: string)

  /** The lister's fields; `isUuid` stands for uuid.Parse succeeding. */
  datatype Lister = Lister(
    uploads: seq<Upload>,
    prefix: string,
    delimiter: string,
    maxUploads: int,
    keyMarker: string,
    uploadIDMarker: string,
    isUuid: string -> bool)

  datatype Page = Page(
    uploads: seq<Upload>,
    commonPrefixes: seq<string>,
    isTruncated: bool,
    nextKeyMarker: string,
    nextUploadIDMarker: string)

  /** A row of the listing. */
  datatype Item = One(upload: Upload) | Prefix(prefix: string)

  /** The common prefix an upload's key rolls up into, if any. */
  function RollUp(l: Lister, key: string): (r: Option<string>) {
    if l.delimiter == "" then None
    else
      var suffix := if l.prefix <= key then key[|l.prefix|..] else key;
      var i := Index(suffix, l.delimiter);
      if i < 0 then None else Some(l.prefix + (suffix[..i] + l.delimiter))
  }

  lemma OccursPast(k: string, p: nat, sep: string, n: nat)
    requires p <= n && p <= |k|
    ensures OccursAt(k, sep, n) <==> OccursAt(k[p..], sep, n - p)
  {
    if n + |sep| <= |k| {
      assert k[p..][n - p..n - p + |sep|] == k[n..n + |sep|];
    }
  }

  /** The common prefix of a key is its shortest leading part that goes past the prefix and
      ends with the delimiter; without a delimiter, or without such a part, it has none. */
  lemma RollUpIsShortest(l: Lister, k: string)
    requires l.prefix <= k
    ensures l.delimiter == "" ==> RollUp(l, k).None?
    ensures l.delimiter != "" && RollUp(l, k).None? ==>
      forall n :: |l.prefix| <= n ==> !OccursAt(k, l.delimiter, n)
    ensures l.delimiter != "" && RollUp(l, k).Some? ==>
      var n := |RollUp(l, k).value| - |l.delimiter|;
      && |l.prefix| <= n && RollUp(l, k).value == k[..n] + l.delimiter && OccursAt(k, l.delimiter, n)
      && (forall m :: |l.prefix| <= m < n ==> !OccursAt(k, l.delimiter, m))
  {
    if l.delimiter != "" {
      var p, t := |l.prefix|, k[|l.prefix|..];
      var i := Index(t, l.delimiter);
      forall n | p <= n ensures OccursAt(k, l.delimiter, n) <==> OccursAt(t, l.delimiter, n - p) {
        OccursPast(k, p, l.delimiter, n);
      }
      hide OccursAt;
      if i >= 0 {
        assert k[..p + i] == l.prefix + t[..i];
      }
    }
  }

  /** The rows `us` gives when the common prefixes `seen` are already listed. */
  function Items(l: Lister, us: seq<Upload>, seen: set<string>): (r: seq<Item>)
    decreases |us|
  {
    if us == [] then []
    else match RollUp(l, us[0].key)
      case None => [One(us[0])] + Items(l, us[1..], seen)
      case Some(c) =>
        if c in seen then Items(l, us[1..], seen)
        else [Prefix(c)] + Items(l, us[1..], seen + {c})
  }

  /** The common prefixes listed after one more upload. */
  function Seen(l: Lister, u: Upload, seen: set<string>): (r: set<string>) {
    match RollUp(l, u.key)
    case None => seen
    case Some(c) => seen + {c}
  }

  /** The common prefixes of `us`. */
  function Rolled(l: Lister, us: seq<Upload>): (r: set<string>) {
    set u | u in us && RollUp(l, u.key).Some? :: RollUp(l, u.key).value
  }

  /** The row, if any, that one more upload adds. */
  function RowOf(l: Lister, u: Upload, seen: set<string>): (r: seq<Item>) {
    match RollUp(l, u.key)
    case None => [One(u)]
    case Some(c) => if c in seen then [] else [Prefix(c)]
  }

  function UploadsOf(items: seq<Item>): (r: seq<Upload>) {
    if items == [] then []
    else if items[|items| - 1].One? then UploadsOf(items[..|items| - 1]) + [items[|items| - 1].upload]
    else UploadsOf(items[..|items| - 1])
  }

  function PrefixesOf(items: seq<Item>): (r: seq<string>) {
    if items == [] then []
    else if items[|items| - 1].Prefix? then PrefixesOf(items[..|items| - 1]) + [items[|items| - 1].prefix]
    else PrefixesOf(items[..|items| - 1])
  }

  lemma RowsSnoc(items: seq<Item>, x: Item)
    ensures UploadsOf(items + [x]) == if x.One? then UploadsOf(items) + [x.upload] else UploadsOf(items)
    ensures PrefixesOf(items + [x]) == if x.Prefix? then PrefixesOf(items) + [x.prefix] else PrefixesOf(items)
  {
  }

  // ---------- what the rows mean ----------

  /** A listing shows every upload that does not roll up, and every common prefix some
      upload rolls up into that is not listed yet. */
  lemma {:induction false} ItemsMembers(l: Lister, us: seq<Upload>, seen: set<string>, x: Item)
    ensures x in Items(l, us, seen) <==>
      match x
      case One(u) => u in us && RollUp(l, u.key).None?
      case Prefix(c) => c !in seen && exists u :: u in us && RollUp(l, u.key) == Some(c)
    decreases |us|
  {
    hide RollUp;
    if us != [] {
      var seen' := Seen(l, us[0], seen);
      ItemsMembers(l, us[1..], seen', x);
      assert us == [us[0]] + us[1..];
      assert forall u :: u in us <==> u == us[0] || u in us[1..];
      match RollUp(l, us[0].key)
      case None =>
      case Some(c) =>
        assert c in seen ==> seen' == seen;
    }
  }

  /** No common prefix is listed twice. */
  lemma {:induction false} PrefixesUnique(l: Lister, us: seq<Upload>, seen: set<string>, i: nat, j: nat)
    requires i < j < |Items(l, us, seen)| && Items(l, us, seen)[i].Prefix?
    ensures Items(l, us, seen)[i] != Items(l, us, seen)[j]
    decreases |us|
  {
    hide RollUp;
    match RollUp(l, us[0].key)
    case None => PrefixesUnique(l, us[1..], seen, i - 1, j - 1);
    case Some(c) =>
      if c in seen {
        PrefixesUnique(l, us[1..], seen, i, j);
      } else {
        var rest := Items(l, us[1..], seen + {c});
        if i > 0 {
          PrefixesUnique(l, us[1..], seen + {c}, i - 1, j - 1);
        } else {
          ItemsMembers(l, us[1..], seen + {c}, Prefix(c));
          assert rest[j - 1] in rest;
        }
      }
  }

  lemma ItemsStep(l: Lister, us: seq<Upload>, seen: set<string>)
    requires us != []
    ensures Items(l, us, seen) == RowOf(l, us[0], seen) + Items(l, us[1..], Seen(l, us[0], seen))
  {
    hide RollUp;
    match RollUp(l, us[0].key)
    case None =>
    case Some(c) =>
      if c in seen { assert seen + {c} == seen; }
  }

  lemma RolledConcat(l: Lister, a: seq<Upload>, b: seq<Upload>)
    ensures Rolled(l, a + b) == Rolled(l, a) + Rolled(l, b)
  {
    hide RollUp;
    assert forall u :: u in a + b <==> u in a || u in b;
  }

  lemma RolledOne(l: Lister, u: Upload, seen: set<string>)
    ensures seen + Rolled(l, [u]) == Seen(l, u, seen)
  {
    hide RollUp;
    assert u in [u];
  }

  /** Rows are listed one upload after the other. */
  lemma {:induction false} ItemsConcat(l: Lister, a: seq<Upload>, b: seq<Upload>, seen: set<string>)
    ensures Items(l, a + b, seen) == Items(l, a, seen) + Items(l, b, seen + Rolled(l, a))
    decreases |a|
  {
    hide RollUp, RowOf, Seen, Items;
    if a == [] {
      assert a + b == b && seen + Rolled(l, a) == seen;
      NoUploads(l, seen);
    } else {
      assert (a + b)[1..] == a[1..] + b && a == [a[0]] + a[1..];
      var seen' := Seen(l, a[0], seen);
      assert seen' + Rolled(l, a[1..]) == seen + Rolled(l, a) by {
        RolledOne(l, a[0], seen);
        RolledConcat(l, [a[0]], a[1..]);
      }
      hide Rolled;
      ItemsStep(l, a + b, seen);
      ItemsStep(l, a, seen);
      ItemsConcat(l, a[1..], b, seen');
    }
  }

  lemma NoUploads(l: Lister, seen: set<string>)
    ensures Items(l, [], seen) == []
  {
  }

  /** What the next upload adds to the rows and to the listed prefixes. */
  lemma ItemsSnoc(l: Lister, us: seq<Upload>, i: nat)
    requires i < |us|
    ensures Items(l, us[..i + 1], {}) == Items(l, us[..i], {}) + RowOf(l, us[i], Rolled(l, us[..i]))
    ensures Rolled(l, us[..i + 1]) == Seen(l, us[i], Rolled(l, us[..i]))
  {
    hide RollUp, RowOf, Seen, Items, Rolled;
    var u := [us[i]];
    assert us[..i + 1] == us[..i] + u;
    ItemsConcat(l, us[..i], u, {});
    assert {} + Rolled(l, us[..i]) == Rolled(l, us[..i]);
    OneRow(l, us[i], Rolled(l, us[..i]));
    RolledConcat(l, us[..i], u);
    RolledOne(l, us[i], Rolled(l, us[..i]));
  }

  lemma OneRow(l: Lister, u: Upload, seen: set<string>)
    ensures Items(l, [u], seen) == RowOf(l, u, seen)
  {
    ItemsStep(l, [u], seen);
  }

  /** The rows up to an upload and the rows still to come. */
  lemma ItemsSplit(l: Lister, us: seq<Upload>, i: nat)
    requires i <= |us|
    ensures Items(l, us, {}) == Items(l, us[..i], {}) + Items(l, us[i..], Rolled(l, us[..i]))
  {
    hide Items, Rolled;
    assert us == us[..i] + us[i..];
    ItemsConcat(l, us[..i], us[i..], {});
    assert {} + Rolled(l, us[..i]) == Rolled(l, us[..i]);
  }

  /** No row is left exactly when every upload rolls up into a prefix that is listed. */
  lemma NoRows(l: Lister, us: seq<Upload>, seen: set<string>)
    ensures Items(l, us, seen) == [] <==> forall u :: u in us ==> !NewRow(l, u, seen)
  {
    hide RollUp;
    var all := Items(l, us, seen);
    if u :| u in us && NewRow(l, u, seen) {
      ItemsMembers(l, us, seen, if RollUp(l, u.key).None? then One(u) else Prefix(RollUp(l, u.key).value));
    } else if all != [] {
      ItemsMembers(l, us, seen, all[0]);
    }
  }

  predicate NewRow(l: Lister, u: Upload, seen: set<string>) {
    RowOf(l, u, seen) != []
  }

  // ---------- finding the start ----------

  /** Position `i` holds the marker's upload, in the group of the first key. */
  ghost predicate MarkerAt(l: Lister, marker: string, i: int) {
    && 0 <= i < |l.uploads| && l.uploads[i].id == marker
    && (forall j :: 0 <= j <= i ==> l.uploads[j].key == l.uploads[0].key)
    && (forall j :: 0 <= j < i ==> l.uploads[j].id != marker)
  }

  /** findUploadIdMarkerIndex: one past the marker within the first key's uploads, or -1. */
  method FindUploadIdMarkerIndex(l: Lister, marker: string) returns (r: int)
    ensures r == -1 ==> forall i :: !MarkerAt(l, marker, i)
    ensures r != -1 ==> MarkerAt(l, marker, r - 1)
  {
    if |l.uploads| == 0 {
      return -1;
    }
    var firstKey := l.uploads[0].key;
    for i := 0 to |l.uploads|
      invariant forall j :: 0 <= j < i ==> l.uploads[j].key == firstKey && l.uploads[j].id != marker
    {
      if l.uploads[i].key != firstKey {
        break;
      }
      if l.uploads[i].id == marker {
        return i + 1;
      }
    }
    return -1;
  }

  // ---------- the page ----------

  /** hasMoreAfter: some row is left from `idx` on. */
  method HasMoreAfter(l: Lister, idx: nat, seen: set<string>) returns (r: bool)
    requires idx <= |l.uploads|
    ensures r <==> Items(l, l.uploads[idx..], seen) != []
  {
    if idx >= |l.uploads| {
      return false;
    }
    if l.delimiter == "" {
      return true;
    }
    var i := idx;
    while i < |l.uploads|
      invariant idx <= i <= |l.uploads|
      invariant Items(l, l.uploads[i..], seen) == Items(l, l.uploads[idx..], seen)
    {
      var c := RollUp(l, l.uploads[i].key);
      assert l.uploads[i..][1..] == l.uploads[i + 1..];
      if c.None? {
        return true;
      }
      if c.value !in seen {
        return true;
      }
      i := i + 1;
    }
    return false;
  }

  /** The key marker of a page whose last row comes from `u`. */
  function MarkerOf(l: Lister, u: Upload): string {
    if RollUp(l, u.key).None? then u.key else RollUp(l, u.key).value
  }

  /** Row n of the listing of `us` comes from upload i. */
  ghost predicate CutAt(l: Lister, us: seq<Upload>, n: nat, i: nat) {
    i < |us| && |Items(l, us[..i], {})| < n == |Items(l, us[..i + 1], {})|
  }

  /** The end of a page filled by upload i of `us`, the uploads from `start` on: the flag
      is computed from position i + 1 of all uploads, not of `us`. */
  ghost predicate FullAt(l: Lister, start: nat, i: nat, page: Page)
    requires start <= |l.uploads|
  {
    var us := l.uploads[start..];
    && i < |us|
    && (page.isTruncated <==> Items(l, l.uploads[i + 1..], Rolled(l, us[..i + 1])) != [])
    && (page.isTruncated ==>
          page.nextKeyMarker == MarkerOf(l, us[i]) && page.nextUploadIDMarker == us[i].id)
  }

  /** The page for the uploads from `start` on: the first `maxUploads` rows if that limit
      is positive and reached, otherwise all. */
  ghost predicate PageFrom(l: Lister, start: nat, page: Page)
    requires start <= |l.uploads|
  {
    var us := l.uploads[start..];
    var all := Items(l, us, {});
    var n := |page.uploads| + |page.commonPrefixes|;
    && n == (if 0 < l.maxUploads <= |all| then l.maxUploads else |all|)
    && page.uploads == UploadsOf(all[..n]) && page.commonPrefixes == PrefixesOf(all[..n])
    && (!page.isTruncated ==> page.nextKeyMarker == "" && page.nextUploadIDMarker == "")
    && (if 0 < l.maxUploads <= |all| then exists i :: CutAt(l, us, n, i) && FullAt(l, start, i, page)
        else !page.isTruncated)
  }

  // ---------- is the flag right? ----------

  /** Rows that come after the one from upload i. */
  lemma RowsLeft(l: Lister, us: seq<Upload>, n: nat, i: nat)
    requires CutAt(l, us, n, i)
    ensures |Items(l, us, {})| == n + |Items(l, us[i + 1..], Rolled(l, us[..i + 1]))|
  {
    hide Items, Rolled;
    ItemsSplit(l, us, i + 1);
  }

  /** None of the uploads [lo, hi) would be a row of its own. */
  ghost predicate Quiet(l: Lister, us: seq<Upload>, lo: nat, hi: nat, seen: set<string>) {
    forall h :: lo <= h < hi && h < |us| ==> !NewRow(l, us[h], seen)
  }

  lemma QuietSplit(l: Lister, us: seq<Upload>, lo: nat, mid: nat, hi: nat, seen: set<string>)
    requires lo <= mid <= hi
    ensures Quiet(l, us, lo, hi, seen) <==> Quiet(l, us, lo, mid, seen) && Quiet(l, us, mid, hi, seen)
  {
    hide NewRow;
  }

  /** The flag looks at uploads that were listed already: some upload between the place it
      looks from and the place it should look from would be a row of its own. */
  ghost predicate LooksBack(l: Lister, start: nat, i: nat)
    requires start <= |l.uploads|
  {
    !Quiet(l, l.uploads, i + 1, start + i + 1, Rolled(l, l.uploads[start..]))
  }

  lemma NothingNew(l: Lister, us: seq<Upload>, i: nat)
    requires i <= |us| && Items(l, us[i..], Rolled(l, us[..i])) == []
    ensures Rolled(l, us) == Rolled(l, us[..i])
  {
    hide Items, RollUp;
    NoRows(l, us[i..], Rolled(l, us[..i]));
    assert us == us[..i] + us[i..];
    RolledConcat(l, us[..i], us[i..]);
  }

  lemma QuietIsEmpty(l: Lister, us: seq<Upload>, j: nat, seen: set<string>)
    requires j <= |us|
    ensures Items(l, us[j..], seen) == [] <==> Quiet(l, us, j, |us|, seen)
  {
    hide Items, NewRow;
    NoRows(l, us[j..], seen);
    forall h | j <= h < |us| ensures us[h] in us[j..] {
      assert us[j..][h - j] == us[h];
    }
  }

  /** Looking from `lo` instead of `hi` sees more exactly if something in between is a row. */
  lemma LookFrom(l: Lister, us: seq<Upload>, lo: nat, hi: nat, seen: set<string>)
    requires lo <= hi <= |us|
    ensures Items(l, us[lo..], seen) == [] <==> Items(l, us[hi..], seen) == [] && Quiet(l, us, lo, hi, seen)
  {
    hide Items, Quiet;
    QuietIsEmpty(l, us, lo, seen);
    QuietIsEmpty(l, us, hi, seen);
    QuietSplit(l, us, lo, hi, |us|, seen);
  }

  lemma DropTwice(us: seq<Upload>, start: nat, i: nat)
    requires start + i <= |us|
    ensures us[start..][i..] == us[start + i..]
  {
  }

  /** What the flag says about a page filled by upload i. */
  lemma FlagAt(l: Lister, start: nat, i: nat, page: Page)
    requires start <= |l.uploads| && FullAt(l, start, i, page)
    ensures var us := l.uploads[start..];
      page.isTruncated <==> Items(l, us[i + 1..], Rolled(l, us[..i + 1])) != [] || LooksBack(l, start, i)
  {
    hide Items, Rolled, Quiet, MarkerOf;
    var us := l.uploads[start..];
    DropTwice(l.uploads, start, i + 1);
    LookFrom(l, l.uploads, i + 1, start + i + 1, Rolled(l, us[..i + 1]));
    if Items(l, us[i + 1..], Rolled(l, us[..i + 1])) == [] {
      NothingNew(l, us, i + 1);
    }
  }

  /** "Not truncated" is always right; without an upload-id marker "truncated" is, too. */
  lemma TruncationSound(l: Lister, start: nat, page: Page)
    requires start <= |l.uploads| && PageFrom(l, start, page)
    ensures var left := |Items(l, l.uploads[start..], {})| - (|page.uploads| + |page.commonPrefixes|);
      left >= 0 && (left > 0 ==> page.isTruncated) && (start == 0 && page.isTruncated ==> left > 0)
  {
    hide Items, Rolled, FullAt, UploadsOf, PrefixesOf;
    var us := l.uploads[start..];
    if 0 < l.maxUploads <= |Items(l, us, {})| {
      var i :| CutAt(l, us, l.maxUploads, i) && FullAt(l, start, i, page);
      RowsLeft(l, us, l.maxUploads, i);
      FlagAt(l, start, i, page);
    }
  }

  /** A page that shows everything is marked truncated although nothing is left. */
  ghost predicate WronglyTruncated(l: Lister, start: nat)
    requires start <= |l.uploads|
  {
    var us := l.uploads[start..];
    0 < l.maxUploads == |Items(l, us, {})| && exists i :: CutAt(l, us, l.maxUploads, i) && LooksBack(l, start, i)
  }

  lemma CutUnique(l: Lister, us: seq<Upload>, n: nat, i: nat, j: nat)
    requires CutAt(l, us, n, i) && CutAt(l, us, n, j)
    ensures i == j
  {
    hide Items;
    if i < j {
      RowsGrow(l, us, i + 1, j);
    } else if j < i {
      RowsGrow(l, us, j + 1, i);
    }
  }

  lemma RowsGrow(l: Lister, us: seq<Upload>, i: nat, j: nat)
    requires i <= j <= |us|
    ensures |Items(l, us[..i], {})| <= |Items(l, us[..j], {})|
  {
    hide Items;
    ItemsSplit(l, us[..j], i);
    assert us[..j][..i] == us[..i];
  }

  /** For every request, IsTruncated tells whether rows are left exactly unless the page
      shows the last row and the flag looks back at an upload that would be a row. */
  lemma TruncationExactIff(l: Lister, start: nat, page: Page)
    requires start <= |l.uploads| && PageFrom(l, start, page)
    ensures (page.isTruncated <==> |page.uploads| + |page.commonPrefixes| < |Items(l, l.uploads[start..], {})|) <==>
            !WronglyTruncated(l, start)
  {
    hide Items, Rolled, FullAt, LooksBack, UploadsOf, PrefixesOf;
    var us := l.uploads[start..];
    if 0 < l.maxUploads <= |Items(l, us, {})| {
      var i :| CutAt(l, us, l.maxUploads, i) && FullAt(l, start, i, page);
      RowsLeft(l, us, l.maxUploads, i);
      FlagAt(l, start, i, page);
      forall j | CutAt(l, us, l.maxUploads, j) ensures j == i {
        CutUnique(l, us, l.maxUploads, i, j);
      }
    }
  }

  /** Without a delimiter every upload is a row. */
  lemma PlainRows(l: Lister, us: seq<Upload>, seen: set<string>)
    requires l.delimiter == ""
    ensures |Items(l, us, seen)| == |us|
    decreases |us|
  {
  }

  /** Without a delimiter that happens exactly on the last full page after an upload-id marker. */
  lemma PlainTruncationIff(l: Lister, start: nat)
    requires start <= |l.uploads| && l.delimiter == ""
    ensures WronglyTruncated(l, start) <==> start > 0 && 0 < l.maxUploads && start + l.maxUploads == |l.uploads|
  {
    var us := l.uploads[start..];
    PlainRows(l, us, {});
    if 0 < l.maxUploads == |us| {
      var i := l.maxUploads - 1;
      PlainRows(l, us[..i], {});
      PlainRows(l, us[..i + 1], {});
      assert CutAt(l, us, l.maxUploads, i);
      forall j | CutAt(l, us, l.maxUploads, j) ensures j == i {
        CutUnique(l, us, l.maxUploads, i, j);
      }
      if start > 0 {
        assert NewRow(l, l.uploads[start + i], Rolled(l, us));
      }
    }
  }

  /** The same with a delimiter: one key, two uploads, the first of them the marker. */
  lemma DelimiterTruncationWrong(l: Lister)
    requires l.uploads == [Upload("a", "id1"), Upload("a", "id2")] && l.prefix == "" && l.delimiter == "/"
    requires l.maxUploads == 1
    ensures WronglyTruncated(l, 1)
  {
    var us := l.uploads[1..];
    assert us == [l.uploads[1]] && us[..1] == us && us[..0] == [];
    assert "a"[0..] == "a" && !OccursAt("a", "/", 0) by {
      assert "a"[0..1][0] == 'a';
    }
    OneRow(l, us[0], {});
    assert CutAt(l, us, 1, 0);
    assert NewRow(l, l.uploads[1], Rolled(l, us));
  }

  // ---------- the run ----------

  /** The loop state: the rows of the first i uploads are out. */
  ghost predicate Emitted(l: Lister, us: seq<Upload>, i: nat, seen: set<string>, out: Page)
    requires i <= |us|
  {
    var done := Items(l, us[..i], {});
    && seen == Rolled(l, us[..i])
    && out.uploads == UploadsOf(done) && out.commonPrefixes == PrefixesOf(done)
    && |out.uploads| + |out.commonPrefixes| == |done|
    && !out.isTruncated && out.nextKeyMarker == "" && out.nextUploadIDMarker == ""
  }

  lemma EmitRow(l: Lister, us: seq<Upload>, i: nat, seen: set<string>, out: Page)
    requires i < |us| && Emitted(l, us, i, seen, out)
    ensures Emitted(l, us, i + 1, Seen(l, us[i], seen),
      match RollUp(l, us[i].key)
      case None => out.(uploads := out.uploads + [us[i]])
      case Some(c) => if c in seen then out else out.(commonPrefixes := out.commonPrefixes + [c]))
  {
    ItemsSnoc(l, us, i);
    hide Items, Rolled, RollUp, UploadsOf, PrefixesOf;
    var done, row := Items(l, us[..i], {}), RowOf(l, us[i], seen);
    if row == [] {
      assert done + row == done;
    } else {
      RowsSnoc(done, row[0]);
      assert row == [row[0]];
    }
  }

  /** The end of a full page: markers are set when more rows seem to be left. */
  method FinishPage(l: Lister, start: nat, i: nat, seen: set<string>, out: Page, lastKey: string, up: Upload)
    returns (page: Page)
    requires start + i < |l.uploads| && up == l.uploads[start + i]
    requires Emitted(l, l.uploads[start..], i + 1, seen, out)
    requires l.maxUploads > 0 && CutAt(l, l.uploads[start..], l.maxUploads, i)
    requires lastKey == MarkerOf(l, up)
    ensures PageFrom(l, start, page)
  {
    hide Items, UploadsOf, PrefixesOf, RollUp, Rolled;
    page := out;
    ghost var us := l.uploads[start..];
    var more := HasMoreAfter(l, i + 1, seen);
    if more {
      page := page.(isTruncated := true, nextKeyMarker := lastKey, nextUploadIDMarker := up.id);
    }
    ItemsSplit(l, us, i + 1);
    assert Items(l, us, {})[..l.maxUploads] == Items(l, us[..i + 1], {});
    assert FullAt(l, start, i, page);
  }

  method RunFrom(l: Lister, start: nat) returns (out: Page)
    requires start <= |l.uploads|
    ensures PageFrom(l, start, out)
  {
    out := Page([], [], false, "", "");
    var seen: set<string> := {};
    var rest := l.uploads[start..];
    NothingEmitted(l, rest);
    hide Items, UploadsOf, PrefixesOf, RollUp, Rolled, PageFrom;
    for i := 0 to |rest|
      invariant Emitted(l, rest, i, seen, out)
      invariant l.maxUploads > 0 ==> |out.uploads| + |out.commonPrefixes| < l.maxUploads
    {
      var up := rest[i];
      EmitRow(l, rest, i, seen, out);
      match RollUp(l, up.key)
      case Some(c) =>
        if c !in seen {
          seen := seen + {c};
          out := out.(commonPrefixes := out.commonPrefixes + [c]);
          if |out.uploads| + |out.commonPrefixes| == l.maxUploads {
            out := FinishPage(l, start, i, seen, out, c, up);
            return;
          }
        } else {
          assert seen + {c} == seen;
        }
      case None =>
        out := out.(uploads := out.uploads + [up]);
        if |out.uploads| + |out.commonPrefixes| == l.maxUploads {
          out := FinishPage(l, start, i, seen, out, up.key, up);
          return;
        }
    }
    WholePage(l, start, seen, out);
  }

  lemma NothingEmitted(l: Lister, rest: seq<Upload>)
    ensures Emitted(l, rest, 0, {}, Page([], [], false, "", ""))
  {
  }

  lemma WholePage(l: Lister, start: nat, seen: set<string>, out: Page)
    requires start <= |l.uploads| && Emitted(l, l.uploads[start..], |l.uploads| - start, seen, out)
    requires l.maxUploads > 0 ==> |out.uploads| + |out.commonPrefixes| < l.maxUploads
    ensures PageFrom(l, start, out)
  {
    hide Items, UploadsOf, PrefixesOf, RollUp, Rolled;
    var us := l.uploads[start..];
    assert us[..|us|] == us;
    var all := Items(l, us, {});
    assert all[..|all|] == all;
  }

  /** The request is answered with the InvalidArgument error about the upload-id marker. */
  ghost predicate Rejected(l: Lister) {
    l.keyMarker != "" && l.uploadIDMarker != "" &&
    (!l.isUuid(l.uploadIDMarker) || forall i :: !MarkerAt(l, l.uploadIDMarker, i))
  }

  /** The marker is found exactly if some upload of the first key's group has its id. */
  lemma MarkerFound(l: Lister)
    ensures (exists i :: MarkerAt(l, l.uploadIDMarker, i)) <==>
      exists i :: 0 <= i < |l.uploads| && l.uploads[i].id == l.uploadIDMarker &&
                  forall j :: 0 <= j <= i ==> l.uploads[j].key == l.uploads[0].key
  {
    if i :| 0 <= i < |l.uploads| && l.uploads[i].id == l.uploadIDMarker &&
            forall j :: 0 <= j <= i ==> l.uploads[j].key == l.uploads[0].key {
      var m := First(l.uploads, (u: Upload) => u.id == l.uploadIDMarker);
      assert MarkerAt(l, l.uploadIDMarker, m);
    }
  }

  /** ListMultipartUploads; None is the InvalidArgument error. */
  method ListPage(l: Lister) returns (r: Option<Page>)
    ensures r.None? <==>
      l.keyMarker != "" && l.uploadIDMarker != "" &&
      (!l.isUuid(l.uploadIDMarker) ||
       forall i :: 0 <= i < |l.uploads| && l.uploads[i].id == l.uploadIDMarker ==>
         exists j :: 0 <= j <= i && l.uploads[j].key != l.uploads[0].key)
    ensures r.None? <==> Rejected(l)
    ensures l.keyMarker == "" || l.uploadIDMarker == "" ==> r.Some? && PageFrom(l, 0, r.value)
    ensures r.Some? && l.keyMarker != "" && l.uploadIDMarker != "" ==>
      exists i :: MarkerAt(l, l.uploadIDMarker, i) && PageFrom(l, i + 1, r.value)
  {
    hide Items, PageFrom;
    var start := 0;
    var marker := if l.keyMarker == "" then "" else l.uploadIDMarker;
    if marker != "" {
      if !l.isUuid(marker) {
        return None;
      }
      start := FindUploadIdMarkerIndex(l, marker);
      if start == -1 {
        MarkerFound(l);
        return None;
      }
      assert MarkerAt(l, marker, start - 1);
    }
    MarkerFound(l);
    var page := RunFrom(l, start);
    r := Some(page);
  }

  // ---------- resuming ----------

  /** What the backends hand to the lister: prefix matches with a key, sorted by key. */
  ghost predicate Prepared(l: Lister, us: seq<Upload>) {
    && (forall i :: 0 <= i < |us| ==> l.prefix <= us[i].key && us[i].key != "")
    && (forall i, j :: 0 <= i < j < |us| ==> !Less(us[j].key, us[i].key))
  }

  /** The backends' filter: uploads with a key after the marker, if there is one. */
  function After(us: seq<Upload>, marker: string): (r: seq<Upload>) {
    if us == [] then []
    else if marker == "" || Less(marker, us[0].key) then [us[0]] + After(us[1..], marker)
    else After(us[1..], marker)
  }

  lemma AfterMembers(us: seq<Upload>, marker: string)
    ensures forall u :: u in After(us, marker) <==> u in us && (marker == "" || Less(marker, u.key))
  {
  }

  /** Strings between two strings with a common leading part share it. */
  lemma Between(c: string, a: string, x: string, b: string)
    requires c <= a && c <= b && !Less(x, a) && !Less(b, x)
    ensures c <= x
  {
  }

  /** A common prefix is the prefix plus the text up to the first delimiter. */
  lemma RollUpIs(l: Lister, k: string)
    requires l.prefix <= k && RollUp(l, k).Some?
    ensures var t := k[|l.prefix|..]; var n := Index(t, l.delimiter) + |l.delimiter|;
      Index(t, l.delimiter) >= 0 && n <= |t| && RollUp(l, k).value == l.prefix + t[..n]
  {
  }

  /** Keys below a common prefix roll up into it. */
  lemma RollUpExtends(l: Lister, k: string, x: string)
    requires l.prefix <= k && l.prefix <= x && RollUp(l, k).Some? && RollUp(l, k).value <= x
    ensures RollUp(l, x) == RollUp(l, k)
  {
    RollUpIs(l, k);
    var p := |l.prefix|;
    var t, u := k[p..], x[p..];
    var n := Index(t, l.delimiter) + |l.delimiter|;
    IndexCut(t, l.delimiter, n);
    assert t[..n] <= u;
    IndexExtend(t[..n], u, l.delimiter);
    RollUpIs(l, x);
    assert u[..n] == t[..n];
  }

  /** Past an upload that rolls up elsewhere or not at all, a common prefix never comes back. */
  lemma PrefixDoesNotReturn(l: Lister, us: seq<Upload>, h: nat, i: nat, k: nat)
    requires Prepared(l, us) && h < i < k < |us|
    requires RollUp(l, us[h].key).Some? && RollUp(l, us[i].key) != RollUp(l, us[h].key)
    ensures RollUp(l, us[k].key) != RollUp(l, us[h].key)
  {
    if RollUp(l, us[k].key) == RollUp(l, us[h].key) {
      var c := RollUp(l, us[h].key).value;
      assert l.prefix <= us[h].key && l.prefix <= us[k].key && l.prefix <= us[i].key;
      PrefixOfKey(l, us[h].key);
      PrefixOfKey(l, us[k].key);
      Between(c, us[h].key, us[i].key, us[k].key);
      RollUpExtends(l, us[h].key, us[i].key);
    }
  }

  lemma PrefixOfKey(l: Lister, k: string)
    requires l.prefix <= k && RollUp(l, k).Some?
    ensures RollUp(l, k).value <= k
  {
  }

  lemma {:induction false} SeenIrrelevant(l: Lister, us: seq<Upload>, seen: set<string>, old': set<string>)
    requires forall u :: u in us && RollUp(l, u.key).Some? ==> RollUp(l, u.key).value !in old'
    ensures Items(l, us, seen + old') == Items(l, us, seen)
    decreases |us|
  {
    if us != [] {
      match RollUp(l, us[0].key)
      case None => SeenIrrelevant(l, us[1..], seen, old');
      case Some(c) =>
        assert us[0] in us;
        if c in seen {
          SeenIrrelevant(l, us[1..], seen, old');
        } else {
          SeenIrrelevant(l, us[1..], seen + {c}, old');
          assert seen + {c} + old' == seen + old' + {c};
        }
    }
  }

  /** The filter keeps a sorted list from the first key past the marker on. */
  lemma {:induction false} AfterSuffix(l: Lister, us: seq<Upload>, marker: string, n: nat)
    requires Prepared(l, us) && n <= |us| && marker != ""
    requires forall i :: 0 <= i < n ==> !Less(marker, us[i].key)
    requires forall i :: n <= i < |us| ==> Less(marker, us[i].key)
    ensures After(us, marker) == us[n..]
    decreases |us|
  {
    if us != [] {
      assert forall i :: 0 <= i < |us[1..]| ==> us[1..][i] == us[i + 1];
      if n == 0 {
        AfterSuffix(l, us[1..], marker, 0);
      } else {
        AfterSuffix(l, us[1..], marker, n - 1);
      }
    }
  }

  /** The rows a client gets by sending back `marker` as key marker are the ones that
      come after the row from upload i. */
  ghost predicate Resumes(l: Lister, us: seq<Upload>, i: nat, marker: string)
    requires i < |us|
  {
    Items(l, After(us, marker), {}) == Items(l, us[i + 1..], Rolled(l, us[..i + 1]))
  }

  /** Continuing at position n resumes after upload i if nothing in between is a row and
      nothing from n on belongs to a prefix listed before. */
  lemma ResumesAt(l: Lister, us: seq<Upload>, i: nat, n: nat, marker: string)
    requires i < n <= |us| && After(us, marker) == us[n..]
    requires forall k :: i < k < n ==> !NewRow(l, us[k], Rolled(l, us[..i + 1]))
    requires forall k :: n <= k < |us| && RollUp(l, us[k].key).Some? ==>
      RollUp(l, us[k].key).value !in Rolled(l, us[..n])
    ensures Resumes(l, us, i, marker)
  {
    hide Items, RollUp, NewRow, Rolled;
    var seen, gap, rest := Rolled(l, us[..i + 1]), us[i + 1..n], us[n..];
    assert us[i + 1..] == gap + rest;
    assert us[..n] == us[..i + 1] + gap;
    ItemsConcat(l, gap, rest, seen);
    NoRows(l, gap, seen);
    RolledConcat(l, us[..i + 1], gap);
    SeenIrrelevant(l, rest, {}, Rolled(l, us[..n]));
    assert {} + Rolled(l, us[..n]) == Rolled(l, us[..n]);
  }

  /** A key marker cuts a sorted list at the first later key. */
  lemma AfterIs(l: Lister, us: seq<Upload>, marker: string) returns (n: nat)
    requires Prepared(l, us) && marker != ""
    ensures n <= |us| && After(us, marker) == us[n..]
    ensures forall k :: 0 <= k < |us| ==> (Less(marker, us[k].key) <==> n <= k)
  {
    n := First(us, (u: Upload) => Less(marker, u.key));
    forall k | n < k < |us| ensures Less(marker, us[k].key) {
      LessTotal(us[n].key, us[k].key);
      if us[n].key != us[k].key {
        LessTrans(marker, us[n].key, us[k].key);
      }
    }
    AfterSuffix(l, us, marker, n);
  }

  lemma InRolled(l: Lister, us: seq<Upload>, n: nat, c: string) returns (h: nat)
    requires n <= |us| && c in Rolled(l, us[..n])
    ensures h < n && RollUp(l, us[h].key) == Some(c)
  {
    var u :| u in us[..n] && RollUp(l, u.key) == Some(c);
    h :| 0 <= h < n && us[h] == u;
  }

  lemma SameKeyLost(l: Lister, us: seq<Upload>, i: nat)
    requires i + 1 < |us| && us[i + 1].key == us[i].key != "" && RollUp(l, us[i].key).None?
    ensures !Resumes(l, us, i, us[i].key)
  {
    hide RollUp, Items, Rolled, After;
    var u := us[i + 1];
    assert u == us[i + 1..][0];
    ItemsMembers(l, us[i + 1..], Rolled(l, us[..i + 1]), One(u));
    AfterMembers(us, u.key);
    LessTotal(u.key, u.key);
    ItemsMembers(l, After(us, u.key), {}, One(u));
  }

  lemma NextKeyResumes(l: Lister, us: seq<Upload>, i: nat)
    requires Prepared(l, us) && i < |us| && RollUp(l, us[i].key).None?
    requires i + 1 < |us| ==> us[i + 1].key != us[i].key
    ensures Resumes(l, us, i, us[i].key)
  {
    hide RollUp, Resumes, Rolled, After;
    var m := us[i].key;
    var n := AfterIs(l, us, m);
    LessTotal(m, m);
    if i + 1 < |us| {
      LessTotal(m, us[i + 1].key);
    }
    assert n == i + 1;
    forall k | n <= k < |us| && RollUp(l, us[k].key).Some?
      ensures RollUp(l, us[k].key).value !in Rolled(l, us[..n])
    {
      if RollUp(l, us[k].key).value in Rolled(l, us[..n]) {
        var h := InRolled(l, us, n, RollUp(l, us[k].key).value);
        PrefixDoesNotReturn(l, us, h, i, k);
      }
    }
    ResumesAt(l, us, i, n, m);
  }

  /** A page that ends with upload `us[i]` can be continued from its NextKeyMarker alone
      exactly when no later upload has the same key: the others would be lost. */
  lemma ResumeAfterUpload(l: Lister, us: seq<Upload>, i: nat)
    requires Prepared(l, us) && i < |us| && RollUp(l, us[i].key).None?
    ensures Resumes(l, us, i, us[i].key) <==> i + 1 == |us| || us[i + 1].key != us[i].key
  {
    hide Resumes;
    if i + 1 < |us| && us[i + 1].key == us[i].key {
      SameKeyLost(l, us, i);
    } else {
      NextKeyResumes(l, us, i);
    }
  }

  /** Upload i is the first that rolls up into c. */
  ghost predicate Opens(l: Lister, us: seq<Upload>, i: nat, c: string) {
    i < |us| && RollUp(l, us[i].key) == Some(c) && c !in Rolled(l, us[..i])
  }

  /** A key below a common prefix comes after it. */
  lemma BelowPrefix(l: Lister, k: string, c: string)
    requires l.prefix <= k && RollUp(l, k) == Some(c) && k != c
    ensures c <= k && Less(c, k) && c != ""
  {
    PrefixOfKey(l, k);
    PrefixLess(c, k);
  }

  /** The prefix that upload i opened is listed from then on. */
  lemma Opened(l: Lister, us: seq<Upload>, i: nat, c: string)
    requires Opens(l, us, i, c)
    ensures c in Rolled(l, us[..i + 1])
  {
    hide RollUp;
    assert us[i] in us[..i + 1];
  }

  lemma PrefixRepeats(l: Lister, us: seq<Upload>, i: nat, c: string, u: Upload)
    requires Prepared(l, us) && Opens(l, us, i, c) && u in us && c <= u.key && u.key != c
    ensures !Resumes(l, us, i, c)
  {
    RollUpExtends(l, us[i].key, u.key);
    BelowPrefix(l, u.key, c);
    Opened(l, us, i, c);
    AfterMembers(us, c);
    hide Items, RollUp, Rolled, After;
    ItemsMembers(l, After(us, c), {}, Prefix(c));
    ItemsMembers(l, us[i + 1..], Rolled(l, us[..i + 1]), Prefix(c));
  }

  lemma SameKeyNoRow(l: Lister, us: seq<Upload>, i: nat, c: string, u: Upload)
    requires Opens(l, us, i, c) && u.key == us[i].key
    ensures !NewRow(l, u, Rolled(l, us[..i + 1]))
  {
    Opened(l, us, i, c);
    hide RollUp, Rolled;
  }

  lemma ExactPrefixResumes(l: Lister, us: seq<Upload>, i: nat, c: string)
    requires Prepared(l, us) && Opens(l, us, i, c)
    requires forall u :: u in us && c <= u.key ==> u.key == c
    ensures Resumes(l, us, i, c)
  {
    PrefixOfKey(l, us[i].key);
    assert us[i].key == c;
    hide RollUp, Rolled, Resumes, After;
    var n := AfterIs(l, us, c);
    LessTotal(c, c);
    forall k | i < k < n ensures us[k].key == c && !NewRow(l, us[k], Rolled(l, us[..i + 1])) {
      LessTotal(us[k].key, c);
      SameKeyNoRow(l, us, i, c, us[k]);
    }
    forall k | n <= k < |us| && RollUp(l, us[k].key).Some?
      ensures RollUp(l, us[k].key).value !in Rolled(l, us[..n])
    {
      PrefixOfKey(l, us[k].key);
      NotBefore(l, us, i, n, k, c);
    }
    ResumesAt(l, us, i, n, c);
  }

  /** A page that ends with common prefix c can be continued from its NextKeyMarker alone
      exactly when every upload below c has c itself as its key: c would be listed again. */
  lemma ResumeAfterPrefix(l: Lister, us: seq<Upload>, i: nat, c: string)
    requires Prepared(l, us) && Opens(l, us, i, c)
    ensures Resumes(l, us, i, c) <==> forall u :: u in us && c <= u.key ==> u.key == c
  {
    if u :| u in us && c <= u.key && u.key != c {
      PrefixRepeats(l, us, i, c, u);
    } else {
      ExactPrefixResumes(l, us, i, c);
    }
  }

  lemma NotBefore(l: Lister, us: seq<Upload>, i: nat, n: nat, k: nat, c: string)
    requires Prepared(l, us) && i < n <= k < |us| && RollUp(l, us[i].key) == Some(c)
    requires RollUp(l, us[k].key).Some? && RollUp(l, us[k].key) != Some(c)
    requires forall j :: i < j < n ==> us[j].key == us[i].key
    ensures RollUp(l, us[k].key).value !in Rolled(l, us[..n])
  {
    hide RollUp, Rolled;
    if RollUp(l, us[k].key).value in Rolled(l, us[..n]) {
      var h := InRolled(l, us, n, RollUp(l, us[k].key).value);
      PrefixDoesNotReturn(l, us, h, i, k);
    }
  }

  /** Sending back NextKeyMarker alone continues a listing without loss or repetition
      exactly if no later upload has the last upload's key, or every upload below the
      last common prefix has that prefix as its key. */
  lemma ResumeByKeyIff(l: Lister, us: seq<Upload>, i: nat)
    requires Prepared(l, us) && i < |us| && NewRow(l, us[i], Rolled(l, us[..i]))
    ensures Resumes(l, us, i, MarkerOf(l, us[i])) <==>
      match RollUp(l, us[i].key)
      case None => i + 1 == |us| || us[i + 1].key != us[i].key
      case Some(c) => forall u :: u in us && c <= u.key ==> u.key == c
  {
    match RollUp(l, us[i].key)
    case None => ResumeAfterUpload(l, us, i);
    case Some(c) => ResumeAfterPrefix(l, us, i, c);
  }

  /** With c as key marker and an upload properly below it, the first row is c again. */
  lemma PrefixListedAgain(l: Lister, us: seq<Upload>, u: Upload, c: string)
    requires Prepared(l, us) && u in us && RollUp(l, u.key) == Some(c) && u.key != c
    ensures After(us, c) != [] && RollUp(l, After(us, c)[0].key) == Some(c)
  {
    BelowPrefix(l, u.key, c);
    var n := AfterIs(l, us, c);
    var k :| 0 <= k < |us| && us[k] == u;
    LessTotal(us[n].key, us[k].key);
    LessTotal(c, us[n].key);
    Between(c, c, us[n].key, u.key);
    RollUpExtends(l, u.key, us[n].key);
  }

  /** One row per page: a client that sends back such a prefix gets the same page for ever. */
  lemma NeverAdvances(l: Lister, us: seq<Upload>, u: Upload, c: string, page: Page)
    requires Prepared(l, us) && u in us && RollUp(l, u.key) == Some(c) && u.key != c
    requires l.uploads == After(us, c) && l.maxUploads == 1 && PageFrom(l, 0, page)
    ensures page.uploads == [] && page.commonPrefixes == [c] && (page.isTruncated ==> page.nextKeyMarker == c)
  {
    PrefixListedAgain(l, us, u, c);
    var all := Items(l, l.uploads[0..], {});
    assert l.uploads[0..] == l.uploads;
    ItemsStep(l, l.uploads, {});
    hide Items, RollUp, After;
    assert all[..1] == [Prefix(c)];
    RowsSnoc([], Prefix(c));
    assert [] + [Prefix(c)] == [Prefix(c)];
    var i :| CutAt(l, l.uploads[0..], 1, i) && FullAt(l, 0, i, page);
    FirstCut(l, l.uploads, i);
  }

  lemma FirstCut(l: Lister, us: seq<Upload>, i: nat)
    requires us != [] && NewRow(l, us[0], {}) && CutAt(l, us, 1, i)
    ensures i == 0
  {
    assert us[..1] == [us[0]] && us[..0] == [];
    OneRow(l, us[0], {});
    assert CutAt(l, us, 1, 0);
    CutUnique(l, us, 1, 0, i);
  }

  /** Upload ids are not reused. */
  ghost predicate UniqueId(us: seq<Upload>, u: Upload) {
    forall v :: v in us && v.id == u.id ==> v == u
  }

  /** Sending back both markers of a page that ends with an upload is always refused: the
      key filter has removed the upload the id names. */
  lemma BothMarkersRejected(l: Lister, us: seq<Upload>, u: Upload)
    requires u.key != "" && u.id != "" && UniqueId(us, u)
    requires l.uploads == After(us, u.key) && l.keyMarker == u.key && l.uploadIDMarker == u.id
    ensures Rejected(l)
  {
    AfterMembers(us, u.key);
    LessTotal(u.key, u.key);
    forall i ensures !MarkerAt(l, u.id, i) {
      assert 0 <= i < |l.uploads| ==> l.uploads[i] in After(us, u.key);
    }
  }

  /** Forgetting the listed prefixes after upload i repeats nothing exactly if no later
      upload belongs to the prefix c it opened. */
  lemma ForgettingSafeIff(l: Lister, us: seq<Upload>, i: nat, c: string)
    requires Prepared(l, us) && Opens(l, us, i, c)
    ensures Items(l, us[i + 1..], {}) == Items(l, us[i + 1..], Rolled(l, us[..i + 1])) <==>
            forall k :: i < k < |us| ==> RollUp(l, us[k].key) != Some(c)
  {
    Opened(l, us, i, c);
    hide Items, RollUp, Rolled;
    var rest, seen := us[i + 1..], Rolled(l, us[..i + 1]);
    if k :| i < k < |us| && RollUp(l, us[k].key) == Some(c) {
      assert us[k] == rest[k - i - 1];
      ItemsMembers(l, rest, {}, Prefix(c));
      ItemsMembers(l, rest, seen, Prefix(c));
    } else {
      forall u | u in rest && RollUp(l, u.key).Some? ensures RollUp(l, u.key).value !in seen {
        var k :| i < k < |us| && us[k] == u;
        NotBefore(l, us, i, i + 1, k, c);
      }
      SeenIrrelevant(l, rest, {}, seen);
      assert {} + seen == seen;
    }
  }

  /** After a page that ends with common prefix c, opened by upload i, both markers lead
      past that upload only.  If its key is c they are refused; otherwise the listing
      goes on without repetition exactly if no later upload belongs to c. */
  lemma BothMarkersAfterPrefix(l: Lister, us: seq<Upload>, i: nat, c: string)
    requires Prepared(l, us) && Opens(l, us, i, c) && us[i].id != "" && UniqueId(us, us[i])
    requires l.uploads == After(us, c) && l.keyMarker == c && l.uploadIDMarker == us[i].id
    ensures us[i].key == c ==> Rejected(l)
    ensures us[i].key != c ==> MarkerAt(l, us[i].id, 0) && l.uploads[1..] == us[i + 1..]
    ensures us[i].key != c ==>
      (Items(l, l.uploads[1..], {}) == Items(l, us[i + 1..], Rolled(l, us[..i + 1])) <==>
       forall k :: i < k < |us| ==> RollUp(l, us[k].key) != Some(c))
  {
    ForgettingSafeIff(l, us, i, c);
    if us[i].key == c {
      BothMarkersRejected(l, us, us[i]);
    } else {
      OpenerIsFirst(l, us, i, c);
      hide Items, After, RollUp, Rolled;
      assert us[i..][1..] == us[i + 1..];
    }
  }

  lemma OpenerIsFirst(l: Lister, us: seq<Upload>, i: nat, c: string)
    requires Prepared(l, us) && Opens(l, us, i, c) && us[i].key != c
    ensures After(us, c) == us[i..]
  {
    BelowPrefix(l, us[i].key, c);
    forall h | 0 <= h < i ensures RollUp(l, us[h].key) != Some(c) {
      assert us[h] in us[..i];
    }
    var n := AfterIs(l, us, c);
    if n < i {
      LessTotal(c, us[n].key);
      Between(c, c, us[n].key, us[i].key);
      RollUpExtends(l, us[i].key, us[n].key);
    }
  }
}
