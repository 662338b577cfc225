/** One page of a listing, the short cut that starts the walk inside the prefix
    directory, and what a client gets by following NextMarker to the end. */
module Pages {
  import opened Text
  import opened Tree
  import opened Listing
  import opened Walk

  // ---------- fs.ReadDir on a path ----------

  function DirNamed(es: seq<Entry>, name: string): (r: Option<seq<Entry>>)
    ensures r.Some? ==> exists i :: 0 <= i < |es| && es[i] == Dir(name, r.value)
    ensures r.None? ==> forall i :: 0 <= i < |es| ==> !(es[i].Dir? && es[i].name == name)
  {
    if es == [] then None
    else if es[0].Dir? && es[0].name == name then
      assert es[0] == Dir(name, es[0].children);
      Some(es[0].children)
    else
      var r := DirNamed(es[1..], name);
      assert forall i :: 0 < i < |es| ==> es[i] == es[1..][i - 1];
      r
  }

  function Resolve(es: seq<Entry>, p: string): (r: Option<seq<Entry>>)
    decreases |p|
  {
    var i := Index(p, "/");
    if i < 0 then DirNamed(es, p)
    else match DirNamed(es, p[..i])
      case None => None
      case Some(children) => Resolve(children, p[i + 1..])
  }

  function ReadDirAt(fs: seq<Entry>, p: string): Option<seq<Entry>> {
    if p == "." then Some(fs) else Resolve(fs, p)
  }

  /** path.Base of a path without a trailing slash. */
  function BaseName(p: string): string {
    p[LastSlash(p) + 1..]
  }

  /** The directory the walk jumps into, when the prefix names one that has entries. */
  function JumpDir<T>(q: Request<T>, fs: seq<Entry>): (r: Option<(string, seq<Entry>)>) {
    var i := LastSlash(q.prefix);
    if i <= 0 then None
    else
      var dir := q.prefix[..i];
      match ReadDirAt(fs, dir)
      case Some(es) => if es == [] then None else Some((dir, es))
      case None => None
  }

  /** The keys one walk offers, in order. */
  function StartKeys<T>(q: Request<T>, fs: seq<Entry>): (r: seq<string>) {
    match JumpDir(q, fs)
    case None => Keys(q.skipdirs, "", fs)
    case Some((dir, es)) =>
      if BaseName(dir) in q.skipdirs then []
      else [dir + "/"] + Keys(q.skipdirs, BaseOf(dir), es)
  }

  /** The listing without a limit. */
  function FullListing<T>(q: Request<T>, fs: seq<Entry>): (r: seq<string>) {
    EmitAll(q, [], StartKeys(q, fs))
  }

  /** The listing without a limit and without the short cut. */
  function RootListing<T>(q: Request<T>, fs: seq<Entry>): (r: seq<string>) {
    EmitAll(q, [], Keys(q.skipdirs, "", fs))
  }

  /** `r` is the first page of `full`. */
  ghost predicate IsPage<T>(q: Request<T>, full: seq<string>, r: WalkResults<T>) {
    var n := |r.objects| + |r.commonPrefixes|;
    && n <= |full| && n <= Limit(q.max)
    && r.objects == ObjectsOf(q, full[..n])
    && r.commonPrefixes == CommonPrefixesOf(q, full[..n])
    && (if r.truncated then n == Limit(q.max) && r.nextMarker == full[n - 1]
        else n == |full| && r.nextMarker == "")
  }

  // ---------- the short cut ----------

  /** Some element of path `p` is in `skip`. */
  predicate SkippedOn(skip: seq<string>, p: string)
    decreases |p|
  {
    var i := Index(p, "/");
    if i < 0 then p in skip
    else p[..i] in skip || SkippedOn(skip, p[i + 1..])
  }

  /** Walking from the root would not get into the directory the short cut jumps
      to: a directory above it is in skipdirs, or it is the root spelled ".". */
  predicate Hidden<T>(q: Request<T>, fs: seq<Entry>) {
    match JumpDir(q, fs)
    case None => false
    case Some((dir, _)) =>
      dir == "." || (SkippedOn(q.skipdirs, dir) && BaseName(dir) !in q.skipdirs)
  }

  lemma ResolveValid(es: seq<Entry>, p: string)
    requires ValidDir(es) && Resolve(es, p).Some?
    ensures ValidDir(Resolve(es, p).value)
    decreases |p|
  {
  }

  lemma SameFirst(base: string, n: string, m: string, k: string)
    requires ValidName(n) && ValidName(m)
    requires base + n + "/" <= k
    ensures k != base + m
    ensures base + m + "/" <= k ==> n == m
  {
    var t := k[|base|..];
    assert k == base + t && n + "/" <= t;
    if base + m + "/" <= k && n != m {
      assert m + "/" <= t;
      SlashNotInside(n, m);
      SlashNotInside(m, n);
    }
    assert t[|n|] == '/';
    assert (base + m)[|base|..] == m;
  }

  /** A key below `base/name/` comes from the sibling directory of that name. */
  lemma KeyThrough(skip: seq<string>, base: string, es: seq<Entry>, name: string, k: string)
    requires ValidDir(es) && ValidName(name) && base + name + "/" <= k
    ensures IsKey(skip, base, es, k) <==>
      name !in skip && DirNamed(es, name).Some? &&
      (k == base + name + "/" || IsKey(skip, base + name + "/", DirNamed(es, name).value, k))
  {
    var d := base + name + "/";
    forall i | 0 <= i < |es| && es[i].name !in skip &&
        (k == base + SortKey(es[i]) ||
         (es[i].Dir? && IsKey(skip, base + SortKey(es[i]), es[i].children, k)))
      ensures es[i].Dir? && es[i].name == name
    {
      if es[i].Dir? {
        assert base + SortKey(es[i]) == base + es[i].name + "/";
        if k != base + SortKey(es[i]) {
          KeysAreKeys(skip, base + SortKey(es[i]), es[i].children, k);
          KeysExtendBase(skip, base + SortKey(es[i]), es[i].children, k);
        }
      }
      SameFirst(base, name, es[i].name, k);
    }
    forall i, j | 0 <= i < |es| && 0 <= j < |es| && es[i].name == es[j].name ensures i == j {
      LessTotal(es[i].name, es[j].name);
    }
    assert forall i :: 0 <= i < |es| && es[i].Dir? && es[i].name == name ==> base + SortKey(es[i]) == d;
  }

  lemma PathSplit(base: string, p: string, i: nat)
    requires OccursAt(p, "/", i)
    ensures base + p + "/" == (base + p[..i] + "/") + p[i + 1..] + "/"
    ensures base + p[..i] + "/" <= base + p + "/"
  {
    assert p[i..i + 1] == "/";
    assert p == p[..i] + "/" + p[i + 1..];
  }

  lemma ResolveThrough(es: seq<Entry>, skip: seq<string>, p: string)
    ensures var i := Index(p, "/");
      if i < 0 then Resolve(es, p) == DirNamed(es, p) && (SkippedOn(skip, p) <==> p in skip)
      else
        && (SkippedOn(skip, p) <==> p[..i] in skip || SkippedOn(skip, p[i + 1..]))
        && Resolve(es, p) == (var d := DirNamed(es, p[..i]); if d.None? then None else Resolve(d.value, p[i + 1..]))
  {
  }

  /** What fs.ReadDir found under a name is a valid directory with a valid name. */
  lemma NamedValid(es: seq<Entry>, name: string)
    requires ValidDir(es) && DirNamed(es, name).Some?
    ensures ValidName(name) && ValidDir(DirNamed(es, name).value)
  {
  }

  /** Keys below a resolved path, seen from the root and from the path itself. */
  lemma {:induction false} KeysBelow(skip: seq<string>, base: string, es: seq<Entry>, p: string, k: string)
    requires ValidDir(es) && Resolve(es, p).Some? && base + p + "/" <= k
    ensures IsKey(skip, base, es, k) <==>
      !SkippedOn(skip, p) && (k == base + p + "/" || IsKey(skip, base + p + "/", Resolve(es, p).value, k))
    decreases |p|
  {
    hide IsKey, Resolve, SkippedOn, DirNamed, ValidDir, ValidName, IndexFrom;
    var i := Index(p, "/");
    ResolveThrough(es, skip, p);
    if i < 0 {
      NamedValid(es, p);
      KeyThrough(skip, base, es, p, k);
    } else {
      var name, rest := p[..i], p[i + 1..];
      var d := base + name + "/";
      PathSplit(base, p, i);
      NamedValid(es, name);
      KeyThrough(skip, base, es, name, k);
      KeysBelow(skip, d, DirNamed(es, name).value, rest, k);
      AboveAll(d + rest + "/", k, d);
    }
  }

  /** A key below a deeper directory is not the key of the directory above. */
  lemma AboveAll(deep: string, k: string, d: string)
    requires deep <= k && |d| < |deep|
    ensures k != d
  {
  }

  lemma SkippedBase(skip: seq<string>, p: string)
    requires BaseName(p) in skip
    ensures SkippedOn(skip, p)
    decreases |p|
  {
    var i := Index(p, "/");
    if i < 0 {
      assert LastSlash(p) >= 0 ==> OccursAt(p, "/", LastSlash(p));
    } else {
      assert p[i..i + 1] == "/";
      BaseNameTail(p, i);
      SkippedBase(skip, p[i + 1..]);
    }
  }

  lemma BaseNameTail(p: string, i: nat)
    requires i < |p| && p[i] == '/'
    ensures BaseName(p[i + 1..]) == BaseName(p)
  {
  }

  lemma NoDotName(n: string, k: string)
    requires ValidName(n) && "./" <= k
    ensures k != n && !(n + "/" <= k)
  {
    assert k[0] == '.' && k[1] == '/';
    assert forall i :: 0 <= i < |n| ==> n[i] in n && (n + "/")[i] == n[i];
    assert n != [k[0]];
  }

  /** No key starts with "./". */
  lemma NoDotKeys(skip: seq<string>, fs: seq<Entry>, k: string)
    requires ValidDir(fs) && "./" <= k
    ensures !IsKey(skip, "", fs, k)
  {
    forall i | 0 <= i < |fs|
      ensures k != "" + SortKey(fs[i])
      ensures fs[i].Dir? ==> !IsKey(skip, "" + SortKey(fs[i]), fs[i].children, k)
    {
      NoDotName(fs[i].name, k);
      var d := "" + SortKey(fs[i]);
      assert d == SortKey(fs[i]);
      if fs[i].Dir? && IsKey(skip, d, fs[i].children, k) {
        KeysAreKeys(skip, d, fs[i].children, k);
        KeysExtendBase(skip, d, fs[i].children, k);
      }
    }
  }

  lemma JumpShape<T>(q: Request<T>, fs: seq<Entry>, dir: string, es: seq<Entry>)
    requires ValidDir(fs) && JumpDir(q, fs) == Some((dir, es))
    ensures dir + "/" <= q.prefix && ValidDir(es)
    ensures if dir == "." then es == fs && dir + "/" == "./" else Resolve(fs, dir) == Some(es)
  {
    assert q.prefix == dir + "/" + q.prefix[|dir| + 1..];
    if dir != "." {
      ResolveValid(fs, dir);
    }
  }

  /** Seen from the root, the keys below the directory the short cut jumps to are
      the ones the short cut offers, unless that directory is hidden. */
  lemma JumpCoversPrefix<T>(q: Request<T>, fs: seq<Entry>, dir: string, es: seq<Entry>, k: string)
    requires ValidDir(fs) && JumpDir(q, fs) == Some((dir, es)) && q.prefix <= k
    ensures IsKey(q.skipdirs, "", fs, k) <==> !Hidden(q, fs) && k in StartKeys(q, fs)
  {
    hide *;
    JumpShape(q, fs, dir, es);
    JumpUnfolds(q, fs, dir, es);
    if dir == "." {
      NoDotKeys(q.skipdirs, fs, k);
    } else {
      JumpKeys(q, fs, dir, es, k);
    }
  }

  lemma JumpUnfolds<T>(q: Request<T>, fs: seq<Entry>, dir: string, es: seq<Entry>)
    requires JumpDir(q, fs) == Some((dir, es))
    ensures dir != "." ==>
      StartKeys(q, fs) == if BaseName(dir) in q.skipdirs then [] else [dir + "/"] + Keys(q.skipdirs, dir + "/", es)
    ensures Hidden(q, fs) <==> dir == "." || (SkippedOn(q.skipdirs, dir) && BaseName(dir) !in q.skipdirs)
  {
  }

  lemma JumpKeys<T>(q: Request<T>, fs: seq<Entry>, dir: string, es: seq<Entry>, k: string)
    requires ValidDir(fs) && Resolve(fs, dir) == Some(es) && dir + "/" <= k
    ensures IsKey(q.skipdirs, "", fs, k) <==>
      !SkippedOn(q.skipdirs, dir) && k in [dir + "/"] + Keys(q.skipdirs, dir + "/", es)
    ensures BaseName(dir) in q.skipdirs ==> SkippedOn(q.skipdirs, dir)
  {
    hide Keys, BaseName, Resolve, SkippedOn, IsKey;
    assert "" + dir + "/" == dir + "/";
    KeysBelow(q.skipdirs, "", fs, dir, k);
    KeysAreKeys(q.skipdirs, dir + "/", es, k);
    if BaseName(dir) in q.skipdirs {
      SkippedBase(q.skipdirs, dir);
    }
  }

  ghost predicate Exact<T>(q: Request<T>, ks: seq<string>) {
    && StrictlySorted(EmitAll(q, [], ks))
    && (forall item :: item in EmitAll(q, [], ks) <==> Shown(q, ks, item))
  }

  /** Keys that cannot match the prefix change neither the listing nor what it shows. */
  lemma IgnoreMismatches<T>(q: Request<T>, ks: seq<string>, rest: seq<string>)
    requires Exact(q, ks) && forall k :: k in rest ==> !(q.prefix <= k)
    ensures Exact(q, ks + rest)
  {
    EmitAllConcat(q, [], ks, rest);
    EmitNothing(q, EmitAll(q, [], ks), rest);
    forall item ensures Shown(q, ks, item) <==> Shown(q, ks + rest, item) {
      if exists k :: k in ks && ItemOf(q, k) == Some(item) {
        var k :| k in ks && ItemOf(q, k) == Some(item);
        assert k in ks + rest;
      }
    }
  }

  lemma DotExact<T>(q: Request<T>, fs: seq<Entry>)
    requires ValidDir(fs) && "./" <= q.prefix
    ensures Exact(q, ["./"] + Keys(q.skipdirs, "", fs))
  {
    EmitAllExact(q, ["./"]);
    forall k | k in Keys(q.skipdirs, "", fs) ensures !(q.prefix <= k) {
      KeysAreKeys(q.skipdirs, "", fs, k);
      if "./" <= k {
        NoDotKeys(q.skipdirs, fs, k);
      }
    }
    IgnoreMismatches(q, ["./"], Keys(q.skipdirs, "", fs));
  }

  lemma DirExact<T>(q: Request<T>, d: string, es: seq<Entry>)
    requires ValidDir(es)
    ensures Exact(q, [d] + Keys(q.skipdirs, d, es))
  {
    KeysSorted(q.skipdirs, d, es);
    forall k | k in Keys(q.skipdirs, d, es) ensures Less(d, k) {
      KeysExtendBase(q.skipdirs, d, es, k);
    }
    SortedConcat([d], Keys(q.skipdirs, d, es));
    EmitAllExact(q, [d] + Keys(q.skipdirs, d, es));
  }

  /** The unlimited listing is strictly increasing and shows exactly the items
      contributed by the keys the walk offers. */
  lemma FullListingExact<T>(q: Request<T>, fs: seq<Entry>)
    requires ValidDir(fs)
    ensures StrictlySorted(FullListing(q, fs))
    ensures forall item :: item in FullListing(q, fs) <==> Shown(q, StartKeys(q, fs), item)
  {
    hide Keys, EmitAll, BaseName, LastSlash, Resolve;
    match JumpDir(q, fs)
    case None =>
      KeysSorted(q.skipdirs, "", fs);
      EmitAllExact(q, Keys(q.skipdirs, "", fs));
    case Some((dir, es)) =>
      JumpShape(q, fs, dir, es);
      if BaseName(dir) in q.skipdirs {
        EmitAllExact(q, []);
      } else if dir == "." {
        DotExact(q, fs);
      } else {
        DirExact(q, dir + "/", es);
      }
  }

  /** The short cut changes nothing but hidden directories: walking from the root
      lists the same objects and prefixes, or nothing when the directory is hidden. */
  lemma ShortCutSound<T>(q: Request<T>, fs: seq<Entry>)
    requires ValidDir(fs)
    ensures RootListing(q, fs) == if Hidden(q, fs) then [] else FullListing(q, fs)
    ensures RootListing(q, fs) == FullListing(q, fs) <==>
            !Hidden(q, fs) || forall k :: k in StartKeys(q, fs) ==> !Contributes(q, k)
  {
    var roots := Keys(q.skipdirs, "", fs);
    KeysSorted(q.skipdirs, "", fs);
    EmitAllExact(q, roots);
    FullListingExact(q, fs);
    match JumpDir(q, fs)
    case None =>
    case Some((dir, es)) =>
      hide Keys, EmitAll, JumpDir, Hidden, StartKeys;
      forall k | q.prefix <= k ensures k in roots <==> !Hidden(q, fs) && k in StartKeys(q, fs) {
        JumpCoversPrefix(q, fs, dir, es, k);
        KeysAreKeys(q.skipdirs, "", fs, k);
      }
      if Hidden(q, fs) {
        SortedUnique(RootListing(q, fs), []);
        EmptyIff(q, fs);
      } else {
        SortedUnique(RootListing(q, fs), FullListing(q, fs));
      }
  }

  /** The key gives the listing an item past the marker. */
  predicate Contributes<T>(q: Request<T>, k: string) {
    ItemOf(q, k).Some? && Less(q.marker, ItemOf(q, k).value)
  }

  /** An offered key that contributes is listed. */
  lemma Listed<T>(q: Request<T>, fs: seq<Entry>, k: string)
    requires ValidDir(fs) && k in StartKeys(q, fs) && Contributes(q, k)
    ensures ItemOf(q, k).value in FullListing(q, fs)
  {
    FullListingExact(q, fs);
    assert Shown(q, StartKeys(q, fs), ItemOf(q, k).value);
  }

  lemma EmptyIff<T>(q: Request<T>, fs: seq<Entry>)
    requires ValidDir(fs)
    ensures FullListing(q, fs) == [] <==> forall k :: k in StartKeys(q, fs) ==> !Contributes(q, k)
  {
    FullListingExact(q, fs);
    hide FullListing, StartKeys, ItemOf, Less;
    var full := FullListing(q, fs);
    forall k | k in StartKeys(q, fs) && Contributes(q, k) ensures ItemOf(q, k).value in full {
      Listed(q, fs, k);
    }
    if full != [] {
      assert full[0] in full;
      var k :| k in StartKeys(q, fs) && ItemOf(q, k) == Some(full[0]);
      assert Contributes(q, k);
    }
  }

  lemma SmallTreeValid()
    ensures ValidDir([Dir("a", [Dir("b", [File("f")])])])
  {
    assert ValidDir([File("f")]);
    assert ValidDir([Dir("b", [File("f")])]);
  }

  lemma SlashPositions()
    ensures LastSlash("a/b/") == 3 && LastSlash("a/b") == 1 && Index("a/b", "/") == 1 && Index("b", "/") == -1
    ensures LastSlash("./") == 1
  {
    assert "a/b"[..2] == "a/";
    assert OccursAt("a/b", "/", 1) && !OccursAt("a/b", "/", 0) by {
      assert "a/b"[1..2] == "/" && "a/b"[0..1] == "a";
    }
    assert !OccursAt("b", "/", 0) by {
      assert "b"[0..1] == "b";
    }
  }

  lemma JumpIntoSkipped<T>(q: Request<T>)
    requires q.prefix == "a/b/" && q.skipdirs == ["a"]
    ensures var fs := [Dir("a", [Dir("b", [File("f")])])];
      JumpDir(q, fs) == Some(("a/b", [File("f")])) && Hidden(q, fs) && "a/b/f" in StartKeys(q, fs)
  {
    var es := [File("f")];
    var fs := [Dir("a", [Dir("b", es)])];
    SlashPositions();
    assert "a/b/"[..3] == "a/b" && "a/b"[..1] == "a" && "a/b"[2..] == "b";
    assert JumpDir(q, fs) == Some(("a/b", es));
    assert BaseName("a/b") == "b" && SkippedOn(q.skipdirs, "a/b");
    var k := "a/b/f";
    assert BaseOf("a/b") == "a/b/" && k == "a/b/" + SortKey(es[0]);
    assert es[0].name !in q.skipdirs && IsKey(q.skipdirs, "a/b/", es, k);
    KeysAreKeys(q.skipdirs, "a/b/", es, k);
  }

  /** The short cut shows what a skipped directory hides: with `a` in skipdirs, listing
      `a/b/` gives its file, walking from the root gives nothing. */
  lemma ShortCutShowsSkipped<T>(q: Request<T>)
    requires q.prefix == "a/b/" && q.delimiter == "" && q.marker == "" && q.skipdirs == ["a"]
    requires q.getObj("a/b/f").Found?
    ensures var fs := [Dir("a", [Dir("b", [File("f")])])];
      ValidDir(fs) && RootListing(q, fs) == [] && "a/b/f" in FullListing(q, fs)
  {
    hide RootListing, FullListing, StartKeys, JumpDir, Hidden, ValidDir;
    var fs := [Dir("a", [Dir("b", [File("f")])])];
    SmallTreeValid();
    JumpIntoSkipped(q);
    ShortCutSound(q, fs);
    PrefixLess("", "a/b/f");
    assert ItemOf(q, "a/b/f") == Some("a/b/f");
    Listed(q, fs, "a/b/f");
  }

  lemma DotPrefix(p: string)
    requires p == "./"
    ensures LastSlash(p) == 1 && p[..1] == "." && BaseName(p[..1]) == "." && p[..1] + "/" == p
  {
    SlashPositions();
  }

  lemma JumpToRoot<T>(q: Request<T>, fs: seq<Entry>)
    requires q.prefix == "./" && fs != [] && "." !in q.skipdirs
    ensures JumpDir(q, fs) == Some((".", fs)) && Hidden(q, fs) && q.prefix in StartKeys(q, fs)
  {
    hide Keys, Resolve, LastSlash, BaseName, SkippedOn;
    DotPrefix(q.prefix);
    var dir := q.prefix[..1];
    assert JumpDir(q, fs) == Some((dir, fs));
    assert StartKeys(q, fs)[0] == dir + "/";
  }

  /** An object named like the prefix is listed, whatever the delimiter. */
  lemma WholePrefixContributes<T>(q: Request<T>)
    requires q.marker == "" != q.prefix && q.getObj(q.prefix).Found?
    ensures Contributes(q, q.prefix) && ItemOf(q, q.prefix) == Some(q.prefix)
  {
    hide Less;
    PrefixLess(q.marker, q.prefix);
    assert q.prefix[|q.prefix|..] == "";
  }

  /** A prefix of "./" jumps to the root and offers it under that name, which no walk from
      the root ever does. */
  lemma ShortCutShowsDot<T>(q: Request<T>, fs: seq<Entry>)
    requires ValidDir(fs) && fs != [] && "." !in q.skipdirs
    requires q.prefix == "./" && q.marker == "" && q.getObj(q.prefix).Found?
    ensures RootListing(q, fs) == [] && q.prefix in FullListing(q, fs)
  {
    hide *;
    JumpToRoot(q, fs);
    ShortCutSound(q, fs);
    WholePrefixContributes(q);
    Listed(q, fs, q.prefix);
  }

  /** What a listing shows, with no walk in sight: the items that keys of the tree
      contribute past the marker, once each and in increasing order. */
  lemma ListingMeaning<T>(q: Request<T>, fs: seq<Entry>)
    requires ValidDir(fs) && !Hidden(q, fs)
    ensures StrictlySorted(FullListing(q, fs))
    ensures forall item :: item in FullListing(q, fs) <==>
      Less(q.marker, item) && exists k :: IsKey(q.skipdirs, "", fs, k) && ItemOf(q, k) == Some(item)
  {
    ShortCutSound(q, fs);
    KeysSorted(q.skipdirs, "", fs);
    EmitAllExact(q, Keys(q.skipdirs, "", fs));
    forall k ensures k in Keys(q.skipdirs, "", fs) <==> IsKey(q.skipdirs, "", fs, k) {
      KeysAreKeys(q.skipdirs, "", fs, k);
    }
  }

  /** The same down to bytes: a listing shows the keys of the tree that match the prefix,
      hold no delimiter past it and are not skipped, and the shortest parts up to a
      delimiter of those that do, as far as they come after the marker. */
  lemma ListingPlain<T>(q: Request<T>, fs: seq<Entry>, item: string)
    requires ValidDir(fs) && !Hidden(q, fs)
    ensures item in FullListing(q, fs) <==>
      Less(q.marker, item) &&
      (exists k :: IsKey(q.skipdirs, "", fs, k) && q.prefix <= k &&
                   (Delimited(q, k, item) || (Undelimited(q, k) && item == k && !q.getObj(k).Skip?)))
  {
    ListingMeaning(q, fs);
    hide FullListing, ItemOf, IsKey, Delimited, Undelimited, Less, Hidden, ValidDir;
    forall k ensures ItemOf(q, k) == Some(item) <==>
      q.prefix <= k && (Delimited(q, k, item) || (Undelimited(q, k) && item == k && !q.getObj(k).Skip?))
    {
      ItemMeaning(q, k, item);
    }
  }

  // ---------- one call ----------

  method QuickWalk<T>(state: WalkState<T>, fs: seq<Entry>)
    requires ValidDir(fs) && state.Valid() && state.page == [] && !state.truncated && !state.pastMax && !state.walkErr
    modifies state
    ensures state.walkErr ==> FailsWithin(state.q, FullListing(state.q, fs), Limit(state.q.max))
    ensures var cps := CommonPrefixesOf(state.q, state.page);
      state.cpmap == Numbering(cps) && |state.cpmap| == |cps|
    ensures !state.walkErr ==>
      IsPage(state.q, FullListing(state.q, fs),
             WalkResults(CommonPrefixesOf(state.q, state.page), state.objects, state.truncated, state.newMarker))
  {
    hide Numbering, CommonPrefixesOf, ObjectsOf, Keys, EmitAll, Emit, BaseName, IsPage, FailsWithin, Fails;
    var q := state.q;
    match JumpDir(q, fs) {
      case None =>
        state.ReadDirEntries(".", fs);
      case Some((dir, es)) =>
        JumpShape(q, fs, dir, es);
        EmitNothing(q, [], []);
        if BaseName(dir) !in q.skipdirs {
          var k := dir + "/";
          state.OfferFile(k);
          EmitCons(q, [], k, Keys(q.skipdirs, BaseOf(dir), es));
          if state.walkErr {
            FailureHasPlace(q, [], k, FullListing(q, fs), Limit(q.max));
          } else {
            state.ReadDirEntries(dir, es);
          }
        }
    }
    if !state.truncated {
      state.newMarker := "";
    }
    if !state.walkErr {
      PageOfState(q, FullListing(q, fs), state.page, state.truncated, state.newMarker);
    }
  }

  lemma PageOfState<T>(q: Request<T>, full: seq<string>, page: seq<string>, truncated: bool, marker: string)
    requires page <= full && |page| <= Limit(q.max)
    requires |ObjectsOf(q, page)| + |CommonPrefixesOf(q, page)| == |page|
    requires if truncated then |page| == Limit(q.max) && marker == page[|page| - 1] else page == full && marker == ""
    ensures IsPage(q, full, WalkResults(CommonPrefixesOf(q, page), ObjectsOf(q, page), truncated, marker))
  {
    hide ObjectsOf, CommonPrefixesOf;
    assert full[..|page|] == page;
  }

  /** One Walk call: a page, or no page exactly when `getObj` fails on a key that belongs
      on the page. */
  method WalkCall<T>(fs: seq<Entry>, q: Request<T>) returns (r: Option<WalkResults<T>>)
    requires ValidDir(fs)
    ensures q.max == 0 ==> r == Some(WalkResults([], [], false, ""))
    ensures q.max != 0 && r.Some? ==> IsPage(q, FullListing(q, fs), r.value)
    ensures r.None? <==> q.max != 0 && FailsWithin(q, FullListing(q, fs), Limit(q.max))
    ensures q.max >= 1 && r.Some? ==> AtMost(q.max, FullListing(q, fs), r.value)
    ensures q.max < 0 && r.Some? ==> AtMost(1, FullListing(q, fs), r.value)
  {
    hide *;
    if q.max == 0 {
      return Some(WalkResults([], [], false, ""));
    }
    var state := new WalkState(q);
    QuickWalk(state, fs);
    if state.walkErr {
      return None;
    }
    var cps := CpArray(state.cpmap, CommonPrefixesOf(q, state.page));
    var page := WalkResults(cps, state.objects, state.truncated, state.newMarker);
    PageSucceeds(q, FullListing(q, fs), page);
    PageSize(q, FullListing(q, fs), page);
    r := Some(page);
  }

  /** The page holds at most `max` items; it is marked as cut off only when it holds that
      many, and always when the listing has more. */
  ghost predicate AtMost<T>(max: int, full: seq<string>, r: WalkResults<T>) {
    var n := |r.objects| + |r.commonPrefixes|;
    n <= max && (r.truncated ==> n == max) && (|full| > max ==> r.truncated)
  }

  /** The size of a page, told by the max that was asked for. */
  lemma PageSize<T>(q: Request<T>, full: seq<string>, r: WalkResults<T>)
    requires IsPage(q, full, r)
    ensures AtMost(if q.max >= 1 then q.max else 1, full, r)
  {
    hide ObjectsOf, CommonPrefixesOf;
  }

  /** What is on a page that was returned did not fail. */
  lemma PageSucceeds<T>(q: Request<T>, full: seq<string>, page: WalkResults<T>)
    requires IsPage(q, full, page)
    ensures !FailsWithin(q, full, Limit(q.max))
  {
    hide ObjectsOf, CommonPrefixesOf;
    var n := |page.objects| + |page.commonPrefixes|;
    forall j | 0 <= j < |full| && j < Limit(q.max) ensures !Fails(q, full[j]) {
      PageWithoutFailure(q, full[..n], j);
    }
  }

  /** A page that was returned shows that `getObj` failed on none of its items. */
  lemma {:induction false} PageWithoutFailure<T>(q: Request<T>, page: seq<string>, i: nat)
    requires i < |page| == |ObjectsOf(q, page)| + |CommonPrefixesOf(q, page)|
    ensures IsCommonPrefix(q, page[i]) || q.getObj(page[i]).Found?
    decreases |page|
  {
    ResultsFit(q, page[..|page| - 1]);
    if i < |page| - 1 {
      PageWithoutFailure(q, page[..|page| - 1], i);
    }
  }

  /** The objects of a page are what `getObj` found for its items that are no prefixes. */
  lemma ObjectsMembers<T>(q: Request<T>, page: seq<string>, obj: T)
    ensures obj in ObjectsOf(q, page) <==>
      exists item :: item in page && !IsCommonPrefix(q, item) && q.getObj(item) == Found(obj)
    decreases |page|
  {
    if page != [] {
      var n := |page| - 1;
      ObjectsMembers(q, page[..n], obj);
      assert forall x :: x in page <==> x in page[..n] || x == page[n];
    }
  }

  lemma ResultsFit<T>(q: Request<T>, page: seq<string>)
    ensures |ObjectsOf(q, page)| + |CommonPrefixesOf(q, page)| <= |page|
    decreases |page|
  {
  }

  // ---------- following NextMarker ----------

  /** In an increasing sequence, what comes after element n-1 is what exceeds it. */
  lemma SuffixExceeds(full: seq<string>, n: nat, item: string)
    requires StrictlySorted(full) && 0 < n <= |full|
    ensures item in full[n..] <==> item in full && Less(full[n - 1], item)
  {
  }

  /** Listing on from an item of a listing gives exactly what came after it. */
  lemma ListingResumes<T>(q: Request<T>, fs: seq<Entry>, n: nat)
    requires ValidDir(fs) && 0 < n <= |FullListing(q, fs)|
    ensures FullListing(q.(marker := FullListing(q, fs)[n - 1]), fs) == FullListing(q, fs)[n..]
  {
    var full, ks := FullListing(q, fs), StartKeys(q, fs);
    var m := full[n - 1];
    var q' := q.(marker := m);
    assert StartKeys(q', fs) == ks;
    FullListingExact(q, fs);
    FullListingExact(q', fs);
    hide FullListing, StartKeys, ItemOf, Less;
    assert m in full;
    forall item ensures Shown(q', ks, item) <==> item in full[n..] {
      ShownLater(q, ks, m, item);
      SuffixExceeds(full, n, item);
    }
    SortedUnique(FullListing(q', fs), full[n..]);
  }

  lemma ShownLater<T>(q: Request<T>, ks: seq<string>, m: string, item: string)
    requires Less(q.marker, m)
    ensures Shown(q.(marker := m), ks, item) <==> Shown(q, ks, item) && Less(m, item)
  {
    forall k ensures ItemOf(q.(marker := m), k) == ItemOf(q, k) {
    }
    hide ItemOf, Less;
    if Less(m, item) {
      LessTrans(q.marker, m, item);
    }
  }

  lemma ResultsIgnoreMarker<T>(q: Request<T>, m: string, page: seq<string>)
    ensures ObjectsOf(q.(marker := m), page) == ObjectsOf(q, page)
    ensures CommonPrefixesOf(q.(marker := m), page) == CommonPrefixesOf(q, page)
    decreases |page|
  {
  }

  lemma {:induction false} ObjectsConcat<T>(q: Request<T>, a: seq<string>, b: seq<string>)
    ensures ObjectsOf(q, a + b) == ObjectsOf(q, a) + ObjectsOf(q, b)
    decreases |b|
  {
    if b == [] {
      assert a + b == a;
    } else {
      var b', x := b[..|b| - 1], b[|b| - 1];
      ObjectsConcat(q, a, b');
      ObjectsConcatSnoc(q, a, b', x);
      assert b == b' + [x];
    }
  }

  lemma ObjectsConcatSnoc<T>(q: Request<T>, a: seq<string>, b: seq<string>, x: string)
    requires ObjectsOf(q, a + b) == ObjectsOf(q, a) + ObjectsOf(q, b)
    ensures ObjectsOf(q, a + (b + [x])) == ObjectsOf(q, a) + ObjectsOf(q, b + [x])
  {
    hide ObjectsOf;
    PageSnoc(q, a + b, x);
    PageSnoc(q, b, x);
    assert a + (b + [x]) == (a + b) + [x];
  }

  lemma {:induction false} PrefixesConcat<T>(q: Request<T>, a: seq<string>, b: seq<string>)
    ensures CommonPrefixesOf(q, a + b) == CommonPrefixesOf(q, a) + CommonPrefixesOf(q, b)
    decreases |b|
  {
    if b == [] {
      assert a + b == a;
    } else {
      var b', x := b[..|b| - 1], b[|b| - 1];
      PrefixesConcat(q, a, b');
      PrefixesConcatSnoc(q, a, b', x);
      assert b == b' + [x];
    }
  }

  lemma PrefixesConcatSnoc<T>(q: Request<T>, a: seq<string>, b: seq<string>, x: string)
    requires CommonPrefixesOf(q, a + b) == CommonPrefixesOf(q, a) + CommonPrefixesOf(q, b)
    ensures CommonPrefixesOf(q, a + (b + [x])) == CommonPrefixesOf(q, a) + CommonPrefixesOf(q, b + [x])
  {
    hide CommonPrefixesOf;
    PageSnoc(q, a + b, x);
    PageSnoc(q, b, x);
    assert a + (b + [x]) == (a + b) + [x];
  }

  /** Pages obtained by resuming at each page's NextMarker until one is not truncated. */
  ghost predicate PagedRun<T>(q: Request<T>, fs: seq<Entry>, pages: seq<WalkResults<T>>)
    decreases |pages|
  {
    && pages != []
    && IsPage(q, FullListing(q, fs), pages[0])
    && (if pages[0].truncated then PagedRun(q.(marker := pages[0].nextMarker), fs, pages[1..])
        else |pages| == 1)
  }

  function AllObjects<T>(pages: seq<WalkResults<T>>): (r: seq<T>) {
    if pages == [] then [] else pages[0].objects + AllObjects(pages[1..])
  }

  function AllPrefixes<T>(pages: seq<WalkResults<T>>): (r: seq<string>) {
    if pages == [] then [] else pages[0].commonPrefixes + AllPrefixes(pages[1..])
  }

  lemma SinglePage<T>(pages: seq<WalkResults<T>>)
    requires |pages| == 1
    ensures AllObjects(pages) == pages[0].objects && AllPrefixes(pages) == pages[0].commonPrefixes
  {
  }

  /** What a page says about its place in the listing. */
  lemma PageParts<T>(q: Request<T>, full: seq<string>, page: WalkResults<T>)
    requires IsPage(q, full, page)
    ensures var n := |page.objects| + |page.commonPrefixes|;
      && n <= |full|
      && page.objects == ObjectsOf(q, full[..n]) && page.commonPrefixes == CommonPrefixesOf(q, full[..n])
      && (if page.truncated then n == (if q.max >= 1 then q.max else 1) && page.nextMarker == full[n - 1]
          else n == |full|)
  {
  }

  lemma RunParts<T>(q: Request<T>, fs: seq<Entry>, pages: seq<WalkResults<T>>)
    requires PagedRun(q, fs, pages)
    ensures pages != [] && IsPage(q, FullListing(q, fs), pages[0])
    ensures if pages[0].truncated then PagedRun(q.(marker := pages[0].nextMarker), fs, pages[1..]) else |pages| == 1
  {
  }

  /** A first page and the pages for the rest add up. */
  lemma PagesAddUp<T>(q: Request<T>, m: string, full: seq<string>, n: nat, pages: seq<WalkResults<T>>)
    requires n <= |full| && pages != []
    requires pages[0].objects == ObjectsOf(q, full[..n])
    requires pages[0].commonPrefixes == CommonPrefixesOf(q, full[..n])
    requires AllObjects(pages[1..]) == ObjectsOf(q.(marker := m), full[n..])
    requires AllPrefixes(pages[1..]) == CommonPrefixesOf(q.(marker := m), full[n..])
    ensures AllObjects(pages) == ObjectsOf(q, full) && AllPrefixes(pages) == CommonPrefixesOf(q, full)
  {
    hide ObjectsOf, CommonPrefixesOf;
    ResultsIgnoreMarker(q, m, full[n..]);
    ObjectsConcat(q, full[..n], full[n..]);
    PrefixesConcat(q, full[..n], full[n..]);
    assert full == full[..n] + full[n..];
  }

  /** Paging is lossless: the pages of any complete run add up to the unlimited listing. */
  lemma {:induction false} PagingLossless<T>(q: Request<T>, fs: seq<Entry>, pages: seq<WalkResults<T>>)
    requires ValidDir(fs) && PagedRun(q, fs, pages)
    ensures AllObjects(pages) == ObjectsOf(q, FullListing(q, fs))
    ensures AllPrefixes(pages) == CommonPrefixesOf(q, FullListing(q, fs))
    decreases |pages|
  {
    hide *;
    RunParts(q, fs, pages);
    var full := FullListing(q, fs);
    var n := |pages[0].objects| + |pages[0].commonPrefixes|;
    PageParts(q, full, pages[0]);
    if pages[0].truncated {
      var m := pages[0].nextMarker;
      ListingResumes(q, fs, n);
      PagingLossless(q.(marker := m), fs, pages[1..]);
      PagesAddUp(q, m, full, n, pages);
    } else {
      assert full[..n] == full;
      SinglePage(pages);
    }
  }

  /** Every page but the last holds exactly `max` items and is marked truncated, so paging ends. */
  lemma {:induction false} PagesFull<T>(q: Request<T>, fs: seq<Entry>, pages: seq<WalkResults<T>>)
    requires ValidDir(fs) && PagedRun(q, fs, pages)
    ensures forall i :: 0 <= i < |pages| - 1 ==>
      pages[i].truncated && |pages[i].objects| + |pages[i].commonPrefixes| == if q.max >= 1 then q.max else 1
    ensures |pages| <= |FullListing(q, fs)| + 1
    decreases |pages|
  {
    hide *;
    RunParts(q, fs, pages);
    PageParts(q, FullListing(q, fs), pages[0]);
    if pages[0].truncated {
      ListingResumes(q, fs, |pages[0].objects| + |pages[0].commonPrefixes|);
      PagesFull(q.(marker := pages[0].nextMarker), fs, pages[1..]);
      assert forall i :: 0 < i < |pages| ==> pages[i] == pages[1..][i - 1];
    }
  }

  lemma LimitIs(max: int)
    ensures Limit(max) == if max >= 1 then max else 1
  {
  }

  /** With no failure among the first n items, the failures are those of the rest. */
  lemma FailuresOfRest<T>(q: Request<T>, q': Request<T>, full: seq<string>, n: nat)
    requires n <= |full| && !FailsWithin(q, full, n)
    requires forall j :: n <= j < |full| ==> (Fails(q', full[j]) <==> Fails(q, full[j]))
    ensures FailsWithin(q, full, |full|) <==> FailsWithin(q', full[n..], |full[n..]|)
  {
    hide Fails;
    var rest := full[n..];
    assert forall j :: 0 <= j < |rest| ==> rest[j] == full[n + j];
    if j :| 0 <= j < |full| && Fails(q, full[j]) {
      assert rest[j - n] == full[j];
    }
  }

  /** What fails later in the listing fails when listing on from a page. */
  lemma FailureMoves<T>(q: Request<T>, fs: seq<Entry>, page: WalkResults<T>)
    requires ValidDir(fs) && IsPage(q, FullListing(q, fs), page) && page.truncated
    ensures var full, q' := FullListing(q, fs), q.(marker := page.nextMarker);
      var rest := FullListing(q', fs);
      FailsWithin(q, full, |full|) <==> FailsWithin(q', rest, |rest|)
  {
    hide *;
    var full, q', n := FullListing(q, fs), q.(marker := page.nextMarker), |page.objects| + |page.commonPrefixes|;
    PageParts(q, full, page);
    PageSucceeds(q, full, page);
    LimitIs(q.max);
    ListingResumes(q, fs, n);
    forall j | n <= j < |full| ensures Fails(q', full[j]) <==> Fails(q, full[j]) {
      LaterItem(q, fs, n, j);
      SameFailure(q, page.nextMarker, full[j]);
    }
    FailuresOfRest(q, q', full, n);
  }

  lemma LaterItem<T>(q: Request<T>, fs: seq<Entry>, n: nat, j: nat)
    requires ValidDir(fs) && 0 < n <= j < |FullListing(q, fs)|
    ensures Less(q.marker, FullListing(q, fs)[j]) && Less(FullListing(q, fs)[n - 1], FullListing(q, fs)[j])
  {
    FullListingExact(q, fs);
    hide FullListing, StartKeys, ItemOf, Less;
    assert FullListing(q, fs)[j] in FullListing(q, fs);
  }

  lemma SameFailure<T>(q: Request<T>, m: string, k: string)
    requires Less(q.marker, k) && Less(m, k)
    ensures Fails(q.(marker := m), k) <==> Fails(q, k)
  {
  }

  /** A truncated page leaves less to list, and lists on from past the old marker. */
  lemma PageAdvances<T>(q: Request<T>, fs: seq<Entry>, page: WalkResults<T>)
    requires ValidDir(fs) && IsPage(q, FullListing(q, fs), page) && page.truncated
    ensures |FullListing(q.(marker := page.nextMarker), fs)| < |FullListing(q, fs)|
    ensures Less(q.marker, page.nextMarker)
  {
    hide FullListing, StartKeys, ObjectsOf, CommonPrefixesOf;
    FullListingExact(q, fs);
    var n := |page.objects| + |page.commonPrefixes|;
    assert FullListing(q, fs)[n - 1] in FullListing(q, fs);
    ListingResumes(q, fs, n);
  }

  lemma PagedCons<T>(q: Request<T>, fs: seq<Entry>, page: WalkResults<T>, rest: seq<WalkResults<T>>)
    requires IsPage(q, FullListing(q, fs), page) && page.truncated
    requires PagedRun(q.(marker := page.nextMarker), fs, rest)
    ensures PagedRun(q, fs, [page] + rest)
  {
  }

  lemma PagedOne<T>(q: Request<T>, fs: seq<Entry>, page: WalkResults<T>)
    requires IsPage(q, FullListing(q, fs), page) && !page.truncated
    ensures PagedRun(q, fs, [page])
  {
  }

  lemma LastPageSucceeds<T>(q: Request<T>, full: seq<string>, page: WalkResults<T>)
    requires IsPage(q, full, page) && !page.truncated
    ensures !FailsWithin(q, full, |full|)
  {
    PageSucceeds(q, full, page);
  }

  lemma FailsOnPage<T>(q: Request<T>, full: seq<string>)
    requires FailsWithin(q, full, Limit(q.max))
    ensures FailsWithin(q, full, |full|)
  {
  }

  /** A client that pages through a listing stops with a complete run, unless `getObj`
      fails on some key of the listing. */
  method ListAll<T>(fs: seq<Entry>, q: Request<T>) returns (r: Option<seq<WalkResults<T>>>)
    requires ValidDir(fs) && q.max != 0
    ensures r.Some? ==> PagedRun(q, fs, r.value)
    ensures r.None? <==> FailsWithin(q, FullListing(q, fs), |FullListing(q, fs)|)
    decreases |FullListing(q, fs)|
  {
    hide *;
    var first := WalkCall(fs, q);
    if first.None? {
      FailsOnPage(q, FullListing(q, fs));
      return None;
    }
    var page := first.value;
    if !page.truncated {
      PagedOne(q, fs, page);
      LastPageSucceeds(q, FullListing(q, fs), page);
      return Some([page]);
    }
    PageAdvances(q, fs, page);
    FailureMoves(q, fs, page);
    var rest := ListAll(fs, q.(marker := page.nextMarker));
    if rest.None? {
      return None;
    }
    PagedCons(q, fs, page, rest.value);
    return Some([page] + rest.value);
  }
}
