/** Range headers: section 14.1.2 of RFC 9110 as the gateway reads it. */
module ByteRange {
  import opened Text

  const MAX_INT64 := 0x7fff_ffff_ffff_ffff

  // ---------- strings ----------

  /** strings.Split on a one-byte separator. */
  function Split(s: string, sep: char): (r: seq<string>)
    ensures |r| >= 1 && forall i :: 0 <= i < |r| ==> sep !in r[i]
  {
    if s == "" then [""]
    else
      var rest := Split(s[1..], sep);
      if s[0] == sep then [""] + rest else [[s[0]] + rest[0]] + rest[1..]
  }

  predicate IsDigits(s: string) {
    forall i :: 0 <= i < |s| ==> '0' <= s[i] <= '9'
  }

  function Number(s: string): (r: nat)
    requires IsDigits(s)
  {
    if s == "" then 0 else Number(s[..|s| - 1]) * 10 + (s[|s| - 1] as int - '0' as int)
  }

  /** strconv.ParseInt(s, 10, 64): None for every error. */
  function ParseInt(s: string): (r: Option<int>) {
    var digits := if s != "" && (s[0] == '+' || s[0] == '-') then s[1..] else s;
    if digits == "" || !IsDigits(digits) then None
    else
      var n: int := Number(digits);
      if s[0] == '-' then if n > MAX_INT64 + 1 then None else Some(-n)
      else if n > MAX_INT64 then None else Some(n)
  }

  lemma ParseIntSign(s: string)
    requires '-' !in s
    ensures ParseInt(s).Some? ==> s != "" && 0 <= ParseInt(s).value <= MAX_INT64
  {
  }

  // ---------- the two parsers ----------

  /** What ParseObjectRange returns; `satisfiable` is false for the InvalidRange error. */
  datatype ObjectRange = ObjectRange(start: int, length: int, valid: bool, satisfiable: bool)

  /** The two ends of a `bytes=` header, if it has that shape. */
  function Ends(header: string): (r: Option<(string, string)>)
    ensures r.Some? ==> '-' !in r.value.0 && '-' !in r.value.1
  {
    var kv := Split(header, '=');
    if |kv| != 2 || kv[0] != "bytes" then None
    else
      var ends := Split(kv[1], '-');
      if |ends| != 2 then None else Some((ends[0], ends[1]))
  }

  function ParseObjectRange(size: int, header: string): (r: ObjectRange)
    requires size >= 0
    ensures r.valid ==> r.satisfiable && 0 <= r.start && 1 <= r.length && r.start + r.length <= size
    ensures !r.valid && r.satisfiable ==> r.start == 0 && r.length == size
  {
    var whole := ObjectRange(0, size, false, true);
    var unsatisfiable := ObjectRange(0, 0, false, false);
    if header == "" then whole
    else match Ends(header)
      case None => whole
      case Some((first, last)) =>
        ParseIntSign(first);
        ParseIntSign(last);
        var start := ParseInt(first);
        if start.None? && first != "" then whole
        else if last == "" then
          if first == "" then whole
          else if start.value >= size then unsatisfiable
          else ObjectRange(start.value, size - start.value, true, true)
        else
          var end := ParseInt(last);
          if end.None? then whole
          else if first == "" then
            if end.value == 0 then unsatisfiable
            else if size == 0 then whole
            else
              var n := if end.value < size then end.value else size;
              ObjectRange(size - n, n, true, true)
          else if start.value > end.value then whole
          else if start.value >= size then unsatisfiable
          else
            var stop := if end.value >= size then size - 1 else end.value;
            ObjectRange(start.value, stop - start.value + 1, true, true)
  }

  /** What ParseCopySourceRange returns; None is an error. */
  function ParseCopySourceRange(size: int, header: string): (r: Option<(int, int)>) {
    if header == "" then Some((0, size))
    else match Ends(header)
      case None => None
      case Some((first, last)) =>
        var start := ParseInt(first);
        if start.None? || start.value >= size then None
        else if last == "" then Some((start.value, size - start.value + 1))
        else
          var end := ParseInt(last);
          if end.None? || end.value < start.value || end.value >= size then None
          else Some((start.value, end.value - start.value + 1))
  }

  /** A range header without an end. */
  predicate OpenEnded(header: string) {
    header != "" && Ends(header).Some? && Ends(header).value.1 == ""
  }

  /** Every closed range the copy parser accepts means the same to the object parser. */
  lemma ClosedRangesAgree(size: int, header: string)
    requires size >= 0 && header != "" && !OpenEnded(header) && ParseCopySourceRange(size, header).Some?
    ensures var (start, length) := ParseCopySourceRange(size, header).value;
      ParseObjectRange(size, header) == ObjectRange(start, length, true, true)
  {
  }

  /** An accepted copy range stays within the object exactly when it has an end: an
      open-ended one is always one byte too long. */
  lemma CopyRangeInsideIff(size: int, header: string)
    requires size >= 0 && ParseCopySourceRange(size, header).Some?
    ensures var (start, length) := ParseCopySourceRange(size, header).value;
      (start + length <= size <==> !OpenEnded(header)) && (OpenEnded(header) ==> start + length == size + 1)
  {
  }

  // ---------- what headers mean ----------

  /** The range units of section 14.1.2 of RFC 9110. */
  datatype RangeSpec = Closed(first: nat, last: nat) | From(first: nat) | Suffix(count: nat)

  function Decimal(n: nat): (r: string)
    ensures r != "" && IsDigits(r)
    decreases n
  {
    if n < 10 then [('0' as int + n) as char]
    else Decimal(n / 10) + [('0' as int + n % 10) as char]
  }

  function Print(spec: RangeSpec): string {
    "bytes=" +
    match spec
    case Closed(first, last) => Decimal(first) + "-" + Decimal(last)
    case From(first) => Decimal(first) + "-"
    case Suffix(count) => "-" + Decimal(count)
  }

  /** The bytes of an object of the given size that the range selects. */
  predicate Selects(spec: RangeSpec, size: int, i: int) {
    0 <= i < size &&
    match spec
    case Closed(first, last) => first <= i <= last
    case From(first) => first <= i
    case Suffix(count) => size - count <= i
  }

  predicate Representable(spec: RangeSpec) {
    match spec
    case Closed(first, last) => first <= MAX_INT64 && last <= MAX_INT64
    case From(first) => first <= MAX_INT64
    case Suffix(count) => count <= MAX_INT64
  }

  lemma {:induction false} DecimalRoundTrip(n: nat)
    ensures Number(Decimal(n)) == n
    decreases n
  {
    var s := Decimal(n);
    if n < 10 {
      assert s[..0] == "" && Number(s[..0]) == 0;
    } else {
      DecimalRoundTrip(n / 10);
      assert s[..|s| - 1] == Decimal(n / 10);
    }
  }

  lemma ParseDecimal(n: nat)
    ensures ParseInt(Decimal(n)) == if n <= MAX_INT64 then Some(n) else None
  {
    DecimalRoundTrip(n);
  }

  /** A sign is read, anything else that is no digit is not a number. */
  lemma NumbersOnly(n: nat, s: string, i: nat)
    requires n <= MAX_INT64 && i < |s| && !('0' <= s[i] <= '9') && (i > 0 || (s[0] != '+' && s[0] != '-'))
    ensures ParseInt("+" + Decimal(n)) == Some(n)
    ensures ParseInt("-" + Decimal(n)).Some? && ParseInt("-" + Decimal(n)).value + n == 0
    ensures ParseInt(s).None?
  {
    DecimalRoundTrip(n);
    hide Decimal, Number;
    assert ("+" + Decimal(n))[1..] == Decimal(n) && ("-" + Decimal(n))[1..] == Decimal(n);
    assert i > 0 ==> s[1..][i - 1] == s[i];
  }

  lemma SplitNone(s: string, sep: char)
    requires sep !in s
    ensures Split(s, sep) == [s]
  {
    if s != "" {
      SplitNone(s[1..], sep);
      assert [s[0]] + s[1..] == s;
    }
  }

  lemma {:induction false} SplitAt(a: string, b: string, sep: char)
    requires sep !in a
    ensures Split(a + [sep] + b, sep) == [a] + Split(b, sep)
    decreases |a|
  {
    var s := a + [sep] + b;
    if a == "" {
      assert s[1..] == b;
    } else {
      assert s[1..] == a[1..] + [sep] + b;
      SplitAt(a[1..], b, sep);
      assert [a[0]] + a[1..] == a;
    }
  }

  lemma PrintedEnds(first: string, last: string)
    requires '=' !in first && '=' !in last && '-' !in first && '-' !in last
    ensures Ends("bytes=" + (first + "-" + last)) == Some((first, last))
  {
    var body := first + "-" + last;
    assert "bytes=" + body == "bytes" + ['='] + body;
    SplitAt("bytes", body, '=');
    SplitNone(body, '=');
    assert first + ['-'] + last == body;
    SplitAt(first, last, '-');
    SplitNone(last, '-');
  }

  function Join(parts: seq<string>, sep: char): (r: string)
    requires parts != []
  {
    if |parts| == 1 then parts[0] else parts[0] + [sep] + Join(parts[1..], sep)
  }

  lemma JoinCons(first: string, rest: seq<string>, sep: char)
    requires rest != []
    ensures Join([first] + rest, sep) == first + [sep] + Join(rest, sep)
  {
    assert ([first] + rest)[1..] == rest;
  }

  lemma JoinGrows(c: char, parts: seq<string>, sep: char)
    requires parts != []
    ensures Join([[c] + parts[0]] + parts[1..], sep) == [c] + Join(parts, sep)
  {
    if |parts| == 1 {
      assert [[c] + parts[0]] + parts[1..] == [[c] + parts[0]];
    } else {
      JoinCons([c] + parts[0], parts[1..], sep);
      var rest := Join(parts[1..], sep);
      assert [c] + parts[0] + [sep] + rest == [c] + (parts[0] + [sep] + rest);
    }
  }

  /** Splitting loses nothing: the parts joined again are the text. */
  lemma {:induction false} SplitJoin(s: string, sep: char)
    ensures Join(Split(s, sep), sep) == s
    decreases |s|
  {
    if s != "" {
      var rest := Split(s[1..], sep);
      SplitJoin(s[1..], sep);
      JoinCons("", rest, sep);
      JoinGrows(s[0], rest, sep);
      hide Join;
      assert "" + [s[0]] + s[1..] == s && [s[0]] + s[1..] == s;
    }
  }

  lemma JoinTwo(s: string, sep: char)
    requires |Split(s, sep)| == 2
    ensures s == Split(s, sep)[0] + [sep] + Split(s, sep)[1]
  {
    hide Split;
    SplitJoin(s, sep);
    assert Split(s, sep)[1..] == [Split(s, sep)[1]];
  }

  /** Which headers have the shape of a range, and what its two ends are. */
  lemma EndsIff(header: string, first: string, last: string)
    ensures Ends(header) == Some((first, last)) <==>
      header == "bytes=" + (first + "-" + last) &&
      '=' !in first && '=' !in last && '-' !in first && '-' !in last
  {
    if Ends(header) == Some((first, last)) {
      var kv := Split(header, '=');
      JoinTwo(header, '=');
      JoinTwo(kv[1], '-');
      hide Split;
      assert kv[1] == first + "-" + last;
      assert "bytes" + ['='] + kv[1] == "bytes=" + kv[1];
      assert forall i :: 0 <= i < |first| ==> kv[1][i] == first[i];
      assert forall i :: 0 <= i < |last| ==> kv[1][|first| + 1 + i] == last[i];
    } else if header == "bytes=" + (first + "-" + last) &&
              '=' !in first && '=' !in last && '-' !in first && '-' !in last {
      PrintedEnds(first, last);
    }
  }

  /** A header of another shape is ignored when reading and refused when copying; no header
      at all means the whole object to both. */
  lemma NotARange(size: int, header: string)
    requires size >= 0 && Ends(header).None?
    ensures ParseObjectRange(size, header) == ObjectRange(0, size, false, true)
    ensures ParseCopySourceRange(size, header) == if header == "" then Some((0, size)) else None
  {
  }

  /** How the parser takes a printed range, number by number. */
  lemma PrintedParse(spec: RangeSpec)
    ensures Ends(Print(spec)) == Some(
      match spec
      case Closed(first, last) => (Decimal(first), Decimal(last))
      case From(first) => (Decimal(first), "")
      case Suffix(count) => ("", Decimal(count)))
    ensures Print(spec) != ""
  {
    hide Decimal, Ends;
    match spec {
      case Closed(first, last) =>
        PrintedEnds(Decimal(first), Decimal(last));
      case From(first) =>
        PrintedEnds(Decimal(first), "");
        assert Decimal(first) + "-" + "" == Decimal(first) + "-";
      case Suffix(count) =>
        PrintedEnds("", Decimal(count));
        assert "" + "-" + Decimal(count) == "-" + Decimal(count);
    }
  }

  /** The answer is valid when the range selects some byte, and then selects the same
      bytes; an empty selection is refused or, for a reversed range and for suffixes of
      an empty object, ignored. */
  ghost predicate Honours(spec: RangeSpec, size: int, r: ObjectRange) {
    && (r.valid <==> exists i :: Selects(spec, size, i))
    && (r.valid ==> forall i :: Selects(spec, size, i) <==> r.start <= i < r.start + r.length)
    && (!r.valid && r.satisfiable ==> (spec.Closed? && spec.first > spec.last) || (spec.Suffix? && size == 0))
  }

  lemma ClosedMeaning(size: int, first: nat, last: nat)
    requires size >= 0 && first <= MAX_INT64 && last <= MAX_INT64
    ensures Honours(Closed(first, last), size, ParseObjectRange(size, Print(Closed(first, last))))
  {
    PrintedParse(Closed(first, last));
    ParseDecimal(first);
    ParseDecimal(last);
    hide Decimal, ParseInt, Print, Ends;
    assert first <= last && first < size ==> Selects(Closed(first, last), size, first);
  }

  lemma FromMeaning(size: int, first: nat)
    requires size >= 0 && first <= MAX_INT64
    ensures Honours(From(first), size, ParseObjectRange(size, Print(From(first))))
  {
    PrintedParse(From(first));
    ParseDecimal(first);
    hide Decimal, ParseInt, Print, Ends;
    assert first < size ==> Selects(From(first), size, first);
  }

  lemma SuffixMeaning(size: int, count: nat)
    requires size >= 0 && count <= MAX_INT64
    ensures Honours(Suffix(count), size, ParseObjectRange(size, Print(Suffix(count))))
  {
    PrintedParse(Suffix(count));
    ParseDecimal(count);
    hide Decimal, ParseInt, Print, Ends;
    assert count > 0 && size > 0 ==> Selects(Suffix(count), size, size - 1);
  }

  lemma LargeIgnored(size: int, spec: RangeSpec)
    requires size >= 0 && !Representable(spec)
    ensures ParseObjectRange(size, Print(spec)) == ObjectRange(0, size, false, true)
  {
    PrintedParse(spec);
    match spec {
      case Closed(first, last) =>
        ParseDecimal(first);
        ParseDecimal(last);
      case From(first) =>
        ParseDecimal(first);
      case Suffix(count) =>
        ParseDecimal(count);
    }
    hide Decimal, ParseInt, Print, Ends;
  }

  /** A printed range is honoured exactly when its numbers are within the parser's
      integers; with a larger number it is ignored, whatever it selects. */
  lemma HeaderMeaning(size: int, spec: RangeSpec)
    requires size >= 0
    ensures var r := ParseObjectRange(size, Print(spec));
      if Representable(spec) then Honours(spec, size, r) else r == ObjectRange(0, size, false, true)
  {
    hide ParseObjectRange, Print, Honours;
    if !Representable(spec) {
      LargeIgnored(size, spec);
    } else {
      match spec
      case Closed(first, last) => ClosedMeaning(size, first, last);
      case From(first) => FromMeaning(size, first);
      case Suffix(count) => SuffixMeaning(size, count);
    }
  }

  /** An end past 2^63-1 loses a range that selects the whole object from byte 5 on. */
  lemma LargeEndIgnored()
    ensures Selects(Closed(5, MAX_INT64 + 1), 10, 5) &&
            !ParseObjectRange(10, Print(Closed(5, MAX_INT64 + 1))).valid
  {
    HeaderMeaning(10, Closed(5, MAX_INT64 + 1));
  }

  /** Which printed ranges a copy accepts, and what it makes of them: a closed range within
      the object, and an open one that starts within it but is counted one byte too long. */
  lemma CopyHeaderMeaning(size: int, spec: RangeSpec)
    requires 0 <= size <= MAX_INT64
    ensures ParseCopySourceRange(size, Print(spec)) ==
      match spec
      case Closed(first, last) => if first <= last < size then Some((first, last - first + 1)) else None
      case From(first) => if first < size then Some((first, size - first + 1)) else None
      case Suffix(_) => None
  {
    PrintedParse(spec);
    match spec {
      case Closed(first, last) =>
        ParseDecimal(first);
        ParseDecimal(last);
      case From(first) =>
        ParseDecimal(first);
      case Suffix(count) =>
        assert ParseInt("").None?;
    }
    hide Decimal, ParseInt, Print, Ends;
  }
}
