/** The RDMA token: what the client library prints and what the gateway reads back. */
module Token {
  import opened Text

  // ---------- printing ----------

  function Digit(d: nat): (c: char)
    requires d < 16
  {
    "0123456789abcdef"[d]
  }

  /** printf's %0<width>x: lower-case hex, padded with zeros to at least `width`. */
  function Hex(n: nat, width: nat): (r: string)
    ensures |r| >= width && |r| >= 1
    decreases n, width
  {
    if n < 16 && width <= 1 then [Digit(n)]
    else Hex(n / 16, if width == 0 then 0 else width - 1) + [Digit(n % 16)]
  }

  const UINT32 := 0x1_0000_0000
  const UINT64 := 0x1_0000_0000_0000_0000

  datatype Client = Client(buf: nat, bufLen: nat, rkey: nat, lid: nat, dctn: nat, gid: seq<nat>)

  function HexBytes(bs: seq<nat>): string {
    if bs == [] then "" else Hex(bs[0], 2) + HexBytes(bs[1..])
  }

  function BuildToken(c: Client): (r: string) {
    Hex(c.buf, 16) + ":" + Hex(c.bufLen % UINT32, 8) + ":" + TokenTail(c)
  }

  /** The fields the gateway passes on without looking at them. */
  function TokenTail(c: Client): string {
    Hex(c.rkey, 8) + ":" + Hex(c.lid, 4) + ":" + Hex(c.dctn, 6) + ":" + Hex(1, 1) + ":" + HexBytes(c.gid)
  }

  /** rdma_host_client_alloc hands out a region of a size the token can carry, or none.
      `address` and `rkey` are None when allocating or registering the memory fails. */
  function Alloc(c: Client, size: nat, address: Option<nat>, rkey: Option<nat>): (r: Option<Client>)
    ensures r.Some? <==> 0 < size < UINT32 && address.Some? && rkey.Some?
    ensures r.Some? ==> Some(r.value.buf) == address && r.value.bufLen == size
  {
    if size == 0 || size > UINT32 - 1 then None
    else if address.None? || rkey.None? then None
    else Some(c.(buf := address.value, bufLen := size, rkey := rkey.value))
  }

  // ---------- reading ----------

  function HexValue(c: char): (r: int)
    ensures -1 <= r < 16
  {
    if '0' <= c <= '9' then c as int - '0' as int
    else if 'a' <= c <= 'f' then c as int - 'a' as int + 10
    else if 'A' <= c <= 'F' then c as int - 'A' as int + 10
    else -1
  }

  predicate AllHex(s: string) {
    forall i :: 0 <= i < |s| ==> HexValue(s[i]) >= 0
  }

  function HexNumber(s: string): (r: nat)
    requires AllHex(s)
  {
    if s == "" then 0 else HexNumber(s[..|s| - 1]) * 16 + HexValue(s[|s| - 1])
  }

  /** strconv.ParseUint(s, 16, bits), with `limit` = 2^bits. */
  function ParseUint(s: string, limit: nat): (r: Option<nat>) {
    if s == "" || !AllHex(s) then None
    else if HexNumber(s) >= limit then None
    else Some(HexNumber(s))
  }

  /** The part of `s` before the first colon, or all of it. */
  function FirstField(s: string): (r: string)
    ensures r <= s && ':' !in r && (|r| < |s| ==> s[|r|] == ':')
  {
    if s == "" || s[0] == ':' then "" else [s[0]] + FirstField(s[1..])
  }

  method ParseBaseAddr(token: string) returns (r: Option<nat>)
    ensures r == if FirstField(token) == token then None else ParseUint(FirstField(token), UINT64)
  {
    var i := 0;
    while i < |token| && token[i] != ':'
      invariant 0 <= i <= |token|
      invariant forall j :: 0 <= j < i ==> token[j] != ':'
    {
      i := i + 1;
    }
    FirstFieldIs(token, i);
    if i == 0 || i == |token| {
      return None;
    }
    r := ParseUint(token[..i], UINT64);
  }

  lemma FirstFieldIs(s: string, i: nat)
    requires i <= |s| && (forall j :: 0 <= j < i ==> s[j] != ':') && (i < |s| ==> s[i] == ':')
    ensures FirstField(s) == s[..i]
  {
  }

  /** parseRDMATokenBufferSize: the second colon-delimited field. */
  function ParseBufferSize(token: string): (r: Option<nat>) {
    var first := FirstField(token);
    if first == token then None
    else ParseUint(FirstField(token[|first| + 1..]), UINT32)
  }

  /** isRCTokenScheme: a hex first field too long for any base address. */
  method IsRCTokenScheme(token: string) returns (r: bool)
    ensures r <==> |FirstField(token)| > 16 && AllHex(FirstField(token))
  {
    var first := FirstField(token);
    if |first| <= 16 {
      return false;
    }
    for j := 0 to |first|
      invariant forall i :: 0 <= i < j ==> HexValue(first[i]) >= 0
    {
      if HexValue(first[j]) < 0 {
        return false;
      }
    }
    return true;
  }

  // ---------- round trip ----------

  /** Both cases are read alike. */
  lemma CaseFree(d: nat)
    requires d < 6
    ensures HexValue("abcdef"[d]) == HexValue("ABCDEF"[d]) == 10 + d
  {
  }

  lemma DigitValue(d: nat)
    requires d < 16
    ensures HexValue(Digit(d)) == d && Digit(d) != ':'
  {
  }

  function Pow16(w: nat): nat {
    if w == 0 then 1 else 16 * Pow16(w - 1)
  }

  /** Printing and reading hex are inverse, whatever the padding. */
  lemma {:induction false} HexRoundTrip(n: nat, width: nat)
    ensures AllHex(Hex(n, width)) && HexNumber(Hex(n, width)) == n && ':' !in Hex(n, width)
    decreases n, width
  {
    DigitValue(n % 16);
    if n < 16 && width <= 1 {
      assert n % 16 == n;
      var s := [Digit(n)];
      assert s[..0] == "" && HexNumber(s[..0]) == 0;
    } else {
      var w := if width == 0 then 0 else width - 1;
      HexRoundTrip(n / 16, w);
      var s := Hex(n, width);
      assert s[..|s| - 1] == Hex(n / 16, w);
    }
  }

  /** Only lower-case digits are printed. */
  lemma {:induction false} HexLower(n: nat, width: nat)
    ensures forall i :: 0 <= i < |Hex(n, width)| ==> Hex(n, width)[i] in "0123456789abcdef"
    decreases n, width
  {
    assert forall d :: 0 <= d < 16 ==> Digit(d) in "0123456789abcdef";
    if !(n < 16 && width <= 1) {
      HexLower(n / 16, if width == 0 then 0 else width - 1);
    }
  }

  /** A value that fits its field is printed with exactly the field's width. */
  lemma {:induction false} HexWidth(n: nat, width: nat)
    requires width > 0 && n < Pow16(width)
    ensures |Hex(n, width)| == width
    decreases n, width
  {
    if !(n < 16 && width <= 1) {
      assert width > 1 by {
        assert Pow16(1) == 16 * Pow16(0) == 16;
      }
      assert Pow16(width) == 16 * Pow16(width - 1);
      HexWidth(n / 16, width - 1);
    }
  }

  lemma FieldSplit(field: string, rest: string)
    requires ':' !in field
    ensures FirstField(field + ":" + rest) == field
    ensures (field + ":" + rest)[|field| + 1..] == rest
  {
    var s := field + ":" + rest;
    assert forall j :: 0 <= j < |field| ==> s[j] == field[j] && field[j] in field;
    FirstFieldIs(s, |field|);
    assert s[..|field|] == field;
  }

  /** Reading back what the client printed gives its address and size, and the token is
      never mistaken for another scheme's. */
  lemma TokenRoundTrip(c: Client)
    requires c.buf < UINT64 && 0 < c.bufLen < UINT32
    ensures var t := BuildToken(c);
      && FirstField(t) != t && ParseUint(FirstField(t), UINT64) == Some(c.buf)
      && ParseBufferSize(t) == Some(c.bufLen)
      && |FirstField(t)| == 16
  {
    hide Hex, TokenTail, FirstField, HexNumber, Pow16;
    var a, b, rest := Hex(c.buf, 16), Hex(c.bufLen % UINT32, 8), TokenTail(c);
    HexRoundTrip(c.buf, 16);
    HexRoundTrip(c.bufLen % UINT32, 8);
    Pow16Of16();
    HexWidth(c.buf, 16);
    FieldSplit(a, b + ":" + rest);
    assert a + ":" + b + ":" + rest == a + ":" + (b + ":" + rest);
    FieldSplit(b, rest);
  }

  lemma Pow16Of16()
    ensures Pow16(16) == UINT64 && Pow16(8) == UINT32 && Pow16(1) == 16
  {
    assert Pow16(4) == 0x1_0000;
    assert Pow16(8) == 16 * (16 * (16 * (16 * Pow16(4))));
    assert Pow16(12) == 16 * (16 * (16 * (16 * Pow16(8))));
    assert Pow16(16) == 16 * (16 * (16 * (16 * Pow16(12))));
  }

  lemma {:induction false} HexBytesWidth(bs: seq<nat>)
    requires forall i :: 0 <= i < |bs| ==> bs[i] < 256
    ensures |HexBytes(bs)| == 2 * |bs|
    decreases |bs|
  {
    if bs != [] {
      assert Pow16(2) == 16 * (16 * Pow16(0));
      HexWidth(bs[0], 2);
      HexBytesWidth(bs[1..]);
    }
  }

  /** With every field within its type the token has exactly 81 bytes, far below
      the 320 bytes of the buffer it is printed into. */
  lemma TokenFits(c: Client)
    requires c.buf < UINT64 && c.rkey < Pow16(8) && c.lid < Pow16(4) && c.dctn < Pow16(6)
    requires |c.gid| == 16 && forall i :: 0 <= i < 16 ==> c.gid[i] < 256
    ensures |BuildToken(c)| == 81
  {
    Pow16Of16();
    hide Hex, HexBytes, Pow16;
    HexWidth(c.buf, 16);
    HexWidth(c.bufLen % UINT32, 8);
    HexWidth(c.rkey, 8);
    HexWidth(c.lid, 4);
    HexWidth(c.dctn, 6);
    HexWidth(1, 1);
    HexBytesWidth(c.gid);
  }

  /** The colon-separated fields. */
  function Fields(s: string): (r: seq<string>)
    decreases |s|
  {
    var f := FirstField(s);
    if f == s then [f] else [f] + Fields(s[|f| + 1..])
  }

  lemma FieldsCons(field: string, rest: string)
    requires ':' !in field
    ensures Fields(field + ":" + rest) == [field] + Fields(rest)
  {
    FieldSplit(field, rest);
    assert |field| < |field + ":" + rest|;
  }

  lemma LastField(s: string)
    requires ':' !in s
    ensures Fields(s) == [s]
  {
    FirstFieldIs(s, |s|);
  }

  lemma HexBytesCons(bs: seq<nat>)
    requires bs != [] && bs[0] < 256
    ensures HexBytes(bs) == Hex(bs[0], 2) + HexBytes(bs[1..]) && |Hex(bs[0], 2)| == 2
    ensures AllHex(Hex(bs[0], 2)) && HexNumber(Hex(bs[0], 2)) == bs[0] && ':' !in Hex(bs[0], 2)
  {
    assert Pow16(2) == 16 * (16 * Pow16(0));
    HexWidth(bs[0], 2);
    HexRoundTrip(bs[0], 2);
  }

  lemma {:induction false} HexBytesPlain(bs: seq<nat>)
    requires forall j :: 0 <= j < |bs| ==> bs[j] < 256
    ensures ':' !in HexBytes(bs)
    decreases |bs|
  {
    if bs != [] {
      HexBytesCons(bs);
      HexBytesPlain(bs[1..]);
    }
  }

  /** The bytes of the GID are printed in order, two digits each. */
  lemma {:induction false} HexBytesRoundTrip(bs: seq<nat>, i: nat)
    requires (forall j :: 0 <= j < |bs| ==> bs[j] < 256) && i < |bs|
    ensures |HexBytes(bs)| == 2 * |bs|
    ensures var two := HexBytes(bs)[2 * i..2 * i + 2]; AllHex(two) && HexNumber(two) == bs[i]
    decreases |bs|
  {
    HexBytesCons(bs);
    HexBytesWidth(bs);
    hide Hex, HexNumber, HexBytes, AllHex;
    var all, first, rest := HexBytes(bs), Hex(bs[0], 2), HexBytes(bs[1..]);
    if i == 0 {
      assert all[0..2] == first;
    } else {
      HexBytesRoundTrip(bs[1..], i - 1);
      SliceShift(first, rest, 2 * i);
    }
  }

  lemma SliceShift(first: string, rest: string, j: nat)
    requires |first| == 2 <= j <= |rest|
    ensures (first + rest)[j..j + 2] == rest[j - 2..j]
  {
  }

  /** The token as its fields are joined. */
  lemma TokenText(c: Client)
    ensures TokenTail(c) == Hex(c.rkey, 8) + ":" +
      (Hex(c.lid, 4) + ":" + (Hex(c.dctn, 6) + ":" + (Hex(1, 1) + ":" + HexBytes(c.gid))))
    ensures BuildToken(c) == Hex(c.buf, 16) + ":" + (Hex(c.bufLen % UINT32, 8) + ":" + TokenTail(c))
  {
    hide Hex, HexBytes;
  }

  lemma JoinFields(field: string, rest: string, fields: seq<string>)
    requires ':' !in field && Fields(rest) == fields
    ensures Fields(field + ":" + rest) == [field] + fields
  {
    hide Fields;
    FieldsCons(field, rest);
  }

  lemma TailFields(c: Client)
    requires forall j :: 0 <= j < |c.gid| ==> c.gid[j] < 256
    ensures Fields(TokenTail(c)) ==
      [Hex(c.rkey, 8)] + ([Hex(c.lid, 4)] + ([Hex(c.dctn, 6)] + (["1"] + [HexBytes(c.gid)])))
  {
    assert Hex(1, 1) == "1";
    TokenText(c);
    HexBytesPlain(c.gid);
    HexRoundTrip(c.rkey, 8);
    HexRoundTrip(c.lid, 4);
    HexRoundTrip(c.dctn, 6);
    hide *;
    var f, g := Hex(c.dctn, 6), HexBytes(c.gid);
    LastField(g);
    JoinFields("1", g, [g]);
    JoinFields(f, "1" + ":" + g, ["1"] + [g]);
    JoinFields(Hex(c.lid, 4), f + ":" + ("1" + ":" + g), [f] + (["1"] + [g]));
    JoinFields(Hex(c.rkey, 8), Hex(c.lid, 4) + ":" + (f + ":" + ("1" + ":" + g)),
               [Hex(c.lid, 4)] + ([f] + (["1"] + [g])));
  }

  /** Every field of the token stands where the format puts it: address, size, key, LID,
      DCT number, the GID flag, and the bytes of the GID. */
  lemma TokenFields(c: Client)
    requires forall j :: 0 <= j < |c.gid| ==> c.gid[j] < 256
    ensures Fields(BuildToken(c)) ==
      [Hex(c.buf, 16), Hex(c.bufLen % UINT32, 8), Hex(c.rkey, 8), Hex(c.lid, 4), Hex(c.dctn, 6), "1", HexBytes(c.gid)]
  {
    TailFields(c);
    TokenText(c);
    HexRoundTrip(c.buf, 16);
    HexRoundTrip(c.bufLen % UINT32, 8);
    hide *;
    var b, tail := Hex(c.bufLen % UINT32, 8), TokenTail(c);
    JoinFields(b, tail, Fields(tail));
    JoinFields(Hex(c.buf, 16), b + ":" + tail, [b] + Fields(tail));
    Seven(Hex(c.buf, 16), b, Hex(c.rkey, 8), Hex(c.lid, 4), Hex(c.dctn, 6), "1", HexBytes(c.gid));
  }

  lemma Seven<T>(a: T, b: T, c: T, d: T, e: T, f: T, g: T)
    ensures [a] + ([b] + ([c] + ([d] + ([e] + ([f] + [g]))))) == [a, b, c, d, e, f, g]
  {
  }

  /** From allocation to the gateway: the region a client allocates is the region the
      gateway addresses, and no region is addressed that was not allocated. */
  method ClientToGateway(c: Client, size: nat, address: Option<nat>, rkey: Option<nat>)
    returns (addr: Option<nat>, bufSize: Option<nat>, rc: bool)
    requires address.Some? ==> address.value < UINT64
    ensures !rc
    ensures if 0 < size < UINT32 && address.Some? && rkey.Some? then addr == address && bufSize == Some(size)
            else addr.None? && bufSize.None?
  {
    var region := Alloc(c, size, address, rkey);
    if region.None? {
      return None, None, false;
    }
    TokenRoundTrip(region.value);
    var token := BuildToken(region.value);
    rc := IsRCTokenScheme(token);
    addr := ParseBaseAddr(token);
    bufSize := ParseBufferSize(token);
  }
}
