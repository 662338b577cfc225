/** The chunked RDMA transfers of the cuObject backend. */
module Rdma {
  import opened Text

  type byte = x: int | 0 <= x < 256

  const MAX_TRANSFER_SIZE := 0x4000_0000
  const ADDRESS_SPACE := 0x1_0000_0000_0000_0000

  /** What one RDMA operation reports: bytes moved, or an error. */
  datatype Outcome = Moved(n: int) | Broken

  /** One operation as it was issued. */
  datatype Chunk = Chunk(addr: int, len: int)

  function ChunkSize(bufSize: int, remaining: int): (r: int)
    ensures bufSize <= 0 || remaining <= 0 ==> r == 0
    ensures bufSize > 0 && remaining > 0 ==> 0 < r <= bufSize && r <= remaining && (r == bufSize || r == remaining)
  {
    if bufSize <= 0 || remaining <= 0 then 0
    else if remaining < bufSize then remaining
    else bufSize
  }

  /** `n` bytes of memory from address `a` on. */
  function Slice(mem: int -> byte, a: int, n: nat): (r: seq<byte>)
    ensures |r| == n && forall i :: 0 <= i < n ==> r[i] == mem(a + i)
  {
    seq(n, i => mem(a + i))
  }

  lemma SliceConcat(mem: int -> byte, a: int, n: nat, m: nat)
    ensures Slice(mem, a, n) + Slice(mem, a + n, m) == Slice(mem, a, n + m)
  {
  }

  /** The chunks follow each other without gap or overlap from `start`, each within the
      buffer, and together cover `total` bytes. */
  ghost predicate Tiles(chunks: seq<Chunk>, start: int, bufSize: int, total: int)
    decreases |chunks|
  {
    if chunks == [] then total == 0
    else
      var last := chunks[|chunks| - 1];
      && 0 < last.len <= bufSize
      && last.addr == (start + total - last.len) % ADDRESS_SPACE
      && Tiles(chunks[..|chunks| - 1], start, bufSize, total - last.len)
  }

  lemma NoTiles(start: int, bufSize: int)
    ensures Tiles([], start, bufSize, 0)
  {
  }

  lemma TilesSnoc(chunks: seq<Chunk>, start: int, bufSize: int, total: int, c: Chunk)
    requires Tiles(chunks, start, bufSize, total) && 0 < c.len <= bufSize && c.addr == (start + total) % ADDRESS_SPACE
    ensures Tiles(chunks + [c], start, bufSize, total + c.len)
  {
  }

  lemma {:induction false} TilesPositive(chunks: seq<Chunk>, start: int, bufSize: int, total: int)
    requires Tiles(chunks, start, bufSize, total)
    ensures total >= 0
    decreases |chunks|
  {
    if chunks != [] {
      var n := |chunks| - 1;
      TilesPositive(chunks[..n], start, bufSize, total - chunks[n].len);
    }
  }

  /** When the region does not wrap around the address space, every chunk lies inside it
      and no two chunks overlap. */
  lemma {:induction false} TilesInside(chunks: seq<Chunk>, start: int, bufSize: int, total: int, i: nat)
    requires Tiles(chunks, start, bufSize, total) && 0 <= start && start + total <= ADDRESS_SPACE && i < |chunks|
    ensures start <= chunks[i].addr && chunks[i].addr + chunks[i].len <= start + total
    ensures forall j :: i < j < |chunks| ==> chunks[i].addr + chunks[i].len <= chunks[j].addr
    decreases |chunks|
  {
    var n := |chunks| - 1;
    var rest, last := chunks[..n], chunks[n];
    TilesPositive(rest, start, bufSize, total - last.len);
    assert last.addr == start + total - last.len;
    if i < n {
      TilesInside(rest, start, bufSize, total - last.len, i);
      assert forall j :: 0 <= j < n ==> rest[j] == chunks[j];
    }
  }

  // ---------- PUT: client memory to backend ----------

  /** RDMA READ into the start of the local buffer. */
  method HandlePut(mem: int -> byte, local: array<byte>, addr: int, chunk: int, outcome: Outcome)
    requires 0 < chunk <= local.Length
    modifies local
    ensures outcome == Moved(chunk) ==> local[..chunk] == Slice(mem, addr, chunk)
  {
    if outcome == Moved(chunk) {
      for i := 0 to chunk
        invariant forall j :: 0 <= j < i ==> local[j] == mem(addr + j)
      {
        local[i] := mem(addr + i);
      }
    }
  }

  /** The producer of PutObject: RDMA chunks into a pipe.  `rdma` and `pipe` say how the
      k-th operation and the k-th write go. */
  method PutTransfer(mem: int -> byte, remoteStart: nat, size: Option<int>, local: array<byte>, rdma: nat -> Outcome,
                     pipe: nat -> bool)
    returns (ok: bool, written: seq<byte>, chunks: seq<Chunk>)
    modifies local
    ensures ok ==> size.Some? && 0 < size.value <= MAX_TRANSFER_SIZE && |written| == size.value
    ensures exists issued: nat ::
      Tiles(chunks, remoteStart, local.Length, issued) && |written| <= issued <= |written| + local.Length
    ensures ok ==> Tiles(chunks, remoteStart, local.Length, size.value)
    ensures !ok ==> (size.None? || !(0 < size.value <= MAX_TRANSFER_SIZE) || local.Length == 0 ||
                     exists k :: 0 <= k < |chunks| && !(rdma(k) == Moved(chunks[k].len) && pipe(k)))
    ensures size.Some? && size.value > 0 && remoteStart + size.value <= ADDRESS_SPACE ==>
      |written| <= size.value && written == Slice(mem, remoteStart, |written|)
  {
    hide Tiles;
    NoTiles(remoteStart, local.Length);
    written, chunks := [], [];
    if size.None? || size.value <= 0 || size.value > MAX_TRANSFER_SIZE {
      assert Tiles(chunks, remoteStart, local.Length, 0);
      return false, written, chunks;
    }
    var remaining, offset := size.value, 0;
    while remaining > 0
      invariant offset + remaining == size.value && remaining >= 0 && offset == |written|
      invariant Tiles(chunks, remoteStart, local.Length, offset)
      invariant remoteStart + size.value <= ADDRESS_SPACE ==> written == Slice(mem, remoteStart, offset)
      decreases remaining
    {
      var chunk := ChunkSize(local.Length, remaining);
      if chunk <= 0 {
        return false, written, chunks;
      }
      var addr := (remoteStart + offset) % ADDRESS_SPACE;
      var k := |chunks|;
      TilesSnoc(chunks, remoteStart, local.Length, offset, Chunk(addr, chunk));
      chunks := chunks + [Chunk(addr, chunk)];
      HandlePut(mem, local, addr, chunk, rdma(k));
      assert chunks[k].len == chunk;
      if rdma(k) != Moved(chunk) {
        return false, written, chunks;
      }
      if !pipe(k) {
        return false, written, chunks;
      }
      if remoteStart + size.value <= ADDRESS_SPACE {
        SliceConcat(mem, remoteStart, offset, chunk);
      }
      written := written + local[..chunk];
      offset := offset + chunk;
      remaining := remaining - chunk;
    }
    ok := true;
  }

  // ---------- GET: backend to client memory ----------

  class Remote {
    var mem: int -> byte

    constructor (mem: int -> byte)
      ensures this.mem == mem
    {
      this.mem := mem;
    }

    /** RDMA WRITE from the start of the local buffer: on success the whole chunk
        arrived, otherwise an unknown part of it did. */
    method HandleGet(local: array<byte>, addr: int, chunk: int, outcome: Outcome, arrived: int -> bool)
      requires 0 < chunk <= local.Length
      modifies this
      ensures outcome == Moved(chunk) ==> forall i :: 0 <= i < chunk ==> mem(addr + i) == local[i]
      ensures forall a :: !(addr <= a < addr + chunk) ==> mem(a) == old(mem)(a)
    {
      var before, data, all := mem, local[..chunk], outcome == Moved(chunk);
      mem := a => if addr <= a < addr + chunk && (all || arrived(a)) then data[a - addr] else before(a);
      assert all ==> forall i :: 0 <= i < chunk ==> mem(addr + i) == data[i];
    }

    /** The transfer loop of GetObject. */
    method GetTransfer(body: seq<byte>, size: int, capacity: Option<int>, remoteStart: nat, local: array<byte>,
                       rdma: nat -> Outcome, arrived: int -> bool)
      returns (ok: bool, chunks: seq<Chunk>)
      modifies this, local
      ensures ok && size > 0 ==>
        size <= MAX_TRANSFER_SIZE && size <= |body| && (capacity.Some? ==> size <= capacity.value) &&
        Tiles(chunks, remoteStart, local.Length, size)
      ensures size <= 0 ==> ok && mem == old(mem)
      ensures !ok ==> (size > MAX_TRANSFER_SIZE || size > |body| || local.Length == 0 ||
                       (capacity.Some? && size > capacity.value) ||
                       exists k :: 0 <= k < |chunks| && rdma(k) != Moved(chunks[k].len))
      ensures remoteStart + size <= ADDRESS_SPACE ==>
        forall a :: !(remoteStart <= a < remoteStart + size) ==> mem(a) == old(mem)(a)
      ensures ok && size > 0 && remoteStart + size <= ADDRESS_SPACE ==>
        forall i :: 0 <= i < size ==> mem(remoteStart + i) == body[i]
    {
      hide Tiles;
      NoTiles(remoteStart, local.Length);
      chunks := [];
      if size <= 0 {
        return true, chunks;
      }
      if size > MAX_TRANSFER_SIZE || local.Length == 0 ||
         (capacity.Some? && (capacity.value <= 0 || size > capacity.value)) {
        return false, chunks;
      }
      var remaining, offset := size, 0;
      ghost var fits := remoteStart + size <= ADDRESS_SPACE;
      while remaining > 0
        invariant offset + remaining == size && remaining >= 0 && 0 <= offset <= |body|
        invariant Tiles(chunks, remoteStart, local.Length, offset)
        invariant fits ==> forall a :: !(remoteStart <= a < remoteStart + offset) ==> mem(a) == old(mem)(a)
        invariant fits ==> forall i :: 0 <= i < offset ==> mem(remoteStart + i) == body[i]
        decreases remaining
      {
        var chunk := ChunkSize(local.Length, remaining);
        if |body| < offset + chunk {
          return false, chunks;
        }
        Fill(local, body[offset..offset + chunk]);
        var addr := (remoteStart + offset) % ADDRESS_SPACE;
        var k := |chunks|;
        TilesSnoc(chunks, remoteStart, local.Length, offset, Chunk(addr, chunk));
        chunks := chunks + [Chunk(addr, chunk)];
        assert chunks[k].len == chunk;
        HandleGet(local, addr, chunk, rdma(k), arrived);
        if rdma(k) != Moved(chunk) {
          return false, chunks;
        }
        ghost var was := offset;
        offset := offset + chunk;
        remaining := remaining - chunk;
        if fits {
          forall i | 0 <= i < offset ensures mem(remoteStart + i) == body[i] {
            if i >= was {
              assert mem(addr + (i - was)) == local[i - was] == body[was..was + chunk][i - was];
            }
          }
        }
      }
      ok := true;
    }
  }

  /** io.ReadFull into the start of the buffer. */
  method Fill(local: array<byte>, data: seq<byte>)
    requires |data| <= local.Length
    modifies local
    ensures local[..|data|] == data
  {
    for i := 0 to |data|
      invariant forall j :: 0 <= j < i ==> local[j] == data[j]
    {
      local[i] := data[i];
    }
  }
}
