/** MemoryPoolAllocator: a list of chunks, the head one filled from the bottom up. Nothing is
    freed before Clear; Realloc grows the last block in place or moves it. */
module PoolAllocator {
  import opened Common

  /** sizeof(ChunkHeader): two sizes and a pointer, on a 64-bit target. */
  const HEADER_SIZE: nat := 24

  /** RAPIDJSON_ALIGN: round up to a multiple of eight. */
  function Align(x: nat): (r: nat)
    ensures x <= r < x + 8 && r % 8 == 0
  {
    (x + 7) / 8 * 8
  }

  /** A chunk: its header fields and its payload. The list links are left to the sequence
      of chunks the allocator keeps. */
  class Chunk {
    const data: array<Byte>
    const capacity: nat
    var size: nat

    constructor (capacity: nat)
      ensures data.Length == capacity == this.capacity && size == 0 && fresh(data)
    {
      data := new Byte[capacity];
      this.capacity, size := capacity, 0;
    }
  }

  datatype Pointer = NullPointer | Pointer(chunk: Chunk, offset: nat)

  /** A block handed out: `size` payload bytes from `offset` on. */
  datatype Block = Block(chunk: Chunk, offset: nat, size: nat)

  /** The first `n` bytes at a pointer. */
  ghost function Bytes(p: Pointer, n: nat): seq<Byte>
    requires p.Pointer? && p.offset + n <= p.chunk.data.Length
    reads p.chunk.data
  {
    p.chunk.data[p.offset..p.offset + n]
  }

  predicate Fits(b: Block) {
    b.offset + b.size <= b.chunk.data.Length
  }

  /** The bytes of a block. */
  ghost function Content(b: Block): seq<Byte>
    requires Fits(b)
    reads b.chunk.data
  {
    b.chunk.data[b.offset..b.offset + b.size]
  }

  /** Every byte of these blocks keeps its value. */
  twostate predicate BlocksKept(bs: seq<Block>)
    reads set b | b in bs :: b.chunk.data
  {
    forall b | b in bs ::
      Fits(b) && Content(b) == old(Content(b))
  }

  function Sum(ns: seq<nat>): nat {
    if ns == [] then 0 else ns[0] + Sum(ns[1..])
  }

  function TotalSize(bs: seq<Block>): nat {
    if bs == [] then 0 else TotalSize(bs[..|bs| - 1]) + bs[|bs| - 1].size
  }

  predicate Apart(a: Block, b: Block) {
    a.chunk != b.chunk || a.offset + a.size <= b.offset || b.offset + b.size <= a.offset
  }

  ghost predicate AllApart(bs: seq<Block>) {
    forall i, j {:trigger Apart(bs[i], bs[j])} | 0 <= i < j < |bs| :: Apart(bs[i], bs[j])
  }

  lemma {:induction false} SumBounded(ns: seq<nat>, cs: seq<Chunk>)
    requires |ns| == |cs| && forall i | 0 <= i < |ns| :: ns[i] <= cs[i].capacity
    ensures Sum(ns) <= TotalCapacity(cs)
  {
    if ns != [] { SumBounded(ns[1..], cs[1..]); }
  }

  lemma {:induction false} TotalGrown(bs: seq<Block>, k: nat, b: Block)
    requires k < |bs|
    ensures TotalSize(bs[k := b]) == TotalSize(bs) - bs[k].size + b.size
  {
    var n := |bs| - 1;
    if k < n {
      assert bs[k := b][..n] == bs[..n][k := b];
      TotalGrown(bs[..n], k, b);
    } else {
      assert bs[k := b][..n] == bs[..n];
    }
  }

  function TotalCapacity(cs: seq<Chunk>): nat {
    if cs == [] then 0 else cs[0].capacity + TotalCapacity(cs[1..])
  }

  class MemoryPoolAllocator {
    /** The chunk list; the head, chunks[0], is the one that serves allocations. */
    var chunks: seq<Chunk>
    const chunkCapacity: nat
    const userBuffer: Chunk?

    ghost var sizes: seq<nat>
    ghost var blocks: seq<Block>

    /** The chunks are distinct and not over-full; a user buffer is the last of them. */
    ghost predicate ListValid()
      reads `chunks, `sizes, chunks`size
    {
      && (forall i, j | 0 <= i < j < |chunks| :: chunks[i] != chunks[j] && chunks[i].data != chunks[j].data)
      && (forall i | 0 <= i < |chunks| :: chunks[i] == userBuffer <==> userBuffer != null && i == |chunks| - 1)
      && (userBuffer != null ==> chunks != [])
      && |sizes| == |chunks|
      && (forall i | 0 <= i < |chunks| ::
            chunks[i].size == sizes[i] <= chunks[i].capacity == chunks[i].data.Length)
    }

    /** The blocks handed out lie in the used part of their chunks, do not overlap, and
        together account for every used byte. */
    ghost predicate BlocksValid()
      reads `chunks, `sizes, `blocks, chunks`size
    {
      && (forall b | b in blocks :: b.chunk in chunks && b.size > 0 && b.offset + b.size <= b.chunk.size)
      && AllApart(blocks)
      && TotalSize(blocks) == Sum(sizes)
    }

    ghost predicate Valid()
      reads `chunks, `sizes, `blocks, chunks`size
    {
      ListValid() && BlocksValid()
    }

    constructor (chunkCapacity: nat)
      ensures Valid() && chunks == [] && blocks == [] && userBuffer == null
      ensures this.chunkCapacity == chunkCapacity
    {
      this.chunkCapacity, userBuffer := chunkCapacity, null;
      chunks, sizes, blocks := [], [], [];
    }

    /** The user's buffer is the first chunk, less its header. */
    constructor WithBuffer(size: nat, chunkCapacity: nat)
      requires size > HEADER_SIZE
      ensures Valid() && blocks == [] && userBuffer != null && chunks == [userBuffer]
      ensures fresh(chunks[0]) && fresh(chunks[0].data) && chunks[0].capacity == size - HEADER_SIZE
      ensures this.chunkCapacity == chunkCapacity
    {
      var buffer := new Chunk(size - HEADER_SIZE);
      userBuffer, this.chunkCapacity := buffer, chunkCapacity;
      chunks, sizes, blocks := [buffer], [0], [];
    }

    /** AddChunk; `granted` is whether the base allocator finds the memory. */
    method AddChunk(capacity: nat, granted: bool) returns (ok: bool)
      requires Valid()
      modifies `chunks, `sizes
      ensures Valid() && ok == granted
      ensures !ok ==> chunks == old(chunks) && sizes == old(sizes)
      ensures ok ==> |chunks| > 0 && chunks[1..] == old(chunks) && fresh(chunks[0]) && fresh(chunks[0].data)
      ensures ok ==> chunks[0].capacity == capacity && chunks[0].size == 0
    {
      ok := granted;
      if granted {
        var chunk := new Chunk(capacity);
        chunks := [chunk] + chunks;
        sizes := [0] + sizes;
        ChunkAdded(chunk);
      }
    }

    twostate lemma ChunkAdded(new chunk: Chunk)
      requires old(Valid()) && fresh(chunk) && fresh(chunk.data)
      requires chunk.size == 0 && chunk.data.Length == chunk.capacity
      requires forall c | c in old(chunks) :: unchanged(c)
      requires chunks == [chunk] + old(chunks) && blocks == old(blocks) && sizes == [0] + old(sizes)
      ensures Valid()
    {
      forall i | 1 <= i < |chunks|
        ensures chunks[i] == old(chunks)[i - 1] && chunks[i].size == old(chunks[i - 1].size)
      {
        assert old(chunks)[i - 1] in old(chunks);
      }
      assert sizes[1..] == old(sizes);
    }

    /** The head chunk has no room for `need` more bytes, or there is none. */
    predicate Full(need: nat)
      reads `chunks, chunks`size
    {
      chunks == [] || chunks[0].size + need > chunks[0].capacity
    }

    /** The `was` bytes at `p` end the used part of the head chunk, which can take the rest. */
    predicate Extensible(p: Pointer, was: nat, need: nat)
      requires was <= need
      reads `chunks, chunks`size
    {
      && p.Pointer? && chunks != [] && p.chunk == chunks[0] && p.offset + was == chunks[0].size
      && chunks[0].size + (need - was) <= chunks[0].capacity
    }

    /** Malloc: a new block at the end of the head chunk's used part, in a new chunk when the
        head has no room. */
    method Malloc(size: nat, granted: bool) returns (p: Pointer)
      requires Valid()
      modifies `chunks, `sizes, `blocks, if chunks == [] then {} else {chunks[0]}
      ensures Valid()
      ensures size == 0 ==> p == NullPointer
      ensures size > 0 ==> (p == NullPointer <==> !granted && old(Full(Align(size))))
      ensures p == NullPointer ==> blocks == old(blocks) && chunks == old(chunks)
      ensures p.Pointer? ==> blocks == old(blocks) + [Block(p.chunk, p.offset, Align(size))]
      ensures p.Pointer? ==> chunks != [] && p.chunk == chunks[0] && p.offset == p.chunk.size - Align(size)
      ensures p.Pointer? && old(Full(Align(size))) ==>
                && |chunks| > 0 && chunks[1..] == old(chunks) && fresh(chunks[0]) && fresh(chunks[0].data)
                && chunks[0].capacity == if chunkCapacity > Align(size) then chunkCapacity else Align(size)
      ensures !old(Full(Align(size))) ==> chunks == old(chunks)
      // a new chunk is made exactly when the head one has no room for the block, to the last byte
      ensures p.Pointer? ==>
                (chunks == old(chunks) <==> old(chunks != [] && chunks[0].size + Align(size) <= chunks[0].capacity))
      ensures size > 0 && p == NullPointer ==>
                !granted && old(chunks == [] || chunks[0].size + Align(size) > chunks[0].capacity)
      ensures BlocksKept(old(blocks))
    {
      BlocksFit();
      if size == 0 {
        return NullPointer;
      }
      var need := Align(size);
      if Full(need) {
        var ok := AddChunk(if chunkCapacity > need then chunkCapacity else need, granted);
        if !ok {
          return NullPointer;
        }
      }
      p := Bump(need);
    }

    /** Count `increment` more bytes of the head chunk as used. */
    method FillHead(increment: nat)
      requires ListValid() && chunks != [] && chunks[0].size + increment <= chunks[0].capacity
      modifies `sizes, chunks[0]
      ensures ListValid() && Sum(sizes) == old(Sum(sizes)) + increment
      ensures chunks[0].size == old(chunks[0].size) + increment
    {
      chunks[0].size := chunks[0].size + increment;
      sizes := [sizes[0] + increment] + sizes[1..];
      HeadFilled(increment);
    }

    /** Using more of the head chunk keeps the list valid. */
    twostate lemma HeadFilled(increment: nat)
      requires old(ListValid()) && chunks != [] && chunks == old(chunks)
      requires forall c | c in chunks && c != chunks[0] :: unchanged(c)
      requires chunks[0].size == old(chunks[0].size) + increment <= chunks[0].capacity
      requires sizes == [old(sizes)[0] + increment] + old(sizes)[1..]
      ensures ListValid() && Sum(sizes) == old(Sum(sizes)) + increment
    {
      assert sizes[1..] == old(sizes)[1..];
      forall i | 1 <= i < |chunks| ensures chunks[i].size == old(chunks[i].size) {
        assert chunks[i] in chunks;
      }
    }

    /** Take the next `need` bytes of the head chunk. */
    method Bump(need: nat) returns (p: Pointer)
      requires Valid() && need > 0 && chunks != [] && chunks[0].size + need <= chunks[0].capacity
      modifies `sizes, `blocks, chunks[0]
      ensures Valid()
      ensures p == Pointer(chunks[0], old(chunks[0].size)) && chunks[0].size == old(chunks[0].size) + need
      ensures blocks == old(blocks) + [Block(p.chunk, p.offset, need)]
    {
      p := Pointer(chunks[0], chunks[0].size);
      FillHead(need);
      ghost var b := Block(p.chunk, p.offset, need);
      assert forall c | c in blocks :: Apart(c, b);
      blocks := blocks + [b];
      assert blocks[..|blocks| - 1] == old(blocks);
    }

    /** Clear: free every chunk but the user's buffer, which becomes empty. */
    method Clear()
      requires Valid()
      modifies `chunks, `sizes, `blocks, if userBuffer == null then {} else {userBuffer}
      ensures Valid() && blocks == []
      ensures if userBuffer == null then chunks == [] else chunks == [userBuffer] && userBuffer.size == 0
    {
      blocks := [];
      while chunks != [] && chunks[0] != userBuffer
        invariant ListValid() && blocks == []
        decreases |chunks|
      {
        chunks, sizes := chunks[1..], sizes[1..];
      }
      if chunks != [] {
        assert |chunks| == 1;
        userBuffer.size := 0;
        sizes := [0];
      }
    }

    /** Capacity(): the sum over the list. */
    method Capacity() returns (capacity: nat)
      ensures capacity == TotalCapacity(chunks)
    {
      capacity := 0;
      for i := 0 to |chunks|
        invariant capacity + TotalCapacity(chunks[i..]) == TotalCapacity(chunks)
      {
        assert chunks[i..][1..] == chunks[i + 1..];
        capacity := capacity + chunks[i].capacity;
      }
    }

    /** Size(): the sum over the list, which is the total of the blocks handed out. */
    method Size() returns (size: nat)
      requires Valid()
      ensures size == TotalSize(blocks)
    {
      size := 0;
      for i := 0 to |chunks|
        invariant size + Sum(sizes[i..]) == Sum(sizes)
      {
        assert sizes[i..][1..] == sizes[i + 1..];
        size := size + chunks[i].size;
      }
    }

    /** Size() never exceeds Capacity(). */
    lemma SizeWithinCapacity()
      requires Valid()
      ensures TotalSize(blocks) <= TotalCapacity(chunks)
    {
      SumBounded(sizes, chunks);
    }

    /** Blocks handed out never share a byte, and each lies in its chunk's payload. */
    lemma BlocksDisjoint(i: nat, j: nat, byte: nat)
      requires Valid() && i < j < |blocks|
      ensures var a, b := blocks[i], blocks[j];
              && a.offset + a.size <= a.chunk.capacity && b.offset + b.size <= b.chunk.capacity
              && (a.chunk == b.chunk ==>
                    !(a.offset <= byte < a.offset + a.size && b.offset <= byte < b.offset + b.size))
    {
      assert blocks[i] in blocks && blocks[j] in blocks;
      assert Apart(blocks[i], blocks[j]);
    }

    /** Realloc. Block `k` is the one at `p`; the caller's idea of its size may be smaller,
        after a request that did not shrink it. */
    method Realloc(p: Pointer, originalSize: nat, newSize: nat, granted: bool, ghost k: nat) returns (q: Pointer)
      requires Valid()
      requires p.Pointer? ==> k < |blocks| && blocks[k].chunk == p.chunk && blocks[k].offset == p.offset
                              && Align(originalSize) <= blocks[k].size
      modifies `chunks, `sizes, `blocks, if chunks == [] then {} else {chunks[0], chunks[0].data}
      ensures Valid()
      ensures BlocksKept(old(blocks))
      // the result holds what the original held
      ensures p.Pointer? && q.Pointer? && Align(originalSize) <= Align(newSize) ==>
                && q.offset + Align(originalSize) <= q.chunk.data.Length
                && Bytes(q, Align(originalSize)) == old(Bytes(p, Align(originalSize)))
      // and is a block of the size asked for: the old one, the old one grown, or a new one
      ensures q == NullPointer ==> blocks == old(blocks)
      ensures newSize == 0 ==> q == NullPointer
      ensures p == NullPointer && q.Pointer? ==> blocks == old(blocks) + [Block(q.chunk, q.offset, Align(newSize))]
      ensures p.Pointer? && newSize > 0 && Align(newSize) <= Align(originalSize) ==> q == p && blocks == old(blocks)
      ensures p.Pointer? && Align(originalSize) < Align(newSize) &&
                old(Extensible(p, Align(originalSize), Align(newSize))) ==>
                q == p && blocks == old(blocks)[k := Block(p.chunk, p.offset, Align(newSize))]
      ensures p.Pointer? && Align(originalSize) < Align(newSize) &&
                !old(Extensible(p, Align(originalSize), Align(newSize))) ==>
                && (q == NullPointer <==> !granted && old(Full(Align(newSize))))
                && (q.Pointer? ==> blocks == old(blocks) + [Block(q.chunk, q.offset, Align(newSize))])
      // it grows in place exactly when it ends the head chunk's used part and the rest has room, to the last byte
      ensures p.Pointer? && Align(originalSize) < Align(newSize) ==>
                (|blocks| == |old(blocks)| && q == p <==>
                   old(chunks != [] && p.chunk == chunks[0] && p.offset + Align(originalSize) == chunks[0].size
                       && p.offset + Align(newSize) <= chunks[0].capacity))
    {
      BlocksFit();
      if p == NullPointer {
        q := Malloc(newSize, granted);
        return;
      }
      if newSize == 0 {
        return NullPointer;
      }
      var was, need := Align(originalSize), Align(newSize);
      if was >= need {
        return p;
      }
      q := Enlarge(p, was, need, granted, k);
    }

    /** The rest of Realloc: extend the block in place if it is the last, or move it. */
    method Enlarge(p: Pointer, was: nat, need: nat, granted: bool, ghost k: nat) returns (q: Pointer)
      requires Valid() && was < need && need % 8 == 0
      requires p.Pointer? && k < |blocks| && blocks[k].chunk == p.chunk && blocks[k].offset == p.offset
               && was <= blocks[k].size
      modifies `chunks, `sizes, `blocks, if chunks == [] then {} else {chunks[0], chunks[0].data}
      ensures Valid() && BlocksKept(old(blocks))
      ensures q.Pointer? ==> q.offset + was <= q.chunk.data.Length && Bytes(q, was) == old(Bytes(p, was))
      ensures if old(Extensible(p, was, need)) then q == p && blocks == old(blocks)[k := Block(p.chunk, p.offset, need)]
              else if !granted && old(Full(need)) then q == NullPointer && blocks == old(blocks)
              else q.Pointer? && blocks == old(blocks) + [Block(q.chunk, q.offset, need)]
    {
      assert blocks[k] in blocks;
      if Extensible(p, was, need) {
        assert blocks[k].size == was;
        BlocksFit();
        GrowLast(k, need - was);
        return p;
      }
      q := MoveBlock(p, was, need, granted, k);
    }

    /** Extend block `k`, which ends where the used part of the head chunk does. */
    method GrowLast(ghost k: nat, increment: nat)
      requires Valid() && chunks != [] && k < |blocks| && blocks[k].chunk == chunks[0]
      requires blocks[k].offset + blocks[k].size == chunks[0].size
      requires chunks[0].size + increment <= chunks[0].capacity
      modifies `sizes, `blocks, chunks[0]
      ensures Valid()
      ensures blocks == old(blocks)[k := old(blocks)[k].(size := old(blocks)[k].size + increment)]
    {
      ghost var grown := blocks[k].(size := blocks[k].size + increment);
      LastBlockGrows(k, grown);
      FillHead(increment);
      blocks := blocks[k := grown];
      assert forall c | c in blocks :: c == grown || c in old(blocks);
    }

    lemma LastBlockGrows(k: nat, grown: Block)
      requires Valid() && chunks != [] && k < |blocks| && blocks[k].chunk == chunks[0]
      requires blocks[k].offset + blocks[k].size == chunks[0].size
      requires grown.size >= blocks[k].size && grown == blocks[k].(size := grown.size)
      ensures AllApart(blocks[k := grown])
      ensures TotalSize(blocks[k := grown]) == TotalSize(blocks) - blocks[k].size + grown.size
    {
      TotalGrown(blocks, k, grown);
      GrownStaysApart(blocks, k, grown);
    }

    /** A block that ends last in its chunk can grow without touching another. */
    lemma GrownStaysApart(bs: seq<Block>, k: nat, grown: Block)
      requires k < |bs| && grown.chunk == bs[k].chunk && grown.offset == bs[k].offset && grown.size >= bs[k].size
      requires forall b | b in bs :: b.size > 0 &&
                 (b.chunk == grown.chunk ==> b.offset + b.size <= bs[k].offset + bs[k].size)
      requires AllApart(bs)
      ensures AllApart(bs[k := grown])
    {
      forall i | 0 <= i < |bs| && i != k ensures Apart(bs[i], grown) && Apart(grown, bs[i]) {
        assert bs[i] in bs;
        if i < k { assert Apart(bs[i], bs[k]); } else { assert Apart(bs[k], bs[i]); }
      }
    }

    lemma BlocksFit()
      requires Valid()
      ensures forall b | b in blocks :: Fits(b)
    {
    }

    /** What the list's shape says of a pair of blocks handed out. */
    lemma LastBlockApart()
      requires Valid() && blocks != []
      ensures var last := blocks[|blocks| - 1];
              && Fits(last)
              && forall b | b in blocks[..|blocks| - 1] ::
                   Fits(b) && Apart(b, last) && (b.chunk.data == last.chunk.data ==> b.chunk == last.chunk)
    {
      var n := |blocks| - 1;
      assert blocks[n] in blocks;
      forall j | 0 <= j < n
        ensures var b := blocks[j];
                Fits(b) && Apart(b, blocks[n]) && (b.chunk.data == blocks[n].chunk.data ==> b.chunk == blocks[n].chunk)
      {
        assert blocks[j] in blocks;
      }
    }

    twostate lemma HeadersUnchanged()
      requires old(Valid()) && unchanged(`chunks) && unchanged(`sizes) && unchanged(`blocks)
      requires forall c | c in chunks :: unchanged(c)
      ensures Valid()
    {
      forall i | 0 <= i < |chunks| ensures chunks[i].size == old(chunks[i].size) {
        assert chunks[i] in chunks;
      }
    }

    /** Allocate and copy; the original stays where it is. */
    method MoveBlock(p: Pointer, was: nat, need: nat, granted: bool, ghost k: nat) returns (q: Pointer)
      requires Valid() && was < need && need % 8 == 0
      requires p.Pointer? && k < |blocks| && blocks[k].chunk == p.chunk && blocks[k].offset == p.offset
               && was <= blocks[k].size
      modifies `chunks, `sizes, `blocks, if chunks == [] then {} else {chunks[0], chunks[0].data}
      ensures Valid()
      ensures BlocksKept(old(blocks))
      ensures q == NullPointer ==> blocks == old(blocks)
      ensures q == NullPointer <==> !granted && old(Full(need))
      ensures q.Pointer? ==>
                && blocks == old(blocks) + [Block(q.chunk, q.offset, need)]
                && q.offset + was <= q.chunk.data.Length && Bytes(q, was) == old(Bytes(p, was))
    {
      BlocksFit();
      assert blocks[k] in blocks;
      ghost var contents := Bytes(p, was);
      q := TakeBlock(need, granted);
      if q.Pointer? {
        FillLast(p, q, was, need, old(blocks), k, contents);
      }
    }

    /** The allocation of a move: the block lies in the old head chunk or in new memory. */
    method TakeBlock(need: nat, granted: bool) returns (q: Pointer)
      requires Valid() && need % 8 == 0 && need > 0
      modifies `chunks, `sizes, `blocks, if chunks == [] then {} else {chunks[0]}
      ensures Valid() && BlocksKept(old(blocks))
      ensures q == NullPointer ==> blocks == old(blocks)
      ensures q == NullPointer <==> !granted && old(Full(need))
      ensures q.Pointer? ==>
                && blocks == old(blocks) + [Block(q.chunk, q.offset, need)]
                && q.offset + need <= q.chunk.data.Length
                && (fresh(q.chunk.data) || (old(chunks) != [] && q.chunk == old(chunks[0])))
    {
      assert Align(need) == need;
      q := Malloc(need, granted);
      if q.Pointer? {
        BlocksFit();
        assert blocks[|blocks| - 1] in blocks;
      }
    }

    /** The copy of a move, into the block just handed out. */
    method FillLast(p: Pointer, q: Pointer, was: nat, need: nat,
                    ghost before: seq<Block>, ghost k: nat, ghost contents: seq<Byte>)
      requires Valid() && p.Pointer? && q.Pointer? && k < |before| && was <= before[k].size && was <= need
      requires before[k].chunk == p.chunk && before[k].offset == p.offset && Fits(before[k])
      requires blocks == before + [Block(q.chunk, q.offset, need)] && q.offset + need <= q.chunk.data.Length
      requires Bytes(p, was) == contents
      modifies q.chunk.data
      ensures Valid() && BlocksKept(before)
      ensures Bytes(q, was) == contents
    {
      var last := Block(q.chunk, q.offset, need);
      LastBlockApart();
      assert blocks[..|blocks| - 1] == before;
      CopyInto(p, last, was, before, before[k]);
      HeadersUnchanged();
    }
  }

  /** The copy of a move, into a block apart from those handed out `before`. */
  method CopyInto(p: Pointer, added: Block, was: nat, ghost before: seq<Block>, ghost original: Block)
    requires forall b | b in before :: Fits(b) && Apart(b, added) &&
                 (b.chunk.data == added.chunk.data ==> b.chunk == added.chunk)
    requires p.Pointer? && was <= added.size && Fits(added) && Fits(original)
    requires original in before && original.chunk == p.chunk && original.offset == p.offset && was <= original.size
    modifies added.chunk.data
    ensures Bytes(Pointer(added.chunk, added.offset), was) == old(Bytes(p, was))
    ensures BlocksKept(before)
  {
    ghost var contents := added.chunk.data[..];
    CopyBytes(p.chunk.data, p.offset, added.chunk.data, added.offset, was);
    forall b | b in before ensures Content(b) == old(Content(b)) {
      if b.chunk.data == added.chunk.data {
        SliceKept(contents, added.chunk.data[..], added.offset, was, b.offset, b.offset + b.size);
      }
    }
  }

  /** A slice outside the changed range is as before. */
  lemma SliceKept(a: seq<Byte>, b: seq<Byte>, from: nat, n: nat, lo: nat, hi: nat)
    requires |a| == |b| && from + n <= |a| && lo <= hi <= |a| && (hi <= from || from + n <= lo)
    requires a[..from] == b[..from] && a[from + n..] == b[from + n..]
    ensures a[lo..hi] == b[lo..hi]
  {
    forall i | lo <= i < hi ensures a[i] == b[i] {
      if hi <= from {
        assert a[..from][i] == b[..from][i];
      } else {
        assert a[from + n..][i - from - n] == b[from + n..][i - from - n];
      }
    }
  }

  /** memcpy between ranges that do not overlap. */
  method CopyBytes(from: array<Byte>, start: nat, to: array<Byte>, target: nat, n: nat)
    requires start + n <= from.Length && target + n <= to.Length
    requires from != to || start + n <= target || target + n <= start
    modifies to
    ensures to[target..target + n] == old(from[start..start + n])
    ensures to[..target] == old(to[..target]) && to[target + n..] == old(to[target + n..])
  {
    for i := 0 to n
      invariant to[target..target + i] == old(from[start..start + i])
      invariant to[..target] == old(to[..target]) && to[target + i..] == old(to[target + i..])
      invariant from[start..start + n] == old(from[start..start + n])
    {
      assert from[start..start + n][i] == old(from[start..start + n])[i];
      to[target + i] := from[start + i];
    }
  }
}
