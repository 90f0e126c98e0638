/** MemoryPoolAllocator: blocks cut one after another from chunks; the last one can grow in place. */
module PoolAllocator {

  type Byte = bv8

  /** RAPIDJSON_ALIGN: up to the next multiple of eight. */
  function Align(x: nat): (a: nat)
    ensures a % 8 == 0 && x <= a < x + 8
  {
    (x + 7) / 8 * 8
  }

  /** A chunk behind its header: capacity bytes, of which size are in use. The base allocator aligns it. */
  class Chunk {
    const capacity: nat
    var size: nat
    var bytes: seq<Byte>

    constructor (capacity: nat, bytes: seq<Byte>)
      requires |bytes| == capacity
      ensures this.capacity == capacity && size == 0 && this.bytes == bytes
    {
      this.capacity, size, this.bytes := capacity, 0, bytes;
    }
  }

  /** A block by its address and the size its owner has asked for. */
  datatype Block = Block(chunk: Chunk, offset: nat, size: nat)

  datatype Pointer = Null | To(block: Block)

  predicate Apart(a: Block, b: Block) {
    a.chunk != b.chunk || a.offset + a.size <= b.offset || b.offset + b.size <= a.offset
  }

  ghost predicate Inside(b: Block)
    reads b.chunk
  {
    && b.size > 0 && b.offset % 8 == 0
    && b.offset + Align(b.size) <= b.chunk.size <= b.chunk.capacity == |b.chunk.bytes|
  }

  predicate AllApart(blocks: set<Block>) { forall a <- blocks, b <- blocks :: a != b ==> Apart(a, b) }

  /** One more block, apart from the others. */
  lemma AddApart(blocks: set<Block>, p: Block)
    requires AllApart(blocks) && forall a <- blocks :: Apart(a, p)
    ensures AllApart(blocks + {p})
  {}

  lemma RemoveApart(blocks: set<Block>, b: Block)
    requires AllApart(blocks)
    ensures AllApart(blocks - {b})
  {}

  lemma ApartFrom(blocks: set<Block>, a: Block, b: Block)
    requires AllApart(blocks) && a in blocks && b in blocks && a != b
    ensures Apart(a, b)
  {}

  /** A block that grows up to the space it has been given. */
  lemma GrownApart(a: Block, b: Block, size: nat)
    requires Apart(a, b) && a.size > 0 && a.offset % 8 == 0 && b.offset % 8 == 0 && size <= Align(b.size)
    ensures Apart(a, b.(size := size))
  {
    hide Align;
    LeastMultiple(b.size, a.offset - b.offset);
  }

  /** A block that ends where all blocks of its chunk end may grow at will. */
  lemma LastApart(a: Block, b: Block, size: nat)
    requires Apart(a, b) && a.size > 0 && a.offset % 8 == 0 && b.offset % 8 == 0
    requires a.chunk == b.chunk ==> a.offset + Align(a.size) <= b.offset + Align(b.size)
    ensures Apart(a, b.(size := size))
  {
    hide Align;
    LeastMultiple(b.size, a.offset - b.offset);
  }

  lemma LeastMultiple(s: nat, m: int)
    ensures m % 8 == 0 && s <= m ==> Align(s) <= m
  {}

  /** What a block holds. */
  ghost function Contents(b: Block): seq<Byte>
    reads b.chunk
  {
    if b.offset + b.size <= |b.chunk.bytes| then b.chunk.bytes[b.offset..b.offset + b.size] else []
  }

  /** The first n bytes, or all. */
  function First(t: seq<Byte>, n: nat): seq<Byte> { if n <= |t| then t[..n] else t }

  class Pool {
    const chunkCapacity: nat
    const hasUserBuffer: bool
    /** The head of the list, which alone serves allocation, comes last. */
    var chunks: seq<Chunk>
    ghost var blocks: set<Block>

    ghost function Chunks(): set<Chunk>
      reads this
    {
      set c | c in chunks
    }

    /** The live blocks are aligned, inside their chunks and apart from one another. */
    ghost predicate Valid()
      reads this, Chunks()
    {
      && (hasUserBuffer ==> chunks != [])
      && (forall c <- chunks :: c.size % 8 == 0 && c.size <= c.capacity == |c.bytes|)
      && (forall b <- blocks :: b.chunk in chunks && Inside(b))
      && AllApart(blocks)
    }

    constructor (chunkCapacity: nat)
      ensures Valid() && blocks == {} && chunks == [] && this.chunkCapacity == chunkCapacity && !hasUserBuffer
    {
      this.chunkCapacity, hasUserBuffer := chunkCapacity, false;
      chunks, blocks := [], {};
    }

    constructor OverBuffer(buffer: Chunk, chunkCapacity: nat)
      requires buffer.size == 0 && |buffer.bytes| == buffer.capacity
      ensures Valid() && blocks == {} && chunks == [buffer] && this.chunkCapacity == chunkCapacity && hasUserBuffer
    {
      this.chunkCapacity, hasUserBuffer := chunkCapacity, true;
      chunks, blocks := [buffer], {};
    }

    /** Every chunk there was holds what it held. */
    twostate predicate BytesKept()
      reads this, Chunks()
    {
      forall c | c in old(chunks) :: c in chunks && c.bytes == old(c.bytes)
    }

    /** A new chunk, if the base allocator has one; what it holds is arbitrary. */
    method AddChunk(capacity: nat, available: bool, bytes: seq<Byte>) returns (ok: bool)
      requires Valid() && (available ==> |bytes| == capacity)
      modifies this
      ensures Valid() && blocks == old(blocks) && ok == available
      ensures if ok then
          && |chunks| == |old(chunks)| + 1 && chunks[..|old(chunks)|] == old(chunks)
          && var c := chunks[|old(chunks)|]; fresh(c) && c.capacity == capacity && c.size == 0
        else chunks == old(chunks)
    {
      ok := available;
      if ok {
        var c := new Chunk(capacity, bytes);
        chunks := chunks + [c];
      }
    }

    /** The chunk that serves allocation. */
    function Head(): Chunk
      requires chunks != []
      reads this
    {
      chunks[|chunks| - 1]
    }

    /** Whether the head chunk has no room for size more bytes. */
    predicate Full(size: nat)
      reads this, if chunks == [] then {} else {Head()}
    {
      chunks == [] || Head().size + size > Head().capacity
    }

    /** Cut a block from the head chunk. */
    method Cut(size: nat) returns (p: Block)
      requires chunks != [] && Valid() && size > 0 && !Full(Align(size))
      modifies this`blocks, Head()`size
      ensures Valid()
      ensures p.size == size && p.chunk in chunks && p !in old(blocks) && blocks == old(blocks) + {p}
    {
      hide Align, AllApart, Apart;
      var c := Head();
      p := Block(c, c.size, size);
      ghost var before := blocks;
      FreshApart(size);
      AddApart(before, p);
      c.size := c.size + Align(size);
      blocks := blocks + {p};
      forall b | b in before ensures Inside(b) {
        assert old(Inside(b));
      }
    }

    /** Behind all blocks of the head chunk there is none. */
    lemma FreshApart(size: nat)
      requires chunks != [] && Valid() && size > 0
      ensures forall b | b in blocks :: Apart(b, Block(Head(), Head().size, size)) && b != Block(Head(), Head().size, size)
    {
      hide Align, AllApart;
      forall b | b in blocks
        ensures Apart(b, Block(Head(), Head().size, size)) && b != Block(Head(), Head().size, size)
      {
        assert Inside(b);
      }
    }

    /** A block of its own for size bytes; nothing for no bytes, or when there is no chunk to be had. */
    method Malloc(size: nat, available: bool, bytes: seq<Byte>) returns (p: Pointer)
      requires Valid()
      requires available ==> |bytes| == if chunkCapacity > Align(size) then chunkCapacity else Align(size)
      modifies this, Chunks()
      ensures Valid() && BytesKept()
      ensures forall c <- chunks :: c in old(chunks) || fresh(c)
      ensures p.Null? <==> size == 0 || (old(Full(Align(size))) && !available)
      ensures p.Null? ==> blocks == old(blocks)
      ensures p.To? ==> p.block.size == size && p.block !in old(blocks) && blocks == old(blocks) + {p.block}
    {
      if size == 0 {
        return Null;
      }
      var aligned := Align(size);
      if Full(aligned) {
        var ok := AddChunk(if chunkCapacity > aligned then chunkCapacity else aligned, available, bytes);
        if !ok {
          return Null;
        }
      }
      var b := Cut(size);
      p := To(b);
    }

    /** Release all blocks; a user-supplied buffer stays. */
    method Clear()
      requires Valid()
      modifies this, Chunks()
      ensures Valid() && blocks == {}
      ensures chunks == if hasUserBuffer then [old(chunks)[0]] else []
      ensures hasUserBuffer ==> chunks[0].size == 0
    {
      blocks := {};
      while chunks != [] && !(hasUserBuffer && |chunks| == 1)
        invariant Valid() && blocks == {} && chunks <= old(chunks)
        decreases |chunks|
      {
        chunks := chunks[..|chunks| - 1];
      }
      if chunks != [] {
        chunks[0].size := 0;
      }
    }

    /** Whether a block is the last one of the head chunk. */
    predicate IsLast(b: Block)
      reads this, b.chunk
    {
      chunks != [] && b.chunk == Head() && b.offset + Align(b.size) == b.chunk.size
    }

    /** Let the last block grow in place. */
    method Extend(b: Block, newSize: nat) returns (p: Block)
      requires Valid() && b in blocks && IsLast(b) && Align(b.size) < Align(newSize)
      requires b.chunk.size + (Align(newSize) - Align(b.size)) <= b.chunk.capacity
      modifies this`blocks, b.chunk`size
      ensures Valid()
      ensures p == b.(size := newSize) && blocks == old(blocks) - {b} + {p}
    {
      p := b.(size := newSize);
      ghost var before := blocks - {b};
      OthersApart(b, newSize);
      RemoveApart(blocks, b);
      AddApart(before, p);
      hide AllApart, Apart, Align;
      assert Inside(b);
      b.chunk.size := b.chunk.size + (Align(newSize) - Align(b.size));
      blocks := before + {p};
      forall a | a in before ensures Inside(a) {
        assert old(Inside(a));
      }
    }

    /** The last block may grow at will. */
    lemma OthersApart(b: Block, newSize: nat)
      requires Valid() && b in blocks && IsLast(b)
      ensures forall a | a in blocks - {b} :: Apart(a, b.(size := newSize))
    {
      hide AllApart, Apart, Align;
      forall a | a in blocks - {b} ensures Apart(a, b.(size := newSize)) {
        ApartFrom(blocks, a, b);
        assert Inside(a) && Inside(b);
        LastApart(a, b, newSize);
      }
    }

    /** The owner of a block asks for another size that fits where it is. */
    ghost method Resize(b: Block, newSize: nat) returns (p: Block)
      requires Valid() && b in blocks && 0 < newSize && Align(newSize) <= Align(b.size)
      modifies this`blocks
      ensures Valid() && p == b.(size := newSize) && blocks == old(blocks) - {b} + {p}
    {
      p := b.(size := newSize);
      ghost var before := blocks - {b};
      forall a | a in before ensures Apart(a, p) {
        ApartFrom(blocks, a, b);
        assert Inside(a) && Inside(b);
        GrownApart(a, b, newSize);
      }
      RemoveApart(blocks, b);
      AddApart(before, p);
      hide AllApart, Apart;
      assert Inside(b);
      blocks := before + {p};
    }

    /** memcpy of n bytes from one block to another. */
    method Copy(to: Block, from: Block, n: nat)
      requires Valid() && to in blocks && from in blocks && to != from
      requires from.size <= n <= Align(from.size) && n <= to.size
      modifies to.chunk`bytes
      ensures Valid() && old(Contents(from)) <= Contents(to)
      ensures forall a | a in blocks - {to} :: Contents(a) == old(Contents(a))
    {
      hide AllApart;
      assert Inside(to) && Inside(from);
      var c := to.chunk;
      ghost var b0 := c.bytes;
      var t := from.chunk.bytes[from.offset..from.offset + n];
      c.bytes := c.bytes[..to.offset] + t + c.bytes[to.offset + n..];
      Copied(b0, to.offset, t, to.offset, to.size);
      assert t[..from.size] == old(Contents(from)) && Contents(to)[..n][..from.size] == Contents(to)[..from.size];
      forall a | a in blocks - {to} ensures Contents(a) == old(Contents(a)) {
        assert old(Inside(a));
        ApartFrom(blocks, a, to);
        if a.chunk == c {
          CopiedApart(b0, to.offset, t, a.offset, a.size);
        }
      }
      forall a | a in blocks ensures Inside(a) {
        assert old(Inside(a));
      }
    }

    /** Allocate a new block and copy the old one. */
    method Move(b: Block, newSize: nat, available: bool, bytes: seq<Byte>) returns (p: Pointer)
      requires Valid() && b in blocks && Align(b.size) < Align(newSize)
      requires available ==> |bytes| == if chunkCapacity > Align(newSize) then chunkCapacity else Align(newSize)
      modifies this, Chunks()
      ensures Valid()
      ensures p.Null? <==> old(Full(Align(newSize))) && !available
      ensures p.Null? ==> blocks == old(blocks)
      ensures p.To? ==>
        && p.block.size == newSize && p.block !in old(blocks) && blocks == old(blocks) - {b} + {p.block}
        && |Contents(p.block)| == newSize && old(Contents(b)) <= Contents(p.block)
      ensures forall a | a in old(blocks) && (p.To? ==> a != b) :: Contents(a) == old(Contents(a))
    {
      ghost var before := blocks;
      p := Malloc(newSize, available, bytes);
      forall a | a in before ensures Contents(a) == old(Contents(a)) {
        assert a in blocks && a.chunk in old(chunks);
      }
      if p.To? {
        assert Inside(b) && Inside(p.block);
        AlignStep(b.size, newSize);
        Copy(p.block, b, Align(b.size));
        blocks := blocks - {b};
      }
    }

    /** Whether a block can grow where it is. */
    predicate CanExtend(b: Block, newSize: nat)
      reads this, b.chunk
    {
      IsLast(b) && b.chunk.size + (Align(newSize) - Align(b.size)) <= b.chunk.capacity
    }

    /** Give a block another size. It stays where it is when that fits its space or it can grow at the end of
        the head chunk, and only then; otherwise it moves. Contents are kept as far as both sizes go, and those of
        all other blocks. Size 0 gives nothing, and the owner has lost the block; when there is no chunk to be had
        the block stays. */
    method ReallocBlock(b: Block, newSize: nat, available: bool, bytes: seq<Byte>) returns (p: Pointer)
      requires Valid() && b in blocks
      requires available ==> |bytes| == if chunkCapacity > Align(newSize) then chunkCapacity else Align(newSize)
      modifies this, Chunks()
      ensures Valid()
      ensures p.Null? ==> blocks == if newSize == 0 then old(blocks) - {b} else old(blocks)
      ensures p.To? ==> p.block.size == newSize && blocks == old(blocks) - {b} + {p.block} && p.block !in old(blocks) - {b}
      ensures p.To? ==> |Contents(p.block)| == newSize && First(old(Contents(b)), newSize) <= Contents(p.block)
      ensures forall a | a in old(blocks) - {b} :: Contents(a) == old(Contents(a))
      ensures newSize == 0 ==> p.Null?
      ensures newSize > 0 ==>
        if Align(newSize) <= Align(b.size) || old(CanExtend(b, newSize)) then p == To(b.(size := newSize))
        else (p.Null? <==> old(Full(Align(newSize))) && !available) && (p.To? ==> p.block !in old(blocks))
    {
      assert Inside(b);
      if newSize == 0 {
        hide AllApart, Apart;
        RemoveApart(blocks, b);
        blocks := blocks - {b};
        return Null;
      }
      if Align(b.size) >= Align(newSize) {
        ghost var q := Resize(b, newSize);
        KeptInPlace(b, newSize);
        ResizedNew(old(blocks), b, newSize);
        return To(b.(size := newSize));
      }
      if CanExtend(b, newSize) {
        ResizedNew(blocks, b, newSize);
        var q := Extend(b, newSize);
        KeptInPlace(b, newSize);
        return To(q);
      }
      AlignStep(b.size, newSize);
      p := Move(b, newSize, available, bytes);
    }

    /** No address at all asks for a new block. */
    method Realloc(original: Pointer, newSize: nat, available: bool, bytes: seq<Byte>) returns (p: Pointer)
      requires Valid() && (original.To? ==> original.block in blocks)
      requires available ==> |bytes| == if chunkCapacity > Align(newSize) then chunkCapacity else Align(newSize)
      modifies this, Chunks()
      ensures Valid() && (newSize == 0 ==> p.Null?)
      ensures p.To? ==>
        && p.block.size == newSize && blocks == old(blocks) - Blocks(original) + {p.block}
        && p.block !in old(blocks) - Blocks(original) && |Contents(p.block)| == newSize
      ensures p.Null? ==> blocks == if newSize == 0 then old(blocks) - Blocks(original) else old(blocks)
      ensures forall a | a in old(blocks) - Blocks(original) :: Contents(a) == old(Contents(a))
      ensures original.Null? ==>
        (p.Null? <==> newSize == 0 || (old(Full(Align(newSize))) && !available)) && (p.To? ==> p.block !in old(blocks))
      ensures original.To? && newSize > 0 ==>
        var b := original.block;
        && (p.To? ==> First(old(Contents(b)), newSize) <= Contents(p.block))
        && if Align(newSize) <= Align(b.size) || old(CanExtend(b, newSize)) then p == To(b.(size := newSize))
           else (p.Null? <==> old(Full(Align(newSize))) && !available) && (p.To? ==> p.block !in old(blocks))
    {
      hide AllApart, Align, First;
      if original.Null? {
        ghost var before := blocks;
        p := Malloc(newSize, available, bytes);
        forall a | a in before ensures Contents(a) == old(Contents(a)) {
          assert a in blocks && a.chunk in old(chunks);
        }
        if p.To? {
          assert Inside(p.block);
        }
        return;
      }
      p := ReallocBlock(original.block, newSize, available, bytes);
    }
  }

  function Blocks(p: Pointer): set<Block> { if p.To? then {p.block} else {} }

  /** The start of a block does not depend on its size. */
  lemma KeptInPlace(b: Block, size: nat)
    requires b.offset + b.size <= |b.chunk.bytes| && b.offset + size <= |b.chunk.bytes|
    ensures First(Contents(b), size) <= Contents(b.(size := size))
  {}

  /** A resized block is no other live one. */
  lemma ResizedNew(blocks: set<Block>, b: Block, size: nat)
    requires AllApart(blocks) && b in blocks && b.size > 0 && (forall a <- blocks :: a.size > 0)
    ensures b.(size := size) !in blocks - {b}
  {}

  lemma AlignStep(m: nat, n: nat)
    requires Align(m) < Align(n)
    ensures Align(m) <= n
  {}

  lemma Copied(b: seq<Byte>, at: nat, t: seq<Byte>, offset: nat, size: nat)
    requires at == offset && |t| <= size && offset + size <= |b|
    ensures
      var b1 := b[..at] + t + b[at + |t|..];
      |b1| == |b| && |b1[offset..offset + size]| == size && b1[offset..offset + size][..|t|] == t
  {}

  lemma CopiedApart(b: seq<Byte>, at: nat, t: seq<Byte>, offset: nat, size: nat)
    requires at + |t| <= |b| && offset + size <= |b| && (offset + size <= at || at + |t| <= offset)
    ensures (b[..at] + t + b[at + |t|..])[offset..offset + size] == b[offset..offset + size]
  {}
}