/**
 The geometry of the chunk heap: blocks obtained from the system, and the chunks that tile those blocks
 that are designated for chunks.  Nothing here looks at memory.
 */
module ChunkTiling {
  import opened SizeClasses

  /** `prev` is the chunk just before this one in its block, 0 for the first. */
  datatype Chunk = Chunk(size: int, used: bool, block: int, prev: int)

  /** What a block is designated for.  A brick block has bricks in use (`live`), a stack of freed ones
      (`free`, last one on top), and `left` bricks, from `frontier` on, that were never handed out. */
  datatype Use = Spare | Chunked | Bricked(bin: nat, live: set<int>, free: seq<int>, frontier: int, left: nat)

  datatype Block = Block(size: int, use: Use)

  type Chunks = map<int, Chunk>
  type Blocks = map<int, Block>

  // ---------------------------------------------------------------- blocks

  ghost predicate BlockOk(blocks: Blocks, b: int) {
    && b in blocks
    && 0 < b && Aligned(b) && Aligned(blocks[b].size) && BlockDefault <= blocks[b].size
    && (blocks[b].use.Chunked? || blocks[b].size == BlockDefault)
  }

  ghost predicate BlocksApart(blocks: Blocks, b: int, c: int) {
    b in blocks && c in blocks && (b == c || b + blocks[b].size <= c || c + blocks[c].size <= b)
  }

  ghost predicate BlocksOk(blocks: Blocks) {
    && (forall b {:trigger BlockOk(blocks, b)} :: b in blocks ==> BlockOk(blocks, b))
    && (forall b, c {:trigger BlocksApart(blocks, b, c)} :: b in blocks && c in blocks ==> BlocksApart(blocks, b, c))
  }

  /** A block that goes, or loses its designation, leaves the others apart. */
  lemma CloseBlocks(blocks: Blocks, b: int, bs: Blocks)
    requires BlocksOk(blocks) && b in blocks
    requires bs == blocks - {b} || (bs == blocks[b := Block(BlockDefault, Spare)] && blocks[b].size == BlockDefault)
    ensures BlocksOk(bs)
  {
    forall k | k in bs ensures BlockOk(bs, k) { assert BlockOk(blocks, k); }
    forall k, l | k in bs && l in bs ensures BlocksApart(bs, k, l) { assert BlocksApart(blocks, k, l); }
  }

  /** The word after the last chunk. */
  function End(blocks: Blocks, b: int): int
    requires b in blocks
  {
    b + blocks[b].size - 24
  }

  predicate IsChunked(blocks: Blocks, b: int) { b in blocks && blocks[b].use.Chunked? }

  // ---------------------------------------------------------------- chunks

  function After(chunks: Chunks, a: int): int
    requires a in chunks
  {
    a + chunks[a].size
  }

  /** A chunk lies in a chunk block and meets its neighbours there. */
  ghost predicate Placed(chunks: Chunks, blocks: Blocks, a: int) {
    a in chunks &&
    var c, n := chunks[a], After(chunks, a);
    && IsChunked(blocks, c.block) && 0 < c.block
    && Aligned(a) && Aligned(c.size) && ChunkMin <= c.size
    && c.block + 8 <= a && n <= End(blocks, c.block)
    && (if a == c.block + 8 then c.prev == 0
        else c.prev in chunks && chunks[c.prev].block == c.block && After(chunks, c.prev) == a)
    && (n < End(blocks, c.block) ==> n in chunks && chunks[n].block == c.block && chunks[n].prev == a)
  }

  ghost predicate Apart(chunks: Chunks, a: int, b: int) {
    a in chunks && b in chunks && (a == b || After(chunks, a) <= b || After(chunks, b) <= a)
  }

  ghost predicate Begun(chunks: Chunks, blocks: Blocks, b: int) {
    b + 8 in chunks && chunks[b + 8].block == b
  }

  ghost predicate Tiled(chunks: Chunks, blocks: Blocks) {
    && (forall a {:trigger Placed(chunks, blocks, a)} :: a in chunks ==> Placed(chunks, blocks, a))
    && (forall a, b {:trigger Apart(chunks, a, b)} :: a in chunks && b in chunks ==> Apart(chunks, a, b))
    && (forall b {:trigger Begun(chunks, blocks, b)} :: IsChunked(blocks, b) ==> Begun(chunks, blocks, b))
  }

  /** Chunks do not overlap, and none is empty. */
  lemma InOrder(chunks: Chunks, blocks: Blocks, a: int, b: int)
    requires Tiled(chunks, blocks) && a in chunks && b in chunks
    ensures a == b || After(chunks, a) <= b || After(chunks, b) <= a
    ensures ChunkMin <= chunks[a].size && ChunkMin <= chunks[b].size
  {
    assert Placed(chunks, blocks, a) && Placed(chunks, blocks, b) && Apart(chunks, a, b);
  }

  /** Chunks tile: every byte between the ends of a chunk block is in exactly one of its chunks. */
  lemma TilesExactly(chunks: Chunks, blocks: Blocks, b: int, x: int)
    requires Tiled(chunks, blocks) && BlocksOk(blocks) && IsChunked(blocks, b) && b + 8 <= x < End(blocks, b)
    ensures exists a :: a in chunks && chunks[a].block == b && a <= x < After(chunks, a)
    ensures forall a, c :: a in chunks && c in chunks && a <= x < After(chunks, a) && c <= x < After(chunks, c) ==>
      a == c
  {
    assert Begun(chunks, blocks, b);
    var a := CoverFrom(chunks, blocks, b + 8, x);
    forall a, c | a in chunks && c in chunks && a <= x < After(chunks, a) && c <= x < After(chunks, c) ensures a == c {
      assert Apart(chunks, a, c);
    }
  }

  lemma {:induction false} CoverFrom(chunks: Chunks, blocks: Blocks, a: int, x: int) returns (c: int)
    requires Tiled(chunks, blocks) && a in chunks && chunks[a].block in blocks && a <= x < End(blocks, chunks[a].block)
    ensures c in chunks && chunks[c].block == chunks[a].block && c <= x < After(chunks, c)
    decreases x - a
  {
    assert Placed(chunks, blocks, a);
    if x < After(chunks, a) { c := a; } else { c := CoverFrom(chunks, blocks, After(chunks, a), x); }
  }

  /** Chunks do not contain the words at either end of any block. */
  lemma EdgesOutside(chunks: Chunks, blocks: Blocks, a: int, b: int)
    requires Tiled(chunks, blocks) && BlocksOk(blocks) && a in chunks && b in blocks
    ensures !(a <= b < After(chunks, a)) && !(a <= End(blocks, b) < After(chunks, a))
    ensures blocks[b].use.Chunked? || After(chunks, a) <= b || b + blocks[b].size <= a
  {
    assert Placed(chunks, blocks, a);
    assert BlocksApart(blocks, chunks[a].block, b);
    assert BlockOk(blocks, b) && BlockOk(blocks, chunks[a].block);
  }

  // ---------------------------------------------------------------- changes

  /** Whoever follows `old` now follows `new_`. */
  function Repoint(chunks: Chunks, n: int, old_: int, new_: int): Chunks {
    if n in chunks && chunks[n].prev == old_ then chunks[n := chunks[n].(prev := new_)] else chunks
  }

  /** `a` and the chunk after it become one chunk in use. */
  function Merge(chunks: Chunks, a: int): Chunks
    requires a in chunks && After(chunks, a) in chunks
  {
    var b := After(chunks, a);
    Repoint((chunks - {b})[a := chunks[a].(size := chunks[a].size + chunks[b].size, used := true)],
            After(chunks, b), b, a)
  }

  /** The first `s` bytes of `a`, and the rest as a chunk of its own, both in use. */
  function Split(chunks: Chunks, a: int, s: int): Chunks
    requires a in chunks
  {
    var c := chunks[a];
    var left := Repoint(chunks, a + c.size, a, a + s)[a := c.(size := s, used := true)];
    left[a + s := Chunk(c.size - s, true, c.block, a)]
  }

  function Mark(chunks: Chunks, a: int, used: bool): Chunks
    requires a in chunks
  {
    chunks[a := chunks[a].(used := used)]
  }

  lemma MarkTiled(chunks: Chunks, blocks: Blocks, a: int, used: bool)
    requires Tiled(chunks, blocks) && a in chunks
    ensures Tiled(Mark(chunks, a, used), blocks)
  {
    var cs := Mark(chunks, a, used);
    forall x | x in cs ensures Placed(cs, blocks, x) { assert Placed(chunks, blocks, x); }
    forall x, y | x in cs && y in cs ensures Apart(cs, x, y) { assert Apart(chunks, x, y); }
    forall b | IsChunked(blocks, b) ensures Begun(cs, blocks, b) { assert Begun(chunks, blocks, b); }
  }

  lemma MergePlaced(chunks: Chunks, blocks: Blocks, a: int, x: int)
    requires Tiled(chunks, blocks) && a in chunks && After(chunks, a) in chunks
    requires chunks[After(chunks, a)].prev == a && x in Merge(chunks, a)
    ensures Placed(Merge(chunks, a), blocks, x)
  {
    hide Tiled, Aligned;
    var b := After(chunks, a);
    PlacedAt(chunks, blocks, a);
    PlacedAt(chunks, blocks, b);
    PlacedAt(chunks, blocks, x);
    AlignedSum(chunks[a].size, chunks[b].size);
    InOrder(chunks, blocks, a, x);
    InOrder(chunks, blocks, b, x);
    if After(chunks, b) in chunks { PlacedAt(chunks, blocks, After(chunks, b)); }
    if chunks[x].prev in chunks {
      InOrder(chunks, blocks, chunks[x].prev, a);
      InOrder(chunks, blocks, chunks[x].prev, b);
    }
  }

  lemma PlacedAt(chunks: Chunks, blocks: Blocks, a: int)
    requires Tiled(chunks, blocks) && a in chunks
    ensures Placed(chunks, blocks, a)
  {
  }

  lemma MergeTiled(chunks: Chunks, blocks: Blocks, a: int)
    requires Tiled(chunks, blocks) && a in chunks && After(chunks, a) in chunks && chunks[After(chunks, a)].prev == a
    ensures Tiled(Merge(chunks, a), blocks)
  {
    var b, cs := After(chunks, a), Merge(chunks, a);
    assert Placed(chunks, blocks, a) && Placed(chunks, blocks, b);
    forall x | x in cs ensures Placed(cs, blocks, x) { MergePlaced(chunks, blocks, a, x); }
    forall x, y | x in cs && y in cs ensures Apart(cs, x, y) {
      InOrder(chunks, blocks, x, y);
      InOrder(chunks, blocks, b, x);
      InOrder(chunks, blocks, b, y);
    }
    forall k | IsChunked(blocks, k) ensures Begun(cs, blocks, k) { assert Begun(chunks, blocks, k); }
  }

  lemma SplitPlaced(chunks: Chunks, blocks: Blocks, a: int, s: int, x: int)
    requires Tiled(chunks, blocks) && a in chunks && Aligned(s) && ChunkMin <= s <= chunks[a].size - ChunkMin
    requires x in Split(chunks, a, s) && a + s !in chunks
    ensures Placed(Split(chunks, a, s), blocks, x)
  {
    hide Tiled, Aligned;
    PlacedAt(chunks, blocks, a);
    AlignedSum(a, s);
    AlignedSum(chunks[a].size, s);
    if After(chunks, a) in chunks { PlacedAt(chunks, blocks, After(chunks, a)); }
    if x in chunks {
      PlacedAt(chunks, blocks, x);
      InOrder(chunks, blocks, a, x);
      if chunks[x].prev in chunks { InOrder(chunks, blocks, chunks[x].prev, a); }
    }
  }

  lemma SplitTiled(chunks: Chunks, blocks: Blocks, a: int, s: int)
    requires Tiled(chunks, blocks) && a in chunks && Aligned(s) && ChunkMin <= s <= chunks[a].size - ChunkMin
    ensures Tiled(Split(chunks, a, s), blocks) && a + s !in chunks
  {
    var cs := Split(chunks, a, s);
    assert Placed(chunks, blocks, a);
    if a + s in chunks { InOrder(chunks, blocks, a, a + s); }
    forall x | x in cs ensures Placed(cs, blocks, x) { SplitPlaced(chunks, blocks, a, s, x); }
    forall x, y | x in cs && y in cs ensures Apart(cs, x, y) { SplitApart(chunks, blocks, a, s, x, y); }
    forall k | IsChunked(blocks, k) ensures Begun(cs, blocks, k) { assert Begun(chunks, blocks, k); }
  }

  lemma SplitApart(chunks: Chunks, blocks: Blocks, a: int, s: int, x: int, y: int)
    requires Tiled(chunks, blocks) && a in chunks && ChunkMin <= s <= chunks[a].size - ChunkMin
    requires a + s !in chunks && x in Split(chunks, a, s) && y in Split(chunks, a, s)
    ensures Apart(Split(chunks, a, s), x, y)
  {
    hide Tiled;
    if x in chunks { InOrder(chunks, blocks, x, a); }
    if y in chunks { InOrder(chunks, blocks, y, a); }
    if x in chunks && y in chunks { InOrder(chunks, blocks, x, y); }
  }

  /** A block for chunks, to start with all one chunk in use. */
  lemma OpenTiled(chunks: Chunks, blocks: Blocks, b: int, size: int)
    requires Tiled(chunks, blocks) && !IsChunked(blocks, b) && 0 < b && 64 <= size && Aligned(b) && Aligned(size)
    requires BlocksOk(blocks[b := Block(size, Chunked)])
    ensures Tiled(chunks[b + 8 := Chunk(size - 32, true, b, 0)], blocks[b := Block(size, Chunked)])
    ensures b + 8 !in chunks
  {
    var cs, bs := chunks[b + 8 := Chunk(size - 32, true, b, 0)], blocks[b := Block(size, Chunked)];
    forall x | x in chunks ensures x != b + 8 && (After(chunks, x) <= b || b + size <= x) {
      assert Placed(chunks, blocks, x);
      assert BlocksApart(bs, chunks[x].block, b);
    }
    forall x | x in cs ensures Placed(cs, bs, x) {
      if x in chunks { assert Placed(chunks, blocks, x); }
    }
    forall x, y | x in cs && y in cs ensures Apart(cs, x, y) {
      if x in chunks && y in chunks { assert Apart(chunks, x, y); }
    }
    forall k | IsChunked(bs, k) ensures Begun(cs, bs, k) {
      if k != b { assert Begun(chunks, blocks, k); }
    }
  }

  /** Closing a block that is all one chunk, whether the block is kept or given back. */
  lemma CloseTiled(chunks: Chunks, blocks: Blocks, b: int, bs: Blocks)
    requires Tiled(chunks, blocks) && IsChunked(blocks, b) && b + 8 in chunks
    requires chunks[b + 8].block == b && After(chunks, b + 8) == End(blocks, b)
    requires bs == blocks - {b} || bs == blocks[b := blocks[b].(use := Spare)]
    ensures Tiled(chunks - {b + 8}, bs)
  {
    var cs := chunks - {b + 8};
    forall x | x in cs ensures chunks[x].block != b && Placed(cs, bs, x) {
      assert Placed(chunks, blocks, x) && Apart(chunks, x, b + 8) && Placed(chunks, blocks, b + 8);
    }
    forall x, y | x in cs && y in cs ensures Apart(cs, x, y) { assert Apart(chunks, x, y); }
    forall k | IsChunked(bs, k) ensures Begun(cs, bs, k) { assert Begun(chunks, blocks, k); }
  }
}
