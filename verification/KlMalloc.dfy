/**
 The allocator: `kl_mem_t` with its bins, its stack of undesignated blocks and its accounting, and the
 operations that hand out and take back bricks and chunks.
 */
module KlMalloc {
  import opened SizeClasses
  import opened FreeLists
  import opened ChunkTiling
  import opened ChunkHeap
  import opened BrickHeap
  import opened Grants
  import opened Bookkeeping

  /** What `KL_malloc` comes to. */
  datatype Outcome = Null | AssertFails | Got(ptr: int)

  class KlMem {
    var w: Memory
    var chunkBin: seq<int>
    var brickBin: seq<int>
    var undes: seq<int>
    var memTotal: int
    var memMax: int
    var sysCtr: nat
    ghost var chunks: Chunks
    ghost var nodes: map<int, Node>
    ghost var brickNodes: map<int, Node>
    ghost var blocks: Blocks

    /** What callers hold, by pointer. */
    ghost var grants: map<int, Grant>

    ghost function H(): Heap reads this { Heap(w, chunkBin, nodes, chunks, blocks) }

    /** Everything is in order, while chunk `f` (0 for none) is being worked on. */
    ghost predicate Sound(f: int) reads this {
      && HeapOk(H(), f) && BrickInv(w, brickBin, brickNodes, blocks, 0)
      && UndesOk(undes, blocks) && memTotal == TotalSize(blocks)
    }

    /** Between calls: both heaps in order, and in use exactly what has been granted. */
    ghost predicate Valid() reads this { Sound(0) && Granted(grants, chunks, blocks) }

    /** An allocator that holds no memory. */
    constructor ()
      ensures Valid() && grants == map[] && memTotal == 0 && undes == []
    {
      w, undes, memTotal, memMax, sysCtr := map[], [], 0, 0, 0;
      chunkBin, brickBin := seq(BinCount, _ => 0), seq(BrickBinCount, _ => 0);
      chunks, nodes, brickNodes, blocks, grants := map[], map[], map[], map[], map[];
    }

    /** `KL_G_SIZE`: a brick's size comes from its block's header, a chunk's from its own. */
    function GSize(a: int): int reads this {
      if Rd(w, a) % 2 == 1 then (Rd(w, Rd(w, a) - 1) / CountRange + 1) * 8 else Rd(w, a)
    }

    // -------------------------------------------------------------- blocks held

    /** No block is taken from the system or the stack, and none given to either. */
    twostate predicate SameBlocks() reads this {
      && undes == old(undes) && blocks.Keys == old(blocks).Keys
      && memTotal == old(memTotal) && memMax == old(memMax) && sysCtr == old(sysCtr)
    }

    /** A block of `size` bytes at `base` has come from the system. */
    twostate predicate BlockAdded(base: int, size: int) reads this {
      && undes == old(undes) && blocks.Keys == old(blocks).Keys + {base}
      && memTotal == old(memTotal) + size && sysCtr == old(sysCtr) + 1
      && memMax == if memTotal > old(memMax) then memTotal else old(memMax)
    }

    /** One block has been put to use: the top of the stack or, only if that was empty, a new one. */
    twostate predicate BlockTaken(base: int) reads this {
      if old(undes) == [] then BlockAdded(base, BlockDefault)
      else
        && undes == old(undes)[..|old(undes)| - 1] && blocks.Keys == old(blocks).Keys
        && memTotal == old(memTotal) && memMax == old(memMax) && sysCtr == old(sysCtr)
    }

    /** Block `b` has gone on the stack if it is of the default size and there was room, and else to the system. */
    twostate predicate BlockReleased(b: int) reads this {
      && memMax == old(memMax) && sysCtr == old(sysCtr) && b in old(blocks)
      && if |old(undes)| < UndesMax && old(blocks)[b].size == BlockDefault then
           undes == old(undes) + [b] && memTotal == old(memTotal) && blocks.Keys == old(blocks).Keys
         else
           && undes == old(undes) && blocks.Keys == old(blocks).Keys - {b}
           && memTotal == old(memTotal) - old(blocks)[b].size
    }

    /** Where the memory for a request of `size` bytes has come from: what is held already serves if a brick block of
        the class has bricks to give or a bin holds a chunk large enough, an undesignated block if there is one, and
        only then the system; a request that does not fit a block gets one of its own. */
    twostate predicate ServedFrom(size: nat, base: int) reads this {
      if size <= BrickMax then
        && BrickBin(size) < |old(brickBin)|
        && if old(brickBin)[BrickBin(size)] != 0 then SameBlocks() else BlockTaken(base)
      else if ChunkSize(size) <= FixedMax then
        if old(Stocked(ChunkSize(size))) then SameBlocks() else BlockTaken(base)
      else
        BlockAdded(base, BlockSize(ChunkSize(size)))
    }

    // -------------------------------------------------------------- chunks

    /** `kl_chunk_del` */
    method ChunkDel(x: int, ghost f: int)
      requires HeapOk(H(), f) && x in nodes
      modifies this`w, this`chunkBin, this`nodes
      ensures x in old(chunks) && 0 < old(chunks)[x].size <= FixedMax && FloorBin(old(chunks)[x].size) < |old(chunkBin)|
      ensures w == Deleted(old(w), x) && nodes == old(nodes) - {x}
      ensures chunkBin == BypassedHeads(old(w), 8, old(chunkBin), FloorBin(old(chunks)[x].size), x)
      ensures old(nodes)[x].bin == FloorBin(old(chunks)[x].size)
    {
      hide Linked, Tiled, Calm, Tagged, BlocksOk, Size2Bin, Bin2Size;
      DeleteKeeps(H(), f, x);
      TagEven(H(), f, x);
      SmallSizes(GSize(x));
      var bidx := Size2Bin(GSize(x));
      if Rd(w, x) < Bin2Size(bidx) && bidx > 0 { bidx := bidx - 1; }
      var p, q := Rd(w, x + 8), Rd(w, x + 16);
      if p == 0 { chunkBin := chunkBin[bidx := q]; } else { w := w[p + 16 := q]; }
      if q != 0 { w := w[q + 8 := p]; }
      w := w[x + 8 := 0];
      w := w[x + 16 := 0];
      nodes := nodes - {x};
    }

    /** First part of `kl_chunk_put`: take in the chunk before, if that is free. */
    method CoalescePrev(c: int) returns (chunk: int)
      requires HeapOk(H(), c) && c != 0
      modifies this`w, this`chunkBin, this`nodes, this`chunks
      ensures HeapOk(H(), chunk) && chunk != 0 && chunk in chunks && PrevUsed(chunks, chunk)
      ensures c in old(chunks) && chunks[chunk].block == old(chunks)[c].block
      ensures Live(chunks, chunk) == old(Live(chunks, c)) && Kept(old(H()), c, old(w), w)
    {
      hide HeapOk, Kept, Live, Deleted, Merge;
      ghost var h := H();
      chunk := c;
      ReadPrev(h, c);
      KeptSame(h, c);
      if Rd(w, chunk - 8) != 8 {
        var prev := chunk - Rd(w, chunk - 8);
        if prev != chunk && Rd(w, prev + GSize(prev) - 8) != 0 {
          AbsorbKeeps(h, c, prev, prev);
          MergedPrev(h, c, prev, prev);
          DeletedHeaders(h, c, prev, prev);
          ChunkDel(prev, c);
          w := w[prev := Rd(w, prev) + Rd(w, chunk)];
          chunks := Merge(chunks, prev);
          chunk := prev;
          assert H() == Absorbed(h, prev, prev);
        }
      }
    }

    /** Second part: take in the chunk after, if that is free. */
    method CoalesceNext(chunk: int)
      requires HeapOk(H(), chunk) && chunk != 0 && chunk in chunks && PrevUsed(chunks, chunk)
      modifies this`w, this`chunkBin, this`nodes, this`chunks
      ensures HeapOk(H(), chunk) && chunk in chunks && PrevUsed(chunks, chunk) && NextUsed(chunks, chunk)
      ensures chunks[chunk].block == old(chunks)[chunk].block
      ensures Live(chunks, chunk) == old(Live(chunks, chunk)) && Kept(old(H()), chunk, old(w), w)
    {
      hide HeapOk, Kept, Live, Deleted, Merge;
      ghost var h := H();
      ReadNext(h, chunk);
      KeptSame(h, chunk);
      if GSize(chunk + GSize(chunk)) != 8 {
        var next := chunk + GSize(chunk);
        if Rd(w, next + GSize(next) - 8) != 0 {
          AbsorbKeeps(h, chunk, chunk, next);
          MergedPrev(h, chunk, chunk, next);
          MergedNext(h, chunk);
          DeletedHeaders(h, chunk, next, chunk);
          ChunkDel(next, chunk);
          w := w[chunk := Rd(w, chunk) + Rd(w, next)];
          chunks := Merge(chunks, chunk);
          assert H() == Absorbed(h, chunk, next);
        }
      }
    }

    /** Last part, for a chunk that is its whole block: the block goes to the undesignated stack, if there is
        room and it is of the default size, or back to the system. */
    method ReleaseChunk(chunk: int)
      requires HeapOk(H(), chunk) && chunk != 0 && chunk in chunks && Whole(chunks, blocks, chunk)
      requires UndesOk(undes, blocks) && memTotal == TotalSize(blocks)
      modifies this`w, this`chunks, this`blocks, this`undes, this`memTotal
      ensures HeapOk(H(), 0) && UndesOk(undes, blocks) && memTotal == TotalSize(blocks)
      ensures Live(chunks, 0) == old(Live(chunks, chunk)) && Kept(old(H()), chunk, old(w), w)
      ensures SameLive(old(blocks), blocks) && BlockReleased(old(chunks)[chunk].block)
      ensures w == if undes == old(undes) then old(w) else Zeroed(old(w), old(chunks)[chunk].block, BlockDefault)
    {
      hide HeapOk, Kept, Live, Linked, UndesOk, TotalSize;
      ghost var h := H();
      WholeTags(h, chunk);
      AlignExact(32 + Rd(w, chunk));
      assert h.chunks[chunk].block in h.blocks;
      var block := chunk - Rd(w, chunk - 8);
      BooksWithout(undes, blocks, block);
      if |undes| < UndesMax && BlockDefault == BlockSize(GSize(chunk)) {
        CloseKeeps(h, chunk, Zeroed(w, block, BlockDefault), blocks[block := blocks[block].(use := Spare)]);
        w := Zeroed(w, block, BlockDefault);
        undes := undes + [block];
        blocks := blocks[block := blocks[block].(use := Spare)];
      } else {
        CloseKeeps(h, chunk, w, blocks - {block});
        memTotal := memTotal - BlockSize(GSize(chunk));
        blocks := blocks - {block};
      }
      chunks := chunks - {chunk};
    }

    /** Last part, for any other chunk: it is marked free and put at the front of its list. */
    method ListChunk(chunk: int)
      requires HeapOk(H(), chunk) && chunk != 0 && chunk in chunks && Isolated(chunks, blocks, chunk)
      requires !Whole(chunks, blocks, chunk)
      modifies this`w, this`chunkBin, this`nodes, this`chunks
      ensures HeapOk(H(), 0) && Live(chunks, 0) == old(Live(chunks, chunk)) && Kept(old(H()), chunk, old(w), w)
      ensures var n := old(chunks)[chunk].size;
        0 < n <= FixedMax && FloorBin(n) < |old(chunkBin)| && chunkBin == old(chunkBin)[FloorBin(n) := chunk]
    {
      hide HeapOk, Kept, Live, Linked, Isolated, Size2Bin, Bin2Size;
      ghost var h := H();
      FreedKeeps(h, chunk);
      TagEven(h, chunk, chunk);
      FooterKeepsHeader(h, chunk);
      w := w[chunk + Rd(w, chunk) - 8 := Rd(w, chunk)];
      SmallSizes(GSize(chunk));
      var bidx := Size2Bin(GSize(chunk));
      if bidx < SmallBins {
        if GSize(chunk) < Bin2Size(bidx) && bidx > 0 { bidx := bidx - 1; }
        nodes := nodes[chunk := Node(bidx, RankAbove(chunkBin, nodes, bidx))];
        w := w[chunk + 8 := 0];
        w := w[chunk + 16 := chunkBin[bidx]];
        if chunkBin[bidx] != 0 { w := w[chunkBin[bidx] + 8 := chunk]; }
        chunkBin := chunkBin[bidx := chunk];
        chunks := Mark(chunks, chunk, false);
      }
      assert H() == Freed(h, chunk);
    }

    /** `kl_chunk_put` */
    method ChunkPut(c: int)
      requires Sound(c) && c != 0
      modifies this`w, this`chunkBin, this`nodes, this`chunks, this`blocks, this`undes, this`memTotal
      ensures Sound(0) && Live(chunks, 0) == old(Live(chunks, c))
      ensures Spared(old(w), w, old(Live(chunks, c))) && SameBricked(old(w), w, old(blocks), blocks)
      ensures c in old(chunks) && old(chunks)[c].block in old(blocks)
      ensures var b := old(chunks)[c].block;
        if Occupied(old(Live(chunks, c)), b, old(blocks)[b].size) then SameBlocks() else BlockReleased(b)
    {
      hide HeapOk, Live, Linked, Spared, BrickInv, UndesOk, Foreign;
      ghost var h0 := H();
      var chunk := CoalescePrev(c);
      ghost var h1 := H();
      CoalesceNext(chunk);
      ghost var h2 := H();
      ReadWhole(h2, chunk);
      WholeExactly(h2, chunk);
      if Rd(w, chunk - 8) == 8 && GSize(chunk + GSize(chunk)) == 8 {
        ReleaseChunk(chunk);
      } else {
        ListChunk(chunk);
      }
      SparedTwice(h0.w, h1.w, h2.w, Live(h0.chunks, c));
      SparedTwice(h0.w, h2.w, w, Live(h0.chunks, c));
      SparedTwice(h0.w, h1.w, h2.w, Foreign(h0.blocks));
      SparedTwice(h0.w, h2.w, w, Foreign(h0.blocks));
      HeapBlocks(h0, c);
      HeapBlocks(H(), 0);
      ForeignBricked(h0.w, w, h0.blocks, blocks);
      BrickFrame(h0.w, w, brickBin, brickNodes, h0.blocks, blocks);
    }

    // -------------------------------------------------------------- blocks

    /** The system could hand out `size` bytes at `base`: aligned, and clear of every block held. */
    ghost predicate Available(base: int, size: int) reads this {
      base !in blocks && BlocksOk(blocks[base := Block(size, Chunked)])
    }

    /** `kl_block_alloc`, when the system's answer is `base` */
    method BlockAlloc(base: int, size: nat)
      modifies this`w, this`memTotal, this`memMax, this`sysCtr
      ensures w == Zeroed(old(w), base, size) && memTotal == old(memTotal) + size
      ensures memMax == (if memTotal > old(memMax) then memTotal else old(memMax)) && sysCtr == old(sysCtr) + 1
    {
      w := Zeroed(w, base, size);
      memTotal := memTotal + size;
      if memTotal > memMax { memMax := memTotal; }
      sysCtr := sysCtr + 1;
    }

    /** A block to designate: the top of the undesignated stack or, if that is empty, a new one. */
    method TakeBlock(base: int) returns (block: int)
      requires UndesOk(undes, blocks) && BlocksOk(blocks) && memTotal == TotalSize(blocks)
      requires undes == [] ==> Available(base, BlockDefault)
      modifies this`w, this`memTotal, this`memMax, this`sysCtr, this`undes
      ensures !IsChunked(blocks, block) && !IsBricked(blocks, block)
      ensures BlocksOk(blocks[block := Block(BlockDefault, Chunked)])
      ensures UndesOk(undes, blocks - {block}) && memTotal == TotalSize(blocks - {block}) + BlockDefault
      ensures OnlyIn(old(w), w, block, BlockDefault)
      ensures if old(undes) == [] then block == base && sysCtr == old(sysCtr) + 1 && undes == []
              else block in blocks && undes + [block] == old(undes) && sysCtr == old(sysCtr)
      ensures memTotal == old(memTotal) + (if old(undes) == [] then BlockDefault else 0)
      ensures memMax == if old(undes) == [] && memTotal > old(memMax) then memTotal else old(memMax)
    {
      hide BlocksOk;
      if 0 != |undes| {
        block := undes[|undes| - 1];
        assert block in undes;
        UnstackUndes(undes, blocks);
        TotalChange(blocks, block, blocks[block]);
        Redesignate(blocks, block, Chunked);
        undes := undes[..|undes| - 1];
      } else {
        TotalChange(blocks, base, Block(BlockDefault, Chunked));
        assert blocks - {base} == blocks;
        BlockAlloc(base, BlockDefault);
        block := base;
      }
    }

    // -------------------------------------------------------------- kl_chunk_get

    /** The search upwards from the class of the request for a bin that is not empty. */
    method FindBin(request: nat) returns (bidx: nat, chunk: int)
      requires |chunkBin| == BinCount && 0 < request <= FixedMax
      ensures bidx <= SmallBins && 0 <= Size2Bin(request) <= bidx && chunk == chunkBin[bidx]
      ensures forall k: nat :: Size2Bin(request) <= k < bidx ==> chunkBin[k] == 0
      ensures chunk != 0 || bidx == SmallBins
    {
      hide Size2Bin;
      SmallSizes(request);
      bidx := Size2Bin(request);
      chunk := chunkBin[bidx];
      while chunk == 0 && bidx < SmallBins
        invariant Size2Bin(request) <= bidx <= SmallBins && chunk == chunkBin[bidx]
        invariant forall k: nat :: Size2Bin(request) <= k < bidx ==> chunkBin[k] == 0
      {
        bidx := bidx + 1;
        chunk := chunkBin[bidx];
      }
    }

    /** The head of a bin is taken off its list. */
    method PopChunk(bidx: nat, chunk: int)
      requires HeapOk(H(), 0) && bidx < |chunkBin| && chunk == chunkBin[bidx] && chunk != 0
      modifies this`w, this`chunkBin, this`nodes, this`chunks
      ensures HeapOk(H(), chunk) && chunk in chunks && chunk !in old(Live(chunks, 0))
      ensures Live(chunks, chunk) == old(Live(chunks, 0)) && Kept(old(H()), 0, old(w), w)
      ensures 0 < chunks[chunk].size <= FixedMax && FloorBin(chunks[chunk].size) == bidx
      ensures chunks[chunk].block in blocks && blocks[chunks[chunk].block].size == BlockDefault
    {
      hide HeapOk, Kept, Live, Linked, FloorBin;
      ghost var h := H();
      BinHead(h, bidx);
      PopKeeps(h, chunk);
      chunkBin := chunkBin[bidx := Rd(w, chunk + 16)];
      if chunkBin[bidx] != 0 { w := w[chunkBin[bidx] + 8 := 0]; }
      w := w[chunk + 16 := 0];
      nodes := nodes - {chunk};
      chunks := Mark(chunks, chunk, true);
      assert H() == Popped(h, chunk);
    }

    /** A block becomes one chunk, which is to be handed out or split. */
    method OpenBlock(block: int)
      requires HeapOk(H(), 0) && !IsChunked(blocks, block) && BlocksOk(blocks[block := Block(BlockDefault, Chunked)])
      modifies this`w, this`chunks, this`blocks
      ensures HeapOk(H(), block + 8) && block + 8 in chunks && block + 8 !in old(Live(chunks, 0))
      ensures blocks == old(blocks)[block := Block(BlockDefault, Chunked)]
      ensures Live(chunks, block + 8) == old(Live(chunks, 0)) && OnlyIn(old(w), w, block, BlockDefault)
      ensures chunks[block + 8].size == FixedMax && chunks[block + 8].block == block
    {
      hide HeapOk, Live, BlocksOk;
      ghost var h := H();
      w := w[block := 8];
      w := w[block + BlockDefault - 24 := Rd(w, block)];
      w := w[block + 8 := FixedMax];
      w := w[block + 8 + Rd(w, block + 8) - 8 := Rd(w, block + 8)];
      OpenKeeps(h, block, BlockDefault, w);
      chunks := chunks[block + 8 := Chunk(BlockDefault - 32, true, block, 0)];
      blocks := blocks[block := Block(BlockDefault, Chunked)];
    }

    /** A new chunk block: from the undesignated stack or from the system. */
    method DesignateChunks(base: int) returns (chunk: int)
      requires Sound(0) && (undes == [] ==> Available(base, BlockDefault))
      modifies this`w, this`chunkBin, this`nodes, this`chunks, this`blocks, this`undes, this`memTotal, this`memMax,
        this`sysCtr
      ensures Sound(chunk) && chunk != 0 && chunk in chunks && chunk !in old(Live(chunks, 0))
      ensures Live(chunks, chunk) == old(Live(chunks, 0)) && Spared(old(w), w, old(Live(chunks, 0)))
      ensures SameBricked(old(w), w, old(blocks), blocks)
      ensures chunks[chunk].size == FixedMax && chunks[chunk].block in blocks
      ensures blocks[chunks[chunk].block].size == BlockDefault && BlockTaken(base)
    {
      hide HeapOk, Live, BrickInv, BlocksOk, UndesOk;
      ghost var h := H();
      HeapBlocks(h, 0);
      var block := TakeBlock(base);
      ghost var w1 := w;
      TwoBlocks(blocks[block := Block(BlockDefault, Chunked)], block, block);
      OnlyInSame(h.w, w1, blocks, block, BlockDefault);
      ChunkFrame(h, w1, blocks);
      OpenBlock(block);
      forall x | x < block || block + BlockDefault <= x ensures Rd(w, x) == Rd(h.w, x) {
        assert Rd(w1, x) == Rd(h.w, x);
      }
      OnlyInSame(h.w, w, h.blocks, block, BlockDefault);
      ChunkedLive(h, w);
      BooksWith(undes, h.blocks, block, Block(BlockDefault, Chunked));
      BrickFrame(h.w, w, brickBin, brickNodes, h.blocks, blocks);
      chunk := block + 8;
    }

    /** Some bin from the class of the request up holds a chunk. */
    predicate Stocked(request: nat)
      requires 0 < request <= FixedMax
      reads this
    {
      exists k: nat :: Size2Bin(request) <= k < |chunkBin| && chunkBin[k] != 0
    }

    /** No bin between the class of the request and that of the size is stocked. */
    static ghost predicate FirstFit(request: nat, bins: seq<int>, size: nat)
      requires 0 < request <= FixedMax && 0 < size <= FixedMax
    {
      forall k: nat :: Size2Bin(request) <= k < FloorBin(size) && k < |bins| ==> bins[k] == 0
    }

    /** First part of `kl_chunk_get`: a chunk at least as large as the request, found in the lowest bin that has one
        or, only if none has, made. */
    method AcquireChunk(request: nat, base: int) returns (chunk: int)
      requires Sound(0) && 0 < request <= FixedMax && (undes == [] ==> Available(base, BlockDefault))
      modifies this`w, this`chunkBin, this`nodes, this`chunks, this`blocks, this`undes, this`memTotal, this`memMax,
        this`sysCtr
      ensures Sound(chunk) && chunk != 0 && chunk in chunks && chunk !in old(Live(chunks, 0))
      ensures Live(chunks, chunk) == old(Live(chunks, 0)) && Spared(old(w), w, old(Live(chunks, 0)))
      ensures SameBricked(old(w), w, old(blocks), blocks)
      ensures request <= chunks[chunk].size && chunks[chunk].block in blocks
      ensures blocks[chunks[chunk].block].size == BlockDefault
      ensures if old(Stocked(request)) then SameBlocks() else BlockTaken(base)
      ensures old(Stocked(request)) ==>
        chunks[chunk].size <= FixedMax && FirstFit(request, old(chunkBin), chunks[chunk].size)
    {
      hide Live, BrickInv, Foreign, FloorBin, UndesOk, Tiled, Linked, Tagged, Calm, Members, BlocksOk, Size2Bin;
      ghost var h := H();
      var bidx;
      bidx, chunk := FindBin(request);
      forall k: nat | k < |chunkBin| && chunkBin[k] != 0 ensures k < SmallBins { SmallOnly(h, k); }
      if chunk != 0 {
        PopChunk(bidx, chunk);
        InOrder(chunks, blocks, chunk, chunk);
        FoundIsLargeEnough(request, bidx, chunks[chunk].size);
        ForeignBricked(h.w, w, h.blocks, blocks);
        BrickFrame(h.w, w, brickBin, brickNodes, h.blocks, blocks);
      } else {
        chunk := DesignateChunks(base);
      }
    }

    /** Tags and links of the two parts of a chunk of `size` bytes. */
    method SplitChunk(chunk: int, s: nat, size: nat)
      requires ChunkMin <= s <= size - ChunkMin
      modifies this`w
      ensures w == SplitTags(old(w), chunk, s, size)
    {
      w := w[chunk := s];
      w := w[chunk + s - 8 := 0];
      var next := chunk + s;
      w := w[next := size - s];
      w := w[next + (size - s) - 8 := size - s];
      w := w[next + 8 := 0];
      w := w[next + 16 := 0];
    }

    /** Second part: the first `s` bytes are handed out and the rest put back, if both make a chunk. */
    method CarveChunk(chunk: int, s: nat)
      requires Sound(chunk) && chunk != 0 && chunk in chunks && Aligned(s) && ChunkMin <= s <= chunks[chunk].size
      requires chunks[chunk].block in blocks && blocks[chunks[chunk].block].size == BlockDefault
      modifies this`w, this`chunkBin, this`nodes, this`chunks, this`blocks, this`undes, this`memTotal, this`memMax,
        this`sysCtr
      ensures Sound(0) && chunk in chunks && s <= chunks[chunk].size < s + ChunkMin && SameBlocks()
      ensures Live(chunks, 0) == old(Live(chunks, chunk))[chunk := chunks[chunk].size]
      ensures Spared(old(w), w, old(Live(chunks, chunk))) && SameBricked(old(w), w, old(blocks), blocks)
    {
      hide HeapOk, Live, BrickInv, Foreign, UndesOk, Linked, BlocksOk, Spared, SplitTags, TotalSize;
      ghost var h := H();
      TagEven(h, chunk, chunk);
      HeapBlocks(h, chunk);
      ghost var live := Live(chunks, chunk);
      if Rd(w, chunk) > ChunkMin && s <= Rd(w, chunk) - ChunkMin {
        SplitKeeps(h, chunk, s);
        SplitOccupies(h, chunk, s);
        var size := Rd(w, chunk);
        SplitChunk(chunk, s, size);
        var next := chunk + s;
        chunks := Split(chunks, chunk, s);
        ghost var w1 := w;
        ForeignBricked(h.w, w1, blocks, blocks);
        BrickFrame(h.w, w1, brickBin, brickNodes, blocks, blocks);
        HeapBlocks(H(), next);
        ChunkPut(next);
        SparedLess(w1, w, live, chunk, s);
        SparedTwice(h.w, w1, w, live);
        SameTwice(h.w, w1, w, h.blocks, blocks, h.blocks);
        LiveSize(chunks, 0, chunk);
      } else {
        TakeKeeps(h, chunk);
        w := w[chunk + Rd(w, chunk) - 8 := 0];
        ForeignBricked(h.w, w, blocks, blocks);
        BrickFrame(h.w, w, brickBin, brickNodes, blocks, blocks);
      }
    }

    /** `kl_chunk_get`; 0 stands for the null pointer. */
    method ChunkGet(size: nat, base: int) returns (chunk: int)
      requires Sound(0) && BrickMax < size
      requires ChunkSize(size) <= FixedMax && undes == [] ==> Available(base, BlockDefault)
      modifies this`w, this`chunkBin, this`nodes, this`chunks, this`blocks, this`undes, this`memTotal, this`memMax,
        this`sysCtr
      ensures Sound(0) && (chunk == 0 <==> ChunkSize(size) > FixedMax)
      ensures chunk == 0 ==> unchanged(this)
      ensures chunk != 0 ==>
        && chunk in chunks && ChunkSize(size) <= chunks[chunk].size < ChunkSize(size) + ChunkMin
        && chunk !in old(Live(chunks, 0)) && Live(chunks, 0) == old(Live(chunks, 0))[chunk := chunks[chunk].size]
        && Spared(old(w), w, old(Live(chunks, 0))) && SameBricked(old(w), w, old(blocks), blocks)
      ensures chunk != 0 ==> if old(Stocked(ChunkSize(size))) then SameBlocks() else BlockTaken(base)
    {
      hide HeapOk, Live, BrickInv, UndesOk, BlocksOk, Spared;
      if ChunkSize(size) > FixedMax { return 0; }
      ghost var w0, bs, live := w, blocks, Live(chunks, 0);
      chunk := AcquireChunk(ChunkSize(size), base);
      ghost var w1, bs1 := w, blocks;
      CarveChunk(chunk, ChunkSize(size));
      SparedTwice(w0, w1, w, live);
      SameTwice(w0, w1, w, bs, blocks, bs1);
    }

    /** `kl_chunk_hdr`: sentinels at both ends of a block and tags of the one chunk in it, which is in use. */
    method ChunkHdr(block: int, n: nat)
      requires ChunkMin <= n && Aligned(n)
      modifies this`w
      ensures OnlyIn(old(w), w, block, 32 + n)
      ensures Rd(w, block) == 8 && Rd(w, block + 8 + n) == 8 && Rd(w, block + 8) == n && Rd(w, block + n) == 0
    {
      AlignExact(32 + n);
      var blockSize := BlockSize(n);
      w := w[block := 8];
      w := w[block + blockSize - 24 := Rd(w, block)];
      w := w[block + 8 := n];
      w := w[block + 8 + Rd(w, block + 8) - 8 := 0];
    }

    /** `kl_chunk_solo`: a chunk that has a block to itself; 0 stands for the assertion on the block size failing,
        which it does exactly when that size does not fit a word. */
    method ChunkSolo(size: nat, base: int) returns (chunk: int)
      requires Sound(0) && FixedMax < ChunkSize(size) && size <= AllocMax
      requires size <= TopSize ==> Available(base, BlockSize(ChunkSize(size)))
      modifies this`w, this`chunkBin, this`nodes, this`chunks, this`blocks, this`undes, this`memTotal, this`memMax,
        this`sysCtr
      ensures Sound(0) && (chunk == 0 <==> size > TopSize) && (chunk == 0 ==> unchanged(this))
      ensures chunk != 0 ==>
        && chunk in chunks && chunks[chunk].size == ChunkSize(size) && chunk !in old(Live(chunks, 0))
        && Live(chunks, 0) == old(Live(chunks, 0))[chunk := chunks[chunk].size]
        && Spared(old(w), w, old(Live(chunks, 0))) && SameBricked(old(w), w, old(blocks), blocks)
        && BlockAdded(base, BlockSize(ChunkSize(size)))
    {
      hide HeapOk, Live, BrickInv, BlocksOk, UndesOk, Spared, ChunkSize, Aligned, Wrapped, SameBricked, TotalSize;
      ghost var h := H();
      BlockSizeWraps(size);
      var n := Wrapped(ChunkSize(size));
      RoundedSize(size);
      var blockSize := Wrapped(BlockSize(n));
      if blockSize <= BlockDefault { return 0; }
      HeapBlocks(h, 0);
      BlockAlloc(base, blockSize);
      ghost var w0 := w;
      ChunkHdr(base, n);
      forall x | x < base || base + blockSize <= x ensures Rd(w, x) == Rd(h.w, x) { assert Rd(w0, x) == Rd(h.w, x); }
      TwoBlocks(blocks[base := Block(blockSize, Chunked)], base, base);
      SoloKeeps(h, base, n, w);
      chunk := base + 8;
      chunks := chunks[chunk := Chunk(n, true, base, 0)];
      blocks := blocks[base := Block(blockSize, Chunked)];
      OnlyInSame(h.w, w, h.blocks, base, blockSize);
      ChunkedLive(h, w);
      assert h.blocks - {base} == h.blocks;
      BooksWith(undes, h.blocks, base, Block(blockSize, Chunked));
      KeysWith(h.blocks, base, Block(blockSize, Chunked));
      BrickFrame(h.w, w, brickBin, brickNodes, h.blocks, blocks);
    }

    // -------------------------------------------------------------- bricks

    /** Everything is in order except that brick block `f` may have no brick in use. */
    ghost predicate SoundBricks(f: int) reads this {
      && HeapOk(H(), 0) && BrickInv(w, brickBin, brickNodes, blocks, f)
      && UndesOk(undes, blocks) && memTotal == TotalSize(blocks)
    }

    /** Unlink a brick block from the list of its bin. */
    method UnlinkBlock(block: int, bidx: nat)
      requires bidx < |brickBin|
      modifies this`w, this`brickBin
      ensures w == Bypassed(old(w), LinksAt, block)
      ensures brickBin == BypassedHeads(old(w), LinksAt, old(brickBin), bidx, block)
    {
      var p, q := Rd(w, block + LinksAt), Rd(w, block + LinksAt + 8);
      if p == 0 { brickBin := brickBin[bidx := q]; } else { w := w[p + LinksAt + 8 := q]; }
      if q != 0 { w := w[q + LinksAt := p]; }
    }

    /** The count in the header goes down, and a block without free bricks leaves its list. */
    method LowerCount(block: int, bidx: nat) returns (full: bool)
      requires bidx < |brickBin|
      modifies this`w, this`brickBin
      ensures full == ((Rd(old(w), block) - 1) % CountRange == 0)
      ensures w == (if full then Unlinked(old(w)[block := Rd(old(w), block) - 1], block)
                    else old(w)[block := Rd(old(w), block) - 1])
      ensures brickBin ==
              (if full then BypassedHeads(old(w)[block := Rd(old(w), block) - 1], LinksAt, old(brickBin), bidx, block)
               else old(brickBin))
    {
      hide Bypassed;
      w := w[block := Rd(w, block) - 1];
      full := Rd(w, block) % CountRange == 0;
      if full {
        UnlinkBlock(block, bidx);
        w := w[block + LinksAt := 0];
        w := w[block + LinksAt + 8 := 0];
      }
    }

    /** The brick at the head of the block's list is taken off it, after being set up if it is the frontier. */
    method CutBrick(block: int, full: bool) returns (brick: int)
      requires Even(block) && Rd(w, block + HeadAt) != block
      modifies this`w
      ensures brick == Rd(old(w), block + HeadAt)
      ensures w == TakeWords(old(w), block, brick, (Rd(old(w), block) / CountRange + 1) * 8, full)
    {
      brick := Rd(w, block + HeadAt);
      if Rd(w, brick) == 0 {
        w := w[brick := block + 1];
        if !full {
          w := w[brick + 8 := brick + GSize(brick)];
          w := w[Rd(w, brick + 8) := 0];
        }
      }
      w := w[block + HeadAt := Rd(w, brick + 8)];
      w := w[brick + 8 := 0];
    }

    /** `kl_brick_get` once it has a block with free bricks. */
    method TakeBrick(block: int, bidx: nat) returns (brick: int)
      requires SoundBricks(block) && block in brickNodes && IsBricked(blocks, block) && blocks[block].use.bin == bidx
      modifies this`w, this`brickBin, this`brickNodes, this`blocks
      ensures Sound(0) && 0 < Count(old(blocks)[block].use) && brick == TakenBrick(old(blocks)[block].use)
      ensures blocks == old(blocks)[block := old(blocks)[block].(use := Taken(old(blocks)[block].use))]
      ensures KeptBricks(old(w), w, old(blocks), brick) && brick !in old(blocks)[block].use.live
      ensures Aligned(brick) && 0 < brick
    {
      hide HeapOk, BrickInv, BricksOk, UndesOk, TakenBrick, Taken, Unlinked, Linked, KeptBricks, Bypassed, SameBody,
        Step, TakeWords, Even, Capacity,
        TotalSize, Count;
      ghost var w0, h, u, heads, ns := w, H(), blocks[block].use, brickBin, brickNodes;
      GetBlock(w, brickBin, brickNodes, blocks, block);
      GetKeeps(w, brickBin, brickNodes, blocks, block);
      TakeOk(w, block, u);
      HeaderWords(w, block, u);
      var full := LowerCount(block, bidx);
      GetUnlinks(w0, heads, ns, blocks, block, w);
      TopBrick(w0, w, block, u);
      brick := CutBrick(block, full);
      assert w == GetWords(w0, block, u);
      brickNodes := GetNodes(brickNodes, block, full);
      blocks := blocks[block := blocks[block].(use := Taken(u))];
      TakenFacts(w0, block, u);
      TakenKeepsRest(h, w, block, Taken(u), TakenBrick(u));
      BooksWithin(undes, h.blocks, block, Taken(u));
    }

    /** Words of a block newly designated for bricks, at the front of the list of its bin. */
    method BrickHdr(block: int, bidx: nat)
      requires bidx < |brickBin| && 1 <= bidx <= 4 && block != brickBin[bidx]
      modifies this`w, this`brickBin
      ensures w == DesignateWords(old(w), old(brickBin), block, bidx) && brickBin == old(brickBin)[bidx := block]
    {
      w := w[block := bidx * CountRange + FixedMax / ((bidx + 1) * 8)];
      w := w[block + LinksAt := 0];
      w := w[block + LinksAt + 8 := brickBin[bidx]];
      if brickBin[bidx] != 0 { w := w[brickBin[bidx] + LinksAt := block]; }
      brickBin := brickBin[bidx := block];
      w := w[block + HeadAt := block + 8];
      w := w[Rd(w, block + HeadAt) := 0];
    }

    /** A new brick block: from the undesignated stack or from the system. */
    method DesignateBricks(bidx: nat, base: int) returns (block: int)
      requires Sound(0) && 1 <= bidx <= 4 && (undes == [] ==> Available(base, BlockDefault))
      modifies this`w, this`brickBin, this`brickNodes, this`blocks, this`undes, this`memTotal, this`memMax, this`sysCtr
      ensures SoundBricks(block) && block in brickNodes && !IsBricked(old(blocks), block)
      ensures !IsChunked(old(blocks), block)
      ensures blocks == old(blocks)[block := Block(BlockDefault, NewBricks(block, bidx))] && BlockTaken(base)
      ensures KeptBricks(old(w), w, old(blocks) - {block}, 0) && SameChunked(old(w), w, old(blocks), blocks)
    {
      hide HeapOk, BrickInv, BlocksOk, UndesOk, NewBricks, DesignateWords, KeptBricks, SameChunked, TotalSize, OnlyIn;
      ghost var h := H();
      HeapBlocks(h, 0);
      BrickHeads(w, brickBin, brickNodes, blocks, bidx);
      block := TakeBlock(base);
      NewIsBricked(block, bidx);
      OtherUse(blocks, block, NewBricks(block, bidx));
      NotListed(h.w, brickBin, brickNodes, blocks, block, bidx);
      DesignateKeeps(h.w, w, brickBin, brickNodes, blocks, block, bidx);
      BrickHdr(block, bidx);
      brickNodes := brickNodes[block := Node(bidx, RankAbove(old(brickBin), brickNodes, bidx))];
      blocks := blocks[block := Block(BlockDefault, NewBricks(block, bidx))];
      KeptChunked(h.w, w, h.blocks, block, blocks[block]);
      ChunkFrame(h, w, blocks);
      BooksWith(undes, h.blocks, block, blocks[block]);
      KeysWith(h.blocks, block, blocks[block]);
    }

    /** `kl_brick_get`; 0 stands for the null pointer. */
    method BrickGet(size: nat, base: int) returns (brick: int, ghost block: int)
      requires Sound(0) && 1 <= size && (size <= BrickMax && undes == [] ==> Available(base, BlockDefault))
      modifies this`w, this`brickBin, this`brickNodes, this`blocks, this`undes, this`memTotal, this`memMax, this`sysCtr
      ensures Sound(0) && (brick == 0 <==> size > BrickMax)
      ensures brick == 0 ==> unchanged(this)
      ensures brick != 0 ==>
        && LiveBrick(blocks, block, brick) && !LiveBrick(old(blocks), block, brick)
        && BrickSize(size) == Step(blocks[block].use.bin)
        && OneBrickMore(old(blocks), blocks, block, brick)
        && SparedBricks(old(w), w, old(blocks), brick) && SameChunked(old(w), w, old(blocks), blocks)
      ensures brick != 0 ==>
        && BrickBin(size) < |old(brickBin)|
        && if old(brickBin)[BrickBin(size)] != 0 then SameBlocks() && block == old(brickBin)[BrickBin(size)]
           else BlockTaken(base)
    {
      hide HeapOk, BrickInv, UndesOk, BlocksOk, NewBricks, TakenBrick, Taken, KeptBricks;
      block := 0;
      if size > BrickMax { return 0, 0; }
      BrickBins(size);
      var bidx := BrickBin(size);
      ghost var w0, bs := w, blocks;
      BrickHeads(w, brickBin, brickNodes, blocks, bidx);
      NoBrickAtZero(w, brickBin, brickNodes, blocks);
      var blk := brickBin[bidx];
      if blk == 0 || Rd(w, blk + HeadAt) == 0 {
        blk := DesignateBricks(bidx, base);
        NewIsBricked(blk, bidx);
      } else {
        Still(w, brickBin, brickNodes, blocks, blk);
      }
      ghost var w1, bs1 := w, blocks;
      block := blk;
      brick := TakeBrick(blk, bidx);
      TakenMore(bs, bs1, blocks, block, brick);
      GetSpares(w0, w1, w, bs, bs1, blocks, block, brick);
    }

    /** A brick block off its list is put on the stack, if there is room, or given back to the system. */
    method RetireBlock(block: int)
      requires block in blocks && blocks[block].size == BlockDefault
      modifies this`w, this`blocks, this`undes, this`memTotal
      ensures BlockReleased(block) && OnlyIn(old(w), w, block, BlockDefault)
      ensures if |old(undes)| < UndesMax then blocks == old(blocks)[block := Block(BlockDefault, Spare)]
              else blocks == old(blocks) - {block}
      ensures undes != old(undes) ==> Rd(w, block) == Rd(w, block + HeadAt) == 0
      ensures undes != old(undes) ==> Rd(w, block + LinksAt) == Rd(w, block + LinksAt + 8) == 0
      ensures undes == old(undes) ==> w == old(w)
    {
      hide OnlyIn;
      BlankedWords(w, block);
      if |undes| < UndesMax {
        w := w[block := 0];
        w := w[block + LinksAt := 0];
        w := w[block + LinksAt + 8 := 0];
        w := w[block + HeadAt := 0];
        blocks := blocks[block := Block(BlockDefault, Spare)];
        undes := undes + [block];
      } else {
        memTotal := memTotal - BlockDefault;
        blocks := blocks - {block};
      }
    }

    /** `kl_brick_put`, its count raised, when no brick of the block is in use any more. */
    method ReleaseBricks(block: int, bidx: nat, ghost w0: Memory, ghost brick: int)
      requires LiveBrick(blocks, block, brick) && bidx == blocks[block].use.bin
      requires HeapOk(Heap(w0, chunkBin, nodes, chunks, blocks), 0)
      requires BrickInv(w0, brickBin, brickNodes, blocks, 0) && UndesOk(undes, blocks) && memTotal == TotalSize(blocks)
      requires Count(blocks[block].use) + 1 == Capacity(bidx) && w == w0[block := Rd(w0, block) + 1]
      modifies this`w, this`brickBin, this`brickNodes, this`blocks, this`undes, this`memTotal
      ensures Sound(0) && OneBrickMore(blocks, old(blocks), block, brick) && !LiveBrick(blocks, block, brick)
      ensures SparedBricks(w0, w, old(blocks), brick) && SameChunked(w0, w, old(blocks), blocks)
      ensures BlockReleased(block)
    {
      hide HeapOk, BrickInv, BlocksOk, UndesOk, KeptBricks, Bypassed, Capacity, BricksOk, SparedBricks, SameChunked,
        OneBrickMore, LiveSame, TotalSize, OnlyIn;
      ghost var h := Heap(w0, chunkBin, nodes, chunks, blocks);
      ghost var heads, bs := brickBin, blocks;
      BlockFacts(w0, brickBin, brickNodes, blocks, block);
      BooksWithout(undes, blocks, block);
      UnlinkBlock(block, bidx);
      RetireBlock(block);
      ReleaseKeeps(w0, heads, brickNodes, bs, block, brick, w, blocks);
      brickNodes := brickNodes - {block};
      ReleasedHeaps(h, w, block, blocks, brick);
      ReleasedOne(bs, blocks, block, brick);
    }

    /** The brick goes to the front of its block's list, and the block to the front of the list of its bin if it is
        on none. */
    method LinkBrick(block: int, bidx: nat, brick: int, ghost listed: bool)
      requires bidx < |brickBin| && (!listed ==> brickBin[bidx] != block)
      requires var w2 := GiveWords(w, block, brick);
        Rd(w2, block + LinksAt) == 0 && Rd(w2, block + LinksAt + 8) == 0 && block != brickBin[bidx] <==> !listed
      modifies this`w, this`brickBin
      ensures var w2 := GiveWords(old(w), block, brick);
        w == if listed then w2 else Prepended(w2, LinksAt, old(brickBin)[bidx], block)
      ensures brickBin == PutHeads(old(brickBin), block, bidx, listed)
    {
      w := w[brick + 8 := Rd(w, block + HeadAt)];
      w := w[block + HeadAt := brick];
      if Rd(w, block + LinksAt) == 0 && Rd(w, block + LinksAt + 8) == 0 && block != brickBin[bidx] {
        w := w[block + LinksAt := 0];
        w := w[block + LinksAt + 8 := brickBin[bidx]];
        if Rd(w, block + LinksAt + 8) != 0 { w := w[Rd(w, block + LinksAt + 8) + LinksAt := block]; }
        brickBin := brickBin[bidx := block];
      }
    }

    /** `kl_brick_put`, its count raised, when other bricks of the block are in use. */
    method GiveBrick(block: int, bidx: nat, brick: int, ghost w0: Memory)
      requires LiveBrick(blocks, block, brick) && bidx == blocks[block].use.bin
      requires HeapOk(Heap(w0, chunkBin, nodes, chunks, blocks), 0)
      requires BrickInv(w0, brickBin, brickNodes, blocks, 0) && UndesOk(undes, blocks) && memTotal == TotalSize(blocks)
      requires Count(blocks[block].use) + 1 < Capacity(bidx) && w == w0[block := Rd(w0, block) + 1]
      modifies this`w, this`brickBin, this`brickNodes, this`blocks
      ensures Sound(0) && OneBrickMore(blocks, old(blocks), block, brick) && !LiveBrick(blocks, block, brick)
      ensures SparedBricks(w0, w, old(blocks), brick) && SameChunked(w0, w, old(blocks), blocks) && SameBlocks()
    {
      hide HeapOk, BrickInv, BlocksOk, UndesOk, Capacity, BricksOk, Linked, LiveSame, KeptBricks, SparedBricks,
        SameChunked, OneBrickMore, TotalSize, GiveWords, Prepended;
      ghost var h := Heap(w0, chunkBin, nodes, chunks, blocks);
      ghost var bs, u := blocks, blocks[block].use;
      BlockFacts(w0, brickBin, brickNodes, blocks, block);
      PutKeeps(w0, brickBin, brickNodes, blocks, block, brick);
      ListTest(w0, brickBin, brickNodes, blocks, block, brick);
      ghost var ns := PutNodes(brickBin, brickNodes, block, bidx);
      LinkBrick(block, bidx, brick, block in brickNodes);
      brickNodes := ns;
      blocks := blocks[block := blocks[block].(use := Given(u, brick))];
      TakenKeepsRest(h, w, block, Given(u, brick), brick);
      BooksWithin(undes, bs, block, Given(u, brick));
      GivenOne(bs, blocks, block, brick);
      SameAfter(w0, w, bs, block, brick, blocks[block]);
    }

    /** `kl_brick_put` */
    method BrickPut(brick: int, ghost b: int)
      requires Sound(0) && LiveBrick(blocks, b, brick)
      modifies this`w, this`brickBin, this`brickNodes, this`blocks, this`undes, this`memTotal
      ensures Sound(0) && OneBrickMore(blocks, old(blocks), b, brick) && !LiveBrick(blocks, b, brick)
      ensures SparedBricks(old(w), w, old(blocks), brick) && SameChunked(old(w), w, old(blocks), blocks)
      ensures if old(blocks)[b].use.live != {brick} then SameBlocks() else BlockReleased(b)
    {
      hide HeapOk, BrickInv, BlocksOk, UndesOk, Capacity, BricksOk, Step, OneBrickMore, SparedBricks, SameChunked;
      ghost var w0 := w;
      BlockFacts(w, brickBin, brickNodes, blocks, b);
      LiveFacts(w, blocks, b, brick);
      HeaderWords(w, b, blocks[b].use);
      var block := Rd(w, brick) - 1;
      var bidx := Rd(w, block) / CountRange;
      w := w[block := Rd(w, block) + 1];
      CapacityIs(bidx);
      if Rd(w, block) % CountRange == FixedMax / ((Rd(w, block) / CountRange + 1) * 8) {
        ReleaseBricks(block, bidx, w0, brick);
      } else {
        GiveBrick(block, bidx, brick, w0);
      }
    }

    // -------------------------------------------------------------- KL_malloc and KL_free

    /** The system can provide the block that a request might need. */
    ghost predicate Servable(size: nat, base: int) reads this {
      if ChunkSize(size) > FixedMax then size <= TopSize ==> Available(base, BlockSize(ChunkSize(size)))
      else undes == [] ==> Available(base, BlockDefault)
    }

    /** The size read back from the header of a grant has room for what was asked for. */
    lemma GrantSize(p: int)
      requires Valid() && p in grants
      ensures Rd(w, p - 8) % 2 == 1 <==> grants[p].home != 0
      ensures grants[p].home == 0 ==> p - 8 in chunks && GSize(p - 8) == chunks[p - 8].size
      ensures grants[p].home != 0 ==>
        LiveBrick(blocks, grants[p].home, p - 8) && GSize(p - 8) == Step(blocks[grants[p].home].use.bin)
      ensures Aligned(p) && 0 < p && 0 < grants[p].n + 8 <= GSize(p - 8)
    {
      hide HeapOk, BrickInv, BlocksOk, UndesOk, Granted, Step, Capacity, BricksOk;
      var g := grants[p];
      GrantedBacked(grants, chunks, blocks);
      GrantAligned(H(), brickBin, brickNodes, p, g);
      HeaderTells(H(), brickBin, brickNodes, p, g);
      if g.home == 0 {
        TagEven(H(), 0, p - 8);
      } else {
        BrickPlace(H(), brickBin, brickNodes, g.home, p - 8);
        HeaderWords(w, g.home, blocks[g.home].use);
      }
    }

    /** The part of `KL_malloc` for requests too large for a brick, with the assertions made on what is found. */
    method MallocChunk(size: nat, base: int) returns (r: Outcome)
      requires Valid() && BrickMax < size <= AllocMax && Servable(size, base)
      modifies this
      ensures !r.Null? && (r.AssertFails? <==> Refused(size)) && (TopSize < size ==> unchanged(this))
      ensures r.Got? ==> Valid() && r.ptr !in old(grants) && grants == old(grants)[r.ptr := Grant(size, 0)]
      ensures r.Got? ==> ServedFrom(size, base) && ChunkSize(size) <= GSize(r.ptr - 8) < ChunkSize(size) + ChunkMin
      ensures ContentsKept(old(w), w, old(grants), 0)
    {
      hide HeapOk, BrickInv, BlocksOk, UndesOk, Spared, SameBricked, Live, Granted, ChunkSize, SameLive, AllBacked,
        Stocked;
      ghost var h, gs, bb, bn := H(), grants, brickBin, brickNodes;
      HeapBlocks(h, 0);
      FixedFits(size);
      GapExactly(size);
      var chunk := ChunkGet(size, base);
      var solo := chunk == 0;
      if solo {
        chunk := ChunkSolo(size, base);
        if chunk == 0 { return AssertFails; }
      }
      HeapBlocks(H(), 0);
      SameBrickedLive(h.w, w, h.blocks, blocks);
      GrantedBacked(gs, h.chunks, h.blocks);
      KeptByChunks(h.w, w, gs, h, bb, bn, blocks, 0);
      TagEven(H(), 0, chunk);
      if solo {
        if !(size > FixedMax && ChunkSize(size) == GSize(chunk) && Rd(w, chunk) % 2 == 0) { return AssertFails; }
      } else {
        if !(size <= FixedMax && ChunkSize(size) <= GSize(chunk) && Rd(w, chunk) % 2 == 0) { return AssertFails; }
      }
      ChunkGranted(gs, h.chunks, h.blocks, H(), brickBin, brickNodes, chunk, size);
      ChunkPositive(H(), chunk);
      grants := grants[chunk + 8 := Grant(size, 0)];
      r := Got(chunk + 8);
    }

    /** The brick part of `KL_malloc`, with its assertions. */
    method MallocBrick(size: nat, base: int) returns (r: Outcome)
      requires Valid() && 1 <= size <= BrickMax && Servable(size, base)
      modifies this
      ensures r.Got? && Valid() && r.ptr !in old(grants) && r.ptr in grants && grants[r.ptr].n == size
      ensures grants == old(grants)[r.ptr := grants[r.ptr]] && grants[r.ptr].home != 0
      ensures ServedFrom(size, base) && GSize(r.ptr - 8) == BrickSize(size)
      ensures ContentsKept(old(w), w, old(grants), 0)
    {
      hide HeapOk, BrickInv, BlocksOk, UndesOk, Granted, SparedBricks, SameChunked, Step, OneBrickMore;
      ghost var h, gs := H(), grants;
      var brick; ghost var block;
      brick, block := BrickGet(size, base);
      BrickBins(size);
      BrickGranted(gs, h.blocks, H(), brickBin, brickNodes, block, brick, size);
      GrantedBacked(gs, h.chunks, h.blocks);
      KeptByBricks(h.w, w, gs, h, blocks, brick);
      KeptNew(h.w, w, gs, brick + 8);
      grants := grants[brick + 8 := Grant(size, block)];
      GrantSize(brick + 8);
      BrickPlace(H(), brickBin, brickNodes, block, brick);
      assert brick + 8 - 8 == brick;
      if !(BrickSize(size) <= GSize(brick) && Rd(w, brick) % 2 == 1) { return AssertFails; }
      r := Got(brick + 8);
    }

    /** `KL_malloc` for at least one byte; `base` is the system's answer should a block be needed.  The assertions
        made on the way fail exactly for the refused sizes; all others up to the maximum are granted in full. */
    method Malloc(size: nat, base: int) returns (r: Outcome)
      requires Valid() && 1 <= size && Servable(size, base)
      modifies this
      ensures (r.Null? <==> size > AllocMax) && (r.AssertFails? <==> Refused(size))
      ensures TopSize < size ==> unchanged(this)
      ensures !r.AssertFails? ==> Valid()
      ensures r.Got? ==>
        && r.ptr != 0 && Aligned(r.ptr) && r.ptr !in old(grants) && r.ptr in grants && grants[r.ptr].n == size
        && grants == old(grants)[r.ptr := grants[r.ptr]]
        && ServedFrom(size, base) && size + 8 <= GSize(r.ptr - 8) < ChunkSize(size) + ChunkMin
      ensures ContentsKept(old(w), w, old(grants), 0)
    {
      hide HeapOk, BrickInv, BlocksOk, UndesOk, Granted, Step;
      if size > AllocMax { return Null; }
      if size <= BrickMax { r := MallocBrick(size, base); } else { r := MallocChunk(size, base); }
      if r.Got? {
        GrantSize(r.ptr);
        if !(Aligned(r.ptr) && GSize(r.ptr - 8) != 0) { return AssertFails; }
      }
    }

    /** `KL_free`: the low bit of the header before the pointer tells bricks from chunks. */
    method Free(ptr: int)
      requires Valid() && ptr in grants
      modifies this
      ensures Valid() && grants == old(grants) - {ptr}
      ensures ContentsKept(old(w), w, old(grants), ptr)
      ensures exists b :: b in old(blocks) && b <= ptr < b + old(blocks)[b].size &&
                (if Shared(old(grants), old(blocks), b, ptr) then SameBlocks() else BlockReleased(b))
    {
      hide HeapOk, BrickInv, BlocksOk, UndesOk, Granted, SparedBricks, SameChunked, Step, OneBrickMore, SameBricked,
        Live, Spared, ContentsKept, Shared, Occupied;
      ghost var h, gs, g, bb, bn := H(), grants, grants[ptr], brickBin, brickNodes;
      var alloc := ptr - 8;
      GrantedBacked(gs, chunks, blocks);
      HeaderTells(h, brickBin, brickNodes, ptr, g);
      ghost var b := HomeOf(chunks, ptr, g);
      HomeHolds(h, brickBin, brickNodes, ptr, g, b);
      if g.home == 0 { ChunkShares(gs, h, bb, bn, ptr); } else { BrickShares(gs, h, bb, bn, ptr); }
      if Rd(w, alloc) % 2 == 1 {
        BrickPut(alloc, g.home);
        BrickReturned(gs, h, bb, bn, blocks, g.home, alloc);
        KeptByBricks(h.w, w, gs, h, blocks, alloc);
      } else {
        WorkOn(h, alloc);
        HeapBlocks(h, 0);
        ChunkPut(alloc);
        HeapBlocks(H(), 0);
        SameBrickedLive(h.w, w, h.blocks, blocks);
        ChunkReturned(gs, h.chunks, h.blocks, chunks, blocks, alloc);
        KeptByChunks(h.w, w, gs, h, bb, bn, blocks, alloc);
      }
      grants := grants - {ptr};
    }

    /** A caller writes a word of memory granted to it. */
    method Store(ptr: int, x: int, v: int)
      requires Valid() && ptr in grants && Aligned(x) && ptr <= x < ptr + grants[ptr].n
      modifies this`w
      ensures Valid() && w == old(w)[x := v]
    {
      hide HeapOk, BrickInv, BlocksOk, UndesOk, Granted, Step;
      GrantedBacked(grants, chunks, blocks);
      StoreKeeps(H(), brickBin, brickNodes, ptr, grants[ptr], x, v);
      w := w[x := v];
    }

    /** Live allocations are aligned, pairwise disjoint and clear of every word the allocator keeps. */
    lemma LiveAllocationsApart(p: int, q: int, m: Meta)
      requires Valid() && p in grants && q in grants
      ensures Aligned(p)
      ensures p != q ==> p + grants[p].n <= q || q + grants[q].n <= p
      ensures IsMeta(chunks, blocks, m) ==>
        Where(chunks, blocks, m) + 8 <= p || p + grants[p].n <= Where(chunks, blocks, m)
    {
      hide HeapOk, BrickInv, IsMeta, Where, Backed;
      GrantAligned(H(), brickBin, brickNodes, p, grants[p]);
      if p != q { GrantsDisjoint(H(), brickBin, brickNodes, p, grants[p], q, grants[q]); }
      if IsMeta(chunks, blocks, m) { GrantsOffMetadata(H(), brickBin, brickNodes, p, grants[p], m); }
    }

    /** No leak: when everything granted has been given back, all bins are empty and what is held from the
        system is exactly the undesignated blocks. */
    lemma NoLeak()
      requires Valid() && grants == map[]
      ensures forall k :: 0 <= k < |chunkBin| ==> chunkBin[k] == 0
      ensures forall k :: 0 <= k < |brickBin| ==> brickBin[k] == 0
      ensures memTotal == |undes| * BlockDefault
    {
      hide HeapOk, BrickInv;
      AllGivenBack(H(), brickBin, brickNodes);
      HeapBlocks(H(), 0);
      SpareTotal(undes, blocks);
    }
  }
}
