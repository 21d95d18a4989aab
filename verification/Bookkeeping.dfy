/**
 Facts the allocator's operations rest on, kept apart so that the operations themselves stay readable:

  * totals over the blocks held from the system, and the stack of undesignated blocks;
  * what tags and packed headers say when they are read: first and last chunk of a block, neighbours in use
    or free, brick or chunk, bin and count of a brick block;
  * what work in one part of memory leaves alone: chunk operations do not reach brick blocks, brick
    operations do not reach chunk blocks, and neither reaches what callers hold.
 */
module Bookkeeping {
  import opened SizeClasses
  import opened FreeLists
  import opened ChunkTiling
  import opened ChunkHeap
  import opened BrickHeap
  import opened Grants

  const UndesMax := 4

  /** `ALLOC_MAX_SIZE` */
  const AllocMax := 0xFFFF_FFFF_FFFF_FFE6

  /** Sizes are 64-bit words in the allocator. */
  function Wrapped(x: nat): nat { x % 0x1_0000_0000_0000_0000 }

  /** The largest request whose block size fits a word. */
  const TopSize := 0xFFFF_FFFF_FFFF_FFC8

  /** Up to the maximum request the chunk size fits; the block size fits up to `TopSize`, and above that it wraps
      to less than a default block, which is what the assertion in `kl_chunk_solo` catches. */
  lemma BlockSizeWraps(size: nat)
    requires FixedMax < ChunkSize(size) && size <= AllocMax
    ensures Wrapped(ChunkSize(size)) == ChunkSize(size)
    ensures size <= TopSize ==> Wrapped(BlockSize(ChunkSize(size))) == BlockSize(ChunkSize(size))
    ensures Wrapped(BlockSize(ChunkSize(size))) > BlockDefault <==> size <= TopSize
  {
    RoundedSize(size);
    var n := ChunkSize(size);
    assert 0xFFFF_FFFF_FFFF_FFD8 == 8 * 0x1FFF_FFFF_FFFF_FFFB;
    if size <= TopSize { assert n <= 0xFFFF_FFFF_FFFF_FFD8; } else { assert 0xFFFF_FFFF_FFFF_FFE0 <= n; }
  }

  /** At the very maximum the block would be of 24 bytes. */
  lemma MaximumWraps()
    ensures TopSize < AllocMax && Wrapped(BlockSize(ChunkSize(AllocMax))) == 24
  {
    RoundedSize(AllocMax);
  }

  /** Requests on which an assertion fails: their block size wraps, or they are no larger than `FIXED_MAX_SIZE` and
      yet do not fit a block together with their tags. */
  predicate Refused(size: nat) { TopSize < size <= AllocMax || FixedMax - 16 < size <= FixedMax }

  /** A request goes to a block of its own and is no larger than `FIXED_MAX_SIZE`, exactly in that gap. */
  lemma GapExactly(size: nat)
    ensures FixedMax < ChunkSize(size) && size <= FixedMax <==> FixedMax - 16 < size <= FixedMax
  {
  }

  /** Both ends of the gap, and their neighbours. */
  lemma GapEnds()
    ensures Refused(262097) && Refused(262112) && !Refused(262096) && !Refused(262113)
    ensures ChunkSize(262096) == FixedMax && ChunkSize(262097) == FixedMax + 8
  {
  }

  /** Block sizes, summed. */
  ghost function TotalSize(blocks: Blocks): int
    decreases blocks.Keys
  {
    if exists b :: b in blocks then
      var b :| b in blocks;
      blocks[b].size + TotalSize(blocks - {b})
    else 0
  }

  lemma {:induction false} TotalWithout(blocks: Blocks, b: int)
    requires b in blocks
    ensures TotalSize(blocks) == blocks[b].size + TotalSize(blocks - {b})
    decreases blocks.Keys
  {
    var c :| c in blocks && TotalSize(blocks) == blocks[c].size + TotalSize(blocks - {c});
    if c != b {
      TotalWithout(blocks - {c}, b);
      TotalWithout(blocks - {b}, c);
      assert blocks - {c} - {b} == blocks - {b} - {c};
    }
  }

  lemma TotalChange(blocks: Blocks, b: int, blk: Block)
    ensures TotalSize(blocks[b := blk]) == TotalSize(blocks - {b}) + blk.size
    ensures b !in blocks ==> TotalSize(blocks[b := blk]) == TotalSize(blocks) + blk.size
    ensures b in blocks ==> TotalSize(blocks - {b}) == TotalSize(blocks) - blocks[b].size
  {
    TotalWithout(blocks[b := blk], b);
    assert blocks[b := blk] - {b} == blocks - {b};
    if b in blocks { TotalWithout(blocks, b); } else { assert blocks - {b} == blocks; }
  }

  /** The stack holds exactly the blocks without designation. */
  ghost predicate UndesOk(undes: seq<int>, blocks: Blocks) {
    && |undes| <= UndesMax
    && (forall i, j :: 0 <= i < j < |undes| ==> undes[i] != undes[j])
    && (forall b :: b in undes <==> b in blocks && blocks[b].use.Spare?)
  }

  lemma SameBrickedLive(w: Memory, w': Memory, blocks: Blocks, bs: Blocks)
    requires SameBricked(w, w', blocks, bs)
    ensures SameLive(blocks, bs)
  {
  }

  lemma GrantedBacked(grants: map<int, Grant>, chunks: Chunks, blocks: Blocks)
    requires Granted(grants, chunks, blocks)
    ensures AllBacked(grants, chunks, blocks)
  {
  }

  lemma KeptNew(w: Memory, w': Memory, grants: map<int, Grant>, p: int)
    requires ContentsKept(w, w', grants, p) && p !in grants
    ensures ContentsKept(w, w', grants, 0)
  {
  }

  /** The header of a grant is even for a chunk and odd for a brick. */
  lemma HeaderTells(h: Heap, brickBin: seq<int>, brickNodes: map<int, Node>, p: int, g: Grant)
    requires HeapsOk(h, brickBin, brickNodes) && Backed(h.chunks, h.blocks, p, g)
    ensures Rd(h.w, p - 8) % 2 == 1 <==> g.home != 0
  {
    hide HeapOk, BrickInv, Step;
    if g.home == 0 {
      TagEven(h, 0, p - 8);
    } else {
      BrickPlace(h, brickBin, brickNodes, g.home, p - 8);
      AlignedEven(g.home);
    }
  }

  lemma WorkOn(h: Heap, a: int)
    requires HeapOk(h, 0) && a in h.chunks && h.chunks[a].used
    ensures HeapOk(h, a) && a != 0
  {
    hide Linked, Tiled, Calm, BlocksOk, Members;
    NoChunkAtZero(h);
    forall y | y in h.chunks ensures TagOk(h.w, h.chunks, a, y) { assert TagOk(h.w, h.chunks, 0, y); }
  }

  lemma StoreKeeps(h: Heap, brickBin: seq<int>, brickNodes: map<int, Node>, p: int, g: Grant, x: int, v: int)
    requires HeapsOk(h, brickBin, brickNodes) && Backed(h.chunks, h.blocks, p, g) && Aligned(x) && p <= x < p + g.n
    ensures HeapsOk(h.(w := h.w[x := v]), brickBin, brickNodes)
  {
    hide HeapOk, BrickInv, Step;
    HeapBlocks(h, 0);
    if g.home == 0 {
      UserWrite(h, p - 8, x, v);
      ChunkWriteSame(h, p - 8, x, v);
      BrickFrame(h.w, h.w[x := v], brickBin, brickNodes, h.blocks, h.blocks);
    } else {
      UserWriteBrick(h.w, brickBin, brickNodes, h.blocks, g.home, p - 8, x, v);
      BrickPlace(h, brickBin, brickNodes, g.home, p - 8);
      BrickWriteSame(h, g.home, x, v);
      ChunkFrame(h, h.w[x := v], h.blocks);
    }
  }

  lemma ChunkWriteSame(h: Heap, a: int, x: int, v: int)
    requires HeapOk(h, 0) && a in h.chunks && a <= x < After(h.chunks, a)
    ensures SameBricked(h.w, h.w[x := v], h.blocks, h.blocks)
  {
    hide Linked, Calm, Tagged, Members, FloorBin, Tiled;
    forall b | IsBricked(h.blocks, b) ensures !(b <= x < b + BlockDefault) {
      EdgesOutside(h.chunks, h.blocks, a, b);
      assert BlockOk(h.blocks, b);
    }
  }

  lemma BrickWriteSame(h: Heap, b: int, x: int, v: int)
    requires BlocksOk(h.blocks) && IsBricked(h.blocks, b) && b <= x < b + BlockDefault
    ensures SameChunked(h.w, h.w[x := v], h.blocks, h.blocks)
  {
    hide BlocksOk;
    forall k | IsChunked(h.blocks, k) ensures !(k <= x < k + h.blocks[k].size) {
      TwoBlocks(h.blocks, b, k);
      TwoBlocks(h.blocks, k, b);
    }
  }

  /** Undesignated blocks are all of the default size. */
  lemma {:induction false} SpareTotal(undes: seq<int>, blocks: Blocks)
    requires UndesOk(undes, blocks) && BlocksOk(blocks) && forall b :: b in blocks ==> blocks[b].use.Spare?
    ensures TotalSize(blocks) == |undes| * BlockDefault
    decreases |undes|
  {
    if undes == [] {
      assert forall b :: b !in blocks;
    } else {
      var b := undes[|undes| - 1];
      assert b in undes && BlockOk(blocks, b);
      UnstackUndes(undes, blocks);
      CloseBlocks(blocks, b, blocks - {b});
      SpareTotal(undes[..|undes| - 1], blocks - {b});
      TotalWithout(blocks, b);
    }
  }

  lemma CapacityIs(bin: nat)
    ensures FixedMax / ((bin + 1) * 8) == Capacity(bin)
  {
  }

  /** The header of a brick in use, and that its block is short of at least one brick. */
  lemma LiveFacts(w: Memory, blocks: Blocks, b: int, a: int)
    requires IsBricked(blocks, b) && BricksOk(w, b, blocks[b].use) && a in blocks[b].use.live
    ensures Rd(w, a) == b + 1 && Count(blocks[b].use) + 1 <= Capacity(blocks[b].use.bin)
    ensures Count(blocks[b].use) + 1 == Capacity(blocks[b].use.bin) <==> blocks[b].use.live == {a}
  {
    hide Capacity;
    assert blocks[b].use.live == {a} + (blocks[b].use.live - {a});
    assert BrickOk(w, b, blocks[b].use, a);
    assert |blocks[b].use.live| > 0;
  }

  lemma BlockFacts(w: Memory, heads: seq<int>, nodes: map<int, Node>, blocks: Blocks, b: int)
    requires BrickInv(w, heads, nodes, blocks, 0) && IsBricked(blocks, b)
    ensures BricksOk(w, b, blocks[b].use) && AllBricks(w, blocks, 0) && BlocksOk(blocks)
    ensures 1 <= blocks[b].use.bin <= 4 && |heads| == BrickBinCount && 0 < b && blocks[b].size == BlockDefault
  {
    BrickBlock(w, blocks, b);
  }

  lemma ReleasedHeaps(h: Heap, w': Memory, b: int, bs: Blocks, a: int)
    requires HeapOk(h, 0) && IsBricked(h.blocks, b) && KeptBricks(h.w, w', h.blocks, a)
    requires h.blocks[b].size == BlockDefault
    requires bs == h.blocks - {b} || bs == h.blocks[b := Block(BlockDefault, Spare)]
    ensures HeapOk(Heap(w', h.bins, h.nodes, h.chunks, bs), 0)
    ensures SameChunked(h.w, w', h.blocks, bs) && SparedBricks(h.w, w', h.blocks, a)
  {
    hide Linked, FloorBin, Tiled, Calm, Tagged, Members, LiveSame;
    CloseBlocks(h.blocks, b, bs);
    assert SameChunked(h.w, w', h.blocks, bs);
    ChunkFrame(h, w', bs);
  }

  lemma ReleasedOne(blocks: Blocks, bs: Blocks, b: int, a: int)
    requires IsBricked(blocks, b) && blocks[b].use.live == {a}
    requires bs == blocks - {b} || bs == blocks[b := Block(BlockDefault, Spare)]
    ensures OneBrickMore(bs, blocks, b, a) && !LiveBrick(bs, b, a)
  {
  }

  lemma GivenOne(blocks: Blocks, bs: Blocks, b: int, a: int)
    requires LiveBrick(blocks, b, a) && bs == blocks[b := blocks[b].(use := Given(blocks[b].use, a))]
    ensures OneBrickMore(bs, blocks, b, a) && !LiveBrick(bs, b, a)
  {
  }

  lemma SameAfter(w: Memory, w': Memory, blocks: Blocks, b: int, a: int, blk: Block)
    requires KeptBricks(w, w', blocks, a) && IsBricked(blocks, b) && !blk.use.Chunked?
    ensures SameChunked(w, w', blocks, blocks[b := blk]) && SparedBricks(w, w', blocks, a)
  {
    hide LiveSame;
  }

  /** Null links and not being the head of the bin tell that a block is on no list. */
  lemma ListTest(w: Memory, heads: seq<int>, nodes: map<int, Node>, blocks: Blocks, b: int, a: int)
    requires BrickInv(w, heads, nodes, blocks, 0) && LiveBrick(blocks, b, a) && blocks[b].use.bin < |heads|
    ensures var w2 := GiveWords(w[b := Rd(w, b) + 1], b, a);
      Rd(w2, b + LinksAt) == 0 && Rd(w2, b + LinksAt + 8) == 0 && b != heads[blocks[b].use.bin] <==> b !in nodes
    ensures heads[blocks[b].use.bin] != b || b in nodes
  {
    hide Linked, Capacity, Span, Step;
    BrickBlock(w, blocks, b);
    GiveSpares(w, b, blocks[b].use, a);
    BodyWrites(w, GiveWords(w[b := Rd(w, b) + 1], b, a), heads, nodes, blocks, b);
    assert ListedOk(GiveWords(w[b := Rd(w, b) + 1], b, a), nodes, blocks, b);
    HeadIsMember(w, LinksAt, heads, nodes, blocks[b].use.bin);
    if b in nodes { MemberAtHead(GiveWords(w[b := Rd(w, b) + 1], b, a), heads, nodes, b); }
  }

  lemma MemberAtHead(w: Memory, heads: seq<int>, nodes: map<int, Node>, b: int)
    requires Linked(w, LinksAt, heads, nodes) && b in nodes
    ensures nodes[b].bin < |heads| && (Rd(w, b + LinksAt) == 0 ==> heads[nodes[b].bin] == b)
  {
    assert NodeOk(w, LinksAt, heads, nodes, b);
  }

  lemma BrickBins(size: nat)
    requires 1 <= size <= BrickMax
    ensures 1 <= BrickBin(size) <= 4 && Step(BrickBin(size)) == BrickSize(size) && size <= BrickSize(size) - 8
  {
    var n := BrickSize(size);
    assert n == 16 || n == 24 || n == 32 || n == 40;
  }

  /** The head of a brick bin is a block of that bin which has a brick to give. */
  lemma BrickHeads(w: Memory, heads: seq<int>, nodes: map<int, Node>, blocks: Blocks, k: nat)
    requires BrickInv(w, heads, nodes, blocks, 0) && k < BrickBinCount
    ensures |heads| == BrickBinCount
    ensures heads[k] != 0 ==>
      heads[k] in nodes && IsBricked(blocks, heads[k]) && blocks[heads[k]].use.bin == k && Rd(w, heads[k] + HeadAt) != 0
  {
    hide Linked, Capacity, Span, Step;
    HeadIsMember(w, LinksAt, heads, nodes, k);
    if heads[k] != 0 {
      var b := heads[k];
      assert ListedOk(w, nodes, blocks, b);
      BrickBlock(w, blocks, b);
      var u := blocks[b].use;
      Sizes(b, u);
      if u.free != [] { assert u.free[|u.free| - 1] in u.free && BrickOk(w, b, u, u.free[|u.free| - 1]); }
    }
  }

  lemma NotListed(w: Memory, heads: seq<int>, nodes: map<int, Node>, blocks: Blocks, b: int, k: nat)
    requires BrickInv(w, heads, nodes, blocks, 0) && !IsBricked(blocks, b) && k < |heads| && b != 0
    ensures b !in nodes && heads[k] != b
  {
    hide Linked;
    HeadIsMember(w, LinksAt, heads, nodes, k);
    assert ListedOk(w, nodes, blocks, b);
  }

  lemma OtherUse(blocks: Blocks, b: int, u: Use)
    requires BlocksOk(blocks[b := Block(BlockDefault, Chunked)])
    ensures BlocksOk(blocks[b := Block(BlockDefault, u)]) && 0 < b
  {
    var cs, bs := blocks[b := Block(BlockDefault, Chunked)], blocks[b := Block(BlockDefault, u)];
    assert BlockOk(cs, b);
    forall k | k in bs ensures BlockOk(bs, k) { assert BlockOk(cs, k); }
    forall k, l | k in bs && l in bs ensures BlocksApart(bs, k, l) { assert BlocksApart(cs, k, l); }
  }

  lemma KeptChunked(w: Memory, w': Memory, blocks: Blocks, b: int, blk: Block)
    requires KeptBricks(w, w', blocks - {b}, 0) && !IsChunked(blocks, b) && !blk.use.Chunked?
    ensures SameChunked(w, w', blocks, blocks[b := blk])
  {
    hide LiveSame;
    forall k, x | IsChunked(blocks, k) && k <= x < k + blocks[k].size ensures Rd(w', x) == Rd(w, x) {
      assert k in blocks - {b};
    }
  }

  lemma Still(w: Memory, heads: seq<int>, nodes: map<int, Node>, blocks: Blocks, b: int)
    requires BrickInv(w, heads, nodes, blocks, 0)
    ensures BrickInv(w, heads, nodes, blocks, b)
  {
    hide Linked, BricksOk;
    forall k | IsBricked(blocks, k) ensures BricksAt(w, blocks, b, k) {
      assert BricksAt(w, blocks, 0, k);
      BrickBlock(w, blocks, k);
    }
  }

  lemma TakenMore(blocks: Blocks, bs1: Blocks, bs: Blocks, b: int, a: int)
    requires IsBricked(bs1, b) && 0 < Count(bs1[b].use) && a == TakenBrick(bs1[b].use) && a !in bs1[b].use.live
    requires bs == bs1[b := bs1[b].(use := Taken(bs1[b].use))]
    requires bs1 == blocks || (!IsBricked(blocks, b) && bs1 == blocks[b := bs1[b]] && bs1[b].use.live == {})
    ensures OneBrickMore(blocks, bs, b, a) && LiveBrick(bs, b, a) && !LiveBrick(blocks, b, a)
    ensures bs[b].use.bin == bs1[b].use.bin
  {
  }

  lemma GetSpares(w0: Memory, w1: Memory, w: Memory, blocks: Blocks, bs1: Blocks, bs: Blocks, b: int, a: int)
    requires KeptBricks(w1, w, bs1, a) && IsBricked(bs1, b) && IsBricked(bs, b) && bs == bs1[b := bs[b]]
    requires bs1 != blocks || w1 != w0 ==>
               && !IsBricked(blocks, b) && !IsChunked(blocks, b) && bs1 == blocks[b := bs1[b]]
               && KeptBricks(w0, w1, blocks - {b}, 0) && SameChunked(w0, w1, blocks, bs1)
    requires forall k :: IsBricked(blocks, k) ==> 0 !in blocks[k].use.live
    ensures SparedBricks(w0, w, blocks, a) && SameChunked(w0, w, blocks, bs)
  {
    hide Step;
    forall k | IsBricked(blocks, k) ensures LiveSame(w0, w, blocks[k].use, a) {
      assert LiveSame(w1, w, bs1[k].use, a);
      if bs1 != blocks {
        assert k in blocks - {b} && LiveSame(w0, w1, (blocks - {b})[k].use, 0);
        LiveTwice(w0, w1, w, blocks[k].use, a);
      }
    }
    forall k, x | IsChunked(blocks, k) && k <= x < k + blocks[k].size ensures Rd(w, x) == Rd(w0, x) {
      assert k in bs1 && IsChunked(bs1, k);
      assert Rd(w, x) == Rd(w1, x) && Rd(w1, x) == Rd(w0, x);
    }
  }

  lemma NoBrickAtZero(w: Memory, heads: seq<int>, nodes: map<int, Node>, blocks: Blocks)
    requires BrickInv(w, heads, nodes, blocks, 0)
    ensures forall k :: IsBricked(blocks, k) ==> 0 !in blocks[k].use.live
  {
    hide Linked, Step;
    forall k, a | IsBricked(blocks, k) && a in blocks[k].use.live ensures a != 0 {
      BrickBlock(w, blocks, k);
      assert BrickOk(w, k, blocks[k].use, a);
    }
  }

  lemma LiveTwice(w0: Memory, w1: Memory, w: Memory, u: Use, a: int)
    requires u.Bricked? && LiveSame(w0, w1, u, 0) && LiveSame(w1, w, u, a) && 0 !in u.live
    ensures LiveSame(w0, w, u, a)
  {
    hide Step;
    forall c, x | c in u.live && c != a && c <= x < c + Step(u.bin) ensures Rd(w, x) == Rd(w0, x) {
      assert Rd(w1, x) == Rd(w0, x);
    }
  }

  lemma RoundedSize(size: nat)
    ensures Aligned(ChunkSize(size)) && BlockSize(ChunkSize(size)) == 32 + ChunkSize(size)
  {
    AlignExact(32 + ChunkSize(size));
  }

  /** A block of more than the default size, all of it one chunk in use. */
  lemma SoloKeeps(h: Heap, b: int, n: int, w': Memory)
    requires HeapOk(h, 0) && b !in h.blocks && BlocksOk(h.blocks[b := Block(32 + n, Chunked)])
    requires OnlyIn(h.w, w', b, 32 + n) && Rd(w', b) == 8 && Rd(w', b + 8 + n) == 8 && Rd(w', b + 8) == n
    requires Rd(w', b + n) == 0
    ensures b + 8 !in Live(h.chunks, 0)
    ensures var cs := h.chunks[b + 8 := Chunk(n, true, b, 0)];
      && HeapOk(Heap(w', h.bins, h.nodes, cs, h.blocks[b := Block(32 + n, Chunked)]), 0)
      && Live(cs, 0) == Live(h.chunks, 0)[b + 8 := n]
  {
    hide Linked, FloorBin, Tiled, Calm, BlocksOk, Members;
    var cs, bs := h.chunks[b + 8 := Chunk(n, true, b, 0)], h.blocks[b := Block(32 + n, Chunked)];
    TwoBlocks(bs, b, b);
    OpenKeeps(h, b, 32 + n, w');
    forall a | a in cs ensures TagOk(w', cs, 0, a) { assert TagOk(w', cs, b + 8, a); }
    NoChunkAtZero(h);
    LiveAgain(cs, b + 8);
  }

  lemma LiveAgain(chunks: Chunks, f: int)
    requires f in chunks && chunks[f].used && f != 0 && 0 !in chunks
    ensures Live(chunks, 0) == Live(chunks, f)[f := chunks[f].size]
  {
  }

  /** The packed header gives back bin and count. */
  lemma HeaderWords(w: Memory, b: int, u: Use)
    requires BricksOk(w, b, u)
    ensures Rd(w, b) / CountRange == u.bin && Rd(w, b) % CountRange == Count(u) && (u.bin + 1) * 8 == Step(u.bin)
    ensures 0 < Count(u) ==> (Rd(w, b) - 1) / CountRange == u.bin && (Rd(w, b) - 1) % CountRange == Count(u) - 1
    ensures Count(u) < Capacity(u.bin) ==>
      (Rd(w, b) + 1) / CountRange == u.bin && (Rd(w, b) + 1) % CountRange == Count(u) + 1
  {
    hide Capacity, Span;
    Sizes(b, u);
    Unpack(u.bin, Count(u));
    if 0 < Count(u) { Unpack(u.bin, Count(u) - 1); }
    if Count(u) < Capacity(u.bin) { Unpack(u.bin, Count(u) + 1); }
  }

  /** The block's list head is the brick to take, and its header says whether it was handed out before. */
  lemma TopBrick(w: Memory, w2: Memory, b: int, u: Use)
    requires BricksOk(w, b, u) && 0 < Count(u) && 0 < b && SameBody(w[b := Rd(w, b) - 1], w2, b)
    ensures Rd(w2, b + HeadAt) == TakenBrick(u) && Rd(w2, b) == Rd(w, b) - 1
    ensures TakenBrick(u) != b && Even(b) && b + 8 <= TakenBrick(u) && TakenBrick(u) + Step(u.bin) <= b + HeadAt
  {
    hide Capacity, Span, Step;
    Sizes(b, u);
    TakeOk(w, b, u);
    AlignedEven(b);
    assert Rd(w2, b) == Rd(w, b) - 1 && Rd(w2, b + HeadAt) == Rd(w, b + HeadAt);
  }

  /** The chunk heap after work on bricks. */
  lemma TakenKeepsRest(h: Heap, w': Memory, b: int, u: Use, a: int)
    requires HeapOk(h, 0) && IsBricked(h.blocks, b) && KeptBricks(h.w, w', h.blocks, a) && u.Bricked?
    ensures HeapOk(Heap(w', h.bins, h.nodes, h.chunks, h.blocks[b := h.blocks[b].(use := u)]), 0)
  {
    hide Linked, FloorBin, Tiled, Calm, Tagged, Members, LiveSame;
    var bs := h.blocks[b := h.blocks[b].(use := u)];
    assert BlockOk(h.blocks, b);
    SameUse(h.blocks, b, u);
    assert SameChunked(h.w, w', h.blocks, bs);
    ChunkFrame(h, w', bs);
  }

  lemma LiveSize(chunks: Chunks, f: int, a: int)
    requires a in Live(chunks, f)
    ensures a in chunks && Live(chunks, f)[a] == chunks[a].size
  {
  }

  lemma SparedLess(w: Memory, w': Memory, live: map<int, int>, a: int, s: int)
    requires Spared(w, w', live[a := s]) && a !in live
    ensures Spared(w, w', live)
  {
    forall c, x | c in live && c <= x < c + live[c] ensures Rd(w', x) == Rd(w, x) {
      assert c in live[a := s];
    }
  }

  /** Staying the same twice over. */
  lemma SameTwice(w0: Memory, w1: Memory, w2: Memory, blocks: Blocks, bs: Blocks, bs1: Blocks)
    requires SameBricked(w0, w1, blocks, bs1) && SameBricked(w1, w2, bs1, bs)
    ensures SameBricked(w0, w2, blocks, bs)
  {
    forall b ensures IsBricked(bs, b) <==> IsBricked(blocks, b) {
      assert IsBricked(bs, b) <==> IsBricked(bs1, b);
      assert IsBricked(bs1, b) <==> IsBricked(blocks, b);
    }
    forall b, x | IsBricked(blocks, b) && b <= x < b + BlockDefault ensures Rd(w2, x) == Rd(w0, x) {
      assert IsBricked(bs1, b) && Rd(w1, x) == Rd(w0, x);
    }
  }

  /** Work inside a block that is neither for chunks nor for bricks reaches neither. */
  lemma OnlyInSame(w: Memory, w': Memory, blocks: Blocks, b: int, n: int)
    requires OnlyIn(w, w', b, n) && !IsChunked(blocks, b) && !IsBricked(blocks, b)
    requires BlocksOk(blocks) && BlocksOk(blocks[b := Block(n, Chunked)])
    ensures SameChunked(w, w', blocks, blocks) && SameBricked(w, w', blocks, blocks)
    ensures SameBricked(w, w', blocks, blocks[b := Block(n, Chunked)])
  {
    var bs := blocks[b := Block(n, Chunked)];
    forall k | k in blocks && k != b ensures (k + blocks[k].size <= b || b + n <= k) && BlockDefault <= blocks[k].size {
      assert BlocksApart(bs, b, k) && BlockOk(blocks, k);
    }
  }

  lemma ChunkedLive(h: Heap, w': Memory)
    requires HeapOk(h, 0) && SameChunked(h.w, w', h.blocks, h.blocks)
    ensures Spared(h.w, w', Live(h.chunks, 0))
  {
    hide Linked, FloorBin, Calm, Tagged;
    forall a, x | a in Live(h.chunks, 0) && a <= x < a + h.chunks[a].size ensures Rd(w', x) == Rd(h.w, x) {
      assert Placed(h.chunks, h.blocks, a) && IsChunked(h.blocks, h.chunks[a].block);
    }
  }

  lemma NotStacked(undes: seq<int>, blocks: Blocks, b: int)
    requires UndesOk(undes, blocks) && (b in blocks ==> !blocks[b].use.Spare?)
    ensures b !in undes
  {
  }

  /** Block `b`, not on the stack, is put on it. */
  lemma UndesPush(undes: seq<int>, blocks: Blocks, b: int, bs: Blocks)
    requires UndesOk(undes, blocks) && b in blocks && !blocks[b].use.Spare? && |undes| < UndesMax
    requires b in bs && bs[b].use.Spare? && bs == blocks[b := bs[b]]
    ensures UndesOk(undes + [b], bs)
  {
  }

  /** Block `b`, not on the stack, changes or goes. */
  lemma UndesOther(undes: seq<int>, blocks: Blocks, b: int, bs: Blocks)
    requires UndesOk(undes, blocks) && b !in undes && (b in bs ==> !bs[b].use.Spare?)
    requires forall k :: k != b ==> (k in bs <==> k in blocks) && (k in bs ==> bs[k] == blocks[k])
    ensures UndesOk(undes, bs)
  {
  }

  /** The books when a brick block changes inside. */
  lemma BooksWithin(undes: seq<int>, blocks: Blocks, b: int, u: Use)
    requires UndesOk(undes, blocks) && IsBricked(blocks, b) && u.Bricked?
    ensures var bs := blocks[b := blocks[b].(use := u)]; UndesOk(undes, bs) && TotalSize(bs) == TotalSize(blocks)
  {
    hide TotalSize;
    NotStacked(undes, blocks, b);
    UndesOther(undes, blocks, b, blocks[b := blocks[b].(use := u)]);
    TotalChange(blocks, b, blocks[b].(use := u));
  }

  /** The books when block `b`, off the stack, is designated. */
  lemma BooksWith(undes: seq<int>, blocks: Blocks, b: int, blk: Block)
    requires UndesOk(undes, blocks - {b}) && !blk.use.Spare?
    ensures UndesOk(undes, blocks[b := blk]) && TotalSize(blocks[b := blk]) == TotalSize(blocks - {b}) + blk.size
  {
    hide TotalSize;
    NotStacked(undes, blocks - {b}, b);
    UndesOther(undes, blocks - {b}, b, blocks[b := blk]);
    TotalChange(blocks, b, blk);
  }

  /** The books when block `b`, off the stack, loses its designation or goes. */
  lemma BooksWithout(undes: seq<int>, blocks: Blocks, b: int)
    requires UndesOk(undes, blocks) && b in blocks && !blocks[b].use.Spare?
    ensures |undes| < UndesMax ==> UndesOk(undes + [b], blocks[b := blocks[b].(use := Spare)])
    ensures TotalSize(blocks[b := blocks[b].(use := Spare)]) == TotalSize(blocks)
    ensures UndesOk(undes, blocks - {b}) && TotalSize(blocks - {b}) == TotalSize(blocks) - blocks[b].size
  {
    hide TotalSize;
    TotalChange(blocks, b, blocks[b].(use := Spare));
    NotStacked(undes, blocks, b);
    UndesOther(undes, blocks, b, blocks - {b});
    if |undes| < UndesMax { UndesPush(undes, blocks, b, blocks[b := blocks[b].(use := Spare)]); }
  }

  lemma UnstackUndes(undes: seq<int>, blocks: Blocks)
    requires UndesOk(undes, blocks) && undes != []
    ensures UndesOk(undes[..|undes| - 1], blocks - {undes[|undes| - 1]})
  {
    var n := |undes| - 1;
    forall b ensures b in undes[..n] <==> b in undes && b != undes[n] {
      if b in undes { var i :| 0 <= i < |undes| && undes[i] == b; }
    }
  }

  lemma Redesignate(blocks: Blocks, b: int, u: Use)
    requires BlocksOk(blocks) && b in blocks && blocks[b].use.Spare?
    ensures blocks[b].size == BlockDefault && BlocksOk(blocks[b := Block(BlockDefault, u)])
  {
    assert BlockOk(blocks, b);
    SameUse(blocks, b, u);
    assert blocks[b].(use := u) == Block(BlockDefault, u);
  }

  lemma BinHead(h: Heap, k: nat)
    requires HeapOk(h, 0) && k < |h.bins| && h.bins[k] != 0
    ensures var x := h.bins[k];
      && x in h.nodes && h.nodes[x].bin == k && Rd(h.w, x + 8) == 0 && x in h.chunks && !h.chunks[x].used
      && 0 < h.chunks[x].size <= FixedMax && FloorBin(h.chunks[x].size) == k
      && h.chunks[x].block in h.blocks && h.blocks[h.chunks[x].block].size == BlockDefault
      && x !in Live(h.chunks, 0)
  {
    hide Linked, FloorBin, Tagged;
    var x := h.bins[k];
    HeadIsMember(h.w, 8, h.bins, h.nodes, k);
    assert MemberOk(h.nodes, h.chunks, x) && CalmAt(h.chunks, h.blocks, x) && Placed(h.chunks, h.blocks, x);
    assert BlockOk(h.blocks, h.chunks[x].block);
  }

  /** Only bins of small classes are ever used. */
  lemma SmallOnly(h: Heap, k: nat)
    requires HeapOk(h, 0) && k < |h.bins| && h.bins[k] != 0
    ensures k < SmallBins
  {
    hide HeapOk, Size2Bin, Bin2Size;
    BinHead(h, k);
    SmallSizes(h.chunks[h.bins[k]].size);
  }

  lemma AlignExact(x: nat)
    requires Aligned(x)
    ensures Align(x) == x
  {
  }

  lemma HeapBlocks(h: Heap, f: int)
    requires HeapOk(h, f)
    ensures BlocksOk(h.blocks) && 0 !in h.chunks && 0 !in h.blocks
    ensures f != 0 ==> f in h.chunks && 0 < f
  {
    hide Linked, FloorBin, Calm, Tagged, Members;
    NoChunkAtZero(h);
    if 0 in h.blocks { TwoBlocks(h.blocks, 0, 0); }
    if f != 0 { PlacedAt(h.chunks, h.blocks, f); }
  }

  lemma ForeignBricked(w: Memory, w': Memory, blocks: Blocks, bs: Blocks)
    requires BlocksOk(blocks) && Spared(w, w', Foreign(blocks)) && SameLive(blocks, bs)
    ensures SameBricked(w, w', blocks, bs)
  {
    forall b, x | IsBricked(blocks, b) && b <= x < b + BlockDefault ensures Rd(w', x) == Rd(w, x) {
      assert b in Foreign(blocks) && BlockOk(blocks, b);
    }
  }

  lemma FooterKeepsHeader(h: Heap, f: int)
    requires HeapOk(h, f) && f in h.chunks
    ensures Rd(h.w[After(h.chunks, f) - 8 := h.chunks[f].size], f) == Rd(h.w, f) == h.chunks[f].size
  {
    hide Linked, FloorBin;
    assert Placed(h.chunks, h.blocks, f) && TagOk(h.w, h.chunks, f, f);
  }

  /** A chunk that is its whole block has the sentinel on both sides, and its block starts one word before. */
  lemma WholeTags(h: Heap, f: int)
    requires HeapOk(h, f) && f != 0 && Whole(h.chunks, h.blocks, f)
    ensures Rd(h.w, f - 8) == 8 && h.chunks[f].block == f - 8 && IsChunked(h.blocks, f - 8)
    ensures Rd(h.w, f) == h.chunks[f].size && Aligned(Rd(h.w, f)) && 0 < Rd(h.w, f)
    ensures h.blocks[f - 8].size == 32 + h.chunks[f].size
  {
    hide Linked, FloorBin;
    WordBefore(h, f);
    WordAfter(h, f);
    NoChunkAtZero(h);
    assert Placed(h.chunks, h.blocks, f);
  }

  lemma ReadWhole(h: Heap, f: int)
    requires HeapOk(h, f) && f != 0 && f in h.chunks && PrevUsed(h.chunks, f) && NextUsed(h.chunks, f)
    ensures Even(Rd(h.w, f)) && Even(Rd(h.w, f + Rd(h.w, f)))
    ensures Rd(h.w, f - 8) == 8 && Rd(h.w, f + Rd(h.w, f)) == 8 <==> Whole(h.chunks, h.blocks, f)
    ensures Whole(h.chunks, h.blocks, f) || Isolated(h.chunks, h.blocks, f)
  {
    hide HeapOk, Aligned, Even;
    WordBefore(h, f);
    WordAfter(h, f);
    AlignedEven(Rd(h.w, f));
    AlignedEven(Rd(h.w, After(h.chunks, f)));
  }

  lemma AlignedEven(x: int)
    requires Aligned(x)
    ensures Even(x)
  {
    assert x == 2 * (4 * (x / 8));
  }

  /** What the words before a chunk being put mean for coalescing. */
  lemma ReadPrev(h: Heap, c: int)
    requires HeapOk(h, c) && c != 0
    ensures c in h.chunks
    ensures var prev := c - Rd(h.w, c - 8);
      if Rd(h.w, c - 8) == 8 || prev == c then PrevUsed(h.chunks, c)
      else prev != 0 && Absorbable(h, c, prev, prev) && Even(Rd(h.w, prev)) && Rd(h.w, prev + Rd(h.w, prev) - 8) != 0
  {
    hide Linked, FloorBin, Tiled, Calm, Tagged, BlocksOk;
    WordBefore(h, c);
    NoChunkAtZero(h);
    if h.chunks[c].prev != 0 { TagEven(h, c, h.chunks[c].prev); }
  }

  lemma ReadNext(h: Heap, c: int)
    requires HeapOk(h, c) && c != 0
    ensures Rd(h.w, c) == h.chunks[c].size && Even(Rd(h.w, c)) && Even(Rd(h.w, After(h.chunks, c)))
    ensures var next := After(h.chunks, c);
      if Rd(h.w, next) == 8 || Rd(h.w, next + Rd(h.w, next) - 8) == 0 then NextUsed(h.chunks, c)
      else Absorbable(h, c, c, next)
  {
    hide Linked, FloorBin, Tiled, Calm, Tagged, BlocksOk;
    WordAfter(h, c);
    if After(h.chunks, c) == End(h.blocks, h.chunks[c].block) { NoNextAtEnd(h, c); }
  }

  lemma NoNextAtEnd(h: Heap, c: int)
    requires HeapOk(h, c) && c != 0 && h.chunks[c].block in h.blocks
    requires After(h.chunks, c) == End(h.blocks, h.chunks[c].block)
    ensures NextUsed(h.chunks, c)
  {
    hide Linked, FloorBin, Calm, Tagged, BlocksOk;
    var n := After(h.chunks, c);
    NoChunkAtZero(h);
    if n in h.chunks { assert Placed(h.chunks, h.blocks, n); }
  }

  predicate Even(x: int) { x % 2 == 0 }

  lemma TagEven(h: Heap, f: int, x: int)
    requires HeapOk(h, f) && x in h.chunks
    ensures Rd(h.w, x) == h.chunks[x].size && Even(Rd(h.w, x))
  {
    hide Linked, FloorBin;
    assert TagOk(h.w, h.chunks, f, x) && Placed(h.chunks, h.blocks, x);
  }

  /** Unlinking does not touch headers. */
  lemma DeletedHeaders(h: Heap, f: int, x: int, a: int)
    requires HeapOk(h, f) && x in h.nodes && a in h.chunks
    ensures Rd(Deleted(h.w, x), a) == h.chunks[a].size
    ensures After(h.chunks, a) in h.chunks ==>
      Rd(Deleted(h.w, x), After(h.chunks, a)) == h.chunks[After(h.chunks, a)].size
  {
    hide Linked, FloorBin, Deleted, Tiled, BlocksOk, Calm;
    DeleteKeeps(h, f, x);
    var w' := Deleted(h.w, x);
    assert TagOk(w', h.chunks, f, a);
    if After(h.chunks, a) in h.chunks { assert TagOk(w', h.chunks, f, After(h.chunks, a)); }
  }

  lemma FixedFits(size: nat)
    ensures size + 16 <= ChunkSize(size) && (ChunkSize(size) <= FixedMax ==> size <= TopSize)
  {
  }

  lemma ChunkPositive(h: Heap, a: int)
    requires HeapOk(h, 0) && a in h.chunks
    ensures 0 < a
  {
    hide Linked, FloorBin, Calm, Tagged, Members;
    PlacedAt(h.chunks, h.blocks, a);
  }

  lemma KeysWith(blocks: Blocks, b: int, blk: Block)
    ensures blocks[b := blk].Keys == blocks.Keys + {b}
    ensures b in blocks ==> blocks[b := blk].Keys == blocks.Keys
  {
  }

  /** Giving up the words of a brick block touches nothing outside it. */
  lemma BlankedWords(w: Memory, b: int)
    ensures OnlyIn(w, w, b, BlockDefault)
    ensures OnlyIn(w, w[b := 0][b + LinksAt := 0][b + LinksAt + 8 := 0][b + HeadAt := 0], b, BlockDefault)
  {
  }
}
