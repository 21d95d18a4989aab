/**
 The chunk heap in memory: boundary tags, free lists, and what every piece of `kl_chunk_del`,
 `kl_chunk_put` and `kl_chunk_get` does to them.
 */
module ChunkHeap {
  import opened SizeClasses
  import opened FreeLists
  import opened ChunkTiling

  const BinCount := 1576

  /** Memory and bin heads, with the chunks, free-list members and blocks they stand for. */
  datatype Heap = Heap(w: Memory, bins: seq<int>, nodes: map<int, Node>, chunks: Chunks, blocks: Blocks)

  // ---------------------------------------------------------------- the invariant

  /** Header and footer.  The footer of chunk `f`, which is being worked on, may be anything. */
  ghost predicate TagOk(w: Memory, chunks: Chunks, f: int, a: int) {
    && a in chunks
    && Rd(w, a) == chunks[a].size
    && (a == f || Rd(w, After(chunks, a) - 8) == if chunks[a].used then 0 else chunks[a].size)
  }

  /** The sentinel 8 stands before the first and after the last chunk of a block. */
  ghost predicate EdgeOk(w: Memory, blocks: Blocks, b: int) {
    b in blocks && (Rd(w, b) == 8 && Rd(w, End(blocks, b)) == 8)
  }

  ghost predicate Tagged(w: Memory, chunks: Chunks, blocks: Blocks, f: int) {
    && (forall a {:trigger TagOk(w, chunks, f, a)} :: a in chunks ==> TagOk(w, chunks, f, a))
    && (forall b {:trigger EdgeOk(w, blocks, b)} :: IsChunked(blocks, b) ==> EdgeOk(w, blocks, b))
  }

  /** A free chunk is not followed by a free one and is not its whole block; blocks of more than the
      default size are one chunk. */
  ghost predicate CalmAt(chunks: Chunks, blocks: Blocks, a: int) {
    a in chunks &&
    var c, n := chunks[a], After(chunks, a);
    && (!c.used && n in chunks && chunks[n].prev == a ==> chunks[n].used)
    && (!c.used ==> !Whole(chunks, blocks, a))
    && (c.block in blocks && blocks[c.block].size > BlockDefault ==> Whole(chunks, blocks, a))
  }

  predicate Whole(chunks: Chunks, blocks: Blocks, a: int) {
    && a in chunks
    && chunks[a].prev == 0 && chunks[a].block in blocks
    && After(chunks, a) == End(blocks, chunks[a].block)
  }

  ghost predicate Calm(chunks: Chunks, blocks: Blocks) {
    forall a {:trigger CalmAt(chunks, blocks, a)} :: a in chunks ==> CalmAt(chunks, blocks, a)
  }

  /** The members of the free lists are the free chunks, each in the class its size calls for. */
  ghost predicate MemberOk(nodes: map<int, Node>, chunks: Chunks, a: int) {
    && (a in nodes <==> a in chunks && !chunks[a].used)
    && (a in nodes ==> 0 < chunks[a].size <= FixedMax && nodes[a].bin == FloorBin(chunks[a].size))
  }

  ghost predicate Members(nodes: map<int, Node>, chunks: Chunks) {
    forall a {:trigger MemberOk(nodes, chunks, a)} :: MemberOk(nodes, chunks, a)
  }

  /** The invariant, while chunk `f` (0 for none), which counts as in use, is being worked on. */
  ghost predicate HeapOk(h: Heap, f: int) {
    && BlocksOk(h.blocks) && Tiled(h.chunks, h.blocks) && Calm(h.chunks, h.blocks)
    && Tagged(h.w, h.chunks, h.blocks, f)
    && Members(h.nodes, h.chunks) && Linked(h.w, 8, h.bins, h.nodes) && |h.bins| == BinCount
    && (f != 0 ==> f in h.chunks && h.chunks[f].used)
  }

  // ---------------------------------------------------------------- what is left alone

  /** Sizes of the chunks in use, by address, other than the one being worked on. */
  ghost function Live(chunks: Chunks, f: int): map<int, int> {
    map a | a in chunks && chunks[a].used && a != f :: chunks[a].size
  }

  /** Blocks not designated for chunks. */
  ghost function Foreign(blocks: Blocks): map<int, int> {
    map b | b in blocks && !blocks[b].use.Chunked? :: blocks[b].size
  }

  lemma SparedOne(h: Heap, f: int, w: Memory, a: int, x: int, v: int)
    requires Tiled(h.chunks, h.blocks) && BlocksOk(h.blocks)
    requires a in h.chunks && (a == f || !h.chunks[a].used) && a <= x < After(h.chunks, a)
    ensures Spared(w, w[x := v], Live(h.chunks, f)) && Spared(w, w[x := v], Foreign(h.blocks))
  {
    hide Tiled, BlocksOk;
    forall y | y in Live(h.chunks, f) ensures !(y <= x < y + Live(h.chunks, f)[y]) {
      InOrder(h.chunks, h.blocks, a, y);
    }
    forall b | b in Foreign(h.blocks) ensures !(b <= x < b + Foreign(h.blocks)[b]) {
      EdgesOutside(h.chunks, h.blocks, a, b);
    }
  }

  /** Both at once. */
  ghost predicate Kept(h: Heap, f: int, w: Memory, w': Memory) {
    Spared(w, w', Live(h.chunks, f)) && Spared(w, w', Foreign(h.blocks))
  }

  lemma KeptOne(h: Heap, f: int, w: Memory, w1: Memory, a: int, x: int, v: int)
    requires Tiled(h.chunks, h.blocks) && BlocksOk(h.blocks) && Kept(h, f, w, w1)
    requires a in h.chunks && (a == f || !h.chunks[a].used) && a <= x < After(h.chunks, a)
    ensures Kept(h, f, w, w1[x := v])
  {
    hide Tiled, BlocksOk, Spared, Live, Foreign;
    SparedOne(h, f, w1, a, x, v);
    SparedTwice(w, w1, w1[x := v], Live(h.chunks, f));
    SparedTwice(w, w1, w1[x := v], Foreign(h.blocks));
  }

  // ---------------------------------------------------------------- link words are not tags

  lemma LinkKeepsTags(h: Heap, f: int, w: Memory, a: int, x: int, v: int)
    requires Tiled(h.chunks, h.blocks) && BlocksOk(h.blocks) && Tagged(w, h.chunks, h.blocks, f)
    requires a in h.chunks && a < x < After(h.chunks, a) - 8
    ensures Tagged(w[x := v], h.chunks, h.blocks, f)
  {
    hide Tiled, BlocksOk;
    forall y | y in h.chunks ensures TagOk(w[x := v], h.chunks, f, y) {
      assert TagOk(w, h.chunks, f, y);
      InOrder(h.chunks, h.blocks, a, y);
    }
    forall b | IsChunked(h.blocks, b) ensures EdgeOk(w[x := v], h.blocks, b) {
      assert EdgeOk(w, h.blocks, b);
      EdgesOutside(h.chunks, h.blocks, a, b);
    }
  }

  /** Writing a link of a free chunk, or of the one being worked on, changes lists only. */
  lemma LinkWrite(h: Heap, f: int, w: Memory, w1: Memory, a: int, x: int, v: int)
    requires Tiled(h.chunks, h.blocks) && BlocksOk(h.blocks)
    requires Tagged(w1, h.chunks, h.blocks, f) && Kept(h, f, w, w1)
    requires a in h.chunks && (a == f || !h.chunks[a].used) && (x == a + 8 || x == a + 16)
    ensures Tagged(w1[x := v], h.chunks, h.blocks, f) && Kept(h, f, w, w1[x := v])
  {
    hide Tiled, BlocksOk, Tagged, Kept;
    InOrder(h.chunks, h.blocks, a, a);
    LinkKeepsTags(h, f, w1, a, x, v);
    KeptOne(h, f, w, w1, a, x, v);
  }

  lemma MembersSpread(h: Heap)
    requires Tiled(h.chunks, h.blocks) && Members(h.nodes, h.chunks)
    ensures Spread(h.nodes)
  {
    hide Tiled;
    forall x, y | x in h.nodes && y in h.nodes && x < y ensures x + 16 <= y {
      assert MemberOk(h.nodes, h.chunks, x) && MemberOk(h.nodes, h.chunks, y);
      InOrder(h.chunks, h.blocks, x, y);
    }
  }

  // ---------------------------------------------------------------- kl_chunk_del

  function Deleted(w: Memory, x: int): Memory { Bypassed(w, 8, x)[x + 8 := 0][x + 16 := 0] }

  lemma BypassKeeps(h: Heap, f: int, x: int)
    requires HeapOk(h, f) && x in h.nodes
    ensures Tagged(Bypassed(h.w, 8, x), h.chunks, h.blocks, f) && Kept(h, f, h.w, Bypassed(h.w, 8, x))
  {
    hide Tiled, BlocksOk, Tagged, Calm;
    assert MemberOk(h.nodes, h.chunks, x);
    assert NodeOk(h.w, 8, h.bins, h.nodes, x);
    var p, q := Rd(h.w, x + 8), Rd(h.w, x + 16);
    var w1 := if p == 0 then h.w else h.w[p + 16 := q];
    if p != 0 { assert MemberOk(h.nodes, h.chunks, p); LinkWrite(h, f, h.w, h.w, p, p + 16, q); }
    if q != 0 { assert MemberOk(h.nodes, h.chunks, q); LinkWrite(h, f, h.w, w1, q, q + 8, p); }
  }

  /** Taking a free chunk off its list, wherever it is there, disturbs nothing but lists; and the bin it is
      taken from is the one recomputed from its header. */
  lemma DeleteKeeps(h: Heap, f: int, x: int)
    requires HeapOk(h, f) && x in h.nodes
    ensures x in h.chunks && 0 < Rd(h.w, x) <= FixedMax && h.nodes[x].bin == FloorBin(Rd(h.w, x)) < |h.bins|
    ensures Tagged(Deleted(h.w, x), h.chunks, h.blocks, f) && Kept(h, f, h.w, Deleted(h.w, x))
    ensures Linked(Deleted(h.w, x), 8, BypassedHeads(h.w, 8, h.bins, h.nodes[x].bin, x), h.nodes - {x})
  {
    hide Tiled, BlocksOk, Linked, Calm, Kept, Bypassed;
    assert MemberOk(h.nodes, h.chunks, x) && TagOk(h.w, h.chunks, f, x);
    MembersSpread(h);
    BypassLinked(h.w, 8, h.bins, h.nodes, x);
    BypassKeeps(h, f, x);
    var w1 := Bypassed(h.w, 8, x);
    LinkWrite(h, f, h.w, w1, x, x + 8, 0);
    LinkWrite(h, f, h.w, w1[x + 8 := 0], x, x + 16, 0);
    OffList(h, w1, BypassedHeads(h.w, 8, h.bins, h.nodes[x].bin, x), x);
  }

  lemma OffList(h: Heap, w1: Memory, heads: seq<int>, x: int)
    requires Tiled(h.chunks, h.blocks) && Members(h.nodes, h.chunks) && x in h.nodes
    requires Linked(w1, 8, heads, h.nodes - {x})
    ensures Linked(w1[x + 8 := 0][x + 16 := 0], 8, heads, h.nodes - {x})
    ensures Linked(w1[x + 16 := 0], 8, heads, h.nodes - {x})
  {
    hide Tiled, Linked, Members;
    MembersSpread(h);
    LinkedFrame(w1, w1[x + 8 := 0][x + 16 := 0], 8, heads, h.nodes - {x});
    LinkedFrame(w1, w1[x + 16 := 0], 8, heads, h.nodes - {x});
  }

  // ---------------------------------------------------------------- kl_chunk_put

  /** A free chunk `x` and the chunk `f` being put, one of them `a` and the other right after it, become
      one: `x` leaves its list and the header of `a` takes in both sizes. */
  function Absorbed(h: Heap, a: int, x: int): Heap
    requires a in h.chunks && After(h.chunks, a) in h.chunks && x in h.nodes && h.nodes[x].bin < |h.bins|
  {
    Heap(Deleted(h.w, x)[a := h.chunks[a].size + h.chunks[After(h.chunks, a)].size],
         BypassedHeads(h.w, 8, h.bins, h.nodes[x].bin, x), h.nodes - {x}, Merge(h.chunks, a), h.blocks)
  }

  ghost predicate Absorbable(h: Heap, f: int, a: int, x: int) {
    && a in h.chunks && After(h.chunks, a) in h.chunks && h.chunks[After(h.chunks, a)].prev == a
    && x in h.nodes && ((x == a && f == After(h.chunks, a)) || (f == a && x == After(h.chunks, a)))
  }

  lemma MergedTags(h: Heap, f: int, w: Memory, a: int, v: int)
    requires Tiled(h.chunks, h.blocks) && BlocksOk(h.blocks) && Tagged(w, h.chunks, h.blocks, f)
    requires a in h.chunks && After(h.chunks, a) in h.chunks && (f == a || f == After(h.chunks, a))
    requires v == h.chunks[a].size + h.chunks[After(h.chunks, a)].size
    ensures Tagged(w[a := v], Merge(h.chunks, a), h.blocks, a)
  {
    hide Tiled, BlocksOk;
    var cs := Merge(h.chunks, a);
    InOrder(h.chunks, h.blocks, a, After(h.chunks, a));
    forall y | y in cs ensures TagOk(w[a := v], cs, a, y) {
      assert TagOk(w, h.chunks, f, y);
      InOrder(h.chunks, h.blocks, a, y);
    }
    forall b | IsChunked(h.blocks, b) ensures EdgeOk(w[a := v], h.blocks, b) {
      assert EdgeOk(w, h.blocks, b);
      EdgesOutside(h.chunks, h.blocks, a, b);
    }
  }

  lemma MergedCalm(h: Heap, a: int)
    requires Tiled(h.chunks, h.blocks) && Calm(h.chunks, h.blocks)
    requires a in h.chunks && After(h.chunks, a) in h.chunks && h.chunks[After(h.chunks, a)].prev == a
    ensures Calm(Merge(h.chunks, a), h.blocks)
  {
    var b, cs := After(h.chunks, a), Merge(h.chunks, a);
    assert Placed(h.chunks, h.blocks, a) && Placed(h.chunks, h.blocks, b) && CalmAt(h.chunks, h.blocks, a);
    forall y | y in cs ensures CalmAt(cs, h.blocks, y) {
      assert CalmAt(h.chunks, h.blocks, y) && Placed(h.chunks, h.blocks, y);
    }
  }

  lemma MergedMembers(h: Heap, f: int, a: int, x: int)
    requires Tiled(h.chunks, h.blocks) && Members(h.nodes, h.chunks) && Absorbable(h, f, a, x) && h.chunks[f].used
    ensures Members(h.nodes - {x}, Merge(h.chunks, a))
  {
    hide Tiled;
    InOrder(h.chunks, h.blocks, a, After(h.chunks, a));
    var nodes, cs := h.nodes - {x}, Merge(h.chunks, a);
    forall y ensures MemberOk(nodes, cs, y) {
      assert MemberOk(h.nodes, h.chunks, y);
    }
  }

  lemma MergedLive(h: Heap, f: int, a: int, x: int)
    requires Tiled(h.chunks, h.blocks) && Members(h.nodes, h.chunks) && Absorbable(h, f, a, x)
    ensures Live(Merge(h.chunks, a), a) == Live(h.chunks, f)
    ensures a in Merge(h.chunks, a) && Merge(h.chunks, a)[a].used && a != 0
  {
    hide Tiled;
    InOrder(h.chunks, h.blocks, a, After(h.chunks, a));
    PlacedAt(h.chunks, h.blocks, a);
    assert MemberOk(h.nodes, h.chunks, x);
  }

  /** Coalescing keeps the whole invariant, now working on the merged chunk. */
  lemma AbsorbKeeps(h: Heap, f: int, a: int, x: int)
    requires HeapOk(h, f) && Absorbable(h, f, a, x) && f != 0
    ensures h.nodes[x].bin < |h.bins| && HeapOk(Absorbed(h, a, x), a) && Kept(h, f, h.w, Absorbed(h, a, x).w)
    ensures Live(Absorbed(h, a, x).chunks, a) == Live(h.chunks, f)
  {
    hide Tiled, BlocksOk, Linked, Calm, Kept, Deleted, Tagged, Merge, Live;
    DeleteKeeps(h, f, x);
    assert MemberOk(h.nodes, h.chunks, x) && MemberOk(h.nodes, h.chunks, f);
    InOrder(h.chunks, h.blocks, a, x);
    var v, w1 := h.chunks[a].size + h.chunks[After(h.chunks, a)].size, Deleted(h.w, x);
    MergeTiled(h.chunks, h.blocks, a);
    MergedTags(h, f, w1, a, v);
    MergedCalm(h, a);
    MergedMembers(h, f, a, x);
    MergedLive(h, f, a, x);
    HeaderOffLists(h, w1, BypassedHeads(h.w, 8, h.bins, h.nodes[x].bin, x), h.nodes - {x}, a, a, v);
    KeptOne(h, f, h.w, w1, a, a, v);
  }

  /** A word of chunk `a` that is not a link, or any word of a chunk that is on no list, is on no list. */
  lemma HeaderOffLists(h: Heap, w: Memory, heads: seq<int>, nodes: map<int, Node>, a: int, x: int, v: int)
    requires Tiled(h.chunks, h.blocks) && Members(h.nodes, h.chunks) && nodes.Keys <= h.nodes.Keys
    requires Linked(w, 8, heads, nodes) && a in h.chunks && a <= x < After(h.chunks, a)
    requires a !in nodes || (x != a + 8 && x != a + 16)
    ensures Linked(w[x := v], 8, heads, nodes)
  {
    hide Tiled, Linked;
    forall y | y in nodes ensures x != y + 8 && x != y + 16 {
      assert y in h.nodes.Keys && MemberOk(h.nodes, h.chunks, y);
      InOrder(h.chunks, h.blocks, a, y);
    }
    LinkedFrame(w, w[x := v], 8, heads, nodes);
  }

  /** The end of `kl_chunk_put`: chunk `f` gets its footer and goes to the front of its list. */
  function Freed(h: Heap, f: int): Heap
    requires f in h.chunks && 0 < h.chunks[f].size <= FixedMax && FloorBin(h.chunks[f].size) < |h.bins|
  {
    var size := h.chunks[f].size;
    var k := FloorBin(size);
    Heap(Prepended(h.w[f + size - 8 := size], 8, h.bins[k], f), h.bins[k := f],
         h.nodes[f := Node(k, RankAbove(h.bins, h.nodes, k))], Mark(h.chunks, f, false), h.blocks)
  }

  /** Both neighbours are in use and the chunk is not its whole block. */
  ghost predicate Isolated(chunks: Chunks, blocks: Blocks, f: int) {
    && f in chunks
    && !Whole(chunks, blocks, f)
    && (chunks[f].prev in chunks && After(chunks, chunks[f].prev) == f ==> chunks[chunks[f].prev].used)
    && (After(chunks, f) in chunks && chunks[After(chunks, f)].prev == f ==> chunks[After(chunks, f)].used)
  }

  lemma FreedSize(h: Heap, f: int)
    requires HeapOk(h, f) && f in h.chunks && !Whole(h.chunks, h.blocks, f)
    ensures 0 < h.chunks[f].size <= FixedMax && FloorBin(h.chunks[f].size) < |h.bins|
  {
    hide Linked, Members, Tagged, FloorBin;
    assert Placed(h.chunks, h.blocks, f) && CalmAt(h.chunks, h.blocks, f);
    assert BlockOk(h.blocks, h.chunks[f].block);
    FloorClass(h.chunks[f].size, 0);
  }

  lemma FreedTags(h: Heap, f: int, w: Memory)
    requires Tiled(h.chunks, h.blocks) && BlocksOk(h.blocks) && Tagged(w, h.chunks, h.blocks, f) && f in h.chunks
    ensures Tagged(w[After(h.chunks, f) - 8 := h.chunks[f].size], Mark(h.chunks, f, false), h.blocks, 0)
  {
    hide Tiled, BlocksOk;
    var v := h.chunks[f].size;
    var w', cs := w[After(h.chunks, f) - 8 := v], Mark(h.chunks, f, false);
    InOrder(h.chunks, h.blocks, f, f);
    forall y | y in cs ensures TagOk(w', cs, 0, y) {
      assert TagOk(w, h.chunks, f, y);
      InOrder(h.chunks, h.blocks, f, y);
    }
    forall b | IsChunked(h.blocks, b) ensures EdgeOk(w', h.blocks, b) {
      assert EdgeOk(w, h.blocks, b);
      EdgesOutside(h.chunks, h.blocks, f, b);
    }
  }

  lemma FreedCalm(h: Heap, f: int)
    requires Tiled(h.chunks, h.blocks) && Calm(h.chunks, h.blocks) && f in h.chunks && Isolated(h.chunks, h.blocks, f)
    ensures Calm(Mark(h.chunks, f, false), h.blocks)
  {
    var cs := Mark(h.chunks, f, false);
    assert Placed(h.chunks, h.blocks, f);
    forall y | y in cs ensures CalmAt(cs, h.blocks, y) {
      assert CalmAt(h.chunks, h.blocks, y);
    }
  }

  lemma FreedMembers(h: Heap, f: int, n: Node)
    requires Members(h.nodes, h.chunks) && f in h.chunks
    requires 0 < h.chunks[f].size <= FixedMax && n.bin == FloorBin(h.chunks[f].size)
    ensures Members(h.nodes[f := n], Mark(h.chunks, f, false))
  {
    var nodes, cs := h.nodes[f := n], Mark(h.chunks, f, false);
    forall y ensures MemberOk(nodes, cs, y) {
      assert MemberOk(h.nodes, h.chunks, y);
    }
  }

  lemma MarkLive(chunks: Chunks, f: int)
    requires f in chunks && 0 !in chunks
    ensures Live(Mark(chunks, f, false), 0) == Live(chunks, f)
    ensures Live(Mark(chunks, f, true), f) == Live(chunks, f)
  {
  }

  lemma NoChunkAtZero(h: Heap)
    requires Tiled(h.chunks, h.blocks)
    ensures 0 !in h.chunks
  {
    hide Tiled;
    if 0 in h.chunks { PlacedAt(h.chunks, h.blocks, 0); }
  }

  /** A link written while chunk `f` is being put: `a` is `f` itself or a free chunk. */
  lemma PutLink(h: Heap, f: int, w: Memory, a: int, x: int, v: int)
    requires Tiled(h.chunks, h.blocks) && BlocksOk(h.blocks) && f in h.chunks
    requires a in h.chunks && (a == f || !h.chunks[a].used) && (x == a + 8 || x == a + 16)
    requires Kept(h, f, h.w, w) && Tagged(w, Mark(h.chunks, f, false), h.blocks, 0)
    ensures Kept(h, f, h.w, w[x := v]) && Tagged(w[x := v], Mark(h.chunks, f, false), h.blocks, 0)
  {
    hide Tiled, BlocksOk, Tagged, Kept;
    InOrder(h.chunks, h.blocks, a, a);
    MarkTiled(h.chunks, h.blocks, f, false);
    LinkKeepsTags(h.(chunks := Mark(h.chunks, f, false)), 0, w, a, x, v);
    KeptOne(h, f, h.w, w, a, x, v);
  }

  lemma PrependKeeps(h: Heap, f: int, w: Memory, k: nat)
    requires Tiled(h.chunks, h.blocks) && BlocksOk(h.blocks) && Members(h.nodes, h.chunks)
    requires f in h.chunks && k < |h.bins| && (h.bins[k] == 0 || h.bins[k] in h.nodes)
    requires Kept(h, f, h.w, w) && Tagged(w, Mark(h.chunks, f, false), h.blocks, 0)
    ensures Kept(h, f, h.w, Prepended(w, 8, h.bins[k], f))
    ensures Tagged(Prepended(w, 8, h.bins[k], f), Mark(h.chunks, f, false), h.blocks, 0)
  {
    hide Tiled, BlocksOk, Tagged, Kept, Mark;
    var q := h.bins[k];
    PutLink(h, f, w, f, f + 8, 0);
    PutLink(h, f, w[f + 8 := 0], f, f + 16, q);
    if q != 0 {
      assert MemberOk(h.nodes, h.chunks, q);
      PutLink(h, f, w[f + 8 := 0][f + 16 := q], q, q + 8, f);
    }
  }

  /** The end of a put re-establishes the invariant with nothing being worked on. */
  lemma FreedKeeps(h: Heap, f: int)
    requires HeapOk(h, f) && f != 0 && Isolated(h.chunks, h.blocks, f) && !Whole(h.chunks, h.blocks, f)
    ensures 0 < h.chunks[f].size <= FixedMax && FloorBin(h.chunks[f].size) < |h.bins|
    ensures HeapOk(Freed(h, f), 0) && Kept(h, f, h.w, Freed(h, f).w)
    ensures Live(Freed(h, f).chunks, 0) == Live(h.chunks, f)
  {
    hide Tiled, BlocksOk, Linked, Calm, Kept, Tagged, Live, FloorBin, Prepended, Isolated;
    FreedSize(h, f);
    var size := h.chunks[f].size;
    var k := FloorBin(size);
    var w1, n := h.w[f + size - 8 := size], Node(k, RankAbove(h.bins, h.nodes, k));
    InOrder(h.chunks, h.blocks, f, f);
    assert MemberOk(h.nodes, h.chunks, f);
    KeptSame(h, f);
    KeptOne(h, f, h.w, h.w, f, f + size - 8, size);
    FreedTags(h, f, h.w);
    HeadIsMember(h.w, 8, h.bins, h.nodes, k);
    PrependKeeps(h, f, w1, k);
    MarkTiled(h.chunks, h.blocks, f, false);
    FreedCalm(h, f);
    FreedMembers(h, f, n);
    MembersSpread(Freed(h, f));
    HeaderOffLists(h, h.w, h.bins, h.nodes, f, f + size - 8, size);
    NoChunkAtZero(h);
    PlacedAt(h.chunks, h.blocks, f);
    PrependLinked(w1, 8, h.bins, h.nodes, k, f);
    MarkLive(h.chunks, f);
  }

  lemma KeptSame(h: Heap, f: int)
    ensures Kept(h, f, h.w, h.w)
  {
  }

  // ---------------------------------------------------------------- whole blocks

  lemma OtherBlock(h: Heap, y: int, b: int)
    requires Tiled(h.chunks, h.blocks) && BlocksOk(h.blocks) && y in h.chunks && b in h.blocks && h.chunks[y].block != b
    ensures After(h.chunks, y) <= b || b + h.blocks[b].size <= y
  {
    assert Placed(h.chunks, h.blocks, y) && BlocksApart(h.blocks, b, h.chunks[y].block);
  }

  /** The heap without block `b`, all of which is chunk `f`. */
  lemma CloseKeeps(h: Heap, f: int, w': Memory, bs: Blocks)
    requires HeapOk(h, f) && f != 0 && Whole(h.chunks, h.blocks, f)
    requires var b := h.chunks[f].block;
      && OnlyIn(h.w, w', b, h.blocks[b].size)
      && (bs == h.blocks - {b} || (bs == h.blocks[b := h.blocks[b].(use := Spare)] && h.blocks[b].size == BlockDefault))
    ensures h.chunks[f].block == f - 8 && h.blocks[f - 8].size == 32 + h.chunks[f].size
    ensures HeapOk(Heap(w', h.bins, h.nodes, h.chunks - {f}, bs), 0)
    ensures Live(h.chunks - {f}, 0) == Live(h.chunks, f) && Kept(h, f, h.w, w')
  {
    hide Linked, FloorBin;
    var b, cs := h.chunks[f].block, h.chunks - {f};
    NoChunkAtZero(h);
    assert Placed(h.chunks, h.blocks, f);
    CloseTiled(h.chunks, h.blocks, b, bs);
    CloseBlocks(h.blocks, b, bs);
    forall y | y in cs ensures h.chunks[y].block != b { OnlyWhole(h, f, y); }
    CloseKept(h, f, w');
    forall y | y in cs ensures TagOk(w', cs, 0, y) && CalmAt(cs, bs, y) {
      assert Placed(h.chunks, h.blocks, y) && TagOk(h.w, h.chunks, f, y) && CalmAt(h.chunks, h.blocks, y);
      OtherBlock(h, y, b);
    }
    forall k | IsChunked(bs, k) ensures EdgeOk(w', bs, k) {
      assert EdgeOk(h.w, h.blocks, k) && BlocksApart(h.blocks, b, k) && BlockOk(h.blocks, k);
    }
    ClosedLists(h, f, w');
  }

  /** The chunks on lists lie in other blocks. */
  lemma ClosedLists(h: Heap, f: int, w': Memory)
    requires HeapOk(h, f) && f != 0 && Whole(h.chunks, h.blocks, f)
    requires OnlyIn(h.w, w', h.chunks[f].block, h.blocks[h.chunks[f].block].size)
    ensures Linked(w', 8, h.bins, h.nodes) && Members(h.nodes, h.chunks - {f})
  {
    hide Linked, FloorBin, Tiled, Calm, Tagged, BlocksOk;
    var cs := h.chunks - {f};
    forall y ensures MemberOk(h.nodes, cs, y) {
      assert MemberOk(h.nodes, h.chunks, y) && MemberOk(h.nodes, h.chunks, f);
    }
    forall y | y in h.nodes ensures Rd(w', y + 8) == Rd(h.w, y + 8) && Rd(w', y + 16) == Rd(h.w, y + 16) {
      assert MemberOk(h.nodes, h.chunks, y) && MemberOk(h.nodes, h.chunks, f);
      OnlyWhole(h, f, y);
      OtherBlock(h, y, h.chunks[f].block);
      InOrder(h.chunks, h.blocks, y, y);
    }
    LinkedFrame(h.w, w', 8, h.bins, h.nodes);
  }

  lemma OnlyWhole(h: Heap, f: int, y: int)
    requires Tiled(h.chunks, h.blocks) && f in h.chunks && Whole(h.chunks, h.blocks, f) && y in h.chunks && y != f
    ensures h.chunks[y].block != h.chunks[f].block
  {
    NoChunkAtZero(h);
    assert Placed(h.chunks, h.blocks, f) && Placed(h.chunks, h.blocks, y) && Apart(h.chunks, f, y);
  }

  lemma CloseKept(h: Heap, f: int, w': Memory)
    requires Tiled(h.chunks, h.blocks) && BlocksOk(h.blocks) && f in h.chunks && Whole(h.chunks, h.blocks, f)
    requires OnlyIn(h.w, w', h.chunks[f].block, h.blocks[h.chunks[f].block].size)
    ensures Kept(h, f, h.w, w')
  {
    hide Tiled;
    var b := h.chunks[f].block;
    forall y | y in Live(h.chunks, f) ensures y + h.chunks[y].size <= b || b + h.blocks[b].size <= y {
      OnlyWhole(h, f, y);
      OtherBlock(h, y, b);
    }
    PlacedAt(h.chunks, h.blocks, f);
    forall k | k in Foreign(h.blocks) ensures k + h.blocks[k].size <= b || b + h.blocks[b].size <= k {
      assert BlocksApart(h.blocks, b, k);
    }
  }

  /** A block newly designated for chunks, all of it chunk `b + 8`, which is to be worked on. */
  lemma OpenKeeps(h: Heap, b: int, size: int, w': Memory)
    requires HeapOk(h, 0) && !IsChunked(h.blocks, b) && BlocksOk(h.blocks[b := Block(size, Chunked)])
    requires OnlyIn(h.w, w', b, size) && Rd(w', b) == 8 && Rd(w', b + size - 24) == 8 && Rd(w', b + 8) == size - 32
    ensures b + 8 !in h.chunks && b + 8 !in Live(h.chunks, 0)
    ensures HeapOk(Heap(w', h.bins, h.nodes, h.chunks[b + 8 := Chunk(size - 32, true, b, 0)],
                        h.blocks[b := Block(size, Chunked)]), b + 8)
    ensures Live(h.chunks[b + 8 := Chunk(size - 32, true, b, 0)], b + 8) == Live(h.chunks, 0)
    ensures Spared(h.w, w', Live(h.chunks, 0)) && Spared(h.w, w', Foreign(h.blocks) - {b})
  {
    hide Linked, FloorBin;
    var cs, bs := h.chunks[b + 8 := Chunk(size - 32, true, b, 0)], h.blocks[b := Block(size, Chunked)];
    assert BlockOk(bs, b);
    OpenTiled(h.chunks, h.blocks, b, size);
    NoChunkAtZero(h);
    forall y | y in h.chunks ensures After(h.chunks, y) <= b || b + size <= y {
      assert Placed(h.chunks, h.blocks, y) && BlocksApart(bs, b, h.chunks[y].block);
    }
    forall k | k in h.blocks && k != b ensures k + h.blocks[k].size <= b || b + size <= k {
      assert BlocksApart(bs, b, k);
    }
    forall y | y in cs ensures TagOk(w', cs, b + 8, y) && CalmAt(cs, bs, y) {
      if y != b + 8 {
        assert Placed(h.chunks, h.blocks, y) && TagOk(h.w, h.chunks, 0, y) && CalmAt(h.chunks, h.blocks, y);
      }
    }
    forall k | IsChunked(bs, k) ensures EdgeOk(w', bs, k) {
      if k != b { assert EdgeOk(h.w, h.blocks, k) && BlockOk(h.blocks, k); }
    }
    OpenedLists(h, b, size, w', Chunk(size - 32, true, b, 0));
  }

  lemma OpenedLists(h: Heap, b: int, size: int, w': Memory, c: Chunk)
    requires Tiled(h.chunks, h.blocks) && Members(h.nodes, h.chunks) && Linked(h.w, 8, h.bins, h.nodes)
    requires OnlyIn(h.w, w', b, size) && b + 8 !in h.chunks && c.used
    requires forall y :: y in h.chunks ==> After(h.chunks, y) <= b || b + size <= y
    ensures Linked(w', 8, h.bins, h.nodes) && Members(h.nodes, h.chunks[b + 8 := c])
  {
    hide Linked, FloorBin, Tiled;
    var cs := h.chunks[b + 8 := c];
    forall y ensures MemberOk(h.nodes, cs, y) { assert MemberOk(h.nodes, h.chunks, y); }
    forall y | y in h.nodes ensures Rd(w', y + 8) == Rd(h.w, y + 8) && Rd(w', y + 16) == Rd(h.w, y + 16) {
      assert MemberOk(h.nodes, h.chunks, y);
      InOrder(h.chunks, h.blocks, y, y);
    }
    LinkedFrame(h.w, w', 8, h.bins, h.nodes);
  }

  // ---------------------------------------------------------------- kl_chunk_get

  /** The head of a list is taken off and is to be worked on. */
  function Popped(h: Heap, x: int): Heap
    requires x in h.nodes && h.nodes[x].bin < |h.bins| && x in h.chunks
  {
    Heap(Bypassed(h.w, 8, x)[x + 16 := 0], BypassedHeads(h.w, 8, h.bins, h.nodes[x].bin, x),
         h.nodes - {x}, Mark(h.chunks, x, true), h.blocks)
  }

  lemma PopKeeps(h: Heap, x: int)
    requires HeapOk(h, 0) && x in h.nodes
    ensures x in h.chunks && h.nodes[x].bin < |h.bins|
    ensures HeapOk(Popped(h, x), x) && Kept(h, 0, h.w, Popped(h, x).w)
    ensures Live(Popped(h, x).chunks, x) == Live(h.chunks, 0)
    ensures !Whole(h.chunks, h.blocks, x)
  {
    hide Tiled, BlocksOk, Linked, Kept, Bypassed, Tagged, FloorBin;
    assert MemberOk(h.nodes, h.chunks, x) && CalmAt(h.chunks, h.blocks, x);
    MembersSpread(h);
    BypassLinked(h.w, 8, h.bins, h.nodes, x);
    BypassKeeps(h, 0, x);
    var w1 := Bypassed(h.w, 8, x);
    LinkWrite(h, 0, h.w, w1, x, x + 16, 0);
    OffList(h, w1, BypassedHeads(h.w, 8, h.bins, h.nodes[x].bin, x), x);
    MarkTiled(h.chunks, h.blocks, x, true);
    NoChunkAtZero(h);
    PoppedTags(h, w1[x + 16 := 0], x);
    var nodes, cs := h.nodes - {x}, Mark(h.chunks, x, true);
    forall y | y in cs ensures CalmAt(cs, h.blocks, y) { assert CalmAt(h.chunks, h.blocks, y); }
    forall y ensures MemberOk(nodes, cs, y) { assert MemberOk(h.nodes, h.chunks, y); }
  }

  lemma PoppedTags(h: Heap, w: Memory, x: int)
    requires Tagged(w, h.chunks, h.blocks, 0) && x in h.chunks && 0 !in h.chunks
    ensures Tagged(w, Mark(h.chunks, x, true), h.blocks, x)
  {
    var cs := Mark(h.chunks, x, true);
    forall y | y in cs ensures TagOk(w, cs, x, y) { assert TagOk(w, h.chunks, 0, y); }
  }

  /** The chunk worked on is handed out as it is. */
  lemma TakeKeeps(h: Heap, f: int)
    requires HeapOk(h, f) && f != 0
    ensures HeapOk(h.(w := h.w[After(h.chunks, f) - 8 := 0]), 0)
    ensures Kept(h, f, h.w, h.w[After(h.chunks, f) - 8 := 0])
    ensures Live(h.chunks, 0) == Live(h.chunks, f)[f := h.chunks[f].size]
  {
    hide Tiled, BlocksOk, Linked, Kept, Calm, FloorBin;
    InOrder(h.chunks, h.blocks, f, f);
    assert MemberOk(h.nodes, h.chunks, f);
    var e := After(h.chunks, f) - 8;
    HeaderOffLists(h, h.w, h.bins, h.nodes, f, e, 0);
    KeptSame(h, f);
    KeptOne(h, f, h.w, h.w, f, e, 0);
    NoChunkAtZero(h);
    forall y | y in h.chunks ensures TagOk(h.w[e := 0], h.chunks, 0, y) {
      assert TagOk(h.w, h.chunks, f, y);
      InOrder(h.chunks, h.blocks, f, y);
    }
    forall b | IsChunked(h.blocks, b) ensures EdgeOk(h.w[e := 0], h.blocks, b) {
      assert EdgeOk(h.w, h.blocks, b);
      EdgesOutside(h.chunks, h.blocks, f, b);
    }
  }

  /** Memory after the first `s` bytes of chunk `a`, of `size` bytes, have become a chunk in use and the
      rest a chunk to be put. */
  function SplitTags(w: Memory, a: int, s: int, size: int): Memory {
    var n, r := a + s, size - s;
    w[a := s][a + s - 8 := 0][n := r][n + r - 8 := r][n + 8 := 0][n + 16 := 0]
  }

  lemma SplitReads(w: Memory, a: int, s: int, size: int, x: int)
    requires ChunkMin <= s <= size - ChunkMin
    ensures Rd(SplitTags(w, a, s, size), a) == s && Rd(SplitTags(w, a, s, size), a + s - 8) == 0
    ensures Rd(SplitTags(w, a, s, size), a + s) == size - s
    ensures x < a || a + size <= x ==> Rd(SplitTags(w, a, s, size), x) == Rd(w, x)
  {
  }

  lemma SplitTagged(h: Heap, f: int, s: int)
    requires Tiled(h.chunks, h.blocks) && BlocksOk(h.blocks) && Tagged(h.w, h.chunks, h.blocks, f) && f in h.chunks
    requires ChunkMin <= s <= h.chunks[f].size - ChunkMin && f + s !in h.chunks
    ensures Tagged(SplitTags(h.w, f, s, h.chunks[f].size), Split(h.chunks, f, s), h.blocks, f + s)
  {
    hide Tiled, BlocksOk, SplitTags;
    var w', cs := SplitTags(h.w, f, s, h.chunks[f].size), Split(h.chunks, f, s);
    SplitReads(h.w, f, s, h.chunks[f].size, f);
    forall y | y in cs ensures TagOk(w', cs, f + s, y) {
      if y in h.chunks {
        assert TagOk(h.w, h.chunks, f, y);
        InOrder(h.chunks, h.blocks, f, y);
        SplitReads(h.w, f, s, h.chunks[f].size, y);
        SplitReads(h.w, f, s, h.chunks[f].size, After(h.chunks, y) - 8);
      }
    }
    forall b | IsChunked(h.blocks, b) ensures EdgeOk(w', h.blocks, b) {
      assert EdgeOk(h.w, h.blocks, b);
      EdgesOutside(h.chunks, h.blocks, f, b);
      SplitReads(h.w, f, s, h.chunks[f].size, b);
      SplitReads(h.w, f, s, h.chunks[f].size, End(h.blocks, b));
    }
  }

  lemma SplitCalm(h: Heap, f: int, s: int)
    requires Tiled(h.chunks, h.blocks) && Calm(h.chunks, h.blocks) && f in h.chunks
    requires ChunkMin <= s <= h.chunks[f].size - ChunkMin && f + s !in h.chunks
    requires h.chunks[f].block in h.blocks && h.blocks[h.chunks[f].block].size == BlockDefault
    ensures Calm(Split(h.chunks, f, s), h.blocks)
  {
    var cs := Split(h.chunks, f, s);
    assert Placed(h.chunks, h.blocks, f);
    forall y | y in cs ensures CalmAt(cs, h.blocks, y) {
      if y in h.chunks {
        assert CalmAt(h.chunks, h.blocks, y) && Placed(h.chunks, h.blocks, y);
        InOrder(h.chunks, h.blocks, f, y);
      }
    }
  }

  /** The rest of a split lies in the same block, which the part before it keeps occupied. */
  lemma SplitOccupies(h: Heap, f: int, s: int)
    requires HeapOk(h, f) && f != 0 && 0 < s < h.chunks[f].size
    requires Live(Split(h.chunks, f, s), f + s) == Live(h.chunks, f)[f := s]
    ensures h.chunks[f].block in h.blocks
    ensures f + s in Split(h.chunks, f, s) && Split(h.chunks, f, s)[f + s].block == h.chunks[f].block
    ensures var b := h.chunks[f].block; Occupied(Live(Split(h.chunks, f, s), f + s), b, h.blocks[b].size)
  {
    hide Linked, FloorBin, Calm, Tagged, Members, Live;
    assert Placed(h.chunks, h.blocks, f);
    assert f in Live(h.chunks, f)[f := s];
  }

  lemma SplitMembers(h: Heap, f: int, s: int)
    requires Tiled(h.chunks, h.blocks) && Members(h.nodes, h.chunks) && f in h.chunks && h.chunks[f].used
    requires f + s !in h.chunks
    ensures Members(h.nodes, Split(h.chunks, f, s))
    ensures 0 < s ==> Live(Split(h.chunks, f, s), f + s) == Live(h.chunks, f)[f := s]
  {
    var cs := Split(h.chunks, f, s);
    forall y ensures MemberOk(h.nodes, cs, y) { assert MemberOk(h.nodes, h.chunks, y); }
  }

  /** Splitting keeps the invariant, now working on the second part; the first is a chunk in use. */
  lemma SplitKeeps(h: Heap, f: int, s: int)
    requires HeapOk(h, f) && f != 0 && Aligned(s) && ChunkMin <= s <= h.chunks[f].size - ChunkMin
    requires h.chunks[f].block in h.blocks && h.blocks[h.chunks[f].block].size == BlockDefault
    ensures HeapOk(Heap(SplitTags(h.w, f, s, h.chunks[f].size), h.bins, h.nodes,
                        Split(h.chunks, f, s), h.blocks), f + s)
    ensures Kept(h, f, h.w, SplitTags(h.w, f, s, h.chunks[f].size))
    ensures Live(Split(h.chunks, f, s), f + s) == Live(h.chunks, f)[f := s] && f !in Live(h.chunks, f)
  {
    hide Tiled, BlocksOk, Linked, Calm, SplitTags, FloorBin, Members;
    var size := h.chunks[f].size;
    var w' := SplitTags(h.w, f, s, size);
    SplitTiled(h.chunks, h.blocks, f, s);
    SplitTagged(h, f, s);
    SplitCalm(h, f, s);
    SplitMembers(h, f, s);
    InOrder(h.chunks, h.blocks, f, f);
    PlacedAt(h.chunks, h.blocks, f);
    forall x | x < f || f + size <= x ensures Rd(w', x) == Rd(h.w, x) { SplitReads(h.w, f, s, size, x); }
    WithinChunk(h, f, w');
  }

  /** Changes inside the chunk being worked on reach no list, no other chunk in use and no foreign block. */
  lemma WithinChunk(h: Heap, f: int, w': Memory)
    requires Tiled(h.chunks, h.blocks) && BlocksOk(h.blocks) && Members(h.nodes, h.chunks)
    requires Linked(h.w, 8, h.bins, h.nodes)
    requires f in h.chunks && h.chunks[f].used && OnlyIn(h.w, w', f, h.chunks[f].size)
    ensures Linked(w', 8, h.bins, h.nodes) && Kept(h, f, h.w, w')
  {
    hide Tiled, BlocksOk, Linked;
    forall y | y in h.nodes ensures Rd(w', y + 8) == Rd(h.w, y + 8) && Rd(w', y + 16) == Rd(h.w, y + 16) {
      assert MemberOk(h.nodes, h.chunks, y) && MemberOk(h.nodes, h.chunks, f);
      InOrder(h.chunks, h.blocks, f, y);
    }
    LinkedFrame(h.w, w', 8, h.bins, h.nodes);
    forall y | y in Live(h.chunks, f) ensures After(h.chunks, y) <= f || After(h.chunks, f) <= y {
      InOrder(h.chunks, h.blocks, f, y);
    }
    forall b | b in Foreign(h.blocks) ensures b + h.blocks[b].size <= f || After(h.chunks, f) <= b {
      EdgesOutside(h.chunks, h.blocks, f, b);
    }
  }

  // ---------------------------------------------------------------- changes elsewhere

  /** The same chunk blocks, with the same words in them. */
  ghost predicate SameChunked(w: Memory, w': Memory, blocks: Blocks, bs: Blocks) {
    && (forall b {:trigger IsChunked(bs, b)} {:trigger IsChunked(blocks, b)} ::
         IsChunked(bs, b) <==> IsChunked(blocks, b))
    && (forall b :: IsChunked(blocks, b) && b in bs ==> bs[b].size == blocks[b].size)
    && (forall b, x {:trigger IsChunked(blocks, b), Rd(w', x)} ::
         IsChunked(blocks, b) && b <= x < b + blocks[b].size ==> Rd(w', x) == Rd(w, x))
  }

  /** The chunk heap does not depend on anything outside chunk blocks. */
  lemma ChunkFrame(h: Heap, w': Memory, bs: Blocks)
    requires HeapOk(h, 0) && BlocksOk(bs) && SameChunked(h.w, w', h.blocks, bs)
    ensures HeapOk(Heap(w', h.bins, h.nodes, h.chunks, bs), 0)
  {
    hide Linked, FloorBin;
    forall a | a in h.chunks ensures Placed(h.chunks, bs, a) && TagOk(w', h.chunks, 0, a) && CalmAt(h.chunks, bs, a) {
      assert Placed(h.chunks, h.blocks, a) && TagOk(h.w, h.chunks, 0, a) && CalmAt(h.chunks, h.blocks, a);
      assert IsChunked(h.blocks, h.chunks[a].block);
    }
    forall b | IsChunked(bs, b) ensures Begun(h.chunks, bs, b) && EdgeOk(w', bs, b) {
      assert IsChunked(h.blocks, b) && Begun(h.chunks, h.blocks, b) && EdgeOk(h.w, h.blocks, b) && BlockOk(h.blocks, b);
    }
    ListsFrame(h, w', bs);
    forall a, b | a in h.chunks && b in h.chunks ensures Apart(h.chunks, a, b) { InOrder(h.chunks, h.blocks, a, b); }
  }

  lemma ListsFrame(h: Heap, w': Memory, bs: Blocks)
    requires HeapOk(h, 0) && SameChunked(h.w, w', h.blocks, bs)
    ensures Linked(w', 8, h.bins, h.nodes)
  {
    hide Linked, FloorBin, Calm, Tagged;
    forall y | y in h.nodes ensures Rd(w', y + 8) == Rd(h.w, y + 8) && Rd(w', y + 16) == Rd(h.w, y + 16) {
      assert MemberOk(h.nodes, h.chunks, y) && Placed(h.chunks, h.blocks, y);
      assert IsChunked(h.blocks, h.chunks[y].block);
    }
    LinkedFrame(h.w, w', 8, h.bins, h.nodes);
  }

  /** A chunk in use may be written to between its tags. */
  lemma UserWrite(h: Heap, a: int, x: int, v: int)
    requires HeapOk(h, 0) && a in h.chunks && h.chunks[a].used && a < x < After(h.chunks, a) - 8
    ensures HeapOk(h.(w := h.w[x := v]), 0)
  {
    hide Tiled, BlocksOk, Linked, Tagged, Calm, FloorBin;
    LinkKeepsTags(h, 0, h.w, a, x, v);
    assert MemberOk(h.nodes, h.chunks, a);
    HeaderOffLists(h, h.w, h.bins, h.nodes, a, x, v);
  }

  // ---------------------------------------------------------------- reading tags

  ghost predicate PrevUsed(chunks: Chunks, f: int) {
    f in chunks && (chunks[f].prev in chunks && After(chunks, chunks[f].prev) == f ==> chunks[chunks[f].prev].used)
  }

  ghost predicate NextUsed(chunks: Chunks, f: int) {
    f in chunks && (After(chunks, f) in chunks && chunks[After(chunks, f)].prev == f ==> chunks[After(chunks, f)].used)
  }

  /** One of these regions starts inside the `n` bytes at `b`. */
  ghost predicate Occupied(live: map<int, int>, b: int, n: int) { exists a :: a in live && b <= a < b + n }

  /** Between neighbours in use or none, a chunk is its whole block exactly when nothing else in the block is in use. */
  lemma WholeExactly(h: Heap, f: int)
    requires HeapOk(h, f) && f in h.chunks && PrevUsed(h.chunks, f) && NextUsed(h.chunks, f)
    ensures var b := h.chunks[f].block;
      b in h.blocks && (Whole(h.chunks, h.blocks, f) <==> !Occupied(Live(h.chunks, f), b, h.blocks[b].size))
  {
    hide Linked, FloorBin, Calm, Tagged, Members;
    assert Placed(h.chunks, h.blocks, f);
    var b, p, n := h.chunks[f].block, h.chunks[f].prev, After(h.chunks, f);
    if Whole(h.chunks, h.blocks, f) {
      NoChunkAtZero(h);
      forall a | a in h.chunks && b <= a < b + h.blocks[b].size ensures a == f {
        assert Placed(h.chunks, h.blocks, a);
        assert BlocksApart(h.blocks, b, h.chunks[a].block);
        InOrder(h.chunks, h.blocks, a, f);
      }
    } else if p != 0 {
      assert Placed(h.chunks, h.blocks, p);
      assert p in Live(h.chunks, f);
    } else {
      assert Placed(h.chunks, h.blocks, n);
      assert n in Live(h.chunks, f);
    }
  }

  /** The word before a chunk tells whether it is the first of its block and, if not, whether the chunk
      before it is in use, and where that one starts if it is not. */
  lemma WordBefore(h: Heap, f: int)
    requires HeapOk(h, f) && f != 0
    ensures Rd(h.w, f - 8) == 8 <==> h.chunks[f].prev == 0
    ensures var p := h.chunks[f].prev;
      p != 0 ==>
        && p in h.chunks && After(h.chunks, p) == f && p != f && h.chunks[p].size != 0
        && Rd(h.w, f - 8) == (if h.chunks[p].used then 0 else h.chunks[p].size)
        && Rd(h.w, p) == h.chunks[p].size && (p in h.nodes <==> !h.chunks[p].used)
  {
    hide Linked, FloorBin;
    NoChunkAtZero(h);
    assert Placed(h.chunks, h.blocks, f) && EdgeOk(h.w, h.blocks, h.chunks[f].block);
    var p := h.chunks[f].prev;
    if p != 0 {
      assert TagOk(h.w, h.chunks, f, p) && Placed(h.chunks, h.blocks, p) && MemberOk(h.nodes, h.chunks, p);
    }
  }

  /** The word after a chunk tells whether it is the last of its block; if not, it is the header of the next
      chunk, whose footer tells whether that one is in use. */
  lemma WordAfter(h: Heap, f: int)
    requires HeapOk(h, f) && f != 0
    ensures h.chunks[f].block in h.blocks && Rd(h.w, f) == h.chunks[f].size && 32 <= h.chunks[f].size
    ensures Aligned(h.chunks[f].size)
    ensures Rd(h.w, After(h.chunks, f)) == 8 <==> After(h.chunks, f) == End(h.blocks, h.chunks[f].block)
    ensures Aligned(Rd(h.w, After(h.chunks, f)))
    ensures var n := After(h.chunks, f);
      n != End(h.blocks, h.chunks[f].block) ==>
        && n in h.chunks && h.chunks[n].prev == f && h.chunks[n].size != 0
        && Rd(h.w, n) == h.chunks[n].size
        && Rd(h.w, After(h.chunks, n) - 8) == (if h.chunks[n].used then 0 else h.chunks[n].size)
        && (n in h.nodes <==> !h.chunks[n].used)
  {
    hide Linked, FloorBin;
    assert Placed(h.chunks, h.blocks, f) && TagOk(h.w, h.chunks, f, f) && EdgeOk(h.w, h.blocks, h.chunks[f].block);
    var n := After(h.chunks, f);
    if n in h.chunks {
      assert TagOk(h.w, h.chunks, f, n) && Placed(h.chunks, h.blocks, n) && MemberOk(h.nodes, h.chunks, n);
    }
  }

  lemma MergedPrev(h: Heap, f: int, a: int, x: int)
    requires HeapOk(h, f) && Absorbable(h, f, a, x) && (x == a || PrevUsed(h.chunks, a))
    ensures a in Merge(h.chunks, a) && PrevUsed(Merge(h.chunks, a), a)
    ensures Merge(h.chunks, a)[a].block == h.chunks[a].block == h.chunks[After(h.chunks, a)].block
  {
    hide Linked, FloorBin, Tagged;
    NoChunkAtZero(h);
    assert MemberOk(h.nodes, h.chunks, x);
    assert Placed(h.chunks, h.blocks, a) && Placed(h.chunks, h.blocks, After(h.chunks, a));
    var p := h.chunks[a].prev;
    if p in h.chunks { assert CalmAt(h.chunks, h.blocks, p) && Placed(h.chunks, h.blocks, p); }
  }

  lemma MergedNext(h: Heap, a: int)
    requires HeapOk(h, a) && a in h.chunks && Absorbable(h, a, a, After(h.chunks, a))
    ensures a in Merge(h.chunks, a) && NextUsed(Merge(h.chunks, a), a)
  {
    hide Linked, FloorBin, Tagged;
    var b := After(h.chunks, a);
    assert MemberOk(h.nodes, h.chunks, b) && CalmAt(h.chunks, h.blocks, b);
    assert Placed(h.chunks, h.blocks, a) && Placed(h.chunks, h.blocks, b);
    if After(h.chunks, b) in h.chunks { assert Placed(h.chunks, h.blocks, After(h.chunks, b)); }
  }

  /** Each free chunk is on exactly one list, once: that of the class recomputed from its size. */
  lemma FreeListsExact(h: Heap, f: int, k: nat)
    requires HeapOk(h, f) && k < |h.bins|
    ensures var s := ListOf(h.w, 8, h.bins, h.nodes, k);
      && (forall a ::
           a in s <==>
           (a in h.chunks && !h.chunks[a].used && 0 < h.chunks[a].size <= FixedMax && FloorBin(h.chunks[a].size) == k))
      && (forall i, j :: 0 <= i < j < |s| ==> s[i] != s[j])
  {
    hide Tiled, Calm, Tagged, BlocksOk, Linked, FloorBin;
    ExactlyOneList(h.w, 8, h.bins, h.nodes, k);
    var s := ListOf(h.w, 8, h.bins, h.nodes, k);
    forall a
      ensures a in s <==>
        (a in h.chunks && !h.chunks[a].used && 0 < h.chunks[a].size <= FixedMax && FloorBin(h.chunks[a].size) == k)
    {
      assert MemberOk(h.nodes, h.chunks, a);
    }
  }
}
