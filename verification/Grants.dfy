/**
 What the allocator owes its callers: the memory granted to them, how it lies with respect to other
 grants and to the allocator's own words, and what is left when everything has been given back.
 */
module Grants {
  import opened SizeClasses
  import opened FreeLists
  import opened ChunkTiling
  import opened ChunkHeap
  import opened BrickHeap

  /** `n` bytes were asked for; `home` is the brick block they come from, or 0 for a chunk. */
  datatype Grant = Grant(n: nat, home: int)

  predicate LiveBrick(blocks: Blocks, b: int, a: int) { IsBricked(blocks, b) && a in blocks[b].use.live }

  /** The grant at pointer `p` is covered by the chunk or brick whose header is the word before `p`. */
  ghost predicate Backed(chunks: Chunks, blocks: Blocks, p: int, g: Grant) {
    if g.home == 0 then p - 8 in chunks && chunks[p - 8].used && g.n <= chunks[p - 8].size - 16
    else LiveBrick(blocks, g.home, p - 8) && g.n <= Step(blocks[g.home].use.bin) - 8
  }

  ghost predicate AllBacked(grants: map<int, Grant>, chunks: Chunks, blocks: Blocks) {
    forall p {:trigger p in grants} :: p in grants ==> Backed(chunks, blocks, p, grants[p])
  }

  /** Every chunk and brick in use belongs to a grant. */
  ghost predicate NothingLost(grants: map<int, Grant>, chunks: Chunks, blocks: Blocks) {
    && (forall a {:trigger a in chunks} :: a in chunks && chunks[a].used ==> a + 8 in grants && grants[a + 8].home == 0)
    && (forall b, a {:trigger LiveBrick(blocks, b, a)} ::
         LiveBrick(blocks, b, a) ==> a + 8 in grants && grants[a + 8].home == b)
  }

  ghost predicate HeapsOk(h: Heap, brickBin: seq<int>, brickNodes: map<int, Node>) {
    HeapOk(h, 0) && BrickInv(h.w, brickBin, brickNodes, h.blocks, 0)
  }

  /** The bytes around a live brick. */
  lemma BrickPlace(h: Heap, brickBin: seq<int>, brickNodes: map<int, Node>, b: int, a: int)
    requires HeapsOk(h, brickBin, brickNodes) && LiveBrick(h.blocks, b, a)
    ensures 0 < b && b + 8 <= a && a + Step(h.blocks[b].use.bin) <= b + HeadAt && Aligned(a)
    ensures BricksOk(h.w, b, h.blocks[b].use) && h.blocks[b].size == BlockDefault && Rd(h.w, a) == b + 1
    ensures Aligned(b)
  {
    hide Linked, HeapOk, Capacity, Span, Step;
    BrickBlock(h.w, h.blocks, b);
    assert BrickOk(h.w, b, h.blocks[b].use, a);
    Sizes(b, h.blocks[b].use);
  }

  /** Granted memory is aligned. */
  lemma GrantAligned(h: Heap, brickBin: seq<int>, brickNodes: map<int, Node>, p: int, g: Grant)
    requires HeapsOk(h, brickBin, brickNodes) && Backed(h.chunks, h.blocks, p, g)
    ensures Aligned(p) && 8 < p
  {
    hide Linked, BrickInv, FloorBin, Step;
    if g.home == 0 {
      assert Placed(h.chunks, h.blocks, p - 8);
      AlignedAdd(p - 8);
    } else {
      BrickPlace(h, brickBin, brickNodes, g.home, p - 8);
      AlignedAdd(p - 8);
    }
  }

  lemma AlignedAdd(x: int)
    requires Aligned(x)
    ensures Aligned(x + 8)
  {
  }

  /** Two grants never share a byte. */
  lemma GrantsDisjoint(h: Heap, brickBin: seq<int>, brickNodes: map<int, Node>, p: int, g: Grant, q: int, k: Grant)
    requires HeapsOk(h, brickBin, brickNodes) && p != q
    requires Backed(h.chunks, h.blocks, p, g) && Backed(h.chunks, h.blocks, q, k)
    ensures p + g.n <= q || q + k.n <= p
  {
    hide Linked, BrickInv, FloorBin, Step, Capacity, Span, Tiled, Calm, Tagged, Members, BlocksOk;
    var a, c := p - 8, q - 8;
    if g.home == 0 && k.home == 0 {
      InOrder(h.chunks, h.blocks, a, c);
    } else if g.home == 0 {
      BrickPlace(h, brickBin, brickNodes, k.home, c);
      EdgesOutside(h.chunks, h.blocks, a, k.home);
    } else if k.home == 0 {
      BrickPlace(h, brickBin, brickNodes, g.home, a);
      EdgesOutside(h.chunks, h.blocks, c, g.home);
    } else {
      BrickPlace(h, brickBin, brickNodes, g.home, a);
      BrickPlace(h, brickBin, brickNodes, k.home, c);
      TwoBlocks(h.blocks, g.home, k.home);
      if g.home == k.home { assert Separate(h.blocks[g.home].use, a, c); }
    }
  }

  // ---------------------------------------------------------------- the allocator's own words

  /** The words the allocator keeps for itself. */
  datatype Meta =
    | Header(a: int) | Footer(a: int) | Link(a: int, second: bool)
    | Edge(b: int, atEnd: bool)
    | BlockWord(b: int, off: int)
    | BrickHeader(b: int, a: int) | BrickLink(b: int, a: int) | Frontier(b: int)

  /** Tags of every chunk, links of free chunks, sentinels; header, list head and links of every brick block,
      headers of its bricks, links of the freed ones, and the null header at its frontier. */
  ghost predicate IsMeta(chunks: Chunks, blocks: Blocks, m: Meta) {
    match m
    case Header(a) => a in chunks
    case Footer(a) => a in chunks
    case Link(a, _) => a in chunks && !chunks[a].used
    case Edge(b, _) => IsChunked(blocks, b)
    case BlockWord(b, off) =>
      IsBricked(blocks, b) && (off == 0 || off == HeadAt || off == LinksAt || off == LinksAt + 8)
    case BrickHeader(b, a) => IsBricked(blocks, b) && Carved(blocks[b].use, a)
    case BrickLink(b, a) => IsBricked(blocks, b) && a in blocks[b].use.free
    case Frontier(b) => IsBricked(blocks, b) && 0 < blocks[b].use.left
  }

  function Where(chunks: Chunks, blocks: Blocks, m: Meta): int {
    match m
    case Header(a) => a
    case Footer(a) => if a in chunks then After(chunks, a) - 8 else 0
    case Link(a, second) => if second then a + 16 else a + 8
    case Edge(b, atEnd) => if atEnd && b in blocks then End(blocks, b) else b
    case BlockWord(b, off) => b + off
    case BrickHeader(b, a) => a
    case BrickLink(b, a) => a + 8
    case Frontier(b) => if b in blocks && blocks[b].use.Bricked? then blocks[b].use.frontier else 0
  }

  lemma ChunkMeta(h: Heap, p: int, g: Grant, m: Meta)
    requires HeapOk(h, 0) && Backed(h.chunks, h.blocks, p, g) && g.home == 0 && IsMeta(h.chunks, h.blocks, m)
    requires m.Header? || m.Footer? || m.Link? || m.Edge?
    ensures var y := Where(h.chunks, h.blocks, m); y + 8 <= p || p + g.n <= y
  {
    hide Linked, FloorBin, Calm, Tagged, Members, BlocksOk;
    var a := p - 8;
    PlacedAt(h.chunks, h.blocks, a);
    if m.Edge? {
      EdgesOutside(h.chunks, h.blocks, a, m.b);
      EdgeRoom(h, a, m.b);
    } else {
      InOrder(h.chunks, h.blocks, a, m.a);
    }
  }

  lemma EdgeRoom(h: Heap, a: int, b: int)
    requires HeapOk(h, 0) && a in h.chunks && IsChunked(h.blocks, b)
    ensures b + 8 <= a || After(h.chunks, a) <= b
    ensures End(h.blocks, b) + 8 <= a || After(h.chunks, a) <= End(h.blocks, b)
  {
    hide Linked, FloorBin, Calm, Tagged, Members;
    assert Placed(h.chunks, h.blocks, a);
    TwoBlocks(h.blocks, b, h.chunks[a].block);
    TwoBlocks(h.blocks, h.chunks[a].block, b);
  }

  /** The block a word of the allocator lies in. */
  lemma BlockOfMeta(h: Heap, brickBin: seq<int>, brickNodes: map<int, Node>, m: Meta)
    requires HeapsOk(h, brickBin, brickNodes) && IsMeta(h.chunks, h.blocks, m)
    ensures m.BlockWord? || m.BrickHeader? || m.BrickLink? || m.Frontier? ==>
      && m.b <= Where(h.chunks, h.blocks, m) && Where(h.chunks, h.blocks, m) + 8 <= m.b + BlockDefault
      && h.blocks[m.b].size == BlockDefault
  {
    hide Linked, HeapOk, Capacity, Span, Step;
    if m.BlockWord? || m.BrickHeader? || m.BrickLink? || m.Frontier? {
      BrickBlock(h.w, h.blocks, m.b);
      var u := h.blocks[m.b].use;
      Sizes(m.b, u);
      if m.BrickHeader? || m.BrickLink? { assert BrickOk(h.w, m.b, u, m.a); }
    }
  }

  lemma BrickMeta(h: Heap, brickBin: seq<int>, brickNodes: map<int, Node>, p: int, g: Grant, m: Meta)
    requires HeapsOk(h, brickBin, brickNodes) && Backed(h.chunks, h.blocks, p, g) && g.home != 0
    requires IsMeta(h.chunks, h.blocks, m)
    requires (m.BlockWord? || m.BrickHeader? || m.BrickLink? || m.Frontier?) && m.b == g.home
    ensures var y := Where(h.chunks, h.blocks, m); y + 8 <= p || p + g.n <= y
  {
    hide Linked, HeapOk, Capacity, Span, Step;
    var a, b := p - 8, g.home;
    BrickPlace(h, brickBin, brickNodes, b, a);
    var u := h.blocks[b].use;
    assert BrickOk(h.w, b, u, a);
    Sizes(b, u);
    if m.BrickHeader? { assert Separate(u, a, m.a); }
    if m.BrickLink? {
      var i :| 0 <= i < |u.free| && u.free[i] == m.a;
      assert FreeOk(h.w, u, i) && Separate(u, a, m.a);
    }
  }

  /** No grant contains any part of a header, footer, free-list link, sentinel or block word. */
  lemma GrantsOffMetadata(h: Heap, brickBin: seq<int>, brickNodes: map<int, Node>, p: int, g: Grant, m: Meta)
    requires HeapsOk(h, brickBin, brickNodes) && Backed(h.chunks, h.blocks, p, g) && IsMeta(h.chunks, h.blocks, m)
    ensures var y := Where(h.chunks, h.blocks, m); y + 8 <= p || p + g.n <= y
  {
    hide HeapOk, BrickInv, Step, Where;
    BlockOfMeta(h, brickBin, brickNodes, m);
    var ofChunk := m.Header? || m.Footer? || m.Link? || m.Edge?;
    if g.home == 0 && ofChunk {
      ChunkMeta(h, p, g, m);
    } else if g.home != 0 && !ofChunk && m.b == g.home {
      BrickMeta(h, brickBin, brickNodes, p, g, m);
    } else {
      Elsewhere(h, brickBin, brickNodes, p, g, m);
    }
  }

  /** A grant and a word of the allocator in different blocks. */
  lemma Elsewhere(h: Heap, brickBin: seq<int>, brickNodes: map<int, Node>, p: int, g: Grant, m: Meta)
    requires HeapsOk(h, brickBin, brickNodes) && Backed(h.chunks, h.blocks, p, g) && IsMeta(h.chunks, h.blocks, m)
    requires var ofChunk := m.Header? || m.Footer? || m.Link? || m.Edge?;
             if g.home == 0 then !ofChunk else ofChunk || m.b != g.home
    ensures var y := Where(h.chunks, h.blocks, m); y + 8 <= p || p + g.n <= y
  {
    hide Linked, FloorBin, Calm, Tagged, Members, BlocksOk, BrickInv, Step, Tiled;
    BlockOfMeta(h, brickBin, brickNodes, m);
    if g.home == 0 {
      EdgesOutside(h.chunks, h.blocks, p - 8, m.b);
    } else {
      BrickPlace(h, brickBin, brickNodes, g.home, p - 8);
      if m.Header? || m.Footer? || m.Link? {
        EdgesOutside(h.chunks, h.blocks, m.a, g.home);
        InOrder(h.chunks, h.blocks, m.a, m.a);
      } else {
        TwoBlocks(h.blocks, m.b, g.home);
        TwoBlocks(h.blocks, g.home, m.b);
      }
    }
  }

  // ---------------------------------------------------------------- when everything has been given back

  /** Some chunk of every chunk block is in use. */
  lemma UsedChunk(h: Heap, b: int) returns (a: int)
    requires HeapOk(h, 0) && IsChunked(h.blocks, b)
    ensures a in h.chunks && h.chunks[a].used
  {
    hide Linked, FloorBin, Tagged, Members;
    a := b + 8;
    assert Begun(h.chunks, h.blocks, b);
    assert Placed(h.chunks, h.blocks, a) && CalmAt(h.chunks, h.blocks, a);
    if !h.chunks[a].used { a := After(h.chunks, a); }
  }

  lemma MemberBlock(h: Heap, a: int)
    requires HeapOk(h, 0) && a in h.nodes
    ensures a in h.chunks && IsChunked(h.blocks, h.chunks[a].block)
  {
    hide Linked, FloorBin, Tagged;
    assert MemberOk(h.nodes, h.chunks, a) && Placed(h.chunks, h.blocks, a);
  }

  lemma NoChunksLeft(h: Heap)
    requires HeapOk(h, 0) && (forall a :: a in h.chunks ==> !h.chunks[a].used)
    ensures forall b :: !IsChunked(h.blocks, b)
    ensures h.nodes == map[]
  {
    hide HeapOk;
    forall b ensures !IsChunked(h.blocks, b) {
      if IsChunked(h.blocks, b) { var a := UsedChunk(h, b); }
    }
    forall a ensures a !in h.nodes {
      if a in h.nodes { MemberBlock(h, a); }
    }
  }

  lemma NoBricksLeft(chunks: Chunks, blocks: Blocks, b: int)
    requires NothingLost(map[], chunks, blocks) && IsBricked(blocks, b)
    ensures blocks[b].use.live == {}
  {
    forall a ensures a !in blocks[b].use.live {
      assert !LiveBrick(blocks, b, a);
    }
  }

  lemma EmptyLists(w: Memory, off: int, heads: seq<int>, k: nat)
    requires Linked(w, off, heads, map[]) && k < |heads|
    ensures heads[k] == 0
  {
    HeadIsMember(w, off, heads, map[], k);
  }

  /** With no grant left every bin is empty and every block is undesignated. */
  lemma AllGivenBack(h: Heap, brickBin: seq<int>, brickNodes: map<int, Node>)
    requires HeapsOk(h, brickBin, brickNodes) && NothingLost(map[], h.chunks, h.blocks)
    ensures forall k :: 0 <= k < |h.bins| ==> h.bins[k] == 0
    ensures forall k :: 0 <= k < |brickBin| ==> brickBin[k] == 0
    ensures forall b :: b in h.blocks ==> h.blocks[b].use.Spare?
  {
    hide Linked, Tiled, Calm, Tagged, Members, BlocksOk, BricksOk, Step;
    NoChunksLeft(h);
    forall b ensures !IsBricked(h.blocks, b) {
      if IsBricked(h.blocks, b) {
        NoBricksLeft(h.chunks, h.blocks, b);
        BrickBlock(h.w, h.blocks, b);
      }
    }
    forall b ensures b !in brickNodes { assert ListedOk(h.w, brickNodes, h.blocks, b); }
    assert brickNodes == map[];
    forall k | 0 <= k < |h.bins| ensures h.bins[k] == 0 { EmptyLists(h.w, 8, h.bins, k); }
    forall k | 0 <= k < |brickBin| ensures brickBin[k] == 0 { EmptyLists(h.w, LinksAt, brickBin, k); }
    forall b | b in h.blocks ensures h.blocks[b].use.Spare? {
      assert !IsChunked(h.blocks, b) && !IsBricked(h.blocks, b);
    }
  }

  // ---------------------------------------------------------------- grants through the operations

  /** The contents of every grant but the one at `except` are what they were. */
  ghost predicate ContentsKept(w: Memory, w': Memory, grants: map<int, Grant>, except: int) {
    forall p, x {:trigger p in grants, Rd(w', x)} ::
      p in grants && p != except && p <= x < p + grants[p].n ==> Rd(w', x) == Rd(w, x)
  }

  ghost predicate Granted(grants: map<int, Grant>, chunks: Chunks, blocks: Blocks) {
    AllBacked(grants, chunks, blocks) && NothingLost(grants, chunks, blocks)
  }

  /** The same bricks in use. */
  ghost predicate SameLive(blocks: Blocks, bs: Blocks) {
    && (forall k {:trigger IsBricked(blocks, k)} {:trigger IsBricked(bs, k)} ::
         IsBricked(blocks, k) <==> IsBricked(bs, k))
    && (forall k :: IsBricked(blocks, k) && k in bs ==> bs[k].use == blocks[k].use)
  }

  /** A chunk is not where a brick is. */
  lemma ChunkOrBrick(h: Heap, brickBin: seq<int>, brickNodes: map<int, Node>, a: int, b: int)
    requires HeapsOk(h, brickBin, brickNodes) && a in h.chunks
    ensures !LiveBrick(h.blocks, b, a)
  {
    hide Linked, BrickInv, FloorBin, Step, Calm, Tagged, Members, BlocksOk, Tiled;
    InOrder(h.chunks, h.blocks, a, a);
    if LiveBrick(h.blocks, b, a) {
      BrickPlace(h, brickBin, brickNodes, b, a);
      EdgesOutside(h.chunks, h.blocks, a, b);
    }
  }

  /** A brick is in one block only. */
  lemma OneHome(h: Heap, brickBin: seq<int>, brickNodes: map<int, Node>, a: int, b: int, c: int)
    requires HeapsOk(h, brickBin, brickNodes) && LiveBrick(h.blocks, b, a) && LiveBrick(h.blocks, c, a)
    ensures b == c
  {
    hide Linked, HeapOk, Step, BlocksOk, BricksOk;
    BrickPlace(h, brickBin, brickNodes, b, a);
    BrickPlace(h, brickBin, brickNodes, c, a);
    TwoBlocks(h.blocks, b, c);
  }

  /** After a chunk has been handed out. */
  lemma ChunkGranted(grants: map<int, Grant>, chunks: Chunks, blocks: Blocks, h: Heap, brickBin: seq<int>,
                     brickNodes: map<int, Node>, c: int, n: nat)
    requires Granted(grants, chunks, blocks) && 0 !in chunks && HeapsOk(h, brickBin, brickNodes)
    requires SameLive(blocks, h.blocks)
    requires c in h.chunks && c !in Live(chunks, 0) && 0 !in h.chunks
    requires Live(h.chunks, 0) == Live(chunks, 0)[c := h.chunks[c].size] && n <= h.chunks[c].size - 16
    ensures c + 8 !in grants && Granted(grants[c + 8 := Grant(n, 0)], h.chunks, h.blocks)
  {
    hide HeapOk, BrickInv, Step;
    if c + 8 in grants && grants[c + 8].home != 0 {
      assert Backed(chunks, blocks, c + 8, grants[c + 8]);
      ChunkOrBrick(h, brickBin, brickNodes, c, grants[c + 8].home);
    }
    var gs := grants[c + 8 := Grant(n, 0)];
    assert c in Live(h.chunks, 0);
    forall p | p in gs ensures Backed(h.chunks, h.blocks, p, gs[p]) {
      if p != c + 8 {
        assert Backed(chunks, blocks, p, grants[p]);
        if grants[p].home == 0 { assert p - 8 in Live(chunks, 0) && p - 8 in Live(h.chunks, 0); }
      }
    }
    forall a | a in h.chunks && h.chunks[a].used ensures a + 8 in gs && gs[a + 8].home == 0 {
      assert a in Live(h.chunks, 0);
      if a != c { assert a in Live(chunks, 0) && a in chunks; }
    }
    forall b, a | LiveBrick(h.blocks, b, a) ensures a + 8 in gs && gs[a + 8].home == b {
      assert LiveBrick(blocks, b, a);
      if a == c { ChunkOrBrick(h, brickBin, brickNodes, c, b); }
    }
  }

  /** After a chunk has been taken back. */
  lemma ChunkReturned(grants: map<int, Grant>, chunks: Chunks, blocks: Blocks, cs: Chunks, bs: Blocks, c: int)
    requires Granted(grants, chunks, blocks) && 0 !in chunks && 0 !in cs && 0 !in blocks && SameLive(blocks, bs)
    requires c + 8 in grants && grants[c + 8].home == 0 && Live(cs, 0) == Live(chunks, c)
    ensures Granted(grants - {c + 8}, cs, bs)
  {
    hide Step;
    var gs := grants - {c + 8};
    forall p | p in gs ensures Backed(cs, bs, p, gs[p]) {
      assert Backed(chunks, blocks, p, grants[p]);
      if grants[p].home == 0 { assert p - 8 in Live(chunks, c) && p - 8 in Live(cs, 0); }
    }
    forall a | a in cs && cs[a].used ensures a + 8 in gs && gs[a + 8].home == 0 {
      assert a in Live(cs, 0) && a in Live(chunks, c) && a in chunks;
    }
    forall b, a | LiveBrick(bs, b, a) ensures a + 8 in gs && gs[a + 8].home == b {
      assert LiveBrick(blocks, b, a);
    }
  }

  /** The same bricks are in use, in blocks of the same bins, but for brick `a` of block `b`, which is new. */
  ghost predicate OneBrickMore(blocks: Blocks, bs: Blocks, b: int, a: int) {
    && (forall k, c {:trigger LiveBrick(bs, k, c)} {:trigger LiveBrick(blocks, k, c)} ::
          LiveBrick(bs, k, c) <==> LiveBrick(blocks, k, c) || (k == b && c == a))
    && (forall k {:trigger IsBricked(blocks, k)} ::
         IsBricked(blocks, k) ==> IsBricked(bs, k) && bs[k].use.bin == blocks[k].use.bin)
  }

  lemma BrickGranted(grants: map<int, Grant>, blocks: Blocks, h: Heap, brickBin: seq<int>, brickNodes: map<int, Node>,
                     b: int, a: int, n: nat)
    requires Granted(grants, h.chunks, blocks) && HeapsOk(h, brickBin, brickNodes)
    requires OneBrickMore(blocks, h.blocks, b, a) && !LiveBrick(blocks, b, a) && IsBricked(h.blocks, b)
    requires n <= Step(h.blocks[b].use.bin) - 8
    ensures a + 8 !in grants && Granted(grants[a + 8 := Grant(n, b)], h.chunks, h.blocks)
  {
    hide HeapOk, Step, BrickInv;
    assert LiveBrick(h.blocks, b, a);
    BrickPlace(h, brickBin, brickNodes, b, a);
    if a + 8 in grants {
      assert Backed(h.chunks, blocks, a + 8, grants[a + 8]);
      if grants[a + 8].home == 0 {
        ChunkOrBrick(h, brickBin, brickNodes, a, b);
      } else {
        assert LiveBrick(h.blocks, grants[a + 8].home, a);
        OneHome(h, brickBin, brickNodes, a, b, grants[a + 8].home);
      }
    }
    var gs := grants[a + 8 := Grant(n, b)];
    forall p | p in gs ensures Backed(h.chunks, h.blocks, p, gs[p]) {
      if p != a + 8 {
        assert Backed(h.chunks, blocks, p, grants[p]);
        if grants[p].home != 0 { assert LiveBrick(h.blocks, grants[p].home, p - 8); }
      }
    }
    forall c | c in h.chunks && h.chunks[c].used ensures c + 8 in gs && gs[c + 8].home == 0 {
      assert c + 8 in grants;
    }
    forall k, c | LiveBrick(h.blocks, k, c) ensures c + 8 in gs && gs[c + 8].home == k {
      if !(k == b && c == a) { assert LiveBrick(blocks, k, c); }
    }
  }

  lemma BrickReturned(grants: map<int, Grant>, h: Heap, brickBin: seq<int>, brickNodes: map<int, Node>, bs: Blocks,
                      b: int, a: int)
    requires Granted(grants, h.chunks, h.blocks) && HeapsOk(h, brickBin, brickNodes)
    requires LiveBrick(h.blocks, b, a) && OneBrickMore(bs, h.blocks, b, a) && !LiveBrick(bs, b, a)
    ensures Granted(grants - {a + 8}, h.chunks, bs)
  {
    hide HeapOk, Step, BrickInv;
    var gs := grants - {a + 8};
    forall p | p in gs ensures Backed(h.chunks, bs, p, gs[p]) {
      assert Backed(h.chunks, h.blocks, p, grants[p]);
      if grants[p].home != 0 {
        assert LiveBrick(h.blocks, grants[p].home, p - 8);
        assert LiveBrick(bs, grants[p].home, p - 8);
      }
    }
    forall c | c in h.chunks && h.chunks[c].used ensures c + 8 in gs && gs[c + 8].home == 0 {
      assert c + 8 in grants && grants[c + 8].home == 0;
      assert grants[a + 8].home == b;
      BrickPlace(h, brickBin, brickNodes, b, a);
    }
    forall k, c | LiveBrick(bs, k, c) ensures c + 8 in gs && gs[c + 8].home == k {
      assert LiveBrick(h.blocks, k, c);
      if c == a { OneHome(h, brickBin, brickNodes, a, b, k); }
    }
  }

  /** Chunk operations leave the contents of other grants alone. */
  lemma KeptByChunks(w: Memory, w': Memory, grants: map<int, Grant>, h: Heap,
                     brickBin: seq<int>, brickNodes: map<int, Node>, bs: Blocks, c: int)
    requires h.w == w && AllBacked(grants, h.chunks, h.blocks) && HeapsOk(h, brickBin, brickNodes)
    requires Spared(w, w', Live(h.chunks, c)) && SameBricked(w, w', h.blocks, bs)
    requires 0 !in h.chunks
    ensures ContentsKept(w, w', grants, if c == 0 then 0 else c + 8)
  {
    hide HeapOk, Step, BrickInv;
    forall p, x | p in grants && (c != 0 ==> p != c + 8) && p <= x < p + grants[p].n ensures Rd(w', x) == Rd(w, x) {
      var g := grants[p];
      assert Backed(h.chunks, h.blocks, p, g);
      if g.home == 0 {
        assert p - 8 in Live(h.chunks, c);
      } else {
        BrickPlace(h, brickBin, brickNodes, g.home, p - 8);
        assert IsBricked(h.blocks, g.home);
      }
    }
  }

  ghost predicate SparedBricks(w: Memory, w': Memory, blocks: Blocks, a: int) {
    forall k {:trigger LiveSame(w, w', blocks[k].use, a)} :: IsBricked(blocks, k) ==> LiveSame(w, w', blocks[k].use, a)
  }

  /** Brick operations leave the contents of other grants alone. */
  lemma KeptByBricks(w: Memory, w': Memory, grants: map<int, Grant>, h: Heap, bs: Blocks, a: int)
    requires h.w == w && AllBacked(grants, h.chunks, h.blocks) && HeapOk(h, 0)
    requires SparedBricks(w, w', h.blocks, a) && SameChunked(w, w', h.blocks, bs)
    ensures ContentsKept(w, w', grants, a + 8)
  {
    hide Linked, Calm, Tagged, Members, BlocksOk, Tiled, Step;
    forall p, x | p in grants && p != a + 8 && p <= x < p + grants[p].n ensures Rd(w', x) == Rd(w, x) {
      var g := grants[p];
      assert Backed(h.chunks, h.blocks, p, g);
      if g.home == 0 {
        PlacedAt(h.chunks, h.blocks, p - 8);
        assert IsChunked(h.blocks, h.chunks[p - 8].block);
      } else {
        assert LiveSame(w, w', h.blocks[g.home].use, a);
      }
    }
  }

  // ---------------------------------------------------------------- grants that share a block

  /** Another grant than `p` starts inside block `b`. */
  ghost predicate Shared(grants: map<int, Grant>, blocks: Blocks, b: int, p: int) {
    b in blocks && exists q :: q in grants && q != p && b <= q < b + blocks[b].size
  }

  /** The block a grant lies in. */
  ghost function HomeOf(chunks: Chunks, p: int, g: Grant): int {
    if g.home != 0 then g.home else if p - 8 in chunks then chunks[p - 8].block else 0
  }

  lemma HomeHolds(h: Heap, brickBin: seq<int>, brickNodes: map<int, Node>, p: int, g: Grant, b: int)
    requires HeapsOk(h, brickBin, brickNodes) && Backed(h.chunks, h.blocks, p, g)
    ensures var k := HomeOf(h.chunks, p, g); k in h.blocks && k <= p - 8 && p < k + h.blocks[k].size
    ensures b in h.blocks && b <= p < b + h.blocks[b].size ==> b == HomeOf(h.chunks, p, g)
  {
    hide Linked, FloorBin, BrickInv, Step, Capacity, Span;
    var k := HomeOf(h.chunks, p, g);
    if g.home == 0 {
      assert Placed(h.chunks, h.blocks, p - 8);
    } else {
      BrickPlace(h, brickBin, brickNodes, g.home, p - 8);
    }
    if b in h.blocks { assert BlocksApart(h.blocks, b, k); }
  }

  /** The block of a chunk holds another grant exactly if another of its chunks is in use. */
  lemma ChunkShares(grants: map<int, Grant>, h: Heap, brickBin: seq<int>, brickNodes: map<int, Node>, p: int)
    requires HeapsOk(h, brickBin, brickNodes) && Granted(grants, h.chunks, h.blocks)
    requires p in grants && grants[p].home == 0
    ensures p - 8 in h.chunks && h.chunks[p - 8].block in h.blocks
    ensures var b := h.chunks[p - 8].block;
      Shared(grants, h.blocks, b, p) <==> Occupied(Live(h.chunks, p - 8), b, h.blocks[b].size)
  {
    hide HeapOk, BrickInv, Step, Granted;
    GrantBacked(grants, h.chunks, h.blocks, p);
    var b := h.chunks[p - 8].block;
    HomeHolds(h, brickBin, brickNodes, p, grants[p], b);
    ChunkedHome(h, p - 8);
    if Shared(grants, h.blocks, b, p) {
      var q :| q in grants && q != p && b <= q < b + h.blocks[b].size;
      GrantBacked(grants, h.chunks, h.blocks, q);
      HomeHolds(h, brickBin, brickNodes, q, grants[q], b);
      assert q - 8 in Live(h.chunks, p - 8);
    }
    if Occupied(Live(h.chunks, p - 8), b, h.blocks[b].size) {
      var a :| a in Live(h.chunks, p - 8) && b <= a < b + h.blocks[b].size;
      UsedGranted(grants, h.chunks, h.blocks, a);
      SameChunkBlock(h, a, b);
      HomeHolds(h, brickBin, brickNodes, a + 8, grants[a + 8], b);
    }
  }

  lemma GrantBacked(grants: map<int, Grant>, chunks: Chunks, blocks: Blocks, p: int)
    requires Granted(grants, chunks, blocks) && p in grants
    ensures Backed(chunks, blocks, p, grants[p])
  {
  }

  lemma UsedGranted(grants: map<int, Grant>, chunks: Chunks, blocks: Blocks, a: int)
    requires Granted(grants, chunks, blocks) && a in chunks && chunks[a].used
    ensures a + 8 in grants && grants[a + 8].home == 0 && Backed(chunks, blocks, a + 8, grants[a + 8])
  {
  }

  lemma ChunkedHome(h: Heap, a: int)
    requires HeapOk(h, 0) && a in h.chunks
    ensures IsChunked(h.blocks, h.chunks[a].block)
  {
    hide Linked, FloorBin, Tagged, Calm, Members;
    assert Placed(h.chunks, h.blocks, a);
  }

  lemma SameChunkBlock(h: Heap, a: int, b: int)
    requires HeapOk(h, 0) && a in h.chunks && b in h.blocks && b <= a < b + h.blocks[b].size
    ensures h.chunks[a].block == b
  {
    hide Linked, FloorBin, Tagged, Calm, Members;
    assert Placed(h.chunks, h.blocks, a);
    assert BlocksApart(h.blocks, b, h.chunks[a].block);
  }

  /** The block of a brick holds another grant exactly if another of its bricks is in use. */
  lemma BrickShares(grants: map<int, Grant>, h: Heap, brickBin: seq<int>, brickNodes: map<int, Node>, p: int)
    requires HeapsOk(h, brickBin, brickNodes) && Granted(grants, h.chunks, h.blocks)
    requires p in grants && grants[p].home != 0
    ensures var b := grants[p].home;
      LiveBrick(h.blocks, b, p - 8) && (Shared(grants, h.blocks, b, p) <==> h.blocks[b].use.live != {p - 8})
  {
    hide HeapOk, BrickInv, Step;
    var b := grants[p].home;
    assert Backed(h.chunks, h.blocks, p, grants[p]);
    if Shared(grants, h.blocks, b, p) {
      var q :| q in grants && q != p && b <= q < b + h.blocks[b].size;
      HomeHolds(h, brickBin, brickNodes, q, grants[q], b);
      if grants[q].home == 0 { ChunkedHome(h, q - 8); }
      assert q - 8 in h.blocks[b].use.live;
    } else {
      forall a | a in h.blocks[b].use.live ensures a == p - 8 {
        assert LiveBrick(h.blocks, b, a);
        HomeHolds(h, brickBin, brickNodes, a + 8, grants[a + 8], b);
      }
    }
  }
}
