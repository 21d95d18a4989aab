/**
 The brick heap in memory: blocks of equal bricks with a packed header, a lazily built list of free
 bricks, and one list per size of the blocks that have some but not all of their bricks in use.
 */
module BrickHeap {
  import opened SizeClasses
  import opened FreeLists
  import opened ChunkTiling

  const BrickBinCount := 256
  const HeadAt := 262120
  const LinksAt := 262128

  /** The block header packs the bin number above the count of free bricks. */
  const CountRange := 0x100_0000_0000_0000

  /** Bytes per brick; requests of up to 31 bytes use bins 1 to 4. */
  function Step(bin: nat): nat { 8 * (bin + 1) }

  function Capacity(bin: nat): int { FixedMax / Step(bin) }

  /** `i` bricks of this bin, in bytes. */
  function Span(bin: nat, i: int): int {
    if bin == 1 then 16 * i else if bin == 2 then 24 * i else if bin == 3 then 32 * i else 40 * i
  }

  function Count(u: Use): nat
    requires u.Bricked?
  {
    |u.free| + u.left
  }

  // ---------------------------------------------------------------- one block

  predicate Carved(u: Use, a: int) {
    u.Bricked? && (a in u.live || a in u.free)
  }

  /** A brick that has been handed out at some time: placed before the frontier, header pointing to its block. */
  ghost predicate BrickOk(w: Memory, b: int, u: Use, a: int) {
    && u.Bricked?
    && b + 8 <= a && a + Step(u.bin) <= u.frontier && Aligned(a)
    && Rd(w, a) == b + 1
  }

  /** The link of the `i`-th freed brick: to the one freed before it, and from the first one to the frontier. */
  ghost predicate FreeOk(w: Memory, u: Use, i: nat) {
    && u.Bricked? && i < |u.free|
    && (0 < i ==> Rd(w, u.free[i] + 8) == u.free[i - 1])
    && (i == 0 && 0 < u.left ==> Rd(w, u.free[i] + 8) == u.frontier)
    && u.free[i] !in u.live
  }

  ghost predicate Separate(u: Use, a: int, c: int) {
    u.Bricked? && (a == c || a + Step(u.bin) <= c || c + Step(u.bin) <= a)
  }

  ghost predicate BlockWords(w: Memory, b: int, u: Use) {
    && u.Bricked?
    && Rd(w, b) == u.bin * CountRange + Count(u)
    && (u.free != [] ==> Rd(w, b + HeadAt) == u.free[|u.free| - 1])
    && (u.free == [] && 0 < u.left ==> Rd(w, b + HeadAt) == u.frontier)
    && (0 < u.left ==> Rd(w, u.frontier) == 0)
  }

  ghost predicate Shape(b: int, u: Use) {
    && u.Bricked?
    && 1 <= u.bin <= 4 && Aligned(b)
    && |u.live| + |u.free| + u.left == Capacity(u.bin)
    && u.frontier == b + 8 + Span(u.bin, Capacity(u.bin) - u.left)
  }

  ghost predicate BricksOk(w: Memory, b: int, u: Use) {
    && u.Bricked? && Shape(b, u) && BlockWords(w, b, u)
    && (forall a {:trigger BrickOk(w, b, u, a)} :: Carved(u, a) ==> BrickOk(w, b, u, a))
    && (forall i: nat {:trigger FreeOk(w, u, i)} :: i < |u.free| ==> FreeOk(w, u, i))
    && (forall a, c {:trigger Separate(u, a, c)} :: Carved(u, a) && Carved(u, c) ==> Separate(u, a, c))
    && (forall i, j :: 0 <= i < j < |u.free| ==> u.free[i] != u.free[j])
  }

  lemma Capacities()
    ensures Capacity(1) == 16382 && Capacity(2) == 10921 && Capacity(3) == 8191 && Capacity(4) == 6552
  {
    assert Step(1) == 16 && Step(2) == 24 && Step(3) == 32 && Step(4) == 40;
  }

  lemma Sizes(b: int, u: Use)
    requires u.Bricked? && Shape(b, u)
    ensures b + 8 <= u.frontier <= b + HeadAt && Aligned(u.frontier)
    ensures 16 <= Step(u.bin) <= 40 && Aligned(Step(u.bin))
    ensures 6552 <= Capacity(u.bin) < CountRange && u.left <= Capacity(u.bin)
    ensures 0 < u.left ==> u.frontier + Step(u.bin) <= b + HeadAt
    ensures 1 < u.left ==> u.frontier + 2 * Step(u.bin) <= b + HeadAt
    ensures forall i :: Span(u.bin, i + 1) == Span(u.bin, i) + Step(u.bin)
  {
    hide Capacity, Aligned;
    Capacities();
    SpanAligned(u.bin, Capacity(u.bin) - u.left);
    AlignedSum(b, 8);
    AlignedSum(b + 8, Span(u.bin, Capacity(u.bin) - u.left));
  }

  lemma SpanAligned(bin: nat, i: int)
    requires 1 <= bin <= 4
    ensures Aligned(Span(bin, i)) && Aligned(Step(bin)) && Aligned(8)
  {
    assert Span(bin, i) ==
           8 * (if bin == 1 then 2 * i else if bin == 2 then 3 * i else if bin == 3 then 4 * i else 5 * i);
  }

  /** The block after its top freed brick, or else its frontier brick, has been handed out. */
  function Taken(u: Use): Use
    requires u.Bricked? && 0 < Count(u)
  {
    if u.free != [] then u.(live := u.live + {u.free[|u.free| - 1]}, free := u.free[..|u.free| - 1])
    else u.(live := u.live + {u.frontier}, frontier := u.frontier + Step(u.bin), left := u.left - 1)
  }

  function TakenBrick(u: Use): int
    requires u.Bricked? && 0 < Count(u)
  {
    if u.free != [] then u.free[|u.free| - 1] else u.frontier
  }

  /** The words `kl_brick_get` writes in the block for brick `a`, the count being already lowered. */
  function TakeWords(w: Memory, b: int, a: int, step: int, full: bool): Memory {
    var w1 := if Rd(w, a) != 0 then w
              else if full then w[a := b + 1]
              else w[a := b + 1][a + 8 := a + step][a + step := 0];
    w1[b + HeadAt := Rd(w1, a + 8)][a + 8 := 0]
  }

  lemma TakenShape(b: int, u: Use)
    requires u.Bricked? && Shape(b, u) && 0 < Count(u) && TakenBrick(u) !in u.live
    ensures Shape(b, Taken(u)) && Count(Taken(u)) == Count(u) - 1
  {
    hide Capacity;
    Sizes(b, u);
  }

  lemma TakeFreed(w: Memory, b: int, u: Use)
    requires BricksOk(w, b, u) && u.free != [] && 0 < b
    ensures BricksOk(TakeWords(w[b := Rd(w, b) - 1], b, TakenBrick(u), Step(u.bin), Count(u) == 1), b, Taken(u))
  {
    hide Capacity, Span, Step;
    Sizes(b, u);
    var n, a, v := |u.free| - 1, TakenBrick(u), Taken(u);
    var w' := TakeWords(w[b := Rd(w, b) - 1], b, a, Step(u.bin), Count(u) == 1);
    assert a in u.free && BrickOk(w, b, u, a) && FreeOk(w, u, n);
    TakenShape(b, u);
    if 0 < n { assert u.free[n - 1] in u.free && BrickOk(w, b, u, u.free[n - 1]) && FreeOk(w, u, n - 1); }
    assert forall x :: x != b && x != b + HeadAt && x != a + 8 ==> Rd(w', x) == Rd(w, x);
    assert BlockWords(w', b, v);
    forall c | Carved(v, c) ensures BrickOk(w', b, v, c) {
      assert Carved(u, c) && BrickOk(w, b, u, c) && Separate(u, a, c);
    }
    forall i: nat | i < |v.free| ensures FreeOk(w', v, i) { TakeFreedLink(w, w', b, u, i); }
    forall c, d | Carved(v, c) && Carved(v, d) ensures Separate(v, c, d) { assert Separate(u, c, d); }
  }

  lemma TakeFreedLink(w: Memory, w': Memory, b: int, u: Use, i: nat)
    requires BricksOk(w, b, u) && u.free != [] && i < |u.free| - 1
    requires forall x :: x != b && x != b + HeadAt && x != TakenBrick(u) + 8 ==> Rd(w', x) == Rd(w, x)
    ensures FreeOk(w', Taken(u), i)
  {
    hide Capacity, Span, Step;
    Sizes(b, u);
    var a := TakenBrick(u);
    assert FreeOk(w, u, i) && u.free[i] in u.free && u.free[i] != a;
    assert BrickOk(w, b, u, u.free[i]) && Separate(u, a, u.free[i]);
  }

  lemma FrontierNew(w: Memory, b: int, u: Use)
    requires BricksOk(w, b, u)
    ensures u.frontier !in u.live
  {
    hide Capacity, Span, Step;
    Sizes(b, u);
    forall a | a in u.live ensures a != u.frontier { assert BrickOk(w, b, u, a); }
  }

  lemma TakeFrontier(w: Memory, b: int, u: Use)
    requires BricksOk(w, b, u) && u.free == [] && 0 < u.left && 0 < b
    ensures BricksOk(TakeWords(w[b := Rd(w, b) - 1], b, TakenBrick(u), Step(u.bin), Count(u) == 1), b, Taken(u))
  {
    hide Capacity, Span, Step;
    Sizes(b, u);
    var a, v := TakenBrick(u), Taken(u);
    var w' := TakeWords(w[b := Rd(w, b) - 1], b, a, Step(u.bin), Count(u) == 1);
    FrontierNew(w, b, u);
    TakenShape(b, u);
    assert forall x ::
        x != b && x != b + HeadAt && x != a && x != a + 8 && x != a + Step(u.bin) ==> Rd(w', x) == Rd(w, x);
    assert BlockWords(w', b, v);
    forall c | Carved(v, c) ensures BrickOk(w', b, v, c) {
      if c != a { assert BrickOk(w, b, u, c); }
    }
    forall c, d | Carved(v, c) && Carved(v, d) ensures Separate(v, c, d) {
      if c != a { assert BrickOk(w, b, u, c); }
      if d != a { assert BrickOk(w, b, u, d); }
      if c != a && d != a { assert Separate(u, c, d); }
    }
  }

  /** The block after brick `a` has been given back. */
  function Given(u: Use, a: int): Use
    requires u.Bricked?
  {
    u.(live := u.live - {a}, free := u.free + [a])
  }

  /** The words `kl_brick_put` writes in a block that stays in use. */
  function GiveWords(w: Memory, b: int, a: int): Memory { w[a + 8 := Rd(w, b + HeadAt)][b + HeadAt := a] }

  lemma Give(w: Memory, b: int, u: Use, a: int)
    requires BricksOk(w, b, u) && a in u.live && 0 < b
    ensures BricksOk(GiveWords(w[b := Rd(w, b) + 1], b, a), b, Given(u, a)) && Count(Given(u, a)) == Count(u) + 1
  {
    hide Capacity, Span, Step;
    Sizes(b, u);
    var n, v, w' := |u.free|, Given(u, a), GiveWords(w[b := Rd(w, b) + 1], b, a);
    assert BrickOk(w, b, u, a);
    assert forall x :: x != b && x != b + HeadAt && x != a + 8 ==> Rd(w', x) == Rd(w, x);
    assert Shape(b, v) && BlockWords(w', b, v);
    forall c | Carved(v, c) ensures BrickOk(w', b, v, c) && Carved(u, c) {
      assert Carved(u, c) && BrickOk(w, b, u, c) && Separate(u, a, c);
    }
    forall i: nat | i < |v.free| ensures FreeOk(w', v, i) && (i < n ==> v.free[i] != a) {
      if i < n {
        assert FreeOk(w, u, i) && u.free[i] in u.free;
        assert BrickOk(w, b, u, u.free[i]) && Separate(u, a, u.free[i]);
      }
    }
    forall c, d | Carved(v, c) && Carved(v, d) ensures Separate(v, c, d) { assert Separate(u, c, d); }
  }

  // ---------------------------------------------------------------- all blocks

  predicate IsBricked(blocks: Blocks, b: int) { b in blocks && blocks[b].use.Bricked? }

  /** Except in a block `f` being worked on, some brick is in use. */
  ghost predicate BricksAt(w: Memory, blocks: Blocks, f: int, b: int) {
    IsBricked(blocks, b) && (BricksOk(w, b, blocks[b].use) && (b == f || blocks[b].use.live != {}))
  }

  /** A brick block is listed exactly when it has free bricks; while it is not, its links are null. */
  ghost predicate ListedOk(w: Memory, nodes: map<int, Node>, blocks: Blocks, b: int) {
    && (b in nodes <==> IsBricked(blocks, b) && 0 < Count(blocks[b].use))
    && (b in nodes ==> nodes[b].bin == blocks[b].use.bin)
    && (IsBricked(blocks, b) && b !in nodes ==> Rd(w, b + LinksAt) == 0 && Rd(w, b + LinksAt + 8) == 0)
  }

  ghost predicate Listed(w: Memory, nodes: map<int, Node>, blocks: Blocks) {
    forall b {:trigger ListedOk(w, nodes, blocks, b)} :: ListedOk(w, nodes, blocks, b)
  }

  ghost predicate AllBricks(w: Memory, blocks: Blocks, f: int) {
    forall b {:trigger BricksAt(w, blocks, f, b)} :: IsBricked(blocks, b) ==> BricksAt(w, blocks, f, b)
  }

  /** The invariant of the brick heap, while block `f` (0 for none) is being worked on. */
  ghost predicate BrickInv(w: Memory, heads: seq<int>, nodes: map<int, Node>, blocks: Blocks, f: int) {
    && BlocksOk(blocks) && AllBricks(w, blocks, f) && Listed(w, nodes, blocks)
    && Linked(w, LinksAt, heads, nodes) && |heads| == BrickBinCount
  }

  // ---------------------------------------------------------------- what is left alone

  /** Everything but the list links of brick blocks. */
  ghost function Bodies(blocks: Blocks): map<int, int> {
    map b | b in blocks :: if blocks[b].use.Bricked? then LinksAt else blocks[b].size
  }

  ghost predicate SameBody(w: Memory, w': Memory, b: int) {
    forall x {:trigger Rd(w', x)} :: b <= x < b + LinksAt ==> Rd(w', x) == Rd(w, x)
  }

  lemma BodyFrame(w: Memory, w': Memory, b: int, u: Use)
    requires BricksOk(w, b, u) && SameBody(w, w', b)
    ensures BricksOk(w', b, u)
  {
    hide Capacity, Span, Step;
    Sizes(b, u);
    forall a | Carved(u, a) ensures BrickOk(w', b, u, a) { assert BrickOk(w, b, u, a); }
    forall i: nat | i < |u.free| ensures FreeOk(w', u, i) {
      assert FreeOk(w, u, i) && u.free[i] in u.free && BrickOk(w, b, u, u.free[i]);
    }
    if u.free != [] { assert u.free[|u.free| - 1] in u.free; }
  }

  lemma LinkSpares(w: Memory, w1: Memory, blocks: Blocks, b: int, x: int, v: int)
    requires BlocksOk(blocks) && IsBricked(blocks, b) && (x == b + LinksAt || x == b + LinksAt + 8)
    requires Spared(w, w1, Bodies(blocks))
    ensures Spared(w, w1[x := v], Bodies(blocks))
  {
    assert BlockOk(blocks, b);
    forall k | k in blocks ensures !(k <= x < k + Bodies(blocks)[k]) {
      assert BlocksApart(blocks, b, k) && BlockOk(blocks, k);
    }
    forall k, y | k in Bodies(blocks) && k <= y < k + Bodies(blocks)[k] ensures Rd(w1[x := v], y) == Rd(w, y) {
      assert Rd(w1, y) == Rd(w, y);
    }
  }

  lemma ListedSpread(w: Memory, nodes: map<int, Node>, blocks: Blocks)
    requires BlocksOk(blocks) && Listed(w, nodes, blocks)
    ensures Spread(nodes)
  {
    forall x, y | x in nodes && y in nodes && x < y ensures x + 16 <= y {
      assert ListedOk(w, nodes, blocks, x) && ListedOk(w, nodes, blocks, y);
      assert BlocksApart(blocks, x, y) && BlockOk(blocks, x) && BlockOk(blocks, y);
    }
  }

  /** Memory after block `b` has been taken off its list and its links set to null. */
  function Unlinked(w: Memory, b: int): Memory { Bypassed(w, LinksAt, b)[b + LinksAt := 0][b + LinksAt + 8 := 0] }

  /** Taking a block off its list changes list links only; everyone else stays listed. */
  lemma UnlinkKeeps(w: Memory, heads: seq<int>, nodes: map<int, Node>, blocks: Blocks, b: int)
    requires BlocksOk(blocks) && Listed(w, nodes, blocks) && Linked(w, LinksAt, heads, nodes) && b in nodes
    ensures nodes[b].bin < |heads| && Spared(w, Unlinked(w, b), Bodies(blocks))
    ensures Linked(Unlinked(w, b), LinksAt, BypassedHeads(w, LinksAt, heads, nodes[b].bin, b), nodes - {b})
  {
    hide BlocksOk, Linked, Bodies, Spared;
    ListedSpread(w, nodes, blocks);
    BypassLinked(w, LinksAt, heads, nodes, b);
    BypassSpares(w, heads, nodes, blocks, b);
    assert ListedOk(w, nodes, blocks, b);
    var w1, hs := Bypassed(w, LinksAt, b), BypassedHeads(w, LinksAt, heads, nodes[b].bin, b);
    LinkSpares(w, w1, blocks, b, b + LinksAt, 0);
    LinkSpares(w, w1[b + LinksAt := 0], blocks, b, b + LinksAt + 8, 0);
    assert Spread(nodes);
    LinkedFrame(w1, Unlinked(w, b), LinksAt, hs, nodes - {b});
  }

  lemma BypassSpares(w: Memory, heads: seq<int>, nodes: map<int, Node>, blocks: Blocks, b: int)
    requires BlocksOk(blocks) && Listed(w, nodes, blocks) && Linked(w, LinksAt, heads, nodes) && b in nodes
    ensures Spared(w, Bypassed(w, LinksAt, b), Bodies(blocks))
  {
    hide BlocksOk, Bodies;
    assert NodeOk(w, LinksAt, heads, nodes, b);
    var p, q := Rd(w, b + LinksAt), Rd(w, b + LinksAt + 8);
    var w1 := if p == 0 then w else w[p + LinksAt + 8 := q];
    if p != 0 { assert ListedOk(w, nodes, blocks, p); LinkSpares(w, w, blocks, p, p + LinksAt + 8, q); }
    if q != 0 { assert ListedOk(w, nodes, blocks, q); LinkSpares(w, w1, blocks, q, q + LinksAt, p); }
  }

  /** Words in the body of block `b` are on no list and in no other block. */
  lemma BodyWrites(w: Memory, w': Memory, heads: seq<int>, nodes: map<int, Node>, blocks: Blocks, b: int)
    requires BlocksOk(blocks) && Listed(w, nodes, blocks) && Linked(w, LinksAt, heads, nodes)
    requires b in blocks && OnlyIn(w, w', b, LinksAt)
    ensures Listed(w', nodes, blocks) && Linked(w', LinksAt, heads, nodes)
    ensures forall k {:trigger SameBody(w, w', k)} :: k in blocks && k != b ==> SameBody(w, w', k)
    ensures forall k, x {:trigger k in blocks, Rd(w', x)} :: k in blocks && k != b && k <= x < k + blocks[k].size ==>
      Rd(w', x) == Rd(w, x)
  {
    hide Linked;
    assert BlockOk(blocks, b);
    forall k | k in blocks && k != b ensures k + blocks[k].size <= b || b + LinksAt <= k {
      assert BlocksApart(blocks, b, k);
    }
    forall k | k in blocks ensures BlockDefault <= blocks[k].size { assert BlockOk(blocks, k); }
    forall k ensures ListedOk(w', nodes, blocks, k) { assert ListedOk(w, nodes, blocks, k); }
    forall k | k in nodes ensures k in blocks { assert ListedOk(w, nodes, blocks, k); }
    LinkedFrame(w, w', LinksAt, heads, nodes);
  }

  lemma SparedBody(w: Memory, w': Memory, blocks: Blocks, k: int)
    requires Spared(w, w', Bodies(blocks)) && k in blocks && BlocksOk(blocks)
    ensures SameBody(w, w', k)
    ensures !blocks[k].use.Bricked? ==> forall x :: k <= x < k + blocks[k].size ==> Rd(w', x) == Rd(w, x)
  {
    assert k in Bodies(blocks) && BlockOk(blocks, k);
  }

  /** The links of a block on no list are not touched by list operations. */
  lemma UnlinkOthers(w: Memory, heads: seq<int>, nodes: map<int, Node>, blocks: Blocks, b: int, k: int)
    requires BlocksOk(blocks) && Listed(w, nodes, blocks) && Linked(w, LinksAt, heads, nodes) && b in nodes
    requires k in blocks && k !in nodes
    ensures Rd(Unlinked(w, b), k + LinksAt) == Rd(w, k + LinksAt)
    ensures Rd(Unlinked(w, b), k + LinksAt + 8) == Rd(w, k + LinksAt + 8)
    ensures Rd(Bypassed(w, LinksAt, b), k + LinksAt) == Rd(w, k + LinksAt)
    ensures Rd(Bypassed(w, LinksAt, b), k + LinksAt + 8) == Rd(w, k + LinksAt + 8)
  {
    assert NodeOk(w, LinksAt, heads, nodes, b) && ListedOk(w, nodes, blocks, b);
    var p, q := Rd(w, b + LinksAt), Rd(w, b + LinksAt + 8);
    TwoBlocks(blocks, b, k);
    if p != 0 { assert ListedOk(w, nodes, blocks, p); TwoBlocks(blocks, p, k); }
    if q != 0 { assert ListedOk(w, nodes, blocks, q); TwoBlocks(blocks, q, k); }
  }

  lemma TwoBlocks(blocks: Blocks, b: int, k: int)
    requires BlocksOk(blocks) && b in blocks && k in blocks
    ensures b == k || b + BlockDefault <= k || k + BlockDefault <= b
    ensures b == k || b + blocks[b].size <= k || k + blocks[k].size <= b
    ensures 0 < b && BlockDefault <= blocks[b].size && Aligned(b)
  {
    assert BlocksApart(blocks, b, k) && BlockOk(blocks, b) && BlockOk(blocks, k);
  }

  // ---------------------------------------------------------------- kl_brick_get

  /** The count goes down, a block left without free bricks leaves its list, and the brick is taken. */
  function GetWords(w: Memory, b: int, u: Use): Memory
    requires u.Bricked? && 0 < Count(u)
  {
    var w1 := w[b := Rd(w, b) - 1];
    var w2 := if Count(u) == 1 then Unlinked(w1, b) else w1;
    TakeWords(w2, b, TakenBrick(u), Step(u.bin), Count(u) == 1)
  }

  lemma TakeWordsSame(w1: Memory, w2: Memory, b: int, a: int, step: int, full: bool)
    requires SameBody(w1, w2, b) && b <= a && a + step < b + LinksAt && 16 <= step
    ensures SameBody(TakeWords(w1, b, a, step, full), TakeWords(w2, b, a, step, full), b)
    ensures OnlyIn(w2, TakeWords(w2, b, a, step, full), b, LinksAt)
  {
    assert Rd(w2, a) == Rd(w1, a) && Rd(w2, a + 8) == Rd(w1, a + 8);
    var v1, v2 := TakeWords(w1, b, a, step, full), TakeWords(w2, b, a, step, full);
    forall x | b <= x < b + LinksAt ensures Rd(v2, x) == Rd(v1, x) {
      assert Rd(w2, x) == Rd(w1, x);
    }
  }

  lemma TakeOk(w: Memory, b: int, u: Use)
    requires BricksOk(w, b, u) && 0 < Count(u) && 0 < b
    ensures BricksOk(TakeWords(w[b := Rd(w, b) - 1], b, TakenBrick(u), Step(u.bin), Count(u) == 1), b, Taken(u))
    ensures b + 8 <= TakenBrick(u) && TakenBrick(u) + Step(u.bin) <= b + HeadAt && Aligned(TakenBrick(u))
    ensures TakenBrick(u) !in u.live
  {
    hide Capacity, Span, Step;
    Sizes(b, u);
    FrontierNew(w, b, u);
    if u.free != [] {
      TakeFreed(w, b, u);
      assert TakenBrick(u) in u.free && BrickOk(w, b, u, TakenBrick(u)) && FreeOk(w, u, |u.free| - 1);
    } else {
      TakeFrontier(w, b, u);
    }
  }

  lemma GetBlock(w: Memory, heads: seq<int>, nodes: map<int, Node>, blocks: Blocks, b: int)
    requires BrickInv(w, heads, nodes, blocks, b) && b in nodes
    ensures b in blocks && blocks[b].use.Bricked? && 0 < Count(blocks[b].use) && 0 < b
    ensures nodes[b].bin == blocks[b].use.bin < |heads|
    ensures BricksOk(w, b, blocks[b].use) && blocks[b].size == BlockDefault
  {
    assert ListedOk(w, nodes, blocks, b) && BricksAt(w, blocks, b, b) && BlockOk(blocks, b);
    assert NodeOk(w, LinksAt, heads, nodes, b);
  }

  ghost function GetNodes(nodes: map<int, Node>, b: int, full: bool): map<int, Node> {
    if full then nodes - {b} else nodes
  }

  function GetHeads(w: Memory, heads: seq<int>, b: int, u: Use): seq<int>
    requires u.Bricked? && u.bin < |heads|
  {
    if Count(u) == 1 then BypassedHeads(w[b := Rd(w, b) - 1], LinksAt, heads, u.bin, b) else heads
  }

  /** The memory between the list work and the brick work of `kl_brick_get`. */
  lemma GetUnlinks(w: Memory, heads: seq<int>, nodes: map<int, Node>, blocks: Blocks, b: int, w2: Memory)
    requires BrickInv(w, heads, nodes, blocks, b) && b in nodes
    requires b in blocks && blocks[b].use.Bricked? && blocks[b].use.bin < |heads|
    requires var w1 := w[b := Rd(w, b) - 1]; w2 == if Count(blocks[b].use) == 1 then Unlinked(w1, b) else w1
    ensures var full := Count(blocks[b].use) == 1;
      && Linked(w2, LinksAt, GetHeads(w, heads, b, blocks[b].use), GetNodes(nodes, b, full))
      && SameBody(w[b := Rd(w, b) - 1], w2, b)
      && (full ==> Rd(w2, b + LinksAt) == 0 && Rd(w2, b + LinksAt + 8) == 0)
      && (forall k {:trigger SameBody(w, w2, k)} :: k in blocks && k != b ==> SameBody(w, w2, k))
      && (forall k :: k in blocks && k !in nodes ==> Rd(w2, k + LinksAt) == Rd(w, k + LinksAt))
      && (forall k :: k in blocks && k !in nodes ==> Rd(w2, k + LinksAt + 8) == Rd(w, k + LinksAt + 8))
      && (forall k, x ::
           k in blocks && !blocks[k].use.Bricked? && k <= x < k + blocks[k].size ==> Rd(w2, x) == Rd(w, x))
  {
    hide Linked, AllBricks, BlocksOk, Bodies, Spared, Unlinked;
    GetBlock(w, heads, nodes, blocks, b);
    var w1 := w[b := Rd(w, b) - 1];
    BodyWrites(w, w1, heads, nodes, blocks, b);
    if Count(blocks[b].use) == 1 {
      UnlinkKeeps(w1, heads, nodes, blocks, b);
      UnlinkedNull(w1, b);
      forall k | k in blocks ensures SameBody(w1, w2, k) && (k != b ==> SameBody(w, w2, k)) {
        SparedBody(w1, w2, blocks, k);
        assert k != b ==> SameBody(w, w1, k);
      }
      forall k | k in blocks && k !in nodes
        ensures Rd(w2, k + LinksAt) == Rd(w, k + LinksAt) && Rd(w2, k + LinksAt + 8) == Rd(w, k + LinksAt + 8) {
        UnlinkOthers(w1, heads, nodes, blocks, b, k);
        TwoBlocks(blocks, b, k);
      }
      forall k, x | k in blocks && !blocks[k].use.Bricked? && k <= x < k + blocks[k].size
        ensures Rd(w2, x) == Rd(w, x)
      {
        SparedBody(w1, w2, blocks, k);
      }
    } else {
      assert SameBody(w1, w2, b);
      forall k | k in blocks && k !in nodes
        ensures Rd(w2, k + LinksAt) == Rd(w, k + LinksAt) && Rd(w2, k + LinksAt + 8) == Rd(w, k + LinksAt + 8) {
        TwoBlocks(blocks, b, k);
      }
    }
  }

  lemma UnlinkedNull(w: Memory, b: int)
    ensures Rd(Unlinked(w, b), b + LinksAt) == 0 && Rd(Unlinked(w, b), b + LinksAt + 8) == 0
  {
  }

  /** What a change in block `b` keeps elsewhere: other blocks not for bricks in full, and the extent of every
      brick in use other than `a`. */
  ghost predicate LiveSame(w: Memory, w': Memory, u: Use, a: int) {
    && u.Bricked?
    && (forall c, x {:trigger c in u.live, Rd(w', x)} ::
         c in u.live && c != a && c <= x < c + Step(u.bin) ==> Rd(w', x) == Rd(w, x))
  }

  ghost predicate KeptBricks(w: Memory, w': Memory, blocks: Blocks, a: int) {
    && (forall k, x {:trigger k in blocks, Rd(w', x)} ::
         k in blocks && !blocks[k].use.Bricked? && k <= x < k + blocks[k].size ==> Rd(w', x) == Rd(w, x))
    && (forall k {:trigger LiveSame(w, w', blocks[k].use, a)} ::
         IsBricked(blocks, k) ==> LiveSame(w, w', blocks[k].use, a))
  }

  lemma LiveInBody(w: Memory, w': Memory, b: int, u: Use, a: int)
    requires BricksOk(w, b, u) && SameBody(w, w', b)
    ensures LiveSame(w, w', u, a)
  {
    hide Capacity, Span, Step;
    Sizes(b, u);
    forall c, x | c in u.live && c != a && c <= x < c + Step(u.bin) ensures Rd(w', x) == Rd(w, x) {
      assert BrickOk(w, b, u, c);
    }
  }

  lemma TakeSpares(w: Memory, w2: Memory, b: int, u: Use, v: int)
    requires BricksOk(w, b, u) && 0 < Count(u) && 0 < b && SameBody(w[b := v], w2, b)
    ensures LiveSame(w, TakeWords(w2, b, TakenBrick(u), Step(u.bin), Count(u) == 1), u, TakenBrick(u))
  {
    hide Capacity, Span, Step;
    Sizes(b, u);
    TakeOk(w, b, u);
    var a := TakenBrick(u);
    assert Rd(w2, a) == Rd(w, a);
    if u.free != [] { assert a in u.free && BrickOk(w, b, u, a); }
    var w3 := TakeWords(w2, b, a, Step(u.bin), Count(u) == 1);
    forall c, x | c in u.live && c != a && c <= x < c + Step(u.bin) ensures Rd(w3, x) == Rd(w, x) {
      assert BrickOk(w, b, u, c) && Rd(w2, x) == Rd(w, x);
      if u.free != [] { assert Separate(u, c, a); }
    }
  }

  /** `kl_brick_get` from a listed block keeps the brick heap in order. */
  lemma GetKeeps(w: Memory, heads: seq<int>, nodes: map<int, Node>, blocks: Blocks, b: int)
    requires BrickInv(w, heads, nodes, blocks, b) && b in nodes
    requires IsBricked(blocks, b) && 0 < Count(blocks[b].use) && blocks[b].use.bin < |heads|
    ensures var u := blocks[b].use; var w3 := GetWords(w, b, u);
      && BrickInv(w3, GetHeads(w, heads, b, u), GetNodes(nodes, b, Count(u) == 1),
                  blocks[b := blocks[b].(use := Taken(u))], 0)
      && KeptBricks(w, w3, blocks, TakenBrick(u))
  {
    hide Linked, BlocksOk, Unlinked, TakeWords, Taken, SameBody, Step, TakenBrick, LiveSame, KeptBricks, Listed,
      AllBricks, BricksOk, Others;
    GetBlock(w, heads, nodes, blocks, b);
    var u := blocks[b].use;
    var w1, full, a := w[b := Rd(w, b) - 1], Count(u) == 1, TakenBrick(u);
    var w2 := if full then Unlinked(w1, b) else w1;
    var w3, hs, ns := GetWords(w, b, u), GetHeads(w, heads, b, u), GetNodes(nodes, b, full);
    var bs := blocks[b := blocks[b].(use := Taken(u))];
    GetUnlinks(w, heads, nodes, blocks, b, w2);
    TakeOk(w, b, u);
    TakenFacts(w, b, u);
    TakeWordsSame(w1, w2, b, a, Step(u.bin), full);
    BodyFrame(TakeWords(w1, b, a, Step(u.bin), full), w3, b, Taken(u));
    SameUse(blocks, b, Taken(u));
    GetRest(w, w2, w3, nodes, blocks, b, a);
    TakeSpares(w, w2, b, u, Rd(w, b) - 1);
    GetLists(w, w2, w3, hs, nodes, ns, blocks, b, Taken(u));
    OneChanged(w, w3, blocks, b, Taken(u), a);
  }

  /** The blocks other than `b`: bricks still in order, and those in use other than `a`, and all blocks not for
      bricks, as they were. */
  ghost predicate Others(w: Memory, w3: Memory, blocks: Blocks, b: int, a: int) {
    && (forall k {:trigger BricksOk(w3, k, blocks[k].use)} ::
         IsBricked(blocks, k) && k != b ==> BricksOk(w3, k, blocks[k].use) && blocks[k].use.live != {})
    && (forall k {:trigger LiveSame(w, w3, blocks[k].use, a)} ::
         IsBricked(blocks, k) && k != b ==> LiveSame(w, w3, blocks[k].use, a))
    && (forall k, x {:trigger k in blocks, Rd(w3, x)} ::
         k in blocks && !blocks[k].use.Bricked? && k <= x < k + blocks[k].size ==> Rd(w3, x) == Rd(w, x))
  }

  /** Putting together what holds of block `b` and of the other blocks. */
  lemma OneChanged(w: Memory, w3: Memory, blocks: Blocks, b: int, u: Use, a: int)
    requires IsBricked(blocks, b) && BricksOk(w3, b, u) && u.live != {} && LiveSame(w, w3, blocks[b].use, a)
    requires Others(w, w3, blocks, b, a)
    ensures AllBricks(w3, blocks[b := blocks[b].(use := u)], 0) && KeptBricks(w, w3, blocks, a)
  {
    hide BricksOk, LiveSame;
    var bs := blocks[b := blocks[b].(use := u)];
    forall k | IsBricked(bs, k) ensures BricksAt(w3, bs, 0, k) {
      assert k != b ==> BricksOk(w3, k, blocks[k].use);
    }
  }

  lemma TakenFacts(w: Memory, b: int, u: Use)
    requires BricksOk(w, b, u) && 0 < Count(u) && TakenBrick(u) !in u.live
    ensures Taken(u).Bricked? && Taken(u).live != {}
    ensures Taken(u).Bricked? && Taken(u).bin == u.bin && Count(Taken(u)) == Count(u) - 1
    ensures TakenBrick(u) in Taken(u).live
    ensures 16 <= Step(u.bin) <= 40
  {
    hide Capacity;
    Sizes(b, u);
    TakenShape(b, u);
  }

  lemma SameUse(blocks: Blocks, b: int, u: Use)
    requires BlocksOk(blocks) && b in blocks && blocks[b].size == BlockDefault
    ensures BlocksOk(blocks[b := blocks[b].(use := u)])
  {
    var bs := blocks[b := blocks[b].(use := u)];
    forall k | k in bs ensures BlockOk(bs, k) { assert BlockOk(blocks, k); }
    forall k, l | k in bs && l in bs ensures BlocksApart(bs, k, l) { assert BlocksApart(blocks, k, l); }
  }

  /** Blocks other than `b` after work in the body of `b`. */
  lemma GetRest(w: Memory, w2: Memory, w3: Memory, nodes: map<int, Node>, blocks: Blocks, b: int, a: int)
    requires BlocksOk(blocks) && IsBricked(blocks, b) && OnlyIn(w2, w3, b, LinksAt) && AllBricks(w, blocks, b)
    requires forall k {:trigger SameBody(w, w2, k)} :: k in blocks && k != b ==> SameBody(w, w2, k)
    requires forall k, x :: k in blocks && !blocks[k].use.Bricked? && k <= x < k + blocks[k].size ==>
      Rd(w2, x) == Rd(w, x)
    ensures Others(w, w3, blocks, b, a)
  {
    hide BlocksOk, BricksOk;
    forall k | k in blocks && k != b ensures SameBody(w, w3, k) {
      TwoBlocks(blocks, b, k);
      assert SameBody(w, w2, k);
    }
    forall k | IsBricked(blocks, k) && k != b
      ensures BricksOk(w3, k, blocks[k].use) && blocks[k].use.live != {} && LiveSame(w, w3, blocks[k].use, a)
    {
      assert BricksAt(w, blocks, b, k) && SameBody(w, w3, k);
      BodyFrame(w, w3, k, blocks[k].use);
      LiveInBody(w, w3, k, blocks[k].use, a);
    }
    forall k, x | k in blocks && !blocks[k].use.Bricked? && k <= x < k + blocks[k].size ensures Rd(w3, x) == Rd(w, x) {
      TwoBlocks(blocks, b, k);
      assert Rd(w2, x) == Rd(w, x);
    }
  }

  lemma GetLists(w: Memory, w2: Memory, w3: Memory, hs: seq<int>, nodes: map<int, Node>, ns: map<int, Node>,
                 blocks: Blocks, b: int, u: Use)
    requires BlocksOk(blocks) && IsBricked(blocks, b) && OnlyIn(w2, w3, b, LinksAt) && Listed(w, nodes, blocks)
    requires b in nodes
    requires u.Bricked? && u.bin == blocks[b].use.bin && ns == GetNodes(nodes, b, Count(u) == 0)
    requires Linked(w2, LinksAt, hs, ns)
    requires Count(u) == 0 ==> Rd(w2, b + LinksAt) == 0 && Rd(w2, b + LinksAt + 8) == 0
    requires forall k :: k in blocks && k !in nodes ==>
      Rd(w2, k + LinksAt) == Rd(w, k + LinksAt) && Rd(w2, k + LinksAt + 8) == Rd(w, k + LinksAt + 8)
    ensures Linked(w3, LinksAt, hs, ns) && Listed(w3, ns, blocks[b := blocks[b].(use := u)])
  {
    hide Linked, BlocksOk;
    var bs := blocks[b := blocks[b].(use := u)];
    forall k | k in blocks
      ensures Rd(w3, k + LinksAt) == Rd(w2, k + LinksAt) && Rd(w3, k + LinksAt + 8) == Rd(w2, k + LinksAt + 8)
    {
      TwoBlocks(blocks, b, k);
    }
    forall k | k in ns ensures k in blocks { assert ListedOk(w, nodes, blocks, k); }
    LinkedFrame(w2, w3, LinksAt, hs, ns);
    forall k ensures ListedOk(w3, ns, bs, k) { assert ListedOk(w, nodes, blocks, k); }
  }

  // ---------------------------------------------------------------- kl_brick_put

  lemma PrependOthers(w: Memory, heads: seq<int>, nodes: map<int, Node>, blocks: Blocks, i: nat, b: int, k: int)
    requires BlocksOk(blocks) && Linked(w, LinksAt, heads, nodes) && i < |heads|
    requires forall x :: x in nodes ==> x in blocks
    requires b in blocks && k in blocks && k !in nodes && k != b
    ensures Rd(Prepended(w, LinksAt, heads[i], b), k + LinksAt) == Rd(w, k + LinksAt)
    ensures Rd(Prepended(w, LinksAt, heads[i], b), k + LinksAt + 8) == Rd(w, k + LinksAt + 8)
  {
    HeadIsMember(w, LinksAt, heads, nodes, i);
    TwoBlocks(blocks, b, k);
    if heads[i] != 0 { TwoBlocks(blocks, heads[i], k); }
  }

  /** A block on no list is put at the front of its list: only links change. */
  lemma LinkKeeps(w: Memory, heads: seq<int>, nodes: map<int, Node>, blocks: Blocks, b: int, i: nat)
    requires BlocksOk(blocks) && Linked(w, LinksAt, heads, nodes) && i < |heads|
    requires (forall x :: x in nodes ==> IsBricked(blocks, x)) && IsBricked(blocks, b) && b !in nodes
    ensures var w' := Prepended(w, LinksAt, heads[i], b);
      && Linked(w', LinksAt, heads[i := b], nodes[b := Node(i, RankAbove(heads, nodes, i))])
      && Spared(w, w', Bodies(blocks))
      && (forall k :: k in blocks && k !in nodes && k != b ==>
            Rd(w', k + LinksAt) == Rd(w, k + LinksAt) && Rd(w', k + LinksAt + 8) == Rd(w, k + LinksAt + 8))
  {
    hide BlocksOk, Linked, Bodies;
    var ns := nodes[b := Node(i, RankAbove(heads, nodes, i))];
    forall x, y | x in ns && y in ns && x < y ensures x + 16 <= y { TwoBlocks(blocks, x, y); }
    TwoBlocks(blocks, b, b);
    PrependLinked(w, LinksAt, heads, nodes, i, b);
    forall k | k in blocks && k !in nodes && k != b
      ensures var w' := Prepended(w, LinksAt, heads[i], b);
        Rd(w', k + LinksAt) == Rd(w, k + LinksAt) && Rd(w', k + LinksAt + 8) == Rd(w, k + LinksAt + 8) {
      PrependOthers(w, heads, nodes, blocks, i, b, k);
    }
    HeadIsMember(w, LinksAt, heads, nodes, i);
    var h := heads[i];
    LinkSpares(w, w, blocks, b, b + LinksAt, 0);
    LinkSpares(w, w[b + LinksAt := 0], blocks, b, b + LinksAt + 8, h);
    if h != 0 { LinkSpares(w, w[b + LinksAt := 0][b + LinksAt + 8 := h], blocks, h, h + LinksAt, b); }
  }

  /** Words of `kl_brick_put` in the block, and then the list if the block was on none. */
  function PutWords(w: Memory, heads: seq<int>, b: int, a: int, bin: nat, listed: bool): Memory
    requires bin < |heads|
  {
    var w2 := GiveWords(w[b := Rd(w, b) + 1], b, a);
    if listed then w2 else Prepended(w2, LinksAt, heads[bin], b)
  }

  function PutHeads(heads: seq<int>, b: int, bin: nat, listed: bool): seq<int>
    requires bin < |heads|
  {
    if listed then heads else heads[bin := b]
  }

  ghost function PutNodes(heads: seq<int>, nodes: map<int, Node>, b: int, bin: nat): map<int, Node>
    requires bin < |heads|
  {
    if b in nodes then nodes else nodes[b := Node(bin, RankAbove(heads, nodes, bin))]
  }

  lemma GiveSpares(w: Memory, b: int, u: Use, a: int)
    requires BricksOk(w, b, u) && a in u.live && 0 < b
    ensures LiveSame(w, GiveWords(w[b := Rd(w, b) + 1], b, a), u, a)
    ensures OnlyIn(w, GiveWords(w[b := Rd(w, b) + 1], b, a), b, LinksAt)
  {
    hide Capacity, Span, Step;
    Sizes(b, u);
    assert BrickOk(w, b, u, a);
    var w2 := GiveWords(w[b := Rd(w, b) + 1], b, a);
    forall c, x | c in u.live && c != a && c <= x < c + Step(u.bin) ensures Rd(w2, x) == Rd(w, x) {
      assert BrickOk(w, b, u, c) && Separate(u, c, a);
    }
  }

  lemma GivenLive(b: int, u: Use, a: int)
    requires u.Bricked? && Shape(b, u) && a in u.live
    ensures Count(u) + 1 < Capacity(u.bin) <==> Given(u, a).live != {}
    ensures Count(u) + 1 == Capacity(u.bin) ==> u.live == {a} && 0 < Count(u)
  {
    hide Span;
    Sizes(b, u);
    assert u.live == Given(u, a).live + {a};
  }

  lemma ListWork(w2: Memory, heads: seq<int>, nodes: map<int, Node>, blocks: Blocks, b: int, bin: nat, w3: Memory)
    requires BlocksOk(blocks) && Listed(w2, nodes, blocks) && Linked(w2, LinksAt, heads, nodes)
    requires IsBricked(blocks, b) && bin == blocks[b].use.bin < |heads|
    requires w3 == if b in nodes then w2 else Prepended(w2, LinksAt, heads[bin], b)
    ensures Linked(w3, LinksAt, PutHeads(heads, b, bin, b in nodes), PutNodes(heads, nodes, b, bin))
    ensures Spared(w2, w3, Bodies(blocks))
    ensures forall k :: k in blocks && k !in nodes && k != b ==>
      Rd(w3, k + LinksAt) == Rd(w2, k + LinksAt) && Rd(w3, k + LinksAt + 8) == Rd(w2, k + LinksAt + 8)
  {
    hide BlocksOk, Linked, Bodies;
    forall x | x in nodes ensures IsBricked(blocks, x) { assert ListedOk(w2, nodes, blocks, x); }
    if b !in nodes { LinkKeeps(w2, heads, nodes, blocks, b, bin); }
  }

  /** `kl_brick_put` into a block in which other bricks are in use. */
  lemma PutKeeps(w: Memory, heads: seq<int>, nodes: map<int, Node>, blocks: Blocks, b: int, a: int)
    requires BrickInv(w, heads, nodes, blocks, 0) && IsBricked(blocks, b) && a in blocks[b].use.live
    requires Count(blocks[b].use) + 1 < Capacity(blocks[b].use.bin) && blocks[b].use.bin < |heads|
    ensures var u := blocks[b].use; var w3 := PutWords(w, heads, b, a, u.bin, b in nodes);
      && BrickInv(w3, PutHeads(heads, b, u.bin, b in nodes), PutNodes(heads, nodes, b, u.bin),
                  blocks[b := blocks[b].(use := Given(u, a))], 0)
      && KeptBricks(w, w3, blocks, a)
  {
    hide Linked, BlocksOk, SameBody, Step, LiveSame, KeptBricks, Listed, AllBricks, Others, BlockWords, BrickOk,
      FreeOk, Separate, Capacity, Span, GiveWords, Bodies, Spared;
    var u := blocks[b].use;
    var w2, w3, v := GiveWords(w[b := Rd(w, b) + 1], b, a), PutWords(w, heads, b, a, u.bin, b in nodes), Given(u, a);
    assert AllBricks(w, blocks, 0);
    BrickBlock(w, blocks, b);
    Give(w, b, u, a);
    GivenLive(b, u, a);
    GiveSpares(w, b, u, a);
    BodyWrites(w, w2, heads, nodes, blocks, b);
    ListWork(w2, heads, nodes, blocks, b, u.bin, w3);
    PutRest(w, w2, w3, blocks, b, u, v, a);
    SameUse(blocks, b, v);
    PutListed(w2, w3, heads, nodes, blocks, b, v);
    OneChanged(w, w3, blocks, b, v, a);
  }

  lemma BrickBlock(w: Memory, blocks: Blocks, b: int)
    requires AllBricks(w, blocks, 0) && BlocksOk(blocks) && IsBricked(blocks, b)
    ensures BricksOk(w, b, blocks[b].use) && blocks[b].use.live != {} && 0 < b && blocks[b].size == BlockDefault
  {
    assert BricksAt(w, blocks, 0, b) && BlockOk(blocks, b);
  }

  /** Work in the body of `b` and on links, seen from the bricks. */
  lemma PutRest(w: Memory, w2: Memory, w3: Memory, blocks: Blocks, b: int, u: Use, v: Use, a: int)
    requires BlocksOk(blocks) && IsBricked(blocks, b) && u == blocks[b].use && AllBricks(w, blocks, 0)
    requires OnlyIn(w, w2, b, LinksAt) && Spared(w2, w3, Bodies(blocks))
    requires BricksOk(w2, b, v) && BricksOk(w, b, u) && LiveSame(w, w2, u, a)
    ensures BricksOk(w3, b, v) && LiveSame(w, w3, u, a)
    ensures Others(w, w3, blocks, b, a)
  {
    hide BlocksOk, BricksOk, Bodies, Spared, Step;
    SparedBody(w2, w3, blocks, b);
    BodyFrame(w2, w3, b, v);
    LiveThrough(w, w2, w3, b, u, a);
    forall k | k in blocks && k != b ensures SameBody(w, w3, k) {
      SparedBody(w2, w3, blocks, k);
      TwoBlocks(blocks, b, k);
    }
    forall k | IsBricked(blocks, k) && k != b
      ensures BricksOk(w3, k, blocks[k].use) && blocks[k].use.live != {} && LiveSame(w, w3, blocks[k].use, a)
    {
      TwoBlocks(blocks, k, b);
      assert BricksAt(w, blocks, 0, k) && SameBody(w, w3, k);
      BodyFrame(w, w3, k, blocks[k].use);
      LiveInBody(w, w3, k, blocks[k].use, a);
    }
    forall k, x | k in blocks && !blocks[k].use.Bricked? && k <= x < k + blocks[k].size ensures Rd(w3, x) == Rd(w, x) {
      SparedBody(w2, w3, blocks, k);
      TwoBlocks(blocks, b, k);
      assert Rd(w3, x) == Rd(w2, x);
    }
  }

  lemma LiveThrough(w: Memory, w2: Memory, w3: Memory, b: int, u: Use, a: int)
    requires BricksOk(w, b, u) && LiveSame(w, w2, u, a) && SameBody(w2, w3, b)
    ensures LiveSame(w, w3, u, a)
  {
    hide Capacity, Span, Step;
    Sizes(b, u);
    forall c, x | c in u.live && c != a && c <= x < c + Step(u.bin) ensures Rd(w3, x) == Rd(w, x) {
      assert BrickOk(w, b, u, c) && Rd(w2, x) == Rd(w, x) && Rd(w3, x) == Rd(w2, x);
    }
  }

  lemma PutListed(w2: Memory, w3: Memory, heads: seq<int>, nodes: map<int, Node>, blocks: Blocks, b: int, v: Use)
    requires Listed(w2, nodes, blocks) && IsBricked(blocks, b) && v.Bricked? && v.bin == blocks[b].use.bin < |heads|
    requires 0 < Count(v)
    requires forall k :: k in blocks && k !in nodes && k != b ==>
      Rd(w3, k + LinksAt) == Rd(w2, k + LinksAt) && Rd(w3, k + LinksAt + 8) == Rd(w2, k + LinksAt + 8)
    ensures Listed(w3, PutNodes(heads, nodes, b, v.bin), blocks[b := blocks[b].(use := v)])
  {
    var ns, bs := PutNodes(heads, nodes, b, v.bin), blocks[b := blocks[b].(use := v)];
    forall k ensures ListedOk(w3, ns, bs, k) { assert ListedOk(w2, nodes, blocks, k); }
  }

  /** `kl_brick_put` of the last brick in use: the block leaves its list and is no longer a brick block. */
  lemma ReleaseKeeps(w: Memory, heads: seq<int>, nodes: map<int, Node>, blocks: Blocks, b: int, a: int, w': Memory,
                     bs: Blocks)
    requires BrickInv(w, heads, nodes, blocks, 0) && IsBricked(blocks, b) && a in blocks[b].use.live
    requires Count(blocks[b].use) + 1 == Capacity(blocks[b].use.bin) && blocks[b].use.bin < |heads|
    requires OnlyIn(Bypassed(w[b := Rd(w, b) + 1], LinksAt, b), w', b, BlockDefault)
    requires bs == blocks - {b} || bs == blocks[b := Block(BlockDefault, Spare)]
    ensures b in nodes && blocks[b].use.live == {a}
    ensures BrickInv(w', BypassedHeads(w[b := Rd(w, b) + 1], LinksAt, heads, blocks[b].use.bin, b), nodes - {b}, bs, 0)
    ensures KeptBricks(w, w', blocks, a)
  {
    hide Linked, Step, Capacity, Span, Bodies, Spared, Bypassed, SameBody;
    var u := blocks[b].use;
    BrickBlock(w, blocks, b);
    GivenLive(b, u, a);
    assert ListedOk(w, nodes, blocks, b);
    var w1 := w[b := Rd(w, b) + 1];
    var w2, hs, ns := Bypassed(w1, LinksAt, b), BypassedHeads(w1, LinksAt, heads, u.bin, b), nodes - {b};
    BodyWrites(w, w1, heads, nodes, blocks, b);
    ListedSpread(w1, nodes, blocks);
    BypassLinked(w1, LinksAt, heads, nodes, b);
    BypassSpares(w1, heads, nodes, blocks, b);
    ReleasedRest(w, w1, w2, w', blocks, b, u, a);
    ReleasedLists(w, w1, w2, w', heads, hs, nodes, blocks, b, bs);
    CloseBlocks(blocks, b, bs);
    forall k | IsBricked(bs, k) ensures BricksAt(w', bs, 0, k) { assert BricksOk(w', k, blocks[k].use); }
  }

  lemma ReleasedRest(w: Memory, w1: Memory, w2: Memory, w': Memory, blocks: Blocks, b: int, u: Use, a: int)
    requires BlocksOk(blocks) && IsBricked(blocks, b) && u == blocks[b].use && u.live == {a} && AllBricks(w, blocks, 0)
    requires OnlyIn(w, w1, b, LinksAt) && Spared(w1, w2, Bodies(blocks)) && OnlyIn(w2, w', b, BlockDefault)
    ensures forall k {:trigger BricksOk(w', k, blocks[k].use)} :: IsBricked(blocks, k) && k != b ==>
      BricksOk(w', k, blocks[k].use) && blocks[k].use.live != {}
    ensures KeptBricks(w, w', blocks, a)
  {
    hide BlocksOk, BricksOk, Bodies, Spared, Step;
    forall k | k in blocks && k != b
      ensures SameBody(w, w', k)
      ensures !blocks[k].use.Bricked? ==> forall x :: k <= x < k + blocks[k].size ==> Rd(w', x) == Rd(w, x)
    {
      SparedBody(w1, w2, blocks, k);
      TwoBlocks(blocks, b, k);
      TwoBlocks(blocks, k, b);
      forall x | k <= x < k + blocks[k].size && (x < k + LinksAt || !blocks[k].use.Bricked?)
        ensures Rd(w', x) == Rd(w, x)
      {
        assert Rd(w2, x) == Rd(w1, x) && Rd(w1, x) == Rd(w, x);
      }
    }
    forall k | IsBricked(blocks, k) && k != b
      ensures BricksOk(w', k, blocks[k].use) && blocks[k].use.live != {} && LiveSame(w, w', blocks[k].use, a)
    {
      TwoBlocks(blocks, k, b);
      assert BricksAt(w, blocks, 0, k) && SameBody(w, w', k);
      BodyFrame(w, w', k, blocks[k].use);
      LiveInBody(w, w', k, blocks[k].use, a);
    }
    assert LiveSame(w, w', u, a);
  }

  lemma ReleasedLists(w: Memory, w1: Memory, w2: Memory, w': Memory, heads: seq<int>, hs: seq<int>,
                      nodes: map<int, Node>, blocks: Blocks, b: int, bs: Blocks)
    requires BlocksOk(blocks) && IsBricked(blocks, b) && Listed(w1, nodes, blocks) && b in nodes
    requires Linked(w1, LinksAt, heads, nodes) && w2 == Bypassed(w1, LinksAt, b) && OnlyIn(w2, w', b, BlockDefault)
    requires Linked(w2, LinksAt, hs, nodes - {b})
    requires bs == blocks - {b} || bs == blocks[b := Block(BlockDefault, Spare)]
    ensures Linked(w', LinksAt, hs, nodes - {b}) && Listed(w', nodes - {b}, bs)
  {
    hide BlocksOk, Linked, Bypassed;
    forall k | k in blocks && k != b
      ensures Rd(w', k + LinksAt) == Rd(w2, k + LinksAt) && Rd(w', k + LinksAt + 8) == Rd(w2, k + LinksAt + 8)
    {
      TwoBlocks(blocks, b, k);
    }
    var ns := nodes - {b};
    forall k | k in ns ensures k in blocks && k != b { assert ListedOk(w1, nodes, blocks, k); }
    LinkedFrame(w2, w', LinksAt, hs, ns);
    forall k ensures ListedOk(w', ns, bs, k) {
      assert ListedOk(w1, nodes, blocks, k);
      if k in blocks && k !in nodes { UnlinkOthers(w1, heads, nodes, blocks, b, k); }
    }
  }

  // ---------------------------------------------------------------- designating a block

  function NewBricks(b: int, bin: nat): Use
    requires 1 <= bin <= 4
  {
    Capacities();
    Bricked(bin, {}, [], b + 8, Capacity(bin))
  }

  function DesignateWords(w: Memory, heads: seq<int>, b: int, bin: nat): Memory
    requires bin < |heads|
  {
    Prepended(w[b := bin * CountRange + Capacity(bin)], LinksAt, heads[bin], b)[b + HeadAt := b + 8][b + 8 := 0]
  }

  lemma NewBricksOk(w: Memory, b: int, bin: nat)
    requires 1 <= bin <= 4 && Aligned(b)
    requires Rd(w, b) == bin * CountRange + Capacity(bin) && Rd(w, b + HeadAt) == b + 8 && Rd(w, b + 8) == 0
    ensures BricksOk(w, b, NewBricks(b, bin)) && 0 < Count(NewBricks(b, bin))
  {
    hide Capacity;
    Capacities();
  }

  /** A block newly designated for bricks, from a spare or new block whose words may be anything. */
  lemma DesignateKeeps(w: Memory, w0: Memory, heads: seq<int>, nodes: map<int, Node>, blocks: Blocks, b: int, bin: nat)
    requires BrickInv(w, heads, nodes, blocks, 0) && !IsBricked(blocks, b) && 1 <= bin <= 4
    requires BlocksOk(blocks[b := Block(BlockDefault, NewBricks(b, bin))]) && OnlyIn(w, w0, b, BlockDefault)
    ensures var w' := DesignateWords(w0, heads, b, bin);
      && BrickInv(w', heads[bin := b], nodes[b := Node(bin, RankAbove(heads, nodes, bin))],
                  blocks[b := Block(BlockDefault, NewBricks(b, bin))], b)
      && KeptBricks(w, w', blocks - {b}, 0)
  {
    hide Linked, Capacity, Span, Step, Bodies, Spared, Prepended, NewBricks, SameBody, BlocksOk;
    var u := NewBricks(b, bin);
    var bs, w1 := blocks[b := Block(BlockDefault, u)], w0[b := bin * CountRange + Capacity(bin)];
    var w2 := Prepended(w1, LinksAt, heads[bin], b);
    var w', ns := w2[b + HeadAt := b + 8][b + 8 := 0], nodes[b := Node(bin, RankAbove(heads, nodes, bin))];
    assert ListedOk(w, nodes, blocks, b);
    NewIsBricked(b, bin);
    TwoBlocks(bs, b, b);
    forall k | k in nodes ensures IsBricked(bs, k) && k != b { assert ListedOk(w, nodes, blocks, k); }
    forall x | x < b || b + BlockDefault <= x ensures Rd(w1, x) == Rd(w, x) { assert Rd(w0, x) == Rd(w, x); }
    forall k | k in nodes
      ensures Rd(w1, k + LinksAt) == Rd(w, k + LinksAt) && Rd(w1, k + LinksAt + 8) == Rd(w, k + LinksAt + 8)
    {
      TwoBlocks(bs, b, k);
    }
    LinkedFrame(w, w1, LinksAt, heads, nodes);
    LinkKeeps(w1, heads, nodes, bs, b, bin);
    DesignatedRest(w, w1, w2, w', blocks, bs, b);
    SparedBody(w1, w2, bs, b);
    DesignatedBody(w1, w2, w', b, bin);
    NewBricksOk(w', b, bin);
    forall k | k in bs && k !in nodes && k != b ensures SameLinks(w1, w2, k) { }
    DesignatedLists(w, w1, w2, w', heads[bin := b], nodes, ns[b], blocks, bs, b);
    forall k | IsBricked(bs, k) ensures BricksAt(w', bs, b, k) {
      if k != b { assert BricksOk(w', k, blocks[k].use); }
    }
  }

  lemma DesignatedBody(w1: Memory, w2: Memory, w': Memory, b: int, bin: nat)
    requires SameBody(w1, w2, b) && Rd(w1, b) == bin * CountRange + Capacity(bin)
    requires w' == w2[b + HeadAt := b + 8][b + 8 := 0]
    ensures Rd(w', b) == bin * CountRange + Capacity(bin) && Rd(w', b + HeadAt) == b + 8 && Rd(w', b + 8) == 0
  {
    hide Capacity;
    assert Rd(w2, b) == Rd(w1, b);
  }

  lemma NewIsBricked(b: int, bin: nat)
    requires 1 <= bin <= 4
    ensures NewBricks(b, bin).Bricked? && NewBricks(b, bin).bin == bin && 0 < Count(NewBricks(b, bin))
    ensures NewBricks(b, bin).live == {}
  {
    hide Capacity;
    Capacities();
  }

  lemma DesignatedRest(w: Memory, w1: Memory, w2: Memory, w': Memory, blocks: Blocks, bs: Blocks, b: int)
    requires BlocksOk(bs) && !IsBricked(blocks, b) && IsBricked(bs, b) && bs == blocks[b := bs[b]]
    requires AllBricks(w, blocks, 0)
    requires OnlyIn(w, w1, b, BlockDefault) && Spared(w1, w2, Bodies(bs)) && OnlyIn(w2, w', b, LinksAt)
    ensures forall k {:trigger BricksOk(w', k, blocks[k].use)} :: IsBricked(blocks, k) ==>
      BricksOk(w', k, blocks[k].use) && blocks[k].use.live != {}
    ensures KeptBricks(w, w', blocks - {b}, 0)
  {
    hide BlocksOk, BricksOk, Bodies, Spared, Step;
    forall k | k in blocks && k != b
      ensures SameBody(w, w', k)
      ensures !blocks[k].use.Bricked? ==> forall x :: k <= x < k + blocks[k].size ==> Rd(w', x) == Rd(w, x)
    {
      SparedBody(w1, w2, bs, k);
      TwoBlocks(bs, b, k);
      TwoBlocks(bs, k, b);
      forall x | k <= x < k + blocks[k].size && (x < k + LinksAt || !blocks[k].use.Bricked?)
        ensures Rd(w', x) == Rd(w, x)
      {
        assert Rd(w2, x) == Rd(w1, x) && Rd(w1, x) == Rd(w, x);
      }
    }
    forall k | IsBricked(blocks, k)
      ensures BricksOk(w', k, blocks[k].use) && blocks[k].use.live != {} && LiveSame(w, w', blocks[k].use, 0)
    {
      TwoBlocks(bs, k, b);
      assert BricksAt(w, blocks, 0, k) && SameBody(w, w', k);
      BodyFrame(w, w', k, blocks[k].use);
      LiveInBody(w, w', k, blocks[k].use, 0);
    }
  }

  ghost predicate SameLinks(w: Memory, w': Memory, k: int) {
    Rd(w', k + LinksAt) == Rd(w, k + LinksAt) && Rd(w', k + LinksAt + 8) == Rd(w, k + LinksAt + 8)
  }

  lemma DesignatedLists(w: Memory, w1: Memory, w2: Memory, w': Memory, hs: seq<int>, nodes: map<int, Node>, n: Node,
                        blocks: Blocks, bs: Blocks, b: int)
    requires BlocksOk(bs) && Linked(w2, LinksAt, hs, nodes[b := n]) && b in bs && bs == blocks[b := bs[b]]
    requires forall k {:trigger SameLinks(w1, w2, k)} :: k in bs && k !in nodes && k != b ==> SameLinks(w1, w2, k)
    requires Listed(w, nodes, blocks) && !IsBricked(blocks, b)
    requires bs[b].use.Bricked? && 0 < Count(bs[b].use) && n.bin == bs[b].use.bin
    requires OnlyIn(w, w1, b, BlockDefault) && OnlyIn(w2, w', b, LinksAt)
    ensures Linked(w', LinksAt, hs, nodes[b := n]) && Listed(w', nodes[b := n], bs)
  {
    hide BlocksOk, Linked, Count, ListedOk;
    var ns := nodes[b := n];
    forall k ensures ListedOk(w', ns, bs, k) {
      assert ListedOk(w, nodes, blocks, k);
      if k in bs && k !in nodes && k != b {
        assert SameLinks(w1, w2, k);
        TwoBlocks(bs, b, k);
      }
      DesignatedListed(w, w', nodes, n, blocks, bs[b], b, k);
    }
    forall k | k in ns ensures SameLinks(w2, w', k) {
      ListedIn(w', ns, bs, k);
      TwoBlocks(bs, b, k);
    }
    LinkedFrame(w2, w', LinksAt, hs, ns);
  }

  lemma ListedIn(w: Memory, nodes: map<int, Node>, blocks: Blocks, k: int)
    requires Listed(w, nodes, blocks) && k in nodes
    ensures IsBricked(blocks, k)
  {
    assert ListedOk(w, nodes, blocks, k);
  }

  lemma DesignatedListed(w: Memory, w': Memory, nodes: map<int, Node>, n: Node, blocks: Blocks, blk: Block, b: int,
                         k: int)
    requires ListedOk(w, nodes, blocks, k) && blk.use.Bricked? && 0 < Count(blk.use) && n.bin == blk.use.bin
    requires k in blocks && k !in nodes && k != b ==> SameLinks(w, w', k)
    ensures ListedOk(w', nodes[b := n], blocks[b := blk], k)
  {
  }

  // ---------------------------------------------------------------- changes elsewhere

  /** The same brick blocks, with the same words in them. */
  ghost predicate SameBricked(w: Memory, w': Memory, blocks: Blocks, bs: Blocks) {
    && (forall b {:trigger IsBricked(bs, b)} {:trigger IsBricked(blocks, b)} ::
         IsBricked(bs, b) <==> IsBricked(blocks, b))
    && (forall b :: IsBricked(blocks, b) && b in bs ==> bs[b].use == blocks[b].use)
    && (forall b, x {:trigger IsBricked(blocks, b), Rd(w', x)} ::
         IsBricked(blocks, b) && b <= x < b + BlockDefault ==> Rd(w', x) == Rd(w, x))
  }

  /** The brick heap does not depend on anything outside brick blocks. */
  lemma BrickFrame(w: Memory, w': Memory, heads: seq<int>, nodes: map<int, Node>, blocks: Blocks, bs: Blocks)
    requires BrickInv(w, heads, nodes, blocks, 0) && BlocksOk(bs) && SameBricked(w, w', blocks, bs)
    ensures BrickInv(w', heads, nodes, bs, 0)
  {
    hide Linked, BricksOk, Step;
    forall b | IsBricked(bs, b) ensures BricksAt(w', bs, 0, b) {
      assert IsBricked(blocks, b) && BricksAt(w, blocks, 0, b) && SameBody(w, w', b);
      BodyFrame(w, w', b, blocks[b].use);
    }
    forall b ensures ListedOk(w', nodes, bs, b) {
      assert ListedOk(w, nodes, blocks, b);
      assert IsBricked(bs, b) <==> IsBricked(blocks, b);
    }
    forall b | b in nodes
      ensures Rd(w', b + LinksAt) == Rd(w, b + LinksAt) && Rd(w', b + LinksAt + 8) == Rd(w, b + LinksAt + 8)
    {
      assert ListedOk(w, nodes, blocks, b) && IsBricked(blocks, b);
    }
    LinkedFrame(w, w', LinksAt, heads, nodes);
  }

  /** A brick in use may be written to after its header. */
  lemma UserWriteBrick(w: Memory, heads: seq<int>, nodes: map<int, Node>, blocks: Blocks, b: int, a: int, x: int,
                       v: int)
    requires BrickInv(w, heads, nodes, blocks, 0) && IsBricked(blocks, b) && a in blocks[b].use.live
    requires a + 8 <= x < a + Step(blocks[b].use.bin) && Aligned(x)
    ensures BrickInv(w[x := v], heads, nodes, blocks, 0)
    ensures b + 8 <= a && a + Step(blocks[b].use.bin) <= b + HeadAt
  {
    hide Linked, Step, BlocksOk, Capacity, Span;
    var u, w' := blocks[b].use, w[x := v];
    BrickBlock(w, blocks, b);
    WriteInBrick(w, b, u, a, x, v);
    BodyWrites(w, w', heads, nodes, blocks, b);
    forall k | IsBricked(blocks, k) ensures BricksAt(w', blocks, 0, k) {
      assert BricksAt(w, blocks, 0, k);
      if k != b {
        assert SameBody(w, w', k);
        BodyFrame(w, w', k, blocks[k].use);
      }
    }
  }

  lemma WriteInBrick(w: Memory, b: int, u: Use, a: int, x: int, v: int)
    requires BricksOk(w, b, u) && a in u.live && a + 8 <= x < a + Step(u.bin) && 0 < b && Aligned(x)
    ensures BricksOk(w[x := v], b, u) && b + 8 <= a && a + Step(u.bin) <= b + HeadAt
  {
    hide Capacity, Span, Step;
    Sizes(b, u);
    var w' := w[x := v];
    assert BrickOk(w, b, u, a);
    forall c | Carved(u, c) ensures BrickOk(w', b, u, c) { assert BrickOk(w, b, u, c) && Separate(u, a, c); }
    forall i: nat | i < |u.free| ensures FreeOk(w', u, i) {
      assert FreeOk(w, u, i) && u.free[i] in u.free;
      assert BrickOk(w, b, u, u.free[i]) && Separate(u, a, u.free[i]);
    }
  }

  // ---------------------------------------------------------------- what the lists amount to

  /** The brick `n` links on from `a`. */
  function Follow(w: Memory, a: int, n: nat): int
    decreases n
  {
    if n == 0 then a else Follow(w, Rd(w, a + 8), n - 1)
  }

  /** The brick `n` links on from the head of the list of block `b`. */
  function NthFree(w: Memory, b: int, n: nat): int { Follow(w, Rd(w, b + HeadAt), n) }

  lemma {:induction false} FollowFreed(w: Memory, b: int, u: Use, i: nat, n: nat)
    requires BricksOk(w, b, u) && i < |u.free| && n <= i
    ensures Follow(w, u.free[i], n) == u.free[i - n]
    decreases n
  {
    hide Capacity, Span, Step;
    if 0 < n {
      assert FreeOk(w, u, i);
      FollowFreed(w, b, u, i - 1, n - 1);
    }
  }

  lemma {:induction false} FollowSplit(w: Memory, a: int, n: nat)
    ensures Follow(w, a, n + 1) == Rd(w, Follow(w, a, n) + 8)
    decreases n
  {
    if 0 < n { FollowSplit(w, Rd(w, a + 8), n - 1); }
  }

  /** The lazy list: from the block's head the links run through the freed bricks, last freed first, and then
      reach the frontier, whose null header marks it; the bricks from there on are those never handed out,
      and the packed count is that of both kinds together. */
  lemma LazyList(w: Memory, b: int, u: Use)
    requires BricksOk(w, b, u)
    ensures forall i: nat :: i < |u.free| ==> NthFree(w, b, i) == u.free[|u.free| - 1 - i]
    ensures 0 < u.left ==> NthFree(w, b, |u.free|) == u.frontier && Rd(w, u.frontier) == 0
    ensures forall i: nat :: i < |u.free| ==> Rd(w, u.free[i]) == b + 1 && u.free[i] !in u.live
    ensures u.frontier == b + 8 + Span(u.bin, Capacity(u.bin) - u.left)
    ensures |u.live| + |u.free| + u.left == Capacity(u.bin)
    ensures Rd(w, b) % CountRange == |u.free| + u.left
  {
    hide Capacity, Span, Step;
    Sizes(b, u);
    assert Rd(w, b) % CountRange == Count(u) by { Unpack(u.bin, Count(u)); }
    var n := |u.free|;
    forall i: nat | i < n ensures NthFree(w, b, i) == u.free[n - 1 - i] { FollowFreed(w, b, u, n - 1, i); }
    if 0 < u.left && 0 < n {
      assert FreeOk(w, u, 0);
      FollowSplit(w, Rd(w, b + HeadAt), n - 1);
      assert NthFree(w, b, n - 1) == u.free[0];
    }
    forall i: nat | i < n ensures Rd(w, u.free[i]) == b + 1 && u.free[i] !in u.live {
      assert u.free[i] in u.free && BrickOk(w, b, u, u.free[i]) && FreeOk(w, u, i);
    }
  }

  lemma Unpack(bin: nat, n: nat)
    requires bin <= 4 && n < CountRange
    ensures (bin * CountRange + n) / CountRange == bin && (bin * CountRange + n) % CountRange == n
  {
  }

  /** A brick block is on exactly one list, that of its bin and there once, exactly when some but not all of
      its bricks are free. */
  lemma BrickListsExact(w: Memory, heads: seq<int>, nodes: map<int, Node>, blocks: Blocks, k: nat)
    requires BrickInv(w, heads, nodes, blocks, 0) && k < |heads|
    ensures var s := ListOf(w, LinksAt, heads, nodes, k);
      && (forall b ::
           b in s <==> IsBricked(blocks, b) && blocks[b].use.bin == k && 0 < Count(blocks[b].use) < Capacity(k))
      && (forall i, j :: 0 <= i < j < |s| ==> s[i] != s[j])
  {
    hide Linked, Capacity, Span, Step;
    ExactlyOneList(w, LinksAt, heads, nodes, k);
    var s := ListOf(w, LinksAt, heads, nodes, k);
    forall b
      ensures b in s <==> IsBricked(blocks, b) && blocks[b].use.bin == k && 0 < Count(blocks[b].use) < Capacity(k)
    {
      assert ListedOk(w, nodes, blocks, b);
      if IsBricked(blocks, b) {
        BrickBlock(w, blocks, b);
        assert |blocks[b].use.live| != 0;
      }
    }
  }

  /** The first brick handed out of a block leaves the block without a next one exactly if bricks have 8 bytes, where
      the link to the next brick is that brick's own header.  Only requests of zero bytes use such bricks: each takes
      a block to itself, which is empty again once the brick is given back. */
  lemma FirstTakeLeaves(w: Memory, b: int, bin: nat)
    requires bin <= 4 && Rd(w, b + 8) == 0
    ensures var w' := TakeWords(w, b, b + 8, Step(bin), false);
      && Rd(w', b + 8) == b + 1 && Rd(w', b) == Rd(w, b)
      && Rd(w', b + HeadAt) == (if bin == 0 then 0 else b + 8 + Step(bin))
  {
  }
}
