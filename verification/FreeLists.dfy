/**
 Doubly linked lists threaded through memory: one list per bin, heads in a table, links in two
 consecutive words of every member at offset `off` (towards the head) and `off + 8` (away from it).
 Both the free chunks and the partly used brick blocks are kept in such lists.
 */
module FreeLists {

  /** Memory by the byte address of its words; words never written read as zero. */
  type Memory = map<int, int>

  function Rd(w: Memory, a: int): int { if a in w then w[a] else 0 }

  // ---------------------------------------------------------------- parts of memory

  /** No word of any of these regions has changed. */
  ghost predicate Spared(w: Memory, w': Memory, regions: map<int, int>) {
    forall a, x {:trigger a in regions, Rd(w', x)} :: a in regions && a <= x < a + regions[a] ==> Rd(w', x) == Rd(w, x)
  }

  lemma SparedTwice(w: Memory, w1: Memory, w2: Memory, regions: map<int, int>)
    requires Spared(w, w1, regions) && Spared(w1, w2, regions)
    ensures Spared(w, w2, regions)
  {
    forall a, x | a in regions && a <= x < a + regions[a] ensures Rd(w2, x) == Rd(w, x) {
      assert Rd(w1, x) == Rd(w, x);
    }
  }

  /** Memory differs at most inside the `n` bytes at `b`. */
  ghost predicate OnlyIn(w: Memory, w': Memory, b: int, n: int) {
    forall x {:trigger Rd(w', x)} :: x < b || b + n <= x ==> Rd(w', x) == Rd(w, x)
  }

  /** Memory after `n` bytes at `b` have been set to zero. */
  function Zeroed(w: Memory, b: int, n: int): (w': Memory)
    ensures OnlyIn(w, w', b, n) && forall x :: b <= x < b + n ==> Rd(w', x) == 0
  {
    map x | x in w && !(b <= x < b + n) :: w[x]
  }

  // ---------------------------------------------------------------- lists

  /** A member's bin, and a rank that falls from the head of its list to the tail. */
  datatype Node = Node(bin: nat, rank: nat)

  ghost predicate NodeOk(w: Memory, off: int, heads: seq<int>, nodes: map<int, Node>, x: int) {
    x in nodes &&
    var n, p, q := nodes[x], Rd(w, x + off), Rd(w, x + off + 8);
    && 0 < x && n.bin < |heads|
    && (if p == 0 then heads[n.bin] == x
        else p in nodes && nodes[p].bin == n.bin && Rd(w, p + off + 8) == x && nodes[p].rank > n.rank)
    && (q == 0 || (q in nodes && nodes[q].bin == n.bin && Rd(w, q + off) == x && nodes[q].rank < n.rank))
  }

  ghost predicate HeadOk(w: Memory, off: int, heads: seq<int>, nodes: map<int, Node>, k: nat) {
    k < |heads| && (heads[k] == 0 || (heads[k] in nodes && nodes[heads[k]].bin == k && Rd(w, heads[k] + off) == 0))
  }

  /** Members are far enough apart for their links not to share words. */
  ghost predicate Spread(nodes: map<int, Node>) {
    forall x, y :: x in nodes && y in nodes && x < y ==> x + 16 <= y
  }

  ghost predicate Linked(w: Memory, off: int, heads: seq<int>, nodes: map<int, Node>) {
    && (forall x {:trigger NodeOk(w, off, heads, nodes, x)} :: x in nodes ==> NodeOk(w, off, heads, nodes, x))
    && (forall k: nat {:trigger HeadOk(w, off, heads, nodes, k)} :: k < |heads| ==> HeadOk(w, off, heads, nodes, k))
  }

  // ---------------------------------------------------------------- taking out and putting in

  /** Memory and heads after member `x` of bin `k` has been unlinked from its neighbours. */
  function Bypassed(w: Memory, off: int, x: int): Memory {
    var p, q := Rd(w, x + off), Rd(w, x + off + 8);
    var w1 := if p == 0 then w else w[p + off + 8 := q];
    if q == 0 then w1 else w1[q + off := p]
  }

  function BypassedHeads(w: Memory, off: int, heads: seq<int>, k: nat, x: int): seq<int>
    requires k < |heads|
  {
    if Rd(w, x + off) == 0 then heads[k := Rd(w, x + off + 8)] else heads
  }

  lemma BypassNode(w: Memory, off: int, heads: seq<int>, nodes: map<int, Node>, x: int, y: int)
    requires Linked(w, off, heads, nodes) && Spread(nodes) && x in nodes && y in nodes && x != y
    requires nodes[x].bin < |heads|
    ensures NodeOk(Bypassed(w, off, x), off, BypassedHeads(w, off, heads, nodes[x].bin, x), nodes - {x}, y)
  {
    hide Bypassed, Spread;
    assert NodeOk(w, off, heads, nodes, x) && NodeOk(w, off, heads, nodes, y);
    var p, q, yp, yq := Rd(w, x + off), Rd(w, x + off + 8), Rd(w, y + off), Rd(w, y + off + 8);
    BypassReads(w, off, nodes, x, y);
    if p != 0 { assert NodeOk(w, off, heads, nodes, p); BypassReads(w, off, nodes, x, p); }
    if q != 0 { assert NodeOk(w, off, heads, nodes, q); BypassReads(w, off, nodes, x, q); }
    if yp != 0 && yp != x { BypassReads(w, off, nodes, x, yp); }
    if yq != 0 && yq != x { BypassReads(w, off, nodes, x, yq); }
  }

  /** Unlinking keeps every list well formed and loses nobody else, wherever in its list `x` was. */
  lemma BypassLinked(w: Memory, off: int, heads: seq<int>, nodes: map<int, Node>, x: int)
    requires Linked(w, off, heads, nodes) && Spread(nodes) && x in nodes
    ensures nodes[x].bin < |heads|
    ensures Linked(Bypassed(w, off, x), off, BypassedHeads(w, off, heads, nodes[x].bin, x), nodes - {x})
  {
    hide Bypassed, Spread;
    assert NodeOk(w, off, heads, nodes, x);
    var k, p, q := nodes[x].bin, Rd(w, x + off), Rd(w, x + off + 8);
    var w', heads', nodes' := Bypassed(w, off, x), BypassedHeads(w, off, heads, k, x), nodes - {x};
    forall y | y in nodes' ensures NodeOk(w', off, heads', nodes', y) {
      BypassNode(w, off, heads, nodes, x, y);
    }
    forall j: nat | j < |heads'| ensures HeadOk(w', off, heads', nodes', j) {
      assert HeadOk(w, off, heads, nodes, j);
      if heads'[j] != 0 { BypassReads(w, off, nodes, x, heads'[j]); }
      if q != 0 { assert NodeOk(w, off, heads, nodes, q); }
    }
  }

  /** The links of another member after the unlinking. */
  lemma BypassReads(w: Memory, off: int, nodes: map<int, Node>, x: int, y: int)
    requires Spread(nodes) && x in nodes && y in nodes && x != y
    requires Rd(w, x + off) == 0 || Rd(w, x + off) in nodes
    requires Rd(w, x + off + 8) == 0 || Rd(w, x + off + 8) in nodes
    ensures var p, q := Rd(w, x + off), Rd(w, x + off + 8);
      && Rd(Bypassed(w, off, x), y + off) == (if y == q && q != 0 then p else Rd(w, y + off))
      && Rd(Bypassed(w, off, x), y + off + 8) == (if y == p && p != 0 then q else Rd(w, y + off + 8))
  {
  }

  /** Memory after `x` has been made the head of a list whose head was `h`. */
  function Prepended(w: Memory, off: int, h: int, x: int): Memory {
    var w1 := w[x + off := 0][x + off + 8 := h];
    if h == 0 then w1 else w1[h + off := x]
  }

  function RankAbove(heads: seq<int>, nodes: map<int, Node>, k: nat): nat
    requires k < |heads|
  {
    if heads[k] in nodes then nodes[heads[k]].rank + 1 else 0
  }

  lemma PrependNode(w: Memory, off: int, heads: seq<int>, nodes: map<int, Node>, k: nat, x: int, y: int)
    requires Linked(w, off, heads, nodes) && x !in nodes && 0 < x && k < |heads| && y in nodes
    requires Spread(nodes[x := Node(k, RankAbove(heads, nodes, k))])
    ensures NodeOk(Prepended(w, off, heads[k], x), off, heads[k := x],
                   nodes[x := Node(k, RankAbove(heads, nodes, k))], y)
  {
    hide Prepended, Spread;
    var h, nodes' := heads[k], nodes[x := Node(k, RankAbove(heads, nodes, k))];
    assert HeadOk(w, off, heads, nodes, k) && NodeOk(w, off, heads, nodes, y);
    var yp, yq := Rd(w, y + off), Rd(w, y + off + 8);
    PrependReads(w, off, nodes', h, x, y);
    PrependedSelf(w, off, nodes', h, x);
    if yp != 0 { PrependReads(w, off, nodes', h, x, yp); }
    if yq != 0 { PrependReads(w, off, nodes', h, x, yq); }
  }

  lemma PrependHead(w: Memory, off: int, heads: seq<int>, nodes: map<int, Node>, k: nat, x: int, j: nat)
    requires Linked(w, off, heads, nodes) && x !in nodes && 0 < x && k < |heads| && j < |heads|
    requires Spread(nodes[x := Node(k, RankAbove(heads, nodes, k))])
    ensures HeadOk(Prepended(w, off, heads[k], x), off, heads[k := x],
                   nodes[x := Node(k, RankAbove(heads, nodes, k))], j)
  {
    hide Prepended, Spread;
    var h, nodes' := heads[k], nodes[x := Node(k, RankAbove(heads, nodes, k))];
    assert HeadOk(w, off, heads, nodes, k) && HeadOk(w, off, heads, nodes, j);
    PrependedSelf(w, off, nodes', h, x);
    if j != k && heads[j] != 0 { PrependReads(w, off, nodes', h, x, heads[j]); }
  }

  lemma PrependLinked(w: Memory, off: int, heads: seq<int>, nodes: map<int, Node>, k: nat, x: int)
    requires Linked(w, off, heads, nodes) && x !in nodes && 0 < x && k < |heads|
    requires Spread(nodes[x := Node(k, RankAbove(heads, nodes, k))])
    ensures Linked(Prepended(w, off, heads[k], x), off, heads[k := x], nodes[x := Node(k, RankAbove(heads, nodes, k))])
  {
    hide Prepended, Spread, HeadOk;
    var h, w', heads' := heads[k], Prepended(w, off, heads[k], x), heads[k := x];
    var nodes' := nodes[x := Node(k, RankAbove(heads, nodes, k))];
    forall j: nat | j < |heads'| ensures HeadOk(w', off, heads', nodes', j) {
      PrependHead(w, off, heads, nodes, k, x, j);
    }
    HeadIsMember(w, off, heads, nodes, k);
    PrependedSelf(w, off, nodes', h, x);
    forall y | y in nodes' ensures NodeOk(w', off, heads', nodes', y) {
      if y != x { PrependNode(w, off, heads, nodes, k, x, y); }
    }
  }

  lemma HeadIsMember(w: Memory, off: int, heads: seq<int>, nodes: map<int, Node>, k: nat)
    requires Linked(w, off, heads, nodes) && k < |heads|
    ensures heads[k] != 0 ==>
      heads[k] in nodes && nodes[heads[k]].bin == k && Rd(w, heads[k] + off) == 0 && 0 < heads[k]
  {
    assert HeadOk(w, off, heads, nodes, k);
    if heads[k] != 0 { assert NodeOk(w, off, heads, nodes, heads[k]); }
  }

  lemma PrependReads(w: Memory, off: int, nodes: map<int, Node>, h: int, x: int, y: int)
    requires Spread(nodes) && x in nodes && y in nodes && x != y && (h == 0 || h in nodes)
    ensures Rd(Prepended(w, off, h, x), y + off) == if y == h && h != 0 then x else Rd(w, y + off)
    ensures Rd(Prepended(w, off, h, x), y + off + 8) == Rd(w, y + off + 8)
  {
  }

  lemma PrependedSelf(w: Memory, off: int, nodes: map<int, Node>, h: int, x: int)
    requires Spread(nodes) && x in nodes && (h == 0 || (h in nodes && h != x))
    ensures Rd(Prepended(w, off, h, x), x + off) == 0 && Rd(Prepended(w, off, h, x), x + off + 8) == h
    ensures h != 0 ==> Rd(Prepended(w, off, h, x), h + off) == x
  {
  }

  /** Lists depend on nothing but the links of their members. */
  lemma LinkedFrame(w: Memory, w': Memory, off: int, heads: seq<int>, nodes: map<int, Node>)
    requires Linked(w, off, heads, nodes)
    requires forall x :: x in nodes ==> Rd(w', x + off) == Rd(w, x + off) && Rd(w', x + off + 8) == Rd(w, x + off + 8)
    ensures Linked(w', off, heads, nodes)
  {
    forall x | x in nodes ensures NodeOk(w', off, heads, nodes, x) {
      assert NodeOk(w, off, heads, nodes, x);
    }
    forall k: nat | k < |heads| ensures HeadOk(w', off, heads, nodes, k) {
      assert HeadOk(w, off, heads, nodes, k);
    }
  }

  // ---------------------------------------------------------------- what the links amount to

  /** The list from member `x` on, following the links away from the head. */
  ghost function Walk(w: Memory, off: int, heads: seq<int>, nodes: map<int, Node>, x: int): (s: seq<int>)
    requires Linked(w, off, heads, nodes) && (x == 0 || x in nodes)
    ensures x != 0 ==> |s| > 0 && s[0] == x
    ensures forall i :: 0 <= i < |s| ==> x != 0 && s[i] in nodes && nodes[s[i]].bin == nodes[x].bin
    decreases if x == 0 then 0 else nodes[x].rank + 1
  {
    if x == 0 then [] else
      assert NodeOk(w, off, heads, nodes, x);
      [x] + Walk(w, off, heads, nodes, Rd(w, x + off + 8))
  }

  ghost predicate Falling(nodes: map<int, Node>, s: seq<int>) {
    forall i, j :: 0 <= i < j < |s| ==> s[i] in nodes && s[j] in nodes && nodes[s[j]].rank < nodes[s[i]].rank
  }

  /** Ranks fall along a walk, so it visits nobody twice. */
  lemma {:induction false} WalkFalls(w: Memory, off: int, heads: seq<int>, nodes: map<int, Node>, x: int)
    requires Linked(w, off, heads, nodes) && x in nodes
    ensures Falling(nodes, Walk(w, off, heads, nodes, x))
    decreases nodes[x].rank
  {
    assert NodeOk(w, off, heads, nodes, x);
    var q := Rd(w, x + off + 8);
    if q != 0 {
      WalkFalls(w, off, heads, nodes, q);
      FallsFrom(nodes, x, Walk(w, off, heads, nodes, q));
    }
  }

  lemma FallsFrom(nodes: map<int, Node>, x: int, t: seq<int>)
    requires Falling(nodes, t) && t != [] && x in nodes && t[0] in nodes && nodes[t[0]].rank < nodes[x].rank
    ensures Falling(nodes, [x] + t)
  {
  }

  /** Every member is met on the walk from the head of its bin. */
  lemma {:induction false} OnItsList(w: Memory, off: int, heads: seq<int>, nodes: map<int, Node>, x: int, top: nat)
    requires Linked(w, off, heads, nodes) && x in nodes && (forall y :: y in nodes ==> nodes[y].rank <= top)
    ensures nodes[x].bin < |heads| && heads[nodes[x].bin] in nodes
    ensures Suffix(Walk(w, off, heads, nodes, x), Walk(w, off, heads, nodes, heads[nodes[x].bin]))
    decreases top - nodes[x].rank
  {
    assert NodeOk(w, off, heads, nodes, x);
    var p := Rd(w, x + off);
    if p != 0 {
      OnItsList(w, off, heads, nodes, p, top);
      assert NodeOk(w, off, heads, nodes, p);
      var s, t := Walk(w, off, heads, nodes, x), Walk(w, off, heads, nodes, p);
      var u := Walk(w, off, heads, nodes, heads[nodes[x].bin]);
      assert t == [p] + s;
      assert u[|u| - |s|..] == t[1..];
    }
  }

  ghost predicate Suffix(s: seq<int>, t: seq<int>) { |s| <= |t| && t[|t| - |s|..] == s }

  lemma HighestRank(nodes: map<int, Node>) returns (top: nat)
    ensures forall y :: y in nodes ==> nodes[y].rank <= top
    decreases nodes.Keys
  {
    top := 0;
    if x :| x in nodes {
      var t := HighestRank(nodes - {x});
      top := if t < nodes[x].rank then nodes[x].rank else t;
      assert forall y :: y in nodes && y != x ==> y in nodes - {x};
    }
  }

  /** The list of bin `k`. */
  ghost function ListOf(w: Memory, off: int, heads: seq<int>, nodes: map<int, Node>, k: nat): seq<int>
    requires Linked(w, off, heads, nodes) && k < |heads|
  {
    assert HeadOk(w, off, heads, nodes, k);
    Walk(w, off, heads, nodes, heads[k])
  }

  /** Each member is on exactly one list, that of its bin, and there exactly once; and lists hold only members. */
  lemma ExactlyOneList(w: Memory, off: int, heads: seq<int>, nodes: map<int, Node>, k: nat)
    requires Linked(w, off, heads, nodes) && k < |heads|
    ensures var s := ListOf(w, off, heads, nodes, k);
      && (forall x :: x in s <==> x in nodes && nodes[x].bin == k)
      && (forall i, j :: 0 <= i < j < |s| ==> s[i] != s[j])
      && (s == [] <==> heads[k] == 0)
  {
    assert HeadOk(w, off, heads, nodes, k);
    var s := ListOf(w, off, heads, nodes, k);
    var top := HighestRank(nodes);
    if heads[k] != 0 { WalkFalls(w, off, heads, nodes, heads[k]); }
    forall x | x in nodes && nodes[x].bin == k ensures x in s {
      assert NodeOk(w, off, heads, nodes, x);
      OnItsList(w, off, heads, nodes, x, top);
      var t := Walk(w, off, heads, nodes, x);
      assert s[|s| - |t|..][0] == x;
    }
  }

  // ---------------------------------------------------------------- taking out and putting in, seen as lists

  lemma {:induction false} PrependedWalk(w: Memory, off: int, heads: seq<int>, nodes: map<int, Node>, k: nat, x: int,
                                         y: int)
    requires Linked(w, off, heads, nodes) && x !in nodes && 0 < x && k < |heads| && (y == 0 || y in nodes)
    requires Spread(nodes[x := Node(k, RankAbove(heads, nodes, k))])
    ensures var w', ns := Prepended(w, off, heads[k], x), nodes[x := Node(k, RankAbove(heads, nodes, k))];
      && Linked(w', off, heads[k := x], ns)
      && Walk(w', off, heads[k := x], ns, y) == Walk(w, off, heads, nodes, y)
    decreases if y == 0 then 0 else nodes[y].rank + 1
  {
    hide Prepended, Spread;
    PrependLinked(w, off, heads, nodes, k, x);
    if y != 0 {
      assert NodeOk(w, off, heads, nodes, y);
      HeadIsMember(w, off, heads, nodes, k);
      PrependReads(w, off, nodes[x := Node(k, RankAbove(heads, nodes, k))], heads[k], x, y);
      PrependedWalk(w, off, heads, nodes, k, x, Rd(w, y + off + 8));
    }
  }

  /** Prepending puts the member first on its list and leaves the other lists alone. */
  lemma PrependedList(w: Memory, off: int, heads: seq<int>, nodes: map<int, Node>, k: nat, x: int, j: nat)
    requires Linked(w, off, heads, nodes) && x !in nodes && 0 < x && k < |heads| && j < |heads|
    requires Spread(nodes[x := Node(k, RankAbove(heads, nodes, k))])
    ensures var w', ns := Prepended(w, off, heads[k], x), nodes[x := Node(k, RankAbove(heads, nodes, k))];
      && Linked(w', off, heads[k := x], ns)
      && ListOf(w', off, heads[k := x], ns, j) == (if j == k then [x] else []) + ListOf(w, off, heads, nodes, j)
  {
    hide Prepended, Spread;
    HeadIsMember(w, off, heads, nodes, j);
    HeadIsMember(w, off, heads, nodes, k);
    PrependedWalk(w, off, heads, nodes, k, x, heads[j]);
    PrependedSelf(w, off, nodes[x := Node(k, RankAbove(heads, nodes, k))], heads[k], x);
  }

  /** A list with the one place of `x` taken out. */
  function Without(s: seq<int>, x: int): (r: seq<int>)
    ensures x !in r
  {
    if s == [] then [] else (if s[0] == x then [] else [s[0]]) + Without(s[1..], x)
  }

  lemma {:induction false} WithoutAt(s: seq<int>, k: nat)
    requires k < |s| && forall i, j :: 0 <= i < j < |s| ==> s[i] != s[j]
    ensures Without(s, s[k]) == s[..k] + s[k + 1..]
  {
    if k == 0 {
      NotThere(s[1..], s[0]);
    } else {
      WithoutAt(s[1..], k - 1);
      assert s[..k] == [s[0]] + s[1..][..k - 1] && s[1..][k..] == s[k + 1..];
    }
  }

  lemma {:induction false} NotThere(s: seq<int>, x: int)
    requires x !in s
    ensures Without(s, x) == s
  {
    if s != [] { NotThere(s[1..], x); }
  }

  lemma {:induction false} BypassedWalk(w: Memory, off: int, heads: seq<int>, nodes: map<int, Node>, x: int, y: int)
    requires Linked(w, off, heads, nodes) && Spread(nodes) && x in nodes && y != x && (y == 0 || y in nodes)
    ensures nodes[x].bin < |heads|
    ensures var w', hs := Bypassed(w, off, x), BypassedHeads(w, off, heads, nodes[x].bin, x);
      && Linked(w', off, hs, nodes - {x})
      && Walk(w', off, hs, nodes - {x}, y) == Without(Walk(w, off, heads, nodes, y), x)
    decreases if y == 0 then 0 else nodes[y].rank + 1
  {
    hide Bypassed, Spread;
    BypassLinked(w, off, heads, nodes, x);
    if y != 0 {
      assert NodeOk(w, off, heads, nodes, y) && NodeOk(w, off, heads, nodes, x);
      BypassReads(w, off, nodes, x, y);
      var q := Rd(w, y + off + 8);
      BypassedWalk(w, off, heads, nodes, x, if q == x then Rd(w, x + off + 8) else q);
    }
  }

  /** Unlinking takes the member out of its list and leaves order and other lists alone. */
  lemma BypassedList(w: Memory, off: int, heads: seq<int>, nodes: map<int, Node>, x: int, j: nat)
    requires Linked(w, off, heads, nodes) && Spread(nodes) && x in nodes && j < |heads|
    ensures nodes[x].bin < |heads|
    ensures var w', hs := Bypassed(w, off, x), BypassedHeads(w, off, heads, nodes[x].bin, x);
      && Linked(w', off, hs, nodes - {x})
      && ListOf(w', off, hs, nodes - {x}, j) == Without(ListOf(w, off, heads, nodes, j), x)
  {
    hide Bypassed, Spread;
    HeadIsMember(w, off, heads, nodes, j);
    assert NodeOk(w, off, heads, nodes, x);
    BypassedWalk(w, off, heads, nodes, x, if heads[j] == x then Rd(w, x + off + 8) else heads[j]);
  }
}
