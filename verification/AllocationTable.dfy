/**
 The allocation table of a process: entries in a doubly linked list, and the search for the entry that
 contains an address.
 */
module AllocationTable {
  import opened FreeLists
  import opened PageTable

  /** Offsets in an entry: number of pages, base address, and the two links. */
  const PagesAt := 0
  const BaseAt := 32
  const LinksAt := 48
  const EntrySize := 64

  /** The pages of entry `e` contain the address. */
  predicate Contains(w: Memory, pageSize: nat, e: int, addr: int) {
    Rd(w, e + BaseAt) <= addr < Rd(w, e + BaseAt) + Rd(w, e + PagesAt) * pageSize
  }

  /** An address is in an entry if and only if it is in one of the pages of the entry. */
  lemma ContainsByPage(w: Memory, pageSize: nat, e: int, addr: int)
    requires 0 < pageSize
    ensures Contains(w, pageSize, e, addr) <==>
      exists ip :: 0 <= ip < Rd(w, e + PagesAt) && InPage(w, pageSize, e, ip, addr)
  {
    var base, n := Rd(w, e + BaseAt), Rd(w, e + PagesAt);
    if Contains(w, pageSize, e, addr) {
      assert 0 < n;
      PageOfOffset(addr - base, pageSize, n);
      assert InPage(w, pageSize, e, (addr - base) / pageSize, addr);
    }
    if ip :| 0 <= ip < n && InPage(w, pageSize, e, ip, addr) {
      MulMono(ip + 1, n, pageSize);
      MulMono(0, ip, pageSize);
    }
  }

  /** The address is in page `ip` of an entry. */
  predicate InPage(w: Memory, pageSize: nat, e: int, ip: int, addr: int) {
    Rd(w, e + BaseAt) + ip * pageSize <= addr < Rd(w, e + BaseAt) + (ip + 1) * pageSize
  }

  lemma PageOfOffset(a: nat, pageSize: nat, n: nat)
    requires 0 < pageSize && a < n * pageSize
    ensures 0 <= a / pageSize < n && (a / pageSize) * pageSize <= a < (a / pageSize + 1) * pageSize
  {
    DivBounds(a, pageSize, n);
    DivBounds(a, pageSize, a / pageSize);
    DivBounds(a, pageSize, a / pageSize + 1);
  }

  class Mmu {
    const pageSize: nat
    var w: Memory
    var aTbl: int
    ghost var nodes: map<int, Node>

    ghost predicate Valid() reads this {
      && Linked(w, LinksAt, [aTbl], nodes)
      && (forall x, y :: x in nodes && y in nodes && x < y ==> x + EntrySize <= y)
    }

    /** The entries in the order of the list. */
    ghost function Entries(): seq<int>
      requires Valid()
      reads this
    {
      ListOf(w, LinksAt, [aTbl], nodes, 0)
    }

    constructor (pageSize: nat)
      ensures Valid() && this.pageSize == pageSize && nodes == map[] && w == map[] && Entries() == []
    {
      this.pageSize := pageSize;
      w, aTbl, nodes := map[], 0, map[];
    }

    /** `mmu_insert_ate`: the entry becomes the first of the list. */
    method Insert(e: int)
      requires Valid() && e !in nodes && 0 < e && (forall x :: x in nodes ==> x + EntrySize <= e || e + EntrySize <= x)
      modifies this
      ensures Valid() && aTbl == e && nodes.Keys == old(nodes).Keys + {e} && Entries() == [e] + old(Entries())
      ensures forall x, a :: x in nodes ==> (Contains(w, pageSize, x, a) <==> Contains(old(w), pageSize, x, a))
    {
      hide Linked, Walk;
      ghost var w0, ns := w, nodes[e := Node(0, RankAbove([aTbl], nodes, 0))];
      HeadIsMember(w, LinksAt, [aTbl], nodes, 0);
      PrependedList(w, LinksAt, [aTbl], nodes, 0, e, 0);
      if aTbl == 0 {
        w := w[e + LinksAt := 0];
        w := w[e + LinksAt + 8 := 0];
        aTbl := e;
      } else {
        w := w[e + LinksAt := Rd(w, aTbl + LinksAt)];
        w := w[e + LinksAt + 8 := aTbl];
        w := w[aTbl + LinksAt := e];
        aTbl := e;
      }
      assert [old(aTbl)][0 := e] == [aTbl];
      nodes := ns;
    }

    /** `mmu_invalidate_ate` */
    method Invalidate(e: int)
      requires Valid() && e in nodes
      modifies this
      ensures Valid() && nodes.Keys == old(nodes).Keys - {e}
      ensures forall k :: 0 <= k < |old(Entries())| && old(Entries())[k] == e ==>
        Entries() == old(Entries())[..k] + old(Entries())[k + 1..]
      ensures forall x, a :: x in nodes ==> (Contains(w, pageSize, x, a) <==> Contains(old(w), pageSize, x, a))
    {
      hide Linked, ListOf;
      TakenOut(w, aTbl, nodes, e);
      var p, q := Rd(w, e + LinksAt), Rd(w, e + LinksAt + 8);
      if p == 0 { aTbl := q; } else { w := w[p + LinksAt + 8 := q]; }
      if q != 0 { w := w[q + LinksAt := p]; }
      assert [aTbl] == BypassedHeads(old(w), LinksAt, [old(aTbl)], 0, e);
      nodes := nodes - {e};
    }

    /** `mmu_lookup_ate`: the first entry of the list that contains the address, the null pointer exactly when none
        does. */
    method Lookup(addr: int) returns (ate: int)
      requires Valid()
      ensures ate == 0 <==> forall x :: x in nodes ==> !Contains(w, pageSize, x, addr)
      ensures ate != 0 ==> ate in nodes && First(w, pageSize, Entries(), ate, addr)
    {
      hide Linked, Walk, ListOf, Contains;
      ate := aTbl;
      FromHead(w, aTbl, nodes);
      ghost var passed: seq<int> := [];
      while ate != 0 && !Contains(w, pageSize, ate, addr)
        invariant ate == 0 || ate in nodes
        invariant Entries() == passed + Walk(w, LinksAt, [aTbl], nodes, ate)
        invariant forall x :: x in passed ==> !Contains(w, pageSize, x, addr)
        decreases if ate == 0 then 0 else nodes[ate].rank + 1
      {
        NextEntry(w, aTbl, nodes, ate);
        passed := passed + [ate];
        ate := Rd(w, ate + LinksAt + 8);
      }
      if ate == 0 {
        NoneLeft(w, aTbl, nodes);
      } else {
        assert Entries()[|passed|] == ate;
      }
    }
  }

  /** Entry `ate` contains the address and no entry before it in the list does. */
  ghost predicate First(w: Memory, pageSize: nat, s: seq<int>, ate: int, addr: int) {
    exists k :: 0 <= k < |s| && s[k] == ate && Contains(w, pageSize, ate, addr) && NoneOf(w, pageSize, s[..k], addr)
  }

  ghost predicate NoneOf(w: Memory, pageSize: nat, s: seq<int>, addr: int) {
    forall x :: x in s ==> !Contains(w, pageSize, x, addr)
  }

  lemma FromHead(w: Memory, aTbl: int, nodes: map<int, Node>)
    requires Linked(w, LinksAt, [aTbl], nodes)
    ensures aTbl == 0 || aTbl in nodes
    ensures ListOf(w, LinksAt, [aTbl], nodes, 0) == Walk(w, LinksAt, [aTbl], nodes, aTbl)
    ensures forall x :: x in ListOf(w, LinksAt, [aTbl], nodes, 0) <==> x in nodes
  {
    HeadIsMember(w, LinksAt, [aTbl], nodes, 0);
    ExactlyOneList(w, LinksAt, [aTbl], nodes, 0);
    OnlyBin(w, [aTbl], nodes);
  }

  lemma NextEntry(w: Memory, aTbl: int, nodes: map<int, Node>, x: int)
    requires Linked(w, LinksAt, [aTbl], nodes) && x in nodes
    ensures var q := Rd(w, x + LinksAt + 8);
      && x != 0 && (q == 0 || (q in nodes && nodes[q].rank < nodes[x].rank))
      && Walk(w, LinksAt, [aTbl], nodes, x) == [x] + Walk(w, LinksAt, [aTbl], nodes, q)
  {
    assert NodeOk(w, LinksAt, [aTbl], nodes, x);
  }

  lemma NoneLeft(w: Memory, aTbl: int, nodes: map<int, Node>)
    requires Linked(w, LinksAt, [aTbl], nodes)
    ensures Walk(w, LinksAt, [aTbl], nodes, 0) == []
  {
  }

  lemma TakenOut(w: Memory, aTbl: int, nodes: map<int, Node>, e: int)
    requires Linked(w, LinksAt, [aTbl], nodes) && Spread(nodes) && e in nodes
    ensures var w', hs := Bypassed(w, LinksAt, e), BypassedHeads(w, LinksAt, [aTbl], 0, e);
      && Linked(w', LinksAt, hs, nodes - {e})
      && forall k :: var s := ListOf(w, LinksAt, [aTbl], nodes, 0);
           0 <= k < |s| && s[k] == e ==> ListOf(w', LinksAt, hs, nodes - {e}, 0) == s[..k] + s[k + 1..]
    ensures var p, q := Rd(w, e + LinksAt), Rd(w, e + LinksAt + 8);
      (p == 0 || (p in nodes && p != e)) && (q == 0 || (q in nodes && q != e))
  {
    hide Walk, Bypassed, ListOf;
    assert NodeOk(w, LinksAt, [aTbl], nodes, e);
    BypassedList(w, LinksAt, [aTbl], nodes, e, 0);
    ExactlyOneList(w, LinksAt, [aTbl], nodes, 0);
    var s := ListOf(w, LinksAt, [aTbl], nodes, 0);
    forall k | 0 <= k < |s| && s[k] == e ensures Without(s, e) == s[..k] + s[k + 1..] { WithoutAt(s, k); }
  }

  lemma OnlyBin(w: Memory, heads: seq<int>, nodes: map<int, Node>)
    requires Linked(w, LinksAt, heads, nodes) && |heads| == 1
    ensures forall x :: x in nodes ==> nodes[x].bin == 0
  {
    forall x | x in nodes ensures nodes[x].bin == 0 { assert NodeOk(w, LinksAt, heads, nodes, x); }
  }
}
