/**
 Moving the contents of one allocation into another, larger one: the old pages are written to the old
 file, the new allocation is emptied, and the old file becomes its file.
 */
module Remap {
  import opened PageTable
  import opened SwapEngine
  import opened Transparency

  /** The new allocation after a remap, page by page.  Pages past the old ones have no file contents. */
  function Remapped(o: State, nw: State, pageSize: nat): (r: State)
    requires Within(o, 0, |o.flags|) && Within(nw, 0, |nw.flags|) && |o.flags| <= |nw.flags|
  {
    var old_ := SwapOut(o, 0, |o.flags|, pageSize);
    var new_ := SwapOut(SwapClear(nw, 0, |nw.flags|), 0, |nw.flags|, pageSize);
    State(Marked(new_.flags, old_.flags, |old_.flags|), new_.prot, new_.mem,
          Moved(new_.disk, old_.disk))
  }

  /** Status bytes with the on-disk bit of the first `n` pages taken over from the old allocation. */
  function Marked(nfs: seq<Flags>, ofs: seq<Flags>, n: nat): (r: seq<Flags>) {
    seq(|nfs|, i requires 0 <= i < |nfs| =>
      if i < n && i < |ofs| then nfs[i].(zfill := nfs[i].zfill || ofs[i].zfill) else nfs[i])
  }

  function Moved(nd: seq<Page>, od: seq<Page>): (r: seq<Page>) {
    seq(|nd|, i requires 0 <= i < |nd| => if i < |od| then od[i] else nd[i])
  }

  /** The new allocation has a page in memory, or no bytes left over in the memory of its absent pages.  The
      eviction in a remap does nothing to an allocation without resident pages. */
  ghost predicate Settled(nw: State) {
    Count(Loaded, nw.flags) > 0 || forall i, o :: 0 <= i < |nw.mem| && 0 <= o < |nw.mem[i]| ==> nw.mem[i][o] == 0
  }

  /** Remap moves contents: every page of the new allocation that stands for an old page is known to
      hold what the old page held, every other page holds zero, whatever mix of dirty, clean, on-disk
      and zero-fill pages either side had; and the new allocation is again in order. */
  lemma RemapMovesContents(opts: Options, pageSize: nat, o: State, oc: seq<seq<Cell>>, nw: State, nc: seq<seq<Cell>>)
    requires Inv(opts, pageSize, o, oc) && Inv(opts, pageSize, nw, nc) && |oc| <= |nc| && Settled(nw)
    ensures Inv(opts, pageSize, Remapped(o, nw, pageSize), oc + Blank(|nc| - |oc|, pageSize))
  {
    hide SwapOut, SwapClear, PageOk, Settled;
    var o1, n1, n3 := SwapOut(o, 0, |oc|, pageSize), SwapClear(nw, 0, |nc|), ClearCells(nc, 0, |nc|);
    SwapOutOk(opts, pageSize, o, oc, 0, |oc|);
    SwapClearOk(opts, pageSize, nw, nc, 0, |nc|);
    var n2, r := SwapOut(n1, 0, |nc|, pageSize), Remapped(o, nw, pageSize);
    SwapOutOk(opts, pageSize, n1, n3, 0, |nc|);
    Emptied(opts, o, oc, pageSize);
    Cleared(nw);
    Emptied(opts, n1, n3, pageSize);
    LeftInMemory(nw, pageSize);
    var rc := oc + Blank(|nc| - |oc|, pageSize);
    forall i | 0 <= i < |rc| ensures PageOk(opts.inGhost, r.flags[i], r.prot[i], r.mem[i], r.disk[i], rc[i]) {
      assert PageOk(opts.inGhost, n2.flags[i], n2.prot[i], n2.mem[i], n2.disk[i], n3[i]);
      if i < |oc| {
        assert PageOk(opts.inGhost, o1.flags[i], o1.prot[i], o1.mem[i], o1.disk[i], oc[i]);
        TakenPage(opts.inGhost, n2.flags[i], n2.prot[i], n2.mem[i], n2.disk[i], n3[i],
                  o1.flags[i], o1.prot[i], o1.mem[i], o1.disk[i], oc[i]);
      } else {
        ZeroPage(opts.inGhost, n2.flags[i], n2.prot[i], n2.mem[i], n2.disk[i], n3[i], rc[i]);
      }
    }
  }

  /** The memory of absent pages holds zero. */
  ghost predicate Vacant(s: State, pageSize: nat)
    requires Shaped(s, pageSize)
  {
    forall i :: 0 <= i < |s.flags| && s.flags[i].rsdnt ==> s.mem[i] == Zero(pageSize)
  }

  lemma VacantStep(c: Config, s: State, cs: seq<seq<Cell>>, e: Event)
    requires Inv(c.opts, c.pageSize, s, cs) && Vacant(s, c.pageSize) && Enabled(c, s, e)
    requires e.Growing? ==> e.stale == Blanks(e.stale)
    ensures Vacant(Apply(c, s, e), c.pageSize)
  {
    hide Count;
    if e.Store? {
      assert PageOk(c.opts.inGhost, s.flags[e.ip], s.prot[e.ip], s.mem[e.ip], s.disk[e.ip], cs[e.ip]);
    }
  }

  /** Bytes are left over only by growth: unless growth brought some in, every state of every run is settled. */
  lemma {:induction false} SettledUnlessGrown(c: Config, ss: seq<State>, t: seq<Event>, k: nat)
    requires Run(c, ss, t) && k <= |t|
    requires forall j :: 0 <= j < k && t[j].Growing? ==> t[j].stale == Blanks(t[j].stale)
    ensures Shaped(ss[k], c.pageSize) && Vacant(ss[k], c.pageSize) && Settled(ss[k])
  {
    hide Inv, Apply;
    var cs := ReachableOk(c, ss, t, k);
    InvShape(c.opts, c.pageSize, ss[k], cs);
    if 0 < k {
      SettledUnlessGrown(c, ss, t, k - 1);
      var before := ReachableOk(c, ss, t, k - 1);
      VacantStep(c, ss[k - 1], before, t[k - 1]);
      assert ss[k - 1 + 1] == Apply(c, ss[k - 1], t[k - 1]);
    }
    CountExtremes(Loaded, ss[k].flags);
  }

  /** What the first load from an absent page will return. */
  function ReadBack(s: State, i: nat, o: nat): Byte
    requires i < |s.flags| == |s.mem| == |s.disk| && o < |s.mem[i]| == |s.disk[i]|
  {
    if s.flags[i].zfill then s.disk[i][o] else s.mem[i][o]
  }

  /** Exactly when a remapped location reads as it should: the new allocation had a resident page, or the old
      page is in the file, or the byte left over in memory happens to be right. */
  lemma RemapReadsExactly(opts: Options, pageSize: nat, o: State, oc: seq<seq<Cell>>, nw: State, nc: seq<seq<Cell>>,
                          i: nat, a: nat)
    requires Inv(opts, pageSize, o, oc) && Inv(opts, pageSize, nw, nc) && |oc| <= |nc| && i < |oc| && a < pageSize
    ensures var r := Remapped(o, nw, pageSize);
      && Shaped(r, pageSize) && |r.flags| == |nc| && r.flags[i].rsdnt && |oc[i]| == |nw.mem[i]| == pageSize
      && (Allows(oc[i][a], ReadBack(r, i, a)) <==>
            Count(Loaded, nw.flags) > 0 || o.flags[i].dirty || o.flags[i].zfill || Allows(oc[i][a], nw.mem[i][a]))
  {
    hide SwapOut, SwapClear, PageOk;
    var o1, n1, n3 := SwapOut(o, 0, |oc|, pageSize), SwapClear(nw, 0, |nc|), ClearCells(nc, 0, |nc|);
    SwapOutOk(opts, pageSize, o, oc, 0, |oc|);
    SwapClearOk(opts, pageSize, nw, nc, 0, |nc|);
    var n2 := SwapOut(n1, 0, |nc|, pageSize);
    SwapOutOk(opts, pageSize, n1, n3, 0, |nc|);
    Emptied(opts, o, oc, pageSize);
    Cleared(nw);
    Emptied(opts, n1, n3, pageSize);
    LeftInMemory(nw, pageSize);
    InvShape(opts, pageSize, o, oc);
    assert PageOk(opts.inGhost, o1.flags[i], o1.prot[i], o1.mem[i], o1.disk[i], oc[i]);
    AbsentPage(opts.inGhost, o1.flags[i], o1.prot[i], o1.mem[i], o1.disk[i], oc[i], a);
    WrittenBack(opts, pageSize, o, oc, i);
  }

  /** After the old pages have been written back, those are in the file that were dirty or there before. */
  lemma WrittenBack(opts: Options, pageSize: nat, o: State, oc: seq<seq<Cell>>, i: nat)
    requires Inv(opts, pageSize, o, oc) && i < |oc|
    ensures SwapOut(o, 0, |oc|, pageSize).flags[i].zfill <==> o.flags[i].dirty || o.flags[i].zfill
  {
    assert PageOk(opts.inGhost, o.flags[i], o.prot[i], o.mem[i], o.disk[i], oc[i]);
    CountExtremes(Loaded, o.flags);
  }

  lemma AbsentPage(inGhost: bool, f: Flags, p: Prot, m: Page, d: Page, cs: seq<Cell>, a: nat)
    requires PageOk(inGhost, f, p, m, d, cs) && f.rsdnt && a < |cs|
    ensures |d| == |cs| && Allows(cs[a], if f.zfill then d[a] else 0)
  {
    assert LocationOk(f, m[a], d[a], cs[a]);
  }

  /** What clearing and evicting the whole new allocation leaves in its memory. */
  lemma LeftInMemory(nw: State, pageSize: nat)
    requires Shaped(nw, pageSize)
    ensures var r := SwapOut(SwapClear(nw, 0, |nw.flags|), 0, |nw.flags|, pageSize);
      && |r.mem| == |nw.mem|
      && forall i :: 0 <= i < |nw.mem| ==>
        r.mem[i] == if Count(Loaded, nw.flags) > 0 then Zero(pageSize) else nw.mem[i]
    ensures Settled(nw) ==> forall i, o :: 0 <= i < |nw.mem| && 0 <= o < pageSize ==>
      SwapOut(SwapClear(nw, 0, |nw.flags|), 0, |nw.flags|, pageSize).mem[i][o] == 0
  {
    Allocation.CountSame(Loaded, SwapClear(nw, 0, |nw.flags|).flags, nw.flags);
  }

  const LazyOnly := Options(false, true, false, false)

  /** Two new pages, and one new page grown by another. */
  function Pair(d: Byte): State { Fresh(LazyOnly, 2, 1, [[d], [d]]) }

  function GrownPair(d: Byte): State {
    var s := Fresh(LazyOnly, 1, 1, [[d]]);
    Grown(LazyOnly, s, LeftOver(s.flags, 1, 1))
  }

  lemma PairsOk(d: Byte)
    ensures Inv(LazyOnly, 1, Pair(d), Blank(2, 1)) && Inv(LazyOnly, 1, GrownPair(d), Blank(1, 1) + Added([[10]]))
    ensures Pair(d).flags == GrownPair(d).flags == [NewFlag(LazyOnly), NewFlag(LazyOnly)]
    ensures GrownPair(d).mem == [[0], [10]] && Count(Loaded, Pair(d).flags) == 0
  {
    var s := Fresh(LazyOnly, 1, 1, [[d]]);
    FreshOk(LazyOnly, 2, 1, [[d], [d]]);
    FreshOk(LazyOnly, 1, 1, [[d]]);
    assert s.flags == [NewFlag(LazyOnly)];
    assert LeftOver(s.flags, 1, 1)[0][0] == ByteAt(s.flags, 0) == 10;
    assert LeftOver(s.flags, 1, 1)[0] == [10];
    assert LeftOver(s.flags, 1, 1) == [[10]];
    GrownOk(LazyOnly, 1, s, Blank(1, 1), [[10]]);
    assert Zero(1) == [0] && s.mem == [[0]];
    CountExtremes(Loaded, Pair(d).flags);
  }

  /** A page added by growth and never loaded keeps the status byte that lay there through a remap, and reads as
      that byte instead of the zero of the old page. */
  lemma LeftOverByteSurvives(d: Byte)
    ensures Inv(LazyOnly, 1, Pair(d), Blank(2, 1)) && Inv(LazyOnly, 1, GrownPair(d), Blank(1, 1) + Added([[10]]))
    ensures var r := Remapped(Pair(d), GrownPair(d), 1);
      Shaped(r, 1) && |r.flags| == 2 && r.flags[1].rsdnt && ReadBack(r, 1, 0) == 10 && !Allows(Blank(2, 1)[1][0], 10)
  {
    hide Inv, Grown, Remapped, Count, Pair, GrownPair;
    PairsOk(d);
    InvShape(LazyOnly, 1, Pair(d), Blank(2, 1));
    InvShape(LazyOnly, 1, GrownPair(d), Blank(1, 1) + Added([[10]]));
    RemapReadsExactly(LazyOnly, 1, Pair(d), Blank(2, 1), GrownPair(d), Blank(1, 1) + Added([[10]]), 1, 0);
    NoFileCopy(Pair(d), GrownPair(d));
  }

  lemma NoFileCopy(o: State, nw: State)
    requires Shaped(o, 1) && Shaped(nw, 1) && o.flags == nw.flags == [NewFlag(LazyOnly), NewFlag(LazyOnly)]
    requires Count(Loaded, o.flags) == 0
    ensures var r := Remapped(o, nw, 1);
      |r.flags| == 2 && !r.flags[1].zfill && r.mem == nw.mem
  {
    assert SwapClear(nw, 0, 2).flags == nw.flags;
  }

  /** So whatever happens to the new allocation after the remap, a load from a page that stands for an old one
      returns what the old page held, until that location is stored to or its page is cleared. */
  lemma LoadsAfterRemap(c: Config, o: State, oc: seq<seq<Cell>>, nw: State, nc: seq<seq<Cell>>, ss: seq<State>,
                        t: seq<Event>, k: nat)
    requires Inv(c.opts, c.pageSize, o, oc) && Inv(c.opts, c.pageSize, nw, nc) && |oc| <= |nc| && Settled(nw)
    requires Steps(c, ss, t) && ss[0] == Remapped(o, nw, c.pageSize)
    requires k < |t| && t[k].Load? && t[k].ip < |oc| && t[k].o < |oc[t[k].ip]|
    ensures Allows(ExpectFrom(oc[t[k].ip][t[k].o], t[..k], t[k].ip, t[k].o), t[k].v)
  {
    hide Inv, Remapped, Settled;
    RemapMovesContents(c.opts, c.pageSize, o, oc, nw, nc);
    TransparentFrom(c, ss, t, oc + Blank(|nc| - |oc|, c.pageSize), k);
  }

  lemma TakenPage(inGhost: bool, f: Flags, p: Prot, m: Page, d: Page, cs: seq<Cell>,
                  of: Flags, op: Prot, om: Page, od: Page, ocs: seq<Cell>)
    requires PageOk(inGhost, f, p, m, d, cs) && f.rsdnt && !f.zfill && forall o :: 0 <= o < |m| ==> m[o] == 0
    requires PageOk(inGhost, of, op, om, od, ocs) && of.rsdnt && |od| == |d|
    ensures PageOk(inGhost, f.(zfill := f.zfill || of.zfill), p, m, od, ocs)
  {
    forall o | 0 <= o < |ocs| ensures LocationOk(f.(zfill := of.zfill), m[o], od[o], ocs[o]) {
      assert LocationOk(f, m[o], d[o], cs[o]) && LocationOk(of, om[o], od[o], ocs[o]);
    }
  }

  lemma ZeroPage(inGhost: bool, f: Flags, p: Prot, m: Page, d: Page, cs: seq<Cell>, blank: seq<Cell>)
    requires PageOk(inGhost, f, p, m, d, cs) && f.rsdnt && !f.zfill && forall o :: 0 <= o < |m| ==> m[o] == 0
    requires |blank| == |m| && forall o :: 0 <= o < |blank| ==> blank[o] == Exactly(0)
    ensures PageOk(inGhost, f, p, m, d, blank)
  {
    forall o | 0 <= o < |blank| ensures LocationOk(f, m[o], d[o], blank[o]) {
      assert LocationOk(f, m[o], d[o], cs[o]);
    }
  }

  lemma Cleared(s: State)
    requires Within(s, 0, |s.flags|)
    ensures var fs := SwapClear(s, 0, |s.flags|).flags;
      |fs| == |s.flags| && forall i :: 0 <= i < |fs| ==> !fs[i].zfill && !fs[i].dirty
  {
  }

  /** After a whole eviction no page is resident or dirty, and clean pages keep their on-disk bit. */
  lemma Emptied(opts: Options, s: State, cs: seq<seq<Cell>>, pageSize: nat)
    requires Inv(opts, pageSize, s, cs)
    ensures var fs := SwapOut(s, 0, |s.flags|, pageSize).flags;
      && |fs| == |s.flags|
      && (forall i :: 0 <= i < |fs| ==> fs[i].rsdnt && !fs[i].dirty)
      && (forall i :: 0 <= i < |fs| && !s.flags[i].dirty ==> fs[i].zfill == s.flags[i].zfill)
  {
    CountExtremes(Loaded, s.flags);
    forall i | 0 <= i < |cs| ensures s.flags[i].dirty ==> !s.flags[i].rsdnt {
      assert PageOk(opts.inGhost, s.flags[i], s.prot[i], s.mem[i], s.disk[i], cs[i]);
    }
  }

  /** `sbma_remap` on the two allocations. */
  method RemapPages(oate: Allocation, nate: Allocation)
    requires oate.Valid() && nate.Valid() && oate.pageSize == nate.pageSize
    requires oate.Repr() !! nate.Repr() && oate.flags.Length <= nate.flags.Length
    modifies oate.Repr(), nate.Repr()
    ensures nate.Valid() && nate.View() == Remapped(old(oate.View()), old(nate.View()), nate.pageSize)
    ensures oate.Valid() && oate.View() == SwapOut(old(oate.View()), 0, old(oate.flags.Length), oate.pageSize)
  {
    hide Count, Good, SwapOut, SwapClear, Marked, Moved;
    oate.GoodSized();
    nate.GoodSized();
    var numwr := oate.SwapOutRange(0, oate.flags.Length);
    nate.SwapClearRange(0, nate.flags.Length);
    nate.GoodSized();
    numwr := nate.SwapOutRange(0, nate.flags.Length);
    TakeOver(oate, nate);
  }

  /** Copy the on-disk bits page by page, then let the old file be the new file. */
  method TakeOver(oate: Allocation, nate: Allocation)
    requires oate.Valid() && nate.Valid() && oate.pageSize == nate.pageSize
    requires oate.Repr() !! nate.Repr() && oate.flags.Length <= nate.flags.Length
    modifies nate.flags, nate.disk
    ensures nate.Valid()
    ensures nate.flags[..] == Marked(old(nate.flags[..]), oate.flags[..], oate.flags.Length)
    ensures nate.disk[..] == Moved(old(nate.disk[..]), oate.disk[..])
  {
    hide Count, Good, Marked, Moved;
    ghost var o, s := oate.View(), nate.View();
    oate.GoodSized();
    nate.GoodSized();
    MarkFlags(oate.flags, nate.flags);
    MoveFile(oate.disk, nate.disk);
    TakenGood(o, s, oate.pageSize);
  }

  lemma TakenGood(o: State, s: State, pageSize: nat)
    requires Good(o, pageSize) && Good(s, pageSize) && |o.flags| <= |s.flags|
    ensures Good(State(Marked(s.flags, o.flags, |o.flags|), s.prot, s.mem, Moved(s.disk, o.disk)), pageSize)
    ensures forall k :: Count(k, Marked(s.flags, o.flags, |o.flags|)) == Count(k, s.flags)
  {
    var fs := Marked(s.flags, o.flags, |o.flags|);
    forall k ensures Count(k, fs) == Count(k, s.flags) { Allocation.CountSame(k, fs, s.flags); }
  }

  method MarkFlags(oflags: array<Flags>, nflags: array<Flags>)
    requires oflags != nflags && oflags.Length <= nflags.Length
    modifies nflags
    ensures nflags[..] == Marked(old(nflags[..]), oflags[..], oflags.Length)
  {
    ghost var fs := nflags[..];
    var i := 0;
    while i < oflags.Length
      invariant i <= oflags.Length
      invariant nflags[..] == Marked(fs, oflags[..], i)
    {
      nflags[i] := nflags[i].(zfill := nflags[i].zfill || oflags[i].zfill);
      i := i + 1;
    }
  }

  method MoveFile(odisk: array<Page>, ndisk: array<Page>)
    requires odisk != ndisk && odisk.Length <= ndisk.Length
    modifies ndisk
    ensures ndisk[..] == Moved(old(ndisk[..]), odisk[..])
  {
    forall j | 0 <= j < odisk.Length { ndisk[j] := odisk[j]; }
  }
}
