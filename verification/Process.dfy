/**
 One process of the runtime: its table of allocations and the totals it has charged to the shared
 pool.  Every call keeps the totals equal to the sums over the table.
 */
module Process {
  import opened PageTable
  import opened SwapEngine
  import opened Accounting

  lemma ScaledSum(a: nat, b: nat, pageSize: nat, sysPage: nat)
    requires 0 < sysPage && pageSize % sysPage == 0
    ensures (a + b) * pageSize / sysPage == a * pageSize / sysPage + b * pageSize / sysPage
  {
    var r := pageSize / sysPage;
    Scaled(a, r, sysPage);
    Scaled(b, r, sysPage);
    Scaled(a + b, r, sysPage);
    assert pageSize == r * sysPage;
    assert (a + b) * r == a * r + b * r;
  }

  lemma Scaled(a: nat, r: nat, d: nat)
    requires 0 < d
    ensures a * (r * d) / d == a * r
  {
    assert a * (r * d) == (a * r) * d;
    DivBounds((a * r) * d, d, a * r);
    DivBounds((a * r) * d, d, a * r + 1);
    assert (a * r + 1) * d == (a * r) * d + d;
  }

  /** Count the pages a touch will charge. */
  method MTouchProbe(ate: Allocation, opts: Options, beg: nat, end: nat) returns (c: nat)
    requires ate.Valid() && beg <= end <= ate.flags.Length
    ensures c == TouchProbe(opts, ate.flags[..], beg, end)
  {
    if opts.aggch && opts.lzyrd && ate.c_pages == 0 { return ate.flags.Length; }
    c := 0;
    var ip := beg;
    while ip < end
      invariant beg <= ip <= end
      invariant c == (ip - beg) - Count(Charged, ate.flags[..][beg..ip])
    {
      CountStep(Charged, ate.flags[..], beg, ip);
      if ate.flags[ip].chrgd { c := c + 1; }
      ip := ip + 1;
    }
  }

  /** Count the charged and the dirty pages of a range. */
  method MEvictProbe(ate: Allocation, beg: nat, end: nat) returns (c: nat, d: nat)
    requires ate.Valid() && beg <= end <= ate.flags.Length
    ensures c == Count(Charged, ate.flags[..][beg..end])
    ensures d == Count(Dirtied, ate.flags[..][beg..end])
  {
    c, d := 0, 0;
    var ip := beg;
    while ip < end
      invariant beg <= ip <= end
      invariant c == Count(Charged, ate.flags[..][beg..ip]) && d == Count(Dirtied, ate.flags[..][beg..ip])
    {
      CountStep(Charged, ate.flags[..], beg, ip);
      CountStep(Dirtied, ate.flags[..], beg, ip);
      if !ate.flags[ip].chrgd { c := c + 1; }
      if ate.flags[ip].dirty { d := d + 1; }
      ip := ip + 1;
    }
  }

  /** Probe and touch one allocation: its charge grows by what the probe announced. */
  method TouchEntry(ate: Allocation, opts: Options, beg: nat, end: nat) returns (c: nat)
    requires ate.Valid() && beg <= end <= ate.flags.Length
    modifies ate`l_pages, ate`c_pages, ate`io, ate.flags, ate.prot, ate.mem
    ensures ate.Valid() && ate.View() == Touch(opts, old(ate.View()), beg, end)
    ensures c == TouchProbe(opts, old(ate.flags[..]), beg, end) && ate.c_pages == old(ate.c_pages) + c
    ensures ate.d_pages == old(ate.d_pages) && (beg < end ==> ate.l_pages > 0)
    ensures !Aggressive(opts) && InStep(old(ate.flags[..])) ==> InStep(ate.flags[..])
  {
    hide Count, Good, TouchProbe, Touch;
    ate.GoodSized();
    ghost var s := ate.View();
    c := MTouchProbe(ate, opts, beg, end);
    var numrd := ate.TouchRange(opts, beg, end);
    TouchProbeExact(opts, s, beg, end, ate.pageSize);
    if beg < end { TouchLoads(opts, s, beg, end); }
    if InStep(s.flags) { OperationsKeepStep(opts, s, beg, end, 0, ate.pageSize); }
  }

  /** Probe and evict a range of one allocation.  Its charge falls by what the probe announced exactly
      when some page was resident or nothing was charged; its dirty count always does. */
  method EvictEntry(ate: Allocation, beg: nat, end: nat) returns (c: nat, d: nat)
    requires ate.Valid() && beg <= end <= ate.flags.Length
    modifies ate`l_pages, ate`c_pages, ate`d_pages, ate`io, ate.flags, ate.prot, ate.mem, ate.disk
    ensures ate.Valid() && ate.View() == SwapOut(old(ate.View()), beg, end, ate.pageSize)
    ensures c == Count(Charged, old(ate.flags[..])[beg..end]) && d == Count(Dirtied, old(ate.flags[..])[beg..end])
    ensures c <= old(ate.c_pages) && d <= old(ate.d_pages) && ate.d_pages == old(ate.d_pages) - d
    ensures ate.c_pages == old(ate.c_pages) - (if old(ate.l_pages) > 0 then c else 0)
    ensures beg == 0 && end == ate.flags.Length ==> c == old(ate.c_pages)
    ensures InStep(old(ate.flags[..])) ==> InStep(ate.flags[..])
  {
    hide Count, Good, SwapOut;
    ate.GoodSized();
    ghost var s := ate.View();
    c, d := MEvictProbe(ate, beg, end);
    RangeCount(s.flags, beg, end);
    var numwr := ate.SwapOutRange(beg, end - beg);
    EvictProbeExact(s, beg, end, ate.pageSize);
    EvictNothing(s, beg, end, ate.pageSize);
    assert beg == 0 && end == |s.flags| ==> s.flags[beg..end] == s.flags;
    if InStep(s.flags) { OperationsKeepStep(Options(false, false, false, false), s, beg, end, 0, ate.pageSize); }
  }

  /** Probe and clear a range of one allocation. */
  method ClearEntry(ate: Allocation, beg: nat, end: nat) returns (d: nat)
    requires ate.Valid() && beg <= end <= ate.flags.Length
    modifies ate`d_pages, ate.flags, ate.prot
    ensures ate.Valid() && ate.View() == SwapClear(old(ate.View()), beg, end)
    ensures d <= old(ate.d_pages) && ate.d_pages == old(ate.d_pages) - d && ate.c_pages == old(ate.c_pages)
    ensures InStep(old(ate.flags[..])) ==> InStep(ate.flags[..])
  {
    hide Count, Good, SwapClear;
    ate.GoodSized();
    ghost var s := ate.View();
    var c;
    c, d := MEvictProbe(ate, beg, end);
    RangeCount(s.flags, beg, end);
    ate.SwapClearRange(beg, end - beg);
    ClearProbeExact(s, beg, end, ate.pageSize);
    if InStep(s.flags) { OperationsKeepStep(Options(false, false, false, false), s, beg, end, 0, ate.pageSize); }
  }

  /** Evict a whole allocation, the way evicting everything does: the counters say what is to be released,
      nothing stays loaded or dirty, and only what is stuck stays charged. */
  method EvictWholeEntry(ate: Allocation) returns (c: nat, d: nat)
    requires ate.Valid()
    modifies ate`l_pages, ate`c_pages, ate`d_pages, ate`io, ate.flags, ate.prot, ate.mem, ate.disk
    ensures ate.Valid() && Dropped(old(ate.View()), ate.View(), ate.pageSize)
    ensures c == old(ate.c_pages) && d == old(ate.d_pages)
    ensures ate.l_pages == 0 && ate.d_pages == 0 && ate.c_pages == Stuck(old(ate.flags[..])) <= c
    ensures InStep(old(ate.flags[..])) ==> InStep(ate.flags[..])
  {
    hide Count, Good, SwapOut;
    ate.GoodSized();
    ghost var s := ate.View();
    c, d := ate.c_pages, ate.d_pages;
    var numwr := ate.SwapOutRange(0, ate.flags.Length);
    WholeEvictLeavesStuck(s, ate.pageSize);
    if InStep(s.flags) { OperationsKeepStep(Options(false, false, false, false), s, 0, |s.flags|, 0, ate.pageSize); }
  }

  /** State `t` is state `s` with all its pages written back and dropped. */
  ghost predicate Dropped(s: State, t: State, pageSize: nat) {
    Within(s, 0, |s.flags|) && t == SwapOut(s, 0, |s.flags|, pageSize)
  }

  /** State `t` is state `s` with all its pages brought in. */
  ghost predicate Brought(opts: Options, s: State, t: State) {
    Within(s, 0, |s.flags|) && t == Touch(opts, s, 0, |s.flags|)
  }

  /** Touch a whole allocation: afterwards every page is loaded and charged. */
  method TouchWholeEntry(ate: Allocation, opts: Options)
    requires ate.Valid()
    modifies ate`l_pages, ate`c_pages, ate`io, ate.flags, ate.prot, ate.mem
    ensures ate.Valid() && Brought(opts, old(ate.View()), ate.View())
    ensures ate.c_pages == old(ate.c_pages) + TouchProbe(opts, old(ate.flags[..]), 0, old(ate.flags.Length))
    ensures ate.d_pages == old(ate.d_pages)
    ensures ate.l_pages == ate.flags.Length && ate.c_pages == ate.flags.Length
    ensures !Aggressive(opts) && InStep(old(ate.flags[..])) ==> InStep(ate.flags[..])
  {
    hide Count, Good, TouchProbe, Touch;
    ate.GoodSized();
    ghost var s := ate.View();
    var numrd := ate.TouchRange(opts, 0, ate.flags.Length);
    TouchProbeExact(opts, s, 0, |s.flags|, ate.pageSize);
    WholeTouchLoads(opts, s, ate.pageSize);
    if InStep(s.flags) { OperationsKeepStep(opts, s, 0, |s.flags|, 0, ate.pageSize); }
  }

  lemma WholeTouchLoads(opts: Options, s: State, pageSize: nat)
    requires Good(s, pageSize)
    ensures var fs := Touch(opts, s, 0, |s.flags|).flags;
      |fs| == |s.flags| && Count(Loaded, fs) == |fs| && Count(Charged, fs) == |fs|
  {
    hide Count;
    var c := ChargeAll(opts, s);
    ChargeAllCounts(opts, s);
    var fs := Touch(opts, s, 0, |s.flags|).flags;
    CountExtremes(Loaded, c.flags);
    CountExtremes(Loaded, fs);
    CountExtremes(Charged, fs);
    forall i | 0 <= i < |fs| ensures Is(Loaded, fs[i]) && Is(Charged, fs[i]) { assert Sound(c.flags[i]); }
  }

  /** A write fault on a clean resident page adds one dirty page and no charge. */
  method DirtyEntry(ate: Allocation, opts: Options, ip: nat)
    requires ate.Valid() && ip < ate.flags.Length && !ate.flags[ip].dirty && !ate.flags[ip].rsdnt
    modifies ate`l_pages, ate`c_pages, ate`d_pages, ate`io, ate.flags, ate.prot, ate.mem
    ensures ate.Valid() && ate.View() == Fault(opts, old(ate.View()), ip)
    ensures ate.d_pages == old(ate.d_pages) + 1 && ate.c_pages == old(ate.c_pages) && ate.l_pages > 0
    ensures !Aggressive(opts) && InStep(old(ate.flags[..])) ==> InStep(ate.flags[..])
  {
    hide Count, Good, Fault;
    ate.GoodSized();
    ghost var s := ate.View();
    ate.FaultAt(opts, ip);
    DirtyCounts(opts, s, ip);
    if InStep(s.flags) { OperationsKeepStep(opts, s, ip, ip, ip, ate.pageSize); }
  }

  lemma DirtyCounts(opts: Options, s: State, ip: nat)
    requires Within(s, ip, ip + 1) && Sound(s.flags[ip]) && !s.flags[ip].rsdnt && !s.flags[ip].dirty
    ensures var fs := Fault(opts, s, ip).flags;
      && |fs| == |s.flags|
      && Count(Charged, fs) == Count(Charged, s.flags) && Count(Dirtied, fs) == Count(Dirtied, s.flags) + 1
      && Count(Loaded, fs) > 0
  {
    var fs := Fault(opts, s, ip).flags;
    CountExtremes(Loaded, fs);
    assert Is(Loaded, fs[ip]);
    CountUpdate(Charged, s.flags, ip, Flags(false, false, true, false));
    CountUpdate(Dirtied, s.flags, ip, Flags(false, false, true, false));
  }

  lemma RangeCount(fs: seq<Flags>, beg: nat, end: nat)
    requires beg <= end <= |fs|
    ensures forall k :: Count(k, fs[beg..end]) <= Count(k, fs)
  {
    forall k ensures Count(k, fs[beg..end]) <= Count(k, fs) { CountSplit(k, fs, beg, end); }
  }

  lemma EvictNothing(s: State, beg: nat, end: nat, pageSize: nat)
    requires Within(s, beg, end)
    ensures Count(Loaded, s.flags) == 0 ==> SwapOut(s, beg, end, pageSize) == s
  {
  }

  lemma DivExact(q: nat, d: nat)
    requires 0 < d
    ensures q * d / d == q
  {
    DivBounds(q * d, d, q);
    DivBounds(q * d, d, q + 1);
    assert (q + 1) * d == q * d + d;
  }

  class Vmm {
    const opts: Options
    const metach: bool
    const pageSize: nat
    const sysPage: nat
    /** Pages taken by one allocation table entry. */
    const sPages: nat
    var table: seq<Allocation>
    var cMem: nat
    var dMem: nat

    /** A process without allocations. */
    constructor (opts: Options, metach: bool, pageSize: nat, sysPage: nat, sPages: nat)
      requires 0 < sysPage && 0 < pageSize && pageSize % sysPage == 0
      ensures Valid() && Accounted() && Evictable() && table == [] && cMem == dMem == 0
      ensures this.opts == opts && this.metach == metach && this.pageSize == pageSize && this.sysPage == sysPage
      ensures this.sPages == sPages
    {
      this.opts, this.metach, this.pageSize, this.sysPage, this.sPages := opts, metach, pageSize, sysPage, sPages;
      table, cMem, dMem, footprint, cs, ds := [], 0, 0, {}, [], [];
    }

    ghost predicate Sane() { 0 < sysPage && 0 < pageSize && pageSize % sysPage == 0 }

    function ToSys(n: nat): nat requires 0 < sysPage { n * pageSize / sysPage }

    /** Pages for the entry and the flags of an allocation of `n` pages, when those are charged. */
    function Meta(n: nat): nat
      requires 0 < pageSize
    {
      if metach then sPages + (1 + (if n == 0 then 0 else n - 1) / pageSize) else 0
    }

    /** The meta pages are those of the entry and as many as its status array, of one byte per page, fills. */
    lemma MetaExactly(n: nat)
      requires 0 < pageSize && 0 < n
      ensures !metach ==> Meta(n) == 0
      ensures metach ==> (Meta(n) - sPages - 1) * pageSize < n <= (Meta(n) - sPages) * pageSize
    {
      if metach {
        var q := (n - 1) / pageSize;
        DivBounds(n - 1, pageSize, q);
        DivBounds(n - 1, pageSize, q + 1);
      }
    }

    /** System pages: the same bytes. */
    lemma ToSysExactly(n: nat)
      requires Sane()
      ensures ToSys(n) * sysPage == n * pageSize
    {
      var k := pageSize / sysPage;
      assert pageSize == k * sysPage;
      assert n * pageSize == n * k * sysPage;
      DivExact(n * k, sysPage);
    }

    /** Everything the entries of the table are made of. */
    ghost var footprint: set<object>

    /** Charge (with meta pages, when those are charged) and dirty pages of every entry of the table. */
    ghost var cs: seq<nat>
    ghost var ds: seq<nat>

    /** Allocation `a` is in order, with charge `c` (meta pages included) and `d` dirty pages. */
    ghost predicate InOrder(a: Allocation, c: nat, d: nat)
      requires 0 < pageSize
      reads a, a.Repr()
    {
      && a.Valid() && a.pageSize == pageSize
      && c == a.c_pages + Meta(a.flags.Length) && d == a.d_pages
      && (Aggressive(opts) || InStep(a.flags[..]))
    }

    lemma OrderOf(a: Allocation)
      requires 0 < pageSize && a.Valid() && a.pageSize == pageSize && (Aggressive(opts) || InStep(a.flags[..]))
      ensures InOrder(a, a.c_pages + Meta(a.flags.Length), a.d_pages)
    {
      hide Allocation.Valid, Meta;
    }

    lemma OrderSays(a: Allocation, c: nat, d: nat)
      requires 0 < pageSize && InOrder(a, c, d)
      ensures a.Valid() && a.pageSize == pageSize && (Aggressive(opts) || InStep(a.flags[..]))
      ensures c == a.c_pages + Meta(a.flags.Length) && d == a.d_pages
    {
      hide Allocation.Valid, Meta;
    }

    ghost predicate Entry(i: nat)
      requires i < |table| && |cs| == |ds| == |table| && 0 < pageSize
      reads `table, `cs, `ds, table, table[i].Repr()
    {
      InOrder(table[i], cs[i], ds[i])
    }

    ghost predicate Valid()
      reads `table, `cs, `ds, `footprint, footprint
    {
      && Sane() && |cs| == |ds| == |table| && this !in footprint
      && (forall i {:trigger table[i]} :: 0 <= i < |table| ==> table[i] in footprint && table[i].Repr() <= footprint)
      && (forall i {:trigger table[i]} :: 0 <= i < |table| ==> Entry(i))
      && (forall i, j :: 0 <= i < j < |table| ==> table[i].Repr() !! table[j].Repr())
    }

    /** The totals equal the sums over the table. */
    ghost predicate Accounted()
      requires Sane()
      reads this
    {
      cMem == ToSys(Sum(cs)) && dMem == ToSys(Sum(ds))
    }

    /** Every entry that is charged has a resident page, so that evicting it whole releases it whole. */
    ghost predicate Evictable() reads `table, table {
      forall i :: 0 <= i < |table| ==> table[i].l_pages > 0 || table[i].c_pages == 0
    }

    /** Without aggressive charging this is always so. */
    lemma AlwaysEvictable()
      requires Valid() && !Aggressive(opts)
      ensures Evictable()
    {
      hide Meta, Count, Good;
      forall i | 0 <= i < |table| ensures table[i].l_pages > 0 || table[i].c_pages == 0 {
        assert Entry(i);
        InStepReleases(table[i].flags[..]);
      }
    }

    lemma ToSysAdd(a: nat, b: nat)
      requires Sane()
      ensures ToSys(a + b) == ToSys(a) + ToSys(b)
    {
      ScaledSum(a, b, pageSize, sysPage);
    }

    /** One entry of a sum grows from `x` to `x + up`, or shrinks to `x - down`. */
    lemma Shift(xs: seq<nat>, k: nat, up: nat, down: nat)
      requires Sane() && k < |xs| && down <= xs[k]
      ensures ToSys(Sum(xs[k := xs[k] + up])) == ToSys(Sum(xs)) + ToSys(up)
      ensures ToSys(Sum(xs[k := xs[k] - down])) == ToSys(Sum(xs)) - ToSys(down)
    {
      SumUpdate(xs, k, xs[k] + up);
      SumUpdate(xs, k, xs[k] - down);
      SumAtLeast(xs, k);
      ToSysAdd(Sum(xs), up);
      ToSysAdd(Sum(xs) - down, down);
    }

    /** Changing one entry, and nothing outside its footprint, leaves the others as they were. */
    twostate lemma OnlyEntry(k: nat)
      requires old(Valid()) && table == old(table) && footprint == old(footprint)
      requires k < |table| && |cs| == |ds| == |table|
      requires forall i :: 0 <= i < |table| && i != k ==> unchanged(old(table[i].Repr()))
      requires forall i :: 0 <= i < |table| && i != k ==> cs[i] == old(cs[i]) && ds[i] == old(ds[i])
      requires table[k].Repr() == old(table[k].Repr()) && Entry(k)
      ensures Valid()
    {
      hide Allocation.Valid, Meta;
      forall i | 0 <= i < |table| ensures Entry(i) { assert old(Entry(i)); }
    }

    /** Touch a range of one allocation: the pool is charged, then the pages come in. */
    method Touch(k: nat, beg: nat, end: nat) returns (c: nat)
      requires Valid() && Accounted() && k < |table| && beg <= end <= table[k].flags.Length
      modifies `cMem, `cs, table[k].Repr()
      ensures Valid() && Accounted()
      ensures table[k].View() == PageTable.Touch(opts, old(table[k].View()), beg, end)
      ensures c == TouchProbe(opts, old(table[k].flags[..]), beg, end) && cMem == old(cMem) + ToSys(c)
      ensures old(Evictable()) && beg < end ==> Evictable()
    {
      hide Allocation.Valid, Meta, ToSys, Sum, TouchProbe, PageTable.Touch;
      assert Entry(k);
      c := TouchEntry(table[k], opts, beg, end);
      cMem := cMem + ToSys(c);
      Shift(cs, k, c, 0);
      cs := cs[k := cs[k] + c];
      OnlyEntry(k);
    }

    /** Evict a range of one allocation; the books are settled later. */
    method EvictRange(k: nat, beg: nat, end: nat) returns (c: nat, d: nat)
      requires Valid() && k < |table| && beg <= end <= table[k].flags.Length
      modifies `cs, `ds, table[k].Repr()
      ensures Valid() && table[k].View() == SwapOut(old(table[k].View()), beg, end, pageSize)
      ensures c == Count(Charged, old(table[k].flags[..])[beg..end]) <= old(table[k].c_pages)
      ensures ToSys(c) <= ToSys(Sum(old(cs))) && ToSys(Sum(ds)) == ToSys(Sum(old(ds))) - ToSys(d)
      ensures ToSys(Sum(cs)) == ToSys(Sum(old(cs))) - (if old(table[k].l_pages) > 0 then ToSys(c) else 0)
      ensures old(Evictable()) && beg == 0 && end == old(table[k].flags.Length) ==> Evictable()
    {
      hide Allocation.Valid, Count, Meta, ToSys, Sum, SwapOut, InStep;
      assert Entry(k);
      ghost var l, xs := table[k].l_pages, cs;
      c, d := EvictEntry(table[k], beg, end);
      Shift(cs, k, 0, c);
      Shift(ds, k, 0, d);
      cs := cs[k := cs[k] - (if l > 0 then c else 0)];
      ds := ds[k := ds[k] - d];
      OnlyEntry(k);
      assert l == 0 ==> cs == xs;
    }

    /** Evict a range of one allocation.  The books stay right exactly when some page was resident or the probe
        found nothing charged: always without aggressive charging, and always while every charged entry has a
        resident page, which evicting whole allocations keeps. */
    method Evict(k: nat, beg: nat, end: nat) returns (c: nat)
      requires Valid() && Accounted() && k < |table| && beg <= end <= table[k].flags.Length
      modifies `cMem, `dMem, `cs, `ds, table[k].Repr()
      ensures Valid() && dMem == ToSys(Sum(ds))
      ensures table[k].View() == SwapOut(old(table[k].View()), beg, end, pageSize)
      ensures c == Count(Charged, old(table[k].flags[..])[beg..end])
      ensures Accounted() <==> old(table[k].l_pages) > 0 || c == 0
      ensures !Aggressive(opts) || old(Evictable()) ==> Accounted()
      ensures old(Evictable()) && (!Aggressive(opts) || (beg == 0 && end == old(table[k].flags.Length))) ==> Evictable()
    {
      hide Entry, Valid, Count, ToSys, Sum, SwapOut;
      SaneNow();
      if !Aggressive(opts) { AlwaysEvictable(); }
      var d;
      c, d := EvictRange(k, beg, end);
      Release(c, d);
      ToSysPositive(c);
      if !Aggressive(opts) { AlwaysEvictable(); }
    }

    lemma ToSysPositive(n: nat)
      requires Sane()
      ensures ToSys(n) == 0 <==> n == 0
    {
      Scaled(pageSize / sysPage, 0, sysPage);
      if 0 < n {
        ToSysAdd(n - 1, 1);
        assert pageSize == sysPage * (pageSize / sysPage);
      }
    }

    /** Clear a range of one allocation. */
    method Clear(k: nat, beg: nat, end: nat)
      requires Valid() && Accounted() && k < |table| && end <= table[k].flags.Length
      modifies `dMem, `ds, table[k].Repr()
      ensures Valid() && Accounted()
      ensures table[k].View() == if beg <= end then SwapClear(old(table[k].View()), beg, end) else old(table[k].View())
      ensures old(Evictable()) ==> Evictable()
    {
      hide Allocation.Valid, Meta, ToSys, Sum, SwapClear;
      if beg > end { return; }
      assert Entry(k);
      var d := ClearEntry(table[k], beg, end);
      Shift(ds, k, 0, d);
      ds := ds[k := ds[k] - d];
      dMem := dMem - ToSys(d);
      OnlyEntry(k);
    }

    /** Deliver SIGSEGV for a page of one allocation: a touch, or one more dirty page. */
    method Segv(k: nat, ip: nat)
      requires Valid() && Accounted() && k < |table| && ip < table[k].flags.Length && !table[k].flags[ip].dirty
      modifies `cMem, `dMem, `cs, `ds, table[k].Repr()
      ensures Valid() && Accounted()
      ensures table[k].View() == Fault(opts, old(table[k].View()), ip)
      ensures old(Evictable()) ==> Evictable()
    {
      hide Count, Good, Meta, ToSys, Sum;
      assert Entry(k);
      table[k].GoodSized();
      if table[k].flags[ip].rsdnt {
        if opts.lzyrd {
          var c := Touch(k, ip, ip + 1);
        } else {
          var c := Touch(k, 0, table[k].flags.Length);
        }
      } else {
        MarkDirty(k, ip);
      }
    }

    method MarkDirty(k: nat, ip: nat)
      requires Valid() && Accounted() && k < |table| && ip < table[k].flags.Length
      requires !table[k].flags[ip].dirty && !table[k].flags[ip].rsdnt
      modifies `dMem, `ds, table[k].Repr()
      ensures Valid() && Accounted()
      ensures table[k].View() == Fault(opts, old(table[k].View()), ip)
      ensures old(Evictable()) ==> Evictable()
    {
      hide Allocation.Valid, Meta, ToSys, Sum, Fault;
      assert Entry(k);
      DirtyEntry(table[k], opts, ip);
      Shift(ds, k, 1, 0);
      ds := ds[k := ds[k] + 1];
      dMem := dMem + ToSys(1);
      OnlyEntry(k);
    }

    /** Nothing the table reaches has changed. */
    twostate lemma StillValid()
      requires old(Valid()) && table == old(table) && cs == old(cs) && ds == old(ds) && footprint == old(footprint)
      requires forall i :: 0 <= i < |table| ==> unchanged(old(table[i].Repr()))
      ensures Valid()
    {
      hide Allocation.Valid, Meta;
      forall i | 0 <= i < |table| ensures Entry(i) { assert old(Entry(i)) && table[i] == old(table[i]); }
    }

    /** `ipc_madmit` as the process sees it: its charge grows. */
    method Admit(up: nat)
      requires Valid()
      modifies `cMem
      ensures Valid() && cMem == old(cMem) + ToSys(up)
    {
      hide Entry, ToSys;
      cMem := cMem + ToSys(up);
      StillValid();
    }

    /** `ipc_mevict` as the process sees it: its charge and its dirty total shrink. */
    method Release(c: nat, d: nat)
      requires Valid() && ToSys(c) <= cMem && ToSys(d) <= dMem
      modifies `cMem, `dMem
      ensures Valid() && cMem == old(cMem) - ToSys(c) && dMem == old(dMem) - ToSys(d)
    {
      hide Entry, ToSys;
      cMem := cMem - ToSys(c);
      dMem := dMem - ToSys(d);
      StillValid();
    }

    /** Link a valid entry that shares nothing with the table at its head. */
    method Attach(a: Allocation)
      requires Valid() && a.Valid() && a.pageSize == pageSize
      requires Aggressive(opts) || InStep(a.flags[..])
      requires forall j :: 0 <= j < |table| ==> a.Repr() !! table[j].Repr()
      modifies `table, `cs, `ds, `footprint
      ensures Valid() && table == [a] + old(table)
      ensures old(Evictable()) && (a.l_pages > 0 || a.c_pages == 0) ==> Evictable()
      ensures ToSys(Sum(cs)) == ToSys(Sum(old(cs))) + ToSys(a.c_pages + Meta(a.flags.Length))
      ensures ToSys(Sum(ds)) == ToSys(Sum(old(ds))) + ToSys(a.d_pages)
    {
      hide Valid, InOrder, Allocation.Valid, ToSys, Sum, Meta;
      SaneNow();
      OrderOf(a);
      ghost var c, d := a.c_pages + Meta(a.flags.Length), a.d_pages;
      Prepended(c, cs);
      Prepended(d, ds);
      LinkFirst(a, c, d);
    }

    method LinkFirst(a: Allocation, ghost c: nat, ghost d: nat)
      requires Valid() && InOrder(a, c, d)
      requires forall j :: 0 <= j < |table| ==> a.Repr() !! table[j].Repr()
      modifies `table, `cs, `ds, `footprint
      ensures Valid() && table == [a] + old(table) && cs == [c] + old(cs) && ds == [d] + old(ds)
    {
      hide InOrder, Meta;
      table, cs, ds, footprint := [a] + table, [c] + cs, [d] + ds, footprint + a.Repr();
      assert InOrder(a, c, d) && Entry(0);
      forall i | 0 < i < |table| ensures Entry(i) {
        assert table[i] == old(table[i - 1]) && old(Entry(i - 1));
      }
    }

    lemma Prepended(x: nat, xs: seq<nat>)
      requires Sane()
      ensures ToSys(Sum([x] + xs)) == ToSys(Sum(xs)) + ToSys(x)
    {
      hide ToSys;
      SumConcat([x], xs);
      ToSysAdd(x, Sum(xs));
    }

    /** Unlink an entry from the table. */
    method Detach(k: nat) returns (a: Allocation)
      requires Valid() && k < |table|
      modifies `table, `cs, `ds, `footprint
      ensures Valid() && a == old(table[k]) && table == old(table[..k] + table[k + 1..])
      ensures a.Valid() && a.pageSize == pageSize && (Aggressive(opts) || InStep(a.flags[..]))
      ensures old(Evictable()) ==> Evictable() && (a.l_pages > 0 || a.c_pages == 0)
      ensures forall j :: 0 <= j < |table| ==> a.Repr() !! table[j].Repr()
      ensures ToSys(Sum(cs)) == ToSys(Sum(old(cs))) - ToSys(a.c_pages + Meta(a.flags.Length))
      ensures ToSys(Sum(ds)) == ToSys(Sum(old(ds))) - ToSys(a.d_pages)
    {
      hide InOrder, Allocation.Valid, ToSys, Sum, Meta;
      assert Entry(k);
      a := table[k];
      OrderSays(a, cs[k], ds[k]);
      SumUpdate(cs, k, 0);
      SumUpdate(ds, k, 0);
      SumAtLeast(cs, k);
      SumAtLeast(ds, k);
      ToSysAdd(Sum(cs) - cs[k], cs[k]);
      ToSysAdd(Sum(ds) - ds[k], ds[k]);
      table, cs, ds := table[..k] + table[k + 1..], cs[..k] + cs[k + 1..], ds[..k] + ds[k + 1..];
      forall i | 0 <= i < |table| ensures Entry(i) {
        assert old(Entry(if i < k then i else i + 1));
      }
    }

    /** `sbma_malloc`: charge the pool, set up the entry and put it at the head of the table. */
    method Malloc(n: nat) returns (a: Allocation)
      requires Valid() && Accounted() && 0 < n
      modifies this
      ensures Valid() && Accounted() && table == [a] + old(table)
      ensures fresh(a.Repr()) && a.View() == Fresh(opts, n, pageSize, a.disk[..])
      ensures cMem == old(cMem) + ToSys(Meta(n) + (if opts.rsdnt then n else 0)) && dMem == old(dMem)
      ensures old(Evictable()) ==> Evictable()
    {
      hide Allocation.Valid, ToSys, Sum, Meta, Fresh, InStep;
      Admit(Meta(n) + (if opts.rsdnt then n else 0));
      label admitted:
      a := new Allocation(opts, n, pageSize);
      StillValid@admitted();
      FreshInStep(opts, n, pageSize, a.disk[..]);
      Attach(a);
      ToSysZero();
    }

    lemma ToSysZero()
      requires Sane()
      ensures ToSys(0) == 0
    {
    }

    /** `sbma_free`: take the entry out of the table and give its charge back. */
    method Free(k: nat)
      requires Valid() && Accounted() && k < |table|
      modifies `table, `cs, `ds, `footprint, `cMem, `dMem
      ensures Valid() && Accounted() && table == old(table[..k] + table[k + 1..])
      ensures cMem == old(cMem - ToSys(table[k].c_pages + Meta(table[k].flags.Length)))
      ensures dMem == old(dMem - ToSys(table[k].d_pages))
      ensures old(Evictable()) ==> Evictable()
    {
      hide Allocation.Valid, ToSys, Sum, Meta;
      var a := Detach(k);
      Release(a.c_pages + Meta(a.flags.Length), a.d_pages);
    }

    /** Growth by `sbma_realloc`: the pool is charged the difference, the entry moves to the head. */
    method Grow(k: nat, stale: seq<Page>)
      requires Valid() && Accounted() && k < |table| && stale != [] && AllSized(stale, pageSize)
      modifies `table, `cs, `ds, `footprint, `cMem, table[k]
      ensures Valid() && Accounted() && table == [old(table[k])] + old(table[..k] + table[k + 1..])
      ensures table[0].View() == Grown(opts, old(table[k].View()), stale)
      ensures Meta(old(table[k].flags.Length)) <= Meta(old(table[k].flags.Length) + |stale|)
      ensures var on := old(table[k].flags.Length);
        cMem == old(cMem) + ToSys(Meta(on + |stale|) - Meta(on) + (if opts.rsdnt then |stale| else 0))
      ensures old(Evictable()) ==> Evictable()
    {
      hide Allocation.Valid, ToSys, Sum, Meta, Grown, Valid, InStep;
      var on, c0 := table[k].flags.Length, table[k].c_pages;
      SaneNow();
      MetaGrows(on, on + |stale|);
      var up := Meta(on + |stale|) - Meta(on) + (if opts.rsdnt then |stale| else 0);
      Admit(up);
      var a := Detach(k);
      Reattach(a, stale);
      ToSysAdd(c0 + Meta(on), up);
    }

    lemma SaneNow()
      requires Valid()
      ensures Sane()
    {
    }

    /** Extend an unlinked entry and link it again. */
    method Reattach(a: Allocation, stale: seq<Page>)
      requires Valid() && a.Valid() && a.pageSize == pageSize && AllSized(stale, pageSize)
      requires Aggressive(opts) || InStep(a.flags[..])
      requires forall j :: 0 <= j < |table| ==> a.Repr() !! table[j].Repr()
      modifies `table, `cs, `ds, `footprint, a
      ensures Valid() && table == [a] + old(table) && a.View() == Grown(opts, old(a.View()), stale)
      ensures ToSys(Sum(cs)) == ToSys(Sum(old(cs)))
        + ToSys(old(a.c_pages) + (if opts.rsdnt then |stale| else 0) + Meta(old(a.flags.Length) + |stale|))
      ensures ToSys(Sum(ds)) == ToSys(Sum(old(ds))) + ToSys(old(a.d_pages))
      ensures old(Evictable() && (a.l_pages > 0 || a.c_pages == 0)) ==> Evictable()
    {
      hide ToSys, Sum, Meta, Grown, Count, Good, InStep;
      a.GoodSized();
      if InStep(a.flags[..]) { GrownInStep(opts, a.View(), stale); }
      a.GrowTo(opts, stale);
      StillValid();
      Attach(a);
    }

    /** Entry `i`, which was in state `was`, after it has been evicted whole and nothing of it is left. */
    ghost predicate Evicted(was: State, i: nat)
      requires i < |table|
      reads `table, table, table[i].Repr()
    {
      && table[i].l_pages == 0 && table[i].d_pages == 0 && table[i].c_pages == 0
      && Dropped(was, table[i].View(), pageSize)
    }

    /** Evict one whole entry; the books are settled later.  The three assertions that nothing is left hold exactly
        when nothing was stuck. */
    method EvictOne(i: nat) returns (ok: bool, c: nat, d: nat)
      requires Valid() && i < |table|
      modifies `cs, `ds, table[i].Repr()
      ensures Valid() && table[i].Repr() == old(table[i].Repr()) && (ok <==> Stuck(old(table[i].flags[..])) == 0)
      ensures ok ==> Evicted(old(table[i].View()), i) && ToSys(Sum(cs)) == ToSys(Sum(old(cs))) - ToSys(c)
      ensures ok ==> ToSys(Sum(ds)) == ToSys(Sum(old(ds))) - ToSys(d)
    {
      hide Allocation.Valid, Meta, ToSys, Sum, Dropped, Stuck, InStep;
      assert Entry(i);
      ghost var left := Stuck(table[i].flags[..]);
      c, d := EvictWholeEntry(table[i]);
      ok := table[i].l_pages == 0 && table[i].c_pages == 0 && table[i].d_pages == 0;
      Shift(cs, i, 0, c - left);
      Shift(ds, i, 0, d);
      cs := cs[i := cs[i] - (c - left)];
      ds := ds[i := ds[i] - d];
      OnlyEntry(i);
    }

    /** The first `n` entries are evicted, the others are as they were. */
    ghost predicate Swept(was: seq<State>, n: nat)
      requires n <= |table|
      reads `table, `cs, `ds, `footprint, footprint
    {
      && |was| == |table| && Valid()
      && (forall j :: 0 <= j < n ==> Evicted(was[j], j))
      && (forall j :: n <= j < |table| ==> table[j].View() == was[j])
    }

    /** The totals against the table while `c` and `d` are still to be given back. */
    ghost predicate Settling(c: nat, d: nat)
      requires Sane()
      reads `cMem, `dMem, `cs, `ds
    {
      cMem == ToSys(Sum(cs)) + ToSys(c) && dMem == ToSys(Sum(ds)) + ToSys(d)
    }

    method SweepOne(ghost was: seq<State>, i: nat, c0: nat, d0: nat) returns (ok: bool, c: nat, d: nat)
      requires i < |table| && Swept(was, i) && Settling(c0, d0)
      modifies `cs, `ds, table[i].Repr()
      ensures ok <==> Stuck(was[i].flags) == 0
      ensures ok ==> Swept(was, i + 1) && Settling(c, d)
    {
      hide Allocation.Valid, Meta, ToSys, Sum, Dropped, Entry, Stuck;
      assert table[i].View() == was[i];
      ok, c, d := EvictOne(i);
      forall j | 0 <= j < |table| && j != i ensures table[j].View() == old(table[j].View()) {
        assert unchanged(old(table[j].Repr()));
      }
      ToSysAdd(c0, c);
      ToSysAdd(d0, d);
      c, d := c0 + c, d0 + d;
    }

    lemma NothingSwept(was: seq<State>)
      requires Valid() && was == Views(|table|)
      ensures Swept(was, 0) && Sane() && |was| == |table| && this !in footprint
    {
      hide Entry;
    }

    lemma SweptSize(was: seq<State>, n: nat)
      requires n <= |table| && Swept(was, n)
      ensures |was| == |table| && Valid() && Sane() && this !in footprint
      ensures n < |table| ==> table[n].Repr() <= footprint
    {
      hide Entry;
    }

    /** `sbma_mevictall_int`: evict every allocation and report what it was charged.  An assertion stops it at the
        first entry that is still charged afterwards, so it returns if and only if every charged entry has a resident
        page. */
    method EvictAll() returns (ok: bool, c: nat, d: nat)
      requires Valid() && Accounted()
      modifies `cs, `ds, footprint
      ensures ok <==> old(Evictable())
      ensures ok ==> Swept(old(Views(|table|)), |table|) && Sane() && Settling(c, d)
    {
      hide Valid, Swept, Settling, ToSys, Sum, Stuck, Evictable;
      ghost var was := Views(|table|);
      EvictableViews(was);
      NothingSwept(was);
      NothingSettled();
      ok, c, d := SweepAll(was);
    }

    method SweepAll(ghost was: seq<State>) returns (ok: bool, c: nat, d: nat)
      requires Swept(was, 0) && Sane() && Settling(0, 0)
      modifies `cs, `ds, footprint
      ensures ok <==> forall j :: 0 <= j < |was| ==> Stuck(was[j].flags) == 0
      ensures ok ==> Swept(was, |table|) && Settling(c, d)
    {
      hide Valid, Swept, Settling, ToSys, Sum, Stuck;
      SweptSize(was, 0);
      ok, c, d := true, 0, 0;
      var i := 0;
      while i < |table|
        invariant table == old(table) && footprint == old(footprint) && i <= |table| == |was|
        invariant Swept(was, i) && Settling(c, d) && ok
        invariant forall j :: 0 <= j < i ==> Stuck(was[j].flags) == 0
      {
        SweptSize(was, i);
        ok, c, d := SweepOne(was, i, c, d);
        if !ok { return; }
        i := i + 1;
      }
    }

    lemma NothingSettled()
      requires Sane() && Accounted()
      ensures Settling(0, 0)
    {
      hide Sum;
      ToSysZero();
    }

    /** Nothing is stuck exactly when every charged entry has a resident page. */
    lemma EvictableViews(was: seq<State>)
      requires Valid() && was == Views(|table|)
      ensures |was| == |table| && (Evictable() <==> forall i :: 0 <= i < |was| ==> Stuck(was[i].flags) == 0)
    {
      hide Meta, Good, Count;
      forall i | 0 <= i < |table|
        ensures table[i].l_pages > 0 || table[i].c_pages == 0 <==> Stuck(was[i].flags) == 0
      {
        assert Entry(i) && was[i] == table[i].View();
      }
    }

    /** What touching the first `n` entries whole will charge. */
    ghost function Needs(was: seq<State>, n: nat): nat
      requires n <= |was|
    {
      if n == 0 then 0 else Needs(was, n - 1) + TouchProbe(opts, was[n - 1].flags, 0, |was[n - 1].flags|)
    }

    /** The first `n` entries are wholly in memory, the others are as they were. */
    ghost predicate Loading(was: seq<State>, n: nat)
      requires n <= |table|
      reads `table, `cs, `ds, `footprint, footprint
    {
      && |was| == |table| && Valid()
      && (forall j :: 0 <= j < n ==> Filled(j) && Brought(opts, was[j], table[j].View()))
      && (forall j :: n <= j < |table| ==> table[j].View() == was[j])
    }

    ghost predicate Filled(i: nat)
      requires i < |table|
      reads `table, table
    {
      table[i].l_pages == table[i].flags.Length && table[i].c_pages == table[i].flags.Length
    }

    /** `sbma_mtouchall`: probe everything, admit the total once, then bring everything in. */
    method TouchAll() returns (c: nat)
      requires Valid() && Accounted()
      modifies `cs, `cMem, footprint
      ensures Loading(old(Views(|table|)), |table|) && Accounted() && Evictable()
      ensures c == Needs(old(Views(|table|)), |table|) && cMem == old(cMem) + ToSys(c)
    {
      hide ToSys, Sum, Loading, Needs, Valid;
      ghost var was := Views(|table|);
      NothingLoaded(was);
      SaneNow();
      c := ProbeAll(was);
      LoadingSize(was, 0);
      AdmitFor(was, c);
      LoadAll(was);
      AllLoaded(was);
    }

    lemma NothingLoaded(was: seq<State>)
      requires Valid() && was == Views(|table|)
      ensures Loading(was, 0)
    {
      hide Entry;
    }

    lemma AllLoaded(was: seq<State>)
      requires Loading(was, |table|)
      ensures Evictable()
    {
      hide Entry, Brought;
      forall i | 0 <= i < |table| ensures table[i].l_pages > 0 || table[i].c_pages == 0 { assert Filled(i); }
    }

    lemma LoadingSize(was: seq<State>, n: nat)
      requires n <= |table| && Loading(was, n)
      ensures |was| == |table| && Valid() && Sane() && this !in footprint
      ensures n < |table| ==> table[n].Repr() <= footprint
    {
    }

    method AdmitFor(ghost was: seq<State>, c: nat)
      requires Loading(was, 0)
      modifies `cMem
      ensures Loading(was, 0) && cMem == old(cMem) + ToSys(c)
    {
      hide ToSys, Entry;
      Admit(c);
      forall j | 0 <= j < |table| ensures table[j].View() == was[j] {
        assert unchanged(old(table[j].Repr()));
      }
    }

    method LoadAll(ghost was: seq<State>)
      requires Loading(was, 0)
      modifies `cs, footprint
      ensures Loading(was, |table|)
      ensures ToSys(Sum(cs)) == ToSys(Sum(old(cs))) + ToSys(Needs(was, |was|))
    {
      hide Loading, Valid, ToSys, Sum, TouchProbe;
      LoadingSize(was, 0);
      ToSysZero();
      var i := 0;
      while i < |table|
        invariant table == old(table) && footprint == old(footprint)
        invariant i <= |table| && Loading(was, i)
        invariant ToSys(Sum(cs)) == ToSys(Sum(old(cs))) + ToSys(Needs(was, i))
      {
        LoadingSize(was, i);
        LoadOne(was, i);
        i := i + 1;
      }
    }

    lemma AsItWas(was: seq<State>, i: nat)
      requires Loading(was, 0) && i < |table|
      ensures i < |was| && table[i].Valid() && table[i].View() == was[i]
    {
      assert Entry(i);
    }

    method ProbeAll(ghost was: seq<State>) returns (c: nat)
      requires Loading(was, 0)
      ensures c == Needs(was, |was|)
    {
      hide TouchProbe, Meta, Loading, Allocation.Valid;
      LoadingSize(was, 0);
      c := 0;
      var i := 0;
      while i < |table|
        invariant i <= |table| == |was| && c == Needs(was, i)
      {
        AsItWas(was, i);
        var c1 := MTouchProbe(table[i], opts, 0, table[i].flags.Length);
        c := c + c1;
        i := i + 1;
      }
    }

    method LoadOne(ghost was: seq<State>, i: nat)
      requires i < |table| && Loading(was, i)
      modifies `cs, table[i].Repr()
      ensures Loading(was, i + 1)
      ensures ToSys(Sum(cs)) - ToSys(Needs(was, i + 1)) == ToSys(Sum(old(cs))) - ToSys(Needs(was, i))
    {
      hide Allocation.Valid, Meta, ToSys, Sum, Brought, Entry, TouchProbe;
      ghost var need := TouchProbe(opts, was[i].flags, 0, |was[i].flags|);
      assert table[i].View() == was[i];
      TouchWholeOne(i, need);
      ToSysAdd(Needs(was, i), need);
      forall j | 0 <= j < |table| && j != i ensures table[j].View() == old(table[j].View()) {
        assert unchanged(old(table[j].Repr()));
      }
    }

    /** Bring in one whole entry whose probe is `need`; the pool has been charged already. */
    method TouchWholeOne(i: nat, ghost need: nat)
      requires Valid() && i < |table| && need == TouchProbe(opts, table[i].View().flags, 0, |table[i].View().flags|)
      modifies `cs, table[i].Repr()
      ensures Valid() && Filled(i) && Brought(opts, old(table[i].View()), table[i].View())
      ensures ToSys(Sum(cs)) == ToSys(Sum(old(cs))) + ToSys(need)
    {
      hide Allocation.Valid, Meta, ToSys, Sum, Brought, TouchProbe;
      assert Entry(i);
      TouchWholeEntry(table[i], opts);
      Shift(cs, i, need, 0);
      cs := cs[i := cs[i] + need];
      OnlyEntry(i);
    }

    /** The ghost summaries name the counters of the entries, whatever those counters hold. */
    ghost predicate Tied()
      reads `table, `cs, `ds, table
    {
      && Sane() && |cs| == |ds| == |table|
      && (forall i :: 0 <= i < |table| ==>
            cs[i] == table[i].c_pages + Meta(table[i].flags.Length) && ds[i] == table[i].d_pages)
    }

    /** `sbma_mcheck` decides exactly the consistency the other calls are proved to keep: the totals equal the
        sums over the table and, if `extra` is set, every entry's counters equal its flag counts.  Without
        `check` it accepts everything. */
    method Check(check: bool, extra: bool) returns (ok: bool)
      requires Tied()
      ensures ok <==> check ==> (extra ==> forall i :: 0 <= i < |table| ==> table[i].Counted()) && Accounted()
    {
      hide Count, Meta, ToSys, Sum;
      if !check { return true; }
      var c, d := 0, 0;
      SumZero(cs[..0]);
      SumZero(ds[..0]);
      var i := 0;
      while i < |table|
        invariant i <= |table| && c == Sum(cs[..i]) && d == Sum(ds[..i])
        invariant extra ==> forall j :: 0 <= j < i ==> table[j].Counted()
      {
        c := c + (table[i].c_pages + Meta(table[i].flags.Length));
        d := d + table[i].d_pages;
        SumNext(cs, i);
        SumNext(ds, i);
        if extra {
          var l1, c1, d1 := CountFlags(table[i]);
          if l1 != table[i].l_pages || c1 != table[i].c_pages || d1 != table[i].d_pages { return false; }
        }
        i := i + 1;
      }
      assert cs[..i] == cs && ds[..i] == ds;
      ok := ToSys(c) == cMem && ToSys(d) == dMem;
    }

    static method CountFlags(ate: Allocation) returns (l: nat, c: nat, d: nat)
      ensures l == Count(Loaded, ate.flags[..]) && c == Count(Charged, ate.flags[..])
      ensures d == Count(Dirtied, ate.flags[..])
    {
      l, c, d := 0, 0, 0;
      ghost var fs := ate.flags[..];
      var i := 0;
      while i < ate.flags.Length
        invariant i <= ate.flags.Length
        invariant l == Count(Loaded, fs[..i]) && c == Count(Charged, fs[..i]) && d == Count(Dirtied, fs[..i])
      {
        assert fs[..i + 1][..i] == fs[..i];
        if !ate.flags[i].rsdnt { l := l + 1; }
        if !ate.flags[i].chrgd { c := c + 1; }
        if ate.flags[i].dirty { d := d + 1; }
        i := i + 1;
      }
      assert fs[..i] == fs;
    }

    ghost function Views(n: nat): (vs: seq<State>)
      requires Valid() && n <= |table|
      reads `table, `cs, `ds, `footprint, footprint
      ensures |vs| == n && forall i :: 0 <= i < n ==> vs[i] == table[i].View()
    {
      if n == 0 then [] else Views(n - 1) + [table[n - 1].View()]
    }

    /** `sbma_mevictall`: the same, and the pool gets the charge back.  It returns if and only if every charged entry
        has a resident page, which is always so without aggressive charging, and then the books are right and nothing
        at all stays loaded, charged or dirty. */
    method MEvictAll() returns (ok: bool)
      requires Valid() && Accounted()
      modifies `cMem, `dMem, `cs, `ds, footprint
      ensures (ok <==> old(Evictable())) && (!Aggressive(opts) ==> ok)
      ensures ok ==> Swept(old(Views(|table|)), |table|) && Accounted() && Evictable() && dMem == 0
      ensures ok ==> cMem == ToSys(MetaOf(|table|))
    {
      hide Valid, Swept, ToSys, Sum, Evicted, Evictable;
      ghost var was := Views(|table|);
      NothingSwept(was);
      if !Aggressive(opts) { AlwaysEvictable(); }
      var c, d;
      ok, c, d := EvictAll();
      if ok {
        SweptSize(was, |table|);
        ReleaseSwept(was, c, d);
      }
    }

    /** The meta pages of the first `n` entries. */
    ghost function MetaOf(n: nat): nat
      requires Sane() && n <= |table|
      reads `table, table
    {
      if n == 0 then 0 else MetaOf(n - 1) + Meta(table[n - 1].flags.Length)
    }

    lemma {:induction false} OnlyMetaLeft(was: seq<State>, n: nat)
      requires n <= |table| && Swept(was, |table|)
      ensures Sane() && |cs| == |table| && Sum(cs[..n]) == MetaOf(n)
    {
      hide Allocation.Valid, Meta, Dropped;
      if 0 < n {
        OnlyMetaLeft(was, n - 1);
        assert cs[..n][..n - 1] == cs[..n - 1] && cs[..n][n - 1] == cs[n - 1];
        assert Entry(n - 1) && Evicted(was[n - 1], n - 1);
      }
    }

    /** After everything has been evicted only meta pages are charged and nothing is dirty. */
    lemma SweptBooks(was: seq<State>)
      requires Swept(was, |table|)
      ensures Sane() && ToSys(Sum(ds)) == 0 && Sum(cs) == MetaOf(|table|) && Evictable()
    {
      hide Allocation.Valid, Meta, Dropped, ToSys;
      OnlyMetaLeft(was, |table|);
      assert cs[..|table|] == cs;
      forall i | 0 <= i < |ds| ensures ds[i] == 0 { assert Evicted(was[i], i) && Entry(i); }
      SumZero(ds);
      ToSysZero();
      forall i | 0 <= i < |table| ensures table[i].c_pages == 0 { assert Evicted(was[i], i); }
    }

    method ReleaseSwept(ghost was: seq<State>, c: nat, d: nat)
      requires Swept(was, |table|) && Sane() && Settling(c, d)
      modifies `cMem, `dMem
      ensures Swept(was, |table|) && Accounted() && Evictable() && dMem == 0 && cMem == ToSys(MetaOf(|table|))
    {
      hide ToSys, Sum, Entry, Dropped;
      SweptBooks(was);
      Release(c, d);
      forall j | 0 <= j < |table| ensures Evicted(was[j], j) {
        assert old(Evicted(was[j], j)) && unchanged(old(table[j].Repr()));
      }
    }

    lemma MetaGrows(on: nat, nn: nat)
      requires 0 < pageSize && on <= nn
      ensures Meta(on) <= Meta(nn)
    {
      if 0 < on { DivBounds(nn - 1, pageSize, (on - 1) / pageSize); DivBounds(on - 1, pageSize, (on - 1) / pageSize); }
    }
  }
}
