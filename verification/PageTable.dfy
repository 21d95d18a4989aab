/**
 The state of one storage-backed allocation and the page-at-a-time meaning of the three swap
 operations on it.  Everything here is a value; the coalescing loops that implement these
 functions in place are in module SwapEngine.
 */
module PageTable {

  /** The four status bits of a page, in the polarity of the status byte:
      `zfill` set means the page must be filled from disk, `rsdnt` set means NOT resident,
      `chrgd` set means NOT charged. */
  datatype Flags = Flags(zfill: bool, rsdnt: bool, dirty: bool, chrgd: bool)

  datatype Prot = NoAccess | ReadOnly | ReadWrite

  /** Contents of one location; paging moves it and never looks inside, so its width is irrelevant. */
  type Byte = int
  type Page = seq<Byte>

  /** Run-time options that steer paging. */
  datatype Options = Options(rsdnt: bool, lzyrd: bool, aggch: bool, inGhost: bool)

  /** Page status, page protection, memory image and backing file of one allocation. */
  datatype State = State(flags: seq<Flags>, prot: seq<Prot>, mem: seq<Page>, disk: seq<Page>)

  function Zero(pageSize: nat): (p: Page)
    ensures |p| == pageSize && forall o :: 0 <= o < pageSize ==> p[o] == 0
  {
    seq(pageSize, o => 0)
  }

  ghost predicate Shaped(s: State, pageSize: nat) {
    && 0 < pageSize
    && |s.prot| == |s.flags| && |s.mem| == |s.flags| && |s.disk| == |s.flags|
    && (forall i :: 0 <= i < |s.mem| ==> |s.mem[i]| == pageSize)
    && (forall i :: 0 <= i < |s.disk| ==> |s.disk[i]| == pageSize)
  }

  // ---------------------------------------------------------------- counting

  /** The three things the counters of an allocation count. */
  datatype Kind = Loaded | Charged | Dirtied

  predicate Is(k: Kind, f: Flags) {
    match k
    case Loaded => !f.rsdnt
    case Charged => !f.chrgd
    case Dirtied => f.dirty
  }

  function One(k: Kind, f: Flags): nat { if Is(k, f) then 1 else 0 }

  function Count(k: Kind, fs: seq<Flags>): (n: nat)
    ensures n <= |fs|
  {
    if fs == [] then 0 else Count(k, fs[..|fs| - 1]) + One(k, fs[|fs| - 1])
  }

  lemma CountConcat(k: Kind, a: seq<Flags>, b: seq<Flags>)
    ensures Count(k, a + b) == Count(k, a) + Count(k, b)
  {
    if b == [] {
      assert a + b == a;
    } else {
      CountConcat(k, a, b[..|b| - 1]);
      assert (a + b)[..|a + b| - 1] == a + b[..|b| - 1];
    }
  }

  lemma CountUpdate(k: Kind, fs: seq<Flags>, i: nat, f: Flags)
    requires i < |fs|
    ensures Count(k, fs[i := f]) == Count(k, fs) - One(k, fs[i]) + One(k, f)
  {
    var a, b := fs[..i], fs[i + 1..];
    assert fs == a + [fs[i]] + b && fs[i := f] == a + [f] + b;
    CountConcat(k, a, [fs[i]]);
    CountConcat(k, a + [fs[i]], b);
    CountConcat(k, a, [f]);
    CountConcat(k, a + [f], b);
  }

  lemma CountStep(k: Kind, fs: seq<Flags>, lo: nat, hi: nat)
    requires lo <= hi < |fs|
    ensures Count(k, fs[lo..hi + 1]) == Count(k, fs[lo..hi]) + One(k, fs[hi])
  {
    assert fs[lo..hi + 1][..hi - lo] == fs[lo..hi];
  }

  lemma CountSplit(k: Kind, fs: seq<Flags>, lo: nat, hi: nat)
    requires lo <= hi <= |fs|
    ensures Count(k, fs) == Count(k, fs[..lo]) + Count(k, fs[lo..hi]) + Count(k, fs[hi..])
  {
    assert fs == fs[..lo] + fs[lo..hi] + fs[hi..];
    CountConcat(k, fs[..lo] + fs[lo..hi], fs[hi..]);
    CountConcat(k, fs[..lo], fs[lo..hi]);
  }

  /** A count is full exactly when every page has the property, and zero exactly when none has. */
  lemma CountExtremes(k: Kind, fs: seq<Flags>)
    ensures Count(k, fs) == |fs| <==> (forall i :: 0 <= i < |fs| ==> Is(k, fs[i]))
    ensures Count(k, fs) == 0 <==> (forall i :: 0 <= i < |fs| ==> !Is(k, fs[i]))
  {
    if fs != [] {
      var rest := fs[..|fs| - 1];
      CountExtremes(k, rest);
      assert forall i :: 0 <= i < |rest| ==> fs[i] == rest[i];
    }
  }

  // ---------------------------------------------------------------- page-at-a-time swap functions

  /** Pages whose contents a swap-in must fetch: not resident, on disk and not dirty. */
  predicate NeedsRead(f: Flags) { f.rsdnt && f.zfill && !f.dirty }

  function InFlag(f: Flags): Flags { if f.rsdnt then f.(rsdnt := false, chrgd := false) else f }

  function OutFlag(f: Flags): Flags {
    if f.dirty then Flags(true, true, false, true) else Flags(f.zfill, true, false, true)
  }

  function ClearFlag(f: Flags): Flags { f.(dirty := false, zfill := false) }

  function InProt(inGhost: bool, f: Flags, p: Prot): Prot {
    if inGhost then (if NeedsRead(f) then ReadOnly else p)
    else if f.dirty then ReadWrite else ReadOnly
  }

  ghost predicate Within(s: State, beg: nat, end: nat) {
    && beg <= end <= |s.flags|
    && |s.prot| == |s.flags| && |s.mem| == |s.flags| && |s.disk| == |s.flags|
  }

  /** Status bytes after the pages of a range came in. */
  function InFlags(fs: seq<Flags>, beg: nat, end: nat): (r: seq<Flags>) {
    seq(|fs|, i requires 0 <= i < |fs| => if beg <= i < end then InFlag(fs[i]) else fs[i])
  }

  /** Status bytes after the pages of a range went out. */
  function OutFlags(fs: seq<Flags>, beg: nat, end: nat): (r: seq<Flags>) {
    seq(|fs|, i requires 0 <= i < |fs| => if beg <= i < end then OutFlag(fs[i]) else fs[i])
  }

  function ClearFlags(fs: seq<Flags>, beg: nat, end: nat): (r: seq<Flags>) {
    seq(|fs|, i requires 0 <= i < |fs| => if beg <= i < end then ClearFlag(fs[i]) else fs[i])
  }

  /** Memory with the pages of a range that need reading fetched from the file. */
  function Fetched(fs: seq<Flags>, mem: seq<Page>, disk: seq<Page>, beg: nat, end: nat): (r: seq<Page>)
    requires |fs| == |mem| == |disk|
  {
    seq(|mem|, i requires 0 <= i < |mem| => if beg <= i < end && NeedsRead(fs[i]) then disk[i] else mem[i])
  }

  /** File with the dirty pages of a range written to it. */
  function Flushed(fs: seq<Flags>, mem: seq<Page>, disk: seq<Page>, beg: nat, end: nat): (r: seq<Page>)
    requires |fs| == |mem| == |disk|
  {
    seq(|disk|, i requires 0 <= i < |disk| => if beg <= i < end && fs[i].dirty then mem[i] else disk[i])
  }

  function InProts(inGhost: bool, fs: seq<Flags>, ps: seq<Prot>, beg: nat, end: nat): (r: seq<Prot>)
    requires |fs| == |ps|
  {
    seq(|ps|, i requires 0 <= i < |ps| => if beg <= i < end then InProt(inGhost, fs[i], ps[i]) else ps[i])
  }

  function ClearProts(fs: seq<Flags>, ps: seq<Prot>, beg: nat, end: nat): (r: seq<Prot>)
    requires |fs| == |ps|
  {
    seq(|ps|, i requires 0 <= i < |ps| => if beg <= i < end && fs[i].dirty then ReadOnly else ps[i])
  }

  /** A sequence with every element of a range replaced by one value. */
  function Filled<T>(xs: seq<T>, beg: nat, end: nat, x: T): (r: seq<T>) {
    seq(|xs|, i requires 0 <= i < |xs| => if beg <= i < end then x else xs[i])
  }

  function SwapIn(s: State, beg: nat, end: nat, inGhost: bool): (r: State)
    requires Within(s, beg, end)
  {
    if beg == end || Count(Loaded, s.flags) == |s.flags| then s else
    State(InFlags(s.flags, beg, end), InProts(inGhost, s.flags, s.prot, beg, end),
          Fetched(s.flags, s.mem, s.disk, beg, end), s.disk)
  }

  function SwapOut(s: State, beg: nat, end: nat, pageSize: nat): (r: State)
    requires Within(s, beg, end)
  {
    if beg == end || Count(Loaded, s.flags) == 0 then s else
    State(OutFlags(s.flags, beg, end), Filled(s.prot, beg, end, NoAccess),
          Filled(s.mem, beg, end, Zero(pageSize)), Flushed(s.flags, s.mem, s.disk, beg, end))
  }

  function SwapClear(s: State, beg: nat, end: nat): (r: State)
    requires Within(s, beg, end)
  {
    State(ClearFlags(s.flags, beg, end), ClearProts(s.flags, s.prot, beg, end), s.mem, s.disk)
  }

  /** Aggressive charging: the first touch of an allocation without charge charges all its pages. */
  function ChargeAll(opts: Options, s: State): (r: State) {
    if opts.aggch && opts.lzyrd && Count(Charged, s.flags) == 0 then
      s.(flags := seq(|s.flags|, i requires 0 <= i < |s.flags| => s.flags[i].(chrgd := false)))
    else s
  }

  function Touch(opts: Options, s: State, beg: nat, end: nat): (r: State)
    requires Within(s, beg, end)
  {
    SwapIn(ChargeAll(opts, s), beg, end, opts.inGhost)
  }

  /** One delivery of SIGSEGV for page `ip`: a page that is not resident is brought in (alone or with
      the whole allocation), a resident one is taken to be written and becomes dirty. */
  function Fault(opts: Options, s: State, ip: nat): (r: State)
    requires Within(s, ip, ip + 1)
  {
    if s.flags[ip].rsdnt then
      if opts.lzyrd then Touch(opts, s, ip, ip + 1) else Touch(opts, s, 0, |s.flags|)
    else
      s.(flags := s.flags[ip := Flags(false, false, true, false)], prot := s.prot[ip := ReadWrite])
  }

  // ---------------------------------------------------------------- what each operation does to each page

  /** Nothing is charged yet and the first touch charges everything. */
  predicate ChargesAll(opts: Options, s: State) {
    opts.aggch && opts.lzyrd && forall i :: 0 <= i < |s.flags| ==> s.flags[i].chrgd
  }

  /** Page `i` is in the same state in every respect. */
  ghost predicate SamePage(s: State, r: State, i: nat) {
    && i < |s.flags| && i < |s.prot| && i < |s.mem| && i < |s.disk|
    && i < |r.flags| && i < |r.prot| && i < |r.mem| && i < |r.disk|
    && r.flags[i] == s.flags[i] && r.prot[i] == s.prot[i] && r.mem[i] == s.mem[i] && r.disk[i] == s.disk[i]
  }

  /** Some page of the allocation is absent. */
  predicate SomeAbsent(s: State) { exists i :: 0 <= i < |s.flags| && s.flags[i].rsdnt }

  predicate SomeResident(s: State) { exists i :: 0 <= i < |s.flags| && !s.flags[i].rsdnt }

  /** A touch makes exactly the pages of the range resident and charged, fetching those that have a copy in the file;
      it changes no other page, except that it charges them all if it is the first under aggressive charging. */
  lemma TouchExactly(opts: Options, s: State, beg: nat, end: nat, i: nat)
    requires Within(s, beg, end) && i < |s.flags|
    ensures var r, f := Touch(opts, s, beg, end), s.flags[i];
      && |r.flags| == |s.flags| && |r.prot| == |s.prot| && |r.mem| == |s.mem| && r.disk == s.disk
      && r.flags[i].dirty == f.dirty && r.flags[i].zfill == f.zfill
      && r.flags[i].rsdnt == (f.rsdnt && !(beg <= i < end))
      && r.flags[i].chrgd == (f.chrgd && !(beg <= i < end && f.rsdnt) && !ChargesAll(opts, s))
      && r.mem[i] == (if beg <= i < end && f.rsdnt && f.zfill && !f.dirty then s.disk[i] else s.mem[i])
      && r.prot[i] ==
         (if !(beg <= i < end && SomeAbsent(s)) then s.prot[i]
          else if opts.inGhost then (if f.rsdnt && f.zfill && !f.dirty then ReadOnly else s.prot[i])
          else if f.dirty then ReadWrite else ReadOnly)
  {
    hide Count, ChargeAll;
    var c := ChargeAll(opts, s);
    ChargeAllExactly(opts, s);
    CountExtremes(Loaded, c.flags);
    assert c.flags[i].rsdnt == s.flags[i].rsdnt;
  }

  lemma ChargeAllExactly(opts: Options, s: State)
    ensures var c := ChargeAll(opts, s);
      && |c.flags| == |s.flags| && c.prot == s.prot && c.mem == s.mem && c.disk == s.disk
      && forall j :: 0 <= j < |s.flags| ==>
           c.flags[j] == s.flags[j].(chrgd := s.flags[j].chrgd && !ChargesAll(opts, s))
  {
    CountExtremes(Charged, s.flags);
  }

  /** A fault on an absent page brings in that page alone with lazy reading and every page without; a fault on a
      resident page makes that page dirty and writable and changes nothing else. */
  lemma FaultExactly(opts: Options, s: State, ip: nat, i: nat)
    requires Within(s, ip, ip + 1) && i < |s.flags|
    ensures var r := Fault(opts, s, ip);
      && |r.flags| == |s.flags| && |r.prot| == |s.prot| && |r.mem| == |s.mem| && r.disk == s.disk
      && (i != ip && !s.flags[ip].rsdnt ==> SamePage(s, r, i))
      && (i == ip && !s.flags[ip].rsdnt ==>
            r.flags[i] == Flags(false, false, true, false) && r.prot[i] == ReadWrite && r.mem[i] == s.mem[i])
      && (s.flags[ip].rsdnt ==> r.flags[i].rsdnt == (s.flags[i].rsdnt && opts.lzyrd && i != ip))
      && (s.flags[ip].rsdnt && opts.lzyrd && i != ip && !ChargesAll(opts, s) ==> SamePage(s, r, i))
      && (s.flags[ip].rsdnt ==> r.flags[i].dirty == s.flags[i].dirty && r.flags[i].zfill == s.flags[i].zfill)
  {
    hide Touch;
    if s.flags[ip].rsdnt {
      if opts.lzyrd { TouchExactly(opts, s, ip, ip + 1, i); } else { TouchExactly(opts, s, 0, |s.flags|, i); }
    }
  }

  /** An eviction drops exactly the pages of the range, writing the dirty ones to the file, and changes no other page;
      it does nothing at all if no page of the allocation is resident. */
  lemma SwapOutExactly(s: State, beg: nat, end: nat, pageSize: nat, i: nat)
    requires Within(s, beg, end) && i < |s.flags|
    ensures var r := SwapOut(s, beg, end, pageSize);
      && |r.flags| == |s.flags| && |r.prot| == |s.prot| && |r.mem| == |s.mem| && |r.disk| == |s.disk|
      && (!(beg <= i < end && SomeResident(s)) ==> SamePage(s, r, i))
      && (beg <= i < end && SomeResident(s) ==>
            && r.flags[i].rsdnt && r.flags[i].chrgd && !r.flags[i].dirty
            && r.flags[i].zfill == (s.flags[i].dirty || s.flags[i].zfill)
            && r.prot[i] == NoAccess && r.mem[i] == Zero(pageSize)
            && r.disk[i] == if s.flags[i].dirty then s.mem[i] else s.disk[i])
  {
    CountExtremes(Loaded, s.flags);
  }

  /** A clear forgets that the pages of the range are dirty or in the file, write-protects those that were dirty, and
      changes nothing else. */
  lemma SwapClearExactly(s: State, beg: nat, end: nat, i: nat)
    requires Within(s, beg, end) && i < |s.flags|
    ensures var r := SwapClear(s, beg, end);
      && |r.flags| == |s.flags| && |r.prot| == |s.prot| && r.mem == s.mem && r.disk == s.disk
      && (!(beg <= i < end) ==> SamePage(s, r, i))
      && (beg <= i < end ==>
            && !r.flags[i].dirty && !r.flags[i].zfill
            && r.flags[i].rsdnt == s.flags[i].rsdnt && r.flags[i].chrgd == s.flags[i].chrgd
            && r.prot[i] == if s.flags[i].dirty then ReadOnly else s.prot[i])
  {
  }

  /** Status and protection of a page that has just been allocated. */
  function NewFlag(opts: Options): Flags {
    if opts.rsdnt then Flags(false, false, false, false) else Flags(false, true, false, true)
  }

  function NewProt(opts: Options): Prot { if opts.rsdnt then ReadOnly else NoAccess }

  /** The state `sbma_malloc` leaves behind: zero memory, and a backing file with arbitrary contents. */
  function Fresh(opts: Options, n: nat, pageSize: nat, disk: seq<Page>): (r: State)
  {
    State(seq(n, i => NewFlag(opts)), seq(n, i => NewProt(opts)), seq(n, i => Zero(pageSize)), disk)
  }

  function Repeat<T>(n: nat, x: T): (r: seq<T>)
    ensures |r| == n && forall i :: 0 <= i < n ==> r[i] == x
  {
    seq(n, i => x)
  }

  predicate AllSized(ps: seq<Page>, pageSize: nat) { forall i :: 0 <= i < |ps| ==> |ps[i]| == pageSize }

  /** An allocation extended by the pages `stale`, whose memory holds what was there before; the file grows by
      zeros. */
  function Grown(opts: Options, s: State, stale: seq<Page>): (r: State)
    requires Within(s, 0, |s.flags|)
  {
    State(s.flags + Repeat(|stale|, NewFlag(opts)), s.prot + Repeat(|stale|, NewProt(opts)),
          s.mem + stale, s.disk + Blanks(stale))
  }

  function Blanks(ps: seq<Page>): (r: seq<Page>)
    ensures |r| == |ps| && forall i :: 0 <= i < |r| ==> |r[i]| == |ps[i]|
  {
    seq(|ps|, i requires 0 <= i < |ps| => Zero(|ps[i]|))
  }

  /** The status byte of a page. */
  function StatusByte(f: Flags): Byte {
    (if f.zfill then 1 else 0) + (if f.rsdnt then 2 else 0) + (if f.dirty then 4 else 0) + (if f.chrgd then 8 else 0)
  }

  /** Each bit of a status byte can be tested by itself. */
  lemma StatusBits(f: Flags)
    ensures 0 <= StatusByte(f) < 16
    ensures f == Flags(StatusByte(f) % 2 == 1, StatusByte(f) / 2 % 2 == 1,
                       StatusByte(f) / 4 % 2 == 1, StatusByte(f) / 8 % 2 == 1)
  {
  }

  /** The byte at offset `o` of page `i`. */
  function Place(i: nat, o: nat, pageSize: nat): (j: nat) { i * pageSize + o }

  /** What growth by `k` pages leaves in their memory: the status array lay there before it was moved behind them,
      and past it there is nothing. */
  function LeftOver(fs: seq<Flags>, k: nat, pageSize: nat): (r: seq<Page>)
    ensures |r| == k && AllSized(r, pageSize)
  {
    seq(k, i requires 0 <= i => seq(pageSize, o requires 0 <= o => ByteAt(fs, Place(i, o, pageSize))))
  }

  function ByteAt(fs: seq<Flags>, j: nat): Byte { if j < |fs| then StatusByte(fs[j]) else 0 }

  /** The bytes of the first `k` pages are the first `k * pageSize` bytes. */
  lemma PageOf(j: nat, k: nat, pageSize: nat) returns (i: nat, o: nat)
    requires j < k * pageSize
    ensures i < k && o < pageSize && Place(i, o, pageSize) == j
  {
    i, o := j / pageSize, j % pageSize;
    DivBounds(j, pageSize, k);
  }

  lemma PlaceInside(i: nat, o: nat, k: nat, pageSize: nat)
    requires i < k && o < pageSize
    ensures Place(i, o, pageSize) < k * pageSize
  {
    MulMono(i + 1, k, pageSize);
    assert (i + 1) * pageSize == i * pageSize + pageSize;
  }

  /** Growth brings in zeros only, if and only if every old page whose status byte lay under a new page is resident,
      charged and clean without a copy in the file. */
  lemma LeftOverZero(fs: seq<Flags>, k: nat, pageSize: nat)
    ensures LeftOver(fs, k, pageSize) == Blanks(LeftOver(fs, k, pageSize)) <==>
      forall j :: 0 <= j < |fs| && j < k * pageSize ==> fs[j] == Flags(false, false, false, false)
  {
    hide LeftOver, Place;
    var r := LeftOver(fs, k, pageSize);
    if r == Blanks(r) {
      forall j | 0 <= j < |fs| && j < k * pageSize ensures fs[j] == Flags(false, false, false, false) {
        var i, o := PageOf(j, k, pageSize);
        LeftAt(fs, k, pageSize, i, o);
        assert r[i] == Blanks(r)[i];
        NoStatus(fs[j]);
      }
    } else {
      var i :| 0 <= i < k && r[i] != Blanks(r)[i];
      var o :| 0 <= o < pageSize && r[i][o] != 0;
      PlaceInside(i, o, k, pageSize);
      LeftAt(fs, k, pageSize, i, o);
      NoStatus(fs[Place(i, o, pageSize)]);
    }
  }

  lemma LeftAt(fs: seq<Flags>, k: nat, pageSize: nat, i: nat, o: nat)
    requires i < k && o < pageSize
    ensures LeftOver(fs, k, pageSize)[i][o] == ByteAt(fs, Place(i, o, pageSize))
  {
    hide Place;
  }

  lemma NoStatus(f: Flags)
    ensures StatusByte(f) == 0 <==> f == Flags(false, false, false, false)
  {
  }

  // ---------------------------------------------------------------- byte ranges to page ranges

  /** First page of a byte range, rounding down: used by touch and evict. */
  function FloorPage(addr: nat, pageSize: nat): nat requires 0 < pageSize { addr / pageSize }

  /** One past the last page of a non-empty byte range, rounding up. */
  function CeilPage(addr: nat, len: nat, pageSize: nat): nat
    requires 0 < pageSize && 0 < len
  {
    1 + (addr + len - 1) / pageSize
  }

  /** First page that starts inside a byte range: used by clear. */
  function FirstWhole(addr: nat, pageSize: nat): nat
    requires 0 < pageSize
  {
    if addr == 0 then 0 else 1 + (addr - 1) / pageSize
  }

  /** One past the last page that ends inside a byte range. */
  function EndWhole(addr: nat, len: nat, pageSize: nat): nat requires 0 < pageSize { (addr + len) / pageSize }

  lemma DivBounds(a: nat, d: nat, q: nat)
    requires 0 < d
    ensures q <= a / d <==> q * d <= a
  {
    var r := a % d;
    assert a == (a / d) * d + r && 0 <= r < d;
    if q <= a / d {
      MulMono(q, a / d, d);
    } else {
      MulMono(a / d + 1, q, d);
      assert (a / d + 1) * d == (a / d) * d + d;
    }
  }

  lemma MulMono(x: nat, y: nat, d: nat)
    requires x <= y
    ensures x * d <= y * d
  {
  }

  /** Touch and evict act on exactly the pages that share a byte with the range. */
  lemma TouchedPages(addr: nat, len: nat, pageSize: nat, ip: nat)
    requires 0 < pageSize && 0 < len
    ensures FloorPage(addr, pageSize) <= ip < CeilPage(addr, len, pageSize)
      <==> ip * pageSize < addr + len && addr < (ip + 1) * pageSize
  {
    DivBounds(addr, pageSize, ip + 1);
    DivBounds(addr + len - 1, pageSize, ip);
  }

  /** Clear acts on exactly the pages that lie wholly inside the range. */
  lemma ClearedPages(addr: nat, len: nat, pageSize: nat, ip: nat)
    requires 0 < pageSize
    ensures FirstWhole(addr, pageSize) <= ip < EndWhole(addr, len, pageSize)
      <==> addr <= ip * pageSize && (ip + 1) * pageSize <= addr + len
  {
    DivBounds(addr + len, pageSize, ip + 1);
    if addr > 0 { DivBounds(addr - 1, pageSize, ip); }
  }

  /** A range inside the allocation touches and clears only pages of the allocation. */
  lemma PagesInside(addr: nat, len: nat, pageSize: nat, n: nat)
    requires 0 < pageSize && addr + len <= n * pageSize
    ensures EndWhole(addr, len, pageSize) <= n
    ensures 0 < len ==> FloorPage(addr, pageSize) < CeilPage(addr, len, pageSize) <= n
  {
    DivBounds(addr + len, pageSize, n + 1);
    assert (n + 1) * pageSize == n * pageSize + pageSize;
    if 0 < len {
      DivBounds(addr + len - 1, pageSize, n);
      DivBounds(addr, pageSize, addr / pageSize);
      DivBounds(addr + len - 1, pageSize, addr / pageSize);
    }
  }
}
