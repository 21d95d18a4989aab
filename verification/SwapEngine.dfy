/** The in-place swap engine of one allocation. */
module SwapEngine {
  import opened PageTable

  // Arrays of page status, protection, memory and file pages, three counters, and loops that coalesce
  // neighbouring pages into one transfer.  Each method is proved to leave exactly the state the
  // page-at-a-time functions of module PageTable describe.

  /** The transfers of a range: pages written back by an eviction, or fetched by a swap-in. */
  predicate Moves(out: bool, f: Flags) { if out then f.dirty else NeedsRead(f) }

  /** One call to read or write: the pages from `first` up to `end`. */
  datatype Stretch = Stretch(first: nat, end: nat)

  /** The calls that move the pages of a range, neighbouring pages in one call. */
  function Runs(out: bool, fs: seq<Flags>, lo: nat, hi: nat): (r: seq<Stretch>)
    requires lo <= hi <= |fs|
    decreases hi
  {
    if lo == hi then []
    else if Moves(out, fs[hi - 1]) then WithPage(Runs(out, fs, lo, hi - 1), hi - 1) else Runs(out, fs, lo, hi - 1)
  }

  /** One more page at the end: with the last call if that reaches it, else in a call of its own. */
  function WithPage(rs: seq<Stretch>, p: nat): seq<Stretch> {
    if LastEnds(rs, p) then rs[..|rs| - 1] + [Stretch(rs[|rs| - 1].first, p + 1)] else rs + [Stretch(p, p + 1)]
  }

  /** The last call goes up to page `hi`. */
  predicate LastEnds(rs: seq<Stretch>, hi: nat) { rs != [] && rs[|rs| - 1].end == hi }

  /** Pages moved by a list of calls. */
  function Pages(rs: seq<Stretch>): int {
    if rs == [] then 0 else Pages(rs[..|rs| - 1]) + (rs[|rs| - 1].end - rs[|rs| - 1].first)
  }

  lemma {:induction false} PagesConcat(a: seq<Stretch>, b: seq<Stretch>)
    ensures Pages(a + b) == Pages(a) + Pages(b)
  {
    if b == [] {
      assert a + b == a;
    } else {
      PagesConcat(a, b[..|b| - 1]);
      assert (a + b)[..|a + b| - 1] == a + b[..|b| - 1];
    }
  }

  ghost predicate InRuns(rs: seq<Stretch>, p: nat) { exists i :: 0 <= i < |rs| && rs[i].first <= p < rs[i].end }

  /** Calls in order, none empty, with at least one page between one and the next. */
  ghost predicate Separated(rs: seq<Stretch>, lo: nat, hi: nat) {
    && (forall i :: 0 <= i < |rs| ==> lo <= rs[i].first < rs[i].end <= hi)
    && (forall i, j :: 0 <= i < j < |rs| ==> rs[i].end < rs[j].first)
  }

  /** The calls move every page that has to move and no other, none twice; and they are as few as can be: between
      two of them there is a page that does not move. */
  lemma RunsExact(out: bool, fs: seq<Flags>, lo: nat, hi: nat)
    requires lo <= hi <= |fs|
    ensures forall p: nat :: InRuns(Runs(out, fs, lo, hi), p) <==> lo <= p < hi && Moves(out, fs[p])
    ensures Separated(Runs(out, fs, lo, hi), lo, hi)
    ensures out ==> Pages(Runs(out, fs, lo, hi)) == Count(Dirtied, fs[lo..hi])
  {
    hide Runs, Separated, InRuns, Count;
    RunsNamed(out, fs, lo, hi);
    if out { RunsCounted(fs, lo, hi); }
  }

  lemma {:induction false} RunsNamed(out: bool, fs: seq<Flags>, lo: nat, hi: nat)
    requires lo <= hi <= |fs|
    ensures Separated(Runs(out, fs, lo, hi), lo, hi)
    ensures forall p: nat :: InRuns(Runs(out, fs, lo, hi), p) <==> lo <= p < hi && Moves(out, fs[p])
    ensures LastEnds(Runs(out, fs, lo, hi), hi) <==> lo < hi && Moves(out, fs[hi - 1])
    decreases hi
  {
    hide Moves, WithPage, InRuns;
    if lo < hi {
      RunsNamed(out, fs, lo, hi - 1);
      var rs := Runs(out, fs, lo, hi - 1);
      ExtendRuns(rs, lo, hi - 1);
      forall p: nat ensures InRuns(Runs(out, fs, lo, hi), p) <==> lo <= p < hi && Moves(out, fs[p]) {
        ExtendNames(rs, hi - 1, p);
        assert InRuns(rs, p) <==> lo <= p < hi - 1 && Moves(out, fs[p]);
      }
    } else {
      NoPages();
    }
  }

  lemma ExtendRuns(rs: seq<Stretch>, lo: nat, p: nat)
    requires Separated(rs, lo, p) && lo <= p
    ensures Separated(rs, lo, p + 1) && !LastEnds(rs, p + 1)
    ensures Separated(WithPage(rs, p), lo, p + 1) && LastEnds(WithPage(rs, p), p + 1)
  {
    var n, ws := |rs| - 1, WithPage(rs, p);
    forall i, j | 0 <= i < j < |ws| ensures ws[i].end < ws[j].first {
      if j < |rs| {
        assert rs[i].end < rs[j].first;
      } else if i < n {
        assert rs[i].end < rs[n].first;
      }
    }
  }

  lemma ExtendNames(rs: seq<Stretch>, p: nat, q: nat)
    requires LastEnds(rs, p) ==> rs[|rs| - 1].first < p
    ensures InRuns(WithPage(rs, p), q) <==> InRuns(rs, q) || q == p
  {
    var ws := WithPage(rs, p);
    if InRuns(rs, q) {
      var i :| 0 <= i < |rs| && rs[i].first <= q < rs[i].end;
      assert ws[i].first <= q < ws[i].end;
    }
    if q == p { assert ws[|ws| - 1].first <= q < ws[|ws| - 1].end; }
    if InRuns(ws, q) && q != p {
      var i :| 0 <= i < |ws| && ws[i].first <= q < ws[i].end;
      assert i < |rs| && rs[i].first <= q < rs[i].end;
    }
  }

  lemma ExtendPages(rs: seq<Stretch>, p: nat)
    ensures Pages(WithPage(rs, p)) == Pages(rs) + 1
  {
    var ws := WithPage(rs, p);
    assert ws[..|ws| - 1] == if LastEnds(rs, p) then rs[..|rs| - 1] else rs;
  }

  lemma {:induction false} RunsCounted(fs: seq<Flags>, lo: nat, hi: nat)
    requires lo <= hi <= |fs|
    ensures Pages(Runs(true, fs, lo, hi)) == Count(Dirtied, fs[lo..hi])
    decreases hi
  {
    hide Pages, WithPage;
    if lo < hi {
      RunsCounted(fs, lo, hi - 1);
      ExtendPages(Runs(true, fs, lo, hi - 1), hi - 1);
      CountStep(Dirtied, fs, lo, hi - 1);
    } else {
      NoPages();
    }
  }

  lemma NoPages()
    ensures Pages([]) == 0 && forall p: nat :: !InRuns([], p)
  {
  }

  /** A stretch of pages that all move, after one that does not, is one more call. */
  lemma {:induction false} RunsRun(out: bool, fs: seq<Flags>, lo: nat, mid: nat, hi: nat)
    requires lo <= mid <= hi <= |fs| && (mid == lo || !Moves(out, fs[mid - 1]))
    requires forall p :: mid <= p < hi ==> Moves(out, fs[p])
    ensures Runs(out, fs, lo, hi) == Runs(out, fs, lo, mid) + if mid == hi then [] else [Stretch(mid, hi)]
    decreases hi
  {
    hide Moves, WithPage, LastEnds;
    if mid < hi {
      RunsRun(out, fs, lo, mid, hi - 1);
      Closed(out, fs, lo, mid);
      StretchOut(Runs(out, fs, lo, mid), mid, hi - 1);
    }
  }

  lemma StretchOut(rs: seq<Stretch>, mid: nat, p: nat)
    requires !LastEnds(rs, mid) && mid <= p
    ensures WithPage(rs + (if mid == p then [] else [Stretch(mid, p)]), p) == rs + [Stretch(mid, p + 1)]
  {
    var ws := rs + (if mid == p then [] else [Stretch(mid, p)]);
    if mid < p { assert ws[..|ws| - 1] == rs; } else { assert ws == rs; }
  }

  lemma Closed(out: bool, fs: seq<Flags>, lo: nat, mid: nat)
    requires lo <= mid <= |fs| && (mid == lo || !Moves(out, fs[mid - 1]))
    ensures !LastEnds(Runs(out, fs, lo, mid), mid)
  {
    hide InRuns, Separated, Runs;
    RunsNamed(out, fs, lo, mid);
  }

  // ---------------------------------------------------------------- one turn of each loop, on values

  lemma OutFlagsStep(fs: seq<Flags>, beg: nat, ip: nat)
    requires beg <= ip < |fs|
    ensures |OutFlags(fs, beg, ip)| == |fs| && OutFlags(fs, beg, ip)[ip] == fs[ip]
    ensures OutFlags(fs, beg, ip)[ip := OutFlag(fs[ip])] == OutFlags(fs, beg, ip + 1)
  {
  }

  lemma InFlagsStep(fs: seq<Flags>, beg: nat, ip: nat)
    requires beg <= ip < |fs|
    ensures |InFlags(fs, beg, ip)| == |fs| && InFlags(fs, beg, ip)[ip] == fs[ip]
    ensures InFlags(fs, beg, ip)[ip := InFlag(fs[ip])] == InFlags(fs, beg, ip + 1)
  {
  }

  /** Closing a run (possibly empty) at page `ip` extends the written part up to `ip`, and past it
      when that page does not move. */
  lemma OutRun(fs: seq<Flags>, mem: seq<Page>, disk: seq<Page>, beg: nat, first: nat, ip: nat, skip: bool)
    requires |fs| == |mem| == |disk| && beg <= first <= ip <= |fs|
    requires forall i :: first <= i < ip ==> Moves(true, fs[i])
    requires skip ==> ip < |fs| && !Moves(true, fs[ip])
    ensures var written := Flushed(fs, mem, disk, beg, first);
      Flushed(fs, mem, disk, beg, if skip then ip + 1 else ip)
      == if first == ip then written else Copied(mem, written, first, ip)
  {
  }

  /** The same for the list of calls, in either direction. */
  lemma RunMoved(out: bool, fs: seq<Flags>, beg: nat, first: nat, ip: nat, skip: bool)
    requires beg <= first <= ip <= |fs| && (first == beg || !Moves(out, fs[first - 1]))
    requires forall i :: first <= i < ip ==> Moves(out, fs[i])
    requires skip ==> ip < |fs| && !Moves(out, fs[ip])
    ensures Runs(out, fs, beg, if skip then ip + 1 else ip)
      == Runs(out, fs, beg, first) + if first == ip then [] else [Stretch(first, ip)]
  {
    RunsRun(out, fs, beg, first, ip);
  }

  /** A run is open only after a page that does not move, and none is open only after such a page. */
  predicate Maximal(out: bool, fs: seq<Flags>, beg: nat, end: nat, ip: nat, first: int) {
    var from := if first == -1 then ip else first;
    beg < from <= end && from <= |fs| ==> !Moves(out, fs[from - 1])
  }

  /** Protection while the swap-in loop runs: only ghost mode grants access run by run. */
  function LoopProts(inGhost: bool, fs: seq<Flags>, ps: seq<Prot>, beg: nat, done: nat): seq<Prot>
    requires |fs| == |ps|
  {
    if inGhost then InProts(true, fs, ps, beg, done) else ps
  }

  /** Closing a run at page `ip` extends the fetched part, in the way OutRun does for the written part. */
  lemma InRun(fs: seq<Flags>, mem: seq<Page>, disk: seq<Page>, beg: nat, first: nat, ip: nat, skip: bool)
    requires |fs| == |mem| == |disk| && beg <= first <= ip <= |fs|
    requires forall i :: first <= i < ip ==> Moves(false, fs[i])
    requires skip ==> ip < |fs| && !Moves(false, fs[ip])
    ensures var fetched := Fetched(fs, mem, disk, beg, first);
      Fetched(fs, mem, disk, beg, if skip then ip + 1 else ip)
      == if first == ip then fetched else Copied(disk, fetched, first, ip)
  {
  }

  lemma InRunProts(inGhost: bool, fs: seq<Flags>, ps: seq<Prot>, beg: nat, first: nat, ip: nat, skip: bool)
    requires |fs| == |ps| && beg <= first <= ip <= |fs|
    requires forall i :: first <= i < ip ==> Moves(false, fs[i])
    requires skip ==> ip < |fs| && !Moves(false, fs[ip])
    ensures var granted := LoopProts(inGhost, fs, ps, beg, first);
      LoopProts(inGhost, fs, ps, beg, if skip then ip + 1 else ip)
      == if inGhost && first != ip then Filled(granted, first, ip, ReadOnly) else granted
  {
  }

  /** Read-only everywhere in the range, then read-write page by page where dirty. */
  function Upgraded(fs: seq<Flags>, ps: seq<Prot>, beg: nat, end: nat, ip: nat): (r: seq<Prot>)
    requires |fs| == |ps|
  {
    seq(|ps|, i requires 0 <= i < |ps| =>
      if beg <= i < end then (if i < ip && fs[i].dirty then ReadWrite else ReadOnly) else ps[i])
  }

  lemma UpgradeStep(fs: seq<Flags>, ps: seq<Prot>, beg: nat, end: nat, ip: nat)
    requires |fs| == |ps| && beg <= ip < end <= |fs|
    ensures |Upgraded(fs, ps, beg, end, ip)| == |ps|
    ensures Upgraded(fs, ps, beg, end, ip + 1)
      == if fs[ip].dirty then Filled(Upgraded(fs, ps, beg, end, ip), ip, ip + 1, ReadWrite)
         else Upgraded(fs, ps, beg, end, ip)
  {
  }

  /** The in-place protection of a swap-in does not depend on whether the loads have been recorded. */
  lemma UpgradeBounds(fs: seq<Flags>, ps: seq<Prot>, beg: nat, end: nat)
    requires |fs| == |ps| && beg <= end <= |fs|
    ensures Upgraded(fs, ps, beg, end, beg) == Filled(ps, beg, end, ReadOnly)
    ensures Upgraded(InFlags(fs, beg, end), Filled(ps, beg, end, ReadWrite), beg, end, end)
      == InProts(false, fs, ps, beg, end)
  {
  }

  lemma ClearStart(fs: seq<Flags>, ps: seq<Prot>, beg: nat)
    requires |fs| == |ps| && beg <= |fs|
    ensures ClearFlags(fs, beg, beg) == fs && ClearProts(fs, ps, beg, beg) == ps
  {
  }

  lemma ClearStep(fs: seq<Flags>, ps: seq<Prot>, beg: nat, ip: nat)
    requires |fs| == |ps| && beg <= ip < |fs|
    ensures |ClearFlags(fs, beg, ip)| == |fs| && ClearFlags(fs, beg, ip)[ip] == fs[ip]
    ensures ClearFlags(fs, beg, ip)[ip := ClearFlag(fs[ip])] == ClearFlags(fs, beg, ip + 1)
    ensures |ClearProts(fs, ps, beg, ip)| == |ps|
    ensures ClearProts(fs, ps, beg, ip + 1)
      == if fs[ip].dirty then ClearProts(fs, ps, beg, ip)[ip := ReadOnly] else ClearProts(fs, ps, beg, ip)
  {
  }

  function Least(a: nat, b: nat): nat { if a < b then a else b }

  /** Where the eviction loop stands before page `ip`, with the run from `first` open (none if -1):
      status bytes are rewritten up to `ip`, the file up to the open run. */
  ghost predicate OutSoFar(s: State, beg: nat, end: nat, ip: nat, first: int, now: State, moved: seq<Stretch>) {
    && Within(s, beg, end) && beg <= ip <= end + 1
    && (first == -1 || beg <= first < ip <= end)
    && var done := if first == -1 then Least(ip, end) else first;
    && (forall i :: done <= i < ip && i < end ==> Moves(true, s.flags[i]))
    && now == State(OutFlags(s.flags, beg, Least(ip, end)), s.prot, s.mem, Flushed(s.flags, s.mem, s.disk, beg, done))
    && moved == Runs(true, s.flags, beg, done) && Maximal(true, s.flags, beg, end, ip, first)
  }

  lemma OutStart(s: State, beg: nat, end: nat)
    requires Within(s, beg, end)
    ensures OutSoFar(s, beg, end, beg, -1, s, [])
  {
    assert OutFlags(s.flags, beg, beg) == s.flags && Flushed(s.flags, s.mem, s.disk, beg, beg) == s.disk;
  }

  lemma OutFinish(s: State, beg: nat, end: nat, now: State, moved: seq<Stretch>)
    requires OutSoFar(s, beg, end, end + 1, -1, now, moved)
    ensures now == State(OutFlags(s.flags, beg, end), s.prot, s.mem, Flushed(s.flags, s.mem, s.disk, beg, end))
    ensures moved == Runs(true, s.flags, beg, end)
  {
  }

  lemma OutAdvance(s: State, beg: nat, end: nat, ip: nat, first: int, now: State, moved: seq<Stretch>,
                   next: int, now': State, more: seq<Stretch>)
    requires OutSoFar(s, beg, end, ip, first, now, moved) && ip <= end
    requires next == if ip == end || !s.flags[ip].dirty then -1 else if first == -1 then ip else first
    requires now'.flags == (if ip < end then now.flags[ip := OutFlag(now.flags[ip])] else now.flags)
    requires now'.prot == now.prot && now'.mem == now.mem
    requires if next == -1 && first != -1
      then now'.disk == Copied(now.mem, now.disk, first, ip) && more == [Stretch(first, ip)]
      else now'.disk == now.disk && more == []
    ensures OutSoFar(s, beg, end, ip + 1, next, now', moved + more)
  {
    hide Runs, Flushed, Copied, OutFlags, OutFlag;
    if ip < end { OutFlagsStep(s.flags, beg, ip); }
    if next == -1 {
      OutRun(s.flags, s.mem, s.disk, beg, if first == -1 then ip else first, ip, ip < end);
      RunMoved(true, s.flags, beg, if first == -1 then ip else first, ip, ip < end);
    }
  }

  /** Where the swap-in loop stands, in the same sense. */
  ghost predicate InSoFar(inGhost: bool, s: State, beg: nat, end: nat, ip: nat, first: int, now: State,
                          moved: seq<Stretch>) {
    && Within(s, beg, end) && beg <= ip <= end + 1
    && (first == -1 || beg <= first < ip <= end)
    && var done := if first == -1 then Least(ip, end) else first;
    && (forall i :: done <= i < ip && i < end ==> Moves(false, s.flags[i]))
    && now == State(InFlags(s.flags, beg, Least(ip, end)), LoopProts(inGhost, s.flags, s.prot, beg, done),
                    Fetched(s.flags, s.mem, s.disk, beg, done), s.disk)
    && moved == Runs(false, s.flags, beg, done) && Maximal(false, s.flags, beg, end, ip, first)
  }

  lemma InStart(inGhost: bool, s: State, beg: nat, end: nat)
    requires Within(s, beg, end)
    ensures InSoFar(inGhost, s, beg, end, beg, -1, s, [])
  {
    assert InFlags(s.flags, beg, beg) == s.flags && Fetched(s.flags, s.mem, s.disk, beg, beg) == s.mem;
    assert LoopProts(inGhost, s.flags, s.prot, beg, beg) == s.prot;
  }

  lemma InFinish(inGhost: bool, s: State, beg: nat, end: nat, now: State, moved: seq<Stretch>)
    requires InSoFar(inGhost, s, beg, end, end + 1, -1, now, moved)
    ensures now == State(InFlags(s.flags, beg, end), LoopProts(inGhost, s.flags, s.prot, beg, end),
                         Fetched(s.flags, s.mem, s.disk, beg, end), s.disk)
    ensures moved == Runs(false, s.flags, beg, end)
  {
  }

  lemma InAdvance(inGhost: bool, s: State, beg: nat, end: nat, ip: nat, first: int, now: State, moved: seq<Stretch>,
                  next: int, now': State, more: seq<Stretch>)
    requires InSoFar(inGhost, s, beg, end, ip, first, now, moved) && ip <= end
    requires next == if ip == end || !NeedsRead(s.flags[ip]) then -1 else if first == -1 then ip else first
    requires now'.flags == (if ip < end then now.flags[ip := InFlag(now.flags[ip])] else now.flags)
    requires now'.disk == now.disk
    requires if next == -1 && first != -1
      then now'.mem == Copied(now.disk, now.mem, first, ip) && more == [Stretch(first, ip)]
      else now'.mem == now.mem && more == []
    requires now'.prot ==
             if inGhost && next == -1 && first != -1 then Filled(now.prot, first, ip, ReadOnly) else now.prot
    ensures InSoFar(inGhost, s, beg, end, ip + 1, next, now', moved + more)
  {
    hide Runs, Fetched, Copied, LoopProts, Filled, InFlags, InFlag;
    if ip < end { InFlagsStep(s.flags, beg, ip); }
    if next == -1 {
      var from := if first == -1 then ip else first;
      InRun(s.flags, s.mem, s.disk, beg, from, ip, ip < end);
      RunMoved(false, s.flags, beg, from, ip, ip < end);
      InRunProts(inGhost, s.flags, s.prot, beg, from, ip, ip < end);
    }
  }

  /** Destination pages with a stretch copied from the source pages. */
  function Copied(src: seq<Page>, dst: seq<Page>, first: nat, end: nat): (r: seq<Page>)
    requires |src| == |dst|
  {
    seq(|dst|, i requires 0 <= i < |dst| => if first <= i < end then src[i] else dst[i])
  }

  predicate Sound(f: Flags) { (!f.rsdnt ==> !f.chrgd) && (f.dirty ==> !f.rsdnt) }

  /** Shape of the arrays, and a legal status byte for every page. */
  ghost predicate Good(s: State, pageSize: nat) {
    Shaped(s, pageSize) && forall i :: 0 <= i < |s.flags| ==> Sound(s.flags[i])
  }

  lemma SwapInGood(s: State, beg: nat, end: nat, inGhost: bool, pageSize: nat)
    requires Good(s, pageSize) && Within(s, beg, end)
    ensures Good(SwapIn(s, beg, end, inGhost), pageSize)
    ensures beg == end || Count(Loaded, s.flags) == |s.flags| ==> SwapIn(s, beg, end, inGhost) == s
    ensures beg == end ==> Runs(false, s.flags, beg, end) == []
  {
  }

  lemma SwapOutGood(s: State, beg: nat, end: nat, pageSize: nat)
    requires Good(s, pageSize) && Within(s, beg, end)
    ensures Good(SwapOut(s, beg, end, pageSize), pageSize)
    ensures beg == end || Count(Loaded, s.flags) == 0 ==> SwapOut(s, beg, end, pageSize) == s
    ensures beg == end ==> Runs(true, s.flags, beg, end) == []
  {
  }

  /** The pieces the two modes of a swap-in leave behind make up the page-at-a-time result. */
  lemma SwapInPieces(s: State, beg: nat, end: nat, inGhost: bool, before: seq<Prot>)
    requires Within(s, beg, end) && beg < end && Count(Loaded, s.flags) < |s.flags|
    requires before == if inGhost then s.prot else Filled(s.prot, beg, end, ReadWrite)
    ensures SwapIn(s, beg, end, inGhost) == State(InFlags(s.flags, beg, end),
      if inGhost then LoopProts(true, s.flags, before, beg, end)
      else Upgraded(InFlags(s.flags, beg, end), LoopProts(false, s.flags, before, beg, end), beg, end, end),
      Fetched(s.flags, s.mem, s.disk, beg, end), s.disk)
  {
    if !inGhost { UpgradeBounds(s.flags, s.prot, beg, end); }
  }

  lemma GrownGood(opts: Options, s: State, stale: seq<Page>, pageSize: nat)
    requires Good(s, pageSize) && AllSized(stale, pageSize)
    ensures Good(Grown(opts, s, stale), pageSize)
    ensures var fs := Grown(opts, s, stale).flags;
      && Count(Loaded, fs) == Count(Loaded, s.flags) + (if opts.rsdnt then |stale| else 0)
      && Count(Charged, fs) == Count(Charged, s.flags) + (if opts.rsdnt then |stale| else 0)
      && Count(Dirtied, fs) == Count(Dirtied, s.flags)
  {
    Allocation.GrownCounts(s.flags, Repeat(|stale|, NewFlag(opts)), NewFlag(opts));
  }

  lemma FreshGood(opts: Options, n: nat, pageSize: nat, disk: seq<Page>)
    requires 0 < pageSize && |disk| == n && AllSized(disk, pageSize)
    ensures Good(Fresh(opts, n, pageSize, disk), pageSize)
    ensures Is(Loaded, NewFlag(opts)) == Is(Charged, NewFlag(opts)) == opts.rsdnt && !Is(Dirtied, NewFlag(opts))
  {
  }

  class Allocation {
    const pageSize: nat
    var flags: array<Flags>
    var prot: array<Prot>
    var mem: array<Page>
    var disk: array<Page>
    var l_pages: nat
    var c_pages: nat
    var d_pages: nat
    /** Every call that read or wrote the file, in order. */
    ghost var io: seq<Stretch>

    ghost function Repr(): set<object> reads this { {this, flags, prot, mem, disk} }

    ghost function View(): State reads Repr() { State(flags[..], prot[..], mem[..], disk[..]) }

    /** Counters agree with the flags; resident pages are charged and dirty pages are resident. */
    ghost predicate Valid()
      reads Repr()
    {
      mem != disk && Good(View(), pageSize) && Counted()
    }

    /** What the loops need of Good: equal lengths and legal status bytes. */
    ghost predicate Sized() reads Repr() {
      && flags.Length == prot.Length == mem.Length == disk.Length
      && forall i :: 0 <= i < flags.Length ==> Sound(flags[i])
    }

    lemma GoodSized()
      requires Good(View(), pageSize)
      ensures Sized()
    {
      assert forall i :: 0 <= i < flags.Length ==> flags[i] == View().flags[i];
    }

    /** The counters agree with the flags, `pending` dirty pages being accounted for but not yet written. */
    ghost predicate Tally(pending: nat) reads this, flags {
      && l_pages == Count(Loaded, flags[..])
      && c_pages == Count(Charged, flags[..])
      && d_pages == Count(Dirtied, flags[..]) + pending
    }

    ghost predicate Counted() reads this, flags { Tally(0) }

    /** Change one status byte; the counts follow by the difference. */
    method SetFlag(ip: nat, f: Flags)
      requires ip < flags.Length
      modifies flags
      ensures flags[..] == old(flags[..])[ip := f]
      ensures forall k :: Count(k, flags[..]) == old(Count(k, flags[..])) - One(k, old(flags[ip])) + One(k, f)
    {
      ghost var fs := flags[..];
      flags[ip] := f;
      assert flags[..] == fs[ip := f];
      forall k ensures Count(k, flags[..]) == Count(k, fs) - One(k, fs[ip]) + One(k, f) {
        CountUpdate(k, fs, ip, f);
      }
    }

    /** Write a stretch of memory pages to the file at their own offsets. */
    method WriteRun(first: nat, end: nat) returns (ghost moved: seq<Stretch>)
      requires first <= end <= mem.Length == disk.Length && mem != disk
      modifies disk
      ensures disk[..] == Copied(mem[..], old(disk[..]), first, end)
      ensures moved == [Stretch(first, end)]
    {
      forall i | first <= i < end { disk[i] := mem[i]; }
      moved := [Stretch(first, end)];
    }

    /** Evict the status byte of one page and say whether its contents must be written. */
    method DropPage(ip: nat, ghost pending: nat) returns (wasDirty: bool)
      requires Tally(pending) && ip < flags.Length && Sound(flags[ip])
      modifies `l_pages, `c_pages, flags
      ensures wasDirty == old(flags[ip]).dirty
      ensures Tally(if wasDirty then pending + 1 else pending)
      ensures flags[..] == old(flags[..])[ip := OutFlag(old(flags[ip]))]
    {
      wasDirty := flags[ip].dirty;
      if !wasDirty {
        if !flags[ip].chrgd {
          if !flags[ip].rsdnt {
            CountPositive(Loaded, flags[..], ip);
            l_pages := l_pages - 1;
          }
          CountPositive(Charged, flags[..], ip);
          c_pages := c_pages - 1;
        }
        SetFlag(ip, Flags(flags[ip].zfill, true, false, true));
      } else {
        CountPositive(Loaded, flags[..], ip);
        CountPositive(Charged, flags[..], ip);
        l_pages := l_pages - 1;
        c_pages := c_pages - 1;
        SetFlag(ip, Flags(true, true, false, true));
      }
    }

    /** One turn of the eviction loop, with the run that starts at `first` open (none if -1): the page
        leaves memory, and a run that ends here is written to the file. */
    method OutTurn(ip: nat, end: nat, first: int) returns (next: int, wrote: nat, ghost moved: seq<Stretch>)
      requires ip <= end <= flags.Length == mem.Length == disk.Length && mem != disk
      requires first == -1 || 0 <= first < ip
      requires Tally(if first == -1 then 0 else ip - first) && (ip < end ==> Sound(flags[ip]))
      modifies `l_pages, `c_pages, `d_pages, flags, disk
      ensures flags[..] == if ip < end then old(flags[..])[ip := OutFlag(old(flags[ip]))] else old(flags[..])
      ensures next == if ip == end || !old(flags[ip]).dirty then -1 else if first == -1 then ip else first
      ensures Tally(if next == -1 then 0 else ip + 1 - next)
      ensures if next == -1 && first != -1
        then disk[..] == Copied(mem[..], old(disk[..]), first, ip) && moved == [Stretch(first, ip)]
        else disk[..] == old(disk[..]) && moved == []
      ensures wrote == Pages(moved)
    {
      next, moved, wrote := first, [], 0;
      var dirty := false;
      if ip != end { dirty := DropPage(ip, if first == -1 then 0 else ip - first); }
      if dirty {
        if -1 == first { next := ip; }
      } else if -1 != first {
        moved := WriteRun(first, ip);
        wrote := ip - first;
        d_pages := d_pages - (ip - first);
        next := -1;
      }
    }

    /** The sentinel-run loop of an eviction: status bytes page by page, file writes run by run. */
    method WriteBack(beg: nat, end: nat) returns (numwr: nat)
      requires beg <= end <= flags.Length && mem != disk && Counted() && Sized()
      modifies `l_pages, `c_pages, `d_pages, `io, flags, disk
      ensures Counted()
      ensures flags[..] == OutFlags(old(flags[..]), beg, end)
      ensures disk[..] == Flushed(old(flags[..]), mem[..], old(disk[..]), beg, end)
      ensures io == old(io) + Runs(true, old(flags[..]), beg, end)
      ensures numwr == Pages(io) - Pages(old(io))
    {
      hide Count, OutSoFar, OutFlags, Flushed, Copied, Runs, Pages;
      ghost var s, moved := View(), [];
      numwr := 0;
      var ipfirst: int := -1;
      var ip := beg;
      OutStart(s, beg, end);
      NoPages();
      while ip <= end
        invariant beg <= ip <= end + 1 && (ipfirst == -1 || beg <= ipfirst < ip <= end)
        invariant OutSoFar(s, beg, end, ip, ipfirst, View(), moved)
        invariant forall i :: ip <= i < end ==> flags[i] == s.flags[i]
        invariant Tally(if ipfirst == -1 then 0 else ip - ipfirst)
        invariant numwr == Pages(moved) && io == old(io)
      {
        ghost var now := View();
        var next, wrote, more := OutTurn(ip, end, ipfirst);
        OutAdvance(s, beg, end, ip, ipfirst, now, moved, next, View(), more);
        PagesConcat(moved, more);
        numwr, moved := numwr + wrote, moved + more;
        ipfirst := next;
        ip := ip + 1;
      }
      OutFinish(s, beg, end, View(), moved);
      PagesConcat(io, moved);
      io := io + moved;
    }

    /** Write back and drop a range of pages. */
    method SwapOutRange(beg: nat, num: nat) returns (numwr: nat)
      requires Valid() && num <= flags.Length && beg <= flags.Length - num
      modifies `l_pages, `c_pages, `d_pages, `io, flags, prot, mem, disk
      ensures Valid()
      ensures View() == SwapOut(old(View()), beg, beg + num, pageSize)
      ensures io == old(io) + (if old(l_pages) == 0 then [] else Runs(true, old(flags[..]), beg, beg + num))
      ensures numwr == Pages(io) - Pages(old(io))
    {
      hide Count, Runs, Good, OutFlags, Flushed, Filled;
      numwr := 0;
      GoodSized();
      SwapOutGood(View(), beg, beg + num, pageSize);
      if num == 0 { return; }
      if l_pages == 0 { return; }
      numwr := WriteBack(beg, beg + num);
      Protect(beg, beg + num, NoAccess);
      Discard(beg, beg + num);
    }

    /** `mprotect` on a stretch of pages. */
    method Protect(beg: nat, end: nat, p: Prot)
      requires beg <= end <= prot.Length
      modifies prot
      ensures prot[..] == Filled(old(prot[..]), beg, end, p)
    {
      forall i | beg <= i < end { prot[i] := p; }
    }

    /** `madvise(MADV_DONTNEED)`: the pages read as zero from now on. */
    method Discard(beg: nat, end: nat)
      requires beg <= end <= mem.Length
      modifies mem
      ensures mem[..] == Filled(old(mem[..]), beg, end, Zero(pageSize))
    {
      var zero := Zero(pageSize);
      forall i | beg <= i < end { mem[i] := zero; }
    }

    /** Read a stretch of file pages straight into memory. */
    method ReadRun(first: nat, end: nat) returns (ghost moved: seq<Stretch>)
      requires first <= end <= disk.Length == mem.Length && mem != disk
      modifies mem
      ensures mem[..] == Copied(disk[..], old(mem[..]), first, end)
      ensures moved == [Stretch(first, end)]
    {
      forall i | first <= i < end { mem[i] := disk[i]; }
      moved := [Stretch(first, end)];
    }

    /** Read a stretch of file pages into a side buffer, make them readable and move them into place. */
    method GhostRun(buf: array<Page>, beg: nat, first: nat, end: nat) returns (ghost moved: seq<Stretch>)
      requires beg <= first <= end <= disk.Length == mem.Length == prot.Length
      requires end - beg <= buf.Length && mem != disk && buf != mem && buf != disk
      modifies buf, mem, prot
      ensures mem[..] == Copied(disk[..], old(mem[..]), first, end)
      ensures prot[..] == Filled(old(prot[..]), first, end, ReadOnly)
      ensures moved == [Stretch(first, end)]
    {
      forall i | first <= i < end { buf[i - beg] := disk[i]; }
      forall i | first <= i < end { mem[i] := buf[i - beg]; }
      Protect(first, end, ReadOnly);
      moved := [Stretch(first, end)];
    }

    /** Mark one page resident and charged. */
    method LoadPage(ip: nat)
      requires Tally(0) && ip < flags.Length && Sound(flags[ip])
      modifies `l_pages, `c_pages, flags
      ensures Tally(0) && flags[..] == old(flags[..])[ip := InFlag(old(flags[ip]))]
    {
      if flags[ip].rsdnt {
        l_pages := l_pages + 1;
        if flags[ip].chrgd { c_pages := c_pages + 1; }
        SetFlag(ip, flags[ip].(rsdnt := false, chrgd := false));
      } else {
        assert flags[..] == flags[..][ip := flags[ip]];
      }
    }

    /** One turn of the swap-in loop, with the run that starts at `first` open (none if -1). */
    method InTurn(inGhost: bool, buf: array<Page>, beg: nat, ip: nat, end: nat, first: int)
      returns (next: int, read: nat, ghost moved: seq<Stretch>)
      requires beg <= ip <= end <= flags.Length == prot.Length == mem.Length == disk.Length
      requires mem != disk && buf != mem && buf != disk && (inGhost ==> end - beg <= buf.Length)
      requires first == -1 || beg <= first < ip
      requires Tally(0) && (ip < end ==> Sound(flags[ip]))
      modifies `l_pages, `c_pages, flags, prot, mem, buf
      ensures next == if ip == end || !NeedsRead(old(flags[ip])) then -1 else if first == -1 then ip else first
      ensures flags[..] == if ip < end then old(flags[..])[ip := InFlag(old(flags[ip]))] else old(flags[..])
      ensures Tally(0)
      ensures if next == -1 && first != -1
        then mem[..] == Copied(disk[..], old(mem[..]), first, ip) && moved == [Stretch(first, ip)]
        else mem[..] == old(mem[..]) && moved == []
      ensures prot[..] == if inGhost && next == -1 && first != -1
        then Filled(old(prot[..]), first, ip, ReadOnly) else old(prot[..])
      ensures read == Pages(moved)
    {
      next, moved, read := first, [], 0;
      if ip != end && NeedsRead(flags[ip]) {
        if -1 == first { next := ip; }
      } else if -1 != first {
        if inGhost { moved := GhostRun(buf, beg, first, ip); } else { moved := ReadRun(first, ip); }
        read := ip - first;
        next := -1;
      }
      if ip != end { LoadPage(ip); }
    }

    /** The sentinel-run loop of a swap-in. */
    method ReadIn(inGhost: bool, buf: array<Page>, beg: nat, end: nat) returns (numrd: nat)
      requires beg <= end <= flags.Length && mem != disk && Counted() && Sized()
      requires buf != mem && buf != disk && (inGhost ==> end - beg <= buf.Length)
      modifies `l_pages, `c_pages, `io, flags, prot, mem, buf
      ensures Counted()
      ensures flags[..] == InFlags(old(flags[..]), beg, end)
      ensures mem[..] == Fetched(old(flags[..]), old(mem[..]), disk[..], beg, end)
      ensures prot[..] == LoopProts(inGhost, old(flags[..]), old(prot[..]), beg, end)
      ensures io == old(io) + Runs(false, old(flags[..]), beg, end)
      ensures numrd == Pages(io) - Pages(old(io))
    {
      hide Count, InSoFar, InFlags, Fetched, LoopProts, InProts, Filled, Copied, Runs, Pages;
      ghost var s, moved := View(), [];
      numrd := 0;
      var ipfirst: int := -1;
      var ip := beg;
      InStart(inGhost, s, beg, end);
      NoPages();
      while ip <= end
        invariant beg <= ip <= end + 1 && (ipfirst == -1 || beg <= ipfirst < ip <= end)
        invariant InSoFar(inGhost, s, beg, end, ip, ipfirst, View(), moved)
        invariant forall i :: ip <= i < end ==> flags[i] == s.flags[i]
        invariant Tally(0)
        invariant numrd == Pages(moved) && io == old(io)
      {
        ghost var now := View();
        var next, read, more := InTurn(inGhost, buf, beg, ip, end, ipfirst);
        InAdvance(inGhost, s, beg, end, ip, ipfirst, now, moved, next, View(), more);
        PagesConcat(moved, more);
        numrd, moved := numrd + read, moved + more;
        ipfirst := next;
        ip := ip + 1;
      }
      InFinish(inGhost, s, beg, end, View(), moved);
      PagesConcat(io, moved);
      io := io + moved;
    }

    /** The final protection pass of an in-place swap-in. */
    method UpgradeDirty(beg: nat, end: nat)
      requires beg <= end <= flags.Length == prot.Length
      modifies prot
      ensures prot[..] == Upgraded(flags[..], old(prot[..]), beg, end, end)
    {
      hide Upgraded, Filled;
      ghost var ps := prot[..];
      UpgradeBounds(flags[..], ps, beg, end);
      Protect(beg, end, ReadOnly);
      var ip := beg;
      while ip < end
        invariant beg <= ip <= end
        invariant prot[..] == Upgraded(flags[..], ps, beg, end, ip)
      {
        UpgradeStep(flags[..], ps, beg, end, ip);
        if flags[ip].dirty { Protect(ip, ip + 1, ReadWrite); }
        ip := ip + 1;
      }
    }

    /** Bring a range of pages into memory. */
    method SwapInRange(beg: nat, num: nat, inGhost: bool) returns (numrd: nat)
      requires Valid() && num <= flags.Length && beg <= flags.Length - num
      modifies `l_pages, `c_pages, `io, flags, prot, mem
      ensures Valid()
      ensures View() == SwapIn(old(View()), beg, beg + num, inGhost)
      ensures io ==
              old(io) + (if old(l_pages) == flags.Length then [] else Runs(false, old(flags[..]), beg, beg + num))
      ensures numrd == Pages(io) - Pages(old(io))
    {
      hide Count, Runs, Good, SwapIn;
      numrd := 0;
      GoodSized();
      SwapInGood(View(), beg, beg + num, inGhost, pageSize);
      if num == 0 { return; }
      if l_pages == flags.Length { return; }
      var buf := new Page[if inGhost then num else 0](i => Zero(pageSize));
      numrd := LoadRange(buf, beg, beg + num, inGhost);
    }

    method LoadRange(buf: array<Page>, beg: nat, end: nat, inGhost: bool) returns (numrd: nat)
      requires beg < end <= flags.Length && mem != disk && Counted() && Sized() && l_pages < flags.Length
      requires buf != mem && buf != disk && (inGhost ==> end - beg <= buf.Length)
      modifies `l_pages, `c_pages, `io, flags, prot, mem, buf
      ensures Counted()
      ensures View() == SwapIn(old(View()), beg, end, inGhost)
      ensures io == old(io) + Runs(false, old(flags[..]), beg, end)
      ensures numrd == Pages(io) - Pages(old(io))
    {
      hide Count, InFlags, Fetched, LoopProts, Filled, Upgraded, Runs, Pages, SwapIn;
      ghost var s := View();
      if !inGhost { Protect(beg, end, ReadWrite); }
      SwapInPieces(s, beg, end, inGhost, prot[..]);
      numrd := ReadIn(inGhost, buf, beg, end);
      if !inGhost { UpgradeDirty(beg, end); }
    }

    /** Forget the dirty and on-disk state of a range of pages. */
    method SwapClearRange(beg: nat, num: nat)
      requires Valid() && num <= flags.Length && beg <= flags.Length - num
      modifies `d_pages, flags, prot
      ensures Valid()
      ensures View() == SwapClear(old(View()), beg, beg + num)
    {
      ghost var s := View();
      ClearStart(s.flags, s.prot, beg);
      if num == 0 { return; }
      ForgetPages(beg, beg + num);
      assert forall i :: 0 <= i < flags.Length ==> Sound(flags[i]);
    }

    method ForgetPages(beg: nat, end: nat)
      requires Counted() && beg <= end <= flags.Length == prot.Length
      modifies `d_pages, flags, prot
      ensures Counted()
      ensures flags[..] == ClearFlags(old(flags[..]), beg, end)
      ensures prot[..] == ClearProts(old(flags[..]), old(prot[..]), beg, end)
    {
      hide ClearFlags, ClearProts, Count;
      ghost var fs, ps := flags[..], prot[..];
      ClearStart(fs, ps, beg);
      var ip := beg;
      while ip < end
        invariant beg <= ip <= end && Counted()
        invariant flags[..] == ClearFlags(fs, beg, ip)
        invariant prot[..] == ClearProts(fs, ps, beg, ip)
      {
        ClearStep(fs, ps, beg, ip);
        assert flags[ip] == flags[..][ip];
        if flags[ip].dirty {
          prot[ip] := ReadOnly;
          CountPositive(Dirtied, flags[..], ip);
          d_pages := d_pages - 1;
        }
        SetFlag(ip, ClearFlag(flags[ip]));
        ip := ip + 1;
      }
    }

    /** Charge every page of an allocation that has no charge, under aggressive charging. */
    method ChargeWhole(opts: Options)
      requires Valid()
      modifies `c_pages, flags
      ensures Valid() && View() == ChargeAll(opts, old(View()))
    {
      if opts.aggch && opts.lzyrd && c_pages == 0 {
        ghost var s := View();
        forall i | 0 <= i < flags.Length { flags[i] := flags[i].(chrgd := false); }
        c_pages := flags.Length;
        assert flags[..] == ChargeAll(opts, s).flags;
        CountExtremes(Charged, flags[..]);
        CountSame(Loaded, s.flags, flags[..]);
        CountSame(Dirtied, s.flags, flags[..]);
      }
    }

    static lemma CountSame(k: Kind, fs: seq<Flags>, gs: seq<Flags>)
      requires |fs| == |gs| && forall i :: 0 <= i < |fs| ==> Is(k, fs[i]) == Is(k, gs[i])
      ensures Count(k, fs) == Count(k, gs)
    {
    }

    /** `sbma_mtouch_int`. */
    method TouchRange(opts: Options, beg: nat, end: nat) returns (numrd: nat)
      requires Valid() && beg <= end <= flags.Length
      modifies `l_pages, `c_pages, `io, flags, prot, mem
      ensures Valid() && View() == Touch(opts, old(View()), beg, end)
      ensures numrd == Pages(io) - Pages(old(io))
    {
      hide Count, Good, SwapIn, ChargeAll, Runs;
      ChargeWhole(opts);
      numrd := SwapInRange(beg, end - beg, opts.inGhost);
    }

    /** The SIGSEGV handler for page `ip`. */
    method FaultAt(opts: Options, ip: nat)
      requires Valid() && ip < flags.Length && !flags[ip].dirty
      modifies `l_pages, `c_pages, `d_pages, `io, flags, prot, mem
      ensures Valid() && View() == Fault(opts, old(View()), ip)
    {
      if flags[ip].rsdnt {
        if opts.lzyrd {
          var numrd := TouchRange(opts, ip, ip + 1);
        } else {
          var numrd := TouchRange(opts, 0, flags.Length);
        }
      } else {
        assert Sound(flags[ip]);
        SetFlag(ip, Flags(false, false, true, false));
        prot[ip] := ReadWrite;
        d_pages := d_pages + 1;
      }
    }

    /** Growth by `sbma_realloc`: old pages keep status, protection, memory and file; new pages start as
        in a fresh allocation, except that their memory holds whatever was there (`stale`, page by page). */
    method GrowTo(opts: Options, stale: seq<Page>)
      requires Valid() && AllSized(stale, pageSize)
      modifies this
      ensures Valid() && fresh(Repr() - {this}) && flags.Length == old(flags.Length) + |stale|
      ensures View() == Grown(opts, old(View()), stale)
      ensures c_pages == old(c_pages) + (if opts.rsdnt then |stale| else 0)
      ensures l_pages == old(l_pages) + (if opts.rsdnt then |stale| else 0)
      ensures d_pages == old(d_pages)
    {
      hide Count, Good, Grown;
      GoodSized();
      GrownGood(opts, View(), stale, pageSize);
      GrowArrays(opts, stale);
      l_pages := l_pages + (if opts.rsdnt then |stale| else 0);
      c_pages := c_pages + (if opts.rsdnt then |stale| else 0);
    }

    method GrowArrays(opts: Options, stale: seq<Page>)
      requires Sized()
      modifies `flags, `prot, `mem, `disk
      ensures fresh(flags) && fresh(prot) && fresh(mem) && fresh(disk) && mem != disk
      ensures View() == Grown(opts, old(View()), stale) && flags.Length == old(flags.Length) + |stale|
    {
      hide Repeat, NewFlag, NewProt, Blanks;
      var nflags := Extended(flags, Repeat(|stale|, NewFlag(opts)));
      var nprot := Extended(prot, Repeat(|stale|, NewProt(opts)));
      var nmem := Extended(mem, stale);
      var ndisk := Extended(disk, Blanks(stale));
      flags, prot, mem, disk := nflags, nprot, nmem, ndisk;
    }

    static method Extended<T>(a: array<T>, more: seq<T>) returns (b: array<T>)
      ensures fresh(b) && b[..] == a[..] + more
    {
      var s := a[..] + more;
      b := new T[|s|](i requires 0 <= i < |s| => s[i]);
    }

    static lemma GrownCounts(fs: seq<Flags>, tail: seq<Flags>, f: Flags)
      requires forall i :: 0 <= i < |tail| ==> tail[i] == f
      ensures forall k :: Count(k, fs + tail) == Count(k, fs) + (if Is(k, f) then |tail| else 0)
    {
      CountUniform(tail, f);
      forall k ensures Count(k, fs + tail) == Count(k, fs) + (if Is(k, f) then |tail| else 0) {
        CountConcat(k, fs, tail);
      }
    }

    /** A new allocation as `sbma_malloc` sets it up. */
    constructor (opts: Options, n: nat, pageSize: nat)
      requires 0 < pageSize
      ensures Valid() && fresh(Repr())
      ensures this.pageSize == pageSize && io == []
      ensures View() == Fresh(opts, n, pageSize, disk[..])
      ensures l_pages == c_pages == (if opts.rsdnt then n else 0) && d_pages == 0 && flags.Length == n
    {
      hide Count, Good, NewFlag, NewProt, Zero;
      var f, p := NewFlag(opts), NewProt(opts);
      this.pageSize := pageSize;
      flags := new Flags[n](i => f);
      prot := new Prot[n](i => p);
      mem := new Page[n](i => Zero(pageSize));
      disk := new Page[n](i => Zero(pageSize));
      l_pages := if opts.rsdnt then n else 0;
      c_pages := if opts.rsdnt then n else 0;
      d_pages := 0;
      io := [];
      new;
      CountUniform(flags[..], f);
      FreshGood(opts, n, pageSize, disk[..]);
      assert View() == Fresh(opts, n, pageSize, disk[..]);
    }

    static lemma CountUniform(fs: seq<Flags>, f: Flags)
      requires forall i :: 0 <= i < |fs| ==> fs[i] == f
      ensures forall k :: Count(k, fs) == if Is(k, f) then |fs| else 0
    {
      forall k ensures Count(k, fs) == if Is(k, f) then |fs| else 0 {
        CountExtremes(k, fs);
      }
    }

    static lemma CountPositive(k: Kind, fs: seq<Flags>, i: nat)
      requires i < |fs| && Is(k, fs[i])
      ensures Count(k, fs) >= 1
    {
      CountExtremes(k, fs);
    }
  }
}
