/** Demand paging is transparent. */
module Transparency {
  import opened PageTable

  // A run is any interleaving of loads and stores that the page protection lets through, SIGSEGV deliveries
  // for those it does not, touches, evictions (by the application or because another process asked for
  // memory) and clears.  Whatever the run, a load returns what plain memory would hold.

  /** What a location is known to hold: one value, or after a clear that value or zero. */
  datatype Cell = Exactly(v: Byte) | ValueOrZero(v: Byte)

  predicate Allows(c: Cell, x: Byte) { x == c.v || (c.ValueOrZero? && x == 0) }

  function Weaken(c: Cell): Cell { ValueOrZero(c.v) }

  // ---------------------------------------------------------------- the invariant of one page

  /** Protection against status: in place they mirror each other; in ghost mode a clean page may have less. */
  predicate ProtOk(inGhost: bool, f: Flags, p: Prot) {
    if f.rsdnt then p == NoAccess
    else if f.dirty then p == ReadWrite
    else if inGhost then p != ReadWrite else p == ReadOnly
  }

  /** Status, memory and file of a page agree with what the page is known to hold:
      for a page that is not resident the file copy counts (or zero if it has none), and memory holds zero or
      something the page may hold;
      a clean resident page can be dropped without losing anything. */
  ghost predicate PageOk(inGhost: bool, f: Flags, p: Prot, m: Page, d: Page, cs: seq<Cell>) {
    && |m| == |d| == |cs|
    && (!f.rsdnt ==> !f.chrgd)
    && (f.dirty ==> !f.rsdnt && !f.zfill)
    && ProtOk(inGhost, f, p)
    && (forall o :: 0 <= o < |cs| ==> LocationOk(f, m[o], d[o], cs[o]))
  }

  predicate LocationOk(f: Flags, m: Byte, d: Byte, c: Cell) {
    if f.rsdnt then (m == 0 || Allows(c, m)) && Allows(c, if f.zfill then d else 0)
    else Allows(c, m) && (f.dirty || if f.zfill then m == d else Allows(c, 0))
  }

  ghost predicate Inv(opts: Options, pageSize: nat, s: State, cs: seq<seq<Cell>>) {
    && Shaped(s, pageSize) && |cs| == |s.flags|
    && forall i :: 0 <= i < |cs| ==> PageOk(opts.inGhost, s.flags[i], s.prot[i], s.mem[i], s.disk[i], cs[i])
  }

  // ---------------------------------------------------------------- every operation keeps it

  lemma FreshOk(opts: Options, n: nat, pageSize: nat, disk: seq<Page>)
    requires 0 < pageSize && |disk| == n && forall i :: 0 <= i < n ==> |disk[i]| == pageSize
    ensures Inv(opts, pageSize, Fresh(opts, n, pageSize, disk), Blank(n, pageSize))
  {
  }

  function Blank(n: nat, pageSize: nat): (r: seq<seq<Cell>>) { seq(n, i => seq(pageSize, o => Exactly(0))) }

  lemma SwapInOk(opts: Options, pageSize: nat, s: State, cs: seq<seq<Cell>>, beg: nat, end: nat)
    requires Inv(opts, pageSize, s, cs) && Within(s, beg, end)
    ensures Inv(opts, pageSize, SwapIn(s, beg, end, opts.inGhost), cs)
  {
    var r := SwapIn(s, beg, end, opts.inGhost);
    forall i | 0 <= i < |cs| ensures PageOk(opts.inGhost, r.flags[i], r.prot[i], r.mem[i], r.disk[i], cs[i]) {
      assert PageOk(opts.inGhost, s.flags[i], s.prot[i], s.mem[i], s.disk[i], cs[i]);
    }
  }

  lemma SwapOutOk(opts: Options, pageSize: nat, s: State, cs: seq<seq<Cell>>, beg: nat, end: nat)
    requires Inv(opts, pageSize, s, cs) && Within(s, beg, end)
    ensures Inv(opts, pageSize, SwapOut(s, beg, end, pageSize), cs)
  {
    var r := SwapOut(s, beg, end, pageSize);
    forall i | 0 <= i < |cs| ensures PageOk(opts.inGhost, r.flags[i], r.prot[i], r.mem[i], r.disk[i], cs[i]) {
      assert PageOk(opts.inGhost, s.flags[i], s.prot[i], s.mem[i], s.disk[i], cs[i]);
    }
  }

  function ClearCells(cs: seq<seq<Cell>>, beg: nat, end: nat): (r: seq<seq<Cell>>) {
    seq(|cs|, i requires 0 <= i < |cs| =>
      if beg <= i < end then seq(|cs[i]|, o requires 0 <= o < |cs[i]| => Weaken(cs[i][o])) else cs[i])
  }

  lemma SwapClearOk(opts: Options, pageSize: nat, s: State, cs: seq<seq<Cell>>, beg: nat, end: nat)
    requires Inv(opts, pageSize, s, cs) && Within(s, beg, end)
    ensures Inv(opts, pageSize, SwapClear(s, beg, end), ClearCells(cs, beg, end))
  {
    var r, ds := SwapClear(s, beg, end), ClearCells(cs, beg, end);
    forall i | 0 <= i < |ds| ensures PageOk(opts.inGhost, r.flags[i], r.prot[i], r.mem[i], r.disk[i], ds[i]) {
      assert PageOk(opts.inGhost, s.flags[i], s.prot[i], s.mem[i], s.disk[i], cs[i]);
    }
  }

  lemma TouchOk(opts: Options, pageSize: nat, s: State, cs: seq<seq<Cell>>, beg: nat, end: nat)
    requires Inv(opts, pageSize, s, cs) && Within(s, beg, end)
    ensures Inv(opts, pageSize, Touch(opts, s, beg, end), cs)
  {
    var r := ChargeAll(opts, s);
    forall i | 0 <= i < |cs| ensures PageOk(opts.inGhost, r.flags[i], r.prot[i], r.mem[i], r.disk[i], cs[i]) {
      assert PageOk(opts.inGhost, s.flags[i], s.prot[i], s.mem[i], s.disk[i], cs[i]);
    }
    SwapInOk(opts, pageSize, r, cs, beg, end);
  }

  lemma FaultOk(opts: Options, pageSize: nat, s: State, cs: seq<seq<Cell>>, ip: nat)
    requires Inv(opts, pageSize, s, cs) && ip < |cs|
    ensures Inv(opts, pageSize, Fault(opts, s, ip), cs)
  {
    if s.flags[ip].rsdnt {
      if opts.lzyrd { TouchOk(opts, pageSize, s, cs, ip, ip + 1); } else { TouchOk(opts, pageSize, s, cs, 0, |cs|); }
    } else {
      var r := Fault(opts, s, ip);
      forall i | 0 <= i < |cs| ensures PageOk(opts.inGhost, r.flags[i], r.prot[i], r.mem[i], r.disk[i], cs[i]) {
        assert PageOk(opts.inGhost, s.flags[i], s.prot[i], s.mem[i], s.disk[i], cs[i]);
      }
    }
  }

  /** What is known of pages added by growth: the bytes that happened to be there, or zero. */
  function Added(stale: seq<Page>): (r: seq<seq<Cell>>) {
    seq(|stale|, i requires 0 <= i < |stale| =>
      seq(|stale[i]|, o requires 0 <= o < |stale[i]| => ValueOrZero(stale[i][o])))
  }

  lemma GrownOk(opts: Options, pageSize: nat, s: State, cs: seq<seq<Cell>>, stale: seq<Page>)
    requires Inv(opts, pageSize, s, cs) && AllSized(stale, pageSize)
    ensures Inv(opts, pageSize, Grown(opts, s, stale), cs + Added(stale))
  {
    var r, ds := Grown(opts, s, stale), cs + Added(stale);
    forall i | 0 <= i < |ds| ensures PageOk(opts.inGhost, r.flags[i], r.prot[i], r.mem[i], r.disk[i], ds[i]) {
      if i < |cs| { assert PageOk(opts.inGhost, s.flags[i], s.prot[i], s.mem[i], s.disk[i], cs[i]); }
    }
  }

  // ---------------------------------------------------------------- accesses

  predicate Permits(p: Prot, write: bool) { if write then p == ReadWrite else p != NoAccess }

  function Poke(s: State, ip: nat, o: nat, v: Byte): (r: State)
    requires ip < |s.mem| && o < |s.mem[ip]|
  {
    s.(mem := s.mem[ip := s.mem[ip][o := v]])
  }

  lemma PokeOk(opts: Options, pageSize: nat, s: State, cs: seq<seq<Cell>>, ip: nat, o: nat, v: Byte)
    requires Inv(opts, pageSize, s, cs) && ip < |cs| && o < pageSize && Permits(s.prot[ip], true)
    ensures |cs[ip]| == pageSize
    ensures Inv(opts, pageSize, Poke(s, ip, o, v), cs[ip := cs[ip][o := Exactly(v)]])
  {
    assert PageOk(opts.inGhost, s.flags[ip], s.prot[ip], s.mem[ip], s.disk[ip], cs[ip]);
    var r, ds := Poke(s, ip, o, v), cs[ip := cs[ip][o := Exactly(v)]];
    forall i | 0 <= i < |ds| ensures PageOk(opts.inGhost, r.flags[i], r.prot[i], r.mem[i], r.disk[i], ds[i]) {
      assert PageOk(opts.inGhost, s.flags[i], s.prot[i], s.mem[i], s.disk[i], cs[i]);
    }
  }

  lemma PeekOk(opts: Options, pageSize: nat, s: State, cs: seq<seq<Cell>>, ip: nat, o: nat)
    requires Inv(opts, pageSize, s, cs) && ip < |cs| && o < pageSize && Permits(s.prot[ip], false)
    ensures |cs[ip]| == pageSize && Allows(cs[ip][o], s.mem[ip][o])
  {
    assert PageOk(opts.inGhost, s.flags[ip], s.prot[ip], s.mem[ip], s.disk[ip], cs[ip]);
    assert LocationOk(s.flags[ip], s.mem[ip][o], s.disk[ip][o], cs[ip][o]);
  }

  predicate PermitsAt(s: State, ip: nat, write: bool) { ip < |s.prot| && Permits(s.prot[ip], write) }

  /** One delivery of the fault handler for a page of the allocation. */
  ghost function Served(opts: Options, s: State, ip: nat): State {
    if Within(s, ip, ip + 1) then Fault(opts, s, ip) else s
  }

  /** If no eviction intervenes, an access goes through after at most two faults, and the handler is
      never entered for a page that is already dirty. */
  lemma TwoFaultsSuffice(opts: Options, pageSize: nat, s: State, cs: seq<seq<Cell>>, ip: nat, write: bool)
    requires Inv(opts, pageSize, s, cs) && ip < |cs|
    ensures !PermitsAt(s, ip, write) ==> !s.flags[ip].dirty
    ensures
      || PermitsAt(s, ip, write)
      || PermitsAt(Served(opts, s, ip), ip, write)
      || PermitsAt(Served(opts, Served(opts, s, ip), ip), ip, write)
  {
    assert PageOk(opts.inGhost, s.flags[ip], s.prot[ip], s.mem[ip], s.disk[ip], cs[ip]);
    FaultOk(opts, pageSize, s, cs, ip);
    if s.flags[ip].rsdnt {
      CountExtremes(Loaded, s.flags);
      CountExtremes(Loaded, ChargeAll(opts, s).flags);
      assert ChargeAll(opts, s).flags[ip].rsdnt;
      assert !Fault(opts, s, ip).flags[ip].rsdnt;
    }
  }

  // ---------------------------------------------------------------- runs

  datatype Config = Config(opts: Options, n: nat, pageSize: nat)

  /** Accesses name a page and an offset in it; ranges are page ranges; growth adds pages to the `on` there are. */
  datatype Event =
    | Load(ip: nat, o: nat, v: Byte)
    | Store(ip: nat, o: nat, v: Byte)
    | Segv(ip: nat, write: bool)
    | Touching(beg: nat, end: nat)
    | Evicting(beg: nat, end: nat)
    | Clearing(beg: nat, end: nat)
    | Growing(on: nat, stale: seq<Page>)

  /** Events stay inside the allocation; accesses happen exactly when protection permits them. */
  ghost predicate Enabled(c: Config, s: State, e: Event)
    requires Shaped(s, c.pageSize)
  {
    match e
    case Load(ip, o, v) => ip < |s.flags| && o < c.pageSize && Permits(s.prot[ip], false) && v == s.mem[ip][o]
    case Store(ip, o, v) => ip < |s.flags| && o < c.pageSize && Permits(s.prot[ip], true)
    case Segv(ip, write) => ip < |s.flags| && !Permits(s.prot[ip], write)
    case Touching(beg, end) => beg <= end <= |s.flags|
    case Evicting(beg, end) => beg <= end <= |s.flags|
    case Clearing(beg, end) => end <= |s.flags|
    case Growing(on, stale) => on == |s.flags| && AllSized(stale, c.pageSize)
  }

  ghost function Apply(c: Config, s: State, e: Event): (r: State)
    requires Shaped(s, c.pageSize) && Enabled(c, s, e)
    ensures Shaped(r, c.pageSize) && |s.flags| <= |r.flags|
  {
    match e
    case Load(ip, o, v) => s
    case Store(ip, o, v) => Poke(s, ip, o, v)
    case Segv(ip, write) => Fault(c.opts, s, ip)
    case Touching(beg, end) => Touch(c.opts, s, beg, end)
    case Evicting(beg, end) => SwapOut(s, beg, end, c.pageSize)
    case Clearing(beg, end) => if beg <= end then SwapClear(s, beg, end) else s
    case Growing(on, stale) => Grown(c.opts, s, stale)
  }

  /** What the events of a run do to page `i`: touched pages are resident, evicted ones are not unless the
      allocation had no page in memory, cleared ones are neither dirty nor in the file, a fault brings its page in
      or makes it dirty, a store changes one byte and nothing else, and growth leaves old pages alone. */
  lemma EventEffects(c: Config, s: State, e: Event, i: nat)
    requires Shaped(s, c.pageSize) && Enabled(c, s, e) && i < |s.flags|
    ensures var r := Apply(c, s, e);
      && i < |r.flags|
      && (e.Touching? && e.beg <= i < e.end ==> !r.flags[i].rsdnt)
      && (e.Evicting? && e.beg <= i < e.end && SomeResident(s) ==> r.flags[i].rsdnt && !r.flags[i].dirty)
      && (e.Clearing? && e.beg <= i < e.end ==> !r.flags[i].dirty && !r.flags[i].zfill)
      && (e.Segv? && i == e.ip ==> !r.flags[i].rsdnt && r.flags[i].dirty == (s.flags[i].dirty || !s.flags[i].rsdnt))
      && (e.Segv? && s.flags[e.ip].rsdnt ==> r.flags[i].rsdnt == (s.flags[i].rsdnt && c.opts.lzyrd && i != e.ip))
      && ((e.Touching? || e.Evicting? || e.Clearing?) && !(e.beg <= i < e.end) ==>
            r.flags[i].rsdnt == s.flags[i].rsdnt && r.flags[i].dirty == s.flags[i].dirty)
      && (e.Store? ==> r == s.(mem := r.mem) && |r.mem| == |s.mem|)
      && (e.Store? ==> r.mem[i] == if i == e.ip then s.mem[i][e.o := e.v] else s.mem[i])
      && (e.Load? ==> r == s && e.v == s.mem[e.ip][e.o])
      && (e.Growing? ==> |r.flags| == |s.flags| + |e.stale| && SamePage(s, r, i))
  {
    hide Touch, Fault, SwapOut, SwapClear;
    match e
    case Touching(beg, end) => TouchExactly(c.opts, s, beg, end, i);
    case Evicting(beg, end) => SwapOutExactly(s, beg, end, c.pageSize, i);
    case Clearing(beg, end) => if beg <= end { SwapClearExactly(s, beg, end, i); }
    case Segv(ip, write) => FaultExactly(c.opts, s, ip, i);
    case _ =>
  }

  /** Every event is enabled where it happens and leads to the next state. */
  ghost predicate Steps(c: Config, ss: seq<State>, t: seq<Event>) {
    && |ss| == |t| + 1 && Shaped(ss[0], c.pageSize)
    && forall k :: 0 <= k < |t| ==>
         Shaped(ss[k], c.pageSize) && Enabled(c, ss[k], t[k]) && ss[k + 1] == Apply(c, ss[k], t[k])
  }

  /** A run, given by the states it goes through, from a new allocation of `n` pages. */
  ghost predicate Run(c: Config, ss: seq<State>, t: seq<Event>) {
    && Steps(c, ss, t)
    && exists disk: seq<Page> :: |disk| == c.n && Fresh(c.opts, c.n, c.pageSize, disk) == ss[0]
  }

  // ---------------------------------------------------------------- the memory it stands for

  /** What plain memory holds at offset `o` of page `ip` after the events of a trace, if it held `base` before:
      the last value stored there, `base` if none; a clear of the page makes it that value or zero until the next
      store, and a page added by growth starts with the bytes that were there, or zero. */
  ghost function ExpectFrom(base: Cell, t: seq<Event>, ip: nat, o: nat): (r: Cell) {
    if t == [] then base else After(ExpectFrom(base, t[..|t| - 1], ip, o), ip, o, t[|t| - 1])
  }

  ghost function Expect(t: seq<Event>, ip: nat, o: nat): (r: Cell) { ExpectFrom(Exactly(0), t, ip, o) }

  ghost function After(before: Cell, ip: nat, o: nat, e: Event): (r: Cell) {
    match e
    case Store(jp, p, v) => if jp == ip && p == o then Exactly(v) else before
    case Clearing(beg, end) => if beg <= ip < end then Weaken(before) else before
    case Growing(on, stale) =>
      if on <= ip < on + |stale| && o < |stale[ip - on]| then ValueOrZero(stale[ip - on][o]) else before
    case _ => before
  }

  /** The same knowledge kept page by page. */
  ghost function Known(cs: seq<seq<Cell>>, e: Event): (r: seq<seq<Cell>>) {
    match e
    case Store(ip, o, v) => if ip < |cs| && o < |cs[ip]| then cs[ip := cs[ip][o := Exactly(v)]] else cs
    case Clearing(beg, end) => ClearCells(cs, beg, end)
    case Growing(on, stale) => cs + Added(stale)
    case _ => cs
  }

  /** What a location was known to hold to begin with; pages still to come count as zero. */
  function Base(cs: seq<seq<Cell>>, ip: nat, o: nat): Cell {
    if ip < |cs| && o < |cs[ip]| then cs[ip][o] else Exactly(0)
  }

  ghost predicate Agrees(pageSize: nat, cs0: seq<seq<Cell>>, cs: seq<seq<Cell>>, t: seq<Event>) {
    && (forall i :: 0 <= i < |cs| ==> |cs[i]| == pageSize)
    && forall ip, o :: 0 <= ip < |cs| && 0 <= o < pageSize ==> cs[ip][o] == ExpectFrom(Base(cs0, ip, o), t, ip, o)
  }

  lemma AgreesStep(pageSize: nat, cs0: seq<seq<Cell>>, cs: seq<seq<Cell>>, t: seq<Event>, e: Event)
    requires Agrees(pageSize, cs0, cs, t) && (e.Growing? ==> e.on == |cs| && AllSized(e.stale, pageSize))
    ensures Agrees(pageSize, cs0, Known(cs, e), t + [e])
  {
    var u, ds := t + [e], Known(cs, e);
    assert u[..|u| - 1] == t;
    forall ip, o | 0 <= ip < |ds| && 0 <= o < pageSize
      ensures ds[ip][o] == ExpectFrom(Base(cs0, ip, o), u, ip, o)
    {
      if ip < |cs| { assert cs[ip][o] == ExpectFrom(Base(cs0, ip, o), t, ip, o); }
    }
  }

  /** One event keeps the invariant, for the updated knowledge. */
  lemma ApplyOk(c: Config, s: State, cs: seq<seq<Cell>>, e: Event)
    requires Inv(c.opts, c.pageSize, s, cs) && Enabled(c, s, e)
    ensures Inv(c.opts, c.pageSize, Apply(c, s, e), Known(cs, e))
  {
    hide Inv, SwapOut, SwapIn, SwapClear, Touch, Fault, ClearCells, Grown, Added;
    InvShape(c.opts, c.pageSize, s, cs);
    match e
    case Load(ip, o, v) =>
    case Store(ip, o, v) => PokeOk(c.opts, c.pageSize, s, cs, ip, o, v);
    case Segv(ip, write) => FaultOk(c.opts, c.pageSize, s, cs, ip);
    case Touching(beg, end) => TouchOk(c.opts, c.pageSize, s, cs, beg, end);
    case Evicting(beg, end) => SwapOutOk(c.opts, c.pageSize, s, cs, beg, end);
    case Clearing(beg, end) =>
      if beg <= end { SwapClearOk(c.opts, c.pageSize, s, cs, beg, end); } else { ClearNothing(cs, beg, end); }
    case Growing(on, stale) => GrownOk(c.opts, c.pageSize, s, cs, stale);
  }

  lemma InvShape(opts: Options, pageSize: nat, s: State, cs: seq<seq<Cell>>)
    requires Inv(opts, pageSize, s, cs)
    ensures Shaped(s, pageSize) && |cs| == |s.flags| && forall i :: 0 <= i < |cs| ==> |cs[i]| == pageSize
  {
    forall i | 0 <= i < |cs| ensures |cs[i]| == pageSize {
      assert PageOk(opts.inGhost, s.flags[i], s.prot[i], s.mem[i], s.disk[i], cs[i]);
    }
  }

  lemma ClearNothing(cs: seq<seq<Cell>>, beg: nat, end: nat)
    requires end <= beg
    ensures ClearCells(cs, beg, end) == cs
  {
  }

  /** From a state that agrees with known contents, every later state satisfies the invariant, for the contents
      plain memory would then have. */
  lemma {:induction false} ReachableFrom(c: Config, ss: seq<State>, t: seq<Event>, cs0: seq<seq<Cell>>, k: nat)
    returns (cs: seq<seq<Cell>>)
    requires Steps(c, ss, t) && Inv(c.opts, c.pageSize, ss[0], cs0) && k <= |t|
    ensures Inv(c.opts, c.pageSize, ss[k], cs) && Agrees(c.pageSize, cs0, cs, t[..k]) && |cs0| <= |cs|
  {
    hide Inv, Apply, Known;
    InvShape(c.opts, c.pageSize, ss[0], cs0);
    if k == 0 {
      cs := cs0;
    } else {
      var before := ReachableFrom(c, ss, t, cs0, k - 1);
      assert ss[k - 1 + 1] == Apply(c, ss[k - 1], t[k - 1]);
      InvShape(c.opts, c.pageSize, ss[k - 1], before);
      ApplyOk(c, ss[k - 1], before, t[k - 1]);
      AgreesStep(c.pageSize, cs0, before, t[..k - 1], t[k - 1]);
      assert t[..k] == t[..k - 1] + [t[k - 1]];
      cs := Known(before, t[k - 1]);
      InvShape(c.opts, c.pageSize, ss[k], cs);
    }
  }

  /** Every state of every run satisfies the invariant, for the contents plain memory would have. */
  lemma ReachableOk(c: Config, ss: seq<State>, t: seq<Event>, k: nat) returns (cs: seq<seq<Cell>>)
    requires Run(c, ss, t) && k <= |t|
    ensures Inv(c.opts, c.pageSize, ss[k], cs) && |cs| == |ss[k].flags| >= c.n
    ensures forall ip, o :: 0 <= ip < |cs| && 0 <= o < c.pageSize ==>
      |cs[ip]| == c.pageSize && cs[ip][o] == Expect(t[..k], ip, o)
  {
    hide Inv;
    var disk: seq<Page> :| |disk| == c.n && Fresh(c.opts, c.n, c.pageSize, disk) == ss[0];
    NewPages(c, disk);
    cs := ReachableFrom(c, ss, t, Blank(c.n, c.pageSize), k);
    InvShape(c.opts, c.pageSize, ss[k], cs);
    forall ip, o | 0 <= ip < |cs| && 0 <= o < c.pageSize ensures cs[ip][o] == Expect(t[..k], ip, o) {
      assert Base(Blank(c.n, c.pageSize), ip, o) == Exactly(0);
    }
  }

  lemma NewPages(c: Config, disk: seq<Page>)
    requires |disk| == c.n && Shaped(Fresh(c.opts, c.n, c.pageSize, disk), c.pageSize)
    ensures Inv(c.opts, c.pageSize, Fresh(c.opts, c.n, c.pageSize, disk), Blank(c.n, c.pageSize))
  {
    FreshOk(c.opts, c.n, c.pageSize, disk);
  }

  /** Paging is transparent: in every run each load returns what plain memory holds there. */
  lemma Transparent(c: Config, ss: seq<State>, t: seq<Event>, k: nat)
    requires Run(c, ss, t) && k < |t| && t[k].Load?
    ensures Allows(Expect(t[..k], t[k].ip, t[k].o), t[k].v)
  {
    hide Inv;
    var cs := ReachableOk(c, ss, t, k);
    assert Enabled(c, ss[k], t[k]);
    PeekOk(c.opts, c.pageSize, ss[k], cs, t[k].ip, t[k].o);
  }

  /** The same from any state that agrees with known contents, such as that left by a remap. */
  lemma TransparentFrom(c: Config, ss: seq<State>, t: seq<Event>, cs0: seq<seq<Cell>>, k: nat)
    requires Steps(c, ss, t) && Inv(c.opts, c.pageSize, ss[0], cs0) && k < |t| && t[k].Load?
    ensures Allows(ExpectFrom(Base(cs0, t[k].ip, t[k].o), t[..k], t[k].ip, t[k].o), t[k].v)
  {
    hide Inv;
    var cs := ReachableFrom(c, ss, t, cs0, k);
    assert Enabled(c, ss[k], t[k]);
    InvShape(c.opts, c.pageSize, ss[k], cs);
    PeekOk(c.opts, c.pageSize, ss[k], cs, t[k].ip, t[k].o);
  }

  // ---------------------------------------------------------------- the last store

  predicate StoresTo(e: Event, ip: nat, o: nat) { e.Store? && e.ip == ip && e.o == o }

  /** The last value stored at a location, or zero. */
  ghost function LastStored(t: seq<Event>, ip: nat, o: nat): (r: Byte) {
    if t == [] then 0
    else if StoresTo(t[|t| - 1], ip, o) then t[|t| - 1].v else LastStored(t[..|t| - 1], ip, o)
  }

  /** Some clear has covered the page since the last store to the location. */
  ghost predicate ClearedSince(t: seq<Event>, ip: nat, o: nat) {
    exists j :: 0 <= j < |t| && t[j].Clearing? && t[j].beg <= ip < t[j].end
      && forall i :: j < i < |t| ==> !StoresTo(t[i], ip, o)
  }

  /** For a page that the allocation had from the start, a load returns exactly the last value stored there, or
      zero if there was none; only after a clear of that very page, and until the next store, may it be zero. */
  lemma LoadReturnsLastStore(c: Config, ss: seq<State>, t: seq<Event>, k: nat)
    requires Run(c, ss, t) && k < |t| && t[k].Load? && t[k].ip < c.n
    ensures var ip, o, v := t[k].ip, t[k].o, t[k].v;
      v == LastStored(t[..k], ip, o) || (v == 0 && ClearedSince(t[..k], ip, o))
  {
    Transparent(c, ss, t, k);
    NeverGrownOver(c, ss, t, k, t[k].ip);
    ExpectIsLastStore(t[..k], t[k].ip, t[k].o);
  }

  /** Growth only adds pages past those there are. */
  lemma NeverGrownOver(c: Config, ss: seq<State>, t: seq<Event>, k: nat, ip: nat)
    requires Run(c, ss, t) && k <= |t| && ip < c.n
    ensures forall j :: 0 <= j < k && t[j].Growing? ==> ip < t[j].on
  {
    hide Inv;
    forall j | 0 <= j < k && t[j].Growing? ensures ip < t[j].on {
      var cs := ReachableOk(c, ss, t, j);
      assert Enabled(c, ss[j], t[j]);
    }
  }

  lemma {:induction false} ExpectIsLastStore(t: seq<Event>, ip: nat, o: nat)
    requires forall j :: 0 <= j < |t| && t[j].Growing? ==> ip < t[j].on
    ensures Expect(t, ip, o)
      == if ClearedSince(t, ip, o) then ValueOrZero(LastStored(t, ip, o)) else Exactly(LastStored(t, ip, o))
  {
    if t != [] {
      var n := |t| - 1;
      ExpectIsLastStore(t[..n], ip, o);
      SinceStep(t, ip, o);
    }
  }

  lemma SinceStep(t: seq<Event>, ip: nat, o: nat)
    requires t != []
    ensures var e := t[|t| - 1];
      ClearedSince(t, ip, o) <==>
        (e.Clearing? && e.beg <= ip < e.end) || (!StoresTo(e, ip, o) && ClearedSince(t[..|t| - 1], ip, o))
  {
    var n := |t| - 1;
    if ClearedSince(t[..n], ip, o) && !StoresTo(t[n], ip, o) {
      var j :| 0 <= j < n && t[..n][j].Clearing? && t[..n][j].beg <= ip < t[..n][j].end
        && forall i :: j < i < n ==> !StoresTo(t[..n][i], ip, o);
      assert forall i :: j < i < |t| ==> !StoresTo(t[i], ip, o) by {
        forall i | j < i < |t| ensures !StoresTo(t[i], ip, o) { assert i < n ==> t[..n][i] == t[i]; }
      }
      assert t[j] == t[..n][j];
    }
    if ClearedSince(t, ip, o) {
      var j :| 0 <= j < |t| && t[j].Clearing? && t[j].beg <= ip < t[j].end
        && forall i :: j < i < |t| ==> !StoresTo(t[i], ip, o);
      if j < n { assert t[..n][j] == t[j]; }
    }
  }

  /** In every state of every run protection mirrors page status, so an access never needs more than
      two faults and never faults on a dirty page. */
  lemma ProtectionMirrorsStatus(c: Config, ss: seq<State>, t: seq<Event>, k: nat, ip: nat, write: bool)
    requires Run(c, ss, t) && k <= |t| && ip < |ss[k].flags|
    ensures var s := ss[k];
      && ip < |s.prot| && ProtOk(c.opts.inGhost, s.flags[ip], s.prot[ip])
      && (!PermitsAt(s, ip, write) ==> !s.flags[ip].dirty)
      && (|| PermitsAt(s, ip, write)
          || PermitsAt(Served(c.opts, s, ip), ip, write)
          || PermitsAt(Served(c.opts, Served(c.opts, s, ip), ip), ip, write))
  {
    var cs := ReachableOk(c, ss, t, k);
    var s := ss[k];
    assert PageOk(c.opts.inGhost, s.flags[ip], s.prot[ip], s.mem[ip], s.disk[ip], cs[ip]);
    TwoFaultsSuffice(c.opts, c.pageSize, s, cs, ip, write);
  }
}
