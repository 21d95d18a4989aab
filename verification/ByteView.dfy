/**
 The paging theorem at byte addresses, the way the application and the touch, evict and clear calls
 see an allocation: addresses are offsets from its base and ranges are given by address and length.
 */
module ByteView {
  import opened PageTable
  import opened Transparency

  datatype Call =
    | Get(a: nat, v: Byte)
    | Put(a: nat, v: Byte)
    | Segfault(a: nat, write: bool)
    | MTouch(a: nat, len: nat)
    | MEvict(a: nat, len: nat)
    | MClear(a: nat, len: nat)
    | MGrow(on: nat, stale: seq<Page>)

  /** Non-empty ranges inside an allocation of `n` pages, and growth by whole pages. */
  predicate Fits(n: nat, pageSize: nat, e: Call) {
    match e
    case Get(a, _) => a < n * pageSize
    case Put(a, _) => a < n * pageSize
    case Segfault(a, _) => a < n * pageSize
    case MTouch(a, len) => 0 < len && a + len <= n * pageSize
    case MEvict(a, len) => 0 < len && a + len <= n * pageSize
    case MClear(a, len) => 0 < len && a + len <= n * pageSize
    case MGrow(on, stale) => on == n && AllSized(stale, pageSize)
  }

  /** Touch and evict round the range outwards to pages, clear rounds it inwards. */
  function OnPages(pageSize: nat, e: Call): (r: Event)
    requires 0 < pageSize
  {
    match e
    case Get(a, v) => Load(a / pageSize, a % pageSize, v)
    case Put(a, v) => Store(a / pageSize, a % pageSize, v)
    case Segfault(a, w) => Segv(a / pageSize, w)
    case MTouch(a, len) => Touching(FloorPage(a, pageSize), if len == 0 then 0 else CeilPage(a, len, pageSize))
    case MEvict(a, len) => Evicting(FloorPage(a, pageSize), if len == 0 then 0 else CeilPage(a, len, pageSize))
    case MClear(a, len) => Clearing(FirstWhole(a, pageSize), EndWhole(a, len, pageSize))
    case MGrow(on, stale) => Growing(on, stale)
  }

  /** Touch and evict become events on exactly the pages that share a byte with the range, clear on exactly those that
      lie wholly in it. */
  lemma OnPagesExactly(pageSize: nat, e: Call, ip: nat)
    requires 0 < pageSize && (e.MTouch? || e.MEvict? || e.MClear?) && 0 < e.len
    ensures var ev := OnPages(pageSize, e);
      && ev.Touching? == e.MTouch? && ev.Evicting? == e.MEvict? && ev.Clearing? == e.MClear?
      && (!e.MClear? ==> (ev.beg <= ip < ev.end <==> ip * pageSize < e.a + e.len && e.a < (ip + 1) * pageSize))
      && (e.MClear? ==> (ev.beg <= ip < ev.end <==> e.a <= ip * pageSize && (ip + 1) * pageSize <= e.a + e.len))
  {
    TouchedPages(e.a, e.len, pageSize, ip);
    ClearedPages(e.a, e.len, pageSize, ip);
  }

  function AllOnPages(pageSize: nat, t: seq<Call>): (r: seq<Event>)
    requires 0 < pageSize
  {
    seq(|t|, i requires 0 <= i < |t| => OnPages(pageSize, t[i]))
  }

  /** What plain memory holds at byte `a`: the last value put there, zero if none; a clear whose range
      covers the whole page of `a` leaves that value or zero, and growth past `a` the byte left over or zero. */
  ghost function Holds(pageSize: nat, t: seq<Call>, a: nat): (r: Cell)
    requires 0 < pageSize
  {
    if t == [] then Exactly(0) else Becomes(pageSize, Holds(pageSize, t[..|t| - 1], a), a, t[|t| - 1])
  }

  ghost function Becomes(pageSize: nat, before: Cell, a: nat, e: Call): (r: Cell)
    requires 0 < pageSize
  {
    match e
    case Put(b, v) => if b == a then Exactly(v) else before
    case MClear(b, len) => if CoversPage(b, len, pageSize, a / pageSize) then Weaken(before) else before
    case MGrow(on, stale) =>
      if on * pageSize <= a < (on + |stale|) * pageSize then ValueOrZero(ByteOf(pageSize, stale, a - on * pageSize))
      else before
    case _ => before
  }

  /** Byte `a` of a stretch of pages. */
  function ByteOf(pageSize: nat, ps: seq<Page>, a: nat): Byte
    requires 0 < pageSize
  {
    if a / pageSize < |ps| && a % pageSize < |ps[a / pageSize]| then ps[a / pageSize][a % pageSize] else 0
  }

  /** Addresses past `on` pages are those of the pages that follow. */
  lemma PastPages(pageSize: nat, on: nat, k: nat, a: nat)
    requires 0 < pageSize
    ensures on * pageSize <= a < (on + k) * pageSize <==> on <= a / pageSize < on + k
    ensures on * pageSize <= a ==>
      (a - on * pageSize) / pageSize == a / pageSize - on && (a - on * pageSize) % pageSize == a % pageSize
  {
    DivBounds(a, pageSize, on);
    DivBounds(a, pageSize, on + k);
    if on * pageSize <= a {
      var q, o := a / pageSize, a % pageSize;
      assert a - on * pageSize == (q - on) * pageSize + o;
      DivIs(a - on * pageSize, q - on, o, pageSize);
    }
  }

  lemma DivIs(a: nat, q: nat, o: nat, d: nat)
    requires 0 < d && a == q * d + o && o < d
    ensures a / d == q && a % d == o
  {
    DivBounds(a, d, q);
    DivBounds(a, d, q + 1);
    assert (q + 1) * d == q * d + d;
  }

  predicate CoversPage(b: nat, len: nat, pageSize: nat, ip: nat) {
    b <= ip * pageSize && (ip + 1) * pageSize <= b + len
  }

  lemma SameAddress(pageSize: nat, a: nat, b: nat)
    requires 0 < pageSize
    ensures a / pageSize == b / pageSize && a % pageSize == b % pageSize <==> a == b
  {
    assert a == (a / pageSize) * pageSize + a % pageSize;
    assert b == (b / pageSize) * pageSize + b % pageSize;
  }

  lemma BecomesIsAfter(pageSize: nat, before: Cell, a: nat, e: Call)
    requires 0 < pageSize && (e.MGrow? ==> AllSized(e.stale, pageSize))
    ensures Becomes(pageSize, before, a, e) == After(before, a / pageSize, a % pageSize, OnPages(pageSize, e))
  {
    match e
    case Put(b, v) => SameAddress(pageSize, a, b);
    case MClear(b, len) => ClearedPages(b, len, pageSize, a / pageSize);
    case MGrow(on, stale) => PastPages(pageSize, on, |stale|, a);
    case _ =>
  }

  lemma {:induction false} HoldsIsExpect(pageSize: nat, t: seq<Call>, a: nat)
    requires 0 < pageSize && forall i :: 0 <= i < |t| && t[i].MGrow? ==> AllSized(t[i].stale, pageSize)
    ensures Holds(pageSize, t, a) == Expect(AllOnPages(pageSize, t), a / pageSize, a % pageSize)
  {
    hide OnPages, Becomes, After;
    if t != [] {
      HoldsIsExpect(pageSize, t[..|t| - 1], a);
      var u := AllOnPages(pageSize, t);
      assert u[..|u| - 1] == AllOnPages(pageSize, t[..|t| - 1]);
      BecomesIsAfter(pageSize, Holds(pageSize, t[..|t| - 1], a), a, t[|t| - 1]);
    }
  }

  /** In every run of calls, reading a byte returns what plain memory holds at that byte. */
  lemma TransparentBytes(c: Config, ss: seq<State>, t: seq<Call>, k: nat)
    requires 0 < c.pageSize && Run(c, ss, AllOnPages(c.pageSize, t)) && k < |t| && t[k].Get?
    ensures Allows(Holds(c.pageSize, t[..k], t[k].a), t[k].v)
  {
    Transparent(c, ss, AllOnPages(c.pageSize, t), k);
    forall i | 0 <= i < k && t[i].MGrow? ensures AllSized(t[i].stale, c.pageSize) {
      assert Enabled(c, ss[i], AllOnPages(c.pageSize, t)[i]);
    }
    HoldsIsExpect(c.pageSize, t[..k], t[k].a);
    assert AllOnPages(c.pageSize, t)[..k] == AllOnPages(c.pageSize, t[..k]);
  }

  /** Every call that fits the allocation becomes an event that stays inside it. */
  lemma FittingCallsStayInside(n: nat, pageSize: nat, e: Call)
    requires 0 < pageSize && Fits(n, pageSize, e)
    ensures match OnPages(pageSize, e)
      case Load(ip, o, _) => ip < n && o < pageSize
      case Store(ip, o, _) => ip < n && o < pageSize
      case Segv(ip, _) => ip < n
      case Touching(beg, end) => beg < end <= n
      case Evicting(beg, end) => beg < end <= n
      case Clearing(_, end) => end <= n
      case Growing(on, _) => on == n
  {
    match e
    case Get(a, _) => DivBounds(a, pageSize, n);
    case Put(a, _) => DivBounds(a, pageSize, n);
    case Segfault(a, _) => DivBounds(a, pageSize, n);
    case MTouch(a, len) => PagesInside(a, len, pageSize, n);
    case MEvict(a, len) => PagesInside(a, len, pageSize, n);
    case MClear(a, len) => PagesInside(a, len, pageSize, n);
    case MGrow(_, _) =>
  }
}
