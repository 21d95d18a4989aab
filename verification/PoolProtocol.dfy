/** The cross-process protocol over the shared pool. */
module PoolProtocol {
  import Admission
  import Accounting

  // A machine whose steps are the single reads and writes of the shared counters, semaphore operations and
  // signal deliveries of N processes.  A process has one application thread and one signal handler; the two
  // interleave freely.  Counters are integers: that they never go negative (and so never wrap) is a
  // theorem, not a type.

  /** Places inside `ipc_atomic_dec` releasing `k` pages; `r` is the value just read. */
  datatype Dec = ReadS | WriteS(r: int) | ReadC | WriteC(r: int)

  datatype Main =
    | Idle
    | AdmitWait(v: int)
    | AdmitRead(v: int)
    | AdmitTest(v: int, s: int)
    | Scan(v: int, s: int, i: nat, ii: int, mxC: int, mxD: nat)
    | Compare(v: int, s: int, i: nat, ii: int, mxC: int, mxD: nat)
    | Kill(v: int, s: int, to: nat, mxC: int)
    | Waiting(v: int, s: int, to: nat, mxC: int)
    | IncReadS(v: int) | IncWriteS(v: int, r: int) | IncReadC(v: int) | IncWriteC(v: int, r: int)
    | EvictWait(k: int)
    | Evicting(k: int, dec: Dec)
    | Release

  datatype Handler = Off | Test | Sweep(k: int) | Giving(k: int, dec: Dec) | Post

  /** `tbl` pages are charged in the allocation table; `owed` pages are charged but not in the table:
      admitted and not yet loaded, evicted and not yet released, or meta pages. */
  datatype Proc = Proc(charge: int, sigon: bool, pending: nat, main: Main, handler: Handler, tbl: int, owed: int)

  /** `mtx` and `done` are the two semaphores; the last four fields only count. */
  datatype State = State(maxMem: int, s: int, mtx: nat, done: nat, procs: seq<Proc>,
                         sent: nat, honoured: nat, posted: nat, taken: nat)

  datatype Action =
    | RequestAdmit(p: nat, v: int)
    | RequestEvict(p: nat, k: int)
    | Load(p: nat, k: int)
    | Unload(p: nat, k: int)
    | SetSignals(p: nat, on: bool)
    | MainStep(p: nat, admitd: bool, d1: nat, d2: nat)
    | Deliver(p: nat)
    | SweepSome(p: nat, k: int)
    | HandlerStep(p: nat)

  // ---------------------------------------------------------------- steps

  predicate Enabled(st: State, a: Action) {
    a.p < |st.procs| &&
    var P := st.procs[a.p];
    match a
    case RequestAdmit(p, v) => P.main == Idle && 0 < v
    case RequestEvict(p, k) => P.main == Idle && 0 <= k <= P.owed
    case Load(p, k) => P.main == Idle && 0 <= k <= P.owed
    case Unload(p, k) => P.main == Idle && 0 <= k <= P.tbl
    case SetSignals(p, on) => P.main == Idle
    case MainStep(p, admitd, d1, d2) =>
      && P.main != Idle
      && (P.main.AdmitWait? || P.main.EvictWait? ==> 0 < st.mtx)
      && (P.main.Waiting? ==> 0 < st.done)
      && (P.main.Compare? ==> P.main.i < |st.procs|)
      && (P.main.Kill? ==> P.main.to < |st.procs|)
    case Deliver(p) => 0 < P.pending && P.handler == Off
    case SweepSome(p, k) => P.handler.Sweep? && 0 <= k <= P.tbl
    case HandlerStep(p) => P.handler != Off
  }

  function SetProc(st: State, p: nat, P: Proc): State
    requires p < |st.procs|
  {
    st.(procs := st.procs[p := P])
  }

  function Apply(st: State, a: Action): State
    requires Enabled(st, a)
  {
    var P := st.procs[a.p];
    match a
    case RequestAdmit(p, v) => SetProc(st, p, P.(main := AdmitWait(v)))
    case RequestEvict(p, k) => SetProc(st, p, P.(main := EvictWait(k)))
    case Load(p, k) => SetProc(st, p, P.(tbl := P.tbl + k, owed := P.owed - k))
    case Unload(p, k) => SetProc(st, p, P.(tbl := P.tbl - k, owed := P.owed + k))
    case SetSignals(p, on) => SetProc(st, p, P.(sigon := on))
    case MainStep(p, admitd, d1, d2) => MainNext(st, p, admitd, d1, d2)
    case Deliver(p) => SetProc(st, p, P.(pending := P.pending - 1, handler := Test))
    case SweepSome(p, k) => SetProc(st, p, P.(tbl := P.tbl - k, handler := Sweep(P.handler.k + k)))
    case HandlerStep(p) => HandlerNext(st, p)
  }

  function MainNext(st: State, p: nat, admitd: bool, d1: nat, d2: nat): State
    requires Enabled(st, MainStep(p, admitd, d1, d2))
  {
    var P := st.procs[p];
    match P.main
    case AdmitWait(v) => SetProc(st.(mtx := st.mtx - 1), p, P.(main := AdmitRead(v)))
    case AdmitRead(v) => SetProc(st, p, P.(main := AdmitTest(v, st.s)))
    case AdmitTest(v, s) =>
      SetProc(st, p, P.(main := if s < v then Scan(v, s, 0, -1, 0, 0xFFFF_FFFF_FFFF_FFFF) else IncReadS(v)))
    case Scan(v, s, i, ii, mxC, mxD) =>
      SetProc(st, p, P.(main :=
        if i < |st.procs| then
          if i != p && Counts(st.procs[i]) then Compare(v, s, i, ii, mxC, mxD) else Scan(v, s, i + 1, ii, mxC, mxD)
        else if ii < 0 then AdmitTest(v, s) else Kill(v, s, ii, mxC)))
    case Compare(v, s, i, ii, mxC, mxD) =>
      var c := st.procs[i].charge;
      SetProc(st, p, P.(main :=
        if Admission.Better(v - s, admitd, c, d1, mxC, mxD)
        then Scan(v, s, i + 1, i, c, d2) else Scan(v, s, i + 1, ii, mxC, mxD)))
    case Kill(v, s, ii, mxC) =>
      var st1 := SetProc(st, ii, st.procs[ii].(pending := st.procs[ii].pending + 1));
      SetProc(st1.(sent := st.sent + 1), p, st1.procs[p].(main := Waiting(v, s, ii, mxC)))
    case Waiting(v, s, ii, mxC) =>
      SetProc(st.(done := st.done - 1, taken := st.taken + 1), p, P.(main := AdmitRead(v)))
    case IncReadS(v) => SetProc(st, p, P.(main := IncWriteS(v, st.s)))
    case IncWriteS(v, r) => SetProc(st.(s := r - v), p, P.(main := IncReadC(v)))
    case IncReadC(v) => SetProc(st, p, P.(main := IncWriteC(v, P.charge)))
    case IncWriteC(v, r) => SetProc(st, p, P.(main := Release, charge := r + v, owed := P.owed + v))
    case EvictWait(k) => SetProc(st.(mtx := st.mtx - 1), p, P.(main := Evicting(k, ReadS)))
    case Evicting(k, ReadS) => SetProc(st, p, P.(main := Evicting(k, WriteS(st.s))))
    case Evicting(k, WriteS(r)) => SetProc(st.(s := r + k), p, P.(main := Evicting(k, ReadC)))
    case Evicting(k, ReadC) => SetProc(st, p, P.(main := Evicting(k, WriteC(P.charge))))
    case Evicting(k, WriteC(r)) => SetProc(st, p, P.(main := Release, charge := r - k, owed := P.owed - k))
    case Release => SetProc(st.(mtx := st.mtx + 1), p, P.(main := Idle))
  }

  function HandlerNext(st: State, p: nat): State
    requires Enabled(st, HandlerStep(p))
  {
    var P := st.procs[p];
    match P.handler
    case Test =>
      if Counts(P) then SetProc(st.(honoured := st.honoured + 1), p, P.(handler := Sweep(0)))
      else SetProc(st, p, P.(handler := Post))
    case Sweep(k) => SetProc(st, p, P.(handler := Giving(k, ReadS)))
    case Giving(k, ReadS) => SetProc(st, p, P.(handler := Giving(k, WriteS(st.s))))
    case Giving(k, WriteS(r)) => SetProc(st.(s := r + k), p, P.(handler := Giving(k, ReadC)))
    case Giving(k, ReadC) => SetProc(st, p, P.(handler := Giving(k, WriteC(P.charge))))
    case Giving(k, WriteC(r)) => SetProc(st, p, P.(handler := Post, charge := r - k))
    case Post => SetProc(st.(done := st.done + 1, posted := st.posted + 1), p, P.(handler := Off))
  }

  /** The eligibility test on one process; negative charges cannot occur. */
  predicate Counts(P: Proc) { Admission.Eligible(if P.charge < 0 then 0 else P.charge, P.sigon) }

  predicate Initial(st: State) {
    && 0 <= st.maxMem == st.s && st.mtx == 1 && st.done == 0
    && st.sent == st.honoured == st.posted == st.taken == 0
    && forall j :: 0 <= j < |st.procs| ==> Fresh(st.procs[j])
  }

  predicate Fresh(P: Proc) {
    P.charge == P.tbl == P.owed == 0 && P.pending == 0 && P.main == Idle && P.handler == Off
  }

  // ---------------------------------------------------------------- the invariant

  /** In possession of `inter_mtx`. */
  predicate Holding(m: Main) { !(m.Idle? || m.AdmitWait? || m.EvictWait?) }

  /** Pages a handler has taken out of the table and not yet released. */
  function Rel(h: Handler): int { match h case Sweep(k) => k case Giving(k, dec) => k case _ => 0 }

  predicate Local(P: Proc, holds: bool, signalled: bool) {
    && P.charge == P.tbl + P.owed + Rel(P.handler) && 0 <= P.tbl && 0 <= P.owed && 0 <= Rel(P.handler)
    && (Holding(P.main) <==> holds)
    && (!signalled ==> P.pending == 0 && P.handler == Off)
    && (P.main.AdmitWait? ==> 0 < P.main.v)
    && (P.main.EvictWait? || P.main.Evicting? ==> 0 <= P.main.k <= P.owed)
  }

  function Total(procs: seq<Proc>): int {
    if procs == [] then 0 else Total(procs[..|procs| - 1]) + procs[|procs| - 1].charge
  }

  /** The process a waiting holder has signalled. */
  function Target(st: State, h: int): int
    requires -1 <= h < |st.procs|
  {
    if h != -1 && st.procs[h].main.Waiting? then st.procs[h].main.to else -1
  }

  /** Pages added to `s_mem` by a release in progress but still in `c_mem`. */
  function Early(k: int, dec: Dec): int { if dec.ReadC? || dec.WriteC? then k else 0 }

  /** What a value read earlier in `ipc_atomic_dec` still equals. */
  predicate Current(dec: Dec, s: int, charge: int) {
    match dec case WriteS(r) => r == s case WriteC(r) => r == charge case _ => true
  }

  /** By how much free pages and charges together differ from the total: nonzero only inside an update. */
  function Skew(st: State, h: int): int
    requires -1 <= h < |st.procs|
  {
    if h == -1 then 0 else
      match st.procs[h].main
      case IncReadC(v) => -v
      case IncWriteC(v, r) => -v
      case Evicting(k, dec) => Early(k, dec)
      case Waiting(v, s, ii, mxC) => (
        if ii < |st.procs| && st.procs[ii].handler.Giving?
        then Early(st.procs[ii].handler.k, st.procs[ii].handler.dec) else 0)
      case _ => 0
  }

  /** The best so far among the first `upTo` processes; no charge is hidden from the scan below 2^32 pages. */
  predicate Best(st: State, h: int, need: int, upTo: nat, ii: int, mxC: int) {
    && -1 <= ii < |st.procs| && ii != h
    && (if ii == -1 then mxC == 0 else mxC == st.procs[ii].charge && 0 < mxC)
    && (st.maxMem < Admission.IntRange && mxC < need ==>
          forall j :: 0 <= j < upTo && j < |st.procs| && j != h ==> st.procs[j].charge <= mxC)
  }

  predicate HolderOk(st: State, h: int)
    requires 0 <= h < |st.procs|
  {
    match st.procs[h].main
    case AdmitRead(v) => 0 < v
    case AdmitTest(v, s) => 0 < v && s == st.s
    case Scan(v, s, i, ii, mxC, mxD) => s == st.s < v && Best(st, h, v - s, i, ii, mxC)
    case Compare(v, s, i, ii, mxC, mxD) =>
      s == st.s < v && i < |st.procs| && i != h && Best(st, h, v - s, i, ii, mxC)
    case Kill(v, s, ii, mxC) => s == st.s < v && Best(st, h, v - s, |st.procs|, ii, mxC)
    case Waiting(v, s, ii, mxC) => ii != h && ii < |st.procs| && 0 < mxC && 0 < v && TargetOk(st, st.procs[ii], mxC)
    case IncReadS(v) => 0 < v <= st.s
    case IncWriteS(v, r) => 0 < v <= r == st.s
    case IncReadC(v) => 0 < v
    case IncWriteC(v, r) => 0 < v && r == st.procs[h].charge
    case Evicting(k, dec) => Current(dec, st.s, st.procs[h].charge)
    case _ => true
  }

  /** The signalled process: the signal is in exactly one place, and its charge is the one that was chosen. */
  predicate TargetOk(st: State, T: Proc, mxC: int) {
    && st.done + Outstanding(T) == 1
    && (T.pending == 1 || !(T.handler.Off? || T.handler.Post?) ==> T.charge == mxC)
    && (T.handler.Giving? ==> Current(T.handler.dec, st.s, T.charge))
  }

  /** Signals to a process that its handler has not yet answered. */
  function Outstanding(P: Proc): nat { P.pending + if P.handler == Off then 0 else 1 }

  /** Of those, the ones whose eligibility test is still to come. */
  function Untested(P: Proc): nat { P.pending + if P.handler == Test then 1 else 0 }

  predicate Tallies(st: State, h: int)
    requires -1 <= h < |st.procs|
  {
    var t := Target(st, h);
    && st.posted == st.taken + st.done
    && (0 <= t < |st.procs| ==> st.sent == st.posted + Outstanding(st.procs[t]))
    && (!(0 <= t < |st.procs|) ==> st.sent == st.posted && st.done == 0)
    && (st.maxMem < Admission.IntRange ==>
          st.sent == st.honoured + if 0 <= t < |st.procs| then Untested(st.procs[t]) else 0)
  }

  predicate Inv(st: State, h: int) {
    && -1 <= h < |st.procs|
    && st.mtx == (if h == -1 then 1 else 0)
    && 0 <= st.s
    && (forall j :: 0 <= j < |st.procs| ==> Local(st.procs[j], j == h, j == Target(st, h)))
    && st.s + Total(st.procs) == st.maxMem + Skew(st, h)
    && (h != -1 ==> HolderOk(st, h))
    && Tallies(st, h)
  }

  // ---------------------------------------------------------------- every step keeps it

  lemma {:induction false} TotalUpdate(procs: seq<Proc>, p: nat, P: Proc)
    requires p < |procs|
    ensures Total(procs[p := P]) == Total(procs) - procs[p].charge + P.charge
  {
    var n := |procs| - 1;
    if p < n {
      TotalUpdate(procs[..n], p, P);
      assert procs[p := P][..n] == procs[..n][p := P];
    } else {
      assert procs[p := P][..n] == procs[..n];
    }
  }

  lemma {:induction false} TotalBounds(procs: seq<Proc>, p: nat)
    requires forall j :: 0 <= j < |procs| ==> 0 <= procs[j].charge
    ensures 0 <= Total(procs) && (p < |procs| ==> procs[p].charge <= Total(procs))
  {
    if procs != [] { TotalBounds(procs[..|procs| - 1], p); }
  }

  /** Who holds the mutex after a step of the application thread of `p`. */
  function HolderAfter(st: State, h: int, p: nat): int
    requires p < |st.procs|
  {
    match st.procs[p].main
    case AdmitWait(v) => p
    case EvictWait(k) => p
    case Release => -1
    case _ => h
  }

  /** While nothing is being updated a charge lies between zero and the total. */
  lemma ChargeBounds(st: State, h: int, j: nat)
    requires Inv(st, h) && Skew(st, h) == 0 && j < |st.procs|
    ensures 0 <= st.procs[j].charge <= st.maxMem
    ensures st.maxMem < Admission.IntRange && !Counts(st.procs[j]) ==> st.procs[j].charge == 0
  {
    TotalBounds(st.procs, j);
  }

  /** Steps that change one process and keep the holder and its target. */
  lemma OneProc(st: State, h: int, st': State, p: nat)
    requires Inv(st, h) && p < |st.procs| == |st'.procs|
    requires st'.procs == st.procs[p := st'.procs[p]] && st'.mtx == st.mtx && 0 <= st'.s && st'.maxMem == st.maxMem
    requires Target(st', h) == Target(st, h) && Local(st'.procs[p], p == h, p == Target(st, h))
    requires st'.s + st'.procs[p].charge - Skew(st', h) == st.s + st.procs[p].charge - Skew(st, h)
    requires h != -1 ==> HolderOk(st', h)
    requires Tallies(st', h)
    ensures Inv(st', h)
  {
    hide Total;
    TotalUpdate(st.procs, p, st'.procs[p]);
  }

  lemma ScanKeeps(st: State, p: nat, admitd: bool, d1: nat, d2: nat)
    requires Inv(st, p) && Enabled(st, MainStep(p, admitd, d1, d2))
    requires st.procs[p].main.Scan? || st.procs[p].main.Compare?
    ensures Inv(MainNext(st, p, admitd, d1, d2), p)
  {
    hide Total;
    var st' := MainNext(st, p, admitd, d1, d2);
    var i := st.procs[p].main.i;
    if i < |st.procs| { ChargeBounds(st, p, i); }
    OneProc(st, p, st', p);
  }

  lemma KillKeeps(st: State, p: nat, admitd: bool, d1: nat, d2: nat)
    requires Inv(st, p) && Enabled(st, MainStep(p, admitd, d1, d2)) && st.procs[p].main.Kill?
    ensures Inv(MainNext(st, p, admitd, d1, d2), p)
  {
    hide Total;
    var st' := MainNext(st, p, admitd, d1, d2);
    var to := st.procs[p].main.to;
    TotalUpdate(st.procs, to, st'.procs[to]);
    TotalUpdate(st.procs[to := st'.procs[to]], p, st'.procs[p]);
    assert Local(st.procs[to], to == p, to == Target(st, p));
  }

  /** Taking and giving up the mutex, and coming back from `done`. */
  lemma LockKeeps(st: State, h: int, p: nat, admitd: bool, d1: nat, d2: nat)
    requires Inv(st, h) && Enabled(st, MainStep(p, admitd, d1, d2))
    requires var m := st.procs[p].main; m.AdmitWait? || m.EvictWait? || m.Release? || m.Waiting?
    ensures Inv(MainNext(st, p, admitd, d1, d2), HolderAfter(st, h, p))
  {
    hide Total;
    var st' := MainNext(st, p, admitd, d1, d2);
    assert Local(st.procs[p], p == h, p == Target(st, h));
    TotalUpdate(st.procs, p, st'.procs[p]);
  }

  lemma UpdateKeeps(st: State, p: nat, admitd: bool, d1: nat, d2: nat)
    requires Inv(st, p) && Enabled(st, MainStep(p, admitd, d1, d2))
    requires var m := st.procs[p].main;
      m.AdmitRead? || m.AdmitTest? || m.IncReadS? || m.IncWriteS? || m.IncReadC? || m.IncWriteC?
    ensures Inv(MainNext(st, p, admitd, d1, d2), p)
  {
    hide Total;
    assert Local(st.procs[p], true, p == Target(st, p));
    OneProc(st, p, MainNext(st, p, admitd, d1, d2), p);
  }

  lemma EvictKeeps(st: State, p: nat, admitd: bool, d1: nat, d2: nat)
    requires Inv(st, p) && Enabled(st, MainStep(p, admitd, d1, d2)) && st.procs[p].main.Evicting?
    ensures Inv(MainNext(st, p, admitd, d1, d2), p)
  {
    hide Total;
    assert Local(st.procs[p], true, p == Target(st, p));
    OneProc(st, p, MainNext(st, p, admitd, d1, d2), p);
  }

  lemma MainKeeps(st: State, h: int, p: nat, admitd: bool, d1: nat, d2: nat)
    requires Inv(st, h) && Enabled(st, MainStep(p, admitd, d1, d2))
    ensures Inv(MainNext(st, p, admitd, d1, d2), HolderAfter(st, h, p))
  {
    hide Total, MainNext, HolderOk, Tallies, Skew;
    var m := st.procs[p].main;
    assert Local(st.procs[p], p == h, p == Target(st, h));
    if m.AdmitWait? || m.EvictWait? || m.Release? || m.Waiting? {
      LockKeeps(st, h, p, admitd, d1, d2);
    } else if m.Scan? || m.Compare? {
      ScanKeeps(st, p, admitd, d1, d2);
    } else if m.Kill? {
      KillKeeps(st, p, admitd, d1, d2);
    } else if m.Evicting? {
      EvictKeeps(st, p, admitd, d1, d2);
    } else {
      UpdateKeeps(st, p, admitd, d1, d2);
    }
  }

  lemma GivingKeeps(st: State, h: int, p: nat)
    requires Inv(st, h) && Enabled(st, HandlerStep(p)) && st.procs[p].handler.Giving?
    ensures Inv(HandlerNext(st, p), h)
  {
    hide Total;
    assert Local(st.procs[p], p == h, p == Target(st, h));
    OneProc(st, h, HandlerNext(st, p), p);
  }

  lemma HandlerKeeps(st: State, h: int, p: nat)
    requires Inv(st, h) && Enabled(st, HandlerStep(p))
    ensures Inv(HandlerNext(st, p), h)
  {
    hide Total;
    if st.procs[p].handler.Giving? {
      GivingKeeps(st, h, p);
    } else {
      assert Local(st.procs[p], p == h, p == Target(st, h));
      if st.procs[p].handler.Test? { ChargeBounds(st, h, p); }
      OneProc(st, h, HandlerNext(st, p), p);
    }
  }

  function HolderNext(st: State, h: int, a: Action): int
    requires Enabled(st, a)
  {
    if a.MainStep? then HolderAfter(st, h, a.p) else h
  }

  /** A process that does not hold the mutex may change what the others do not look at. */
  lemma Aside(st: State, h: int, p: nat, P: Proc)
    requires Inv(st, h) && p < |st.procs| && p != h && Local(P, false, p == Target(st, h))
    requires P.charge == st.procs[p].charge && P.pending == st.procs[p].pending && P.handler == st.procs[p].handler
    ensures Inv(SetProc(st, p, P), h)
  {
    hide Total;
    OneProc(st, h, SetProc(st, p, P), p);
  }

  /** Steps of a thread outside the protocol: they change no shared counter. */
  lemma IdleKeeps(st: State, h: int, a: Action)
    requires Inv(st, h) && Enabled(st, a) && st.procs[a.p].main == Idle
    requires a.RequestAdmit? || a.RequestEvict? || a.Load? || a.Unload? || a.SetSignals?
    ensures Inv(Apply(st, a), h)
  {
    hide Total, MainNext, HandlerNext, HolderOk, Tallies, Skew;
    assert Local(st.procs[a.p], a.p == h, a.p == Target(st, h));
    Aside(st, h, a.p, Apply(st, a).procs[a.p]);
  }

  /** The start of a handler and its walk over the allocation table. */
  lemma SignalKeeps(st: State, h: int, a: Action)
    requires Inv(st, h) && Enabled(st, a) && (a.Deliver? || a.SweepSome?)
    ensures Inv(Apply(st, a), h)
  {
    hide Total, MainNext, HandlerNext;
    assert Local(st.procs[a.p], a.p == h, a.p == Target(st, h));
    OneProc(st, h, Apply(st, a), a.p);
  }

  lemma StepKeeps(st: State, h: int, a: Action)
    requires Inv(st, h) && Enabled(st, a)
    ensures Inv(Apply(st, a), HolderNext(st, h, a))
  {
    hide Inv, MainNext, HandlerNext;
    match a
    case MainStep(p, admitd, d1, d2) => MainKeeps(st, h, p, admitd, d1, d2);
    case HandlerStep(p) => HandlerKeeps(st, h, p);
    case Deliver(p) => SignalKeeps(st, h, a);
    case SweepSome(p, k) => SignalKeeps(st, h, a);
    case _ => IdleKeeps(st, h, a);
  }

  // ---------------------------------------------------------------- every run

  /** Every action of the run is enabled when it is taken. */
  ghost predicate Legal(st: State, acts: seq<Action>)
    decreases |acts|
  {
    acts == [] || (Enabled(st, acts[0]) && Legal(Apply(st, acts[0]), acts[1..]))
  }

  ghost function After(st: State, acts: seq<Action>): State
    requires Legal(st, acts)
    decreases |acts|
  {
    if acts == [] then st else After(Apply(st, acts[0]), acts[1..])
  }

  lemma InitialOk(st: State)
    requires Initial(st)
    ensures Inv(st, -1)
  {
    NoCharge(st.procs);
  }

  lemma NoCharge(procs: seq<Proc>)
    requires forall j :: 0 <= j < |procs| ==> Fresh(procs[j])
    ensures Total(procs) == 0
  {
  }

  lemma {:induction false} RunKeeps(st: State, h: int, acts: seq<Action>) returns (h': int)
    requires Inv(st, h) && Legal(st, acts)
    ensures Inv(After(st, acts), h')
    decreases |acts|
  {
    hide Inv, Apply;
    if acts == [] {
      h' := h;
    } else {
      StepKeeps(st, h, acts[0]);
      h' := RunKeeps(Apply(st, acts[0]), HolderNext(st, h, acts[0]), acts[1..]);
    }
  }

  /** Between the read of `s_mem` that an update starts with and the write of `c_mem` that ends it. */
  predicate MainUpdates(m: Main) {
    m.IncWriteS? || m.IncReadC? || m.IncWriteC? || (m.Evicting? && m.dec != ReadS)
  }

  predicate HandlerUpdates(h: Handler) { h.Giving? && h.dec != ReadS }

  /** The one update that may be in progress: by a mutex holder, or by the process it waits for. */
  predicate Updating(st: State, p: nat, byHandler: bool)
    requires p < |st.procs|
  {
    if byHandler then HandlerUpdates(st.procs[p].handler) else MainUpdates(st.procs[p].main)
  }

  ghost predicate OneUpdater(st: State) {
    forall p: nat, q: nat, b: bool, c: bool ::
      p < |st.procs| && q < |st.procs| && Updating(st, p, b) && Updating(st, q, c) ==> p == q && b == c
  }

  ghost predicate Quiescent(st: State) { forall p: nat, b: bool :: p < |st.procs| ==> !Updating(st, p, b) }

  /** Shared-pool safety in every interleaving: never two updates at once, pages are conserved whenever
      none is in progress, and no counter goes negative. */
  lemma PoolIsSafe(st0: State, acts: seq<Action>)
    requires Initial(st0) && Legal(st0, acts)
    ensures var st := After(st0, acts);
      && OneUpdater(st)
      && (Quiescent(st) ==> st.s + Total(st.procs) == st.maxMem)
      && 0 <= st.s && (forall j :: 0 <= j < |st.procs| ==> 0 <= st.procs[j].charge)
  {
    InitialOk(st0);
    var h := RunKeeps(st0, -1, acts);
    SafeNow(After(st0, acts), h);
  }

  lemma SafeNow(st: State, h: int)
    requires Inv(st, h)
    ensures OneUpdater(st)
    ensures Quiescent(st) ==> st.s + Total(st.procs) == st.maxMem
    ensures 0 <= st.s && (forall j :: 0 <= j < |st.procs| ==> 0 <= st.procs[j].charge)
  {
    hide Total;
    forall p: nat, b: bool | p < |st.procs| && Updating(st, p, b)
      ensures h != -1 && (if b then Target(st, h) == p else h == p && !st.procs[h].main.Waiting?)
    {
      assert Local(st.procs[p], p == h, p == Target(st, h));
    }
    if Quiescent(st) && h != -1 {
      assert !Updating(st, h, false);
      if st.procs[h].main.Waiting? { assert !Updating(st, st.procs[h].main.to, true); }
    }
  }

  /** Signals of a process not yet answered, summed over all processes. */
  function AllOutstanding(procs: seq<Proc>): nat {
    if procs == [] then 0 else AllOutstanding(procs[..|procs| - 1]) + Outstanding(procs[|procs| - 1])
  }

  lemma {:induction false} OutstandingAt(procs: seq<Proc>, t: int)
    requires forall j :: 0 <= j < |procs| && j != t ==> Outstanding(procs[j]) == 0
    ensures AllOutstanding(procs) == if 0 <= t < |procs| then Outstanding(procs[t]) else 0
  {
    if procs != [] { OutstandingAt(procs[..|procs| - 1], t); }
  }

  /** The signal protocol balances in every interleaving: at most one signal is unanswered or its answer
      unread, every answer belongs to one signal, nobody signals itself; and below 2^32 pages every signal
      whose handler has got as far as its test was honoured. */
  lemma SignalsBalance(st0: State, acts: seq<Action>)
    requires Initial(st0) && Legal(st0, acts)
    ensures var st := After(st0, acts);
      && AllOutstanding(st.procs) + st.done <= 1
      && st.sent == st.posted + AllOutstanding(st.procs) && st.posted == st.taken + st.done
      && (forall j ::
           0 <= j < |st.procs| && (st.procs[j].main.Kill? || st.procs[j].main.Waiting?) ==> st.procs[j].main.to != j)
      && (st.maxMem < Admission.IntRange ==>
            && st.honoured <= st.sent <= st.honoured + 1
            && (forall j :: 0 <= j < |st.procs| && st.procs[j].handler == Test ==> Counts(st.procs[j]))
            && (AllOutstanding(st.procs) == 0 ==> st.sent == st.honoured))
  {
    InitialOk(st0);
    var h := RunKeeps(st0, -1, acts);
    BalancedNow(After(st0, acts), h);
  }

  lemma BalancedNow(st: State, h: int)
    requires Inv(st, h)
    ensures AllOutstanding(st.procs) + st.done <= 1
    ensures st.sent == st.posted + AllOutstanding(st.procs) && st.posted == st.taken + st.done
    ensures forall j :: 0 <= j < |st.procs| && (st.procs[j].main.Kill? || st.procs[j].main.Waiting?) ==>
      st.procs[j].main.to != j
    ensures st.maxMem < Admission.IntRange ==>
      && st.honoured <= st.sent <= st.honoured + 1
      && (forall j :: 0 <= j < |st.procs| && st.procs[j].handler == Test ==> Counts(st.procs[j]))
      && (AllOutstanding(st.procs) == 0 ==> st.sent == st.honoured)
  {
    hide Total;
    var t := Target(st, h);
    OutstandingAt(st.procs, t);
    if st.maxMem < Admission.IntRange {
      forall j | 0 <= j < |st.procs| && st.procs[j].handler == Test ensures Counts(st.procs[j]) {
        ChargeBounds(st, h, j);
      }
    }
    forall j | 0 <= j < |st.procs| && Holding(st.procs[j].main) ensures j == h {
      assert Local(st.procs[j], j == h, j == t);
    }
  }

  /** The charge a victim was chosen for is still its charge when its handler makes the test, so the test
      comes out as it did for the admitter unless signalling was switched in between. */
  lemma VictimIsStable(st0: State, acts: seq<Action>, p: nat)
    requires Initial(st0) && Legal(st0, acts)
    requires p < |After(st0, acts).procs| && After(st0, acts).procs[p].handler == Test
    ensures var st := After(st0, acts);
      exists h :: 0 <= h < |st.procs| && h != p && st.procs[h].main.Waiting? && st.procs[h].main.to == p
        && 0 < st.procs[h].main.mxC == st.procs[p].charge
  {
    InitialOk(st0);
    var h := RunKeeps(st0, -1, acts);
    var st := After(st0, acts);
    assert Local(st.procs[p], p == h, p == Target(st, h));
    assert HolderOk(st, h) && st.procs[h].main.to == p;
  }

  /** From the start of a scan to the signal no step of anyone changes a counter the scan looks at. */
  lemma ScanSeesOneMoment(st: State, h: int, a: Action)
    requires Inv(st, h) && h != -1 && Enabled(st, a)
    requires st.procs[h].main.Scan? || st.procs[h].main.Compare? || st.procs[h].main.Kill?
    ensures Apply(st, a).s == st.s
    ensures forall j :: 0 <= j < |st.procs| ==> Apply(st, a).procs[j].charge == st.procs[j].charge
  {
    hide Total;
    assert Local(st.procs[a.p], a.p == h, a.p == Target(st, h));
  }

  /** In every interleaving and whatever the reads of dirty counters return, a process about to be
      signalled has a charge, and covers the shortfall if any other process does. */
  lemma VictimCovers(st0: State, acts: seq<Action>, h: nat, j: nat)
    requires Initial(st0) && Legal(st0, acts)
    requires h < |After(st0, acts).procs| && After(st0, acts).procs[h].main.Kill?
    ensures var st := After(st0, acts); var m := st.procs[h].main;
      && m.to < |st.procs| && m.s == st.s && 0 < st.procs[m.to].charge
      && (st.maxMem < Admission.IntRange && j < |st.procs| && j != h && st.procs[j].charge >= m.v - st.s ==>
            st.procs[m.to].charge >= m.v - st.s)
  {
    InitialOk(st0);
    var g := RunKeeps(st0, -1, acts);
    var st := After(st0, acts);
    assert Local(st.procs[h], h == g, h == Target(st, g));
  }

  // ---------------------------------------------------------------- every request is met

  /** By how much a request is to change the charge of its process. */
  function Asked(m: Main): int {
    match m
    case Idle => 0 case Release => 0
    case EvictWait(k) => -k case Evicting(k, dec) => -k
    case _ => m.v
  }

  /** A request has been made and not yet been met. */
  predicate Unmet(m: Main) { !m.Idle? && !m.Release? }

  /** The same kind of request. */
  predicate SameKind(m: Main, m': Main) { (m.EvictWait? || m.Evicting?) == (m'.EvictWait? || m'.Evicting?) }

  /** What a step may do to a process with a request: leave it with the same request and, if it has the mutex, the same
      pages; or meet the request, which changes its charge outside the table by exactly what was asked for. */
  predicate Serves(P: Proc, P': Proc) {
    && (Holding(P.main) ==> P'.tbl == P.tbl)
    && (|| (&& Unmet(P'.main) && SameKind(P.main, P'.main) && Asked(P'.main) == Asked(P.main)
            && (Holding(P.main) ==> Holding(P'.main) && P'.charge == P.charge && P'.owed == P.owed))
        || (&& P'.main == Release && Holding(P.main) && P'.charge == P.charge + Asked(P.main)
            && P'.owed == P.owed + Asked(P.main)))
  }

  lemma OwnServes(st: State, h: int, p: nat, admitd: bool, d1: nat, d2: nat)
    requires Inv(st, h) && Enabled(st, MainStep(p, admitd, d1, d2)) && Unmet(st.procs[p].main)
    ensures |MainNext(st, p, admitd, d1, d2).procs| == |st.procs|
    ensures Serves(st.procs[p], MainNext(st, p, admitd, d1, d2).procs[p])
  {
    hide Total, Skew, Tallies, Best;
    assert Local(st.procs[p], p == h, p == Target(st, h));
  }

  lemma OthersServe(st: State, h: int, a: Action, p: nat)
    requires Inv(st, h) && Enabled(st, a) && p < |st.procs| && Unmet(st.procs[p].main) && !(a.MainStep? && a.p == p)
    ensures |Apply(st, a).procs| == |st.procs| && Serves(st.procs[p], Apply(st, a).procs[p])
  {
    hide Total, Skew, Tallies, Best;
    assert Local(st.procs[p], p == h, p == Target(st, h));
    assert Local(st.procs[a.p], a.p == h, a.p == Target(st, h));
  }

  /** No step of anyone changes what a process has asked for.  It waits until it has the mutex; from then on its
      charge stays as it is until the request is met, and then it has changed by exactly what was asked for, outside
      the table. */
  lemma StepServes(st: State, h: int, a: Action, p: nat)
    requires Inv(st, h) && Enabled(st, a) && p < |st.procs| && Unmet(st.procs[p].main)
    ensures |Apply(st, a).procs| == |st.procs| && Serves(st.procs[p], Apply(st, a).procs[p])
  {
    hide Inv, MainNext, Serves;
    if a.MainStep? && a.p == p { OwnServes(st, h, p, a.admitd, a.d1, a.d2); } else { OthersServe(st, h, a, p); }
  }

  /** Process `p` does not stand at the end of its request before the last of these actions. */
  ghost predicate NotYet(st: State, p: nat, acts: seq<Action>)
    decreases |acts|
  {
    || acts == []
    || (&& p < |st.procs| && !st.procs[p].main.Release? && Enabled(st, acts[0])
        && NotYet(Apply(st, acts[0]), p, acts[1..]))
  }

  lemma {:induction false} RunServes(st: State, h: int, acts: seq<Action>, p: nat)
    requires Inv(st, h) && Legal(st, acts) && NotYet(st, p, acts)
    requires p < |st.procs| && Holding(st.procs[p].main) && !st.procs[p].main.Release?
    ensures |After(st, acts).procs| == |st.procs|
    ensures var P, P' := st.procs[p], After(st, acts).procs[p];
      || (Unmet(P'.main) && Holding(P'.main) && Asked(P'.main) == Asked(P.main) && P'.charge == P.charge)
      || (P'.main == Release && P'.charge == P.charge + Asked(P.main))
    decreases |acts|
  {
    hide Inv, Apply, Enabled;
    if acts != [] {
      StepKeeps(st, h, acts[0]);
      StepServes(st, h, acts[0], p);
      var st' := Apply(st, acts[0]);
      if st'.procs[p].main.Release? {
        assert acts[1..] == [];
      } else {
        RunServes(st', HolderNext(st, h, acts[0]), acts[1..], p);
      }
    }
  }

  /** In every interleaving, a process that has the mutex for a request of `v` pages and comes to the end of it is
      charged exactly `v` pages more than when it got the mutex, and nothing else changed its charge meanwhile. */
  lemma AdmissionGrants(st0: State, before: seq<Action>, p: nat, v: int, acts: seq<Action>)
    requires Initial(st0) && Legal(st0, before) && p < |After(st0, before).procs|
    requires After(st0, before).procs[p].main == AdmitRead(v)
    requires Legal(After(st0, before), acts) && NotYet(After(st0, before), p, acts)
    ensures var st := After(st0, before); var st' := After(st, acts);
      && p < |st'.procs|
      && (if st'.procs[p].main.Release? then st'.procs[p].charge == st.procs[p].charge + v
          else Asked(st'.procs[p].main) == v && st'.procs[p].charge == st.procs[p].charge)
  {
    InitialOk(st0);
    var h := RunKeeps(st0, -1, before);
    RunServes(After(st0, before), h, acts, p);
  }

  /** The same for an eviction of `k` pages, which gives back exactly `k`. */
  lemma EvictionReleases(st0: State, before: seq<Action>, p: nat, k: int, acts: seq<Action>)
    requires Initial(st0) && Legal(st0, before) && p < |After(st0, before).procs|
    requires After(st0, before).procs[p].main == Evicting(k, ReadS)
    requires Legal(After(st0, before), acts) && NotYet(After(st0, before), p, acts)
    ensures var st := After(st0, before); var st' := After(st, acts);
      && p < |st'.procs|
      && (if st'.procs[p].main.Release? then st'.procs[p].charge == st.procs[p].charge - k
          else Asked(st'.procs[p].main) == -k && st'.procs[p].charge == st.procs[p].charge)
  {
    InitialOk(st0);
    var h := RunKeeps(st0, -1, before);
    RunServes(After(st0, before), h, acts, p);
  }

  /** Pages come into the table out of those admitted and leave it towards those to be released, or are swept out of it
      by a handler; the charge changes in none of these. */
  lemma TableMoves(st: State, a: Action)
    requires Enabled(st, a) && (a.Load? || a.Unload? || a.SweepSome?)
    ensures |Apply(st, a).procs| == |st.procs| && Apply(st, a) == st.(procs := Apply(st, a).procs)
    ensures forall j :: 0 <= j < |st.procs| && j != a.p ==> Apply(st, a).procs[j] == st.procs[j]
    ensures var P, P' := st.procs[a.p], Apply(st, a).procs[a.p];
      && P'.charge == P.charge && P'.main == P.main
      && P'.tbl == P.tbl + (if a.Load? then a.k else -a.k)
      && P'.owed == P.owed + (if a.Load? then -a.k else if a.Unload? then a.k else 0)
      && Rel(P'.handler) == Rel(P.handler) + (if a.SweepSome? then a.k else 0)
  {
  }

  /** How many steps of its own an application thread is from the end of its request, if it need not wait again. */
  function MainRank(m: Main, n: nat): nat {
    match m
    case Idle => 0 case Release => 1
    case IncWriteC(_, _) => 2 case IncReadC(_) => 3 case IncWriteS(_, _) => 4 case IncReadS(_) => 5
    case Evicting(_, WriteC(_)) => 2 case Evicting(_, ReadC) => 3 case Evicting(_, WriteS(_)) => 4
    case Evicting(_, ReadS) => 5 case EvictWait(_) => 6
    case Waiting(_, _, _, _) => 6 case Kill(_, _, _, _) => 7
    case Scan(_, _, i, _, _, _) => 8 + 2 * (if i < n then n - i else 0)
    case Compare(_, _, i, _, _, _) => 7 + 2 * (if i < n then n - i else 0)
    case AdmitTest(_, _) => 9 + 2 * n case AdmitRead(_) => 10 + 2 * n case AdmitWait(_) => 11 + 2 * n
  }

  /** An application thread that can take a step gets closer to the end of its request, unless it has just been
      answered and reads the pool again, or no victim was found and it scans again; a request that fits is not held
      up by a scan. */
  lemma MainAdvances(st: State, h: int, p: nat, admitd: bool, d1: nat, d2: nat)
    requires Inv(st, h) && Enabled(st, MainStep(p, admitd, d1, d2))
    ensures |MainNext(st, p, admitd, d1, d2).procs| == |st.procs|
    ensures var m, m' := st.procs[p].main, MainNext(st, p, admitd, d1, d2).procs[p].main;
      || MainRank(m', |st.procs|) < MainRank(m, |st.procs|)
      || (m.Waiting? && m' == AdmitRead(m.v))
      || (m.Scan? && m.ii < 0 && m.i >= |st.procs| && m' == AdmitTest(m.v, m.s))
    ensures var m, m' := st.procs[p].main, MainNext(st, p, admitd, d1, d2).procs[p].main;
      m.AdmitTest? ==> (m.v <= st.s <==> m' == IncReadS(m.v))
  {
    hide Total, Skew, Tallies, Best;
    assert Local(st.procs[p], p == h, p == Target(st, h));
  }

  function HandlerRank(h: Handler): nat {
    match h
    case Off => 0 case Post => 1 case Giving(_, WriteC(_)) => 2 case Giving(_, ReadC) => 3
    case Giving(_, WriteS(_)) => 4 case Giving(_, ReadS) => 5 case Sweep(_) => 6 case Test => 7
  }

  /** A handler that can take a step gets closer to its post, and passes through a sweep exactly if the test holds. */
  lemma HandlerAdvances(st: State, p: nat)
    requires Enabled(st, HandlerStep(p))
    ensures |HandlerNext(st, p).procs| == |st.procs|
    ensures var P, P' := st.procs[p], HandlerNext(st, p).procs[p];
      && HandlerRank(P'.handler) < HandlerRank(P.handler)
      && (P.handler.Test? ==> (P'.handler == Sweep(0) <==> Counts(P)))
      && (P'.handler.Off? <==> P.handler.Post?) && (P.handler.Post? ==> HandlerNext(st, p).done == st.done + 1)
  {
  }

  // ---------------------------------------------------------------- signals of one admission

  /** Somewhere between the mutex and the charge. */
  predicate Admitting(m: Main) {
    m.AdmitRead? || m.AdmitTest? || m.Scan? || m.Compare? || m.Kill? || m.Waiting?
  }

  /** One for every other process with a charge. */
  function Charged(procs: seq<Proc>, h: int): (r: seq<nat>) {
    seq(|procs|, j requires 0 <= j < |procs| => if j != h && procs[j].charge > 0 then 1 else 0)
  }

  /** The signalled process has still to give up its charge. */
  predicate Owing(T: Proc) { T.pending > 0 || !(T.handler.Off? || T.handler.Post?) }

  function Due(st: State, h: int): nat
    requires 0 <= h < |st.procs|
  {
    var m := st.procs[h].main;
    if m.Waiting? && m.to < |st.procs| && Owing(st.procs[m.to]) then 1 else 0
  }

  /** Signals sent, plus those that charges can still call for. */
  function Bound(st: State, h: int): int
    requires 0 <= h < |st.procs|
  {
    st.sent + Accounting.Sum(Charged(st.procs, h)) - Due(st, h)
  }

  /** The other processes have all their charge in their tables, and handlers past their sweep have emptied them. */
  predicate InTables(st: State, h: int) {
    forall j :: 0 <= j < |st.procs| && j != h ==>
      st.procs[j].owed == 0 && (st.procs[j].handler.Giving? ==> st.procs[j].tbl == 0)
  }

  /** A handler leaves its sweep only when its table is empty, as `sbma_mevictall_int` does. */
  predicate Thorough(st: State, a: Action) {
    a.HandlerStep? && a.p < |st.procs| && st.procs[a.p].handler.Sweep? ==> st.procs[a.p].tbl == 0
  }

  lemma ChargedUpdate(procs: seq<Proc>, h: int, p: nat, P: Proc)
    requires p < |procs|
    ensures var was, now := Charged(procs, h)[p], if p != h && P.charge > 0 then 1 else 0;
      Accounting.Sum(Charged(procs[p := P], h)) == Accounting.Sum(Charged(procs, h)) - was + now
  {
    assert Charged(procs[p := P], h) == Charged(procs, h)[p := if p != h && P.charge > 0 then 1 else 0];
    Accounting.SumUpdate(Charged(procs, h), p, if p != h && P.charge > 0 then 1 else 0);
  }

  /** The handler's part: a charge is given up as a whole, which pays for the signal. */
  lemma HandlerPays(st: State, h: int, p: nat)
    requires Inv(st, h) && h != -1 && Admitting(st.procs[h].main) && Enabled(st, HandlerStep(p))
    requires st.maxMem < Admission.IntRange && InTables(st, h) && Thorough(st, HandlerStep(p))
    ensures Bound(HandlerNext(st, p), h) == Bound(st, h)
    ensures InTables(HandlerNext(st, p), h)
  {
    hide Total, Tallies, Skew, Charged;
    assert Local(st.procs[p], p == h, p == Target(st, h));
    var st' := HandlerNext(st, p);
    if st.procs[p].handler.Test? { ChargeNow(st, h, p); }
    ChargedUpdate(st.procs, h, p, st'.procs[p]);
    ChargedAt(st.procs, h, p);
  }

  lemma ChargedAt(procs: seq<Proc>, h: int, p: nat)
    requires p < |procs|
    ensures |Charged(procs, h)| == |procs| && Charged(procs, h)[p] == if p != h && procs[p].charge > 0 then 1 else 0
  {
  }

  lemma ChargeNow(st: State, h: int, p: nat)
    requires Inv(st, h) && p < |st.procs| && st.procs[p].handler.Test? && st.maxMem < Admission.IntRange
    ensures Counts(st.procs[p])
  {
    hide Total;
    BalancedNow(st, h);
  }

  /** The admitter's own steps: sending a signal takes one of those still called for. */
  lemma AdmitterPays(st: State, h: int, admitd: bool, d1: nat, d2: nat)
    requires Inv(st, h) && h != -1 && Admitting(st.procs[h].main) && Enabled(st, MainStep(h, admitd, d1, d2))
    requires Admitting(MainNext(st, h, admitd, d1, d2).procs[h].main)
    ensures Bound(MainNext(st, h, admitd, d1, d2), h) == Bound(st, h)
    ensures InTables(st, h) ==> InTables(MainNext(st, h, admitd, d1, d2), h)
  {
    hide Total, Skew, Charged;
    assert Local(st.procs[h], true, h == Target(st, h));
    SameCharged(st.procs, MainNext(st, h, admitd, d1, d2).procs, h);
  }

  /** Steps of other threads, and of handlers up to their release, keep the bound. */
  lemma OthersKeepBound(st: State, h: int, a: Action)
    requires Inv(st, h) && h != -1 && Admitting(st.procs[h].main) && Enabled(st, a) && !a.HandlerStep?
    requires (a.MainStep? ==> a.p != h) && InTables(st, h)
    requires forall j :: 0 <= j < |st.procs| && j != h ==> Apply(st, a).procs[j].owed == 0
    ensures Bound(Apply(st, a), h) == Bound(st, h) && InTables(Apply(st, a), h)
  {
    hide Total, Skew, Charged, Tallies, Best;
    assert Local(st.procs[a.p], a.p == h, a.p == Target(st, h));
    SameCharged(st.procs, Apply(st, a).procs, h);
  }

  lemma SameCharged(procs: seq<Proc>, procs': seq<Proc>, h: int)
    requires |procs| == |procs'| && forall j :: 0 <= j < |procs| && j != h ==> procs'[j].charge == procs[j].charge
    ensures Charged(procs', h) == Charged(procs, h)
  {
  }

  lemma StepKeepsBound(st: State, h: int, a: Action)
    requires Inv(st, h) && h != -1 && Admitting(st.procs[h].main) && Enabled(st, a)
    requires st.maxMem < Admission.IntRange && InTables(st, h) && Thorough(st, a)
    requires Admitting(Apply(st, a).procs[h].main)
    requires forall j :: 0 <= j < |st.procs| && j != h ==> Apply(st, a).procs[j].owed == 0
    ensures Inv(Apply(st, a), h) && Bound(Apply(st, a), h) == Bound(st, h) && InTables(Apply(st, a), h)
    ensures Apply(st, a).maxMem == st.maxMem && |Apply(st, a).procs| == |st.procs|
  {
    hide Total, Skew, Charged, Tallies, HolderOk, Bound, MainNext, HandlerNext;
    StepKeeps(st, h, a);
    assert Local(st.procs[a.p], a.p == h, a.p == Target(st, h));
    SameFrame(st, a);
    match a
    case HandlerStep(p) => HandlerPays(st, h, p);
    case MainStep(p, admitd, d1, d2) =>
      if p == h { AdmitterPays(st, h, admitd, d1, d2); } else { OthersKeepBound(st, h, a); }
    case _ => OthersKeepBound(st, h, a);
  }

  lemma SameFrame(st: State, a: Action)
    requires Enabled(st, a)
    ensures Apply(st, a).maxMem == st.maxMem && |Apply(st, a).procs| == |st.procs|
  {
  }

  /** A run during which process `h` stays in one admission, the others keep all their charge in their tables, and
      handlers sweep thoroughly; everything else interleaves freely. */
  ghost predicate OneAdmission(st: State, h: int, acts: seq<Action>)
    decreases |acts|
  {
    || acts == []
    || (&& Enabled(st, acts[0]) && Thorough(st, acts[0])
        && var st' := Apply(st, acts[0]);
        && 0 <= h < |st'.procs| && Admitting(st'.procs[h].main)
        && (forall j :: 0 <= j < |st'.procs| && j != h ==> st'.procs[j].owed == 0)
        && OneAdmission(st', h, acts[1..]))
  }

  lemma {:induction false} BoundThroughout(st: State, h: int, acts: seq<Action>)
    requires Inv(st, h) && h != -1 && Admitting(st.procs[h].main) && st.maxMem < Admission.IntRange
    requires InTables(st, h) && OneAdmission(st, h, acts)
    ensures Legal(st, acts) && |After(st, acts).procs| == |st.procs|
    ensures Inv(After(st, acts), h) && Bound(After(st, acts), h) == Bound(st, h)
    decreases |acts|
  {
    hide Inv, Apply, Bound, InTables;
    if acts != [] {
      SameFrame(st, acts[0]);
      StepKeepsBound(st, h, acts[0]);
      BoundThroughout(Apply(st, acts[0]), h, acts[1..]);
    }
  }

  /** Over every interleaving, one admission sends at most one signal per other process that had a charge when it
      got the mutex, so fewer than there are processes. */
  lemma FewSignalsPerAdmission(st0: State, before: seq<Action>, h: nat, acts: seq<Action>)
    requires Initial(st0) && Legal(st0, before) && st0.maxMem < Admission.IntRange
    requires h < |After(st0, before).procs| && After(st0, before).procs[h].main.AdmitRead?
    requires forall j :: 0 <= j < |After(st0, before).procs| && j != h ==> After(st0, before).procs[j].owed == 0
    requires OneAdmission(After(st0, before), h, acts)
    ensures Legal(After(st0, before), acts)
    ensures var st := After(st0, before);
      After(st, acts).sent - st.sent <= Accounting.Sum(Charged(st.procs, h)) <= |st.procs| - 1
  {
    hide Total, Charged;
    InitialOk(st0);
    var g := RunKeeps(st0, -1, before);
    var st := After(st0, before);
    SameTotal(st0, before);
    assert Local(st.procs[h], h == g, h == Target(st, g));
    QuietAtStart(st, h);
    BoundThroughout(st, h, acts);
    DueIsCharged(After(st, acts), h);
    FewCharged(st.procs, h);
  }

  lemma {:induction false} SameTotal(st: State, acts: seq<Action>)
    requires Legal(st, acts)
    ensures After(st, acts).maxMem == st.maxMem
    decreases |acts|
  {
    hide Apply, Enabled;
    if acts != [] {
      SameFrame(st, acts[0]);
      SameTotal(Apply(st, acts[0]), acts[1..]);
    }
  }

  lemma QuietAtStart(st: State, h: int)
    requires Inv(st, h) && h != -1 && st.procs[h].main.AdmitRead?
    requires forall j :: 0 <= j < |st.procs| && j != h ==> st.procs[j].owed == 0
    ensures InTables(st, h) && Due(st, h) == 0
  {
    hide Total;
    forall j | 0 <= j < |st.procs| && j != h ensures !st.procs[j].handler.Giving? {
      assert Local(st.procs[j], j == h, j == Target(st, h));
    }
  }

  /** A signal still to be paid for is covered by the charge of its target. */
  lemma DueIsCharged(st: State, h: int)
    requires Inv(st, h) && h != -1
    ensures Due(st, h) <= Accounting.Sum(Charged(st.procs, h))
  {
    hide Total, Tallies, Skew, Charged;
    if Due(st, h) == 1 {
      var to := st.procs[h].main.to;
      ChargedAt(st.procs, h, to);
      Accounting.SumAtLeast(Charged(st.procs, h), to);
    }
  }

  lemma FewCharged(procs: seq<Proc>, h: nat)
    requires h < |procs|
    ensures Accounting.Sum(Charged(procs, h)) <= |procs| - 1
  {
    Admission.AtMostOneEach(Charged(procs, h), h);
  }

  // ---------------------------------------------------------------- from 2^32 pages on

  lemma {:induction false} RunConcat(st: State, acts: seq<Action>, a: Action)
    requires Legal(st, acts) && Enabled(After(st, acts), a)
    ensures Legal(st, acts + [a]) && After(st, acts + [a]) == Apply(After(st, acts), a)
    decreases |acts|
  {
    hide Apply, Enabled;
    if acts == [] {
      assert acts + [a] == [a];
      assert [a][1..] == [];
    } else {
      assert (acts + [a])[0] == acts[0] && (acts + [a])[1..] == acts[1..] + [a];
      RunConcat(Apply(st, acts[0]), acts[1..], a);
    }
  }

  /** A run together with where it ends. */
  ghost predicate Reaches(st0: State, acts: seq<Action>, st: State) { Legal(st0, acts) && After(st0, acts) == st }

  lemma Go(st0: State, acts: seq<Action>, st: State, a: Action) returns (acts': seq<Action>)
    requires Reaches(st0, acts, st) && Enabled(st, a)
    ensures Reaches(st0, acts', Apply(st, a))
  {
    hide Apply, Enabled;
    RunConcat(st0, acts, a);
    acts' := acts + [a];
  }

  /** `n` steps of the application thread of `p`. */
  function Steps(st: State, p: nat, n: nat): (r: (bool, State))
    decreases n
  {
    var a := MainStep(p, false, 0, 0);
    if n == 0 then (true, st) else if Enabled(st, a) then Steps(Apply(st, a), p, n - 1) else (false, st)
  }

  lemma {:induction false} GoSteps(st0: State, acts: seq<Action>, st: State, p: nat,
                                   n: nat) returns (acts': seq<Action>)
    requires Reaches(st0, acts, st) && Steps(st, p, n).0
    ensures Reaches(st0, acts', Steps(st, p, n).1)
    decreases n
  {
    hide Apply, Enabled;
    if n == 0 {
      acts' := acts;
    } else {
      var a := MainStep(p, false, 0, 0);
      acts' := Go(st0, acts, st, a);
      acts' := GoSteps(st0, acts', Apply(st, a), p, n - 1);
    }
  }

  const Hidden: int := Admission.IntRange

  function Quiet(charge: int, sigon: bool, main: Main): Proc { Proc(charge, sigon, 0, main, Off, 0, charge) }

  /** Two processes, the first without pages, before any signal. */
  function Pair(maxMem: int, left: int, main: Main, other: Proc): State {
    State(maxMem, left, 1, 0, [Quiet(0, false, main), other], 0, 0, 0, 0)
  }

  /** Process 0 waits for process 1, which has a signal to deliver. */
  function Signalled(maxMem: int): State {
    var waiting := Waiting(maxMem - Hidden + 1, maxMem - Hidden, 1, Hidden);
    var st := Pair(maxMem, maxMem - Hidden, waiting, Quiet(Hidden, true, Idle).(pending := 1));
    st.(mtx := 0, sent := 1)
  }

  /** Process 1 is charged 2^32 pages with signalling on. */
  lemma ChargeHidden(maxMem: int, acts: seq<Action>, st0: State) returns (acts': seq<Action>)
    requires maxMem >= Hidden
    requires Reaches(st0, acts, Pair(maxMem, maxMem, Idle, Quiet(0, true, AdmitWait(Hidden))))
    ensures Reaches(st0, acts', Pair(maxMem, maxMem - Hidden, Idle, Quiet(Hidden, true, Idle)))
  {
    hide Legal, After;
    var st := Pair(maxMem, maxMem, Idle, Quiet(0, true, AdmitWait(Hidden)));
    acts' := GoSteps(st0, acts, st, 1, 4);
    var mid := Steps(st, 1, 4).1;
    acts' := GoSteps(st0, acts', mid, 1, 4);
  }

  /** Process 0 asks for one page more than there is, picks process 1 and signals it. */
  lemma SignalHidden(maxMem: int, acts: seq<Action>, st0: State) returns (acts': seq<Action>)
    requires maxMem >= Hidden
    requires Reaches(st0, acts,
                     Pair(maxMem, maxMem - Hidden, AdmitWait(maxMem - Hidden + 1), Quiet(Hidden, true, Idle)))
    ensures Reaches(st0, acts', Signalled(maxMem))
  {
    hide Legal, After;
    var st := Pair(maxMem, maxMem - Hidden, AdmitWait(maxMem - Hidden + 1), Quiet(Hidden, true, Idle));
    acts' := GoSteps(st0, acts, st, 0, 4);
    var mid := Steps(st, 0, 4).1;
    acts' := GoSteps(st0, acts', mid, 0, 4);
  }

  /** The bound is exact: from 2^32 pages on there is a run in which a signal arrives at a handler whose
      test turns it down, because signalling was switched off after the victim had been chosen. */
  lemma SignalCanBeTurnedDown(maxMem: int) returns (st0: State, acts: seq<Action>)
    requires maxMem >= Hidden
    ensures st0.maxMem == maxMem && Initial(st0) && Legal(st0, acts) && |After(st0, acts).procs| == 2
    ensures After(st0, acts).procs[1].handler == Test && !Counts(After(st0, acts).procs[1])
  {
    hide Legal, After;
    st0 := Pair(maxMem, maxMem, Idle, Quiet(0, true, Idle));
    Start(st0);
    acts := Go(st0, [], st0, RequestAdmit(1, Hidden));
    acts := ChargeHidden(maxMem, acts, st0);
    var st1 := Pair(maxMem, maxMem - Hidden, Idle, Quiet(Hidden, true, Idle));
    acts := Go(st0, acts, st1, RequestAdmit(0, maxMem - Hidden + 1));
    acts := SignalHidden(maxMem, acts, st0);
    acts := TurnDown(maxMem, acts, st0);
  }

  lemma Start(st0: State)
    ensures Reaches(st0, [], st0)
  {
  }

  lemma TurnDown(maxMem: int, acts: seq<Action>, st0: State) returns (acts': seq<Action>)
    requires Reaches(st0, acts, Signalled(maxMem))
    ensures Legal(st0, acts') && |After(st0, acts').procs| == 2
    ensures After(st0, acts').procs[1].handler == Test && !Counts(After(st0, acts').procs[1])
  {
    var st := Signalled(maxMem);
    acts' := Go(st0, acts, st, SetSignals(1, false));
    acts' := Go(st0, acts', Apply(st, SetSignals(1, false)), Deliver(1));
  }
}
