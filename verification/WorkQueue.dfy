/**
 The bounded work queue of the asynchronous I/O helper: a ring whose indices wrap lazily, and the mutex
 and two condition variables through which any number of producers and consumers use it.
 */
module WorkQueue {

  // ---------------------------------------------------------------- the ring

  /** `hd` and `tl` may rest at `|q|`; they are set back to 0 only when they are next used. */
  datatype Ring<T> = Ring(q: seq<T>, hd: nat, tl: nat, n: nat)

  function Wrap(x: nat, sz: nat): nat { if x >= sz then x - sz else x }

  ghost predicate RingOk<T>(r: Ring<T>) {
    && 0 < |r.q| && r.hd <= |r.q| && r.tl <= |r.q| && r.n <= |r.q|
    && Wrap(r.tl, |r.q|) == Wrap(Wrap(r.hd + r.n, |r.q|), |r.q|)
  }

  /** The items waiting, oldest first. */
  ghost function Contents<T>(r: Ring<T>): (s: seq<T>)
    requires RingOk(r)
  {
    seq(r.n, i requires 0 <= i < r.n => r.q[Wrap(r.hd + i, |r.q|)])
  }

  function Put<T>(r: Ring<T>, w: T): (r': Ring<T>)
    requires RingOk(r) && r.n != |r.q|
    ensures RingOk(r') && |r'.q| == |r.q| && Contents(r') == Contents(r) + [w]
  {
    var tl := if r.tl == |r.q| then 0 else r.tl;
    var r' := Ring(r.q[tl := w], r.hd, tl + 1, r.n + 1);
    PutContents(r, r', tl, w);
    r'
  }

  function Take<T>(r: Ring<T>): (p: (T, Ring<T>))
    requires RingOk(r) && 0 != r.n
    ensures RingOk(p.1) && |p.1.q| == |r.q| && [p.0] + Contents(p.1) == Contents(r)
  {
    var hd := if r.hd == |r.q| then 0 else r.hd;
    var r' := Ring(r.q, hd + 1, r.tl, r.n - 1);
    TakeContents(r, r');
    (r.q[hd], r')
  }

  lemma PutContents<T>(r: Ring<T>, r': Ring<T>, tl: nat, w: T)
    requires RingOk(r) && RingOk(r') && r.n < |r.q| && tl == Wrap(r.tl, |r.q|)
    requires r'.q == r.q[tl := w] && r'.hd == r.hd && r'.n == r.n + 1
    ensures Contents(r') == Contents(r) + [w]
  {
    forall i | 0 <= i < r'.n ensures Contents(r')[i] == (Contents(r) + [w])[i] {
      assert i < r.n ==> Wrap(r.hd + i, |r.q|) != tl;
    }
  }

  lemma TakeContents<T>(r: Ring<T>, r': Ring<T>)
    requires RingOk(r) && RingOk(r') && 0 < r.n
    requires r'.q == r.q && r'.hd == Wrap(r.hd, |r.q|) + 1 && r'.n == r.n - 1
    ensures [r.q[Wrap(r.hd, |r.q|)]] + Contents(r') == Contents(r)
  {
    forall i | 0 <= i < r.n ensures ([r.q[Wrap(r.hd, |r.q|)]] + Contents(r'))[i] == Contents(r)[i] {
      assert 0 < i ==> Wrap(r'.hd + (i - 1), |r.q|) == Wrap(r.hd + i, |r.q|);
    }
  }

  /** The ring in memory: the bodies of `_asio_enq` and `_asio_deq` once they have the lock and room or work. */
  class Queue<T(0)> {
    const q: array<T>
    var hd: nat
    var tl: nat
    var n: nat

    ghost function View(): Ring<T> reads this, q { Ring(q[..], hd, tl, n) }

    ghost predicate Valid() reads this, q { RingOk(View()) }

    constructor (size: nat)
      requires 0 < size
      ensures Valid() && fresh(q) && q.Length == size && Contents(View()) == []
    {
      q := new T[size];
      hd, tl, n := 0, 0, 0;
    }

    method Enq(work: T)
      requires Valid() && n != q.Length
      modifies this, q
      ensures Valid() && View() == Put(old(View()), work)
      ensures Contents(View()) == old(Contents(View())) + [work]
    {
      if tl == q.Length { tl := 0; }
      q[tl], tl := work, tl + 1;
      n := n + 1;
      assert View() == Put(old(View()), work);
    }

    method Deq() returns (work: T)
      requires Valid() && 0 != n
      modifies this
      ensures Valid() && (work, View()) == Take(old(View()))
      ensures [work] + Contents(View()) == old(Contents(View()))
    {
      if hd == q.Length { hd := 0; }
      work, hd := q[hd], hd + 1;
      n := n - 1;
      assert (work, View()) == Take(old(View()));
    }
  }

  // ---------------------------------------------------------------- the threads

  /** Where a thread is.  `Want`: asks for the mutex.  `In`: has it, about to test.  `Asleep`: in
      `pthread_cond_wait`.  `Woken`: about to take the mutex again.  `Signal`: done, has yet to signal.
      `Leave`: has yet to unlock.  `woken` remembers that a thread got in after a wake-up. */
  datatype Thread<T> =
    | Out
    | EnqWant(w: T) | EnqIn(w: T, woken: bool) | EnqAsleep(w: T) | EnqWoken(w: T) | EnqSignal | EnqLeave
    | DeqWant | DeqIn(woken: bool) | DeqAsleep | DeqWoken | DeqSignal(w: T) | DeqLeave(w: T)

  /** `put` records every item in the order it entered the ring, `got` every item a consumer has left with. */
  datatype State<T> = State(ring: Ring<T>, mtx: nat, ts: seq<Thread<T>>, put: seq<T>, got: seq<T>)

  datatype Action<T> =
    | StartEnq(t: nat, item: T) | StartDeq(t: nat)
    | Lock(t: nat)
    | Test(t: nat)
    | Signal(t: nat, u: nat)
    | Unlock(t: nat)
    | Spurious(t: nat)

  predicate Enabled<T>(st: State<T>, a: Action<T>) {
    a.t < |st.ts| &&
    var th := st.ts[a.t];
    match a
    case StartEnq(t, item) => th.Out?
    case StartDeq(t) => th.Out?
    case Lock(t) => 0 < st.mtx && (th.EnqWant? || th.EnqWoken? || th.DeqWant? || th.DeqWoken?)
    case Test(t) => th.EnqIn? || th.DeqIn?
    case Signal(t, u) => (th.EnqSignal? || th.DeqSignal?) && Wakes(st.ts, th.EnqSignal?, u)
    case Unlock(t) => th.EnqLeave? || th.DeqLeave?
    case Spurious(t) => th.EnqAsleep? || th.DeqAsleep?
  }

  /** A signal wakes a sleeper on its condition; `u == |ts|` only when there is none. */
  predicate Wakes<T>(ts: seq<Thread<T>>, consumers: bool, u: nat) {
    if u < |ts| then (if consumers then ts[u].DeqAsleep? else ts[u].EnqAsleep?)
    else u == |ts| && forall j :: 0 <= j < |ts| ==> !(if consumers then ts[j].DeqAsleep? else ts[j].EnqAsleep?)
  }

  function Wake<T>(th: Thread<T>): Thread<T> {
    match th case EnqAsleep(w) => EnqWoken(w) case DeqAsleep => DeqWoken case _ => th
  }

  function Set<T>(st: State<T>, t: nat, th: Thread<T>): State<T>
    requires t < |st.ts|
  {
    st.(ts := st.ts[t := th])
  }

  function Apply<T>(st: State<T>, a: Action<T>): State<T>
    requires Enabled(st, a) && RingOk(st.ring)
  {
    var th := st.ts[a.t];
    match a
    case StartEnq(t, item) => Set(st, t, EnqWant(item))
    case StartDeq(t) => Set(st, t, DeqWant)
    case Lock(t) => Set(st.(mtx := st.mtx - 1), t, Entered(th))
    case Test(t) => TestNext(st, t)
    case Signal(t, u) =>
      var st1 := if u < |st.ts| then Set(st, u, Wake(st.ts[u])) else st;
      Set(st1, t, if th.EnqSignal? then EnqLeave else DeqLeave(th.w))
    case Unlock(t) => Set(st.(mtx := st.mtx + 1, got := st.got + Held(th)), t, Out)
    case Spurious(t) => Set(st, t, Wake(th))
  }

  /** The item a consumer has taken and not yet left with. */
  function Held<T>(th: Thread<T>): seq<T> {
    match th case DeqSignal(w) => [w] case DeqLeave(w) => [w] case _ => []
  }

  /** The item a producer has still to put. */
  function Offered<T>(th: Thread<T>): seq<T> {
    match th
    case EnqWant(w) => [w] case EnqIn(w, _) => [w] case EnqAsleep(w) => [w] case EnqWoken(w) => [w] case _ => []
  }

  function Entered<T>(th: Thread<T>): Thread<T> {
    match th
    case EnqWant(w) => EnqIn(w, false)
    case EnqWoken(w) => EnqIn(w, true)
    case DeqWant => DeqIn(false)
    case DeqWoken => DeqIn(true)
    case _ => th
  }

  /** The loop test: go to sleep and give up the mutex, or do the work. */
  function TestNext<T>(st: State<T>, t: nat): State<T>
    requires Enabled(st, Test(t)) && RingOk(st.ring)
  {
    match st.ts[t]
    case EnqIn(w, woken) =>
      if st.ring.n == |st.ring.q| then Set(st.(mtx := st.mtx + 1), t, EnqAsleep(w))
      else Set(st.(ring := Put(st.ring, w), put := st.put + [w]), t, EnqSignal)
    case DeqIn(woken) =>
      if 0 == st.ring.n then Set(st.(mtx := st.mtx + 1), t, DeqAsleep)
      else var (w, ring) := Take(st.ring); Set(st.(ring := ring), t, DeqSignal(w))
  }

  predicate Initial<T>(st: State<T>) {
    && st.mtx == 1 && st.put == [] && st.got == []
    && 0 < |st.ring.q| && st.ring.n == st.ring.hd == st.ring.tl == 0
    && forall j :: 0 <= j < |st.ts| ==> st.ts[j].Out?
  }

  // ---------------------------------------------------------------- counting threads

  datatype Kind = Inside | SleepC | HeedC | NoteC | SleepP | HeedP | NoteP

  /** Inside the mutex; asleep, woken and still to act on it, or about to signal, on the reader condition
      (`C`: consumers sleep there) and on the writer condition (`P`). */
  predicate Is<T>(k: Kind, th: Thread<T>) {
    match k
    case Inside => th.EnqIn? || th.EnqSignal? || th.EnqLeave? || th.DeqIn? || th.DeqSignal? || th.DeqLeave?
    case SleepC => th.DeqAsleep?
    case HeedC => th.DeqWoken? || (th.DeqIn? && th.woken)
    case NoteC => th.EnqSignal?
    case SleepP => th.EnqAsleep?
    case HeedP => th.EnqWoken? || (th.EnqIn? && th.woken)
    case NoteP => th.DeqSignal?
  }

  function Bit<T>(k: Kind, th: Thread<T>): nat { if Is(k, th) then 1 else 0 }

  function Tally<T>(k: Kind, ts: seq<Thread<T>>): nat {
    if ts == [] then 0 else Tally(k, ts[..|ts| - 1]) + Bit(k, ts[|ts| - 1])
  }

  lemma {:induction false} TallyUpdate<T>(k: Kind, ts: seq<Thread<T>>, t: nat, th: Thread<T>)
    requires t < |ts|
    ensures Tally(k, ts[t := th]) == Tally(k, ts) - Bit(k, ts[t]) + Bit(k, th)
  {
    var m := |ts| - 1;
    if t < m {
      TallyUpdate(k, ts[..m], t, th);
      assert ts[t := th][..m] == ts[..m][t := th];
    } else {
      assert ts[t := th][..m] == ts[..m];
    }
  }

  lemma {:induction false} TallyZero<T>(k: Kind, ts: seq<Thread<T>>)
    ensures Tally(k, ts) == 0 <==> forall j :: 0 <= j < |ts| ==> !Is(k, ts[j])
  {
    if ts != [] {
      TallyZero(k, ts[..|ts| - 1]);
      assert forall j :: 0 <= j < |ts| ==> ts[j] == if j < |ts| - 1 then ts[..|ts| - 1][j] else ts[|ts| - 1];
    }
  }

  // ---------------------------------------------------------------- the invariant

  /** No wake-up is lost: while consumers sleep there are no more items than consumers woken for them,
      counting the signal a producer is about to send; dually for producers and free slots. */
  ghost predicate NoLostWakeup<T>(st: State<T>) {
    && (0 < Tally(SleepC, st.ts) ==> st.ring.n <= Tally(HeedC, st.ts) + Tally(NoteC, st.ts))
    && (0 < Tally(SleepP, st.ts) ==> |st.ring.q| - st.ring.n <= Tally(HeedP, st.ts) + Tally(NoteP, st.ts))
  }

  /** The items consumers have taken and not yet left with. */
  function AllHeld<T>(ts: seq<Thread<T>>): seq<T> {
    if ts == [] then [] else AllHeld(ts[..|ts| - 1]) + Held(ts[|ts| - 1])
  }

  /** What was put is what consumers left with, then what they hold, then what is in the ring. */
  ghost predicate Delivered<T>(st: State<T>)
    requires RingOk(st.ring)
  {
    st.put == st.got + AllHeld(st.ts) + Contents(st.ring)
  }

  /** The ring is well formed, the mutex is free or with one thread, and no wake-up is lost. */
  ghost predicate Ordered<T>(st: State<T>) {
    RingOk(st.ring) && st.mtx + Tally(Inside, st.ts) == 1 && NoLostWakeup(st)
  }

  ghost predicate Inv<T>(st: State<T>) { Ordered(st) && Delivered(st) }

  lemma {:induction false} HeldBy<T>(ts: seq<Thread<T>>, t: nat)
    requires forall j :: 0 <= j < |ts| && j != t ==> Held(ts[j]) == []
    ensures AllHeld(ts) == if t < |ts| then Held(ts[t]) else []
  {
    if ts != [] { HeldBy(ts[..|ts| - 1], t); }
  }

  /** When thread `t` acts inside the mutex nobody else holds an item. */
  lemma HeldAlone<T>(st: State<T>, t: nat, th: Thread<T>)
    requires t < |st.ts| && Tally(Inside, st.ts) == 1 && Is(Inside, st.ts[t])
    ensures AllHeld(st.ts) == Held(st.ts[t]) && AllHeld(st.ts[t := th]) == Held(th)
  {
    TallyUpdate(Inside, st.ts, t, Out);
    TallyZero(Inside, st.ts[t := Out]);
    forall j | 0 <= j < |st.ts| && j != t ensures Held(st.ts[j]) == [] { assert !Is(Inside, st.ts[t := Out][j]); }
    HeldBy(st.ts, t);
    HeldBy(st.ts[t := th], t);
  }

  /** A thread that holds nothing before and after makes no difference. */
  lemma {:induction false} HeldSame<T>(ts: seq<Thread<T>>, t: nat, th: Thread<T>)
    requires t < |ts| && Held(ts[t]) == Held(th)
    ensures AllHeld(ts[t := th]) == AllHeld(ts)
  {
    var m := |ts| - 1;
    if t < m {
      HeldSame(ts[..m], t, th);
      assert ts[t := th][..m] == ts[..m][t := th];
    } else {
      assert ts[t := th][..m] == ts[..m];
    }
  }

  lemma Recount<T>(ts: seq<Thread<T>>, t: nat, th: Thread<T>)
    requires t < |ts|
    ensures forall k :: Tally(k, ts[t := th]) == Tally(k, ts) - Bit(k, ts[t]) + Bit(k, th)
  {
    forall k ensures Tally(k, ts[t := th]) == Tally(k, ts) - Bit(k, ts[t]) + Bit(k, th) { TallyUpdate(k, ts, t, th); }
  }

  lemma InsideOne<T>(st: State<T>, t: nat)
    requires Ordered(st) && t < |st.ts| && Is(Inside, st.ts[t])
    ensures Tally(Inside, st.ts) == 1
  {
    TallyUpdate(Inside, st.ts, t, Out);
  }

  lemma SignalKeeps<T>(st: State<T>, t: nat, u: nat)
    requires Ordered(st) && Enabled(st, Signal(t, u))
    ensures Ordered(Apply(st, Signal(t, u)))
  {
    hide Tally, Contents;
    var ts1 := if u < |st.ts| then st.ts[u := Wake(st.ts[u])] else st.ts;
    if u < |st.ts| {
      Recount(st.ts, u, Wake(st.ts[u]));
    } else {
      TallyZero(SleepC, st.ts);
      TallyZero(SleepP, st.ts);
    }
    Recount(ts1, t, Apply(st, Signal(t, u)).ts[t]);
  }

  lemma TestKeeps<T>(st: State<T>, t: nat)
    requires Ordered(st) && Enabled(st, Test(t))
    ensures Ordered(TestNext(st, t))
  {
    hide Tally, Contents;
    Recount(st.ts, t, TestNext(st, t).ts[t]);
  }

  lemma MutexKeeps<T>(st: State<T>, a: Action<T>)
    requires Ordered(st) && Enabled(st, a) && (a.Lock? || a.Unlock?)
    ensures Ordered(Apply(st, a))
  {
    hide Tally, Contents;
    Recount(st.ts, a.t, Apply(st, a).ts[a.t]);
  }

  lemma OutsideKeeps<T>(st: State<T>, a: Action<T>)
    requires Ordered(st) && Enabled(st, a) && (a.StartEnq? || a.StartDeq? || a.Spurious?)
    ensures Ordered(Apply(st, a))
  {
    hide Tally, Contents;
    Recount(st.ts, a.t, Apply(st, a).ts[a.t]);
  }

  lemma StepOrders<T>(st: State<T>, a: Action<T>)
    requires Ordered(st) && Enabled(st, a)
    ensures Ordered(Apply(st, a))
  {
    hide Tally, Contents, NoLostWakeup, Wakes;
    match a
    case Signal(t, u) => SignalKeeps(st, t, u);
    case Test(t) => TestKeeps(st, t);
    case Lock(t) => MutexKeeps(st, a);
    case Unlock(t) => MutexKeeps(st, a);
    case _ => OutsideKeeps(st, a);
  }

  lemma WorkDelivers<T>(st: State<T>, t: nat)
    requires Inv(st) && Enabled(st, Test(t)) && RingOk(TestNext(st, t).ring)
    ensures Delivered(TestNext(st, t))
  {
    hide Tally, Contents, NoLostWakeup, AllHeld;
    InsideOne(st, t);
    HeldAlone(st, t, TestNext(st, t).ts[t]);
  }

  lemma LeaveDelivers<T>(st: State<T>, t: nat)
    requires Inv(st) && Enabled(st, Unlock(t))
    ensures Delivered(Apply(st, Unlock(t)))
  {
    hide Tally, Contents, NoLostWakeup, AllHeld;
    InsideOne(st, t);
    HeldAlone(st, t, Out);
  }

  lemma OthersDeliver<T>(st: State<T>, a: Action<T>)
    requires Inv(st) && Enabled(st, a) && !a.Test? && !a.Unlock?
    ensures Delivered(Apply(st, a))
  {
    hide Tally, Contents, NoLostWakeup, Wakes;
    var ts1 := if a.Signal? && a.u < |st.ts| then st.ts[a.u := Wake(st.ts[a.u])] else st.ts;
    if a.Signal? && a.u < |st.ts| { HeldSame(st.ts, a.u, Wake(st.ts[a.u])); }
    HeldSame(ts1, a.t, Apply(st, a).ts[a.t]);
  }

  lemma StepKeeps<T>(st: State<T>, a: Action<T>)
    requires Inv(st) && Enabled(st, a)
    ensures Inv(Apply(st, a))
  {
    hide Delivered, NoLostWakeup, Wakes, Tally;
    StepOrders(st, a);
    match a
    case Test(t) => WorkDelivers(st, t);
    case Unlock(t) => LeaveDelivers(st, t);
    case _ => OthersDeliver(st, a);
  }

  /** How far a thread is from being done, if it does not have to sleep. */
  function StepsLeft<T>(th: Thread<T>): nat {
    match th
    case Out => 0
    case EnqWant(_) => 4 case EnqWoken(_) => 4 case EnqIn(_, _) => 3 case EnqSignal => 2 case EnqLeave => 1
    case DeqWant => 4 case DeqWoken => 4 case DeqIn(_) => 3 case DeqSignal(_) => 2 case DeqLeave(_) => 1
    case EnqAsleep(_) => 5 case DeqAsleep => 5
  }

  /** A thread goes to sleep only in front of a full ring or an empty one; otherwise each of its steps brings it
      closer to the end, and it is out after the last, having put or taken one item. */
  lemma ThreadAdvances<T>(st: State<T>, a: Action<T>)
    requires RingOk(st.ring) && Enabled(st, a) && (a.Lock? || a.Test? || a.Signal? || a.Unlock?)
    ensures |Apply(st, a).ts| == |st.ts|
    ensures var th, th', r, r' := st.ts[a.t], Apply(st, a).ts[a.t], st.ring, Apply(st, a).ring;
      && (th'.EnqAsleep? <==> a.Test? && th.EnqIn? && r.n == |r.q|)
      && (th'.DeqAsleep? <==> a.Test? && th.DeqIn? && r.n == 0)
      && (!th'.EnqAsleep? && !th'.DeqAsleep? ==> StepsLeft(th') == StepsLeft(th) - 1)
      && (if a.Test? && !th'.EnqAsleep? && !th'.DeqAsleep? then r'.n == (if th.EnqIn? then r.n + 1 else r.n - 1)
          else r' == r)
  {
    hide Wakes;
  }

  // ---------------------------------------------------------------- every run

  ghost predicate Legal<T>(st: State<T>, acts: seq<Action<T>>)
    decreases |acts|
  {
    acts == [] || (RingOk(st.ring) && Enabled(st, acts[0]) && Legal(Apply(st, acts[0]), acts[1..]))
  }

  ghost function After<T>(st: State<T>, acts: seq<Action<T>>): State<T>
    requires Legal(st, acts)
    decreases |acts|
  {
    if acts == [] then st else After(Apply(st, acts[0]), acts[1..])
  }

  lemma {:induction false} RunKeeps<T>(st: State<T>, acts: seq<Action<T>>)
    requires Inv(st) && Legal(st, acts)
    ensures Inv(After(st, acts))
    decreases |acts|
  {
    if acts != [] {
      StepKeeps(st, acts[0]);
      RunKeeps(Apply(st, acts[0]), acts[1..]);
    }
  }

  lemma InitialOk<T>(st: State<T>)
    requires Initial(st)
    ensures Inv(st)
  {
    TallyZero(Inside, st.ts);
    TallyZero(SleepC, st.ts);
    TallyZero(SleepP, st.ts);
    HeldBy(st.ts, |st.ts|);
  }

  /** In every interleaving, with any spurious wake-ups, the items consumers have left with, followed by the one a
      consumer still holds, are the items put in, each once and in order; what is missing is still in the ring. */
  lemma DeliveredOnceInOrder<T>(st0: State<T>, acts: seq<Action<T>>)
    requires Initial(st0) && Legal(st0, acts)
    ensures var st := After(st0, acts);
      && RingOk(st.ring) && |st.ring.q| == |st0.ring.q|
      && st.put == st.got + AllHeld(st.ts) + Contents(st.ring) && |AllHeld(st.ts)| <= 1
      && |st.put| - |st.got| <= |st.ring.q| + 1
  {
    InitialOk(st0);
    RunKeeps(st0, acts);
    SameSize(st0, acts);
    HeldAtMostOne(After(st0, acts));
  }

  lemma HeldAtMostOne<T>(st: State<T>)
    requires Inv(st)
    ensures |AllHeld(st.ts)| <= 1
  {
    if t: nat :| t < |st.ts| && Held(st.ts[t]) != [] {
      InsideOne(st, t);
      HeldAlone(st, t, Out);
    } else {
      HeldBy(st.ts, |st.ts|);
    }
  }

  /** The records are what threads bring and take away: an item offered stays with its producer until it is put, and
      only the item offered is put; a consumer that has taken an item keeps it until it leaves with it. */
  lemma ItemsStay<T>(st: State<T>, a: Action<T>, j: nat)
    requires RingOk(st.ring) && Enabled(st, a) && j < |st.ts|
    ensures var th, th', st' := st.ts[j], Apply(st, a).ts[j], Apply(st, a);
      && |st'.ts| == |st.ts|
      && (Offered(th) != [] ==> Offered(th') == Offered(th) || (Offered(th') == [] && st'.put == st.put + Offered(th)))
      && (Offered(th) == [] && Offered(th') != [] ==> a == StartEnq(j, Offered(th')[0]))
      && (Held(th) != [] ==> Held(th') == Held(th) || (th' == Out && st'.got == st.got + Held(th)))
      && (Held(th) == [] && Held(th') != [] ==> 0 < st.ring.n && Held(th') == [Contents(st.ring)[0]])
    ensures Apply(st, a).put == st.put || (a.Test? && Apply(st, a).put == st.put + Offered(st.ts[a.t]))
    ensures Apply(st, a).got == st.got || (a.Unlock? && Apply(st, a).got == st.got + Held(st.ts[a.t]))
  {
    hide Wakes;
    if a.Test? && st.ts[a.t].DeqIn? && 0 < st.ring.n {
      assert ([Take(st.ring).0] + Contents(Take(st.ring).1))[0] == Contents(st.ring)[0];
    }
  }

  lemma {:induction false} SameSize<T>(st: State<T>, acts: seq<Action<T>>)
    requires Inv(st) && Legal(st, acts)
    ensures |After(st, acts).ring.q| == |st.ring.q|
    decreases |acts|
  {
    hide Tally, Contents;
    if acts != [] {
      StepKeeps(st, acts[0]);
      SameSize(Apply(st, acts[0]), acts[1..]);
    }
  }

  predicate Asleep<T>(th: Thread<T>) { th.EnqAsleep? || th.DeqAsleep? }

  /** If all threads in the queue sleep, they are all consumers facing an empty ring, or all producers
      facing a full one. */
  ghost predicate SleepIsJustified<T>(st: State<T>) {
    (forall j :: 0 <= j < |st.ts| ==> st.ts[j].Out? || Asleep(st.ts[j])) ==>
      || (st.ring.n == 0 && forall j :: 0 <= j < |st.ts| ==> !st.ts[j].EnqAsleep?)
      || (st.ring.n == |st.ring.q| && forall j :: 0 <= j < |st.ts| ==> !st.ts[j].DeqAsleep?)
      || (forall j :: 0 <= j < |st.ts| ==> st.ts[j].Out?)
  }

  lemma JustifiedNow<T>(st: State<T>)
    requires Inv(st)
    ensures SleepIsJustified(st)
  {
    hide Tally, Contents;
    TallyZero(SleepC, st.ts);
    TallyZero(HeedC, st.ts);
    TallyZero(NoteC, st.ts);
    TallyZero(SleepP, st.ts);
    TallyZero(HeedP, st.ts);
    TallyZero(NoteP, st.ts);
  }

  /** No wake-up is lost in any run, so not all threads can be asleep at once on both conditions. */
  lemma NotAllAsleep<T>(st0: State<T>, acts: seq<Action<T>>)
    requires Initial(st0) && Legal(st0, acts)
    ensures NoLostWakeup(After(st0, acts)) && SleepIsJustified(After(st0, acts))
  {
    hide SleepIsJustified;
    InitialOk(st0);
    RunKeeps(st0, acts);
    JustifiedNow(After(st0, acts));
  }

  /** At most one thread is inside the critical sections at a time. */
  lemma OneInside<T>(st0: State<T>, acts: seq<Action<T>>, i: nat, j: nat)
    requires Initial(st0) && Legal(st0, acts)
    requires var ts := After(st0, acts).ts; i < |ts| && j < |ts| && Is(Inside, ts[i]) && Is(Inside, ts[j])
    ensures i == j
  {
    InitialOk(st0);
    RunKeeps(st0, acts);
    var ts := After(st0, acts).ts;
    if i != j {
      TallyUpdate(Inside, ts, i, Out);
      TallyUpdate(Inside, ts[i := Out], j, Out);
    }
  }
}
