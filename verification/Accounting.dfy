/** The books of one process. */
module Accounting {
  import opened PageTable
  import opened SwapEngine

  // The charge and dirty totals a process reports to the others, against the page status of all its
  // allocations.  Each probe is proved to announce exactly the change its swap makes.

  // ---------------------------------------------------------------- what a swap does to the counts

  /** Pages a touch of [beg, end) is about to charge. */
  function TouchProbe(opts: Options, fs: seq<Flags>, beg: nat, end: nat): nat
    requires beg <= end <= |fs|
  {
    if opts.aggch && opts.lzyrd && Count(Charged, fs) == 0 then |fs|
    else (end - beg) - Count(Charged, fs[beg..end])
  }

  /** A range rewritten by `g` changes a count by what it does inside the range. */
  lemma CountRewrite(k: Kind, fs: seq<Flags>, gs: seq<Flags>, beg: nat, end: nat)
    requires |fs| == |gs| && beg <= end <= |fs|
    requires forall i :: 0 <= i < |fs| && !(beg <= i < end) ==> gs[i] == fs[i]
    ensures Count(k, gs) == Count(k, fs) - Count(k, fs[beg..end]) + Count(k, gs[beg..end])
  {
    CountSplit(k, fs, beg, end);
    CountSplit(k, gs, beg, end);
    assert fs[..beg] == gs[..beg] && fs[end..] == gs[end..];
  }

  /** A touch changes the charge by exactly what its probe announced, and never the dirty count. */
  lemma {:induction false} TouchProbeExact(opts: Options, s: State, beg: nat, end: nat, pageSize: nat)
    requires Good(s, pageSize) && Within(s, beg, end)
    ensures Count(Charged, Touch(opts, s, beg, end).flags) ==
            Count(Charged, s.flags) + TouchProbe(opts, s.flags, beg, end)
    ensures Count(Dirtied, Touch(opts, s, beg, end).flags) == Count(Dirtied, s.flags)
  {
    hide Count;
    var c := ChargeAll(opts, s);
    ChargeAllCounts(opts, s);
    if beg == end || Count(Loaded, c.flags) == |c.flags| {
      CountExtremes(Charged, c.flags[beg..end]);
      CountExtremes(Loaded, c.flags);
    } else {
      SwapInCounts(c.flags, beg, end);
    }
  }

  lemma ChargeAllCounts(opts: Options, s: State)
    requires forall i :: 0 <= i < |s.flags| ==> Sound(s.flags[i])
    ensures var fs := ChargeAll(opts, s).flags;
      && |fs| == |s.flags| && (forall i :: 0 <= i < |fs| ==> Sound(fs[i]))
      && Count(Dirtied, fs) == Count(Dirtied, s.flags) && Count(Loaded, fs) == Count(Loaded, s.flags)
      && Count(Charged, fs) ==
         (if opts.aggch && opts.lzyrd && Count(Charged, s.flags) == 0 then |s.flags| else Count(Charged, s.flags))
  {
    var fs := ChargeAll(opts, s).flags;
    CountExtremes(Charged, fs);
    Allocation.CountSame(Dirtied, fs, s.flags);
    Allocation.CountSame(Loaded, fs, s.flags);
  }

  lemma SwapInCounts(fs: seq<Flags>, beg: nat, end: nat)
    requires beg <= end <= |fs| && forall i :: 0 <= i < |fs| ==> Sound(fs[i])
    ensures Count(Charged, InFlags(fs, beg, end)) == Count(Charged, fs) + (end - beg) - Count(Charged, fs[beg..end])
    ensures Count(Dirtied, InFlags(fs, beg, end)) == Count(Dirtied, fs)
    ensures beg < end ==> Count(Loaded, InFlags(fs, beg, end)) > 0
  {
    hide Count;
    var gs := InFlags(fs, beg, end);
    CountRewrite(Charged, fs, gs, beg, end);
    forall i | beg <= i < end ensures Is(Charged, gs[i]) { assert Sound(fs[i]); }
    CountExtremes(Charged, gs[beg..end]);
    Allocation.CountSame(Dirtied, gs, fs);
    CountExtremes(Loaded, gs);
    if beg < end { assert Is(Loaded, gs[beg]); }
  }

  /** An eviction takes away exactly what its probe announced if and only if some page was resident or
      the probe found nothing charged: with no resident page the swap returns early, and aggressive
      charging can have left charged pages behind. */
  lemma {:induction false} EvictProbeExact(s: State, beg: nat, end: nat, pageSize: nat)
    requires Good(s, pageSize) && Within(s, beg, end)
    ensures var r := SwapOut(s, beg, end, pageSize);
      Count(Charged, r.flags) == Count(Charged, s.flags) - Count(Charged, s.flags[beg..end])
      <==> (Count(Loaded, s.flags) > 0 || Count(Charged, s.flags[beg..end]) == 0)
    ensures Count(Dirtied, SwapOut(s, beg, end, pageSize).flags)
      == Count(Dirtied, s.flags) - Count(Dirtied, s.flags[beg..end])
  {
    if beg == end {
      assert s.flags[beg..end] == [];
    } else if Count(Loaded, s.flags) == 0 {
      CountExtremes(Loaded, s.flags);
      CountExtremes(Dirtied, s.flags[beg..end]);
    } else {
      SwapOutCounts(s.flags, beg, end);
    }
  }

  lemma SwapOutCounts(fs: seq<Flags>, beg: nat, end: nat)
    requires beg <= end <= |fs|
    ensures forall k :: Count(k, OutFlags(fs, beg, end)) == Count(k, fs) - Count(k, fs[beg..end])
  {
    hide Count;
    var gs := OutFlags(fs, beg, end);
    forall k ensures Count(k, gs) == Count(k, fs) - Count(k, fs[beg..end]) {
      CountRewrite(k, fs, gs, beg, end);
      CountExtremes(k, gs[beg..end]);
    }
  }

  /** Two pages charged aggressively on the first touch: evicting the resident one and then the other
      leaves a charge that no eviction removes, so the condition of EvictProbeExact does fail. */
  lemma EvictProbeCanMiss()
    ensures var opts := Options(false, true, true, false);
      var s := Fresh(opts, 2, 1, [[0], [0]]);
      var touched := Touch(opts, s, 0, 1);
      var half := SwapOut(touched, 0, 1, 1);
      Count(Charged, half.flags[1..2]) == 1 && SwapOut(half, 1, 2, 1) == half
  {
    var opts := Options(false, true, true, false);
    var s := Fresh(opts, 2, 1, [[0], [0]]);
    var off, on := Flags(false, true, false, true), Flags(false, false, false, false);
    var charged := Flags(false, true, false, false);
    assert s.flags == [off, off];
    CountExtremes(Charged, s.flags);
    CountExtremes(Loaded, s.flags);
    var c := ChargeAll(opts, s);
    assert c.flags == [charged, charged];
    CountExtremes(Loaded, c.flags);
    var touched := Touch(opts, s, 0, 1);
    assert touched.flags == [on, charged];
    assert Is(Loaded, touched.flags[0]);
    CountExtremes(Loaded, touched.flags);
    var half := SwapOut(touched, 0, 1, 1);
    assert half.flags == [off, charged];
    CountExtremes(Loaded, half.flags);
    assert half.flags[1..2] == [charged];
    CountExtremes(Charged, half.flags[1..2]);
  }

  /** A clear takes away exactly the dirty pages its probe counted, and no charge. */
  lemma {:induction false} ClearProbeExact(s: State, beg: nat, end: nat, pageSize: nat)
    requires Good(s, pageSize) && Within(s, beg, end)
    ensures var r := SwapClear(s, beg, end);
      && Good(r, pageSize)
      && Count(Charged, r.flags) == Count(Charged, s.flags) && Count(Loaded, r.flags) == Count(Loaded, s.flags)
      && Count(Dirtied, r.flags) == Count(Dirtied, s.flags) - Count(Dirtied, s.flags[beg..end])
  {
    hide Count;
    var gs := SwapClear(s, beg, end).flags;
    CountRewrite(Dirtied, s.flags, gs, beg, end);
    CountExtremes(Dirtied, gs[beg..end]);
    Allocation.CountSame(Charged, gs, s.flags);
    Allocation.CountSame(Loaded, gs, s.flags);
  }

  // ---------------------------------------------------------------- charge in step with residence

  /** Whole allocations are charged on their first touch. */
  predicate Aggressive(opts: Options) { opts.aggch && opts.lzyrd }

  /** Exactly the resident pages are charged. */
  predicate InStep(fs: seq<Flags>) { forall i :: 0 <= i < |fs| ==> fs[i].rsdnt == fs[i].chrgd }

  /** The charge that evicting the whole allocation would leave behind, because the swap-out returns early. */
  function Stuck(fs: seq<Flags>): nat { if Count(Loaded, fs) > 0 then 0 else Count(Charged, fs) }

  /** In step, an allocation is charged exactly when it has a resident page. */
  lemma InStepReleases(fs: seq<Flags>)
    requires InStep(fs)
    ensures Stuck(fs) == 0 && (Count(Loaded, fs) > 0 <==> Count(Charged, fs) > 0)
  {
    CountExtremes(Loaded, fs);
    CountExtremes(Charged, fs);
  }

  /** Without aggressive charging every operation keeps charge and residence in step. */
  lemma OperationsKeepStep(opts: Options, s: State, beg: nat, end: nat, ip: nat, pageSize: nat)
    requires InStep(s.flags) && Within(s, beg, end)
    ensures !Aggressive(opts) ==> InStep(Touch(opts, s, beg, end).flags)
    ensures InStep(SwapOut(s, beg, end, pageSize).flags) && InStep(SwapClear(s, beg, end).flags)
    ensures !Aggressive(opts) && Within(s, ip, ip + 1) ==> InStep(Fault(opts, s, ip).flags)
  {
  }

  /** And only without it: with aggressive charging the first touch of one of two pages charges both. */
  lemma AggressiveBreaksStep(opts: Options)
    ensures Aggressive(opts) <==>
      exists s: State, beg: nat, end: nat ::
        Within(s, beg, end) && InStep(s.flags) && !InStep(Touch(opts, s, beg, end).flags)
  {
    if Aggressive(opts) {
      var f := Flags(false, true, false, true);
      var s := State([f, f], [NoAccess, NoAccess], [[], []], [[], []]);
      TouchExactly(opts, s, 0, 1, 1);
      assert Within(s, 0, 1) && InStep(s.flags) && !InStep(Touch(opts, s, 0, 1).flags);
    }
    forall s: State, beg: nat, end: nat | Within(s, beg, end) && InStep(s.flags) && !Aggressive(opts)
      ensures InStep(Touch(opts, s, beg, end).flags)
    {
      OperationsKeepStep(opts, s, beg, end, 0, 0);
    }
  }

  lemma FreshInStep(opts: Options, n: nat, pageSize: nat, disk: seq<Page>)
    ensures InStep(Fresh(opts, n, pageSize, disk).flags)
  {
  }

  lemma GrownInStep(opts: Options, s: State, stale: seq<Page>)
    requires Within(s, 0, |s.flags|) && InStep(s.flags)
    ensures InStep(Grown(opts, s, stale).flags)
  {
  }

  /** A touch of at least one page leaves a page resident. */
  lemma TouchLoads(opts: Options, s: State, beg: nat, end: nat)
    requires Within(s, beg, end) && beg < end
    ensures Count(Loaded, Touch(opts, s, beg, end).flags) > 0
  {
    var c := ChargeAll(opts, s);
    CountExtremes(Loaded, c.flags);
    CountExtremes(Loaded, Touch(opts, s, beg, end).flags);
    assert !Touch(opts, s, beg, end).flags[beg].rsdnt;
  }

  /** Evicting a whole allocation leaves nothing loaded or dirty, and only what is stuck charged. */
  lemma WholeEvictLeavesStuck(s: State, pageSize: nat)
    requires Good(s, pageSize)
    ensures var fs := SwapOut(s, 0, |s.flags|, pageSize).flags;
      && |fs| == |s.flags| && Count(Loaded, fs) == 0 && Count(Dirtied, fs) == 0 && Count(Charged, fs) == Stuck(s.flags)
  {
    var fs := SwapOut(s, 0, |s.flags|, pageSize).flags;
    CountExtremes(Loaded, s.flags);
    CountExtremes(Loaded, fs);
    CountExtremes(Dirtied, fs);
    if Count(Loaded, s.flags) > 0 { CountExtremes(Charged, fs); }
    forall i | 0 <= i < |fs| ensures !fs[i].dirty { assert Sound(s.flags[i]); }
  }

  // ---------------------------------------------------------------- sums

  function Sum(xs: seq<nat>): nat { if xs == [] then 0 else Sum(xs[..|xs| - 1]) + xs[|xs| - 1] }

  lemma SumConcat(xs: seq<nat>, ys: seq<nat>)
    ensures Sum(xs + ys) == Sum(xs) + Sum(ys)
  {
    if ys == [] {
      assert xs + ys == xs;
    } else {
      SumConcat(xs, ys[..|ys| - 1]);
      assert (xs + ys)[..|xs + ys| - 1] == xs + ys[..|ys| - 1];
    }
  }

  lemma SumUpdate(xs: seq<nat>, k: nat, x: nat)
    requires k < |xs|
    ensures Sum(xs[k := x]) == Sum(xs) - xs[k] + x
    ensures Sum(xs[..k] + xs[k + 1..]) == Sum(xs) - xs[k]
  {
    assert xs == xs[..k] + ([xs[k]] + xs[k + 1..]) && xs[k := x] == xs[..k] + ([x] + xs[k + 1..]);
    SumConcat(xs[..k], [xs[k]] + xs[k + 1..]);
    SumConcat([xs[k]], xs[k + 1..]);
    SumConcat(xs[..k], [x] + xs[k + 1..]);
    SumConcat([x], xs[k + 1..]);
    SumConcat(xs[..k], xs[k + 1..]);
  }

  lemma SumAtLeast(xs: seq<nat>, k: nat)
    requires k < |xs|
    ensures xs[k] <= Sum(xs)
  {
    SumUpdate(xs, k, 0);
  }

  lemma SumZero(xs: seq<nat>)
    requires forall i :: 0 <= i < |xs| ==> xs[i] == 0
    ensures Sum(xs) == 0
  {
  }

  lemma SumNext(xs: seq<nat>, i: nat)
    requires i < |xs|
    ensures Sum(xs[..i + 1]) == Sum(xs[..i]) + xs[i]
  {
    assert xs[..i + 1][..i] == xs[..i];
  }
}
