/** The dirty pages of one process, as its status bytes, its table and the shared counter know them. */
module DirtyCounts {

  // A process's dirty counter is written by its own application thread and its own signal handler and only read
  // by others, so one process is enough.  The two interleave freely.  Counters are integers: that the
  // assertions keep them from going negative is what is proved.

  /** A write fault sets the status byte, then counts the page in the table, then reports it to the shared
      counter.  An eviction, clear or free takes pages out of the table first and gives them back later. */
  datatype Main = Idle | Flagged | Counted | Owing(d: int)

  /** `vmm_sigipc`: the table is swept first and what was in it given back later. */
  datatype Handler = Off | Swept(d: int)

  datatype State = State(flagged: int, counted: int, reported: int, main: Main, handler: Handler)

  datatype Event = Fault | Count | Report | TakeOut(d: int) | GiveBack | Sweep | Release

  const Start := State(0, 0, 0, Idle, Off)

  predicate Enabled(st: State, e: Event) {
    match e
    case Fault => st.main.Idle?
    case Count => st.main.Flagged?
    case Report => st.main.Counted?
    case TakeOut(d) => st.main.Idle? && 0 <= d <= st.counted
    case GiveBack => st.main.Owing?
    case Sweep => st.handler.Off?
    case Release => st.handler.Swept?
  }

  /** The assertions: a swap-out never writes more pages than are counted, and no decrement is larger than the
      shared counter. */
  predicate Passes(st: State, e: Event)
    requires Enabled(st, e)
  {
    match e
    case Sweep => st.flagged <= st.counted
    case GiveBack => st.main.d <= st.reported
    case Release => st.handler.d <= st.reported
    case _ => true
  }

  function Apply(st: State, e: Event): State
    requires Enabled(st, e)
  {
    match e
    case Fault => st.(flagged := st.flagged + 1, main := Flagged)
    case Count => st.(counted := st.counted + 1, main := Counted)
    case Report => st.(reported := st.reported + 1, main := Idle)
    case TakeOut(d) => st.(flagged := st.flagged - d, counted := st.counted - d, main := Owing(d))
    case GiveBack => st.(reported := st.reported - st.main.d, main := Idle)
    case Sweep => st.(flagged := 0, counted := st.counted - st.flagged, handler := Swept(st.counted))
    case Release => st.(reported := st.reported - st.handler.d, handler := Off)
  }

  // ---------------------------------------------------------------- runs

  /** The state after the events so far; an event that is not enabled does nothing. */
  ghost function After(es: seq<Event>): State {
    if es == [] then Start else
      var st := After(es[..|es| - 1]);
      if Enabled(st, es[|es| - 1]) then Apply(st, es[|es| - 1]) else st
  }

  /** Every event is enabled when it happens. */
  ghost predicate Possible(es: seq<Event>) { forall k :: 0 <= k < |es| ==> Enabled(After(es[..k]), es[k]) }

  /** The assertion of event `k` holds. */
  ghost predicate PassesAt(es: seq<Event>, k: nat)
    requires k < |es| && Enabled(After(es[..k]), es[k])
  {
    Passes(After(es[..k]), es[k])
  }

  /** A write fault is between its first and its last step. */
  predicate InFault(st: State) { st.main.Flagged? || st.main.Counted? }

  function Due(st: State): int {
    (if st.main.Owing? then st.main.d else 0) + (if st.handler.Swept? then st.handler.d else 0)
  }

  /** What ties the three counts together: status bytes are ahead of the table by a page not yet counted, and the
      shared counter is ahead by what is to be given back and behind by a page not yet reported. */
  predicate Inv(st: State) {
    && 0 <= st.counted && st.flagged == st.counted + (if st.main.Flagged? then 1 else 0)
    && st.reported + (if st.main.Counted? then 1 else 0) == st.counted + Due(st)
    && (st.main.Owing? ==> 0 <= st.main.d) && (st.handler.Swept? ==> 0 <= st.handler.d)
  }

  lemma StepKeeps(st: State, e: Event)
    requires Inv(st) && Enabled(st, e) && Passes(st, e)
    ensures Inv(Apply(st, e))
  {
  }

  /** What each step moves: a write fault brings one page into each of the three counts in turn; an eviction or a
      sweep takes pages out of status bytes and table, which are then due; what is due is given back once. */
  lemma StepMoves(st: State, e: Event)
    requires Inv(st) && Enabled(st, e) && Passes(st, e)
    ensures var st' := Apply(st, e);
      && (e.Fault? ==> st' == st.(flagged := st.flagged + 1, main := st'.main))
      && (e.Count? ==> st' == st.(counted := st.counted + 1, main := st'.main))
      && (e.Report? ==> st' == st.(reported := st.reported + 1, main := Idle))
      && (e.TakeOut? ==> st'.counted == st.counted - e.d && Due(st') == Due(st) + e.d)
      && (e.Sweep? ==> st'.counted == 0 && Due(st') == Due(st) + st.counted)
      && (e.TakeOut? || e.Sweep? ==>
            st.flagged - st'.flagged == st.counted - st'.counted && st'.reported == st.reported)
      && (e.GiveBack? || e.Release? ==>
            && st'.flagged == st.flagged && st'.counted == st.counted
            && st.reported - st'.reported == Due(st) - Due(st'))
      && (e.GiveBack? ==> st'.main.Idle? && st'.handler == st.handler)
      && (e.Release? ==> st'.handler.Off? && st'.main == st.main)
  {
  }

  lemma {:induction false} RunKeeps(es: seq<Event>, k: nat)
    requires Possible(es) && k <= |es| && forall j: nat :: j < k ==> PassesAt(es, j)
    ensures Inv(After(es[..k]))
  {
    if 0 < k {
      RunKeeps(es, k - 1);
      assert es[..k][..k - 1] == es[..k - 1] && es[..k][k - 1] == es[k - 1];
      assert PassesAt(es, k - 1);
      StepKeeps(After(es[..k - 1]), es[k - 1]);
    }
  }

  // ---------------------------------------------------------------- when the assertions hold

  /** As long as no assertion has failed, the next one fails if and only if the table is swept before a write fault
      has counted its page, or a sweep that took a page not yet reported is given back before the report. */
  lemma AssertionsExactly(es: seq<Event>, k: nat)
    requires Possible(es) && k < |es| && forall j: nat :: j < k ==> PassesAt(es, j)
    ensures var st := After(es[..k]);
      !PassesAt(es, k) <==>
        (es[k].Sweep? && st.main.Flagged?) || (es[k].Release? && st.main.Counted? && st.counted == 0)
  {
    RunKeeps(es, k);
  }

  /** No sweep starts inside a write fault. */
  ghost predicate Apart(es: seq<Event>) { forall k :: 0 <= k < |es| && es[k].Sweep? ==> !InFault(After(es[..k])) }

  predicate Safe(st: State) { Inv(st) && (st.main.Counted? ==> 0 < st.counted) }

  lemma SafeStep(st: State, e: Event)
    requires Safe(st) && Enabled(st, e) && (e.Sweep? ==> !InFault(st))
    ensures Passes(st, e) && Safe(Apply(st, e))
  {
  }

  lemma SafeMeans(st: State)
    requires Safe(st)
    ensures 0 <= st.flagged && 0 <= st.counted && 0 <= st.reported
    ensures st.main.Idle? && st.handler.Off? ==> st.flagged == st.counted == st.reported
  {
  }

  /** In every run in which no sweep starts inside a write fault all assertions hold, no count is ever negative, and
      whenever nothing is in progress the three counts agree. */
  lemma {:induction false} CountsAreSafe(es: seq<Event>, k: nat)
    requires Possible(es) && Apart(es) && k <= |es|
    ensures forall j: nat :: j < k ==> PassesAt(es, j)
    ensures var st := After(es[..k]);
      && Safe(st) && 0 <= st.flagged && 0 <= st.counted && 0 <= st.reported
      && (st.main.Idle? && st.handler.Off? ==> st.flagged == st.counted == st.reported)
  {
    hide Safe, Passes, Apply, InFault;
    if 0 < k {
      CountsAreSafe(es, k - 1);
      assert es[..k][..k - 1] == es[..k - 1] && es[..k][k - 1] == es[k - 1];
      SafeStep(After(es[..k - 1]), es[k - 1]);
    } else {
      StartSafe();
    }
    SafeMeans(After(es[..k]));
  }

  lemma StartSafe()
    ensures Safe(Start)
  {
  }

  /** A signal that comes before the page is counted: the swap-out writes a page more than the table counts. */
  lemma SweepBeforeCount()
    ensures var es := [Fault, Sweep]; Possible(es) && PassesAt(es, 0) && !PassesAt(es, 1)
  {
    var es := [Fault, Sweep];
    assert es[..0] == [] && es[..1] == [Fault];
    assert After([Fault]) == Apply(Start, Fault) by { assert [Fault][..0] == []; }
  }

  /** A signal that comes between counting and reporting, also in a process with other dirty pages: what is given
      back is more than the shared counter holds. */
  lemma SweepBeforeReport(n: nat) returns (es: seq<Event>)
    ensures Possible(es) && |es| >= 2 && (forall j: nat :: j < |es| - 1 ==> PassesAt(es, j)) && !PassesAt(es, |es| - 1)
    ensures var st := After(es[..|es| - 1]); st.handler == Swept(n + 1) && st.reported == n
  {
    hide After, Possible;
    es := Faults(n);
    es := Extend(es, Fault);
    es := Extend(es, Count);
    es := Extend(es, Sweep);
    Attempt(es, Release);
    assert (es + [Release])[..|es|] == es;
    es := es + [Release];
  }

  lemma Attempt(es: seq<Event>, e: Event)
    requires Possible(es) && (forall j: nat :: j < |es| ==> PassesAt(es, j)) && Enabled(After(es), e)
    ensures Possible(es + [e]) && (forall j: nat :: j < |es| ==> PassesAt(es + [e], j))
    ensures PassesAt(es + [e], |es|) <==> Passes(After(es), e)
    ensures After(es + [e]) == Apply(After(es), e)
  {
    hide Passes, Apply, Enabled;
    var fs := es + [e];
    assert fs[..|es|] == es;
    forall k: nat | k < |es| ensures Enabled(After(fs[..k]), fs[k]) && PassesAt(fs, k) {
      assert fs[..k] == es[..k] && fs[k] == es[k] && PassesAt(es, k);
    }
  }

  /** `n` write faults, one after the other. */
  lemma {:induction false} Faults(n: nat) returns (es: seq<Event>)
    ensures Possible(es) && (forall j: nat :: j < |es| ==> PassesAt(es, j)) && After(es) == State(n, n, n, Idle, Off)
  {
    if n == 0 {
      es := [];
    } else {
      es := Faults(n - 1);
      es := Extend(es, Fault);
      es := Extend(es, Count);
      es := Extend(es, Report);
    }
  }

  lemma Extend(es: seq<Event>, e: Event) returns (es': seq<Event>)
    requires Possible(es) && (forall j: nat :: j < |es| ==> PassesAt(es, j))
    requires Enabled(After(es), e) && Passes(After(es), e)
    ensures Possible(es') && (forall j: nat :: j < |es'| ==> PassesAt(es', j))
    ensures After(es') == Apply(After(es), e) && es' == es + [e]
  {
    hide Passes, Apply, Enabled, After;
    Attempt(es, e);
    es' := es + [e];
  }
}
