/**
 Admission of pages into the pool shared by the processes: how a victim is chosen, and why the loop
 that signals victims until the request fits comes to an end.
 */
module Admission {
  import opened Accounting

  /** The eligibility test ORs a `size_t` into an `int`, which keeps its low 32 bits only. */
  const IntRange := 0x1_0000_0000

  predicate Eligible(charge: nat, sigon: bool) { charge % IntRange != 0 || sigon }

  /** The shared counters: free pages and the charge of every process, and who has signalling on.  `kept` is
      the part of each charge that is not in the process's allocation table and so survives its handler: meta
      pages, pages admitted and not yet loaded, pages evicted and not yet released. */
  datatype Pool = Pool(s: nat, c: seq<nat>, kept: seq<nat>, sigon: seq<bool>)

  predicate PoolOk(p: Pool) {
    |p.c| == |p.sigon| == |p.kept| && forall i :: 0 <= i < |p.c| ==> p.kept[i] <= p.c[i]
  }

  /** Every charge another candidate could be asked for is in its table. */
  predicate AllInTable(p: Pool, id: nat)
    requires PoolOk(p)
  {
    forall i: nat :: i < |p.c| && Candidate(p, id, i) ==> p.kept[i] == 0
  }

  predicate Candidate(p: Pool, id: nat, i: nat)
    requires PoolOk(p)
  {
    i < |p.c| && i != id && Eligible(p.c[i], p.sigon[i])
  }

  predicate Covering(p: Pool, id: nat, need: nat, i: nat)
    requires PoolOk(p)
  {
    Candidate(p, id, i) && need <= p.c[i]
  }

  /** Some candidate alone releases enough for a request of `value` pages. */
  ghost predicate OneSuffices(p: Pool, id: nat, value: nat)
    requires PoolOk(p)
  {
    exists j: nat :: Candidate(p, id, j) && value <= p.s + p.c[j]
  }

  // ---------------------------------------------------------------- the rule

  /** No candidate covers the shortfall: the first of those with the most resident memory. */
  ghost predicate Largest(p: Pool, id: nat, upTo: nat, ii: nat)
    requires PoolOk(p) && Candidate(p, id, ii)
  {
    forall j: nat :: j < upTo && Candidate(p, id, j) ==>
      p.c[j] <= p.c[ii] && (j < ii ==> p.c[j] < p.c[ii])
  }

  /** Some candidate covers it: the first of those with the least resident memory. */
  ghost predicate LeastCovering(p: Pool, id: nat, need: nat, upTo: nat, ii: nat)
    requires PoolOk(p) && Candidate(p, id, ii)
  {
    forall j: nat :: j < upTo && Covering(p, id, need, j) ==>
      p.c[ii] <= p.c[j] && (j < ii ==> p.c[ii] < p.c[j])
  }

  /** The same by dirty memory, provided the values read are those of one moment. */
  ghost predicate LeastDirty(p: Pool, id: nat, need: nat, d: nat -> nat, upTo: nat, ii: nat)
    requires PoolOk(p) && Candidate(p, id, ii)
  {
    forall j: nat :: j < upTo && Covering(p, id, need, j) ==>
      d(ii) <= d(j) && (j < ii ==> d(ii) < d(j))
  }

  /** What the scan of the first `upTo` processes has to come up with. */
  ghost predicate Rule(p: Pool, id: nat, need: nat, admitd: bool, d1: nat -> nat, d2: nat -> nat, upTo: nat, ii: nat)
    requires PoolOk(p)
  {
    && Candidate(p, id, ii) && 0 < p.c[ii] && ii < upTo
    && (p.c[ii] < need ==>
          && (forall j: nat :: j < upTo ==> !Covering(p, id, need, j))
          && Largest(p, id, upTo, ii))
    && (need <= p.c[ii] && !admitd ==> LeastCovering(p, id, need, upTo, ii))
    && (need <= p.c[ii] && admitd && (forall j :: d1(j) == d2(j)) ==> LeastDirty(p, id, need, d2, upTo, ii))
  }

  ghost predicate NoVictim(p: Pool, id: nat, upTo: nat)
    requires PoolOk(p)
  {
    forall j: nat :: j < upTo && Candidate(p, id, j) ==> p.c[j] == 0
  }

  /** The comparison of the scan: whether a process with charge `c` and dirty counter `d` replaces the best so far. */
  predicate Better(need: int, admitd: bool, c: int, d: nat, mxC: int, mxD: nat) {
    (mxC < need && c > mxC) || (c >= need && ((!admitd && c < mxC) || (admitd && d < mxD)))
  }

  /** One pass over the processes.  `d1` and `d2` are the values the two reads of the dirty counters
      happen to return; they may disagree with each other and with anything else. */
  method SelectVictim(p: Pool, id: nat, need: nat, admitd: bool, d1: nat -> nat, d2: nat -> nat) returns (ii: int)
    requires PoolOk(p) && 0 < need
    ensures -1 <= ii < |p.c|
    ensures ii == -1 <==> NoVictim(p, id, |p.c|)
    ensures ii != -1 ==> Rule(p, id, need, admitd, d1, d2, |p.c|, ii)
    ensures (exists j: nat :: Covering(p, id, need, j)) <==> ii != -1 && need <= p.c[ii]
  {
    ii := -1;
    var mxC, mxD := 0, 0xFFFF_FFFF_FFFF_FFFF;
    var i := 0;
    while i < |p.c|
      invariant i <= |p.c| && -1 <= ii < i
      invariant ii == -1 ==> mxC == 0 && NoVictim(p, id, i)
      invariant ii != -1 ==> mxC == p.c[ii] && mxD == d2(ii) && Rule(p, id, need, admitd, d1, d2, i, ii)
    {
      if i != id && Eligible(p.c[i], p.sigon[i]) {
        if Better(need, admitd, p.c[i], d1(i), mxC, mxD) {
          ii, mxC, mxD := i, p.c[i], d2(i);
        }
      }
      i := i + 1;
    }
    if ii != -1 && need <= p.c[ii] { assert Covering(p, id, need, ii); }
  }

  /** The rule leaves no choice, so the pass computes the one victim it describes. */
  lemma RuleIsExact(p: Pool, id: nat, need: nat, admitd: bool, d: nat -> nat, ii: nat, jj: nat)
    requires PoolOk(p)
    requires Rule(p, id, need, admitd, d, d, |p.c|, ii) && Rule(p, id, need, admitd, d, d, |p.c|, jj)
    ensures ii == jj
  {
    if need <= p.c[ii] {
      assert Covering(p, id, need, ii);
    }
    if need <= p.c[jj] {
      assert Covering(p, id, need, jj);
    }
  }

  // ---------------------------------------------------------------- the loop

  /** The pool after the handler of process `ii` has released everything in its table. */
  function Emptied(p: Pool, ii: nat): (q: Pool)
    requires PoolOk(p) && ii < |p.c|
    ensures PoolOk(q)
  {
    p.(s := p.s + (p.c[ii] - p.kept[ii]), c := p.c[ii := p.kept[ii]])
  }

  /** What the others could be made to release. */
  function Offers(p: Pool, id: nat): (r: seq<nat>)
    requires PoolOk(p)
  {
    seq(|p.c|, i requires 0 <= i < |p.c| => if Candidate(p, id, i) then p.c[i] - p.kept[i] else 0)
  }

  /** One for every process that could release something. */
  function Givers(p: Pool, id: nat): (r: seq<nat>)
    requires PoolOk(p)
  {
    seq(|p.c|, i requires 0 <= i < |p.c| => if Candidate(p, id, i) && p.c[i] != p.kept[i] then 1 else 0)
  }

  /** A release never brings more within reach, and nothing is lost when the victim keeps nothing back. */
  lemma EmptiedOffers(p: Pool, id: nat, ii: nat)
    requires PoolOk(p) && Candidate(p, id, ii)
    ensures var q := Emptied(p, ii);
      && q.s + Sum(q.c) == p.s + Sum(p.c)
      && q.s + Sum(Offers(q, id)) == p.s + Sum(Offers(p, id))
      && Sum(Givers(q, id)) == Sum(Givers(p, id)) - (if p.c[ii] == p.kept[ii] then 0 else 1)
      && (AllInTable(p, id) ==> AllInTable(q, id))
  {
    hide Sum;
    var q := Emptied(p, ii);
    assert Offers(q, id) == Offers(p, id)[ii := 0];
    assert Givers(q, id) == Givers(p, id)[ii := 0];
    SumUpdate(p.c, ii, p.kept[ii]);
    SumUpdate(Offers(p, id), ii, 0);
    SumUpdate(Givers(p, id), ii, 0);
    assert forall i: nat :: i < |p.c| && i != ii ==> Candidate(q, id, i) == Candidate(p, id, i);
  }

  lemma NothingOffered(p: Pool, id: nat)
    requires PoolOk(p) && NoVictim(p, id, |p.c|)
    ensures Sum(Offers(p, id)) == 0
  {
    SumZero(Offers(p, id));
  }

  lemma {:induction false} AtMostOneEach(xs: seq<nat>, k: nat)
    requires forall i :: 0 <= i < |xs| ==> xs[i] <= 1
    ensures Sum(xs) <= |xs|
    ensures k < |xs| && xs[k] == 0 ==> Sum(xs) <= |xs| - 1
  {
    if xs != [] { AtMostOneEach(xs[..|xs| - 1], k); }
  }

  /** Fewer than all processes can ever be asked. */
  lemma FewGivers(p: Pool, id: nat)
    requires PoolOk(p) && id < |p.c|
    ensures Sum(Givers(p, id)) <= |p.c| - 1
  {
    AtMostOneEach(Givers(p, id), id);
  }

  /** One turn of the admission loop, as the rule and the victim's handler determine it. */
  ghost predicate Turn(p: Pool, id: nat, value: nat, admitd: bool, d1: nat -> nat, d2: nat -> nat, q: Pool)
    requires PoolOk(p) && p.s < value
  {
    || (NoVictim(p, id, |p.c|) && q == p)
    || (exists ii: nat :: ii < |p.c| && Rule(p, id, value - p.s, admitd, d1, d2, |p.c|, ii) && q == Emptied(p, ii))
  }

  /** The dirty counters as read in turn `k`. */
  function At(d: (nat, nat) -> nat, k: nat): nat -> nat { i => d(k, i) }

  /** Pools seen at the loop test, from one turn to the next; a loop that has ended stays where it is. */
  ghost predicate Turns(ps: seq<Pool>, id: nat, value: nat, admitd: bool,
                        d1: (nat, nat) -> nat, d2: (nat, nat) -> nat) {
    && (forall k :: 0 <= k < |ps| ==> PoolOk(ps[k]))
    && (forall k :: 0 <= k < |ps| - 1 ==>
          if ps[k].s < value then Turn(ps[k], id, value, admitd, At(d1, k), At(d2, k), ps[k + 1])
          else ps[k + 1] == ps[k])
  }

  /** Every turn keeps what is within reach; while all charges are in the tables, turns that leave the loop
      running use up one giver each. */
  lemma {:induction false} AfterTurns(ps: seq<Pool>, id: nat, value: nat, admitd: bool, d1: (nat, nat) -> nat,
                                      d2: (nat, nat) -> nat, k: nat)
    requires Turns(ps, id, value, admitd, d1, d2) && k < |ps|
    ensures ps[k].s + Sum(Offers(ps[k], id)) == ps[0].s + Sum(Offers(ps[0], id))
    ensures AllInTable(ps[0], id) ==> AllInTable(ps[k], id)
    ensures AllInTable(ps[0], id) && ps[k].s < value <= ps[0].s + Sum(Offers(ps[0], id)) ==>
      Sum(Givers(ps[k], id)) + k <= Sum(Givers(ps[0], id)) && 0 < Sum(Givers(ps[k], id))
  {
    hide Sum, Offers, Givers, Rule;
    if 0 < k {
      AfterTurns(ps, id, value, admitd, d1, d2, k - 1);
      var p, q := ps[k - 1], ps[k];
      if p.s < value {
        if NoVictim(p, id, |p.c|) && q == p {
          NothingOffered(p, id);
        } else {
          var e1, e2 := At(d1, k - 1), At(d2, k - 1);
          var ii: nat :| ii < |p.c| && Rule(p, id, value - p.s, admitd, e1, e2, |p.c|, ii) && q == Emptied(p, ii);
          RuleGives(p, id, value - p.s, admitd, e1, e2, ii);
          EmptiedOffers(p, id, ii);
        }
      }
    }
    GiversPositive(ps[k], id);
  }

  lemma RuleGives(p: Pool, id: nat, need: nat, admitd: bool, d1: nat -> nat, d2: nat -> nat, ii: nat)
    requires PoolOk(p) && Rule(p, id, need, admitd, d1, d2, |p.c|, ii)
    ensures Candidate(p, id, ii) && 0 < p.c[ii]
  {
  }

  /** A victim that covers whenever some candidate does ends the loop, if it keeps nothing back. */
  lemma Enough(p: Pool, id: nat, need: nat, value: nat, ii: nat)
    requires PoolOk(p) && p.s + need == value && ii < |p.c| && p.kept[ii] == 0
    requires (exists j: nat :: Covering(p, id, need, j)) <==> need <= p.c[ii]
    ensures OneSuffices(p, id, value) ==> value <= Emptied(p, ii).s
  {
    if OneSuffices(p, id, value) {
      var j: nat :| Candidate(p, id, j) && value <= p.s + p.c[j];
      assert Covering(p, id, need, j);
    }
  }

  lemma GiversPositive(p: Pool, id: nat)
    requires PoolOk(p)
    ensures Sum(Offers(p, id)) == 0 || 0 < Sum(Givers(p, id))
  {
    if forall i :: 0 <= i < |p.c| ==> Offers(p, id)[i] == 0 {
      SumZero(Offers(p, id));
    } else {
      var i :| 0 <= i < |p.c| && Offers(p, id)[i] != 0;
      SumAtLeast(Givers(p, id), i);
    }
  }

  /** Whatever is kept back, the loop can end only if the request is within the free pages plus what the
      other eligible processes have in their tables. */
  lemma AdmissionNeedsOffers(ps: seq<Pool>, id: nat, value: nat, admitd: bool, d1: (nat, nat) -> nat,
                             d2: (nat, nat) -> nat, k: nat)
    requires Turns(ps, id, value, admitd, d1, d2) && k < |ps|
    ensures value <= ps[k].s ==> value <= ps[0].s + Sum(Offers(ps[0], id))
  {
    AfterTurns(ps, id, value, admitd, d1, d2, k);
  }

  /** If every charge is in its table, the admission loop ends if and only if the request is at most the free
      pages plus what the other eligible processes are charged for; when it ends it does so within one turn
      per giver. */
  lemma AdmissionEndsExactlyWhen(ps: seq<Pool>, id: nat, value: nat, admitd: bool, d1: (nat, nat) -> nat,
                                 d2: (nat, nat) -> nat)
    requires Turns(ps, id, value, admitd, d1, d2) && ps != [] && AllInTable(ps[0], id)
    requires |ps| > Sum(Givers(ps[0], id))
    ensures value <= ps[0].s + Sum(Offers(ps[0], id)) <==> value <= ps[|ps| - 1].s
  {
    AfterTurns(ps, id, value, admitd, d1, d2, |ps| - 1);
  }

  /** A candidate that covers the shortfall alone is enough: the loop ends after that one turn. */
  lemma OneCoveringVictimSuffices(ps: seq<Pool>, id: nat, value: nat, admitd: bool, d1: (nat, nat) -> nat,
                                  d2: (nat, nat) -> nat)
    requires Turns(ps, id, value, admitd, d1, d2) && |ps| >= 2
    requires AllInTable(ps[0], id) && OneSuffices(ps[0], id, value)
    ensures value <= ps[1].s
  {
    if value <= ps[0].s { return; }
    var j: nat :| Candidate(ps[0], id, j) && value <= ps[0].s + ps[0].c[j];
    assert Covering(ps[0], id, value - ps[0].s, j);
    assert Turn(ps[0], id, value, admitd, At(d1, 0), At(d2, 0), ps[1]);
  }

  // ---------------------------------------------------------------- charges that are not in a table

  /** By resident memory alone the choice does not depend on the dirty counters read; by dirty memory it depends on
      their values only. */
  lemma SameChoice(p: Pool, id: nat, need: nat, admitd: bool, d1: nat -> nat, d2: nat -> nat, e: nat -> nat, ii: nat)
    requires PoolOk(p) && Rule(p, id, need, admitd, d1, d2, |p.c|, ii)
    requires admitd ==> forall i: nat :: d1(i) == d2(i) && d2(i) == e(i)
    ensures Rule(p, id, need, admitd, e, e, |p.c|, ii)
  {
  }

  /** If no other process has anything in its table, no turn of any kind changes the pool. */
  lemma {:induction false} StallsOnEmptyTables(ps: seq<Pool>, id: nat, value: nat, admitd: bool, d1: (nat, nat) -> nat,
                                               d2: (nat, nat) -> nat, k: nat)
    requires Turns(ps, id, value, admitd, d1, d2) && k < |ps| && ps[0].s < value
    requires forall i: nat :: i < |ps[0].c| && Candidate(ps[0], id, i) ==> ps[0].kept[i] == ps[0].c[i]
    ensures ps[k] == ps[0]
  {
    hide Largest, LeastCovering, LeastDirty;
    if 0 < k {
      StallsOnEmptyTables(ps, id, value, admitd, d1, d2, k - 1);
      assert Turn(ps[k - 1], id, value, admitd, At(d1, k - 1), At(d2, k - 1), ps[k]);
    }
  }

  /** The request does not fit, and the victim the rule picks, if any, has nothing in its table. */
  ghost predicate Stalled(p: Pool, id: nat, value: nat, admitd: bool, e: nat -> nat)
    requires PoolOk(p)
  {
    && p.s < value
    && forall ii: nat :: ii < |p.c| && Rule(p, id, value - p.s, admitd, e, e, |p.c|, ii) ==> p.kept[ii] == p.c[ii]
  }

  lemma SameStall(p: Pool, id: nat, value: nat, admitd: bool, e: nat -> nat, f: nat -> nat)
    requires PoolOk(p) && Stalled(p, id, value, admitd, e) && (admitd ==> forall i: nat :: e(i) == f(i))
    ensures Stalled(p, id, value, admitd, f)
  {
    hide Rule;
    forall ii: nat | ii < |p.c| && Rule(p, id, value - p.s, admitd, f, f, |p.c|, ii) ensures p.kept[ii] == p.c[ii] {
      SameChoice(p, id, value - p.s, admitd, f, f, e, ii);
    }
  }

  /** A turn from a stalled pool changes nothing; any other turn uses up a giver. */
  lemma TurnProgress(p: Pool, id: nat, value: nat, admitd: bool, d1: nat -> nat, d2: nat -> nat, q: Pool)
    requires PoolOk(p) && p.s < value && Turn(p, id, value, admitd, d1, d2, q)
    requires admitd ==> forall i: nat :: d1(i) == d2(i)
    ensures Stalled(p, id, value, admitd, d2) ==> q == p
    ensures !Stalled(p, id, value, admitd, d2) ==> PoolOk(q) && Sum(Givers(q, id)) + 1 == Sum(Givers(p, id))
  {
    hide Sum, Givers, Rule;
    var need := value - p.s;
    if !Stalled(p, id, value, admitd, d2) {
      var ii: nat :| ii < |p.c| && Rule(p, id, need, admitd, d2, d2, |p.c|, ii) && p.kept[ii] != p.c[ii];
      RuleGives(p, id, need, admitd, d2, d2, ii);
      var jj: nat :| jj < |p.c| && Rule(p, id, need, admitd, d1, d2, |p.c|, jj) && q == Emptied(p, jj);
      SameChoice(p, id, need, admitd, d1, d2, d2, jj);
      RuleIsExact(p, id, need, admitd, d2, ii, jj);
      EmptiedOffers(p, id, ii);
    } else if jj: nat :| jj < |p.c| && Rule(p, id, need, admitd, d1, d2, |p.c|, jj) && q == Emptied(p, jj) {
      SameChoice(p, id, need, admitd, d1, d2, d2, jj);
    }
  }

  /** The two reads of a turn agree, and the dirty counters change only when a victim releases something. */
  ghost predicate Steady(ps: seq<Pool>, d1: (nat, nat) -> nat, d2: (nat, nat) -> nat) {
    && (forall k: nat, i: nat :: d1(k, i) == d2(k, i))
    && (forall k, i: nat :: 0 <= k < |ps| - 1 && ps[k + 1] == ps[k] ==> d2(k + 1, i) == d2(k, i))
  }

  /** The two reads of turn `k` agree. */
  ghost predicate SameReads(d1: (nat, nat) -> nat, d2: (nat, nat) -> nat, k: nat) {
    forall i: nat :: At(d1, k)(i) == At(d2, k)(i)
  }

  /** The loop has stalled in turn `k`. */
  ghost predicate StalledAt(ps: seq<Pool>, id: nat, value: nat, admitd: bool, d: (nat, nat) -> nat, k: nat)
    requires k < |ps| && PoolOk(ps[k])
  {
    Stalled(ps[k], id, value, admitd, At(d, k))
  }

  lemma NextTurn(ps: seq<Pool>, id: nat, value: nat, admitd: bool, d1: (nat, nat) -> nat, d2: (nat, nat) -> nat, k: nat)
    requires Turns(ps, id, value, admitd, d1, d2) && (admitd ==> Steady(ps, d1, d2)) && k + 1 < |ps|
    ensures value <= ps[k].s || StalledAt(ps, id, value, admitd, d2, k) ==> ps[k + 1] == ps[k]
    ensures StalledAt(ps, id, value, admitd, d2, k) ==> StalledAt(ps, id, value, admitd, d2, k + 1)
    ensures ps[k].s < value && !StalledAt(ps, id, value, admitd, d2, k) ==>
      Sum(Givers(ps[k + 1], id)) + 1 == Sum(Givers(ps[k], id))
  {
    hide Sum, Givers, Stalled, Turn;
    if ps[k].s < value {
      TurnProgress(ps[k], id, value, admitd, At(d1, k), At(d2, k), ps[k + 1]);
      if StalledAt(ps, id, value, admitd, d2, k) { SameStall(ps[k], id, value, admitd, At(d2, k), At(d2, k + 1)); }
    }
    StalledShort(ps[k], id, value, admitd, At(d2, k));
  }

  lemma StalledShort(p: Pool, id: nat, value: nat, admitd: bool, e: nat -> nat)
    requires PoolOk(p)
    ensures Stalled(p, id, value, admitd, e) ==> p.s < value
  {
  }

  /** After `k` turns the loop has ended, has stalled, or has used up `k` givers. */
  lemma {:induction false} EndedStalledOrFewer(ps: seq<Pool>, id: nat, value: nat, admitd: bool,
                                               d1: (nat, nat) -> nat, d2: (nat, nat) -> nat, k: nat)
    requires Turns(ps, id, value, admitd, d1, d2) && (admitd ==> Steady(ps, d1, d2)) && k < |ps|
    ensures value <= ps[k].s || StalledAt(ps, id, value, admitd, d2, k)
      || Sum(Givers(ps[k], id)) + k <= Sum(Givers(ps[0], id))
  {
    hide Sum, Givers, StalledAt, Turn;
    if 0 < k {
      EndedStalledOrFewer(ps, id, value, admitd, d1, d2, k - 1);
      NextTurn(ps, id, value, admitd, d1, d2, k - 1);
    }
  }

  /** Neither an ended nor a stalled loop changes the pool any more. */
  lemma {:induction false} StaysAsItIs(ps: seq<Pool>, id: nat, value: nat, admitd: bool,
                                       d1: (nat, nat) -> nat, d2: (nat, nat) -> nat, j: nat, k: nat)
    requires Turns(ps, id, value, admitd, d1, d2) && (admitd ==> Steady(ps, d1, d2)) && j <= k < |ps|
    requires value <= ps[j].s || StalledAt(ps, id, value, admitd, d2, j)
    ensures ps[k] == ps[j] && (value <= ps[k].s || StalledAt(ps, id, value, admitd, d2, k))
  {
    hide StalledAt, Turn;
    if j < k {
      StaysAsItIs(ps, id, value, admitd, d1, d2, j, k - 1);
      NextTurn(ps, id, value, admitd, d1, d2, k - 1);
    }
  }

  /** Whatever is kept back, the loop ends within one turn per giver or never: it never ends if and only if on the
      way it meets a pool whose chosen victim has nothing in its table.  By resident memory this is so whatever is
      read; by dirty memory, if the counters read change only when a victim releases. */
  lemma EndsSoonOrNever(ps: seq<Pool>, id: nat, value: nat, admitd: bool, d1: (nat, nat) -> nat,
                        d2: (nat, nat) -> nat, k: nat)
    requires Turns(ps, id, value, admitd, d1, d2) && (admitd ==> Steady(ps, d1, d2)) && ps != []
    requires Sum(Givers(ps[0], id)) <= k < |ps|
    ensures ps[k] == ps[Sum(Givers(ps[0], id))]
    ensures value <= ps[k].s <==>
      forall j: nat :: j <= Sum(Givers(ps[0], id)) ==> !StalledAt(ps, id, value, admitd, d2, j)
  {
    hide Sum, Givers, Rule, Steady;
    var g := Sum(Givers(ps[0], id));
    EndedStalledOrFewer(ps, id, value, admitd, d1, d2, g);
    if ps[g].s < value && Sum(Givers(ps[g], id)) == 0 { NoGivers(ps[g], id, value, admitd, At(d2, g)); }
    StaysAsItIs(ps, id, value, admitd, d1, d2, g, k);
    forall j: nat | j <= g && StalledAt(ps, id, value, admitd, d2, j) ensures ps[k].s < value {
      StaysAsItIs(ps, id, value, admitd, d1, d2, j, k);
    }
  }

  lemma NoGivers(p: Pool, id: nat, value: nat, admitd: bool, e: nat -> nat)
    requires PoolOk(p) && Sum(Givers(p, id)) == 0 && p.s < value
    ensures Stalled(p, id, value, admitd, e)
  {
    hide Sum;
    forall ii: nat | ii < |p.c| && Candidate(p, id, ii) ensures p.kept[ii] == p.c[ii] {
      SumAtLeast(Givers(p, id), ii);
    }
  }

  /** If the victim the rule picks has nothing in its table, the loop picks it again and again and never ends,
      whatever the other processes could release. */
  lemma StallsOnKeptCharge(ps: seq<Pool>, id: nat, value: nat, admitd: bool, d1: (nat, nat) -> nat,
                           d2: (nat, nat) -> nat, ii: nat, k: nat)
    requires Turns(ps, id, value, admitd, d1, d2) && (admitd ==> Steady(ps, d1, d2)) && k < |ps|
    requires ps[0].s < value && ii < |ps[0].c| && ps[0].kept[ii] == ps[0].c[ii]
    requires Rule(ps[0], id, value - ps[0].s, admitd, At(d2, 0), At(d2, 0), |ps[0].c|, ii)
    ensures ps[k] == ps[0]
  {
    hide Rule;
    var p, need, e := ps[0], value - ps[0].s, At(d2, 0);
    forall jj: nat | jj < |p.c| && Rule(p, id, need, admitd, e, e, |p.c|, jj) ensures p.kept[jj] == p.c[jj] {
      RuleIsExact(p, id, need, admitd, e, ii, jj);
    }
    StaysAsItIs(ps, id, value, admitd, d1, d2, 0, k);
  }

  /** One other process, whose single page is a meta page: charges cover the request and no turn ends the loop. */
  lemma MetaPageStalls(d1: nat -> nat, d2: nat -> nat, admitd: bool)
    ensures var p := Pool(0, [0, 1], [0, 1], [false, false]);
      && PoolOk(p) && Covering(p, 0, 1, 1) && 1 <= p.s + p.c[1]
      && forall q :: Turn(p, 0, 1, admitd, d1, d2, q) ==> q == p
  {
    var p := Pool(0, [0, 1], [0, 1], [false, false]);
    assert Candidate(p, 0, 1);
    assert forall ii: nat :: ii < 2 && Candidate(p, 0, ii) ==> Emptied(p, ii) == p;
  }

  /** The truncated eligibility test can hide a charge: here one process holds everything and is never asked. */
  lemma HiddenCharge(d1: nat -> nat, d2: nat -> nat)
    ensures var p := Pool(0, [0, IntRange], [0, 0], [false, false]);
      && p.s + Sum(p.c) >= 1
      && forall q :: Turn(p, 0, 1, false, d1, d2, q) ==> q == p
  {
    var p := Pool(0, [0, IntRange], [0, 0], [false, false]);
    SumAtLeast(p.c, 1);
    assert !Candidate(p, 0, 1);
    assert !Candidate(p, 0, 0);
  }

  /** What every process has charged in its table. */
  function InTables(p: Pool): (r: seq<nat>)
    requires PoolOk(p)
  {
    seq(|p.c|, i requires 0 <= i < |p.c| => p.c[i] - p.kept[i])
  }

  /** The tables of all other processes count in full if and only if none with something in its table has
      signalling off and a charge that is a multiple of 2^32. */
  lemma OffersAreEveryOther(p: Pool, id: nat)
    requires PoolOk(p) && id < |p.c|
    ensures (forall i :: 0 <= i < |p.c| && i != id ==> p.c[i] == p.kept[i] || p.sigon[i] || p.c[i] % IntRange != 0)
      <==> Sum(Offers(p, id)) == Sum(InTables(p)) - InTables(p)[id]
  {
    SumUpdate(InTables(p), id, 0);
    var xs, ys := Offers(p, id), InTables(p)[id := 0];
    assert forall i :: 0 <= i < |p.c| ==> xs[i] == if Candidate(p, id, i) then p.c[i] - p.kept[i] else 0;
    SumPointwise(xs, ys);
    if i :| 0 <= i < |p.c| && i != id && !(p.c[i] == p.kept[i] || p.sigon[i] || p.c[i] % IntRange != 0) {
      assert xs[i] != ys[i];
    } else {
      assert xs == ys;
    }
  }

  lemma {:induction false} SumPointwise(xs: seq<nat>, ys: seq<nat>)
    requires |xs| == |ys| && forall i :: 0 <= i < |xs| ==> xs[i] <= ys[i]
    ensures Sum(xs) <= Sum(ys) && (Sum(xs) == Sum(ys) <==> xs == ys)
  {
    if xs != [] {
      var n := |xs| - 1;
      SumPointwise(xs[..n], ys[..n]);
      assert xs == xs[..n] + [xs[n]] && ys == ys[..n] + [ys[n]];
    }
  }

  /** The pool after process `id` has been charged `value` pages. */
  function Taken(p: Pool, id: nat, value: nat): Pool
    requires PoolOk(p) && id < |p.c| && value <= p.s
  {
    p.(s := p.s - value, c := p.c[id := p.c[id] + value], kept := p.kept[id := p.kept[id] + value])
  }

  lemma TurnsExtend(ps: seq<Pool>, id: nat, value: nat, admitd: bool, d1: (nat, nat) -> nat, d2: (nat, nat) -> nat)
    requires |ps| >= 2 && Turns(ps[..|ps| - 1], id, value, admitd, d1, d2) && PoolOk(ps[|ps| - 1])
    requires PoolOk(ps[|ps| - 2]) && ps[|ps| - 2].s < value
    requires var k := |ps| - 2; Turn(ps[k], id, value, admitd, At(d1, k), At(d2, k), ps[k + 1])
    ensures Turns(ps, id, value, admitd, d1, d2)
  {
    hide Turn;
    assert forall k :: 0 <= k < |ps| - 1 ==> ps[..|ps| - 1][k] == ps[k];
  }

  /** What the turns so far say about whether the loop can and must end. */
  lemma AdmitEnds(ps: seq<Pool>, id: nat, value: nat, admitd: bool, d1: (nat, nat) -> nat, d2: (nat, nat) -> nat,
                  k: nat)
    requires Turns(ps, id, value, admitd, d1, d2) && k < |ps|
    ensures value <= ps[k].s ==> value <= ps[0].s + Sum(Offers(ps[0], id))
    ensures AllInTable(ps[0], id) && OneSuffices(ps[0], id, value) && k >= 1 ==> value <= ps[1].s
    ensures AllInTable(ps[0], id) && OneSuffices(ps[0], id, value) ==> value <= ps[0].s + Sum(Offers(ps[0], id))
  {
    AfterTurns(ps, id, value, admitd, d1, d2, k);
    if AllInTable(ps[0], id) && OneSuffices(ps[0], id, value) {
      var j: nat :| Candidate(ps[0], id, j) && value <= ps[0].s + ps[0].c[j];
      SumAtLeast(Offers(ps[0], id), j);
      if k >= 1 { OneCoveringVictimSuffices(ps, id, value, admitd, d1, d2); }
    }
  }

  /** Whatever happens to another process, it keeps its charge or is a candidate that is left with what it kept. */
  lemma {:induction false} KeepOrGive(ps: seq<Pool>, id: nat, value: nat, admitd: bool, d1: (nat, nat) -> nat,
                                      d2: (nat, nat) -> nat, k: nat)
    requires Turns(ps, id, value, admitd, d1, d2) && k < |ps|
    ensures |ps[k].c| == |ps[0].c| && ps[k].kept == ps[0].kept && ps[k].sigon == ps[0].sigon
    ensures forall i: nat :: i < |ps[0].c| ==>
      ps[k].c[i] == ps[0].c[i] || (ps[k].c[i] == ps[0].kept[i] && Candidate(ps[0], id, i))
  {
    hide Rule;
    if 0 < k {
      KeepOrGive(ps, id, value, admitd, d1, d2, k - 1);
      var p, e1, e2 := ps[k - 1], At(d1, k - 1), At(d2, k - 1);
      if p.s < value {
        assert Turn(p, id, value, admitd, e1, e2, ps[k]);
        if ii: nat :| ii < |p.c| && Rule(p, id, value - p.s, admitd, e1, e2, |p.c|, ii) && ps[k] == Emptied(p, ii) {
          RuleGives(p, id, value - p.s, admitd, e1, e2, ii);
        }
      }
    }
  }

  /** A turn that changes nothing: the loop has stalled, and if nothing is kept back the request is out of reach. */
  lemma GaveUp(ps: seq<Pool>, id: nat, value: nat, admitd: bool, d1: (nat, nat) -> nat, d2: (nat, nat) -> nat)
    requires |ps| >= 2 && Turns(ps, id, value, admitd, d1, d2)
    requires ps[|ps| - 1] == ps[|ps| - 2] && ps[|ps| - 2].s < value
    ensures (admitd ==> SameReads(d1, d2, |ps| - 2)) ==> StalledAt(ps, id, value, admitd, d2, |ps| - 2)
    ensures AllInTable(ps[0], id) ==> ps[0].s + Sum(Offers(ps[0], id)) < value
  {
    hide Sum, Offers, Givers, Stalled, Rule;
    var k := |ps| - 2;
    AfterTurns(ps, id, value, admitd, d1, d2, k);
    var p := ps[k];
    assert Turn(p, id, value, admitd, At(d1, k), At(d2, k), ps[k + 1]);
    if admitd ==> SameReads(d1, d2, k) {
      TurnProgress(p, id, value, admitd, At(d1, k), At(d2, k), ps[k + 1]);
    }
    if NoVictim(p, id, |p.c|) {
      NothingOffered(p, id);
    } else {
      var ii: nat :| ii < |p.c| && Rule(p, id, value - p.s, admitd, At(d1, k), At(d2, k), |p.c|, ii)
        && ps[k + 1] == Emptied(p, ii);
      RuleGives(p, id, value - p.s, admitd, At(d1, k), At(d2, k), ii);
      assert p.c[ii] == p.kept[ii];
    }
  }

  /** One process's end of the shared region, as `ipc_madmit` runs it while no other process interferes. */
  class Ipc {
    const id: nat
    var pool: Pool
    var maxPages: nat

    ghost predicate Valid() reads this { PoolOk(pool) && id < |pool.c| }

    constructor (id: nat, pool: Pool)
      requires PoolOk(pool) && id < |pool.c|
      ensures Valid() && this.id == id && this.pool == pool && maxPages == 0
    {
      this.id, this.pool, maxPages := id, pool, 0;
    }

    /** `ipc_atomic_inc`: the pages are charged now and come into the table later. */
    method AtomicInc(value: nat)
      requires Valid() && value <= pool.s
      modifies this
      ensures Valid() && pool.sigon == old(pool.sigon) && pool.kept == old(pool.kept)[id := old(pool.kept[id]) + value]
      ensures pool.s == old(pool.s) - value && pool.c == old(pool.c)[id := old(pool.c[id]) + value]
      ensures maxPages == if pool.c[id] > old(maxPages) then pool.c[id] else old(maxPages)
      ensures pool.s + Sum(pool.c) == old(pool.s + Sum(pool.c))
    {
      hide Sum;
      SumUpdate(pool.c, id, pool.c[id] + value);
      pool := pool.(s := pool.s - value);
      pool := pool.(c := pool.c[id := pool.c[id] + value], kept := pool.kept[id := pool.kept[id] + value]);
      if pool.c[id] > maxPages { maxPages := pool.c[id]; }
    }

    /** `ipc_atomic_dec` by process `k`: `parked` of the pages had left its table before, the others leave it now. */
    method AtomicDec(k: nat, cPages: nat, parked: nat)
      requires Valid() && k < |pool.c| && parked <= cPages && parked <= pool.kept[k]
      requires cPages - parked <= pool.c[k] - pool.kept[k]
      modifies this`pool
      ensures Valid() && pool.sigon == old(pool.sigon) && pool.kept == old(pool.kept)[k := old(pool.kept[k]) - parked]
      ensures pool.s == old(pool.s) + cPages && pool.c == old(pool.c)[k := old(pool.c[k]) - cPages]
      ensures pool.s + Sum(pool.c) == old(pool.s + Sum(pool.c))
    {
      hide Sum;
      SumUpdate(pool.c, k, pool.c[k] - cPages);
      pool := pool.(s := pool.s + cPages);
      pool := pool.(c := pool.c[k := pool.c[k] - cPages], kept := pool.kept[k := pool.kept[k] - parked]);
    }

    /** The handler of process `k`: everything charged in its table is released, if it is still eligible. */
    method Handle(k: nat)
      requires Valid() && k < |pool.c|
      modifies this`pool
      ensures Valid()
      ensures pool == if Eligible(old(pool).c[k], old(pool).sigon[k]) then Emptied(old(pool), k) else old(pool)
    {
      if Eligible(pool.c[k], pool.sigon[k]) {
        AtomicDec(k, pool.c[k] - pool.kept[k], 0);
      }
    }

    /** One turn of the loop: a victim is chosen, signalled and waited for, or there is none. */
    method OneTurn(value: nat, admitd: bool, d1: nat -> nat, d2: nat -> nat)
      requires Valid() && pool.s < value
      modifies this`pool
      ensures Valid() && |pool.c| == old(|pool.c|) && pool.s + Sum(pool.c) == old(pool.s + Sum(pool.c))
      ensures Turn(old(pool), id, value, admitd, d1, d2, pool)
      ensures pool == old(pool) || Sum(Givers(pool, id)) + 1 == Sum(Givers(old(pool), id))
    {
      hide Sum, Offers, Givers, Rule;
      ghost var p := pool;
      var ii := SelectVictim(pool, id, value - pool.s, admitd, d1, d2);
      if ii != -1 {
        RuleGives(p, id, value - p.s, admitd, d1, d2, ii);
        EmptiedOffers(p, id, ii);
        Handle(ii);
      }
    }

    /** `ipc_madmit`: signal other processes until the request fits, then take it.  `ps` are the pools at the loop
        test.  The method gives up (`!took`) after a turn that changes nothing, where the loop of the source goes on
        signalling: it takes the request only if that is within reach of what the tables hold, and always then if the
        others keep nothing back; otherwise it gives up exactly where the loop has stalled. */
    method Admit(value: nat, admitd: bool, d1: (nat, nat) -> nat, d2: (nat, nat) -> nat)
      returns (took: bool, evictions: nat, ghost ps: seq<Pool>)
      requires Valid()
      modifies this
      ensures Valid() && pool.s + Sum(pool.c) == old(pool.s + Sum(pool.c))
      ensures |ps| == evictions + (if took then 1 else 2) && ps[0] == old(pool) && Turns(ps, id, value, admitd, d1, d2)
      ensures var last := ps[evictions];
        if took then value <= last.s && id < |last.c| && pool == Taken(last, id, value)
        else last.s < value && pool == last && ps[evictions + 1] == last
      ensures forall j :: 0 <= j < evictions ==> ps[j].s < value
      ensures !took && (admitd ==> SameReads(d1, d2, evictions)) ==> StalledAt(ps, id, value, admitd, d2, evictions)
      ensures took ==> value <= old(pool).s + Sum(Offers(old(pool), id))
      ensures AllInTable(old(pool), id) && value <= old(pool).s + Sum(Offers(old(pool), id)) ==> took
      ensures evictions <= Sum(Givers(old(pool), id)) <= |pool.c| - 1 && |pool.c| == old(|pool.c|)
      ensures forall i: nat :: i < |pool.c| && i != id ==>
        pool.c[i] == old(pool).c[i] || (pool.c[i] == old(pool).kept[i] && Candidate(old(pool), id, i))
      ensures AllInTable(old(pool), id) && OneSuffices(old(pool), id, value) ==> took && evictions <= 1
    {
      hide Sum, Offers, Givers, Rule, Turn, StalledAt, Candidate, AllInTable, OneSuffices, Emptied;
      ghost var p0 := pool;
      took, evictions, ps := true, 0, [pool];
      FewGivers(pool, id);
      while pool.s < value
        invariant Valid() && |ps| == evictions + 1 && ps[0] == p0 && ps[evictions] == pool && |pool.c| == |p0.c|
        invariant Turns(ps, id, value, admitd, d1, d2) && pool.s + Sum(pool.c) == p0.s + Sum(p0.c)
        invariant Sum(Givers(pool, id)) + evictions == Sum(Givers(p0, id))
        invariant forall j :: 0 <= j < evictions ==> ps[j].s < value
        decreases Sum(Givers(pool, id))
      {
        var p, k := pool, evictions;
        OneTurn(value, admitd, At(d1, k), At(d2, k));
        ghost var qs := ps;
        ps := ps + [pool];
        assert ps[..|ps| - 1] == qs;
        TurnsExtend(ps, id, value, admitd, d1, d2);
        if pool == p {
          took := false;
          AdmitEnds(ps, id, value, admitd, d1, d2, k);
          KeepOrGive(ps, id, value, admitd, d1, d2, k);
          GaveUp(ps, id, value, admitd, d1, d2);
          return;
        }
        evictions := evictions + 1;
      }
      AdmitEnds(ps, id, value, admitd, d1, d2, evictions);
      KeepOrGive(ps, id, value, admitd, d1, d2, evictions);
      if value != 0 { AtomicInc(value); }
    }
  }
}
