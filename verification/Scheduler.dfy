// The round-robin search of kernel/proc.c and the waiting bound it gives.
module Scheduler {
  import opened Common
  import opened ProcTable

  /** i % n for a cursor that is at most one past the table. */
  function Wrap(i: nat, n: nat): (r: nat)
    requires i <= n && 0 < n
    ensures r < n
  {
    if i == n then 0 else i
  }

  /** The same as the loop computes it. */
  function Modulo(i: nat, n: nat): (r: nat)
    requires i <= n && 0 < n
    ensures r == Wrap(i, n)
  {
    if i < n then assert i / n == 0; i % n else assert n % n == 0; i % n
  }

  /** How many slots the cursor passes on its way from one slot to another. */
  function Distance(n: nat, from: nat, to: nat): (d: nat)
    requires from < n && to < n
    ensures d < n
  {
    if from <= to then to - from else to + n - from
  }

  /** A slot the search accepts. `idle` is the idle process's slot, or |procs|
      while there is no idle process yet. */
  predicate Eligible(procs: seq<Proc>, idle: nat, want: ProcState, i: nat) {
    i < |procs| && i != idle && procs[i].state == want
  }

  /** find_next_proc: the slot found, and the static cursor it leaves behind. The
      slot is the eligible one nearest to the cursor in cyclic order. */
  function FindNext(procs: seq<Proc>, idle: nat, want: ProcState, cursor: nat): (r: (Option<nat>, nat))
    requires 0 < |procs| && cursor <= |procs|
    ensures r.1 <= |procs|
    ensures r.0.Some? ==>
      && Eligible(procs, idle, want, r.0.value)
      && r.1 == r.0.value + 1
      && forall j :: Eligible(procs, idle, want, j) ==>
           Distance(|procs|, Wrap(cursor, |procs|), r.0.value) <= Distance(|procs|, Wrap(cursor, |procs|), j)
    ensures r.0.None? ==>
      && r.1 == Wrap(cursor, |procs|)
      && forall j :: !Eligible(procs, idle, want, j)
  {
    var start := Wrap(cursor, |procs|);
    Search(procs, idle, want, start, start, 0)
  }

  /** n rounds after it started, the search stands n slots on and has passed over no
      eligible slot. */
  ghost predicate SearchPoint(procs: seq<Proc>, idle: nat, want: ProcState, start: nat, i: nat, n: nat) {
    && start < |procs| && i < |procs| && n <= |procs|
    && (if n < |procs| then Distance(|procs|, start, i) == n else i == start)
    && forall j :: Eligible(procs, idle, want, j) ==> n <= Distance(|procs|, start, j)
  }

  lemma SearchStep(procs: seq<Proc>, idle: nat, want: ProcState, start: nat, i: nat, n: nat)
    requires SearchPoint(procs, idle, want, start, i, n) && n < |procs| && !Eligible(procs, idle, want, i)
    ensures SearchPoint(procs, idle, want, start, Wrap(i + 1, |procs|), n + 1)
  {}

  lemma SearchOver(procs: seq<Proc>, idle: nat, want: ProcState, start: nat, i: nat)
    requires SearchPoint(procs, idle, want, start, i, |procs|)
    ensures forall j :: !Eligible(procs, idle, want, j)
  {
    forall j: nat | j < |procs| ensures !Eligible(procs, idle, want, j) {
      var d := Distance(|procs|, start, j);
    }
  }

  /** The loop of find_next_proc after n rounds, standing at slot i. */
  function Search(procs: seq<Proc>, idle: nat, want: ProcState, start: nat, i: nat, n: nat): (r: (Option<nat>, nat))
    requires SearchPoint(procs, idle, want, start, i, n)
    ensures r.1 <= |procs|
    ensures r.0.Some? ==>
      && Eligible(procs, idle, want, r.0.value)
      && r.1 == r.0.value + 1
      && forall j :: Eligible(procs, idle, want, j) ==>
           Distance(|procs|, start, r.0.value) <= Distance(|procs|, start, j)
    ensures r.0.None? ==> r.1 == start && forall j :: !Eligible(procs, idle, want, j)
    decreases |procs| - n
  {
    if n == |procs| then SearchOver(procs, idle, want, start, i); (None, i)
    else if Eligible(procs, idle, want, i) then (Some(i), i + 1)
    else
      assert SearchPoint(procs, idle, want, start, Wrap(i + 1, |procs|), n + 1);
      Search(procs, idle, want, start, Wrap(i + 1, |procs|), n + 1)
  }

  /** One more round, and what the loop finds when it is over. */
  lemma SearchRound(procs: seq<Proc>, idle: nat, want: ProcState, start: nat, i: nat, n: nat, i': nat, n': nat)
    requires SearchPoint(procs, idle, want, start, i, n) && n < |procs| && !Eligible(procs, idle, want, i)
    requires n' == n + 1 && i' == Wrap(i + 1, |procs|)
    ensures SearchPoint(procs, idle, want, start, i', n')
    ensures Search(procs, idle, want, start, i, n) == Search(procs, idle, want, start, i', n')
  {
    SearchStep(procs, idle, want, start, i, n);
  }

  lemma SearchEnd(procs: seq<Proc>, idle: nat, want: ProcState, start: nat, i: nat, n: nat)
    requires SearchPoint(procs, idle, want, start, i, n) && (n == |procs| || Eligible(procs, idle, want, i))
    ensures Search(procs, idle, want, start, i, n) == if n < |procs| then (Some(i), i + 1) else (None, i)
  {}

  // ----- bounded waiting -----

  /** The slots found by a series of searches over tables that may change in
      between, starting from a given cursor. */
  function Searches(tables: seq<seq<Proc>>, n: nat, idle: nat, cursor: nat): (found: seq<Option<nat>>)
    requires 0 < n && cursor <= n
    requires forall t :: 0 <= t < |tables| ==> |tables[t]| == n
    ensures |found| == |tables|
  {
    if tables == [] then []
    else
      var (slot, next) := FindNext(tables[0], idle, Ready, cursor);
      [slot] + Searches(tables[1..], n, idle, next)
  }

  /** A search that passes over a ready process brings the cursor closer to it. */
  lemma SearchApproaches(procs: seq<Proc>, idle: nat, cursor: nat, p: nat)
    requires 0 < |procs| && cursor <= |procs|
    requires Eligible(procs, idle, Ready, p)
    ensures var (slot, next) := FindNext(procs, idle, Ready, cursor);
      slot == Some(p)
      || Distance(|procs|, Wrap(next, |procs|), p) < Distance(|procs|, Wrap(cursor, |procs|), p)
  {}

  /** Bounded waiting: a process that stays ready is found by one of the next
      Distance + 1 searches, hence by one of any NPROCS consecutive ones. */
  lemma {:induction false} BoundedWaiting(tables: seq<seq<Proc>>, n: nat, idle: nat, cursor: nat, p: nat)
    requires p < n && cursor <= n && p != idle
    requires forall t :: 0 <= t < |tables| ==> |tables[t]| == n && tables[t][p].state == Ready
    requires Distance(n, Wrap(cursor, n), p) < |tables|
    ensures Some(p) in Searches(tables, n, idle, cursor)
  {
    var (slot, next) := FindNext(tables[0], idle, Ready, cursor);
    var found := Searches(tables, n, idle, cursor);
    assert Eligible(tables[0], idle, Ready, p);
    if slot == Some(p) {
      assert found[0] == Some(p);
    } else {
      SearchApproaches(tables[0], idle, cursor, p);
      BoundedWaiting(tables[1..], n, idle, next, p);
      assert found == [slot] + Searches(tables[1..], n, idle, next);
    }
  }

  /** In any NPROCS searches every process that stays ready gets its turn. */
  lemma EveryoneGetsATurn(tables: seq<seq<Proc>>, n: nat, idle: nat, cursor: nat, p: nat)
    requires p < n && cursor <= n && p != idle
    requires |tables| == n
    requires forall t :: 0 <= t < |tables| ==> |tables[t]| == n && tables[t][p].state == Ready
    ensures Some(p) in Searches(tables, n, idle, cursor)
  {
    BoundedWaiting(tables, n, idle, cursor, p);
  }
}
