// How the kernel builds its process table before the first process runs: kernel/proc.c's
// proc_earlyinit, proc_new and proc_kickoff_first_process.
module IpcBoot {
  import opened Common
  import opened ProcTable
  import opened PhysMem
  import opened HeapSpec
  import opened Scheduler
  import opened Ipc
  import opened IpcInvariant
  import opened IpcWaits
  import opened WaitGraph

  /** An empty table of n slots; `idle` is out of range until the idle process exists. */
  function Blank(n: nat, mem: Memory): (s: State) {
    State(seq(n, i => Proc(NO_PID, Unused, [])), 0, n, 0, false, [], mem)
  }

  /** proc_new: the next unused slot, with the next pid, becomes the current process. */
  function Create(s: State, pid: U32): (o: Outcome)
    requires 0 < |s.procs| && s.cursor <= |s.procs|
    ensures o.Next? ==> |o.s.procs| == |s.procs| && o.s.cursor <= |s.procs|
  {
    var (slot, next) := FindNext(s.procs, s.idle, Unused, s.cursor);
    if slot.None? then Fault
    else Next(s.(procs := s.procs[slot.value := Proc(pid, Ready, [])], cursor := next, current := slot.value))
  }

  /** The kernel process, the idle process and k - 2 further processes, pids from 0. */
  function Created(n: nat, k: nat, mem: Memory): (o: Outcome)
    requires 0 < n && k <= n < NO_PID
    ensures o.Next? ==> |o.s.procs| == n && o.s.cursor <= n
  {
    if k == 0 then Next(Blank(n, mem))
    else
      var before := Created(n, k - 1, mem);
      if before.Fault? then Fault
      else
        var o := Create(before.s, k - 1);
        if k == 2 && o.Next? then Next(o.s.(idle := o.s.current)) else o
  }

  /** proc_kickoff_first_process */
  function Kickoff(s: State): (s': State)
    requires s.current < |s.procs|
  {
    SetState(s, s.current, Running).(enabled := true)
  }

  /** The first k slots, in order, get pids 0 to k-1. */
  lemma {:induction false} CreatedTable(n: nat, k: nat, mem: Memory)
    requires 0 < k <= n < NO_PID
    ensures Created(n, k, mem).Next?
    ensures var s := Created(n, k, mem).s;
      && s.cursor == k && s.current == k - 1 && s.heap == [] && s.mem == mem
      && s.idle == (if k < 2 then n else 1)
      && forall i :: 0 <= i < n ==> s.procs[i] == if i < k then Proc(i, Ready, []) else Proc(NO_PID, Unused, [])
  {
    if k > 1 { CreatedTable(n, k - 1, mem); }
    var before := Created(n, k - 1, mem).s;
    var start := Wrap(before.cursor, n);
    assert start == k - 1;
    assert Eligible(before.procs, before.idle, Unused, k - 1);
    assert Distance(n, start, k - 1) == 0;
    var slot := FindNext(before.procs, before.idle, Unused, before.cursor).0;
    assert Distance(n, start, slot.value) == 0;
  }

  function Fresh(n: nat): History {
    History(map[], seq(n, i => []), seq(n, i => []), seq(n, i => []), seq(n, i => None))
  }

  /** The booted machine satisfies the invariant, with nobody waiting. */
  lemma {:induction false} BootEstablishes(n: nat, k: nat, mem: Memory)
    requires 3 <= k <= n < NO_PID
    ensures Created(n, k, mem).Next? && Created(n, k, mem).s.current < n
    ensures var s := Kickoff(Created(n, k, mem).s);
      |s.procs| == n && Inv(s, Fresh(n)) && Acyclic(Targets(Fresh(n)))
  {
    CreatedTable(n, k, mem);
    KickoffSound(Created(n, k, mem).s, n, k);
  }

  lemma KickoffSound(s: State, n: nat, k: nat)
    requires 3 <= k <= n < NO_PID
    requires |s.procs| == n && s.cursor == k && s.current == k - 1 && s.heap == [] && s.idle == 1
    requires forall i :: 0 <= i < n ==> s.procs[i] == if i < k then Proc(i, Ready, []) else Proc(NO_PID, Unused, [])
    ensures Inv(Kickoff(s), Fresh(n)) && Acyclic(Targets(Fresh(n)))
  {
    var s' := Kickoff(s);
    assert forall i :: 0 <= i < n ==> s'.procs[i].queue == [] && !s'.procs[i].state.Blocked();
    QuietIsSound(s', n);
  }

  /** With all queues empty and nobody blocked, only the slots matter. */
  lemma QuietIsSound(s: State, n: nat)
    requires Slots(s, Fresh(n)) && |s.procs| == n && s.heap == []
    requires forall i :: 0 <= i < n ==> s.procs[i].queue == [] && !s.procs[i].state.Blocked()
    ensures Core(s, Fresh(n))
  {
    var h := Fresh(n);
    forall i | 0 <= i < n ensures QueueOk(s, h, i) && HoldsLive(s, h, i) {}
    forall i | 0 <= i < n ensures h.accepted[i] == h.replied[i] + Unanswered(s.procs[i]) {}
    NobodyBlocked(s.procs);
  }

  lemma {:induction false} NobodyBlocked(procs: seq<Proc>)
    requires forall i :: 0 <= i < |procs| ==> !procs[i].state.Blocked()
    ensures BlockedCount(procs) == 0
  {
    if procs != [] { NobodyBlocked(procs[..|procs| - 1]); }
  }

  /** From boot, every well-behaved run with at most 314 process slots is free of faults:
      every kalloc succeeds inside the pool, every reply finds its sender, and the
      invariant holds throughout. Without a ready process's send to itself, the requests
      form no circle. */
  lemma FromBoot(n: nat, k: nat, mem: Memory, events: seq<Event>)
    requires 3 <= k <= n <= 314
    requires Created(n, k, mem).Next? && Created(n, k, mem).s.current < n
    requires var s := Kickoff(Created(n, k, mem).s); Shape(s) && PoliteRun(s, events)
    ensures var s := Kickoff(Created(n, k, mem).s);
      && Run(s, events).Next?
      && Sized(s, Fresh(n))
      && Inv(Run(s, events).s, Story(s, Fresh(n), events))
      && |Run(s, events).s.heap| <= n
      && (NoSelfBlocks(s, events) ==> Acyclic(Targets(Story(s, Fresh(n), events))))
  {
    BootEstablishes(n, k, mem);
    var s := Kickoff(Created(n, k, mem).s);
    BlockAtIsLinear(NODE_SIZE, n);
    RunKeeps(s, Fresh(n), events);
    if NoSelfBlocks(s, events) { PoliteRunAcyclic(s, Fresh(n), events); }
  }

  /** From boot, if nobody sends to itself or to the idle process either, then while anybody
      awaits a reply, there is a process other than idle to run. */
  lemma NoDeadlockFromBoot(n: nat, k: nat, mem: Memory, events: seq<Event>)
    requires 3 <= k <= n <= 314
    requires Created(n, k, mem).Next? && Created(n, k, mem).s.current < n
    requires var s := Kickoff(Created(n, k, mem).s);
      Shape(s) && PoliteRun(s, events) && NoSelfBlocks(s, events) && SparesIdle(s, events)
    ensures var s := Kickoff(Created(n, k, mem).s);
      && Run(s, events).Next?
      && var t := Run(s, events).s;
      ((exists p :: AwaitsAt(t, p)) ==>
         var t' := Schedule(t.(enabled := true)); t'.current != s.idle && t'.procs[t'.current].state.Ready?)
  {
    FromBoot(n, k, mem, events);
    BootEstablishes(n, k, mem);
    var s := Kickoff(Created(n, k, mem).s);
    BlockAtIsLinear(NODE_SIZE, n);
    NobodyAwaitsIdle(s, Fresh(n), events);
    RunKeepsIdle(s, events);
    var t, h := Run(s, events).s, Story(s, Fresh(n), events);
    if p :| AwaitsAt(t, p) {
      assert p in h.waits;
      NeverDeadlocked(t, h);
    }
  }
}
