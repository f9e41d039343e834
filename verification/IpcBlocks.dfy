// Heap blocks in runs of any kind: each queued packet lives in a block of its own, and no other
// block is in use.
module IpcBlocks {
  import opened Common
  import opened ProcTable
  import PhysMem
  import opened HeapSpec
  import opened Ipc
  import opened IpcQueues
  import IpcBoot

  /** How many packets the first n queues hold. */
  function Queued(procs: seq<Proc>, n: nat): (c: nat)
    requires n <= |procs|
  {
    if n == 0 then 0 else Queued(procs, n - 1) + |procs[n - 1].queue|
  }

  ghost predicate HasPacket(s: State, i: nat, j: nat) {
    i < |s.procs| && j < |s.procs[i].queue|
  }

  ghost predicate BlockLive(s: State, i: nat, j: nat)
    requires HasPacket(s, i, j)
  {
    s.procs[i].queue[j].block < |s.heap| && s.heap[s.procs[i].queue[j].block]
  }

  ghost predicate BlocksDiffer(s: State, i: nat, j: nat, i': nat, j': nat)
    requires HasPacket(s, i, j) && HasPacket(s, i', j')
  {
    (i, j) != (i', j') ==> s.procs[i].queue[j].block != s.procs[i'].queue[j'].block
  }

  ghost predicate InBlocks(s: State) {
    && (forall i, j :: HasPacket(s, i, j) ==> BlockLive(s, i, j))
    && (forall i, j, i', j' :: HasPacket(s, i, j) && HasPacket(s, i', j') ==> BlocksDiffer(s, i, j, i', j'))
  }

  /** Packets and blocks in use correspond one to one. */
  ghost predicate OneBlockEach(s: State) {
    InBlocks(s) && Live(s.heap) == Queued(s.procs, |s.procs|)
  }

  // ----- one queue changes -----

  ghost predicate OnlyQueue(a: seq<Proc>, b: seq<Proc>, r: nat) {
    |a| == |b| && r < |a| && forall i :: 0 <= i < |a| && i != r ==> b[i].queue == a[i].queue
  }

  lemma {:induction false} QueuedChanges(a: seq<Proc>, b: seq<Proc>, r: nat, n: nat)
    requires OnlyQueue(a, b, r) && n <= |a|
    ensures Queued(b, n) - Queued(a, n) == if r < n then |b[r].queue| - |a[r].queue| else 0
  {
    if n > 0 { QueuedChanges(a, b, r, n - 1); }
  }

  /** One more packet in process r's queue, at its end. */
  ghost predicate Joined(s: State, s': State, r: nat) {
    && OnlyQueue(s.procs, s'.procs, r) && s'.heap == Take(s.heap)
    && var q, q' := s.procs[r].queue, s'.procs[r].queue;
    |q'| == |q| + 1 && q'[..|q|] == q && NewlyUsed(s.heap, s'.heap, q'[|q|].block)
  }

  lemma EarlierPacket(s: State, s': State, r: nat, i: nat, j: nat)
    requires OneBlockEach(s) && Joined(s, s', r) && HasPacket(s', i, j) && (i, j) != (r, |s.procs[r].queue|)
    ensures HasPacket(s, i, j) && s'.procs[i].queue[j] == s.procs[i].queue[j]
    ensures BlockLive(s', i, j) && s'.procs[i].queue[j].block != s'.procs[r].queue[|s.procs[r].queue|].block
  {
    if i == r { assert s'.procs[r].queue[j] == s'.procs[r].queue[..|s.procs[r].queue|][j]; }
    assert BlockLive(s, i, j);
  }

  lemma PacketJoins(s: State, s': State, r: nat)
    requires OneBlockEach(s) && Joined(s, s', r)
    ensures OneBlockEach(s')
  {
    QueuedChanges(s.procs, s'.procs, r, |s.procs|);
    TakeCounts(s.heap);
    var last := (r, |s.procs[r].queue|);
    forall i: nat, j: nat | HasPacket(s', i, j) ensures BlockLive(s', i, j) {
      if (i, j) != last { EarlierPacket(s, s', r, i, j); }
    }
    forall i: nat, j: nat, i': nat, j': nat | HasPacket(s', i, j) && HasPacket(s', i', j')
      ensures BlocksDiffer(s', i, j, i', j')
    {
      if (i, j) != last { EarlierPacket(s, s', r, i, j); }
      if (i', j') != last { EarlierPacket(s, s', r, i', j'); }
      if (i, j) != last && (i', j') != last { assert BlocksDiffer(s, i, j, i', j'); }
    }
  }

  lemma PacketLeaves(s: State, s': State, r: nat)
    requires OneBlockEach(s) && OnlyQueue(s.procs, s'.procs, r)
    requires s.procs[r].queue != [] && s'.procs[r].queue == s.procs[r].queue[1..]
    requires s.procs[r].queue[0].block < |s.heap| && s'.heap == s.heap[s.procs[r].queue[0].block := false]
    ensures OneBlockEach(s')
  {
    QueuedChanges(s.procs, s'.procs, r, |s.procs|);
    assert HasPacket(s, r, 0) && BlockLive(s, r, 0);
    LiveUpdate(s.heap, s.procs[r].queue[0].block, false);
    forall i, j | HasPacket(s', i, j) ensures BlockLive(s', i, j) {
      var k := if i == r then j + 1 else j;
      assert HasPacket(s, i, k) && BlockLive(s, i, k) && BlocksDiffer(s, i, k, r, 0);
    }
    forall i, j, i', j' | HasPacket(s', i, j) && HasPacket(s', i', j')
      ensures BlocksDiffer(s', i, j, i', j')
    {
      var k, k' := if i == r then j + 1 else j, if i' == r then j' + 1 else j';
      assert HasPacket(s, i, k) && HasPacket(s, i', k') && BlocksDiffer(s, i, k, i', k');
    }
  }

  lemma PacketsStay(s: State, s': State, r: nat)
    requires OneBlockEach(s) && OnlyQueue(s.procs, s'.procs, r) && s'.heap == s.heap
    requires |s'.procs[r].queue| == |s.procs[r].queue|
    requires forall j :: 0 <= j < |s.procs[r].queue| ==> s'.procs[r].queue[j].block == s.procs[r].queue[j].block
    ensures OneBlockEach(s')
  {
    QueuedChanges(s.procs, s'.procs, r, |s.procs|);
    forall i, j | HasPacket(s', i, j) ensures BlockLive(s', i, j) {
      assert HasPacket(s, i, j) && BlockLive(s, i, j);
    }
    forall i, j, i', j' | HasPacket(s', i, j) && HasPacket(s', i', j')
      ensures BlocksDiffer(s', i, j, i', j')
    {
      assert HasPacket(s, i, j) && HasPacket(s, i', j') && BlocksDiffer(s, i, j, i', j');
    }
  }

  // ----- events and runs -----

  /** The process whose queue an event may change. */
  function Touched(s: State, e: Event): nat
    requires Shape(s)
  {
    if e.Send? then
      var r := FindByPid(s.procs, e.m.receiver);
      if r.Some? then r.value else s.current
    else s.current
  }

  lemma HeadKeepsBlock(s: State, q: seq<Node>, q': seq<Node>, m: Packet, pages: PhysMem.PageMap)
    requires s.current < |s.procs| && HeadRewritten(s, q, q', m, pages)
    ensures forall j :: 0 <= j < |q| ==> q'[j].block == q[j].block
  {
    forall j | 0 < j < |q| ensures q'[j] == q[j] { assert q'[1..][j - 1] == q[1..][j - 1]; }
  }

  lemma OneQueueMoves(s: State, e: Event, s': State)
    requires Shape(s) && forall i :: 0 <= i < |s.procs| ==> QueueAndHeap(s, e, i, s')
    ensures OnlyQueue(s.procs, s'.procs, Touched(s, e))
  {
    assert QueueAndHeap(s, e, s.current, s');
    forall i | 0 <= i < |s.procs| && i != Touched(s, e) ensures s'.procs[i].queue == s.procs[i].queue {
      assert QueueAndHeap(s, e, i, s');
    }
  }

  lemma SendInBlocks(s: State, m: Packet, pages: PhysMem.PageMap, r: nat, s': State)
    requires Shape(s) && OneBlockEach(s) && FindByPid(s.procs, m.receiver) == Some(r)
    requires OnlyQueue(s.procs, s'.procs, r) && QueueAndHeap(s, Send(m, pages), r, s')
    ensures OneBlockEach(s')
  {
    if s.procs[r].state.RecvBlocked? {
      HeadKeepsBlock(s, s.procs[r].queue, s'.procs[r].queue, m, pages);
      PacketsStay(s, s', r);
    } else {
      PacketJoins(s, s', r);
    }
  }

  lemma OthersInBlocks(s: State, e: Event, s': State)
    requires Shape(s) && OneBlockEach(s) && (e.Send? ==> FindByPid(s.procs, e.m.receiver).None?)
    requires OnlyQueue(s.procs, s'.procs, s.current) && QueueAndHeap(s, e, s.current, s')
    ensures OneBlockEach(s')
  {
    if e.Recv? && s.procs[s.current].queue == [] {
      PacketJoins(s, s', s.current);
    } else if e.Reply? && s.procs[s.current].queue != [] {
      PacketLeaves(s, s', s.current);
    } else {
      PacketsStay(s, s', s.current);
    }
  }

  /** Every event that does not fault keeps packets and blocks in use one to one. */
  lemma StepInBlocks(s: State, e: Event)
    requires Shape(s) && OneBlockEach(s) && Step(s, e).Next?
    ensures OneBlockEach(Step(s, e).s)
  {
    var s' := Step(s, e).s;
    forall i | 0 <= i < |s.procs| ensures QueueAndHeap(s, e, i, s') { StepQueues(s, e, i); }
    OneQueueMoves(s, e, s');
    assert QueueAndHeap(s, e, Touched(s, e), s');
    if e.Send? && FindByPid(s.procs, e.m.receiver).Some? {
      SendInBlocks(s, e.m, e.pages, FindByPid(s.procs, e.m.receiver).value, s');
    } else {
      OthersInBlocks(s, e, s');
    }
  }

  /** In a run of any kind, no block leaks, none is shared and none is given back too early, until
      the run faults. */
  lemma {:induction false} RunInBlocks(s: State, events: seq<Event>)
    requires Shape(s) && OneBlockEach(s) && Run(s, events).Next?
    ensures OneBlockEach(Run(s, events).s)
    decreases |events|
  {
    if events != [] {
      RunInBlocks(s, events[..|events| - 1]);
      StepInBlocks(Run(s, events[..|events| - 1]).s, events[|events| - 1]);
    }
  }

  lemma {:induction false} NothingQueued(procs: seq<Proc>, n: nat)
    requires n <= |procs| && forall i :: 0 <= i < |procs| ==> procs[i].queue == []
    ensures Queued(procs, n) == 0
  {
    if n > 0 { NothingQueued(procs, n - 1); }
  }

  /** So it is from boot on. */
  lemma BlocksFromBoot(n: nat, k: nat, mem: PhysMem.Memory, events: seq<Event>)
    requires 3 <= k <= n < NO_PID
    requires IpcBoot.Created(n, k, mem).Next? && IpcBoot.Created(n, k, mem).s.current < n
    requires var s := IpcBoot.Kickoff(IpcBoot.Created(n, k, mem).s); Shape(s) && Run(s, events).Next?
    ensures OneBlockEach(Run(IpcBoot.Kickoff(IpcBoot.Created(n, k, mem).s), events).s)
  {
    IpcBoot.CreatedTable(n, k, mem);
    var s := IpcBoot.Kickoff(IpcBoot.Created(n, k, mem).s);
    NothingQueued(s.procs, n);
    assert forall i: nat, j: nat :: !HasPacket(s, i, j);
    RunInBlocks(s, events);
  }
}
