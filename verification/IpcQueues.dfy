// What each event does to every queue and every state, in runs of any kind.
module IpcQueues {
  import opened Common
  import opened ProcTable
  import opened PhysMem
  import opened HeapSpec
  import opened Ipc
  import opened IpcFairness

  /** A block that was free, or is new, and is in use now. */
  predicate NewlyUsed(u: Usage, u': Usage, block: nat) {
    block < |u'| && u'[block] && (block < |u| ==> !u[block])
  }

  /** The packet of process c in a queue. */
  predicate IsFrom(s: State, c: nat, node: Node, m: Packet, pages: PageMap)
    requires c < |s.procs|
  {
    node.msg.sender == s.procs[c].pid && Carries(node.msg, m, pages)
  }

  /** From q to q', the first node's packet is rewritten for a send of the current process. */
  predicate HeadRewritten(s: State, q: seq<Node>, q': seq<Node>, m: Packet, pages: PageMap)
    requires s.current < |s.procs|
  {
    && q != [] && |q'| == |q| && q'[1..] == q[1..] && q'[0].block == q[0].block
    && IsFrom(s, s.current, q'[0], m, pages)
    && q'[0].msg.receiver == q[0].msg.receiver && q'[0].msg.physPacket == q[0].msg.physPacket
  }

  /** From q to q', a node for a send of the current process has joined at the end. */
  predicate JoinedAtEnd(s: State, u': Usage, q: seq<Node>, q': seq<Node>, m: Packet, pages: PageMap)
    requires s.current < |s.procs|
  {
    && |q'| == |q| + 1 && q'[..|q|] == q
    && IsFrom(s, s.current, q'[|q|], m, pages) && NewlyUsed(s.heap, u', q'[|q|].block)
    && q'[|q|].msg.receiver == m.receiver && q'[|q|].msg.physPacket == m.physPacket
  }

  /** What event e makes of the queue of process i. */
  ghost predicate QueueMoves(s: State, e: Event, i: nat, u': Usage, q': seq<Node>)
    requires Shape(s) && i < |s.procs|
  {
    var q := s.procs[i].queue;
    match e
    case Send(m, pages) =>
      if FindByPid(s.procs, m.receiver) != Some(i) then q' == q
      else if s.procs[i].state.RecvBlocked? then HeadRewritten(s, q, q', m, pages)
      else JoinedAtEnd(s, u', q, q', m, pages)
    case Recv(m, at, pages) =>
      if i != s.current || q != [] then q' == q
      else |q'| == 1 && AwaitsInto(q'[0].msg, m, at, pages) && NewlyUsed(s.heap, u', q'[0].block)
    case Reply(_, _) =>
      if i != s.current || q == [] then q' == q else q' == q[1..]
    case _ => q' == q
  }

  /** And of the heap: a node that is queued takes a block, one that is answered gives its back. */
  ghost predicate HeapMoves(s: State, e: Event, u': Usage)
    requires Shape(s)
  {
    match e
    case Send(m, _) =>
      var r := FindByPid(s.procs, m.receiver);
      u' == if r.Some? && !s.procs[r.value].state.RecvBlocked? then Take(s.heap) else s.heap
    case Recv(_, _, _) => u' == if s.procs[s.current].queue == [] then Take(s.heap) else s.heap
    case Reply(_, _) =>
      var q := s.procs[s.current].queue;
      if q == [] then u' == s.heap else q[0].block < |s.heap| && u' == s.heap[q[0].block := false]
    case _ => u' == s.heap
  }

  /** The state of process i after event e, but for the rescheduling. */
  function CallLeaves(s: State, e: Event, i: nat): ProcState
    requires Shape(s) && i < |s.procs|
  {
    match e
    case Send(m, _) =>
      var r := FindByPid(s.procs, m.receiver);
      if r.None? then s.procs[i].state
      else if r.value == i && s.procs[i].state.RecvBlocked? then Ready
      else if i == s.current && s.procs[r.value].state.RecvBlocked? then SendBlocked
      else if i == s.current && s.procs[r.value].state.Ready? then ReplyBlocked
      else s.procs[i].state
    case Recv(_, _, _) =>
      if i == s.current && s.procs[i].queue == [] then RecvBlocked else s.procs[i].state
    case Reply(_, _) =>
      var q := s.procs[s.current].queue;
      if q != [] && FindByPid(s.procs, q[0].msg.sender) == Some(i) then Ready else s.procs[i].state
    case _ => s.procs[i].state
  }

  /** And with it: a current process that is not blocked becomes ready. */
  function Leaves(s: State, e: Event, i: nat): ProcState
    requires Shape(s) && i < |s.procs|
  {
    var st := CallLeaves(s, e, i);
    if i == s.current && Reschedules(s, e) && !st.Blocked() then Ready else st
  }

  ghost predicate QueueAndHeap(s: State, e: Event, i: nat, s': State)
    requires Shape(s) && i < |s.procs|
  {
    && |s'.procs| == |s.procs| && s'.procs[i].pid == s.procs[i].pid
    && QueueMoves(s, e, i, s'.heap, s'.procs[i].queue) && HeapMoves(s, e, s'.heap)
  }

  /** What event e makes of process i, but for the rescheduling, and with it. */
  ghost predicate CallMoves(s: State, e: Event, i: nat, s': State)
    requires Shape(s) && i < |s.procs|
  {
    QueueAndHeap(s, e, i, s') && s'.procs[i].state == CallLeaves(s, e, i)
  }

  ghost predicate Moves(s: State, e: Event, i: nat, s': State)
    requires Shape(s) && i < |s.procs|
  {
    QueueAndHeap(s, e, i, s') && s'.procs[i].state == Leaves(s, e, i)
  }

  // ----- before the rescheduling -----

  lemma EnqueueMoves(s: State, m: Packet, pages: PageMap, r: nat, i: nat)
    requires Shape(s) && i < |s.procs| && FindByPid(s.procs, m.receiver) == Some(r)
    requires !s.procs[r].state.RecvBlocked? && Enqueue(s, m, pages, r).Next?
    ensures CallMoves(s, Send(m, pages), i, Enqueue(s, m, pages, r).s)
  {}

  lemma FillMoves(s: State, m: Packet, pages: PageMap, r: nat, i: nat)
    requires Shape(s) && i < |s.procs| && FindByPid(s.procs, m.receiver) == Some(r)
    requires s.procs[r].state.RecvBlocked? && Fill(s, m, pages, r).Next?
    ensures CallMoves(s, Send(m, pages), i, Fill(s, m, pages, r).s)
  {}

  lemma RecvMoves(s: State, m: Packet, at: U32, pages: PageMap, i: nat)
    requires Shape(s) && i < |s.procs| && RecvBody(s, m, at, pages).Next?
    ensures CallMoves(s, Recv(m, at, pages), i, RecvBody(s, m, at, pages).s)
  {}

  lemma ReplyMoves(s: State, m: Packet, pages: PageMap, i: nat)
    requires Shape(s) && i < |s.procs| && ReplyBody(s, m, pages).Next?
    ensures CallMoves(s, Reply(m, pages), i, ReplyBody(s, m, pages).s)
  {}

  lemma BodyMoves(s: State, e: Event, i: nat)
    requires Shape(s) && i < |s.procs| && Body(s, e).Next?
    ensures CallMoves(s, e, i, Body(s, e).s)
  {
    match e
    case Send(m, pages) =>
      var r := FindByPid(s.procs, m.receiver);
      if r.Some? {
        if s.procs[r.value].state.RecvBlocked? {
          FillMoves(s, m, pages, r.value, i);
        } else {
          EnqueueMoves(s, m, pages, r.value, i);
        }
      }
    case Recv(m, at, pages) => RecvMoves(s, m, at, pages, i);
    case Reply(m, pages) => ReplyMoves(s, m, pages, i);
    case _ =>
  }

  // ----- with it -----

  lemma ScheduleLeavesQueues(s: State, i: nat)
    requires Shape(s) && i < |s.procs|
    ensures Schedule(s).procs[i].queue == s.procs[i].queue && Schedule(s).procs[i].pid == s.procs[i].pid
    ensures Schedule(s).heap == s.heap
  {}

  lemma ScheduleMoves(s: State, i: nat)
    requires Shape(s) && i < |s.procs|
    requires i == s.current ==> FindByPid(s.procs, s.procs[i].pid) == Some(i)
    ensures Schedule(s).procs[i].state
         == if s.enabled && i == s.current && !s.procs[i].state.Blocked() then Ready else s.procs[i].state
  {}

  lemma AnyFlag(s: State, on: bool, e: Event, i: nat, s': State)
    requires Shape(s) && i < |s.procs| && CallMoves(s.(enabled := on), e, i, s')
    ensures CallMoves(s, e, i, s')
  {}

  /** The state of a call just before its rescheduling. */
  lemma CurrentFound(s: State, e: Event, s': State)
    requires Shape(s) && Body(s, e).Next? && s' == Body(s, e).s
    requires FindByPid(s.procs, s.procs[s.current].pid) == Some(s.current)
    ensures FindByPid(s'.procs, s'.procs[s'.current].pid) == Some(s'.current) && s'.current == s.current
  {
    forall k | 0 <= k < |s.procs| ensures s'.procs[k].pid == s.procs[k].pid { BodyMoves(s, e, k); }
    BodyKeepsScheduler(s, e);
    SamePids(s.procs, s'.procs, s.procs[s.current].pid);
  }

  lemma Rescheduled(s: State, e: Event, i: nat, s': State)
    requires Shape(s) && i < |s.procs| && Shape(s') && CallMoves(s, e, i, s')
    requires s'.current == s.current && (i == s.current ==> FindByPid(s'.procs, s'.procs[i].pid) == Some(i))
    requires Reschedules(s, e)
    ensures Moves(s, e, i, Schedule(s'.(enabled := true)))
  {
    ScheduleLeavesQueues(s'.(enabled := true), i);
    ScheduleMoves(s'.(enabled := true), i);
  }

  /** An event that does not fault, in any state, changes no queue but this: a send adds one node
      at the end of the receiver's queue, or rewrites its first packet if the receiver waits; a
      receive that finds nothing leaves a placeholder; a reply takes away the first node of its
      own process. Blocks of the heap are taken and given back accordingly. */
  lemma StepQueues(s: State, e: Event, i: nat)
    requires Shape(s) && i < |s.procs| && Step(s, e).Next?
    ensures QueueAndHeap(s, e, i, Step(s, e).s)
  {
    if e.Tick? {
      ScheduleLeavesQueues(s, i);
    } else if e.User? {
      BodyMoves(s, e, i);
    } else {
      var off := s.(enabled := false);
      BodyMoves(off, e, i);
      AnyFlag(s, false, e, i, Body(off, e).s);
      if !NoReceiver(s, e) { ScheduleLeavesQueues(Body(off, e).s.(enabled := true), i); }
    }
  }

  /** Nor does it change any state but this: a receiver that waits wakes up, a sender blocks if
      the receiver was waiting or ready, a receive that finds nothing waits, the oldest sender
      wakes up, and a process that is rescheduled without being blocked is ready, provided that
      it is found by its pid. */
  lemma StepMoves(s: State, e: Event, i: nat)
    requires Shape(s) && i < |s.procs| && Step(s, e).Next?
    requires i == s.current ==> FindByPid(s.procs, s.procs[i].pid) == Some(i)
    ensures Moves(s, e, i, Step(s, e).s)
  {
    StepQueues(s, e, i);
    if e.Tick? {
      ScheduleMoves(s, i);
    } else if e.User? {
      BodyMoves(s, e, i);
    } else {
      var off := s.(enabled := false);
      BodyMoves(off, e, i);
      var mid := Body(off, e).s;
      AnyFlag(s, false, e, i, mid);
      if !NoReceiver(s, e) {
        BodyKeepsScheduler(off, e);
        if i == s.current { CurrentFound(off, e, mid); }
        Rescheduled(s, e, i, mid);
      }
    }
  }
}
