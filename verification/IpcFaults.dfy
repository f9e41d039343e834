// Which events fault.
module IpcFaults {
  import opened Common
  import opened ProcTable
  import opened PhysMem
  import opened HeapSpec
  import opened Ipc
  import opened IpcInvariant
  import opened IpcAccounts
  import opened IpcBlocks
  import IpcBoot

  /** Every block is in use, and the pool has no room for another one. */
  predicate PoolFull(u: Usage) {
    Live(u) == |u| && !Fits(NODE_SIZE, |u| + 1)
  }

  lemma {:induction false} FullIff(u: Usage)
    ensures FirstFree(u) == |u| <==> Live(u) == |u|
  {
    if FirstFree(u) == |u| {
      AllLive(u);
    } else {
      LiveUpdate(u, FirstFree(u), true);
    }
  }

  lemma AllocateIff(u: Usage)
    ensures Allocate(u).None? <==> PoolFull(u)
  {
    FullIff(u);
  }

  /** A call that queues a packet when the pool is full, or names the pid of the empty slots, or
      copies more than its window covers. */
  predicate Faulty(s: State, e: Event)
    requires Shape(s)
  {
    match e
    case Send(m, _) =>
      var r := FindByPid(s.procs, m.receiver);
      if r.None? then false
      else if !s.procs[r.value].state.RecvBlocked? then m.receiver == NO_PID || PoolFull(s.heap)
      else
        s.procs[r.value].queue != [] &&
        var held := s.procs[r.value].queue[0].msg;
        || !WindowCovers(held.recvLen, held.recvBuf, held.recvLen)
        || !WindowCovers(PACKET_SIZE, held.physPacket, SENDER_SIZE)
    case Recv(m, _, _) =>
      var q := s.procs[s.current].queue;
      if q == [] then PoolFull(s.heap) else !WindowCovers(q[0].msg.sendLen, q[0].msg.sendBuf, m.recvLen)
    case Reply(_, _) =>
      var q := s.procs[s.current].queue;
      q != [] && !WindowCovers(q[0].msg.recvLen, q[0].msg.recvBuf, q[0].msg.recvLen)
    case _ => false
  }

  lemma SendFaultsIff(s: State, m: Packet, pages: PageMap, r: nat)
    requires Shape(s) && FindByPid(s.procs, m.receiver) == Some(r)
    requires s.procs[r].state.RecvBlocked? ==> |s.procs[r].queue| == 1
    ensures SendTo(s, m, pages, r).Fault? <==> Faulty(s, Send(m, pages))
  {
    AllocateIff(s.heap);
  }

  lemma RecvFaultsIff(s: State, m: Packet, at: U32, pages: PageMap)
    requires Shape(s)
    ensures RecvBody(s, m, at, pages).Fault? <==> Faulty(s, Recv(m, at, pages))
  {
    AllocateIff(s.heap);
  }

  lemma ReplyFaultsIff(s: State, m: Packet, pages: PageMap)
    requires Shape(s)
    requires var q := s.procs[s.current].queue;
      q != [] ==> FindByPid(s.procs, q[0].msg.sender).Some? && q[0].block < |s.heap|
    ensures ReplyBody(s, m, pages).Fault? <==> Faulty(s, Reply(m, pages))
  {}

  /** These are the only faults: in every state that is sane, the sender of each queued packet is
      found, its block is in use, and a process that waits has its placeholder. */
  lemma FaultsIff(s: State, e: Event)
    requires Sane(s) && OneBlockEach(s)
    ensures Step(s, e).Fault? <==> Faulty(s, e)
  {
    var off := s.(enabled := false);
    match e
    case Send(m, pages) =>
      var r := FindByPid(s.procs, m.receiver);
      if r.Some? {
        assert SlotSane(s, r.value);
        SendFaultsIff(off, m, pages, r.value);
      }
    case Recv(m, at, pages) => RecvFaultsIff(off, m, at, pages);
    case Reply(m, pages) =>
      if s.procs[s.current].queue != [] {
        assert HasPacket(s, s.current, 0) && BlockLive(s, s.current, 0);
        CurrentNode(s, 0);
        SlotFound(s, s.procs[s.current].queue[0].msg.sender);
      }
      ReplyFaultsIff(off, m, pages);
    case _ =>
  }

  /** So from boot, until a reply wakes a process that waits for a message. */
  lemma FaultsFromBoot(n: nat, k: nat, mem: Memory, before: seq<Event>, e: Event)
    requires 3 <= k <= n < NO_PID
    requires IpcBoot.Created(n, k, mem).Next? && IpcBoot.Created(n, k, mem).s.current < n
    requires var s := IpcBoot.Kickoff(IpcBoot.Created(n, k, mem).s);
      && Shape(s) && Run(s, before).Next? && QuietRun(s, before) && WakesNoReceiver(s, before)
    ensures var s := IpcBoot.Kickoff(IpcBoot.Created(n, k, mem).s);
      Run(s, before + [e]).Fault? <==> Faulty(Run(s, before).s, e)
  {
    var s := IpcBoot.Kickoff(IpcBoot.Created(n, k, mem).s);
    BootSane(n, k, mem);
    RunBooks(s, IpcBoot.Fresh(n), before);
    BlocksFromBoot(n, k, mem, before);
    FaultsIff(Run(s, before).s, e);
    assert (before + [e])[..|before|] == before;
  }
}
