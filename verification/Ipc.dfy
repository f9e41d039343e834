// The rendezvous system calls of kernel/syscall.c as steps over the whole machine: the
// process table, the kernel heap, physical memory and the scheduling flag.
module Ipc {
  import opened Common
  import opened ProcTable
  import opened PhysMem
  import opened HeapSpec
  import opened Scheduler

  /** sizeof(struct msg_packet_queue): nine words of packet and one link. */
  const NODE_SIZE: nat := 40

  /** sizeof of the packet's first field, the sender. */
  const SENDER_SIZE: nat := 4

  /** sizeof(struct msg_packet). */
  const PACKET_SIZE: U32 := 36

  /** A packet is its words, the first of which is the sender, and a queue node has a link more. */
  lemma StructSizes(m: Packet)
    ensures |Le32(Words(m)[0])| == SENDER_SIZE && Words(m)[0] == m.sender
    ensures PACKET_SIZE == 4 * |Words(m)| && NODE_SIZE == PACKET_SIZE + 4
  {}

  datatype State = State(
    procs: seq<Proc>, current: nat, idle: nat, cursor: nat, enabled: bool,
    heap: Usage, mem: Memory)

  /** A step either leads to a new state or faults: a null pointer, an access outside a
      mapped window, or a block header written past the heap pool. */
  datatype Outcome = Next(s: State) | Fault

  /** What can happen next: a system call of the current process with the packet it
      passes and the address space it runs in, a timer tick, or user code storing bytes. */
  datatype Event =
    | Send(m: Packet, pages: PageMap)
    | Recv(m: Packet, at: U32, pages: PageMap)
    | Reply(m: Packet, pages: PageMap)
    | Tick
    | User(mem: Memory)

  ghost predicate Shape(s: State) {
    s.current < |s.procs| && s.idle < |s.procs| && s.cursor <= |s.procs|
  }

  function SetState(s: State, i: nat, st: ProcState): (s': State)
    requires i < |s.procs|
  {
    s.(procs := s.procs[i := s.procs[i].(state := st)])
  }

  function SetQueue(s: State, i: nat, q: seq<Node>): (s': State)
    requires i < |s.procs|
  {
    s.(procs := s.procs[i := s.procs[i].(queue := q)])
  }

  /** proc_schedule_after_irq */
  function Schedule(s: State): (s': State)
    requires Shape(s)
    ensures Shape(s') && |s'.procs| == |s.procs|
  {
    if !s.enabled then s
    else
      var self := FindByPid(s.procs, s.procs[s.current].pid);
      var s1 := if s.procs[self.value].state.Blocked() then s else SetState(s, s.current, Ready);
      var (slot, next) := FindNext(s1.procs, s1.idle, Ready, s1.cursor);
      s1.(cursor := next, current := if slot.Some? then slot.value else s1.idle)
  }

  function Reschedule(o: Outcome): (o': Outcome)
    requires o.Next? ==> Shape(o.s)
    ensures o'.Next? <==> o.Next?
    ensures o'.Next? ==> Shape(o'.s) && |o'.s.procs| == |o.s.procs|
  {
    if o.Fault? then Fault else Next(Schedule(o.s.(enabled := true)))
  }

  /** kalloc of a queue node: the heap afterwards, and the block taken. */
  function Allocate(u: Usage): (r: Option<(Usage, nat)>) {
    if FirstFree(u) < |u| || Fits(NODE_SIZE, |u| + 1) then Some((Take(u), FirstFree(u))) else None
  }

  /** The packet that a sender leaves in the receiver's queue. */
  function Stamped(m: Packet, sender: U32, pages: PageMap): Packet {
    m.(sender := sender, physSend := Translate(pages, m.sendBuf), physRecv := Translate(pages, m.recvBuf))
  }

  /** A queued packet has both of the sender's buffers: where they are, how long, and where that
      is in physical memory. */
  predicate Carries(p: Packet, m: Packet, pages: PageMap) {
    && p.sendBuf == m.sendBuf && p.sendLen == m.sendLen && p.physSend == Translate(pages, m.sendBuf)
    && p.recvBuf == m.recvBuf && p.recvLen == m.recvLen && p.physRecv == Translate(pages, m.recvBuf)
  }

  /** A placeholder is the packet of the process that waits, with the physical addresses of its
      buffer and of the packet itself. */
  predicate AwaitsInto(p: Packet, m: Packet, at: U32, pages: PageMap) {
    && p.physRecv == Translate(pages, m.recvBuf) && p.physPacket == Translate(pages, at)
    && p.(physRecv := m.physRecv, physPacket := m.physPacket) == m
  }

  /** A sender finds the receiver not waiting: its packet joins the queue. The sender is
      blocked only if the receiver is ready; in any other state the kernel complains and
      lets the sender run on. */
  function Enqueue(s: State, m: Packet, pages: PageMap, r: nat): (o: Outcome)
    requires Shape(s) && r < |s.procs|
    ensures o.Next? ==> Shape(o.s) && |o.s.procs| == |s.procs|
  {
    match Allocate(s.heap)
    case None => Fault
    case Some((heap, block)) =>
      // the queue of a slot that holds no process was never initialised
      if s.procs[r].pid == NO_PID then Fault
      else
        var node := Node(block, Stamped(m, s.procs[s.current].pid, pages));
        var s1 := SetQueue(s.(heap := heap), r, s.procs[r].queue + [node]);
        if s.procs[r].state.Ready? then Next(SetState(s1, s.current, ReplyBlocked)) else Next(s1)
  }

  /** A sender finds the receiver waiting: it copies its message straight to the buffer
      named by the placeholder at the head of the receiver's queue, tells the receiver who
      sent it, and takes over the placeholder for the reply. */
  function Fill(s: State, m: Packet, pages: PageMap, r: nat): (o: Outcome)
    requires Shape(s) && r < |s.procs|
    ensures o.Next? ==> Shape(o.s) && |o.s.procs| == |s.procs|
  {
    if s.procs[r].queue == [] then Fault
    else
      var s1 := SetState(s, s.current, SendBlocked);
      var head := s.procs[r].queue[0];
      var held := head.msg.(
        sender := s.procs[s.current].pid, sendBuf := m.sendBuf, sendLen := m.sendLen,
        physSend := Translate(pages, m.sendBuf));
      if !WindowCovers(held.recvLen, held.recvBuf, held.recvLen) then Fault
      else if !WindowCovers(PACKET_SIZE, held.physPacket, SENDER_SIZE) then Fault
      else
        var mem1 := Copy(s.mem, WindowBytes(held.physRecv, held.recvBuf, held.recvLen),
                         BufferBytes(pages, m.sendBuf, held.recvLen));
        var mem2 := Store(mem1, WindowBytes(held.physPacket, held.physPacket, SENDER_SIZE), Le32(held.sender));
        var filled := held.(recvBuf := m.recvBuf, recvLen := m.recvLen, physRecv := Translate(pages, m.recvBuf));
        var s2 := SetQueue(s1.(mem := mem2), r, [head.(msg := filled)] + s.procs[r].queue[1..]);
        Next(SetState(s2, r, Ready))
  }

  /** syscall_send_msg up to the rescheduling, for a receiver that was found. */
  function SendTo(s: State, m: Packet, pages: PageMap, r: nat): (o: Outcome)
    requires Shape(s) && r < |s.procs|
    ensures o.Next? ==> Shape(o.s) && |o.s.procs| == |s.procs|
  {
    if s.procs[r].state.RecvBlocked? then Fill(s, m, pages, r) else Enqueue(s, m, pages, r)
  }

  /** syscall_recv_msg up to the rescheduling. */
  function RecvBody(s: State, m: Packet, at: U32, pages: PageMap): (o: Outcome)
    requires Shape(s)
    ensures o.Next? ==> Shape(o.s) && |o.s.procs| == |s.procs|
  {
    var queue := s.procs[s.current].queue;
    if queue == [] then
      match Allocate(s.heap)
      case None => Fault
      case Some((heap, block)) =>
        var held := m.(physRecv := Translate(pages, m.recvBuf), physPacket := Translate(pages, at));
        Next(SetQueue(SetState(s.(heap := heap), s.current, RecvBlocked), s.current, [Node(block, held)]))
    else
      var head := queue[0].msg;
      if !WindowCovers(head.sendLen, head.sendBuf, m.recvLen) then Fault
      else
        var mem1 := Copy(s.mem, BufferBytes(pages, m.recvBuf, m.recvLen),
                         WindowBytes(head.physSend, head.sendBuf, m.recvLen));
        Next(s.(mem := Store(mem1, BufferBytes(pages, at, SENDER_SIZE), Le32(head.sender))))
  }

  /** syscall_rply_msg up to the rescheduling. */
  function ReplyBody(s: State, m: Packet, pages: PageMap): (o: Outcome)
    requires Shape(s)
    ensures o.Next? ==> Shape(o.s) && |o.s.procs| == |s.procs|
  {
    var queue := s.procs[s.current].queue;
    if queue == [] then Next(s)
    else
      var head := queue[0];
      var sender := FindByPid(s.procs, head.msg.sender);
      if !WindowCovers(head.msg.recvLen, head.msg.recvBuf, head.msg.recvLen) then Fault
      else if sender.None? || head.block >= |s.heap| then Fault
      else
        var mem1 := Copy(s.mem, WindowBytes(head.msg.physRecv, head.msg.recvBuf, head.msg.recvLen),
                         BufferBytes(pages, m.sendBuf, head.msg.recvLen));
        var s1 := SetQueue(s.(mem := mem1, heap := s.heap[head.block := false]), s.current, queue[1..]);
        Next(SetState(s1, sender.value, Ready))
  }

  /** An event up to the rescheduling. */
  function Body(s: State, e: Event): (o: Outcome)
    requires Shape(s)
    ensures o.Next? ==> Shape(o.s) && |o.s.procs| == |s.procs|
  {
    match e
    case Send(m, pages) =>
      var r := FindByPid(s.procs, m.receiver);
      if r.None? then Next(s) else SendTo(s, m, pages, r.value)
    case Recv(m, at, pages) => RecvBody(s, m, at, pages)
    case Reply(m, pages) => ReplyBody(s, m, pages)
    case Tick => Next(s)
    case User(mem) => Next(s.(mem := mem))
  }

  /** A send to a pid that no process has. */
  predicate NoReceiver(s: State, e: Event) {
    match e
    case Send(m, _) => FindByPid(s.procs, m.receiver).None?
    case _ => false
  }

  /** One event. System calls run with scheduling disabled and end by rescheduling, but a
      send to a pid that no process has returns at once and leaves scheduling disabled. */
  function Step(s: State, e: Event): (o: Outcome)
    requires Shape(s)
    ensures o.Next? ==> Shape(o.s) && |o.s.procs| == |s.procs|
  {
    match e
    case Tick => Next(Schedule(s))
    case User(_) => Body(s, e)
    case _ =>
      var o := Body(s.(enabled := false), e);
      if NoReceiver(s, e) then o else Reschedule(o)
  }

  /** The state after a run of events, or Fault once one of them faults. */
  function Run(s: State, events: seq<Event>): (o: Outcome)
    requires Shape(s)
    ensures o.Next? ==> Shape(o.s) && |o.s.procs| == |s.procs|
    decreases |events|
  {
    if events == [] then Next(s)
    else
      var before := Run(s, events[..|events| - 1]);
      if before.Fault? then Fault else Step(before.s, events[|events| - 1])
  }
}
