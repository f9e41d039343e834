// What every run of well-behaved system calls keeps: queue nodes, blocked processes and
// live heap blocks correspond one to one, and every queue is the unanswered rest of the
// messages its server accepted.
module IpcInvariant {
  import opened Common
  import opened ProcTable
  import opened PhysMem
  import opened HeapSpec
  import opened Ipc

  /** What a process that awaits a reply asked for: whom, where its message is and where the
      reply goes, and the queue node that stands for it. */
  datatype Request = Request(
    target: nat, sendBuf: U32, sendLen: U32, physSend: U32,
    recvBuf: U32, recvLen: U32, physRecv: U32, block: nat)

  /** The story of a run so far. Per server: the senders whose messages it accepted, those
      its receives returned, those it replied to, and the one its last receive returned
      while that is still unanswered. */
  datatype History = History(
    waits: map<nat, Request>,
    accepted: seq<seq<nat>>, returned: seq<seq<nat>>, replied: seq<seq<nat>>,
    pending: seq<Option<nat>>)

  ghost predicate Sized(s: State, h: History) {
    |h.accepted| == |h.returned| == |h.replied| == |h.pending| == |s.procs|
  }

  function RequestOf(m: Packet, pages: PageMap, r: nat, block: nat): Request {
    Request(r, m.sendBuf, m.sendLen, Translate(pages, m.sendBuf),
            m.recvBuf, m.recvLen, Translate(pages, m.recvBuf), block)
  }

  function LogAccept(h: History, c: nat, r: nat): (h': History)
    requires r < |h.accepted|
  {
    h.(accepted := h.accepted[r := h.accepted[r] + [c]])
  }

  function LogReturn(h: History, r: nat, c: nat): (h': History)
    requires r < |h.returned| && r < |h.pending|
  {
    h.(returned := h.returned[r := h.returned[r] + [c]], pending := h.pending[r := Some(c)])
  }

  function LogReply(h: History, r: nat, c: nat): (h': History)
    requires r < |h.replied| && r < |h.pending|
  {
    h.(waits := h.waits - {c}, replied := h.replied[r := h.replied[r] + [c]], pending := h.pending[r := None])
  }

  function LogEnqueue(s: State, h: History, m: Packet, pages: PageMap, r: nat): (h': History)
    requires r < |h.accepted|
  {
    LogAccept(h.(waits := h.waits[s.current := RequestOf(m, pages, r, FirstFree(s.heap))]), s.current, r)
  }

  function LogFill(s: State, h: History, m: Packet, pages: PageMap, r: nat): (h': History)
    requires Sized(s, h) && r < |s.procs| && s.procs[r].queue != []
  {
    var req := RequestOf(m, pages, r, s.procs[r].queue[0].block);
    LogReturn(LogAccept(h.(waits := h.waits[s.current := req]), s.current, r), r, s.current)
  }

  /** The story after one more event. */
  function Log(s: State, h: History, e: Event): (h': History)
    requires Shape(s) && Sized(s, h)
    ensures Sized(s, h')
  {
    var c := s.current;
    match e
    case Send(m, pages) =>
      (match FindByPid(s.procs, m.receiver)
       case None => h
       case Some(r) =>
         if s.procs[r].state.RecvBlocked? && s.procs[r].queue != [] then LogFill(s, h, m, pages, r)
         else if s.procs[r].state.Ready? then LogEnqueue(s, h, m, pages, r)
         else LogAccept(h, c, r))
    case Recv(_, _, _) =>
      var q := s.procs[c].queue;
      if q == [] then h else LogReturn(h, c, q[0].msg.sender)
    case Reply(_, _) =>
      var q := s.procs[c].queue;
      if q == [] then h else LogReply(h, c, q[0].msg.sender)
    case Tick => h
    case User(_) => h
  }

  // ----- the invariant -----

  function Senders(q: seq<Node>): (from: seq<nat>)
    ensures |from| == |q|
  {
    seq(|q|, i requires 0 <= i < |q| => q[i].msg.sender)
  }

  /** A queue node and the request of the blocked sender it stands for. */
  predicate StandsFor(h: History, r: nat, node: Node) {
    && node.msg.sender in h.waits
    && h.waits[node.msg.sender] == Request(r, node.msg.sendBuf, node.msg.sendLen, node.msg.physSend,
                                           node.msg.recvBuf, node.msg.recvLen, node.msg.physRecv, node.block)
  }

  /** Slot i is at rest: what it holds depends on whether it waits for a message. */
  ghost predicate QueueOk(s: State, h: History, i: nat)
    requires i < |s.procs|
  {
    var p := s.procs[i];
    if p.state.RecvBlocked? then
      && |p.queue| == 1
      && WindowCovers(p.queue[0].msg.recvLen, p.queue[0].msg.recvBuf, p.queue[0].msg.recvLen)
      && WindowCovers(PACKET_SIZE, p.queue[0].msg.physPacket, SENDER_SIZE)
    else
      && (forall j :: 0 <= j < |p.queue| ==> StandsFor(h, i, p.queue[j]))
      && Distinct(Senders(p.queue))
  }

  /** The request of a process that awaits a reply stands in its receiver's queue. */
  ghost predicate RequestOk(s: State, h: History, p: nat)
    requires p in h.waits
  {
    var w := h.waits[p];
    && p < |s.procs|
    && w.target < |s.procs|
    && !s.procs[w.target].state.Unused? && !s.procs[w.target].state.RecvBlocked?
    && p in Senders(s.procs[w.target].queue)
    && WindowCovers(w.recvLen, w.recvBuf, w.recvLen)
  }

  ghost predicate Slots(s: State, h: History) {
    && Shape(s) && Sized(s, h)
    && |s.procs| < NO_PID
    && (forall i :: 0 <= i < |s.procs| ==>
          s.procs[i].pid == if s.procs[i].state.Unused? then NO_PID else i)
    && (s.procs[s.idle].state.Ready? || s.procs[s.idle].state.Running?)
    && !s.procs[s.current].state.Unused?
    && (forall i :: 0 <= i < |s.procs| && s.procs[i].state.Running? ==> i == s.current)
    && (forall p :: p in h.waits ==> p < |s.procs|)
    && (forall p :: 0 <= p < |s.procs| ==> (p in h.waits <==> s.procs[p].state.AwaitsReply()))
  }

  ghost predicate Queues(s: State, h: History) {
    forall i :: 0 <= i < |s.procs| ==> QueueOk(s, h, i)
  }

  ghost predicate Requests(s: State, h: History) {
    forall p :: p in h.waits ==> RequestOk(s, h, p)
  }

  ghost predicate Table(s: State, h: History) {
    Slots(s, h) && Queues(s, h) && Requests(s, h)
  }

  /** The heap block of a blocked process: its placeholder, or the node of its request. */
  function Held(s: State, h: History, p: nat): nat {
    if p in h.waits then h.waits[p].block
    else if p < |s.procs| && s.procs[p].queue != [] then s.procs[p].queue[0].block
    else 0
  }

  function BlockedCount(procs: seq<Proc>): (c: nat)
    ensures c <= |procs|
  {
    if procs == [] then 0
    else BlockedCount(procs[..|procs| - 1]) + (if procs[|procs| - 1].state.Blocked() then 1 else 0)
  }

  ghost predicate HoldsLive(s: State, h: History, p: nat)
    requires p < |s.procs|
  {
    s.procs[p].state.Blocked() ==> Held(s, h, p) < |s.heap| && s.heap[Held(s, h, p)]
  }

  ghost predicate HoldApart(s: State, h: History, p: nat, q: nat)
    requires p < |s.procs| && q < |s.procs|
  {
    s.procs[p].state.Blocked() && s.procs[q].state.Blocked() ==> Held(s, h, p) != Held(s, h, q)
  }

  /** Live heap blocks and blocked processes correspond one to one: each blocked process
      holds a live block of its own, and there are as many of the one as of the other. */
  ghost predicate Blocks(s: State, h: History) {
    && (forall p :: 0 <= p < |s.procs| ==> HoldsLive(s, h, p))
    && (forall p, q :: 0 <= p < q < |s.procs| ==> HoldApart(s, h, p, q))
    && Live(s.heap) == BlockedCount(s.procs)
    && |s.heap| <= |s.procs|
  }

  /** The messages a server has accepted and not answered. */
  function Unanswered(p: Proc): seq<nat> {
    if p.state.RecvBlocked? then [] else Senders(p.queue)
  }

  /** Replies come in the order of arrival, and the message returned last is the oldest. */
  ghost predicate Served(s: State, h: History) {
    && Sized(s, h)
    && (forall i :: 0 <= i < |s.procs| ==> h.accepted[i] == h.replied[i] + Unanswered(s.procs[i]))
    && (forall i :: 0 <= i < |s.procs| && h.pending[i].Some? ==> [h.pending[i].value] <= Unanswered(s.procs[i]))
  }

  ghost predicate Runnable(s: State) {
    s.current < |s.procs| && (s.procs[s.current].state.Ready? || s.procs[s.current].state.Running?)
  }

  ghost predicate Core(s: State, h: History) {
    Table(s, h) && Blocks(s, h) && Served(s, h)
  }

  ghost predicate Inv(s: State, h: History) {
    Core(s, h) && Runnable(s)
  }

  /** A well-behaved event: the idle process makes no system call; nobody sends to a process
      that is neither ready nor waiting for a message; buffers do not straddle the pages the
      kernel maps for them. A process may send to itself and to the idle process. */
  ghost predicate Polite(s: State, e: Event)
    requires Shape(s)
  {
    match e
    case Send(m, _) =>
      var r := FindByPid(s.procs, m.receiver);
      && s.current != s.idle
      && WindowCovers(m.recvLen, m.recvBuf, m.recvLen)
      && (r.Some? ==> s.procs[r.value].state.Ready? || s.procs[r.value].state.RecvBlocked?)
    case Recv(m, at, _) =>
      var q := s.procs[s.current].queue;
      && s.current != s.idle
      && (if q == [] then
            WindowCovers(m.recvLen, m.recvBuf, m.recvLen) && WindowCovers(PACKET_SIZE, at, SENDER_SIZE)
          else WindowCovers(q[0].msg.sendLen, q[0].msg.sendBuf, m.recvLen))
    case Reply(_, _) => s.current != s.idle
    case Tick => true
    case User(_) => true
  }

  // ----- each call keeps it -----

  lemma FindSlot(s: State, h: History, pid: U32)
    requires Slots(s, h) && pid < |s.procs| && !s.procs[pid].state.Unused?
    ensures FindByPid(s.procs, pid) == Some(pid)
  {
    assert s.procs[pid].pid == pid;
  }

  lemma SendersAppend(q: seq<Node>, node: Node)
    ensures Senders(q + [node]) == Senders(q) + [node.msg.sender]
  {}

  // --- a send to a ready receiver

  ghost predicate CanEnqueue(s: State, h: History, m: Packet, r: nat) {
    && Slots(s, h) && Runnable(s)
    && r < |s.procs| && s.procs[r].state.Ready? && s.current != s.idle
    && WindowCovers(m.recvLen, m.recvBuf, m.recvLen)
    && Allocate(s.heap).Some?
  }

  /** The receiver's queue has grown at its end. */
  function Grow(s: State, m: Packet, pages: PageMap, r: nat): (procs: seq<Proc>)
    requires s.current < |s.procs| && r < |s.procs|
    ensures |procs| == |s.procs|
  {
    s.procs[r := s.procs[r].(queue :=
      s.procs[r].queue + [Node(FirstFree(s.heap), Stamped(m, s.procs[s.current].pid, pages))])]
  }

  /** And the sender, which may be the receiver itself, blocks. */
  ghost predicate Enqueued(s: State, m: Packet, pages: PageMap, r: nat, s': State) {
    && s.current < |s.procs| && r < |s.procs|
    && s'.heap == Take(s.heap)
    && var procs := Grow(s, m, pages, r);
    && s'.procs == procs[s.current := procs[s.current].(state := ReplyBlocked)]
  }

  lemma EnqueueEffect(s: State, h: History, m: Packet, pages: PageMap, r: nat)
    requires CanEnqueue(s, h, m, r)
    ensures Enqueue(s, m, pages, r).Next? && Enqueued(s, m, pages, r, Enqueue(s, m, pages, r).s)
  {}

  lemma EnqueueSlots(s: State, h: History, m: Packet, pages: PageMap, r: nat)
    requires CanEnqueue(s, h, m, r)
    ensures Enqueue(s, m, pages, r).Next?
    ensures Slots(Enqueue(s, m, pages, r).s, LogEnqueue(s, h, m, pages, r))
  {}

  lemma EnqueueQueue(s: State, h: History, m: Packet, pages: PageMap, r: nat, i: nat)
    requires CanEnqueue(s, h, m, r) && Enqueue(s, m, pages, r).Next?
    requires i < |s.procs| && QueueOk(s, h, i)
    ensures QueueOk(Enqueue(s, m, pages, r).s, LogEnqueue(s, h, m, pages, r), i)
  {
    var s', h' := Enqueue(s, m, pages, r).s, LogEnqueue(s, h, m, pages, r);
    var q, q' := s.procs[i].queue, s'.procs[i].queue;
    if !s.procs[i].state.RecvBlocked? {
      forall j | 0 <= j < |q| ensures StandsFor(h', i, q[j]) && q[j].msg.sender != s.current {
        assert StandsFor(h, i, q[j]);
      }
      if i == r {
        SendersAppend(q, Node(FirstFree(s.heap), Stamped(m, s.current, pages)));
      }
    }
  }

  lemma EnqueueRequest(s: State, h: History, m: Packet, pages: PageMap, r: nat, p: nat)
    requires CanEnqueue(s, h, m, r) && Enqueue(s, m, pages, r).Next?
    requires p in h.waits ==> RequestOk(s, h, p)
    requires p in LogEnqueue(s, h, m, pages, r).waits
    ensures RequestOk(Enqueue(s, m, pages, r).s, LogEnqueue(s, h, m, pages, r), p)
  {
    SendersAppend(s.procs[r].queue, Node(FirstFree(s.heap), Stamped(m, s.current, pages)));
  }

  lemma EnqueueTable(s: State, h: History, m: Packet, pages: PageMap, r: nat)
    requires CanEnqueue(s, h, m, r) && Table(s, h)
    ensures Enqueue(s, m, pages, r).Next?
    ensures Table(Enqueue(s, m, pages, r).s, LogEnqueue(s, h, m, pages, r))
  {
    EnqueueSlots(s, h, m, pages, r);
    var s', h' := Enqueue(s, m, pages, r).s, LogEnqueue(s, h, m, pages, r);
    forall i | 0 <= i < |s'.procs| ensures QueueOk(s', h', i) { EnqueueQueue(s, h, m, pages, r, i); }
    forall p | p in h'.waits ensures RequestOk(s', h', p) { EnqueueRequest(s, h, m, pages, r, p); }
  }

  // --- a send that fills the receiver's placeholder

  ghost predicate CanFill(s: State, h: History, m: Packet, r: nat) {
    && Slots(s, h) && Runnable(s)
    && r < |s.procs| && s.procs[r].state.RecvBlocked? && s.current != s.idle
    && WindowCovers(m.recvLen, m.recvBuf, m.recvLen)
    && QueueOk(s, h, r)
  }

  /** The sender blocks, and the receiver is ready with one node that stands for the sender. */
  ghost predicate Filled(s: State, m: Packet, pages: PageMap, r: nat, s': State) {
    && s.current < |s.procs| && r < |s.procs| && r != s.current && s.procs[r].queue != []
    && s'.heap == s.heap && s'.current == s.current && |s'.procs| == |s.procs|
    && s'.procs == s.procs[s.current := s.procs[s.current].(state := SendBlocked)][r := s'.procs[r]]
    && s'.procs[r].state.Ready? && |s'.procs[r].queue| == 1
    && s'.procs[r].queue[0].msg.sender == s.procs[s.current].pid
  }

  lemma FillEffect(s: State, h: History, m: Packet, pages: PageMap, r: nat)
    requires CanFill(s, h, m, r)
    ensures Fill(s, m, pages, r).Next? && Filled(s, m, pages, r, Fill(s, m, pages, r).s)
  {}

  lemma FillSlots(s: State, h: History, m: Packet, pages: PageMap, r: nat)
    requires CanFill(s, h, m, r)
    ensures Fill(s, m, pages, r).Next?
    ensures Slots(Fill(s, m, pages, r).s, LogFill(s, h, m, pages, r))
  {
    assert r != s.current && r != s.idle;
  }

  lemma FillQueue(s: State, h: History, m: Packet, pages: PageMap, r: nat, i: nat)
    requires CanFill(s, h, m, r) && Fill(s, m, pages, r).Next?
    requires i < |s.procs| && QueueOk(s, h, i)
    ensures QueueOk(Fill(s, m, pages, r).s, LogFill(s, h, m, pages, r), i)
  {
    var h' := LogFill(s, h, m, pages, r);
    var q := s.procs[i].queue;
    if !s.procs[i].state.RecvBlocked? {
      forall j | 0 <= j < |q| ensures StandsFor(h', i, q[j]) {
        assert StandsFor(h, i, q[j]);
      }
    }
  }

  lemma FillRequest(s: State, h: History, m: Packet, pages: PageMap, r: nat, p: nat)
    requires CanFill(s, h, m, r) && Fill(s, m, pages, r).Next?
    requires p in h.waits ==> RequestOk(s, h, p)
    requires p in LogFill(s, h, m, pages, r).waits
    ensures RequestOk(Fill(s, m, pages, r).s, LogFill(s, h, m, pages, r), p)
  {
    var s' := Fill(s, m, pages, r).s;
    assert Senders(s'.procs[r].queue) == [s.current];
  }

  lemma FillTable(s: State, h: History, m: Packet, pages: PageMap, r: nat)
    requires CanFill(s, h, m, r) && Table(s, h)
    ensures Fill(s, m, pages, r).Next?
    ensures Table(Fill(s, m, pages, r).s, LogFill(s, h, m, pages, r))
  {
    FillSlots(s, h, m, pages, r);
    var s', h' := Fill(s, m, pages, r).s, LogFill(s, h, m, pages, r);
    forall i | 0 <= i < |s'.procs| ensures QueueOk(s', h', i) { FillQueue(s, h, m, pages, r, i); }
    forall p | p in h'.waits ensures RequestOk(s', h', p) { FillRequest(s, h, m, pages, r, p); }
  }

  // --- a receive with nothing to return

  ghost predicate CanWait(s: State, h: History, m: Packet, at: U32) {
    && Slots(s, h) && Runnable(s)
    && s.current != s.idle && s.procs[s.current].queue == []
    && WindowCovers(m.recvLen, m.recvBuf, m.recvLen)
    && WindowCovers(PACKET_SIZE, at, SENDER_SIZE)
    && Allocate(s.heap).Some?
  }

  lemma WaitTable(s: State, h: History, m: Packet, at: U32, pages: PageMap)
    requires CanWait(s, h, m, at) && Table(s, h)
    ensures RecvBody(s, m, at, pages).Next?
    ensures Table(RecvBody(s, m, at, pages).s, h)
  {
    var s' := RecvBody(s, m, at, pages).s;
    forall i | 0 <= i < |s'.procs| ensures QueueOk(s', h, i) { assert QueueOk(s, h, i); }
    forall p | p in h.waits ensures RequestOk(s', h, p) { assert RequestOk(s, h, p); }
  }

  // --- a reply

  /** The current process has a message to answer, and p sent it. */
  ghost predicate CanReply(s: State, h: History, p: nat) {
    && Slots(s, h) && Runnable(s)
    && s.current != s.idle && s.procs[s.current].queue != []
    && var node := s.procs[s.current].queue[0];
    && node.msg.sender == p && p in h.waits && StandsFor(h, s.current, node)
    && p != s.current && p != s.idle
    && WindowCovers(node.msg.recvLen, node.msg.recvBuf, node.msg.recvLen)
    && FindByPid(s.procs, p) == Some(p)
    && node.block < |s.heap|
  }

  lemma ReplyPossible(s: State, h: History)
    requires Table(s, h) && Blocks(s, h) && Runnable(s) && s.current != s.idle && s.procs[s.current].queue != []
    ensures CanReply(s, h, s.procs[s.current].queue[0].msg.sender)
  {
    var node := s.procs[s.current].queue[0];
    assert QueueOk(s, h, s.current);
    assert StandsFor(h, s.current, node);
    var p := node.msg.sender;
    assert RequestOk(s, h, p);
    FindSlot(s, h, p);
    assert Held(s, h, p) == node.block && HoldsLive(s, h, p);
  }

  lemma ReplySlots(s: State, h: History, m: Packet, pages: PageMap, p: nat)
    requires CanReply(s, h, p)
    ensures ReplyBody(s, m, pages).Next?
    ensures Slots(ReplyBody(s, m, pages).s, LogReply(h, s.current, p))
  {}

  lemma ReplyQueue(s: State, h: History, m: Packet, pages: PageMap, p: nat, i: nat)
    requires CanReply(s, h, p) && ReplyBody(s, m, pages).Next?
    requires i < |s.procs| && QueueOk(s, h, i)
    ensures QueueOk(ReplyBody(s, m, pages).s, LogReply(h, s.current, p), i)
  {
    var h' := LogReply(h, s.current, p);
    var q := s.procs[i].queue;
    if !s.procs[i].state.RecvBlocked? {
      forall j | 0 <= j < |q| && (i == s.current ==> 0 < j) ensures StandsFor(h', i, q[j]) {
        assert StandsFor(h, i, q[j]);
        if i == s.current { assert Senders(q)[0] != Senders(q)[j]; }
      }
      if i == s.current {
        assert Senders(q[1..]) == Senders(q)[1..];
      }
    }
  }

  lemma ReplyRequest(s: State, h: History, m: Packet, pages: PageMap, p: nat, x: nat)
    requires CanReply(s, h, p) && ReplyBody(s, m, pages).Next?
    requires x in LogReply(h, s.current, p).waits && RequestOk(s, h, x)
    ensures RequestOk(ReplyBody(s, m, pages).s, LogReply(h, s.current, p), x)
  {
    var q := s.procs[s.current].queue;
    assert Senders(q[1..]) == Senders(q)[1..];
    assert Senders(q) == [q[0].msg.sender] + Senders(q)[1..];
  }

  lemma ReplyTable(s: State, h: History, m: Packet, pages: PageMap, p: nat)
    requires CanReply(s, h, p) && Table(s, h)
    ensures ReplyBody(s, m, pages).Next?
    ensures Table(ReplyBody(s, m, pages).s, LogReply(h, s.current, p))
  {
    ReplySlots(s, h, m, pages, p);
    var s', h' := ReplyBody(s, m, pages).s, LogReply(h, s.current, p);
    forall i | 0 <= i < |s'.procs| ensures QueueOk(s', h', i) { ReplyQueue(s, h, m, pages, p, i); }
    forall x | x in h'.waits ensures RequestOk(s', h', x) { ReplyRequest(s, h, m, pages, p, x); }
  }

  // --- rescheduling

  lemma ScheduleSlots(s: State, h: History)
    requires Slots(s, h)
    ensures Slots(Schedule(s), h)
  {
    FindSlot(s, h, s.current);
  }

  lemma ScheduleRunnable(s: State, h: History)
    requires Slots(s, h) && s.enabled
    ensures Runnable(Schedule(s))
  {
    FindSlot(s, h, s.current);
  }

  lemma ScheduleTable(s: State, h: History)
    requires Table(s, h)
    ensures Table(Schedule(s), h)
    ensures s.enabled ==> Runnable(Schedule(s))
  {
    ScheduleSlots(s, h);
    if s.enabled { ScheduleRunnable(s, h); }
    FindSlot(s, h, s.current);
    var s' := Schedule(s);
    forall i | 0 <= i < |s'.procs| ensures QueueOk(s', h, i) { assert QueueOk(s, h, i); }
    forall p | p in h.waits ensures RequestOk(s', h, p) { assert RequestOk(s, h, p); }
  }

  // --- the heap

  lemma {:induction false} BlockedUpdate(procs: seq<Proc>, i: nat, p: Proc)
    requires i < |procs|
    ensures BlockedCount(procs[i := p])
         == BlockedCount(procs) - (if procs[i].state.Blocked() then 1 else 0) + (if p.state.Blocked() then 1 else 0)
  {
    var last := |procs| - 1;
    if i == last {
      assert procs[i := p][..last] == procs[..last];
    } else {
      assert procs[i := p][..last] == procs[..last][i := p];
      BlockedUpdate(procs[..last], i, p);
    }
  }

  lemma {:induction false} SomeoneRuns(procs: seq<Proc>, i: nat)
    requires i < |procs| && !procs[i].state.Blocked()
    ensures BlockedCount(procs) < |procs|
  {
    if i < |procs| - 1 { SomeoneRuns(procs[..|procs| - 1], i); }
  }

  /** While some process can run, the heap has room for one more node. */
  lemma HeapRoom(s: State, h: History)
    requires Runnable(s) && Blocks(s, h)
    ensures |Take(s.heap)| <= |s.procs|
    ensures Fits(NODE_SIZE, |s.procs|) ==> Allocate(s.heap).Some?
  {
    SomeoneRuns(s.procs, s.current);
    TakeCounts(s.heap);
    BlockAtIsLinear(NODE_SIZE, |s.procs|);
    BlockAtIsLinear(NODE_SIZE, |s.heap| + 1);
  }

  /** The same processes are blocked, holding the same blocks, but for those in `except`. */
  ghost predicate SameHolders(s: State, h: History, s': State, h': History, except: set<nat>)
    requires |s.procs| == |s'.procs|
  {
    forall p :: 0 <= p < |s.procs| && p !in except ==>
      && s'.procs[p].state.Blocked() == s.procs[p].state.Blocked()
      && (s.procs[p].state.Blocked() ==> Held(s', h', p) == Held(s, h, p))
  }

  /** The current process becomes blocked and holds the block just taken. */
  lemma BlocksTaken(s: State, h: History, s': State, h': History)
    requires Blocks(s, h) && |s.procs| == |s'.procs| && Runnable(s)
    requires s'.heap == Take(s.heap)
    requires s'.procs[s.current].state.Blocked() && Held(s', h', s.current) == FirstFree(s.heap)
    requires SameHolders(s, h, s', h', {s.current})
    requires BlockedCount(s'.procs) == BlockedCount(s.procs) + 1
    ensures Blocks(s', h')
  {
    HeapRoom(s, h);
    TakeCounts(s.heap);
    forall p | 0 <= p < |s.procs| ensures HoldsLive(s', h', p) {
      TakenLive(s, h, s', h', p);
    }
    forall p, q | 0 <= p < q < |s.procs| ensures HoldApart(s', h', p, q) {
      assert HoldApart(s, h, p, q) && HoldsLive(s, h, p) && HoldsLive(s, h, q);
    }
  }

  lemma TakenLive(s: State, h: History, s': State, h': History, p: nat)
    requires p < |s.procs| == |s'.procs| && HoldsLive(s, h, p) && s'.heap == Take(s.heap)
    requires Held(s', h', s.current) == FirstFree(s.heap)
    requires SameHolders(s, h, s', h', {s.current})
    ensures HoldsLive(s', h', p)
  {}

  /** Process r wakes up and its block passes to the current process, which blocks. */
  lemma BlocksPassed(s: State, h: History, s': State, h': History, r: nat)
    requires Blocks(s, h) && |s.procs| == |s'.procs| && Runnable(s)
    requires r < |s.procs| && s.procs[r].state.Blocked() && !s'.procs[r].state.Blocked()
    requires s'.heap == s.heap
    requires s'.procs[s.current].state.Blocked() && Held(s', h', s.current) == Held(s, h, r)
    requires SameHolders(s, h, s', h', {s.current, r})
    requires BlockedCount(s'.procs) == BlockedCount(s.procs)
    ensures Blocks(s', h')
  {
    assert HoldsLive(s, h, r);
    forall p | 0 <= p < |s.procs| ensures HoldsLive(s', h', p) {
      assert HoldsLive(s, h, p);
    }
    forall p, q | 0 <= p < q < |s.procs| ensures HoldApart(s', h', p, q) {
      var p0, q0 := if p == s.current then r else p, if q == s.current then r else q;
      assert p0 < q0 ==> HoldApart(s, h, p0, q0);
      assert q0 < p0 ==> HoldApart(s, h, q0, p0);
    }
  }

  /** Process p wakes up and its block is freed. */
  lemma BlocksGiven(s: State, h: History, s': State, h': History, p: nat)
    requires Blocks(s, h) && |s.procs| == |s'.procs|
    requires p < |s.procs| && s.procs[p].state.Blocked() && !s'.procs[p].state.Blocked()
    requires Held(s, h, p) < |s.heap| && s'.heap == s.heap[Held(s, h, p) := false]
    requires SameHolders(s, h, s', h', {p})
    requires BlockedCount(s'.procs) == BlockedCount(s.procs) - 1
    ensures Blocks(s', h')
  {
    assert HoldsLive(s, h, p);
    LiveUpdate(s.heap, Held(s, h, p), false);
    forall x | 0 <= x < |s.procs| ensures HoldsLive(s', h', x) {
      assert HoldsLive(s, h, x);
      if x < p { assert HoldApart(s, h, x, p); } else if p < x { assert HoldApart(s, h, p, x); }
    }
    forall x, y | 0 <= x < y < |s.procs| ensures HoldApart(s', h', x, y) {
      assert HoldApart(s, h, x, y);
    }
  }

  lemma EnqueueBlocks(s: State, h: History, m: Packet, pages: PageMap, r: nat, s': State)
    requires Runnable(s) && Blocks(s, h) && r < |h.accepted|
    requires Enqueued(s, m, pages, r, s') && s.procs[r].state.Ready?
    ensures Blocks(s', LogEnqueue(s, h, m, pages, r))
  {
    var h' := LogEnqueue(s, h, m, pages, r);
    var procs := Grow(s, m, pages, r);
    BlockedUpdate(s.procs, r, procs[r]);
    BlockedUpdate(procs, s.current, s'.procs[s.current]);
    BlocksTaken(s, h, s', h');
  }

  lemma WaitBlocks(s: State, h: History, m: Packet, at: U32, pages: PageMap)
    requires CanWait(s, h, m, at) && Blocks(s, h)
    requires RecvBody(s, m, at, pages).Next?
    ensures Blocks(RecvBody(s, m, at, pages).s, h)
  {
    var s' := RecvBody(s, m, at, pages).s;
    BlockedUpdate(s.procs, s.current, s'.procs[s.current]);
    assert s'.procs == s.procs[s.current := s'.procs[s.current]];
    BlocksTaken(s, h, s', h);
  }

  lemma FilledHolders(s: State, h: History, m: Packet, pages: PageMap, r: nat, s': State)
    requires Sized(s, h) && Filled(s, m, pages, r, s')
    ensures SameHolders(s, h, s', LogFill(s, h, m, pages, r), {s.current, r})
  {}

  lemma FillBlocks(s: State, h: History, m: Packet, pages: PageMap, r: nat, s': State)
    requires Slots(s, h) && Runnable(s) && Blocks(s, h)
    requires Filled(s, m, pages, r, s') && s.procs[r].state.RecvBlocked?
    ensures Blocks(s', LogFill(s, h, m, pages, r))
  {
    var h' := LogFill(s, h, m, pages, r);
    BlockedUpdate(s.procs, s.current, s'.procs[s.current]);
    BlockedUpdate(s.procs[s.current := s'.procs[s.current]], r, s'.procs[r]);
    FilledHolders(s, h, m, pages, r, s');
    BlocksPassed(s, h, s', h', r);
  }

  /** The oldest sender is ready, and its node and block are gone. */
  ghost predicate Replied(s: State, p: nat, s': State) {
    && s.current < |s.procs| && p < |s.procs| && p != s.current && s.procs[s.current].queue != []
    && var block := s.procs[s.current].queue[0].block;
    && block < |s.heap| && s'.heap == s.heap[block := false] && |s'.procs| == |s.procs|
    && s'.procs[s.current] == s.procs[s.current].(queue := s.procs[s.current].queue[1..])
    && s'.procs[p] == s.procs[p].(state := Ready)
    && s'.procs == s.procs[s.current := s'.procs[s.current]][p := s'.procs[p]]
  }

  lemma ReplyEffect(s: State, h: History, m: Packet, pages: PageMap, p: nat)
    requires CanReply(s, h, p)
    ensures ReplyBody(s, m, pages).Next? && Replied(s, p, ReplyBody(s, m, pages).s)
  {}

  lemma RepliedHolders(s: State, h: History, p: nat, s': State)
    requires Sized(s, h) && Replied(s, p, s') && !s.procs[s.current].state.Blocked()
    ensures SameHolders(s, h, s', LogReply(h, s.current, p), {p})
  {}

  lemma ReplyBlocks(s: State, h: History, p: nat, s': State)
    requires Slots(s, h) && Runnable(s) && Blocks(s, h) && Replied(s, p, s')
    requires p in h.waits && Held(s, h, p) == s.procs[s.current].queue[0].block
    ensures Blocks(s', LogReply(h, s.current, p))
  {
    var h' := LogReply(h, s.current, p);
    BlockedUpdate(s.procs, s.current, s'.procs[s.current]);
    BlockedUpdate(s.procs[s.current := s'.procs[s.current]], p, s'.procs[p]);
    RepliedHolders(s, h, p, s');
    BlocksGiven(s, h, s', h', p);
  }

  /** Rescheduling marks a current process that is not blocked ready, and moves on. */
  lemma ScheduleEffect(s: State, h: History)
    requires Slots(s, h)
    ensures var s' := Schedule(s);
      && s'.heap == s.heap && s'.mem == s.mem && s'.idle == s.idle && s'.enabled == s.enabled
      && s'.procs == if s.enabled && !s.procs[s.current].state.Blocked()
                     then s.procs[s.current := s.procs[s.current].(state := Ready)] else s.procs
  {
    FindSlot(s, h, s.current);
  }

  lemma ScheduleBlocks(s: State, h: History)
    requires Slots(s, h) && Blocks(s, h)
    ensures Blocks(Schedule(s), h)
  {
    ScheduleEffect(s, h);
    SameBlocks(s, h, Schedule(s), s.current);
  }

  lemma SameBlocks(s: State, h: History, s': State, i: nat)
    requires Blocks(s, h) && s'.heap == s.heap
    requires i < |s.procs| == |s'.procs| && s'.procs == s.procs[i := s.procs[i].(state := s'.procs[i].state)]
    requires s'.procs[i].state.Blocked() == s.procs[i].state.Blocked()
    ensures Blocks(s', h)
  {
    BlockedUpdate(s.procs, i, s'.procs[i]);
    forall p | 0 <= p < |s.procs| ensures HoldsLive(s', h, p) { assert HoldsLive(s, h, p); }
    forall p, q | 0 <= p < q < |s.procs| ensures HoldApart(s', h, p, q) { assert HoldApart(s, h, p, q); }
  }

  lemma ScheduleServed(s: State, h: History)
    requires Slots(s, h) && Served(s, h)
    ensures Served(Schedule(s), h)
  {
    ScheduleEffect(s, h);
  }

  // --- the order of service

  lemma EnqueueServed(s: State, h: History, m: Packet, pages: PageMap, r: nat)
    requires CanEnqueue(s, h, m, r) && Served(s, h)
    requires Enqueue(s, m, pages, r).Next?
    ensures Served(Enqueue(s, m, pages, r).s, LogEnqueue(s, h, m, pages, r))
  {
    SendersAppend(s.procs[r].queue, Node(FirstFree(s.heap), Stamped(m, s.current, pages)));
  }

  lemma WaitServed(s: State, h: History, m: Packet, at: U32, pages: PageMap)
    requires CanWait(s, h, m, at) && Served(s, h)
    requires RecvBody(s, m, at, pages).Next?
    ensures Served(RecvBody(s, m, at, pages).s, h)
  {
    assert Unanswered(s.procs[s.current]) == [];
  }

  lemma FillServed(s: State, h: History, m: Packet, pages: PageMap, r: nat, s': State)
    requires Slots(s, h) && Runnable(s) && Served(s, h)
    requires Filled(s, m, pages, r, s') && s.procs[r].state.RecvBlocked?
    ensures Served(s', LogFill(s, h, m, pages, r))
  {
    assert Unanswered(s'.procs[r]) == [s.current];
  }

  lemma RecvServed(s: State, h: History)
    requires Slots(s, h) && Runnable(s) && Served(s, h) && s.procs[s.current].queue != []
    ensures Served(s, LogReturn(h, s.current, s.procs[s.current].queue[0].msg.sender))
  {}

  lemma ReplyServed(s: State, h: History, m: Packet, pages: PageMap, p: nat)
    requires CanReply(s, h, p) && Served(s, h)
    requires ReplyBody(s, m, pages).Next?
    ensures Served(ReplyBody(s, m, pages).s, LogReply(h, s.current, p))
  {
    var s', c := ReplyBody(s, m, pages).s, s.current;
    var q := s.procs[c].queue;
    assert Unanswered(s.procs[c]) == [p] + Unanswered(s'.procs[c]) by {
      assert Senders(q) == [p] + Senders(q[1..]);
    }
    assert forall i :: 0 <= i < |s.procs| && i != c ==> Unanswered(s'.procs[i]) == Unanswered(s.procs[i]);
    AnswerFirst(s, h, s', c, p);
  }

  lemma AnswerFirst(s: State, h: History, s': State, c: nat, p: nat)
    requires Served(s, h) && |s'.procs| == |s.procs| && c < |s.procs|
    requires Unanswered(s.procs[c]) == [p] + Unanswered(s'.procs[c])
    requires forall i :: 0 <= i < |s.procs| && i != c ==> Unanswered(s'.procs[i]) == Unanswered(s.procs[i])
    ensures Served(s', LogReply(h, c, p))
  {
    assert h.replied[c] + ([p] + Unanswered(s'.procs[c])) == (h.replied[c] + [p]) + Unanswered(s'.procs[c]);
  }

  lemma SendKeeps(s: State, h: History, m: Packet, pages: PageMap, r: nat)
    requires Inv(s, h) && Polite(s, Send(m, pages)) && FindByPid(s.procs, m.receiver) == Some(r)
    requires Fits(NODE_SIZE, |s.procs|)
    ensures SendTo(s, m, pages, r).Next?
    ensures Core(SendTo(s, m, pages, r).s, Log(s, h, Send(m, pages)))
  {
    assert QueueOk(s, h, r);
    if s.procs[r].state.RecvBlocked? {
      FillTable(s, h, m, pages, r);
      FillEffect(s, h, m, pages, r);
      FillBlocks(s, h, m, pages, r, Fill(s, m, pages, r).s);
      FillServed(s, h, m, pages, r, Fill(s, m, pages, r).s);
    } else {
      HeapRoom(s, h);
      EnqueueTable(s, h, m, pages, r);
      EnqueueEffect(s, h, m, pages, r);
      EnqueueBlocks(s, h, m, pages, r, Enqueue(s, m, pages, r).s);
      EnqueueServed(s, h, m, pages, r);
    }
  }

  lemma RecvKeeps(s: State, h: History, m: Packet, at: U32, pages: PageMap)
    requires Inv(s, h) && Polite(s, Recv(m, at, pages))
    requires Fits(NODE_SIZE, |s.procs|)
    ensures RecvBody(s, m, at, pages).Next?
    ensures Core(RecvBody(s, m, at, pages).s, Log(s, h, Recv(m, at, pages)))
  {
    if s.procs[s.current].queue == [] {
      HeapRoom(s, h);
      WaitTable(s, h, m, at, pages);
      WaitBlocks(s, h, m, at, pages);
      WaitServed(s, h, m, at, pages);
    } else {
      RecvServed(s, h);
      OnlyMemory(s, h, RecvBody(s, m, at, pages).s, Log(s, h, Recv(m, at, pages)));
    }
  }

  lemma ReplyKeeps(s: State, h: History, m: Packet, pages: PageMap)
    requires Inv(s, h) && Polite(s, Reply(m, pages))
    ensures ReplyBody(s, m, pages).Next?
    ensures Core(ReplyBody(s, m, pages).s, Log(s, h, Reply(m, pages)))
  {
    if s.procs[s.current].queue != [] {
      var p := s.procs[s.current].queue[0].msg.sender;
      ReplyPossible(s, h);
      ReplyTable(s, h, m, pages, p);
      ReplyEffect(s, h, m, pages, p);
      ReplyBlocks(s, h, p, ReplyBody(s, m, pages).s);
      ReplyServed(s, h, m, pages, p);
      assert Log(s, h, Reply(m, pages)) == LogReply(h, s.current, p);
    }
  }

  /** Memory, the scheduling flag and what receives returned do not matter to the table. */
  lemma OnlyMemory(s: State, h: History, s': State, h': History)
    requires Table(s, h) && Blocks(s, h)
    requires s' == s.(mem := s'.mem, enabled := s'.enabled)
    requires Sized(s', h') && h'.waits == h.waits
    ensures Table(s', h') && Blocks(s', h')
  {
    forall i | 0 <= i < |s.procs| ensures QueueOk(s', h', i) {
      assert QueueOk(s, h, i);
      assert forall j :: 0 <= j < |s.procs[i].queue| ==>
        StandsFor(h, i, s.procs[i].queue[j]) == StandsFor(h', i, s.procs[i].queue[j]);
    }
    forall p | p in h.waits ensures RequestOk(s', h', p) { assert RequestOk(s, h, p); }
    forall p | 0 <= p < |s.procs| ensures HoldsLive(s', h', p) { assert HoldsLive(s, h, p); }
    forall p, q | 0 <= p < q < |s.procs| ensures HoldApart(s', h', p, q) { assert HoldApart(s, h, p, q); }
  }

  // ----- runs -----

  lemma BodyKeeps(s: State, h: History, e: Event)
    requires Inv(s, h) && Polite(s, e) && Fits(NODE_SIZE, |s.procs|)
    ensures Body(s, e).Next? && Core(Body(s, e).s, Log(s, h, e))
  {
    match e
    case Send(m, pages) =>
      var r := FindByPid(s.procs, m.receiver);
      if r.Some? { SendKeeps(s, h, m, pages, r.value); }
    case Recv(m, at, pages) => RecvKeeps(s, h, m, at, pages);
    case Reply(m, pages) => ReplyKeeps(s, h, m, pages);
    case Tick =>
    case User(mem) => OnlyMemory(s, h, s.(mem := mem), h);
  }

  lemma ScheduleKeeps(s: State, h: History)
    requires Core(s, h)
    ensures Core(Schedule(s), h)
    ensures s.enabled || Runnable(s) ==> Inv(Schedule(s), h)
  {
    ScheduleTable(s, h);
    ScheduleBlocks(s, h);
    ScheduleServed(s, h);
  }

  lemma Enabling(s: State, h: History, on: bool)
    requires Core(s, h)
    ensures Core(s.(enabled := on), h)
  {
    OnlyMemory(s, h, s.(enabled := on), h);
  }

  lemma RescheduleKeeps(s: State, h: History)
    requires Core(s, h)
    ensures Reschedule(Next(s)).Next? && Inv(Reschedule(Next(s)).s, h)
  {
    Enabling(s, h, true);
    ScheduleKeeps(s.(enabled := true), h);
  }

  lemma DisabledSame(s: State, h: History, e: Event)
    requires Inv(s, h) && Polite(s, e)
    ensures var off := s.(enabled := false);
      Inv(off, h) && Polite(off, e) && Log(off, h, e) == Log(s, h, e) && NoReceiver(off, e) == NoReceiver(s, e)
  {
    Enabling(s, h, false);
  }

  /** A well-behaved event never faults and keeps the invariant. */
  lemma StepKeeps(s: State, h: History, e: Event)
    requires Inv(s, h) && Polite(s, e) && Fits(NODE_SIZE, |s.procs|)
    ensures Step(s, e).Next? && Inv(Step(s, e).s, Log(s, h, e))
  {
    if e.Tick? {
      ScheduleKeeps(s, h);
    } else if e.User? {
      BodyKeeps(s, h, e);
    } else {
      var off := s.(enabled := false);
      DisabledSame(s, h, e);
      BodyKeeps(off, h, e);
      if !NoReceiver(s, e) {
        RescheduleKeeps(Body(off, e).s, Log(s, h, e));
      }
    }
  }

  ghost predicate PoliteRun(s: State, events: seq<Event>)
    requires Shape(s)
    decreases |events|
  {
    events == [] ||
    var before := events[..|events| - 1];
    PoliteRun(s, before) && (Run(s, before).Next? ==> Polite(Run(s, before).s, events[|events| - 1]))
  }

  /** The story after a run that did not fault. */
  function Story(s: State, h: History, events: seq<Event>): (h': History)
    requires Shape(s) && Sized(s, h) && Run(s, events).Next?
    ensures Sized(Run(s, events).s, h')
    decreases |events|
  {
    if events == [] then h
    else
      var before := events[..|events| - 1];
      Log(Run(s, before).s, Story(s, h, before), events[|events| - 1])
  }

  lemma LastEvent(s: State, h: History, events: seq<Event>)
    requires Shape(s) && Sized(s, h) && events != []
    requires Run(s, events[..|events| - 1]).Next? && Run(s, events).Next?
    ensures var before, e := events[..|events| - 1], events[|events| - 1];
      && Run(s, events) == Step(Run(s, before).s, e)
      && Story(s, h, events) == Log(Run(s, before).s, Story(s, h, before), e)
  {}

  /** Every well-behaved run, with at most as many processes as the heap has room for
      nodes, avoids every fault and keeps the invariant. */
  lemma {:induction false} RunKeeps(s: State, h: History, events: seq<Event>)
    requires Inv(s, h) && PoliteRun(s, events) && Fits(NODE_SIZE, |s.procs|)
    ensures Run(s, events).Next? && Inv(Run(s, events).s, Story(s, h, events))
    decreases |events|
  {
    if events != [] {
      var before, e := events[..|events| - 1], events[|events| - 1];
      RunKeeps(s, h, before);
      var t, u := Run(s, before).s, Story(s, h, before);
      StepKeeps(t, u, e);
      LastEvent(s, h, events);
      assert Inv(Run(s, events).s, Story(s, h, events));
    }
  }
}
