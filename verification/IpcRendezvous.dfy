// It does not matter who arrives first: a send followed by the receive and a receive
// followed by the send leave the same machine behind.
module IpcRendezvous {
  import opened Common
  import opened ProcTable
  import opened PhysMem
  import opened HeapSpec
  import opened Ipc

  /** What the two processes bring to the rendezvous. */
  datatype Meeting = Meeting(
    sender: nat, receiver: nat,
    sent: Packet, sentPages: PageMap,
    wanted: Packet, at: U32, wantedPages: PageMap)

  /** Two ready processes, a receiver nobody has written to yet, room in the heap, and
      buffers that the kernel's windows show correctly. */
  ghost predicate CanMeet(s: State, x: Meeting) {
    && Shape(s)
    && x.sender < |s.procs| && x.receiver < |s.procs| && x.sender != x.receiver
    && s.procs[x.sender].state.Ready? && s.procs[x.receiver].state.Ready?
    && s.procs[x.receiver].queue == [] && s.procs[x.receiver].pid != NO_PID
    && Allocate(s.heap).Some?
    && WindowCovers(x.sent.sendLen, x.sent.sendBuf, x.wanted.recvLen)
    && WindowCovers(x.wanted.recvLen, x.wanted.recvBuf, x.wanted.recvLen)
    && WindowCovers(PACKET_SIZE, x.at, SENDER_SIZE)
    && Contiguous(x.sentPages, x.sent.sendBuf, x.wanted.recvLen)
    && Contiguous(x.wantedPages, x.wanted.recvBuf, x.wanted.recvLen)
    && Contiguous(x.wantedPages, x.at, SENDER_SIZE)
  }

  function OnCpu(s: State, p: nat): State {
    s.(current := p)
  }

  function SendFirst(s: State, x: Meeting): (o: Outcome)
    requires Shape(s) && x.sender < |s.procs| && x.receiver < |s.procs|
  {
    var o := SendTo(OnCpu(s, x.sender), x.sent, x.sentPages, x.receiver);
    if o.Fault? then Fault
    else RecvBody(OnCpu(o.s, x.receiver), x.wanted, x.at, x.wantedPages)
  }

  function RecvFirst(s: State, x: Meeting): (o: Outcome)
    requires Shape(s) && x.sender < |s.procs| && x.receiver < |s.procs|
  {
    var o := RecvBody(OnCpu(s, x.receiver), x.wanted, x.at, x.wantedPages);
    if o.Fault? then Fault
    else SendTo(OnCpu(o.s, x.sender), x.sent, x.sentPages, x.receiver)
  }

  /** The fields of a queued packet that a receive or the reply reads. */
  predicate SameRequest(a: Node, b: Node) {
    && a.block == b.block
    && a.msg.sender == b.msg.sender
    && a.msg.sendBuf == b.msg.sendBuf && a.msg.sendLen == b.msg.sendLen && a.msg.physSend == b.msg.physSend
    && a.msg.recvBuf == b.msg.recvBuf && a.msg.recvLen == b.msg.recvLen && a.msg.physRecv == b.msg.physRecv
  }

  /** The same memory, hence the same message in the receiver's buffer and the same sender in
      its packet; the same heap; a ready receiver; a blocked sender; and queue heads that agree
      on everything a receive or the reply reads, which is what the sender passed. No third
      process notices a difference. */
  ghost predicate Agree(s: State, x: Meeting, a: State, b: State)
    requires x.sender < |s.procs| && x.receiver < |s.procs|
  {
    && a.mem == b.mem && a.heap == b.heap
    && |a.procs| == |b.procs| == |s.procs|
    && a.procs[x.receiver].state == b.procs[x.receiver].state == Ready
    && a.procs[x.sender].state.AwaitsReply() && b.procs[x.sender].state.AwaitsReply()
    && |a.procs[x.receiver].queue| == |b.procs[x.receiver].queue| == 1
    && SameRequest(a.procs[x.receiver].queue[0], b.procs[x.receiver].queue[0])
    && a.procs[x.receiver].queue[0].msg.sender == s.procs[x.sender].pid
    && Carries(a.procs[x.receiver].queue[0].msg, x.sent, x.sentPages)
    && forall i :: 0 <= i < |s.procs| && i != x.sender && i != x.receiver ==>
         a.procs[i] == b.procs[i] == s.procs[i]
  }

  /** Rendezvous is independent of the order of arrival. */
  lemma OrderIndependent(s: State, x: Meeting)
    requires CanMeet(s, x)
    ensures SendFirst(s, x).Next? && RecvFirst(s, x).Next?
    ensures Agree(s, x, SendFirst(s, x).s, RecvFirst(s, x).s)
  {
    ContiguousShows(x.sentPages, x.sent.sendBuf, x.wanted.recvLen);
    ContiguousShows(x.wantedPages, x.wanted.recvBuf, x.wanted.recvLen);
    PacketShows(x);
    SendFirstEffect(s, x);
    RecvFirstEffect(s, x);
  }

  /** So one more receive does the same after either order. */
  lemma NextReceiveAlike(s: State, x: Meeting, m: Packet, at: U32, pages: PageMap)
    requires CanMeet(s, x)
    ensures SendFirst(s, x).Next? && RecvFirst(s, x).Next?
    ensures var a := RecvBody(OnCpu(SendFirst(s, x).s, x.receiver), m, at, pages);
      var b := RecvBody(OnCpu(RecvFirst(s, x).s, x.receiver), m, at, pages);
      (a.Next? <==> b.Next?) && (a.Next? ==> a.s.mem == b.s.mem && a.s.heap == b.s.heap)
  {
    OrderIndependent(s, x);
  }

  lemma PacketShows(x: Meeting)
    requires Contiguous(x.wantedPages, x.at, SENDER_SIZE)
    ensures var phys := Translate(x.wantedPages, x.at);
      WindowBytes(phys, phys, SENDER_SIZE) == BufferBytes(x.wantedPages, x.at, SENDER_SIZE)
  {
    ContiguousShowsPhys(x.wantedPages, x.at, SENDER_SIZE);
  }

  function Delivered(s: State, x: Meeting, dst: seq<nat>, src: seq<nat>): Memory
    requires x.sender < |s.procs| && |dst| == |src|
  {
    Store(Copy(s.mem, dst, src), BufferBytes(x.wantedPages, x.at, SENDER_SIZE), Le32(s.procs[x.sender].pid))
  }

  lemma SendFirstEffect(s: State, x: Meeting)
    requires CanMeet(s, x)
    ensures SendFirst(s, x).Next?
    ensures var a := SendFirst(s, x).s;
      && a.mem == Delivered(s, x, BufferBytes(x.wantedPages, x.wanted.recvBuf, x.wanted.recvLen),
                            WindowBytes(Translate(x.sentPages, x.sent.sendBuf), x.sent.sendBuf, x.wanted.recvLen))
      && a.heap == Take(s.heap)
      && a.procs == s.procs
           [x.receiver := s.procs[x.receiver].(queue :=
             [Node(FirstFree(s.heap), Stamped(x.sent, s.procs[x.sender].pid, x.sentPages))])]
           [x.sender := s.procs[x.sender].(state := ReplyBlocked)]
  {
    var mid := SendTo(OnCpu(s, x.sender), x.sent, x.sentPages, x.receiver);
    assert mid.Next?;
    assert mid.s.procs[x.receiver].queue
        == [Node(FirstFree(s.heap), Stamped(x.sent, s.procs[x.sender].pid, x.sentPages))];
  }

  lemma RecvFirstEffect(s: State, x: Meeting)
    requires CanMeet(s, x)
    requires var phys := Translate(x.wantedPages, x.at);
      WindowBytes(phys, phys, SENDER_SIZE) == BufferBytes(x.wantedPages, x.at, SENDER_SIZE)
    ensures RecvFirst(s, x).Next?
    ensures var b := RecvFirst(s, x).s;
      && b.mem == Delivered(s, x, WindowBytes(Translate(x.wantedPages, x.wanted.recvBuf),
                                              x.wanted.recvBuf, x.wanted.recvLen),
                            BufferBytes(x.sentPages, x.sent.sendBuf, x.wanted.recvLen))
      && b.heap == Take(s.heap)
      && |b.procs| == |s.procs|
      && b.procs[x.receiver].pid == s.procs[x.receiver].pid
      && b.procs[x.receiver].state == Ready && b.procs[x.sender] == s.procs[x.sender].(state := SendBlocked)
      && |b.procs[x.receiver].queue| == 1
      && SameRequest(b.procs[x.receiver].queue[0],
                      Node(FirstFree(s.heap), Stamped(x.sent, s.procs[x.sender].pid, x.sentPages)))
      && forall i :: 0 <= i < |s.procs| && i != x.sender && i != x.receiver ==> b.procs[i] == s.procs[i]
  {
    var mid := RecvBody(OnCpu(s, x.receiver), x.wanted, x.at, x.wantedPages);
    assert mid.Next? && mid.s.procs[x.receiver].state.RecvBlocked?;
    assert mid.s.procs[x.sender] == s.procs[x.sender];
  }

  /** Buffers that overlap neither each other nor the word that names the sender. */
  ghost predicate Apart(dst: seq<nat>, src: seq<nat>, word: seq<nat>) {
    && PhysMem.Distinct(dst) && PhysMem.Distinct(word)
    && (forall a :: a in dst ==> a !in src && a !in word)
  }

  /** Whoever arrives first, the receiver's buffer ends up holding the sender's bytes, its
      packet names the sender, and no other byte of memory changes. */
  lemma MessageDelivered(s: State, x: Meeting)
    requires CanMeet(s, x)
    requires Apart(BufferBytes(x.wantedPages, x.wanted.recvBuf, x.wanted.recvLen),
                   BufferBytes(x.sentPages, x.sent.sendBuf, x.wanted.recvLen),
                   BufferBytes(x.wantedPages, x.at, SENDER_SIZE))
    ensures SendFirst(s, x).Next? && RecvFirst(s, x).Next?
    ensures var mem := SendFirst(s, x).s.mem;
      var dst := BufferBytes(x.wantedPages, x.wanted.recvBuf, x.wanted.recvLen);
      var src := BufferBytes(x.sentPages, x.sent.sendBuf, x.wanted.recvLen);
      var word := BufferBytes(x.wantedPages, x.at, SENDER_SIZE);
      && RecvFirst(s, x).s.mem == mem
      && (forall i :: 0 <= i < |dst| ==> ReadByte(mem, dst[i]) == ReadByte(s.mem, src[i]))
      && (forall i :: 0 <= i < SENDER_SIZE ==> ReadByte(mem, word[i]) == Le32(s.procs[x.sender].pid)[i])
      && (forall a :: a !in dst && a !in word ==> ReadByte(mem, a) == ReadByte(s.mem, a))
  {
    var dst := BufferBytes(x.wantedPages, x.wanted.recvBuf, x.wanted.recvLen);
    var src := BufferBytes(x.sentPages, x.sent.sendBuf, x.wanted.recvLen);
    var word := BufferBytes(x.wantedPages, x.at, SENDER_SIZE);
    OrderIndependent(s, x);
    ContiguousShows(x.sentPages, x.sent.sendBuf, x.wanted.recvLen);
    SendFirstEffect(s, x);
    CopyMoves(s.mem, dst, src);
    StoreWrites(Copy(s.mem, dst, src), word, Le32(s.procs[x.sender].pid));
    forall i | 0 <= i < |dst| ensures dst[i] !in word { assert dst[i] in dst; }
  }

  /** The kernel copies as many bytes as the receiver has room for, however few the sender
      offers. The receiver gets only bytes that were offered if and only if it asks for no more
      than the sender's length; otherwise it gets the next byte of the sender's memory too. */
  lemma OnlyOfferedBytesIff(s: State, x: Meeting)
    requires CanMeet(s, x)
    requires Apart(BufferBytes(x.wantedPages, x.wanted.recvBuf, x.wanted.recvLen),
                   BufferBytes(x.sentPages, x.sent.sendBuf, x.wanted.recvLen),
                   BufferBytes(x.wantedPages, x.at, SENDER_SIZE))
    requires PhysMem.Distinct(BufferBytes(x.sentPages, x.sent.sendBuf, x.wanted.recvLen))
    ensures SendFirst(s, x).Next?
    ensures var dst := BufferBytes(x.wantedPages, x.wanted.recvBuf, x.wanted.recvLen);
      var src := BufferBytes(x.sentPages, x.sent.sendBuf, x.wanted.recvLen);
      var offered := BufferBytes(x.sentPages, x.sent.sendBuf, x.sent.sendLen);
      && ((forall i :: 0 <= i < |src| ==> src[i] in offered) <==> x.wanted.recvLen <= x.sent.sendLen)
      && (x.wanted.recvLen > x.sent.sendLen ==>
            src[x.sent.sendLen] !in offered
            && ReadByte(SendFirst(s, x).s.mem, dst[x.sent.sendLen]) == ReadByte(s.mem, src[x.sent.sendLen]))
  {
    MessageDelivered(s, x);
    var src := BufferBytes(x.sentPages, x.sent.sendBuf, x.wanted.recvLen);
    var offered := BufferBytes(x.sentPages, x.sent.sendBuf, x.sent.sendLen);
    if x.wanted.recvLen <= x.sent.sendLen {
      forall i | 0 <= i < |src| ensures src[i] in offered { assert src[i] == offered[i]; }
    } else {
      forall j | 0 <= j < |offered| ensures offered[j] != src[x.sent.sendLen] { assert offered[j] == src[j]; }
    }
  }

  /** The receiver's reply, once the two have met. */
  function Answer(o: Outcome, x: Meeting, m: Packet): (o': Outcome)
    requires o.Next? ==> Shape(o.s) && x.receiver < |o.s.procs|
  {
    if o.Fault? then Fault else ReplyBody(OnCpu(o.s, x.receiver), m, x.wantedPages)
  }

  /** The sender can be found by its pid, and its reply buffer is shown correctly. */
  ghost predicate CanAnswer(s: State, x: Meeting) {
    && CanMeet(s, x)
    && FindByPid(s.procs, s.procs[x.sender].pid) == Some(x.sender)
    && WindowCovers(x.sent.recvLen, x.sent.recvBuf, x.sent.recvLen)
    && Contiguous(x.sentPages, x.sent.recvBuf, x.sent.recvLen)
  }

  /** Send, receive and reply, in either order of arrival, leave every process as it was
      before they met, give the heap block back, and put the reply in the sender's buffer. */
  lemma ConversationRestores(s: State, x: Meeting, m: Packet)
    requires CanAnswer(s, x)
    ensures SendFirst(s, x).Next? && Answer(SendFirst(s, x), x, m).Next? && Answer(RecvFirst(s, x), x, m).Next?
    ensures var s' := Answer(SendFirst(s, x), x, m).s;
      && Answer(RecvFirst(s, x), x, m).s == s'.(current := x.receiver)
      && s'.procs == s.procs
      && s'.heap == Take(s.heap)[FirstFree(s.heap) := false] && Live(s'.heap) == Live(s.heap)
      && s'.mem == Copy(SendFirst(s, x).s.mem, BufferBytes(x.sentPages, x.sent.recvBuf, x.sent.recvLen),
                        BufferBytes(x.wantedPages, m.sendBuf, x.sent.recvLen))
  {
    OrderIndependent(s, x);
    PacketShows(x);
    SendFirstEffect(s, x);
    RecvFirstEffect(s, x);
    ContiguousShows(x.sentPages, x.sent.recvBuf, x.sent.recvLen);
    TakeCounts(s.heap);
    LiveUpdate(Take(s.heap), FirstFree(s.heap), false);
    AnswerEffect(s, x, m, SendFirst(s, x).s);
    AnswerEffect(s, x, m, RecvFirst(s, x).s);
  }

  /** The reply in any state that differs from the one before the meeting as it should. */
  lemma AnswerEffect(s: State, x: Meeting, m: Packet, a: State)
    requires CanAnswer(s, x) && Shape(a)
    requires a.heap == Take(s.heap) && |a.procs| == |s.procs|
    requires a.procs[x.sender].(state := Ready) == s.procs[x.sender]
    requires |a.procs[x.receiver].queue| == 1 && a.procs[x.receiver].(queue := []) == s.procs[x.receiver]
    requires SameRequest(a.procs[x.receiver].queue[0],
                          Node(FirstFree(s.heap), Stamped(x.sent, s.procs[x.sender].pid, x.sentPages)))
    requires forall i :: 0 <= i < |s.procs| && i != x.sender && i != x.receiver ==> a.procs[i] == s.procs[i]
    ensures Answer(Next(a), x, m).Next?
    ensures Answer(Next(a), x, m).s == OnCpu(a, x.receiver).(
      procs := s.procs, heap := Take(s.heap)[FirstFree(s.heap) := false],
      mem := Copy(a.mem, WindowBytes(Translate(x.sentPages, x.sent.recvBuf), x.sent.recvBuf, x.sent.recvLen),
                  BufferBytes(x.wantedPages, m.sendBuf, x.sent.recvLen)))
  {
    assert forall i :: 0 <= i < |s.procs| ==> a.procs[i].pid == s.procs[i].pid;
    assert FindByPid(a.procs, s.procs[x.sender].pid) == Some(x.sender);
    assert a.procs[x.receiver].queue[1..] == [];
    var procs := Answer(Next(a), x, m).s.procs;
    assert forall i :: 0 <= i < |s.procs| ==> procs[i] == s.procs[i];
    assert procs == s.procs;
  }

  // ----- as whole system calls -----

  /** Processes are found by their pids, and none is in the state of the first one to run. */
  ghost predicate Settled(s: State) {
    && Shape(s)
    && !s.procs[s.current].state.Unused? && !s.procs[s.idle].state.Unused?
    && forall i :: 0 <= i < |s.procs| && !s.procs[i].state.Unused? ==>
         !s.procs[i].state.Running? && FindByPid(s.procs, s.procs[i].pid) == Some(i)
  }

  ghost predicate SameMachine(a: State, b: State) {
    a.procs == b.procs && a.heap == b.heap && a.mem == b.mem
  }

  /** Rescheduling then only moves on to another process. */
  lemma ScheduleSettled(s: State)
    requires Settled(s)
    ensures Settled(Schedule(s)) && SameMachine(Schedule(s), s) && Schedule(s).idle == s.idle
  {
    var p := s.procs[s.current];
    assert !p.state.Blocked() ==> p == p.(state := Ready);
    assert SetState(s, s.current, s.procs[s.current].state) == s;
  }

  /** Any number of timer ticks. */
  function Ticks(s: State, k: nat): (s': State)
    requires Shape(s)
    ensures Shape(s') && |s'.procs| == |s.procs|
  {
    if k == 0 then s else Schedule(Ticks(s, k - 1))
  }

  lemma {:induction false} TicksSettled(s: State, k: nat)
    requires Settled(s)
    ensures Settled(Ticks(s, k)) && SameMachine(Ticks(s, k), s) && Ticks(s, k).idle == s.idle
  {
    if k > 0 {
      TicksSettled(s, k - 1);
      ScheduleSettled(Ticks(s, k - 1));
    }
  }

  /** One process makes its call and is rescheduled, the timer ticks k times, and then the
      other process, which has the processor by now, makes its call. */
  function Calls(s: State, p: nat, first: Event, k: nat, q: nat, second: Event): (o: Outcome)
    requires Shape(s) && p < |s.procs| && q < |s.procs|
  {
    var o := Step(OnCpu(s, p), first);
    if o.Fault? then Fault else Step(OnCpu(Ticks(o.s, k), q), second)
  }

  /** A receive, or a send to a process that exists. */
  ghost predicate IsCall(s: State, e: Event) {
    match e
    case Send(m, _) =>
      var r := FindByPid(s.procs, m.receiver);
      r.Some? && !s.procs[r.value].state.Unused?
    case Recv(_, _, _) => true
    case _ => false
  }

  ghost predicate SameOutcome(o: Outcome, o': Outcome) {
    && (o.Next? <==> o'.Next?)
    && (o.Next? ==> SameMachine(o.s, o'.s) && o.s.current == o'.s.current && o.s.idle == o'.s.idle)
  }

  lemma EnqueueIgnores(a: State, b: State, m: Packet, pages: PageMap, r: nat)
    requires Shape(a) && Shape(b) && SameMachine(a, b) && a.current == b.current && a.idle == b.idle && r < |a.procs|
    ensures SameOutcome(Enqueue(a, m, pages, r), Enqueue(b, m, pages, r))
  {}

  lemma FillIgnores(a: State, b: State, m: Packet, pages: PageMap, r: nat)
    requires Shape(a) && Shape(b) && SameMachine(a, b) && a.current == b.current && a.idle == b.idle && r < |a.procs|
    ensures SameOutcome(Fill(a, m, pages, r), Fill(b, m, pages, r))
  {}

  lemma RecvIgnores(a: State, b: State, m: Packet, at: U32, pages: PageMap)
    requires Shape(a) && Shape(b) && SameMachine(a, b) && a.current == b.current && a.idle == b.idle
    ensures SameOutcome(RecvBody(a, m, at, pages), RecvBody(b, m, at, pages))
  {}

  /** What a call does to the machine does not depend on the scheduler's own variables. */
  lemma BodyIgnores(a: State, b: State, e: Event)
    requires Shape(a) && Shape(b) && SameMachine(a, b) && a.current == b.current && a.idle == b.idle && IsCall(a, e)
    ensures SameOutcome(Body(a, e), Body(b, e))
  {
    match e
    case Send(m, pages) =>
      var r := FindByPid(a.procs, m.receiver).value;
      EnqueueIgnores(a, b, m, pages, r);
      FillIgnores(a, b, m, pages, r);
    case Recv(m, at, pages) => RecvIgnores(a, b, m, at, pages);
  }

  /** A call as a whole is its body, followed by a rescheduling that only moves on. */
  lemma CallIsBody(s: State, e: Event)
    requires Shape(s) && IsCall(s, e)
    requires Body(s, e).Next? && Settled(Body(s, e).s)
    ensures Step(s, e).Next? && Settled(Step(s, e).s) && SameMachine(Step(s, e).s, Body(s, e).s)
    ensures Step(s, e).s.idle == Body(s, e).s.idle
  {
    var off := s.(enabled := false);
    BodyIgnores(s, off, e);
    var on := Body(off, e).s.(enabled := true);
    assert Settled(on);
    ScheduleSettled(on);
  }

  /** The same processes, and no new one in state Running. */
  ghost predicate SameProcesses(a: seq<Proc>, b: seq<Proc>) {
    |a| == |b| && forall i :: 0 <= i < |a| ==>
      && a[i].pid == b[i].pid && (a[i].state.Unused? <==> b[i].state.Unused?)
      && (b[i].state.Running? ==> a[i].state.Running?)
  }

  lemma SendKeepsProcesses(s: State, m: Packet, pages: PageMap, r: nat)
    requires Shape(s) && !s.procs[s.current].state.Unused?
    requires r < |s.procs| && !s.procs[r].state.Unused? && SendTo(s, m, pages, r).Next?
    ensures SameProcesses(s.procs, SendTo(s, m, pages, r).s.procs) && SendTo(s, m, pages, r).s.idle == s.idle
    ensures SendTo(s, m, pages, r).s.current == s.current
  {}

  lemma RecvKeepsProcesses(s: State, m: Packet, at: U32, pages: PageMap)
    requires Shape(s) && !s.procs[s.current].state.Unused? && RecvBody(s, m, at, pages).Next?
    ensures SameProcesses(s.procs, RecvBody(s, m, at, pages).s.procs) && RecvBody(s, m, at, pages).s.idle == s.idle
    ensures RecvBody(s, m, at, pages).s.current == s.current
  {}

  lemma KeepsProcesses(s: State, e: Event)
    requires Shape(s) && !s.procs[s.current].state.Unused? && IsCall(s, e) && Body(s, e).Next?
    ensures SameProcesses(s.procs, Body(s, e).s.procs)
    ensures Body(s, e).s.idle == s.idle && Body(s, e).s.current == s.current
  {
    match e
    case Send(m, pages) => SendKeepsProcesses(s, m, pages, FindByPid(s.procs, m.receiver).value);
    case Recv(m, at, pages) => RecvKeepsProcesses(s, m, at, pages);
  }

  lemma SameFound(a: seq<Proc>, b: seq<Proc>, pid: U32)
    requires SameProcesses(a, b)
    ensures FindByPid(a, pid) == FindByPid(b, pid)
  {
    var x, y := FindByPid(a, pid), FindByPid(b, pid);
    if x.Some? { assert b[x.value].pid == pid; }
    if y.Some? { assert a[y.value].pid == pid; }
  }

  lemma SettledSame(s: State, s': State)
    requires Settled(s) && Shape(s') && SameProcesses(s.procs, s'.procs)
    requires !s.procs[s'.current].state.Unused? && s'.idle == s.idle
    ensures Settled(s')
  {
    forall i | 0 <= i < |s.procs| && !s'.procs[i].state.Unused?
      ensures FindByPid(s'.procs, s'.procs[i].pid) == Some(i) {
      SameFound(s.procs, s'.procs, s.procs[i].pid);
    }
  }

  lemma IsCallSame(s: State, s': State, e: Event)
    requires IsCall(s, e) && SameProcesses(s.procs, s'.procs)
    ensures IsCall(s', e)
  {
    if e.Send? { SameFound(s.procs, s'.procs, e.m.receiver); }
  }

  /** A call as a whole does what its body does, and leaves a settled machine. */
  lemma CallSettled(s: State, e: Event)
    requires Settled(s) && IsCall(s, e) && Body(s, e).Next?
    ensures Step(s, e).Next? && Settled(Step(s, e).s) && SameMachine(Step(s, e).s, Body(s, e).s)
    ensures Step(s, e).s.idle == Body(s, e).s.idle
    ensures SameProcesses(s.procs, Body(s, e).s.procs)
  {
    KeepsProcesses(s, e);
    SettledSame(s, Body(s, e).s);
    CallIsBody(s, e);
  }

  /** Two calls with ticks in between do what their bodies do back to back. */
  lemma CallsAreBodies(s: State, p: nat, first: Event, k: nat, q: nat, second: Event)
    requires Settled(s) && p < |s.procs| && q < |s.procs|
    requires IsCall(s, first) && IsCall(s, second)
    requires !s.procs[p].state.Unused? && !s.procs[q].state.Unused?
    requires Body(OnCpu(s, p), first).Next?
    requires Body(OnCpu(Body(OnCpu(s, p), first).s, q), second).Next?
    ensures Calls(s, p, first, k, q, second).Next?
    ensures SameMachine(Calls(s, p, first, k, q, second).s, Body(OnCpu(Body(OnCpu(s, p), first).s, q), second).s)
  {
    var s1 := OnCpu(s, p);
    CallSettled(s1, first);
    var a, b := Body(s1, first).s, Step(s1, first).s;
    TicksSettled(b, k);
    SecondCall(s, a, Ticks(b, k), q, second);
  }

  lemma SecondCall(s: State, a: State, t: State, q: nat, e: Event)
    requires Settled(t) && Shape(a) && SameMachine(a, t) && a.idle == t.idle
    requires SameProcesses(s.procs, a.procs) && IsCall(s, e) && q < |s.procs| && !s.procs[q].state.Unused?
    requires Body(OnCpu(a, q), e).Next?
    ensures Step(OnCpu(t, q), e).Next? && SameMachine(Step(OnCpu(t, q), e).s, Body(OnCpu(a, q), e).s)
  {
    IsCallSame(s, OnCpu(a, q), e);
    IsCallSame(s, OnCpu(t, q), e);
    BodyIgnores(OnCpu(a, q), OnCpu(t, q), e);
    CallSettled(OnCpu(t, q), e);
  }

  /** Rendezvous as a whole: whichever of the two calls comes first, and however often the
      processes are rescheduled in between, the outcome is the same. */
  lemma OrderIndependentInSteps(s: State, x: Meeting, j: nat, k: nat)
    requires CanMeet(s, x) && Settled(s) && FindByPid(s.procs, x.sent.receiver) == Some(x.receiver)
    ensures var send, recv := Send(x.sent, x.sentPages), Recv(x.wanted, x.at, x.wantedPages);
      var a, b := Calls(s, x.sender, send, j, x.receiver, recv), Calls(s, x.receiver, recv, k, x.sender, send);
      a.Next? && b.Next? && Agree(s, x, a.s, b.s)
  {
    var send, recv := Send(x.sent, x.sentPages), Recv(x.wanted, x.at, x.wantedPages);
    OrderIndependent(s, x);
    BodiesMeet(s, x);
    CallsAreBodies(s, x.sender, send, j, x.receiver, recv);
    CallsAreBodies(s, x.receiver, recv, k, x.sender, send);
  }

  lemma BodiesMeet(s: State, x: Meeting)
    requires CanMeet(s, x) && FindByPid(s.procs, x.sent.receiver) == Some(x.receiver)
    requires SendFirst(s, x).Next? && RecvFirst(s, x).Next?
    ensures var send, recv := Send(x.sent, x.sentPages), Recv(x.wanted, x.at, x.wantedPages);
      && Body(OnCpu(s, x.sender), send).Next? && Body(OnCpu(s, x.receiver), recv).Next?
      && Body(OnCpu(Body(OnCpu(s, x.sender), send).s, x.receiver), recv) == SendFirst(s, x)
      && Body(OnCpu(Body(OnCpu(s, x.receiver), recv).s, x.sender), send) == RecvFirst(s, x)
  {
    var recv := Recv(x.wanted, x.at, x.wantedPages);
    var mid := Body(OnCpu(s, x.receiver), recv).s;
    assert forall i :: 0 <= i < |s.procs| ==> mid.procs[i].pid == s.procs[i].pid;
    assert FindByPid(mid.procs, x.sent.receiver) == Some(x.receiver);
  }
}
