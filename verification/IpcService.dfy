// What the invariant means for servers and their clients: one node per blocked process,
// service in the order of arrival, and replies that reach the right buffer.
module IpcService {
  import opened Common
  import opened ProcTable
  import opened PhysMem
  import opened HeapSpec
  import opened Ipc
  import opened IpcInvariant
  import opened IpcQueues

  /** The process a queue node stands for: the server itself for a placeholder, and the
      sender otherwise. */
  function Owner(s: State, i: nat, j: nat): nat
    requires i < |s.procs| && j < |s.procs[i].queue|
  {
    if s.procs[i].state.RecvBlocked? then i else s.procs[i].queue[j].msg.sender
  }

  /** A node's owner is blocked because of it and holds its heap block. */
  ghost predicate OwnedBy(s: State, h: History, i: nat, j: nat)
    requires i < |s.procs| && j < |s.procs[i].queue|
  {
    var p, node := Owner(s, i, j), s.procs[i].queue[j];
    && p < |s.procs|
    && (if s.procs[i].state.RecvBlocked? then p == i
        else s.procs[p].state.AwaitsReply() && p in h.waits && h.waits[p].target == i)
    && Held(s, h, p) == node.block && node.block < |s.heap| && s.heap[node.block]
  }

  lemma NodeOwned(s: State, h: History, i: nat, j: nat)
    requires Inv(s, h) && i < |s.procs| && j < |s.procs[i].queue|
    ensures OwnedBy(s, h, i, j)
  {
    assert QueueOk(s, h, i);
    var p := Owner(s, i, j);
    if !s.procs[i].state.RecvBlocked? {
      assert StandsFor(h, i, s.procs[i].queue[j]);
    }
    assert HoldsLive(s, h, p);
  }

  lemma OwnersDiffer(s: State, h: History, i: nat, j: nat, i': nat, j': nat)
    requires i < |s.procs| && j < |s.procs[i].queue| && i' < |s.procs| && j' < |s.procs[i'].queue|
    requires (i, j) != (i', j') && QueueOk(s, h, i)
    requires OwnedBy(s, h, i, j) && OwnedBy(s, h, i', j')
    ensures Owner(s, i, j) != Owner(s, i', j')
  {
    if i == i' {
      assert Senders(s.procs[i].queue)[j] != Senders(s.procs[i].queue)[j'];
    }
  }

  lemma HoldersDiffer(s: State, h: History, p: nat, q: nat)
    requires Inv(s, h) && p < |s.procs| && q < |s.procs| && p != q
    requires s.procs[p].state.Blocked() && s.procs[q].state.Blocked()
    ensures Held(s, h, p) != Held(s, h, q)
  {
    if p < q { assert HoldApart(s, h, p, q); } else { assert HoldApart(s, h, q, p); }
  }

  /** Queue nodes map one to one to blocked processes, and live in distinct heap blocks. */
  lemma NodesOneToOne(s: State, h: History, i: nat, j: nat, i': nat, j': nat)
    requires Inv(s, h)
    requires i < |s.procs| && j < |s.procs[i].queue| && i' < |s.procs| && j' < |s.procs[i'].queue|
    requires (i, j) != (i', j')
    ensures Owner(s, i, j) != Owner(s, i', j')
    ensures s.procs[i].queue[j].block != s.procs[i'].queue[j'].block
  {
    NodeOwned(s, h, i, j);
    NodeOwned(s, h, i', j');
    assert QueueOk(s, h, i);
    OwnersDiffer(s, h, i, j, i', j');
    HoldersDiffer(s, h, Owner(s, i, j), Owner(s, i', j'));
  }

  /** Conversely, every blocked process has its node. */
  lemma EveryoneBlockedHasANode(s: State, h: History, p: nat) returns (i: nat, j: nat)
    requires Inv(s, h) && p < |s.procs| && s.procs[p].state.Blocked()
    ensures i < |s.procs| && j < |s.procs[i].queue| && Owner(s, i, j) == p
  {
    assert QueueOk(s, h, p);
    if s.procs[p].state.RecvBlocked? {
      i, j := p, 0;
    } else {
      assert RequestOk(s, h, p);
      i := h.waits[p].target;
      j :| 0 <= j < |s.procs[i].queue| && Senders(s.procs[i].queue)[j] == p;
    }
  }

  /** Once a send is over, its sender is blocked, as include/ipc.h promises, if and only if the
      receiver was ready or waiting for a message. In every other state of the receiver, also
      when a running process sends to itself, the sender runs on; module IpcCases has a run
      from boot in which that happens. */
  lemma SenderBlocksIff(s: State, m: Packet, pages: PageMap, r: nat)
    requires Shape(s) && FindByPid(s.procs, m.receiver) == Some(r)
    requires !s.procs[s.current].state.Blocked()
    requires FindByPid(s.procs, s.procs[s.current].pid) == Some(s.current)
    requires Step(s, Send(m, pages)).Next?
    ensures Step(s, Send(m, pages)).s.procs[s.current].state.Blocked()
            <==> s.procs[r].state.Ready? || s.procs[r].state.RecvBlocked?
  {
    StepMoves(s, Send(m, pages), s.current);
  }

  /** Which of the two states a send leaves its sender in: send-blocked if and only if the
      receiver was already waiting for the message, reply-blocked if and only if the message
      has to wait in the queue. */
  lemma BlockedStateIff(s: State, m: Packet, pages: PageMap, r: nat)
    requires Shape(s) && FindByPid(s.procs, m.receiver) == Some(r)
    requires !s.procs[s.current].state.Blocked()
    requires FindByPid(s.procs, s.procs[s.current].pid) == Some(s.current)
    requires Step(s, Send(m, pages)).Next?
    ensures var st := Step(s, Send(m, pages)).s.procs[s.current].state;
      (st.SendBlocked? <==> s.procs[r].state.RecvBlocked?) && (st.ReplyBlocked? <==> s.procs[r].state.Ready?)
  {
    StepMoves(s, Send(m, pages), s.current);
  }

  /** Whatever the others do, a process that awaits a reply stays in the state it is in until
      it is ready: no event moves it from one of the two states to the other. */
  lemma StatesNeverSwap(s: State, e: Event, p: nat)
    requires Shape(s) && p < |s.procs| && p != s.current && Step(s, e).Next?
    requires s.procs[p].state.AwaitsReply()
    ensures Step(s, e).s.procs[p].state in {s.procs[p].state, Ready}
  {
    StepMoves(s, e, p);
  }

  // ----- order of service -----

  /** A server that replies to what it received before receiving again. */
  ghost predicate TakesTurns(s: State, h: History, e: Event)
    requires Shape(s) && Sized(s, h)
  {
    (e.Recv? ==> h.pending[s.current].None?) && (e.Reply? ==> h.pending[s.current].Some?)
  }

  ghost predicate TurnRun(s: State, h: History, events: seq<Event>)
    requires Shape(s) && Sized(s, h)
    decreases |events|
  {
    events == [] ||
    var before := events[..|events| - 1];
    TurnRun(s, h, before) &&
    (Run(s, before).Next? ==> TakesTurns(Run(s, before).s, Story(s, h, before), events[|events| - 1]))
  }

  function Pending(p: Option<nat>): seq<nat> {
    if p.Some? then [p.value] else []
  }

  /** What a server's receives returned is what it replied to, and at most one message more. */
  ghost predicate InTurn(h: History) {
    && |h.returned| == |h.replied| == |h.pending|
    && forall i :: 0 <= i < |h.returned| ==> h.returned[i] == h.replied[i] + Pending(h.pending[i])
  }

  lemma ReturnInTurn(h: History, r: nat, p: nat)
    requires InTurn(h) && r < |h.returned| && h.pending[r] == None
    ensures InTurn(LogReturn(h, r, p))
  {}

  lemma AnswerInTurn(h: History, r: nat, p: nat)
    requires InTurn(h) && r < |h.returned| && h.pending[r] == Some(p)
    ensures InTurn(LogReply(h, r, p))
  {}

  lemma PendingIsHead(s: State, h: History, i: nat)
    requires Served(s, h) && i < |s.procs| && h.pending[i].Some?
    ensures !s.procs[i].state.RecvBlocked? && s.procs[i].queue != []
    ensures s.procs[i].queue[0].msg.sender == h.pending[i].value
  {
    assert [h.pending[i].value] <= Unanswered(s.procs[i]);
    assert Unanswered(s.procs[i])[0] == h.pending[i].value;
  }

  lemma NothingPending(s: State, h: History, i: nat)
    requires Served(s, h) && i < |s.procs| && s.procs[i].state.RecvBlocked?
    ensures h.pending[i] == None
  {
    assert Unanswered(s.procs[i]) == [];
  }

  lemma LogInTurn(s: State, h: History, e: Event)
    requires Shape(s) && Served(s, h) && TakesTurns(s, h, e) && InTurn(h)
    ensures InTurn(Log(s, h, e))
  {
    match e
    case Send(m, pages) =>
      var r := FindByPid(s.procs, m.receiver);
      if r.Some? && s.procs[r.value].state.RecvBlocked? && s.procs[r.value].queue != [] {
        NothingPending(s, h, r.value);
        var req := RequestOf(m, pages, r.value, s.procs[r.value].queue[0].block);
        ReturnInTurn(LogAccept(h.(waits := h.waits[s.current := req]), s.current, r.value), r.value, s.current);
      }
    case Recv(_, _, _) =>
      var q := s.procs[s.current].queue;
      if q != [] { ReturnInTurn(h, s.current, q[0].msg.sender); }
    case Reply(_, _) =>
      PendingIsHead(s, h, s.current);
      AnswerInTurn(h, s.current, h.pending[s.current].value);
    case _ =>
  }

  lemma {:induction false} RunInTurn(s: State, h: History, events: seq<Event>)
    requires Inv(s, h) && PoliteRun(s, events) && TurnRun(s, h, events) && Fits(NODE_SIZE, |s.procs|)
    requires InTurn(h)
    ensures Run(s, events).Next? && InTurn(Story(s, h, events))
    decreases |events|
  {
    RunKeeps(s, h, events);
    if events != [] {
      var before := events[..|events| - 1];
      RunKeeps(s, h, before);
      RunInTurn(s, h, before);
      LogInTurn(Run(s, before).s, Story(s, h, before), events[|events| - 1]);
    }
  }

  ghost predicate InOrder(h: History, i: nat)
    requires i < |h.accepted| && i < |h.returned| && i < |h.replied|
  {
    && h.replied[i] <= h.returned[i] <= h.accepted[i]
    && |h.returned[i]| <= |h.replied[i]| + 1
  }

  lemma InOrderAt(s: State, h: History, i: nat)
    requires Served(s, h) && InTurn(h) && i < |s.procs|
    ensures InOrder(h, i)
  {
    var rest := Unanswered(s.procs[i]);
    assert h.accepted[i] == h.replied[i] + rest;
    if h.pending[i].Some? {
      assert rest == [h.pending[i].value] + rest[1..];
      assert h.accepted[i] == h.returned[i] + rest[1..];
    }
  }

  /** Servers that take turns serve every message once and in the order of arrival: the
      senders replied to are a prefix of those whose messages were returned, which are a
      prefix of those whose messages were accepted, and the last reply lags by at most one. */
  lemma ServedInOrder(s: State, h: History, events: seq<Event>, i: nat)
    requires Inv(s, h) && PoliteRun(s, events) && TurnRun(s, h, events) && Fits(NODE_SIZE, |s.procs|)
    requires InTurn(h) && i < |s.procs|
    ensures Run(s, events).Next? && InOrder(Story(s, h, events), i)
  {
    RunKeeps(s, h, events);
    RunInTurn(s, h, events);
    InOrderAt(Run(s, events).s, Story(s, h, events), i);
  }

  /** Without any discipline, replies still go out in the order of arrival. */
  lemma RepliesInOrder(s: State, h: History, events: seq<Event>, i: nat)
    requires Inv(s, h) && PoliteRun(s, events) && Fits(NODE_SIZE, |s.procs|) && i < |s.procs|
    ensures Run(s, events).Next? && Story(s, h, events).replied[i] <= Story(s, h, events).accepted[i]
  {
    RunKeeps(s, h, events);
    var s', h' := Run(s, events).s, Story(s, h, events);
    assert h'.accepted[i] == h'.replied[i] + Unanswered(s'.procs[i]);
  }

  // ----- where replies go -----

  /** A receive that finds a message tells the server the very sender that is pending from
      then on. */
  lemma ReceiveNamesPending(s: State, h: History, m: Packet, at: U32, pages: PageMap)
    requires Inv(s, h) && Polite(s, Recv(m, at, pages)) && s.procs[s.current].queue != []
    requires PhysMem.Distinct(BufferBytes(pages, at, SENDER_SIZE))
    ensures RecvBody(s, m, at, pages).Next?
    ensures var p := Log(s, h, Recv(m, at, pages)).pending[s.current];
      && p.Some? && p.value < NO_PID
      && forall i :: 0 <= i < SENDER_SIZE ==>
           ReadByte(RecvBody(s, m, at, pages).s.mem, BufferBytes(pages, at, SENDER_SIZE)[i]) == Le32(p.value)[i]
  {
    var head := s.procs[s.current].queue[0].msg;
    NodeOwned(s, h, s.current, 0);
    var mem1 := Copy(s.mem, BufferBytes(pages, m.recvBuf, m.recvLen),
                     WindowBytes(head.physSend, head.sendBuf, m.recvLen));
    StoreWrites(mem1, BufferBytes(pages, at, SENDER_SIZE), Le32(head.sender));
  }

  /** So does a send that finds the server waiting, in the packet that the server left. */
  lemma SendNamesPending(s: State, h: History, m: Packet, pages: PageMap, r: nat)
    requires Inv(s, h) && Polite(s, Send(m, pages)) && FindByPid(s.procs, m.receiver) == Some(r)
    requires s.procs[r].state.RecvBlocked? && s.procs[r].queue != []
    requires PhysMem.Distinct(WindowBytes(s.procs[r].queue[0].msg.physPacket,
                                          s.procs[r].queue[0].msg.physPacket, SENDER_SIZE))
    ensures SendTo(s, m, pages, r).Next?
    ensures Log(s, h, Send(m, pages)).pending[r] == Some(s.current)
    ensures var held := s.procs[r].queue[0].msg;
      forall i :: 0 <= i < SENDER_SIZE ==>
        ReadByte(SendTo(s, m, pages, r).s.mem, WindowBytes(held.physPacket, held.physPacket, SENDER_SIZE)[i])
        == Le32(s.current)[i]
  {
    assert QueueOk(s, h, r);
    var held := s.procs[r].queue[0].msg;
    var mem1 := Copy(s.mem, WindowBytes(held.physRecv, held.recvBuf, held.recvLen),
                     BufferBytes(pages, m.sendBuf, held.recvLen));
    StoreWrites(mem1, WindowBytes(held.physPacket, held.physPacket, SENDER_SIZE), Le32(s.current));
  }

  /** The requester p gets the bytes and becomes ready; nobody else changes state. */
  ghost predicate Answers(s: State, m: Packet, pages: PageMap, p: nat, w: Request, s': State) {
    && s'.mem == Copy(s.mem, WindowBytes(w.physRecv, w.recvBuf, w.recvLen), BufferBytes(pages, m.sendBuf, w.recvLen))
    && p < |s.procs| == |s'.procs|
    && s'.procs[p].state == Ready
    && forall i :: 0 <= i < |s.procs| && i != p ==> s'.procs[i].state == s.procs[i].state
  }

  lemma ReplyAnswers(s: State, h: History, m: Packet, pages: PageMap, p: nat)
    requires CanReply(s, h, p)
    ensures ReplyBody(s, m, pages).Next? && Answers(s, m, pages, p, h.waits[p], ReplyBody(s, m, pages).s)
  {}

  /** A reply goes to the process that the server's last receive returned: its bytes land
      where that process's own request says, and that process alone becomes ready. */
  lemma ReplyReachesRequester(s: State, h: History, m: Packet, pages: PageMap, p: nat)
    requires Inv(s, h) && Polite(s, Reply(m, pages)) && h.pending[s.current] == Some(p)
    ensures p in h.waits && h.waits[p].target == s.current
    ensures ReplyBody(s, m, pages).Next? && Answers(s, m, pages, p, h.waits[p], ReplyBody(s, m, pages).s)
  {
    PendingIsHead(s, h, s.current);
    ReplyPossible(s, h);
    ReplyAnswers(s, h, m, pages, p);
  }

  /** ipc_reply names the sender to answer, but the kernel answers the oldest message whatever
      the name: of the processes that await a reply, the one named becomes ready if and only if
      it is the oldest sender. */
  lemma NamedSenderReadyIff(s: State, h: History, m: Packet, pages: PageMap)
    requires Inv(s, h) && Polite(s, Reply(m, pages)) && m.sender in h.waits
    requires s.procs[s.current].queue != []
    ensures ReplyBody(s, m, pages).Next? && m.sender < |ReplyBody(s, m, pages).s.procs|
    ensures ReplyBody(s, m, pages).s.procs[m.sender].state.Ready?
            <==> s.procs[s.current].queue[0].msg.sender == m.sender
  {
    ReplyPossible(s, h);
    ReplyAnswers(s, h, m, pages, s.procs[s.current].queue[0].msg.sender);
  }

  lemma CallCopies(s: State, e: Event)
    requires Shape(s) && (e.Recv? || e.Reply?)
    ensures Step(s, e).Next? <==> Body(s, e).Next?
    ensures Step(s, e).Next? ==> Step(s, e).s.mem == Body(s, e).s.mem
  {
    var off := s.(enabled := false);
    match e
    case Recv(m, at, pages) =>
      assert RecvBody(s, m, at, pages).Next? <==> RecvBody(off, m, at, pages).Next?;
      assert RecvBody(s, m, at, pages).Next? ==>
          RecvBody(s, m, at, pages).s.mem == RecvBody(off, m, at, pages).s.mem;
    case Reply(m, pages) =>
      assert ReplyBody(s, m, pages).Next? <==> ReplyBody(off, m, pages).Next?;
      assert ReplyBody(s, m, pages).Next? ==> ReplyBody(s, m, pages).s.mem == ReplyBody(off, m, pages).s.mem;
  }

  /** In bytes: if the requester's buffer is contiguous and apart from the server's, it ends
      up holding the server's bytes, and no other byte of memory changes. */
  lemma ReplyBytes(s: State, h: History, m: Packet, pages: PageMap, p: nat, own: PageMap)
    requires Inv(s, h) && Polite(s, Reply(m, pages)) && h.pending[s.current] == Some(p)
    requires p in h.waits && h.waits[p].physRecv == Translate(own, h.waits[p].recvBuf)
    requires Contiguous(own, h.waits[p].recvBuf, h.waits[p].recvLen)
    requires var w := h.waits[p];
      var dst, src := BufferBytes(own, w.recvBuf, w.recvLen), BufferBytes(pages, m.sendBuf, w.recvLen);
      Distinct(dst) && forall a :: a in dst ==> a !in src
    ensures Step(s, Reply(m, pages)).Next?
    ensures var w, mem' := h.waits[p], Step(s, Reply(m, pages)).s.mem;
      var dst := BufferBytes(own, w.recvBuf, w.recvLen);
      && (forall i :: 0 <= i < w.recvLen ==>
            ReadByte(mem', dst[i]) == ReadByte(s.mem, BufferBytes(pages, m.sendBuf, w.recvLen)[i]))
      && (forall a :: a !in dst ==> ReadByte(mem', a) == ReadByte(s.mem, a))
  {
    ReplyReachesRequester(s, h, m, pages, p);
    CallCopies(s, Reply(m, pages));
    var w := h.waits[p];
    ContiguousShows(own, w.recvBuf, w.recvLen);
    CopyMoves(s.mem, BufferBytes(own, w.recvBuf, w.recvLen), BufferBytes(pages, m.sendBuf, w.recvLen));
  }

  lemma HeadStands(s: State, h: History)
    requires Inv(s, h) && s.procs[s.current].queue != []
    ensures var node := s.procs[s.current].queue[0];
      StandsFor(h, s.current, node) && node.msg.sender < |s.procs|
  {
    assert QueueOk(s, h, s.current);
    NodeOwned(s, h, s.current, 0);
  }

  lemma ReceiveReads(s: State, m: Packet, at: U32, pages: PageMap, p: U32, w: Request)
    requires Shape(s) && s.procs[s.current].queue != []
    requires var head := s.procs[s.current].queue[0].msg;
      && head.sender == p && head.sendBuf == w.sendBuf && head.sendLen == w.sendLen && head.physSend == w.physSend
      && WindowCovers(head.sendLen, head.sendBuf, m.recvLen)
    ensures RecvBody(s, m, at, pages).Next?
    ensures RecvBody(s, m, at, pages).s.mem
         == Store(Copy(s.mem, BufferBytes(pages, m.recvBuf, m.recvLen), WindowBytes(w.physSend, w.sendBuf, m.recvLen)),
                  BufferBytes(pages, at, SENDER_SIZE), Le32(p))
  {}

  /** The message that a receive copies is that of the process which is pending from then on:
      it comes from the buffer that process's own request names. */
  lemma ReceiveCopies(s: State, h: History, m: Packet, at: U32, pages: PageMap)
    requires Inv(s, h) && Polite(s, Recv(m, at, pages)) && s.procs[s.current].queue != []
    ensures RecvBody(s, m, at, pages).Next?
    ensures var p := s.procs[s.current].queue[0].msg.sender;
      && Log(s, h, Recv(m, at, pages)).pending[s.current] == Some(p)
      && p in h.waits && h.waits[p].target == s.current
      && RecvBody(s, m, at, pages).s.mem
         == Store(Copy(s.mem, BufferBytes(pages, m.recvBuf, m.recvLen),
                       WindowBytes(h.waits[p].physSend, h.waits[p].sendBuf, m.recvLen)),
                  BufferBytes(pages, at, SENDER_SIZE), Le32(p))
  {
    HeadStands(s, h);
    var p := s.procs[s.current].queue[0].msg.sender;
    ReceiveReads(s, m, at, pages, p, h.waits[p]);
  }

  /** In bytes: if that buffer is contiguous, and the server's own buffer and packet are apart from
      it and from each other, the server's buffer ends up holding the requester's bytes, its
      packet the requester's pid, and no other byte of memory changes. */
  lemma ReceiveBytes(s: State, h: History, m: Packet, at: U32, pages: PageMap, p: nat, own: PageMap)
    requires Inv(s, h) && Polite(s, Recv(m, at, pages)) && s.procs[s.current].queue != []
    requires Log(s, h, Recv(m, at, pages)).pending[s.current] == Some(p)
    requires p in h.waits && h.waits[p].physSend == Translate(own, h.waits[p].sendBuf)
    requires Contiguous(own, h.waits[p].sendBuf, m.recvLen)
    requires var dst, src := BufferBytes(pages, m.recvBuf, m.recvLen), BufferBytes(own, h.waits[p].sendBuf, m.recvLen);
      var word := BufferBytes(pages, at, SENDER_SIZE);
      && Distinct(dst) && Distinct(word) && forall a :: a in dst ==> a !in src && a !in word
    ensures Step(s, Recv(m, at, pages)).Next? && p < NO_PID
    ensures var mem' := Step(s, Recv(m, at, pages)).s.mem;
      var dst, src := BufferBytes(pages, m.recvBuf, m.recvLen), BufferBytes(own, h.waits[p].sendBuf, m.recvLen);
      var word := BufferBytes(pages, at, SENDER_SIZE);
      && (forall i :: 0 <= i < m.recvLen ==> ReadByte(mem', dst[i]) == ReadByte(s.mem, src[i]))
      && (forall i :: 0 <= i < SENDER_SIZE ==> ReadByte(mem', word[i]) == Le32(p)[i])
      && (forall a :: a !in dst && a !in word ==> ReadByte(mem', a) == ReadByte(s.mem, a))
  {
    ReceiveCopies(s, h, m, at, pages);
    CallCopies(s, Recv(m, at, pages));
    var dst, src := BufferBytes(pages, m.recvBuf, m.recvLen), BufferBytes(own, h.waits[p].sendBuf, m.recvLen);
    var word := BufferBytes(pages, at, SENDER_SIZE);
    ContiguousShows(own, h.waits[p].sendBuf, m.recvLen);
    CopyMoves(s.mem, dst, src);
    StoreWrites(Copy(s.mem, dst, src), word, Le32(p));
    forall i | 0 <= i < m.recvLen ensures dst[i] !in word { assert dst[i] in dst; }
  }
}
