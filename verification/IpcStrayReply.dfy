// A run from boot in which a reply wakes a process that waits for a message, and that process
// then replies to one that never asked.
module IpcStrayReply {
  import opened Common
  import opened ProcTable
  import opened PhysMem
  import opened HeapSpec
  import opened Scheduler
  import opened Ipc
  import opened IpcBoot
  import opened IpcInvariant
  import opened IpcCases

  /** The kernel's process, the idle one and one more: entries, heap and scheduler, and the books
      of the first. */
  ghost predicate Scene(s: State, h: History, n: nat, p0: Proc, p2: Proc, u: Usage, current: nat, cursor: nat,
                        accepted: seq<nat>, replied: seq<nat>) {
    && 3 <= n < NO_PID && |s.procs| == n && s.idle == 1 && s.enabled && Sized(s, h)
    && s.procs[0] == p0 && s.procs[1] == Proc(1, Ready, []) && s.procs[2] == p2
    && (forall i :: 3 <= i < n ==> s.procs[i] == Proc(NO_PID, Unused, []))
    && s.heap == u && s.current == current && s.cursor == cursor <= n
    && h.accepted[0] == accepted && h.replied[0] == replied
  }

  lemma Found(s: State, n: nat, pid: U32)
    requires 3 <= n < NO_PID && |s.procs| == n && pid < 3
    requires s.procs[0].pid == 0 && s.procs[1].pid == 1 && s.procs[2].pid == 2
    ensures FindByPid(s.procs, pid) == Some(pid)
  {
    assert s.procs[pid].pid == pid;
  }

  /** Rescheduling, when the current process is ready or blocked already. */
  lemma Passes(s: State, n: nat, i: nat)
    requires 3 <= n < NO_PID && |s.procs| == n && s.current < 3 && s.idle == 1 && s.cursor <= n && s.enabled
    requires s.procs[0].pid == 0 && s.procs[1].pid == 1 && s.procs[2].pid == 2
    requires s.procs[s.current].state.Ready? || s.procs[s.current].state.Blocked()
    requires FindNext(s.procs, 1, Ready, s.cursor) == (Some(i), i + 1)
    ensures Schedule(s) == s.(current := i, cursor := i + 1)
  {
    Found(s, n, s.procs[s.current].pid);
    if s.procs[s.current].state.Ready? {
      assert s.procs[s.current := s.procs[s.current].(state := Ready)] == s.procs;
    }
  }

  lemma FirstAsks(s: State, h: History, n: nat, m: Packet, pages: PageMap)
    requires Scene(s, h, n, Proc(0, Ready, []), Proc(2, Running, []), [], 2, 3, [], []) && m.receiver == 0
    ensures var e := Send(m, pages);
      && Step(s, e).Next?
      && Scene(Step(s, e).s, Log(s, h, e), n, Proc(0, Ready, [Node(0, Stamped(m, 2, pages))]),
               Proc(2, ReplyBlocked, []), [true], 0, 1, [2], [])
  {
    BlockAtIsLinear(NODE_SIZE, 1);
    var off := s.(enabled := false);
    Found(off, n, 0);
    var mid := SendTo(off, m, pages, 0).s.(enabled := true);
    OnlyOne(mid.procs, mid.cursor, 0);
    Passes(mid, n, 0);
  }

  lemma AsksBack(s: State, h: History, n: nat, first: Node, m: Packet, pages: PageMap)
    requires Scene(s, h, n, Proc(0, Ready, [first]), Proc(2, ReplyBlocked, []), [true], 0, 1, [2], [])
    requires m.receiver == 2
    ensures var e := Send(m, pages);
      && Step(s, e).Next?
      && Scene(Step(s, e).s, Log(s, h, e), n, Proc(0, Ready, [first]),
               Proc(2, ReplyBlocked, [Node(1, Stamped(m, 0, pages))]), [true, true], 0, 1, [2], [])
  {
    BlockAtIsLinear(NODE_SIZE, 2);
    assert FirstFree(s.heap[1..]) == 0;
    assert FirstFree(s.heap) == 1;
    var off := s.(enabled := false);
    Found(off, n, 2);
    var mid := SendTo(off, m, pages, 2).s.(enabled := true);
    OnlyOne(mid.procs, mid.cursor, 0);
    Passes(mid, n, 0);
  }

  /** The kernel's process replies to the head of its queue. */
  lemma FirstReply(s: State, h: History, n: nat, first: Node, back: Node, m: Packet, pages: PageMap)
    requires Scene(s, h, n, Proc(0, Ready, [first]), Proc(2, ReplyBlocked, [back]), [true, true], 0, 1, [2], [])
    requires first.msg.sender == 2 && first.block == 0
    requires WindowCovers(first.msg.recvLen, first.msg.recvBuf, first.msg.recvLen)
    ensures var e := Reply(m, pages);
      && Step(s, e).Next?
      && Scene(Step(s, e).s, Log(s, h, e), n, Proc(0, Ready, []), Proc(2, Ready, [back]), [false, true], 2, 3, [2], [2])
  {
    var off := s.(enabled := false);
    Found(off, n, 2);
    var mid := ReplyBody(off, m, pages).s.(enabled := true);
    SlotTwoIsNext(mid.procs);
    Passes(mid, n, 2);
  }

  lemma Ticks(s: State, h: History, n: nat, back: Node)
    requires Scene(s, h, n, Proc(0, Ready, []), Proc(2, Ready, [back]), [false, true], 2, 3, [2], [2])
    ensures Step(s, Tick).Next?
    ensures Scene(Step(s, Tick).s, Log(s, h, Tick), n, Proc(0, Ready, []), Proc(2, Ready, [back]), [false, true],
                  0, 1, [2], [2])
  {
    KernelIsNext(s.procs, 3);
    Passes(s, n, 0);
  }

  lemma Waits(s: State, h: History, n: nat, back: Node, m: Packet, at: U32, pages: PageMap)
    requires Scene(s, h, n, Proc(0, Ready, []), Proc(2, Ready, [back]), [false, true], 0, 1, [2], [2])
    ensures var e := Recv(m, at, pages);
      var held := m.(physRecv := Translate(pages, m.recvBuf), physPacket := Translate(pages, at));
      && Step(s, e).Next?
      && Scene(Step(s, e).s, Log(s, h, e), n, Proc(0, RecvBlocked, [Node(0, held)]), Proc(2, Ready, [back]),
               [true, true], 2, 3, [2], [2])
  {
    assert FirstFree(s.heap) == 0;
    var mid := RecvBody(s.(enabled := false), m, at, pages).s.(enabled := true);
    OnlyOne(mid.procs, mid.cursor, 2);
    Passes(mid, n, 2);
  }

  /** The other one replies, to a process that waits for a message. */
  lemma Wakes(s: State, h: History, n: nat, held: Node, back: Node, m: Packet, pages: PageMap)
    requires Scene(s, h, n, Proc(0, RecvBlocked, [held]), Proc(2, Ready, [back]), [true, true], 2, 3, [2], [2])
    requires back.msg.sender == 0 && back.block == 1
    requires WindowCovers(back.msg.recvLen, back.msg.recvBuf, back.msg.recvLen)
    ensures var e := Reply(m, pages);
      && Step(s, e).Next?
      && Scene(Step(s, e).s, Log(s, h, e), n, Proc(0, Ready, [held]), Proc(2, Ready, []), [true, false], 0, 1, [2], [2])
  {
    var off := s.(enabled := false);
    Found(off, n, 0);
    var mid := ReplyBody(off, m, pages).s.(enabled := true);
    KernelIsNext(mid.procs, 3);
    Passes(mid, n, 0);
  }

  /** And that process replies to whatever its own placeholder names. */
  lemma Strays(s: State, h: History, n: nat, held: Node, m: Packet, pages: PageMap)
    requires Scene(s, h, n, Proc(0, Ready, [held]), Proc(2, Ready, []), [true, false], 0, 1, [2], [2])
    requires held.msg.sender < 3 && held.block == 0
    requires WindowCovers(held.msg.recvLen, held.msg.recvBuf, held.msg.recvLen)
    ensures var e := Reply(m, pages);
      Step(s, e).Next? && Log(s, h, e).accepted[0] == [2] && Log(s, h, e).replied[0] == [2, held.msg.sender]
  {
    Found(s.(enabled := false), n, held.msg.sender);
  }

  lemma Onwards(s: State, h: History, before: seq<Event>, e: Event)
    requires Shape(s) && Sized(s, h) && Run(s, before).Next?
    ensures Run(s, before + [e]) == Step(Run(s, before).s, e)
    ensures Run(s, before + [e]).Next? ==> Story(s, h, before + [e]) == Log(Run(s, before).s, Story(s, h, before), e)
  {
    assert (before + [e])[..|before|] == before;
  }

  /** A scene after a run. */
  ghost predicate SceneAfter(s: State, h: History, events: seq<Event>, n: nat, p0: Proc, p2: Proc, u: Usage,
                             current: nat, cursor: nat, replied: seq<nat>)
    requires Shape(s) && Sized(s, h)
  {
    && Run(s, events).Next?
    && Scene(Run(s, events).s, Story(s, h, events), n, p0, p2, u, current, cursor, [2], replied)
  }

  lemma UpToTheReply(s: State, h: History, n: nat, m: Packet, p: PageMap, m': Packet, p': PageMap, answer: Packet)
    requires Shape(s) && Scene(s, h, n, Proc(0, Ready, []), Proc(2, Running, []), [], 2, 3, [], [])
    requires m.receiver == 0 && m'.receiver == 2 && WindowCovers(m.recvLen, m.recvBuf, m.recvLen)
    ensures SceneAfter(s, h, [Send(m, p), Send(m', p'), Reply(answer, p')], n, Proc(0, Ready, []),
                       Proc(2, Ready, [Node(1, Stamped(m', 0, p'))]), [false, true], 2, 3, [2])
  {
    var first, back := Node(0, Stamped(m, 2, p)), Node(1, Stamped(m', 0, p'));
    var e1, e2, e3 := Send(m, p), Send(m', p'), Reply(answer, p');
    FirstAsks(s, h, n, m, p);
    Onwards(s, h, [], e1);
    assert [] + [e1] == [e1];
    AsksBack(Run(s, [e1]).s, Story(s, h, [e1]), n, first, m', p');
    Onwards(s, h, [e1], e2);
    assert [e1] + [e2] == [e1, e2];
    FirstReply(Run(s, [e1, e2]).s, Story(s, h, [e1, e2]), n, first, back, answer, p');
    Onwards(s, h, [e1, e2], e3);
    assert [e1, e2] + [e3] == [e1, e2, e3];
  }

  lemma UpToTheWait(s: State, h: History, before: seq<Event>, n: nat, back: Node, m: Packet, at: U32, pages: PageMap)
    requires Shape(s) && Sized(s, h)
    requires SceneAfter(s, h, before, n, Proc(0, Ready, []), Proc(2, Ready, [back]), [false, true], 2, 3, [2])
    ensures var held := m.(physRecv := Translate(pages, m.recvBuf), physPacket := Translate(pages, at));
      SceneAfter(s, h, before + [Tick] + [Recv(m, at, pages)], n, Proc(0, RecvBlocked, [Node(0, held)]),
                 Proc(2, Ready, [back]), [true, true], 2, 3, [2])
  {
    Ticks(Run(s, before).s, Story(s, h, before), n, back);
    Onwards(s, h, before, Tick);
    var later := before + [Tick];
    Waits(Run(s, later).s, Story(s, h, later), n, back, m, at, pages);
    Onwards(s, h, later, Recv(m, at, pages));
  }

  lemma UpToTheStray(s: State, h: History, before: seq<Event>, n: nat, held: Node, back: Node, m: Packet,
                     p: PageMap, p': PageMap)
    requires Shape(s) && Sized(s, h)
    requires SceneAfter(s, h, before, n, Proc(0, RecvBlocked, [held]), Proc(2, Ready, [back]), [true, true], 2, 3, [2])
    requires held.msg.sender < 3 && held.block == 0
    requires WindowCovers(held.msg.recvLen, held.msg.recvBuf, held.msg.recvLen)
    requires back.msg.sender == 0 && back.block == 1
    requires WindowCovers(back.msg.recvLen, back.msg.recvBuf, back.msg.recvLen)
    ensures var events := before + [Reply(m, p)] + [Reply(m, p')];
      && Run(s, events).Next? && Story(s, h, events).accepted[0] == [2]
      && Story(s, h, events).replied[0] == [2, held.msg.sender]
  {
    Wakes(Run(s, before).s, Story(s, h, before), n, held, back, m, p);
    Onwards(s, h, before, Reply(m, p));
    var later := before + [Reply(m, p)];
    Strays(Run(s, later).s, Story(s, h, later), n, held, m, p');
    Onwards(s, h, later, Reply(m, p'));
  }

  lemma WholeRun(s: State, h: History, n: nat, m: Packet, p: PageMap, m': Packet, p': PageMap, wanted: Packet,
                 at: U32, answer: Packet)
    requires Booted(s, n, 3) && h == Fresh(n)
    requires m.receiver == 0 && m'.receiver == 2 && wanted.sender < 3
    requires WindowCovers(m.recvLen, m.recvBuf, m.recvLen) && WindowCovers(m'.recvLen, m'.recvBuf, m'.recvLen)
    requires WindowCovers(wanted.recvLen, wanted.recvBuf, wanted.recvLen)
    ensures Shape(s) && Sized(s, h)
    ensures var events := [Send(m, p), Send(m', p'), Reply(answer, p')] + [Tick] + [Recv(wanted, at, p')]
                          + [Reply(answer, p)] + [Reply(answer, p')];
      && Run(s, events).Next? && Story(s, h, events).accepted[0] == [2]
      && Story(s, h, events).replied[0] == [2, wanted.sender]
  {
    var held := wanted.(physRecv := Translate(p', wanted.recvBuf), physPacket := Translate(p', at));
    UpToTheReply(s, h, n, m, p, m', p', answer);
    var three := [Send(m, p), Send(m', p'), Reply(answer, p')];
    UpToTheWait(s, h, three, n, Node(1, Stamped(m', 0, p')), wanted, at, p');
    var five := three + [Tick] + [Recv(wanted, at, p')];
    UpToTheStray(s, h, five, n, Node(0, held), Node(1, Stamped(m', 0, p')), answer, p, p');
  }

  lemma InARow(three: seq<Event>, e4: Event, e5: Event, e6: Event, e7: Event)
    requires |three| == 3
    ensures three + [e4] + [e5] + [e6] + [e7] == [three[0], three[1], three[2], e4, e5, e6, e7]
  {
    assert three == [three[0], three[1], three[2]];
  }

  /** From boot, with one process beyond the kernel's own: it sends to the kernel's process, which
      sends back and so is not blocked, replies, and waits for a message. The reply to its own
      message wakes it instead. It has no message, but replies: to the process whose pid is in the
      packet that it passed to its receive. */
  lemma ReplyWithoutRequest(n: nat, mem: Memory, m: Packet, p: PageMap, m': Packet, p': PageMap, wanted: Packet,
                            at: U32, answer: Packet)
    requires 3 <= n < NO_PID && m.receiver == 0 && m'.receiver == 2 && wanted.sender < 3
    requires WindowCovers(m.recvLen, m.recvBuf, m.recvLen) && WindowCovers(m'.recvLen, m'.recvBuf, m'.recvLen)
    requires WindowCovers(wanted.recvLen, wanted.recvBuf, wanted.recvLen)
    ensures Created(n, 3, mem).Next? && Created(n, 3, mem).s.current < n
    ensures var s := Kickoff(Created(n, 3, mem).s);
      var events := [Send(m, p), Send(m', p'), Reply(answer, p'), Tick, Recv(wanted, at, p'), Reply(answer, p),
                     Reply(answer, p')];
      && Shape(s) && Sized(s, Fresh(n)) && Run(s, events).Next?
      && Story(s, Fresh(n), events).accepted[0] == [2]
      && Story(s, Fresh(n), events).replied[0] == [2, wanted.sender]
  {
    KickoffBoots(n, 3, mem);
    WholeRun(Kickoff(Created(n, 3, mem).s), Fresh(n), n, m, p, m', p', wanted, at, answer);
    InARow([Send(m, p), Send(m', p'), Reply(answer, p')], Tick, Recv(wanted, at, p'), Reply(answer, p),
           Reply(answer, p'));
  }
}
