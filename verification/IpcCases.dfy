// Runs from boot in which the system calls do what their documentation rules out.
module IpcCases {
  import opened Common
  import opened ProcTable
  import opened PhysMem
  import opened HeapSpec
  import opened Scheduler
  import opened Ipc
  import opened IpcBoot
  import opened IpcWaits
  import IpcFairness
  import IpcRendezvous

  /** The machine when the last of k processes starts to run. */
  ghost predicate Booted(s: State, n: nat, k: nat) {
    && 3 <= k <= n < NO_PID && |s.procs| == n
    && s.current == k - 1 && s.idle == 1 && s.cursor == k && s.heap == [] && s.enabled
    && forall i :: 0 <= i < n ==>
         s.procs[i] == if i == k - 1 then Proc(i, Running, [])
                       else if i < k then Proc(i, Ready, []) else Proc(NO_PID, Unused, [])
  }

  lemma KickoffBoots(n: nat, k: nat, mem: Memory)
    requires 3 <= k <= n < NO_PID
    ensures Created(n, k, mem).Next? && Created(n, k, mem).s.current < n
    ensures Booted(Kickoff(Created(n, k, mem).s), n, k)
  {
    CreatedTable(n, k, mem);
  }

  /** From slot k on, the first ready process is the kernel's in slot 0; after that, the search
      passes over the idle process and finds slot 2. */
  lemma KernelIsNext(procs: seq<Proc>, k: nat)
    requires 3 <= k <= |procs| && procs[0].state.Ready?
    requires forall i :: k <= i < |procs| ==> procs[i].state.Unused?
    ensures FindNext(procs, 1, Ready, k) == (Some(0), 1)
  {
    var r := FindNext(procs, 1, Ready, k);
    assert Eligible(procs, 1, Ready, 0);
    assert Distance(|procs|, Wrap(k, |procs|), r.0.value) <= Distance(|procs|, Wrap(k, |procs|), 0);
  }

  lemma SlotTwoIsNext(procs: seq<Proc>)
    requires 3 <= |procs| && procs[2].state.Ready?
    ensures FindNext(procs, 1, Ready, 1) == (Some(2), 3)
  {
    var r := FindNext(procs, 1, Ready, 1);
    assert Eligible(procs, 1, Ready, 2);
    assert Distance(|procs|, 1, r.0.value) <= Distance(|procs|, 1, 2);
  }

  /** After the first send: the process that ran awaits the reply of slot 2, and the kernel's
      process runs. */
  ghost predicate FirstSent(s: State, s1: State, k: nat) {
    && 4 <= k <= |s.procs| && |s1.procs| == |s.procs|
    && s1.current == 0 && s1.idle == 1 && s1.cursor == 1 && s1.heap == [true] && s1.enabled
    && s1.procs[2].pid == 2 && s1.procs[2].state == Ready && |s1.procs[2].queue| == 1 && s1.mem == s.mem
    && s1.procs[k - 1] == s.procs[k - 1].(state := ReplyBlocked)
    && forall i :: 0 <= i < |s.procs| && i != 2 && i != k - 1 ==> s1.procs[i] == s.procs[i]
  }

  lemma FirstSend(s: State, n: nat, k: nat, m: Packet, pages: PageMap)
    requires Booted(s, n, k) && 4 <= k && m.receiver == 2
    ensures Step(s, Send(m, pages)).Next? && FirstSent(s, Step(s, Send(m, pages)).s, k)
    ensures Step(s, Send(m, pages)).s.procs[2].queue == [Node(0, Stamped(m, k - 1, pages))]
  {
    var off := s.(enabled := false);
    assert FindByPid(off.procs, 2) == Some(2) by { assert off.procs[2].pid == 2; }
    MessageOut(s, n, k, m, pages);
    KernelRuns(s, n, k, SendTo(off, m, pages, 2).s.(enabled := true));
  }

  /** Before the rescheduling, and after it. */
  lemma MessageOut(s: State, n: nat, k: nat, m: Packet, pages: PageMap)
    requires Booted(s, n, k) && 4 <= k
    ensures var mid := SendTo(s.(enabled := false), m, pages, 2);
      && mid.Next? && mid.s.current == k - 1 && mid.s.cursor == k
      && FirstSent(s, mid.s.(current := 0, cursor := 1, enabled := true), k)
      && mid.s.procs[2].queue == [Node(0, Stamped(m, k - 1, pages))]
  {
    BlockAtIsLinear(NODE_SIZE, 1);
  }

  lemma KernelRuns(s: State, n: nat, k: nat, mid: State)
    requires Booted(s, n, k) && mid.current == k - 1 && mid.cursor == k && mid.enabled
    requires FirstSent(s, mid.(current := 0, cursor := 1), k)
    ensures Schedule(mid) == mid.(current := 0, cursor := 1)
  {
    assert forall i :: 0 <= i < n ==> mid.procs[i].pid == s.procs[i].pid;
    assert FindByPid(mid.procs, mid.procs[k - 1].pid) == Some(k - 1);
    KernelIsNext(mid.procs, k);
  }

  /** A tick then gives the processor to slot 2. */
  lemma TickAfter(s: State, n: nat, k: nat, s1: State)
    requires Booted(s, n, k) && FirstSent(s, s1, k)
    ensures Step(s1, Tick) == Next(s1.(current := 2, cursor := 3))
  {
    assert s1.procs[0].pid == 0;
    assert FindByPid(s1.procs, s1.procs[0].pid) == Some(0);
    assert s1.procs[0 := s1.procs[0].(state := Ready)] == s1.procs;
    SlotTwoIsNext(s1.procs);
  }

  /** Slot 2 sends to the process that awaits its reply. The message is queued, but its sender
      is ready to run on, although it is to be blocked until the reply. */
  ghost predicate SentBack(s: State, s3: State, k: nat) {
    && |s3.procs| == |s.procs| && 4 <= k <= |s.procs|
    && s3.procs[2].state == Ready && s3.procs[k - 1].state == ReplyBlocked
    && |s3.procs[k - 1].queue| == 1 && s3.procs[k - 1].queue[0].msg.sender == 2
    && forall i :: 0 <= i < |s.procs| ==> s3.procs[i].pid == s.procs[i].pid
  }

  lemma SendBack(s: State, n: nat, k: nat, s2: State, m: Packet, pages: PageMap)
    requires Booted(s, n, k) && FirstSent(s, s2.(current := 0, cursor := 1, enabled := true), k) && s2.current == 2
    requires s2.cursor <= n
    ensures SendTo(s2, m, pages, k - 1).Next? && SentBack(s, SendTo(s2, m, pages, k - 1).s, k)
    ensures SendTo(s2, m, pages, k - 1).s.current == 2
  {
    BlockAtIsLinear(NODE_SIZE, 2);
    assert FirstFree(s2.heap[1..]) == 0;
    assert FirstFree(s2.heap) == 1;
  }

  lemma SecondSend(s: State, n: nat, k: nat, s2: State, m: Packet, pages: PageMap)
    requires Booted(s, n, k) && FirstSent(s, s2.(current := 0, cursor := 1), k) && s2.current == 2
    requires s2.cursor <= n && m.receiver == k - 1
    ensures Step(s2, Send(m, pages)).Next? && SentBack(s, Step(s2, Send(m, pages)).s, k)
  {
    var off := s2.(enabled := false);
    assert FindByPid(off.procs, k - 1) == Some(k - 1) by {
      assert forall i :: 0 <= i < n ==> off.procs[i].pid == s.procs[i].pid;
      assert off.procs[k - 1].pid == k - 1;
    }
    SendBack(s, n, k, off, m, pages);
    RunsOn(s, n, k, SendTo(off, m, pages, k - 1).s.(enabled := true));
  }

  /** Rescheduling changes no state then. */
  lemma RunsOn(s: State, n: nat, k: nat, s3: State)
    requires Booted(s, n, k) && SentBack(s, s3, k) && Shape(s3) && s3.current == 2
    ensures Schedule(s3).procs == s3.procs
  {
    assert FindByPid(s3.procs, s3.procs[2].pid) == Some(2) by { assert s3.procs[2].pid == 2; }
    assert s3.procs[2 := s3.procs[2].(state := Ready)] == s3.procs;
  }

  /** From boot, for any number of slots and any processes beyond the kernel's own: the first
      process to run sends to another one, which sends back before it replies. Its message
      waits in the queue, and it is not blocked. */
  lemma SenderRunsOn(n: nat, k: nat, mem: Memory, m1: Packet, m2: Packet, pages1: PageMap, pages2: PageMap)
    requires 4 <= k <= n < NO_PID && m1.receiver == 2 && m2.receiver == k - 1
    ensures Created(n, k, mem).Next? && Created(n, k, mem).s.current < n
    ensures Shape(Kickoff(Created(n, k, mem).s))
    ensures var s := Kickoff(Created(n, k, mem).s);
      var o := Run(s, [Send(m1, pages1), Tick, Send(m2, pages2)]);
      && o.Next? && |o.s.procs| == n
      && o.s.procs[2].state == Ready && o.s.procs[k - 1].state == ReplyBlocked
      && |o.s.procs[k - 1].queue| == 1 && o.s.procs[k - 1].queue[0].msg.sender == 2
  {
    KickoffBoots(n, k, mem);
    var s := Kickoff(Created(n, k, mem).s);
    FirstSend(s, n, k, m1, pages1);
    var s1 := Step(s, Send(m1, pages1)).s;
    TickAfter(s, n, k, s1);
    SecondSend(s, n, k, Step(s1, Tick).s, m2, pages2);
    TwoEvents(s, Send(m1, pages1), Tick);
    var events := [Send(m1, pages1), Tick, Send(m2, pages2)];
    assert events[..2] == [Send(m1, pages1), Tick];
  }

  lemma TwoEvents(s: State, e1: Event, e2: Event)
    requires Shape(s) && Step(s, e1).Next?
    ensures Run(s, [e1, e2]) == Step(Step(s, e1).s, e2)
  {
    assert [e1, e2][..1] == [e1] && [e1][..0] == [];
    assert Run(s, [e1][..0]) == Next(s);
    assert Run(s, [e1]) == Step(s, e1);
  }

  lemma OneMoreEvent(s: State, before: seq<Event>, e: Event)
    requires Shape(s) && Run(s, before).Next?
    ensures Run(s, before + [e]) == Step(Run(s, before).s, e)
  {
    assert (before + [e])[..|before|] == before;
  }

  /** A run that ends with a process blocking on itself. */
  lemma EndsInACircle(s: State, before: seq<Event>, e: Event)
    requires Shape(s) && Run(s, before).Next? && SelfBlocks(Run(s, before).s, e)
    ensures !NoSelfBlocks(s, before + [e])
  {
    assert (before + [e])[..|before|] == before;
  }

  lemma SelfSendBlocks(s: State, m: Packet, pages: PageMap)
    requires Shape(s) && s.heap == [] && FindByPid(s.procs, m.receiver) == Some(s.current)
    requires s.procs[s.current].state.Ready? && s.procs[s.current].pid != NO_PID
    ensures Step(s, Send(m, pages)).Next? && SelfBlocks(s, Send(m, pages))
  {
    BlockAtIsLinear(NODE_SIZE, 1);
    assert SendTo(s.(enabled := false), m, pages, s.current).Next?;
  }

  lemma NobodyWaits(s: State, n: nat, k: nat)
    requires Booted(s, n, k)
    ensures Shape(s) && forall p :: 0 <= p < n ==> !s.procs[p].state.AwaitsReply()
  {}

  /** From boot, for any number of slots and processes: after two ticks, slot 2 sends to itself,
      and waits for itself. */
  lemma ProcessWaitsForItself(n: nat, k: nat, mem: Memory, m: Packet, pages: PageMap)
    requires 3 <= k <= n < NO_PID && m.receiver == 2
    ensures Created(n, k, mem).Next? && Created(n, k, mem).s.current < n
    ensures Shape(Kickoff(Created(n, k, mem).s))
    ensures var s := Kickoff(Created(n, k, mem).s);
      Run(s, [Tick, Tick, Send(m, pages)]).Next? && !NeverCircular(s, [Tick, Tick, Send(m, pages)])
  {
    KickoffBoots(n, k, mem);
    TicksThenSelfSend(Kickoff(Created(n, k, mem).s), n, k, m, pages);
  }

  lemma TicksThenSelfSend(s: State, n: nat, k: nat, m: Packet, pages: PageMap)
    requires Booted(s, n, k) && m.receiver == 2
    ensures Run(s, [Tick, Tick, Send(m, pages)]).Next? && !NeverCircular(s, [Tick, Tick, Send(m, pages)])
  {
    NobodyWaits(s, n, k);
    SecondTick(s, n, k);
    var before, e := [Tick, Tick], Send(m, pages);
    var t := Run(s, before).s;
    assert FindByPid(t.procs, 2) == Some(2) by { assert t.procs[2].pid == 2; }
    SelfSendBlocks(t, m, pages);
    OneMoreEvent(s, before, e);
    EndsInACircle(s, before, e);
    assert before + [e] == [Tick, Tick, e];
    NoCircularWait(s, before + [e]);
  }

  /** Two ticks after boot, slot 2 runs. */
  lemma SecondTick(s: State, n: nat, k: nat)
    requires Booted(s, n, k)
    ensures Shape(s) && Run(s, [Tick, Tick]).Next?
    ensures var t := Run(s, [Tick, Tick]).s;
      && t.current == 2 && t.heap == [] && t.procs[2].state == Ready
      && forall i :: 0 <= i < n ==> t.procs[i].pid == s.procs[i].pid
  {
    FirstTick(s, n, k);
    var s1 := Step(s, Tick).s;
    assert FindByPid(s1.procs, s1.procs[0].pid) == Some(0);
    SlotTwoIsNext(s1.procs[0 := s1.procs[0].(state := Ready)]);
    TwoEvents(s, Tick, Tick);
  }

  lemma FirstTick(s: State, n: nat, k: nat)
    requires Booted(s, n, k)
    ensures Step(s, Tick).Next?
    ensures var s1 := Step(s, Tick).s;
      s1 == s.(procs := s.procs[k - 1 := s.procs[k - 1].(state := Ready)], current := 0, cursor := 1)
  {
    assert FindByPid(s.procs, s.procs[k - 1].pid) == Some(k - 1);
    KernelIsNext(s.procs[k - 1 := s.procs[k - 1].(state := Ready)], k);
  }

  /** Every page in the frame of the same number. */
  function Same(p: Page): Page { p }

  /** A message of one byte at 0x1000, and a receive of two into 0x2000. */
  function OneByte(): Packet { Packet(0, 2, 0x1000, 0x4000, 1, 0, 0, 0, 0) }

  function TwoBytes(): Packet { Packet(0, 0, 0, 0x2000, 0, 2, 0, 0, 0) }

  lemma BytesApart()
    ensures IpcRendezvous.Apart(BufferBytes(Same, 0x2000, 2), BufferBytes(Same, 0x1000, 2),
                                BufferBytes(Same, 0x3000, SENDER_SIZE))
    ensures BufferBytes(Same, 0x2000, 2)[1] == 0x2001 && BufferBytes(Same, 0x1000, 2)[1] == 0x1001
  {
    SameBytes(0x1000, 2);
    SameBytes(0x2000, 2);
    SameBytes(0x3000, SENDER_SIZE);
  }

  /** From boot, for any number of slots and any processes beyond the kernel's own: the first
      process to run offers one byte, slot 2 asks for two, and the byte behind the one that was
      offered is delivered too. */
  lemma SecondByteNeverOffered(n: nat, k: nat, mem: Memory)
    requires 4 <= k <= n < NO_PID
    ensures Created(n, k, mem).Next? && Created(n, k, mem).s.current < n
    ensures Shape(Kickoff(Created(n, k, mem).s)) && OneByte().sendLen == 1 && TwoBytes().recvLen == 2
    ensures var o := Run(Kickoff(Created(n, k, mem).s), [Send(OneByte(), Same), Tick, Recv(TwoBytes(), 0x3000, Same)]);
      o.Next? && ReadByte(o.s.mem, 0x2001) == ReadByte(mem, 0x1001)
  {
    KickoffBoots(n, k, mem);
    CreatedTable(n, k, mem);
    var s := Kickoff(Created(n, k, mem).s);
    FirstSend(s, n, k, OneByte(), Same);
    var s1 := Step(s, Send(OneByte(), Same)).s;
    TickAfter(s, n, k, s1);
    TwoEvents(s, Send(OneByte(), Same), Tick);
    var before, e := [Send(OneByte(), Same), Tick], Recv(TwoBytes(), 0x3000, Same);
    OneMoreEvent(s, before, e);
    assert before + [e] == [Send(OneByte(), Same), Tick, e];
    TwoBytesArrive(s1.(current := 2, cursor := 3));
  }

  lemma TwoBytesArrive(s: State)
    requires Shape(s) && s.current == 2 && |s.procs[2].queue| == 1
    requires s.procs[2].queue[0].msg.sendBuf == 0x1000 == s.procs[2].queue[0].msg.physSend
    requires s.procs[2].queue[0].msg.sendLen == 1
    ensures Step(s, Recv(TwoBytes(), 0x3000, Same)).Next?
    ensures ReadByte(Step(s, Recv(TwoBytes(), 0x3000, Same)).s.mem, 0x2001) == ReadByte(s.mem, 0x1001)
  {
    var dst, src := BufferBytes(Same, 0x2000, 2), BufferBytes(Same, 0x1000, 2);
    var word, pid := BufferBytes(Same, 0x3000, SENDER_SIZE), s.procs[2].queue[0].msg.sender;
    OnePageIsContiguous(Same, 0x1000, 2);
    ContiguousShows(Same, 0x1000, 2);
    BytesApart();
    CopyMoves(s.mem, dst, src);
    StoreWrites(Copy(s.mem, dst, src), word, Le32(pid));
    assert dst[1] in dst;
    assert RecvBody(s.(enabled := false), TwoBytes(), 0x3000, Same).s.mem
        == Store(Copy(s.mem, dst, src), word, Le32(pid));
  }

  lemma SameBytes(v: U32, n: nat)
    requires v % PAGE_SIZE == 0 && n <= PAGE_SIZE
    ensures forall i :: 0 <= i < n ==> BufferBytes(Same, v, n)[i] == v + i
  {
    forall i | 0 <= i < n ensures BufferBytes(Same, v, n)[i] == v + i {
      assert (v % PAGE_SIZE + i) / PAGE_SIZE == if i == PAGE_SIZE then 1 else 0;
    }
  }

  // ----- a reply that names somebody else -----

  /** Four processes, of which the kernel's has the queue q. */
  ghost predicate Four(s: State, n: nat, st2: ProcState, st3: ProcState, q: seq<Node>) {
    && 4 <= n < NO_PID && |s.procs| == n && s.idle == 1 && s.cursor <= n && s.current < n && s.enabled
    && s.procs[0] == Proc(0, Ready, q) && s.procs[1] == Proc(1, Ready, [])
    && s.procs[2] == Proc(2, st2, []) && s.procs[3] == Proc(3, st3, [])
    && forall i :: 4 <= i < n ==> s.procs[i] == Proc(NO_PID, Unused, [])
  }

  lemma FourFound(s: State, n: nat, st2: ProcState, st3: ProcState, q: seq<Node>, pid: U32)
    requires Four(s, n, st2, st3, q) && pid < 4
    ensures FindByPid(s.procs, pid) == Some(pid)
  {
    assert s.procs[pid].pid == pid;
  }

  /** Which slot rescheduling finds when only one will do. */
  lemma OnlyOne(procs: seq<Proc>, cursor: nat, i: nat)
    requires 0 < |procs| && cursor <= |procs| && Eligible(procs, 1, Ready, i)
    requires forall j :: Eligible(procs, 1, Ready, j) ==> j == i
    ensures FindNext(procs, 1, Ready, cursor) == (Some(i), i + 1)
  {}

  /** Rescheduling, when the current process is ready or blocked already. */
  lemma GoesTo(s: State, n: nat, st2: ProcState, st3: ProcState, q: seq<Node>, i: nat)
    requires Four(s, n, st2, st3, q) && s.current < 4
    requires s.procs[s.current].state.Ready? || s.procs[s.current].state.Blocked()
    requires FindNext(s.procs, 1, Ready, s.cursor) == (Some(i), i + 1) && i < 4
    ensures Schedule(s) == s.(current := i, cursor := i + 1) && Four(Schedule(s), n, st2, st3, q)
  {
    FourFound(s, n, st2, st3, q, s.procs[s.current].pid);
    if s.procs[s.current].state.Ready? {
      assert s.procs[s.current := s.procs[s.current].(state := Ready)] == s.procs;
    }
  }

  lemma ThreeAsks(s: State, n: nat, m: Packet, pages: PageMap)
    requires Booted(s, n, 4) && m.receiver == 0
    ensures Step(s, Send(m, pages)).Next?
    ensures var s' := Step(s, Send(m, pages)).s;
      && Four(s', n, Ready, ReplyBlocked, [Node(0, Stamped(m, 3, pages))])
      && s'.heap == [true] && s'.current == 0 && s'.cursor == 1
  {
    BlockAtIsLinear(NODE_SIZE, 1);
    var off, q := s.(enabled := false), [Node(0, Stamped(m, 3, pages))];
    assert FindByPid(off.procs, 0) == Some(0) by { assert off.procs[0].pid == 0; }
    var mid := SendTo(off, m, pages, 0).s.(enabled := true);
    assert Four(mid, n, Ready, ReplyBlocked, q);
    KernelIsNext(mid.procs, 4);
    GoesTo(mid, n, Ready, ReplyBlocked, q, 0);
  }

  lemma TwoRuns(s: State, n: nat, q: seq<Node>)
    requires Four(s, n, Ready, ReplyBlocked, q) && s.current == 0 && s.cursor == 1
    ensures Step(s, Tick) == Next(s.(current := 2, cursor := 3)) && Four(Step(s, Tick).s, n, Ready, ReplyBlocked, q)
  {
    SlotTwoIsNext(s.procs);
    GoesTo(s, n, Ready, ReplyBlocked, q, 2);
  }

  lemma TwoAsks(s: State, n: nat, first: Node, m: Packet, pages: PageMap)
    requires Four(s, n, Ready, ReplyBlocked, [first]) && s.current == 2 && s.heap == [true] && m.receiver == 0
    ensures Step(s, Send(m, pages)).Next?
    ensures var s' := Step(s, Send(m, pages)).s;
      && Four(s', n, ReplyBlocked, ReplyBlocked, [first, Node(1, Stamped(m, 2, pages))])
      && s'.heap == [true, true] && s'.current == 0 && s'.cursor == 1
  {
    BlockAtIsLinear(NODE_SIZE, 2);
    assert FirstFree(s.heap[1..]) == 0;
    assert FirstFree(s.heap) == 1;
    var off, q := s.(enabled := false), [first, Node(1, Stamped(m, 2, pages))];
    FourFound(s, n, Ready, ReplyBlocked, [first], 0);
    var mid := SendTo(off, m, pages, 0).s.(enabled := true);
    assert Four(mid, n, ReplyBlocked, ReplyBlocked, q);
    OnlyOne(mid.procs, mid.cursor, 0);
    GoesTo(mid, n, ReplyBlocked, ReplyBlocked, q, 0);
  }

  lemma KernelReceives(s: State, n: nat, q: seq<Node>, m: Packet, at: U32, pages: PageMap)
    requires Four(s, n, ReplyBlocked, ReplyBlocked, q) && s.current == 0 && q != []
    requires WindowCovers(q[0].msg.sendLen, q[0].msg.sendBuf, m.recvLen)
    ensures Step(s, Recv(m, at, pages)).Next?
    ensures var s' := Step(s, Recv(m, at, pages)).s;
      Four(s', n, ReplyBlocked, ReplyBlocked, q) && s'.heap == s.heap && s'.current == 0
  {
    var mid := RecvBody(s.(enabled := false), m, at, pages).s.(enabled := true);
    OnlyOne(mid.procs, mid.cursor, 0);
    GoesTo(mid, n, ReplyBlocked, ReplyBlocked, q, 0);
  }

  lemma KernelReplies(s: State, n: nat, q: seq<Node>, m: Packet, pages: PageMap)
    requires Four(s, n, ReplyBlocked, ReplyBlocked, q) && s.current == 0 && q != []
    requires q[0].msg.sender == 3 && q[0].block < |s.heap|
    requires WindowCovers(q[0].msg.recvLen, q[0].msg.recvBuf, q[0].msg.recvLen)
    ensures Step(s, Reply(m, pages)).Next?
    ensures Step(s, Reply(m, pages)).s.procs[2 .. 4] == [Proc(2, ReplyBlocked, []), Proc(3, Ready, [])]
  {
    FourFound(s, n, ReplyBlocked, ReplyBlocked, q, 3);
    var mid := ReplyBody(s.(enabled := false), m, pages).s.(enabled := true);
    assert Four(mid, n, ReplyBlocked, Ready, q[1..]);
    FourFound(mid, n, ReplyBlocked, Ready, q[1..], 0);
    assert mid.procs[0 := mid.procs[0].(state := Ready)] == mid.procs;
  }

  /** From boot, with two processes beyond the kernel's own: both send to the kernel's process,
      which receives a message, replies to slot 2 by name, and wakes slot 3. */
  lemma WrongSenderWakes(n: nat, mem: Memory, m3: Packet, p3: PageMap, m2: Packet, p2: PageMap,
                         wanted: Packet, at: U32, answer: Packet, pages: PageMap)
    requires 4 <= n < NO_PID && m3.receiver == 0 && m2.receiver == 0 && answer.sender == 2
    requires WindowCovers(m3.sendLen, m3.sendBuf, wanted.recvLen)
    requires WindowCovers(m3.recvLen, m3.recvBuf, m3.recvLen)
    ensures Created(n, 4, mem).Next? && Created(n, 4, mem).s.current < n
    ensures Shape(Kickoff(Created(n, 4, mem).s))
    ensures var o := Run(Kickoff(Created(n, 4, mem).s),
                         [Send(m3, p3), Tick, Send(m2, p2), Recv(wanted, at, pages), Reply(answer, pages)]);
      && o.Next? && |o.s.procs| == n
      && o.s.procs[answer.sender].state == ReplyBlocked && o.s.procs[3].state == Ready
  {
    KickoffBoots(n, 4, mem);
    var s := Kickoff(Created(n, 4, mem).s);
    var first, q := Node(0, Stamped(m3, 3, p3)), [Node(0, Stamped(m3, 3, p3)), Node(1, Stamped(m2, 2, p2))];
    ThreeAsks(s, n, m3, p3);
    TwoRuns(Step(s, Send(m3, p3)).s, n, [first]);
    TwoEvents(s, Send(m3, p3), Tick);
    var e2, e3 := [Send(m3, p3), Tick], [Send(m3, p3), Tick, Send(m2, p2)];
    TwoAsks(Run(s, e2).s, n, first, m2, p2);
    OneMoreEvent(s, e2, Send(m2, p2));
    assert e2 + [Send(m2, p2)] == e3;
    LastTwo(s, n, e3, q, wanted, at, answer, pages);
  }

  lemma LastTwo(s: State, n: nat, before: seq<Event>, q: seq<Node>, wanted: Packet, at: U32,
                answer: Packet, pages: PageMap)
    requires Shape(s) && Run(s, before).Next? && |before| == 3
    requires Four(Run(s, before).s, n, ReplyBlocked, ReplyBlocked, q)
    requires Run(s, before).s.current == 0 && q != [] && q[0].msg.sender == 3 && q[0].block < |Run(s, before).s.heap|
    requires WindowCovers(q[0].msg.sendLen, q[0].msg.sendBuf, wanted.recvLen)
    requires WindowCovers(q[0].msg.recvLen, q[0].msg.recvBuf, q[0].msg.recvLen)
    ensures var o := Run(s, [before[0], before[1], before[2], Recv(wanted, at, pages), Reply(answer, pages)]);
      o.Next? && |o.s.procs| == |s.procs| && |s.procs| == n
      && o.s.procs[2].state == ReplyBlocked && o.s.procs[3].state == Ready
  {
    var e, e' := Recv(wanted, at, pages), Reply(answer, pages);
    KernelReceives(Run(s, before).s, n, q, wanted, at, pages);
    OneMoreEvent(s, before, e);
    KernelReplies(Run(s, before + [e]).s, n, q, answer, pages);
    OneMoreEvent(s, before + [e], e');
    assert before + [e] + [e'] == [before[0], before[1], before[2], e, e'];
    var procs := Run(s, before + [e] + [e']).s.procs;
    assert procs[2..4][0] == procs[2] && procs[2..4][1] == procs[3];
  }

  // ----- a request to the idle process -----

  /** From boot, with one process beyond the kernel's own: it sends to the idle process, and the
      kernel's process waits for a message. Then nobody but idle can run, while a process awaits
      a reply, which it never gets (IpcWaits.StuckForGood). */
  lemma RequestToIdle(n: nat, mem: Memory, m: Packet, p: PageMap, wanted: Packet, at: U32, pages: PageMap)
    requires 3 <= n < NO_PID && m.receiver == 1
    ensures Created(n, 3, mem).Next? && Created(n, 3, mem).s.current < n
    ensures Shape(Kickoff(Created(n, 3, mem).s))
    ensures var o := Run(Kickoff(Created(n, 3, mem).s), [Send(m, p), Recv(wanted, at, pages)]);
      && o.Next? && |o.s.procs| == n && o.s.current == o.s.idle == 1
      && o.s.procs[2].state == ReplyBlocked
      && forall i :: !Eligible(o.s.procs, o.s.idle, Ready, i)
  {
    KickoffBoots(n, 3, mem);
    var s := Kickoff(Created(n, 3, mem).s);
    AsksIdle(s, n, m, p);
    KernelWaits(Step(s, Send(m, p)).s, n, wanted, at, pages);
    TwoEvents(s, Send(m, p), Recv(wanted, at, pages));
  }

  /** Three processes, of which the last awaits the reply of the idle one. */
  ghost predicate Three(s: State, n: nat, st0: ProcState) {
    && 3 <= n < NO_PID && |s.procs| == n && s.idle == 1 && s.cursor <= n && s.current == 0
    && s.procs[0].pid == 0 && s.procs[0].state == st0
    && s.procs[1].pid == 1 && s.procs[2].pid == 2 && s.procs[2].state == ReplyBlocked
    && forall i :: 3 <= i < n ==> s.procs[i] == Proc(NO_PID, Unused, [])
  }

  lemma AsksIdle(s: State, n: nat, m: Packet, pages: PageMap)
    requires Booted(s, n, 3) && m.receiver == 1
    ensures Step(s, Send(m, pages)).Next?
    ensures var s' := Step(s, Send(m, pages)).s;
      Three(s', n, Ready) && s'.procs[0].queue == [] && s'.heap == [true] && s'.cursor == 1
  {
    BlockAtIsLinear(NODE_SIZE, 1);
    var off := s.(enabled := false);
    assert FindByPid(off.procs, 1) == Some(1) by { assert off.procs[1].pid == 1; }
    var mid := SendTo(off, m, pages, 1).s.(enabled := true);
    assert FindByPid(mid.procs, 2) == Some(2) by { assert mid.procs[2].pid == 2; }
    KernelIsNext(mid.procs, 3);
  }

  lemma KernelWaits(s: State, n: nat, m: Packet, at: U32, pages: PageMap)
    requires Three(s, n, Ready) && s.procs[0].queue == [] && s.heap == [true] && s.cursor == 1
    ensures Step(s, Recv(m, at, pages)).Next?
    ensures var s' := Step(s, Recv(m, at, pages)).s;
      && s'.current == s'.idle == 1 && |s'.procs| == n && s'.procs[2].state == ReplyBlocked
      && forall i :: !Eligible(s'.procs, s'.idle, Ready, i)
  {
    BlockAtIsLinear(NODE_SIZE, 2);
    assert FirstFree(s.heap[1..]) == 0;
    assert FirstFree(s.heap) == 1;
    var mid := RecvBody(s.(enabled := false), m, at, pages).s.(enabled := true);
    assert Three(mid, n, RecvBlocked);
    assert FindByPid(mid.procs, 0) == Some(0) by { assert mid.procs[0].pid == 0; }
    var r := FindNext(mid.procs, 1, Ready, mid.cursor);
    assert r.0.None?;
  }

  /** From boot, a send to a pid that was never given out leaves scheduling off, and the first
      process keeps the processor through any number of ticks. */
  lemma FirstProcessStarvesAll(n: nat, k: nat, mem: Memory, m: Packet, pages: PageMap, events: seq<Event>)
    requires 3 <= k <= n < NO_PID && k <= m.receiver < NO_PID
    requires forall e :: e in events ==> e.Tick? || e.User?
    ensures Created(n, k, mem).Next? && Created(n, k, mem).s.current < n
    ensures var s := Kickoff(Created(n, k, mem).s);
      && Shape(s) && Step(s, Send(m, pages)).Next? && !Step(s, Send(m, pages)).s.enabled
      && Run(Step(s, Send(m, pages)).s, events).Next?
      && Run(Step(s, Send(m, pages)).s, events).s.current == k - 1
  {
    KickoffBoots(n, k, mem);
    var s := Kickoff(Created(n, k, mem).s);
    assert forall i :: 0 <= i < n ==> s.procs[i].pid != m.receiver;
    assert NoReceiver(s, Send(m, pages));
    IpcFairness.FailedSendStarves(s, m, pages, events);
    IpcFairness.CallEnablesIff(s, Send(m, pages));
  }
}
