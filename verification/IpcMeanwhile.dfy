// The rendezvous among others: whatever third processes do between the send and the receive, it
// does not matter which of the two came first.
module IpcMeanwhile {
  import opened Common
  import opened ProcTable
  import opened PhysMem
  import opened HeapSpec
  import opened Ipc
  import opened IpcRendezvous
  import IpcFairness

  predicate Third(x: Meeting, i: nat) {
    i != x.sender && i != x.receiver
  }

  /** A third process that exists. */
  predicate ThirdProcess(x: Meeting, s: State, i: nat) {
    i < |s.procs| && Third(x, i) && !s.procs[i].state.Unused?
  }

  /** Process p does something that concerns third processes alone: it receives, stores, sends to
      a third process, replies to one, or is interrupted by the timer. */
  ghost predicate Foreign(x: Meeting, s: State, p: nat, e: Event) {
    && ThirdProcess(x, s, p)
    && match e
       case Send(m, _) =>
         var r := FindByPid(s.procs, m.receiver);
         r.Some? && ThirdProcess(x, s, r.value)
       case Reply(_, _) =>
         s.procs[p].queue != [] ==>
           var f := FindByPid(s.procs, s.procs[p].queue[0].msg.sender);
           f.Some? ==> ThirdProcess(x, s, f.value)
       case _ => true
  }

  /** Two machines that differ in the two entries of the meeting at most. */
  ghost predicate Alike(x: Meeting, a: State, b: State) {
    && Shape(a) && Shape(b) && |a.procs| == |b.procs|
    && a.heap == b.heap && a.mem == b.mem && a.idle == b.idle
    && (forall i :: 0 <= i < |a.procs| ==> a.procs[i].pid == b.procs[i].pid)
    && (forall i: nat :: i < |a.procs| && Third(x, i) ==> a.procs[i] == b.procs[i])
  }

  /** The two entries of the meeting, and everybody's pid, are as before. */
  ghost predicate Spared(x: Meeting, s: State, s': State) {
    && |s'.procs| == |s.procs| && s'.idle == s.idle
    && (forall i: nat :: i < |s.procs| && !Third(x, i) ==> s'.procs[i] == s.procs[i])
    && SameProcesses(s.procs, s'.procs)
  }

  /** The same outcome for both machines. */
  ghost predicate BothGoOn(x: Meeting, a: State, b: State, o: Outcome, o': Outcome) {
    && (o.Next? <==> o'.Next?)
    && (o.Next? ==> Alike(x, o.s, o'.s) && Spared(x, a, o.s) && Spared(x, b, o'.s))
  }

  lemma EnqueueSpares(x: Meeting, a: State, m: Packet, pages: PageMap, r: nat)
    requires Shape(a) && ThirdProcess(x, a, a.current) && ThirdProcess(x, a, r) && Enqueue(a, m, pages, r).Next?
    ensures Spared(x, a, Enqueue(a, m, pages, r).s)
  {}

  lemma EnqueueAlike(x: Meeting, a: State, b: State, m: Packet, pages: PageMap, r: nat)
    requires Alike(x, a, b) && a.current == b.current
    requires ThirdProcess(x, a, a.current) && ThirdProcess(x, a, r)
    ensures Enqueue(a, m, pages, r).Next? <==> Enqueue(b, m, pages, r).Next?
    ensures Enqueue(a, m, pages, r).Next? ==> Alike(x, Enqueue(a, m, pages, r).s, Enqueue(b, m, pages, r).s)
  {}

  lemma FillSpares(x: Meeting, a: State, m: Packet, pages: PageMap, r: nat)
    requires Shape(a) && ThirdProcess(x, a, a.current) && ThirdProcess(x, a, r) && Fill(a, m, pages, r).Next?
    ensures Spared(x, a, Fill(a, m, pages, r).s)
  {}

  lemma FillAlike(x: Meeting, a: State, b: State, m: Packet, pages: PageMap, r: nat)
    requires Alike(x, a, b) && a.current == b.current
    requires ThirdProcess(x, a, a.current) && ThirdProcess(x, a, r)
    ensures Fill(a, m, pages, r).Next? <==> Fill(b, m, pages, r).Next?
    ensures Fill(a, m, pages, r).Next? ==> Alike(x, Fill(a, m, pages, r).s, Fill(b, m, pages, r).s)
  {}

  lemma ForeignSend(x: Meeting, a: State, b: State, m: Packet, pages: PageMap, r: nat)
    requires Alike(x, a, b) && a.current == b.current
    requires ThirdProcess(x, a, a.current) && ThirdProcess(x, a, r)
    ensures BothGoOn(x, a, b, SendTo(a, m, pages, r), SendTo(b, m, pages, r))
  {
    if a.procs[r].state.RecvBlocked? {
      FillAlike(x, a, b, m, pages, r);
      if Fill(a, m, pages, r).Next? {
        FillSpares(x, a, m, pages, r);
        FillSpares(x, b, m, pages, r);
      }
    } else {
      EnqueueAlike(x, a, b, m, pages, r);
      if Enqueue(a, m, pages, r).Next? {
        EnqueueSpares(x, a, m, pages, r);
        EnqueueSpares(x, b, m, pages, r);
      }
    }
  }

  lemma RecvSpares(x: Meeting, a: State, m: Packet, at: U32, pages: PageMap)
    requires Shape(a) && ThirdProcess(x, a, a.current) && RecvBody(a, m, at, pages).Next?
    ensures Spared(x, a, RecvBody(a, m, at, pages).s)
  {}

  lemma RecvAlike(x: Meeting, a: State, b: State, m: Packet, at: U32, pages: PageMap)
    requires Alike(x, a, b) && a.current == b.current && ThirdProcess(x, a, a.current)
    ensures RecvBody(a, m, at, pages).Next? <==> RecvBody(b, m, at, pages).Next?
    ensures RecvBody(a, m, at, pages).Next? ==> Alike(x, RecvBody(a, m, at, pages).s, RecvBody(b, m, at, pages).s)
  {}

  lemma ForeignRecv(x: Meeting, a: State, b: State, m: Packet, at: U32, pages: PageMap)
    requires Alike(x, a, b) && a.current == b.current && ThirdProcess(x, a, a.current)
    ensures BothGoOn(x, a, b, RecvBody(a, m, at, pages), RecvBody(b, m, at, pages))
  {
    RecvAlike(x, a, b, m, at, pages);
    if RecvBody(a, m, at, pages).Next? {
      RecvSpares(x, a, m, at, pages);
      RecvSpares(x, b, m, at, pages);
    }
  }

  lemma ReplySpares(x: Meeting, a: State, m: Packet, pages: PageMap)
    requires Shape(a) && Foreign(x, a, a.current, Reply(m, pages)) && ReplyBody(a, m, pages).Next?
    ensures Spared(x, a, ReplyBody(a, m, pages).s)
  {}

  lemma ReplyAlike(x: Meeting, a: State, b: State, m: Packet, pages: PageMap)
    requires Alike(x, a, b) && a.current == b.current && Foreign(x, a, a.current, Reply(m, pages))
    requires a.procs[a.current].queue != [] ==>
      var pid := a.procs[a.current].queue[0].msg.sender; FindByPid(a.procs, pid) == FindByPid(b.procs, pid)
    ensures ReplyBody(a, m, pages).Next? <==> ReplyBody(b, m, pages).Next?
    ensures ReplyBody(a, m, pages).Next? ==> Alike(x, ReplyBody(a, m, pages).s, ReplyBody(b, m, pages).s)
  {}

  lemma ForeignReply(x: Meeting, a: State, b: State, m: Packet, pages: PageMap)
    requires Alike(x, a, b) && a.current == b.current && Foreign(x, a, a.current, Reply(m, pages))
    ensures BothGoOn(x, a, b, ReplyBody(a, m, pages), ReplyBody(b, m, pages))
  {
    ForeignSame(x, a, b, a.current, Reply(m, pages));
    if a.procs[a.current].queue != [] {
      SamePids(a.procs, b.procs, a.procs[a.current].queue[0].msg.sender);
    }
    ReplyAlike(x, a, b, m, pages);
    if ReplyBody(a, m, pages).Next? {
      ReplySpares(x, a, m, pages);
      ReplySpares(x, b, m, pages);
    }
  }

  /** What is foreign to one machine is foreign to the other. */
  lemma ForeignSame(x: Meeting, a: State, b: State, p: nat, e: Event)
    requires Alike(x, a, b) && Foreign(x, a, p, e)
    ensures Foreign(x, b, p, e)
  {
    if e.Send? { SamePids(a.procs, b.procs, e.m.receiver); }
    if e.Reply? && a.procs[p].queue != [] { SamePids(a.procs, b.procs, a.procs[p].queue[0].msg.sender); }
  }

  lemma ForeignBody(x: Meeting, a: State, b: State, e: Event)
    requires Alike(x, a, b) && a.current == b.current && Foreign(x, a, a.current, e)
    ensures BothGoOn(x, a, b, Body(a, e), Body(b, e))
  {
    match e
    case Send(m, pages) =>
      SamePids(a.procs, b.procs, m.receiver);
      ForeignSend(x, a, b, m, pages, FindByPid(a.procs, m.receiver).value);
    case Recv(m, at, pages) => ForeignRecv(x, a, b, m, at, pages);
    case Reply(m, pages) => ForeignReply(x, a, b, m, pages);
    case _ =>
  }

  /** Rescheduling changes neither machine, and each moves on to a process of its own choice. */
  lemma ForeignSchedule(x: Meeting, a: State, b: State, a': State, b': State)
    requires Alike(x, a', b') && Spared(x, a, a') && Spared(x, b, b') && Settled(a') && Settled(b')
    ensures BothGoOn(x, a, b, Next(Schedule(a')), Next(Schedule(b')))
    ensures Settled(Schedule(a')) && Settled(Schedule(b'))
  {
    ScheduleSettled(a');
    ScheduleSettled(b');
  }

  lemma SparedSettled(x: Meeting, s: State, s': State)
    requires Settled(s) && Spared(x, s, s') && Shape(s') && !s.procs[s'.current].state.Unused?
    ensures Settled(s')
  {
    SettledSame(s, s');
  }

  /** A whole step of a third process, with the processor given to it. */
  lemma ForeignStep(x: Meeting, a: State, b: State, p: nat, e: Event)
    requires Settled(a) && Settled(b) && Alike(x, a, b) && Foreign(x, a, p, e)
    ensures BothGoOn(x, a, b, Step(OnCpu(a, p), e), Step(OnCpu(b, p), e))
    ensures Step(OnCpu(a, p), e).Next? ==> Settled(Step(OnCpu(a, p), e).s) && Settled(Step(OnCpu(b, p), e).s)
  {
    var c, d := OnCpu(a, p), OnCpu(b, p);
    SparedSettled(x, a, c);
    SparedSettled(x, b, d);
    if e.Tick? {
      ForeignSchedule(x, a, b, c, d);
    } else if e.User? {
      ForeignBody(x, c, d, e);
      SparedSettled(x, a, Body(c, e).s);
      SparedSettled(x, b, Body(d, e).s);
    } else {
      ForeignCall(x, a, b, c.(enabled := false), d.(enabled := false), e);
      ForeignSame(x, a, b, p, e);
    }
  }

  lemma ForeignCall(x: Meeting, a: State, b: State, c: State, d: State, e: Event)
    requires Settled(c) && Settled(d) && Alike(x, c, d) && c.current == d.current && Foreign(x, c, c.current, e)
    requires c.procs == a.procs && c.idle == a.idle && d.procs == b.procs && d.idle == b.idle
    ensures BothGoOn(x, a, b, Reschedule(Body(c, e)), Reschedule(Body(d, e)))
    ensures Body(c, e).Next? ==> Settled(Reschedule(Body(c, e)).s) && Settled(Reschedule(Body(d, e)).s)
  {
    ForeignBody(x, c, d, e);
    if Body(c, e).Next? {
      IpcFairness.BodyKeepsScheduler(c, e);
      IpcFairness.BodyKeepsScheduler(d, e);
      SparedSettled(x, c, Body(c, e).s);
      SparedSettled(x, d, Body(d, e).s);
      ForeignSchedule(x, a, b, Body(c, e).s.(enabled := true), Body(d, e).s.(enabled := true));
    }
  }

  /** What some processes do, each with the processor given to it. */
  function Others(s: State, events: seq<(nat, Event)>): (o: Outcome)
    requires Shape(s)
    ensures o.Next? ==> Shape(o.s) && |o.s.procs| == |s.procs|
    decreases |events|
  {
    if events == [] then Next(s)
    else if events[0].0 >= |s.procs| then Fault
    else
      var o := Step(OnCpu(s, events[0].0), events[0].1);
      if o.Fault? then Fault else Others(o.s, events[1..])
  }

  /** None of it concerns the two that meet. */
  ghost predicate AllForeign(x: Meeting, s: State, events: seq<(nat, Event)>)
    requires Shape(s)
    decreases |events|
  {
    events == [] ||
    var (p, e) := events[0];
    && Foreign(x, s, p, e)
    && (Step(OnCpu(s, p), e).Next? ==> AllForeign(x, Step(OnCpu(s, p), e).s, events[1..]))
  }

  lemma GoingOn(x: Meeting, a: State, b: State, a': State, b': State, o: Outcome, o': Outcome)
    requires Spared(x, a, a') && Spared(x, b, b') && BothGoOn(x, a', b', o, o')
    ensures BothGoOn(x, a, b, o, o')
  {}

  /** Third processes get on alike on both machines, and leave the two that meet alone. */
  lemma {:induction false} OthersAlike(x: Meeting, a: State, b: State, events: seq<(nat, Event)>)
    requires Settled(a) && Settled(b) && Alike(x, a, b) && AllForeign(x, a, events)
    ensures BothGoOn(x, a, b, Others(a, events), Others(b, events))
    ensures Others(a, events).Next? ==> Settled(Others(a, events).s) && Settled(Others(b, events).s)
    decreases |events|
  {
    if events != [] {
      var (p, e) := events[0];
      ForeignStep(x, a, b, p, e);
      var o, o' := Step(OnCpu(a, p), e), Step(OnCpu(b, p), e);
      if o.Next? {
        OthersAlike(x, o.s, o'.s, events[1..]);
        GoingOn(x, a, b, o.s, o'.s, Others(o.s, events[1..]), Others(o'.s, events[1..]));
      }
    }
  }

  // ----- the meeting -----

  function Request(x: Meeting): Event { Send(x.sent, x.sentPages) }

  function Receipt(x: Meeting): Event { Recv(x.wanted, x.at, x.wantedPages) }

  /** The two are settled, and the send names the receiver. */
  ghost predicate WillMeet(s: State, x: Meeting) {
    CanMeet(s, x) && Settled(s) && FindByPid(s.procs, x.sent.receiver) == Some(x.receiver)
  }

  /** The node of a request that waits in the receiver's queue. */
  function Queued(s: State, x: Meeting): Node
    requires x.sender < |s.procs|
  {
    Node(FirstFree(s.heap), Stamped(x.sent, s.procs[x.sender].pid, x.sentPages))
  }

  /** The placeholder of a receiver that waits. */
  function Placeholder(s: State, x: Meeting): Node {
    Node(FirstFree(s.heap), x.wanted.(physRecv := Translate(x.wantedPages, x.wanted.recvBuf),
                                      physPacket := Translate(x.wantedPages, x.at)))
  }

  /** After the send alone. */
  ghost predicate Sent(s: State, x: Meeting, a: State) {
    && x.sender < |s.procs| == |a.procs| && x.receiver < |s.procs|
    && a.procs[x.sender] == s.procs[x.sender].(state := ReplyBlocked)
    && a.procs[x.receiver] == s.procs[x.receiver].(queue := [Queued(s, x)])
  }

  /** After the receive alone. */
  ghost predicate Waiting(s: State, x: Meeting, b: State) {
    && x.sender < |s.procs| == |b.procs| && x.receiver < |s.procs|
    && b.procs[x.sender] == s.procs[x.sender]
    && b.procs[x.receiver] == s.procs[x.receiver].(state := RecvBlocked, queue := [Placeholder(s, x)])
  }

  /** Nothing else has changed but the heap. */
  ghost predicate OnlyTheTwo(s: State, x: Meeting, a: State) {
    && |a.procs| == |s.procs| && a.mem == s.mem && a.heap == Take(s.heap) && a.idle == s.idle
    && (forall i :: 0 <= i < |s.procs| ==> a.procs[i].pid == s.procs[i].pid)
    && (forall i: nat :: i < |s.procs| && Third(x, i) ==> a.procs[i] == s.procs[i])
  }

  lemma SendArrives(s: State, x: Meeting)
    requires WillMeet(s, x)
    ensures var o := Step(OnCpu(s, x.sender), Request(x));
      o.Next? && Settled(o.s) && Sent(s, x, o.s) && OnlyTheTwo(s, x, o.s)
  {
    var c := OnCpu(s, x.sender);
    assert Settled(c);
    assert Body(c, Request(x)) == Enqueue(c, x.sent, x.sentPages, x.receiver);
    CallSettled(c, Request(x));
  }

  lemma RecvWaits(s: State, x: Meeting)
    requires WillMeet(s, x)
    ensures var o := Step(OnCpu(s, x.receiver), Receipt(x));
      o.Next? && Settled(o.s) && Waiting(s, x, o.s) && OnlyTheTwo(s, x, o.s)
  {
    var c := OnCpu(s, x.receiver);
    assert Settled(c);
    CallSettled(c, Receipt(x));
  }

  /** Both have been served: the receiver is ready, its queue holds the request, the sender
      awaits the reply, and the message has gone from memory as it was into the buffer. */
  ghost predicate Met(s: State, x: Meeting, before: State, after: State) {
    && x.sender < |s.procs| == |before.procs| == |after.procs| && x.receiver < |s.procs|
    && after.heap == before.heap
    && after.mem == Store(Copy(before.mem, BufferBytes(x.wantedPages, x.wanted.recvBuf, x.wanted.recvLen),
                               BufferBytes(x.sentPages, x.sent.sendBuf, x.wanted.recvLen)),
                          BufferBytes(x.wantedPages, x.at, SENDER_SIZE), Le32(s.procs[x.sender].pid))
    && after.procs[x.receiver].state == Ready && after.procs[x.sender].state.AwaitsReply()
    && |after.procs[x.receiver].queue| == 1 && SameRequest(after.procs[x.receiver].queue[0], Queued(s, x))
    && Carries(after.procs[x.receiver].queue[0].msg, x.sent, x.sentPages)
    && (forall i: nat :: i < |s.procs| && Third(x, i) ==> after.procs[i] == before.procs[i])
  }

  lemma RecvMeets(s: State, x: Meeting, a: State)
    requires CanMeet(s, x) && Settled(a) && Sent(s, x, a)
    ensures Step(OnCpu(a, x.receiver), Receipt(x)).Next?
    ensures Met(s, x, a, Step(OnCpu(a, x.receiver), Receipt(x)).s)
  {
    var c := OnCpu(a, x.receiver);
    assert Settled(c);
    ContiguousShows(x.sentPages, x.sent.sendBuf, x.wanted.recvLen);
    assert RecvBody(c, x.wanted, x.at, x.wantedPages).Next?;
    CallSettled(c, Receipt(x));
  }

  lemma FillMeets(s: State, x: Meeting, b: State, c: State)
    requires CanMeet(s, x) && Waiting(s, x, b) && c == OnCpu(b, x.sender) && Shape(c)
    ensures Fill(c, x.sent, x.sentPages, x.receiver).Next?
    ensures Met(s, x, b, Fill(c, x.sent, x.sentPages, x.receiver).s)
  {
    ContiguousShows(x.wantedPages, x.wanted.recvBuf, x.wanted.recvLen);
    PacketShows(x);
  }

  lemma SendMeets(s: State, x: Meeting, b: State)
    requires CanMeet(s, x) && Settled(b) && Waiting(s, x, b) && FindByPid(b.procs, x.sent.receiver) == Some(x.receiver)
    ensures Step(OnCpu(b, x.sender), Request(x)).Next?
    ensures Met(s, x, b, Step(OnCpu(b, x.sender), Request(x)).s)
  {
    var c := OnCpu(b, x.sender);
    assert Settled(c);
    FillMeets(s, x, b, c);
    assert Body(c, Request(x)) == Fill(c, x.sent, x.sentPages, x.receiver);
    CallSettled(c, Request(x));
  }

  /** Others do what they do, then one of the two makes its call. */
  function OthersThen(s: State, others: seq<(nat, Event)>, q: nat, second: Event): (o: Outcome)
    requires Shape(s) && q < |s.procs|
  {
    var o := Others(s, others);
    if o.Fault? then Fault else Step(OnCpu(o.s, q), second)
  }

  /** The same with the other one's call at the start. */
  function Between(s: State, p: nat, first: Event, others: seq<(nat, Event)>, q: nat, second: Event): (o: Outcome)
    requires Shape(s) && p < |s.procs| && q < |s.procs|
  {
    var o := Step(OnCpu(s, p), first);
    if o.Fault? then Fault else OthersThen(o.s, others, q, second)
  }

  /** The meeting comes about unless the others run into a fault. */
  ghost predicate Meets(s: State, x: Meeting, mid: Outcome, o: Outcome) {
    (o.Next? <==> mid.Next?) && (mid.Next? ==> Met(s, x, mid.s, o.s))
  }

  lemma MetAlike(s: State, x: Meeting, a: State, b: State, after: State)
    requires Alike(x, a, b) && Met(s, x, b, after)
    ensures Met(s, x, a, after)
  {}

  lemma SentStays(s: State, x: Meeting, a: State, a': State)
    requires Sent(s, x, a) && Spared(x, a, a')
    ensures Sent(s, x, a')
  {}

  lemma WaitingStays(s: State, x: Meeting, b: State, b': State)
    requires Waiting(s, x, b) && Spared(x, b, b')
    ensures Waiting(s, x, b') && FindByPid(b'.procs, x.sent.receiver) == FindByPid(b.procs, x.sent.receiver)
  {
    SamePids(b.procs, b'.procs, x.sent.receiver);
  }

  lemma SecondRecv(s: State, x: Meeting, a: State, others: seq<(nat, Event)>)
    requires CanMeet(s, x) && Shape(a) && Sent(s, x, a) && Others(a, others).Next?
    requires Settled(Others(a, others).s) && Spared(x, a, Others(a, others).s)
    ensures Meets(s, x, Others(a, others), OthersThen(a, others, x.receiver, Receipt(x)))
  {
    SentStays(s, x, a, Others(a, others).s);
    RecvMeets(s, x, Others(a, others).s);
  }

  lemma SecondSend(s: State, x: Meeting, mid: State, b: State, others: seq<(nat, Event)>)
    requires CanMeet(s, x) && Shape(b) && Waiting(s, x, b) && Others(b, others).Next?
    requires Settled(Others(b, others).s) && Spared(x, b, Others(b, others).s) && Alike(x, mid, Others(b, others).s)
    requires FindByPid(b.procs, x.sent.receiver) == Some(x.receiver)
    ensures Meets(s, x, Next(mid), OthersThen(b, others, x.sender, Request(x)))
  {
    var b' := Others(b, others).s;
    WaitingStays(s, x, b, b');
    SendMeets(s, x, b');
    MetAlike(s, x, mid, b', Step(OnCpu(b', x.sender), Request(x)).s);
  }

  lemma SecondCalls(s: State, x: Meeting, a: State, b: State, others: seq<(nat, Event)>)
    requires CanMeet(s, x) && Settled(a) && Settled(b) && Sent(s, x, a) && Waiting(s, x, b)
    requires Alike(x, a, b) && AllForeign(x, a, others) && FindByPid(b.procs, x.sent.receiver) == Some(x.receiver)
    ensures Meets(s, x, Others(a, others), OthersThen(a, others, x.receiver, Receipt(x)))
    ensures Meets(s, x, Others(a, others), OthersThen(b, others, x.sender, Request(x)))
  {
    OthersAlike(x, a, b, others);
    if Others(a, others).Next? {
      SecondRecv(s, x, a, others);
      SecondSend(s, x, Others(a, others).s, b, others);
    }
  }

  lemma BothArrive(s: State, x: Meeting, a: State, b: State)
    requires WillMeet(s, x) && Shape(a) && Shape(b)
    requires Sent(s, x, a) && OnlyTheTwo(s, x, a) && Waiting(s, x, b) && OnlyTheTwo(s, x, b)
    ensures Alike(x, a, b) && FindByPid(b.procs, x.sent.receiver) == Some(x.receiver)
  {
    SamePids(s.procs, b.procs, x.sent.receiver);
  }

  /** Rendezvous among others: whatever third processes do between the two calls, as long as it
      is no business with the two themselves, it does not matter which call comes first. The
      outcome agrees on memory, heap, all third processes and all that the reply reads. The
      message is what the sender's buffer holds when the second call is made. */
  lemma OrderIndependentAmongOthers(s: State, x: Meeting, others: seq<(nat, Event)>)
    requires WillMeet(s, x)
    requires Step(OnCpu(s, x.sender), Request(x)).Next? ==>
      AllForeign(x, Step(OnCpu(s, x.sender), Request(x)).s, others)
    ensures Step(OnCpu(s, x.sender), Request(x)).Next?
    ensures var mid := Others(Step(OnCpu(s, x.sender), Request(x)).s, others);
      var a := Between(s, x.sender, Request(x), others, x.receiver, Receipt(x));
      var b := Between(s, x.receiver, Receipt(x), others, x.sender, Request(x));
      Meets(s, x, mid, a) && Meets(s, x, mid, b)
  {
    SendArrives(s, x);
    RecvWaits(s, x);
    var a, b := Step(OnCpu(s, x.sender), Request(x)).s, Step(OnCpu(s, x.receiver), Receipt(x)).s;
    BothArrive(s, x, a, b);
    SecondCalls(s, x, a, b, others);
  }
}
