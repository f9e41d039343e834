// Nobody waits in a circle: the wait-for graph of every run without self-sends is acyclic,
// and well-behaved runs cannot deadlock.
module IpcWaits {
  import opened Common
  import opened ProcTable
  import opened PhysMem
  import opened HeapSpec
  import opened Scheduler
  import opened Ipc
  import opened IpcInvariant
  import opened WaitGraph

  predicate AwaitsAt(s: State, p: nat) {
    p < |s.procs| && s.procs[p].state.AwaitsReply()
  }

  /** The receiver that the current process blocks on, if the event is such a send. */
  function BlocksOn(s: State, e: Event): (r: Option<nat>)
    ensures r.Some? ==> r.value < |s.procs| && (s.procs[r.value].state.Ready? || s.procs[r.value].state.RecvBlocked?)
  {
    match e
    case Send(m, _) =>
      var r := FindByPid(s.procs, m.receiver);
      if r.Some? && (s.procs[r.value].state.Ready? || s.procs[r.value].state.RecvBlocked?) then r else None
    case _ => None
  }

  /** The wait-for graph after an event that led from s to s': a send that blocks adds an
      edge, and a process that no longer awaits a reply loses its own. */
  function WaitsAfter(s: State, e: Event, s': State, g: Graph): (g': Graph)
  {
    var r := BlocksOn(s, e);
    var g1: Graph := if r.Some? then g[s.current := r.value] else g;
    map p: nat | p in g1 && AwaitsAt(s', p) :: g1[p]
  }

  /** Exactly the processes that await a reply have an edge. */
  ghost predicate Covers(g: Graph, s: State) {
    (forall p: nat :: p in g <==> AwaitsAt(s, p)) && (forall p :: p in g ==> g[p] < |s.procs|)
  }

  /** A process that is ready sends to itself. */
  predicate SelfBlocks(s: State, e: Event)
    requires Shape(s)
  {
    e.Send? && FindByPid(s.procs, e.m.receiver) == Some(s.current) && s.procs[s.current].state.Ready?
  }

  /** Rescheduling makes nobody wait. */
  lemma ScheduleFreesOnly(s: State, p: nat)
    requires Shape(s) && AwaitsAt(Schedule(s), p)
    ensures AwaitsAt(s, p)
  {}

  lemma SendWaits(s: State, m: Packet, pages: PageMap, r: nat, p: nat)
    requires Shape(s) && FindByPid(s.procs, m.receiver) == Some(r)
    requires SendTo(s, m, pages, r).Next? && AwaitsAt(SendTo(s, m, pages, r).s, p)
    ensures AwaitsAt(s, p) || (p == s.current && BlocksOn(s, Send(m, pages)) == Some(r))
  {}

  lemma RecvWaits(s: State, m: Packet, at: U32, pages: PageMap, p: nat)
    requires Shape(s) && RecvBody(s, m, at, pages).Next? && AwaitsAt(RecvBody(s, m, at, pages).s, p)
    ensures AwaitsAt(s, p)
  {}

  lemma ReplyWaits(s: State, m: Packet, pages: PageMap, p: nat)
    requires Shape(s) && ReplyBody(s, m, pages).Next? && AwaitsAt(ReplyBody(s, m, pages).s, p)
    ensures AwaitsAt(s, p)
  {}

  lemma BodyWaits(s: State, e: Event, p: nat)
    requires Shape(s) && Body(s, e).Next? && AwaitsAt(Body(s, e).s, p)
    ensures AwaitsAt(s, p) || (p == s.current && BlocksOn(s, e).Some?)
  {
    match e
    case Send(m, pages) =>
      var r := FindByPid(s.procs, m.receiver);
      if r.Some? { SendWaits(s, m, pages, r.value, p); }
    case Recv(m, at, pages) => RecvWaits(s, m, at, pages, p);
    case Reply(m, pages) => ReplyWaits(s, m, pages, p);
    case _ =>
  }

  lemma StepWaits(s: State, e: Event, p: nat)
    requires Shape(s) && Step(s, e).Next? && AwaitsAt(Step(s, e).s, p)
    ensures AwaitsAt(s, p) || (p == s.current && BlocksOn(s, e).Some?)
  {
    if e.Tick? {
      ScheduleFreesOnly(s, p);
    } else if e.User? {
      BodyWaits(s, e, p);
    } else {
      var off := s.(enabled := false);
      if !NoReceiver(s, e) {
        ScheduleFreesOnly(Body(off, e).s.(enabled := true), p);
      }
      BodyWaits(off, e, p);
    }
  }

  /** Every event keeps the graph exact. */
  lemma StepCovers(s: State, e: Event, g: Graph)
    requires Shape(s) && Covers(g, s) && Step(s, e).Next?
    ensures Covers(WaitsAfter(s, e, Step(s, e).s, g), Step(s, e).s)
  {
    forall p: nat | AwaitsAt(Step(s, e).s, p) ensures p in WaitsAfter(s, e, Step(s, e).s, g) {
      StepWaits(s, e, p);
    }
  }

  /** A send to itself blocks a process exactly if the process is ready. */
  lemma SelfSendBlocks(s: State, m: Packet, pages: PageMap)
    requires Shape(s) && FindByPid(s.procs, m.receiver) == Some(s.current)
    requires Step(s, Send(m, pages)).Next? && !AwaitsAt(s, s.current)
    ensures AwaitsAt(Step(s, Send(m, pages)).s, s.current) <==> s.procs[s.current].state.Ready?
  {
    var off, c := s.(enabled := false), s.current;
    var mid := Body(off, Send(m, pages)).s;
    assert forall i :: 0 <= i < |s.procs| ==> mid.procs[i].pid == s.procs[i].pid;
    if s.procs[c].state.Ready? {
      assert mid.procs[c].state == ReplyBlocked;
      assert FindByPid(mid.procs, mid.procs[c].pid) == Some(c);
    } else {
      SelfSendWakes(off, m, pages);
      if AwaitsAt(Step(s, Send(m, pages)).s, c) {
        ScheduleFreesOnly(mid.(enabled := true), c);
      }
    }
  }

  lemma SelfSendWakes(s: State, m: Packet, pages: PageMap)
    requires Shape(s) && !AwaitsAt(s, s.current) && !s.procs[s.current].state.Ready?
    requires SendTo(s, m, pages, s.current).Next?
    ensures !AwaitsAt(SendTo(s, m, pages, s.current).s, s.current)
  {}

  /** A self-send closes a circle if and only if the process is ready. The first process to
      run is in state Running and gets away with it. */
  lemma SelfSendCircles(s: State, m: Packet, pages: PageMap, g: Graph)
    requires Shape(s) && Covers(g, s) && Acyclic(g)
    requires FindByPid(s.procs, m.receiver) == Some(s.current)
    requires Step(s, Send(m, pages)).Next?
    ensures Acyclic(WaitsAfter(s, Send(m, pages), Step(s, Send(m, pages)).s, g))
            <==> !s.procs[s.current].state.Ready?
  {
    var c := s.current;
    if !AwaitsAt(s, c) { SelfSendBlocks(s, m, pages); }
    var g' := WaitsAfter(s, Send(m, pages), Step(s, Send(m, pages)).s, g);
    if s.procs[c].state.Ready? {
      assert g'[c] == c;
      assert Follow(g', g'[c], 0) == Some(c);
      assert Follow(g', c, 1) == Some(c);
    } else {
      RemoveEdges(g, g');
    }
  }

  /** Every event keeps an acyclic graph acyclic, except for a ready process's send to itself,
      which never does: the only new edge leads to a process that is not waiting for a reply.
      This holds for every other kind of misuse, including sends to processes that are
      blocked on a send themselves. */
  lemma StepAcyclic(s: State, e: Event, g: Graph)
    requires Shape(s) && Covers(g, s) && Acyclic(g) && Step(s, e).Next?
    ensures Acyclic(WaitsAfter(s, e, Step(s, e).s, g)) <==> !SelfBlocks(s, e)
  {
    var r := BlocksOn(s, e);
    var g' := WaitsAfter(s, e, Step(s, e).s, g);
    if r.None? {
      RemoveEdges(g, g');
    } else if r.value == s.current {
      SelfSendCircles(s, e.m, e.pages, g);
    } else {
      AddEdge(g, s.current, r.value);
      RemoveEdges(g[s.current := r.value], g');
    }
  }

  ghost predicate NoSelfBlocks(s: State, events: seq<Event>)
    requires Shape(s)
    decreases |events|
  {
    events == [] ||
    var before := events[..|events| - 1];
    NoSelfBlocks(s, before) && (Run(s, before).Next? ==> !SelfBlocks(Run(s, before).s, events[|events| - 1]))
  }

  /** The wait-for graph after a run from a state where nobody waits. */
  function RunWaits(s: State, events: seq<Event>): (g: Graph)
    requires Shape(s) && Run(s, events).Next?
    decreases |events|
  {
    if events == [] then map[]
    else
      var before := events[..|events| - 1];
      WaitsAfter(Run(s, before).s, events[|events| - 1], Run(s, events).s, RunWaits(s, before))
  }

  /** At no point of the run do processes wait for each other in a circle. */
  ghost predicate NeverCircular(s: State, events: seq<Event>)
    requires Shape(s) && Run(s, events).Next?
    decreases |events|
  {
    Acyclic(RunWaits(s, events)) && (events == [] || NeverCircular(s, events[..|events| - 1]))
  }

  lemma {:induction false} RunCovers(s: State, events: seq<Event>)
    requires Shape(s) && (forall p :: !AwaitsAt(s, p)) && Run(s, events).Next?
    ensures Covers(RunWaits(s, events), Run(s, events).s)
    decreases |events|
  {
    if events != [] {
      var before := events[..|events| - 1];
      RunCovers(s, before);
      StepCovers(Run(s, before).s, events[|events| - 1], RunWaits(s, before));
    }
  }

  /** However badly behaved a run is otherwise, processes come to wait for each other in a
      circle if and only if a ready process sends to itself. */
  lemma {:induction false} NoCircularWait(s: State, events: seq<Event>)
    requires Shape(s) && (forall p :: !AwaitsAt(s, p)) && Run(s, events).Next?
    ensures NeverCircular(s, events) <==> NoSelfBlocks(s, events)
    decreases |events|
  {
    if events != [] {
      var before := events[..|events| - 1];
      RunCovers(s, before);
      NoCircularWait(s, before);
      if NeverCircular(s, before) {
        StepAcyclic(Run(s, before).s, events[|events| - 1], RunWaits(s, before));
      }
    }
  }

  // ----- well-behaved runs -----

  /** Whom each waiting process waits for, as the story of the run records it. */
  function Targets(h: History): (g: Graph)
  {
    map p: nat | p in h.waits :: h.waits[p].target
  }

  /** The story records exactly the edges of the graph. */
  lemma LogTargets(s: State, h: History, e: Event)
    requires Shape(s) && Sized(s, h) && Queues(s, h)
    ensures var r, g := BlocksOn(s, e), Targets(Log(s, h, e));
      if r.Some? then g == Targets(h)[s.current := r.value]
      else forall x :: x in g ==> x in Targets(h) && Targets(h)[x] == g[x]
  {
    match e
    case Send(m, _) =>
      var r := FindByPid(s.procs, m.receiver);
      if r.Some? { assert QueueOk(s, h, r.value); }
    case _ =>
  }

  lemma PoliteEdge(s: State, h: History, e: Event, r: nat)
    requires Table(s, h) && Runnable(s) && Polite(s, e) && BlocksOn(s, e) == Some(r) && !SelfBlocks(s, e)
    ensures r != s.current && r !in Targets(h)
  {}

  lemma PoliteTargets(s: State, h: History, e: Event)
    requires Table(s, h) && Runnable(s) && Polite(s, e) && !SelfBlocks(s, e) && Acyclic(Targets(h))
    ensures Acyclic(Targets(Log(s, h, e)))
  {
    LogTargets(s, h, e);
    var r := BlocksOn(s, e);
    if r.Some? {
      PoliteEdge(s, h, e, r.value);
      AddEdge(Targets(h), s.current, r.value);
    } else {
      RemoveEdges(Targets(h), Targets(Log(s, h, e)));
    }
  }

  lemma {:induction false} PoliteRunAcyclic(s: State, h: History, events: seq<Event>)
    requires Inv(s, h) && PoliteRun(s, events) && Fits(NODE_SIZE, |s.procs|)
    requires NoSelfBlocks(s, events) && Acyclic(Targets(h))
    ensures Run(s, events).Next? && Acyclic(Targets(Story(s, h, events)))
    decreases |events|
  {
    RunKeeps(s, h, events);
    if events != [] {
      var before := events[..|events| - 1];
      RunKeeps(s, h, before);
      PoliteRunAcyclic(s, h, before);
      PoliteTargets(Run(s, before).s, Story(s, h, before), events[|events| - 1]);
    }
  }

  /** Somebody awaits a reply of the idle process. */
  ghost predicate AwaitsIdle(s: State, h: History) {
    exists x :: x in h.waits && h.waits[x].target == s.idle
  }

  /** Whoever awaits a reply waits, through finitely many others, for a process that can
      run. It is the idle process only if somebody has sent to that. */
  lemma ChainEndsRunnable(s: State, h: History, p: nat) returns (k: nat, q: nat)
    requires Inv(s, h) && Acyclic(Targets(h)) && p in h.waits
    ensures k < |s.procs| && Follow(Targets(h), p, k) == Some(q)
    ensures q < |s.procs| && (s.procs[q].state.Ready? || s.procs[q].state.Running?)
    ensures q == s.idle ==> AwaitsIdle(s, h)
  {
    var g := Targets(h);
    forall x | x in g ensures g[x] < |s.procs| { assert RequestOk(s, h, x); }
    k, q := ChainEnds(g, |s.procs|, p);
    assert k > 0 by { assert Follow(g, p, 0) == Some(p); }
    var x := LastEdge(g, p, k, q);
    assert RequestOk(s, h, x);
  }

  lemma {:induction false} LastEdge(g: Graph, p: nat, k: nat, q: nat) returns (x: nat)
    requires 0 < k && Follow(g, p, k) == Some(q)
    ensures x in g && g[x] == q
    decreases k
  {
    if k == 1 {
      x := p;
      assert Follow(g, g[p], 0) == Some(g[p]);
    } else {
      x := LastEdge(g, g[p], k - 1, q);
    }
  }

  /** IPC never deadlocks: while anybody awaits a reply, and nobody that of the idle process,
      the scheduler finds a process other than idle to run. */
  lemma NeverDeadlocked(s: State, h: History)
    requires Inv(s, h) && Acyclic(Targets(h)) && h.waits != map[] && !AwaitsIdle(s, h)
    ensures var s' := Schedule(s.(enabled := true));
      s'.current != s.idle && s'.procs[s'.current].state.Ready?
  {
    var p :| p in h.waits;
    var k, q := ChainEndsRunnable(s, h, p);
    FindsRunnable(s, h, q);
  }

  lemma FindsRunnable(s: State, h: History, q: nat)
    requires Inv(s, h) && q < |s.procs| && q != s.idle && (s.procs[q].state.Ready? || s.procs[q].state.Running?)
    ensures var s' := Schedule(s.(enabled := true));
      s'.current != s.idle && s'.procs[s'.current].state.Ready?
  {
    var on := s.(enabled := true);
    Enabling(s, h, true);
    ScheduleEffect(on, h);
    assert Schedule(on).procs[q].state.Ready?;
    FindSlot(on, h, on.current);
    var s1 := if s.procs[s.current].state.Blocked() then on else SetState(on, on.current, Ready);
    assert Eligible(s1.procs, s.idle, Ready, q);
  }

  // ----- requests to the idle process -----

  /** No event sends to the idle process, which answers nothing. */
  ghost predicate SparesIdle(s: State, events: seq<Event>)
    requires Shape(s)
    decreases |events|
  {
    events == [] ||
    var before, e := events[..|events| - 1], events[|events| - 1];
    && SparesIdle(s, before)
    && (Run(s, before).Next? && e.Send? ==> FindByPid(Run(s, before).s.procs, e.m.receiver) != Some(s.idle))
  }

  lemma BodyKeepsIdle(s: State, e: Event)
    requires Shape(s) && Body(s, e).Next?
    ensures Body(s, e).s.idle == s.idle
  {}

  lemma StepKeepsIdle(s: State, e: Event)
    requires Shape(s) && Step(s, e).Next?
    ensures Step(s, e).s.idle == s.idle
  {
    if !e.Tick? { BodyKeepsIdle(if e.User? then s else s.(enabled := false), e); }
  }

  lemma {:induction false} RunKeepsIdle(s: State, events: seq<Event>)
    requires Shape(s) && Run(s, events).Next?
    ensures Run(s, events).s.idle == s.idle
    decreases |events|
  {
    if events != [] {
      var before := events[..|events| - 1];
      RunKeepsIdle(s, before);
      StepKeepsIdle(Run(s, before).s, events[|events| - 1]);
    }
  }

  lemma StepSparesIdle(s: State, h: History, e: Event)
    requires Shape(s) && Sized(s, h) && Queues(s, h) && !AwaitsIdle(s, h)
    requires e.Send? ==> FindByPid(s.procs, e.m.receiver) != Some(s.idle)
    ensures forall x :: x in Log(s, h, e).waits ==> Log(s, h, e).waits[x].target != s.idle
  {
    LogTargets(s, h, e);
    var g, h' := Targets(h), Log(s, h, e);
    forall x | x in h'.waits ensures h'.waits[x].target != s.idle {
      assert Targets(h')[x] == h'.waits[x].target;
      if x in h.waits { assert g[x] == h.waits[x].target; }
    }
  }

  /** Only a send to the idle process makes anybody wait for it. */
  lemma {:induction false} NobodyAwaitsIdle(s: State, h: History, events: seq<Event>)
    requires Inv(s, h) && PoliteRun(s, events) && Fits(NODE_SIZE, |s.procs|)
    requires SparesIdle(s, events) && !AwaitsIdle(s, h)
    ensures Run(s, events).Next? && !AwaitsIdle(Run(s, events).s, Story(s, h, events))
    decreases |events|
  {
    RunKeeps(s, h, events);
    if events != [] {
      var before, e := events[..|events| - 1], events[|events| - 1];
      RunKeeps(s, h, before);
      NobodyAwaitsIdle(s, h, before);
      RunKeepsIdle(s, before);
      RunKeepsIdle(s, events);
      StepSparesIdle(Run(s, before).s, Story(s, h, before), e);
      LastEvent(s, h, events);
    }
  }

  /** A process that awaits the idle process's reply. */
  predicate StuckAt(h: History, x: nat, idle: nat) {
    x in h.waits && h.waits[x].target == idle
  }

  lemma StepStuck(s: State, h: History, e: Event, x: nat)
    requires Inv(s, h) && StuckAt(h, x, s.idle) && (e.Reply? ==> s.current != s.idle)
    ensures StuckAt(Log(s, h, e), x, s.idle)
  {
    assert x != s.current;
    if s.procs[s.current].queue != [] && e.Reply? { AnswersOwn(s, h); }
    LogKeepsWait(s, h, e, x);
  }

  /** A request stays on record until it is answered. */
  lemma LogKeepsWait(s: State, h: History, e: Event, x: nat)
    requires Shape(s) && Sized(s, h) && x in h.waits && x != s.current
    requires e.Reply? && s.procs[s.current].queue != [] ==> s.procs[s.current].queue[0].msg.sender != x
    ensures x in Log(s, h, e).waits && Log(s, h, e).waits[x] == h.waits[x]
  {}

  /** A reply answers a request to the process that replies. */
  lemma AnswersOwn(s: State, h: History)
    requires Inv(s, h) && s.procs[s.current].queue != []
    ensures StuckAt(h, s.procs[s.current].queue[0].msg.sender, s.current)
  {
    assert QueueOk(s, h, s.current);
    assert StandsFor(h, s.current, s.procs[s.current].queue[0]);
  }

  /** Whoever has sent to the idle process waits for good. */
  lemma {:induction false} StuckForGood(s: State, h: History, events: seq<Event>, x: nat)
    requires Inv(s, h) && PoliteRun(s, events) && Fits(NODE_SIZE, |s.procs|) && StuckAt(h, x, s.idle)
    ensures Run(s, events).Next? && StuckAt(Story(s, h, events), x, s.idle)
    ensures x < |Run(s, events).s.procs| && Run(s, events).s.procs[x].state.AwaitsReply()
    decreases |events|
  {
    RunKeeps(s, h, events);
    if events != [] {
      var before := events[..|events| - 1];
      RunKeeps(s, h, before);
      StuckForGood(s, h, before, x);
      RunKeepsIdle(s, before);
      StepStuck(Run(s, before).s, Story(s, h, before), events[|events| - 1], x);
      LastEvent(s, h, events);
    }
  }
}
