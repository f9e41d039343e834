// Who is answered, in runs of any kind: replies keep to the order in which messages were accepted
// if and only if none of them wakes a process that is itself waiting for a message.
module IpcAccounts {
  import opened Common
  import opened ProcTable
  import opened PhysMem
  import opened Scheduler
  import opened Ipc
  import opened IpcInvariant
  import opened IpcFairness
  import opened IpcQueues
  import opened IpcBoot

  /** What process i has accepted is what it has replied to and what is left in its queue. */
  ghost predicate BookAt(s: State, h: History, i: nat)
    requires Sized(s, h) && i < |s.procs|
  {
    h.accepted[i] == h.replied[i] + Unanswered(s.procs[i])
  }

  ghost predicate Books(s: State, h: History) {
    Sized(s, h) && forall i :: 0 <= i < |s.procs| ==> BookAt(s, h, i)
  }

  predicate Exists(s: State, pid: nat) {
    pid < |s.procs| && !s.procs[pid].state.Unused?
  }

  /** A process that waits for a message has its placeholder; all else that is queued comes from
      processes that exist. */
  ghost predicate SlotSane(s: State, i: nat)
    requires i < |s.procs|
  {
    var p := s.procs[i];
    && p.pid == (if p.state.Unused? then NO_PID else i)
    && if p.state.RecvBlocked? then |p.queue| == 1
       else forall j :: 0 <= j < |p.queue| ==> Exists(s, p.queue[j].msg.sender)
  }

  ghost predicate Sane(s: State) {
    && Shape(s) && |s.procs| < NO_PID && Runnable(s)
    && (s.procs[s.idle].state.Ready? || s.procs[s.idle].state.Running?)
    && forall i :: 0 <= i < |s.procs| ==> SlotSane(s, i)
  }

  /** The idle process makes no system call. Nothing else is asked of an event here. */
  predicate Quiet(s: State, e: Event) {
    e.Tick? || e.User? || s.current != s.idle
  }

  /** A reply whose addressee is waiting for a message by now: it had been left to run on after
      its send. */
  ghost predicate WakesReceiver(s: State, e: Event)
    requires Shape(s)
  {
    e.Reply? && s.procs[s.current].queue != [] &&
    var w := FindByPid(s.procs, s.procs[s.current].queue[0].msg.sender);
    w.Some? && s.procs[w.value].state.RecvBlocked?
  }

  lemma SlotFound(s: State, pid: nat)
    requires Sane(s) && Exists(s, pid)
    ensures FindByPid(s.procs, pid) == Some(pid)
  {
    forall i | 0 <= i < |s.procs| ensures s.procs[i].pid == (if s.procs[i].state.Unused? then NO_PID else i) {
      assert SlotSane(s, i);
    }
    assert s.procs[pid].pid == pid;
  }

  lemma CurrentSlot(s: State)
    requires Sane(s)
    ensures s.procs[s.current].pid == s.current
    ensures FindByPid(s.procs, s.procs[s.current].pid) == Some(s.current)
  {
    assert SlotSane(s, s.current);
    SlotFound(s, s.current);
  }

  // ----- one event -----

  lemma ExistsStill(s: State, e: Event, s': State, i: nat)
    requires Sane(s) && i < |s.procs| && Moves(s, e, i, s')
    ensures s'.procs[i].state.Unused? <==> s.procs[i].state.Unused?
  {
    assert SlotSane(s, s.current) && SlotSane(s, i);
  }

  lemma CurrentNode(s: State, j: nat)
    requires Sane(s) && j < |s.procs[s.current].queue|
    ensures Exists(s, s.procs[s.current].queue[j].msg.sender)
  {
    assert SlotSane(s, s.current);
  }

  /** The queue that a slot ends up with, unless its process waits for a message then. */
  lemma SendersExist(s: State, e: Event, i: nat, s': State)
    requires Sane(s) && i < |s.procs| && Moves(s, e, i, s') && !WakesReceiver(s, e)
    requires !s'.procs[i].state.RecvBlocked?
    ensures forall j :: 0 <= j < |s'.procs[i].queue| ==> Exists(s, s'.procs[i].queue[j].msg.sender)
  {
    assert SlotSane(s, i);
    CurrentSlot(s);
  }

  lemma SlotStaysSane(s: State, e: Event, i: nat, s': State)
    requires Sane(s) && i < |s.procs| == |s'.procs| && !WakesReceiver(s, e)
    requires forall k :: 0 <= k < |s.procs| ==> Moves(s, e, k, s')
    ensures SlotSane(s', i)
  {
    assert SlotSane(s, i);
    assert Moves(s, e, i, s');
    ExistsStill(s, e, s', i);
    if !s'.procs[i].state.RecvBlocked? {
      SendersExist(s, e, i, s');
      forall j | 0 <= j < |s'.procs[i].queue| ensures Exists(s', s'.procs[i].queue[j].msg.sender) {
        var p := s'.procs[i].queue[j].msg.sender;
        assert Exists(s, p) && Moves(s, e, p, s');
        ExistsStill(s, e, s', p);
      }
    }
  }

  lemma ScheduledRuns(s: State)
    requires Shape(s) && s.enabled && FindByPid(s.procs, s.procs[s.current].pid) == Some(s.current)
    requires s.procs[s.idle].state.Ready? || s.procs[s.idle].state.Running?
    ensures Runnable(Schedule(s)) && Schedule(s).idle == s.idle
  {}

  lemma IdleStays(s: State, e: Event, s': State)
    requires Sane(s) && Quiet(s, e) && |s'.procs| == |s.procs| && CallMoves(s, e, s.idle, s')
    ensures s'.procs[s.idle].state.Ready? || s'.procs[s.idle].state.Running?
  {}

  lemma StillRuns(s: State, e: Event)
    requires Sane(s) && Quiet(s, e) && Step(s, e).Next?
    ensures Runnable(Step(s, e).s)
    ensures var s' := Step(s, e).s; s'.procs[s'.idle].state.Ready? || s'.procs[s'.idle].state.Running?
  {
    CurrentSlot(s);
    StepMoves(s, e, s.idle);
    StepKeepsIdle(s, e);
    if Reschedules(s, e) {
      if e.Tick? {
        ScheduledRuns(s);
      } else {
        var off := s.(enabled := false);
        var mid := Body(off, e).s;
        BodyMoves(off, e, s.idle);
        AnyFlag(s, false, e, s.idle, mid);
        IdleStays(s, e, mid);
        CurrentFound(off, e, mid);
        BodyKeepsScheduler(off, e);
        ScheduledRuns(mid.(enabled := true));
      }
    } else {
      OtherEventsKeep(s, e);
    }
  }

  /** Until a reply wakes a process that waits for a message, all is sane. */
  lemma StepStaysSane(s: State, e: Event)
    requires Sane(s) && Quiet(s, e) && Step(s, e).Next? && !WakesReceiver(s, e)
    ensures Sane(Step(s, e).s)
  {
    var s' := Step(s, e).s;
    CurrentSlot(s);
    forall k | 0 <= k < |s.procs| ensures Moves(s, e, k, s') { StepMoves(s, e, k); }
    forall i | 0 <= i < |s.procs| ensures SlotSane(s', i) { SlotStaysSane(s, e, i, s'); }
    StillRuns(s, e);
  }

  // ----- the books -----

  lemma SendersDrop(q: seq<Node>)
    requires q != []
    ensures Senders(q) == [q[0].msg.sender] + Senders(q[1..])
  {}

  /** What the queue of process i has come to stand for, if no reply has woken it. */
  lemma UnansweredMoves(s: State, e: Event, i: nat, s': State)
    requires Sane(s) && i < |s.procs| && Moves(s, e, i, s')
    ensures var rest, rest' := Unanswered(s.procs[i]), Unanswered(s'.procs[i]);
      match e
      case Send(m, _) =>
        rest' == if FindByPid(s.procs, m.receiver) == Some(i) then rest + [s.current] else rest
      case Reply(_, _) =>
        var q := s.procs[s.current].queue;
        if q == [] then rest' == rest
        else if i == s.current then rest == [q[0].msg.sender] + rest'
        else if FindByPid(s.procs, q[0].msg.sender) == Some(i) && s.procs[i].state.RecvBlocked? then
          rest == [] && |rest'| == 1
        else rest' == rest
      case _ => rest' == rest
  {
    assert SlotSane(s, i);
    CurrentSlot(s);
    match e
    case Send(m, _) =>
      if FindByPid(s.procs, m.receiver) == Some(i) && !s.procs[i].state.RecvBlocked? {
        var q, q' := s.procs[i].queue, s'.procs[i].queue;
        assert q' == q + [q'[|q|]];
        SendersAppend(q, q'[|q|]);
      }
    case Reply(_, _) =>
      if s.procs[s.current].queue != [] { SendersDrop(s.procs[s.current].queue); }
    case _ =>
  }

  /** What the log records at process i. */
  lemma LogMoves(s: State, h: History, e: Event, i: nat)
    requires Sane(s) && Sized(s, h) && i < |s.procs|
    ensures var h', q := Log(s, h, e), s.procs[s.current].queue;
      && h'.accepted[i] == (if e.Send? && FindByPid(s.procs, e.m.receiver) == Some(i)
                            then h.accepted[i] + [s.current] else h.accepted[i])
      && h'.replied[i] == (if e.Reply? && q != [] && i == s.current
                           then h.replied[i] + [q[0].msg.sender] else h.replied[i])
  {}

  lemma OneMoreAccepted(accepted: seq<nat>, replied: seq<nat>, rest: seq<nat>, c: nat)
    requires accepted == replied + rest
    ensures accepted + [c] == replied + (rest + [c])
  {}

  lemma OneMoreReplied(accepted: seq<nat>, replied: seq<nat>, rest: seq<nat>, p: nat)
    requires accepted == replied + ([p] + rest)
    ensures accepted == (replied + [p]) + rest
  {}

  lemma OneTooMany(accepted: seq<nat>, replied: seq<nat>, rest: seq<nat>)
    requires accepted == replied + [] && |rest| == 1
    ensures accepted != replied + rest
  {
    assert |replied + rest| == |accepted| + 1;
  }

  /** One event keeps the book of process i, unless a reply wakes it while it waits. */
  lemma BookKept(s: State, h: History, e: Event, i: nat, s': State)
    requires Sane(s) && Sized(s, h) && i < |s.procs| && Moves(s, e, i, s') && BookAt(s, h, i)
    ensures Sized(s', Log(s, h, e))
    ensures BookAt(s', Log(s, h, e), i) <==>
      !(WakesReceiver(s, e) && FindByPid(s.procs, s.procs[s.current].queue[0].msg.sender) == Some(i))
  {
    LogMoves(s, h, e, i);
    UnansweredMoves(s, e, i, s');
    var rest, rest' := Unanswered(s.procs[i]), Unanswered(s'.procs[i]);
    var q := s.procs[s.current].queue;
    if e.Send? && FindByPid(s.procs, e.m.receiver) == Some(i) {
      OneMoreAccepted(h.accepted[i], h.replied[i], rest, s.current);
    } else if e.Reply? && q != [] && i == s.current {
      OneMoreReplied(h.accepted[i], h.replied[i], rest', q[0].msg.sender);
    } else if WakesReceiver(s, e) && FindByPid(s.procs, q[0].msg.sender) == Some(i) {
      OneTooMany(h.accepted[i], h.replied[i], rest');
    }
  }

  /** An event keeps the books if and only if it is no reply that wakes a process that waits for a
      message. */
  lemma StepBooks(s: State, h: History, e: Event)
    requires Sane(s) && Books(s, h) && Quiet(s, e) && Step(s, e).Next?
    ensures Books(Step(s, e).s, Log(s, h, e)) <==> !WakesReceiver(s, e)
  {
    var s', h' := Step(s, e).s, Log(s, h, e);
    CurrentSlot(s);
    forall i | 0 <= i < |s.procs|
      ensures BookAt(s', h', i) <==>
        !(WakesReceiver(s, e) && FindByPid(s.procs, s.procs[s.current].queue[0].msg.sender) == Some(i))
    {
      assert BookAt(s, h, i);
      StepMoves(s, e, i);
      BookKept(s, h, e, i, s');
    }
    if WakesReceiver(s, e) {
      var w := FindByPid(s.procs, s.procs[s.current].queue[0].msg.sender).value;
      assert !BookAt(s', h', w);
    }
  }

  // ----- runs -----

  ghost predicate QuietRun(s: State, events: seq<Event>)
    requires Shape(s)
    decreases |events|
  {
    events == [] ||
    var before := events[..|events| - 1];
    QuietRun(s, before) && (Run(s, before).Next? ==> Quiet(Run(s, before).s, events[|events| - 1]))
  }

  /** No reply of the run wakes a process that is waiting for a message. */
  ghost predicate WakesNoReceiver(s: State, events: seq<Event>)
    requires Shape(s)
    decreases |events|
  {
    events == [] ||
    var before := events[..|events| - 1];
    && WakesNoReceiver(s, before)
    && (Run(s, before).Next? ==> !WakesReceiver(Run(s, before).s, events[|events| - 1]))
  }

  /** The books are right at every point of the run. */
  ghost predicate AlwaysBooked(s: State, h: History, events: seq<Event>)
    requires Shape(s) && Sized(s, h) && Run(s, events).Next?
    decreases |events|
  {
    && Books(Run(s, events).s, Story(s, h, events))
    && (events == [] || AlwaysBooked(s, h, events[..|events| - 1]))
  }

  lemma {:induction false} RunBooks(s: State, h: History, events: seq<Event>)
    requires Sane(s) && Books(s, h) && QuietRun(s, events) && Run(s, events).Next?
    ensures AlwaysBooked(s, h, events) <==> WakesNoReceiver(s, events)
    ensures WakesNoReceiver(s, events) ==> Sane(Run(s, events).s)
    decreases |events|
  {
    if events != [] {
      var before, e := events[..|events| - 1], events[|events| - 1];
      RunBooks(s, h, before);
      LastEvent(s, h, events);
      if WakesNoReceiver(s, before) {
        var t := Run(s, before).s;
        StepBooks(t, Story(s, h, before), e);
        if !WakesReceiver(t, e) { StepStaysSane(t, e); }
      }
    }
  }

  /** In a run of any kind in which no reply wakes a process that waits for a message, each process
      replies in the order in which it accepted. */
  lemma RepliesFollow(s: State, h: History, events: seq<Event>, i: nat)
    requires Sane(s) && Books(s, h) && QuietRun(s, events) && Run(s, events).Next? && i < |s.procs|
    requires WakesNoReceiver(s, events)
    ensures Story(s, h, events).replied[i] <= Story(s, h, events).accepted[i]
  {
    RunBooks(s, h, events);
    assert BookAt(Run(s, events).s, Story(s, h, events), i);
  }

  lemma BootSane(n: nat, k: nat, mem: Memory)
    requires 3 <= k <= n < NO_PID
    ensures Created(n, k, mem).Next? && Created(n, k, mem).s.current < n
    ensures var s := Kickoff(Created(n, k, mem).s); |s.procs| == n && Sane(s) && Books(s, Fresh(n))
  {
    CreatedTable(n, k, mem);
    var s := Kickoff(Created(n, k, mem).s);
    forall i | 0 <= i < n ensures SlotSane(s, i) && BookAt(s, Fresh(n), i) {}
  }

  /** From boot, in every run that does not fault and in which the idle process makes no call: the
      books are right throughout if and only if no reply wakes a process that waits for a message.
      Then everybody replies in the order of acceptance. */
  lemma BooksFromBoot(n: nat, k: nat, mem: Memory, events: seq<Event>)
    requires 3 <= k <= n < NO_PID
    requires Created(n, k, mem).Next? && Created(n, k, mem).s.current < n
    requires var s := Kickoff(Created(n, k, mem).s); Shape(s) && Run(s, events).Next? && QuietRun(s, events)
    ensures var s := Kickoff(Created(n, k, mem).s);
      && Sized(s, Fresh(n))
      && (AlwaysBooked(s, Fresh(n), events) <==> WakesNoReceiver(s, events))
      && (WakesNoReceiver(s, events) ==>
            forall i :: 0 <= i < n ==> Story(s, Fresh(n), events).replied[i] <= Story(s, Fresh(n), events).accepted[i])
  {
    BootSane(n, k, mem);
    var s := Kickoff(Created(n, k, mem).s);
    RunBooks(s, Fresh(n), events);
    if WakesNoReceiver(s, events) {
      forall i | 0 <= i < n ensures Story(s, Fresh(n), events).replied[i] <= Story(s, Fresh(n), events).accepted[i] {
        RepliesFollow(s, Fresh(n), events, i);
      }
    }
  }
}
