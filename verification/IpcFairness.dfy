// Bounded waiting in whole runs: a process that stays ready is running after at most as
// many reschedulings as there are process slots.
module IpcFairness {
  import PhysMem
  import opened ProcTable
  import opened Scheduler
  import opened Ipc

  /** The event ends by looking for the next process to run. */
  predicate Reschedules(s: State, e: Event) {
    match e
    case Tick => s.enabled
    case User(_) => false
    case _ => !NoReceiver(s, e)
  }

  /** How many events of the run reschedule. */
  function Reschedulings(s: State, events: seq<Event>): (k: nat)
    requires Shape(s)
    decreases |events|
  {
    if events == [] then 0
    else
      var before := events[..|events| - 1];
      Reschedulings(s, before)
      + if Run(s, before).Next? && Reschedules(Run(s, before).s, events[|events| - 1]) then 1 else 0
  }

  /** The run does not fault, and p is ready whenever the scheduler has looked for a process. */
  ghost predicate StaysReady(s: State, events: seq<Event>, p: nat)
    requires Shape(s)
    decreases |events|
  {
    events == [] ||
    var before := events[..|events| - 1];
    && StaysReady(s, before, p)
    && Run(s, before).Next? && Run(s, events).Next?
    && (Reschedules(Run(s, before).s, events[|events| - 1]) ==> Eligible(Run(s, events).s.procs, s.idle, Ready, p))
  }

  /** Some event of the run leaves p running. */
  ghost predicate GetsItsTurn(s: State, events: seq<Event>, p: nat)
    requires Shape(s)
    decreases |events|
  {
    events != [] &&
    (GetsItsTurn(s, events[..|events| - 1], p) || (Run(s, events).Next? && Run(s, events).s.current == p))
  }

  /** How far the scheduler's cursor is from p. */
  function Gap(s: State, p: nat): (d: nat)
    requires Shape(s) && p < |s.procs|
    ensures d < |s.procs|
  {
    Distance(|s.procs|, Wrap(s.cursor, |s.procs|), p)
  }

  lemma ScheduleSearches(s: State, p: nat)
    requires Shape(s) && s.enabled
    requires Eligible(Schedule(s).procs, s.idle, Ready, p)
    ensures Schedule(s).current == p || Gap(Schedule(s), p) < Gap(s, p)
  {
    SearchApproaches(Schedule(s).procs, s.idle, s.cursor, p);
  }

  lemma BodyKeepsScheduler(s: State, e: Event)
    requires Shape(s) && Body(s, e).Next?
    ensures var s' := Body(s, e).s; s'.cursor == s.cursor && s'.idle == s.idle && s'.current == s.current
  {}

  lemma StepSearches(s: State, e: Event, p: nat)
    requires Shape(s) && Reschedules(s, e) && Step(s, e).Next?
    requires Eligible(Step(s, e).s.procs, s.idle, Ready, p)
    ensures Step(s, e).s.current == p || Gap(Step(s, e).s, p) < Gap(s, p)
  {
    if e.Tick? {
      ScheduleSearches(s, p);
    } else {
      BodyKeepsScheduler(s.(enabled := false), e);
      ScheduleSearches(Body(s.(enabled := false), e).s.(enabled := true), p);
    }
  }

  lemma StepKeepsIdle(s: State, e: Event)
    requires Shape(s) && Step(s, e).Next?
    ensures Step(s, e).s.idle == s.idle
  {
    if !e.Tick? && !e.User? { BodyKeepsScheduler(s.(enabled := false), e); }
  }

  lemma {:induction false} RunKeepsIdle(s: State, events: seq<Event>)
    requires Shape(s) && Run(s, events).Next?
    ensures Run(s, events).s.idle == s.idle
    decreases |events|
  {
    if events != [] {
      RunKeepsIdle(s, events[..|events| - 1]);
      StepKeepsIdle(Run(s, events[..|events| - 1]).s, events[|events| - 1]);
    }
  }

  /** An event that does not reschedule leaves the scheduler alone. */
  lemma OtherEventsKeep(s: State, e: Event)
    requires Shape(s) && !Reschedules(s, e) && Step(s, e).Next?
    ensures var s' := Step(s, e).s;
      && s'.cursor == s.cursor && s'.current == s.current && s'.procs == s.procs
      && s'.enabled == (s.enabled && !NoReceiver(s, e))
  {}

  lemma {:induction false} RunApproaches(s: State, events: seq<Event>, p: nat)
    requires Shape(s) && p < |s.procs| && StaysReady(s, events, p)
    ensures Run(s, events).Next?
    ensures GetsItsTurn(s, events, p) || Gap(Run(s, events).s, p) + Reschedulings(s, events) <= Gap(s, p)
    decreases |events|
  {
    if events != [] {
      var before, e := events[..|events| - 1], events[|events| - 1];
      RunApproaches(s, before, p);
      RunKeepsIdle(s, before);
      if Reschedules(Run(s, before).s, e) {
        StepSearches(Run(s, before).s, e, p);
      } else {
        OtherEventsKeep(Run(s, before).s, e);
      }
    }
  }

  /** Bounded waiting, whatever the processes do in the meantime: a ready process runs before
      the scheduler has searched as often as there are slots. */
  lemma BoundedWaitingInRuns(s: State, events: seq<Event>, p: nat)
    requires Shape(s) && p < |s.procs| && StaysReady(s, events, p)
    requires Reschedulings(s, events) >= |s.procs|
    ensures GetsItsTurn(s, events, p)
  {
    RunApproaches(s, events, p);
  }

  // ----- when the scheduler does not search at all -----

  /** A system call that does not fault leaves scheduling on if and only if it is not a send
      to a pid that no process has. */
  lemma CallEnablesIff(s: State, e: Event)
    requires Shape(s) && !e.Tick? && !e.User? && Step(s, e).Next?
    ensures Step(s, e).s.enabled <==> !NoReceiver(s, e)
  {
    if NoReceiver(s, e) {
      OtherEventsKeep(s, e);
    } else {
      ScheduleKeepsFlag(Body(s.(enabled := false), e).s.(enabled := true));
    }
  }

  lemma ScheduleKeepsFlag(s: State)
    requires Shape(s)
    ensures Schedule(s).enabled == s.enabled
  {}

  /** A timer tick, user code, or another send to a pid that no process has. */
  predicate Passive(s: State, e: Event) {
    e.Tick? || e.User? || NoReceiver(s, e)
  }

  /** With scheduling off, the current process keeps the processor until a call of its own
      turns it on again: no tick ever takes it away. */
  lemma {:induction false} SchedulingStaysOff(s: State, events: seq<Event>)
    requires Shape(s) && !s.enabled && forall e :: e in events ==> Passive(s, e)
    ensures Run(s, events).Next?
    ensures var s' := Run(s, events).s;
      !s'.enabled && s'.current == s.current && s'.procs == s.procs && Reschedulings(s, events) == 0
    decreases |events|
  {
    if events != [] {
      var before, e := events[..|events| - 1], events[|events| - 1];
      forall x | x in before ensures Passive(s, x) { assert x in events; }
      SchedulingStaysOff(s, before);
      assert e in events;
      var t := Run(s, before).s;
      assert Step(t, e).Next?;
      OtherEventsKeep(t, e);
    }
  }

  /** So a send to a pid that no process has starves everybody else for as long as its sender
      makes no other call. */
  lemma FailedSendStarves(s: State, m: Packet, pages: PhysMem.PageMap, events: seq<Event>)
    requires Shape(s) && NoReceiver(s, Send(m, pages)) && forall e :: e in events ==> Passive(s, e)
    ensures Step(s, Send(m, pages)).Next? && Run(Step(s, Send(m, pages)).s, events).Next?
    ensures Run(Step(s, Send(m, pages)).s, events).s.current == s.current
  {
    OtherEventsKeep(s, Send(m, pages));
    SchedulingStaysOff(Step(s, Send(m, pages)).s, events);
  }
}
