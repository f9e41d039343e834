// How secondary cores, all started at once on the same code, get stacks of their own:
// find_my_stack in kernel/trampoline_bin.asm.
module StackAssignment {
  import opened Common

  const TRAMPOLINE_LOAD_ADDR: nat := 0x8000
  const TRAMPOLINE_MAX_SIZE: nat := 0x1000
  const STACK_SIZE: nat := 256
  const STACKS_START_ADDR: nat := TRAMPOLINE_LOAD_ADDR + TRAMPOLINE_MAX_SIZE

  /** A core is at the load, or between load and exchange with eax loaded, or past the loop
      with its stack pointer set. */
  datatype Core = AtLoad | AtExchange(eax: U32) | Past(esp: U32)

  datatype State = State(uniqueStackId: U32, cores: seq<Core>)

  function Inc(w: U32): U32 { (w + 1) % WORD_SPAN }

  function Dec(w: U32): U32 { (w - 1) % WORD_SPAN }

  function Shl8(w: U32): U32 { w * 256 % WORD_SPAN }

  /** The instructions after the loop, from the incremented value in ebx on. */
  function StackPointer(ebx: U32): U32 {
    (Shl8(Inc(Dec(ebx))) + STACKS_START_ADDR) % WORD_SPAN
  }

  /** One core's next access to the shared counter, with the register work that follows it. A
      failed exchange goes back to the load. */
  function Step(s: State, c: nat): State {
    if c >= |s.cores| then s
    else match s.cores[c]
      case AtLoad => s.(cores := s.cores[c := AtExchange(s.uniqueStackId)])
      case AtExchange(eax) =>
        if s.uniqueStackId == eax
        then State(Inc(eax), s.cores[c := Past(StackPointer(Inc(eax)))])
        else s.(cores := s.cores[c := AtLoad])
      case Past(_) => s
  }

  predicate Wins(s: State, c: nat) {
    c < |s.cores| && s.cores[c].AtExchange? && s.uniqueStackId == s.cores[c].eax
  }

  function Started(n: nat): State {
    State(0, seq(n, i => AtLoad))
  }

  /** Any interleaving: the cores that take the steps, one after the other. */
  function Run(s: State, schedule: seq<nat>): State {
    if schedule == [] then s
    else Step(Run(s, schedule[..|schedule| - 1]), schedule[|schedule| - 1])
  }

  /** The cores whose exchange succeeded, in order. */
  function Winners(s: State, schedule: seq<nat>): (winners: seq<nat>) {
    if schedule == [] then []
    else
      var before, c := schedule[..|schedule| - 1], schedule[|schedule| - 1];
      Winners(s, before) + if Wins(Run(s, before), c) then [c] else []
  }

  function Turns(schedule: seq<nat>, c: nat): nat {
    if schedule == [] then 0
    else Turns(schedule[..|schedule| - 1], c) + if schedule[|schedule| - 1] == c then 1 else 0
  }

  /** The stacks of n cores fit below 4 GiB. */
  predicate Fits(n: nat) {
    STACKS_START_ADDR + n * STACK_SIZE < WORD_SPAN
  }

  function StackTop(id: nat): nat {
    STACKS_START_ADDR + (id + 1) * STACK_SIZE
  }

  lemma StackPointerIsTop(id: U32)
    requires Fits(id + 1)
    ensures Inc(id) == id + 1 && StackPointer(Inc(id)) == StackTop(id)
  {}

  predicate HasStack(s: State, c: nat, id: nat) {
    c < |s.cores| && s.cores[c].Past? && s.cores[c].esp == StackTop(id)
  }

  /** The winners are the cores past the loop; the k-th of them has the k-th stack. */
  ghost predicate Ordered(s: State, winners: seq<nat>) {
    && s.uniqueStackId == |winners|
    && (forall k :: 0 <= k < |winners| ==> HasStack(s, winners[k], k))
    && (forall j, k :: 0 <= j < k < |winners| ==> winners[j] != winners[k])
    && (forall c :: 0 <= c < |s.cores| && s.cores[c].Past? ==> c in winners)
    && (forall c :: 0 <= c < |s.cores| && s.cores[c].AtExchange? ==> s.cores[c].eax <= s.uniqueStackId)
  }

  /** No more winners than cores, and while some core is not past the loop, fewer. */
  lemma WinnersFit(s: State, winners: seq<nat>, c: nat)
    requires Ordered(s, winners) && c < |s.cores| && !s.cores[c].Past?
    ensures |winners| < |s.cores|
  {
    assert c !in winners;
    DistinctBelow(winners + [c], |s.cores|);
  }

  lemma OrderKept(s: State, winners: seq<nat>, c: nat)
    requires Ordered(s, winners) && Fits(|s.cores|)
    ensures Ordered(Step(s, c), winners + if Wins(s, c) then [c] else [])
  {
    if Wins(s, c) {
      WinnersFit(s, winners, c);
      StackPointerIsTop(s.uniqueStackId);
    }
  }

  lemma {:induction false} OrderInRuns(n: nat, schedule: seq<nat>)
    requires Fits(n)
    ensures |Run(Started(n), schedule).cores| == n
    ensures Ordered(Run(Started(n), schedule), Winners(Started(n), schedule))
  {
    if schedule != [] {
      var before := schedule[..|schedule| - 1];
      OrderInRuns(n, before);
      OrderKept(Run(Started(n), before), Winners(Started(n), before), schedule[|schedule| - 1]);
    }
  }

  /** Where the code and the shared counter are: the page at 0x8000. */
  predicate InTrampolinePage(a: nat) { 0x8000 <= a < 0x9000 }

  /** A byte of the stack below a stack pointer just set. */
  predicate InStack(esp: nat, a: nat) { esp - STACK_SIZE <= a < esp }

  /** The k-th core past the loop starts with esp 256 bytes further on than the one before, from
      0x9100 on. */
  lemma StackTops(n: nat, schedule: seq<nat>, k: nat)
    requires Fits(n) && k < |Winners(Started(n), schedule)|
    ensures var c, s := Winners(Started(n), schedule)[k], Run(Started(n), schedule);
      c < n && |s.cores| == n && s.cores[c].Past? && s.cores[c].esp == 0x9100 + 0x100 * k
  {
    OrderInRuns(n, schedule);
    assert HasStack(Run(Started(n), schedule), Winners(Started(n), schedule)[k], k);
  }

  /** Under every interleaving, the cores past the loop have stacks of 256 bytes that are
      pairwise disjoint, keep clear of the page with the code and the counter, and lie below
      where the counter points. */
  lemma StacksDisjoint(n: nat, schedule: seq<nat>, c: nat, d: nat)
    requires Fits(n) && c < n && d < n && c != d
    ensures var s := Run(Started(n), schedule);
      && |s.cores| == n
      && (s.cores[c].Past? ==>
            && TRAMPOLINE_LOAD_ADDR + TRAMPOLINE_MAX_SIZE <= s.cores[c].esp - STACK_SIZE
            && s.cores[c].esp <= STACKS_START_ADDR + s.uniqueStackId * STACK_SIZE
            && forall a: nat :: InStack(s.cores[c].esp, a) ==> !InTrampolinePage(a))
      && (s.cores[c].Past? && s.cores[d].Past? ==>
            forall a: nat :: InStack(s.cores[c].esp, a) ==> !InStack(s.cores[d].esp, a))
  {
    OrderInRuns(n, schedule);
    var s, winners := Run(Started(n), schedule), Winners(Started(n), schedule);
    if s.cores[c].Past? {
      var i :| 0 <= i < |winners| && winners[i] == c;
      StackTops(n, schedule, i);
      if s.cores[d].Past? {
        var j :| 0 <= j < |winners| && winners[j] == d;
        StackTops(n, schedule, j);
        assert i < j || j < i;
      }
    }
  }

  /** A core's turns so far are bounded by the successes of others that it has seen. */
  ghost predicate Patient(s: State, c: nat, turns: nat)
    requires c < |s.cores|
  {
    match s.cores[c]
    case AtLoad => turns <= 2 * s.uniqueStackId
    case AtExchange(eax) => turns <= 2 * eax + 1
    case Past(_) => true
  }

  lemma {:induction false} PatientInRuns(n: nat, schedule: seq<nat>, c: nat)
    requires Fits(n) && c < n
    ensures |Run(Started(n), schedule).cores| == n
    ensures Patient(Run(Started(n), schedule), c, Turns(schedule, c))
  {
    if schedule != [] {
      var before := schedule[..|schedule| - 1];
      PatientInRuns(n, before, c);
      OrderInRuns(n, before);
      var s, winners, d := Run(Started(n), before), Winners(Started(n), before), schedule[|schedule| - 1];
      if Wins(s, d) {
        WinnersFit(s, winners, d);
        StackPointerIsTop(s.uniqueStackId);
      }
    }
  }

  /** However the cores interleave, each one has its stack after at most 2n steps of its own:
      an exchange fails only if another core succeeded since the load, and every core succeeds
      only once. */
  lemma EveryCoreGetsAStack(n: nat, schedule: seq<nat>, c: nat)
    requires Fits(n) && c < n && Turns(schedule, c) >= 2 * n
    ensures |Run(Started(n), schedule).cores| == n && Run(Started(n), schedule).cores[c].Past?
  {
    var s := Run(Started(n), schedule);
    PatientInRuns(n, schedule, c);
    OrderInRuns(n, schedule);
    if !s.cores[c].Past? {
      WinnersFit(s, Winners(Started(n), schedule), c);
    }
  }

  /** A core that has no stack yet loads and exchanges in turn: it is at the load after an even
      number of steps of its own, and at the exchange after an odd one. */
  lemma {:induction false} LoadsAndExchanges(n: nat, schedule: seq<nat>, c: nat)
    requires c < n
    ensures |Run(Started(n), schedule).cores| == n
    ensures match Run(Started(n), schedule).cores[c]
      case AtLoad => Turns(schedule, c) % 2 == 0
      case AtExchange(_) => Turns(schedule, c) % 2 == 1
      case Past(_) => true
  {
    if schedule != [] {
      LoadsAndExchanges(n, schedule[..|schedule| - 1], c);
    }
  }

  /** An exchange that fails means that another core's exchange has succeeded since the load,
      from which on this core has not moved. */
  lemma {:induction false} FailureMeansProgress(s: State, schedule: seq<nat>, c: nat) returns (i: nat)
    requires c < |s.cores| && s.cores[c] == AtExchange(s.uniqueStackId)
    requires c !in schedule && !Wins(Run(s, schedule), c)
    ensures i < |schedule| && schedule[i] != c && Wins(Run(s, schedule[..i]), schedule[i])
  {
    if schedule == [] {
      assert false;
    } else {
      var before, d := schedule[..|schedule| - 1], schedule[|schedule| - 1];
      if Wins(Run(s, before), d) {
        i := |schedule| - 1;
      } else {
        Unmoved(s, schedule, c);
        Unmoved(s, before, c);
        i := FailureMeansProgress(s, before, c);
        assert before[..i] == schedule[..i];
      }
    }
  }

  lemma {:induction false} Unmoved(s: State, schedule: seq<nat>, c: nat)
    requires c < |s.cores| && c !in schedule
    ensures |Run(s, schedule).cores| == |s.cores| && Run(s, schedule).cores[c] == s.cores[c]
  {
    if schedule != [] {
      Unmoved(s, schedule[..|schedule| - 1], c);
    }
  }
}

// kprintf's lock, kernel/print.c with the macros of include/kernel/smp.h: any number of CPUs,
// each with its messages to print.
module PrintLock {
  import opened Common

  type Message = seq<Byte>

  /** Where a CPU is: outside or spinning at LOCK; writing its message to the serial port; or
      writing it to the screen, after which comes UNLOCK. */
  datatype Phase = AtLock | ToCom(i: nat) | ToVga(i: nat)

  datatype Cpu = Cpu(phase: Phase, todo: seq<Message>)

  datatype Call = Call(cpu: nat, message: Message)

  /** `returned` records the calls that have come back, in order. */
  datatype State = State(locked: bool, cpus: seq<Cpu>, com: seq<Byte>, vga: seq<Byte>, returned: seq<Call>)

  /** One CPU's next step: an attempt to take the lock, one character, a switch from the
      serial port to the screen, or the release. A CPU without messages does nothing. */
  function Step(s: State, c: nat): State {
    if c >= |s.cpus| || s.cpus[c].todo == [] then s
    else
      var cpu := s.cpus[c];
      var message := cpu.todo[0];
      match cpu.phase
      case AtLock =>
        if s.locked then s else s.(locked := true, cpus := s.cpus[c := cpu.(phase := ToCom(0))])
      case ToCom(i) =>
        if i < |message|
        then s.(com := s.com + [message[i]], cpus := s.cpus[c := cpu.(phase := ToCom(i + 1))])
        else s.(cpus := s.cpus[c := cpu.(phase := ToVga(0))])
      case ToVga(i) =>
        if i < |message|
        then s.(vga := s.vga + [message[i]], cpus := s.cpus[c := cpu.(phase := ToVga(i + 1))])
        else s.(locked := false, cpus := s.cpus[c := Cpu(AtLock, cpu.todo[1..])],
                returned := s.returned + [Call(c, message)])
  }

  function Started(programs: seq<seq<Message>>): State {
    State(false, seq(|programs|, c requires 0 <= c < |programs| => Cpu(AtLock, programs[c])), [], [], [])
  }

  function Run(s: State, schedule: seq<nat>): State {
    if schedule == [] then s
    else Step(Run(s, schedule[..|schedule| - 1]), schedule[|schedule| - 1])
  }

  function Texts(calls: seq<Call>): seq<Byte> {
    if calls == [] then [] else Texts(calls[..|calls| - 1]) + calls[|calls| - 1].message
  }

  /** The messages that one CPU has printed. */
  function Of(calls: seq<Call>, c: nat): seq<Message> {
    if calls == [] then []
    else
      var last := calls[|calls| - 1];
      Of(calls[..|calls| - 1], c) + if last.cpu == c then [last.message] else []
  }

  predicate Inside(s: State, c: nat) {
    c < |s.cpus| && !s.cpus[c].phase.AtLock?
  }

  /** What the CPU inside has written so far. */
  function ComPart(s: State, c: nat): seq<Byte>
    requires Inside(s, c) && s.cpus[c].todo != []
  {
    var message := s.cpus[c].todo[0];
    match s.cpus[c].phase
    case ToCom(i) => if i <= |message| then message[..i] else message
    case _ => message
  }

  function VgaPart(s: State, c: nat): seq<Byte>
    requires Inside(s, c) && s.cpus[c].todo != []
  {
    var message := s.cpus[c].todo[0];
    match s.cpus[c].phase
    case ToVga(i) => if i <= |message| then message[..i] else message
    case _ => []
  }

  /** A CPU inside has a message, and has not written more than it. */
  ghost predicate InsideSane(s: State) {
    forall c :: 0 <= c < |s.cpus| && Inside(s, c) ==>
      && s.cpus[c].todo != []
      && (s.cpus[c].phase.ToCom? ==> s.cpus[c].phase.i <= |s.cpus[c].todo[0]|)
      && (s.cpus[c].phase.ToVga? ==> s.cpus[c].phase.i <= |s.cpus[c].todo[0]|)
  }

  /** The lock is taken exactly if a CPU is inside, and then only that one. */
  ghost predicate Exclusive(s: State) {
    && (s.locked <==> exists c :: 0 <= c < |s.cpus| && Inside(s, c))
    && (forall c, d :: 0 <= c < |s.cpus| && 0 <= d < |s.cpus| && Inside(s, c) && Inside(s, d) ==> c == d)
  }

  /** Both outputs are whole messages, and then the beginning of the message of the CPU
      inside. */
  ghost predicate WholeMessages(s: State) {
    && (!s.locked ==> s.com == Texts(s.returned) && s.vga == Texts(s.returned))
    && (forall c :: 0 <= c < |s.cpus| && Inside(s, c) && s.cpus[c].todo != [] ==>
          && s.com == Texts(s.returned) + ComPart(s, c)
          && s.vga == Texts(s.returned) + VgaPart(s, c))
  }

  /** Every CPU has printed its messages in order, and the rest is still to come. */
  ghost predicate InProgramOrder(s: State, programs: seq<seq<Message>>) {
    |s.cpus| == |programs| && forall c :: 0 <= c < |programs| ==> Of(s.returned, c) + s.cpus[c].todo == programs[c]
  }

  lemma ExclusionKept(s: State, c: nat)
    requires InsideSane(s) && Exclusive(s)
    ensures InsideSane(Step(s, c)) && Exclusive(Step(s, c))
  {
    var s' := Step(s, c);
    forall d | 0 <= d < |s'.cpus| && d != c ensures Inside(s', d) == Inside(s, d) {}
    if c < |s.cpus| && s.cpus[c].todo != [] {
      assert Inside(s, c) ==> s.locked;
      assert s'.locked && !Inside(s', c) ==> s.locked && !Inside(s, c);
    }
  }

  lemma MessagesKept(s: State, c: nat)
    requires InsideSane(s) && Exclusive(s) && WholeMessages(s)
    ensures WholeMessages(Step(s, c))
  {
    var s' := Step(s, c);
    ExclusionKept(s, c);
    if s' != s {
      var message := s.cpus[c].todo[0];
      assert Inside(s, c) ==> s.locked;
      assert s'.locked ==> Inside(s', c);
      match s.cpus[c].phase {
        case AtLock =>
          assert message[..0] == [] && s.com + message[..0] == s.com;
        case ToCom(i) =>
          if i < |message| {
            assert message[..i + 1] == message[..i] + [message[i]];
            assert Texts(s.returned) + message[..i] + [message[i]] == Texts(s.returned) + message[..i + 1];
          } else {
            assert message[..i] == message && message[..0] == [];
          }
        case ToVga(i) =>
          if i < |message| {
            assert message[..i + 1] == message[..i] + [message[i]];
            assert Texts(s.returned) + message[..i] + [message[i]] == Texts(s.returned) + message[..i + 1];
          } else {
            assert message[..i] == message;
            assert s'.returned[..|s.returned|] == s.returned;
          }
      }
    }
  }

  lemma OrderKept(s: State, programs: seq<seq<Message>>, c: nat)
    requires InProgramOrder(s, programs)
    ensures InProgramOrder(Step(s, c), programs)
  {
    var s' := Step(s, c);
    if s'.returned != s.returned {
      assert s'.returned[..|s.returned|] == s.returned;
      var todo := s.cpus[c].todo;
      assert Of(s.returned, c) + [todo[0]] + todo[1..] == Of(s.returned, c) + todo;
    }
  }

  /** In every interleaving, at most one CPU is inside kprintf's lock, the output of the
      serial port and of the screen is whole messages followed by the beginning of the one
      being printed, and every CPU's messages appear in its own order. */
  lemma {:induction false} PrintsAreAtomic(programs: seq<seq<Message>>, schedule: seq<nat>)
    ensures var s := Run(Started(programs), schedule);
      InsideSane(s) && Exclusive(s) && WholeMessages(s) && InProgramOrder(s, programs)
  {
    if schedule != [] {
      var before, c := schedule[..|schedule| - 1], schedule[|schedule| - 1];
      PrintsAreAtomic(programs, before);
      var s := Run(Started(programs), before);
      ExclusionKept(s, c);
      MessagesKept(s, c);
      OrderKept(s, programs, c);
    }
  }

  // ----- how much is left to do -----

  /** The steps that a message takes: the lock, each character twice, the switch, the release. */
  function StepsFor(m: Message): nat { 2 * |m| + 3 }

  function StepsForAll(todo: seq<Message>): nat {
    if todo == [] then 0 else StepsFor(todo[0]) + StepsForAll(todo[1..])
  }

  /** The steps that a CPU has made for the first message it has to do. */
  function Made(cpu: Cpu): nat {
    match cpu.phase
    case AtLock => 0
    case ToCom(i) => i + 1
    case ToVga(i) => if cpu.todo == [] then 0 else |cpu.todo[0]| + i + 2
  }

  function CpuLeft(cpu: Cpu): int { StepsForAll(cpu.todo) - Made(cpu) }

  /** The steps still to come, over all CPUs. */
  function Left(cpus: seq<Cpu>): int {
    if cpus == [] then 0 else Left(cpus[..|cpus| - 1]) + CpuLeft(cpus[|cpus| - 1])
  }

  lemma {:induction false} LeftUpdate(cpus: seq<Cpu>, c: nat, cpu: Cpu)
    requires c < |cpus|
    ensures Left(cpus[c := cpu]) == Left(cpus) - CpuLeft(cpus[c]) + CpuLeft(cpu)
  {
    var last := |cpus| - 1;
    if c == last {
      assert cpus[c := cpu][..last] == cpus[..last];
    } else {
      assert cpus[c := cpu][..last] == cpus[..last][c := cpu];
      LeftUpdate(cpus[..last], c, cpu);
    }
  }

  lemma CpuSpends(s: State, c: nat)
    requires InsideSane(s) && Step(s, c) != s
    ensures c < |s.cpus| && |Step(s, c).cpus| == |s.cpus|
    ensures CpuLeft(Step(s, c).cpus[c]) == CpuLeft(s.cpus[c]) - 1
  {
    assert Inside(s, c) ==> s.cpus[c].todo != [];
  }

  lemma OnlyItsOwn(s: State, c: nat)
    requires c < |s.cpus|
    ensures |Step(s, c).cpus| == |s.cpus| && Step(s, c).cpus == s.cpus[c := Step(s, c).cpus[c]]
  {}

  /** A step that has an effect is one of those still to come. */
  lemma StepSpends(s: State, c: nat)
    requires InsideSane(s) && Step(s, c) != s
    ensures Left(Step(s, c).cpus) == Left(s.cpus) - 1
  {
    CpuSpends(s, c);
    OnlyItsOwn(s, c);
    LeftUpdate(s.cpus, c, Step(s, c).cpus[c]);
  }

  /** How many steps of a schedule have an effect. */
  function Effective(s: State, schedule: seq<nat>): (k: nat)
    ensures k <= |schedule|
  {
    if schedule == [] then 0
    else
      var before := schedule[..|schedule| - 1];
      Effective(s, before) + if Run(s, schedule) != Run(s, before) then 1 else 0
  }

  /** In every interleaving, what has been done and what is left add up to the same. */
  lemma {:induction false} StepsAddUp(programs: seq<seq<Message>>, schedule: seq<nat>)
    ensures Effective(Started(programs), schedule) + Left(Run(Started(programs), schedule).cpus)
         == Left(Started(programs).cpus)
  {
    if schedule != [] {
      var before := schedule[..|schedule| - 1];
      StepsAddUp(programs, before);
      PrintsAreAtomic(programs, before);
      var s := Run(Started(programs), before);
      if Run(Started(programs), schedule) != s { StepSpends(s, schedule[|schedule| - 1]); }
    }
  }

  lemma CpuLeftSane(s: State, c: nat)
    requires InsideSane(s) && c < |s.cpus|
    ensures 0 <= CpuLeft(s.cpus[c]) && (CpuLeft(s.cpus[c]) == 0 <==> s.cpus[c].todo == [])
  {
    assert Inside(s, c) ==> s.cpus[c].todo != [];
  }

  /** Nothing is left if and only if no CPU has anything to do. */
  lemma {:induction false} NothingLeftIff(s: State, k: nat)
    requires InsideSane(s) && k <= |s.cpus|
    ensures 0 <= Left(s.cpus[..k])
    ensures Left(s.cpus[..k]) == 0 <==> forall c :: 0 <= c < k ==> s.cpus[c].todo == []
  {
    if k > 0 {
      NothingLeftIff(s, k - 1);
      CpuLeftSane(s, k - 1);
      assert s.cpus[..k][..k - 1] == s.cpus[..k - 1];
    }
  }

  ghost predicate AllPrinted(s: State, programs: seq<seq<Message>>) {
    forall c :: 0 <= c < |programs| ==> Of(s.returned, c) == programs[c]
  }

  /** In every interleaving, everything has been printed once as many steps have had an effect
      as the messages take together, not before, and no step has an effect after that. */
  lemma AllPrintedIff(programs: seq<seq<Message>>, schedule: seq<nat>)
    ensures var s := Started(programs);
      && Effective(s, schedule) <= Left(s.cpus)
      && (AllPrinted(Run(s, schedule), programs) <==> Effective(s, schedule) == Left(s.cpus))
  {
    PrintsAreAtomic(programs, schedule);
    StepsAddUp(programs, schedule);
    var s := Run(Started(programs), schedule);
    assert s.cpus[..|s.cpus|] == s.cpus;
    NothingLeftIff(s, |s.cpus|);
    forall c | 0 <= c < |programs| ensures Of(s.returned, c) == programs[c] <==> s.cpus[c].todo == [] {
      assert Of(s.returned, c) + s.cpus[c].todo == programs[c];
    }
  }

  /** As long as there is something to print, some CPU's step has an effect, and then there
      is one step less to come. */
  lemma SomeoneMoves(programs: seq<seq<Message>>, schedule: seq<nat>, waiting: nat) returns (c: nat)
    requires waiting < |programs| && Of(Run(Started(programs), schedule).returned, waiting) != programs[waiting]
    ensures var s := Run(Started(programs), schedule);
      c < |s.cpus| && Step(s, c) != s && Left(Step(s, c).cpus) == Left(s.cpus) - 1
  {
    PrintsAreAtomic(programs, schedule);
    var s := Run(Started(programs), schedule);
    if s.locked {
      c :| 0 <= c < |s.cpus| && Inside(s, c);
    } else {
      c := waiting;
    }
    StepSpends(s, c);
  }
}
