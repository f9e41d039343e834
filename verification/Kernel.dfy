// The system calls of kernel/syscall.c and the scheduler of kernel/proc.c as they run: a
// table of processes, a heap and memory updated in place. SendMsg, RecvMsg and RplyMsg do
// what the events Send, Recv and Reply of module Ipc say, Reschedule what Ipc.Schedule says.
module Kernel {
  import opened Common
  import opened ProcTable
  import opened PhysMem
  import opened HeapSpec
  import opened KernelHeap
  import opened Scheduler
  import opened Ipc

  class Machine {
    const procs: array<Proc>
    const heap: Heap
    var current: nat
    var idle: nat
    /** The static cursor of find_next_proc. */
    var cursor: nat
    var enabled: bool
    var mem: Memory

    ghost predicate Valid()
      reads this, procs, heap
    {
      heap.Valid() && heap.initialized && heap.n == NODE_SIZE && Shape(Abs())
    }

    ghost function Abs(): State
      reads this, procs, heap
    {
      State(procs[..], current, idle, cursor, enabled, heap.usage, mem)
    }

    constructor (procs: array<Proc>, heap: Heap, idle: nat, current: nat)
      requires heap.Valid() && heap.initialized && heap.n == NODE_SIZE
      requires idle < procs.Length && current < procs.Length
      ensures Valid() && this.procs == procs && this.heap == heap
      ensures Abs() == State(procs[..], current, idle, 0, false, heap.usage, map[])
    {
      this.procs := procs;
      this.heap := heap;
      this.idle := idle;
      this.current := current;
      cursor := 0;
      enabled := false;
      mem := map[];
    }

    /** proc_find_by_pid */
    method FindProc(pid: U32) returns (slot: Option<nat>)
      ensures slot == FindByPid(procs[..], pid)
    {
      var i := 0;
      while i < procs.Length
        invariant i <= procs.Length
        invariant FindByPid(procs[..], pid) == FindFrom(procs[..], pid, i)
      {
        if procs[i].pid == pid {
          return Some(i);
        }
        i := i + 1;
      }
      return None;
    }

    /** find_next_proc: one pass around the table, from where the last search stopped. */
    method FindNextProc(want: ProcState) returns (slot: Option<nat>)
      requires 0 < procs.Length && cursor <= procs.Length
      modifies this`cursor
      ensures cursor <= procs.Length
      ensures (slot, cursor) == FindNext(procs[..], idle, want, old(cursor))
    {
      var n, i := 0, Modulo(cursor, procs.Length);
      ghost var table, start := procs[..], i;
      ghost var found := FindNext(table, idle, want, cursor);
      while n < procs.Length && (i == idle || procs[i].state != want)
        invariant SearchPoint(table, idle, want, start, i, n)
        invariant found == Search(table, idle, want, start, i, n)
      {
        ghost var before, passed := i, n;
        n, i := n + 1, Modulo(i + 1, procs.Length);
        SearchRound(table, idle, want, start, before, passed, i, n);
      }
      SearchEnd(table, idle, want, start, i, n);
      slot := if n < procs.Length then Some(i) else None;
      cursor := if n < procs.Length then i + 1 else i;
    }

    /** proc_schedule_after_irq */
    method Reschedule()
      requires Valid()
      modifies this`cursor, this`current, procs
      ensures Valid() && Abs() == Schedule(old(Abs()))
    {
      if !enabled {
        return;
      }
      var self := FindProc(procs[current].pid);
      if !procs[self.value].state.Blocked() {
        procs[current] := procs[current].(state := Ready);
      }
      var next := FindNextProc(Ready);
      current := if next.Some? then next.value else idle;
    }

    /** memcpy through the page tables or a mapped window. */
    method Memcpy(dst: seq<nat>, src: seq<nat>)
      requires |dst| == |src|
      modifies this`mem
      ensures mem == Copy(old(mem), dst, src)
    {
      var i := 0;
      while i < |dst|
        invariant i <= |dst|
        invariant Copy(old(mem), dst, src) == Copy(mem, dst[i..], src[i..])
      {
        mem := mem[dst[i] := ReadByte(mem, src[i])];
        assert dst[i..][1..] == dst[i + 1..] && src[i..][1..] == src[i + 1..];
        i := i + 1;
      }
    }

    method Write(dst: seq<nat>, bytes: seq<Byte>)
      requires |dst| == |bytes|
      modifies this`mem
      ensures mem == Store(old(mem), dst, bytes)
    {
      var i := 0;
      while i < |dst|
        invariant i <= |dst|
        invariant Store(old(mem), dst, bytes) == Store(mem, dst[i..], bytes[i..])
      {
        mem := mem[dst[i] := bytes[i]];
        assert dst[i..][1..] == dst[i + 1..] && bytes[i..][1..] == bytes[i + 1..];
        i := i + 1;
      }
    }

    /** kalloc of a queue node; the block is named by its number. */
    method NewNode() returns (block: nat)
      requires Valid() && Allocate(heap.usage).Some?
      modifies heap
      ensures Valid() && Allocate(old(heap.usage)) == Some((heap.usage, block))
    {
      var addr := heap.Kalloc(NODE_SIZE);
      BlockAtIsLinear(NODE_SIZE, FirstFree(old(heap.usage)));
      block := (addr - HEADER - POOL) / (HEADER + NODE_SIZE);
    }

    /** The part of syscall_send_msg that queues a packet. */
    method QueuePacket(msg: Packet, pages: PageMap, r: nat)
      requires Valid() && r < procs.Length && !procs[r].state.RecvBlocked?
      requires Enqueue(Abs(), msg, pages, r).Next?
      modifies procs, heap
      ensures Valid() && Abs() == Enqueue(old(Abs()), msg, pages, r).s
    {
      var block := NewNode();
      var node := Node(block, Stamped(msg, procs[current].pid, pages));
      procs[r] := procs[r].(queue := procs[r].queue + [node]);
      if procs[r].state == Ready {
        procs[current] := procs[current].(state := ReplyBlocked);
      }
    }

    /** The part of syscall_send_msg that serves a receiver already waiting. */
    method FillPlaceholder(msg: Packet, pages: PageMap, r: nat)
      requires Valid() && r < procs.Length
      requires Fill(Abs(), msg, pages, r).Next?
      modifies this`mem, procs
      ensures Valid() && Abs() == Fill(old(Abs()), msg, pages, r).s
    {
      var head := procs[r].queue[0];
      var rest := procs[r].queue[1..];
      procs[current] := procs[current].(state := SendBlocked);
      var held := head.msg.(
        sender := procs[current].pid, sendBuf := msg.sendBuf, sendLen := msg.sendLen,
        physSend := Translate(pages, msg.sendBuf));
      Memcpy(WindowBytes(held.physRecv, held.recvBuf, held.recvLen),
             BufferBytes(pages, msg.sendBuf, held.recvLen));
      Write(WindowBytes(held.physPacket, held.physPacket, SENDER_SIZE), Le32(procs[current].pid));
      held := held.(recvBuf := msg.recvBuf, recvLen := msg.recvLen, physRecv := Translate(pages, msg.recvBuf));
      procs[r] := procs[r].(queue := [head.(msg := held)] + rest);
      procs[r] := procs[r].(state := Ready);
    }

    /** syscall_send_msg, in a state where it does not fault. */
    method SendMsg(msg: Packet, pages: PageMap)
      requires Valid() && Step(Abs(), Send(msg, pages)).Next?
      modifies this`cursor, this`current, this`enabled, this`mem, procs, heap
      ensures Valid() && Abs() == Step(old(Abs()), Send(msg, pages)).s
    {
      enabled := false;
      var receiver := FindProc(msg.receiver);
      if receiver.None? {
        return;
      }
      if procs[receiver.value].state != RecvBlocked {
        QueuePacket(msg, pages, receiver.value);
      } else {
        FillPlaceholder(msg, pages, receiver.value);
      }
      enabled := true;
      Reschedule();
    }

    /** syscall_recv_msg, in a state where it does not fault. */
    method RecvMsg(msg: Packet, at: U32, pages: PageMap)
      requires Valid() && Step(Abs(), Recv(msg, at, pages)).Next?
      modifies this`cursor, this`current, this`enabled, this`mem, procs, heap
      ensures Valid() && Abs() == Step(old(Abs()), Recv(msg, at, pages)).s
    {
      enabled := false;
      if procs[current].queue == [] {
        procs[current] := procs[current].(state := RecvBlocked);
        var block := NewNode();
        var held := msg.(physRecv := Translate(pages, msg.recvBuf), physPacket := Translate(pages, at));
        procs[current] := procs[current].(queue := [Node(block, held)]);
      } else {
        var head := procs[current].queue[0].msg;
        Memcpy(BufferBytes(pages, msg.recvBuf, msg.recvLen),
               WindowBytes(head.physSend, head.sendBuf, msg.recvLen));
        Write(BufferBytes(pages, at, SENDER_SIZE), Le32(head.sender));
      }
      enabled := true;
      Reschedule();
    }

    /** syscall_rply_msg, in a state where it does not fault. */
    method RplyMsg(msg: Packet, pages: PageMap)
      requires Valid() && Step(Abs(), Reply(msg, pages)).Next?
      modifies this`cursor, this`current, this`enabled, this`mem, procs, heap
      ensures Valid() && Abs() == Step(old(Abs()), Reply(msg, pages)).s
    {
      enabled := false;
      if procs[current].queue != [] {
        var head := procs[current].queue[0];
        var sender := FindProc(head.msg.sender);
        Memcpy(WindowBytes(head.msg.physRecv, head.msg.recvBuf, head.msg.recvLen),
               BufferBytes(pages, msg.sendBuf, head.msg.recvLen));
        procs[current] := procs[current].(queue := procs[current].queue[1..]);
        heap.Kfree(BlockAt(NODE_SIZE, head.block) + HEADER, head.block);
        procs[sender.value] := procs[sender.value].(state := Ready);
      }
      enabled := true;
      Reschedule();
    }
  }
}
