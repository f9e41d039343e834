// The process table of include/kernel/proc.h and the message packets of include/ipc.h.
module ProcTable {
  import opened Common

  datatype ProcState = Unused | Running | Ready | SendBlocked | RecvBlocked | ReplyBlocked {
    /** The two states in which a process waits for the answer to a message it sent. */
    predicate AwaitsReply() {
      SendBlocked? || ReplyBlocked?
    }

    predicate Blocked() {
      SendBlocked? || RecvBlocked? || ReplyBlocked?
    }
  }

  /** struct msg_packet: buffers are named by virtual address, with the physical
      address that each had when the packet was handed to the kernel. */
  datatype Packet = Packet(
    sender: U32, receiver: U32,
    sendBuf: U32, recvBuf: U32,
    sendLen: U32, recvLen: U32,
    physSend: U32, physRecv: U32, physPacket: U32)

  /** struct msg_packet_queue: the heap block it lives in and its packet. The link
      to the next node is the order of the queue. */
  datatype Node = Node(block: nat, msg: Packet)

  datatype Proc = Proc(pid: U32, state: ProcState, queue: seq<Node>)

  /** The pid of a slot that holds no process: -1 read as an unsigned. */
  const NO_PID: U32 := 0xffff_ffff

  lemma NoPidIsMinusOne()
    ensures NO_PID == Sub32(0, 1)
  {}

  /** The words of a packet, in the order of the struct. */
  function Words(m: Packet): (words: seq<U32>)
    ensures |words| == 9 && words[0] == m.sender
  {
    [m.sender, m.receiver, m.sendBuf, m.recvBuf, m.sendLen, m.recvLen, m.physSend, m.physRecv, m.physPacket]
  }

  /** proc_find_by_pid: the first slot with that pid. */
  function FindByPid(procs: seq<Proc>, pid: U32): (r: Option<nat>)
    ensures r.Some? ==> r.value < |procs| && procs[r.value].pid == pid
    ensures r.Some? ==> forall j :: 0 <= j < r.value ==> procs[j].pid != pid
    ensures r.None? ==> forall j :: 0 <= j < |procs| ==> procs[j].pid != pid
  {
    FindFrom(procs, pid, 0)
  }

  function FindFrom(procs: seq<Proc>, pid: U32, i: nat): (r: Option<nat>)
    requires i <= |procs|
    ensures r.Some? ==> i <= r.value < |procs| && procs[r.value].pid == pid
    ensures r.Some? ==> forall j :: i <= j < r.value ==> procs[j].pid != pid
    ensures r.None? ==> forall j :: i <= j < |procs| ==> procs[j].pid != pid
    decreases |procs| - i
  {
    if i == |procs| then None
    else if procs[i].pid == pid then Some(i)
    else FindFrom(procs, pid, i + 1)
  }

  /** Searches find the same slot wherever the pids are the same. */
  lemma SamePids(a: seq<Proc>, b: seq<Proc>, pid: U32)
    requires |a| == |b| && forall i :: 0 <= i < |a| ==> a[i].pid == b[i].pid
    ensures FindByPid(a, pid) == FindByPid(b, pid)
  {
    var i, j := FindByPid(a, pid), FindByPid(b, pid);
    if i.Some? { assert b[i.value].pid == pid; }
    if j.Some? { assert a[j.value].pid == pid; }
  }
}
