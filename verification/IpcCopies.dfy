// The bytes that the system calls copy, in any state in which they do not fault: what is
// contiguous is delivered, and nothing else in memory changes.
module IpcCopies {
  import opened Common
  import opened ProcTable
  import opened PhysMem
  import opened Ipc

  /** The bytes of a word have become w, the bytes dst, where they are not the word's, what the
      bytes src were, and all others are as before. */
  ghost predicate Delivered(mem: Memory, mem': Memory, dst: seq<nat>, src: seq<nat>, word: seq<nat>, w: U32) {
    && |dst| == |src| && |word| == SENDER_SIZE
    && (forall i :: 0 <= i < |dst| && dst[i] !in word ==> ReadByte(mem', dst[i]) == ReadByte(mem, src[i]))
    && (forall i :: 0 <= i < |word| ==> ReadByte(mem', word[i]) == Le32(w)[i])
    && (forall a :: a !in dst && a !in word ==> ReadByte(mem', a) == ReadByte(mem, a))
  }

  /** The destination does not overlap the source, and neither it nor the word overlaps itself. */
  ghost predicate Clear(dst: seq<nat>, src: seq<nat>, word: seq<nat>) {
    PhysMem.Distinct(dst) && PhysMem.Distinct(word) && forall a :: a in dst ==> a !in src
  }

  lemma CopyThenStore(mem: Memory, dst: seq<nat>, src: seq<nat>, word: seq<nat>, w: U32)
    requires |dst| == |src| && |word| == SENDER_SIZE && Clear(dst, src, word)
    ensures Delivered(mem, Store(Copy(mem, dst, src), word, Le32(w)), dst, src, word, w)
  {
    CopyMoves(mem, dst, src);
    StoreWrites(Copy(mem, dst, src), word, Le32(w));
  }

  lemma ScheduleLeavesMemory(s: State)
    requires Shape(s)
    ensures Schedule(s).mem == s.mem
  {}

  lemma FillDelivers(s: State, m: Packet, pages: PageMap, r: nat, dst: seq<nat>, word: seq<nat>)
    requires Shape(s) && r < |s.procs| && s.procs[r].queue != [] && Fill(s, m, pages, r).Next?
    requires var held := s.procs[r].queue[0].msg;
      && dst == WindowBytes(held.physRecv, held.recvBuf, held.recvLen)
      && word == WindowBytes(held.physPacket, held.physPacket, SENDER_SIZE)
      && Clear(dst, BufferBytes(pages, m.sendBuf, held.recvLen), word)
    ensures Delivered(s.mem, Fill(s, m, pages, r).s.mem, dst,
                      BufferBytes(pages, m.sendBuf, s.procs[r].queue[0].msg.recvLen), word, s.procs[s.current].pid)
  {
    CopyThenStore(s.mem, dst, BufferBytes(pages, m.sendBuf, s.procs[r].queue[0].msg.recvLen), word,
                  s.procs[s.current].pid);
  }

  /** A send to a process that waits: whatever buffer and packet its placeholder names, the
      sender's bytes and pid end up there. */
  lemma SendDelivers(s: State, m: Packet, pages: PageMap, r: nat, own: PageMap, at: U32)
    requires Shape(s) && FindByPid(s.procs, m.receiver) == Some(r) && Step(s, Send(m, pages)).Next?
    requires s.procs[r].state.RecvBlocked? && s.procs[r].queue != []
    requires var held := s.procs[r].queue[0].msg;
      && held.physRecv == Translate(own, held.recvBuf) && Contiguous(own, held.recvBuf, held.recvLen)
      && held.physPacket == Translate(own, at) && Contiguous(own, at, SENDER_SIZE)
      && Clear(BufferBytes(own, held.recvBuf, held.recvLen), BufferBytes(pages, m.sendBuf, held.recvLen),
               BufferBytes(own, at, SENDER_SIZE))
    ensures var held := s.procs[r].queue[0].msg;
      Delivered(s.mem, Step(s, Send(m, pages)).s.mem, BufferBytes(own, held.recvBuf, held.recvLen),
                BufferBytes(pages, m.sendBuf, held.recvLen), BufferBytes(own, at, SENDER_SIZE),
                s.procs[s.current].pid)
  {
    var off, held := s.(enabled := false), s.procs[r].queue[0].msg;
    ContiguousShows(own, held.recvBuf, held.recvLen);
    ContiguousShowsPhys(own, at, SENDER_SIZE);
    FillDelivers(off, m, pages, r, BufferBytes(own, held.recvBuf, held.recvLen), BufferBytes(own, at, SENDER_SIZE));
    ScheduleLeavesMemory(Fill(off, m, pages, r).s.(enabled := true));
  }

  /** A receive that finds a message: the bytes of the oldest sender's buffer, and its pid. */
  lemma ReceiveDelivers(s: State, m: Packet, at: U32, pages: PageMap, own: PageMap)
    requires Shape(s) && s.procs[s.current].queue != [] && Step(s, Recv(m, at, pages)).Next?
    requires var head := s.procs[s.current].queue[0].msg;
      && head.physSend == Translate(own, head.sendBuf) && Contiguous(own, head.sendBuf, m.recvLen)
      && Clear(BufferBytes(pages, m.recvBuf, m.recvLen), BufferBytes(own, head.sendBuf, m.recvLen),
               BufferBytes(pages, at, SENDER_SIZE))
    ensures var head := s.procs[s.current].queue[0].msg;
      Delivered(s.mem, Step(s, Recv(m, at, pages)).s.mem, BufferBytes(pages, m.recvBuf, m.recvLen),
                BufferBytes(own, head.sendBuf, m.recvLen), BufferBytes(pages, at, SENDER_SIZE), head.sender)
  {
    var off, head := s.(enabled := false), s.procs[s.current].queue[0].msg;
    ContiguousShows(own, head.sendBuf, m.recvLen);
    CopyThenStore(s.mem, BufferBytes(pages, m.recvBuf, m.recvLen), BufferBytes(own, head.sendBuf, m.recvLen),
                  BufferBytes(pages, at, SENDER_SIZE), head.sender);
    ScheduleLeavesMemory(RecvBody(off, m, at, pages).s.(enabled := true));
  }

  /** A reply: the replier's bytes, to the oldest sender's buffer. */
  lemma ReplyDelivers(s: State, m: Packet, pages: PageMap, own: PageMap)
    requires Shape(s) && s.procs[s.current].queue != [] && Step(s, Reply(m, pages)).Next?
    requires var head := s.procs[s.current].queue[0].msg;
      && head.physRecv == Translate(own, head.recvBuf) && Contiguous(own, head.recvBuf, head.recvLen)
      && PhysMem.Distinct(BufferBytes(own, head.recvBuf, head.recvLen))
      && forall a :: a in BufferBytes(own, head.recvBuf, head.recvLen) ==>
           a !in BufferBytes(pages, m.sendBuf, head.recvLen)
    ensures var head, mem' := s.procs[s.current].queue[0].msg, Step(s, Reply(m, pages)).s.mem;
      var dst, src := BufferBytes(own, head.recvBuf, head.recvLen), BufferBytes(pages, m.sendBuf, head.recvLen);
      && (forall i :: 0 <= i < |dst| ==> ReadByte(mem', dst[i]) == ReadByte(s.mem, src[i]))
      && (forall a :: a !in dst ==> ReadByte(mem', a) == ReadByte(s.mem, a))
  {
    var off, head := s.(enabled := false), s.procs[s.current].queue[0].msg;
    ContiguousShows(own, head.recvBuf, head.recvLen);
    CopyMoves(s.mem, BufferBytes(own, head.recvBuf, head.recvLen), BufferBytes(pages, m.sendBuf, head.recvLen));
    ScheduleLeavesMemory(ReplyBody(off, m, pages).s.(enabled := true));
  }

  /** Every other call and every tick leaves memory as it is. */
  lemma OthersLeaveMemory(s: State, e: Event)
    requires Shape(s) && Step(s, e).Next?
    requires match e
      case Send(m, _) =>
        var r := FindByPid(s.procs, m.receiver); r.Some? ==> !s.procs[r.value].state.RecvBlocked?
      case Recv(_, _, _) => s.procs[s.current].queue == []
      case Reply(_, _) => s.procs[s.current].queue == []
      case Tick => true
      case User(_) => false
    ensures Step(s, e).s.mem == s.mem
  {
    if !e.Tick? && !NoReceiver(s, e) { ScheduleLeavesMemory(Body(s.(enabled := false), e).s.(enabled := true)); }
  }
}
