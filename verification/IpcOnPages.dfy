// The copies of the system calls on real page tables: kernel/syscall.c maps its windows with
// kernel/vm.c, and what becomes of memory is what the steps of Ipc say.
module IpcOnPages {
  import opened Common
  import opened PhysMem
  import opened Paging
  import opened ProcTable
  import opened VmSpec
  import Ipc
  import PageFrames
  import Vm

  /** Where a send maps the receiver's buffer, where a send maps the receiver's packet and a
      receive the sender's buffer, and where a reply maps the requester's buffer. */
  const SEND_WINDOW: U32 := 0xdead_0000
  const PACKET_WINDOW: U32 := 0xbabe_0000
  const REPLY_WINDOW: U32 := 0xcafe_0000

  /** The page tables translate v as `pages` does, and not through the self-map. */
  ghost predicate Sees(ram: Ram, dir: Page, pages: PageMap, v: U32) {
    v / PAGE_SIZE / 1024 != SELF && Lookup(ram, dir, v / PAGE_SIZE) == Some(pages(v / PAGE_SIZE))
  }

  ghost predicate SeesAll(ram: Ram, dir: Page, pages: PageMap, v: U32, n: nat) {
    forall i: nat :: i < n ==> Sees(ram, dir, pages, Plus(v, i))
  }

  /** A buffer of the calling process: behind it are frames that hold data. */
  ghost predicate Buffer(space: Vm.AddressSpace, pages: PageMap, v: U32, n: nat)
    requires space.pm.Valid()
    reads space, space.pm, space.pm.bitmap
  {
    SeesAll(space.ram, space.dir, pages, v, n) && Holds(space, BufferBytes(pages, v, n))
  }

  /** Physical bytes in frames that are in use and no tables. */
  ghost predicate Holds(space: Vm.AddressSpace, bytes: seq<nat>)
    requires space.pm.Valid()
    reads space, space.pm, space.pm.bitmap
  {
    AllPlain(space.ram, space.dir, space.pm.Pages(), space.pm.pool, space.limit, bytes)
  }

  /** The pages of both windows are unmapped, and there are frames for the tables they need. */
  ghost predicate CanOpenBoth(space: Vm.AddressSpace, sz: U32)
    requires space.pm.Valid() && space.limit <= PageFrames.PAGES
    reads space, space.pm, space.pm.bitmap
  {
    && space.CanOpen(SEND_WINDOW, sz) && space.CanOpen(PACKET_WINDOW, Ipc.PACKET_SIZE)
    && space.Free() >= Tables(space, SEND_WINDOW, sz) + Tables(space, PACKET_WINDOW, Ipc.PACKET_SIZE)
  }

  /** How many page tables a window needs that do not exist. */
  ghost function Tables(space: Vm.AddressSpace, window: U32, sz: U32): nat
    reads space
  {
    Missing(space.ram[space.dir], window / PAGE_SIZE, PageCount(sz), 0)
  }

  lemma BufferIsOwn(space: Vm.AddressSpace, pages: PageMap, v: U32, n: nat)
    requires space.pm.Valid() && Buffer(space, pages, v, n)
    ensures space.OwnBuffer(v, n) && Behind(space.ram, space.dir, v, n) == BufferBytes(pages, v, n)
  {
    forall i: nat | i < n
      ensures Lookup(space.ram, space.dir, Plus(v, i) / PAGE_SIZE) == Some(pages(Plus(v, i) / PAGE_SIZE))
    {
      assert Sees(space.ram, space.dir, pages, Plus(v, i));
    }
    BehindIsBuffer(space.ram, space.dir, pages, v, n);
  }

  /** What a buffer is behind stays the same while translations do. */
  lemma BufferStays(ram: Ram, ram': Ram, dir: Page, pages: PageMap, v: U32, n: nat)
    requires SeesAll(ram, dir, pages, v, n) && SameTranslations(ram, ram', dir)
    ensures SeesAll(ram', dir, pages, v, n)
  {
    forall i: nat | i < n ensures Sees(ram', dir, pages, Plus(v, i)) {
      assert Sees(ram, dir, pages, Plus(v, i));
    }
  }

  /** An unmapped window stays unmapped, and needs no more tables than before. */
  lemma WindowStays(ram: Ram, ram': Ram, dir: Page, first: Page, n: nat)
    requires SameTranslations(ram, ram', dir) && SlotsStay(ram[dir], ram'[dir])
    requires ClearOfSelfMap(first, n) && UnmappedRun(ram, dir, first, n)
    ensures UnmappedRun(ram', dir, first, n)
    ensures Missing(ram'[dir], first, n, 0) <= Missing(ram[dir], first, n, 0)
  {
    MissingShrinks(ram[dir], ram'[dir], first, n, 0);
  }

  /** vm_get_phys_mapping gives the address that the step records. */
  method PhysMapping(space: Vm.AddressSpace, v: U32, ghost pages: PageMap) returns (phys: U32)
    requires space.Valid() && Sees(space.ram, space.dir, pages, v)
    ensures phys == Translate(pages, v)
  {
    WalkIsLookup(space.ram, space.dir, v);
    assert v / PAGE_SIZE / 1024 == PdirIdx(v);
    phys := space.GetPhysMapping(v);
  }

  /** The part of syscall_send_msg for a receiver that waits: through one window the message
      goes into the buffer that the placeholder names, through another the sender's pid into
      the receiver's packet, and the placeholder becomes the node of the request. Memory and
      node are those of the step Fill, and every translation is restored. */
  method FillPlaceholder(space: Vm.AddressSpace, m: Packet, held: Packet, pid: U32,
                         ghost s: Ipc.State, ghost pages: PageMap, ghost r: nat)
    returns (filled: Packet)
    requires Ipc.Shape(s) && r < |s.procs| && Ipc.Fill(s, m, pages, r).Next?
    requires held == s.procs[r].queue[0].msg && pid == s.procs[s.current].pid
    requires space.Valid() && DataIs(space.ram, space.dir, s.mem) && CanOpenBoth(space, held.recvLen)
    requires Sees(space.ram, space.dir, pages, m.sendBuf) && Sees(space.ram, space.dir, pages, m.recvBuf)
    requires Buffer(space, pages, m.sendBuf, held.recvLen)
    requires Holds(space, WindowBytes(held.physRecv, held.recvBuf, held.recvLen))
    requires Holds(space, WindowBytes(held.physPacket, held.physPacket, Ipc.SENDER_SIZE))
    modifies space`ram, space.pm.bitmap
    ensures space.Valid() && SameTranslations(old(space.ram), space.ram, space.dir)
    ensures DataIs(space.ram, space.dir, Ipc.Fill(s, m, pages, r).s.mem)
    ensures filled == Ipc.Fill(s, m, pages, r).s.procs[r].queue[0].msg
    ensures Grown(old(space.ram), space.ram, space.dir, old(space.pm.Pages()), space.pm.Pages(),
                  space.pm.pool, space.limit)
    ensures space.Free() + old(Tables(space, SEND_WINDOW, held.recvLen))
              + old(Tables(space, PACKET_WINDOW, Ipc.PACKET_SIZE)) >= old(space.Free())
  {
    filled := held.(sender := pid, sendBuf := m.sendBuf, sendLen := m.sendLen);
    var physSend := PhysMapping(space, m.sendBuf, pages);
    filled := filled.(physSend := physSend);

    ghost var ram0, b0, mem1 := space.ram, space.pm.Pages(),
      Copy(s.mem, WindowBytes(held.physRecv, held.recvBuf, held.recvLen), BufferBytes(pages, m.sendBuf, held.recvLen));
    BufferIsOwn(space, pages, m.sendBuf, held.recvLen);
    space.CopyToPeer(held.physRecv, SEND_WINDOW, held.recvLen, held.recvBuf, m.sendBuf, held.recvLen, s.mem);

    ghost var ram1 := space.ram;
    WindowStays(ram0, ram1, space.dir, PACKET_WINDOW / PAGE_SIZE, PageCount(Ipc.PACKET_SIZE));
    PlainStays(ram0, ram1, space.dir, b0, space.pm.Pages(), space.pm.pool, space.limit,
               WindowBytes(held.physPacket, held.physPacket, Ipc.SENDER_SIZE));
    ghost var b1 := space.pm.Pages();
    space.StoreThroughWindow(held.physPacket, PACKET_WINDOW, Ipc.PACKET_SIZE, held.physPacket, Le32(pid), mem1);
    OwnersGrow(ram0, ram1, space.ram, space.dir, b0, b1, space.pm.Pages(), space.pm.pool, space.limit);

    var physRecv := PhysMapping(space, m.recvBuf, pages);
    filled := filled.(recvBuf := m.recvBuf, recvLen := m.recvLen, physRecv := physRecv);
  }

  /** The part of syscall_recv_msg for a queue that holds a message: it is copied out of the
      sender's buffer through a window, and the sender's pid goes into the caller's packet. */
  method ReceiveFirst(space: Vm.AddressSpace, m: Packet, at: U32, held: Packet,
                      ghost s: Ipc.State, ghost pages: PageMap)
    requires Ipc.Shape(s) && s.procs[s.current].queue != [] && held == s.procs[s.current].queue[0].msg
    requires Ipc.RecvBody(s, m, at, pages).Next?
    requires space.Valid() && DataIs(space.ram, space.dir, s.mem) && space.CanOpen(PACKET_WINDOW, held.sendLen)
    requires Buffer(space, pages, m.recvBuf, m.recvLen) && Buffer(space, pages, at, Ipc.SENDER_SIZE)
    requires Holds(space, WindowBytes(held.physSend, held.sendBuf, m.recvLen))
    modifies space`ram, space.pm.bitmap
    ensures space.Valid() && SameTranslations(old(space.ram), space.ram, space.dir)
    ensures DataIs(space.ram, space.dir, Ipc.RecvBody(s, m, at, pages).s.mem)
    ensures Grown(old(space.ram), space.ram, space.dir, old(space.pm.Pages()), space.pm.Pages(),
                  space.pm.pool, space.limit)
    ensures space.Free() + old(Tables(space, PACKET_WINDOW, held.sendLen)) == old(space.Free())
  {
    ghost var ram0, b0, mem1 := space.ram, space.pm.Pages(),
      Copy(s.mem, BufferBytes(pages, m.recvBuf, m.recvLen), WindowBytes(held.physSend, held.sendBuf, m.recvLen));
    BufferIsOwn(space, pages, m.recvBuf, m.recvLen);
    space.CopyFromPeer(held.physSend, PACKET_WINDOW, held.sendLen, held.sendBuf, m.recvBuf, m.recvLen, s.mem);
    ghost var ram1 := space.ram;
    BufferStays(ram0, space.ram, space.dir, pages, at, Ipc.SENDER_SIZE);
    PlainStays(ram0, space.ram, space.dir, b0, space.pm.Pages(), space.pm.pool, space.limit,
               BufferBytes(pages, at, Ipc.SENDER_SIZE));
    BufferIsOwn(space, pages, at, Ipc.SENDER_SIZE);
    space.Write(at, Le32(held.sender), mem1);
    StillGrown(ram0, ram1, space.ram, space.dir, b0, space.pm.Pages(), space.pm.pool, space.limit);
  }

  /** The copy of syscall_rply_msg into the requester's buffer. */
  method ReplyToFirst(space: Vm.AddressSpace, m: Packet, held: Packet, ghost s: Ipc.State, ghost pages: PageMap)
    requires Ipc.Shape(s) && s.procs[s.current].queue != [] && held == s.procs[s.current].queue[0].msg
    requires Ipc.ReplyBody(s, m, pages).Next?
    requires space.Valid() && DataIs(space.ram, space.dir, s.mem) && space.CanOpen(REPLY_WINDOW, held.recvLen)
    requires Buffer(space, pages, m.sendBuf, held.recvLen)
    requires Holds(space, WindowBytes(held.physRecv, held.recvBuf, held.recvLen))
    modifies space`ram, space.pm.bitmap
    ensures space.Valid() && SameTranslations(old(space.ram), space.ram, space.dir)
    ensures DataIs(space.ram, space.dir, Ipc.ReplyBody(s, m, pages).s.mem)
    ensures Grown(old(space.ram), space.ram, space.dir, old(space.pm.Pages()), space.pm.Pages(),
                  space.pm.pool, space.limit)
    ensures space.Free() + old(Tables(space, REPLY_WINDOW, held.recvLen)) == old(space.Free())
  {
    BufferIsOwn(space, pages, m.sendBuf, held.recvLen);
    space.CopyToPeer(held.physRecv, REPLY_WINDOW, held.recvLen, held.recvBuf, m.sendBuf, held.recvLen, s.mem);
  }
}
