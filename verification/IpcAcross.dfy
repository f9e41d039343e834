// The system calls of several processes, each in an address space of its own: a call in one leaves
// the translations and the data of all others alone, so calls go on across context switches.
module IpcAcross {
  import opened Common
  import opened PhysMem
  import opened Paging
  import opened ProcTable
  import opened VmSpec
  import opened Isolation
  import Ipc
  import IpcOnPages
  import PageFrames
  import Vm

  /** Bytes in frames that are in use and no tables of any space. */
  ghost predicate Held(ram: Ram, dirs: set<Page>, b: PageFrames.Bitmap, pool: U32, limit: nat, bytes: seq<nat>) {
    AllDataBytes(ram, dirs, bytes) && forall i :: 0 <= i < |bytes| ==> Owned(b, pool, limit, bytes[i] / PAGE_SIZE)
  }

  lemma HeldIsPlain(ram: Ram, dirs: set<Page>, dir: Page, b: PageFrames.Bitmap, pool: U32, limit: nat, bytes: seq<nat>)
    requires Held(ram, dirs, b, pool, limit, bytes) && dir in dirs
    ensures AllPlain(ram, dir, b, pool, limit, bytes)
  {
    forall i | 0 <= i < |bytes| ensures Plain(ram, dir, b, pool, limit, bytes[i]) {
      assert DataByte(ram, dirs, bytes[i]);
    }
  }

  /** A frame that is in use and no table of any space stays so. */
  lemma DataStaysData(ram: Ram, ram': Ram, dirs: set<Page>, dir: Page, b: PageFrames.Bitmap, b': PageFrames.Bitmap,
                      pool: U32, limit: nat, f: Page)
    requires Spaces(ram, dirs, b, pool, limit) && OneChanges(ram, ram', dirs, dir, b, b', pool, limit)
    requires !TableOfAny(ram, dirs, f) && Owned(b, pool, limit, f)
    ensures !TableOfAny(ram', dirs, f) && Owned(b', pool, limit, f)
  {
    forall e | e in dirs ensures !IsTable(ram', e, f) {
      assert !IsTable(ram, e, f);
      if e != dir {
        assert WellFormed(ram, e, b, pool, limit) && Beside(ram, dir, e);
        OtherDirectory(ram, ram', dir, e);
      }
    }
  }

  lemma HeldStays(ram: Ram, ram': Ram, dirs: set<Page>, dir: Page, b: PageFrames.Bitmap, b': PageFrames.Bitmap,
                  pool: U32, limit: nat, bytes: seq<nat>)
    requires Spaces(ram, dirs, b, pool, limit) && OneChanges(ram, ram', dirs, dir, b, b', pool, limit)
    requires Held(ram, dirs, b, pool, limit, bytes)
    ensures Held(ram', dirs, b', pool, limit, bytes)
  {
    forall i | 0 <= i < |bytes|
      ensures DataByte(ram', dirs, bytes[i]) && Owned(b', pool, limit, bytes[i] / PAGE_SIZE)
    {
      assert DataByte(ram, dirs, bytes[i]);
      DataStaysData(ram, ram', dirs, dir, b, b', pool, limit, bytes[i] / PAGE_SIZE);
    }
  }

  /** Tables of any space stay tables. */
  lemma TablesStay(ram: Ram, ram': Ram, dirs: set<Page>, dir: Page, b: PageFrames.Bitmap, b': PageFrames.Bitmap,
                   pool: U32, limit: nat, f: Page)
    requires Spaces(ram, dirs, b, pool, limit) && OneChanges(ram, ram', dirs, dir, b, b', pool, limit)
    requires TableOfAny(ram, dirs, f)
    ensures TableOfAny(ram', dirs, f)
  {
    var e :| e in dirs && IsTable(ram, e, f);
    if e != dir {
      assert WellFormed(ram, e, b, pool, limit) && Beside(ram, dir, e);
      OtherDirectory(ram, ram', dir, e);
    } else {
      var k :| 0 <= k < 1024 && Present(ram[dir][k]) && ram[dir][k].frame == f;
      assert Present(ram'[dir][k]) && ram'[dir][k].frame == f;
    }
    assert IsTable(ram', e, f);
  }

  /** All bytes but some are as before. */
  ghost predicate OnlyTouches(m: Memory, m': Memory, touched: seq<nat>) {
    forall a: nat :: a !in touched ==> ReadByte(m', a) == ReadByte(m, a)
  }

  /** A call that changes data bytes alone leaves the tables of all other spaces as they were. */
  lemma CallKeepsTables(ram: Ram, ram': Ram, dirs: set<Page>, dir: Page, other: Page, b: PageFrames.Bitmap,
                        b': PageFrames.Bitmap, pool: U32, limit: nat, after: Memory, touched: seq<nat>)
    requires WellFormed(ram, other, b, pool, limit) && other in dirs
    requires Grown(ram, ram', dir, b, b', pool, limit)
    requires DataIs(ram', dir, after)
    requires OnlyTouches(Everything(ram), after, touched) && AllDataBytes(ram, dirs, touched)
    ensures KeepsTables(ram, ram', dir, other)
  {
    TablesApart(ram, ram', dir, other, b, b', pool, limit);
    forall f: Page | IsTable(ram, other, f) && !IsTable(ram, dir, f) ensures ram'[f] == ram[f] {
      assert TableOfAny(ram, dirs, f);
      forall a: U32 | a / PAGE_SIZE == f ensures ByteAt(ram', a) == ByteAt(ram, a) {
        assert !DataByte(ram, dirs, a);
        assert a !in touched;
        assert ReadByte(after, a) == ReadByte(Everything(ram), a);
      }
      SameBytes(ram, ram', f);
    }
  }

  /** What a system call in the current space has done to memory and to that space. */
  ghost predicate CallDone(ram: Ram, ram': Ram, dir: Page, b: PageFrames.Bitmap, b': PageFrames.Bitmap,
                           pool: U32, limit: nat, after: Memory) {
    && Sound(ram', dir, b', pool, limit) && Grown(ram, ram', dir, b, b', pool, limit)
    && SameTranslations(ram, ram', dir) && DataIs(ram', dir, after)
  }

  /** Then every space is in order and translates as before. */
  lemma CallIsolated(ram: Ram, ram': Ram, dirs: set<Page>, dir: Page, b: PageFrames.Bitmap, b': PageFrames.Bitmap,
                     pool: U32, limit: nat, after: Memory, touched: seq<nat>)
    requires Spaces(ram, dirs, b, pool, limit) && dir in dirs && CallDone(ram, ram', dir, b, b', pool, limit, after)
    requires OnlyTouches(Everything(ram), after, touched) && AllDataBytes(ram, dirs, touched)
    ensures Spaces(ram', dirs, b', pool, limit) && OneChanges(ram, ram', dirs, dir, b, b', pool, limit)
    ensures forall d :: d in dirs ==> SameTranslations(ram, ram', d)
  {
    forall e | e in dirs && e != dir ensures KeepsTables(ram, ram', dir, e) {
      assert WellFormed(ram, e, b, pool, limit);
      CallKeepsTables(ram, ram', dirs, dir, e, b, b', pool, limit, after, touched);
    }
    SpacesKept(ram, ram', dirs, dir, b, b', pool, limit);
    forall d | d in dirs ensures SameTranslations(ram, ram', d) {
      TranslationsKept(ram, ram', dirs, dir, d, b, b', pool, limit);
    }
  }

  /** And the data of all spaces is what the call makes of it. */
  lemma DataAfter(ram: Ram, ram': Ram, dirs: set<Page>, dir: Page, b: PageFrames.Bitmap, b': PageFrames.Bitmap,
                  pool: U32, limit: nat, after: Memory, mem': Memory)
    requires Spaces(ram, dirs, b, pool, limit) && OneChanges(ram, ram', dirs, dir, b, b', pool, limit)
    requires DataIs(ram', dir, after) && Agree(ram, dirs, mem', after)
    ensures AllData(ram', dirs, mem')
  {
    forall a: nat | DataByte(ram', dirs, a) ensures ReadByte(mem', a) == ByteAt(ram', a) {
      if TableOfAny(ram, dirs, a / PAGE_SIZE) { TablesStay(ram, ram', dirs, dir, b, b', pool, limit, a / PAGE_SIZE); }
      assert DataByte(ram, dirs, a);
      assert !IsTable(ram', dir, a / PAGE_SIZE);
    }
  }

  lemma EverythingAgrees(ram: Ram, dirs: set<Page>, mem: Memory)
    requires AllData(ram, dirs, mem)
    ensures Agree(ram, dirs, mem, Everything(ram))
  {}

  lemma EverythingIsData(ram: Ram, dir: Page)
    ensures DataIs(ram, dir, Everything(ram))
  {}

  // ----- the calls -----

  /** All spaces are in order, one of them is current, and `mem` is the data of them all. */
  ghost predicate InOrder(space: Vm.AddressSpace, dirs: set<Page>, mem: Memory)
    reads space, space.pm, space.pm.bitmap
  {
    && space.Valid() && space.dir in dirs
    && Spaces(space.ram, dirs, space.pm.Pages(), space.pm.pool, space.limit)
    && AllData(space.ram, dirs, mem)
  }

  ghost predicate HeldNow(space: Vm.AddressSpace, dirs: set<Page>, bytes: seq<nat>)
    requires space.pm.Valid()
    reads space, space.pm, space.pm.bitmap
  {
    Held(space.ram, dirs, space.pm.Pages(), space.pm.pool, space.limit, bytes)
  }

  /** A context switch to another of the spaces. */
  method SwitchTo(space: Vm.AddressSpace, other: Page, ghost dirs: set<Page>, ghost mem: Memory)
    requires InOrder(space, dirs, mem) && other in dirs
    modifies space`dir
    ensures InOrder(space, dirs, mem) && space.dir == other
  {
    assert WellFormed(space.ram, other, space.pm.Pages(), space.pm.pool, space.limit);
    space.SetCr3(other);
  }

  /** vm_copy_kernel_pdir: unless it fails, all spaces are in order again, with one more. */
  method CreateSpace(space: Vm.AddressSpace, ghost dirs: set<Page>, ghost mem: Memory)
    returns (halted: bool, newDir: Page)
    requires InOrder(space, dirs, mem)
    requires space.Free() >= 2 || PageFrames.AllUsed(space.pm.Pages()) || (space.Free() == 1 && space.FreeHaveTables())
    requires forall f: Page :: !Owned(space.pm.Pages(), space.pm.pool, space.limit, f) ==> f / 1024 != SELF
    modifies space`ram, space.pm.bitmap
    ensures newDir != 0 && !halted ==> newDir !in dirs && InOrder(space, dirs + {newDir}, mem)
    ensures newDir != 0 && !halted ==> forall q: Page :: q / 1024 != SELF ==>
      Lookup(space.ram, newDir, q)
      == if IsKernel(space.ram[space.dir][q / 1024]) then Lookup(space.ram, space.dir, q) else None
  {
    ghost var ram0, b0 := space.ram, space.pm.Pages();
    halted, newDir := space.CopyKernelPdir();
    if newDir != 0 && !halted {
      NewSpaceJoins(ram0, space.ram, dirs, space.dir, newDir, b0, space.pm.Pages(), space.pm.pool, space.limit);
      NewSpaceData(ram0, space.ram, dirs, space.dir, newDir, b0, space.pm.Pages(), space.pm.pool, space.limit, mem);
    }
  }

  lemma NewSpaceData(ram: Ram, ram': Ram, dirs: set<Page>, dir: Page, newDir: Page, b: PageFrames.Bitmap,
                     b': PageFrames.Bitmap, pool: U32, limit: nat, mem: Memory)
    requires Spaces(ram, dirs, b, pool, limit) && dir in dirs && AllData(ram, dirs, mem)
    requires WellFormed(ram', dir, b', pool, limit) && Grown(ram, ram', dir, b, b', pool, limit)
    requires NewSpace(ram', dir, newDir, b', pool, limit) && !Owned(b, pool, limit, newDir)
    requires forall f: Page :: !IsTable(ram', dir, f) && f != newDir ==> ram'[f] == ram[f]
    ensures AllData(ram', dirs + {newDir}, mem)
  {
    forall e | e in dirs && e != dir ensures KeepsTables(ram, ram', dir, e) {
      assert WellFormed(ram, e, b, pool, limit);
      TablesApart(ram, ram', dir, e, b, b', pool, limit);
    }
    forall a: nat | DataByte(ram', dirs + {newDir}, a) ensures ReadByte(mem, a) == ByteAt(ram', a) {
      assert newDir in dirs + {newDir} && IsTable(ram', newDir, newDir);
      assert dir in dirs + {newDir} && !IsTable(ram', dir, a / PAGE_SIZE);
      assert forall e :: e in dirs ==> e in dirs + {newDir};
      if TableOfAny(ram, dirs, a / PAGE_SIZE) { TablesStay(ram, ram', dirs, dir, b, b', pool, limit, a / PAGE_SIZE); }
      assert DataByte(ram, dirs, a);
    }
  }

  lemma CopyTouches(m: Memory, dst: seq<nat>, src: seq<nat>, word: seq<nat>, bytes: seq<Byte>)
    requires |dst| == |src| && |word| == |bytes|
    ensures OnlyTouches(m, PhysMem.Store(Copy(m, dst, src), word, bytes), dst + word)
  {
    CopyMoves(m, dst, src);
    StoreWrites(Copy(m, dst, src), word, bytes);
  }

  lemma CopyOnAgreed(ram: Ram, dirs: set<Page>, mem: Memory,
                     dst: seq<nat>, src: seq<nat>, word: seq<nat>, bytes: seq<Byte>)
    requires AllData(ram, dirs, mem) && |dst| == |src| && |word| == |bytes| && AllDataBytes(ram, dirs, src)
    ensures Agree(ram, dirs, PhysMem.Store(Copy(mem, dst, src), word, bytes),
                  PhysMem.Store(Copy(Everything(ram), dst, src), word, bytes))
  {
    EverythingAgrees(ram, dirs, mem);
    CopyAgrees(ram, dirs, mem, Everything(ram), dst, src);
    StoreAgrees(ram, dirs, Copy(mem, dst, src), Copy(Everything(ram), dst, src), word, bytes);
  }

  lemma BothData(ram: Ram, dirs: set<Page>, dst: seq<nat>, word: seq<nat>)
    requires AllDataBytes(ram, dirs, dst) && AllDataBytes(ram, dirs, word)
    ensures AllDataBytes(ram, dirs, dst + word)
  {}

  /** A copy and a store in the current space, and all spaces. */
  lemma CopyIsolated(ram: Ram, ram': Ram, dirs: set<Page>, dir: Page, b: PageFrames.Bitmap, b': PageFrames.Bitmap,
                     pool: U32, limit: nat, mem: Memory, dst: seq<nat>, src: seq<nat>, word: seq<nat>, bytes: seq<Byte>)
    requires |dst| == |src| && |word| == |bytes|
    requires Spaces(ram, dirs, b, pool, limit) && dir in dirs && AllData(ram, dirs, mem)
    requires AllDataBytes(ram, dirs, dst) && AllDataBytes(ram, dirs, src) && AllDataBytes(ram, dirs, word)
    requires CallDone(ram, ram', dir, b, b', pool, limit, PhysMem.Store(Copy(Everything(ram), dst, src), word, bytes))
    ensures Spaces(ram', dirs, b', pool, limit) && OneChanges(ram, ram', dirs, dir, b, b', pool, limit)
    ensures forall d :: d in dirs ==> SameTranslations(ram, ram', d)
    ensures AllData(ram', dirs, PhysMem.Store(Copy(mem, dst, src), word, bytes))
  {
    var after := PhysMem.Store(Copy(Everything(ram), dst, src), word, bytes);
    CopyTouches(Everything(ram), dst, src, word, bytes);
    BothData(ram, dirs, dst, word);
    CallIsolated(ram, ram', dirs, dir, b, b', pool, limit, after, dst + word);
    CopyOnAgreed(ram, dirs, mem, dst, src, word, bytes);
    DataAfter(ram, ram', dirs, dir, b, b', pool, limit, after, PhysMem.Store(Copy(mem, dst, src), word, bytes));
  }

  /** The bytes that a send to a waiting receiver writes and reads. */
  function FillDst(held: Packet): seq<nat> { WindowBytes(held.physRecv, held.recvBuf, held.recvLen) }

  function FillSrc(m: Packet, held: Packet, pages: PageMap): seq<nat> { BufferBytes(pages, m.sendBuf, held.recvLen) }

  function FillWord(held: Packet): seq<nat> { WindowBytes(held.physPacket, held.physPacket, Ipc.SENDER_SIZE) }

  /** The step's node does not depend on memory, and its memory is a copy and a store. */
  lemma FillWithMemory(s: Ipc.State, m: Packet, pages: PageMap, r: nat, mem: Memory)
    requires Ipc.Shape(s) && r < |s.procs| && Ipc.Fill(s, m, pages, r).Next?
    ensures var held, pid, o := s.procs[r].queue[0].msg, s.procs[s.current].pid, Ipc.Fill(s.(mem := mem), m, pages, r);
      && o.Next?
      && o.s.mem == PhysMem.Store(Copy(mem, FillDst(held), FillSrc(m, held, pages)), FillWord(held), Le32(pid))
      && o.s.procs == Ipc.Fill(s, m, pages, r).s.procs
  {}

  /** The send to a waiting receiver, as it is seen from all spaces. */
  method Fill(space: Vm.AddressSpace, m: Packet, held: Packet, pid: U32,
              ghost s: Ipc.State, ghost pages: PageMap, ghost r: nat, ghost dirs: set<Page>)
    returns (filled: Packet)
    requires Ipc.Shape(s) && r < |s.procs| && Ipc.Fill(s, m, pages, r).Next?
    requires held == s.procs[r].queue[0].msg && pid == s.procs[s.current].pid
    requires InOrder(space, dirs, s.mem) && IpcOnPages.CanOpenBoth(space, held.recvLen)
    requires IpcOnPages.Sees(space.ram, space.dir, pages, m.sendBuf)
    requires IpcOnPages.Sees(space.ram, space.dir, pages, m.recvBuf)
    requires IpcOnPages.SeesAll(space.ram, space.dir, pages, m.sendBuf, held.recvLen)
    requires HeldNow(space, dirs, FillDst(held)) && HeldNow(space, dirs, FillSrc(m, held, pages))
    requires HeldNow(space, dirs, FillWord(held))
    modifies space`ram, space.pm.bitmap
    ensures InOrder(space, dirs, Ipc.Fill(s, m, pages, r).s.mem)
    ensures filled == Ipc.Fill(s, m, pages, r).s.procs[r].queue[0].msg
    ensures forall d :: d in dirs ==> SameTranslations(old(space.ram), space.ram, d)
    ensures OneChanges(old(space.ram), space.ram, dirs, space.dir, old(space.pm.Pages()), space.pm.Pages(),
                       space.pm.pool, space.limit)
    ensures space.Free() + old(IpcOnPages.Tables(space, IpcOnPages.SEND_WINDOW, held.recvLen))
              + old(IpcOnPages.Tables(space, IpcOnPages.PACKET_WINDOW, Ipc.PACKET_SIZE)) >= old(space.Free())
  {
    ghost var ram0, b0 := space.ram, space.pm.Pages();
    ghost var full := s.(mem := Everything(ram0));
    FillWithMemory(s, m, pages, r, Everything(ram0));
    FillWithMemory(s, m, pages, r, s.mem);
    EverythingIsData(ram0, space.dir);
    HeldIsPlain(ram0, dirs, space.dir, b0, space.pm.pool, space.limit, FillDst(held));
    HeldIsPlain(ram0, dirs, space.dir, b0, space.pm.pool, space.limit, FillSrc(m, held, pages));
    HeldIsPlain(ram0, dirs, space.dir, b0, space.pm.pool, space.limit, FillWord(held));
    filled := IpcOnPages.FillPlaceholder(space, m, held, pid, full, pages, r);
    CopyIsolated(ram0, space.ram, dirs, space.dir, b0, space.pm.Pages(), space.pm.pool, space.limit, s.mem,
                 FillDst(held), FillSrc(m, held, pages), FillWord(held), Le32(pid));
  }

  lemma ReplyWithMemory(s: Ipc.State, m: Packet, pages: PageMap, mem: Memory)
    requires Ipc.Shape(s) && s.procs[s.current].queue != [] && Ipc.ReplyBody(s, m, pages).Next?
    ensures var held, o := s.procs[s.current].queue[0].msg, Ipc.ReplyBody(s.(mem := mem), m, pages);
      && o.Next?
      && o.s.mem == PhysMem.Store(Copy(mem, FillDst(held), FillSrc(m, held, pages)), [], [])
  {}

  /** The reply, as it is seen from all spaces. */
  method Reply(space: Vm.AddressSpace, m: Packet, held: Packet,
               ghost s: Ipc.State, ghost pages: PageMap, ghost dirs: set<Page>)
    requires Ipc.Shape(s) && s.procs[s.current].queue != [] && held == s.procs[s.current].queue[0].msg
    requires Ipc.ReplyBody(s, m, pages).Next?
    requires InOrder(space, dirs, s.mem) && space.CanOpen(IpcOnPages.REPLY_WINDOW, held.recvLen)
    requires IpcOnPages.SeesAll(space.ram, space.dir, pages, m.sendBuf, held.recvLen)
    requires HeldNow(space, dirs, FillDst(held)) && HeldNow(space, dirs, FillSrc(m, held, pages))
    modifies space`ram, space.pm.bitmap
    ensures InOrder(space, dirs, Ipc.ReplyBody(s, m, pages).s.mem)
    ensures forall d :: d in dirs ==> SameTranslations(old(space.ram), space.ram, d)
    ensures OneChanges(old(space.ram), space.ram, dirs, space.dir, old(space.pm.Pages()), space.pm.Pages(),
                       space.pm.pool, space.limit)
  {
    ghost var ram0, b0 := space.ram, space.pm.Pages();
    ReplyWithMemory(s, m, pages, Everything(ram0));
    ReplyWithMemory(s, m, pages, s.mem);
    EverythingIsData(ram0, space.dir);
    HeldIsPlain(ram0, dirs, space.dir, b0, space.pm.pool, space.limit, FillDst(held));
    HeldIsPlain(ram0, dirs, space.dir, b0, space.pm.pool, space.limit, FillSrc(m, held, pages));
    IpcOnPages.ReplyToFirst(space, m, held, s.(mem := Everything(ram0)), pages);
    CopyIsolated(ram0, space.ram, dirs, space.dir, b0, space.pm.Pages(), space.pm.pool, space.limit, s.mem,
                 FillDst(held), FillSrc(m, held, pages), [], []);
  }

  lemma RecvWithMemory(s: Ipc.State, m: Packet, at: U32, pages: PageMap, mem: Memory)
    requires Ipc.Shape(s) && s.procs[s.current].queue != [] && Ipc.RecvBody(s, m, at, pages).Next?
    ensures var held, o := s.procs[s.current].queue[0].msg, Ipc.RecvBody(s.(mem := mem), m, at, pages);
      && o.Next?
      && o.s.mem == PhysMem.Store(Copy(mem, BufferBytes(pages, m.recvBuf, m.recvLen),
                                       WindowBytes(held.physSend, held.sendBuf, m.recvLen)),
                                  BufferBytes(pages, at, Ipc.SENDER_SIZE), Le32(held.sender))
  {}

  /** The receive of a message that waits, as it is seen from all spaces. */
  method Receive(space: Vm.AddressSpace, m: Packet, at: U32, held: Packet,
                 ghost s: Ipc.State, ghost pages: PageMap, ghost dirs: set<Page>)
    requires Ipc.Shape(s) && s.procs[s.current].queue != [] && held == s.procs[s.current].queue[0].msg
    requires Ipc.RecvBody(s, m, at, pages).Next?
    requires InOrder(space, dirs, s.mem) && space.CanOpen(IpcOnPages.PACKET_WINDOW, held.sendLen)
    requires IpcOnPages.SeesAll(space.ram, space.dir, pages, m.recvBuf, m.recvLen)
    requires IpcOnPages.SeesAll(space.ram, space.dir, pages, at, Ipc.SENDER_SIZE)
    requires HeldNow(space, dirs, BufferBytes(pages, m.recvBuf, m.recvLen))
    requires HeldNow(space, dirs, WindowBytes(held.physSend, held.sendBuf, m.recvLen))
    requires HeldNow(space, dirs, BufferBytes(pages, at, Ipc.SENDER_SIZE))
    modifies space`ram, space.pm.bitmap
    ensures InOrder(space, dirs, Ipc.RecvBody(s, m, at, pages).s.mem)
    ensures forall d :: d in dirs ==> SameTranslations(old(space.ram), space.ram, d)
    ensures OneChanges(old(space.ram), space.ram, dirs, space.dir, old(space.pm.Pages()), space.pm.Pages(),
                       space.pm.pool, space.limit)
  {
    ghost var ram0, b0 := space.ram, space.pm.Pages();
    ghost var dst, src := BufferBytes(pages, m.recvBuf, m.recvLen), WindowBytes(held.physSend, held.sendBuf, m.recvLen);
    ghost var word := BufferBytes(pages, at, Ipc.SENDER_SIZE);
    RecvWithMemory(s, m, at, pages, Everything(ram0));
    RecvWithMemory(s, m, at, pages, s.mem);
    EverythingIsData(ram0, space.dir);
    HeldIsPlain(ram0, dirs, space.dir, b0, space.pm.pool, space.limit, dst);
    HeldIsPlain(ram0, dirs, space.dir, b0, space.pm.pool, space.limit, src);
    HeldIsPlain(ram0, dirs, space.dir, b0, space.pm.pool, space.limit, word);
    IpcOnPages.ReceiveFirst(space, m, at, held, s.(mem := Everything(ram0)), pages);
    CopyIsolated(ram0, space.ram, dirs, space.dir, b0, space.pm.Pages(), space.pm.pool, space.limit, s.mem,
                 dst, src, word, Le32(held.sender));
  }

  // ----- across a context switch -----

  /** What holds of a window in a space holds after a call in another one. */
  lemma WindowElsewhere(ram: Ram, ram': Ram, dirs: set<Page>, dir: Page, other: Page, b: PageFrames.Bitmap,
                        b': PageFrames.Bitmap, pool: U32, limit: nat, first: Page, n: nat)
    requires Spaces(ram, dirs, b, pool, limit) && OneChanges(ram, ram', dirs, dir, b, b', pool, limit)
    requires other in dirs && other != dir && SameTranslations(ram, ram', other)
    requires ClearOfSelfMap(first, n) && UnmappedRun(ram, other, first, n)
    ensures UnmappedRun(ram', other, first, n) && Missing(ram'[other], first, n, 0) == Missing(ram[other], first, n, 0)
  {
    assert WellFormed(ram, other, b, pool, limit) && Beside(ram, dir, other);
    OtherDirectory(ram, ram', dir, other);
  }

  /** How many frames the two calls of a conversation take for tables, at most. */
  ghost function TablesFor(space: Vm.AddressSpace, held: Packet, other: Page, replyLen: U32): nat
    reads space
  {
    IpcOnPages.Tables(space, IpcOnPages.SEND_WINDOW, held.recvLen)
    + IpcOnPages.Tables(space, IpcOnPages.PACKET_WINDOW, Ipc.PACKET_SIZE)
    + Missing(space.ram[other], IpcOnPages.REPLY_WINDOW / PAGE_SIZE, PageCount(replyLen), 0)
  }

  /** The reply window in the receiver's space. */
  ghost predicate ReplyWindowFree(ram: Ram, other: Page, replyLen: U32) {
    && ClearOfSelfMap(IpcOnPages.REPLY_WINDOW / PAGE_SIZE, PageCount(replyLen))
    && UnmappedRun(ram, other, IpcOnPages.REPLY_WINDOW / PAGE_SIZE, PageCount(replyLen))
  }

  /** A whole conversation with a receiver that waits: the sender's call in the sender's space, a
      context switch, and the receiver's reply in the receiver's space. Memory is what the two
      steps make of it, one after the other, and every translation of every space, also of those
      of third processes, is as before. */
  method Conversation(space: Vm.AddressSpace, other: Page, m: Packet, held: Packet, pid: U32, answer: Packet,
                      ghost s: Ipc.State, ghost pages: PageMap, ghost r: nat, ghost replyPages: PageMap,
                      ghost dirs: set<Page>)
    requires Ipc.Shape(s) && r < |s.procs| && Ipc.Fill(s, m, pages, r).Next?
    requires held == s.procs[r].queue[0].msg && pid == s.procs[s.current].pid
    requires var t := Ipc.Fill(s, m, pages, r).s.(current := r);
      Ipc.Shape(t) && Ipc.ReplyBody(t, answer, replyPages).Next?
    requires InOrder(space, dirs, s.mem) && other in dirs && other != space.dir
    requires IpcOnPages.CanOpenBoth(space, held.recvLen) && ReplyWindowFree(space.ram, other, m.recvLen)
    requires space.Free() >= TablesFor(space, held, other, m.recvLen)
    requires IpcOnPages.Sees(space.ram, space.dir, pages, m.sendBuf)
    requires IpcOnPages.Sees(space.ram, space.dir, pages, m.recvBuf)
    requires IpcOnPages.SeesAll(space.ram, space.dir, pages, m.sendBuf, held.recvLen)
    requires HeldNow(space, dirs, FillDst(held)) && HeldNow(space, dirs, FillSrc(m, held, pages))
    requires HeldNow(space, dirs, FillWord(held))
    requires IpcOnPages.SeesAll(space.ram, other, replyPages, answer.sendBuf, m.recvLen)
    requires HeldNow(space, dirs, WindowBytes(Translate(pages, m.recvBuf), m.recvBuf, m.recvLen))
    requires HeldNow(space, dirs, BufferBytes(replyPages, answer.sendBuf, m.recvLen))
    modifies space`ram, space`dir, space.pm.bitmap
    ensures var t := Ipc.Fill(s, m, pages, r).s.(current := r);
      InOrder(space, dirs, Ipc.ReplyBody(t, answer, replyPages).s.mem)
    ensures space.dir == other && forall d :: d in dirs ==> SameTranslations(old(space.ram), space.ram, d)
  {
    ghost var ram0, b0, dir0 := space.ram, space.pm.Pages(), space.dir;
    ghost var t := Ipc.Fill(s, m, pages, r).s.(current := r);
    var filled := Fill(space, m, held, pid, s, pages, r, dirs);
    ghost var ram1, b1 := space.ram, space.pm.Pages();
    HeldStays(ram0, ram1, dirs, dir0, b0, b1, space.pm.pool, space.limit,
              WindowBytes(Translate(pages, m.recvBuf), m.recvBuf, m.recvLen));
    HeldStays(ram0, ram1, dirs, dir0, b0, b1, space.pm.pool, space.limit,
              BufferBytes(replyPages, answer.sendBuf, m.recvLen));
    WindowElsewhere(ram0, ram1, dirs, dir0, other, b0, b1, space.pm.pool, space.limit,
                    IpcOnPages.REPLY_WINDOW / PAGE_SIZE, PageCount(m.recvLen));
    IpcOnPages.BufferStays(ram0, ram1, other, replyPages, answer.sendBuf, m.recvLen);
    SwitchTo(space, other, dirs, t.mem);
    Reply(space, answer, filled, t, replyPages, dirs);
  }
}
