// kernel/vm.c: page tables edited in place through the self-map, on frames from kernel/pm.c.
module Vm {
  import opened Common
  import opened PhysMem
  import opened Paging
  import opened VmSpec
  import opened VmEntries
  import PageFrames

  class AddressSpace {
    /** Physical memory, rewritten word by word. */
    var ram: Ram
    /** cr3: the frame of the page directory in use. */
    var dir: Page
    const pm: PageFrames.FrameAllocator
    /** The size of the memory hole that the pool was placed in, in pages. */
    ghost const limit: nat

    constructor (ram: Ram, dir: Page, pm: PageFrames.FrameAllocator, ghost limit: nat)
      requires pm.Valid() && limit <= PageFrames.PAGES
      requires Sound(ram, dir, pm.Pages(), pm.pool, limit)
      ensures Valid() && this.ram == ram && this.dir == dir && this.pm == pm && this.limit == limit
    {
      this.ram := ram;
      this.dir := dir;
      this.pm := pm;
      this.limit := limit;
    }

    ghost predicate Valid()
      reads this, pm, pm.bitmap
    {
      && pm.Valid()
      && limit <= PageFrames.PAGES
      && Sound(ram, dir, pm.Pages(), pm.pool, limit)
    }

    ghost function Free(): nat
      requires pm.Valid() && limit <= PageFrames.PAGES
      reads this, pm, pm.bitmap
    {
      FreeCount(pm.Pages(), limit)
    }

    /** A load through the page tables. */
    method Load(addr: U32) returns (e: Entry)
      requires Walk(ram, dir, addr).Some?
      ensures e == WordAt(ram, Walk(ram, dir, addr).value)
    {
      var pde := ram[dir][PdirIdx(addr)];
      var pte := ram[pde.frame][PtabIdx(addr)];
      e := ram[pte.frame][addr % PAGE_SIZE / 4];
    }

    /** pdir[i], through the self-map. */
    method LoadPde(i: nat) returns (e: Entry)
      requires SelfMapped(ram, dir) && i < 1024
      ensures e == ram[dir][i]
    {
      SelfMapReaches(ram, dir, i, 0);
      WordPlace(dir, i);
      e := Load(PdeAddr(i));
    }

    /** ptab[j] of the table of directory slot i, through the self-map. */
    method LoadPte(i: nat, j: nat) returns (e: Entry)
      requires SelfMapped(ram, dir) && i < 1024 && j < 1024 && Present(ram[dir][i])
      ensures e == ram[ram[dir][i].frame][j]
    {
      SelfMapReaches(ram, dir, i, j);
      WordPlace(ram[dir][i].frame, j);
      e := Load(PteAddr(i, j));
    }

    /** A store through the page tables, to an address behind which lies word k of frame f. */
    method Store(addr: U32, e: Entry, ghost f: Page, ghost k: nat)
      requires k < 1024 && Walk(ram, dir, addr) == Some(f * PAGE_SIZE + 4 * k)
      modifies `ram
      ensures ram == SetWord(old(ram), f, k, e)
    {
      WordPlace(f, k);
      var pde := ram[dir][PdirIdx(addr)];
      var pte := ram[pde.frame][PtabIdx(addr)];
      ram := SetWord(ram, pte.frame, addr % PAGE_SIZE / 4, e);
    }

    /** pm_alloc: while the pool has a free frame, a zeroed one that is no table and that nobody
        owned. After that, a frame that somebody may own: one outside the pool, or the null
        that stands for frame 0. */
    method AllocFrame() returns (f: Page)
      requires Valid()
      modifies pm.bitmap
      ensures Valid() && StillOwned(old(pm.Pages()), pm.Pages(), pm.pool, limit)
      ensures old(Free()) > 0 ==>
        && Free() == old(Free()) - 1
        && Zeroed(ram[f]) && !IsTable(ram, dir, f) && !old(Owned(pm.Pages(), pm.pool, limit, f))
        && Owned(pm.Pages(), pm.pool, limit, f)
      ensures old(Free()) == 0 ==> Free() == 0 && (f == 0 || old(Owned(pm.Pages(), pm.pool, limit, f)))
      ensures old(PageFrames.AllUsed(pm.Pages())) ==> f == 0 && pm.Pages() == old(pm.Pages())
    {
      ghost var b := pm.Pages();
      ghost var p;
      var r;
      r, p := pm.Alloc();
      f := r / PAGE_SIZE;
      if !PageFrames.AllUsed(b) {
        BitOfFrame(pm.pool, p);
        OneFewer(b, pm.Pages(), limit, p);
        FreeBelow(b, limit, p);
      } else {
        NoneFree(b, limit);
      }
    }

    /** ptab[vm_ptab_idx(vaddr)] = e, through the self-map. */
    method StoreEntry(vaddr: U32, e: Entry)
      requires SelfMapped(ram, dir) && Present(ram[dir][PdirIdx(vaddr)])
      modifies `ram
      ensures ram == SetWord(old(ram), old(ram[dir][PdirIdx(vaddr)].frame), PtabIdx(vaddr), e)
    {
      SelfMapReaches(ram, dir, PdirIdx(vaddr), PtabIdx(vaddr));
      Store(PteAddr(PdirIdx(vaddr), PtabIdx(vaddr)), e, ram[dir][PdirIdx(vaddr)].frame, PtabIdx(vaddr));
    }

    /** The same in an address space that is in order. */
    method StorePte(vaddr: U32, e: Entry)
      requires Valid() && PdirIdx(vaddr) != SELF && Present(ram[dir][PdirIdx(vaddr)]) && Clean(e)
      modifies `ram
      ensures Valid() && ram[dir] == old(ram[dir])
      ensures SameElsewhere(old(ram), ram, dir, vaddr / PAGE_SIZE)
      ensures Lookup(ram, dir, vaddr / PAGE_SIZE) == if Present(e) then Some(e.frame) else None
      ensures SameData(old(ram), ram, dir)
      ensures NoNewTables(old(ram), ram, dir)
      ensures PteOf(ram, dir, vaddr / PAGE_SIZE) == e && KeptElsewhere(old(ram), ram, dir, vaddr / PAGE_SIZE)
    {
      PteChange(ram, dir, pm.Pages(), pm.pool, limit, vaddr / PAGE_SIZE, e);
      StoreKeeps(ram, dir, vaddr / PAGE_SIZE, e);
      StoreEntry(vaddr, e);
    }

    /** pdir[i] |= flags, through the self-map, for a table that exists. */
    method AddPdeFlags(i: nat, flags: bv12)
      requires Valid() && i < SELF && Present(ram[dir][i])
      requires PageFlags(flags) && flags & PRESENT != 0
      modifies `ram
      ensures Valid() && Present(ram[dir][i]) && ram[dir][i].frame == old(ram[dir][i].frame)
      ensures ram == SetWord(old(ram), dir, i, WithFlags(old(ram[dir][i]), flags))
      ensures SameTranslations(old(ram), ram, dir)
      ensures SameData(old(ram), ram, dir)
      ensures NoNewTables(old(ram), ram, dir)
    {
      SelfMapReaches(ram, dir, i, 0);
      var pde := LoadPde(i);
      assert Clean(ram[ram[dir][SELF].frame][i]);
      OrFlags(pde.low, flags);
      PdeChange(ram, dir, pm.Pages(), pm.pool, limit, i, pde.(low := pde.low | flags));
      Store(PdeAddr(i), pde.(low := pde.low | flags), dir, i);
    }

    /** pdir[i] = pm_alloc() | flags, through the self-map, for a table that does not exist. */
    method AddTable(i: nat, flags: bv12) returns (table: Page)
      requires Valid() && i < SELF && !Present(ram[dir][i])
      requires PageFlags(flags) && flags & PRESENT != 0
      modifies `ram, pm.bitmap
      ensures ram == SetWord(old(ram), dir, i, Entry(table, flags))
      ensures old(Free()) > 0 ==>
        && Valid() && Free() == old(Free()) - 1 && !IsTable(old(ram), dir, table)
        && SameTranslations(old(ram), ram, dir)
        && SameData(old(ram), ram, dir)
        && Grown(old(ram), ram, dir, old(pm.Pages()), pm.Pages(), pm.pool, limit)
      ensures old(Free()) == 0 ==> Free() == 0 && (table == 0 || old(Owned(pm.Pages(), pm.pool, limit, table)))
    {
      table := AllocFrame();
      SelfMapReaches(ram, dir, i, 0);
      if old(Free()) > 0 {
        TablePlug(ram, dir, pm.Pages(), pm.pool, limit, i, Entry(table, flags));
      }
      Store(PdeAddr(i), Entry(table, flags), dir, i);
    }

    /** The page's table exists, or there is a frame in the pool for it. */
    ghost predicate HasTable(vaddr: U32)
      requires pm.Valid() && limit <= PageFrames.PAGES
      reads this, pm, pm.bitmap
    {
      Present(ram[dir][PdirIdx(vaddr)]) || Free() > 0
    }

    /** The two stores of map_page for a page that is not mapped. */
    method EnterPage(paddr: U32, vaddr: U32, all: bv12) returns (ghost table: Page)
      requires Valid() && PdirIdx(vaddr) != SELF && Lookup(ram, dir, vaddr / PAGE_SIZE).None?
      requires PageFlags(all) && all & PRESENT != 0
      modifies `ram, pm.bitmap
      ensures ram == Installed(old(ram), dir, vaddr / PAGE_SIZE, TableFor(old(ram[dir][PdirIdx(vaddr)]), table, all),
                               Entry(paddr / PAGE_SIZE, all))
      ensures old(HasTable(vaddr)) ==>
        && Valid()
        && PageMapped(old(ram), ram, dir, old(pm.Pages()), pm.Pages(), pm.pool, limit,
                      vaddr / PAGE_SIZE, paddr / PAGE_SIZE)
        && (old(Present(ram[dir][PdirIdx(vaddr)])) || !IsTable(old(ram), dir, table))
      ensures !old(HasTable(vaddr)) ==> Free() == 0 && (table == 0 || old(Owned(pm.Pages(), pm.pool, limit, table)))
    {
      var i := PdirIdx(vaddr);
      assert vaddr / PAGE_SIZE / 1024 == i;
      var pde := LoadPde(i);
      if Present(pde) {
        AddPdeFlags(i, all);
        table := 0;
      } else {
        table := AddTable(i, all);
      }
      ghost var ram1 := ram;
      StoreEntry(vaddr, Entry(paddr / PAGE_SIZE, all));
      if old(HasTable(vaddr)) {
        PteChange(ram1, dir, pm.Pages(), pm.pool, limit, vaddr / PAGE_SIZE, Entry(paddr / PAGE_SIZE, all));
        TableThenEntry(old(ram), ram1, ram, dir, vaddr / PAGE_SIZE, old(pm.Pages()), pm.pool, limit);
      }
    }

    /** map_page. A page that is already mapped stays as it is, and the kernel halts if the
        mapping asked for is another one. For any other page, two words change: its directory
        entry gets the flags, or a fresh page table with them, and its own entry gets the frame
        asked for with just the flags, P and W. No other translation changes, and no other entry.
        Where the pool has no frame for the table, the null or the owned frame that pm_alloc
        returns becomes the table all the same, and that does the job if and only if it will do. */
    method MapPage(paddr: U32, vaddr: U32, flags: bv12) returns (halted: bool, ghost table: Page)
      requires Valid() && PdirIdx(vaddr) != SELF && PageFlags(flags)
      modifies `ram, pm.bitmap
      ensures halted <==> Objects(old(ram), dir, vaddr / PAGE_SIZE, paddr / PAGE_SIZE, flags)
      ensures old(Lookup(ram, dir, vaddr / PAGE_SIZE)).Some? ==> ram == old(ram)
      ensures old(Lookup(ram, dir, vaddr / PAGE_SIZE)).None? ==>
        ram == Installed(old(ram), dir, vaddr / PAGE_SIZE,
                         TableFor(old(ram[dir][PdirIdx(vaddr)]), table, flags | PRESENT | WRITE),
                         Entry(paddr / PAGE_SIZE, flags | PRESENT | WRITE))
      ensures old(HasTable(vaddr)) ==>
        && Valid()
        && PageMapped(old(ram), ram, dir, old(pm.Pages()), pm.Pages(), pm.pool, limit,
                      vaddr / PAGE_SIZE, paddr / PAGE_SIZE)
        && KeptElsewhere(old(ram), ram, dir, vaddr / PAGE_SIZE)
      ensures old(HasTable(vaddr) && Lookup(ram, dir, vaddr / PAGE_SIZE).None?) ==>
        && Entered(ram, dir, vaddr / PAGE_SIZE, Entry(paddr / PAGE_SIZE, flags | PRESENT | WRITE),
                   flags | PRESENT | WRITE)
        && (UserReaches(ram, dir, vaddr / PAGE_SIZE) <==> flags & USER != 0)
        && !Objects(ram, dir, vaddr / PAGE_SIZE, paddr / PAGE_SIZE, flags)
      ensures !old(HasTable(vaddr)) ==>
        && (table == 0 || old(Owned(pm.Pages(), pm.pool, limit, table)))
        && (Valid() && MapsOnly(old(ram), ram, dir, vaddr / PAGE_SIZE, paddr / PAGE_SIZE)
            <==> WillDo(old(ram), dir, vaddr / PAGE_SIZE, Entry(table, flags | PRESENT | WRITE),
                        Entry(paddr / PAGE_SIZE, flags | PRESENT | WRITE)))
    {
      var i, j := PdirIdx(vaddr), PtabIdx(vaddr);
      assert vaddr / PAGE_SIZE / 1024 == i;
      MappingFlags(flags);
      var all := flags | PRESENT | WRITE;
      var pde := LoadPde(i);
      if Present(pde) {
        var pte := LoadPte(i, j);
        if Present(pte) {
          AllKept(ram, dir, vaddr / PAGE_SIZE);
          halted := pte.frame != paddr / PAGE_SIZE || pte.low & 0x1f != all & 0x1f;
          return halted, 0;
        }
      }
      table := EnterPage(paddr, vaddr, all);
      MadeRight(old(ram), vaddr / PAGE_SIZE, table, paddr / PAGE_SIZE, all, old(HasTable(vaddr)));
      if old(HasTable(vaddr)) { NowReached(ram, dir, vaddr / PAGE_SIZE, paddr / PAGE_SIZE, flags); }
      halted := false;
    }

    /** What the two stores have come to. */
    lemma MadeRight(ram0: Ram, page: Page, table: Page, f: Page, all: bv12, hadTable: bool)
      requires pm.Valid() && limit <= PageFrames.PAGES && Space(ram0, dir) && page / 1024 != SELF
      requires Lookup(ram0, dir, page).None? && PageFlags(all) && all & PRESENT != 0
      requires ram == Installed(ram0, dir, page, TableFor(ram0[dir][page / 1024], table, all), Entry(f, all))
      requires if hadTable then Present(ram0[dir][page / 1024]) || !IsTable(ram0, dir, table)
               else Free() == 0 && !Present(ram0[dir][page / 1024])
      ensures hadTable ==> Entered(ram, dir, page, Entry(f, all), all) && KeptElsewhere(ram0, ram, dir, page)
      ensures !hadTable ==>
        (Valid() && MapsOnly(ram0, ram, dir, page, f) <==> WillDo(ram0, dir, page, Entry(table, all), Entry(f, all)))
    {
      var pde := ram0[dir][page / 1024];
      OrGrows(pde.low, all);
      if hadTable {
        WithFlagsPresent(pde, all);
        InstalledEnters(ram0, dir, page, TableFor(pde, table, all), Entry(f, all), all);
      } else {
        NewTableIff(ram0, dir, page, Entry(table, all), Entry(f, all));
        NoFrameLeft(ram, pm.Pages(), pm.pool, limit);
      }
    }

    /** unmap_page, for a page whose table exists: its entry becomes zero, and no other changes. */
    method UnmapPage(vaddr: U32)
      requires Valid() && PdirIdx(vaddr) != SELF && Present(ram[dir][PdirIdx(vaddr)])
      modifies `ram
      ensures Valid() && ram[dir] == old(ram[dir])
      ensures Lookup(ram, dir, vaddr / PAGE_SIZE) == None
      ensures SameElsewhere(old(ram), ram, dir, vaddr / PAGE_SIZE)
      ensures SameData(old(ram), ram, dir)
      ensures PteOf(ram, dir, vaddr / PAGE_SIZE) == NO_ENTRY && KeptElsewhere(old(ram), ram, dir, vaddr / PAGE_SIZE)
    {
      StorePte(vaddr, NO_ENTRY);
    }

    /** vm_get_phys_mapping: the frame in the page's entry, and the offset; so, for every mapped
        address, the very address that the hardware translates to. The mask keeps bits 10 and
        11, which are zero in every entry. */
    method GetPhysMapping(vaddr: U32) returns (phys: U32)
      requires Valid() && Present(ram[dir][PdirIdx(vaddr)])
      ensures phys == PteOf(ram, dir, vaddr / PAGE_SIZE).frame * PAGE_SIZE + vaddr % PAGE_SIZE
      ensures Walk(ram, dir, vaddr).Some? ==> Walk(ram, dir, vaddr) == Some(phys)
    {
      var i, j := PdirIdx(vaddr), PtabIdx(vaddr);
      var pte := LoadPte(i, j);
      assert Clean(ram[ram[dir][i].frame][j]);
      phys := (pte.frame * PAGE_SIZE + (pte.low & UNMASKED) as int + vaddr % PAGE_SIZE) % WORD_SPAN;
    }

    /** vm_change_page_attrs, for a page whose table exists: the frame stays, the flags are those
        asked for, and no other entry changes. The page is mapped or not as the flags say; if so,
        a later map_page of the page as it is objects if and only if W is not among them. */
    method ChangePageAttrs(vaddr: U32, flags: bv12)
      requires Valid() && PdirIdx(vaddr) != SELF && Present(ram[dir][PdirIdx(vaddr)])
      requires flags & UNMASKED == 0
      modifies `ram
      ensures Valid() && ram[dir] == old(ram[dir])
      ensures old(Lookup(ram, dir, vaddr / PAGE_SIZE)).Some? ==>
        Lookup(ram, dir, vaddr / PAGE_SIZE)
        == if flags & PRESENT != 0 then old(Lookup(ram, dir, vaddr / PAGE_SIZE)) else None
      ensures SameElsewhere(old(ram), ram, dir, vaddr / PAGE_SIZE)
      ensures SameData(old(ram), ram, dir)
      ensures PteOf(ram, dir, vaddr / PAGE_SIZE) == Entry(PteOf(old(ram), dir, vaddr / PAGE_SIZE).frame, flags)
      ensures KeptElsewhere(old(ram), ram, dir, vaddr / PAGE_SIZE)
      ensures flags & PRESENT != 0 ==>
        (Objects(ram, dir, vaddr / PAGE_SIZE, PteOf(old(ram), dir, vaddr / PAGE_SIZE).frame, flags)
         <==> flags & WRITE == 0)
    {
      var i, j := PdirIdx(vaddr), PtabIdx(vaddr);
      var pte := LoadPte(i, j);
      assert Clean(ram[ram[dir][i].frame][j]);
      CleanedFlags(pte.low, flags);
      StorePte(vaddr, pte.(low := (pte.low & UNMASKED) | flags));
      if flags & PRESENT != 0 { ChangedObjectsIff(ram, dir, vaddr / PAGE_SIZE, pte.frame, flags); }
    }

    /** map_pages has mapped the first i of n pages. */
    ghost predicate Mapping(ram0: Ram, b0: PageFrames.Bitmap, first: Page, frame: Page, flags: bv12, n: nat, i: nat)
      requires pm.Valid() && limit <= PageFrames.PAGES && i <= n
      reads this, pm, pm.bitmap
    {
      && Accounted(ram0, ram, dir, b0, pm.Pages(), pm.pool, limit, first, n, i)
      && Progress(ram0, ram, dir, first, frame, n, i)
      && Entering(ram0, ram, dir, first, frame, flags | PRESENT | WRITE, n, i)
    }

    /** One round of map_pages: page i of n. */
    method MapNext(p: U32, v: U32, flags: bv12, ghost ram0: Ram, ghost b0: PageFrames.Bitmap,
                   ghost first: Page, ghost frame: Page, ghost n: nat, i: nat)
      returns (halted: bool, i': nat)
      requires Valid() && PageFlags(flags)
      requires i < n <= PageFrames.PAGES && ClearOfSelfMap(first, n)
      requires v / PAGE_SIZE == PageAfter(first, i) && p / PAGE_SIZE == PageAfter(frame, i)
      requires Mapping(ram0, b0, first, frame, flags, n, i)
      modifies `ram, pm.bitmap
      ensures Valid()
      ensures SameData(ram0, ram, dir) && SameOutside(ram0, ram, dir, first, n)
      ensures Grown(ram0, ram, dir, b0, pm.Pages(), pm.pool, limit)
      ensures i' == i + 1 && (!halted ==> Mapping(ram0, b0, first, frame, flags, n, i'))
      ensures UnmappedRun(ram0, dir, first, n) ==> !halted
    {
      ghost var ram1, b1 := ram, pm.Pages();
      Untouched(ram0, ram1, dir, first, frame, n, i);
      TableOrFrame(ram1[dir], first, n, i);
      assert PdirIdx(v) == PageAfter(first, i) / 1024;
      ghost var table;
      halted, table := MapPage(p, v, flags);
      i' := i + 1;
      AccountNext(ram0, ram1, ram, dir, b0, b1, pm.Pages(), pm.pool, limit, first, n, i, i', frame);
      Advance(ram0, ram1, ram, dir, b1, pm.Pages(), pm.pool, limit, first, frame, n, i, i', halted);
      EnteringNext(ram0, ram1, ram, dir, first, frame, flags | PRESENT | WRITE, n, i, i');
    }

    /** map_pages. Where nothing was mapped before, `sz` bytes' worth of whole pages become
        mapped to consecutive frames, each with the flags, and all other entries are kept. The
        allocator hands out exactly the tables missing. */
    method MapPages(paddr: U32, vaddr: U32, flags: bv12, sz: U32) returns (halted: bool)
      requires Valid() && PageFlags(flags)
      requires Free() >= Missing(ram[dir], vaddr / PAGE_SIZE, PageCount(sz), 0)
      requires ClearOfSelfMap(vaddr / PAGE_SIZE, PageCount(sz))
      modifies `ram, pm.bitmap
      ensures Valid() && SameData(old(ram), ram, dir)
      ensures SameOutside(old(ram), ram, dir, vaddr / PAGE_SIZE, PageCount(sz))
      ensures old(UnmappedRun(ram, dir, vaddr / PAGE_SIZE, PageCount(sz))) ==>
        !halted && MappedRun(ram, dir, vaddr / PAGE_SIZE, paddr / PAGE_SIZE, PageCount(sz))
      ensures Grown(old(ram), ram, dir, old(pm.Pages()), pm.Pages(), pm.pool, limit)
      ensures !halted ==> Free() + Missing(old(ram[dir]), vaddr / PAGE_SIZE, PageCount(sz), 0) == old(Free())
      ensures !halted ==> OnlyNeeded(old(ram[dir]), ram[dir], vaddr / PAGE_SIZE, PageCount(sz))
      ensures !halted ==> Entering(old(ram), ram, dir, vaddr / PAGE_SIZE, paddr / PAGE_SIZE,
                                   flags | PRESENT | WRITE, PageCount(sz), PageCount(sz))
    {
      halted := false;
      if sz == 0 {
        return;
      }
      var n := sz / PAGE_SIZE + (if sz % PAGE_SIZE > 0 then 1 else 0);
      FirstAt(vaddr);
      FirstAt(paddr);
      var v: U32, p: U32 := vaddr - vaddr % PAGE_SIZE, paddr - paddr % PAGE_SIZE;
      ghost var first, frame, ram0, b0 := vaddr / PAGE_SIZE, paddr / PAGE_SIZE, ram, pm.Pages();
      var i: nat := 0;
      while i < n
        invariant i <= n && At(v, first, i) && At(p, frame, i)
        invariant Valid() && Mapping(ram0, b0, first, frame, flags, n, i)
      {
        ghost var done := i;
        halted, i := MapNext(p, v, flags, ram0, b0, first, frame, n, i);
        if halted {
          return;
        }
        NextAt(v, first, done, i);
        NextAt(p, frame, done, i);
        p, v := NextPage(p), NextPage(v);
      }
    }

    /** unmap_pages, for pages whose tables exist. */
    method UnmapPages(vaddr: U32, sz: U32)
      requires Valid() && ClearOfSelfMap(vaddr / PAGE_SIZE, PageCount(sz))
      requires TablesExist(ram[dir], vaddr / PAGE_SIZE, PageCount(sz))
      modifies `ram
      ensures Valid() && SameData(old(ram), ram, dir) && ram[dir] == old(ram[dir])
      ensures SameOutside(old(ram), ram, dir, vaddr / PAGE_SIZE, PageCount(sz))
      ensures UnmappedRun(ram, dir, vaddr / PAGE_SIZE, PageCount(sz))
      ensures ClearedRun(ram, dir, vaddr / PAGE_SIZE, PageCount(sz))
      ensures KeptOutside(old(ram), ram, dir, vaddr / PAGE_SIZE, PageCount(sz))
    {
      if sz == 0 {
        return;
      }
      var n := sz / PAGE_SIZE + (if sz % PAGE_SIZE > 0 then 1 else 0);
      FirstAt(vaddr);
      var v: U32 := vaddr - vaddr % PAGE_SIZE;
      ghost var first, ram0 := vaddr / PAGE_SIZE, ram;
      var i := 0;
      while i < n
        invariant i <= n && Valid() && ram[dir] == ram0[dir]
        invariant At(v, first, i)
        invariant SameData(ram0, ram, dir) && SameOutside(ram0, ram, dir, first, i)
        invariant UnmappedRun(ram, dir, first, i)
        invariant ClearedRun(ram, dir, first, i) && KeptOutside(ram0, ram, dir, first, i)
      {
        NextAt(v, first, i, i + 1);
        OffsetAfter(first, i);
        assert InRange(first, n, PageAfter(first, i));
        ghost var ram1 := ram;
        UnmapPage(v);
        OutsideGrows(ram0, ram1, ram, dir, first, i);
        HoleGrows(ram1, ram, dir, first, i, n);
        ClearedNext(ram1, ram, dir, first, i, n);
        OutsideKept(ram0, ram1, ram, dir, first, i);
        v, i := NextPage(v), i + 1;
      }
    }

    /** vm_change_pages_attrs, for pages whose tables exist: each keeps its frame and gets the
        flags, and no other entry changes. */
    method ChangePagesAttrs(vaddr: U32, flags: bv12, bytes: U32)
      requires Valid() && ClearOfSelfMap(vaddr / PAGE_SIZE, PageCount(bytes)) && flags & UNMASKED == 0
      requires TablesExist(ram[dir], vaddr / PAGE_SIZE, PageCount(bytes))
      modifies `ram
      ensures Valid() && SameData(old(ram), ram, dir) && ram[dir] == old(ram[dir])
      ensures SameOutside(old(ram), ram, dir, vaddr / PAGE_SIZE, PageCount(bytes))
      ensures AttrsRun(old(ram), ram, dir, vaddr / PAGE_SIZE, PageCount(bytes), flags)
      ensures KeptOutside(old(ram), ram, dir, vaddr / PAGE_SIZE, PageCount(bytes))
    {
      FirstAt(vaddr);
      var v: U32 := vaddr - vaddr % PAGE_SIZE;
      var n := bytes / PAGE_SIZE + (if bytes % PAGE_SIZE > 0 then 1 else 0);
      ghost var first, ram0 := vaddr / PAGE_SIZE, ram;
      var i := 0;
      while i < n
        invariant i <= n && Valid() && At(v, first, i)
        invariant ChangedRun(ram0, ram, dir, first, i, flags)
      {
        NextAt(v, first, i, i + 1);
        OffsetAfter(first, i);
        assert InRange(first, n, PageAfter(first, i));
        ghost var ram1 := ram;
        ChangePageAttrs(v, flags);
        ChangedNext(ram0, ram1, ram, dir, first, i, i + 1, n, flags);
        v, i := NextPage(v), i + 1;
      }
    }

    method LoadByte(addr: U32) returns (b: Byte)
      requires Walk(ram, dir, addr).Some?
      ensures b == ByteAt(ram, Walk(ram, dir, addr).value)
    {
      var pde := ram[dir][PdirIdx(addr)];
      var pte := ram[pde.frame][PtabIdx(addr)];
      b := ByteAt(ram, pte.frame * PAGE_SIZE + addr % PAGE_SIZE);
    }

    method StoreByte(addr: U32, b: Byte)
      requires Walk(ram, dir, addr).Some?
      modifies `ram
      ensures ram == WithByte(old(ram), old(Walk(ram, dir, addr).value), b)
    {
      var pde := ram[dir][PdirIdx(addr)];
      var pte := ram[pde.frame][PtabIdx(addr)];
      ram := WithByte(ram, pte.frame * PAGE_SIZE + addr % PAGE_SIZE, b);
    }

    /** memcpy between two virtual buffers, where it writes to no table: physical memory
        changes as PhysMem.Copy says of the bytes behind the buffers, and nothing is mapped
        differently. */
    method Memcpy(d: U32, s: U32, n: nat, ghost mem: Memory)
      requires Valid() && DataIs(ram, dir, mem)
      requires Mapped(ram, dir, d, n) && AllPlain(ram, dir, pm.Pages(), pm.pool, limit, Behind(ram, dir, d, n))
      requires Mapped(ram, dir, s, n) && AllPlain(ram, dir, pm.Pages(), pm.pool, limit, Behind(ram, dir, s, n))
      modifies `ram
      ensures Valid() && SameTables(old(ram), ram, dir)
      ensures DataIs(ram, dir, Copy(mem, old(Behind(ram, dir, d, n)), old(Behind(ram, dir, s, n))))
    {
      ghost var ram0, dst, src := ram, Behind(ram, dir, d, n), Behind(ram, dir, s, n);
      ghost var now: Memory := mem;
      var i := 0;
      while i < n
        invariant i <= n && Valid() && SameTables(ram0, ram, dir) && DataIs(ram, dir, now)
        invariant Copy(mem, dst, src) == Copy(now, dst[i..], src[i..])
      {
        BehindSame(ram0, ram, dir, d, n, i);
        BehindSame(ram0, ram, dir, s, n, i);
        ghost var ram1 := ram;
        var b := LoadByte(Plus(s, i));
        StoreByte(Plus(d, i), b);
        ByteChange(ram1, ram, dir, pm.Pages(), pm.pool, limit, now, dst[i], b);
        SameTablesTwice(ram0, ram1, ram, dir);
        now := now[dst[i] := ReadByte(now, src[i])];
        assert dst[i..][1..] == dst[i + 1..] && src[i..][1..] == src[i + 1..];
        i := i + 1;
      }
    }

    /** The same for bytes that come from the kernel itself. */
    method Write(d: U32, bytes: seq<Byte>, ghost mem: Memory)
      requires Valid() && DataIs(ram, dir, mem)
      requires Mapped(ram, dir, d, |bytes|)
      requires AllPlain(ram, dir, pm.Pages(), pm.pool, limit, Behind(ram, dir, d, |bytes|))
      modifies `ram
      ensures Valid() && SameTables(old(ram), ram, dir)
      ensures DataIs(ram, dir, PhysMem.Store(mem, old(Behind(ram, dir, d, |bytes|)), bytes))
    {
      ghost var ram0, dst := ram, Behind(ram, dir, d, |bytes|);
      ghost var now: Memory := mem;
      var i := 0;
      while i < |bytes|
        invariant i <= |bytes| && Valid() && SameTables(ram0, ram, dir) && DataIs(ram, dir, now)
        invariant PhysMem.Store(mem, dst, bytes) == PhysMem.Store(now, dst[i..], bytes[i..])
      {
        BehindSame(ram0, ram, dir, d, |bytes|, i);
        ghost var ram1 := ram;
        StoreByte(Plus(d, i), bytes[i]);
        ByteChange(ram1, ram, dir, pm.Pages(), pm.pool, limit, now, dst[i], bytes[i]);
        SameTablesTwice(ram0, ram1, ram, dir);
        now := now[dst[i] := bytes[i]];
        assert dst[i..][1..] == dst[i + 1..] && bytes[i..][1..] == bytes[i + 1..];
        i := i + 1;
      }
    }

    /** What the caller of a window needs: frames for the tables that are missing, and an
        aligned range of unmapped pages. */
    ghost predicate CanOpen(window: U32, sz: U32)
      requires pm.Valid() && limit <= PageFrames.PAGES
      reads this, pm, pm.bitmap
    {
      && window % PAGE_SIZE == 0 && ClearOfSelfMap(window / PAGE_SIZE, PageCount(sz))
      && UnmappedRun(ram, dir, window / PAGE_SIZE, PageCount(sz))
      && Free() >= Missing(ram[dir], window / PAGE_SIZE, PageCount(sz), 0)
    }

    /** The window on the peer's buffer at v, of which `phys` is the physical address: its
        bytes, from `at` on, are those of PhysMem.WindowBytes, and no data has changed by mapping
        it. Its pages are present and writable, and for the kernel only. */
    method OpenWindow(phys: U32, window: U32, sz: U32, ghost v: U32, ghost at: U32, ghost n: nat, ghost mem: Memory)
      requires Valid() && CanOpen(window, sz) && WindowCovers(sz, v, n) && DataIs(ram, dir, mem)
      requires at == window + v % PAGE_SIZE
      modifies `ram, pm.bitmap
      ensures Valid() && DataIs(ram, dir, mem)
      ensures Mapped(ram, dir, at, n)
      ensures Behind(ram, dir, at, n) == WindowBytes(phys, v, n)
      ensures SameData(old(ram), ram, dir)
      ensures SameOutside(old(ram), ram, dir, window / PAGE_SIZE, PageCount(sz))
      ensures TablesExist(ram[dir], window / PAGE_SIZE, PageCount(sz))
      ensures Grown(old(ram), ram, dir, old(pm.Pages()), pm.Pages(), pm.pool, limit)
      ensures Free() + Missing(old(ram[dir]), window / PAGE_SIZE, PageCount(sz), 0) == old(Free())
      ensures OnlyNeeded(old(ram[dir]), ram[dir], window / PAGE_SIZE, PageCount(sz))
      ensures EnteredRun(ram, dir, window / PAGE_SIZE, phys / PAGE_SIZE, PRESENT | WRITE, PageCount(sz))
    {
      ghost var ram0 := ram;
      var halted := MapPages(phys, window, 0, sz);
      MappedTables(ram, dir, window / PAGE_SIZE, phys / PAGE_SIZE, PageCount(sz));
      WindowBehind(ram, dir, window, phys, v, at, sz, n);
      DataStays(ram0, ram, dir, mem);
    }

    /** Afterwards every translation outside the self-map is again what it was when the window
        was unmapped, before `ram0` became `ram1` by opening it, and those in the self-map are
        if and only if no table was missing. */
    method CloseWindow(window: U32, sz: U32, ghost ram0: Ram, ghost ram1: Ram, ghost b0: PageFrames.Bitmap,
                       ghost mem: Memory)
      requires Valid() && DataIs(ram, dir, mem) && ClearOfSelfMap(window / PAGE_SIZE, PageCount(sz))
      requires UnmappedRun(ram0, dir, window / PAGE_SIZE, PageCount(sz)) && SelfMapped(ram0, dir)
      requires SameOutside(ram0, ram1, dir, window / PAGE_SIZE, PageCount(sz)) && SameTables(ram1, ram, dir)
      requires TablesExist(ram1[dir], window / PAGE_SIZE, PageCount(sz))
      requires Grown(ram0, ram1, dir, b0, pm.Pages(), pm.pool, limit)
      requires OnlyNeeded(ram0[dir], ram1[dir], window / PAGE_SIZE, PageCount(sz))
      modifies `ram
      ensures Valid() && DataIs(ram, dir, mem) && SameTranslations(ram0, ram, dir) && ram[dir] == old(ram[dir])
      ensures Grown(ram0, ram, dir, b0, pm.Pages(), pm.pool, limit)
      ensures SameSelfMap(ram0, ram, dir) <==> Missing(ram0[dir], window / PAGE_SIZE, PageCount(sz), 0) == 0
    {
      ghost var ram2 := ram;
      UnmapPages(window, sz);
      DataStays(ram2, ram, dir, mem);
      WindowClosed(ram0, ram1, ram2, ram, dir, window / PAGE_SIZE, PageCount(sz));
      StillGrown(ram0, ram1, ram, dir, b0, pm.Pages(), pm.pool, limit);
      SelfMapSameIff(ram0, ram, dir, window / PAGE_SIZE, PageCount(sz));
    }

    /** How a system call stores bytes in another process's memory: it maps the physical pages
        into an unused window, stores there, and unmaps the window again. Each byte lands at
        the physical address meant, no other data changes, and every translation outside the
        self-map is restored; those inside it are too if and only if no table was missing. */
    method StoreThroughWindow(phys: U32, window: U32, sz: U32, v: U32, bytes: seq<Byte>, ghost mem: Memory)
      requires Valid() && CanOpen(window, sz) && WindowCovers(sz, v, |bytes|) && DataIs(ram, dir, mem)
      requires AllPlain(ram, dir, pm.Pages(), pm.pool, limit, WindowBytes(phys, v, |bytes|))
      modifies `ram, pm.bitmap
      ensures Valid() && SameTranslations(old(ram), ram, dir)
      ensures DataIs(ram, dir, PhysMem.Store(mem, WindowBytes(phys, v, |bytes|), bytes))
      ensures Grown(old(ram), ram, dir, old(pm.Pages()), pm.Pages(), pm.pool, limit)
      ensures Free() + Missing(old(ram[dir]), window / PAGE_SIZE, PageCount(sz), 0) == old(Free())
      ensures SameSelfMap(old(ram), ram, dir)
              <==> Missing(old(ram[dir]), window / PAGE_SIZE, PageCount(sz), 0) == 0
    {
      ghost var ram0, b0, dst := ram, pm.Pages(), WindowBytes(phys, v, |bytes|);
      var at: U32 := window + v % PAGE_SIZE;
      OpenWindow(phys, window, sz, v, at, |bytes|, mem);
      ghost var ram1 := ram;
      PlainStays(ram0, ram, dir, b0, pm.Pages(), pm.pool, limit, dst);
      Write(at, bytes, mem);
      CloseWindow(window, sz, ram0, ram1, b0, PhysMem.Store(mem, dst, bytes));
    }

    /** A process's own buffer: mapped, outside the self-map, and behind it frames that hold
        data. */
    ghost predicate OwnBuffer(v: U32, n: nat)
      requires pm.Valid()
      reads this, pm, pm.bitmap
    {
      && Mapped(ram, dir, v, n) && AllPlain(ram, dir, pm.Pages(), pm.pool, limit, Behind(ram, dir, v, n))
      && forall i: nat :: i < n ==> Plus(v, i) / PAGE_SIZE / 1024 != SELF
    }

    /** The copy of a send or a reply: from the caller's buffer at `own` through a window into
        the peer's buffer at v. */
    method CopyToPeer(phys: U32, window: U32, sz: U32, v: U32, own: U32, n: nat, ghost mem: Memory)
      requires Valid() && CanOpen(window, sz) && WindowCovers(sz, v, n) && DataIs(ram, dir, mem)
      requires OwnBuffer(own, n) && AllPlain(ram, dir, pm.Pages(), pm.pool, limit, WindowBytes(phys, v, n))
      modifies `ram, pm.bitmap
      ensures Valid() && SameTranslations(old(ram), ram, dir)
      ensures DataIs(ram, dir, Copy(mem, WindowBytes(phys, v, n), old(Behind(ram, dir, own, n))))
      ensures Grown(old(ram), ram, dir, old(pm.Pages()), pm.Pages(), pm.pool, limit)
      ensures Free() + Missing(old(ram[dir]), window / PAGE_SIZE, PageCount(sz), 0) == old(Free())
      ensures SameSelfMap(old(ram), ram, dir)
              <==> Missing(old(ram[dir]), window / PAGE_SIZE, PageCount(sz), 0) == 0
    {
      ghost var ram0, b0, first := ram, pm.Pages(), window / PAGE_SIZE;
      ghost var dst, src := WindowBytes(phys, v, n), Behind(ram, dir, own, n);
      var at: U32 := window + v % PAGE_SIZE;
      OpenWindow(phys, window, sz, v, at, n, mem);
      ghost var ram1 := ram;
      PlainStays(ram0, ram, dir, b0, pm.Pages(), pm.pool, limit, dst);
      PlainStays(ram0, ram, dir, b0, pm.Pages(), pm.pool, limit, src);
      OwnStays(ram0, ram, dir, first, PageCount(sz), own, n);
      Memcpy(at, own, n, mem);
      CloseWindow(window, sz, ram0, ram1, b0, Copy(mem, dst, src));
    }

    /** The copy of a receive: from the peer's buffer at v through a window into the caller's
        buffer at `own`. */
    method CopyFromPeer(phys: U32, window: U32, sz: U32, v: U32, own: U32, n: nat, ghost mem: Memory)
      requires Valid() && CanOpen(window, sz) && WindowCovers(sz, v, n) && DataIs(ram, dir, mem)
      requires OwnBuffer(own, n) && AllPlain(ram, dir, pm.Pages(), pm.pool, limit, WindowBytes(phys, v, n))
      modifies `ram, pm.bitmap
      ensures Valid() && SameTranslations(old(ram), ram, dir)
      ensures DataIs(ram, dir, Copy(mem, old(Behind(ram, dir, own, n)), WindowBytes(phys, v, n)))
      ensures Grown(old(ram), ram, dir, old(pm.Pages()), pm.Pages(), pm.pool, limit)
      ensures Free() + Missing(old(ram[dir]), window / PAGE_SIZE, PageCount(sz), 0) == old(Free())
      ensures SameSelfMap(old(ram), ram, dir)
              <==> Missing(old(ram[dir]), window / PAGE_SIZE, PageCount(sz), 0) == 0
    {
      ghost var ram0, b0, first := ram, pm.Pages(), window / PAGE_SIZE;
      ghost var dst, src := Behind(ram, dir, own, n), WindowBytes(phys, v, n);
      var at: U32 := window + v % PAGE_SIZE;
      OpenWindow(phys, window, sz, v, at, n, mem);
      ghost var ram1 := ram;
      PlainStays(ram0, ram, dir, b0, pm.Pages(), pm.pool, limit, dst);
      PlainStays(ram0, ram, dir, b0, pm.Pages(), pm.pool, limit, src);
      OwnStays(ram0, ram, dir, first, PageCount(sz), own, n);
      Memcpy(own, at, n, mem);
      CloseWindow(window, sz, ram0, ram1, b0, Copy(mem, dst, src));
    }

    /** vm_copy_kernel_pdir, while the pool has a frame for the directory and one for a table
        to map it with, or only the former if the table exists, or once every page of the bitmap
        is used. It returns null and changes no memory if pm_alloc does. Unless the kernel halts
        because the new frame's own address is mapped elsewhere, the new directory is an address
        space of its own: it maps itself, agrees with the current one wherever that has a kernel
        table, maps nothing else, and has no user entry. The current address space has gained the
        new frame's page at most. */
    method CopyKernelPdir() returns (halted: bool, newDir: Page)
      requires Valid()
      requires Free() >= 2 || PageFrames.AllUsed(pm.Pages()) || (Free() == 1 && FreeHaveTables())
      requires forall f: Page :: !Owned(pm.Pages(), pm.pool, limit, f) ==> f / 1024 != SELF
      modifies `ram, pm.bitmap
      ensures Valid()
      ensures old(PageFrames.AllUsed(pm.Pages())) ==> newDir == 0 && pm.Pages() == old(pm.Pages())
      ensures newDir == 0 ==> !halted && ram == old(ram)
      ensures SameElsewhere(old(ram), ram, dir, newDir)
      ensures newDir != 0 && !halted ==>
        && NewSpace(ram, dir, newDir, pm.Pages(), pm.pool, limit)
        && !old(Owned(pm.Pages(), pm.pool, limit, newDir))
        && Grown(old(ram), ram, dir, old(pm.Pages()), pm.Pages(), pm.pool, limit)
        && (forall f: Page :: !IsTable(ram, dir, f) && f != newDir ==> ram[f] == old(ram)[f])
        && IsKernelCopy(ram[dir], ram[newDir], newDir)
        && (old(Lookup(ram, dir, newDir)).None? ==>
              Entered(ram, dir, newDir, Entry(newDir, PRESENT | WRITE), PRESENT | WRITE))
    {
      ghost var ram0, b0 := ram, pm.Pages();
      newDir := AllocFrame();
      if newDir == 0 {
        return false, 0;
      }
      var addr: U32 := newDir * PAGE_SIZE;
      ghost var table, b1 := 0, pm.Pages();
      halted, table := MapPage(addr, addr, 0);
      if halted {
        return;
      }
      ghost var ram1 := ram;
      FillDirectory(newDir);
      FrameThenGrown(ram0, ram1, ram, dir, b0, b1, pm.Pages(), pm.pool, limit);
    }

    /** Wherever a free frame has its own page, there is a table for it. */
    ghost predicate FreeHaveTables()
      requires pm.Valid()
      reads this, pm, pm.bitmap
    {
      forall f: Page :: !Owned(pm.Pages(), pm.pool, limit, f) ==> Present(ram[dir][f / 1024])
    }

    /** set_cr3 in proc_schedule_after_irq: from now on another directory translates. */
    method SetCr3(other: Page)
      requires Valid() && Sound(ram, other, pm.Pages(), pm.pool, limit)
      modifies `dir
      ensures Valid() && dir == other
    {
      dir := other;
    }

    /** The rest of vm_copy_kernel_pdir, once the new frame is mapped at its own address. */
    method FillDirectory(newDir: Page)
      requires Valid() && Lookup(ram, dir, newDir) == Some(newDir)
      requires !IsTable(ram, dir, newDir) && Owned(pm.Pages(), pm.pool, limit, newDir)
      modifies `ram
      ensures Valid() && NewSpace(ram, dir, newDir, pm.Pages(), pm.pool, limit)
      ensures ram[dir] == old(ram[dir]) && OnlyChanges(old(ram), ram, newDir)
      ensures forall q: Page :: Lookup(ram, dir, q) == old(Lookup(ram, dir, q))
      ensures IsKernelCopy(ram[dir], ram[newDir], newDir)
    {
      ghost var ram0 := ram;
      ClearPage(newDir);
      StillMapped(ram0, ram, dir, newDir, SELF);
      DataChange(ram0, ram, dir, pm.Pages(), pm.pool, limit, newDir);
      CopyKernelEntries(newDir);
      StillMapped(ram0, ram, dir, newDir, SELF);
      Store(newDir * PAGE_SIZE + 4 * SELF, Entry(newDir, PRESENT | WRITE), newDir, SELF);
      DataChange(ram0, ram, dir, pm.Pages(), pm.pool, limit, newDir);
      KernelCopy(ram, dir, newDir);
      KernelTablesOwned(ram, dir, newDir, pm.Pages(), pm.pool, limit);
    }

    /** memset(page, 0, PAGE_SIZE), for a page mapped to the frame of the same number. */
    method ClearPage(page: Page)
      requires SelfMapped(ram, dir) && Lookup(ram, dir, page) == Some(page) && !IsTable(ram, dir, page)
      modifies `ram
      ensures OnlyChanges(old(ram), ram, page) && Zeroed(ram[page])
    {
      ghost var ram0 := ram;
      var addr: U32 := page * PAGE_SIZE;
      var i := 0;
      while i < 1024
        invariant i <= 1024 && OnlyChanges(ram0, ram, page)
        invariant forall k :: 0 <= k < i ==> ram[page][k] == NO_ENTRY
      {
        StillMapped(ram0, ram, dir, page, i);
        Store(addr + 4 * i, NO_ENTRY, page, i);
        i := i + 1;
      }
    }

    /** The loop that copies the kernel's directory entries into a cleared frame. */
    method CopyKernelEntries(page: Page)
      requires SelfMapped(ram, dir) && Lookup(ram, dir, page) == Some(page) && !IsTable(ram, dir, page)
      requires Zeroed(ram[page])
      modifies `ram
      ensures OnlyChanges(old(ram), ram, page)
      ensures forall k :: 0 <= k < 1024 ==> ram[page][k] == if IsKernel(ram[dir][k]) then ram[dir][k] else NO_ENTRY
    {
      ghost var ram0 := ram;
      var addr: U32 := page * PAGE_SIZE;
      var i := 0;
      while i < 1024
        invariant i <= 1024 && OnlyChanges(ram0, ram, page) && ram[dir] == ram0[dir]
        invariant forall k :: 0 <= k < 1024 ==>
          ram[page][k] == if k < i && IsKernel(ram[dir][k]) then ram[dir][k] else NO_ENTRY
      {
        StillMapped(ram0, ram, dir, page, i);
        var pde := LoadPde(i);
        if Present(pde) && !User(pde) {
          Store(addr + 4 * i, pde, page, i);
        }
        i := i + 1;
      }
    }
  }
}
