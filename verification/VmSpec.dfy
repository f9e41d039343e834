// What holds of page tables in memory, and what each change to them keeps.
module VmSpec {
  import opened Common
  import opened PhysMem
  import opened Paging
  import PageFrames

  function FrameOf(pool: U32, p: nat): Page
    requires p < PageFrames.PAGES
  {
    PageFrames.AddressOf(pool, p) / PAGE_SIZE
  }

  /** The page of the allocator's bitmap that stands for a frame. */
  function BitOf(pool: U32, f: Page): (p: nat)
    ensures p < PageFrames.PAGES
  {
    PageFrames.PageOf(pool, PageFrames.P2v(f * PAGE_SIZE))
  }

  lemma BitOfFrame(pool: U32, p: nat)
    requires pool % PAGE_SIZE == 0 && p < PageFrames.PAGES
    ensures BitOf(pool, FrameOf(pool, p)) == p
    ensures PageFrames.AddressOf(pool, p) == FrameOf(pool, p) * PAGE_SIZE
  {
    PageFrames.AddressesDistinct(pool, p, p);
    PageFrames.FreeFindsPage(pool, p, 0);
  }

  /** How many of the first k pages are free. */
  function FreeCount(b: PageFrames.Bitmap, k: nat): (c: nat)
    requires k <= PageFrames.PAGES
    ensures c <= k
  {
    if k == 0 then 0 else FreeCount(b, k - 1) + (if PageFrames.Used(b, k - 1) then 0 else 1)
  }

  lemma {:induction false} SomeFree(b: PageFrames.Bitmap, k: nat) returns (p: nat)
    requires k <= PageFrames.PAGES && FreeCount(b, k) > 0
    ensures p < k && !PageFrames.Used(b, p)
  {
    if PageFrames.Used(b, k - 1) { p := SomeFree(b, k - 1); } else { p := k - 1; }
  }

  /** With no free frame in the pool, every frame has an owner, and no free one can be stale. */
  lemma NoFrameLeft(ram: Ram, b: PageFrames.Bitmap, pool: U32, limit: nat)
    requires limit <= PageFrames.PAGES && FreeCount(b, limit) == 0
    ensures forall f: Page :: Owned(b, pool, limit, f)
    ensures FreeIsZero(ram, b, pool, limit)
  {
    forall p | 0 <= p < limit ensures PageFrames.Used(b, p) {
      if !PageFrames.Used(b, p) { FreeCounted(b, limit, p); }
    }
  }

  lemma {:induction false} NoneFree(b: PageFrames.Bitmap, k: nat)
    requires k <= PageFrames.PAGES && PageFrames.AllUsed(b)
    ensures FreeCount(b, k) == 0
  {
    if k > 0 { NoneFree(b, k - 1); }
  }

  /** The lowest free page lies in the pool if and only if the pool has one. */
  lemma FreeBelow(b: PageFrames.Bitmap, k: nat, p: nat)
    requires k <= PageFrames.PAGES && PageFrames.LowestFree(b, p)
    ensures p < k <==> FreeCount(b, k) > 0
  {
    if FreeCount(b, k) > 0 {
      var q := SomeFree(b, k);
    } else if p < k {
      FreeCounted(b, k, p);
    }
  }

  lemma {:induction false} FreeCounted(b: PageFrames.Bitmap, k: nat, p: nat)
    requires p < k <= PageFrames.PAGES && !PageFrames.Used(b, p)
    ensures FreeCount(b, k) > 0
  {
    if p < k - 1 { FreeCounted(b, k - 1, p); }
  }

  lemma {:induction false} OneFewer(b: PageFrames.Bitmap, b': PageFrames.Bitmap, k: nat, p: nat)
    requires k <= PageFrames.PAGES && p < PageFrames.PAGES
    requires PageFrames.Adds(b, b', p, p + 1) && !PageFrames.Used(b, p)
    ensures FreeCount(b', k) == FreeCount(b, k) - (if p < k then 1 else 0)
  {
    if k > 0 { OneFewer(b, b', k - 1, p); }
  }

  /** Every frame outside the pool's first `limit` pages, or allocated from it. */
  ghost predicate Owned(b: PageFrames.Bitmap, pool: U32, limit: nat, f: Page) {
    var p := BitOf(pool, f);
    limit <= p || PageFrames.Used(b, p)
  }

  /** Frames stay owned as the allocator hands out more. */
  ghost predicate StillOwned(b: PageFrames.Bitmap, b': PageFrames.Bitmap, pool: U32, limit: nat) {
    forall f: Page :: Owned(b, pool, limit, f) ==> Owned(b', pool, limit, f)
  }

  ghost predicate TablesOwned(ram: Ram, dir: Page, b: PageFrames.Bitmap, pool: U32, limit: nat) {
    forall f: Page :: IsTable(ram, dir, f) ==> Owned(b, pool, limit, f)
  }

  /** The assumption on free memory: frames that pm_alloc will hand out read as zero. */
  ghost predicate FreeIsZero(ram: Ram, b: PageFrames.Bitmap, pool: U32, limit: nat) {
    forall p :: 0 <= p < limit && p < PageFrames.PAGES && !PageFrames.Used(b, p) ==> Zeroed(ram[FrameOf(pool, p)])
  }

  /** Tables stay tables, and everything but the directory and its tables is as before. */
  ghost predicate SameData(ram: Ram, ram': Ram, dir: Page) {
    && (forall f: Page :: IsTable(ram, dir, f) ==> IsTable(ram', dir, f))
    && (forall f: Page :: !IsTable(ram', dir, f) ==> ram'[f] == ram[f])
  }

  /** Only frames that were not owned before have become tables. */
  ghost predicate NewTablesFree(ram: Ram, ram': Ram, dir: Page, b: PageFrames.Bitmap, pool: U32, limit: nat) {
    forall f: Page :: IsTable(ram', dir, f) && !IsTable(ram, dir, f) ==> !Owned(b, pool, limit, f)
  }

  /** Directory slots that have a table keep it. */
  ghost predicate SlotsStay(d: Frame, d': Frame) {
    forall k :: 0 <= k < 1024 && Present(d[k]) ==> Present(d'[k]) && d'[k].frame == d[k].frame
  }

  /** One of the first i pages of a range needs directory slot k. */
  ghost predicate Needs(first: Page, i: nat, k: nat) {
    exists j: nat :: j < i && PageAfter(first, j) / 1024 == k
  }

  /** Only slots that the first i pages of a range need have got a table. */
  ghost predicate OnlyNeeded(d: Frame, d': Frame, first: Page, i: nat) {
    forall k :: 0 <= k < 1024 && Present(d'[k]) && !Present(d[k]) ==> Needs(first, i, k)
  }

  /** The allocator has only handed out more, and that is where new tables are. */
  ghost predicate Grown(ram: Ram, ram': Ram, dir: Page, b: PageFrames.Bitmap, b': PageFrames.Bitmap,
                        pool: U32, limit: nat) {
    && NewTablesFree(ram, ram', dir, b, pool, limit) && StillOwned(b, b', pool, limit)
    && SlotsStay(ram[dir], ram'[dir])
  }

  /** How many pages q comes after `first`, counted around the end of the address space. */
  function Offset(first: Page, q: Page): (k: nat)
    ensures k < PageFrames.PAGES && PageAfter(first, k) == q
  {
    if first <= q then q - first else q + PageFrames.PAGES - first
  }

  /** One of the n pages from `first` on. */
  predicate InRange(first: Page, n: nat, q: Page) {
    Offset(first, q) < n
  }

  /** Outside a range of pages, and outside the self-map, translations are as before. */
  ghost predicate SameOutside(ram: Ram, ram': Ram, dir: Page, first: Page, n: nat) {
    forall q: Page :: !InRange(first, n, q) && q / 1024 != SELF ==> Lookup(ram', dir, q) == Lookup(ram, dir, q)
  }

  /** The n pages from `first` on are mapped to the frames from `frame` on. */
  ghost predicate MappedRun(ram: Ram, dir: Page, first: Page, frame: Page, n: nat) {
    forall k: nat :: k < n ==> Lookup(ram, dir, PageAfter(first, k)) == Some(PageAfter(frame, k))
  }

  /** None of the n pages from `first` on is mapped. */
  ghost predicate UnmappedRun(ram: Ram, dir: Page, first: Page, n: nat) {
    forall q: Page :: InRange(first, n, q) ==> Lookup(ram, dir, q) == None
  }

  /** After mapping the first i pages of a range: they alone have changed, and if nothing was
      mapped in the range, they are mapped as asked. */
  ghost predicate Progress(ram0: Ram, ram: Ram, dir: Page, first: Page, frame: Page, n: nat, i: nat) {
    && SameData(ram0, ram, dir)
    && SameOutside(ram0, ram, dir, first, i)
    && (UnmappedRun(ram0, dir, first, n) ==> MappedRun(ram, dir, first, frame, i))
  }

  /** None of the n pages from `first` on belongs to the self-map. */
  ghost predicate ClearOfSelfMap(first: Page, n: nat) {
    forall q: Page :: InRange(first, n, q) ==> q / 1024 != SELF
  }

  lemma OffsetAfter(first: Page, k: nat)
    requires k < PageFrames.PAGES
    ensures Offset(first, PageAfter(first, k)) == k
  {}

  /** The start of the next page, at the end of the address space that of page 0. */
  function NextPage(v: U32): (w: U32)
    requires v % PAGE_SIZE == 0
    ensures w % PAGE_SIZE == 0 && w / PAGE_SIZE == PageAfter(v / PAGE_SIZE, 1)
  {
    PageWraps(v / PAGE_SIZE + 1, 0);
    (v + PAGE_SIZE) % WORD_SPAN
  }

  /** The address of the i-th page from `first` on. */
  predicate At(v: U32, first: Page, i: nat) {
    v % PAGE_SIZE == 0 && v / PAGE_SIZE == PageAfter(first, i)
  }

  lemma FirstAt(addr: U32)
    ensures At(addr - addr % PAGE_SIZE, addr / PAGE_SIZE, 0)
  {}

  lemma NextAt(v: U32, first: Page, i: nat, i': nat)
    requires At(v, first, i) && i' == i + 1
    ensures At(NextPage(v), first, i')
  {
    assert PageAfter(PageAfter(first, i), 1) == PageAfter(first, i + 1);
  }

  /** The number of pages that map_pages and unmap_pages work on. */
  function PageCount(sz: U32): (n: nat)
    ensures n <= PageFrames.PAGES && n * PAGE_SIZE == MappedSpan(sz)
  {
    sz / PAGE_SIZE + (if sz % PAGE_SIZE > 0 then 1 else 0)
  }

  /** How many tables the directory lacks for pages i to n-1 of a range. */
  function Missing(directory: Frame, first: Page, n: nat, i: nat): (c: nat)
    requires i <= n
    ensures c <= n - i
    decreases n - i
  {
    if i == n then 0
    else
      var k := PageAfter(first, i) / 1024;
      if Present(directory[k]) then Missing(directory, first, n, i + 1)
      else 1 + Missing(directory[k := Entry(0, PRESENT)], first, n, i + 1)
  }

  lemma {:induction false} MissingSame(d: Frame, d': Frame, first: Page, n: nat, i: nat)
    requires i <= n && forall k :: 0 <= k < 1024 ==> Present(d[k]) == Present(d'[k])
    ensures Missing(d, first, n, i) == Missing(d', first, n, i)
    decreases n - i
  {
    if i < n {
      var k := PageAfter(first, i) / 1024;
      if Present(d[k]) { MissingSame(d, d', first, n, i + 1); }
      else { MissingSame(d[k := Entry(0, PRESENT)], d'[k := Entry(0, PRESENT)], first, n, i + 1); }
    }
  }

  /** Once page i has its table, only the pages behind it need more. */
  lemma MissingNext(d: Frame, d': Frame, first: Page, n: nat, i: nat)
    requires i < n
    requires var k := PageAfter(first, i) / 1024; Present(d'[k]) && d' == d[k := d'[k]]
    ensures Missing(d, first, n, i)
         == Missing(d', first, n, i + 1) + if Present(d[PageAfter(first, i) / 1024]) then 0 else 1
  {
    var k := PageAfter(first, i) / 1024;
    if Present(d[k]) { MissingSame(d, d', first, n, i + 1); }
    else { MissingSame(d[k := Entry(0, PRESENT)], d', first, n, i + 1); }
  }

  lemma TableOrFrame(d: Frame, first: Page, n: nat, i: nat)
    requires i < n
    ensures Present(d[PageAfter(first, i) / 1024]) || Missing(d, first, n, i) > 0
  {}

  /** After the first i of n pages: what the allocator has handed out since the start are the
      tables that were missing for them, and it has enough for those still missing. */
  ghost predicate Accounted(ram0: Ram, ram: Ram, dir: Page, b0: PageFrames.Bitmap, b: PageFrames.Bitmap,
                            pool: U32, limit: nat, first: Page, n: nat, i: nat)
    requires limit <= PageFrames.PAGES && i <= n
  {
    && FreeCount(b, limit) >= Missing(ram[dir], first, n, i)
    && FreeCount(b, limit) + Missing(ram0[dir], first, n, 0) == FreeCount(b0, limit) + Missing(ram[dir], first, n, i)
    && Grown(ram0, ram, dir, b0, b, pool, limit)
    && OnlyNeeded(ram0[dir], ram[dir], first, i)
  }

  /** A page that was free is mapped to frame f, one that was mapped stays. No other translation
      changes, nor does any frame but tables, and no directory slot but the page's own. One
      frame less is free if the page's table was missing. */
  ghost predicate PageMapped(ram: Ram, ram': Ram, dir: Page, b: PageFrames.Bitmap, b': PageFrames.Bitmap,
                             pool: U32, limit: nat, page: Page, f: Page)
    requires limit <= PageFrames.PAGES
  {
    && var k := page / 1024;
    && Present(ram'[dir][k]) && ram'[dir] == ram[dir][k := ram'[dir][k]]
    && FreeCount(b', limit) + (if Present(ram[dir][k]) then 0 else 1) == FreeCount(b, limit)
    && Grown(ram, ram', dir, b, b', pool, limit)
    && SameElsewhere(ram, ram', dir, page) && SameData(ram, ram', dir)
    && (Lookup(ram, dir, page).None? ==> Lookup(ram', dir, page) == Some(f))
  }

  lemma NeededNext(d0: Frame, d1: Frame, d2: Frame, first: Page, i: nat, i': nat)
    requires OnlyNeeded(d0, d1, first, i) && i' == i + 1
    requires var k := PageAfter(first, i) / 1024; d2 == d1[k := d2[k]]
    ensures OnlyNeeded(d0, d2, first, i')
  {
    forall k | 0 <= k < 1024 && Present(d2[k]) && !Present(d0[k]) ensures Needs(first, i', k) {
      if k != PageAfter(first, i) / 1024 {
        var j: nat :| j < i && PageAfter(first, j) / 1024 == k;
      }
    }
  }

  lemma AccountNext(ram0: Ram, ram1: Ram, ram2: Ram, dir: Page, b0: PageFrames.Bitmap, b1: PageFrames.Bitmap,
                    b2: PageFrames.Bitmap, pool: U32, limit: nat, first: Page, n: nat, i: nat, i': nat, frame: Page)
    requires limit <= PageFrames.PAGES && i < n && i' == i + 1
    requires Accounted(ram0, ram1, dir, b0, b1, pool, limit, first, n, i)
    requires PageMapped(ram1, ram2, dir, b1, b2, pool, limit, PageAfter(first, i), PageAfter(frame, i))
    ensures Accounted(ram0, ram2, dir, b0, b2, pool, limit, first, n, i')
  {
    MissingNext(ram1[dir], ram2[dir], first, n, i);
    OwnersGrow(ram0, ram1, ram2, dir, b0, b1, b2, pool, limit);
    NeededNext(ram0[dir], ram1[dir], ram2[dir], first, i, i');
  }

  /** No table is missing if and only if every page of the range has one. */
  lemma {:induction false} MissingNoneIff(d: Frame, first: Page, n: nat, i: nat)
    requires i <= n
    ensures Missing(d, first, n, i) == 0 <==> forall j: nat :: i <= j < n ==> Present(d[PageAfter(first, j) / 1024])
    decreases n - i
  {
    if i < n { MissingNoneIff(d, first, n, i + 1); }
  }

  /** With more tables, fewer are missing. */
  lemma {:induction false} MissingShrinks(d: Frame, d': Frame, first: Page, n: nat, i: nat)
    requires i <= n && forall k :: 0 <= k < 1024 && Present(d[k]) ==> Present(d'[k])
    ensures Missing(d', first, n, i) <= Missing(d, first, n, i)
    decreases n - i
  {
    if i < n {
      var k := PageAfter(first, i) / 1024;
      if Present(d[k]) { MissingShrinks(d, d', first, n, i + 1); }
      else if Present(d'[k]) { MissingShrinks(d[k := Entry(0, PRESENT)], d', first, n, i + 1); }
      else { MissingShrinks(d[k := Entry(0, PRESENT)], d'[k := Entry(0, PRESENT)], first, n, i + 1); }
    }
  }

  /** What holds of memory between calls: well-formed tables, in frames that the allocator
      will not hand out again, and zeroed free memory. */
  ghost predicate Sound(ram: Ram, dir: Page, b: PageFrames.Bitmap, pool: U32, limit: nat) {
    && Space(ram, dir)
    && TablesOwned(ram, dir, b, pool, limit)
    && FreeIsZero(ram, b, pool, limit)
  }

  /** Writing to a frame that is owned leaves free memory zeroed. */
  lemma OwnedWrite(ram: Ram, b: PageFrames.Bitmap, pool: U32, limit: nat, f: Page, k: nat, e: Entry)
    requires pool % PAGE_SIZE == 0 && FreeIsZero(ram, b, pool, limit)
    requires Owned(b, pool, limit, f) && k < 1024
    ensures FreeIsZero(SetWord(ram, f, k, e), b, pool, limit)
  {
    forall p | 0 <= p < limit && p < PageFrames.PAGES && !PageFrames.Used(b, p)
      ensures Zeroed(SetWord(ram, f, k, e)[FrameOf(pool, p)])
    {
      BitOfFrame(pool, p);
    }
  }

  /** Writing a directory entry that is present leaves every other table a table. */
  lemma TablesAfterPde(ram: Ram, dir: Page, i: nat, e: Entry)
    requires i < SELF && SelfMapped(ram, dir) && Present(e)
    requires Present(ram[dir][i]) ==> e.frame == ram[dir][i].frame
    ensures var ram' := SetWord(ram, dir, i, e);
      && SameData(ram, ram', dir)
      && forall f: Page :: IsTable(ram', dir, f) ==> f == e.frame || IsTable(ram, dir, f)
  {
    var ram' := SetWord(ram, dir, i, e);
    assert ram'[dir][SELF] == ram[dir][SELF];
    assert IsTable(ram', dir, dir);
    forall f: Page | IsTable(ram', dir, f) ensures f == e.frame || IsTable(ram, dir, f) {
      var k :| 0 <= k < 1024 && Present(ram'[dir][k]) && ram'[dir][k].frame == f;
      assert k == i || (Present(ram[dir][k]) && ram[dir][k].frame == f);
    }
    forall f: Page | IsTable(ram, dir, f) ensures IsTable(ram', dir, f) {
      var k :| 0 <= k < 1024 && Present(ram[dir][k]) && ram[dir][k].frame == f;
      assert Present(ram'[dir][k]) && ram'[dir][k].frame == f;
    }
  }

  lemma PdeChange(ram: Ram, dir: Page, b: PageFrames.Bitmap, pool: U32, limit: nat, i: nat, e: Entry)
    requires pool % PAGE_SIZE == 0 && Sound(ram, dir, b, pool, limit)
    requires i < SELF && Present(ram[dir][i]) && TableEntry(e) && e.frame == ram[dir][i].frame
    ensures var ram' := SetWord(ram, dir, i, e);
      && Sound(ram', dir, b, pool, limit) && SameData(ram, ram', dir)
      && NoNewTables(ram, ram', dir)
      && SameTranslations(ram, ram', dir)
  {
    var ram' := SetWord(ram, dir, i, e);
    WritePdeFlags(ram, dir, i, e);
    TablesAfterPde(ram, dir, i, e);
    assert IsTable(ram, dir, dir) && IsTable(ram, dir, e.frame);
    OwnedWrite(ram, b, pool, limit, dir, i, e);
  }

  lemma TablePlug(ram: Ram, dir: Page, b: PageFrames.Bitmap, pool: U32, limit: nat, i: nat, e: Entry)
    requires pool % PAGE_SIZE == 0 && Sound(ram, dir, b, pool, limit)
    requires i < SELF && !Present(ram[dir][i]) && TableEntry(e)
    requires !IsTable(ram, dir, e.frame) && Zeroed(ram[e.frame]) && Owned(b, pool, limit, e.frame)
    ensures var ram' := SetWord(ram, dir, i, e);
      && Sound(ram', dir, b, pool, limit) && SameData(ram, ram', dir)
      && (forall f: Page :: IsTable(ram', dir, f) ==> f == e.frame || IsTable(ram, dir, f))
      && SameTranslations(ram, ram', dir)
  {
    var ram' := SetWord(ram, dir, i, e);
    WriteNewTable(ram, dir, i, e);
    TablesAfterPde(ram, dir, i, e);
    assert IsTable(ram, dir, dir);
    OwnedWrite(ram, b, pool, limit, dir, i, e);
  }

  lemma PteChange(ram: Ram, dir: Page, b: PageFrames.Bitmap, pool: U32, limit: nat, page: Page, e: Entry)
    requires pool % PAGE_SIZE == 0 && Sound(ram, dir, b, pool, limit)
    requires page / 1024 != SELF && Present(ram[dir][page / 1024]) && Clean(e)
    ensures var ram' := SetWord(ram, ram[dir][page / 1024].frame, page % 1024, e);
      && Sound(ram', dir, b, pool, limit) && SameData(ram, ram', dir)
      && NoNewTables(ram, ram', dir)
      && ram'[dir] == ram[dir]
      && SameElsewhere(ram, ram', dir, page)
      && Lookup(ram', dir, page) == if Present(e) then Some(e.frame) else None
  {
    var t := ram[dir][page / 1024].frame;
    var ram' := SetWord(ram, t, page % 1024, e);
    WritePte(ram, dir, page, e);
    assert IsTable(ram, dir, t) && IsTable(ram', dir, t);
    OwnedWrite(ram, b, pool, limit, t, page % 1024, e);
    forall f: Page ensures IsTable(ram', dir, f) == IsTable(ram, dir, f) {
      assert ram'[dir] == ram[dir];
    }
  }

  /** Whatever is written to an owned frame that is no table, the address space is as before. */
  lemma DataChange(ram: Ram, ram': Ram, dir: Page, b: PageFrames.Bitmap, pool: U32, limit: nat, f: Page)
    requires pool % PAGE_SIZE == 0 && Sound(ram, dir, b, pool, limit)
    requires !IsTable(ram, dir, f) && Owned(b, pool, limit, f)
    requires OnlyChanges(ram, ram', f)
    ensures Sound(ram', dir, b, pool, limit) && ram'[dir] == ram[dir]
    ensures forall t: Page :: IsTable(ram', dir, t) == IsTable(ram, dir, t)
    ensures forall q: Page :: Lookup(ram', dir, q) == Lookup(ram, dir, q)
  {
    assert IsTable(ram, dir, dir);
    assert ram'[dir] == ram[dir];
    forall p | 0 <= p < limit && p < PageFrames.PAGES && !PageFrames.Used(b, p)
      ensures Zeroed(ram'[FrameOf(pool, p)])
    {
      BitOfFrame(pool, p);
    }
    forall t: Page ensures IsTable(ram', dir, t) == IsTable(ram, dir, t) {}
    forall i | 0 <= i < 1024 && Present(ram[dir][i]) ensures ram'[ram[dir][i].frame] == ram[ram[dir][i].frame] {
      assert IsTable(ram, dir, ram[dir][i].frame);
    }
  }

  /** A directory entry that vm_copy_kernel_pdir copies. */
  predicate IsKernel(e: Entry) {
    Present(e) && !User(e)
  }

  /** While the new directory is filled in, only its own frame changes. */
  ghost predicate OnlyChanges(ram0: Ram, ram: Ram, f: Page) {
    forall g: Page :: g != f ==> ram[g] == ram0[g]
  }

  /** While only a frame that is no table changes, a page mapped to it stays mapped. */
  lemma StillMapped(ram0: Ram, ram: Ram, dir: Page, f: Page, k: nat)
    requires SelfMapped(ram0, dir) && !IsTable(ram0, dir, f) && OnlyChanges(ram0, ram, f)
    requires Lookup(ram0, dir, f) == Some(f) && k < 1024
    ensures f != dir && ram[dir] == ram0[dir]
    ensures Walk(ram, dir, f * PAGE_SIZE + 4 * k) == Some(f * PAGE_SIZE + 4 * k)
    ensures Walk(ram, dir, PdeAddr(k)) == Some(dir * PAGE_SIZE + 4 * k)
  {
    assert IsTable(ram0, dir, dir);
    assert IsTable(ram0, dir, ram0[dir][f / 1024].frame);
    Identity(ram, dir, f, k);
    SelfMapReaches(ram, dir, k, 0);
  }

  /** A page mapped to the frame of the same number. */
  lemma Identity(ram: Ram, dir: Page, f: Page, k: nat)
    requires Lookup(ram, dir, f) == Some(f) && k < 1024
    ensures Walk(ram, dir, f * PAGE_SIZE + 4 * k) == Some(f * PAGE_SIZE + 4 * k)
  {
    WalkIsLookup(ram, dir, f * PAGE_SIZE + 4 * k);
  }

  /** A directory with the kernel's entries of another and its own self-map. */
  ghost predicate CopiesKernel(ram: Ram, dir: Page, newDir: Page) {
    && (forall k :: 0 <= k < SELF ==> ram[newDir][k] == if IsKernel(ram[dir][k]) then ram[dir][k] else NO_ENTRY)
    && ram[newDir][SELF] == Entry(newDir, PRESENT | WRITE)
  }

  /** The copy of the kernel's entries, closed by its own self-map. */
  lemma KernelCopy(ram: Ram, dir: Page, newDir: Page)
    requires Space(ram, dir) && newDir != dir && !IsTable(ram, dir, newDir)
    requires CopiesKernel(ram, dir, newDir)
    ensures Space(ram, newDir)
    ensures forall i :: 0 <= i < SELF && Present(ram[newDir][i]) ==> !User(ram[newDir][i])
    ensures forall q: Page :: q / 1024 != SELF ==>
      Lookup(ram, newDir, q) == if IsKernel(ram[dir][q / 1024]) then Lookup(ram, dir, q) else None
  {
    forall i | 0 <= i < SELF && Present(ram[newDir][i])
      ensures Present(ram[dir][i]) && ram[newDir][i] == ram[dir][i] && ram[dir][i].frame != newDir
    {
      assert Present(ram[dir][i]) ==> IsTable(ram, dir, ram[dir][i].frame);
    }
    forall j | 0 <= j < 1024 ensures Clean(ram[newDir][j]) {
      assert Clean(ram[ram[dir][SELF].frame][j]);
    }
    forall i, j | 0 <= i < 1024 && 0 <= j < 1024 && Present(ram[newDir][i])
      ensures Clean(ram[ram[newDir][i].frame][j])
    {
      if i < SELF { assert Clean(ram[ram[dir][i].frame][j]); }
    }
  }

  lemma KernelTablesOwned(ram: Ram, dir: Page, newDir: Page, b: PageFrames.Bitmap, pool: U32, limit: nat)
    requires TablesOwned(ram, dir, b, pool, limit) && Owned(b, pool, limit, newDir)
    requires forall k :: 0 <= k < SELF && Present(ram[newDir][k]) ==> ram[newDir][k] == ram[dir][k]
    requires ram[newDir][SELF].frame == newDir
    ensures TablesOwned(ram, newDir, b, pool, limit)
  {
    forall f: Page | IsTable(ram, newDir, f) ensures Owned(b, pool, limit, f) {
      var k :| 0 <= k < 1024 && Present(ram[newDir][k]) && ram[newDir][k].frame == f;
      if k < SELF { assert IsTable(ram, dir, f); }
    }
  }

  lemma MappingFlags(flags: bv12)
    requires PageFlags(flags)
    ensures PageFlags(flags | PRESENT | WRITE) && (flags | PRESENT | WRITE) & PRESENT != 0
  {}

  lemma OrFlags(a: bv12, b: bv12)
    requires PageFlags(a) && PageFlags(b) && b & PRESENT != 0
    ensures PageFlags(a | b) && (a | b) & PRESENT != 0
  {}

  lemma CleanedFlags(a: bv12, flags: bv12)
    requires a & UNMASKED == 0
    ensures (a & UNMASKED) | flags == flags
  {}

  /** No translation differs, outside the self-map. */
  ghost predicate SameTranslations(ram: Ram, ram': Ram, dir: Page) {
    forall q: Page :: q / 1024 != SELF ==> Lookup(ram', dir, q) == Lookup(ram, dir, q)
  }

  ghost predicate NoNewTables(ram: Ram, ram': Ram, dir: Page) {
    forall f: Page :: IsTable(ram', dir, f) ==> IsTable(ram, dir, f)
  }

  /** Entry by entry: the kernel's entries, the last one for the directory itself, and no other. */
  predicate IsKernelCopy(from: Frame, to: Frame, newDir: Page) {
    forall k :: 0 <= k < 1024 ==>
      to[k] == if k == SELF then Entry(newDir, PRESENT | WRITE) else if IsKernel(from[k]) then from[k] else NO_ENTRY
  }

  /** A directory made from another one: an address space of its own that agrees with it
      wherever that has a kernel table, maps nothing else, and has no user entry. */
  ghost predicate NewSpace(ram: Ram, dir: Page, newDir: Page, b: PageFrames.Bitmap, pool: U32, limit: nat) {
    && Sound(ram, newDir, b, pool, limit) && CopiesKernel(ram, dir, newDir)
    && newDir != dir && !IsTable(ram, dir, newDir) && Lookup(ram, dir, newDir) == Some(newDir)
    && (forall i :: 0 <= i < SELF && Present(ram[newDir][i]) ==> !User(ram[newDir][i]))
    && (forall q: Page :: q / 1024 != SELF ==>
          Lookup(ram, newDir, q) == if IsKernel(ram[dir][q / 1024]) then Lookup(ram, dir, q) else None)
  }

  /** Providing the table and then setting one entry changes one page. */
  lemma TableThenEntry(ram0: Ram, ram1: Ram, ram2: Ram, dir: Page, page: Page,
                       b: PageFrames.Bitmap, pool: U32, limit: nat)
    requires SameTranslations(ram0, ram1, dir) && SameData(ram0, ram1, dir)
    requires NewTablesFree(ram0, ram1, dir, b, pool, limit)
    requires SameElsewhere(ram1, ram2, dir, page) && SameData(ram1, ram2, dir) && NoNewTables(ram1, ram2, dir)
    ensures SameElsewhere(ram0, ram2, dir, page) && SameData(ram0, ram2, dir)
    ensures NewTablesFree(ram0, ram2, dir, b, pool, limit)
  {}

  // ----- data -----

  /** `mem` is the contents of all frames that are no tables. */
  ghost predicate DataIs(ram: Ram, dir: Page, mem: Memory) {
    forall a: U32 :: !IsTable(ram, dir, a / PAGE_SIZE) ==> ReadByte(mem, a) == ByteAt(ram, a)
  }

  lemma DataStays(ram: Ram, ram': Ram, dir: Page, mem: Memory)
    requires SameData(ram, ram', dir) && DataIs(ram, dir, mem)
    ensures DataIs(ram', dir, mem)
  {
    forall a: U32 | !IsTable(ram', dir, a / PAGE_SIZE) ensures ReadByte(mem, a) == ByteAt(ram', a) {
      assert ram'[a / PAGE_SIZE] == ram[a / PAGE_SIZE] && !IsTable(ram, dir, a / PAGE_SIZE);
    }
  }

  /** The directory and all translations are the same, also in the self-map. */
  ghost predicate SameTables(ram: Ram, ram': Ram, dir: Page) {
    ram'[dir] == ram[dir] && forall q: Page :: Lookup(ram', dir, q) == Lookup(ram, dir, q)
  }

  lemma SameTablesTwice(ram0: Ram, ram1: Ram, ram2: Ram, dir: Page)
    requires SameTables(ram0, ram1, dir) && SameTables(ram1, ram2, dir)
    ensures SameTables(ram0, ram2, dir)
  {}

  function WithByte(ram: Ram, phys: U32, b: Byte): (ram': Ram) {
    var f, k := phys / PAGE_SIZE, phys % PAGE_SIZE / 4;
    SetWord(ram, f, k, SetByte(ram[f][k], phys % 4, b))
  }

  /** A physical byte in a frame that is owned and no table. */
  ghost predicate Plain(ram: Ram, dir: Page, b: PageFrames.Bitmap, pool: U32, limit: nat, phys: nat) {
    phys < WORD_SPAN && !IsTable(ram, dir, phys / PAGE_SIZE) && Owned(b, pool, limit, phys / PAGE_SIZE)
  }

  ghost predicate AllPlain(ram: Ram, dir: Page, b: PageFrames.Bitmap, pool: U32, limit: nat, bytes: seq<nat>) {
    forall i :: 0 <= i < |bytes| ==> Plain(ram, dir, b, pool, limit, bytes[i])
  }

  lemma PlainStays(ram: Ram, ram': Ram, dir: Page, b: PageFrames.Bitmap, b': PageFrames.Bitmap,
                   pool: U32, limit: nat, bytes: seq<nat>)
    requires Grown(ram, ram', dir, b, b', pool, limit) && AllPlain(ram, dir, b, pool, limit, bytes)
    ensures AllPlain(ram', dir, b', pool, limit, bytes)
  {
    forall i | 0 <= i < |bytes| ensures Plain(ram', dir, b', pool, limit, bytes[i]) {
      assert Plain(ram, dir, b, pool, limit, bytes[i]);
    }
  }

  ghost predicate Mapped(ram: Ram, dir: Page, v: U32, n: nat) {
    forall i: nat :: i < n ==> Walk(ram, dir, Plus(v, i)).Some?
  }

  /** The physical bytes behind a virtual buffer. */
  ghost function Behind(ram: Ram, dir: Page, v: U32, n: nat): (bytes: seq<nat>)
    requires Mapped(ram, dir, v, n)
    ensures |bytes| == n
    ensures forall i: nat :: i < n ==> Walk(ram, dir, Plus(v, i)) == Some(bytes[i])
  {
    seq(n, i requires 0 <= i < n => Walk(ram, dir, Plus(v, i)).value)
  }

  /** These are the bytes that the system calls copy, if they see the same pages. */
  lemma BehindIsBuffer(ram: Ram, dir: Page, pages: PageMap, v: U32, n: nat)
    requires forall i: nat :: i < n ==>
      Lookup(ram, dir, Plus(v, i) / PAGE_SIZE) == Some(pages(Plus(v, i) / PAGE_SIZE))
    ensures Mapped(ram, dir, v, n) && Behind(ram, dir, v, n) == BufferBytes(pages, v, n)
  {
    forall i: nat | i < n ensures Walk(ram, dir, Plus(v, i)) == Some(Translate(pages, Plus(v, i))) {
      WalkIsLookup(ram, dir, Plus(v, i));
    }
  }

  lemma BehindSame(ram: Ram, ram': Ram, dir: Page, v: U32, n: nat, i: nat)
    requires SameTables(ram, ram', dir) && Mapped(ram, dir, v, n) && i < n
    ensures Walk(ram', dir, Plus(v, i)) == Some(Behind(ram, dir, v, n)[i])
    ensures forall t: Page :: IsTable(ram', dir, t) == IsTable(ram, dir, t)
  {
    WalkIsLookup(ram, dir, Plus(v, i));
    WalkIsLookup(ram', dir, Plus(v, i));
  }

  /** Opening a window elsewhere leaves a mapped buffer where it is. */
  lemma OwnStays(ram: Ram, ram': Ram, dir: Page, first: Page, count: nat, v: U32, n: nat)
    requires Mapped(ram, dir, v, n) && forall i: nat :: i < n ==> Plus(v, i) / PAGE_SIZE / 1024 != SELF
    requires UnmappedRun(ram, dir, first, count) && SameOutside(ram, ram', dir, first, count)
    ensures Mapped(ram', dir, v, n) && Behind(ram', dir, v, n) == Behind(ram, dir, v, n)
  {
    forall i: nat | i < n ensures Walk(ram', dir, Plus(v, i)) == Walk(ram, dir, Plus(v, i)) {
      WalkIsLookup(ram, dir, Plus(v, i));
      WalkIsLookup(ram', dir, Plus(v, i));
      assert !InRange(first, count, Plus(v, i) / PAGE_SIZE);
    }
  }

  /** Storing a byte in a plain frame. */
  lemma ByteChange(ram: Ram, ram': Ram, dir: Page, b: PageFrames.Bitmap, pool: U32, limit: nat,
                   mem: Memory, phys: U32, x: Byte)
    requires pool % PAGE_SIZE == 0 && Sound(ram, dir, b, pool, limit) && DataIs(ram, dir, mem)
    requires Plain(ram, dir, b, pool, limit, phys) && ram' == WithByte(ram, phys, x)
    ensures Sound(ram', dir, b, pool, limit) && SameTables(ram, ram', dir)
    ensures DataIs(ram', dir, mem[phys := x])
  {
    DataChange(ram, ram', dir, b, pool, limit, phys / PAGE_SIZE);
    forall a: U32 | !IsTable(ram', dir, a / PAGE_SIZE) ensures ReadByte(mem[phys := x], a) == ByteAt(ram', a) {
      ByteStored(ram, phys, x, a);
      assert !IsTable(ram, dir, a / PAGE_SIZE);
    }
  }

  lemma OwnersGrow(ram0: Ram, ram1: Ram, ram2: Ram, dir: Page, b0: PageFrames.Bitmap, b1: PageFrames.Bitmap,
                   b2: PageFrames.Bitmap, pool: U32, limit: nat)
    requires Grown(ram0, ram1, dir, b0, b1, pool, limit) && Grown(ram1, ram2, dir, b1, b2, pool, limit)
    ensures Grown(ram0, ram2, dir, b0, b2, pool, limit)
  {}

  lemma StillGrown(ram0: Ram, ram1: Ram, ram2: Ram, dir: Page, b0: PageFrames.Bitmap, b1: PageFrames.Bitmap,
                   pool: U32, limit: nat)
    requires Grown(ram0, ram1, dir, b0, b1, pool, limit) && ram2[dir] == ram1[dir]
    ensures Grown(ram0, ram2, dir, b0, b1, pool, limit)
  {}

  /** First a frame is allocated for something else, then the tables grow. */
  lemma FrameThenGrown(ram0: Ram, ram1: Ram, ram2: Ram, dir: Page, b0: PageFrames.Bitmap, b1: PageFrames.Bitmap,
                       b2: PageFrames.Bitmap, pool: U32, limit: nat)
    requires StillOwned(b0, b1, pool, limit) && Grown(ram0, ram1, dir, b1, b2, pool, limit) && ram2[dir] == ram1[dir]
    ensures Grown(ram0, ram2, dir, b0, b2, pool, limit)
  {}

  lemma RunGrows(ram1: Ram, ram2: Ram, dir: Page, first: Page, frame: Page, i: nat)
    requires i < PageFrames.PAGES && ClearOfSelfMap(first, i + 1)
    requires MappedRun(ram1, dir, first, frame, i)
    requires SameElsewhere(ram1, ram2, dir, PageAfter(first, i))
    requires Lookup(ram2, dir, PageAfter(first, i)) == Some(PageAfter(frame, i))
    ensures MappedRun(ram2, dir, first, frame, i + 1)
  {
    OffsetAfter(first, i);
    forall k: nat | k < i ensures Lookup(ram2, dir, PageAfter(first, k)) == Some(PageAfter(frame, k)) {
      OffsetAfter(first, k);
      assert InRange(first, i + 1, PageAfter(first, k));
    }
  }

  /** The directory has a table for each of n pages. */
  ghost predicate TablesExist(directory: Frame, first: Page, n: nat) {
    forall q: Page :: InRange(first, n, q) ==> Present(directory[q / 1024])
  }

  lemma MappedTables(ram: Ram, dir: Page, first: Page, frame: Page, n: nat)
    requires MappedRun(ram, dir, first, frame, n)
    ensures TablesExist(ram[dir], first, n)
  {
    forall q: Page | InRange(first, n, q) ensures Present(ram[dir][q / 1024]) {
      var k := Offset(first, q);
      assert Lookup(ram, dir, PageAfter(first, k)) == Some(PageAfter(frame, k));
    }
  }

  lemma HoleGrows(ram1: Ram, ram2: Ram, dir: Page, first: Page, i: nat, n: nat)
    requires i < n <= PageFrames.PAGES && ClearOfSelfMap(first, n)
    requires UnmappedRun(ram1, dir, first, i)
    requires SameElsewhere(ram1, ram2, dir, PageAfter(first, i))
    requires Lookup(ram2, dir, PageAfter(first, i)) == None
    ensures UnmappedRun(ram2, dir, first, i + 1)
  {
    OffsetAfter(first, i);
    forall q: Page | InRange(first, i + 1, q) ensures Lookup(ram2, dir, q) == None {
      assert InRange(first, n, q);
    }
  }

  /** Inside the pages mapped for it, byte i of a window on the buffer at v is the byte that
      PhysMem.WindowBytes says. */
  lemma WindowShowsFrames(ram: Ram, dir: Page, window: U32, phys: U32, v: U32, at: U32, sz: U32, n: nat, i: nat)
    requires window % PAGE_SIZE == 0 && at == window + v % PAGE_SIZE
    requires MappedRun(ram, dir, window / PAGE_SIZE, phys / PAGE_SIZE, PageCount(sz))
    requires WindowCovers(sz, v, n) && i < n
    ensures Walk(ram, dir, Plus(at, i)) == Some(WindowBytes(phys, v, n)[i])
  {
    var o := v % PAGE_SIZE;
    InsideWindow(sz, v, n, i);
    PlusFolds(window, o, i);
    WindowByteAt(phys, v, n, i);
    WindowWord(ram, dir, window, phys / PAGE_SIZE, PageCount(sz), o + i);
  }

  lemma InsideWindow(sz: U32, v: U32, n: nat, i: nat)
    requires WindowCovers(sz, v, n) && i < n
    ensures v % PAGE_SIZE + i < PageCount(sz) * PAGE_SIZE
  {}

  lemma PlusFolds(base: U32, o: nat, i: nat)
    requires base % PAGE_SIZE == 0 && o < PAGE_SIZE
    ensures Plus(base + o, i) == (base + (o + i)) % WORD_SPAN
  {}

  lemma WindowByteAt(phys: U32, v: U32, n: nat, i: nat)
    requires i < n
    ensures WindowBytes(phys, v, n)[i]
         == PageAfter(phys / PAGE_SIZE, (v % PAGE_SIZE + i) / PAGE_SIZE) * PAGE_SIZE + (v % PAGE_SIZE + i) % PAGE_SIZE
  {
    var base := phys - phys % PAGE_SIZE;
    PageParts(base, v % PAGE_SIZE);
    assert WindowBytes(phys, v, n)[i] == Plus(base + v % PAGE_SIZE, i);
  }

  lemma PageParts(base: U32, o: nat)
    requires base % PAGE_SIZE == 0 && o < PAGE_SIZE
    ensures (base + o) % PAGE_SIZE == o && (base + o) / PAGE_SIZE == base / PAGE_SIZE
  {}

  /** Offset o of a window on the frames from `frame` on. */
  lemma WindowWord(ram: Ram, dir: Page, window: U32, frame: Page, n: nat, o: nat)
    requires window % PAGE_SIZE == 0 && MappedRun(ram, dir, window / PAGE_SIZE, frame, n)
    requires o < n * PAGE_SIZE
    ensures Walk(ram, dir, (window + o) % WORD_SPAN)
         == Some(PageAfter(frame, o / PAGE_SIZE) * PAGE_SIZE + o % PAGE_SIZE)
  {
    WindowAddress(window, o);
    assert Lookup(ram, dir, PageAfter(window / PAGE_SIZE, o / PAGE_SIZE)) == Some(PageAfter(frame, o / PAGE_SIZE));
    WalkIsLookup(ram, dir, (window + o) % WORD_SPAN);
  }

  lemma WindowAddress(window: U32, o: nat)
    requires window % PAGE_SIZE == 0
    ensures (window + o) % WORD_SPAN / PAGE_SIZE == PageAfter(window / PAGE_SIZE, o / PAGE_SIZE)
    ensures (window + o) % WORD_SPAN % PAGE_SIZE == o % PAGE_SIZE
  {
    PageWraps(window / PAGE_SIZE + o / PAGE_SIZE, o % PAGE_SIZE);
  }

  lemma WindowBehind(ram: Ram, dir: Page, window: U32, phys: U32, v: U32, at: U32, sz: U32, n: nat)
    requires window % PAGE_SIZE == 0 && at == window + v % PAGE_SIZE
    requires MappedRun(ram, dir, window / PAGE_SIZE, phys / PAGE_SIZE, PageCount(sz))
    requires WindowCovers(sz, v, n)
    ensures Mapped(ram, dir, at, n) && Behind(ram, dir, at, n) == WindowBytes(phys, v, n)
  {
    forall i: nat | i < n ensures Walk(ram, dir, Plus(at, i)) == Some(WindowBytes(phys, v, n)[i]) {
      WindowShowsFrames(ram, dir, window, phys, v, at, sz, n, i);
    }
  }

  /** map_pages counts whole pages for the size and ignores the offset at which the window is
      entered (kernel/vm.c:135). With the page behind the window unmapped, n bytes from that
      offset can be reached if and only if WindowCovers says so; otherwise the copy faults. */
  lemma WindowCoversIff(ram: Ram, dir: Page, window: U32, phys: U32, v: U32, at: U32, sz: U32, n: nat)
    requires window % PAGE_SIZE == 0 && at == window + v % PAGE_SIZE
    requires MappedRun(ram, dir, window / PAGE_SIZE, phys / PAGE_SIZE, PageCount(sz))
    requires Lookup(ram, dir, PageAfter(window / PAGE_SIZE, PageCount(sz))) == None
    ensures Mapped(ram, dir, at, n) <==> WindowCovers(sz, v, n)
  {
    if WindowCovers(sz, v, n) {
      WindowBehind(ram, dir, window, phys, v, at, sz, n);
    } else {
      var i := FirstOutside(sz, v, n);
      BehindWindow(ram, dir, window, v % PAGE_SIZE, at, PageCount(sz), i);
      assert Walk(ram, dir, Plus(at, i)) == None;
    }
  }

  /** An address on the page behind a window. */
  lemma BehindWindow(ram: Ram, dir: Page, window: U32, o: nat, at: U32, pages: nat, i: nat)
    requires window % PAGE_SIZE == 0 && o < PAGE_SIZE && at == window + o && (o + i) / PAGE_SIZE == pages
    requires Lookup(ram, dir, PageAfter(window / PAGE_SIZE, pages)) == None
    ensures Walk(ram, dir, Plus(at, i)) == None
  {
    PlusFolds(window, o, i);
    WindowAddress(window, o + i);
    WalkIsLookup(ram, dir, Plus(at, i));
  }

  /** A byte of the buffer that lies on the first page behind the window. */
  lemma FirstOutside(sz: U32, v: U32, n: nat) returns (i: nat)
    requires !WindowCovers(sz, v, n)
    ensures i < n && (v % PAGE_SIZE + i) / PAGE_SIZE == PageCount(sz)
  {
    if PageCount(sz) == 0 {
      i := 0;
    } else {
      i := PageCount(sz) * PAGE_SIZE - v % PAGE_SIZE;
      assert v % PAGE_SIZE + i == PageCount(sz) * PAGE_SIZE;
    }
  }

  /** Two bytes, the second on the next page: one page is mapped for them, and the second byte
      is out of reach. */
  lemma StraddlingBufferCase(ram: Ram, dir: Page, window: U32, phys: U32)
    requires window % PAGE_SIZE == 0
    requires Lookup(ram, dir, window / PAGE_SIZE) == Some(phys / PAGE_SIZE)
    requires Lookup(ram, dir, PageAfter(window / PAGE_SIZE, 1)) == None
    ensures PageCount(2) == 1 && !WindowCovers(2, 4095, 2)
    ensures Walk(ram, dir, Plus(window + 4095, 0)).Some? && !Mapped(ram, dir, window + 4095, 2)
  {
    var v: U32 := 4095;
    assert MappedRun(ram, dir, window / PAGE_SIZE, phys / PAGE_SIZE, PageCount(2));
    WindowCoversIff(ram, dir, window, phys, v, window + v, 2, 2);
    WindowCoversIff(ram, dir, window, phys, v, window + v, 2, 1);
    assert Mapped(ram, dir, window + v, 1);
  }

  /** Opening a window on unmapped pages, changing data, and closing the window again restores
      every translation. */
  lemma WindowClosed(ram0: Ram, ram1: Ram, ram2: Ram, ram3: Ram, dir: Page, first: Page, n: nat)
    requires SameOutside(ram0, ram1, dir, first, n)
    requires SameTables(ram1, ram2, dir)
    requires SameOutside(ram2, ram3, dir, first, n)
    requires UnmappedRun(ram0, dir, first, n) && UnmappedRun(ram3, dir, first, n)
    ensures SameTranslations(ram0, ram3, dir)
  {}

  /** The pages of the self-map, through which the tables themselves are visible, translate
      alike. */
  ghost predicate SameSelfMap(ram: Ram, ram': Ram, dir: Page) {
    forall q: Page :: q / 1024 == SELF ==> Lookup(ram', dir, q) == Lookup(ram, dir, q)
  }

  /** The self-map is as it was before a range got its tables if and only if none was missing. */
  lemma SelfMapSameIff(ram: Ram, ram': Ram, dir: Page, first: Page, n: nat)
    requires SelfMapped(ram, dir) && SelfMapped(ram', dir) && n <= PageFrames.PAGES
    requires SlotsStay(ram[dir], ram'[dir]) && OnlyNeeded(ram[dir], ram'[dir], first, n)
    requires TablesExist(ram'[dir], first, n)
    ensures SameSelfMap(ram, ram', dir) <==> Missing(ram[dir], first, n, 0) == 0
  {
    MissingNoneIff(ram[dir], first, n, 0);
    if Missing(ram[dir], first, n, 0) == 0 {
      assert forall k :: 0 <= k < 1024 && Present(ram'[dir][k]) ==> Present(ram[dir][k]);
    } else {
      var j: nat :| j < n && !Present(ram[dir][PageAfter(first, j) / 1024]);
      var k := PageAfter(first, j) / 1024;
      OffsetAfter(first, j);
      assert InRange(first, n, PageAfter(first, j));
      var q: Page := SELF * 1024 + k;
      assert q / 1024 == SELF && q % 1024 == k;
      assert Lookup(ram, dir, q) == None && Lookup(ram', dir, q).Some?;
    }
  }

  lemma ClearPrefix(first: Page, i: nat, n: nat)
    requires i <= n && ClearOfSelfMap(first, n)
    ensures ClearOfSelfMap(first, i)
  {
    forall q: Page | InRange(first, i, q) ensures q / 1024 != SELF { assert InRange(first, n, q); }
  }

  /** The next page to map is still as it was. */
  lemma Untouched(ram0: Ram, ram: Ram, dir: Page, first: Page, frame: Page, n: nat, i: nat)
    requires i < n <= PageFrames.PAGES && ClearOfSelfMap(first, n)
    requires Progress(ram0, ram, dir, first, frame, n, i)
    ensures PageAfter(first, i) / 1024 != SELF
    ensures UnmappedRun(ram0, dir, first, n) ==> Lookup(ram, dir, PageAfter(first, i)) == None
  {
    OffsetAfter(first, i);
    assert InRange(first, n, PageAfter(first, i));
  }

  lemma Advance(ram0: Ram, ram1: Ram, ram2: Ram, dir: Page, b1: PageFrames.Bitmap, b2: PageFrames.Bitmap,
                pool: U32, limit: nat, first: Page, frame: Page, n: nat, i: nat, i': nat, halted: bool)
    requires limit <= PageFrames.PAGES && i < n <= PageFrames.PAGES && i' == i + 1 && ClearOfSelfMap(first, n)
    requires Progress(ram0, ram1, dir, first, frame, n, i)
    requires PageMapped(ram1, ram2, dir, b1, b2, pool, limit, PageAfter(first, i), PageAfter(frame, i))
    requires halted ==> Lookup(ram1, dir, PageAfter(first, i)).Some?
    ensures SameData(ram0, ram2, dir) && SameOutside(ram0, ram2, dir, first, n)
    ensures !halted ==> Progress(ram0, ram2, dir, first, frame, n, i')
    ensures UnmappedRun(ram0, dir, first, n) ==> !halted
  {
    OutsideGrows(ram0, ram1, ram2, dir, first, i);
    Untouched(ram0, ram1, dir, first, frame, n, i);
    if UnmappedRun(ram0, dir, first, n) {
      ClearPrefix(first, i + 1, n);
      RunGrows(ram1, ram2, dir, first, frame, i);
    }
  }

  lemma OutsideGrows(ram0: Ram, ram1: Ram, ram2: Ram, dir: Page, first: Page, i: nat)
    requires i < PageFrames.PAGES
    requires SameOutside(ram0, ram1, dir, first, i)
    requires SameElsewhere(ram1, ram2, dir, PageAfter(first, i))
    ensures SameOutside(ram0, ram2, dir, first, i + 1)
  {
    OffsetAfter(first, i);
  }
}
