// What page-table entries hold besides the frame: the flags that map_page and
// vm_change_page_attrs of kernel/vm.c put there.
module VmEntries {
  import opened Common
  import opened PhysMem
  import opened Paging
  import opened VmSpec
  import PageFrames

  /** Every flag of a is one of b. */
  predicate Grows(a: bv12, b: bv12) { a & b == a }

  lemma GrowsTwice(a: bv12, b: bv12, c: bv12)
    requires Grows(a, b) && Grows(b, c)
    ensures Grows(a, c)
  {}

  lemma OrGrows(a: bv12, b: bv12)
    ensures Grows(a, a | b) && Grows(b, a | b)
  {}

  /** The entry of a page whose table exists. */
  function PteOf(ram: Ram, dir: Page, q: Page): Entry {
    ram[ram[dir][q / 1024].frame][q % 1024]
  }

  /** A page's table, if it has one, stays, with all flags it had, and so does the page's entry,
      flags included. */
  predicate EntryKept(ram: Ram, ram': Ram, dir: Page, q: Page) {
    Present(ram[dir][q / 1024]) ==>
      && Present(ram'[dir][q / 1024]) && ram'[dir][q / 1024].frame == ram[dir][q / 1024].frame
      && Grows(ram[dir][q / 1024].low, ram'[dir][q / 1024].low)
      && PteOf(ram', dir, q) == PteOf(ram, dir, q)
  }

  ghost predicate KeptElsewhere(ram: Ram, ram': Ram, dir: Page, page: Page) {
    forall q: Page :: q != page && q / 1024 != SELF ==> EntryKept(ram, ram', dir, q)
  }

  ghost predicate KeptOutside(ram: Ram, ram': Ram, dir: Page, first: Page, n: nat) {
    forall q: Page :: !InRange(first, n, q) && q / 1024 != SELF ==> EntryKept(ram, ram', dir, q)
  }

  /** A page's entry is e, and its directory entry has all the flags asked for. */
  predicate Entered(ram: Ram, dir: Page, page: Page, e: Entry, flags: bv12) {
    && Present(ram[dir][page / 1024]) && Grows(flags, ram[dir][page / 1024].low)
    && PteOf(ram, dir, page) == e
  }

  /** The n pages from `first` on have entries for the frames from `frame` on, with the flags. */
  ghost predicate EnteredRun(ram: Ram, dir: Page, first: Page, frame: Page, flags: bv12, n: nat) {
    forall k: nat :: k < n ==> Entered(ram, dir, PageAfter(first, k), Entry(PageAfter(frame, k), flags), flags)
  }

  /** The entries of n pages are zero. */
  ghost predicate ClearedRun(ram: Ram, dir: Page, first: Page, n: nat) {
    forall q: Page :: InRange(first, n, q) ==> Present(ram[dir][q / 1024]) && PteOf(ram, dir, q) == NO_ENTRY
  }

  /** A directory entry with more flags. */
  function WithFlags(pde: Entry, flags: bv12): Entry { pde.(low := pde.low | flags) }

  lemma WithFlagsPresent(pde: Entry, flags: bv12)
    ensures Present(pde) || flags & PRESENT != 0 ==> Present(WithFlags(pde, flags))
    ensures Grows(flags, flags)
  {}

  /** What map_page makes of a directory entry. */
  function TableFor(pde: Entry, table: Page, flags: bv12): Entry {
    if Present(pde) then WithFlags(pde, flags) else Entry(table, flags)
  }

  lemma AllKept(ram: Ram, dir: Page, page: Page)
    ensures KeptElsewhere(ram, ram, dir, page)
  {}

  lemma KeptTwice(ram0: Ram, ram1: Ram, ram2: Ram, dir: Page, q: Page)
    requires EntryKept(ram0, ram1, dir, q) && EntryKept(ram1, ram2, dir, q)
    ensures EntryKept(ram0, ram2, dir, q)
  {
    if Present(ram0[dir][q / 1024]) {
      GrowsTwice(ram0[dir][q / 1024].low, ram1[dir][q / 1024].low, ram2[dir][q / 1024].low);
    }
  }

  // ----- single stores -----

  /** The two stores of map_page, whether the table existed (and its entry gets more flags) or is
      new (and no table yet): they enter the page, and keep all other entries. */
  lemma InstalledEnters(ram: Ram, dir: Page, page: Page, t: Entry, e: Entry, flags: bv12)
    requires Space(ram, dir) && page / 1024 != SELF && Present(t) && Grows(flags, t.low)
    requires if Present(ram[dir][page / 1024]) then
               t.frame == ram[dir][page / 1024].frame && Grows(ram[dir][page / 1024].low, t.low)
             else
               !IsTable(ram, dir, t.frame)
    ensures var ram' := Installed(ram, dir, page, t, e);
      Entered(ram', dir, page, e, flags) && ram'[dir][page / 1024] == t && KeptElsewhere(ram, ram', dir, page)
  {
    var ram' := Installed(ram, dir, page, t, e);
    assert IsTable(ram, dir, dir);
    if Present(ram[dir][page / 1024]) { assert IsTable(ram, dir, t.frame); }
    assert t.frame != dir;
    forall q: Page | q != page && q / 1024 != SELF ensures EntryKept(ram, ram', dir, q) {
      InstalledKeeps(ram, dir, page, t, e, q);
    }
  }

  lemma InstalledKeeps(ram: Ram, dir: Page, page: Page, t: Entry, e: Entry, q: Page)
    requires Space(ram, dir) && page / 1024 != SELF && Present(t) && t.frame != dir
    requires if Present(ram[dir][page / 1024]) then
               t.frame == ram[dir][page / 1024].frame && Grows(ram[dir][page / 1024].low, t.low)
             else
               !IsTable(ram, dir, t.frame)
    requires q != page && q / 1024 != SELF
    ensures EntryKept(ram, Installed(ram, dir, page, t, e), dir, q)
  {
    if Present(ram[dir][q / 1024]) {
      assert IsTable(ram, dir, ram[dir][q / 1024].frame);
      assert ram[dir][q / 1024].frame != dir;
      if q / 1024 == page / 1024 {
        assert q % 1024 != page % 1024;
      } else {
        assert ram[dir][q / 1024].frame != t.frame;
      }
    }
  }

  /** Changing one entry keeps all others. */
  lemma StoreKeeps(ram: Ram, dir: Page, page: Page, e: Entry)
    requires Space(ram, dir) && page / 1024 != SELF && Present(ram[dir][page / 1024])
    ensures var ram' := SetWord(ram, ram[dir][page / 1024].frame, page % 1024, e);
      ram'[dir] == ram[dir] && PteOf(ram', dir, page) == e && KeptElsewhere(ram, ram', dir, page)
  {
    var t := ram[dir][page / 1024];
    var ram' := SetWord(ram, t.frame, page % 1024, e);
    assert t.frame != dir;
    forall q: Page | q != page && q / 1024 != SELF ensures EntryKept(ram, ram', dir, q) {
      if Present(ram[dir][q / 1024]) && q / 1024 == page / 1024 { assert q % 1024 != page % 1024; }
    }
  }

  // ----- what the flags mean -----

  /** User code gets through to a page: both levels allow it. */
  predicate UserReaches(ram: Ram, dir: Page, page: Page) {
    Lookup(ram, dir, page).Some? && User(ram[dir][page / 1024]) && User(PteOf(ram, dir, page))
  }

  /** A page that map_page has mapped is one that user code reaches if and only if the flags say
      so. */
  lemma UserReachesIff(ram: Ram, dir: Page, page: Page, f: Page, flags: bv12)
    requires Entered(ram, dir, page, Entry(f, flags | PRESENT | WRITE), flags | PRESENT | WRITE)
    ensures Lookup(ram, dir, page) == Some(f)
    ensures UserReaches(ram, dir, page) <==> flags & USER != 0
  {
    UserBit(flags, ram[dir][page / 1024].low);
  }

  lemma UserBit(flags: bv12, low: bv12)
    requires Grows(flags | PRESENT | WRITE, low)
    ensures (flags | PRESENT | WRITE) & PRESENT != 0
    ensures (flags | PRESENT | WRITE) & USER != 0 <==> flags & USER != 0
    ensures flags & USER != 0 ==> low & USER != 0
  {}

  /** No other page becomes one that user code reaches, unless its own entry has long said so. */
  lemma ReachedElsewhere(ram: Ram, ram': Ram, dir: Page, page: Page, q: Page)
    requires KeptElsewhere(ram, ram', dir, page) && q != page && q / 1024 != SELF && Present(ram[dir][q / 1024])
    ensures UserReaches(ram, dir, q) ==> UserReaches(ram', dir, q)
    ensures UserReaches(ram', dir, q) ==> Lookup(ram, dir, q).Some? && User(PteOf(ram, dir, q))
  {
    assert EntryKept(ram, ram', dir, q);
    StaysUser(ram[dir][q / 1024].low, ram'[dir][q / 1024].low);
  }

  lemma StaysUser(a: bv12, b: bv12)
    requires Grows(a, b)
    ensures a & USER != 0 ==> b & USER != 0
  {}

  /** The flags in which two requests for the same page must agree, besides P and W, which both
      always have: user, write-through and cache-disable. */
  const COMPARED: bv12 := 0x1c

  /** What map_page objects to: the page is mapped to another frame, or to the same frame with
      other low flags. */
  predicate Objects(ram: Ram, dir: Page, page: Page, frame: Page, flags: bv12) {
    Lookup(ram, dir, page).Some? &&
    var pte := PteOf(ram, dir, page);
    pte.frame != frame || pte.low & 0x1f != (flags | PRESENT | WRITE) & 0x1f
  }

  /** Asking again for a page that map_page has mapped, it objects if and only if the frame or one
      of those flags is another. */
  lemma ObjectsIff(ram: Ram, dir: Page, page: Page, f: Page, flags: bv12, frame: Page, flags': bv12)
    requires Entered(ram, dir, page, Entry(f, flags | PRESENT | WRITE), flags | PRESENT | WRITE)
    ensures Objects(ram, dir, page, frame, flags') <==> f != frame || flags & COMPARED != flags' & COMPARED
  {
    UserBit(flags, ram[dir][page / 1024].low);
    LowFlags(flags, flags');
  }

  lemma NowReached(ram: Ram, dir: Page, page: Page, f: Page, flags: bv12)
    requires Entered(ram, dir, page, Entry(f, flags | PRESENT | WRITE), flags | PRESENT | WRITE)
    ensures UserReaches(ram, dir, page) <==> flags & USER != 0
    ensures !Objects(ram, dir, page, f, flags)
  {
    UserReachesIff(ram, dir, page, f, flags);
    ObjectsIff(ram, dir, page, f, flags, f, flags);
  }

  lemma LowFlags(a: bv12, b: bv12)
    ensures (a | PRESENT | WRITE) & 0x1f == (b | PRESENT | WRITE) & 0x1f <==> a & COMPARED == b & COMPARED
  {}

  /** The same for a page with the flags that vm_change_page_attrs has written: asked for the
      page as it is, map_page objects if and only if it is read-only. */
  lemma ChangedObjectsIff(ram: Ram, dir: Page, page: Page, f: Page, flags: bv12)
    requires Present(ram[dir][page / 1024]) && PteOf(ram, dir, page) == Entry(f, flags) && flags & PRESENT != 0
    ensures Objects(ram, dir, page, f, flags) <==> flags & WRITE == 0
  {
    OwnFlags(flags);
  }

  lemma OwnFlags(a: bv12)
    requires a & PRESENT != 0
    ensures a & 0x1f == (a | PRESENT | WRITE) & 0x1f <==> a & WRITE != 0
  {}

  // ----- ranges -----

  /** After mapping the first i of n pages: other entries are kept, and where nothing was mapped,
      the pages have their entries. */
  ghost predicate Entering(ram0: Ram, ram: Ram, dir: Page, first: Page, frame: Page, flags: bv12, n: nat, i: nat) {
    && KeptOutside(ram0, ram, dir, first, i)
    && (UnmappedRun(ram0, dir, first, n) ==> EnteredRun(ram, dir, first, frame, flags, i))
  }

  lemma EnteringNext(ram0: Ram, ram1: Ram, ram2: Ram, dir: Page, first: Page, frame: Page, flags: bv12,
                     n: nat, i: nat, i': nat)
    requires i < n <= PageFrames.PAGES && i' == i + 1 && ClearOfSelfMap(first, n)
    requires Entering(ram0, ram1, dir, first, frame, flags, n, i)
    requires KeptElsewhere(ram1, ram2, dir, PageAfter(first, i))
    requires UnmappedRun(ram0, dir, first, n) ==>
      Entered(ram2, dir, PageAfter(first, i), Entry(PageAfter(frame, i), flags), flags)
    ensures Entering(ram0, ram2, dir, first, frame, flags, n, i')
  {
    OutsideKept(ram0, ram1, ram2, dir, first, i);
    if UnmappedRun(ram0, dir, first, n) {
      forall k: nat | k < i'
        ensures Entered(ram2, dir, PageAfter(first, k), Entry(PageAfter(frame, k), flags), flags)
      {
        if k < i { EarlierEntered(ram1, ram2, dir, first, frame, flags, n, i, k); }
      }
    }
  }

  lemma EarlierEntered(ram1: Ram, ram2: Ram, dir: Page, first: Page, frame: Page, flags: bv12, n: nat, i: nat, k: nat)
    requires k < i < n <= PageFrames.PAGES && ClearOfSelfMap(first, n)
    requires EnteredRun(ram1, dir, first, frame, flags, i) && KeptElsewhere(ram1, ram2, dir, PageAfter(first, i))
    ensures Entered(ram2, dir, PageAfter(first, k), Entry(PageAfter(frame, k), flags), flags)
  {
    var q := PageAfter(first, k);
    OffsetAfter(first, i);
    OffsetAfter(first, k);
    assert InRange(first, n, q);
    assert Entered(ram1, dir, q, Entry(PageAfter(frame, k), flags), flags);
    assert EntryKept(ram1, ram2, dir, q);
    GrowsTwice(flags, ram1[dir][q / 1024].low, ram2[dir][q / 1024].low);
  }

  lemma OutsideKept(ram0: Ram, ram1: Ram, ram2: Ram, dir: Page, first: Page, i: nat)
    requires i < PageFrames.PAGES
    requires KeptOutside(ram0, ram1, dir, first, i) && KeptElsewhere(ram1, ram2, dir, PageAfter(first, i))
    ensures KeptOutside(ram0, ram2, dir, first, i + 1)
  {
    OffsetAfter(first, i);
    forall q: Page | !InRange(first, i + 1, q) && q / 1024 != SELF ensures EntryKept(ram0, ram2, dir, q) {
      KeptTwice(ram0, ram1, ram2, dir, q);
    }
  }

  lemma ClearedNext(ram1: Ram, ram2: Ram, dir: Page, first: Page, i: nat, n: nat)
    requires i < n <= PageFrames.PAGES && ClearOfSelfMap(first, n)
    requires ClearedRun(ram1, dir, first, i) && KeptElsewhere(ram1, ram2, dir, PageAfter(first, i))
    requires Present(ram2[dir][PageAfter(first, i) / 1024]) && PteOf(ram2, dir, PageAfter(first, i)) == NO_ENTRY
    ensures ClearedRun(ram2, dir, first, i + 1)
  {
    OffsetAfter(first, i);
    forall q: Page | InRange(first, i + 1, q)
      ensures Present(ram2[dir][q / 1024]) && PteOf(ram2, dir, q) == NO_ENTRY
    {
      if q != PageAfter(first, i) {
        assert InRange(first, i, q) && InRange(first, n, q);
        assert EntryKept(ram1, ram2, dir, q);
      }
    }
  }

  /** The entries of n pages have the frames that they had, and these flags. */
  ghost predicate AttrsRun(ram0: Ram, ram: Ram, dir: Page, first: Page, n: nat, flags: bv12) {
    forall q: Page :: InRange(first, n, q) ==>
      && Present(ram0[dir][q / 1024]) && Present(ram[dir][q / 1024])
      && PteOf(ram, dir, q) == Entry(PteOf(ram0, dir, q).frame, flags)
  }

  lemma AttrsNext(ram0: Ram, ram1: Ram, ram2: Ram, dir: Page, first: Page, i: nat, n: nat, flags: bv12)
    requires i < n <= PageFrames.PAGES && ClearOfSelfMap(first, n)
    requires AttrsRun(ram0, ram1, dir, first, i, flags) && KeptOutside(ram0, ram1, dir, first, i)
    requires KeptElsewhere(ram1, ram2, dir, PageAfter(first, i))
    requires var q := PageAfter(first, i);
      && Present(ram0[dir][q / 1024]) && Present(ram1[dir][q / 1024]) && Present(ram2[dir][q / 1024])
      && PteOf(ram2, dir, q) == Entry(PteOf(ram1, dir, q).frame, flags)
    ensures AttrsRun(ram0, ram2, dir, first, i + 1, flags)
  {
    OffsetAfter(first, i);
    forall q: Page | InRange(first, i + 1, q)
      ensures Present(ram0[dir][q / 1024]) && Present(ram2[dir][q / 1024])
      ensures PteOf(ram2, dir, q) == Entry(PteOf(ram0, dir, q).frame, flags)
    {
      assert InRange(first, n, q);
      if q != PageAfter(first, i) {
        assert InRange(first, i, q);
        assert EntryKept(ram1, ram2, dir, q);
      } else {
        assert EntryKept(ram0, ram1, dir, q);
      }
    }
  }

  /** After changing the flags of the first i pages. */
  ghost predicate ChangedRun(ram0: Ram, ram: Ram, dir: Page, first: Page, i: nat, flags: bv12) {
    && ram[dir] == ram0[dir] && SameData(ram0, ram, dir) && SameOutside(ram0, ram, dir, first, i)
    && AttrsRun(ram0, ram, dir, first, i, flags) && KeptOutside(ram0, ram, dir, first, i)
  }

  lemma ChangedNext(ram0: Ram, ram1: Ram, ram2: Ram, dir: Page, first: Page, i: nat, i': nat, n: nat, flags: bv12)
    requires i < n <= PageFrames.PAGES && i' == i + 1 && ClearOfSelfMap(first, n)
    requires TablesExist(ram0[dir], first, n) && ChangedRun(ram0, ram1, dir, first, i, flags)
    requires ram2[dir] == ram1[dir] && SameData(ram1, ram2, dir)
    requires SameElsewhere(ram1, ram2, dir, PageAfter(first, i)) && KeptElsewhere(ram1, ram2, dir, PageAfter(first, i))
    requires PteOf(ram2, dir, PageAfter(first, i)) == Entry(PteOf(ram1, dir, PageAfter(first, i)).frame, flags)
    ensures ChangedRun(ram0, ram2, dir, first, i', flags)
  {
    OffsetAfter(first, i);
    assert InRange(first, n, PageAfter(first, i));
    OutsideGrows(ram0, ram1, ram2, dir, first, i);
    AttrsNext(ram0, ram1, ram2, dir, first, i, n, flags);
    OutsideKept(ram0, ram1, ram2, dir, first, i);
  }

  /** Pages with entries that are present are mapped. */
  lemma EnteredIsMapped(ram: Ram, dir: Page, first: Page, frame: Page, flags: bv12, n: nat)
    requires EnteredRun(ram, dir, first, frame, flags, n) && flags & PRESENT != 0
    ensures MappedRun(ram, dir, first, frame, n)
  {
    forall k: nat | k < n ensures Lookup(ram, dir, PageAfter(first, k)) == Some(PageAfter(frame, k)) {
      assert Entered(ram, dir, PageAfter(first, k), Entry(PageAfter(frame, k), flags), flags);
    }
  }
}
