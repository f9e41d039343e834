// 32-bit paging, as section 4.3 of the Intel SDM, Volume 3A, defines it without large
// pages, and the directory that maps itself, kernel/vm.c's way to edit page tables.
module Paging {
  import opened Common
  import opened PhysMem
  import LowBits

  /** A directory or table entry: the frame in bits 31 to 12, and the low bits. */
  datatype Entry = Entry(frame: Page, low: bv12)

  const PRESENT: bv12 := 0x1
  const WRITE: bv12 := 0x2
  const USER: bv12 := 0x4
  /** The two low bits that vm_get_phys_mapping does not mask off. */
  const UNMASKED: bv12 := 0xc00

  predicate Present(e: Entry) { e.low & PRESENT != 0 }

  predicate User(e: Entry) { e.low & USER != 0 }

  predicate Clean(e: Entry) { e.low & UNMASKED == 0 }

  /** The PS bit, which in a directory entry would mean a page of 4 MiB and no table. */
  const LARGE: bv12 := 0x80

  predicate Small(e: Entry) { e.low & LARGE == 0 }

  /** Flags that leave the frame and the walk alone. */
  predicate PageFlags(flags: bv12) { flags & UNMASKED == 0 && flags & LARGE == 0 }

  const NO_ENTRY: Entry := Entry(0, 0)

  /** A frame as 1024 words. */
  type Frame = s: seq<Entry> | |s| == 1024 witness seq(1024, i => Entry(0, 0))

  const ZERO_FRAME: Frame := seq(1024, i => NO_ENTRY)

  predicate Zeroed(f: Frame) {
    forall k :: 0 <= k < 1024 ==> f[k] == NO_ENTRY
  }

  const FRAMES: nat := 0x10_0000

  type Ram = r: seq<Frame> | |r| == FRAMES witness seq(FRAMES, i => ZERO_FRAME)

  /** The directory slot that points at the directory itself (KERN_PDE_IDX). */
  const SELF: nat := 1023
  const KERN_PDIR_ADDR: U32 := 0xffff_f000
  const KERN_PTABS_ADDR: U32 := 0xffc0_0000

  function PdirIdx(v: U32): (i: nat)
    ensures i < 1024
  {
    v / 0x40_0000
  }

  function PtabIdx(v: U32): (i: nat)
    ensures i < 1024
  {
    v / PAGE_SIZE % 1024
  }

  /** The frame that a page is mapped to. */
  function Lookup(ram: Ram, dir: Page, page: Page): (f: Option<Page>)
  {
    var pde := ram[dir][page / 1024];
    if !Present(pde) then None
    else
      var pte := ram[pde.frame][page % 1024];
      if Present(pte) then Some(pte.frame) else None
  }

  /** The hardware's walk from a virtual to a physical address. */
  function Walk(ram: Ram, dir: Page, v: U32): (phys: Option<U32>)
  {
    var pde := ram[dir][PdirIdx(v)];
    if !Present(pde) then None
    else
      var pte := ram[pde.frame][PtabIdx(v)];
      if Present(pte) then Some(pte.frame * PAGE_SIZE + v % PAGE_SIZE) else None
  }

  lemma WalkIsLookup(ram: Ram, dir: Page, v: U32)
    ensures Walk(ram, dir, v)
         == match Lookup(ram, dir, v / PAGE_SIZE) case None => None case Some(f) => Some(f * PAGE_SIZE + v % PAGE_SIZE)
  {
    assert v / PAGE_SIZE / 1024 == v / 0x40_0000;
  }

  /** The word of memory at a physical address. */
  function WordAt(ram: Ram, phys: U32): Entry {
    ram[phys / PAGE_SIZE][phys % PAGE_SIZE / 4]
  }

  lemma WordPlace(f: Page, j: nat)
    requires j < 1024
    ensures (f * PAGE_SIZE + 4 * j) / PAGE_SIZE == f && (f * PAGE_SIZE + 4 * j) % PAGE_SIZE / 4 == j
  {}

  // ----- words as bytes -----

  /** The 32-bit value of an entry. */
  function Value(e: Entry): (w: U32) {
    LowBits.Bounded(e.low);
    e.frame * PAGE_SIZE + e.low as int
  }

  /** An entry is its frame's address plus 1 where it is present, 2 where it is writable, 4 where
      user code gets through, and 128 for a large page. */
  lemma FlagWords(f: Page)
    ensures Value(Entry(f, PRESENT)) == f * PAGE_SIZE + 1 && Value(Entry(f, WRITE)) == f * PAGE_SIZE + 2
    ensures Value(Entry(f, USER)) == f * PAGE_SIZE + 4 && Value(Entry(f, LARGE)) == f * PAGE_SIZE + 128
    ensures UNMASKED == !0x3ff
  {}

  function EntryOf(w: U32): (e: Entry) {
    Entry(w / PAGE_SIZE, LowBits.FromNumber(w % PAGE_SIZE))
  }

  lemma EntryRoundTrip(w: U32)
    ensures Value(EntryOf(w)) == w
  {}

  /** The byte of memory at a physical address. */
  function ByteAt(ram: Ram, phys: U32): Byte {
    Le32(Value(WordAt(ram, phys)))[phys % 4]
  }

  /** A word with one byte replaced. */
  function SetByte(e: Entry, k: nat, b: Byte): Entry
    requires k < 4
  {
    EntryOf(FromLe32(Le32(Value(e))[k := b]))
  }

  lemma SetByteSets(e: Entry, k: nat, b: Byte)
    requires k < 4
    ensures Le32(Value(SetByte(e, k, b))) == Le32(Value(e))[k := b]
  {
    var bytes := Le32(Value(e))[k := b];
    EntryRoundTrip(FromLe32(bytes));
    FromLe32RoundTrip(bytes);
  }

  /** Storing a byte changes that byte and no other. */
  lemma ByteStored(ram: Ram, phys: U32, b: Byte, at: U32)
    ensures var f, k := phys / PAGE_SIZE, phys % PAGE_SIZE / 4;
      ByteAt(SetWord(ram, f, k, SetByte(ram[f][k], phys % 4, b)), at) == if at == phys then b else ByteAt(ram, at)
  {
    var f, k := phys / PAGE_SIZE, phys % PAGE_SIZE / 4;
    SetByteSets(ram[f][k], phys % 4, b);
    SameWord(phys, at);
  }

  lemma WordParts(a: U32)
    ensures a == a / PAGE_SIZE * PAGE_SIZE + a % PAGE_SIZE / 4 * 4 + a % 4
  {
    var q, r := a / PAGE_SIZE, a % PAGE_SIZE;
    assert a == q * PAGE_SIZE + r;
    FourFolds(q * 1024, r);
  }

  lemma FourFolds(q: nat, r: nat)
    ensures (q * 4 + r) % 4 == r % 4 && r == r / 4 * 4 + r % 4
  {}

  lemma SameWord(a: U32, b: U32)
    ensures a / PAGE_SIZE == b / PAGE_SIZE && a % PAGE_SIZE / 4 == b % PAGE_SIZE / 4 && a % 4 == b % 4 <==> a == b
  {
    WordParts(a);
    WordParts(b);
  }

  function SetWord(ram: Ram, f: Page, k: nat, e: Entry): (ram': Ram)
    requires k < 1024
  {
    ram[f := ram[f][k := e]]
  }

  // ----- the self-map -----

  predicate SelfMapped(ram: Ram, dir: Page) {
    Present(ram[dir][SELF]) && ram[dir][SELF].frame == dir
  }

  function PdeAddr(i: nat): U32
    requires i < 1024
  {
    KERN_PDIR_ADDR + 4 * i
  }

  /** &ptab[j] for the table of directory slot i. */
  function PteAddr(i: nat, j: nat): U32
    requires i < 1024 && j < 1024
  {
    KERN_PTABS_ADDR + 4 * (0x400 * i + j)
  }

  /** Whenever slot 1023 points at the directory, the address that the kernel computes for a
      table entry walks to exactly that entry, if the table exists, and to nothing if not;
      and the directory itself appears at the last page. */
  lemma SelfMapReaches(ram: Ram, dir: Page, i: nat, j: nat)
    requires SelfMapped(ram, dir) && i < 1024 && j < 1024
    ensures Walk(ram, dir, PteAddr(i, j))
         == if Present(ram[dir][i]) then Some(ram[dir][i].frame * PAGE_SIZE + 4 * j) else None
    ensures Walk(ram, dir, PdeAddr(i)) == Some(dir * PAGE_SIZE + 4 * i)
  {
    assert PteAddr(i, j) == (1023 * 1024 + i) * PAGE_SIZE + 4 * j;
    assert PdeAddr(i) == (1023 * 1024 + 1023) * PAGE_SIZE + 4 * i;
  }

  /** So, for every virtual address, the computed address reaches the entry that the
      hardware uses to translate it. */
  lemma SelfMapReachesPte(ram: Ram, dir: Page, v: U32)
    requires SelfMapped(ram, dir) && Present(ram[dir][PdirIdx(v)])
    ensures var a := Walk(ram, dir, PteAddr(PdirIdx(v), PtabIdx(v)));
      && a.Some?
      && Walk(ram, dir, v) == if Present(WordAt(ram, a.value))
                              then Some(WordAt(ram, a.value).frame * PAGE_SIZE + v % PAGE_SIZE) else None
  {
    SelfMapReaches(ram, dir, PdirIdx(v), PtabIdx(v));
  }

  // ----- address spaces -----

  /** Page tables are distinct frames, and none is the directory (which is its own table,
      in the last slot). */
  ghost predicate TablesDistinct(ram: Ram, dir: Page) {
    forall i, j :: 0 <= i < j < 1024 && Present(ram[dir][i]) && Present(ram[dir][j]) ==>
      ram[dir][i].frame != ram[dir][j].frame
  }

  ghost predicate IsTable(ram: Ram, dir: Page, f: Page) {
    exists i :: 0 <= i < 1024 && Present(ram[dir][i]) && ram[dir][i].frame == f
  }

  /** No entry of the directory or of a table uses bits 10 and 11. */
  ghost predicate TablesClean(ram: Ram, dir: Page) {
    forall i, j :: 0 <= i < 1024 && 0 <= j < 1024 && Present(ram[dir][i]) ==> Clean(ram[ram[dir][i].frame][j])
  }

  /** Every entry of the directory that is present points at a table. */
  ghost predicate SmallPages(ram: Ram, dir: Page) {
    forall i :: 0 <= i < 1024 && Present(ram[dir][i]) ==> Small(ram[dir][i])
  }

  ghost predicate Space(ram: Ram, dir: Page) {
    SelfMapped(ram, dir) && TablesDistinct(ram, dir) && TablesClean(ram, dir) && SmallPages(ram, dir)
  }

  /** Two memories translate every page alike, but for `page` and the self-map. */
  ghost predicate SameElsewhere(ram: Ram, ram': Ram, dir: Page, page: Page) {
    forall q: Page :: q != page && q / 1024 != SELF ==> Lookup(ram', dir, q) == Lookup(ram, dir, q)
  }

  /** Changing one entry of a table changes the translation of its page alone. */
  lemma WritePte(ram: Ram, dir: Page, page: Page, e: Entry)
    requires Space(ram, dir) && page / 1024 != SELF && Present(ram[dir][page / 1024]) && Clean(e)
    ensures var ram' := SetWord(ram, ram[dir][page / 1024].frame, page % 1024, e);
      && Space(ram', dir) && ram'[dir] == ram[dir]
      && SameElsewhere(ram, ram', dir, page)
      && Lookup(ram', dir, page) == if Present(e) then Some(e.frame) else None
  {
    var t := ram[dir][page / 1024].frame;
    var ram' := SetWord(ram, t, page % 1024, e);
    assert t != dir;
    forall q: Page | q != page && q / 1024 != SELF ensures Lookup(ram', dir, q) == Lookup(ram, dir, q) {
      if q / 1024 == page / 1024 { assert q % 1024 != page % 1024; }
    }
  }

  /** Setting flags in a directory entry changes no translation. */
  lemma WritePdeFlags(ram: Ram, dir: Page, i: nat, e: Entry)
    requires Space(ram, dir) && i < SELF && Present(ram[dir][i]) && TableEntry(e)
    requires e.frame == ram[dir][i].frame
    ensures var ram' := SetWord(ram, dir, i, e);
      && Space(ram', dir)
      && (forall q: Page :: q / 1024 != SELF ==> Lookup(ram', dir, q) == Lookup(ram, dir, q))
  {
    var ram' := SetWord(ram, dir, i, e);
    assert ram[dir][i].frame != dir;
    forall k, j | 0 <= k < 1024 && 0 <= j < 1024 && Present(ram'[dir][k]) ensures Clean(ram'[ram'[dir][k].frame][j]) {
      assert Present(ram[dir][k]);
      assert Clean(ram[ram[dir][k].frame][j]);
    }
    forall q: Page | q / 1024 != SELF ensures Lookup(ram', dir, q) == Lookup(ram, dir, q) {
      if Present(ram[dir][q / 1024]) { assert ram[dir][q / 1024].frame != dir; }
    }
  }

  /** Plugging in a fresh zeroed table changes no translation. */
  lemma WriteNewTable(ram: Ram, dir: Page, i: nat, e: Entry)
    requires Space(ram, dir) && i < SELF && !Present(ram[dir][i]) && TableEntry(e)
    requires !IsTable(ram, dir, e.frame) && Zeroed(ram[e.frame])
    ensures var ram' := SetWord(ram, dir, i, e);
      && Space(ram', dir)
      && (forall q: Page :: q / 1024 != SELF ==> Lookup(ram', dir, q) == Lookup(ram, dir, q))
  {
    var ram' := SetWord(ram, dir, i, e);
    assert IsTable(ram, dir, dir);
    forall k | 0 <= k < 1024 && k != i && Present(ram'[dir][k]) ensures ram'[dir][k].frame != e.frame {
      assert ram'[dir][k] == ram[dir][k];
    }
    forall k, j | 0 <= k < 1024 && 0 <= j < 1024 && Present(ram'[dir][k]) ensures Clean(ram'[ram'[dir][k].frame][j]) {
      if k != i { assert Clean(ram[ram[dir][k].frame][j]); }
    }
    forall q: Page | q / 1024 != SELF ensures Lookup(ram', dir, q) == Lookup(ram, dir, q) {
      if q / 1024 != i && Present(ram[dir][q / 1024]) { assert ram[dir][q / 1024].frame != dir; }
    }
  }

  // ----- any frame as a new table -----

  /** What a directory entry for a page table looks like. */
  predicate TableEntry(e: Entry) { Present(e) && Clean(e) && Small(e) }

  /** The two stores of map_page for a page without a table: the directory entry t, and e in
      the table that it names. */
  function Installed(ram: Ram, dir: Page, page: Page, t: Entry, e: Entry): (ram': Ram) {
    SetWord(SetWord(ram, dir, page / 1024, t), t.frame, page % 1024, e)
  }

  /** What map_page is for: the page is mapped to a frame, and the address space is as
      before elsewhere. */
  ghost predicate MapsOnly(ram: Ram, ram': Ram, dir: Page, page: Page, f: Page) {
    Space(ram', dir) && SameElsewhere(ram, ram', dir, page) && Lookup(ram', dir, page) == Some(f)
  }

  /** But for entry j, none is present and none uses bits 10 and 11. */
  predicate BlankBut(f: Frame, j: nat) {
    forall k :: 0 <= k < 1024 && k != j ==> !Present(f[k]) && Clean(f[k])
  }

  /** A frame that is its own only page, seen as a page table. */
  predicate MapsItself(ram: Ram, f: Page, j: nat)
    requires j < 1024
  {
    Present(ram[f][j]) && Clean(ram[f][j]) && ram[f][j].frame == f && BlankBut(ram[f], j)
  }

  /** Which frames will do as a new table for a page: those that are no table yet and blank
      but for the word that is overwritten. (If it is the directory itself that is taken for
      the table, the second store can overwrite the entry that the first has written; then the
      frame to be mapped becomes the table, and must map itself.) */
  ghost predicate WillDo(ram: Ram, dir: Page, page: Page, t: Entry, e: Entry) {
    if t.frame != dir then
      !IsTable(ram, dir, t.frame) && BlankBut(ram[t.frame], page % 1024)
    else
      && page / 1024 == page % 1024 && Small(e)
      && !IsTable(ram, dir, e.frame) && MapsItself(ram, e.frame, page % 1024)
  }

  /** Whatever frame map_page takes for the table, it does its job if and only if that frame
      will do. In particular when pm_alloc has returned null, and the table is put into
      physical frame 0. */
  lemma NewTableIff(ram: Ram, dir: Page, page: Page, t: Entry, e: Entry)
    requires Space(ram, dir) && page / 1024 != SELF && !Present(ram[dir][page / 1024])
    requires TableEntry(t) && Present(e) && Clean(e)
    ensures MapsOnly(ram, Installed(ram, dir, page, t, e), dir, page, e.frame) <==> WillDo(ram, dir, page, t, e)
  {
    assert IsTable(ram, dir, dir);
    if t.frame != dir {
      if WillDo(ram, dir, page, t, e) { BlankTableFits(ram, dir, page, t, e); }
      if MapsOnly(ram, Installed(ram, dir, page, t, e), dir, page, e.frame) { OnlyBlankFits(ram, dir, page, t, e); }
    } else if page / 1024 == page % 1024 {
      DirectoryAsTable(ram, dir, page, t, e);
    } else {
      DirectoryTwice(ram, dir, page, t, e);
    }
  }

  lemma BlankTableFits(ram: Ram, dir: Page, page: Page, t: Entry, e: Entry)
    requires Space(ram, dir) && page / 1024 != SELF && !Present(ram[dir][page / 1024])
    requires TableEntry(t) && Present(e) && Clean(e) && t.frame != dir
    requires !IsTable(ram, dir, t.frame) && BlankBut(ram[t.frame], page % 1024)
    ensures MapsOnly(ram, Installed(ram, dir, page, t, e), dir, page, e.frame)
  {
    var i, ram' := page / 1024, Installed(ram, dir, page, t, e);
    assert ram'[dir] == ram[dir][i := t];
    forall k | 0 <= k < 1024 && k != i && Present(ram'[dir][k])
      ensures ram'[dir][k].frame != t.frame && (k != SELF ==> ram'[ram'[dir][k].frame] == ram[ram[dir][k].frame])
    {
      assert ram'[dir][k] == ram[dir][k];
    }
    forall k, j | 0 <= k < 1024 && 0 <= j < 1024 && Present(ram'[dir][k]) ensures Clean(ram'[ram'[dir][k].frame][j]) {
      if k != i { assert Clean(ram[ram[dir][k].frame][j]); }
    }
    forall q: Page | q != page && q / 1024 != SELF ensures Lookup(ram', dir, q) == Lookup(ram, dir, q) {
      if q / 1024 == i { assert q % 1024 != page % 1024; }
    }
  }

  lemma OnlyBlankFits(ram: Ram, dir: Page, page: Page, t: Entry, e: Entry)
    requires Space(ram, dir) && page / 1024 != SELF && !Present(ram[dir][page / 1024])
    requires Present(t) && t.frame != dir
    requires MapsOnly(ram, Installed(ram, dir, page, t, e), dir, page, e.frame)
    ensures !IsTable(ram, dir, t.frame) && BlankBut(ram[t.frame], page % 1024)
  {
    var i, ram' := page / 1024, Installed(ram, dir, page, t, e);
    assert ram'[dir] == ram[dir][i := t];
    forall k | 0 <= k < 1024 && Present(ram[dir][k]) ensures ram[dir][k].frame != t.frame {
      assert ram'[dir][k] == ram[dir][k];
    }
    assert ram'[t.frame] == ram[t.frame][page % 1024 := e];
    forall k | 0 <= k < 1024 && k != page % 1024 ensures !Present(ram[t.frame][k]) && Clean(ram[t.frame][k]) {
      var q: Page := i * 1024 + k;
      assert q / 1024 == i && q % 1024 == k;
      assert Lookup(ram', dir, q) == Lookup(ram, dir, q) == None;
      assert Clean(ram'[ram'[dir][i].frame][k]);
    }
  }

  /** The directory taken for a table stands in two of its slots. */
  lemma DirectoryTwice(ram: Ram, dir: Page, page: Page, t: Entry, e: Entry)
    requires Space(ram, dir) && page / 1024 != SELF && page / 1024 != page % 1024
    requires Present(t) && t.frame == dir
    ensures !Space(Installed(ram, dir, page, t, e), dir)
  {
    var ram' := Installed(ram, dir, page, t, e);
    assert ram'[dir] == ram[dir][page / 1024 := t][page % 1024 := e];
    assert ram'[dir][page / 1024] == t;
  }

  /** Unless the second store undoes the first. */
  lemma DirectoryAsTable(ram: Ram, dir: Page, page: Page, t: Entry, e: Entry)
    requires Space(ram, dir) && page / 1024 != SELF && !Present(ram[dir][page / 1024])
    requires page / 1024 == page % 1024 && t.frame == dir && Present(e) && Clean(e)
    ensures MapsOnly(ram, Installed(ram, dir, page, t, e), dir, page, e.frame)
            <==> Small(e) && !IsTable(ram, dir, e.frame) && MapsItself(ram, e.frame, page % 1024)
  {
    var i, ram' := page / 1024, Installed(ram, dir, page, t, e);
    assert IsTable(ram, dir, dir);
    assert ram'[dir] == ram[dir][i := e];
    if Small(e) && !IsTable(ram, dir, e.frame) && MapsItself(ram, e.frame, i) {
      SelfMappingFits(ram, ram', dir, page, e);
    }
    if MapsOnly(ram, ram', dir, page, e.frame) {
      OnlySelfMappingFits(ram, ram', dir, page, e);
    }
  }

  lemma SelfMappingFits(ram: Ram, ram': Ram, dir: Page, page: Page, e: Entry)
    requires Space(ram, dir) && page / 1024 != SELF && !Present(ram[dir][page / 1024])
    requires page / 1024 == page % 1024 && ram' == SetWord(ram, dir, page / 1024, e)
    requires TableEntry(e) && !IsTable(ram, dir, e.frame) && MapsItself(ram, e.frame, page % 1024)
    ensures MapsOnly(ram, ram', dir, page, e.frame)
  {
    var i := page / 1024;
    assert IsTable(ram, dir, dir);
    forall k | 0 <= k < 1024 && k != i && Present(ram'[dir][k]) ensures ram'[dir][k].frame != e.frame {
      assert ram'[dir][k] == ram[dir][k];
    }
    forall k, j | 0 <= k < 1024 && 0 <= j < 1024 && Present(ram'[dir][k]) ensures Clean(ram'[ram'[dir][k].frame][j]) {
      if k != i { assert Clean(ram[ram[dir][k].frame][j]); }
    }
    forall q: Page | q != page && q / 1024 != SELF ensures Lookup(ram', dir, q) == Lookup(ram, dir, q) {
      if q / 1024 == i { assert q % 1024 != i; } else if Present(ram[dir][q / 1024]) {
        assert ram[dir][q / 1024].frame != dir;
      }
    }
  }

  lemma OnlySelfMappingFits(ram: Ram, ram': Ram, dir: Page, page: Page, e: Entry)
    requires Space(ram, dir) && page / 1024 != SELF && !Present(ram[dir][page / 1024]) && Present(e)
    requires page / 1024 == page % 1024 && ram' == SetWord(ram, dir, page / 1024, e)
    requires MapsOnly(ram, ram', dir, page, e.frame)
    ensures Small(e) && !IsTable(ram, dir, e.frame) && MapsItself(ram, e.frame, page % 1024)
  {
    var i := page / 1024;
    assert ram'[dir][i] == e;
    forall k | 0 <= k < 1024 && Present(ram[dir][k]) ensures ram[dir][k].frame != e.frame {
      assert ram'[dir][k] == ram[dir][k];
    }
    assert IsTable(ram, dir, dir);
    assert ram'[e.frame] == ram[e.frame];
    assert Clean(ram'[ram'[dir][i].frame][i]);
    forall k | 0 <= k < 1024 && k != i ensures !Present(ram[e.frame][k]) && Clean(ram[e.frame][k]) {
      var q: Page := i * 1024 + k;
      assert q / 1024 == i && q % 1024 == k;
      assert Lookup(ram', dir, q) == Lookup(ram, dir, q) == None;
      assert Clean(ram'[ram'[dir][i].frame][k]);
    }
  }

  /** One stale word in frame 0 is enough: with everything else zero but the directory in
      frame 1, and no frame left, mapping page 0 also maps page 1. */
  lemma StaleFrameCase()
    ensures exists ram: Ram, t: Entry, e: Entry ::
      && Space(ram, 1) && !Present(ram[1][0]) && TableEntry(t) && t.frame == 0 && Present(e) && Clean(e)
      && !MapsOnly(ram, Installed(ram, 1, 0, t, e), 1, 0, e.frame)
      && Lookup(ram, 1, 1) == None && Lookup(Installed(ram, 1, 0, t, e), 1, 1) == Some(7)
  {
    var zero: Ram := seq(FRAMES, i => ZERO_FRAME);
    var ram := SetWord(SetWord(zero, 1, SELF, Entry(1, PRESENT | WRITE)), 0, 1, Entry(7, PRESENT));
    var t, e := Entry(0, PRESENT | WRITE), Entry(5, PRESENT | WRITE);
    StaleSpace(ram);
    NewTableIff(ram, 1, 0, t, e);
    assert Present(ram[0][1]);
    assert Installed(ram, 1, 0, t, e)[1][0] == t;
  }

  lemma StaleSpace(ram: Ram)
    requires ram[1] == ZERO_FRAME[SELF := Entry(1, PRESENT | WRITE)]
    ensures Space(ram, 1) && forall i :: 0 <= i < SELF ==> !Present(ram[1][i])
  {}
}
