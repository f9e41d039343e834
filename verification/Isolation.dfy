// Several address spaces in one memory: what the kernel does in one of them is seen in another
// only through the tables that the two share, slot by slot.
module Isolation {
  import opened Common
  import opened PhysMem
  import opened Paging
  import opened VmSpec
  import LowBits
  import PageFrames

  /** Two directories that share tables only at the same slot, and neither of which is a table
      of the other. */
  ghost predicate Beside(ram: Ram, d: Page, e: Page) {
    && !IsTable(ram, d, e) && !IsTable(ram, e, d)
    && forall i, j :: 0 <= i < 1024 && 0 <= j < 1024 && i != j && Present(ram[d][i]) && Present(ram[e][j]) ==>
         ram[d][i].frame != ram[e][j].frame
  }

  predicate Shares(ram: Ram, d: Page, e: Page, i: nat)
    requires i < 1024
  {
    Present(ram[d][i]) && Present(ram[e][i]) && ram[d][i].frame == ram[e][i].frame
  }

  ghost predicate WellFormed(ram: Ram, d: Page, b: PageFrames.Bitmap, pool: U32, limit: nat) {
    Space(ram, d) && TablesOwned(ram, d, b, pool, limit)
  }

  /** The directories of all address spaces. */
  ghost predicate Spaces(ram: Ram, dirs: set<Page>, b: PageFrames.Bitmap, pool: U32, limit: nat) {
    && (forall d :: d in dirs ==> WellFormed(ram, d, b, pool, limit))
    && (forall d, e :: d in dirs && e in dirs && d != e ==> Beside(ram, d, e))
  }

  /** The tables that only other spaces have are as before. */
  ghost predicate KeepsTables(ram: Ram, ram': Ram, dir: Page, other: Page) {
    forall f: Page :: IsTable(ram, other, f) && !IsTable(ram, dir, f) ==> ram'[f] == ram[f]
  }

  lemma OtherSlot(ram: Ram, ram': Ram, dir: Page, other: Page, i: nat)
    requires Beside(ram, dir, other) && KeepsTables(ram, ram', dir, other) && SelfMapped(ram, dir)
    requires i < SELF && Present(ram[other][i]) && !Shares(ram, dir, other, i)
    ensures ram'[ram[other][i].frame] == ram[ram[other][i].frame]
  {
    var f := ram[other][i].frame;
    assert IsTable(ram, other, f);
    assert !IsTable(ram, dir, f);
  }

  lemma OtherDirectory(ram: Ram, ram': Ram, dir: Page, other: Page)
    requires Beside(ram, dir, other) && KeepsTables(ram, ram', dir, other) && SelfMapped(ram, other)
    ensures ram'[other] == ram[other]
    ensures forall f: Page :: IsTable(ram', other, f) == IsTable(ram, other, f)
  {
    assert IsTable(ram, other, other);
  }

  /** Whatever the kernel does to one space's tables, another space stays well-formed. Where the
      two share a table, it translates as the first one now does, and elsewhere as before. */
  lemma OthersKept(ram: Ram, ram': Ram, dir: Page, other: Page)
    requires Space(ram, dir) && Space(ram', dir) && Space(ram, other) && Beside(ram, dir, other)
    requires SlotsStay(ram[dir], ram'[dir]) && KeepsTables(ram, ram', dir, other)
    ensures Space(ram', other)
    ensures forall q: Page :: q / 1024 != SELF ==>
      Lookup(ram', other, q)
      == if Shares(ram, dir, other, q / 1024) then Lookup(ram', dir, q) else Lookup(ram, other, q)
  {
    OtherDirectory(ram, ram', dir, other);
    forall i, j | 0 <= i < 1024 && 0 <= j < 1024 && Present(ram'[other][i])
      ensures Clean(ram'[ram'[other][i].frame][j])
    {
      if i == SELF {
        assert Clean(ram[ram[other][SELF].frame][j]);
      } else if Shares(ram, dir, other, i) {
        assert Clean(ram'[ram'[dir][i].frame][j]);
      } else {
        OtherSlot(ram, ram', dir, other, i);
        assert Clean(ram[ram[other][i].frame][j]);
      }
    }
    forall q: Page | q / 1024 != SELF
      ensures Lookup(ram', other, q)
           == if Shares(ram, dir, other, q / 1024) then Lookup(ram', dir, q) else Lookup(ram, other, q)
    {
      if Present(ram[other][q / 1024]) && !Shares(ram, dir, other, q / 1024) {
        OtherSlot(ram, ram', dir, other, q / 1024);
      }
    }
  }

  /** A table that the other space has too was there before, in the same slot. */
  lemma OldTable(ram: Ram, ram': Ram, dir: Page, other: Page, b: PageFrames.Bitmap, b': PageFrames.Bitmap,
                 pool: U32, limit: nat, i: nat, j: nat)
    requires WellFormed(ram, other, b, pool, limit) && Grown(ram, ram', dir, b, b', pool, limit)
    requires TablesDistinct(ram', dir) && i < 1024 && j < 1024
    requires Present(ram'[dir][i]) && Present(ram[other][j]) && ram'[dir][i].frame == ram[other][j].frame
    ensures Present(ram[dir][i]) && ram[dir][i].frame == ram[other][j].frame
  {
    var f := ram'[dir][i].frame;
    assert IsTable(ram', dir, f) && IsTable(ram, other, f);
    assert IsTable(ram, dir, f);
    var k :| 0 <= k < 1024 && Present(ram[dir][k]) && ram[dir][k].frame == f;
    assert k == i;
  }

  lemma BesideKept(ram: Ram, ram': Ram, dir: Page, other: Page, b: PageFrames.Bitmap, b': PageFrames.Bitmap,
                   pool: U32, limit: nat)
    requires Beside(ram, dir, other) && WellFormed(ram, other, b, pool, limit)
    requires Grown(ram, ram', dir, b, b', pool, limit)
    requires KeepsTables(ram, ram', dir, other) && TablesDistinct(ram', dir)
    ensures Beside(ram', dir, other) && TablesOwned(ram', other, b', pool, limit)
  {
    OtherDirectory(ram, ram', dir, other);
    assert IsTable(ram, other, other);
    assert !IsTable(ram', dir, other);
    forall i, j | 0 <= i < 1024 && 0 <= j < 1024 && i != j && Present(ram'[dir][i]) && Present(ram'[other][j])
      ensures ram'[dir][i].frame != ram'[other][j].frame
    {
      if ram'[dir][i].frame == ram[other][j].frame {
        OldTable(ram, ram', dir, other, b, b', pool, limit, i, j);
      }
    }
  }

  lemma BesideSame(ram: Ram, ram': Ram, d: Page, e: Page)
    requires Beside(ram, d, e) && ram'[d] == ram[d] && ram'[e] == ram[e]
    ensures Beside(ram', d, e)
  {}

  /** The current space has changed, and left the tables of the others alone. */
  ghost predicate OneChanges(ram: Ram, ram': Ram, dirs: set<Page>, dir: Page, b: PageFrames.Bitmap,
                             b': PageFrames.Bitmap, pool: U32, limit: nat) {
    && dir in dirs && WellFormed(ram', dir, b', pool, limit) && Grown(ram, ram', dir, b, b', pool, limit)
    && forall e :: e in dirs && e != dir ==> KeepsTables(ram, ram', dir, e)
  }

  /** Then all of them are in order again. */
  lemma SpacesKept(ram: Ram, ram': Ram, dirs: set<Page>, dir: Page, b: PageFrames.Bitmap, b': PageFrames.Bitmap,
                   pool: U32, limit: nat)
    requires Spaces(ram, dirs, b, pool, limit) && OneChanges(ram, ram', dirs, dir, b, b', pool, limit)
    ensures Spaces(ram', dirs, b', pool, limit)
  {
    forall e | e in dirs && e != dir
      ensures WellFormed(ram', e, b', pool, limit) && Beside(ram', dir, e) && Beside(ram', e, dir) && ram'[e] == ram[e]
    {
      assert WellFormed(ram, e, b, pool, limit) && Beside(ram, dir, e) && WellFormed(ram, dir, b, pool, limit);
      OtherDirectory(ram, ram', dir, e);
      OthersKept(ram, ram', dir, e);
      BesideKept(ram, ram', dir, e, b, b', pool, limit);
    }
    forall d, e | d in dirs && e in dirs && d != e && d != dir && e != dir ensures Beside(ram', d, e) {
      BesideSame(ram, ram', d, e);
    }
  }

  /** What restores the translations of one space restores those of all. */
  lemma TranslationsKept(ram: Ram, ram': Ram, dirs: set<Page>, dir: Page, other: Page, b: PageFrames.Bitmap,
                         b': PageFrames.Bitmap, pool: U32, limit: nat)
    requires Spaces(ram, dirs, b, pool, limit) && OneChanges(ram, ram', dirs, dir, b, b', pool, limit)
    requires other in dirs && SameTranslations(ram, ram', dir)
    ensures SameTranslations(ram, ram', other)
  {
    if other != dir {
      assert WellFormed(ram, other, b, pool, limit) && WellFormed(ram, dir, b, pool, limit) && Beside(ram, dir, other);
      OthersKept(ram, ram', dir, other);
    }
  }

  lemma TablesApart(ram: Ram, ram': Ram, dir: Page, other: Page, b: PageFrames.Bitmap, b': PageFrames.Bitmap,
                    pool: U32, limit: nat)
    requires TablesOwned(ram, other, b, pool, limit) && Grown(ram, ram', dir, b, b', pool, limit)
    ensures forall f: Page :: IsTable(ram, other, f) && !IsTable(ram, dir, f) ==> !IsTable(ram', dir, f)
  {}

  /** map_page in one space and what it means for another: the page is mapped there too if the
      two share its table, and otherwise not, also when the table is new. No other page of any
      space translates differently. */
  lemma MapPageElsewhere(ram: Ram, ram': Ram, dirs: set<Page>, dir: Page, other: Page, b: PageFrames.Bitmap,
                         b': PageFrames.Bitmap, pool: U32, limit: nat, page: Page, f: Page)
    requires Spaces(ram, dirs, b, pool, limit) && limit <= PageFrames.PAGES
    requires dir in dirs && other in dirs && other != dir
    requires WellFormed(ram', dir, b', pool, limit) && page / 1024 != SELF
    requires PageMapped(ram, ram', dir, b, b', pool, limit, page, f)
    ensures Spaces(ram', dirs, b', pool, limit) && SameElsewhere(ram, ram', other, page)
    ensures Lookup(ram', other, page)
         == if Shares(ram, dir, other, page / 1024) then Lookup(ram', dir, page) else Lookup(ram, other, page)
  {
    forall e | e in dirs && e != dir ensures KeepsTables(ram, ram', dir, e) {
      assert WellFormed(ram, e, b, pool, limit);
      TablesApart(ram, ram', dir, e, b, b', pool, limit);
    }
    SpacesKept(ram, ram', dirs, dir, b, b', pool, limit);
    assert WellFormed(ram, other, b, pool, limit) && WellFormed(ram, dir, b, pool, limit) && Beside(ram, dir, other);
    OthersKept(ram, ram', dir, other);
  }

  // ----- a new address space -----

  lemma NewBeside(ram: Ram, dir: Page, newDir: Page, e: Page)
    requires Space(ram, dir) && CopiesKernel(ram, dir, newDir) && newDir != e
    requires e == dir || Beside(ram, dir, e)
    requires !IsTable(ram, e, newDir)
    ensures Beside(ram, newDir, e)
  {
    assert IsTable(ram, dir, dir);
    forall i | 0 <= i < SELF && Present(ram[newDir][i])
      ensures ram[newDir][i] == ram[dir][i] && ram[newDir][i].frame != e
    {
      assert IsTable(ram, dir, ram[dir][i].frame);
    }
    forall i, j | 0 <= i < 1024 && 0 <= j < 1024 && i != j && Present(ram[newDir][i]) && Present(ram[e][j])
      ensures ram[newDir][i].frame != ram[e][j].frame
    {
      assert IsTable(ram, e, ram[e][j].frame);
    }
  }

  /** What vm_copy_kernel_pdir makes joins the others. */
  lemma NewSpaceJoins(ram: Ram, ram': Ram, dirs: set<Page>, dir: Page, newDir: Page, b: PageFrames.Bitmap,
                      b': PageFrames.Bitmap, pool: U32, limit: nat)
    requires Spaces(ram, dirs, b, pool, limit) && dir in dirs && !Owned(b, pool, limit, newDir)
    requires WellFormed(ram', dir, b', pool, limit) && Grown(ram, ram', dir, b, b', pool, limit)
    requires NewSpace(ram', dir, newDir, b', pool, limit)
    requires forall f: Page :: !IsTable(ram', dir, f) && f != newDir ==> ram'[f] == ram[f]
    ensures newDir !in dirs && Spaces(ram', dirs + {newDir}, b', pool, limit)
  {
    forall e | e in dirs ensures e != newDir && !IsTable(ram, e, newDir) {
      assert WellFormed(ram, e, b, pool, limit) && IsTable(ram, e, e);
    }
    forall e | e in dirs && e != dir ensures KeepsTables(ram, ram', dir, e) {
      assert WellFormed(ram, e, b, pool, limit);
      TablesApart(ram, ram', dir, e, b, b', pool, limit);
    }
    SpacesKept(ram, ram', dirs, dir, b, b', pool, limit);
    forall e | e in dirs ensures Beside(ram', newDir, e) && Beside(ram', e, newDir) {
      if e != dir {
        assert Beside(ram', dir, e) && Beside(ram, dir, e) && WellFormed(ram, e, b, pool, limit);
        OtherDirectory(ram, ram', dir, e);
      }
      NewBeside(ram', dir, newDir, e);
    }
  }

  // ----- data -----

  ghost predicate TableOfAny(ram: Ram, dirs: set<Page>, f: Page) {
    exists d :: d in dirs && IsTable(ram, d, f)
  }

  /** A byte of a frame that is no table of any space. */
  ghost predicate DataByte(ram: Ram, dirs: set<Page>, a: nat) {
    a < WORD_SPAN && !TableOfAny(ram, dirs, a / PAGE_SIZE)
  }

  /** `mem` is the contents of all frames that are no tables of any space. */
  ghost predicate AllData(ram: Ram, dirs: set<Page>, mem: Memory) {
    forall a: nat :: DataByte(ram, dirs, a) ==> ReadByte(mem, a) == ByteAt(ram, a)
  }

  ghost predicate AllDataBytes(ram: Ram, dirs: set<Page>, bytes: seq<nat>) {
    forall i :: 0 <= i < |bytes| ==> DataByte(ram, dirs, bytes[i])
  }

  /** Memory byte for byte, tables included. */
  ghost function Everything(ram: Ram): (m: Memory)
    ensures forall a: U32 :: ReadByte(m, a) == ByteAt(ram, a)
  {
    map a: nat | a < WORD_SPAN :: ByteAt(ram, a)
  }

  ghost predicate Agree(ram: Ram, dirs: set<Page>, m: Memory, m': Memory) {
    forall a: nat :: DataByte(ram, dirs, a) ==> ReadByte(m, a) == ReadByte(m', a)
  }

  lemma {:induction false} CopyAgrees(ram: Ram, dirs: set<Page>, m: Memory, m': Memory, dst: seq<nat>, src: seq<nat>)
    requires Agree(ram, dirs, m, m') && |dst| == |src| && AllDataBytes(ram, dirs, src)
    ensures Agree(ram, dirs, Copy(m, dst, src), Copy(m', dst, src))
    decreases |dst|
  {
    if dst != [] {
      assert DataByte(ram, dirs, src[0]);
      assert AllDataBytes(ram, dirs, src[1..]);
      CopyAgrees(ram, dirs, m[dst[0] := ReadByte(m, src[0])], m'[dst[0] := ReadByte(m', src[0])], dst[1..], src[1..]);
    }
  }

  lemma {:induction false} StoreAgrees(ram: Ram, dirs: set<Page>, m: Memory, m': Memory,
                                       dst: seq<nat>, bytes: seq<Byte>)
    requires Agree(ram, dirs, m, m') && |dst| == |bytes|
    ensures Agree(ram, dirs, PhysMem.Store(m, dst, bytes), PhysMem.Store(m', dst, bytes))
    decreases |dst|
  {
    if dst != [] {
      StoreAgrees(ram, dirs, m[dst[0] := bytes[0]], m'[dst[0] := bytes[0]], dst[1..], bytes[1..]);
    }
  }

  lemma SameValue(e: Entry, e': Entry)
    requires Value(e) == Value(e')
    ensures e == e'
  {
    LowBits.Bounded(e.low);
    LowBits.Bounded(e'.low);
    assert e.frame == Value(e) / PAGE_SIZE && e'.frame == Value(e') / PAGE_SIZE;
    assert e.low as int == e'.low as int;
    assert e.low == (e.low as int) as bv12 == e'.low;
  }

  /** A frame is determined by its bytes. */
  lemma SameBytes(ram: Ram, ram': Ram, f: Page)
    requires forall a: U32 :: a / PAGE_SIZE == f ==> ByteAt(ram', a) == ByteAt(ram, a)
    ensures ram'[f] == ram[f]
  {
    forall k | 0 <= k < 1024 ensures ram'[f][k] == ram[f][k] {
      forall j | 0 <= j < 4 ensures Le32(Value(ram'[f][k]))[j] == Le32(Value(ram[f][k]))[j] {
        ByteOfWord(ram, f, k, j);
        ByteOfWord(ram', f, k, j);
      }
      Le32RoundTrip(Value(ram[f][k]));
      Le32RoundTrip(Value(ram'[f][k]));
      assert Le32(Value(ram'[f][k])) == Le32(Value(ram[f][k]));
      SameValue(ram[f][k], ram'[f][k]);
    }
  }

  lemma ByteOfWord(ram: Ram, f: Page, k: nat, j: nat)
    requires k < 1024 && j < 4
    ensures f * PAGE_SIZE + 4 * k + j < WORD_SPAN && (f * PAGE_SIZE + 4 * k + j) / PAGE_SIZE == f
    ensures ByteAt(ram, f * PAGE_SIZE + 4 * k + j) == Le32(Value(ram[f][k]))[j]
  {
    var a: U32 := f * PAGE_SIZE + 4 * k + j;
    assert a / PAGE_SIZE == f && a % PAGE_SIZE == 4 * k + j;
    assert (4 * k + j) / 4 == k;
    FourFolds(f * 1024 + k, j);
    assert a == (f * 1024 + k) * 4 + j;
  }
}
