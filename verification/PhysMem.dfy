// Physical memory as the message copies of kernel/syscall.c see it.
module PhysMem {
  import opened Common

  /** Bytes by physical address; a byte never written reads as zero. */
  type Memory = map<nat, Byte>

  function ReadByte(m: Memory, a: nat): Byte {
    if a in m then m[a] else 0
  }

  /** The number of a 4 KiB page or frame. */
  type Page = p: nat | p < 0x10_0000

  /** An address space: the frame behind each page that a system call touches. */
  type PageMap = Page -> Page

  function PageAfter(p: Page, q: nat): Page {
    (p + q) % 0x10_0000
  }

  /** vm_get_phys_mapping: the mapped frame plus the offset into the page. */
  function Translate(pages: PageMap, v: U32): (phys: U32)
    ensures phys % PAGE_SIZE == v % PAGE_SIZE && phys / PAGE_SIZE == pages(v / PAGE_SIZE)
  {
    pages(v / PAGE_SIZE) * PAGE_SIZE + v % PAGE_SIZE
  }

  /** The address i bytes after v, in 32-bit arithmetic. */
  function Plus(v: U32, i: nat): (a: U32)
    ensures a % PAGE_SIZE == (v % PAGE_SIZE + i) % PAGE_SIZE
    ensures a / PAGE_SIZE == PageAfter(v / PAGE_SIZE, (v % PAGE_SIZE + i) / PAGE_SIZE)
  {
    var q, r := (v % PAGE_SIZE + i) / PAGE_SIZE, (v % PAGE_SIZE + i) % PAGE_SIZE;
    PageWraps(v / PAGE_SIZE + q, r);
    (v + i) % WORD_SPAN
  }

  /** The physical bytes behind n bytes of a virtual buffer. */
  function BufferBytes(pages: PageMap, v: U32, n: nat): (bytes: seq<nat>)
    ensures |bytes| == n
  {
    seq(n, i requires 0 <= i < n => Translate(pages, Plus(v, i)))
  }

  /** The physical bytes behind n bytes of a window: pages mapped one after the other from
      the page of `phys`, entered at the page offset of `v`. */
  function WindowBytes(phys: U32, v: U32, n: nat): (bytes: seq<nat>)
    ensures |bytes| == n
  {
    seq(n, i requires 0 <= i < n => Plus(phys - phys % PAGE_SIZE + v % PAGE_SIZE, i))
  }

  /** How many bytes map_pages maps for a size: whole pages, whatever the page offset. */
  function MappedSpan(size: U32): (span: nat)
    ensures size <= span
  {
    (size / PAGE_SIZE + (if size % PAGE_SIZE > 0 then 1 else 0)) * PAGE_SIZE
  }

  /** n bytes from the page offset of v stay inside the window mapped for `size` bytes. */
  predicate WindowCovers(size: U32, v: U32, n: nat) {
    n == 0 || v % PAGE_SIZE + n <= MappedSpan(size)
  }

  /** memcpy, byte by byte from the front, between two lists of physical bytes. */
  function Copy(m: Memory, dst: seq<nat>, src: seq<nat>): Memory
    requires |dst| == |src|
    decreases |dst|
  {
    if dst == [] then m else Copy(m[dst[0] := ReadByte(m, src[0])], dst[1..], src[1..])
  }

  /** Storing a list of bytes. */
  function Store(m: Memory, dst: seq<nat>, bytes: seq<Byte>): Memory
    requires |dst| == |bytes|
    decreases |dst|
  {
    if dst == [] then m else Store(m[dst[0] := bytes[0]], dst[1..], bytes[1..])
  }

  ghost predicate Distinct(bytes: seq<nat>) {
    forall i, j :: 0 <= i < j < |bytes| ==> bytes[i] != bytes[j]
  }

  /** A copy changes only the destination, and with distinct destination bytes apart from
      the source it puts every source byte in its place. */
  lemma {:induction false} CopyMoves(m: Memory, dst: seq<nat>, src: seq<nat>)
    requires |dst| == |src|
    ensures forall a :: a !in dst ==> ReadByte(Copy(m, dst, src), a) == ReadByte(m, a)
    ensures Distinct(dst) && (forall a :: a in dst ==> a !in src) ==>
      forall i :: 0 <= i < |dst| ==> ReadByte(Copy(m, dst, src), dst[i]) == ReadByte(m, src[i])
    decreases |dst|
  {
    if dst != [] {
      var m' := m[dst[0] := ReadByte(m, src[0])];
      CopyMoves(m', dst[1..], src[1..]);
      assert forall a :: a in dst[1..] ==> a in dst;
      assert forall a :: a in src[1..] ==> a in src;
      if Distinct(dst) && (forall a :: a in dst ==> a !in src) {
        assert dst[0] !in dst[1..];
        assert Distinct(dst[1..]);
        forall i | 0 <= i < |dst| ensures ReadByte(Copy(m, dst, src), dst[i]) == ReadByte(m, src[i]) {
          if i > 0 {
            assert dst[i] == dst[1..][i - 1] && src[i] == src[1..][i - 1];
            assert src[i] in src && dst[0] in dst;
          }
        }
      }
    }
  }

  /** Where each byte goes to the place that the next one comes from, the first byte ends up in
      all of them: the copy goes from front to back. */
  lemma {:induction false} CopySmears(m: Memory, dst: seq<nat>, src: seq<nat>)
    requires |dst| == |src| && Distinct(dst)
    requires forall i :: 0 <= i < |dst| - 1 ==> src[i + 1] == dst[i]
    ensures forall i :: 0 <= i < |dst| ==> ReadByte(Copy(m, dst, src), dst[i]) == ReadByte(m, src[0])
    decreases |dst|
  {
    if dst != [] {
      var m' := m[dst[0] := ReadByte(m, src[0])];
      assert Distinct(dst[1..]);
      CopySmears(m', dst[1..], src[1..]);
      CopyMoves(m', dst[1..], src[1..]);
      assert dst[0] !in dst[1..];
      forall i | 0 <= i < |dst| ensures ReadByte(Copy(m, dst, src), dst[i]) == ReadByte(m, src[0]) {
        if i > 0 { assert dst[i] == dst[1..][i - 1] && src[1..][0] == dst[0]; }
      }
    }
  }

  lemma {:induction false} StoreWrites(m: Memory, dst: seq<nat>, bytes: seq<Byte>)
    requires |dst| == |bytes|
    ensures forall a :: a !in dst ==> ReadByte(Store(m, dst, bytes), a) == ReadByte(m, a)
    ensures Distinct(dst) ==> forall i :: 0 <= i < |dst| ==> ReadByte(Store(m, dst, bytes), dst[i]) == bytes[i]
    decreases |dst|
  {
    if dst != [] {
      var m' := m[dst[0] := bytes[0]];
      StoreWrites(m', dst[1..], bytes[1..]);
      assert forall a :: a in dst[1..] ==> a in dst;
      if Distinct(dst) {
        assert dst[0] !in dst[1..];
        forall i | 0 <= i < |dst| ensures ReadByte(Store(m, dst, bytes), dst[i]) == bytes[i] {
          if i > 0 { assert dst[i] == dst[1..][i - 1]; }
        }
      }
    }
  }

  /** Each page of an n-byte buffer lies in the frame that follows the one before. */
  ghost predicate Contiguous(pages: PageMap, v: U32, n: nat) {
    forall q: nat :: q * PAGE_SIZE < v % PAGE_SIZE + n ==>
      pages(PageAfter(v / PAGE_SIZE, q)) == PageAfter(pages(v / PAGE_SIZE), q)
  }

  /** Byte i of a buffer and of the window on it: same offset, perhaps other frames. */
  lemma BytePlaces(pages: PageMap, v: U32, n: nat, i: nat)
    requires i < n
    ensures var q, r := (v % PAGE_SIZE + i) / PAGE_SIZE, (v % PAGE_SIZE + i) % PAGE_SIZE;
      && WindowBytes(Translate(pages, v), v, n)[i] == PageAfter(pages(v / PAGE_SIZE), q) * PAGE_SIZE + r
      && BufferBytes(pages, v, n)[i] == pages(PageAfter(v / PAGE_SIZE, q)) * PAGE_SIZE + r
  {
    var phys := Translate(pages, v);
    assert phys - phys % PAGE_SIZE + v % PAGE_SIZE == phys;
  }

  /** The window on a buffer shows exactly the buffer's own bytes if and only if the
      buffer's pages are physically contiguous. */
  lemma WindowShowsBuffer(pages: PageMap, v: U32, n: nat)
    requires 0 < n
    ensures WindowBytes(Translate(pages, v), v, n) == BufferBytes(pages, v, n) <==> Contiguous(pages, v, n)
  {
    if Contiguous(pages, v, n) {
      ContiguousShows(pages, v, n);
    }
    if WindowBytes(Translate(pages, v), v, n) == BufferBytes(pages, v, n) {
      ShownIsContiguous(pages, v, n);
    }
  }

  lemma ContiguousShows(pages: PageMap, v: U32, n: nat)
    requires Contiguous(pages, v, n)
    ensures WindowBytes(Translate(pages, v), v, n) == BufferBytes(pages, v, n)
  {
    forall i | 0 <= i < n
      ensures WindowBytes(Translate(pages, v), v, n)[i] == BufferBytes(pages, v, n)[i]
    {
      BytePlaces(pages, v, n, i);
      var q := (v % PAGE_SIZE + i) / PAGE_SIZE;
      assert q * PAGE_SIZE < v % PAGE_SIZE + n;
    }
  }

  /** A window entered at the offset of the physical address itself. */
  lemma ContiguousShowsPhys(pages: PageMap, v: U32, n: nat)
    requires Contiguous(pages, v, n)
    ensures WindowBytes(Translate(pages, v), Translate(pages, v), n) == BufferBytes(pages, v, n)
  {
    ContiguousShows(pages, v, n);
    assert WindowBytes(Translate(pages, v), Translate(pages, v), n) == WindowBytes(Translate(pages, v), v, n);
  }

  lemma ShownIsContiguous(pages: PageMap, v: U32, n: nat)
    requires 0 < n
    requires WindowBytes(Translate(pages, v), v, n) == BufferBytes(pages, v, n)
    ensures Contiguous(pages, v, n)
  {
    forall q: nat | q * PAGE_SIZE < v % PAGE_SIZE + n
      ensures pages(PageAfter(v / PAGE_SIZE, q)) == PageAfter(pages(v / PAGE_SIZE), q)
    {
      var i := if q == 0 then 0 else q * PAGE_SIZE - v % PAGE_SIZE;
      assert (v % PAGE_SIZE + i) / PAGE_SIZE == q;
      BytePlaces(pages, v, n, i);
    }
  }

  /** A buffer within one page is contiguous. */
  lemma OnePageIsContiguous(pages: PageMap, v: U32, n: nat)
    requires v % PAGE_SIZE + n <= PAGE_SIZE
    ensures Contiguous(pages, v, n)
  {
    forall q: nat | q * PAGE_SIZE < v % PAGE_SIZE + n
      ensures pages(PageAfter(v / PAGE_SIZE, q)) == PageAfter(pages(v / PAGE_SIZE), q)
    {
      assert q == 0;
    }
  }

  /** A buffer of two pages that sit in unrelated frames: the window shows other bytes. */
  lemma ScatteredBufferCase()
    ensures exists pages: PageMap ::
      WindowBytes(Translate(pages, 0), 0, 4097) != BufferBytes(pages, 0, 4097)
  {
    var pages: PageMap := (p: Page) => if p == 0 then 7 else 9;
    WindowShowsBuffer(pages, 0, 4097);
    assert PageAfter(0, 1) == 1;
    assert pages(PageAfter(0 / PAGE_SIZE, 1)) == 9 != PageAfter(pages(0 / PAGE_SIZE), 1);
    assert 1 * PAGE_SIZE < 0 % PAGE_SIZE + 4097;
    assert !Contiguous(pages, 0, 4097);
  }
}
