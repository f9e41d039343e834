// The bitmap of physical pages in kernel/pm.c.
module PageFrames {
  import opened Common
  import opened Bits

  /** PM_BITMAP_NMEMB words of 32 bits: one bit for each page of the 4 GiB. */
  const WORDS: nat := 32768
  const PAGES: nat := 0x10_0000
  /** Physical address 0 is mapped here. */
  const KERN_VOFF: U32 := 0xe000_0000

  type Bitmap = b: seq<Word> | |b| == WORDS witness seq(WORDS, i => ZERO)

  predicate Used(b: Bitmap, p: nat)
    requires p < PAGES
  {
    b[p / 32][p % 32]
  }

  function Add32(a: U32, b: nat): U32 { (a + b) % WORD_SPAN }

  function P2v(a: U32): U32 { Add32(a, KERN_VOFF) }

  function V2p(a: U32): U32 { Sub32(a, KERN_VOFF) }

  /** The physical address of page p of the pool. */
  function AddressOf(pool: U32, p: nat): U32 {
    V2p(Add32(pool, p * PAGE_SIZE))
  }

  /** The page whose bit pm_free clears for an address. */
  function PageOf(pool: U32, addr: U32): (p: nat)
    ensures p < PAGES
  {
    Sub32(addr - addr % PAGE_SIZE, pool) / PAGE_SIZE
  }

  // ----- addresses -----

  lemma AddressValue(pool: U32, p: nat)
    requires pool % PAGE_SIZE == 0 && p < PAGES
    ensures AddressOf(pool, p) == (pool / PAGE_SIZE + p + 0x2_0000) % PAGES * PAGE_SIZE
  {
    var k := pool / PAGE_SIZE + p;
    PageWraps(k, 0);
    PageWraps(k % PAGES - 0xe_0000, 0);
    assert (k % PAGES - 0xe_0000) % PAGES == (k + 0x2_0000) % PAGES;
  }

  lemma VirtualAddress(pool: U32, p: nat)
    requires pool % PAGE_SIZE == 0 && p < PAGES
    ensures P2v(AddressOf(pool, p)) == (pool / PAGE_SIZE + p) % PAGES * PAGE_SIZE
  {
    var k := pool / PAGE_SIZE + p;
    AddressValue(pool, p);
    PageWraps((k + 0x2_0000) % PAGES + 0xe_0000, 0);
    assert ((k + 0x2_0000) % PAGES + 0xe_0000) % PAGES == k % PAGES;
  }

  lemma BitAt(pool: U32, f: nat, o: nat)
    requires pool % PAGE_SIZE == 0 && f < PAGES && o < PAGE_SIZE
    ensures PageOf(pool, f * PAGE_SIZE + o) == (f - pool / PAGE_SIZE) % PAGES
  {
    PageWraps(f - pool / PAGE_SIZE, 0);
  }

  lemma AroundTheEnd(k: nat, p: nat)
    ensures ((k + p) % PAGES - k) % PAGES == p % PAGES
  {
    var q := (k + p) / PAGES;
    assert (k + p) % PAGES - k == p - q * PAGES;
  }

  /** Page numbers and physical page addresses correspond one to one, although the address
      arithmetic wraps around. */
  lemma AddressesDistinct(pool: U32, p: nat, q: nat)
    requires pool % PAGE_SIZE == 0 && p < PAGES && q < PAGES
    ensures AddressOf(pool, p) % PAGE_SIZE == 0
    ensures AddressOf(pool, p) == AddressOf(pool, q) <==> p == q
  {
    AddressValue(pool, p);
    if AddressOf(pool, p) == AddressOf(pool, q) {
      FreeFindsPage(pool, p, 0);
      FreeFindsPage(pool, q, 0);
    }
  }

  /** pm_free finds the page again from any virtual address inside it. */
  lemma FreeFindsPage(pool: U32, p: nat, o: nat)
    requires pool % PAGE_SIZE == 0 && p < PAGES && o < PAGE_SIZE
    ensures P2v(AddressOf(pool, p)) + o < WORD_SPAN
    ensures PageOf(pool, P2v(AddressOf(pool, p)) + o) == p
  {
    var k := pool / PAGE_SIZE;
    VirtualAddress(pool, p);
    BitAt(pool, (k + p) % PAGES, o);
    AroundTheEnd(k, p);
  }

  /** But pm_alloc returns a physical address, and pm_free of that very address clears the
      bit of another page, 0xe0000 pages away: the page just allocated stays used. */
  lemma FreeOfAllocatedMisses(pool: U32, p: nat)
    requires pool % PAGE_SIZE == 0 && p < PAGES
    ensures PageOf(pool, AddressOf(pool, p)) == (p + 0x2_0000) % PAGES != p
  {
    var k := pool / PAGE_SIZE;
    AddressValue(pool, p);
    BitAt(pool, (k + p + 0x2_0000) % PAGES, 0);
    AroundTheEnd(k, p + 0x2_0000);
  }

  // ----- bitmaps -----

  /** Exactly the pages lo to hi-1 have been added. */
  ghost predicate Adds(b: Bitmap, b': Bitmap, lo: nat, hi: nat) {
    forall q :: 0 <= q < PAGES ==> Used(b', q) == (Used(b, q) || lo <= q < hi)
  }

  ghost predicate Removes(b: Bitmap, b': Bitmap, p: nat) {
    forall q :: 0 <= q < PAGES ==> Used(b', q) == (Used(b, q) && q != p)
  }

  ghost predicate LowestFree(b: Bitmap, p: nat) {
    p < PAGES && !Used(b, p) && forall q :: 0 <= q < p ==> Used(b, q)
  }

  ghost predicate AllUsed(b: Bitmap) {
    forall q :: 0 <= q < PAGES ==> Used(b, q)
  }

  /** n consecutive free pages from p on, all in one word. */
  ghost predicate Window(b: Bitmap, p: nat, n: nat) {
    p < PAGES && p % 32 + n <= 32 && forall q :: p <= q < p + n && q < PAGES ==> !Used(b, q)
  }

  lemma PageOfBit(i: nat, c: nat)
    requires i < WORDS && c < 32
    ensures i * 32 + c < PAGES && (i * 32 + c) / 32 == i && (i * 32 + c) % 32 == c
  {}

  /** A bitmap is determined by the pages it marks. */
  lemma SamePages(b: Bitmap, b': Bitmap)
    requires forall q :: 0 <= q < PAGES ==> Used(b, q) == Used(b', q)
    ensures b == b'
  {
    forall i | 0 <= i < WORDS ensures b[i] == b'[i] {
      forall c | 0 <= c < 32 ensures b[i][c] == b'[i][c] {
        PageOfBit(i, c);
        assert Used(b, i * 32 + c) == Used(b', i * 32 + c);
      }
    }
  }

  /** Allocating a page and freeing it through any virtual address inside it restores the
      bitmap. */
  lemma AllocFreeRoundTrip(b: Bitmap, b': Bitmap, b'': Bitmap, pool: U32, p: nat, o: nat)
    requires pool % PAGE_SIZE == 0 && o < PAGE_SIZE
    requires LowestFree(b, p) && Adds(b, b', p, p + 1)
    requires P2v(AddressOf(pool, p)) + o < WORD_SPAN
    requires Removes(b', b'', PageOf(pool, P2v(AddressOf(pool, p)) + o))
    ensures b'' == b
  {
    FreeFindsPage(pool, p, o);
    SamePages(b'', b);
  }

  class FrameAllocator {
    const bitmap: array<Word>
    /** pm_page_pool: the virtual address of the first page. */
    const pool: U32

    ghost predicate Valid()
      reads this
    {
      bitmap.Length == WORDS && pool % PAGE_SIZE == 0
    }

    ghost function Pages(): Bitmap
      requires Valid()
      reads this, bitmap
    {
      bitmap[..]
    }

    /** pm_init, once it has chosen the pool. */
    constructor (pool: U32)
      requires pool % PAGE_SIZE == 0
      ensures Valid() && this.pool == pool && fresh(bitmap)
      ensures forall p :: 0 <= p < PAGES ==> !Used(Pages(), p)
    {
      this.pool := pool;
      bitmap := new Word[WORDS](i => ZERO);
    }

    /** Setting the bits of a mask in word i marks the pages they stand for. */
    lemma OrAdds(b: Bitmap, i: nat, mask: Word, lo: nat, hi: nat)
      requires i < WORDS && lo <= hi <= 32
      requires forall c :: 0 <= c < 32 ==> mask[c] == (lo <= c < hi)
      ensures Adds(b, b[i := Or(b[i], mask)], i * 32 + lo, i * 32 + hi)
    {}

    /** pm_alloc: the lowest free page, or 0 if there is none. */
    method Alloc() returns (r: U32, ghost p: nat)
      requires Valid()
      modifies bitmap
      ensures AllUsed(old(Pages())) ==> r == 0 && Pages() == old(Pages())
      ensures !AllUsed(old(Pages())) ==>
        && LowestFree(old(Pages()), p)
        && r == AddressOf(pool, p)
        && Adds(old(Pages()), Pages(), p, p + 1)
    {
      var idx := 0;
      ghost var b := Pages();
      while idx < WORDS
        invariant idx <= WORDS && Pages() == b
        invariant forall q :: 0 <= q < idx * 32 ==> Used(b, q)
      {
        if bitmap[idx] != FULL {
          ghost var z := ZeroBit(bitmap[idx]);
          var bit := 0;
          while And(bitmap[idx], Shl(ONE, bit)) != ZERO
            invariant bit <= z && Pages() == b
            invariant forall c :: 0 <= c < bit ==> b[idx][c]
            decreases z - bit
          {
            MaskedClear(bitmap[idx], Shl(ONE, bit), 1, bit);
            bit := bit + 1;
          }
          MaskedClear(bitmap[idx], Shl(ONE, bit), 1, bit);
          p := idx * 32 + bit;
          PageOfBit(idx, bit);
          assert !Used(b, p);
          var page := Add32(pool, (idx * 32 + bit) * PAGE_SIZE);
          OrAdds(b, idx, Shl(ONE, bit), bit, bit + 1);
          bitmap[idx] := Or(bitmap[idx], Shl(ONE, bit));
          assert Pages() == b[idx := Or(b[idx], Shl(ONE, bit))];
          return V2p(page), p;
        }
        idx := idx + 1;
      }
      return 0, 0;
    }

    /** pm_alloc_cont: the first window of free pages within one word, or 0. */
    method AllocCont(n: nat) returns (r: U32, ghost p: nat)
      requires Valid() && 1 <= n
      modifies bitmap
      ensures (forall q :: 0 <= q < PAGES ==> !Window(old(Pages()), q, n)) ==> r == 0 && Pages() == old(Pages())
      ensures (exists q :: 0 <= q < PAGES && Window(old(Pages()), q, n)) ==>
        && Window(old(Pages()), p, n)
        && (forall q :: 0 <= q < p ==> !Window(old(Pages()), q, n))
        && r == AddressOf(pool, p)
        && Adds(old(Pages()), Pages(), p, p + n)
    {
      if n > 32 {
        return 0, 0;
      }
      var idx := 0;
      ghost var b := Pages();
      while idx < WORDS
        invariant idx <= WORDS && Pages() == b
        invariant forall q :: 0 <= q < idx * 32 ==> !Window(b, q, n)
      {
        if bitmap[idx] != FULL {
          var mask, shift := Shr(FULL, 32 - n), 0;
          while shift <= 32 - n
            invariant shift <= 33 - n && Pages() == b
            invariant forall c :: 0 <= c < 32 ==> mask[c] == (shift <= c < shift + n)
            invariant forall q :: 0 <= q < idx * 32 + shift ==> !Window(b, q, n)
          {
            MaskedClear(bitmap[idx], mask, n, shift);
            if ZERO == And(bitmap[idx], mask) {
              p := idx * 32 + shift;
              WindowBits(b, idx, shift, n);
              var page := Add32(pool, (idx * 32 + shift) * PAGE_SIZE);
              OrAdds(b, idx, mask, shift, shift + n);
              bitmap[idx] := Or(bitmap[idx], mask);
              assert Pages() == b[idx := Or(b[idx], mask)];
              return V2p(page), p;
            }
            WindowBits(b, idx, shift, n);
            mask, shift := Shl(mask, 1), shift + 1;
          }
        }
        NoWindowInWord(b, idx, n);
        idx := idx + 1;
      }
      return 0, 0;
    }

    lemma WindowBits(b: Bitmap, i: nat, shift: nat, n: nat)
      requires i < WORDS && 1 <= n && shift + n <= 32
      ensures Window(b, i * 32 + shift, n) <==> forall c :: shift <= c < shift + n ==> !b[i][c]
    {
      PageOfBit(i, shift);
      forall c: nat | shift <= c < shift + n
        ensures Used(b, i * 32 + c) == b[i][c]
      {
        PageOfBit(i, c);
      }
      if Window(b, i * 32 + shift, n) {
        forall c | shift <= c < shift + n ensures !b[i][c] {
          assert !Used(b, i * 32 + c);
        }
      }
    }

    lemma NoWindowInWord(b: Bitmap, i: nat, n: nat)
      requires i < WORDS && 1 <= n <= 32
      requires b[i] == FULL || forall q :: 0 <= q < i * 32 + (33 - n) ==> !Window(b, q, n)
      requires forall q :: 0 <= q < i * 32 ==> !Window(b, q, n)
      ensures forall q :: 0 <= q < (i + 1) * 32 ==> !Window(b, q, n)
    {
      forall q | i * 32 <= q < (i + 1) * 32 ensures !Window(b, q, n) {
        var shift := q - i * 32;
        assert q % 32 == shift && q / 32 == i;
        if shift + n <= 32 && b[i] == FULL { assert Used(b, q); }
      }
    }

    /** pm_free: the bit of the page that the address lies in, whatever the address. */
    method Free(addr: U32)
      requires Valid()
      modifies bitmap
      ensures Removes(old(Pages()), Pages(), PageOf(pool, addr))
    {
      var aligned := addr - addr % PAGE_SIZE;
      var idx := Sub32(aligned, pool) / PAGE_SIZE / 32;
      var bit := Sub32(aligned, pool) / PAGE_SIZE % 32;
      ghost var b := Pages();
      var word := And(bitmap[idx], Not(Shl(ONE, bit)));
      bitmap[idx] := word;
      assert Pages() == b[idx := word];
    }
  }
}
