// The first-fit kernel heap of kernel/heap.c, for one request size.
module HeapSpec {
  import opened Common

  const POOL: nat := 0xe400_0000
  const POOL_SIZE: nat := 16384
  /** sizeof(struct block). */
  const HEADER: nat := 12

  /** Where the k-th block starts when every payload has n bytes. */
  function BlockAt(n: nat, k: nat): (addr: nat)
    ensures addr >= POOL
  {
    if k == 0 then POOL else BlockAt(n, k - 1) + HEADER + n
  }

  /** Whether k allocated blocks, and the header of the unused block behind them,
      lie inside the pool. */
  predicate Fits(n: nat, k: nat) {
    BlockAt(n, k) + HEADER <= POOL + POOL_SIZE
  }

  /** The heap as its callers see it: for each block but the last, whether it is in use. */
  type Usage = seq<bool>

  function FirstFree(u: Usage): (i: nat)
    ensures i <= |u|
    ensures forall j :: 0 <= j < i ==> u[j]
    ensures i < |u| ==> !u[i]
  {
    if u == [] || !u[0] then 0 else 1 + FirstFree(u[1..])
  }

  /** The block kalloc takes: the first one free, or else one cut off the unused tail. */
  function Take(u: Usage): (u': Usage)
    ensures FirstFree(u) < |u'| && u'[FirstFree(u)]
    ensures forall j :: 0 <= j < |u'| && j != FirstFree(u) ==> j < |u| && u'[j] == u[j]
  {
    var i := FirstFree(u);
    if i < |u| then u[i := true] else u + [true]
  }

  function Live(u: Usage): (c: nat)
    ensures c <= |u|
  {
    if u == [] then 0 else Live(u[..|u| - 1]) + (if u[|u| - 1] then 1 else 0)
  }

  lemma {:induction false} LiveUpdate(u: Usage, i: nat, b: bool)
    requires i < |u|
    ensures Live(u[i := b]) == Live(u) - (if u[i] then 1 else 0) + (if b then 1 else 0)
  {
    var last := |u| - 1;
    if i == last {
      assert u[i := b][..last] == u[..last];
    } else {
      assert u[i := b][..last] == u[..last][i := b];
      LiveUpdate(u[..last], i, b);
    }
  }

  lemma {:induction false} AllLive(u: Usage)
    requires forall j :: 0 <= j < |u| ==> u[j]
    ensures Live(u) == |u|
  {
    if u != [] { AllLive(u[..|u| - 1]); }
  }

  lemma TakeCounts(u: Usage)
    ensures Live(Take(u)) == Live(u) + 1
    ensures |Take(u)| == if Live(u) == |u| then |u| + 1 else |u|
  {
    var i := FirstFree(u);
    if i < |u| {
      LiveUpdate(u, i, true);
    } else {
      AllLive(u);
      assert (u + [true])[..|u|] == u;
    }
  }

  // ----- geometry -----

  lemma {:induction false} BlockAtIsLinear(n: nat, k: nat)
    ensures BlockAt(n, k) == POOL + k * (HEADER + n)
  {
    if k > 0 {
      BlockAtIsLinear(n, k - 1);
      assert k * (HEADER + n) == (k - 1) * (HEADER + n) + (HEADER + n);
    }
  }

  /** The blocks tile the pool: block i's payload ends where block i+1's header starts,
      and later blocks start no earlier. */
  lemma {:induction false} BlocksTile(n: nat, i: nat, j: nat)
    requires i < j
    ensures BlockAt(n, i) + HEADER + n == BlockAt(n, i + 1) <= BlockAt(n, j)
  {
    if i + 1 < j { BlocksTile(n, i, j - 1); }
  }

  /** With k blocks cut off a pool they fit in, each payload lies inside the pool, in
      front of the last header, and apart from every other payload and header. */
  lemma PayloadsDisjoint(n: nat, k: nat, i: nat, j: nat)
    requires Fits(n, k) && i < k && j <= k && i != j
    ensures POOL <= BlockAt(n, i) + HEADER && BlockAt(n, i) + HEADER + n <= BlockAt(n, k)
    ensures BlockAt(n, k) + HEADER <= POOL + POOL_SIZE
    ensures BlockAt(n, i) + HEADER + n <= BlockAt(n, j) || BlockAt(n, j) + HEADER + n <= BlockAt(n, i)
  {
    BlocksTile(n, i, k);
    if i < j { BlocksTile(n, i, j); } else { BlocksTile(n, j, i); }
  }

  /** data_size of the unused tail behind k blocks: the first block is recorded as
      spanning the pool less 8 bytes, although its own header takes 12. */
  function TailSize(n: nat, k: nat): int {
    POOL + POOL_SIZE - (HEADER - 4) - BlockAt(n, k)
  }

  /** kalloc's test for cutting a block off the tail behind k blocks. */
  predicate TailAccepted(n: nat, k: nat) {
    TailSize(n, k) + HEADER >= n
  }

  /** The test is too weak by 28 bytes: it rules out every header written past the pool
      except when the new tail's header would end 1 to 28 bytes behind the pool. */
  lemma TailTestUnsound(n: nat, k: nat)
    requires Fits(n, k)
    ensures Fits(n, k + 1) ==> TailAccepted(n, k)
    ensures (TailAccepted(n, k) ==> Fits(n, k + 1))
            <==> !(0 < BlockAt(n, k + 1) + HEADER - (POOL + POOL_SIZE) <= 28)
  {}

  /** A concrete case: with 314 messages of 40 bytes allocated, the 315th kalloc is
      accepted and writes a header 8 bytes past the end of the pool. */
  lemma TailTestUnsoundCase()
    ensures Fits(40, 314) && TailAccepted(40, 314)
    ensures BlockAt(40, 315) + HEADER == POOL + POOL_SIZE + 8
  {
    BlockAtIsLinear(40, 314);
  }

  // ----- whole runs -----

  datatype Op = Kalloc | Kfree(block: nat)

  /** A free names a block that is in use. */
  predicate Legal(u: Usage, op: Op) {
    op.Kfree? ==> op.block < |u| && u[op.block]
  }

  /** One operation. A request that finds no free block and that the tail test refuses is
      answered with null. (What follows an overrun of the pool has no meaning for the kernel;
      StaysInside is false from there on.) */
  function Apply(n: nat, u: Usage, op: Op): Usage
    requires Legal(u, op)
  {
    match op
    case Kalloc => if FirstFree(u) == |u| && !TailAccepted(n, |u|) then u else Take(u)
    case Kfree(i) => u[i := false]
  }

  /** The heap after a run of operations, or None if one of them is not legal. */
  function Replay(n: nat, ops: seq<Op>): Option<Usage> {
    if ops == [] then Some([])
    else
      var last := |ops| - 1;
      match Replay(n, ops[..last])
      case None => None
      case Some(v) => if Legal(v, ops[last]) then Some(Apply(n, v, ops[last])) else None
  }

  function Max(a: nat, b: nat): nat { if a < b then b else a }

  /** The largest number of blocks that were in use at the same time in a run. */
  function Peak(n: nat, ops: seq<Op>): nat
    requires Replay(n, ops).Some?
  {
    var now := Live(Replay(n, ops).value);
    if ops == [] then now else Max(Peak(n, ops[..|ops| - 1]), now)
  }

  /** From an empty heap, the pool is only ever cut into as many blocks as were once
      in use together: blocks are reused, never split or merged. */
  lemma {:induction false} BlocksArePeak(n: nat, ops: seq<Op>)
    requires Replay(n, ops).Some?
    ensures |Replay(n, ops).value| == Peak(n, ops)
  {
    if ops != [] {
      var before, op := ops[..|ops| - 1], ops[|ops| - 1];
      BlocksArePeak(n, before);
      var u := Replay(n, before).value;
      if op.Kalloc? {
        TakeCounts(u);
      } else {
        LiveUpdate(u, op.block, false);
      }
    }
  }

  /** At no point of a run does the heap need more than the pool has. */
  ghost predicate StaysInside(n: nat, ops: seq<Op>)
    requires Replay(n, ops).Some?
  {
    Fits(n, |Replay(n, ops).value|) && (ops == [] || StaysInside(n, ops[..|ops| - 1]))
  }

  /** A run stays inside the pool if and only if as many blocks fit as were ever in use
      together. */
  lemma {:induction false} StaysInsideIff(n: nat, ops: seq<Op>)
    requires Replay(n, ops).Some?
    ensures StaysInside(n, ops) <==> Fits(n, Peak(n, ops))
  {
    BlocksArePeak(n, ops);
    if ops != [] {
      var before := ops[..|ops| - 1];
      BlocksArePeak(n, before);
      StaysInsideIff(n, before);
      PeakFits(n, Peak(n, before), Peak(n, ops));
    }
  }

  lemma PeakFits(n: nat, k: nat, k': nat)
    requires k <= k'
    ensures Fits(n, k') ==> Fits(n, k)
  {
    if k < k' { BlocksTile(n, k, k'); }
  }

  /** For the kernel's 40-byte requests: if and only if there were never more than 314. */
  lemma MessagesStayInsideIff(ops: seq<Op>)
    requires Replay(40, ops).Some?
    ensures StaysInside(40, ops) <==> Peak(40, ops) <= 314
  {
    StaysInsideIff(40, ops);
    BlockAtIsLinear(40, Peak(40, ops));
  }

  // ----- which sizes are safe -----

  /** The tail test never lets a block through that does not fit. */
  ghost predicate TestIsSafe(n: nat) {
    forall k: nat :: Fits(n, k) && TailAccepted(n, k) ==> Fits(n, k + 1)
  }

  ghost predicate AllRunsStayInside(n: nat) {
    forall ops: seq<Op> :: Replay(n, ops).Some? ==> StaysInside(n, ops)
  }

  /** What is left of the pool behind as many blocks as fit. */
  function Rest(n: nat): nat {
    (POOL_SIZE - HEADER) % (HEADER + n)
  }

  /** For requests of n bytes, every run of requests and legal frees stays inside the pool if
      and only if more than 28 bytes are missing for one block more than fits. For 40 bytes it
      is 8, so the kernel's own heap is not safe, but for the number of its processes. */
  lemma AllRunsStayInsideIff(n: nat)
    requires 0 < n
    ensures AllRunsStayInside(n) <==> HEADER + n - Rest(n) > 28
  {
    SafeSizeIff(n);
    if TestIsSafe(n) {
      forall ops: seq<Op> | Replay(n, ops).Some? ensures StaysInside(n, ops) { SafeRun(n, ops); }
    } else {
      var k: nat :| Fits(n, k) && TailAccepted(n, k) && !Fits(n, k + 1);
      var before := Requests(n, k);
      var ops := before + [Kalloc];
      assert ops[..|before|] == before;
      AllLiveFree(AllInUse(k));
      assert |Replay(n, ops).value| == k + 1;
      assert !StaysInside(n, ops);
    }
  }

  lemma {:induction false} SafeRun(n: nat, ops: seq<Op>)
    requires TestIsSafe(n) && Replay(n, ops).Some?
    ensures StaysInside(n, ops)
  {
    if ops != [] {
      var before := ops[..|ops| - 1];
      SafeRun(n, before);
      assert Fits(n, |Replay(n, before).value|);
    }
  }

  lemma AllLiveFree(u: Usage)
    requires forall j :: 0 <= j < |u| ==> u[j]
    ensures FirstFree(u) == |u| && Take(u) == u + [true]
  {}

  /** While blocks fit, requests are served one after the other. */
  lemma {:induction false} Requests(n: nat, k: nat) returns (ops: seq<Op>)
    requires Fits(n, k)
    ensures Replay(n, ops) == Some(AllInUse(k))
  {
    if k == 0 {
      ops := [];
    } else {
      PeakFits(n, k - 1, k);
      var before := Requests(n, k - 1);
      OneMore(n, k - 1, before);
      ops := before + [Kalloc];
    }
  }

  lemma OneMore(n: nat, k: nat, ops: seq<Op>)
    requires Fits(n, k) && Fits(n, k + 1) && Replay(n, ops) == Some(AllInUse(k))
    ensures Replay(n, ops + [Kalloc]) == Some(AllInUse(k + 1))
  {
    TailTestUnsound(n, k);
    AllLiveFree(AllInUse(k));
    assert (ops + [Kalloc])[..|ops|] == ops;
  }

  function AllInUse(k: nat): (u: Usage)
    ensures |u| == k && forall j :: 0 <= j < k ==> u[j]
  {
    if k == 0 then [] else AllInUse(k - 1) + [true]
  }

  /** The blocks that fit fill the pool up to a rest. */
  lemma SafeSizeIff(n: nat)
    requires 0 < n
    ensures TestIsSafe(n) <==> HEADER + n - Rest(n) > 28
  {
    var size, room := HEADER + n, POOL_SIZE - HEADER;
    var most := room / size;
    assert room == most * size + Rest(n);
    FitsCount(n, most);
    FitsCount(n, most + 1);
    assert (most + 1) * size == most * size + size;
    assert Fits(n, most) && !Fits(n, most + 1);
    TailTestUnsound(n, most);
    BlockAtIsLinear(n, most + 1);
    if HEADER + n - Rest(n) > 28 {
      forall k: nat | Fits(n, k) && TailAccepted(n, k) ensures Fits(n, k + 1) {
        if k < most { PeakFits(n, k + 1, most); } else if k > most { PeakFits(n, most + 1, k); }
      }
    }
  }

  lemma FitsCount(n: nat, k: nat)
    ensures Fits(n, k) <==> k * (HEADER + n) <= POOL_SIZE - HEADER
  {
    BlockAtIsLinear(n, k);
  }
}

module KernelHeap {
  import opened Common
  import opened HeapSpec

  const BLOCK_UNUSED: Byte := 0x00
  const BLOCK_USED: Byte := 0xff
  const MAGIC: nat := 0xbabe

  /** struct block: the header in front of each payload. */
  datatype Block = Block(magic: nat, kind: Byte, next: nat, dataSize: U32)

  const NULL: nat := 0

  /** The headers that a heap with this usage keeps in the pool, by their addresses. */
  ghost predicate Laid(blocks: map<nat, Block>, n: nat, usage: Usage) {
    && Fits(n, |usage|)
    && (forall i :: 0 <= i < |usage| ==>
          && BlockAt(n, i) in blocks
          && blocks[BlockAt(n, i)]
             == Block(MAGIC, if usage[i] then BLOCK_USED else BLOCK_UNUSED, BlockAt(n, i + 1), n))
    && BlockAt(n, |usage|) in blocks
    && blocks[BlockAt(n, |usage|)] == Block(MAGIC, BLOCK_UNUSED, NULL, TailSize(n, |usage|))
  }

  lemma BlocksApart(n: nat)
    ensures forall i: nat, j: nat :: i < j ==> BlockAt(n, i) < BlockAt(n, j)
  {
    forall i: nat, j: nat | i < j ensures BlockAt(n, i) < BlockAt(n, j) { BlocksTile(n, i, j); }
  }

  /** Changing the mark of one block. */
  lemma LaidMark(blocks: map<nat, Block>, n: nat, usage: Usage, i: nat, b: bool)
    requires Laid(blocks, n, usage) && i < |usage|
    ensures Laid(blocks[BlockAt(n, i) := Block(MAGIC, if b then BLOCK_USED else BLOCK_UNUSED, BlockAt(n, i + 1), n)],
                 n, usage[i := b])
  {
    BlocksApart(n);
  }

  /** Cutting one more block off the tail. */
  lemma LaidCut(blocks: map<nat, Block>, n: nat, usage: Usage)
    requires Laid(blocks, n, usage) && Fits(n, |usage| + 1)
    ensures var k := |usage|;
      Laid(blocks[BlockAt(n, k + 1) := Block(MAGIC, BLOCK_UNUSED, NULL, TailSize(n, k + 1))]
                 [BlockAt(n, k) := Block(MAGIC, BLOCK_USED, BlockAt(n, k + 1), n)], n, usage + [true])
  {
    BlocksApart(n);
  }

  function Used(n: nat, i: nat): Block
    requires n < WORD_SPAN
  {
    Block(MAGIC, BLOCK_USED, BlockAt(n, i + 1), n)
  }

  /** The tail behind k blocks becomes a block in use, and what follows it the new tail. */
  function CutOff(blocks: map<nat, Block>, n: nat, k: nat): map<nat, Block>
    requires n < WORD_SPAN && Fits(n, k)
  {
    blocks[BlockAt(n, k + 1) := Block(MAGIC, BLOCK_UNUSED, NULL, (TailSize(n, k) - n - HEADER) % WORD_SPAN)]
          [BlockAt(n, k) := Used(n, k)]
  }

  /** The request for which the tail test fails. */
  predicate Overruns(n: nat, usage: Usage) {
    FirstFree(usage) == |usage| && TailAccepted(n, |usage|) && !Fits(n, |usage| + 1)
  }

  lemma OccupyLays(blocks: map<nat, Block>, n: nat, usage: Usage, i: nat)
    requires n < WORD_SPAN && Laid(blocks, n, usage) && i == FirstFree(usage)
    requires i == |usage| ==> Fits(n, i + 1)
    ensures Laid(if i < |usage| then blocks[BlockAt(n, i) := Used(n, i)] else CutOff(blocks, n, i), n, Take(usage))
  {
    if i < |usage| {
      LaidMark(blocks, n, usage, i, true);
    } else {
      LaidCut(blocks, n, usage);
    }
  }

  class Heap {
    var initialized: bool
    /** The block headers in the pool, by address. */
    var blocks: map<nat, Block>
    /** The one size the kernel requests. */
    ghost const n: U32
    ghost var usage: Usage

    ghost predicate Valid()
      reads this
    {
      && 0 < n
      && (initialized ==> Laid(blocks, n, usage))
      && (!initialized ==> usage == [])
    }

    constructor (ghost n: U32)
      requires 0 < n
      ensures Valid() && !initialized && this.n == n && usage == []
    {
      initialized := false;
      blocks := map[];
      this.n := n;
      usage := [];
    }

    /** heap_init, after the pool has been mapped. */
    method Init()
      requires Valid()
      modifies this
      ensures Valid() && initialized && usage == []
      ensures blocks == old(blocks)[POOL := Block(MAGIC, BLOCK_UNUSED, NULL, TailSize(n, 0))]
    {
      blocks := blocks[POOL := Block(MAGIC, BLOCK_UNUSED, NULL, POOL_SIZE - (HEADER - 4))];
      initialized := true;
      usage := [];
    }

    /** What kalloc does with the block that it has chosen: unless others follow, it cuts the
        rest off as the new tail, wherever that ends, and marks the block used. */
    method Occupy(block: nat, bytes: U32, ghost i: nat)
      requires bytes == n && Laid(blocks, n, usage) && i <= |usage| && block == BlockAt(n, i)
      requires i == |usage| ==> TailAccepted(n, i)
      modifies `blocks
      ensures blocks == if i < |usage| then old(blocks)[block := Used(n, i)] else CutOff(old(blocks), n, i)
    {
      ghost var laid := blocks;
      if blocks[block].next == NULL {
        var newBlock: nat := block + HEADER + bytes;
        blocks := blocks[newBlock := blocks[block]];
        blocks := blocks[newBlock := blocks[newBlock].(dataSize := Sub32(blocks[newBlock].dataSize, bytes + HEADER))];
        blocks := blocks[block := blocks[block].(next := newBlock)];
      }
      blocks := blocks[block := blocks[block].(dataSize := bytes)];
      blocks := blocks[block := blocks[block].(kind := BLOCK_USED)];
      if i < |usage| {
        assert blocks == laid[block := Used(n, i)];
      } else {
        BlocksTile(n, i, i + 1);
        assert blocks == CutOff(laid, n, i);
      }
    }

    /** kalloc: it takes the first free block, or cuts one off the tail, or reports that the
        pool is exhausted. Only where TailTestUnsound says so does it leave the pool: it then
        writes the new tail's header past the end, and returns a payload that does not fit. */
    method Kalloc(bytes: U32) returns (addr: nat)
      requires Valid() && (initialized && bytes != 0 ==> bytes == n)
      modifies this
      ensures initialized == old(initialized)
      ensures initialized && bytes != 0 && Overruns(n, old(usage)) ==>
        blocks == CutOff(old(blocks), n, |old(usage)|) && addr == BlockAt(n, |old(usage)|) + HEADER
      ensures !(initialized && bytes != 0 && Overruns(n, old(usage))) ==> Valid()
      ensures !initialized || bytes == 0 ==> addr == NULL && usage == old(usage) && blocks == old(blocks)
      ensures initialized && bytes != 0 && !Overruns(n, old(usage)) ==>
        var i := FirstFree(old(usage));
        if i < |old(usage)| || TailAccepted(n, |old(usage)|)
        then && usage == Take(old(usage)) && addr == BlockAt(n, i) + HEADER
             && blocks == if i < |old(usage)| then old(blocks)[BlockAt(n, i) := Used(n, i)]
                          else CutOff(old(blocks), n, i)
        else addr == NULL && usage == old(usage) && blocks == old(blocks)
    {
      if !initialized || bytes == 0 {
        return NULL;
      }
      var block: nat := POOL;
      ghost var i: nat := 0;
      while block != NULL
        invariant initialized && blocks == old(blocks) && usage == old(usage)
        invariant if block == NULL then i == |usage| + 1 else i <= |usage| && block == BlockAt(n, i)
        invariant forall j :: 0 <= j < i && j < |usage| ==> usage[j]
        invariant block == NULL ==> !TailAccepted(n, |usage|)
        decreases |usage| + 1 - i
      {
        assert i < |usage| ==>
          blocks[block] == Block(MAGIC, if usage[i] then BLOCK_USED else BLOCK_UNUSED, BlockAt(n, i + 1), n);
        if blocks[block].kind == BLOCK_UNUSED && blocks[block].dataSize + HEADER >= bytes {
          assert FirstFree(usage) == i;
          Occupy(block, bytes, i);
          if !Overruns(n, usage) {
            OccupyLays(old(blocks), n, usage, i);
            usage := Take(usage);
          }
          return block + HEADER;
        }
        block := blocks[block].next;
        i := i + 1;
      }
      return NULL;
    }

    /** kfree of a payload address that kalloc returned; freeing it twice does no harm. */
    method Kfree(addr: nat, ghost i: nat)
      requires Valid()
      requires initialized && addr != NULL ==>
        i < |usage| && addr == BlockAt(n, i) + HEADER
      modifies this
      ensures Valid() && initialized == old(initialized)
      ensures usage == if initialized && addr != NULL then old(usage)[i := false] else old(usage)
      ensures blocks == if initialized && addr != NULL
                        then old(blocks)[addr - HEADER := Block(MAGIC, BLOCK_UNUSED, BlockAt(n, i + 1), n)]
                        else old(blocks)
    {
      if !initialized || addr == NULL {
        return;
      }
      LaidMark(blocks, n, usage, i, false);
      var block := addr - HEADER;
      blocks := blocks[block := blocks[block].(kind := BLOCK_UNUSED)];
      usage := usage[i := false];
    }
  }
}
