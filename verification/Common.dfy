// Shapes shared by the kernel models: optional values, bytes and little-endian 32-bit words.
module Common {
  datatype Option<+T> = None | Some(value: T)

  /** Every address and every unsigned of the i386 target lies below this bound. */
  const WORD_SPAN: nat := 0x1_0000_0000

  type Byte = b: nat | b < 256

  type U32 = w: nat | w < WORD_SPAN

  const PAGE_SIZE: nat := 4096

  /** Unsigned subtraction. */
  function Sub32(a: U32, b: U32): (d: U32)
    ensures b <= a ==> d == a - b
  {
    (a - b) % WORD_SPAN
  }

  /** The four bytes of a word in memory, lowest byte first. */
  function Le32(w: U32): (bs: seq<Byte>)
    ensures |bs| == 4
  {
    [w % 256, w / 0x100 % 256, w / 0x1_0000 % 256, w / 0x100_0000]
  }

  function FromLe32(bs: seq<Byte>): (w: U32)
    requires |bs| == 4
  {
    (bs[0] as int) + 0x100 * (bs[1] as int) + 0x1_0000 * (bs[2] as int) + 0x100_0000 * (bs[3] as int)
  }

  lemma Le32RoundTrip(w: U32)
    ensures FromLe32(Le32(w)) == w
  {
    assert w / 0x100 == w / 0x1_0000 * 0x100 + w / 0x100 % 0x100;
    assert w / 0x1_0000 == w / 0x100_0000 * 0x100 + w / 0x1_0000 % 0x100;
  }

  lemma FromLe32RoundTrip(bs: seq<Byte>)
    requires |bs| == 4
    ensures Le32(FromLe32(bs)) == bs
  {
    var w := FromLe32(bs);
    var w1: nat := bs[1] as int + 0x100 * (bs[2] as int) + 0x1_0000 * (bs[3] as int);
    var w2: nat := bs[2] as int + 0x100 * (bs[3] as int);
    LowestDigit(bs[0], w1);
    LowestDigit(bs[1], w2);
    LowestDigit(bs[2], bs[3]);
    assert w / 0x1_0000 == w / 0x100 / 0x100 && w / 0x100_0000 == w / 0x100 / 0x100 / 0x100;
  }

  lemma LowestDigit(d: Byte, rest: nat)
    ensures (d as int + 0x100 * rest) % 0x100 == d && (d as int + 0x100 * rest) / 0x100 == rest
  {}

  /** 32-bit arithmetic on page numbers and offsets: the offset stays, the number wraps. */
  lemma PageWraps(k: int, r: nat)
    requires r < 4096
    ensures (k * 4096 + r) % WORD_SPAN == k % 0x10_0000 * 4096 + r
  {
    assert k * 4096 + r == k / 0x10_0000 * WORD_SPAN + (k % 0x10_0000 * 4096 + r);
  }

  /** The naturals below n. */
  function Below(n: nat): (b: set<nat>)
    ensures forall x: nat :: x in b <==> x < n
    ensures |b| == n
  {
    if n == 0 then {} else Below(n - 1) + {n - 1}
  }

  /** A sequence of distinct naturals below n has at most n of them. */
  lemma {:induction false} DistinctBelow(path: seq<nat>, n: nat)
    requires forall i :: 0 <= i < |path| ==> path[i] < n
    requires forall i, j :: 0 <= i < j < |path| ==> path[i] != path[j]
    ensures |path| <= n
  {
    DistinctSize(path);
    SubsetSize(Members(path), Below(n));
  }

  function Members(s: seq<nat>): (m: set<nat>)
    ensures forall x: nat :: x in m <==> x in s
  {
    if s == [] then {} else Members(s[..|s| - 1]) + {s[|s| - 1]}
  }

  lemma {:induction false} DistinctSize(path: seq<nat>)
    requires forall i, j :: 0 <= i < j < |path| ==> path[i] != path[j]
    ensures |Members(path)| == |path|
  {
    if path != [] {
      DistinctSize(path[..|path| - 1]);
      assert path[|path| - 1] !in path[..|path| - 1];
    }
  }

  lemma {:induction false} SubsetSize<T>(a: set<T>, b: set<T>)
    requires a <= b
    ensures |a| <= |b|
  {
    if a != {} {
      var x :| x in a;
      SubsetSize(a - {x}, b - {x});
    }
  }
}
