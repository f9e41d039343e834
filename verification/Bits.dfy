// 32-bit words as their bits, lowest first, with the bitwise operators of C.
module Bits {
  type Word = w: seq<bool> | |w| == 32 witness seq(32, i => false)

  const ZERO: Word := seq(32, i => false)
  const FULL: Word := seq(32, i => true)
  const ONE: Word := [true] + seq(31, i => false)

  function And(a: Word, b: Word): (w: Word)
    ensures forall c :: 0 <= c < 32 ==> w[c] == (a[c] && b[c])
  {
    seq(32, c requires 0 <= c < 32 => a[c] && b[c])
  }

  function Or(a: Word, b: Word): (w: Word)
    ensures forall c :: 0 <= c < 32 ==> w[c] == (a[c] || b[c])
  {
    seq(32, c requires 0 <= c < 32 => a[c] || b[c])
  }

  function Not(a: Word): (w: Word)
    ensures forall c :: 0 <= c < 32 ==> w[c] == !a[c]
  {
    seq(32, c requires 0 <= c < 32 => !a[c])
  }

  /** a << k; C leaves shifts by 32 and more undefined. */
  function Shl(a: Word, k: nat): (w: Word)
    requires k < 32
    ensures forall c :: 0 <= c < 32 ==> w[c] == (k <= c && a[c - k])
  {
    seq(32, c requires 0 <= c < 32 => k <= c && a[c - k])
  }

  /** a >> k */
  function Shr(a: Word, k: nat): (w: Word)
    requires k < 32
    ensures forall c :: 0 <= c < 32 ==> w[c] == (c + k < 32 && a[c + k])
  {
    seq(32, c requires 0 <= c < 32 => c + k < 32 && a[c + k])
  }

  /** The n bits from bit `shift` on are clear exactly if masking them gives zero. */
  lemma MaskedClear(w: Word, mask: Word, n: nat, shift: nat)
    requires 0 < n && shift + n <= 32
    requires forall c :: 0 <= c < 32 ==> mask[c] == (shift <= c < shift + n)
    ensures And(w, mask) == ZERO <==> forall c :: shift <= c < shift + n ==> !w[c]
  {
    var x := And(w, mask);
    if x == ZERO {
      forall c | shift <= c < shift + n ensures !w[c] { assert !x[c]; }
    }
  }

  /** A word that is not all ones has a zero bit. */
  lemma ZeroBit(w: Word) returns (b: nat)
    requires w != FULL
    ensures b < 32 && !w[b]
  {
    b :| b < 32 && !w[b];
  }
}

// The low twelve bits of a table entry, as a number and back.
module LowBits {
  lemma Doubled(b: bv12)
    requires b as int < 0x800
    ensures (b << 1) as int == 2 * (b as int) && ((b << 1) | 1) as int == 2 * (b as int) + 1
  {}

  lemma Bounded(b: bv12)
    ensures 0 <= b as int < 4096
  {}

  function FromNumber(n: nat): (b: bv12)
    requires n < 4096
    ensures b as int == n
  {
    if n == 0 then 0
    else
      var half := FromNumber(n / 2);
      Doubled(half);
      if n % 2 == 0 then half << 1 else (half << 1) | 1
  }
}
