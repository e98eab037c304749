/** Fixed-width machine integers. The firmware's counters are 32-bit and wrap; the
    backend's bitwise operators act on signed 32-bit numbers, its versions are safe
    integers. */
module Words {
  const WORD: int := 0x1_0000_0000
  const HALF: int := 0x8000_0000

  /** The largest integer a JavaScript number holds exactly with all below it. */
  const MAX_SAFE_INTEGER: int := 9_007_199_254_740_991

  type uint32 = x: int | 0 <= x < 0x1_0000_0000

  /** Truncation to an unsigned 32-bit word. */
  function U32(x: int): (w: uint32)
  {
    x % WORD
  }

  /** Truncation to a signed 32-bit word (two's complement). */
  function S32(x: int): int
  {
    var w := x % WORD;
    if w < HALF then w else w - WORD
  }

  /** The next value of a wrapping counter that keeps 0 for "none". */
  function NextNonZero(n: uint32): (next: uint32)
    ensures next != 0
  {
    var next := U32(n + 1);
    if next == 0 then 1 else next
  }

  /** An unsigned difference recovers the true elapsed count below one wrap. */
  lemma ElapsedBelowWrap(earlier: int, later: int)
    requires earlier <= later < earlier + WORD
    ensures U32(U32(later) - U32(earlier)) == later - earlier
  {
  }

  // ------------------------------------------- products and ring positions

  lemma MultiplyMonotone(a: int, b: int, c: nat)
    requires a <= b
    ensures a * c <= b * c
  {
  }

  lemma Distribute(q: nat, m: nat)
    ensures (q + 1) * m == q * m + m
  {
  }

  lemma QuotientOf(q: nat, r: nat, m: nat)
    requires r < m
    ensures (q * m + r) / m == q && (q * m + r) % m == r
  {
    var x := q * m + r;
    assert x == (x / m) * m + x % m;
    if x / m > q {
      MultiplyMonotone(q + 1, x / m, m);
    } else if x / m < q {
      MultiplyMonotone(x / m + 1, q, m);
    }
  }

  lemma RingWraps(head: nat, offset: nat, size: nat)
    requires head < size && offset <= size
    ensures (head + offset) % size == if head + offset < size then head + offset else head + offset - size
  {
  }

  /** Position `offset` slots after `head` on a ring of `size` slots. */
  function RingPosition(head: nat, offset: nat, size: nat): (p: nat)
    requires head < size && offset <= size
    ensures p == if head + offset < size then head + offset else head + offset - size
  {
    RingWraps(head, offset, size);
    (head + offset) % size
  }
}
