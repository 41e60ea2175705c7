/** Sequence numbers modulo 32768 and the comparison the library makes between them. */
module Sequence {
  const MAX_SEQUENCE := 32768
  const HALF_MAX_SEQUENCE := 16384
  const WINDOW_SIZE := 64

  type uint16 = x: int | 0 <= x < 0x1_0000

  // The remainder of C++: it takes the sign of the dividend.
  function TruncatedRemainder(a: int, b: int): int
    requires b > 0
  {
    if a >= 0 then a % b else -((-a) % b)
  }

  function Relative(number: int, expected: int): int {
    TruncatedRemainder(number - expected + MAX_SEQUENCE + HALF_MAX_SEQUENCE, MAX_SEQUENCE) - HALF_MAX_SEQUENCE
  }

  function Wrap(n: int): (r: int)
    ensures 0 <= r < MAX_SEQUENCE
  {
    n % MAX_SEQUENCE
  }

  /** The unbounded number that a wrapped one stands for, read close to `reference`. */
  function Unwrap(wrapped: int, reference: int): int {
    reference + Relative(wrapped, Wrap(reference))
  }

  /** The comparison is exact whenever the true distance is below half the sequence space. */
  lemma RelativeOfWrapped(a: int, b: int)
    requires -HALF_MAX_SEQUENCE <= a - b < HALF_MAX_SEQUENCE
    ensures Relative(Wrap(a), Wrap(b)) == a - b
  {
    var qa, qb := a / MAX_SEQUENCE, b / MAX_SEQUENCE;
    assert Wrap(a) - Wrap(b) == (a - b) - MAX_SEQUENCE * (qa - qb);
    assert -1 <= qa - qb <= 1;
  }

  /** Whatever arrives, it is read as the one congruent number in [reference - 16384, reference + 16384). */
  lemma UnwrapIsCongruent(wrapped: int, reference: int)
    requires 0 <= wrapped < MAX_SEQUENCE
    ensures Wrap(Unwrap(wrapped, reference)) == wrapped
    ensures -HALF_MAX_SEQUENCE <= Unwrap(wrapped, reference) - reference < HALF_MAX_SEQUENCE
  {
    var d := wrapped - Wrap(reference) + MAX_SEQUENCE + HALF_MAX_SEQUENCE;
    assert Unwrap(wrapped, reference) == wrapped + MAX_SEQUENCE * (reference / MAX_SEQUENCE + 1 - d / MAX_SEQUENCE);
  }

  lemma UnwrapOfWrapped(n: int, reference: int)
    requires -HALF_MAX_SEQUENCE <= n - reference < HALF_MAX_SEQUENCE
    ensures Unwrap(Wrap(n), reference) == n
  {
    RelativeOfWrapped(n, reference);
  }

  /** 64 divides 32768, so the slot of a wrapped number is the slot of the number it stands for. */
  lemma SlotOfWrapped(n: int)
    ensures Wrap(n) % WINDOW_SIZE == n % WINDOW_SIZE
  {
    assert n == Wrap(n) + WINDOW_SIZE * (512 * (n / MAX_SEQUENCE));
  }

  lemma WrapIsPeriodic(n: int)
    ensures Wrap(n - MAX_SEQUENCE) == Wrap(n) == Wrap(n + MAX_SEQUENCE)
  {}

  lemma WrapSuccessor(n: int)
    ensures (Wrap(n) + 1) % MAX_SEQUENCE == Wrap(n + 1)
  {}

  lemma WrapSum(n: int, d: int)
    ensures (Wrap(n) + d) % MAX_SEQUENCE == Wrap(n + d)
  {
    assert n + d == Wrap(n) + d + MAX_SEQUENCE * (n / MAX_SEQUENCE);
  }

  /** Numbers less than a window apart never share a slot. */
  lemma SlotsAreDistinct(m: int, n: int)
    requires -WINDOW_SIZE < m - n < WINDOW_SIZE && m != n
    ensures m % WINDOW_SIZE != n % WINDOW_SIZE
  {}

  function UpTo(n: int): (s: set<int>)
    ensures forall i :: i in s <==> 0 <= i < n
  {
    if n <= 0 then {} else UpTo(n - 1) + {n - 1}
  }
}
