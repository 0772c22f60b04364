/** The 12-bit sequence numbers of IEEE 802.11 and the kernel's arithmetic on them. */
module SequenceNumbers {

  const MODULO: nat := 4096

  type Sn = n: nat | n < MODULO

  /** The number that goes out in a header for an unwrapped position. */
  function Wrap(u: int): Sn {
    u % MODULO
  }

  /** `ieee80211_sn_less`: a precedes b when b is less than half the number space ahead. */
  predicate Less(a: int, b: int) {
    (a - b) % MODULO > MODULO / 2
  }

  function Add(a: int, b: int): Sn {
    (a + b) % MODULO
  }

  function Inc(a: int): Sn {
    Add(a, 1)
  }

  function Sub(a: int, b: int): Sn {
    (a - b) % MODULO
  }

  /** On positions less than half the number space apart the wrapped comparison is the real one. */
  lemma LessIsUnwrappedLess(u: int, v: int)
    requires -(MODULO / 2) < u - v <= MODULO / 2
    ensures Less(Wrap(u), Wrap(v)) <==> u < v
  {
    assert (u % MODULO - v % MODULO) % MODULO == (u - v) % MODULO;
  }

  lemma WrapAdd(u: int, n: int)
    ensures Add(Wrap(u), n) == Wrap(u + n)
  {
  }

  /** Differences of wrapped numbers are wrapped differences. */
  lemma WrapDifference(u: int, v: int, n: int)
    ensures (Wrap(u) - Wrap(v) - n) % MODULO == Wrap(u - v - n)
  {
    var a, b := u / MODULO, v / MODULO;
    assert Wrap(u) - Wrap(v) - n == u - v - n - MODULO * (a - b);
    WrapMultiple(u - v - n, b - a);
  }

  lemma WrapMultiple(u: int, k: int)
    ensures Wrap(u + MODULO * k) == Wrap(u)
  {
  }

  lemma WrapInjective(u: int, v: int)
    requires u <= v < u + MODULO && Wrap(u) == Wrap(v)
    ensures u == v
  {
  }
}
