/**
Narrowing 32-bit floats to 16 bits, on bit patterns: a sign bit, then a magnitude whose
order is the order of the numbers.
*/
module Bf16 {

  const BITS: nat := 0x1_0000_0000
  const SIGN: nat := 0x8000_0000
  const HALF: nat := 0x8000
  const LOW: nat := 0x1_0000
  const INFINITE: nat := 0x7F80_0000

  function Bias(bits: nat): nat {
    0x7FFF + bits / LOW % 2
  }

  /** Adds the bias, wrapping at 32 bits, and keeps the high half. */
  function Narrowed(bits: nat): (r: nat)
    requires bits < BITS
    ensures r < LOW
  {
    (bits + Bias(bits)) % BITS / LOW
  }

  function Widened(narrow: nat): (bits: nat)
    requires narrow < LOW
    ensures bits < BITS
  {
    narrow * LOW
  }

  function Magnitude(bits: nat): nat { bits % SIGN }

  /** Widening loses nothing. */
  lemma {:induction false} WidenedNarrows(narrow: nat)
    requires narrow < LOW
    ensures Narrowed(Widened(narrow)) == narrow
  {
  }

  ghost predicate Nearest(bits: nat, narrow: nat) {
    var wide := narrow * LOW;
    && wide <= bits + HALF && bits <= wide + HALF
    && (wide == bits + HALF || bits == wide + HALF ==> narrow % 2 == 0)
  }

  /** Without a wrap the result is the nearest pattern, and the even one on a tie. */
  lemma {:induction false} NarrowedIsNearest(bits: nat)
    requires bits + Bias(bits) < BITS
    ensures Nearest(bits, Narrowed(bits))
  {
    var high, low := bits / LOW, bits % LOW;
    assert bits == high * LOW + low;
    if low + Bias(bits) < LOW {
      assert (bits + Bias(bits)) / LOW == high;
    } else {
      assert (bits + Bias(bits)) / LOW == high + 1;
    }
  }

  /** Finite numbers and infinities keep their sign, and round to nearest even; the
      largest finite ones may round to infinity and no further. */
  lemma {:induction false} FiniteRounds(bits: nat)
    requires bits < BITS && Magnitude(bits) <= INFINITE
    ensures Nearest(bits, Narrowed(bits))
    ensures Narrowed(bits) / HALF == bits / SIGN && Narrowed(bits) % HALF <= INFINITE / LOW
  {
    NarrowedIsNearest(bits);
  }

  /** Rounding keeps the order of magnitudes. */
  lemma {:induction false} NarrowedRises(a: nat, b: nat)
    requires a <= b < BITS && Magnitude(a) <= INFINITE && Magnitude(b) <= INFINITE
    ensures Narrowed(a) <= Narrowed(b)
  {
    NarrowedIsNearest(a);
    NarrowedIsNearest(b);
  }

  ghost predicate IsNan(bits: nat) {
    Magnitude(bits) > INFINITE
  }

  /** Exactly which patterns for no number stay patterns for no number: a payload in the
      lowest bits alone becomes infinity, and the largest payloads carry into the sign. */
  lemma {:induction false} NanKept(bits: nat)
    requires bits < BITS && IsNan(bits)
    ensures Narrowed(bits) % HALF > INFINITE / LOW <==> 0x7F80_8000 < Magnitude(bits) < 0x7FFF_8000
  {
  }

  lemma {:induction false} NanLost()
    ensures IsNan(0x7FFF_FFFF) && Narrowed(0x7FFF_FFFF) == 0x8000
    ensures IsNan(0xFFFF_FFFF) && Narrowed(0xFFFF_FFFF) == 0
    ensures IsNan(0x7F80_0001) && Narrowed(0x7F80_0001) == INFINITE / LOW
  {
  }
}
