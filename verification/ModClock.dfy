/** The wrapping 32-bit clock of the firmware, and what it still knows about true time. */
module ModClock {

  const TWO31: int := 0x8000_0000
  const TWO32: int := 0x1_0000_0000

  type u32 = x: int | 0 <= x < 0x1_0000_0000

  /** What a 32-bit counter shows at true time `t`. */
  function Wrap(t: int): u32 {
    t % TWO32
  }

  /** `(int32_t)(a - b)`: the unsigned difference read as a signed number. */
  function SignedDiff(a: u32, b: u32): int {
    var d := (a - b) % TWO32;
    if d < TWO31 then d else d - TWO32
  }

  /** The clock test: reading `a` counts as no earlier than reading `b`. */
  predicate Reached(a: u32, b: u32) {
    SignedDiff(a, b) >= 0
  }

  /** The signed difference of two readings is the true difference while that fits 32 bits. */
  lemma {:induction false} DiffIsTrue(s: int, t: int)
    requires -TWO31 <= s - t < TWO31
    ensures SignedDiff(Wrap(s), Wrap(t)) == s - t
  {
    WrapOfDiff(s, t);
  }

  lemma {:induction false} WrapOfDiff(s: int, t: int)
    ensures (Wrap(s) - Wrap(t)) % TWO32 == (s - t) % TWO32
  {
    var q := s / TWO32 - t / TWO32;
    assert s - t == (Wrap(s) - Wrap(t)) + q * TWO32;
    ModShift(Wrap(s) - Wrap(t), q);
  }

  lemma {:induction false} WrapOfSum(s: int, d: int)
    ensures (Wrap(s) + d) % TWO32 == Wrap(s + d)
  {
    var q := s / TWO32;
    assert s + d == (Wrap(s) + d) + q * TWO32;
    ModShift(Wrap(s) + d, q);
  }

  lemma {:induction false} ModShift(x: int, q: int)
    ensures (x + q * TWO32) % TWO32 == x % TWO32
  {
  }

  /** Exactly when the clock test agrees with true time: the lateness, taken modulo the
      wrap, must fall in the half of the circle that its sign says. */
  lemma {:induction false} ReachedExactly(s: int, t: int)
    ensures Reached(Wrap(s), Wrap(t)) <==> (s - t) % TWO32 < TWO31
    ensures s >= t ==> (Reached(Wrap(s), Wrap(t)) == (s >= t) <==> (s - t) % TWO32 < TWO31)
    ensures s < t ==> (Reached(Wrap(s), Wrap(t)) == (s >= t) <==> (s - t) % TWO32 >= TWO31)
  {
    WrapOfDiff(s, t);
  }
}
