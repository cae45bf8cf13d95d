/** Machine integers and the byte/word view of a 16-bit register.

    The emulator stores every VDC register in a union of a 16-bit word and
    its two bytes. The hosts it runs on are little-endian, so the byte
    named `l` is the low half of the word and `h` the high half. */
module Word {

  /** An unsigned 8-bit value (`uint8_t`). */
  type u8 = x: int | 0 <= x < 0x100

  /** An unsigned 16-bit value (`uint16_t`). */
  type u16 = x: int | 0 <= x < 0x1_0000

  const WORD_MODULUS := 0x1_0000

  /** `UWord`: one 16-bit register seen either as the bytes `l`, `h` or as `W`. */
  datatype UWord = UWord(l: u8, h: u8) {

    /** The word view of the union. */
    function W(): (w: u16)
      ensures w % 0x100 == l && w / 0x100 == h
    {
      l + 0x100 * h
    }
  }

  /** Storing a word into the union: the byte view it leaves behind. */
  function FromW(w: u16): (u: UWord)
    ensures u.W() == w
  {
    UWord(w % 0x100, w / 0x100)
  }

  /** The two views determine each other: writing the bytes and reading them
      back through the word (and then storing that word) loses nothing. */
  lemma BytesRoundTrip(u: UWord)
    ensures FromW(u.W()) == u
  {
  }

  /** Adding to the word view wraps around at 2^16, as `uint16_t` arithmetic does. */
  function AddWrap(w: u16, d: nat): (r: u16)
    ensures r < WORD_MODULUS
    ensures (r - w - d) % WORD_MODULUS == 0
  {
    (w + d) % WORD_MODULUS
  }

  /** A positive multiple of a positive number is at least that number. */
  lemma {:induction false} MulAtLeast(c: int, d: int)
    requires c >= 1 && d > 0
    ensures c * d >= d
    decreases c
  {
    if c > 1 {
      MulAtLeast(c - 1, d);
      assert c * d == (c - 1) * d + d;
    }
  }

  /** Division with a positive divisor has exactly one quotient and remainder. */
  lemma DivModUnique(x: int, d: int, a: int, b: int)
    requires d > 0 && 0 <= b < d && x == a * d + b
    ensures x / d == a && x % d == b
  {
    var a', b' := x / d, x % d;
    assert x == a' * d + b';
    assert (a - a') * d == b' - b;
    if a > a' {
      MulAtLeast(a - a', d);
    } else if a < a' {
      MulAtLeast(a' - a, d);
    }
  }

  /** Testing one bit: the bit of weight `m` (a power of two) is set in `x`
      exactly when the remainder of `x` modulo `2 * m` is at least `m`. */
  lemma BitTest(x: nat, m: nat)
    requires m > 0
    ensures (x / m) % 2 == 0 || (x / m) % 2 == 1
    ensures (x / m) % 2 == 1 <==> x % (2 * m) >= m
  {
    var q, r := x / m, x % m;
    var k, bit := q / 2, q % 2;
    assert x == k * (2 * m) + (bit * m + r) by {
      assert q == 2 * k + bit;
      assert x == q * m + r;
      assert q * m == (2 * k + bit) * m;
    }
    assert 0 <= bit * m + r < 2 * m by {
      assert bit == 0 || bit == 1;
    }
    DivModUnique(x, 2 * m, k, bit * m + r);
  }

  /** Reducing before adding does not change a result taken modulo 2^16. */
  lemma AddWrapLeft(w: int, d: int)
    ensures (w % WORD_MODULUS + d) % WORD_MODULUS == (w + d) % WORD_MODULUS
  {
    var q, r := w / WORD_MODULUS, w % WORD_MODULUS;
    var s := r + d;
    assert w + d == (q + s / WORD_MODULUS) * WORD_MODULUS + s % WORD_MODULUS;
    DivModUnique(w + d, WORD_MODULUS, q + s / WORD_MODULUS, s % WORD_MODULUS);
  }
}
