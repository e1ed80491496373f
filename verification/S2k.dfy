/**
 The byte encoding of S2K iteration counts (section 3.7.1.3 of RFC 4880) in
 get_standard_s2k_count_rfc4880 of agent/protect.c.
 */
module S2k {
  import opened Numbers
  import opened Protection

  const MAX_COUNT := 65011712

  lemma {:induction false} Pow2Grows(m: nat, n: nat)
    requires m <= n
    ensures 1 <= Pow2(m) <= Pow2(n)
  {
    if m < n {
      Pow2Grows(m, n - 1);
    } else if n > 0 {
      Pow2Grows(m - 1, n - 1);
    }
  }

  /** One more in the encoding is one more step of the size that the exponent gives. */
  lemma DecodeStep(c: nat)
    requires c < 255
    ensures DecodeCount(c + 1) == DecodeCount(c) + Pow2(c / 16 + 6) && Pow2(c / 16 + 6) >= 1
  {
    var e, m := c / 16 + 6, c % 16;
    Pow2Grows(0, e);
    if m == 15 {
      assert (c + 1) / 16 == c / 16 + 1 && (c + 1) % 16 == 0;
      assert Pow2(e + 1) == 2 * Pow2(e);
    } else {
      assert (c + 1) / 16 == c / 16 && (c + 1) % 16 == m + 1;
      assert (16 + m + 1) * Pow2(e) == (16 + m) * Pow2(e) + Pow2(e);
    }
  }

  lemma {:induction false} DecodeIncreases(c: nat, d: nat)
    requires c < d < 256
    ensures DecodeCount(c) < DecodeCount(d)
    decreases d
  {
    DecodeStep(d - 1);
    if c < d - 1 {
      DecodeIncreases(c, d - 1);
    }
  }

  lemma DecodeMax()
    ensures DecodeCount(255) == MAX_COUNT
  {
    assert Pow2(3) == 8;
    assert Pow2(6) == 8 * Pow2(3);
    assert Pow2(9) == 8 * Pow2(6);
    assert Pow2(12) == 8 * Pow2(9);
    assert Pow2(15) == 8 * Pow2(12);
    assert Pow2(18) == 8 * Pow2(15);
    assert Pow2(21) == 8 * Pow2(18);
  }

  /** The least byte whose decoded count is not below the given one. */
  ghost predicate LeastEncoding(n: nat, r: nat) {
    && r < 256
    && n <= DecodeCount(r)
    && forall c :: 0 <= c < r ==> DecodeCount(c) < n
  }

  /** Doubling the unit halves the number of units. */
  lemma Halve(n: nat, count: nat, c: nat)
    requires count * Pow2(c + 6) <= n < (count + 1) * Pow2(c + 6)
    ensures (count / 2) * Pow2(c + 7) <= n < (count / 2 + 1) * Pow2(c + 7)
  {
    var u := Pow2(c + 6);
    assert Pow2(c + 7) == 2 * u;
    var h := count / 2;
    assert h * (2 * u) == (2 * h) * u;
    assert (2 * h) * u <= count * u by { assert 2 * h <= count; Times(2 * h, count, u); }
    assert (h + 1) * (2 * u) == (2 * h + 2) * u;
    Times(count + 1, 2 * h + 2, u);
  }

  lemma Times(a: nat, b: nat, u: nat)
    requires a <= b
    ensures a * u <= b * u
  {
  }

  lemma LargeExponent(count: nat, c: nat)
    requires 16 <= count && c >= 16
    ensures count * Pow2(c + 6) >= MAX_COUNT
  {
    DecodeMax();
    Pow2Grows(22, c + 6);
    assert Pow2(22) == 2 * Pow2(21);
    assert DecodeCount(255) == 31 * Pow2(21);
    Times(16, count, Pow2(c + 6));
    assert 16 * Pow2(22) == 32 * Pow2(21);
  }

  /** A count below the largest one has an exponent that fits four bits. */
  lemma ExponentFits(n: nat, count: nat, c: nat)
    requires 16 <= count && count * Pow2(c + 6) <= n < MAX_COUNT
    ensures c <= 15
  {
    if c >= 16 {
      LargeExponent(count, c);
    }
  }

  /**
   get_standard_s2k_count_rfc4880 for a standard count of n: the least byte
   that decodes to at least n, or 255 if there is none.
   */
  method EncodeCount(n: nat) returns (r: nat)
    requires n >= 65536
    ensures r < 256
    ensures n >= MAX_COUNT ==> r == 255
    ensures n <= MAX_COUNT ==> LeastEncoding(n, r)
  {
    DecodeMax();
    if n >= MAX_COUNT {
      forall c | 0 <= c < 255
        ensures DecodeCount(c) < MAX_COUNT
      {
        DecodeIncreases(c, 255);
      }
      return 255;
    }
    var c := 0;
    var count := n / 64;
    assert Pow2(3) == 8 && Pow2(6) == 8 * Pow2(3);
    while count >= 32
      invariant count >= 16
      invariant count * Pow2(c + 6) <= n < (count + 1) * Pow2(c + 6)
      decreases count
    {
      Halve(n, count, c);
      count := count / 2;
      c := c + 1;
    }
    ExponentFits(n, count, c);
    r := c * 16 + (count - 16);
    assert r / 16 == c && r % 16 == count - 16;
    ghost var low := r;
    if DecodeCount(r) < n {
      TooLow(n, r);
      DecodeStep(r);
      assert (count + 1) * Pow2(c + 6) == count * Pow2(c + 6) + Pow2(c + 6);
      r := r + 1;
    }
    NoSmaller(n, low, r);
  }

  lemma NoSmaller(n: nat, low: nat, r: nat)
    requires low <= r <= low + 1 && r < 256 && (r > low ==> DecodeCount(low) < n) && (r == low ==> DecodeCount(low) <= n)
    ensures forall d :: 0 <= d < r ==> DecodeCount(d) < n
  {
    hide DecodeCount;
    forall d | 0 <= d < r
      ensures DecodeCount(d) < n
    {
      if d < low {
        DecodeIncreases(d, low);
      }
    }
  }

  /** The final increment does not overflow. */
  lemma TooLow(n: nat, r: nat)
    requires r < 256 && DecodeCount(r) < n < MAX_COUNT
    ensures r < 255
  {
    DecodeMax();
  }

  /** Decoding and encoding again gives the same byte. */
  lemma EncodingUnique(c: nat, r: nat)
    requires c < 256 && LeastEncoding(DecodeCount(c), r)
    ensures r == c
  {
    if r < c {
      DecodeIncreases(r, c);
    }
  }
}
