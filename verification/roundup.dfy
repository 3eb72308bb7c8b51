/** The bit-smearing macro that rounds a 32-bit size up to a power of two (khash.h). */
module RoundUp {
  import opened Probing

  const TWO_32: nat := 0x1_0000_0000

  function Pow2(k: nat): (r: nat)
    ensures r > 0
  {
    if k == 0 then 1 else 2 * Pow2(k - 1)
  }

  /** Bitwise or. */
  function BitOr(x: nat, y: nat): nat {
    if x == 0 then y
    else if y == 0 then x
    else 2 * BitOr(x / 2, y / 2) + (if x % 2 == 1 || y % 2 == 1 then 1 else 0)
  }

  /** `x >> m`. */
  function Shift(x: nat, m: nat): nat {
    if m == 0 then x else Shift(x / 2, m - 1)
  }

  /** `x |= x >> m`. */
  function Smear(x: nat, m: nat): nat {
    BitOr(x, Shift(x, m))
  }

  /** Smearing by `m`, by `2 * m`, and so on up to 16. */
  function SmearFrom(x: nat, m: nat): nat
    requires m > 0
    decreases 32 - m
  {
    if m > 16 then x else SmearFrom(Smear(x, m), 2 * m)
  }

  /** 32-bit wrap-around. */
  function Wrap(x: nat): nat
    requires x < 2 * TWO_32
  {
    if x < TWO_32 then x else x - TWO_32
  }

  /** `kroundup32`: decrement, smear by 1, 2, 4, 8 and 16, increment, all modulo 2^32. */
  function KRoundUp32(x: nat): nat
    requires x < TWO_32
  {
    var y := SmearFrom(Wrap(x + TWO_32 - 1), 1) + 1;
    SmearStays(Wrap(x + TWO_32 - 1), 1);
    Wrap(y)
  }

  /** Smearing never leaves 32 bits. */
  lemma {:induction false} SmearStays(x: nat, m: nat)
    requires x < TWO_32 && m > 0
    ensures SmearFrom(x, m) < TWO_32
    decreases 32 - m
  {
    if m <= 16 {
      Pow2At32();
      ShiftDivides(x, m);
      if Shift(x, m) > 0 { AtLeast2(Pow2(m), Shift(x, m)); }
      OrBelow(x, Shift(x, m), 32);
      SmearStays(Smear(x, m), 2 * m);
    }
  }

  lemma AtLeast2(n: nat, k: nat)
    requires n > 0
    ensures n * k >= k
  {
    assert n * k == (n - 1) * k + k;
  }

  // ---- Powers of two ----

  lemma {:induction false} Pow2Adds(a: nat, b: nat)
    ensures Pow2(a + b) == Pow2(a) * Pow2(b)
  {
    if a > 0 {
      Pow2Adds(a - 1, b);
      assert Pow2(a + b) == 2 * (Pow2(a - 1) * Pow2(b)) == Pow2(a) * Pow2(b);
    }
  }

  lemma {:induction false} Pow2Is(k: nat)
    ensures PowerOfTwo(Pow2(k))
  {
    if k > 0 {
      Pow2Is(k - 1);
      assert Pow2(k) / 2 == Pow2(k - 1);
    }
  }

  lemma {:induction false} Pow2Grows(a: nat, b: nat)
    requires a <= b
    ensures Pow2(a) <= Pow2(b)
  {
    if a < b {
      Pow2Grows(a, b - 1);
    }
  }

  // ---- Bitwise or ----

  lemma {:induction false} OrBelow(x: nat, y: nat, k: nat)
    requires x < Pow2(k) && y < Pow2(k)
    ensures BitOr(x, y) < Pow2(k)
  {
    if x > 0 && y > 0 {
      OrBelow(x / 2, y / 2, k - 1);
    }
  }

  /** The low `k` bits. */
  function Low(x: nat, k: nat): nat
    decreases k
  {
    if k == 0 then 0 else 2 * Low(x / 2, k - 1) + x % 2
  }

  /** Or-ing into the low `k` bits loses no more than what stood there. */
  lemma {:induction false} OrLow(x: nat, y: nat, k: nat)
    requires y < Pow2(k)
    ensures BitOr(x, y) + Low(x, k) >= x + y
    decreases k
  {
    if k > 0 {
      OrLow(x / 2, y / 2, k - 1);
    }
  }

  /** Clearing the low `q` bits does not go below a number whose low `q` bits are clear. */
  lemma {:induction false} LowAbove(x: nat, q: nat, k: nat)
    requires q <= k && x + Pow2(q) >= Pow2(k)
    ensures x + Pow2(q) >= Pow2(k) + Low(x, q)
    decreases q
  {
    if q > 0 {
      LowAbove(x / 2, q - 1, k - 1);
    }
  }

  /** `x` has `p + 1` bits and the top `m` of them (or all of them) are set. */
  ghost predicate TopSet(x: nat, p: nat, m: nat) {
    x < Pow2(p + 1) && x + Pow2(if m <= p then p + 1 - m else 0) >= Pow2(p + 1)
  }

  /** Shifting is dividing by a power of two. */
  lemma {:induction false} ShiftDivides(x: nat, m: nat)
    ensures Pow2(m) * Shift(x, m) <= x < Pow2(m) * Shift(x, m) + Pow2(m)
  {
    if m > 0 {
      ShiftDivides(x / 2, m - 1);
      EvenFactor(Pow2(m - 1), Shift(x, m));
    }
  }

  lemma SmearAll(x: nat, p: nat, m: nat)
    requires m > p && TopSet(x, p, m)
    ensures Smear(x, m) == x
  {
    Pow2Grows(p + 1, m);
    ShiftDivides(x, m);
    if Shift(x, m) > 0 { AtLeast(Pow2(m), Shift(x, m)); }
  }

  lemma Widen(n: nat, b: nat, a: nat)
    requires b <= a
    ensures n * b <= n * a
  {
    assert n * a == n * b + n * (a - b);
  }

  lemma Cancel(n: nat, a: nat, b: nat)
    requires n * a < n * b
    ensures a < b
  {
    if a >= b {
      Widen(n, b, a);
    }
  }

  /** `d` is `x` shifted right, `x` having ones above its `low` part: `d` is no wider than `low`, ... */
  lemma QuotientBelow(x: nat, n: nat, d: nat, low: nat)
    requires n * d <= x < n * low
    ensures d < low
  {
    Cancel(n, d, low);
  }

  /** ... as many of its bits are set as were set above, if there are so many ... */
  lemma QuotientTop(x: nat, n: nat, d: nat, low: nat, r: nat)
    requires x < n * d + n && x + low >= n * low && low == n * r
    ensures d + r >= low
  {
    assert n * (d + 1 + r) == n * d + n + n * r;
    Cancel(n, low, d + 1 + r);
  }

  /** ... and otherwise all of them. */
  lemma QuotientFull(x: nat, n: nat, d: nat, low: nat)
    requires x < n * d + n && x + low >= n * low && low <= n
    ensures d + 1 >= low
  {
    assert n * (d + 2) == n * d + n + n;
    Cancel(n, low, d + 2);
  }

  lemma ShiftedTop(x: nat, p: nat, m: nat, q: nat)
    requires 0 < m <= p && q == p + 1 - m && TopSet(x, p, m)
    ensures Pow2(p + 1) == Pow2(m) * Pow2(q)
    ensures Shift(x, m) < Pow2(q) && Shift(x, m) + Pow2(if m <= q then q - m else 0) >= Pow2(q)
  {
    var d := Shift(x, m);
    Pow2Adds(m, q);
    ShiftDivides(x, m);
    QuotientBelow(x, Pow2(m), d, Pow2(q));
    if m <= q {
      Pow2Adds(m, q - m);
      QuotientTop(x, Pow2(m), d, Pow2(q), Pow2(q - m));
    } else {
      Pow2Grows(q, m);
      QuotientFull(x, Pow2(m), d, Pow2(q));
    }
  }

  /** Shifting by `m` the `m` set bits at the top sets the `m` below them as well. */
  lemma SmearDoubles(x: nat, p: nat, m: nat)
    requires 0 < m && TopSet(x, p, m)
    ensures TopSet(Smear(x, m), p, 2 * m)
  {
    if m > p {
      SmearAll(x, p, m);
    } else {
      var q := p + 1 - m;
      ShiftedTop(x, p, m, q);
      OrShifted(x, Shift(x, m), q, p + 1);
    }
  }

  lemma OrShifted(x: nat, d: nat, q: nat, k: nat)
    requires q <= k && x < Pow2(k) && x + Pow2(q) >= Pow2(k) && d < Pow2(q)
    ensures BitOr(x, d) + Pow2(q) >= Pow2(k) + d
    ensures BitOr(x, d) < Pow2(k)
  {
    OrLow(x, d, q);
    LowAbove(x, q, k);
    Pow2Grows(q, k);
    OrBelow(x, d, k);
  }

  lemma {:induction false} TopBit(x: nat, k: nat) returns (p: nat)
    requires 0 < x < Pow2(k)
    ensures p < k && Pow2(p) <= x < Pow2(p + 1)
  {
    if Pow2(k - 1) <= x {
      p := k - 1;
    } else {
      p := TopBit(x, k - 1);
    }
  }

  lemma {:induction false} SmearZero(m: nat)
    requires m > 0
    ensures SmearFrom(0, m) == 0
    decreases 32 - m
  {
    if m <= 16 {
      ShiftZero(m);
      SmearZero(2 * m);
    }
  }

  lemma ShiftZero(m: nat)
    ensures Shift(0, m) == 0
  {
    ShiftDivides(0, m);
    if Shift(0, m) > 0 { AtLeast(Pow2(m), Shift(0, m)); }
  }

  /** The smears fill every bit below the top one. */
  lemma {:induction false} SmearsFill(y: nat, p: nat, m: nat)
    requires p < 32 && (m == 1 || m == 2 || m == 4 || m == 8 || m == 16 || m == 32) && TopSet(y, p, m)
    ensures SmearFrom(y, m) == Pow2(p + 1) - 1
    decreases 32 - m
  {
    if m <= 16 {
      SmearDoubles(y, p, m);
      SmearsFill(Smear(y, m), p, 2 * m);
    }
  }

  lemma RoundsUpFrom(x: nat, p: nat)
    requires p < 31 && Pow2(p) < x <= Pow2(p + 1) && x < TWO_32
    ensures KRoundUp32(x) == Pow2(p + 1)
  {
    SmearsFill(x - 1, p, 1);
    Pow2At32();
    Pow2Grows(p + 1, 31);
  }

  /** For sizes up to 2^31 the macro yields the least power of two that is large enough. */
  lemma RoundsUpToPowerOfTwo(x: nat)
    requires 0 < x <= 0x8000_0000
    ensures PowerOfTwo(KRoundUp32(x))
    ensures x <= KRoundUp32(x) < 2 * x
  {
    if x == 1 {
      SmearZero(1);
    } else {
      Pow2At32();
      var p := TopBit(x - 1, 31);
      RoundsUpFrom(x, p);
      Pow2Is(p + 1);
    }
  }

  lemma Pow2At32()
    ensures Pow2(31) == 0x8000_0000 && Pow2(32) == TWO_32
  {
    assert Pow2(8) == 256;
    Pow2Adds(8, 8);
    Pow2Adds(16, 8);
    assert Pow2(7) == 128;
    Pow2Adds(24, 7);
  }

  /** Larger sizes wrap round to zero, which the table then raises to its minimum of four. */
  lemma RoundsUpWraps(x: nat)
    requires 0x8000_0000 < x < TWO_32
    ensures KRoundUp32(x) == 0
  {
    Pow2At32();
    SmearsFill(x - 1, 31, 1);
  }

  /** Zero wraps below to 2^32 - 1 and comes back to zero. */
  lemma ZeroWraps()
    ensures KRoundUp32(0) == 0
  {
    Pow2At32();
    SmearsFill(TWO_32 - 1, 31, 1);
  }
}
