/** Triangular probing in a table whose bucket count is a power of two (khash.h). */
module Probing {
  import opened PaxosTypes

  predicate PowerOfTwo(n: nat) {
    n == 1 || (n > 1 && n % 2 == 0 && PowerOfTwo(n / 2))
  }

  function Triangle(s: nat): nat {
    if s == 0 then 0 else Triangle(s - 1) + s
  }

  /** `x & (n - 1)`, which for a power of two `n` is the remainder by `n`. */
  function Masked(x: nat, n: nat): (r: nat)
    requires n > 0
    ensures r < n
    decreases x
  {
    if x < n then x else Masked(x - n, n)
  }

  /** The bucket looked at after `s` steps from hash `h`. */
  function Probe(h: nat, s: nat, n: nat): (i: nat)
    requires n > 0
    ensures i < n
    decreases s
  {
    if s == 0 then Masked(h, n) else Masked(Probe(h, s - 1, n) + s, n)
  }

  lemma AtLeast(n: nat, k: nat)
    requires k > 0
    ensures n * k >= n
  {
    assert n * k == n * (k - 1) + n;
  }

  lemma OneMore(n: nat, q: nat)
    ensures n * (q + 1) == n * q + n
  {
  }

  lemma Plus(n: nat, a: nat, b: nat)
    ensures n * (a + b) == n * a + n * b
  {
  }

  /** Masking splits off a multiple of the size ... */
  lemma {:induction false} MaskedForm(x: nat, n: nat) returns (q: nat)
    requires n > 0
    ensures x == n * q + Masked(x, n)
    decreases x
  {
    if x < n {
      q := 0;
    } else {
      var p := MaskedForm(x - n, n);
      OneMore(n, p);
      q := p + 1;
    }
  }

  /** ... and what is left is determined by that. */
  lemma {:induction false} MaskedUnique(q: nat, r: nat, n: nat)
    requires n > 0 && r < n
    ensures Masked(n * q + r, n) == r
    decreases q
  {
    if q > 0 {
      OneMore(n, q - 1);
      MaskedUnique(q - 1, r, n);
    }
  }

  lemma MaskedShift(x: nat, q: nat, n: nat)
    requires n > 0
    ensures Masked(n * q + x, n) == Masked(x, n)
  {
    var p := MaskedForm(x, n);
    Plus(n, q, p);
    MaskedUnique(q + p, Masked(x, n), n);
  }

  lemma MaskedAdd(a: nat, b: nat, n: nat)
    requires n > 0
    ensures Masked(Masked(a, n) + b, n) == Masked(a + b, n)
  {
    var q := MaskedForm(a, n);
    MaskedShift(Masked(a, n) + b, q, n);
  }

  /** Step by step or all at once: after `s` steps the index has moved by a triangular number. */
  lemma {:induction false} ProbeIsTriangular(h: nat, s: nat, n: nat)
    requires n > 0
    ensures Probe(h, s, n) == Masked(h + Triangle(s), n)
    decreases s
  {
    if s > 0 {
      ProbeIsTriangular(h, s - 1, n);
      MaskedAdd(h + Triangle(s - 1), s, n);
    }
  }

  lemma {:induction false} TriangleClosed(s: nat)
    ensures 2 * Triangle(s) == s * (s + 1)
  {
    if s > 0 {
      TriangleClosed(s - 1);
    }
  }

  lemma ParityOfProduct(a: nat, b: nat)
    requires a % 2 == 1
    ensures (a * b) % 2 == b % 2
  {
    var x := a / 2;
    assert a * b == 2 * (x * b) + b;
  }

  lemma EvenFactor(h: nat, k: nat)
    ensures (2 * h) * k == 2 * (h * k)
  {
  }

  lemma Halve(a: nat, c: nat, h: nat, k: nat)
    requires a * (2 * c) == (2 * h) * k
    ensures a * c == h * k
  {
    EvenFactor(h, k);
    EvenFactor(c, a);
    assert a * (2 * c) == (2 * c) * a;
  }

  /** An odd factor does not help a product reach a multiple of a power of two. */
  lemma {:induction false} OddFactor(m: nat, a: nat, b: nat, k: nat) returns (j: nat)
    requires PowerOfTwo(m) && a % 2 == 1 && a * b == m * k
    ensures b == m * j
  {
    if m == 1 {
      j := b;
    } else {
      var h, c := m / 2, b / 2;
      EvenFactor(h, k);
      ParityOfProduct(a, b);
      Halve(a, c, h, k);
      j := OddFactor(h, a, c, k);
      EvenFactor(h, j);
    }
  }

  lemma TooSmall(m: nat, j: nat, b: nat)
    requires b == m * j && b < m
    ensures b == 0
  {
    if j > 0 { AtLeast(m, j); }
  }

  lemma OddTimesSmall(u: nat, w: nat, m: nat, k: nat)
    requires PowerOfTwo(m) && u % 2 == 1 && 0 < w < m
    ensures u * w != m * k
  {
    if u * w == m * k {
      var j := OddFactor(m, u, w, k);
      TooSmall(m, j, w);
    }
  }

  /** The heart of it: `u * w` is no multiple of `m` when the factors differ in parity and both are small. */
  lemma SmallFactors(u: nat, w: nat, m: nat, k: nat)
    requires PowerOfTwo(m) && 0 < u < m && 0 < w < m && (u + w) % 2 == 1
    ensures u * w != m * k
  {
    if u % 2 == 1 {
      OddTimesSmall(u, w, m, k);
    } else {
      OddTimesSmall(w, u, m, k);
      Commutes(u, w);
    }
  }

  lemma Commutes(u: nat, w: nat)
    ensures u * w == w * u
  {
  }

  /** Equal remainders differ by a multiple. */
  lemma SameRemainder(x: nat, y: nat, n: nat) returns (q: nat)
    requires n > 0 && x <= y && Masked(x, n) == Masked(y, n)
    ensures y - x == n * q
  {
    var a := MaskedForm(x, n);
    var b := MaskedForm(y, n);
    if b < a {
      Plus(n, b, a - b);
    } else {
      Plus(n, a, b - a);
    }
    q := if b < a then 0 else b - a;
  }

  lemma {:induction false} TriangleGrows(s: nat, t: nat)
    requires s <= t
    ensures Triangle(s) <= Triangle(t)
  {
    if s < t {
      TriangleGrows(s, t - 1);
    }
  }

  lemma DifferenceOfProducts(s: nat, t: nat)
    requires s <= t
    ensures (t - s) * (t + s + 1) == t * (t + 1) - s * (s + 1)
  {
    var d := t - s;
    assert t * (t + 1) == (s + d) * (s + d + 1) == s * (s + 1) + d * (2 * s + d + 1);
  }

  /** Two steps that meet in one bucket make a multiple of twice the size. */
  lemma Meeting(h: nat, s: nat, t: nat, n: nat, u: nat, w: nat) returns (q: nat)
    requires n > 0 && s <= t && Probe(h, s, n) == Probe(h, t, n)
    requires u == t - s && w == t + s + 1
    ensures u * w == (2 * n) * q
  {
    ProbeIsTriangular(h, s, n);
    ProbeIsTriangular(h, t, n);
    TriangleGrows(s, t);
    q := SameRemainder(h + Triangle(s), h + Triangle(t), n);
    TriangleClosed(s);
    TriangleClosed(t);
    DifferenceOfProducts(s, t);
    EvenFactor(n, q);
  }

  lemma TwiceIsPower(n: nat, m: nat)
    requires PowerOfTwo(n) && m == 2 * n
    ensures PowerOfTwo(m)
  {
  }

  /** Two different steps below `n` never meet; nor does any step meet the start before step `2n - 1`. */
  lemma NeverMeet(h: nat, s: nat, t: nat, n: nat)
    requires PowerOfTwo(n) && s < t && s + t + 1 < 2 * n
    ensures Probe(h, s, n) != Probe(h, t, n)
  {
    if Probe(h, s, n) == Probe(h, t, n) {
      var u, w, m := t - s, t + s + 1, 2 * n;
      var q := Meeting(h, s, t, n, u, w);
      TwiceIsPower(n, m);
      SmallFactors(u, w, m, q);
    }
  }

  /** The sequence is back at its start after `2n - 1` steps, and not before. */
  lemma BackAtStart(h: nat, t: nat, n: nat)
    requires PowerOfTwo(n)
    ensures 0 < t < 2 * n - 1 ==> Probe(h, t, n) != Probe(h, 0, n)
    ensures t == 2 * n - 1 ==> Probe(h, t, n) == Probe(h, 0, n)
  {
    if 0 < t < 2 * n - 1 {
      NeverMeet(h, 0, t, n);
    }
    if t == 2 * n - 1 {
      FullCycle(t, n);
      MaskedShift(h, t, n);
      ProbeIsTriangular(h, t, n);
    }
  }

  lemma FullCycle(t: nat, n: nat)
    requires t + 1 == 2 * n
    ensures Triangle(t) == n * t
  {
    TriangleClosed(t);
    EvenFactor(n, t);
    Commutes(t, 2 * n);
  }

  ghost predicate SeenBy(i: nat, h: nat, k: nat, n: nat)
    requires n > 0
  {
    exists s: nat :: s < k && Probe(h, s, n) == i
  }

  /** The buckets looked at in the first `k` steps. */
  function Visited(h: nat, k: nat, n: nat): (v: set<nat>)
    requires n > 0
    ensures forall i: nat :: i in v ==> i < n && SeenBy(i, h, k, n)
  {
    if k == 0 then {} else Visited(h, k - 1, n) + {Probe(h, k - 1, n)}
  }

  lemma {:induction false} VisitedSize(h: nat, k: nat, n: nat)
    requires PowerOfTwo(n) && k <= n
    ensures |Visited(h, k, n)| == k
  {
    if k > 0 {
      VisitedSize(h, k - 1, n);
      var i := Probe(h, k - 1, n);
      if i in Visited(h, k - 1, n) {
        var s: nat :| s < k - 1 && Probe(h, s, n) == i;
        NeverMeet(h, s, k - 1, n);
      }
    }
  }

  /** Every bucket is visited within `n` steps. */
  lemma VisitsEvery(h: nat, i: nat, n: nat)
    requires PowerOfTwo(n) && i < n
    ensures SeenBy(i, h, n, n)
  {
    VisitedSize(h, n, n);
    SubsetSize(Visited(h, n, n), Upto(n));
    assert i in Visited(h, n, n);
  }

  /** The step at which bucket `i` is visited. */
  ghost function StepTo(h: nat, i: nat, n: nat): (s: nat)
    requires PowerOfTwo(n) && i < n
    ensures s < n && Probe(h, s, n) == i
  {
    VisitsEvery(h, i, n);
    var s: nat :| s < n && Probe(h, s, n) == i;
    s
  }
}
