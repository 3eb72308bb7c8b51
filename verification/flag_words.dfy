/** The two-bit flag macros (khash.h): sixteen buckets to a word, updated in place, act like one flag per bucket. */
module FlagWords {
  import opened KHashTable

  const BITS: seq<bv32> := [0, 2, 4, 6, 8, 10, 12, 14, 16, 18, 20, 22, 24, 26, 28, 30]

  /** Where the two bits of bucket `i` start in its word: `(i & 0xf) << 1`. */
  function Bit(i: nat): (b: bv32)
    ensures b <= 30 && b & 1 == 0
  {
    BITS[i % 16]
  }

  lemma BitsApart(i: nat, j: nat)
    requires i % 16 != j % 16
    ensures Bit(i) != Bit(j)
  {
  }

  /** The two bits at `b`: 2 is a bucket never used, 1 a deleted one, 0 a live one. */
  function Pair(w: bv32, b: bv32): bv32
    requires b <= 30
  {
    (w >> b) & 3
  }

  /** `__ac_isempty` looks at the upper bit first, `__ac_isdel` at the lower. */
  function FlagOf(pair: bv32): Flag {
    if pair & 2 != 0 then Empty else if pair & 1 != 0 then Deleted else Live
  }

  function PairAt(words: seq<bv32>, i: nat): bv32
    requires i < 16 * |words|
  {
    Pair(words[i / 16], Bit(i))
  }

  /** The flags that `n` buckets have. */
  function Flags(words: seq<bv32>, n: nat): (f: seq<Flag>)
    requires n <= 16 * |words|
    ensures |f| == n
  {
    seq(n, i requires 0 <= i < n => FlagOf(PairAt(words, i)))
  }

  /** Words that agree under the mask of a pair have the same pair; proved position by position. */
  lemma SameUnderMask(w: bv32, x: bv32, b: bv32)
    requires b <= 30 && b & 1 == 0
    requires w & ((3 as bv32) << b) == x & ((3 as bv32) << b)
    ensures (w >> b) & 3 == (x >> b) & 3
  {
    if b == 0 { }
    else if b == 2 { }
    else if b == 4 { }
    else if b == 6 { }
    else if b == 8 { }
    else if b == 10 { }
    else if b == 12 { }
    else if b == 14 { }
    else if b == 16 { }
    else if b == 18 { }
    else if b == 20 { }
    else if b == 22 { }
    else if b == 24 { }
    else if b == 26 { }
    else if b == 28 { }
    else if b == 30 { }
  }

  lemma MasksApart(a: bv32, b: bv32)
    requires a <= 30 && b <= 30 && a & 1 == 0 && b & 1 == 0 && a != b
    ensures ((1 as bv32) << a) & ((3 as bv32) << b) == 0
    ensures ((2 as bv32) << a) & ((3 as bv32) << b) == 0
    ensures ((3 as bv32) << a) & ((3 as bv32) << b) == 0
  {
  }

  lemma ClearedElsewhere(w: bv32, m: bv32, k: bv32)
    requires m & k == 0
    ensures (w & !m) & k == w & k
  {
  }

  lemma SetElsewhere(w: bv32, m: bv32, k: bv32)
    requires m & k == 0
    ensures (w | m) & k == w & k
  {
  }

  /** `__ac_set_isdel_true` on the pair at `a`. */
  predicate SetDel(w: bv32, w': bv32, a: bv32)
    requires a <= 30
  {
    w' == w | (1 << a)
  }

  lemma SetDelElsewhere(w: bv32, w': bv32, a: bv32, b: bv32)
    requires a <= 30 && b <= 30 && a & 1 == 0 && b & 1 == 0 && a != b
    requires SetDel(w, w', a)
    ensures Pair(w', b) == Pair(w, b)
  {
    SetDelKeeps(w, a, b);
    hide Pair;
  }

  lemma SetDelKeeps(w: bv32, a: bv32, b: bv32)
    requires a <= 30 && b <= 30 && a & 1 == 0 && b & 1 == 0 && a != b
    ensures Pair(w | (1 << a), b) == Pair(w, b)
  {
    MasksApart(a, b);
    SetElsewhere(w, 1 << a, 3 << b);
    SameUnderMask(w | (1 << a), w, b);
  }

  lemma SetDelHere(w: bv32, w': bv32, a: bv32)
    requires a <= 30 && SetDel(w, w', a) && Pair(w, a) == 0
    ensures FlagOf(Pair(w', a)) == Deleted
  {
  }

  /** `__ac_set_isempty_false` on the pair at `a`. */
  predicate ClearEmpty(w: bv32, w': bv32, a: bv32)
    requires a <= 30
  {
    w' == w & !(2 << a)
  }

  lemma ClearEmptyElsewhere(w: bv32, w': bv32, a: bv32, b: bv32)
    requires a <= 30 && b <= 30 && a & 1 == 0 && b & 1 == 0 && a != b
    requires ClearEmpty(w, w', a)
    ensures Pair(w', b) == Pair(w, b)
  {
    ClearEmptyKeeps(w, a, b);
    hide Pair;
  }

  lemma ClearEmptyKeeps(w: bv32, a: bv32, b: bv32)
    requires a <= 30 && b <= 30 && a & 1 == 0 && b & 1 == 0 && a != b
    ensures Pair(w & !(2 << a), b) == Pair(w, b)
  {
    MasksApart(a, b);
    ClearedElsewhere(w, 2 << a, 3 << b);
    SameUnderMask(w & !(2 << a), w, b);
  }

  lemma ClearEmptyHere(w: bv32, w': bv32, a: bv32)
    requires a <= 30 && ClearEmpty(w, w', a) && Pair(w, a) == 2
    ensures FlagOf(Pair(w', a)) == Live
  {
  }

  /** `__ac_set_isboth_false` on the pair at `a`. */
  predicate ClearBoth(w: bv32, w': bv32, a: bv32)
    requires a <= 30
  {
    w' == w & !(3 << a)
  }

  lemma ClearBothElsewhere(w: bv32, w': bv32, a: bv32, b: bv32)
    requires a <= 30 && b <= 30 && a & 1 == 0 && b & 1 == 0 && a != b
    requires ClearBoth(w, w', a)
    ensures Pair(w', b) == Pair(w, b)
  {
    ClearBothKeeps(w, a, b);
    hide Pair;
  }

  lemma ClearBothKeeps(w: bv32, a: bv32, b: bv32)
    requires a <= 30 && b <= 30 && a & 1 == 0 && b & 1 == 0 && a != b
    ensures Pair(w & !(3 << a), b) == Pair(w, b)
  {
    MasksApart(a, b);
    ClearedElsewhere(w, 3 << a, 3 << b);
    SameUnderMask(w & !(3 << a), w, b);
  }

  lemma ClearBothHere(w: bv32, w': bv32, a: bv32)
    requires a <= 30 && ClearBoth(w, w', a)
    ensures FlagOf(Pair(w', a)) == Live
  {
  }

  lemma FreshWord(b: bv32)
    requires b <= 30 && b & 1 == 0
    ensures Pair(0xaaaa_aaaa, b) == 2
  {
  }

  /** `w'` differs from the word of bucket `i` in no other bucket's pair. */
  ghost predicate OnlyPair(w: bv32, w': bv32, i: nat) {
    forall j: nat :: j % 16 != i % 16 ==> Pair(w', Bit(j)) == Pair(w, Bit(j))
  }

  /** Writing a word so that only one pair changes, changes one flag. */
  lemma OneFlagChanges(words: seq<bv32>, w: bv32, i: nat, n: nat, flag: Flag)
    requires i < n <= 16 * |words|
    requires OnlyPair(words[i / 16], w, i) && FlagOf(Pair(w, Bit(i))) == flag
    ensures Flags(words[i / 16 := w], n) == Flags(words, n)[i := flag]
  {
    hide Pair, FlagOf, Bit;
    var words' := words[i / 16 := w];
    forall j: nat | j < n && j != i
      ensures PairAt(words', j) == PairAt(words, j)
    {
      if j / 16 == i / 16 { assert j % 16 != i % 16; }
    }
  }

  /** `memset(flags, 0xaa, ...)`: all buckets of a new table are empty. */
  method NewFlags(n: nat) returns (words: array<bv32>)
    requires n < 16 || n % 16 == 0
    ensures fresh(words) && n <= 16 * words.Length
    ensures forall i: nat :: i < n ==> Flags(words[..], n)[i] == Empty
  {
    var size := if n < 16 then 1 else n / 16;
    words := new bv32[size](_ => 0xaaaa_aaaa);
    forall i: nat | i < n
      ensures Flags(words[..], n)[i] == Empty
    {
      FreshWord(Bit(i));
    }
  }

  lemma SetDelFlag(words: seq<bv32>, w: bv32, i: nat, n: nat)
    requires i < n <= 16 * |words| && PairAt(words, i) == 0
    requires SetDel(words[i / 16], w, Bit(i))
    ensures Flags(words[i / 16 := w], n) == Flags(words, n)[i := Deleted]
  {
    hide SetDel, Pair, Bit, FlagOf;
    SetDelHere(words[i / 16], w, Bit(i));
    forall j: nat | j % 16 != i % 16
      ensures Pair(w, Bit(j)) == Pair(words[i / 16], Bit(j))
    {
      BitsApart(i, j);
      SetDelElsewhere(words[i / 16], w, Bit(i), Bit(j));
    }
    OneFlagChanges(words, w, i, n, Deleted);
  }

  /** `__ac_set_isdel_true`, used on live buckets. */
  method SetIsDelTrue(words: array<bv32>, i: nat, ghost n: nat)
    requires i < n <= 16 * words.Length && PairAt(words[..], i) == 0
    modifies words
    ensures Flags(words[..], n) == old(Flags(words[..], n))[i := Deleted]
  {
    ghost var before := words[..];
    words[i / 16] := words[i / 16] | (1 << Bit(i));
    assert SetDel(before[i / 16], words[i / 16], Bit(i));
    hide SetDel, Pair, Bit, FlagOf, Flags;
    SetDelFlag(before, words[i / 16], i, n);
    assert words[..] == before[i / 16 := words[i / 16]];
  }

  lemma ClearEmptyFlag(words: seq<bv32>, w: bv32, i: nat, n: nat)
    requires i < n <= 16 * |words| && PairAt(words, i) == 2
    requires ClearEmpty(words[i / 16], w, Bit(i))
    ensures Flags(words[i / 16 := w], n) == Flags(words, n)[i := Live]
  {
    hide ClearEmpty, Pair, Bit, FlagOf;
    ClearEmptyHere(words[i / 16], w, Bit(i));
    forall j: nat | j % 16 != i % 16
      ensures Pair(w, Bit(j)) == Pair(words[i / 16], Bit(j))
    {
      BitsApart(i, j);
      ClearEmptyElsewhere(words[i / 16], w, Bit(i), Bit(j));
    }
    OneFlagChanges(words, w, i, n, Live);
  }

  /** `__ac_set_isempty_false`, used on empty buckets. */
  method SetIsEmptyFalse(words: array<bv32>, i: nat, ghost n: nat)
    requires i < n <= 16 * words.Length && PairAt(words[..], i) == 2
    modifies words
    ensures Flags(words[..], n) == old(Flags(words[..], n))[i := Live]
  {
    ghost var before := words[..];
    words[i / 16] := words[i / 16] & !(2 << Bit(i));
    assert ClearEmpty(before[i / 16], words[i / 16], Bit(i));
    hide ClearEmpty, Pair, Bit, FlagOf, Flags;
    ClearEmptyFlag(before, words[i / 16], i, n);
    assert words[..] == before[i / 16 := words[i / 16]];
  }

  lemma ClearBothFlag(words: seq<bv32>, w: bv32, i: nat, n: nat)
    requires i < n <= 16 * |words|
    requires ClearBoth(words[i / 16], w, Bit(i))
    ensures Flags(words[i / 16 := w], n) == Flags(words, n)[i := Live]
  {
    hide ClearBoth, Pair, Bit, FlagOf;
    ClearBothHere(words[i / 16], w, Bit(i));
    forall j: nat | j % 16 != i % 16
      ensures Pair(w, Bit(j)) == Pair(words[i / 16], Bit(j))
    {
      BitsApart(i, j);
      ClearBothElsewhere(words[i / 16], w, Bit(i), Bit(j));
    }
    OneFlagChanges(words, w, i, n, Live);
  }

  /** `__ac_set_isboth_false`, used on any buckets. */
  method SetIsBothFalse(words: array<bv32>, i: nat, ghost n: nat)
    requires i < n <= 16 * words.Length
    modifies words
    ensures Flags(words[..], n) == old(Flags(words[..], n))[i := Live]
  {
    ghost var before := words[..];
    words[i / 16] := words[i / 16] & !(3 << Bit(i));
    assert ClearBoth(before[i / 16], words[i / 16], Bit(i));
    hide ClearBoth, Pair, Bit, FlagOf, Flags;
    ClearBothFlag(before, words[i / 16], i, n);
    assert words[..] == before[i / 16 := words[i / 16]];
  }
}
