/** Register slots and hourly buckets: what a window of the retained buckets says of the raw sightings. */
module Hll {
  import opened Arithmetic

  const RETAINED_HOURS := 169
  const WINDOW_HOURS := 168

  // ----- slots -----

  function Pow2(n: nat): (p: nat)
    ensures p >= 1
  {
    if n == 0 then 1 else 2 * Pow2(n - 1)
  }

  lemma {:induction false} Pow2Adds(a: nat, b: nat)
    ensures Pow2(a) * Pow2(b) == Pow2(a + b)
  {
    if a > 0 { Pow2Adds(a - 1, b); }
  }

  lemma {:induction false} Pow2Grows(a: nat, b: nat)
    ensures a < b ==> Pow2(a) < Pow2(b)
    ensures Pow2(a) < Pow2(b) ==> a < b
    decreases a + b
  {
    if a > 0 && b > 0 { Pow2Grows(a - 1, b - 1); }
    else if b > 0 { Pow2Grows(0, b - 1); }
    else if a > 0 { Pow2Grows(a - 1, 0); }
  }

  const WORD := Pow2(64)

  type Hash = h: nat | h < WORD witness 0

  predicate ValidPrecision(p: int) {
    4 <= p <= 18
  }

  /** The bits of the hash after its first p, as a 64-bit word. */
  function Remaining(h: Hash, p: nat): nat {
    h * Pow2(p) % WORD
  }

  /** The leading one of a word is its rank-th bit; a word of zeros has the rank past every bit the hash has left. */
  predicate HasRank(word: nat, p: nat, rank: nat) {
    if word == 0 then rank + p == 65
    else 1 <= rank <= 64 && Pow2(64 - rank) <= word < Pow2(65 - rank)
  }

  /** The first p bits of the hash. */
  function Index(h: Hash, p: nat): nat
    requires ValidPrecision(p)
  {
    Over(h, Pow2(64 - p))
  }

  /** slot: the index is the first p bits; the rank of the rest is in 1 .. 65 - p. */
  method Slot(h: Hash, p: nat) returns (index: nat, rank: nat)
    requires ValidPrecision(p)
    ensures index == Index(h, p) < Pow2(p)
    ensures HasRank(Remaining(h, p), p, rank) && 1 <= rank <= 65 - p
  {
    index := Index(h, p);
    IndexBits(h, p);
    rank := RankOf(h, p);
  }

  method RankOf(h: Hash, p: nat) returns (rank: nat)
    requires ValidPrecision(p)
    ensures HasRank(Remaining(h, p), p, rank) && 1 <= rank <= 65 - p
  {
    var word := Remaining(h, p);
    if word == 0 {
      rank := 64 - p + 1;
    } else {
      rank := LeadingOne(word);
      RankBound(h, p, rank);
    }
  }

  /** The position of a word's first one, counted from the top. */
  method LeadingOne(first: nat) returns (rank: nat)
    requires 0 < first < Pow2(64)
    ensures 1 <= rank <= 64 && Pow2(64 - rank) <= first < Pow2(65 - rank)
  {
    var word := first;
    rank := 1;
    Shifted(first, 0);
    while word < Pow2(63)
      invariant 1 <= rank <= 64 && word == first * Pow2(rank - 1) && 0 < word < Pow2(64)
      decreases 64 - rank
    {
      DoubledInRange(first, rank);
      word := word * 2;
      rank := rank + 1;
    }
    RankFound(first, word, rank);
  }

  lemma IndexBits(h: Hash, p: nat)
    requires ValidPrecision(p)
    ensures var i := Index(h, p); i < Pow2(p) && i * Pow2(64 - p) <= h < (i + 1) * Pow2(64 - p)
  {
    Pow2Adds(p, 64 - p);
    Quotient(h, Pow2(64 - p));
    BelowQuotient(h, Pow2(64 - p), Pow2(p));
  }

  lemma Shifted(x: nat, n: nat)
    ensures x * Pow2(0) == x && x * Pow2(n + 1) == x * Pow2(n) * 2
  {
  }

  lemma DoubledInRange(first: nat, rank: nat)
    requires 1 <= rank <= 64 && 0 < first * Pow2(rank - 1) < Pow2(63)
    ensures rank < 64 && first * Pow2(rank) == first * Pow2(rank - 1) * 2 < Pow2(64)
  {
    Shifted(first, rank - 1);
    assert Pow2(64) == 2 * Pow2(63);
    Times(1, first, Pow2(rank - 1));
    Pow2Grows(rank - 1, 63);
  }

  lemma RankFound(first: nat, word: nat, rank: nat)
    requires 1 <= rank <= 64 && first > 0 && word == first * Pow2(rank - 1) && Pow2(63) <= word < Pow2(64)
    ensures Pow2(64 - rank) <= first < Pow2(65 - rank)
  {
    Pow2Adds(64 - rank, rank - 1);
    Pow2Adds(65 - rank, rank - 1);
    if first < Pow2(64 - rank) { Times(first, Pow2(64 - rank), Pow2(rank - 1)); }
    if first >= Pow2(65 - rank) { Times(Pow2(65 - rank), first, Pow2(rank - 1)); }
  }

  /** The hash has only 64 - p bits left after the index, so a one among them is no later than that. */
  lemma RankBound(h: Hash, p: nat, rank: nat)
    requires ValidPrecision(p) && 1 <= rank <= 64 && Remaining(h, p) > 0 && Remaining(h, p) < Pow2(65 - rank)
    ensures rank <= 64 - p
  {
    var word := Remaining(h, p);
    RemainingIsMultiple(h, p);
    Times(1, h % Pow2(64 - p), Pow2(p));
    Pow2Grows(p, 65 - rank);
  }

  lemma RemainingIsMultiple(h: Hash, p: nat)
    requires ValidPrecision(p)
    ensures Remaining(h, p) == h % Pow2(64 - p) * Pow2(p)
    ensures Remaining(h, p) > 0 ==> h % Pow2(64 - p) >= 1
  {
    Pow2Adds(64 - p, p);
    MultipleLeft(h, Pow2(p), Pow2(64 - p));
  }

  /** What is left of a multiple of d after dividing by k * d is a multiple of d. */
  lemma MultipleLeft(h: nat, d: nat, k: nat)
    requires d > 0 && k > 0 && k * d > 0
    ensures h * d % (k * d) == h % k * d
  {
    var q, r := h / k, h % k;
    assert h == q * k + r;
    assert h * d == q * (k * d) + r * d by {
      assert (q * k + r) * d == q * k * d + r * d;
      assert q * k * d == q * (k * d);
    }
    Times(r + 1, k, d);
    assert (r + 1) * d == r * d + d;
    Divided(h * d, q, r * d, k * d);
  }
}
