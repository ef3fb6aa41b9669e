/** Shifts and masks of unsigned words, as the numbers they denote. */
module Words {
  import opened Lexemes

  function Pow2(k: nat): (p: nat)
    ensures p > 0
  {
    if k == 0 then 1 else 2 * Pow2(k - 1)
  }

  /** x & y, bit by bit from the low end. */
  function And(x: nat, y: nat): nat {
    if x == 0 || y == 0 then 0 else 2 * And(x / 2, y / 2) + (if x % 2 == 1 && y % 2 == 1 then 1 else 0)
  }

  /** x >> k. */
  function Shr(x: nat, k: nat): nat {
    if k == 0 then x else Shr(x / 2, k - 1)
  }

  lemma BitSplit(n: nat, p: nat)
    requires p >= 1
    ensures n % (2 * p) == 2 * (n / 2 % p) + n % 2 && n / (2 * p) == n / 2 / p
  {
    var q, r := n / 2 / p, n / 2 % p;
    assert n / 2 == q * p + r;
    assert n == q * (2 * p) + (2 * r + n % 2);
    ModUnique(n, 2 * p, q, 2 * r + n % 2);
  }

  /** A mask of k ones keeps the remainder modulo 2^k. */
  lemma {:induction false} AndMask(x: nat, k: nat)
    ensures And(x, Pow2(k) - 1) == x % Pow2(k)
  {
    if k > 0 {
      AndMask(x / 2, k - 1);
      BitSplit(x, Pow2(k - 1));
      MaskHalves(x, Pow2(k - 1));
    }
  }

  lemma MaskHalves(x: nat, p: nat)
    requires p >= 1
    ensures And(x, 2 * p - 1) == 2 * And(x / 2, p - 1) + x % 2
  {
    assert (2 * p - 1) / 2 == p - 1 && (2 * p - 1) % 2 == 1;
  }

  lemma {:induction false} ShrDivides(x: nat, k: nat)
    ensures Shr(x, k) == x / Pow2(k)
  {
    if k > 0 {
      ShrDivides(x / 2, k - 1);
      BitSplit(x, Pow2(k - 1));
    }
  }

  /** The ceiling of n / 2^k by shift and mask. */
  function CeilShift(n: nat, k: nat): nat {
    Shr(n, k) + (if And(n, Pow2(k) - 1) != 0 then 1 else 0)
  }

  /** c is the least number with n <= c * p. */
  predicate IsCeiling(c: nat, n: nat, p: nat) {
    n <= c * p && (c > 0 ==> (c - 1) * p < n)
  }

  lemma {:induction false} CeilShiftIsCeiling(n: nat, k: nat)
    ensures IsCeiling(CeilShift(n, k), n, Pow2(k))
    ensures n > 0 ==> CeilShift(n, k) > 0
  {
    ShrDivides(n, k);
    AndMask(n, k);
    hide Shr, And, Pow2;
    DivisionCeiling(n, Pow2(k));
  }

  lemma DivisionCeiling(n: nat, p: nat)
    requires p >= 1
    ensures var c := n / p + (if n % p != 0 then 1 else 0);
            IsCeiling(c, n, p) && (n > 0 ==> c > 0)
  {
    var q, r := n / p, n % p;
    assert n == q * p + r;
    assert (q + 1) * p == q * p + p && (q - 1) * p == q * p - p;
  }

  /** One more bit of the hash value decides between the old place and its image in the upper half. */
  lemma DoubledPlace(h: nat, p: nat)
    requires p >= 1
    ensures h % (2 * p) == h % p || h % (2 * p) == h % p + p
  {
    var q, r := h / (2 * p), h % (2 * p);
    assert h == q * (2 * p) + r;
    if r < p {
      assert h == (2 * q) * p + r;
      ModUnique(h, p, 2 * q, r);
    } else {
      assert h == (2 * q + 1) * p + (r - p);
      ModUnique(h, p, 2 * q + 1, r - p);
    }
  }
}
