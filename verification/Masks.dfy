/** Bit operations on natural numbers, and `calc_mask` of `hmap.c`. */
module Masks {
  function Pow2(k: nat): (r: nat)
    ensures r >= 1
  {
    if k == 0 then 1 else 2 * Pow2(k - 1)
  }

  function Or(x: nat, y: nat): nat
    decreases x + y
  {
    if x == 0 && y == 0 then 0 else 2 * Or(x / 2, y / 2) + (if x % 2 == 1 || y % 2 == 1 then 1 else 0)
  }

  function And(x: nat, y: nat): nat
    decreases x
  {
    if x == 0 || y == 0 then 0 else 2 * And(x / 2, y / 2) + (if x % 2 == 1 && y % 2 == 1 then 1 else 0)
  }

  /** `x >> k` */
  function Shr(x: nat, k: nat): (r: nat)
    decreases k
  {
    if k == 0 then x else Shr(x / 2, k - 1)
  }

  predicate Bit(x: nat, i: nat) {
    Shr(x, i) % 2 == 1
  }

  lemma {:induction false} ShrShr(x: nat, j: nat, k: nat)
    ensures Shr(Shr(x, j), k) == Shr(x, j + k)
    decreases j
  {
    if j > 0 { ShrShr(x / 2, j - 1, k); }
  }

  lemma {:induction false} ShrZero(k: nat)
    ensures Shr(0, k) == 0
    decreases k
  {
    if k > 0 { ShrZero(k - 1); }
  }

  lemma {:induction false} OrBit(x: nat, y: nat, i: nat)
    ensures Bit(Or(x, y), i) <==> Bit(x, i) || Bit(y, i)
    decreases i
  {
    if x == 0 && y == 0 {
      ShrZero(i);
    } else if i > 0 {
      assert Or(x, y) / 2 == Or(x / 2, y / 2);
      OrBit(x / 2, y / 2, i - 1);
    }
  }

  lemma {:induction false} OrBounds(x: nat, y: nat, k: nat)
    requires x < Pow2(k) && y < Pow2(k)
    ensures x <= Or(x, y) < Pow2(k)
    decreases k
  {
    if k > 0 { OrBounds(x / 2, y / 2, k - 1); }
  }

  lemma {:induction false} ShrAtMost(x: nat, k: nat)
    ensures Shr(x, k) <= x
    decreases k
  {
    if k > 0 { ShrAtMost(x / 2, k - 1); }
  }

  lemma {:induction false} AndAtMost(x: nat, y: nat)
    ensures And(x, y) <= y
    decreases x
  {
    if x > 0 && y > 0 { AndAtMost(x / 2, y / 2); }
  }

  /** A number below 2^k has no bit from `k` on. */
  lemma {:induction false} HighBits(x: nat, k: nat, i: nat)
    requires x < Pow2(k) && i >= k
    ensures !Bit(x, i)
    decreases k
  {
    if k == 0 { ShrZero(i); } else { HighBits(x / 2, k - 1, i - 1); }
  }

  // ---- masks ----

  /** Of the form 2^k - 1. */
  ghost predicate IsMask(m: nat) {
    exists k: nat :: m + 1 == Pow2(k)
  }

  ghost predicate Downward(m: nat) {
    forall i: nat | Bit(m, i + 1) :: Bit(m, i)
  }

  /** A number whose bits run down to 0 without a gap is a mask. */
  lemma {:induction false} DownwardIsMask(m: nat)
    requires Downward(m)
    ensures IsMask(m)
  {
    if m == 0 {
      assert m + 1 == Pow2(0);
    } else {
      LowestBit(m);
      forall i: nat | Bit(m / 2, i + 1) ensures Bit(m / 2, i) { assert Bit(m, i + 2) && Bit(m, i + 1); }
      DownwardIsMask(m / 2);
      var k: nat :| m / 2 + 1 == Pow2(k);
      assert m + 1 == Pow2(k + 1);
    }
  }

  lemma {:induction false} LowestBit(m: nat)
    requires Downward(m) && m > 0
    ensures Bit(m, 0)
  {
    if m % 2 == 0 {
      forall i: nat | Bit(m / 2, i + 1) ensures Bit(m / 2, i) { assert Bit(m, i + 2) && Bit(m, i + 1); }
      LowestBit(m / 2);
      assert Bit(m, 1);
    }
  }

  /** `m & (m + 1)` is zero for a mask. */
  lemma {:induction false} MaskTest(m: nat)
    requires IsMask(m)
    ensures And(m, m + 1) == 0
  {
    var k: nat :| m + 1 == Pow2(k);
    MaskTestAt(k);
  }

  lemma {:induction false} MaskTestAt(k: nat)
    ensures And(Pow2(k) - 1, Pow2(k)) == 0
  {
    if k > 0 { MaskTestAt(k - 1); }
  }

  /** Every bit of `from` fills the `w` bits from it downwards in `m`, and `m` has no others. */
  ghost predicate Smeared(from: nat, m: nat, w: nat) {
    && (forall i: nat, j: nat | i <= j < i + w && Bit(from, j) :: Bit(m, i))
    && (forall i: nat | Bit(m, i) :: AnyFrom(from, i))
  }

  ghost predicate AnyFrom(x: nat, i: nat) {
    exists j: nat :: j >= i && Bit(x, j)
  }

  lemma Smear(from: nat, m: nat, w: nat)
    requires Smeared(from, m, w) && w > 0
    ensures Smeared(from, Or(m, Shr(m, w)), 2 * w)
  {
    var to := Or(m, Shr(m, w));
    forall i: nat, j: nat | i <= j < i + 2 * w && Bit(from, j) ensures Bit(to, i) {
      OrBit(m, Shr(m, w), i);
      ShrShr(m, w, i);
      if j >= i + w { assert Bit(m, i + w); }
    }
    forall i: nat | Bit(to, i) ensures AnyFrom(from, i) {
      OrBit(m, Shr(m, w), i);
      ShrShr(m, w, i);
      if !Bit(m, i) {
        assert AnyFrom(from, i + w);
        var j: nat :| j >= i + w && Bit(from, j);
        assert j >= i && Bit(from, j);
      }
    }
  }

  lemma SmearedIsMask(from: nat, m: nat)
    requires from < Pow2(64) && Smeared(from, m, 64)
    ensures IsMask(m)
  {
    forall i: nat | Bit(m, i + 1) ensures Bit(m, i) {
      assert AnyFrom(from, i + 1);
      var j: nat :| j >= i + 1 && Bit(from, j);
      if j >= 64 { HighBits(from, 64, j); }
      assert i <= j < i + 64;
    }
    DownwardIsMask(m);
  }

  /** `calc_mask`: a mask that leaves at most two nodes to a bucket, and fits in 63 bits. */
  method CalcMask(capacity: nat) returns (mask: nat)
    requires capacity < Pow2(64)
    ensures IsMask(mask) && mask >= capacity / 2 && mask < Pow2(63)
    ensures capacity >= 2 ==> mask >= 3
    ensures mask < capacity || mask <= 3
    ensures forall m: nat | IsMask(m) && m >= capacity / 2 :: mask <= m || mask <= 3
  {
    mask := capacity / 2;
    ghost var from := mask;
    assert Pow2(64) == 2 * Pow2(63);
    forall i: nat | Bit(mask, i) ensures AnyFrom(from, i) { assert i >= i && Bit(from, i); }
    assert Smeared(from, mask, 1);
    hide Smeared, Or, Shr, Pow2;
    SmearStep(from, mask, 1);
    mask := Or(mask, Shr(mask, 1));
    SmearStep(from, mask, 2);
    mask := Or(mask, Shr(mask, 2));
    SmearStep(from, mask, 4);
    mask := Or(mask, Shr(mask, 4));
    SmearStep(from, mask, 8);
    mask := Or(mask, Shr(mask, 8));
    SmearStep(from, mask, 16);
    mask := Or(mask, Shr(mask, 16));
    SmearStep(from, mask, 32);
    mask := Or(mask, Shr(mask, 32));
    SmearedIsMask(from, mask);
    ghost var k: nat :| mask + 1 == Pow2(k);
    LeastMask(from, mask, k);
    LastBit(mask, k);
    mask := Or(mask, 2 * (mask % 2));
  }

  /** Smearing makes the least mask that is not below the number. */
  lemma LeastMask(from: nat, m: nat, k: nat)
    requires Smeared(from, m, 64) && m + 1 == Pow2(k)
    ensures m == 0 || m < 2 * from
    ensures forall n: nat | IsMask(n) && n >= from :: m <= n
  {
    if k > 0 {
      TopBit(k);
      assert AnyFrom(from, k - 1);
      var j: nat :| j >= k - 1 && Bit(from, j);
      if from < Pow2(k - 1) { HighBits(from, k - 1, j); }
      forall n: nat | IsMask(n) && n >= from ensures m <= n {
        var i: nat :| n + 1 == Pow2(i);
        if i < k { PowMonotone(i, k - 1); }
        else { PowMonotone(k, i); }
      }
    }
  }

  lemma {:induction false} TopBit(k: nat)
    requires k > 0
    ensures Bit(Pow2(k) - 1, k - 1)
  {
    if k > 1 {
      assert (Pow2(k) - 1) / 2 == Pow2(k - 1) - 1;
      TopBit(k - 1);
    }
  }

  lemma {:induction false} PowMonotone(i: nat, k: nat)
    requires i <= k
    ensures Pow2(i) <= Pow2(k)
    decreases k
  {
    if i < k { PowMonotone(i, k - 1); }
  }

  lemma SmearStep(from: nat, m: nat, w: nat)
    requires Smeared(from, m, w) && w > 0 && from <= m < Pow2(63)
    ensures var to := Or(m, Shr(m, w)); Smeared(from, to, 2 * w) && from <= to < Pow2(63)
  {
    Smear(from, m, w);
    ShrAtMost(m, w);
    OrBounds(m, Shr(m, w), 63);
  }

  /** Setting the second bit too makes a mask of at least 3 of any mask but 0. */
  lemma LastBit(m: nat, k: nat)
    requires m + 1 == Pow2(k) && m < Pow2(63)
    ensures var r := Or(m, 2 * (m % 2)); IsMask(r) && m <= r < Pow2(63) && (m > 0 ==> r >= 3) && (r == m || r == 3)
  {
    hide Or, Pow2;
    SmallPowers();
    if k == 0 {
      OrZero(0);
    } else if k == 1 {
      OneToThree();
    } else {
      QuarterPower(k);
      var h := Pow2(k - 2);
      assert m == 4 * (h - 1) + 3;
      assert m % 2 == 1;
      OrTwo(h - 1);
    }
  }

  lemma SmallPowers()
    ensures Pow2(0) == 1 && Pow2(1) == 2
  {
  }

  lemma QuarterPower(k: nat)
    requires k >= 2
    ensures Pow2(k) == 4 * Pow2(k - 2)
  {
  }

  lemma OneToThree()
    ensures Or(1, 2) == 3 && IsMask(3) && 3 < Pow2(63)
  {
    assert Or(1, 2) == 3 by { assert Or(0, 1) == 1; }
    assert 3 + 1 == Pow2(2);
    assert Pow2(63) == 4 * Pow2(61);
    PowGrows(61);
  }

  lemma PowGrows(k: nat)
    requires k > 0
    ensures Pow2(k) >= 2
  {
  }

  lemma OrTwo(h: nat)
    ensures Or(4 * h + 3, 2) == 4 * h + 3
  {
    assert Or(2 * h + 1, 1) == 2 * h + 1 by { OrZero(h); }
  }

  lemma {:induction false} OrZero(h: nat)
    ensures Or(h, 0) == h
  {
    if h > 0 { OrZero(h / 2); }
  }
}
