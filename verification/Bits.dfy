/** The 32-bit word tricks of `util.h` and `util.c`, related to a bit-by-bit view.
    Every definition shifts by one constant place, so that the solver never has to
    reason about a variable shift. */
module Bits {

  type Word = bv32

  const WORD_BITS: nat := 32

  function Half(m: Word): (r: Word)
    ensures m != 0 ==> r < m
  {
    m >> 1
  }

  function Double(m: Word): Word {
    m << 1
  }

  predicate Low(m: Word) {
    m & 1 == 1
  }

  /** Is bit `j` of `m` a 1-bit? */
  predicate Bit(m: Word, j: nat) {
    if j == 0 then Low(m) else Bit(Half(m), j - 1)
  }

  /** `1u << k` */
  function OneBit(k: nat): Word {
    if k == 0 then 1 else Double(OneBit(k - 1))
  }

  /** `raw_ctz`: the number of trailing 0-bits. */
  function RawCtz(m: Word): nat
    requires m != 0
    decreases m
  {
    if Low(m) || Half(m) == 0 then 0 else 1 + RawCtz(Half(m))
  }

  /** `popcount` */
  function Popcount(m: Word): nat
    decreases m
  {
    if m == 0 then 0 else (if Low(m) then 1 else 0) + Popcount(Half(m))
  }

  /** The number of 1-bits of `m` strictly below bit `k`. */
  function Rank(m: Word, k: nat): nat {
    if k == 0 then 0 else (if Low(m) then 1 else 0) + Rank(Half(m), k - 1)
  }

  function ZeroRightmost1Bit(m: Word): Word {
    m & (m - 1)
  }

  function Rightmost1Bit(m: Word): Word {
    m & (0 - m)
  }

  function Meet(a: Word, b: Word): Word {
    a & b
  }

  function Join(a: Word, b: Word): Word {
    a | b
  }

  // ---- one-place facts about words ----

  lemma ZeroRightmostOdd(m: Word, n: Word)
    requires Low(m) && n == m & (m - 1)
    ensures !Low(n) && Half(n) == Half(m)
  {
  }

  lemma ZeroRightmostEven(m: Word, n: Word)
    requires m != 0 && !Low(m) && n == m & (m - 1)
    ensures !Low(n) && Half(m) != 0 && Half(n) == Half(m) & (Half(m) - 1)
  {
  }

  lemma RightmostStep(m: Word, n: Word)
    requires m != 0 && n == Rightmost1Bit(m)
    ensures Low(m) ==> n == 1
    ensures !Low(m) ==> Half(m) != 0 && n == Double(Rightmost1Bit(Half(m)))
  {
  }

  lemma AndStep(a: Word, b: Word, n: Word)
    requires n == a & b
    ensures Half(n) == Half(a) & Half(b)
    ensures Low(n) <==> Low(a) && Low(b)
  {
  }

  lemma OrStep(a: Word, b: Word, n: Word)
    requires n == a | b
    ensures Half(n) == Half(a) | Half(b)
    ensures Low(n) <==> Low(a) || Low(b)
  {
  }

  lemma ZeroStep(m: Word)
    ensures m == 0 <==> !Low(m) && Half(m) == 0
    ensures Half(0) == 0 && !Low(0) && Half(1) == 0 && Low(1)
  {
  }

  /** A doubled word whose top bit was clear halves back. */
  lemma DoubleStep(m: Word, n: Word)
    requires n == Double(m) && m & 0x8000_0000 == 0
    ensures !Low(n) && Half(n) == m
  {
  }

  lemma DoubleLessOne(m: Word, n: Word)
    requires n == Double(m) && m & 0x8000_0000 == 0 && m != 0
    ensures Half(n - 1) == m - 1 && Low(n - 1)
  {
  }

  lemma SameHalves(a: Word, b: Word)
    requires Low(a) == Low(b) && Half(a) == Half(b)
    ensures a == b
  {
  }

  // ---- bit-by-bit readings ----

  lemma {:induction false} ZeroBits(j: nat)
    ensures !Bit(0, j)
  {
    ZeroStep(0);
    if j > 0 { ZeroBits(j - 1); }
  }

  /** `m & (m - 1)` clears exactly the bit that `raw_ctz` names. */
  lemma {:induction false} ZeroRightmostBits(m: Word, n: Word, j: nat)
    requires m != 0 && n == m & (m - 1)
    ensures Bit(n, j) <==> Bit(m, j) && j != RawCtz(m)
    decreases j
  {
    if Low(m) {
      ZeroRightmostOdd(m, n);
    } else {
      ZeroRightmostEven(m, n);
      if j > 0 { ZeroRightmostBits(Half(m), Half(n), j - 1); }
    }
  }

  /** `raw_ctz` is the least 1-bit. */
  lemma {:induction false} RawCtzBits(m: Word, j: nat)
    requires m != 0
    ensures j < RawCtz(m) ==> !Bit(m, j)
    ensures j == RawCtz(m) ==> Bit(m, j)
    decreases j
  {
    ZeroStep(m);
    if !Low(m) && j > 0 { RawCtzBits(Half(m), j - 1); }
  }

  lemma {:induction false} AndBits(a: Word, b: Word, n: Word, j: nat)
    requires n == a & b
    ensures Bit(n, j) <==> Bit(a, j) && Bit(b, j)
    decreases j
  {
    AndStep(a, b, n);
    if j > 0 { AndBits(Half(a), Half(b), Half(n), j - 1); }
  }

  lemma {:induction false} OrBits(a: Word, b: Word, n: Word, j: nat)
    requires n == a | b
    ensures Bit(n, j) <==> Bit(a, j) || Bit(b, j)
    decreases j
  {
    OrStep(a, b, n);
    if j > 0 { OrBits(Half(a), Half(b), Half(n), j - 1); }
  }

  lemma EightHalves(m: Word)
    ensures Half(Half(Half(Half(Half(Half(Half(Half(m)))))))) == m >> 8
  {
  }

  lemma BitPastFour(m: Word, j: nat)
    requires j >= 4
    ensures Bit(m, j) == Bit(Half(Half(Half(Half(m)))), j - 4)
  {
    var a := Half(m); var b := Half(a); var c := Half(b);
    assert Bit(m, j) == Bit(a, j - 1);
    assert Bit(a, j - 1) == Bit(b, j - 2);
    assert Bit(b, j - 2) == Bit(c, j - 3);
  }

  lemma BitPastOctet(m: Word, n: Word, j: nat)
    requires j >= 8 && n == m >> 8
    ensures Bit(m, j) == Bit(n, j - 8)
  {
    BitPastFour(m, j);
    BitPastFour(Half(Half(Half(Half(m)))), j - 4);
    EightHalves(m);
  }

  lemma NoBitPast32(m: Word, j: nat)
    requires j >= 32
    ensures !Bit(m, j)
  {
    var a := m >> 8; var b := a >> 8; var c := b >> 8; var d := c >> 8;
    BitPastOctet(m, a, j);
    BitPastOctet(a, b, j - 8);
    BitPastOctet(b, c, j - 16);
    BitPastOctet(c, d, j - 24);
    assert d == 0;
    ZeroBits(j - 32);
  }

  lemma RawCtzBound(m: Word)
    requires m != 0
    ensures RawCtz(m) < 32 && Bit(m, RawCtz(m))
  {
    RawCtzBits(m, RawCtz(m));
    if RawCtz(m) >= 32 { NoBitPast32(m, RawCtz(m)); }
  }

  /** Two words with the same 32 bits are the same word. */
  lemma {:induction false} SameBits(a: Word, b: Word, k: nat)
    requires forall j: nat :: Bit(a, j) == Bit(b, j)
    requires forall j: nat | j >= k :: !Bit(a, j)
    ensures a == b
    decreases k
  {
    assert Bit(a, 0) == Bit(b, 0);
    if k == 0 {
      NoBitsNoWord(a);
      NoBitsNoWord(b);
    } else {
      forall j: nat ensures Bit(Half(a), j) == Bit(Half(b), j) {
        assert Bit(a, j + 1) == Bit(b, j + 1);
      }
      forall j: nat | j >= k - 1 ensures !Bit(Half(a), j) {
        assert !Bit(a, j + 1);
      }
      SameBits(Half(a), Half(b), k - 1);
      SameHalves(a, b);
    }
  }

  lemma NoBitsNoWord(m: Word)
    requires forall j: nat :: !Bit(m, j)
    ensures m == 0
  {
    if m != 0 { RawCtzBound(m); }
  }

  // ---- `1u << k` and `(1u << k) - 1` ----

  lemma OneBitLowHalf(k: nat)
    requires k < 16
    ensures OneBit(k) != 0 && OneBit(k) & 0x8000_0000 == 0
    ensures OneBit(15) == 0x8000
  {
    assert OneBit(1) == 0x2;
    assert OneBit(2) == 0x4;
    assert OneBit(3) == 0x8;
    assert OneBit(4) == 0x10;
    assert OneBit(5) == 0x20;
    assert OneBit(6) == 0x40;
    assert OneBit(7) == 0x80;
    assert OneBit(8) == 0x100;
    assert OneBit(9) == 0x200;
    assert OneBit(10) == 0x400;
    assert OneBit(11) == 0x800;
    assert OneBit(12) == 0x1000;
    assert OneBit(13) == 0x2000;
    assert OneBit(14) == 0x4000;
    assert OneBit(15) == 0x8000;
  }

  lemma OneBitHighHalf(k: nat)
    requires 16 <= k < 32
    ensures OneBit(k) != 0
    ensures k < 31 ==> OneBit(k) & 0x8000_0000 == 0
  {
    OneBitLowHalf(15);
    assert OneBit(16) == 0x10000;
    assert OneBit(17) == 0x20000;
    assert OneBit(18) == 0x40000;
    assert OneBit(19) == 0x80000;
    assert OneBit(20) == 0x100000;
    assert OneBit(21) == 0x200000;
    assert OneBit(22) == 0x400000;
    assert OneBit(23) == 0x800000;
    assert OneBit(24) == 0x1000000;
    assert OneBit(25) == 0x2000000;
    assert OneBit(26) == 0x4000000;
    assert OneBit(27) == 0x8000000;
    assert OneBit(28) == 0x10000000;
    assert OneBit(29) == 0x20000000;
    assert OneBit(30) == 0x40000000;
    assert OneBit(31) == 0x80000000;
  }

  lemma OneBitTop(k: nat)
    requires k < 32
    ensures OneBit(k) != 0
    ensures k < 31 ==> OneBit(k) & 0x8000_0000 == 0
  {
    if k < 16 { OneBitLowHalf(k); } else { OneBitHighHalf(k); }
  }

  /** `1u << k` has the one bit `k`. */
  lemma {:induction false} OneBitBits(k: nat, j: nat)
    requires k < 32
    ensures Bit(OneBit(k), j) <==> j == k
  {
    ZeroStep(0);
    if k == 0 {
      if j > 0 { ZeroBits(j - 1); }
    } else {
      OneBitTop(k - 1);
      DoubleStep(OneBit(k - 1), OneBit(k));
      if j > 0 { OneBitBits(k - 1, j - 1); }
    }
  }

  /** `l` is the word whose `k` lowest bits, and no others, are 1-bits. */
  ghost predicate LowOnes(l: Word, k: nat) {
    if k == 0 then l == 0 else Low(l) && LowOnes(Half(l), k - 1)
  }

  lemma {:induction false} OneBitLessOne(k: nat, l: Word)
    requires k < 32 && l == OneBit(k) - 1
    ensures LowOnes(l, k)
  {
    if k > 0 {
      LowOnesStep(k, l);
      OneBitLessOne(k - 1, Half(l));
    }
  }

  lemma {:induction false} PopcountUnderLowOnes(m: Word, k: nat, l: Word, n: Word)
    requires LowOnes(l, k) && n == m & l
    ensures Popcount(n) == Rank(m, k)
    decreases k
  {
    if k > 0 {
      AndStep(m, l, n);
      PopcountUnderLowOnes(Half(m), k - 1, Half(l), Half(n));
      PopcountStep(n);
    }
  }

  /** `popcount(m & ((1u << k) - 1))` is the rank of bit `k`. */
  lemma PopcountOfLowBits(m: Word, k: nat, l: Word, n: Word)
    requires k < 32 && l == OneBit(k) - 1 && n == m & l
    ensures Popcount(n) == Rank(m, k)
  {
    OneBitLessOne(k, l);
    PopcountUnderLowOnes(m, k, l, n);
  }

  lemma PopcountStep(n: Word)
    ensures Popcount(n) == (if Low(n) then 1 else 0) + Popcount(Half(n))
  {
    ZeroStep(n);
  }

  lemma LowOnesStep(k: nat, l: Word)
    requires 0 < k < 32 && l == OneBit(k) - 1
    ensures Low(l) && Half(l) == OneBit(k - 1) - 1
  {
    OneBitTop(k - 1);
    DoubleLessOne(OneBit(k - 1), OneBit(k));
  }

  /** The whole count is the rank of any bit past the last 1-bit. */
  lemma {:induction false} PopcountIsRank(m: Word, k: nat)
    requires forall j: nat | j >= k :: !Bit(m, j)
    ensures Popcount(m) == Rank(m, k)
    decreases k
  {
    if k == 0 {
      NoBitsNoWord(m);
    } else {
      forall j: nat | j >= k - 1 ensures !Bit(Half(m), j) {
        assert !Bit(m, j + 1);
      }
      PopcountIsRank(Half(m), k - 1);
      if m == 0 { ZeroStep(m); ZeroRank(k - 1); }
    }
  }

  lemma {:induction false} ZeroRank(k: nat)
    ensures Rank(0, k) == 0
  {
    ZeroStep(0);
    if k > 0 { ZeroRank(k - 1); }
  }

  lemma {:induction false} RankStep(m: Word, k: nat)
    ensures Rank(m, k + 1) == Rank(m, k) + if Bit(m, k) then 1 else 0
  {
    if k > 0 { RankStep(Half(m), k - 1); }
  }

  /** A stretch without 1-bits does not change the rank. */
  lemma {:induction false} RankGap(m: Word, k: nat, l: nat)
    requires k <= l && forall j: nat | k <= j < l :: !Bit(m, j)
    ensures Rank(m, k) == Rank(m, l)
    decreases l - k
  {
    if k < l {
      RankGap(m, k, l - 1);
      RankStep(m, l - 1);
    }
  }

  /** `m & -m` is `1u << raw_ctz(m)`. */
  lemma {:induction false} RightmostIsOneBit(m: Word)
    requires m != 0
    ensures Rightmost1Bit(m) == OneBit(RawCtz(m))
    decreases m
  {
    RightmostStep(m, Rightmost1Bit(m));
    if !Low(m) { RightmostIsOneBit(Half(m)); }
  }

  lemma TestBitWord(m: Word, k: nat, b: Word, n: Word)
    requires k < 32 && b == OneBit(k) && n == m & b
    ensures n != 0 <==> Bit(m, k)
  {
    AndBits(m, b, n, k);
    OneBitBits(k, k);
    if n != 0 {
      RawCtzBound(n);
      AndBits(m, b, n, RawCtz(n));
      OneBitBits(k, RawCtz(n));
    } else {
      ZeroBits(k);
    }
  }

  /** `m & (1u << k)` */
  method TestBit(m: Word, k: nat) returns (r: bool)
    requires k < 32
    ensures r <==> Bit(m, k)
  {
    var b := OneBit(k);
    var n := m & b;
    TestBitWord(m, k, b, n);
    r := n != 0;
  }

  /** `popcount(m & ((1u << k) - 1))` */
  method PopcountBelow(m: Word, k: nat) returns (r: nat)
    requires k < 32
    ensures r == Rank(m, k)
  {
    var l := OneBit(k) - 1;
    var n := m & l;
    PopcountOfLowBits(m, k, l, n);
    r := Popcount(n);
  }

  /** `m | (1u << k)` sets bit `k`. */
  lemma SetBit(m: Word, k: nat, b: Word, n: Word)
    requires k < 32 && b == OneBit(k) && n == m | b
    ensures forall j: nat :: Bit(n, j) <==> Bit(m, j) || j == k
  {
    forall j: nat ensures Bit(n, j) <==> Bit(m, j) || j == k {
      OrBits(m, b, n, j);
      OneBitBits(k, j);
    }
  }
}
