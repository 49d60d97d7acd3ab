/** Flows as 46 words, and their sparse form (`flow.h`, `flow.c`). */
module Flow {
  import opened Bits

  /** `sizeof(struct flow) / 4` */
  const FLOW_U32S: nat := 46

  type FlowWords = f: seq<Word> | |f| == 46 witness seq(46, _ => 0)

  /** A sparse flow: two bitmaps with one bit for each word of the flow, and the
      words whose bit is set, in increasing order of offset. */
  datatype Miniflow = Miniflow(map0: Word, map1: Word, values: seq<Word>) {

    function Map(i: nat): Word {
      if i == 0 then map0 else map1
    }

    /** Is the word at offset `o` present? */
    predicate Has(o: nat) {
      if o < 32 then Bit(map0, o) else Bit(map1, o - 32)
    }

    /** The number of words present below offset `o`. */
    function Pos(o: nat): nat {
      if o < 32 then Rank(map0, o) else Popcount(map0) + Rank(map1, o - 32)
    }

    /** The representation invariant stated in `flow.h`: one value for each 1-bit,
        all of them nonzero, and no 1-bit past the end of the flow. */
    ghost predicate Valid() {
      && |values| == Popcount(map0) + Popcount(map1)
      && (forall o: nat | 46 <= o :: !Has(o))
      && (forall p | 0 <= p < |values| :: values[p] != 0)
    }

    /** The word that the flow holds at offset `o`. */
    ghost function At(o: nat): Word {
      if Has(o) && Pos(o) < |values| then values[Pos(o)] else 0
    }

    /** The flow that the sparse form stands for. */
    ghost function Expand(): FlowWords {
      seq(46, o requires 0 <= o => At(o))
    }
  }

  /** Two words agree on the 1-bits of `m`. */
  predicate SameIn(a: Word, b: Word, m: Word) {
    (a ^ b) & m == 0
  }

  /** Two flows agree on the 1-bits of `m`. */
  predicate EqualIn(a: FlowWords, b: FlowWords, m: FlowWords) {
    forall o | 0 <= o < 46 :: SameIn(a[o], b[o], m[o])
  }

  // ---- the sparse form by rank ----

  lemma PosStep(mf: Miniflow, o: nat)
    ensures mf.Pos(o + 1) == mf.Pos(o) + if mf.Has(o) then 1 else 0
  {
    if o < 31 {
      RankStep(mf.map0, o);
    } else if o == 31 {
      RankStep(mf.map0, 31);
      forall j: nat | j >= 32 ensures !Bit(mf.map0, j) { NoBitPast32(mf.map0, j); }
      PopcountIsRank(mf.map0, 32);
    } else {
      RankStep(mf.map1, o - 32);
    }
  }

  lemma {:induction false} PosMonotone(mf: Miniflow, o: nat, q: nat)
    requires o <= q
    ensures mf.Pos(o) <= mf.Pos(q)
    decreases q
  {
    if o < q {
      PosMonotone(mf, o, q - 1);
      PosStep(mf, q - 1);
    }
  }

  lemma PosAtEnd(mf: Miniflow)
    ensures mf.Pos(64) == Popcount(mf.map0) + Popcount(mf.map1)
  {
    forall j: nat | j >= 32 ensures !Bit(mf.map1, j) { NoBitPast32(mf.map1, j); }
    PopcountIsRank(mf.map1, 32);
  }

  lemma PosBound(mf: Miniflow, o: nat)
    requires mf.Valid() && mf.Has(o)
    ensures o < 46 && mf.Pos(o) < |mf.values|
  {
    PosStep(mf, o);
    PosMonotone(mf, o + 1, 64);
    PosAtEnd(mf);
  }

  /** A word is present exactly when it is nonzero. */
  lemma HasIsNonzero(mf: Miniflow, o: nat)
    requires mf.Valid()
    ensures mf.Has(o) <==> mf.At(o) != 0
  {
    if mf.Has(o) { PosBound(mf, o); }
  }

  lemma {:induction false} PosGap(mf: Miniflow, o: nat, q: nat)
    requires o <= q && forall x: nat | o <= x < q :: !mf.Has(x)
    ensures mf.Pos(o) == mf.Pos(q)
    decreases q
  {
    if o < q {
      PosGap(mf, o, q - 1);
      PosStep(mf, q - 1);
    }
  }

  // ---- walking a bitmap: `for (map = m; map; map = zero_rightmost_1bit(map))` ----

  /** `left` is what is left of `m` from bit `k` on. */
  ghost predicate Left(m: Word, left: Word, k: nat) {
    forall j: nat :: Bit(left, j) <==> Bit(m, j) && j >= k
  }

  /** One step of the walk: the next present word is at `32 * i + raw_ctz(left)`. */
  lemma NextWord(mf: Miniflow, i: nat, left: Word, k: nat, rest: Word)
    requires i < 2 && left != 0 && Left(mf.Map(i), left, k) && rest == ZeroRightmost1Bit(left)
    ensures var c := RawCtz(left);
            && k <= c < 32
            && mf.Has(32 * i + c)
            && (forall o | 32 * i + k <= o < 32 * i + c :: !mf.Has(o))
            && mf.Pos(32 * i + c) == mf.Pos(32 * i + k)
            && mf.Pos(32 * i + c + 1) == mf.Pos(32 * i + k) + 1
            && Left(mf.Map(i), rest, c + 1)
  {
    var c := RawCtz(left);
    RawCtzBound(left);
    forall o | 32 * i + k <= o < 32 * i + c ensures !mf.Has(o) {
      RawCtzBits(left, o - 32 * i);
    }
    PosGap(mf, 32 * i + k, 32 * i + c);
    PosStep(mf, 32 * i + c);
    forall j: nat ensures Bit(rest, j) <==> Bit(mf.Map(i), j) && j >= c + 1 {
      ZeroRightmostBits(left, rest, j);
      RawCtzBits(left, j);
    }
  }

  /** The end of the walk over one bitmap. */
  lemma NoMoreWords(mf: Miniflow, i: nat, k: nat)
    requires i < 2 && k <= 32 && Left(mf.Map(i), 0, k)
    ensures forall o | 32 * i + k <= o < 32 * i + 32 :: !mf.Has(o)
    ensures mf.Pos(32 * i + k) == mf.Pos(32 * i + 32)
  {
    forall o | 32 * i + k <= o < 32 * i + 32 ensures !mf.Has(o) {
      ZeroBits(o - 32 * i);
    }
    PosGap(mf, 32 * i + k, 32 * i + 32);
  }

  // ---- `miniflow_get` and comparison ----

  /** `miniflow_get`: the word at `ofs`, found by popcount rank. */
  method MiniflowGet(mf: Miniflow, ofs: nat) returns (r: Word)
    requires mf.Valid() && ofs < 46
    ensures r == mf.Expand()[ofs]
  {
    var present := TestBit(mf.Map(ofs / 32), ofs % 32);
    if !present {
      return 0;
    }
    PosBound(mf, ofs);
    if ofs < 32 {
      var p := PopcountBelow(mf.map0, ofs);
      r := mf.values[p];
    } else {
      var p := PopcountBelow(mf.map1, ofs - 32);
      r := mf.values[Popcount(mf.map0) + p];
    }
  }

  lemma SameInNothing(a: Word, b: Word)
    ensures SameIn(a, b, 0)
  {
  }

  /** Where a walk over the 1-bits of `mf` stands: bits below `k` of bitmap `i` are
      done, `left` holds the others, and `p` indexes the value of the next one. */
  ghost predicate Walk(mf: Miniflow, i: nat, k: nat, left: Word, p: nat) {
    i < 2 && k <= 32 && Left(mf.Map(i), left, k) && p == mf.Pos(32 * i + k)
  }

  lemma PosStart(mf: Miniflow)
    ensures mf.Pos(0) == 0
  {
  }

  lemma WalkStart(mf: Miniflow, i: nat, p: nat)
    requires i < 2 && p == mf.Pos(32 * i)
    ensures Walk(mf, i, 0, mf.Map(i), p)
  {
  }

  /** The next present word is at `32 * i + raw_ctz(left)`, and has value `values[p]`;
      the words skipped are zero. */
  lemma WalkStep(mf: Miniflow, i: nat, k: nat, left: Word, p: nat, rest: Word)
    requires mf.Valid() && Walk(mf, i, k, left, p) && left != 0 && rest == ZeroRightmost1Bit(left)
    ensures var ofs := 32 * i + RawCtz(left);
            && 32 * i + k <= ofs < 46 && RawCtz(left) < 32
            && p < |mf.values| && mf.values[p] == mf.Expand()[ofs] != 0
            && (forall o | 32 * i + k <= o < ofs :: mf.Expand()[o] == 0)
            && Walk(mf, i, RawCtz(left) + 1, rest, p + 1)
  {
    NextWord(mf, i, left, k, rest);
    PosBound(mf, 32 * i + RawCtz(left));
  }

  lemma WalkEnd(mf: Miniflow, i: nat, k: nat, p: nat)
    requires mf.Valid() && Walk(mf, i, k, 0, p)
    ensures p == mf.Pos(32 * i + 32)
    ensures forall o | 32 * i + k <= o < 32 * i + 32 && o < 46 :: mf.Expand()[o] == 0
  {
    NoMoreWords(mf, i, k);
  }

  /** `miniflow_equal_in_minimask` */
  method MiniflowEqualInMinimask(a: Miniflow, b: Miniflow, mask: Miniflow) returns (r: bool)
    requires a.Valid() && b.Valid() && mask.Valid()
    ensures r <==> EqualIn(a.Expand(), b.Expand(), mask.Expand())
  {
    hide Walk, Miniflow.Valid, Miniflow.Expand, Miniflow.At, Miniflow.Pos, RawCtz;
    ghost var A, B, M := a.Expand(), b.Expand(), mask.Expand();
    var p := 0;
    PosStart(mask);
    for i := 0 to 2
      invariant p == mask.Pos(32 * i)
      invariant forall o | 0 <= o < 32 * i && o < 46 :: SameIn(A[o], B[o], M[o])
    {
      var left := mask.Map(i);
      ghost var k := 0;
      WalkStart(mask, i, p);
      while left != 0
        invariant k <= 32 && Walk(mask, i, k, left, p)
        invariant forall o | 0 <= o < 32 * i + k && o < 46 :: SameIn(A[o], B[o], M[o])
        decreases 32 - k
      {
        var rest := ZeroRightmost1Bit(left);
        WalkStep(mask, i, k, left, p, rest);
        var ofs := RawCtz(left) + i * 32;
        var x := MiniflowGet(a, ofs);
        var y := MiniflowGet(b, ofs);
        if !SameIn(x, y, mask.values[p]) {
          return false;
        }
        forall o | 32 * i + k <= o < ofs ensures SameIn(A[o], B[o], M[o]) {
          SameInNothing(A[o], B[o]);
        }
        k := RawCtz(left) + 1;
        p := p + 1;
        left := rest;
      }
      WalkEnd(mask, i, k, p);
      forall o | 32 * i + k <= o < 32 * i + 32 && o < 46 ensures SameIn(A[o], B[o], M[o]) {
        SameInNothing(A[o], B[o]);
      }
    }
    return true;
  }

  /** `miniflow_equal_flow_in_minimask` */
  method MiniflowEqualFlowInMinimask(a: Miniflow, b: FlowWords, mask: Miniflow) returns (r: bool)
    requires a.Valid() && mask.Valid()
    ensures r <==> EqualIn(a.Expand(), b, mask.Expand())
  {
    hide Walk, Miniflow.Valid, Miniflow.Expand, Miniflow.At, Miniflow.Pos, RawCtz;
    ghost var A, M := a.Expand(), mask.Expand();
    var p := 0;
    PosStart(mask);
    for i := 0 to 2
      invariant p == mask.Pos(32 * i)
      invariant forall o | 0 <= o < 32 * i && o < 46 :: SameIn(A[o], b[o], M[o])
    {
      var left := mask.Map(i);
      ghost var k := 0;
      WalkStart(mask, i, p);
      while left != 0
        invariant k <= 32 && Walk(mask, i, k, left, p)
        invariant forall o | 0 <= o < 32 * i + k && o < 46 :: SameIn(A[o], b[o], M[o])
        decreases 32 - k
      {
        var rest := ZeroRightmost1Bit(left);
        WalkStep(mask, i, k, left, p, rest);
        var ofs := RawCtz(left) + i * 32;
        var x := MiniflowGet(a, ofs);
        if !SameIn(x, b[ofs], mask.values[p]) {
          return false;
        }
        forall o | 32 * i + k <= o < ofs ensures SameIn(A[o], b[o], M[o]) {
          SameInNothing(A[o], b[o]);
        }
        k := RawCtz(left) + 1;
        p := p + 1;
        left := rest;
      }
      WalkEnd(mask, i, k, p);
      forall o | 32 * i + k <= o < 32 * i + 32 && o < 46 ensures SameIn(A[o], b[o], M[o]) {
        SameInNothing(A[o], b[o]);
      }
    }
    return true;
  }

  // ---- hashing under a mask ----

  /** The mixing functions `mhash_add` and `mhash_finish`, left uninterpreted. */
  datatype Mixer = Mixer(add: (Word, Word) -> Word, finish: (Word, nat) -> Word)

  /** Mixes into `h` the words from offset `o` on that `m` does not wildcard wholly. */
  function HashFrom(mx: Mixer, f: FlowWords, m: FlowWords, o: nat, h: Word): Word
    requires o <= 46
    decreases 46 - o
  {
    if o == 46 then h
    else HashFrom(mx, f, m, o + 1, if m[o] == 0 then h else mx.add(h, f[o] & m[o]))
  }

  function NonzeroFrom(m: FlowWords, o: nat): nat
    requires o <= 46
    decreases 46 - o
  {
    if o == 46 then 0 else (if m[o] == 0 then 0 else 1) + NonzeroFrom(m, o + 1)
  }

  /** The hash of the bits of `f` under `m`, defined on expanded flows. */
  function HashIn(mx: Mixer, f: FlowWords, m: FlowWords, basis: Word): Word {
    mx.finish(HashFrom(mx, f, m, 0, basis), 4 * NonzeroFrom(m, 0))
  }

  /** The words of `f` under `m`, from offset `o` on, where `m` has any bit. */
  function MaskedWords(f: FlowWords, m: FlowWords, o: nat): seq<Word>
    requires o <= 46
    decreases 46 - o
  {
    if o == 46 then [] else (if m[o] == 0 then [] else [f[o] & m[o]]) + MaskedWords(f, m, o + 1)
  }

  function Mixed(mx: Mixer, h: Word, words: seq<Word>): Word
    decreases |words|
  {
    if words == [] then h else Mixed(mx, mx.add(h, words[0]), words[1..])
  }

  /** The hash mixes in the masked words in order, and then their length in bytes. */
  lemma HashIsMixed(mx: Mixer, f: FlowWords, m: FlowWords, basis: Word)
    ensures var words := MaskedWords(f, m, 0);
            HashIn(mx, f, m, basis) == mx.finish(Mixed(mx, basis, words), 4 * |words|)
  {
    MixedFrom(mx, f, m, 0, basis);
  }

  lemma {:induction false} MixedFrom(mx: Mixer, f: FlowWords, m: FlowWords, o: nat, h: Word)
    requires o <= 46
    ensures HashFrom(mx, f, m, o, h) == Mixed(mx, h, MaskedWords(f, m, o))
    ensures NonzeroFrom(m, o) == |MaskedWords(f, m, o)|
    decreases 46 - o
  {
    if o < 46 {
      var rest, w := MaskedWords(f, m, o + 1), f[o] & m[o];
      MixedFrom(mx, f, m, o + 1, if m[o] == 0 then h else mx.add(h, w));
      assert [] + rest == rest;
      assert ([w] + rest)[0] == w && ([w] + rest)[1..] == rest;
    }
  }

  lemma SameInMasked(a: Word, b: Word, m: Word)
    requires SameIn(a, b, m)
    ensures a & m == b & m
  {
  }

  lemma {:induction false} HashFromAgrees(mx: Mixer, a: FlowWords, b: FlowWords, m: FlowWords, o: nat, h: Word)
    requires o <= 46 && EqualIn(a, b, m)
    ensures HashFrom(mx, a, m, o, h) == HashFrom(mx, b, m, o, h)
    decreases 46 - o
  {
    if o < 46 {
      SameInMasked(a[o], b[o], m[o]);
      HashFromAgrees(mx, a, b, m, o + 1, if m[o] == 0 then h else mx.add(h, a[o] & m[o]));
    }
  }

  /** Flows that agree under a mask have one common hash under it. */
  lemma HashAgrees(mx: Mixer, a: FlowWords, b: FlowWords, m: FlowWords, basis: Word)
    requires EqualIn(a, b, m)
    ensures HashIn(mx, a, m, basis) == HashIn(mx, b, m, basis)
  {
    HashFromAgrees(mx, a, b, m, 0, basis);
  }

  lemma {:induction false} HashGap(mx: Mixer, f: FlowWords, m: FlowWords, o: nat, q: nat, h: Word)
    requires o <= q <= 46 && forall x | o <= x < q :: m[x] == 0
    ensures HashFrom(mx, f, m, o, h) == HashFrom(mx, f, m, q, h)
    ensures NonzeroFrom(m, o) == NonzeroFrom(m, q)
    decreases q - o
  {
    if o < q { HashGap(mx, f, m, o + 1, q, h); }
  }

  function Cap(o: nat): nat {
    if o < 46 then o else 46
  }

  /** What is still to be mixed and counted at offset `o` completes to the hash of `f` under `m`. */
  ghost predicate Mixing(mx: Mixer, f: FlowWords, m: FlowWords, basis: Word, o: nat, h: Word, p: nat) {
    && HashFrom(mx, f, m, Cap(o), h) == HashFrom(mx, f, m, 0, basis)
    && p + NonzeroFrom(m, Cap(o)) == NonzeroFrom(m, 0)
  }

  lemma MixStep(mx: Mixer, f: FlowWords, m: FlowWords, basis: Word, o: nat, h: Word, p: nat, ofs: nat)
    requires o <= ofs < 46 && m[ofs] != 0 && forall x | o <= x < ofs :: m[x] == 0
    requires Mixing(mx, f, m, basis, o, h, p)
    ensures Mixing(mx, f, m, basis, ofs + 1, mx.add(h, Meet(f[ofs], m[ofs])), p + 1)
  {
    HashGap(mx, f, m, o, ofs, h);
  }

  lemma MixSkip(mx: Mixer, f: FlowWords, m: FlowWords, basis: Word, o: nat, h: Word, p: nat, q: nat)
    requires o <= q && forall x | o <= x < q && x < 46 :: m[x] == 0
    requires Mixing(mx, f, m, basis, o, h, p)
    ensures Mixing(mx, f, m, basis, q, h, p)
  {
    HashGap(mx, f, m, Cap(o), Cap(q), h);
  }

  lemma MixStart(mx: Mixer, f: FlowWords, m: FlowWords, basis: Word)
    ensures Mixing(mx, f, m, basis, 0, basis, 0)
  {
  }

  lemma MixEnd(mx: Mixer, f: FlowWords, m: FlowWords, basis: Word, h: Word, p: nat)
    requires Mixing(mx, f, m, basis, 64, h, p)
    ensures mx.finish(h, p * 4) == HashIn(mx, f, m, basis)
  {
  }

  /** `miniflow_hash_in_minimask` */
  method MiniflowHashInMinimask(mx: Mixer, flow: Miniflow, mask: Miniflow, basis: Word) returns (r: Word)
    requires flow.Valid() && mask.Valid()
    ensures r == HashIn(mx, flow.Expand(), mask.Expand(), basis)
  {
    hide *;
    ghost var F, M := flow.Expand(), mask.Expand();
    var p, hash := 0, basis;
    PosStart(mask);
    MixStart(mx, F, M, basis);
    for i := 0 to 2
      invariant p == mask.Pos(32 * i)
      invariant Mixing(mx, F, M, basis, 32 * i, hash, p)
    {
      var left := mask.Map(i);
      ghost var k := 0;
      WalkStart(mask, i, p);
      while left != 0
        invariant k <= 32 && Walk(mask, i, k, left, p)
        invariant Mixing(mx, F, M, basis, 32 * i + k, hash, p)
        decreases 32 - k
      {
        HashTurn(mx, F, mask, basis, i, k, left, hash, p);
        var x := MiniflowGet(flow, RawCtz(left) + i * 32);
        hash := mx.add(hash, Meet(x, mask.values[p]));
        k := RawCtz(left) + 1;
        p := p + 1;
        left := ZeroRightmost1Bit(left);
      }
      WalkEnd(mask, i, k, p);
      MixSkip(mx, F, M, basis, 32 * i + k, hash, p, 32 * i + 32);
    }
    MixEnd(mx, F, M, basis, hash, p);
    r := mx.finish(hash, p * 4);
  }

  /** One turn of the loop over a map, for either form of the flow. */
  lemma HashTurn(mx: Mixer, f: FlowWords, mask: Miniflow, basis: Word, i: nat, k: nat, left: Word, h: Word, p: nat)
    requires mask.Valid() && Walk(mask, i, k, left, p) && left != 0
    requires Mixing(mx, f, mask.Expand(), basis, 32 * i + k, h, p)
    ensures RawCtz(left) < 32 && k <= RawCtz(left) && RawCtz(left) + i * 32 < 46 && p < |mask.values|
    ensures Walk(mask, i, RawCtz(left) + 1, ZeroRightmost1Bit(left), p + 1)
    ensures Mixing(mx, f, mask.Expand(), basis, 32 * i + RawCtz(left) + 1,
                   mx.add(h, Meet(f[RawCtz(left) + i * 32], mask.values[p])), p + 1)
  {
    hide *;
    WalkStep(mask, i, k, left, p, ZeroRightmost1Bit(left));
    MixStep(mx, f, mask.Expand(), basis, 32 * i + k, h, p, RawCtz(left) + i * 32);
  }

  /** `flow_hash_in_minimask` */
  method FlowHashInMinimask(mx: Mixer, flow: FlowWords, mask: Miniflow, basis: Word) returns (r: Word)
    requires mask.Valid()
    ensures r == HashIn(mx, flow, mask.Expand(), basis)
  {
    hide *;
    ghost var M := mask.Expand();
    var p, hash := 0, basis;
    PosStart(mask);
    MixStart(mx, flow, M, basis);
    for i := 0 to 2
      invariant p == mask.Pos(32 * i)
      invariant Mixing(mx, flow, M, basis, 32 * i, hash, p)
    {
      var left := mask.Map(i);
      ghost var k := 0;
      WalkStart(mask, i, p);
      while left != 0
        invariant k <= 32 && Walk(mask, i, k, left, p)
        invariant Mixing(mx, flow, M, basis, 32 * i + k, hash, p)
        decreases 32 - k
      {
        HashTurn(mx, flow, mask, basis, i, k, left, hash, p);
        hash := mx.add(hash, Meet(flow[RawCtz(left) + i * 32], mask.values[p]));
        k := RawCtz(left) + 1;
        p := p + 1;
        left := ZeroRightmost1Bit(left);
      }
      WalkEnd(mask, i, k, p);
      MixSkip(mx, flow, M, basis, 32 * i + k, hash, p, 32 * i + 32);
    }
    MixEnd(mx, flow, M, basis, hash, p);
    r := mx.finish(hash, p * 4);
  }

  // ---- building sparse forms ----

  /** `mf` holds, below offset `o`, the sparse form of `f`: its 1-bits are the nonzero
      words, and the values of those below `o` are stored. */
  ghost predicate Filled(mf: Miniflow, f: FlowWords, o: nat) {
    && |mf.values| == mf.Pos(o)
    && (forall x: nat :: mf.Has(x) <==> x < 46 && f[x] != 0)
    && (forall x | 0 <= x < o && x < 46 && f[x] != 0 :: mf.Pos(x) < |mf.values| && mf.values[mf.Pos(x)] == f[x])
    && (forall p | 0 <= p < |mf.values| :: mf.values[p] != 0)
  }

  lemma FilledStep(mf: Miniflow, f: FlowWords, o: nat, ofs: nat)
    requires Filled(mf, f, o) && o <= ofs < 46 && f[ofs] != 0
    requires forall x | o <= x < ofs :: !mf.Has(x)
    ensures Filled(mf.(values := mf.values + [f[ofs]]), f, ofs + 1)
  {
    var g := mf.(values := mf.values + [f[ofs]]);
    PosGap(mf, o, ofs);
    PosStep(mf, ofs);
    forall x: nat ensures g.Has(x) == mf.Has(x) && g.Pos(x) == mf.Pos(x) {}
  }

  lemma FilledSkip(mf: Miniflow, f: FlowWords, o: nat, q: nat)
    requires Filled(mf, f, o) && o <= q && forall x | o <= x < q :: !mf.Has(x)
    ensures Filled(mf, f, q)
  {
    PosGap(mf, o, q);
  }

  lemma FilledExpands(mf: Miniflow, f: FlowWords)
    requires Filled(mf, f, 64)
    ensures mf.Valid() && mf.Expand() == f
  {
    PosAtEnd(mf);
  }

  /** The 1-bits are the nonzero words below offset `n`. */
  ghost predicate Marked(mf: Miniflow, f: FlowWords, n: nat) {
    n <= 46 && forall x: nat :: mf.Has(x) <==> x < n && f[x] != 0
  }

  lemma MarkStart(f: FlowWords)
    ensures Marked(Miniflow(0, 0, []), f, 0)
  {
    forall x: nat ensures !Miniflow(0, 0, []).Has(x) {
      if x < 32 { ZeroBits(x); } else { ZeroBits(x - 32); }
    }
  }

  lemma MarkStep(mf: Miniflow, f: FlowWords, n: nat, g: Miniflow)
    requires n < 46 && f[n] != 0 && Marked(mf, f, n)
    requires n < 32 ==> g.map0 == mf.map0 | OneBit(n) && g.map1 == mf.map1
    requires n >= 32 ==> g.map0 == mf.map0 && g.map1 == mf.map1 | OneBit(n - 32)
    ensures Marked(g, f, n + 1)
  {
    if n < 32 {
      SetBit(mf.map0, n, OneBit(n), g.map0);
    } else {
      SetBit(mf.map1, n - 32, OneBit(n - 32), g.map1);
    }
    forall x: nat ensures g.Has(x) <==> mf.Has(x) || x == n {}
  }

  lemma MarkedIsFilled(mf: Miniflow, f: FlowWords)
    requires Marked(mf, f, 46) && mf.values == []
    ensures Filled(mf, f, 0)
  {
  }

  /** `miniflow_init`: the sparse form expands back to the flow it was made from. */
  method MiniflowInit(src: FlowWords) returns (dst: Miniflow)
    ensures dst.Valid() && dst.Expand() == src
  {
    hide *;
    dst := MarkWords(src);
    MarkedIsFilled(dst, src);
    for i := 0 to 2
      invariant Filled(dst, src, 32 * i)
    {
      dst := FillWords(dst, src, i);
    }
    FilledExpands(dst, src);
  }

  /** The first loop of `miniflow_init`: one bit for each nonzero word. */
  method MarkWords(src: FlowWords) returns (dst: Miniflow)
    ensures Marked(dst, src, 46) && dst.values == []
  {
    hide *;
    dst := Miniflow(0, 0, []);
    MarkStart(src);
    for i := 0 to 46
      invariant Marked(dst, src, i) && dst.values == []
    {
      if src[i] != 0 {
        SetStep(dst, src, i);
        dst := WithBit(dst, i);
      } else {
        MarkZero(dst, src, i);
      }
    }
  }

  /** `dst->map[i / 32] |= UINT32_C(1) << (i % 32)` */
  function WithBit(mf: Miniflow, i: nat): Miniflow {
    if i / 32 == 0 then mf.(map0 := mf.map0 | OneBit(i % 32)) else mf.(map1 := mf.map1 | OneBit(i % 32))
  }

  lemma SetStep(mf: Miniflow, f: FlowWords, n: nat)
    requires n < 46 && f[n] != 0 && Marked(mf, f, n)
    ensures Marked(WithBit(mf, n), f, n + 1) && WithBit(mf, n).values == mf.values
  {
    hide Marked, OneBit;
    MarkStep(mf, f, n, WithBit(mf, n));
  }

  /** The second: stores the words of one map, in order. */
  method FillWords(was: Miniflow, src: FlowWords, i: nat) returns (dst: Miniflow)
    requires i < 2 && Filled(was, src, 32 * i)
    ensures Filled(dst, src, 32 * i + 32)
  {
    hide Filled, Left, Miniflow.Has, Miniflow.Pos, RawCtz, OneBit;
    dst := was;
    var left := dst.Map(i);
    ghost var k := 0;
    LeftStart(left);
    while left != 0
      invariant k <= 32 && Left(dst.Map(i), left, k)
      invariant Filled(dst, src, 32 * i + k)
      decreases 32 - k
    {
      var rest := ZeroRightmost1Bit(left);
      NextWord(dst, i, left, k, rest);
      var ofs := RawCtz(left) + i * 32;
      FilledHas(dst, src, 32 * i + k, ofs);
      FilledStep(dst, src, 32 * i + k, ofs);
      k := RawCtz(left) + 1;
      dst := dst.(values := dst.values + [src[ofs]]);
      left := rest;
    }
    NoMoreWords(dst, i, k);
    FilledSkip(dst, src, 32 * i + k, 32 * i + 32);
  }

  lemma MarkZero(mf: Miniflow, f: FlowWords, n: nat)
    requires n < 46 && f[n] == 0 && Marked(mf, f, n)
    ensures Marked(mf, f, n + 1)
  {
  }

  lemma LeftStart(m: Word)
    ensures Left(m, m, 0)
  {
  }

  lemma FilledHas(mf: Miniflow, f: FlowWords, o: nat, x: nat)
    requires Filled(mf, f, o) && mf.Has(x)
    ensures x < 46 && f[x] != 0
  {
  }

  // ---- canonicity ----

  lemma {:induction false} PosAgrees(a: Miniflow, b: Miniflow, o: nat)
    requires forall x: nat | x < o :: a.Has(x) == b.Has(x)
    ensures a.Pos(o) == b.Pos(o)
  {
    if o > 0 {
      PosAgrees(a, b, o - 1);
      PosStep(a, o - 1);
      PosStep(b, o - 1);
    }
  }

  /** Every rank below that of `o` belongs to a word below `o`. */
  lemma {:induction false} Select(mf: Miniflow, p: nat, o: nat) returns (x: nat)
    requires p < mf.Pos(o)
    ensures x < o && mf.Has(x) && mf.Pos(x) == p
    decreases o
  {
    PosStart(mf);
    PosStep(mf, o - 1);
    if p < mf.Pos(o - 1) { x := Select(mf, p, o - 1); } else { x := o - 1; }
  }

  lemma SameMaps(a: Miniflow, b: Miniflow)
    requires forall x: nat :: a.Has(x) == b.Has(x)
    ensures a.map0 == b.map0 && a.map1 == b.map1
  {
    forall j: nat ensures Bit(a.map0, j) == Bit(b.map0, j) {
      if j < 32 { assert a.Has(j) == b.Has(j); } else { NoBitPast32(a.map0, j); NoBitPast32(b.map0, j); }
    }
    forall j: nat | j >= 32 ensures !Bit(a.map0, j) && !Bit(a.map1, j) {
      NoBitPast32(a.map0, j);
      NoBitPast32(a.map1, j);
    }
    SameBits(a.map0, b.map0, 32);
    forall j: nat ensures Bit(a.map1, j) == Bit(b.map1, j) { assert a.Has(j + 32) == b.Has(j + 32); }
    SameBits(a.map1, b.map1, 32);
  }

  /** The sparse form is canonical: equal flows have equal sparse forms. */
  lemma Canonical(a: Miniflow, b: Miniflow)
    requires a.Valid() && b.Valid() && a.Expand() == b.Expand()
    ensures a == b
  {
    forall x: nat ensures a.Has(x) == b.Has(x) {
      if x < 46 {
        HasIsNonzero(a, x);
        HasIsNonzero(b, x);
        assert a.Expand()[x] == b.Expand()[x];
      }
    }
    SameMaps(a, b);
    PosAtEnd(a);
    forall p | 0 <= p < |a.values| ensures a.values[p] == b.values[p] {
      var x := Select(a, p, 64);
      PosBound(a, x);
      PosAgrees(a, b, x);
      assert a.Expand()[x] == b.Expand()[x];
    }
  }

  /** `miniflow_equal` compares the maps and then the values. */
  method MiniflowEqual(a: Miniflow, b: Miniflow) returns (r: bool)
    requires a.Valid() && b.Valid()
    ensures r <==> a.Expand() == b.Expand()
    ensures r <==> a == b
  {
    hide *;
    if a.Expand() == b.Expand() { Canonical(a, b); }
    for i := 0 to 2
      invariant forall j: nat | j < i :: a.Map(j) == b.Map(j)
    {
      if a.Map(i) != b.Map(i) { return false; }
    }
    assert a.Map(0) == b.Map(0) && a.Map(1) == b.Map(1);
    ByParts(a, b);
    var n := Popcount(a.map0) + Popcount(a.map1);
    r := a.values[..n] == b.values[..n];
  }

  lemma ByParts(a: Miniflow, b: Miniflow)
    requires a.Valid() && b.Valid() && a.Map(0) == b.Map(0) && a.Map(1) == b.Map(1)
    ensures var n := Popcount(a.map0) + Popcount(a.map1);
            n == |a.values| == |b.values| && (a == b <==> a.values[..n] == b.values[..n])
  {
    hide Popcount, Miniflow.Has;
  }

  // ---- masks ----

  /** `flow_union_with_miniflow`: folds `src` into `dst` in place. */
  method FlowUnionWithMiniflow(dst: array<Word>, src: Miniflow)
    requires dst.Length == 46 && src.Valid()
    modifies dst
    ensures forall o | 0 <= o < 46 :: dst[o] == old(dst[o]) | src.Expand()[o]
  {
    hide Walk, Miniflow.Valid, Miniflow.Expand, Miniflow.At, Miniflow.Pos, RawCtz;
    ghost var S := src.Expand();
    var ofs := 0;
    PosStart(src);
    for i := 0 to 2
      invariant ofs == src.Pos(32 * i)
      invariant forall o | 0 <= o < 46 :: dst[o] == if o < 32 * i then old(dst[o]) | S[o] else old(dst[o])
    {
      var left := src.Map(i);
      ghost var k := 0;
      WalkStart(src, i, ofs);
      while left != 0
        invariant k <= 32 && Walk(src, i, k, left, ofs)
        invariant forall o | 0 <= o < 46 :: dst[o] == if o < 32 * i + k then old(dst[o]) | S[o] else old(dst[o])
        decreases 32 - k
      {
        var rest := ZeroRightmost1Bit(left);
        WalkStep(src, i, k, left, ofs, rest);
        var at := RawCtz(left) + i * 32;
        dst[at] := dst[at] | src.values[ofs];
        forall o | 32 * i + k <= o < at ensures dst[o] == old(dst[o]) | S[o] {
          OrNothing(dst[o]);
        }
        ofs := ofs + 1;
        k := RawCtz(left) + 1;
        left := rest;
      }
      WalkEnd(src, i, k, ofs);
      forall o | 32 * i + k <= o < 32 * i + 32 && o < 46 ensures dst[o] == old(dst[o]) | S[o] {
        OrNothing(dst[o]);
      }
    }
  }

  lemma OrNothing(a: Word)
    ensures a | 0 == a && 0 | a == a
  {
  }

  /** `miniflow_expand` into a fresh flow. */
  method MiniflowExpand(src: Miniflow) returns (dst: array<Word>)
    requires src.Valid()
    ensures fresh(dst) && dst[..] == src.Expand()
  {
    dst := new Word[46](_ => 0);
    FlowUnionWithMiniflow(dst, src);
    forall o | 0 <= o < 46 ensures dst[o] == src.Expand()[o] { OrNothing(src.Expand()[o]); }
  }

  /** Every bit that `b` fixes is fixed in `a`. */
  predicate Covers(a: Word, b: Word) {
    a & b == b
  }

  /** Some bit that `b` fixes is wildcarded in `a`. */
  predicate Extra(a: FlowWords, b: FlowWords) {
    exists o | 0 <= o < 46 :: !Covers(a[o], b[o])
  }

  lemma CoversNothing(a: Word)
    ensures Covers(a, 0)
  {
  }

  /** `e` marks the words present in `a` or in `b`. */
  ghost predicate Either(a: Miniflow, b: Miniflow, e: Miniflow) {
    e.map0 == a.map0 | b.map0 && e.map1 == a.map1 | b.map1
  }

  lemma HasLow(mf: Miniflow, o: nat)
    requires o < 32
    ensures mf.Has(o) == Bit(mf.map0, o)
  {
  }

  lemma HasHigh(mf: Miniflow, o: nat)
    requires o >= 32
    ensures mf.Has(o) == Bit(mf.map1, o - 32)
  {
  }

  lemma EitherHas(a: Miniflow, b: Miniflow, e: Miniflow, o: nat)
    requires Either(a, b, e)
    ensures e.Has(o) <==> a.Has(o) || b.Has(o)
  {
    hide Bit, Miniflow.Has;
    if o < 32 {
      OrBits(a.map0, b.map0, e.map0, o);
      HasLow(a, o); HasLow(b, o); HasLow(e, o);
    } else {
      OrBits(a.map1, b.map1, e.map1, o - 32);
      HasHigh(a, o); HasHigh(b, o); HasHigh(e, o);
    }
  }

  lemma EitherBound(a: Miniflow, b: Miniflow, e: Miniflow, o: nat)
    requires a.Valid() && b.Valid() && Either(a, b, e) && e.Has(o)
    ensures o < 46
  {
    hide Either;
    EitherHas(a, b, e, o);
  }

  lemma NeitherCovers(a: Miniflow, b: Miniflow, e: Miniflow, o: nat)
    requires a.Valid() && b.Valid() && Either(a, b, e) && o < 46 && !e.Has(o)
    ensures Covers(a.Expand()[o], b.Expand()[o])
  {
    hide Either;
    EitherHas(a, b, e, o);
    CoversNothing(a.Expand()[o]);
  }

  lemma EitherMap(a: Miniflow, b: Miniflow, e: Miniflow, i: nat)
    requires Either(a, b, e)
    ensures e.Map(i) == a.Map(i) | b.Map(i)
  {
    if i == 0 {
      assert e.Map(i) == e.map0 && a.Map(i) == a.map0 && b.Map(i) == b.map0;
    } else {
      assert e.Map(i) == e.map1 && a.Map(i) == a.map1 && b.Map(i) == b.map1;
    }
  }

  /** `minimask_has_extra` */
  method MinimaskHasExtra(a: Miniflow, b: Miniflow) returns (r: bool)
    requires a.Valid() && b.Valid()
    ensures r <==> Extra(a.Expand(), b.Expand())
  {
    hide Left, Either, Covers, Miniflow.Valid, Miniflow.Expand, Miniflow.At, Miniflow.Pos, Miniflow.Has, RawCtz,
      ZeroRightmost1Bit;
    ghost var A, B := a.Expand(), b.Expand();
    ghost var e := Miniflow(a.map0 | b.map0, a.map1 | b.map1, []);
    assert Either(a, b, e) by { EitherUnion(a, b, e); }
    for i := 0 to 2
      invariant forall o | 0 <= o < 32 * i && o < 46 :: Covers(A[o], B[o])
    {
      var left := a.Map(i) | b.Map(i);
      ghost var k := 0;
      LeftStart(left);
      EitherMap(a, b, e, i);
      while left != 0
        invariant k <= 32 && Left(e.Map(i), left, k)
        invariant forall o | 0 <= o < 32 * i + k && o < 46 :: Covers(A[o], B[o])
        decreases 32 - k
      {
        var rest := ZeroRightmost1Bit(left);
        NextWord(e, i, left, k, rest);
        var ofs := RawCtz(left) + i * 32;
        EitherBound(a, b, e, ofs);
        forall o | 32 * i + k <= o < ofs ensures Covers(A[o], B[o]) {
          NeitherCovers(a, b, e, o);
        }
        var x := MiniflowGet(a, ofs);
        var y := MiniflowGet(b, ofs);
        if !Covers(x, y) { return true; }
        k := RawCtz(left) + 1;
        left := rest;
      }
      NoMoreWords(e, i, k);
      forall o | 32 * i + k <= o < 32 * i + 32 && o < 46 ensures Covers(A[o], B[o]) {
        NeitherCovers(a, b, e, o);
      }
    }
    return false;
  }

  lemma EitherUnion(a: Miniflow, b: Miniflow, e: Miniflow)
    requires e.map0 == a.map0 | b.map0 && e.map1 == a.map1 | b.map1
    ensures Either(a, b, e)
  {
  }

  /** The words of `a` and `b`, anded, below offset `n`. */
  ghost function AndBelow(a: FlowWords, b: FlowWords, n: nat): FlowWords {
    seq(46, o requires 0 <= o < 46 => if o < n then Meet(a[o], b[o]) else 0)
  }

  /** The bit-wise "and" of two masks. */
  ghost function Combined(a: FlowWords, b: FlowWords): FlowWords {
    seq(46, o requires 0 <= o < 46 => Meet(a[o], b[o]))
  }

  /** A sparse form extended by one word past its last. */
  lemma AppendWord(mf: Miniflow, f: FlowWords, ofs: nat, w: Word, g: Miniflow)
    requires mf.Valid() && mf.Expand() == f && ofs < 46 && w != 0
    requires forall o | ofs <= o < 46 :: f[o] == 0
    requires ofs < 32 ==> g.map0 == mf.map0 | OneBit(ofs) && g.map1 == mf.map1
    requires ofs >= 32 ==> g.map0 == mf.map0 && g.map1 == mf.map1 | OneBit(ofs - 32)
    requires g.values == mf.values + [w]
    ensures g.Valid() && g.Expand() == f[ofs := w]
  {
    forall x: nat ensures mf.Has(x) <==> x < 46 && f[x] != 0 {
      if x < 46 { HasIsNonzero(mf, x); assert f[x] == mf.Expand()[x]; }
    }
    assert Marked(mf, f, 46);
    assert Marked(mf, f[ofs := w], ofs) by { AppendMarks(mf, f, ofs, w); }
    MarkStep(mf, f[ofs := w], ofs, g);
    AppendValues(mf, f, ofs, w, g);
  }

  lemma AppendMarks(mf: Miniflow, f: FlowWords, ofs: nat, w: Word)
    requires Marked(mf, f, 46) && ofs < 46
    requires forall o | ofs <= o < 46 :: f[o] == 0
    ensures Marked(mf, f[ofs := w], ofs)
  {
  }

  lemma AppendValues(mf: Miniflow, f: FlowWords, ofs: nat, w: Word, g: Miniflow)
    requires mf.Valid() && mf.Expand() == f && ofs < 46 && w != 0
    requires Marked(mf, f[ofs := w], ofs) && Marked(g, f[ofs := w], ofs + 1)
    requires g.values == mf.values + [w]
    ensures g.Valid() && g.Expand() == f[ofs := w]
  {
    forall x: nat | x < ofs ensures g.Has(x) == mf.Has(x) {}
    PosAgrees(mf, g, ofs);
    PosGap(mf, ofs, 64);
    PosStep(g, ofs);
    PosGap(g, ofs + 1, 64);
    PosAtEnd(mf);
    PosAtEnd(g);
    forall o | 0 <= o < 46 ensures g.At(o) == f[ofs := w][o] {
      assert g.Has(o) <==> o < ofs + 1 && f[ofs := w][o] != 0;
      if o < ofs {
        PosAgrees(mf, g, o);
        assert f[o] == mf.Expand()[o] == mf.At(o);
        if mf.Has(o) { PosBound(mf, o); }
      }
    }
  }

  /** `e` marks the words present in both `a` and `b`. */
  ghost predicate Both(a: Miniflow, b: Miniflow, e: Miniflow) {
    e.map0 == a.map0 & b.map0 && e.map1 == a.map1 & b.map1
  }

  lemma BothHas(a: Miniflow, b: Miniflow, e: Miniflow, o: nat)
    requires Both(a, b, e)
    ensures e.Has(o) <==> a.Has(o) && b.Has(o)
  {
    hide Bit, Miniflow.Has;
    if o < 32 {
      AndBits(a.map0, b.map0, e.map0, o);
      HasLow(a, o); HasLow(b, o); HasLow(e, o);
    } else {
      AndBits(a.map1, b.map1, e.map1, o - 32);
      HasHigh(a, o); HasHigh(b, o); HasHigh(e, o);
    }
  }

  lemma BothBound(a: Miniflow, b: Miniflow, e: Miniflow, o: nat)
    requires a.Valid() && b.Valid() && Both(a, b, e) && e.Has(o)
    ensures o < 46
  {
    hide Both;
    BothHas(a, b, e, o);
  }

  lemma AndNothing(a: Word)
    ensures a & 0 == 0 && 0 & a == 0
  {
  }

  lemma NotBothIsZero(a: Miniflow, b: Miniflow, e: Miniflow, o: nat)
    requires a.Valid() && b.Valid() && Both(a, b, e) && o < 46 && !e.Has(o)
    ensures Meet(a.Expand()[o], b.Expand()[o]) == 0
  {
    hide Both;
    BothHas(a, b, e, o);
    AndNothing(a.Expand()[o]);
    AndNothing(b.Expand()[o]);
  }

  lemma BothMap(a: Miniflow, b: Miniflow, e: Miniflow, i: nat)
    requires Both(a, b, e)
    ensures e.Map(i) == Meet(a.Map(i), b.Map(i))
  {
    if i == 0 {
      assert e.Map(i) == e.map0 && a.Map(i) == a.map0 && b.Map(i) == b.map0;
    } else {
      assert e.Map(i) == e.map1 && a.Map(i) == a.map1 && b.Map(i) == b.map1;
    }
  }

  lemma BothMeet(a: Miniflow, b: Miniflow, e: Miniflow)
    requires e.map0 == Meet(a.map0, b.map0) && e.map1 == Meet(a.map1, b.map1)
    ensures Both(a, b, e)
  {
  }

  /** `dst` is the sparse form of `a & b` below offset `o`. */
  ghost predicate Combining(a: FlowWords, b: FlowWords, o: nat, dst: Miniflow) {
    dst.Valid() && dst.Expand() == AndBelow(a, b, o)
  }

  lemma CombineStart(a: FlowWords, b: FlowWords)
    ensures Combining(a, b, 0, Miniflow(0, 0, []))
  {
    var e := Miniflow(0, 0, []);
    MarkStart(a);
    assert e.Expand() == AndBelow(a, b, 0);
  }

  lemma CombineSkip(a: FlowWords, b: FlowWords, o: nat, q: nat, dst: Miniflow)
    requires Combining(a, b, o, dst) && o <= q
    requires forall x | o <= x < q && x < 46 :: Meet(a[x], b[x]) == 0
    ensures Combining(a, b, q, dst)
  {
  }

  lemma CombineAppend(a: FlowWords, b: FlowWords, o: nat, dst: Miniflow, g: Miniflow)
    requires Combining(a, b, o, dst) && o < 46 && Meet(a[o], b[o]) != 0
    requires o < 32 ==> g.map0 == Join(dst.map0, OneBit(o)) && g.map1 == dst.map1
    requires o >= 32 ==> g.map0 == dst.map0 && g.map1 == Join(dst.map1, OneBit(o - 32))
    requires g.values == dst.values + [Meet(a[o], b[o])]
    ensures Combining(a, b, o + 1, g)
  {
    hide Miniflow.Valid, Miniflow.Expand, OneBit;
    AppendWord(dst, AndBelow(a, b, o), o, Meet(a[o], b[o]), g);
    assert AndBelow(a, b, o)[o := Meet(a[o], b[o])] == AndBelow(a, b, o + 1);
  }

  /** The body of the loop of `minimask_combine`: store the word, if nonzero, and its bit. */
  method CombineOne(was: Miniflow, i: nat, left: Word, w: Word, ghost a: FlowWords, ghost b: FlowWords)
    returns (dst: Miniflow)
    requires i < 2 && left != 0 && RawCtz(left) < 32 && 32 * i + RawCtz(left) < 46
    requires Combining(a, b, 32 * i + RawCtz(left), was)
    requires w == Meet(a[32 * i + RawCtz(left)], b[32 * i + RawCtz(left)])
    ensures Combining(a, b, 32 * i + RawCtz(left) + 1, dst)
  {
    hide Combining, RawCtz, OneBit, Rightmost1Bit, Meet, Join;
    ghost var ofs := 32 * i + RawCtz(left);
    if w == 0 {
      CombineSkip(a, b, ofs, ofs + 1, was);
      return was;
    }
    var bit := Rightmost1Bit(left);
    RightmostIsOneBit(left);
    if i == 0 {
      dst := Miniflow(Join(was.map0, bit), was.map1, was.values + [w]);
    } else {
      dst := Miniflow(was.map0, Join(was.map1, bit), was.values + [w]);
    }
    CombineAppend(a, b, ofs, was, dst);
  }

  /** `minimask_combine`: the sparse form of the bit-wise "and". */
  method MinimaskCombine(a: Miniflow, b: Miniflow) returns (dst: Miniflow)
    requires a.Valid() && b.Valid()
    ensures dst.Valid() && dst.Expand() == Combined(a.Expand(), b.Expand())
  {
    hide Left, Both, Combining, Miniflow.Valid, Miniflow.Expand, Miniflow.At, Miniflow.Pos, Miniflow.Has, RawCtz,
      ZeroRightmost1Bit, OneBit, Meet;
    ghost var A, B := a.Expand(), b.Expand();
    ghost var e := Miniflow(Meet(a.map0, b.map0), Meet(a.map1, b.map1), []);
    assert Both(a, b, e) by { BothMeet(a, b, e); }
    dst := Miniflow(0, 0, []);
    CombineStart(A, B);
    for i := 0 to 2
      invariant Combining(A, B, 32 * i, dst)
    {
      var left := Meet(a.Map(i), b.Map(i));
      ghost var k := 0;
      LeftStart(left);
      BothMap(a, b, e, i);
      while left != 0
        invariant k <= 32 && Left(e.Map(i), left, k)
        invariant Combining(A, B, 32 * i + k, dst)
        decreases 32 - k
      {
        var rest := ZeroRightmost1Bit(left);
        NextWord(e, i, left, k, rest);
        var ofs := RawCtz(left) + i * 32;
        BothBound(a, b, e, ofs);
        forall o | 32 * i + k <= o < ofs ensures Meet(A[o], B[o]) == 0 { NotBothIsZero(a, b, e, o); }
        CombineSkip(A, B, 32 * i + k, ofs, dst);
        var x := MiniflowGet(a, ofs);
        var y := MiniflowGet(b, ofs);
        dst := CombineOne(dst, i, left, Meet(x, y), A, B);
        k := RawCtz(left) + 1;
        left := rest;
      }
      NoMoreWords(e, i, k);
      forall o | 32 * i + k <= o < 32 * i + 32 && o < 46 ensures Meet(A[o], B[o]) == 0 { NotBothIsZero(a, b, e, o); }
      CombineSkip(A, B, 32 * i + k, 32 * i + 32, dst);
    }
    CombineEnd(A, B, dst);
  }

  lemma CombineEnd(a: FlowWords, b: FlowWords, dst: Miniflow)
    requires Combining(a, b, 64, dst)
    ensures dst.Valid() && dst.Expand() == Combined(a, b)
  {
  }

  /** `minimask_is_catchall`: no 1-bit in either map. */
  function MinimaskIsCatchall(mask: Miniflow): (r: bool)
    requires mask.Valid()
    ensures r <==> forall o | 0 <= o < 46 :: mask.Expand()[o] == 0
  {
    CatchallWords(mask);
    mask.map0 | mask.map1 == 0
  }

  lemma OrIsZero(a: Word, b: Word)
    ensures a | b == 0 <==> a == 0 && b == 0
  {
  }

  lemma CatchallWords(mask: Miniflow)
    requires mask.Valid()
    ensures mask.map0 | mask.map1 == 0 <==> forall o | 0 <= o < 46 :: mask.Expand()[o] == 0
  {
    hide Miniflow.Valid, Bit, RawCtz;
    OrIsZero(mask.map0, mask.map1);
    if mask.map0 == 0 && mask.map1 == 0 {
      forall o | 0 <= o < 46 ensures mask.At(o) == 0 { if o < 32 { ZeroBits(o); } else { ZeroBits(o - 32); } }
    } else if mask.map0 != 0 {
      var c := RawCtz(mask.map0);
      RawCtzBound(mask.map0);
      HasIsNonzero(mask, c);
      assert mask.Expand()[c] != 0;
    } else {
      var c := RawCtz(mask.map1) + 32;
      RawCtzBound(mask.map1);
      HasIsNonzero(mask, c);
      PosBound(mask, c);
      assert mask.Expand()[c] != 0;
    }
  }
}
