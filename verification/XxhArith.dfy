/** Word arithmetic of xxHash (deps/xxhash/xxhash.h): the portable 64x64 to 128 bit multiply,
    the scalar and the SIMD forms of the stripe round and of the scramble.  Words are integers
    below 2^64 and every machine operation that can wrap is written with its wrap. */
module XxhArith {
  import opened Bytes
  import opened Powers

  const PRIME32_1 := 0x9E3779B1
  const PRIME32_2 := 0x85EBCA77

  function Add64(a: U64, b: U64): U64 { (a + b) % TWO64 }
  function Lo32(a: U64): (r: U64) ensures r < TWO32 { a % TWO32 }
  function Hi32(a: U64): (r: U64) ensures r < TWO32 { a / TWO32 }
  function Shl32(a: U64): U64 { (a * TWO32) % TWO64 }

  lemma {:induction false} MulMonotonic(z: nat, x: nat, y: nat)
    requires x <= y
    ensures z * x <= z * y
  {
    assert z * y == z * x + z * (y - x) by { Distribute(z, x, y - x); }
  }

  lemma {:induction false} Distribute(z: nat, x: nat, y: nat)
    ensures z * (x + y) == z * x + z * y
  {}

  lemma {:induction false} ProductBound(a: nat, b: nat)
    requires a < TWO32 && b < TWO32
    ensures a * b <= (TWO32 - 1) * (TWO32 - 1)
  {
    MulMonotonic(a, b, TWO32 - 1);
  }

  /** XXH_mult32to64: both arguments are truncated to 32 bits. */
  function Mult32to64(a: U64, b: U64): (r: U64)
    ensures r <= (TWO32 - 1) * (TWO32 - 1)
  {
    ProductBound(Lo32(a), Lo32(b));
    Lo32(a) * Lo32(b)
  }

  lemma {:induction false} SplitProduct(a1: nat, a0: nat, b1: nat, b0: nat)
    ensures (a1 * TWO32 + a0) * (b1 * TWO32 + b0)
         == a1 * b1 * TWO64 + (a1 * b0 + a0 * b1) * TWO32 + a0 * b0
  {
    var x, y := a1 * TWO32, b1 * TWO32;
    assert (x + a0) * (y + b0) == x * y + x * b0 + a0 * y + a0 * b0;
    assert x * y == a1 * b1 * TWO64 && x * b0 == a1 * b0 * TWO32 && a0 * y == a0 * b1 * TWO32;
  }

  lemma {:induction false} Mult32Exact(a: U64, b: U64)
    requires a < TWO32 && b < TWO32
    ensures Mult32to64(a, b) == a * b
  {}

  /** How XXH_mult64to128 adds up the four partial products, with the wrapping additions of
      the machine: that the two halves are the exact sum means none of them wraps. */
  function SumPartialProducts(loLo: U64, hiLo: U64, loHi: U64, hiHi: U64): (r: (U64, U64))
    requires loLo <= (TWO32 - 1) * (TWO32 - 1) && hiLo <= (TWO32 - 1) * (TWO32 - 1)
    requires loHi <= (TWO32 - 1) * (TWO32 - 1) && hiHi <= (TWO32 - 1) * (TWO32 - 1)
    ensures r.1 * TWO64 + r.0 == hiHi * TWO64 + (hiLo + loHi) * TWO32 + loLo
  {
    Recombine(loLo, hiLo, loHi, hiHi);
    var cross := Add64(Add64(Hi32(loLo), Lo32(hiLo)), loHi);
    var upper := Add64(Add64(Hi32(hiLo), Hi32(cross)), hiHi);
    (Shl32(cross) + Lo32(loLo), upper)
  }

  /** XXH_mult64to128, portable branch: low and high half. */
  function Mult64to128(lhs: U64, rhs: U64): (r: (U64, U64)) {
    SumPartialProducts(Mult32to64(Lo32(lhs), Lo32(rhs)), Mult32to64(Hi32(lhs), Lo32(rhs)),
                       Mult32to64(Lo32(lhs), Hi32(rhs)), Mult32to64(Hi32(lhs), Hi32(rhs)))
  }

  /** The halves are those of the exact product. */
  lemma {:induction false} Mult64to128Exact(lhs: U64, rhs: U64)
    ensures Mult64to128(lhs, rhs).1 * TWO64 + Mult64to128(lhs, rhs).0 == lhs * rhs
  {
    PartialProducts(lhs, rhs);
  }

  lemma {:induction false} PartialProducts(lhs: U64, rhs: U64)
    ensures lhs * rhs == Mult32to64(Hi32(lhs), Hi32(rhs)) * TWO64
                         + (Mult32to64(Hi32(lhs), Lo32(rhs)) + Mult32to64(Lo32(lhs), Hi32(rhs))) * TWO32
                         + Mult32to64(Lo32(lhs), Lo32(rhs))
  {
    var a1, a0, b1, b0 := Hi32(lhs), Lo32(lhs), Hi32(rhs), Lo32(rhs);
    Mult32Exact(a1, b1);
    Mult32Exact(a1, b0);
    Mult32Exact(a0, b1);
    Mult32Exact(a0, b0);
    SplitProduct(a1, a0, b1, b0);
    assert lhs == a1 * TWO32 + a0 && rhs == b1 * TWO32 + b0;
  }

  lemma {:induction false} NoWrap(a: U64, b: U64)
    requires a + b < TWO64
    ensures Add64(a, b) == a + b
  {}

  /** The partial products fit together without a carry getting lost. */
  lemma {:induction false} Recombine(loLo: U64, hiLo: U64, loHi: U64, hiHi: U64)
    requires loLo <= (TWO32 - 1) * (TWO32 - 1) && hiLo <= (TWO32 - 1) * (TWO32 - 1)
    requires loHi <= (TWO32 - 1) * (TWO32 - 1) && hiHi <= (TWO32 - 1) * (TWO32 - 1)
    ensures var cross := Add64(Add64(Hi32(loLo), Lo32(hiLo)), loHi);
            var upper := Add64(Add64(Hi32(hiLo), Hi32(cross)), hiHi);
            Shl32(cross) + Lo32(loLo) < TWO64 &&
            upper * TWO64 + (Shl32(cross) + Lo32(loLo)) == hiHi * TWO64 + (hiLo + loHi) * TWO32 + loLo
  {
    NoWrap(Hi32(loLo), Lo32(hiLo));
    NoWrap(Hi32(loLo) + Lo32(hiLo), loHi);
    var cross := Hi32(loLo) + Lo32(hiLo) + loHi;
    NoWrap(Hi32(hiLo), Hi32(cross));
    NoWrap(Hi32(hiLo) + Hi32(cross), hiHi);
    assert Shl32(cross) == Lo32(cross) * TWO32;
  }

  // ---------- bitwise exclusive or ----------

  function Xor(a: nat, b: nat): nat
    decreases a + b
  {
    if a == 0 && b == 0 then 0
    else (if a % 2 != b % 2 then 1 else 0) + 2 * Xor(a / 2, b / 2)
  }

  lemma {:induction false} XorBound(a: nat, b: nat, n: nat)
    requires a < Power(n) && b < Power(n)
    ensures Xor(a, b) < Power(n)
    decreases n
  {
    if n > 0 {
      XorBound(a / 2, b / 2, n - 1);
    }
  }

  function Xor64(a: U64, b: U64): U64 {
    Power64();
    XorBound(a, b, 64);
    Xor(a, b)
  }

  // ---------- what a stripe round and a scramble do to each lane ----------

  function Partner(lane: nat): (p: nat)
    ensures lane < 8 ==> p < 8
    ensures p != lane && p / 2 == lane / 2
  {
    if lane % 2 == 0 then lane + 1 else lane - 1
  }

  function Product(data: U64, key: U64): U64 {
    var dk := Xor64(data, key);
    Mult32to64(Lo32(dk), Hi32(dk))
  }

  /** Lane `i` gains its neighbour's data and the product of the two halves of its keyed data. */
  function AccumulateLane(acc: seq<U64>, data: seq<U64>, key: seq<U64>, i: nat): U64
    requires |acc| == |data| == |key| == 8 && i < 8
  {
    (acc[i] + data[Partner(i)] + Product(data[i], key[i])) % TWO64
  }

  function AccumulateLanes(acc: seq<U64>, data: seq<U64>, key: seq<U64>): seq<U64>
    requires |acc| == |data| == |key| == 8
  {
    seq(8, i requires 0 <= i < 8 => AccumulateLane(acc, data, key, i))
  }

  function Shr47(a: U64): U64 { a / 0x8000_0000_0000 }

  function ScrambleLane(acc: U64, key: U64): U64 {
    (Xor64(Xor64(acc, Shr47(acc)), key) * PRIME32_1) % TWO64
  }

  function ScrambleLanes(acc: seq<U64>, key: seq<U64>): seq<U64>
    requires |acc| == |key| == 8
  {
    seq(8, i requires 0 <= i < 8 => ScrambleLane(acc[i], key[i]))
  }

  // ---------- scalar form ----------

  /** XXH3_scalarRound: also touches the neighbouring lane. */
  method ScalarRound(xacc: array<U64>, data: seq<U64>, key: seq<U64>, lane: nat)
    requires xacc.Length == |data| == |key| == 8 && lane < 8
    modifies xacc
    ensures xacc[lane] == (old(xacc[lane]) + Product(data[lane], key[lane])) % TWO64
    ensures xacc[Partner(lane)] == (old(xacc[Partner(lane)]) + data[lane]) % TWO64
    ensures forall j :: 0 <= j < 8 && j != lane && j != Partner(lane) ==> xacc[j] == old(xacc[j])
  {
    var dataKey := Xor64(data[lane], key[lane]);
    xacc[Partner(lane)] := Add64(xacc[Partner(lane)], data[lane]);
    xacc[lane] := Add64(Mult32to64(Lo32(dataKey), Hi32(dataKey)), xacc[lane]);
  }

  /** Lane `i` after the first `n` scalar rounds. */
  function PartialLane(acc: seq<U64>, data: seq<U64>, key: seq<U64>, n: nat, i: nat): U64
    requires |acc| == |data| == |key| == 8 && i < 8
  {
    (acc[i] + (if Partner(i) < n then data[Partner(i)] else 0) + (if i < n then Product(data[i], key[i]) else 0)) % TWO64
  }

  lemma {:induction false} WrapAgain(a: nat, b: nat)
    ensures (a % TWO64 + b) % TWO64 == (a + b) % TWO64
  {
    WrappedSum64(a, b);
  }

  lemma {:induction false} OwnLane(acc: seq<U64>, data: seq<U64>, key: seq<U64>, n: nat)
    requires |acc| == |data| == |key| == 8 && n < 8
    ensures PartialLane(acc, data, key, n + 1, n) == (PartialLane(acc, data, key, n, n) + Product(data[n], key[n])) % TWO64
  {
    var p := Partner(n);
    var own: int := if p < n then acc[n] as int + data[p] as int else acc[n];
    WrapAgain(own, Product(data[n], key[n]));
  }

  lemma {:induction false} PartnerLane(acc: seq<U64>, data: seq<U64>, key: seq<U64>, n: nat)
    requires |acc| == |data| == |key| == 8 && n < 8
    ensures PartialLane(acc, data, key, n + 1, Partner(n)) == (PartialLane(acc, data, key, n, Partner(n)) + data[n]) % TWO64
  {
    var p := Partner(n);
    assert Partner(p) == n;
    var other: int := if p < n then acc[p] as int + Product(data[p], key[p]) as int else acc[p];
    WrapAgain(other, data[n]);
  }

  /** How the lanes move on in round `n`. */
  lemma {:induction false} NextPartial(acc: seq<U64>, data: seq<U64>, key: seq<U64>, n: nat)
    requires |acc| == |data| == |key| == 8 && n < 8
    ensures PartialLane(acc, data, key, n + 1, n) == (PartialLane(acc, data, key, n, n) + Product(data[n], key[n])) % TWO64
    ensures PartialLane(acc, data, key, n + 1, Partner(n)) == (PartialLane(acc, data, key, n, Partner(n)) + data[n]) % TWO64
    ensures forall i :: 0 <= i < 8 && i != n && i != Partner(n) ==>
              PartialLane(acc, data, key, n + 1, i) == PartialLane(acc, data, key, n, i)
  {
    OwnLane(acc, data, key, n);
    PartnerLane(acc, data, key, n);
  }

  lemma {:induction false} AllPartial(acc: seq<U64>, data: seq<U64>, key: seq<U64>, i: nat)
    requires |acc| == |data| == |key| == 8 && i < 8
    ensures PartialLane(acc, data, key, 0, i) == acc[i]
    ensures PartialLane(acc, data, key, 8, i) == AccumulateLane(acc, data, key, i)
  {}

  /** XXH3_accumulate_512_scalar */
  method Accumulate512Scalar(xacc: array<U64>, data: seq<U64>, key: seq<U64>)
    requires xacc.Length == |data| == |key| == 8
    modifies xacc
    ensures xacc[..] == AccumulateLanes(old(xacc[..]), data, key)
  {
    ghost var acc := xacc[..];
    forall i | 0 <= i < 8
      ensures PartialLane(acc, data, key, 0, i) == acc[i]
      ensures PartialLane(acc, data, key, 8, i) == AccumulateLane(acc, data, key, i)
    {
      AllPartial(acc, data, key, i);
    }
    for n := 0 to 8
      invariant forall i :: 0 <= i < 8 ==> xacc[i] == PartialLane(acc, data, key, n, i)
    {
      NextPartial(acc, data, key, n);
      ScalarRound(xacc, data, key, n);
    }
  }

  /** XXH3_scrambleAcc_scalar */
  method ScrambleAccScalar(xacc: array<U64>, key: seq<U64>)
    requires xacc.Length == |key| == 8
    modifies xacc
    ensures xacc[..] == ScrambleLanes(old(xacc[..]), key)
  {
    ghost var acc := xacc[..];
    for n := 0 to 8
      invariant forall i :: 0 <= i < n ==> xacc[i] == ScrambleLane(acc[i], key[i])
      invariant forall i :: n <= i < 8 ==> xacc[i] == acc[i]
    {
      var acc64 := xacc[n];
      acc64 := Xor64(acc64, Shr47(acc64));
      acc64 := Xor64(acc64, key[n]);
      acc64 := (acc64 * PRIME32_1) % TWO64;
      xacc[n] := acc64;
    }
  }

  // ---------- SIMD forms ----------

  /** A 128-bit register as two 64-bit lanes. */
  datatype Vec = Vec(l0: U64, l1: U64)

  /** 32-bit element `i`, lowest first. */
  function Dword(v: Vec, i: nat): (r: U64)
    requires i < 4
    ensures r < TWO32
  {
    if i == 0 then Lo32(v.l0) else if i == 1 then Hi32(v.l0) else if i == 2 then Lo32(v.l1) else Hi32(v.l1)
  }

  /** _mm_shuffle_epi32 with _MM_SHUFFLE(z, y, x, w). */
  function ShuffleEpi32(v: Vec, z: nat, y: nat, x: nat, w: nat): Vec
    requires z < 4 && y < 4 && x < 4 && w < 4
  {
    Vec(Dword(v, x) * TWO32 + Dword(v, w), Dword(v, z) * TWO32 + Dword(v, y))
  }

  function XorVec(a: Vec, b: Vec): Vec { Vec(Xor64(a.l0, b.l0), Xor64(a.l1, b.l1)) }
  function AddEpi64(a: Vec, b: Vec): Vec { Vec(Add64(a.l0, b.l0), Add64(a.l1, b.l1)) }
  function MulEpu32(a: Vec, b: Vec): Vec { Vec(Mult32to64(a.l0, b.l0), Mult32to64(a.l1, b.l1)) }
  function SrliEpi64By32(a: Vec): Vec { Vec(Hi32(a.l0), Hi32(a.l1)) }
  function SrliEpi64By47(a: Vec): Vec { Vec(Shr47(a.l0), Shr47(a.l1)) }
  function SlliEpi64By32(a: Vec): Vec { Vec(Shl32(a.l0), Shl32(a.l1)) }

  /** The loop body of XXH3_accumulate_512_sse2. */
  function AccumulateSse2(acc: Vec, data: Vec, key: Vec): Vec {
    var dataKey := XorVec(data, key);
    var dataKeyLo := ShuffleEpi32(dataKey, 0, 3, 0, 1);
    var product := MulEpu32(dataKey, dataKeyLo);
    var dataSwap := ShuffleEpi32(data, 1, 0, 3, 2);
    AddEpi64(product, AddEpi64(acc, dataSwap))
  }

  /** The loop body of XXH3_accumulate_512_avx2, per 128-bit half: a shift in place of a shuffle. */
  function AccumulateAvx2(acc: Vec, data: Vec, key: Vec): Vec {
    var dataKey := XorVec(data, key);
    var product := MulEpu32(dataKey, SrliEpi64By32(dataKey));
    AddEpi64(product, AddEpi64(acc, ShuffleEpi32(data, 1, 0, 3, 2)))
  }

  /** The loop bodies of XXH3_scrambleAcc_sse2 and XXH3_scrambleAcc_avx2. */
  function ScrambleSse2(acc: Vec, key: Vec): Vec {
    var dataKey := XorVec(XorVec(acc, SrliEpi64By47(acc)), key);
    var prime := Vec(PRIME32_1 * TWO32 + PRIME32_1, PRIME32_1 * TWO32 + PRIME32_1);
    var prodLo := MulEpu32(dataKey, prime);
    var prodHi := MulEpu32(ShuffleEpi32(dataKey, 0, 3, 0, 1), prime);
    AddEpi64(prodLo, SlliEpi64By32(prodHi))
  }

  function ScrambleAvx2(acc: Vec, key: Vec): Vec {
    var dataKey := XorVec(XorVec(acc, SrliEpi64By47(acc)), key);
    var prime := Vec(PRIME32_1 * TWO32 + PRIME32_1, PRIME32_1 * TWO32 + PRIME32_1);
    AddEpi64(MulEpu32(dataKey, prime), SlliEpi64By32(MulEpu32(SrliEpi64By32(dataKey), prime)))
  }

  lemma {:induction false} ShuffleSwaps(v: Vec)
    ensures ShuffleEpi32(v, 1, 0, 3, 2) == Vec(v.l1, v.l0)
  {}

  lemma {:induction false} ShuffleExposesHigh(v: Vec)
    ensures Lo32(ShuffleEpi32(v, 0, 3, 0, 1).l0) == Hi32(v.l0)
    ensures Lo32(ShuffleEpi32(v, 0, 3, 0, 1).l1) == Hi32(v.l1)
  {}

  lemma {:induction false} AccumulateLaneAsVec(acc: U64, swapped: U64, product: U64)
    ensures Add64(product, Add64(acc, swapped)) == (acc + swapped + product) % TWO64
  {
    WrapAgain(acc + swapped, product);
  }

  /** A lane's multiply sees only the low halves of its operands. */
  lemma {:induction false} MulSeesLowHalf(dk: U64, other: U64)
    requires Lo32(other) == Hi32(dk)
    ensures Mult32to64(dk, other) == Mult32to64(Lo32(dk), Hi32(dk))
  {
    HalvesOf(dk);
    hide Lo32, Hi32;
  }

  lemma {:induction false} HalvesOf(x: U64)
    ensures x == Hi32(x) * TWO32 + Lo32(x) && 0 <= Lo32(x) < TWO32 && 0 <= Hi32(x) < TWO32
    ensures Lo32(Lo32(x)) == Lo32(x) && Lo32(Hi32(x)) == Hi32(x)
  {}

  /** Both vector bodies compute the lane formula on their two lanes. */
  lemma {:induction false} AccumulateSse2IsLanes(acc: Vec, data: Vec, key: Vec)
    ensures AccumulateSse2(acc, data, key) == LanePair(acc, data, key)
  {
    var dk := XorVec(data, key);
    var shuffled := ShuffleEpi32(dk, 0, 3, 0, 1);
    ShuffleSwaps(data);
    ShuffleExposesHigh(dk);
    hide Lo32, Hi32, Mult32to64, Add64, ShuffleEpi32;
    MulSeesLowHalf(dk.l0, shuffled.l0);
    MulSeesLowHalf(dk.l1, shuffled.l1);
    AccumulateLaneAsVec(acc.l0, data.l1, Product(data.l0, key.l0));
    AccumulateLaneAsVec(acc.l1, data.l0, Product(data.l1, key.l1));
  }

  lemma {:induction false} AccumulateAvx2IsLanes(acc: Vec, data: Vec, key: Vec)
    ensures AccumulateAvx2(acc, data, key) == LanePair(acc, data, key)
  {
    var dk := XorVec(data, key);
    ShuffleSwaps(data);
    LowOfHigh(dk.l0);
    LowOfHigh(dk.l1);
    hide Lo32, Hi32, Mult32to64, Add64, ShuffleEpi32;
    MulSeesLowHalf(dk.l0, Hi32(dk.l0));
    MulSeesLowHalf(dk.l1, Hi32(dk.l1));
    AccumulateLaneAsVec(acc.l0, data.l1, Product(data.l0, key.l0));
    AccumulateLaneAsVec(acc.l1, data.l0, Product(data.l1, key.l1));
  }

  /** The lane formula on two neighbouring lanes. */
  function LanePair(acc: Vec, data: Vec, key: Vec): Vec {
    Vec((acc.l0 + data.l1 + Product(data.l0, key.l0)) % TWO64, (acc.l1 + data.l0 + Product(data.l1, key.l1)) % TWO64)
  }

  lemma {:induction false} HalvesDistribute(hi: nat, lo: nat, p: nat)
    ensures (hi * TWO32 + lo) * p == hi * p * TWO32 + lo * p
  {
    Distribute(p, hi * TWO32, lo);
  }

  /** Multiplying in two 32-bit halves is multiplying, modulo 2^64. */
  lemma {:induction false} HalvesProduct(x: U64, p: nat)
    requires p < TWO32
    ensures Add64(Mult32to64(x, p), Shl32(Mult32to64(Hi32(x), p))) == (x * p) % TWO64
  {
    HalvesOf(x);
    hide Lo32, Hi32, Mult32to64, Add64, Shl32;
    var lo, hi := Lo32(x), Hi32(x);
    HalvesDistribute(hi, lo, p);
    LowOperands(x, p);
    LowOperands(hi, p);
    ProductBound(hi, p);
    ProductBound(lo, p);
    ShiftAndAdd(hi * p, lo * p);
  }

  lemma {:induction false} ShiftAndAdd(high: U64, low: U64)
    ensures Add64(low, Shl32(high)) == (high * TWO32 + low) % TWO64
  {
    WrapAgain(high * TWO32, low);
  }

  lemma {:induction false} LowOperands(x: U64, p: nat)
    requires p < TWO32
    ensures Mult32to64(x, p) == Lo32(x) * p
  {}

  lemma {:induction false} MulSeesLowHalves(a: U64, a': U64, p: U64)
    requires Lo32(a) == Lo32(a') && p < TWO32
    ensures Mult32to64(a, PRIME32_1 * TWO32 + p) == Mult32to64(a', p)
  {
    LowOfShifted(p);
    hide Lo32;
  }

  lemma {:induction false} LowOfShifted(p: U64)
    requires p < TWO32
    ensures PRIME32_1 * TWO32 + p < TWO64 && Lo32(PRIME32_1 * TWO32 + p) == Lo32(p)
  {}

  lemma {:induction false} ScrambleOneLane(dk: U64, high: U64, p: U64)
    requires Lo32(high) == Hi32(dk) && p < TWO32
    ensures Add64(Mult32to64(dk, PRIME32_1 * TWO32 + p), Shl32(Mult32to64(high, PRIME32_1 * TWO32 + p))) == (dk * p) % TWO64
  {
    MulSeesLowHalves(dk, dk, p);
    MulSeesLowHalves(high, Hi32(dk), p);
    HalvesProduct(dk, p);
  }

  lemma {:induction false} ScrambleSse2IsLanes(acc: Vec, key: Vec)
    ensures ScrambleSse2(acc, key) == Vec(ScrambleLane(acc.l0, key.l0), ScrambleLane(acc.l1, key.l1))
  {
    var dk := XorVec(XorVec(acc, SrliEpi64By47(acc)), key);
    var shuffled := ShuffleEpi32(dk, 0, 3, 0, 1);
    ShuffleExposesHigh(dk);
    ScrambleOneLane(dk.l0, shuffled.l0, PRIME32_1);
    ScrambleOneLane(dk.l1, shuffled.l1, PRIME32_1);
  }

  lemma {:induction false} LowOfHigh(x: U64)
    ensures Lo32(Hi32(x)) == Hi32(x)
  {}

  lemma {:induction false} ScrambleAvx2IsLanes(acc: Vec, key: Vec)
    ensures ScrambleAvx2(acc, key) == Vec(ScrambleLane(acc.l0, key.l0), ScrambleLane(acc.l1, key.l1))
  {
    var dk := XorVec(XorVec(acc, SrliEpi64By47(acc)), key);
    LowOfHigh(dk.l0);
    LowOfHigh(dk.l1);
    hide Lo32, Hi32, Mult32to64, Add64, Shl32;
    ScrambleOneLane(dk.l0, Hi32(dk.l0), PRIME32_1);
    ScrambleOneLane(dk.l1, Hi32(dk.l1), PRIME32_1);
  }

  function VecAt(s: seq<U64>, n: nat): Vec
    requires 2 * n + 1 < |s|
  {
    Vec(s[2 * n], s[2 * n + 1])
  }

  lemma {:induction false} Sse2Lanes(acc: seq<U64>, data: seq<U64>, key: seq<U64>, n: nat)
    requires |acc| == |data| == |key| == 8 && n < 4
    ensures AccumulateSse2(VecAt(acc, n), VecAt(data, n), VecAt(key, n))
         == Vec(AccumulateLane(acc, data, key, 2 * n), AccumulateLane(acc, data, key, 2 * n + 1))
  {
    hide AccumulateSse2, Product, Partner, AccumulateLane;
    AccumulateSse2IsLanes(VecAt(acc, n), VecAt(data, n), VecAt(key, n));
    LaneIs(acc, data, key, n);
  }

  lemma {:induction false} LaneIs(acc: seq<U64>, data: seq<U64>, key: seq<U64>, n: nat)
    requires |acc| == |data| == |key| == 8 && n < 4
    ensures AccumulateLane(acc, data, key, 2 * n) == (acc[2 * n] + data[2 * n + 1] + Product(data[2 * n], key[2 * n])) % TWO64
    ensures AccumulateLane(acc, data, key, 2 * n + 1) ==
            (acc[2 * n + 1] + data[2 * n] + Product(data[2 * n + 1], key[2 * n + 1])) % TWO64
  {
    hide Product;
    assert Partner(2 * n) == 2 * n + 1 && Partner(2 * n + 1) == 2 * n;
  }

  /** XXH3_accumulate_512_sse2 on the accumulator array: the same as the scalar loop. */
  method Accumulate512Sse2(xacc: array<U64>, data: seq<U64>, key: seq<U64>)
    requires xacc.Length == |data| == |key| == 8
    modifies xacc
    ensures xacc[..] == AccumulateLanes(old(xacc[..]), data, key)
  {
    ghost var acc := xacc[..];
    for n := 0 to 4
      invariant forall i :: 0 <= i < 2 * n ==> xacc[i] == AccumulateLane(acc, data, key, i)
      invariant forall i :: 2 * n <= i < 8 ==> xacc[i] == acc[i]
    {
      Sse2Lanes(acc, data, key, n);
      var v := AccumulateSse2(VecAt(xacc[..], n), VecAt(data, n), VecAt(key, n));
      xacc[2 * n], xacc[2 * n + 1] := v.l0, v.l1;
    }
  }

  /** XXH3_scrambleAcc_sse2 */
  method ScrambleAccSse2(xacc: array<U64>, key: seq<U64>)
    requires xacc.Length == |key| == 8
    modifies xacc
    ensures xacc[..] == ScrambleLanes(old(xacc[..]), key)
  {
    ghost var acc := xacc[..];
    for n := 0 to 4
      invariant forall i :: 0 <= i < 2 * n ==> xacc[i] == ScrambleLane(acc[i], key[i])
      invariant forall i :: 2 * n <= i < 8 ==> xacc[i] == acc[i]
    {
      var a, k := Vec(xacc[2 * n], xacc[2 * n + 1]), Vec(key[2 * n], key[2 * n + 1]);
      var v := ScrambleSse2(a, k);
      ScrambleSse2IsLanes(a, k);
      xacc[2 * n], xacc[2 * n + 1] := v.l0, v.l1;
    }
  }

  // ---------- XXH128, 9 to 16 bytes ----------

  /** The 32-bit and the 64-bit way of adding the high input word agree modulo 2^64. */
  lemma {:induction false} HighHalfBranchesAgree(high64: U64, inputHi: U64)
    ensures Add64(high64, Add64(Hi32(inputHi) * TWO32, Mult32to64(inputHi, PRIME32_2)))
         == Add64(high64, Add64(inputHi, Mult32to64(inputHi, PRIME32_2 - 1)))
  {
    var lo := Lo32(inputHi);
    LowOperands(inputHi, PRIME32_2);
    LowOperands(inputHi, PRIME32_2 - 1);
    assert Hi32(inputHi) * TWO32 + lo * PRIME32_2 == inputHi + lo * (PRIME32_2 - 1);
  }
}
