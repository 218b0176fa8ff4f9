/** XXH3 (deps/xxhash/xxhash.h): the one-shot long-input loop and the buffered streaming
    form, both proved against one reference, a fold that absorbs the input a stripe at a
    time.  As in the source, the stripe round and the scramble are function values, so the
    agreement holds for every vector variant and for both output widths. */
module Xxh3 {

  import opened Bytes

  const STRIPE_LEN := 64
  const CONSUME_RATE := 8
  const SECRET_SIZE_MIN := 136
  const SECRET_DEFAULT_SIZE := 192
  const MIDSIZE_MAX := 240
  const BUFFER_SIZE := 256
  const BUFFER_STRIPES := 4
  const LASTACC_START := 7

  /** The functions XXH3 is assembled from.  `accumulate512` gets one stripe and the 64 secret
      bytes at the stripe's position, `scramble` the last 64 secret bytes, `hashShort` an
      input of at most 240 bytes with secret and seed. */
  datatype Kernel<!Acc, !Hash> = Kernel(
    init: Acc,
    accumulate512: (Acc, seq<Byte>, seq<Byte>) -> Acc,
    scramble: (Acc, seq<Byte>) -> Acc,
    finalizeLong: (Acc, seq<Byte>, nat) -> Hash,
    hashShort: (seq<Byte>, seq<Byte>, U64) -> Hash,
    defaultSecret: seq<Byte>,
    customSecret: U64 -> seq<Byte>
  ) {
    ghost predicate Sane() {
      |defaultSecret| == SECRET_DEFAULT_SIZE &&
      forall seed :: |customSecret(seed)| == SECRET_DEFAULT_SIZE
    }
  }

  // ---------- reference definition: absorb one stripe at a time ----------

  /** Accumulators, and the number of stripes absorbed since the last scramble. */
  datatype Run<!Acc> = Run(acc: Acc, soFar: nat)

  function StripesPerBlock(secret: seq<Byte>): (n: nat)
    requires SECRET_SIZE_MIN <= |secret|
    ensures 9 <= n && CONSUME_RATE * n <= |secret| - STRIPE_LEN
  {
    (|secret| - STRIPE_LEN) / CONSUME_RATE
  }

  function Step<Acc, Hash>(k: Kernel<Acc, Hash>, secret: seq<Byte>, r: Run<Acc>, stripe: seq<Byte>): (r': Run<Acc>)
    requires SECRET_SIZE_MIN <= |secret| && r.soFar < StripesPerBlock(secret)
  {
    var acc := k.accumulate512(r.acc, stripe, secret[CONSUME_RATE * r.soFar..][..STRIPE_LEN]);
    if r.soFar + 1 == StripesPerBlock(secret)
    then Run(k.scramble(acc, secret[|secret| - STRIPE_LEN..]), 0)
    else Run(acc, r.soFar + 1)
  }

  function Absorb<Acc, Hash>(k: Kernel<Acc, Hash>, secret: seq<Byte>, data: seq<Byte>, n: nat): (r: Run<Acc>)
    requires SECRET_SIZE_MIN <= |secret| && STRIPE_LEN * n <= |data|
    ensures r.soFar < StripesPerBlock(secret)
  {
    if n == 0 then Run(k.init, 0)
    else Step(k, secret, Absorb(k, secret, data, n - 1), data[STRIPE_LEN * (n - 1)..STRIPE_LEN * n])
  }

  /** Accumulators for an input of more than one stripe: every stripe that ends before the
      last byte, then the last 64 bytes (which may overlap) against their own secret part. */
  function LongAcc<Acc, Hash>(k: Kernel<Acc, Hash>, secret: seq<Byte>, data: seq<Byte>): Acc
    requires SECRET_SIZE_MIN <= |secret| && STRIPE_LEN < |data|
  {
    k.accumulate512(Absorb(k, secret, data, (|data| - 1) / STRIPE_LEN).acc,
                    data[|data| - STRIPE_LEN..],
                    secret[|secret| - STRIPE_LEN - LASTACC_START..][..STRIPE_LEN])
  }

  function LongHash<Acc, Hash>(k: Kernel<Acc, Hash>, secret: seq<Byte>, data: seq<Byte>): Hash
    requires SECRET_SIZE_MIN <= |secret| && STRIPE_LEN < |data|
  {
    k.finalizeLong(LongAcc(k, secret, data), secret, |data|)
  }

  /** The four ways a hash can be keyed. */
  datatype Mode = Default | WithSecret(secret: seq<Byte>) | WithSeed(seed: U64)
                | WithSecretAndSeed(secret: seq<Byte>, seed: U64)
  {
    predicate Valid() {
      (WithSecret? || WithSecretAndSeed?) ==> SECRET_SIZE_MIN <= |secret|
    }
  }

  /** The secret for long inputs. */
  function LongSecret<Acc, Hash>(k: Kernel<Acc, Hash>, mode: Mode): (secret: seq<Byte>)
    requires k.Sane() && mode.Valid()
    ensures SECRET_SIZE_MIN <= |secret|
  {
    match mode
    case Default => k.defaultSecret
    case WithSecret(s) => s
    case WithSeed(seed) => if seed == 0 then k.defaultSecret else k.customSecret(seed)
    case WithSecretAndSeed(s, _) => s
  }

  function ShortHash<Acc, Hash>(k: Kernel<Acc, Hash>, mode: Mode, data: seq<Byte>): Hash {
    match mode
    case Default => k.hashShort(data, k.defaultSecret, 0)
    case WithSecret(s) => k.hashShort(data, s, 0)
    case WithSeed(seed) => k.hashShort(data, k.defaultSecret, seed)
    case WithSecretAndSeed(_, seed) => k.hashShort(data, k.defaultSecret, seed)
  }

  function HashOf<Acc, Hash>(k: Kernel<Acc, Hash>, mode: Mode, data: seq<Byte>): Hash
    requires k.Sane() && mode.Valid()
  {
    if |data| <= MIDSIZE_MAX then ShortHash(k, mode, data) else LongHash(k, LongSecret(k, mode), data)
  }

  // ---------- facts about the reference ----------

  /** What has been absorbed depends only on the stripes absorbed. */
  lemma {:induction false} AbsorbPrefix<Acc, Hash>(k: Kernel<Acc, Hash>, secret: seq<Byte>, a: seq<Byte>, b: seq<Byte>, n: nat)
    requires SECRET_SIZE_MIN <= |secret| && STRIPE_LEN * n <= |a| && STRIPE_LEN * n <= |b|
    requires a[..STRIPE_LEN * n] == b[..STRIPE_LEN * n]
    ensures Absorb(k, secret, a, n) == Absorb(k, secret, b, n)
  {
    if n > 0 {
      var m := STRIPE_LEN * (n - 1);
      assert a[..m] == a[..STRIPE_LEN * n][..m] == b[..STRIPE_LEN * n][..m] == b[..m];
      assert a[m..STRIPE_LEN * n] == a[..STRIPE_LEN * n][m..] == b[..STRIPE_LEN * n][m..] == b[m..STRIPE_LEN * n];
      AbsorbPrefix(k, secret, a, b, n - 1);
    }
  }

  /** Rounds over `n` consecutive stripes with the secret sliding by 8, no scramble. */
  function Rounds<Acc, Hash>(k: Kernel<Acc, Hash>, acc: Acc, input: seq<Byte>, secret: seq<Byte>, n: nat): Acc
    requires STRIPE_LEN * n <= |input|
    requires n > 0 ==> CONSUME_RATE * (n - 1) + STRIPE_LEN <= |secret|
  {
    if n == 0 then acc
    else k.accumulate512(Rounds(k, acc, input, secret, n - 1),
                         input[STRIPE_LEN * (n - 1)..STRIPE_LEN * n],
                         secret[CONSUME_RATE * (n - 1)..][..STRIPE_LEN])
  }

  /** Absorbing `n` stripes inside one block is `n` rounds, plus the scramble exactly when
      they complete the block. */
  lemma {:induction false} AbsorbRounds<Acc, Hash>(k: Kernel<Acc, Hash>, secret: seq<Byte>, data: seq<Byte>, c: nat, n: nat)
    requires SECRET_SIZE_MIN <= |secret| && STRIPE_LEN * (c + n) <= |data|
    requires Absorb(k, secret, data, c).soFar + n <= StripesPerBlock(secret)
    ensures var r := Absorb(k, secret, data, c);
            var acc := Rounds(k, r.acc, data[STRIPE_LEN * c..], secret[CONSUME_RATE * r.soFar..], n);
            Absorb(k, secret, data, c + n) ==
            if r.soFar + n == StripesPerBlock(secret) then Run(k.scramble(acc, secret[|secret| - STRIPE_LEN..]), 0)
            else Run(acc, r.soFar + n)
  {
    if n > 0 {
      AbsorbRounds(k, secret, data, c, n - 1);
      var r := Absorb(k, secret, data, c);
      assert data[STRIPE_LEN * c..][STRIPE_LEN * (n - 1)..STRIPE_LEN * n] == data[STRIPE_LEN * (c + n - 1)..STRIPE_LEN * (c + n)];
      assert secret[CONSUME_RATE * r.soFar..][CONSUME_RATE * (n - 1)..] == secret[CONSUME_RATE * (r.soFar + n - 1)..];
    }
  }

  lemma {:induction false} RoundsPrefix<Acc, Hash>(k: Kernel<Acc, Hash>, acc: Acc, a: seq<Byte>, b: seq<Byte>, secret: seq<Byte>, n: nat)
    requires STRIPE_LEN * n <= |a| && STRIPE_LEN * n <= |b| && a[..STRIPE_LEN * n] == b[..STRIPE_LEN * n]
    requires n > 0 ==> CONSUME_RATE * (n - 1) + STRIPE_LEN <= |secret|
    ensures Rounds(k, acc, a, secret, n) == Rounds(k, acc, b, secret, n)
  {
    if n > 0 {
      var m := STRIPE_LEN * (n - 1);
      assert a[..m] == a[..STRIPE_LEN * n][..m] == b[..STRIPE_LEN * n][..m] == b[..m];
      assert a[m..STRIPE_LEN * n] == a[..STRIPE_LEN * n][m..] == b[..STRIPE_LEN * n][m..] == b[m..STRIPE_LEN * n];
      RoundsPrefix(k, acc, a, b, secret, n - 1);
    }
  }

  // ---------- the source's loops ----------

  /** XXH3_accumulate */
  method Accumulate<Acc, Hash>(k: Kernel<Acc, Hash>, acc: Acc, input: seq<Byte>, secret: seq<Byte>, nbStripes: nat)
    returns (acc': Acc)
    requires STRIPE_LEN * nbStripes <= |input|
    requires nbStripes > 0 ==> CONSUME_RATE * (nbStripes - 1) + STRIPE_LEN <= |secret|
    ensures acc' == Rounds(k, acc, input, secret, nbStripes)
  {
    acc' := acc;
    for n := 0 to nbStripes
      invariant acc' == Rounds(k, acc, input, secret, n)
    {
      acc' := k.accumulate512(acc', input[STRIPE_LEN * n..STRIPE_LEN * (n + 1)], secret[CONSUME_RATE * n..][..STRIPE_LEN]);
    }
  }

  /** The `total` stripes at the start of `input` are the stripes of `data` from stripe `c` on. */
  ghost predicate Window(input: seq<Byte>, data: seq<Byte>, c: nat, total: nat) {
    STRIPE_LEN * total <= |input| && STRIPE_LEN * (c + total) <= |data| &&
    input[..STRIPE_LEN * total] == data[STRIPE_LEN * c..STRIPE_LEN * (c + total)]
  }

  lemma {:induction false} SameStripes(input: seq<Byte>, data: seq<Byte>, c: nat, done: nat, n: nat, total: nat)
    requires Window(input, data, c, total) && done + n <= total
    ensures input[STRIPE_LEN * done..][..STRIPE_LEN * n] == data[STRIPE_LEN * (c + done)..][..STRIPE_LEN * n]
  {
    var i, w := STRIPE_LEN * done, STRIPE_LEN * n;
    SliceOfSlice(data, STRIPE_LEN * c, STRIPE_LEN * (c + total), i, i + w);
    SliceOfSlice(input, 0, STRIPE_LEN * total, i, i + w);
    SliceOfSlice(data, STRIPE_LEN * (c + done), |data|, 0, w);
    SliceOfSlice(input, i, |input|, 0, w);
    assert data[STRIPE_LEN * (c + done)..][..w] == data[STRIPE_LEN * c + i..STRIPE_LEN * c + i + w];
  }

  lemma {:induction false} SliceOfSlice<T>(s: seq<T>, lo: nat, hi: nat, i: nat, j: nat)
    requires lo + j <= hi <= |s| && i <= j
    ensures s[lo..hi][i..j] == s[lo + i..lo + j]
  {
    var a, b := s[lo..hi][i..j], s[lo + i..lo + j];
    assert |a| == |b| && forall x :: 0 <= x < |a| ==> a[x] == b[x];
  }

  /** The accumulators in `acc` after `c` stripes of `data`. */
  ghost predicate At<Acc, Hash>(k: Kernel<Acc, Hash>, secret: seq<Byte>, data: seq<Byte>, c: nat, acc: Acc, soFar: nat) {
    SECRET_SIZE_MIN <= |secret| && STRIPE_LEN * c <= |data| && Absorb(k, secret, data, c) == Run(acc, soFar)
  }

  lemma {:induction false} RoundsContinue<Acc, Hash>(k: Kernel<Acc, Hash>, secret: seq<Byte>, data: seq<Byte>, input: seq<Byte>,
                                  c: nat, done: nat, n: nat, total: nat, acc: Acc, soFar: nat)
    requires Window(input, data, c, total) && done + n <= total
    requires At(k, secret, data, c + done, acc, soFar) && soFar + n <= StripesPerBlock(secret)
    ensures var acc' := Rounds(k, acc, input[STRIPE_LEN * done..], secret[CONSUME_RATE * soFar..], n);
            if soFar + n == StripesPerBlock(secret)
            then At(k, secret, data, c + done + n, k.scramble(acc', secret[|secret| - STRIPE_LEN..]), 0)
            else At(k, secret, data, c + done + n, acc', soFar + n)
  {
    AbsorbRounds(k, secret, data, c + done, n);
    SameStripes(input, data, c, done, n, total);
    RoundsPrefix(k, acc, input[STRIPE_LEN * done..], data[STRIPE_LEN * (c + done)..], secret[CONSUME_RATE * soFar..], n);
  }

  /** XXH3_consumeStripes: continues a run over `data` from stripe `c` by `nbStripes` more. */
  method ConsumeStripes<Acc, Hash>(k: Kernel<Acc, Hash>, acc: Acc, nbStripesSoFar: nat, nbStripesPerBlock: nat,
                                   input: seq<Byte>, nbStripes: nat, secret: seq<Byte>, secretLimit: nat,
                                   ghost data: seq<Byte>, ghost c: nat)
    returns (acc': Acc, soFar': nat, pos: nat)
    requires SECRET_SIZE_MIN <= |secret| && secretLimit == |secret| - STRIPE_LEN
    requires nbStripesPerBlock == StripesPerBlock(secret) && nbStripesSoFar < nbStripesPerBlock
    requires Window(input, data, c, nbStripes) && At(k, secret, data, c, acc, nbStripesSoFar)
    ensures At(k, secret, data, c + nbStripes, acc', soFar')
    ensures pos == STRIPE_LEN * nbStripes
  {
    acc', soFar', pos := acc, nbStripesSoFar, 0;
    var left := nbStripes;
    if left >= nbStripesPerBlock - soFar' {
      acc', pos, left := ConsumeFullBlocks(k, acc', soFar', nbStripesPerBlock, input, nbStripes, secret, data, c);
      soFar' := 0;
    }
    if left > 0 {
      acc', pos := ConsumePartial(k, acc', soFar', input, pos, left, secret, data, c, nbStripes - left, nbStripes);
      soFar' := soFar' + left;
    }
  }

  /** The do-while loop of XXH3_consumeStripes. */
  method ConsumeFullBlocks<Acc, Hash>(k: Kernel<Acc, Hash>, acc: Acc, soFar: nat, nbStripesPerBlock: nat, input: seq<Byte>,
                                      nbStripes: nat, secret: seq<Byte>, ghost data: seq<Byte>, ghost c: nat)
    returns (acc': Acc, pos: nat, left: nat)
    requires Window(input, data, c, nbStripes) && At(k, secret, data, c, acc, soFar)
    requires nbStripesPerBlock == StripesPerBlock(secret) && soFar < nbStripesPerBlock <= soFar + nbStripes
    ensures left < nbStripesPerBlock && left <= nbStripes && pos == STRIPE_LEN * (nbStripes - left)
    ensures At(k, secret, data, c + (nbStripes - left), acc', 0)
  {
    var thisIter := nbStripesPerBlock - soFar;
    ghost var done := 0;
    acc', pos := ConsumeBlock(k, acc, soFar, input, 0, thisIter, secret, data, c, done, nbStripes);
    left, done := nbStripes - thisIter, thisIter;
    while left >= nbStripesPerBlock
      invariant done + left == nbStripes && pos == STRIPE_LEN * done
      invariant At(k, secret, data, c + done, acc', 0)
    {
      acc', pos := ConsumeBlock(k, acc', 0, input, pos, nbStripesPerBlock, secret, data, c, done, nbStripes);
      left, done := left - nbStripesPerBlock, done + nbStripesPerBlock;
    }
  }

  /** One pass of the do-while loop: the rounds that complete a block, and its scramble. */
  method ConsumeBlock<Acc, Hash>(k: Kernel<Acc, Hash>, acc: Acc, soFar: nat, input: seq<Byte>, pos: nat, n: nat, secret: seq<Byte>,
                                 ghost data: seq<Byte>, ghost c: nat, ghost done: nat, ghost total: nat)
    returns (acc': Acc, pos': nat)
    requires Window(input, data, c, total) && done + n <= total && pos == STRIPE_LEN * done
    requires At(k, secret, data, c + done, acc, soFar) && soFar + n == StripesPerBlock(secret)
    ensures pos' == STRIPE_LEN * (done + n) && At(k, secret, data, c + done + n, acc', 0)
  {
    RoundsContinue(k, secret, data, input, c, done, n, total, acc, soFar);
    acc' := Accumulate(k, acc, input[pos..], secret[CONSUME_RATE * soFar..], n);
    acc' := k.scramble(acc', secret[|secret| - STRIPE_LEN..]);
    pos' := pos + n * STRIPE_LEN;
  }

  /** Rounds that do not complete a block. */
  method ConsumePartial<Acc, Hash>(k: Kernel<Acc, Hash>, acc: Acc, soFar: nat, input: seq<Byte>, pos: nat, n: nat, secret: seq<Byte>,
                                   ghost data: seq<Byte>, ghost c: nat, ghost done: nat, ghost total: nat)
    returns (acc': Acc, pos': nat)
    requires Window(input, data, c, total) && done + n <= total && pos == STRIPE_LEN * done
    requires At(k, secret, data, c + done, acc, soFar) && soFar + n < StripesPerBlock(secret)
    ensures pos' == STRIPE_LEN * (done + n) && At(k, secret, data, c + done + n, acc', soFar + n)
  {
    RoundsContinue(k, secret, data, input, c, done, n, total, acc, soFar);
    acc' := Accumulate(k, acc, input[pos..], secret[CONSUME_RATE * soFar..], n);
    pos' := pos + n * STRIPE_LEN;
  }

  lemma {:induction false} DivBounds(x: int, d: int)
    requires 0 <= x && 0 < d
    ensures 0 <= x / d && d * (x / d) <= x < d * (x / d) + d
  {}

  /** Whole blocks before the last byte, and whole stripes between them and the last byte. */
  ghost predicate Counts(len: nat, spb: nat, nbBlocks: nat, nbStripes: nat) {
    0 < len && 0 < spb && nbBlocks == (len - 1) / (STRIPE_LEN * spb) &&
    nbStripes == (len - 1 - STRIPE_LEN * spb * nbBlocks) / STRIPE_LEN
  }

  method BlockCounts(len: nat, nbStripesPerBlock: nat) returns (nbBlocks: nat, nbStripes: nat)
    requires 0 < len && 0 < nbStripesPerBlock
    ensures Counts(len, nbStripesPerBlock, nbBlocks, nbStripes)
  {
    var blockLen := STRIPE_LEN * nbStripesPerBlock;
    DivBounds(len - 1, blockLen);
    nbBlocks := (len - 1) / blockLen;
    nbStripes := (len - 1 - blockLen * nbBlocks) / STRIPE_LEN;
  }

  /** Together they are the stripes that end before the last byte. */
  lemma {:induction false} BlockArithmetic(len: nat, spb: nat, nbBlocks: nat, nbStripes: nat)
    requires Counts(len, spb, nbBlocks, nbStripes)
    ensures nbStripes < spb && nbBlocks * spb + nbStripes == (len - 1) / STRIPE_LEN
    ensures STRIPE_LEN * (nbBlocks * spb + nbStripes) < len
  {
    DivBounds(len - 1, STRIPE_LEN * spb);
    assert STRIPE_LEN * (nbBlocks * spb) == STRIPE_LEN * spb * nbBlocks;
  }

  /** The last 64 bytes finish a run over every stripe that ends before the last byte. */
  lemma {:induction false} LastStripe<Acc, Hash>(k: Kernel<Acc, Hash>, secret: seq<Byte>, data: seq<Byte>, acc: Acc, soFar: nat)
    requires STRIPE_LEN < |data| && At(k, secret, data, (|data| - 1) / STRIPE_LEN, acc, soFar)
    ensures LongAcc(k, secret, data) ==
            k.accumulate512(acc, data[|data| - STRIPE_LEN..], secret[|secret| - STRIPE_LEN - LASTACC_START..][..STRIPE_LEN])
  {}

  /** XXH3_hashLong_internal_loop */
  method HashLongInternalLoop<Acc, Hash>(k: Kernel<Acc, Hash>, input: seq<Byte>, secret: seq<Byte>) returns (acc: Acc)
    requires SECRET_SIZE_MIN <= |secret| && STRIPE_LEN < |input|
    ensures acc == LongAcc(k, secret, input)
  {
    var nbStripesPerBlock := (|secret| - STRIPE_LEN) / CONSUME_RATE;
    var nbBlocks, nbStripes := BlockCounts(|input|, nbStripesPerBlock);
    ghost var done;
    var pos;
    acc, pos, done := WholeBlocks(k, input, secret, nbStripesPerBlock, nbBlocks, nbStripes);
    acc, pos := ConsumePartial(k, acc, 0, input, pos, nbStripes, secret, input, 0, done, done + nbStripes);
    LastStripe(k, secret, input, acc, nbStripes);
    acc := k.accumulate512(acc, input[|input| - STRIPE_LEN..], secret[|secret| - STRIPE_LEN - LASTACC_START..][..STRIPE_LEN]);
  }

  /** The block loop of XXH3_hashLong_internal_loop. */
  method WholeBlocks<Acc, Hash>(k: Kernel<Acc, Hash>, input: seq<Byte>, secret: seq<Byte>, nbStripesPerBlock: nat,
                                nbBlocks: nat, ghost nbStripes: nat)
    returns (acc: Acc, pos: nat, ghost done: nat)
    requires SECRET_SIZE_MIN <= |secret| && nbStripesPerBlock == StripesPerBlock(secret)
    requires STRIPE_LEN < |input| && Counts(|input|, nbStripesPerBlock, nbBlocks, nbStripes)
    ensures nbStripes < nbStripesPerBlock && done + nbStripes == (|input| - 1) / STRIPE_LEN
    ensures Window(input, input, 0, done + nbStripes) && pos == STRIPE_LEN * done
    ensures At(k, secret, input, done, acc, 0)
  {
    BlockArithmetic(|input|, nbStripesPerBlock, nbBlocks, nbStripes);
    acc, pos, done := k.init, 0, 0;
    for n := 0 to nbBlocks
      invariant done == n * nbStripesPerBlock && pos == STRIPE_LEN * done
      invariant At(k, secret, input, done, acc, 0)
    {
      NextBlock(n, nbBlocks, nbStripesPerBlock);
      acc, pos := ConsumeBlock(k, acc, 0, input, pos, nbStripesPerBlock, secret, input, 0, done, nbBlocks * nbStripesPerBlock);
      done := done + nbStripesPerBlock;
    }
  }

  lemma {:induction false} NextBlock(n: nat, nbBlocks: nat, spb: nat)
    requires n < nbBlocks
    ensures n * spb + spb == (n + 1) * spb <= nbBlocks * spb
  {
    MulMonotonic(n + 1, nbBlocks, spb);
  }

  lemma {:induction false} MulMonotonic(a: nat, b: nat, x: nat)
    requires a <= b
    ensures a * x <= b * x
  {}
}
