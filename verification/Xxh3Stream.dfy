/** The XXH3 streaming state (deps/xxhash/xxhash.h): reset, update, digest. */
module Xxh3Stream {
  import opened Bytes
  import opened Options
  import opened Xxh3

  // ---------- the internal buffer, as a value ----------

  /** `buf` with `size` bytes in use holds what `data` has beyond its first `c` stripes.
      Some input is always held back, and the last 64 bytes of `buf` keep the last absorbed
      stripe for as long as a digest may need it. */
  ghost predicate Buffered(buf: seq<Byte>, size: nat, data: seq<Byte>, c: nat) {
    |buf| == BUFFER_SIZE && size <= BUFFER_SIZE && |data| == STRIPE_LEN * c + size &&
    buf[..size] == data[STRIPE_LEN * c..] &&
    (|data| > 0 ==> size > 0) &&
    (|data| <= BUFFER_SIZE ==> c == 0) &&
    (size <= BUFFER_SIZE - STRIPE_LEN ==> KeepsLastStripe(buf, data, c))
  }

  ghost predicate KeepsLastStripe(buf: seq<Byte>, data: seq<Byte>, c: nat) {
    |buf| == BUFFER_SIZE && STRIPE_LEN * c <= |data| &&
    (c > 0 ==> buf[BUFFER_SIZE - STRIPE_LEN..] == data[STRIPE_LEN * (c - 1)..STRIPE_LEN * c])
  }

  function Overwrite(buf: seq<Byte>, at: nat, src: seq<Byte>): (r: seq<Byte>)
    requires at + |src| <= |buf|
    ensures |r| == |buf|
  {
    buf[..at] + src + buf[at + |src|..]
  }

  lemma {:induction false} AppendSmall(buf: seq<Byte>, size: nat, data: seq<Byte>, c: nat, input: seq<Byte>)
    requires Buffered(buf, size, data, c) && |input| <= BUFFER_SIZE - size
    ensures Buffered(Overwrite(buf, size, input), size + |input|, data + input, c)
  {
    var buf', data' := Overwrite(buf, size, input), data + input;
    assert buf'[..size + |input|] == buf[..size] + input == data'[STRIPE_LEN * c..];
    if size + |input| <= BUFFER_SIZE - STRIPE_LEN && c > 0 {
      assert buf'[BUFFER_SIZE - STRIPE_LEN..] == buf[BUFFER_SIZE - STRIPE_LEN..];
      assert data'[STRIPE_LEN * (c - 1)..STRIPE_LEN * c] == data[STRIPE_LEN * (c - 1)..STRIPE_LEN * c];
    }
  }

  /** Filling the buffer makes it the next four stripes of the extended input. */
  lemma {:induction false} FillWindow(buf: seq<Byte>, size: nat, data: seq<Byte>, c: nat, input: seq<Byte>)
    requires Buffered(buf, size, data, c) && BUFFER_SIZE - size < |input|
    ensures var full := Overwrite(buf, size, input[..BUFFER_SIZE - size]);
            var data' := data + input;
            Window(full, data', c, BUFFER_STRIPES) &&
            input[BUFFER_SIZE - size..] == data'[STRIPE_LEN * (c + BUFFER_STRIPES)..] &&
            KeepsLastStripe(full, data', c + BUFFER_STRIPES)
  {
    var full, data' := Overwrite(buf, size, input[..BUFFER_SIZE - size]), data + input;
    assert full == buf[..size] + input[..BUFFER_SIZE - size];
    assert full == data'[STRIPE_LEN * c..STRIPE_LEN * (c + BUFFER_STRIPES)];
    assert full[..BUFFER_SIZE] == full;
    assert full[BUFFER_SIZE - STRIPE_LEN..] == data'[STRIPE_LEN * (c + BUFFER_STRIPES - 1)..STRIPE_LEN * (c + BUFFER_STRIPES)];
  }

  /** Stripes taken straight from the input, and saving the last of them. */
  lemma {:induction false} DirectWindow(buf: seq<Byte>, data: seq<Byte>, c: nat, rest: seq<Byte>, n: nat)
    requires |buf| == BUFFER_SIZE && STRIPE_LEN * c <= |data| && rest == data[STRIPE_LEN * c..]
    requires 0 < n && STRIPE_LEN * n < |rest|
    ensures Window(rest, data, c, n)
    ensures var buf' := Overwrite(buf, BUFFER_SIZE - STRIPE_LEN, rest[STRIPE_LEN * n - STRIPE_LEN..STRIPE_LEN * n]);
            KeepsLastStripe(buf', data, c + n)
    ensures rest[STRIPE_LEN * n..] == data[STRIPE_LEN * (c + n)..]
  {
    var d, w := STRIPE_LEN * c, STRIPE_LEN * n;
    assert d + w == STRIPE_LEN * (c + n);
    assert rest[..w] == data[d..d + w];
    assert rest[w - STRIPE_LEN..w] == data[d + w - STRIPE_LEN..d + w];
    assert rest[w..] == data[d + w..];
    var buf' := Overwrite(buf, BUFFER_SIZE - STRIPE_LEN, rest[w - STRIPE_LEN..w]);
    assert buf'[BUFFER_SIZE - STRIPE_LEN..] == rest[w - STRIPE_LEN..w];
  }

  lemma {:induction false} StoreRest(buf: seq<Byte>, data: seq<Byte>, c: nat, rest: seq<Byte>)
    requires KeepsLastStripe(buf, data, c) && rest == data[STRIPE_LEN * c..]
    requires 0 < |rest| <= BUFFER_SIZE < |data|
    ensures Buffered(Overwrite(buf, 0, rest), |rest|, data, c)
  {
    var buf' := Overwrite(buf, 0, rest);
    assert buf'[..|rest|] == rest;
    if |rest| <= BUFFER_SIZE - STRIPE_LEN {
      assert buf'[BUFFER_SIZE - STRIPE_LEN..] == buf[BUFFER_SIZE - STRIPE_LEN..];
    }
  }

  /** The last 64 bytes of the input, assembled from the saved stripe and the buffer. */
  lemma {:induction false} CatchUp(buf: seq<Byte>, size: nat, data: seq<Byte>, c: nat)
    requires Buffered(buf, size, data, c) && STRIPE_LEN < |data| && size < STRIPE_LEN
    ensures buf[BUFFER_SIZE - (STRIPE_LEN - size)..] + buf[..size] == data[|data| - STRIPE_LEN..]
    ensures c == (|data| - 1) / STRIPE_LEN
  {
    assert buf[BUFFER_SIZE - STRIPE_LEN..][size..] == buf[BUFFER_SIZE - (STRIPE_LEN - size)..];
    assert data[STRIPE_LEN * (c - 1)..STRIPE_LEN * c][size..] == data[|data| - STRIPE_LEN..STRIPE_LEN * c];
    assert data[|data| - STRIPE_LEN..] == data[|data| - STRIPE_LEN..STRIPE_LEN * c] + data[STRIPE_LEN * c..];
  }

  /** Enough is buffered: the stripes still to absorb and the last 64 bytes are there. */
  lemma {:induction false} EnoughBuffered(buf: seq<Byte>, size: nat, data: seq<Byte>, c: nat)
    requires Buffered(buf, size, data, c) && STRIPE_LEN <= size
    ensures var n := (size - 1) / STRIPE_LEN;
            Window(buf, data, c, n) && c + n == (|data| - 1) / STRIPE_LEN
    ensures buf[size - STRIPE_LEN..size] == data[|data| - STRIPE_LEN..]
  {
    var n := (size - 1) / STRIPE_LEN;
    var d, w := STRIPE_LEN * c, STRIPE_LEN * n;
    assert buf[..size][..w] == buf[..w];
    assert data[d..][..w] == data[d..d + w];
    assert d + w == STRIPE_LEN * (c + n);
    assert buf[..size][size - STRIPE_LEN..] == buf[size - STRIPE_LEN..size];
    assert data[d..][size - STRIPE_LEN..] == data[|data| - STRIPE_LEN..];
  }

  /** memcpy into the buffer. */
  method CopyInto(dst: array<Byte>, at: nat, src: seq<Byte>)
    requires at + |src| <= dst.Length
    modifies dst
    ensures dst[..] == Overwrite(old(dst[..]), at, src)
  {
    forall i | 0 <= i < |src| {
      dst[at + i] := src[i];
    }
    assert forall j :: at <= j < at + |src| ==> dst[j] == src[j - at];
  }

  lemma {:induction false} AtPrefix<Acc, Hash>(k: Kernel<Acc, Hash>, secret: seq<Byte>, data: seq<Byte>, data': seq<Byte>, c: nat, acc: Acc, soFar: nat)
    requires At(k, secret, data, c, acc, soFar) && data <= data'
    ensures At(k, secret, data', c, acc, soFar)
  {
    AbsorbPrefix(k, secret, data, data', c);
  }

  class State<!Acc, !Hash> {
    const k: Kernel<Acc, Hash>
    const buffer: array<Byte>
    var acc: Acc
    var customSecret: seq<Byte>
    var bufferedSize: nat
    var useSeed: bool
    var nbStripesSoFar: nat
    var totalLen: nat
    var nbStripesPerBlock: nat
    var secretLimit: nat
    var seed: U64
    var extSecret: Option<seq<Byte>>

    ghost var mode: Mode        // how the last successful reset keyed the hash
    ghost var data: seq<Byte>   // all input since that reset

    /** The custom secret, when in use, is the one derived from the recorded seed. */
    ghost predicate Valid()
      reads this`customSecret, this`seed, this`extSecret
    {
      k.Sane() && buffer.Length == BUFFER_SIZE && |customSecret| == SECRET_DEFAULT_SIZE &&
      (extSecret.None? && seed != 0 ==> customSecret == k.customSecret(seed))
    }

    function Secret(): seq<Byte>
      reads this`customSecret, this`extSecret
    {
      if extSecret.Some? then extSecret.value else customSecret
    }

    /** The fields set by a reset agree with the mode. */
    ghost predicate Keyed()
      reads this`customSecret, this`seed, this`extSecret, this`useSeed, this`secretLimit, this`nbStripesPerBlock, this`mode
    {
      mode.Valid() && k.Sane() &&
      Secret() == LongSecret(k, mode) && SECRET_SIZE_MIN <= |Secret()| &&
      secretLimit == |Secret()| - STRIPE_LEN && nbStripesPerBlock == StripesPerBlock(Secret()) &&
      (match mode
       case Default => !useSeed
       case WithSecret(_) => !useSeed
       case WithSeed(s) => useSeed == (s != 0) && (useSeed ==> seed == s)
       case WithSecretAndSeed(_, s) => useSeed && seed == s)
    }

    /** Stripes absorbed so far. */
    ghost function Absorbed(): (c: nat)
      reads this`bufferedSize, this`data
    {
      if bufferedSize <= |data| then (|data| - bufferedSize) / STRIPE_LEN else 0
    }

    ghost predicate Ready()
      reads this, buffer
    {
      Loaded() && totalLen == |data| % TWO64
    }

    ghost predicate Loaded()
      reads this, buffer
    {
      Valid() && Keyed() &&
      Buffered(buffer[..], bufferedSize, data, Absorbed()) &&
      At(k, Secret(), data, Absorbed(), acc, nbStripesSoFar)
    }

    lemma {:induction false} LoadedAt(c: nat)
      requires Valid() && Keyed() && Buffered(buffer[..], bufferedSize, data, c)
      requires At(k, Secret(), data, c, acc, nbStripesSoFar)
      ensures Loaded()
    {
      assert |data| - bufferedSize == STRIPE_LEN * c && Absorbed() == c;
    }

    lemma {:induction false} LoadedParts()
      requires Loaded()
      ensures Valid() && Keyed() && buffer.Length == BUFFER_SIZE
    {}

    lemma {:induction false} LoadedSizes()
      requires Loaded()
      ensures bufferedSize <= BUFFER_SIZE && bufferedSize <= |data|
      ensures 0 < |data| <= BUFFER_SIZE ==> bufferedSize == |data| && buffer[..bufferedSize] == data
    {
      assert |data| <= BUFFER_SIZE ==> data[STRIPE_LEN * Absorbed()..] == data;
    }

    lemma {:induction false} EmptyIsReady()
      requires Valid() && Keyed() && data == [] && totalLen == 0 && bufferedSize == 0
      requires acc == k.init && nbStripesSoFar == 0
      ensures Ready()
    {}

    /** XXH3_createState with XXH3_INITSTATE; the other fields are uninitialised memory. */
    constructor (k: Kernel<Acc, Hash>, garbage: seq<Byte>)
      requires k.Sane() && |garbage| == SECRET_DEFAULT_SIZE
      ensures Valid() && fresh(buffer) && this.k == k
    {
      this.k := k;
      buffer := new Byte[BUFFER_SIZE];
      acc := k.init;
      customSecret := garbage;
      bufferedSize, useSeed, nbStripesSoFar, totalLen, nbStripesPerBlock, secretLimit := 0, false, 0, 0, 0, 0;
      seed, extSecret := 0, None;
      mode, data := Default, [];
    }

    /** XXH3_reset_internal; `secretSize - 64` wraps as a size_t does. */
    method ResetInternal(seed: U64, secret: Option<seq<Byte>>, secretSize: nat)
      requires k.Sane() && buffer.Length == BUFFER_SIZE && |customSecret| == SECRET_DEFAULT_SIZE
      requires secret.None? && seed != 0 ==> customSecret == k.customSecret(seed)
      modifies this
      ensures Valid() && data == [] && totalLen == 0 && bufferedSize == 0 && nbStripesSoFar == 0
      ensures acc == k.init && this.seed == seed && useSeed == (seed != 0) && extSecret == secret
      ensures secretLimit == (secretSize - STRIPE_LEN) % TWO64 && nbStripesPerBlock == secretLimit / CONSUME_RATE
      ensures customSecret == old(customSecret) && mode == old(mode)
    {
      hide Kernel.Sane;
      var limit := (secretSize - STRIPE_LEN) % TWO64;
      var perBlock := limit / CONSUME_RATE;
      bufferedSize, nbStripesSoFar, totalLen := 0, 0, 0;
      acc := k.init;
      this.seed := seed;
      useSeed := seed != 0;
      extSecret := secret;
      secretLimit := limit;
      nbStripesPerBlock := perBlock;
      data := [];
    }

    /** XXH3_64bits_reset */
    method Reset()
      requires Valid()
      modifies this
      ensures Ready() && data == [] && mode == Default
    {
      ResetInternal(0, Some(k.defaultSecret), SECRET_DEFAULT_SIZE);
      mode := Default;
      EmptyIsReady();
    }

    /** XXH3_64bits_reset_withSecret: resets even when it then reports an error. */
    method ResetWithSecret(secret: seq<Byte>) returns (ok: bool)
      requires Valid() && |secret| < TWO64
      modifies this
      ensures Valid() && ok == (SECRET_SIZE_MIN <= |secret|)
      ensures ok ==> Ready() && data == [] && mode == WithSecret(secret)
    {
      hide State.Ready;
      ResetInternal(0, Some(secret), |secret|);
      mode := WithSecret(secret);
      ok := SECRET_SIZE_MIN <= |secret|;
      if ok {
        EmptyIsReady();
      }
    }

    /** XXH3_64bits_reset_withSeed: the derived secret is recomputed only when the seed
        changed or an external secret was in use. */
    method ResetWithSeed(seed: U64)
      requires Valid()
      modifies this
      ensures Ready() && data == []
      ensures mode == if seed == 0 then Default else WithSeed(seed)
    {
      if seed == 0 {
        Reset();
        return;
      }
      if seed != this.seed || extSecret.Some? {
        customSecret := k.customSecret(seed);
      }
      ResetInternal(seed, None, SECRET_DEFAULT_SIZE);
      mode := WithSeed(seed);
      EmptyIsReady();
    }

    /** XXH3_64bits_reset_withSecretandSeed */
    method ResetWithSecretAndSeed(secret: seq<Byte>, seed: U64) returns (ok: bool)
      requires Valid() && |secret| < TWO64
      modifies this
      ensures Valid() && ok == (SECRET_SIZE_MIN <= |secret|)
      ensures ok ==> Ready() && data == [] && mode == WithSecretAndSeed(secret, seed)
    {
      if |secret| < SECRET_SIZE_MIN {
        return false;
      }
      hide State.Ready;
      ResetInternal(seed, Some(secret), |secret|);
      useSeed := true;
      mode := WithSecretAndSeed(secret, seed);
      EmptyIsReady();
      return true;
    }

    /** XXH3_update */
    method Update(input: seq<Byte>)
      requires Ready()
      modifies this, buffer
      ensures Ready() && data == old(data) + input && mode == old(mode)
    {
      LoadedSizes();
      WrappedSum64(|data|, |input|);
      hide State.Loaded, State.Running;
      totalLen := (totalLen + |input|) % TWO64;
      if |input| <= BUFFER_SIZE - bufferedSize {
        AppendInput(input);
      } else {
        ghost var c;
        var rest;
        rest, c := FinishBuffer(input);
        if |rest| > BUFFER_SIZE {
          rest, c := ConsumeDirect(rest, c);
        }
        HoldRest(rest, c);
      }
    }

    /** Everything but the buffered bytes is as `Ready` wants it after `c` stripes, and `rest`
        is the input beyond them. */
    ghost predicate Running(c: nat, rest: seq<Byte>)
      reads this`customSecret, this`seed, this`extSecret, this`useSeed, this`secretLimit, this`nbStripesPerBlock, this`mode,
            this`totalLen, this`data, this`acc, this`nbStripesSoFar, buffer
    {
      Valid() && Keyed() && totalLen == |data| % TWO64 && BUFFER_SIZE < |data| &&
      KeepsLastStripe(buffer[..], data, c) && rest == data[STRIPE_LEN * c..] &&
      At(k, Secret(), data, c, acc, nbStripesSoFar)
    }

    /** Small input: just fill the buffer. */
    method AppendInput(input: seq<Byte>)
      requires Loaded() && totalLen == (|data| + |input|) % TWO64 && |input| <= BUFFER_SIZE - bufferedSize
      modifies this`bufferedSize, this`data, buffer
      ensures Ready() && data == old(data) + input
    {
      hide At, Buffered, Overwrite, Kernel.Sane, LongSecret;
      ghost var c := Absorbed();
      ghost var data' := data + input;
      AppendSmall(buffer[..], bufferedSize, data, c, input);
      AtPrefix(k, Secret(), data, data', c, acc, nbStripesSoFar);
      CopyInto(buffer, bufferedSize, input);
      bufferedSize := bufferedSize + |input|;
      data := data';
      LoadedAt(c);
    }

    /** Completes a partly filled buffer and consumes it; returns the input after it. */
    method FinishBuffer(input: seq<Byte>) returns (rest: seq<Byte>, ghost c: nat)
      requires Loaded() && totalLen == (|data| + |input|) % TWO64 && BUFFER_SIZE - bufferedSize < |input|
      modifies this`bufferedSize, this`data, this`acc, this`nbStripesSoFar, buffer
      ensures bufferedSize == 0 && data == old(data) + input
      ensures 0 < |rest| && Running(c, rest)
    {
      c := Absorbed();
      AtPrefix(k, Secret(), data, data + input, c, acc, nbStripesSoFar);
      hide At, Window;
      if bufferedSize > 0 {
        rest := CompleteBuffer(input, c);
        c := c + BUFFER_STRIPES;
      } else {
        assert data == [] && [] + input == input;
        rest := input;
        data := data + input;
      }
    }

    method CompleteBuffer(input: seq<Byte>, ghost c: nat) returns (rest: seq<Byte>)
      requires Loaded() && c == Absorbed() && At(k, Secret(), data + input, c, acc, nbStripesSoFar)
      requires totalLen == (|data| + |input|) % TWO64 && BUFFER_SIZE - bufferedSize < |input|
      modifies this`bufferedSize, this`data, this`acc, this`nbStripesSoFar, buffer
      ensures bufferedSize == 0 && data == old(data) + input
      ensures 0 < |rest| && Running(c + BUFFER_STRIPES, rest)
    {
      FillWindow(buffer[..], bufferedSize, data, c, input);
      LoadedSizes();
      LoadedParts();
      hide State.Loaded, State.Running, State.Valid, State.Keyed, Window, KeepsLastStripe, At, Overwrite;
      var loadSize := BUFFER_SIZE - bufferedSize;
      CopyInto(buffer, bufferedSize, input[..loadSize]);
      rest := input[loadSize..];
      data := data + input;
      ConsumeBuffer(c, rest);
      bufferedSize := 0;
    }

    method ConsumeBuffer(ghost c: nat, ghost rest: seq<Byte>)
      requires Valid() && Keyed() && totalLen == |data| % TWO64 && BUFFER_SIZE < |data|
      requires Window(buffer[..], data, c, BUFFER_STRIPES) && At(k, Secret(), data, c, acc, nbStripesSoFar)
      requires KeepsLastStripe(buffer[..], data, c + BUFFER_STRIPES) && rest == data[STRIPE_LEN * (c + BUFFER_STRIPES)..]
      modifies this`acc, this`nbStripesSoFar
      ensures Running(c + BUFFER_STRIPES, rest)
    {
      var endPos;
      acc, nbStripesSoFar, endPos := ConsumeStripes(k, acc, nbStripesSoFar, nbStripesPerBlock, buffer[..], BUFFER_STRIPES,
                                                    Secret(), secretLimit, data, c);
    }

    /** Takes stripes straight from a long input, leaving 1 to 64 bytes; saves the last stripe. */
    method ConsumeDirect(input: seq<Byte>, ghost c: nat) returns (rest: seq<Byte>, ghost c': nat)
      requires BUFFER_SIZE < |input| && Running(c, input)
      modifies this`acc, this`nbStripesSoFar, buffer
      ensures 0 < |rest| <= STRIPE_LEN && Running(c', rest)
    {
      var nbStripes := (|input| - 1) / STRIPE_LEN;
      DirectWindow(buffer[..], data, c, input, nbStripes);
      var pos;
      acc, nbStripesSoFar, pos := ConsumeStripes(k, acc, nbStripesSoFar, nbStripesPerBlock, input, nbStripes,
                                                 Secret(), secretLimit, data, c);
      CopyInto(buffer, BUFFER_SIZE - STRIPE_LEN, input[pos - STRIPE_LEN..pos]);
      rest, c' := input[pos..], c + nbStripes;
    }

    /** Some input always remains; it is held back in the buffer. */
    method HoldRest(rest: seq<Byte>, ghost c: nat)
      requires 0 < |rest| <= BUFFER_SIZE && Running(c, rest)
      modifies this`bufferedSize, buffer
      ensures Ready()
    {
      StoreRest(buffer[..], data, c, rest);
      CopyInto(buffer, 0, rest);
      bufferedSize := |rest|;
      LoadedAt(c);
    }

    /** XXH3_digest_long: works on a copy of the accumulators. */
    method DigestLong(secret: seq<Byte>) returns (acc': Acc)
      requires Ready() && secret == Secret() && STRIPE_LEN < |data|
      ensures acc' == LongAcc(k, Secret(), data)
    {
      hide LongAcc, At;
      acc' := acc;
      var lastStripe;
      ghost var soFar := nbStripesSoFar;
      if bufferedSize >= STRIPE_LEN {
        acc', lastStripe, soFar := DigestBuffer(secret);
      } else {
        CatchUp(buffer[..], bufferedSize, data, Absorbed());
        var catchupSize := STRIPE_LEN - bufferedSize;
        lastStripe := buffer[BUFFER_SIZE - catchupSize..] + buffer[..bufferedSize];
      }
      LastStripe(k, secret, data, acc', soFar);
      acc' := k.accumulate512(acc', lastStripe, secret[secretLimit - LASTACC_START..][..STRIPE_LEN]);
    }

    lemma {:induction false} BlockPosition()
      requires Loaded()
      ensures SECRET_SIZE_MIN <= |Secret()| && secretLimit == |Secret()| - STRIPE_LEN && bufferedSize <= buffer.Length
      ensures nbStripesPerBlock == StripesPerBlock(Secret()) && nbStripesSoFar < nbStripesPerBlock
      ensures At(k, Secret(), data, Absorbed(), acc, nbStripesSoFar)
    {}

    lemma {:induction false} EnoughIsBuffered()
      requires Loaded() && STRIPE_LEN <= bufferedSize
      ensures var n := (bufferedSize - 1) / STRIPE_LEN;
              Window(buffer[..], data, Absorbed(), n) && Absorbed() + n == (|data| - 1) / STRIPE_LEN
      ensures bufferedSize <= buffer.Length
      ensures STRIPE_LEN < |data| ==> buffer[..][bufferedSize - STRIPE_LEN..bufferedSize] == data[|data| - STRIPE_LEN..]
    {
      hide State.Valid, State.Keyed, At, Window;
      EnoughBuffered(buffer[..], bufferedSize, data, Absorbed());
    }

    /** Consumes the remaining stripes and points to the remaining data in the buffer. */
    method DigestBuffer(secret: seq<Byte>) returns (acc': Acc, lastStripe: seq<Byte>, ghost soFar: nat)
      requires Loaded() && secret == Secret() && STRIPE_LEN <= bufferedSize && STRIPE_LEN < |data|
      ensures lastStripe == data[|data| - STRIPE_LEN..]
      ensures At(k, secret, data, (|data| - 1) / STRIPE_LEN, acc', soFar)
    {
      EnoughIsBuffered();
      BlockPosition();
      hide State.Loaded, State.Absorbed, Window, At;
      var soFar', endPos;
      acc', soFar', endPos := ConsumeStripes(k, acc, nbStripesSoFar, nbStripesPerBlock, buffer[..],
                                             (bufferedSize - 1) / STRIPE_LEN, secret, secretLimit, data, Absorbed());
      soFar := soFar';
      lastStripe := buffer[bufferedSize - STRIPE_LEN..bufferedSize];
    }

    lemma {:induction false} ReadyToDigest()
      requires Ready() && |data| < TWO64
      ensures k.Sane() && mode.Valid() && totalLen == |data| && Secret() == LongSecret(k, mode) && SECRET_SIZE_MIN <= |Secret()|
      ensures |data| <= MIDSIZE_MAX ==> totalLen <= buffer.Length && buffer[..totalLen] == data
      ensures ShortHash(k, mode, data) == if useSeed then k.hashShort(data, k.defaultSecret, seed) else k.hashShort(data, Secret(), 0)
    {
      LoadedSizes();
      assert data == [] ==> buffer[..totalLen] == data;
    }

    /** XXH3_64bits_digest.  The recorded length wraps at 2^64, as does the length argument of
        the one-shot form, which therefore cannot be given a longer input. */
    method Digest() returns (h: Hash)
      requires Ready() && |data| < TWO64
      ensures h == HashOf(k, mode, data)
    {
      hide State.Loaded, LongAcc, ShortHash;
      ReadyToDigest();
      if totalLen > MIDSIZE_MAX {
        var acc' := DigestLong(Secret());
        h := k.finalizeLong(acc', Secret(), totalLen);
      } else {
        if useSeed {
          h := k.hashShort(buffer[..totalLen], k.defaultSecret, seed);
        } else {
          h := k.hashShort(buffer[..totalLen], Secret(), 0);
        }
      }
    }
  }

  /** XXH3_64bits, _withSecret, _withSeed and _withSecretandSeed. */
  method OneShot<Acc, Hash>(k: Kernel<Acc, Hash>, mode: Mode, input: seq<Byte>) returns (h: Hash)
    requires k.Sane() && mode.Valid()
    ensures h == HashOf(k, mode, input)
  {
    if |input| <= MIDSIZE_MAX {
      h := ShortHash(k, mode, input);
    } else {
      var secret := LongSecret(k, mode);
      var acc := HashLongInternalLoop(k, input, secret);
      h := k.finalizeLong(acc, secret, |input|);
    }
  }

  lemma {:induction false} SeedZero<Acc, Hash>(k: Kernel<Acc, Hash>, data: seq<Byte>)
    requires k.Sane()
    ensures HashOf(k, WithSeed(0), data) == HashOf(k, Default, data)
  {}

  /** The reset that goes with the one-shot form. */
  method ResetAs<Acc, Hash>(state: State<Acc, Hash>, mode: Mode)
    requires state.Valid() && mode.Valid() && (mode.WithSecret? || mode.WithSecretAndSeed? ==> |mode.secret| < TWO64)
    modifies state
    ensures state.Ready() && state.data == []
    ensures state.mode == if mode == WithSeed(0) then Default else mode
  {
    hide State.Ready, State.Valid;
    var ok := true;
    match mode {
      case Default => state.Reset();
      case WithSecret(secret) => ok := state.ResetWithSecret(secret);
      case WithSeed(seed) => state.ResetWithSeed(seed);
      case WithSecretAndSeed(secret, seed) => ok := state.ResetWithSecretAndSeed(secret, seed);
    }
  }

  method FeedAll<Acc, Hash>(state: State<Acc, Hash>, chunks: seq<seq<Byte>>)
    requires state.Ready() && state.data == []
    modifies state, state.buffer
    ensures state.Ready() && state.data == Flatten(chunks) && state.mode == old(state.mode)
  {
    hide State.Ready;
    FlattenUpTo(chunks, 0);
    for i := 0 to |chunks|
      invariant state.Ready() && state.data == Flatten(chunks[..i]) && state.mode == old(state.mode)
    {
      hide Flatten;
      FlattenUpTo(chunks, i);
      state.Update(chunks[i]);
    }
    assert chunks[..|chunks|] == chunks;
  }

  lemma {:induction false} FlattenUpTo(chunks: seq<seq<Byte>>, i: nat)
    requires i <= |chunks|
    ensures i == 0 ==> Flatten(chunks[..i]) == []
    ensures i < |chunks| ==> Flatten(chunks[..i + 1]) == Flatten(chunks[..i]) + chunks[i]
  {
    if i < |chunks| {
      assert chunks[..i + 1][..i] == chunks[..i];
    }
  }

  /** Whatever way an input is cut into updates, and however the hash is keyed, streaming it
      gives its one-shot hash. */
  method StreamingAgrees<Acc, Hash>(k: Kernel<Acc, Hash>, mode: Mode, chunks: seq<seq<Byte>>, garbage: seq<Byte>)
    returns (streamed: Hash, oneShot: Hash)
    requires k.Sane() && |garbage| == SECRET_DEFAULT_SIZE && |Flatten(chunks)| < TWO64
    requires mode.Valid() && (mode.WithSecret? || mode.WithSecretAndSeed? ==> |mode.secret| < TWO64)
    ensures streamed == oneShot == HashOf(k, mode, Flatten(chunks))
  {
    SeedZero(k, Flatten(chunks));
    hide State.Ready, HashOf, LongSecret, ShortHash;
    var state := new State(k, garbage);
    ResetAs(state, mode);
    FeedAll(state, chunks);
    streamed := state.Digest();
    oneShot := OneShot(k, mode, Flatten(chunks));
  }
}
