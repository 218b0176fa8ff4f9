/** XXH32 and XXH64 (deps/xxhash/xxhash.h): both run four lanes over fixed-size blocks and
    buffer what is left, so the buffering is stated once, for any block size. */
module XxhLanes {

  import opened Bytes
  import Division

  datatype Lanes<U> = Lanes(a0: U, a1: U, a2: U, a3: U)

  /** What XXH32 (block 16) and XXH64 (block 32) differ in.  `addLength` adds the input length,
      reduced to the word size; `finalize` mixes in the bytes after the last whole block. */
  datatype Variant<!U(!new)> = Variant(
    block: nat,
    initAccs: U -> Lanes<U>,
    consume: (Lanes<U>, seq<Byte>) -> Lanes<U>,
    mergeAccs: Lanes<U> -> U,
    addPrime5: U -> U,
    addLength: (U, nat) -> U,
    finalize: (U, seq<Byte>) -> U
  ) {
    /** The third lane starts out as the seed. */
    ghost predicate Sane() {
      0 < block && forall seed :: initAccs(seed).a2 == seed
    }
  }

  // ---------- reference ----------

  /** The length of `n` blocks of `b` bytes. */
  function Times(b: nat, n: nat): nat {
    if n == 0 then 0 else Times(b, n - 1) + b
  }

  function Blocks<U(!new)>(v: Variant<U>, acc: Lanes<U>, data: seq<Byte>, n: nat): Lanes<U>
    requires Times(v.block, n) <= |data|
  {
    if n == 0 then acc
    else v.consume(Blocks(v, acc, data, n - 1), data[Times(v.block, n - 1)..Times(v.block, n)])
  }

  /** Hash of `data`: as many whole blocks as there are, the length modulo `word`, and the rest. */
  function HashOf<U(!new)>(v: Variant<U>, seed: U, data: seq<Byte>, word: nat): U
    requires 0 < v.block && 0 < word
  {
    var n := |data| / v.block;
    Quotient(|data|, v.block);
    var h := if |data| >= v.block then v.mergeAccs(Blocks(v, v.initAccs(seed), data, n)) else v.addPrime5(seed);
    v.finalize(v.addLength(h, |data| % word), data[|data| - |data| % v.block..])
  }

  lemma {:induction false} TimesIsProduct(b: nat, n: nat)
    ensures Times(b, n) == b * n
  {
    if n > 0 {
      TimesIsProduct(b, n - 1);
    }
  }

  lemma {:induction false} Quotient(len: nat, b: nat)
    requires 0 < b
    ensures Times(b, len / b) == len - len % b && len % b < b && (len < b ==> len / b == 0)
  {
    TimesIsProduct(b, len / b);
  }

  /** Any split into whole blocks and a rest shorter than a block is the division. */
  lemma {:induction false} QuotientUnique(len: nat, b: nat, n: nat, rest: nat)
    requires len == Times(b, n) + rest && rest < b
    ensures n == len / b && rest == len % b
  {
    TimesIsProduct(b, n);
    Division.QuotientUnique(len, b, n, rest);
  }

  lemma {:induction false} BlocksPrefix<U(!new)>(v: Variant<U>, acc: Lanes<U>, a: seq<Byte>, b: seq<Byte>, n: nat)
    requires Times(v.block, n) <= |a| && Times(v.block, n) <= |b| && a[..Times(v.block, n)] == b[..Times(v.block, n)]
    ensures Blocks(v, acc, a, n) == Blocks(v, acc, b, n)
  {
    if n > 0 {
      var m, e := Times(v.block, n - 1), Times(v.block, n);
      assert a[..m] == a[..e][..m] == b[..e][..m] == b[..m];
      assert a[m..e] == a[..e][m..] == b[..e][m..] == b[m..e];
      BlocksPrefix(v, acc, a, b, n - 1);
    }
  }

  /** Blocks can be consumed in two goes. */
  lemma {:induction false} BlocksSplit<U(!new)>(v: Variant<U>, acc: Lanes<U>, data: seq<Byte>, c: nat, n: nat)
    requires Times(v.block, c) + Times(v.block, n) <= |data|
    ensures Times(v.block, c + n) == Times(v.block, c) + Times(v.block, n)
    ensures Blocks(v, acc, data, c + n) == Blocks(v, Blocks(v, acc, data, c), data[Times(v.block, c)..], n)
    decreases n
  {
    if n > 0 {
      BlocksSplit(v, acc, data, c, n - 1);
      assert c + (n - 1) == c + n - 1;
      SliceOfDrop(data, Times(v.block, c), Times(v.block, n - 1), Times(v.block, n));
    }
  }

  lemma {:induction false} SliceOfDrop<T>(s: seq<T>, o: nat, x: nat, y: nat)
    requires x <= y && o + y <= |s|
    ensures s[o..][x..y] == s[o + x..o + y]
  {}

  // ---------- the source's code ----------

  /** XXH32_consumeLong, XXH64_consumeLong: at least one block, up to the last whole one. */
  method ConsumeLong<U(!new)>(v: Variant<U>, acc: Lanes<U>, input: seq<Byte>) returns (acc': Lanes<U>, pos: nat)
    requires 0 < v.block <= |input|
    ensures pos == |input| - |input| % v.block == Times(v.block, |input| / v.block)
    ensures acc' == Blocks(v, acc, input, |input| / v.block)
  {
    acc' := v.consume(acc, input[0..v.block]);
    pos := v.block;
    ghost var n := 1;
    while pos + (v.block - 1) < |input|
      invariant pos == Times(v.block, n) <= |input| && acc' == Blocks(v, acc, input, n)
      decreases |input| - pos
    {
      acc' := v.consume(acc', input[pos..pos + v.block]);
      pos, n := pos + v.block, n + 1;
    }
    QuotientUnique(|input|, v.block, n, |input| - pos);
  }

  /** XXH32_endian_align, XXH64_endian_align. */
  method OneShot<U(!new)>(v: Variant<U>, seed: U, input: seq<Byte>, word: nat) returns (h: U)
    requires 0 < v.block && 0 < word
    ensures h == HashOf(v, seed, input, word)
  {
    var pos := 0;
    Quotient(|input|, v.block);
    if |input| >= v.block {
      var acc;
      acc, pos := ConsumeLong(v, v.initAccs(seed), input);
      h := v.mergeAccs(acc);
    } else {
      h := v.addPrime5(seed);
    }
    h := v.addLength(h, |input| % word);
    h := v.finalize(h, input[pos..]);
  }

  /** The lanes, the buffer and the buffering shared by XXH32_update and XXH64_update. */
  class LaneState<!U(!new)> {
    const v: Variant<U>
    const buffer: array<Byte>
    var acc: Lanes<U>
    var bufferedSize: nat

    ghost var seed: U
    ghost var data: seq<Byte>
    ghost var blocks: nat

    ghost predicate Valid()
      reads this, buffer
    {
      v.Sane() && buffer.Length == v.block && bufferedSize < v.block &&
      |data| == Times(v.block, blocks) + bufferedSize &&
      buffer[..bufferedSize] == data[Times(v.block, blocks)..] &&
      acc == Blocks(v, v.initAccs(seed), data, blocks)
    }

    constructor (v: Variant<U>, seed: U)
      requires v.Sane()
      ensures Valid() && fresh(buffer) && data == [] && this.seed == seed && this.v == v && blocks == 0
    {
      this.v := v;
      buffer := new Byte[v.block];
      acc := v.initAccs(seed);
      bufferedSize, blocks := 0, 0;
      this.seed, data := seed, [];
    }

    method Feed(input: seq<Byte>)
      requires Valid()
      modifies this, buffer
      ensures Valid() && data == old(data) + input && seed == old(seed)
    {
      ghost var data' := data + input;
      BlocksPrefix(v, v.initAccs(seed), data, data', blocks);
      if |input| < v.block - bufferedSize {
        Hold(bufferedSize, input, data');
      } else {
        FeedBlocks(input);
      }
    }

    /** The part of an update call that completes at least one block. */
    method FeedBlocks(input: seq<Byte>)
      requires Valid() && v.block - bufferedSize <= |input|
      requires Blocks(v, v.initAccs(seed), data, blocks) == Blocks(v, v.initAccs(seed), data + input, blocks)
      modifies this, buffer
      ensures Valid() && data == old(data) + input && seed == old(seed)
    {
      ghost var data' := data + input;
      var rest := input;
      if bufferedSize > 0 {
        rest := CompleteBlock(input);
      } else {
        data := data';
      }
      if |rest| >= v.block {
        rest := ConsumeRest(rest);
      }
      HoldRest(rest);
    }

    /** Buffers what is left over, if anything. */
    method HoldRest(rest: seq<Byte>)
      requires Running(rest) && |rest| < v.block
      modifies this`bufferedSize, this`data, buffer
      ensures Valid() && data == old(data)
    {
      if |rest| > 0 {
        Hold(0, rest, data);
      }
    }

    /** Everything but the buffered bytes agrees with `data`. */
    ghost predicate Running(rest: seq<Byte>)
      reads this
    {
      v.Sane() && buffer.Length == v.block && bufferedSize == 0 && Times(v.block, blocks) <= |data| &&
      rest == data[Times(v.block, blocks)..] && acc == Blocks(v, v.initAccs(seed), data, blocks)
    }

    method Hold(at: nat, src: seq<Byte>, ghost data': seq<Byte>)
      requires at == bufferedSize && at + |src| < v.block && v.Sane() && buffer.Length == v.block
      requires Times(v.block, blocks) <= |data'| && data'[Times(v.block, blocks)..] == buffer[..at] + src
      requires acc == Blocks(v, v.initAccs(seed), data', blocks)
      modifies this`bufferedSize, this`data, buffer
      ensures Valid() && data == data'
    {
      forall i | 0 <= i < |src| {
        buffer[at + i] := src[i];
      }
      bufferedSize := at + |src|;
      data := data';
      assert buffer[..bufferedSize] == old(buffer[..at]) + src;
    }

    /** Completes a partly filled buffer and processes it as one block. */
    method CompleteBlock(input: seq<Byte>) returns (rest: seq<Byte>)
      requires Valid() && v.block - bufferedSize <= |input|
      requires Blocks(v, v.initAccs(seed), data, blocks) == Blocks(v, v.initAccs(seed), data + input, blocks)
      modifies this`bufferedSize, this`data, this`blocks, this`acc, buffer
      ensures data == old(data) + input && Running(rest)
    {
      ghost var data' := data + input;
      var load := v.block - bufferedSize;
      BlockCompleted(data, input, Times(v.block, blocks), v.block);
      Fill(input[..load]);
      rest := input[load..];
      acc := v.consume(acc, buffer[..]);
      bufferedSize, blocks, data := 0, blocks + 1, data';
    }

    method Fill(src: seq<Byte>)
      requires bufferedSize + |src| == buffer.Length
      modifies buffer
      ensures buffer[..] == old(buffer[..bufferedSize]) + src
    {
      forall i | 0 <= i < |src| {
        buffer[bufferedSize + i] := src[i];
      }
    }

    method ConsumeRest(input: seq<Byte>) returns (rest: seq<Byte>)
      requires Running(input) && v.block <= |input|
      modifies this`blocks, this`acc
      ensures Running(rest) && |rest| < v.block
    {
      var pos;
      ghost var n := |input| / v.block;
      Quotient(|input|, v.block);
      acc, pos := ConsumeLong(v, acc, input);
      BlocksSplit(v, v.initAccs(seed), data, blocks, n);
      rest := input[pos..];
      SliceOfDrop(data, Times(v.block, blocks), pos, |input|);
      blocks := blocks + n;
    }
  }

  lemma {:induction false} BlockCompleted(data: seq<Byte>, input: seq<Byte>, start: nat, block: nat)
    requires start <= |data| < start + block <= |data| + |input|
    ensures (data + input)[start..start + block] == data[start..] + input[..start + block - |data|]
    ensures (data + input)[start + block..] == input[start + block - |data|..]
  {}

  /** XXH32_state_t: a 32-bit length that wraps, and a sticky flag for "at least one block". */
  class Xxh32State<!U(!new)> {
    const lanes: LaneState<U>
    var totalLen32: nat
    var largeLen: bool

    ghost predicate Valid()
      reads this, lanes, lanes.buffer
    {
      lanes.Valid() && lanes.v.block == 16 && totalLen32 == |lanes.data| % TWO32 &&
      (largeLen <==> |lanes.data| >= 16)
    }

    /** XXH32_reset */
    constructor (v: Variant<U>, seed: U)
      requires v.Sane() && v.block == 16
      ensures Valid() && fresh(lanes) && fresh(lanes.buffer)
      ensures lanes.data == [] && lanes.seed == seed && lanes.v == v
    {
      lanes := new LaneState(v, seed);
      totalLen32, largeLen := 0, false;
    }

    /** XXH32_update */
    method Update(input: seq<Byte>)
      requires Valid()
      modifies this, lanes, lanes.buffer
      ensures Valid() && lanes.data == old(lanes.data) + input && lanes.seed == old(lanes.seed)
    {
      LengthKept(|lanes.data|, |input|);
      totalLen32 := (totalLen32 + |input| % TWO32) % TWO32;
      largeLen := largeLen || |input| >= 16 || totalLen32 >= 16;
      lanes.Feed(input);
    }

    /** XXH32_digest: right for inputs of any length. */
    method Digest() returns (h: U)
      requires Valid()
      ensures h == HashOf(lanes.v, lanes.seed, lanes.data, TWO32)
    {
      QuotientUnique(|lanes.data|, lanes.v.block, lanes.blocks, lanes.bufferedSize);
      if largeLen {
        h := lanes.v.mergeAccs(lanes.acc);
      } else {
        NoBlocks(lanes.v.block, lanes.blocks, |lanes.data|);
        h := lanes.v.addPrime5(lanes.acc.a2);
      }
      h := lanes.v.addLength(h, totalLen32);
      h := lanes.v.finalize(h, lanes.buffer[..lanes.bufferedSize]);
    }
  }

  /** The wrapped length is kept, and a sum of two short lengths is not wrapped. */
  lemma {:induction false} LengthKept(len: nat, added: nat)
    ensures var kept := (len % TWO32 + added % TWO32) % TWO32;
            kept == (len + added) % TWO32 && (kept >= 16 ==> len + added >= 16) &&
            (len < 16 && added < 16 ==> kept == len + added)
  {
    WrappedSum32(added, len % TWO32);
    WrappedSum32(len, added);
  }

  lemma {:induction false} NoBlocks(b: nat, n: nat, len: nat)
    requires Times(b, n) <= len < b
    ensures n == 0
  {
  }

  /** XXH64_state_t: only a 64-bit length; at least one block is read off the length. */
  class Xxh64State<!U(!new)> {
    const lanes: LaneState<U>
    var totalLen: nat

    ghost predicate Valid()
      reads this, lanes, lanes.buffer
    {
      lanes.Valid() && lanes.v.block == 32 && totalLen == |lanes.data| % TWO64
    }

    /** XXH64_reset */
    constructor (v: Variant<U>, seed: U)
      requires v.Sane() && v.block == 32
      ensures Valid() && fresh(lanes) && fresh(lanes.buffer)
      ensures lanes.data == [] && lanes.seed == seed && lanes.v == v
    {
      lanes := new LaneState(v, seed);
      totalLen := 0;
    }

    /** XXH64_update */
    method Update(input: seq<Byte>)
      requires Valid() && |input| < TWO64
      modifies this, lanes, lanes.buffer
      ensures Valid() && lanes.data == old(lanes.data) + input && lanes.seed == old(lanes.seed)
    {
      WrappedSum64(|lanes.data|, |input|);
      totalLen := (totalLen + |input|) % TWO64;
      lanes.Feed(input);
    }

    /** XXH64_digest: once the recorded length has wrapped below one block the lanes would be
        left out, so it is right exactly as far as a one-shot length argument reaches. */
    method Digest() returns (h: U)
      requires Valid() && |lanes.data| < TWO64
      ensures h == HashOf(lanes.v, lanes.seed, lanes.data, TWO64)
    {
      QuotientUnique(|lanes.data|, 32, lanes.blocks, lanes.bufferedSize);
      if totalLen >= 32 {
        h := lanes.v.mergeAccs(lanes.acc);
      } else {
        NoBlocks(lanes.v.block, lanes.blocks, |lanes.data|);
        h := lanes.v.addPrime5(lanes.acc.a2);
      }
      h := lanes.v.addLength(h, totalLen);
      h := lanes.v.finalize(h, lanes.buffer[..totalLen % 32]);
    }
  }

  /** XXH32 of an input of any length is the same for every way of cutting it into updates. */
  method Xxh32StreamingAgrees<U(!new)>(v: Variant<U>, seed: U, chunks: seq<seq<Byte>>) returns (streamed: U, oneShot: U)
    requires v.Sane() && v.block == 16
    ensures streamed == oneShot == HashOf(v, seed, Flatten(chunks), TWO32)
  {
    var state := new Xxh32State(v, seed);
    for i := 0 to |chunks|
      invariant fresh(state) && fresh(state.lanes) && fresh(state.lanes.buffer)
      invariant state.Valid() && state.lanes.v == v && state.lanes.seed == seed
      invariant state.lanes.data == Flatten(chunks[..i])
    {
      state.Update(chunks[i]);
      assert chunks[..i + 1][..i] == chunks[..i];
    }
    assert chunks[..|chunks|] == chunks;
    streamed := state.Digest();
    oneShot := OneShot(v, seed, Flatten(chunks), TWO32);
  }

  /** XXH64 likewise, for every input whose length a one-shot call can be given. */
  method Xxh64StreamingAgrees<U(!new)>(v: Variant<U>, seed: U, chunks: seq<seq<Byte>>) returns (streamed: U, oneShot: U)
    requires v.Sane() && v.block == 32 && |Flatten(chunks)| < TWO64
    ensures streamed == oneShot == HashOf(v, seed, Flatten(chunks), TWO64)
  {
    var state := new Xxh64State(v, seed);
    for i := 0 to |chunks|
      invariant fresh(state) && fresh(state.lanes) && fresh(state.lanes.buffer)
      invariant state.Valid() && state.lanes.v == v && state.lanes.seed == seed
      invariant state.lanes.data == Flatten(chunks[..i])
    {
      ChunkFits(chunks, i);
      state.Update(chunks[i]);
      assert chunks[..i + 1][..i] == chunks[..i];
    }
    assert chunks[..|chunks|] == chunks;
    streamed := state.Digest();
    oneShot := OneShot(v, seed, Flatten(chunks), TWO64);
  }
}
