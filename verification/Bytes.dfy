/** Bytes, machine words and chunked inputs. */
module Bytes {

  const TWO16 := 0x1_0000
  const TWO32 := 0x1_0000_0000
  const TWO64 := 0x1_0000_0000_0000_0000

  type Byte = b: int | 0 <= b < 256
  type U64 = w: int | 0 <= w < TWO64

  /** The input a sequence of update calls amounts to. */
  function Flatten(chunks: seq<seq<Byte>>): seq<Byte> {
    if chunks == [] then [] else Flatten(chunks[..|chunks| - 1]) + chunks[|chunks| - 1]
  }

  lemma {:induction false} ChunkFits(chunks: seq<seq<Byte>>, i: nat)
    requires i < |chunks|
    ensures |chunks[i]| <= |Flatten(chunks)|
  {
    if i < |chunks| - 1 {
      ChunkFits(chunks[..|chunks| - 1], i);
    }
  }

  lemma {:induction false} FlattenHead(chunks: seq<seq<Byte>>)
    requires chunks != []
    ensures Flatten(chunks) == chunks[0] + Flatten(chunks[1..])
  {
    var n := |chunks| - 1;
    if n > 0 {
      FlattenHead(chunks[..n]);
      assert chunks[..n][1..] == chunks[1..][..n - 1];
    }
  }

  /** What stands at a position, and what follows it. */
  lemma {:induction false} Piece(file: seq<Byte>, pos: nat, a: seq<Byte>, rest: seq<Byte>)
    requires pos <= |file| && file[pos..] == a + rest
    ensures pos + |a| <= |file| && file[pos..pos + |a|] == a && file[pos + |a|..] == rest
  {
    assert file[pos..][..|a|] == a && file[pos..][|a|..] == rest;
  }

  lemma {:induction false} WrappedSum32(a: nat, b: nat)
    ensures (a % TWO32 + b) % TWO32 == (a + b) % TWO32
  {
    assert a + b == TWO32 * (a / TWO32) + (a % TWO32 + b);
  }

  lemma {:induction false} WrappedSum64(a: nat, b: nat)
    ensures (a % TWO64 + b) % TWO64 == (a + b) % TWO64
  {
    assert a + b == TWO64 * (a / TWO64) + (a % TWO64 + b);
  }

  // ---------- numbers as bytes ----------

  /** The low `k` bytes of `x`, least significant first. */
  function Little(x: nat, k: nat): (b: seq<Byte>)
    ensures |b| == k
  {
    if k == 0 then [] else [x % 256] + Little(x / 256, k - 1)
  }

  function FromLittle(b: seq<Byte>): (x: nat) {
    if b == [] then 0 else b[0] as int + 256 * FromLittle(b[1..])
  }

  /** The low `k` bytes of `x`, most significant first. */
  function Big(x: nat, k: nat): (b: seq<Byte>)
    ensures |b| == k
  {
    if k == 0 then [] else Big(x / 256, k - 1) + [x % 256]
  }

  function FromBig(b: seq<Byte>): (x: nat) {
    if b == [] then 0 else 256 * FromBig(b[..|b| - 1]) + b[|b| - 1] as int
  }

  function Limit(k: nat): nat { if k == 0 then 1 else 256 * Limit(k - 1) }

  lemma {:induction false} LittleRoundTrip(x: nat, k: nat)
    requires x < Limit(k)
    ensures FromLittle(Little(x, k)) == x
    decreases k
  {
    if k > 0 {
      assert Little(x, k)[1..] == Little(x / 256, k - 1);
      LittleRoundTrip(x / 256, k - 1);
    }
  }

  lemma {:induction false} BigRoundTrip(x: nat, k: nat)
    requires x < Limit(k)
    ensures FromBig(Big(x, k)) == x
    decreases k
  {
    if k > 0 {
      assert Big(x, k)[..k - 1] == Big(x / 256, k - 1);
      BigRoundTrip(x / 256, k - 1);
    }
  }

  lemma {:induction false} NumberRoundTrips(x: nat, y: nat)
    requires x < TWO32 && y < TWO16
    ensures FromLittle(Little(x, 4)) == x && FromBig(Big(x, 4)) == x && FromLittle(Little(y, 2)) == y
  {
    assert Limit(2) == 256 * Limit(1) == TWO16;
    assert Limit(4) == 256 * Limit(3) == 65536 * Limit(2);
    LittleRoundTrip(x, 4);
    BigRoundTrip(x, 4);
    LittleRoundTrip(y, 2);
  }
}
