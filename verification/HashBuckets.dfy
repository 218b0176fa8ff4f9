/** The buckets of uthash (deps/uthash/uthash.h): each holds a doubly linked chain of the elements
    whose hash value is the bucket's number, modulo the number of buckets. */
module HashBuckets {
  import opened LinkedLists
  import opened Options
  import opened Sequences

  const INITIAL_NUM_BUCKETS := 32
  const BKT_CAPACITY_THRESH := 10

  datatype Bucket = Bucket(hhHead: Option<nat>, count: nat, expandMult: nat)

  const EMPTY_BUCKET := Bucket(None, 0, 0)

  type Chains = seq<seq<nat>>

  /** hashv & (num_bkts - 1), for a power of two. */
  function ToBkt(hashv: nat, n: nat): (b: nat)
    requires 0 < n
    ensures b < n
  {
    hashv % n
  }

  ghost predicate ChainOk(hhNext: Links, hhPrev: Links, buckets: seq<Bucket>, chains: Chains, b: nat)
    requires b < |buckets| == |chains|
  {
    Linked(hhNext, hhPrev, chains[b]) && buckets[b].hhHead == At(chains[b], 0) && buckets[b].count == |chains[b]|
  }

  ghost predicate ChainsOk(hhNext: Links, hhPrev: Links, buckets: seq<Bucket>, chains: Chains) {
    0 < |buckets| == |chains| && |hhNext| == |hhPrev| &&
    forall b :: 0 <= b < |buckets| ==> ChainOk(hhNext, hhPrev, buckets, chains, b)
  }

  ghost predicate HoldsOnly(hashv: seq<nat>, chains: Chains, members: set<nat>, b: nat)
    requires b < |chains|
  {
    forall x :: x in chains[b] ==> x in members && x < |hashv| && ToBkt(hashv[x], |chains|) == b
  }

  ghost predicate IsHeld(hashv: seq<nat>, chains: Chains, x: nat)
    requires 0 < |chains|
  {
    x < |hashv| && x in chains[ToBkt(hashv[x], |chains|)]
  }

  /** The chains hold the members, each in the bucket of its hash value. */
  ghost predicate Placed(hashv: seq<nat>, chains: Chains, members: set<nat>) {
    0 < |chains| && (forall b :: 0 <= b < |chains| ==> HoldsOnly(hashv, chains, members, b)) &&
    forall x :: x in members ==> IsHeld(hashv, chains, x)
  }

  function EmptyChains(n: nat): (c: Chains)
    ensures |c| == n && forall b :: 0 <= b < n ==> c[b] == []
  {
    seq(n, b => [])
  }

  function EmptyBuckets(n: nat): (r: seq<Bucket>)
    ensures |r| == n && forall b :: 0 <= b < n ==> r[b] == EMPTY_BUCKET
  {
    seq(n, b => EMPTY_BUCKET)
  }

  lemma {:induction false} NoneHeld(hhNext: Links, hhPrev: Links, hashv: seq<nat>, n: nat)
    requires 0 < n && |hhNext| == |hhPrev|
    ensures ChainsOk(hhNext, hhPrev, EmptyBuckets(n), EmptyChains(n)) && Placed(hashv, EmptyChains(n), {})
  {
    forall b | 0 <= b < n
      ensures ChainOk(hhNext, hhPrev, EmptyBuckets(n), EmptyChains(n), b) && HoldsOnly(hashv, EmptyChains(n), {}, b)
    {}
  }

  // ---------- putting an element into its bucket ----------

  function PushedNext(hhNext: Links, x: nat, head: Option<nat>): (r: Links)
    requires x < |hhNext|
    ensures |r| == |hhNext|
  {
    hhNext[x := head]
  }

  function PushedPrev(hhPrev: Links, x: nat, head: Option<nat>): (r: Links)
    requires x < |hhPrev| && (head.Some? ==> head.value < |hhPrev|)
    ensures |r| == |hhPrev|
  {
    Set(hhPrev[x := None], head, Some(x))
  }

  lemma {:induction false} HeadInTable(hhNext: Links, hhPrev: Links, buckets: seq<Bucket>, chains: Chains, b: nat)
    requires ChainsOk(hhNext, hhPrev, buckets, chains) && b < |buckets|
    ensures buckets[b].hhHead == At(chains[b], 0) && (buckets[b].hhHead.Some? ==> buckets[b].hhHead.value < |hhPrev|)
  {
    assert ChainOk(hhNext, hhPrev, buckets, chains, b);
    if chains[b] != [] { assert PrevOk(hhPrev, chains[b], 0); }
  }

  lemma {:induction false} PushKeeps(hhNext: Links, hhPrev: Links, buckets: seq<Bucket>, chains: Chains, hashv: seq<nat>, members: set<nat>,
                  x: nat, bucket: Bucket)
    requires ChainsOk(hhNext, hhPrev, buckets, chains) && Placed(hashv, chains, members)
    requires x !in members && x < |hhNext| == |hashv|
    requires var b := ToBkt(hashv[x], |chains|);
             bucket.hhHead == Some(x) && bucket.count == buckets[b].count + 1
    ensures var b := ToBkt(hashv[x], |chains|);
            var head := buckets[b].hhHead;
            (head.Some? ==> head.value < |hhPrev|) &&
            ChainsOk(PushedNext(hhNext, x, head), PushedPrev(hhPrev, x, head), buckets[b := bucket], chains[b := [x] + chains[b]]) &&
            Placed(hashv, chains[b := [x] + chains[b]], members + {x})
  {
    var b := ToBkt(hashv[x], |chains|);
    HeadInTable(hhNext, hhPrev, buckets, chains, b);
    assert HoldsOnly(hashv, chains, members, b);
    var head := buckets[b].hhHead;
    var chains', m' := chains[b := [x] + chains[b]], members + {x};
    var next', prev', buckets' := PushedNext(hhNext, x, head), PushedPrev(hhPrev, x, head), buckets[b := bucket];
    forall c | 0 <= c < |chains| ensures HoldsOnly(hashv, chains', m', c) {
      assert HoldsOnly(hashv, chains, members, c);
    }
    forall c | 0 <= c < |buckets'| ensures ChainOk(next', prev', buckets', chains', c) {
      assert HoldsOnly(hashv, chains, members, c) && ChainOk(hhNext, hhPrev, buckets, chains, c);
      if c != b {
        assert head.Some? ==> head.value in chains[b] && head.value !in chains[c];
        Frame(hhNext, hhPrev, next', prev', chains[c]);
      } else {
        PushFront(hhNext, hhPrev, chains[b], x);
      }
    }
    forall y | y in m' ensures IsHeld(hashv, chains', y) {
      if y != x { assert IsHeld(hashv, chains, y); }
    }
  }

  // ---------- taking an element out ----------

  lemma {:induction false} CutKeeps(hhNext: Links, hhPrev: Links, buckets: seq<Bucket>, chains: Chains, hashv: seq<nat>, members: set<nat>,
                 x: nat, bucket: Bucket)
    requires ChainsOk(hhNext, hhPrev, buckets, chains) && Placed(hashv, chains, members)
    requires x in members && x < |hhNext| == |hashv|
    requires var b := ToBkt(hashv[x], |chains|);
             bucket.hhHead == (if buckets[b].hhHead == Some(x) then hhNext[x] else buckets[b].hhHead) &&
             bucket.count == buckets[b].count - 1
    ensures var b := ToBkt(hashv[x], |chains|);
            (hhPrev[x].Some? ==> hhPrev[x].value < |hhNext|) && (hhNext[x].Some? ==> hhNext[x].value < |hhNext|) &&
            ChainsOk(NextPast(hhNext, hhPrev, x), PrevPast(hhNext, hhPrev, x), buckets[b := bucket], chains[b := Without(chains[b], x)]) &&
            Placed(hashv, chains[b := Without(chains[b], x)], members - {x})
  {
    var b := ToBkt(hashv[x], |chains|);
    CutChain(hhNext, hhPrev, buckets, chains, hashv, members, x, bucket);
    var chains', m' := chains[b := Without(chains[b], x)], members - {x};
    WithoutMembers(chains[b], x);
    var next', prev', buckets' := NextPast(hhNext, hhPrev, x), PrevPast(hhNext, hhPrev, x), buckets[b := bucket];
    forall c | 0 <= c < |chains| ensures HoldsOnly(hashv, chains', m', c) {
      assert HoldsOnly(hashv, chains, members, c);
    }
    forall c | 0 <= c < |buckets'| ensures ChainOk(next', prev', buckets', chains', c) {
      if c != b {
        CutElsewhere(hhNext, hhPrev, buckets, chains, hashv, members, x, c);
      }
    }
    forall y | y in m' ensures IsHeld(hashv, chains', y) {
      assert IsHeld(hashv, chains, y);
    }
  }

  /** The neighbours of an element are in the same chain. */
  lemma {:induction false} Neighbours(hhNext: Links, hhPrev: Links, buckets: seq<Bucket>, chains: Chains, hashv: seq<nat>, members: set<nat>, x: nat)
      returns (k: nat)
    requires ChainsOk(hhNext, hhPrev, buckets, chains) && Placed(hashv, chains, members)
    requires x in members && x < |hhNext| == |hashv|
    ensures var s := chains[ToBkt(hashv[x], |chains|)];
            k < |s| && s[k] == x && Linked(hhNext, hhPrev, s) && hhNext[x] == At(s, k + 1) && hhPrev[x] == At(s, k - 1)
    ensures (hhPrev[x].Some? ==> hhPrev[x].value < |hhNext|) && (hhNext[x].Some? ==> hhNext[x].value < |hhNext|)
  {
    var b := ToBkt(hashv[x], |chains|);
    assert IsHeld(hashv, chains, x);
    assert ChainOk(hhNext, hhPrev, buckets, chains, b);
    k :| 0 <= k < |chains[b]| && chains[b][k] == x;
    NeighboursInTable(hhNext, hhPrev, chains[b], k);
  }

  lemma {:induction false} CutChain(hhNext: Links, hhPrev: Links, buckets: seq<Bucket>, chains: Chains, hashv: seq<nat>, members: set<nat>,
                 x: nat, bucket: Bucket)
    requires ChainsOk(hhNext, hhPrev, buckets, chains) && Placed(hashv, chains, members)
    requires x in members && x < |hhNext| == |hashv|
    requires var b := ToBkt(hashv[x], |chains|);
             bucket.hhHead == (if buckets[b].hhHead == Some(x) then hhNext[x] else buckets[b].hhHead) &&
             bucket.count == buckets[b].count - 1
    ensures var b := ToBkt(hashv[x], |chains|);
            (hhPrev[x].Some? ==> hhPrev[x].value < |hhNext|) && (hhNext[x].Some? ==> hhNext[x].value < |hhNext|) &&
            ChainOk(NextPast(hhNext, hhPrev, x), PrevPast(hhNext, hhPrev, x), buckets[b := bucket], chains[b := Without(chains[b], x)], b)
  {
    var b := ToBkt(hashv[x], |chains|);
    var s := chains[b];
    var k := Neighbours(hhNext, hhPrev, buckets, chains, hashv, members, x);
    assert ChainOk(hhNext, hhPrev, buckets, chains, b);
    Unlink(hhNext, hhPrev, s, k);
    WithoutAt(s, k);
    if k > 0 { Differ(s, 0, k); }
  }

  lemma {:induction false} CutElsewhere(hhNext: Links, hhPrev: Links, buckets: seq<Bucket>, chains: Chains, hashv: seq<nat>, members: set<nat>,
                     x: nat, c: nat)
    requires ChainsOk(hhNext, hhPrev, buckets, chains) && Placed(hashv, chains, members)
    requires x in members && x < |hhNext| == |hashv| && c < |chains| && c != ToBkt(hashv[x], |chains|)
    ensures (hhPrev[x].Some? ==> hhPrev[x].value < |hhNext|) && (hhNext[x].Some? ==> hhNext[x].value < |hhNext|) &&
            Linked(NextPast(hhNext, hhPrev, x), PrevPast(hhNext, hhPrev, x), chains[c])
    ensures buckets[c].hhHead == At(chains[c], 0) && buckets[c].count == |chains[c]|
  {
    var b := ToBkt(hashv[x], |chains|);
    var k := Neighbours(hhNext, hhPrev, buckets, chains, hashv, members, x);
    assert HoldsOnly(hashv, chains, members, b) && HoldsOnly(hashv, chains, members, c);
    assert ChainOk(hhNext, hhPrev, buckets, chains, c);
    if k > 0 { assert hhPrev[x].value in chains[b]; }
    if k + 1 < |chains[b]| { assert hhNext[x].value in chains[b]; }
    Frame(hhNext, hhPrev, NextPast(hhNext, hhPrev, x), PrevPast(hhNext, hhPrev, x), chains[c]);
  }
}
