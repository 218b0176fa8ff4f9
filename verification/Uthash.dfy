/** The hash table of uthash (deps/uthash/uthash.h).  Elements are referred to by number; their
    hash handles are the tables of links.  The table frees itself when its last element goes. */
module Uthash {
  import opened Bytes
  import opened HashBuckets
  import opened LinkedLists
  import opened Options
  import opened Powers
  import opened Sequences

  type Key = seq<Byte>

  /** The number of buckets is a power of two, which is what masking the hash value relies on. */
  ghost predicate IsPower(n: nat) { exists bits: nat :: n == Power(bits) }

  lemma {:induction false} PowerDoubles(n: nat)
    requires IsPower(n)
    ensures IsPower(2 * n)
  {
    var bits: nat :| n == Power(bits);
    assert 2 * n == Power(bits + 1);
  }

  lemma {:induction false} InitialIsPower()
    ensures IsPower(INITIAL_NUM_BUCKETS)
  {
    assert Power(5) == INITIAL_NUM_BUCKETS;
  }

  /** What a sweep that drops some elements leaves. */
  function Swept(s: seq<nat>, drop: set<nat>): seq<nat> {
    if s == [] then []
    else Swept(s[..|s| - 1], drop) + if s[|s| - 1] in drop then [] else [s[|s| - 1]]
  }

  lemma {:induction false} SweptMembers(s: seq<nat>, drop: set<nat>)
    ensures forall x :: x in Swept(s, drop) <==> x in s && x !in drop
  {
    if s != [] {
      SweptMembers(s[..|s| - 1], drop);
      assert s == s[..|s| - 1] + [s[|s| - 1]];
    }
  }

  lemma {:induction false} SweptOn(s: seq<nat>, p: nat, drop: set<nat>)
    requires p < |s|
    ensures Swept(s[..p + 1], drop) == Swept(s[..p], drop) + if s[p] in drop then [] else [s[p]]
  {
    assert s[..p + 1][..p] == s[..p];
  }

  /** The elements of the first `i` chains. */
  function Union(chains: Chains, i: nat): set<nat>
    requires i <= |chains|
  {
    if i == 0 then {} else Union(chains, i - 1) + Elements(chains[i - 1])
  }

  lemma {:induction false} UnionIsMembers(hashv: seq<nat>, chains: Chains, members: set<nat>, i: nat)
    requires Placed(hashv, chains, members) && i <= |chains|
    ensures forall x :: x in Union(chains, i) <==> x in members && x < |hashv| && ToBkt(hashv[x], |chains|) < i
  {
    if i > 0 {
      UnionIsMembers(hashv, chains, members, i - 1);
      assert HoldsOnly(hashv, chains, members, i - 1);
      forall x | x in members ensures IsHeld(hashv, chains, x) {}
    }
  }

  ghost predicate ForwardFrom(hhNext: Links, s: seq<nat>, p: nat) {
    forall q :: p <= q < |s| ==> NextOk(hhNext, s, q)
  }

  lemma {:induction false} ForwardOthers(hhNext: Links, hhNext': Links, s: seq<nat>, p: nat, y: nat)
    requires ForwardFrom(hhNext, s, p) && |hhNext'| == |hhNext| && forall q :: p <= q < |s| ==> s[q] != y
    requires forall x :: 0 <= x < |hhNext| && x != y ==> hhNext'[x] == hhNext[x]
    ensures ForwardFrom(hhNext', s, p)
  {
    forall q | p <= q < |s| ensures NextOk(hhNext', s, q) {
      assert NextOk(hhNext, s, q);
    }
  }

  ghost predicate AllForward(hhNext: Links, chains: Chains, i: nat) {
    forall j :: i <= j < |chains| ==> ForwardFrom(hhNext, chains[j], 0)
  }

  lemma {:induction false} ChainsForward(hhNext: Links, hhPrev: Links, buckets: seq<Bucket>, chains: Chains)
    requires ChainsOk(hhNext, hhPrev, buckets, chains)
    ensures AllForward(hhNext, chains, 0)
  {
    forall j | 0 <= j < |chains| ensures ForwardFrom(hhNext, chains[j], 0) {
      assert ChainOk(hhNext, hhPrev, buckets, chains, j);
    }
  }

  lemma {:induction false} ElementsMore(s: seq<nat>, p: nat)
    requires p < |s|
    ensures Elements(s[..p + 1]) == Elements(s[..p]) + {s[p]}
  {
    assert s[..p + 1] == s[..p] + [s[p]];
  }

  /** The elements have distinct keys, and hash values that are their keys'. */
  ghost predicate KeysOk(hash: Key -> nat, key: seq<Key>, hashv: seq<nat>, order: seq<nat>) {
    (forall x :: x in order ==> x < |key| && x < |hashv| && hashv[x] == hash(key[x])) &&
    forall x, y :: x in order && y in order && key[x] == key[y] ==> x == y
  }

  lemma {:induction false} KeysMore(hash: Key -> nat, key: seq<Key>, hashv: seq<nat>, order: seq<nat>, x: nat, k: Key)
    requires KeysOk(hash, key, hashv, order) && x < |key| == |hashv| && x !in order
    requires forall y :: y in order ==> key[y] != k
    ensures KeysOk(hash, key[x := k], hashv[x := hash(k)], order + [x])
  {}

  lemma {:induction false} KeysFewer(hash: Key -> nat, key: seq<Key>, hashv: seq<nat>, order: seq<nat>, fewer: seq<nat>)
    requires KeysOk(hash, key, hashv, order) && forall x :: x in fewer ==> x in order
    ensures KeysOk(hash, key, hashv, fewer)
  {}

  lemma {:induction false} SingleList(next: Links, prev: Links, x: nat)
    requires x < |next| == |prev|
    ensures Linked(next[x := None], prev[x := None], [x])
  {
    assert NextOk(next[x := None], [x], 0) && PrevOk(prev[x := None], [x], 0);
  }

  class Table {
    const hash: Key -> nat
    // the hash handles of all elements
    var next: Links
    var prev: Links
    var hhNext: Links
    var hhPrev: Links
    var key: seq<Key>
    var hashv: seq<nat>
    // the table, while there is one
    var head: Option<nat>
    var tail: nat
    var buckets: seq<Bucket>
    var numItems: nat
    var idealChainMaxlen: nat
    var nonidealItems: nat
    var ineffExpands: nat
    var noexpand: bool
    // the elements in the order they were added, and bucket by bucket
    ghost var order: seq<nat>
    ghost var chains: Chains

    ghost predicate Sized()
      reads this
    {
      |next| == |prev| == |hhNext| == |hhPrev| == |key| == |hashv|
    }

    /** The elements are linked in the order of insertion. */
    ghost predicate Listed()
      reads this
    {
      Linked(next, prev, order) && head == At(order, 0) && (order != [] ==> tail == order[|order| - 1])
    }

    /** And each hangs in the bucket of its hash value. */
    ghost predicate Bucketed(members: set<nat>)
      reads this
    {
      ChainsOk(hhNext, hhPrev, buckets, chains) && Placed(hashv, chains, members) && IsPower(|buckets|)
    }

    ghost predicate Keyed()
      reads this
    {
      KeysOk(hash, key, hashv, order)
    }

    ghost predicate Valid()
      reads this
    {
      Sized() && Listed() && Keyed() && (order != [] ==> Bucketed(Elements(order)) && numItems == |order|)
    }

    constructor (hash: Key -> nat, elements: nat)
      ensures Valid() && order == [] && |key| == elements && this.hash == hash
    {
      this.hash := hash;
      var none: Links := seq(elements, i => None);
      next, prev, hhNext, hhPrev := none, none, none, none;
      key, hashv := seq(elements, i => []), seq(elements, i => 0);
      head, tail, buckets, numItems := None, 0, [], 0;
      idealChainMaxlen, nonidealItems, ineffExpands, noexpand := 0, 0, 0, false;
      order, chains := [], [];
    }

    /** HASH_FIND_IN_BKT */
    method FindInBkt(b: nat, k: Key, hv: nat) returns (out: Option<nat>)
      requires Sized() && ChainsOk(hhNext, hhPrev, buckets, chains) && b < |buckets|
      ensures out.Some? ==> out.value in chains[b] && out.value < |key| && hashv[out.value] == hv && key[out.value] == k
      ensures out.None? ==> forall x :: x in chains[b] && x < |key| ==> !(hashv[x] == hv && key[x] == k)
    {
      assert ChainOk(hhNext, hhPrev, buckets, chains, b);
      ghost var s, p := chains[b], 0;
      out := buckets[b].hhHead;
      while out.Some?
        invariant 0 <= p <= |s| && out == At(s, p)
        invariant forall i :: 0 <= i < p && s[i] < |key| ==> !(hashv[s[i]] == hv && key[s[i]] == k)
        decreases |s| - p
      {
        assert NextOk(hhNext, s, p);
        if hashv[out.value] == hv && key[out.value] == k {
          return;
        }
        out, p := hhNext[out.value], p + 1;
      }
    }

    /** HASH_FIND: the element with the key, and nothing only if there is none. */
    method Find(k: Key) returns (out: Option<nat>)
      requires Valid()
      ensures out.Some? ==> out.value in order && key[out.value] == k
      ensures out.None? ==> forall x :: x in order ==> key[x] != k
    {
      if head.None? {
        return None;
      }
      var hv := hash(k);
      var b := ToBkt(hv, |buckets|);
      out := FindInBkt(b, k, hv);
      assert HoldsOnly(hashv, chains, Elements(order), b);
      forall x | x in order ensures hashv[x] == hv ==> x in chains[b] {
        assert x in Elements(order);
        assert IsHeld(hashv, chains, x);
      }
    }

    /** The statements of HASH_EXPAND_BUCKETS for one element. */
    method Rebucket(y: nat, newBuckets: seq<Bucket>, ghost nc: Chains, ghost done: set<nat>) returns (r: seq<Bucket>, ghost rc: Chains)
      requires Sized() && y < |hashv| && y !in done
      requires ChainsOk(hhNext, hhPrev, newBuckets, nc) && Placed(hashv, nc, done)
      modifies this`hhNext, this`hhPrev, this`nonidealItems
      ensures Sized() && ChainsOk(hhNext, hhPrev, r, rc) && Placed(hashv, rc, done + {y}) && |r| == |newBuckets|
      ensures forall x :: 0 <= x < |hhNext| && x != y ==> hhNext[x] == old(hhNext)[x]
    {
      var b := ToBkt(hashv[y], |newBuckets|);
      HeadInTable(hhNext, hhPrev, newBuckets, nc, b);
      var bucket := newBuckets[b].(count := newBuckets[b].count + 1);
      if bucket.count > idealChainMaxlen {
        nonidealItems := nonidealItems + 1;
        if bucket.count > bucket.expandMult * idealChainMaxlen {
          bucket := bucket.(expandMult := bucket.expandMult + 1);
        }
      }
      var oldHead := bucket.hhHead;
      bucket := bucket.(hhHead := Some(y));
      PushKeeps(hhNext, hhPrev, newBuckets, nc, hashv, done, y, bucket);
      hhPrev := PushedPrev(hhPrev, y, oldHead);
      hhNext := PushedNext(hhNext, y, oldHead);
      r, rc := newBuckets[b := bucket], nc[b := [y] + nc[b]];
    }

    /** The inner loop of HASH_EXPAND_BUCKETS: one old chain, `s`, is redistributed. */
    method RebucketChain(first: Option<nat>, newBuckets: seq<Bucket>, ghost s: seq<nat>, ghost nc: Chains, ghost done: set<nat>)
        returns (r: seq<Bucket>, ghost rc: Chains)
      requires Sized() && Distinct(s) && first == At(s, 0) && ForwardFrom(hhNext, s, 0)
      requires forall x :: x in s ==> x !in done
      requires ChainsOk(hhNext, hhPrev, newBuckets, nc) && Placed(hashv, nc, done)
      modifies this`hhNext, this`hhPrev, this`nonidealItems
      ensures Sized() && ChainsOk(hhNext, hhPrev, r, rc) && Placed(hashv, rc, done + Elements(s)) && |r| == |newBuckets|
      ensures forall x :: 0 <= x < |hhNext| && x !in s ==> hhNext[x] == old(hhNext)[x]
    {
      r, rc := newBuckets, nc;
      var thh := first;
      ghost var p := 0;
      assert done + Elements(s[..0]) == done;
      while thh.Some?
        invariant Sized() && 0 <= p <= |s| && thh == At(s, p) && ForwardFrom(hhNext, s, p) && |r| == |newBuckets|
        invariant ChainsOk(hhNext, hhPrev, r, rc) && Placed(hashv, rc, done + Elements(s[..p]))
        invariant forall x :: 0 <= x < |hhNext| && x !in s ==> hhNext[x] == old(hhNext)[x]
        decreases |s| - p
      {
        assert NextOk(hhNext, s, p);
        var y := thh.value;
        thh := hhNext[y];
        ghost var before := hhNext;
        ElementsMore(s, p);
        assert done + Elements(s[..p]) + {y} == done + Elements(s[..p + 1]);
        r, rc := Rebucket(y, r, rc, done + Elements(s[..p]));
        forall q | p + 1 <= q < |s| ensures s[q] != y { Differ(s, q, p); }
        ForwardOthers(before, hhNext, s, p + 1, y);
        p := p + 1;
      }
      assert s[..|s|] == s;
    }

    /** The outer loop of HASH_EXPAND_BUCKETS. */
    method RebucketAll(ghost members: set<nat>) returns (newBuckets: seq<Bucket>, ghost nc: Chains)
      requires Sized() && Bucketed(members)
      modifies this`hhNext, this`hhPrev, this`nonidealItems
      ensures Sized() && ChainsOk(hhNext, hhPrev, newBuckets, nc) && Placed(hashv, nc, members)
      ensures |newBuckets| == 2 * |buckets|
    {
      var n := |buckets|;
      newBuckets := EmptyBuckets(2 * n);
      nc := EmptyChains(2 * n);
      ghost var next0, prev0 := hhNext, hhPrev;
      NoneHeld(hhNext, hhPrev, hashv, 2 * n);
      ChainsForward(hhNext, hhPrev, buckets, chains);
      for i := 0 to n
        invariant Sized() && |newBuckets| == 2 * n && AllForward(hhNext, chains, i)
        invariant ChainsOk(hhNext, hhPrev, newBuckets, nc) && Placed(hashv, nc, Union(chains, i))
      {
        ghost var before := hhNext;
        UnionIsMembers(hashv, chains, members, i);
        assert ChainOk(next0, prev0, buckets, chains, i) && HoldsOnly(hashv, chains, members, i);
        newBuckets, nc := RebucketChain(buckets[i].hhHead, newBuckets, chains[i], nc, Union(chains, i));
        ForwardLater(before, hhNext, hashv, chains, members, i);
      }
      UnionIsMembers(hashv, chains, members, n);
      forall x | x in members ensures x in Union(chains, n) {
        assert IsHeld(hashv, chains, x);
      }
      assert Union(chains, n) == members;
    }

    /** HASH_EXPAND_BUCKETS: twice as many buckets, and every element in the one it belongs in. */
    method ExpandBuckets(ghost members: set<nat>)
      requires Sized() && Bucketed(members)
      modifies this`hhNext, this`hhPrev, this`buckets, this`chains, this`idealChainMaxlen, this`nonidealItems,
               this`ineffExpands, this`noexpand
      ensures Sized() && Bucketed(members) && |buckets| == 2 * |old(buckets)|
    {
      var n := |buckets|;
      idealChainMaxlen := numItems / (2 * n) + if numItems % (2 * n) != 0 then 1 else 0;
      nonidealItems := 0;
      PowerDoubles(n);
      buckets, chains := RebucketAll(members);
      ineffExpands := if nonidealItems > numItems / 2 then ineffExpands + 1 else 0;
      if ineffExpands > 1 {
        noexpand := true;
      }
    }

    /** HASH_ADD_TO_BKT */
    method AddToBkt(x: nat, ghost members: set<nat>)
      requires Sized() && Bucketed(members) && x !in members && x < |hashv|
      modifies this`hhNext, this`hhPrev, this`buckets, this`chains, this`idealChainMaxlen, this`nonidealItems,
               this`ineffExpands, this`noexpand
      ensures Sized() && Bucketed(members + {x})
    {
      var b := ToBkt(hashv[x], |buckets|);
      HeadInTable(hhNext, hhPrev, buckets, chains, b);
      var bucket := buckets[b].(count := buckets[b].count + 1, hhHead := Some(x));
      PushKeeps(hhNext, hhPrev, buckets, chains, hashv, members, x, bucket);
      hhPrev := PushedPrev(hhPrev, x, buckets[b].hhHead);
      hhNext := PushedNext(hhNext, x, buckets[b].hhHead);
      buckets, chains := buckets[b := bucket], chains[b := [x] + chains[b]];
      if bucket.count >= (bucket.expandMult + 1) * BKT_CAPACITY_THRESH && !noexpand {
        ExpandBuckets(members + {x});
      }
    }

    /** HASH_MAKE_TABLE for a first element */
    method MakeTable(x: nat)
      requires Sized() && order == [] && x < |next|
      modifies this`next, this`prev, this`tail, this`numItems, this`buckets, this`idealChainMaxlen, this`nonidealItems,
               this`ineffExpands, this`noexpand, this`head, this`order, this`chains
      ensures Sized() && Listed() && order == [x] && numItems == 0 && Bucketed({})
    {
      SingleList(next, prev, x);
      next, prev := next[x := None], prev[x := None];
      tail, numItems, buckets := x, 0, EmptyBuckets(INITIAL_NUM_BUCKETS);
      idealChainMaxlen, nonidealItems, ineffExpands, noexpand := 0, 0, 0, false;
      head := Some(x);
      order, chains := [x], EmptyChains(INITIAL_NUM_BUCKETS);
      NoneHeld(hhNext, hhPrev, hashv, INITIAL_NUM_BUCKETS);
      InitialIsPower();
    }

    /** HASH_APPEND_LIST */
    method AppendList(x: nat)
      requires Sized() && Listed() && order != [] && x < |next| && x !in order
      modifies this`next, this`prev, this`tail, this`order
      ensures Sized() && Listed() && order == old(order) + [x]
    {
      Append(next, prev, order, x);
      next, prev := next[x := None][tail := Some(x)], prev[x := Some(tail)];
      tail := x;
      order := order + [x];
    }

    /** HASH_ADD_KEYPTR */
    method Add(x: nat, k: Key)
      requires Valid() && x < |key| && x !in order && forall y :: y in order ==> key[y] != k
      modifies this
      ensures Valid() && order == old(order) + [x] && key == old(key)[x := k]
    {
      hide Linked, ChainsOk, Placed, KeysOk, IsPower, At;
      ghost var members := Elements(order);
      KeysMore(hash, key, hashv, order, x, k);
      SetKey(x, k);
      Enlist(x);
      numItems := numItems + 1;
      AddToBkt(x, members);
      assert Elements(order) == members + {x};
    }

    method SetKey(x: nat, k: Key)
      requires Sized() && x < |key| && x !in order && (order != [] ==> Bucketed(Elements(order)))
      modifies this`key, this`hashv
      ensures Sized() && (order != [] ==> Bucketed(Elements(order)))
      ensures key == old(key)[x := k] && hashv == old(hashv)[x := hash(k)]
    {
      if order != [] { OtherHash(hashv, hashv[x := hash(k)], chains, Elements(order), x); }
      key, hashv := key[x := k], hashv[x := hash(k)];
    }

    /** The list part of HASH_ADD_KEYPTR, which makes the table when there is none. */
    method Enlist(x: nat)
      requires Sized() && Listed() && x < |next| && x !in order
      requires order != [] ==> Bucketed(Elements(order)) && numItems == |order|
      modifies this`next, this`prev, this`tail, this`numItems, this`buckets, this`idealChainMaxlen, this`nonidealItems,
               this`ineffExpands, this`noexpand, this`head, this`order, this`chains
      ensures Sized() && Listed() && order == old(order) + [x] && Bucketed(Elements(old(order))) && numItems == |old(order)|
    {
      if head.None? {
        MakeTable(x);
        assert Elements(old(order)) == {};
      } else {
        AppendList(x);
      }
    }

    /** HASH_DEL_IN_BKT */
    method DelInBkt(x: nat, ghost members: set<nat>)
      requires Sized() && Bucketed(members) && x in members && x < |hashv|
      modifies this`hhNext, this`hhPrev, this`buckets, this`chains
      ensures Sized() && Bucketed(members - {x})
    {
      var b := ToBkt(hashv[x], |buckets|);
      ghost var k := Neighbours(hhNext, hhPrev, buckets, chains, hashv, members, x);
      assert ChainOk(hhNext, hhPrev, buckets, chains, b);
      var bucket := buckets[b].(count := buckets[b].count - 1);
      if bucket.hhHead == Some(x) {
        bucket := bucket.(hhHead := hhNext[x]);
      }
      CutKeeps(hhNext, hhPrev, buckets, chains, hashv, members, x, bucket);
      hhNext, hhPrev := NextPast(hhNext, hhPrev, x), PrevPast(hhNext, hhPrev, x);
      buckets, chains := buckets[b := bucket], chains[b := Without(chains[b], x)];
    }

    /** Taking the element out of the list of insertion, in HASH_DELETE_HH. */
    method UnlinkFromList(x: nat)
      requires Sized() && Listed() && x in order && |order| > 1
      modifies this`next, this`prev, this`tail, this`head, this`order
      ensures Sized() && Listed() && order == Without(old(order), x) && |order| == |old(order)| - 1
    {
      UnlinkedEnds(next, prev, order, x);
      hide Linked, Without, At, NextPast, PrevPast;
      if x == tail {
        tail := prev[x].value;
      }
      if prev[x].None? {
        head := next[x];
      }
      next, prev := NextPast(next, prev, x), PrevPast(next, prev, x);
      order := Without(order, x);
    }

    /** HASH_DELETE */
    method Delete(x: nat)
      requires Valid() && x in order
      modifies this
      ensures Valid() && order == Without(old(order), x) && key == old(key)
    {
      ghost var members := Elements(order);
      WithoutMembers(order, x);
      AloneOrNot(next, prev, order, x);
      hide ChainsOk, Placed, KeysOk, IsPower, Without, Linked;
      KeysFewer(hash, key, hashv, order, Without(order, x));
      if prev[x].None? && next[x].None? {
        head, buckets := None, [];
        order, chains := Without(order, x), [];
      } else {
        UnlinkFromList(x);
        DelInBkt(x, members);
        numItems := numItems - 1;
        assert Elements(order) == members - {x};
      }
    }

    /** HASH_ITER, for a body that leaves the table alone: the elements in order of insertion. */
    method Iterate() returns (visited: seq<nat>)
      requires Valid()
      ensures visited == order
    {
      visited := [];
      var el := head;
      while el.Some?
        invariant |visited| <= |order| && visited == order[..|visited|] && el == At(order, |visited|)
        decreases |order| - |visited|
      {
        assert NextOk(next, order, |visited|);
        visited := visited + [el.value];
        el := next[el.value];
      }
    }

    /** HASH_ITER, for a body that deletes the current element when it is to be dropped: the next one
        has been looked up before.  Every element is visited, in order of insertion, and exactly those
        to be dropped are gone afterwards. */
    method Sweep(drop: set<nat>) returns (visited: seq<nat>)
      requires Valid()
      modifies this
      ensures Valid() && key == old(key) && visited == old(order) && order == Swept(old(order), drop)
    {
      hide Valid, Swept, Without, SweptTo;
      visited := [];
      ghost var all, p := order, 0;
      SweepBegins(drop);
      var el := head;
      var tmp := if el.Some? then next[el.value] else None;
      while el.Some?
        invariant SweptTo(all, p, drop, visited, el, tmp) && key == old(key)
        decreases |all| - p
      {
        SweepGoesOn(all, p, drop, visited, el, tmp);
        ghost var before := order;
        visited := visited + [el.value];
        DropIf(el.value, drop);
        SweepNext(all, p, drop, visited, tmp, before);
        el, p := tmp, p + 1;
        tmp := if el.Some? then next[el.value] else None;
      }
      SweepEnds(all, p, drop, visited, tmp);
    }

    /** In mid-sweep. */
    ghost predicate SweptTo(all: seq<nat>, p: nat, drop: set<nat>, visited: seq<nat>, el: Option<nat>, tmp: Option<nat>)
      reads this
    {
      Valid() && p <= |all| && Distinct(all) && visited == all[..p] && order == Swept(all[..p], drop) + all[p..] &&
      el == At(all, p) && tmp == At(all, p + 1)
    }

    lemma {:induction false} SweepBegins(drop: set<nat>)
      requires Valid()
      ensures (head.Some? ==> head.value < |next|)
      ensures SweptTo(order, 0, drop, [], head, if head.Some? then next[head.value] else None)
    {
      assert order != [] ==> NextOk(next, order, 0);
    }

    lemma {:induction false} SweepGoesOn(all: seq<nat>, p: nat, drop: set<nat>, visited: seq<nat>, el: Option<nat>, tmp: Option<nat>)
      requires SweptTo(all, p, drop, visited, el, tmp) && el.Some?
      ensures Valid() && p < |all| && Distinct(all) && el.value == all[p] && all[p] in order && tmp == At(all, p + 1)
      ensures visited == all[..p] && order == Swept(all[..p], drop) + all[p..]
    {
      hide Valid, Swept;
      assert order[|Swept(all[..p], drop)|] == all[p];
    }

    lemma {:induction false} SweepNext(all: seq<nat>, p: nat, drop: set<nat>, visited: seq<nat>, tmp: Option<nat>, before: seq<nat>)
      requires Valid() && p < |all| && Distinct(all) && before == Swept(all[..p], drop) + all[p..]
      requires order == if all[p] in drop then Without(before, all[p]) else before
      requires visited == all[..p] + [all[p]] && tmp == At(all, p + 1)
      ensures (tmp.Some? ==> tmp.value < |next|)
      ensures SweptTo(all, p + 1, drop, visited, tmp, if tmp.Some? then next[tmp.value] else None)
    {
      SweepDrops(all, p, drop);
      hide Valid, Swept, Without;
      if p + 1 < |all| {
        NextOfSwept(all, p + 1, drop);
      }
    }

    lemma {:induction false} SweepEnds(all: seq<nat>, p: nat, drop: set<nat>, visited: seq<nat>, tmp: Option<nat>)
      requires SweptTo(all, p, drop, visited, None, tmp)
      ensures Valid() && order == Swept(all, drop) && visited == all
    {
      assert all[..p] == all;
    }

    /** The body of such a sweep. */
    method DropIf(x: nat, drop: set<nat>)
      requires Valid() && x in order
      modifies this
      ensures Valid() && key == old(key) && order == if x in drop then Without(old(order), x) else old(order)
    {
      if x in drop {
        Delete(x);
      }
    }

    lemma {:induction false} NextOfSwept(all: seq<nat>, p: nat, drop: set<nat>)
      requires Valid() && p < |all| && order == Swept(all[..p], drop) + all[p..]
      ensures all[p] < |next| && next[all[p]] == At(all, p + 1)
    {
      var k := |Swept(all[..p], drop)|;
      assert order[k] == all[p] && NextOk(next, order, k);
      hide Swept, Valid;
      assert At(order, k + 1) == At(all, p + 1);
    }
  }

  lemma {:induction false} SweepDrops(all: seq<nat>, p: nat, drop: set<nat>)
    requires Distinct(all) && p < |all|
    ensures var order := Swept(all[..p], drop) + all[p..];
            Swept(all[..p + 1], drop) + all[p + 1..] == if all[p] in drop then Without(order, all[p]) else order
  {
    hide Swept, Without;
    var front := Swept(all[..p], drop);
    SweptOn(all, p, drop);
    SweptDistinct(all, p, drop);
    assert all[p..] == [all[p]] + all[p + 1..];
    assert front + all[p..] == front + [all[p]] + all[p + 1..];
    Middle(front, all[p], all[p + 1..]);
  }

  /** An element without neighbours is the only one. */
  lemma {:induction false} AloneOrNot(next: Links, prev: Links, order: seq<nat>, x: nat)
    requires Linked(next, prev, order) && |next| == |prev| && x in order
    ensures x < |next| && (prev[x].None? && next[x].None? <==> |order| == 1)
    ensures |Without(order, x)| == |order| - 1
    ensures |order| == 1 ==> Linked(next, prev, [])
  {
    var k :| 0 <= k < |order| && order[k] == x;
    NeighboursInTable(next, prev, order, k);
    WithoutAt(order, k);
    assert NextOk(next, order, k) && PrevOk(prev, order, k);
  }

  /** The list without `x`, and its ends. */
  lemma {:induction false} UnlinkedEnds(next: Links, prev: Links, order: seq<nat>, x: nat)
    requires Linked(next, prev, order) && |next| == |prev| && x in order && |order| > 1
    ensures x < |next| && (prev[x].Some? ==> prev[x].value < |next|) && (next[x].Some? ==> next[x].value < |next|)
    ensures Linked(NextPast(next, prev, x), PrevPast(next, prev, x), Without(order, x))
    ensures |NextPast(next, prev, x)| == |PrevPast(next, prev, x)| == |next|
    ensures var rest := Without(order, x);
            |rest| == |order| - 1 && At(rest, 0) == (if prev[x].None? then next[x] else At(order, 0)) &&
            if x == order[|order| - 1] then prev[x] == Some(rest[|rest| - 1]) else rest[|rest| - 1] == order[|order| - 1]
  {
    var k :| 0 <= k < |order| && order[k] == x;
    NeighboursInTable(next, prev, order, k);
    Unlink(next, prev, order, k);
    WithoutAt(order, k);
    if k < |order| - 1 { Differ(order, k, |order| - 1); }
    assert NextOk(next, order, k) && PrevOk(prev, order, k);
    hide Linked, Without, NextPast, PrevPast;
  }

  lemma {:induction false} Middle(s: seq<nat>, x: nat, t: seq<nat>)
    requires Distinct(s + [x] + t)
    ensures Without(s + [x] + t, x) == s + t
  {
    var all := s + [x] + t;
    WithoutAt(all, |s|);
    hide Without;
    assert all[..|s|] == s && all[|s| + 1..] == t;
  }

  lemma {:induction false} SweptDistinct(all: seq<nat>, p: nat, drop: set<nat>)
    requires Distinct(all) && p <= |all|
    ensures Distinct(Swept(all[..p], drop) + all[p..])
  {
    if p == 0 {
      assert Swept(all[..0], drop) == [] && [] + all[0..] == all;
    } else {
      SweptDistinct(all, p - 1, drop);
      SweptOn(all, p - 1, drop);
      hide Swept;
      var front := Swept(all[..p - 1], drop);
      assert all[p - 1..] == [all[p - 1]] + all[p..];
      DistinctWithout(front, all[p - 1], all[p..]);
    }
  }

  lemma {:induction false} DistinctWithout(s: seq<nat>, x: nat, t: seq<nat>)
    requires Distinct(s + ([x] + t))
    ensures Distinct(s + [x] + t) && Distinct(s + [] + t)
  {
    var all := s + ([x] + t);
    assert s + [x] + t == all;
    assert all[..|s|] == s && all[|s| + 1..] == t;
    assert s + [] + t == s + t;
    forall i, j | 0 <= i < j < |s + t| ensures (s + t)[i] != (s + t)[j] {
      assert all[if i < |s| then i else i + 1] == (s + t)[i] && all[if j < |s| then j else j + 1] == (s + t)[j];
    }
  }

  /** The hash value of an element that is not in the table does not matter. */
  lemma {:induction false} OtherHash(hashv: seq<nat>, hashv': seq<nat>, chains: Chains, members: set<nat>, x: nat)
    requires Placed(hashv, chains, members) && x !in members && |hashv'| == |hashv|
    requires forall y :: 0 <= y < |hashv| && y != x ==> hashv'[y] == hashv[y]
    ensures Placed(hashv', chains, members)
  {
    forall b | 0 <= b < |chains| ensures HoldsOnly(hashv', chains, members, b) {
      assert HoldsOnly(hashv, chains, members, b);
    }
    forall y | y in members ensures IsHeld(hashv', chains, y) {
      assert IsHeld(hashv, chains, y);
    }
  }

  lemma {:induction false} ForwardLater(hhNext: Links, hhNext': Links, hashv: seq<nat>, chains: Chains, members: set<nat>, i: nat)
    requires AllForward(hhNext, chains, i) && Placed(hashv, chains, members) && i < |chains| && |hhNext'| == |hhNext|
    requires forall x :: 0 <= x < |hhNext| && x !in chains[i] ==> hhNext'[x] == hhNext[x]
    ensures AllForward(hhNext', chains, i + 1)
  {
    forall j | i + 1 <= j < |chains| ensures ForwardFrom(hhNext', chains[j], 0) {
      assert ForwardFrom(hhNext, chains[j], 0);
      assert HoldsOnly(hashv, chains, members, i) && HoldsOnly(hashv, chains, members, j);
      forall q | 0 <= q < |chains[j]| ensures NextOk(hhNext', chains[j], q) {
        assert NextOk(hhNext, chains[j], q);
        assert chains[j][q] in chains[j];
      }
    }
  }
}
