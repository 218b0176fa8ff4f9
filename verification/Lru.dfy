/** The least-recently-active eviction layer over the hash table (src/lrucache.h), and the sizes it
    is used with (src/udp_lrucache.c). */
module Lru {
  import opened Bytes
  import opened LinkedLists
  import opened Options
  import opened Sequences
  import opened Uthash

  // ---------- the victim ----------

  /** The entry, other than `keep`, that was active longest ago; the first added of several. */
  ghost predicate IsVictim(order: seq<nat>, active: nat -> int, keep: nat, k: nat) {
    k < |order| && order[k] != keep &&
    forall i :: 0 <= i < |order| && order[i] != keep ==> NotBefore(order, active, k, i)
  }

  ghost predicate NotBefore(order: seq<nat>, active: nat -> int, k: nat, i: nat)
    requires k < |order| && i < |order|
  {
    if i < k then active(order[k]) < active(order[i]) else active(order[k]) <= active(order[i])
  }

  ghost predicate Chosen(order: seq<nat>, active: nat -> int, keep: nat, victim: Option<nat>) {
    if victim.None? then forall i :: 0 <= i < |order| ==> order[i] == keep
    else exists k: nat :: IsVictim(order, active, keep, k) && order[k] == victim.value
  }

  /** The running choice of LRU_DEFINE_ADD after a further entry. */
  function Better(active: nat -> int, keep: nat, victim: Option<nat>, c: nat): Option<nat> {
    if c != keep && (victim.None? || active(c) < active(victim.value)) then Some(c) else victim
  }

  function Victim(order: seq<nat>, active: nat -> int, keep: nat): Option<nat> {
    if order == [] then None
    else Better(active, keep, Victim(order[..|order| - 1], active, keep), order[|order| - 1])
  }

  lemma {:induction false} ChosenStep(order: seq<nat>, active: nat -> int, keep: nat, victim: Option<nat>, c: nat)
    requires Chosen(order, active, keep, victim)
    ensures Chosen(order + [c], active, keep, Better(active, keep, victim, c))
  {
    var all, n := order + [c], |order|;
    if victim.None? {
      if c != keep { assert IsVictim(all, active, keep, n); }
    } else {
      var k: nat :| IsVictim(order, active, keep, k) && order[k] == victim.value;
      var k' := if c != keep && active(c) < active(victim.value) then n else k;
      forall i | 0 <= i < |all| && all[i] != keep ensures NotBefore(all, active, k', i) {
        if i < n { assert NotBefore(order, active, k, i); }
      }
      assert IsVictim(all, active, keep, k');
    }
  }

  /** The scan finds the victim. */
  lemma {:induction false} VictimIsChosen(order: seq<nat>, active: nat -> int, keep: nat)
    ensures Chosen(order, active, keep, Victim(order, active, keep))
  {
    if order != [] {
      var n := |order| - 1;
      VictimIsChosen(order[..n], active, keep);
      ChosenStep(order[..n], active, keep, Victim(order[..n], active, keep), order[n]);
      assert order == order[..n] + [order[n]];
    }
  }

  datatype Added = Added(order: seq<nat>, victim: Option<nat>)

  /** What adding does to the order, and whom it evicts. */
  function AddTo(before: seq<nat>, active: nat -> int, x: nat, maxsize: nat): Added {
    var all := before + [x];
    if |all| <= maxsize then Added(all, None)
    else
      match Victim(all, active, x)
      case None => Added(all, None)
      case Some(v) => Added(Without(all, v), Some(v))
  }

  // ---------- the source's code ----------

  /** The scan of LRU_DEFINE_ADD. */
  method Scan(t: Table, active: nat -> int, entry: nat) returns (victim: Option<nat>)
    requires t.Valid()
    ensures victim == Victim(t.order, active, entry)
  {
    victim := None;
    var cur := t.head;
    ghost var n := 0;
    while cur.Some?
      invariant 0 <= n <= |t.order| && cur == At(t.order, n)
      invariant victim == Victim(t.order[..n], active, entry)
      decreases |t.order| - n
    {
      assert NextOk(t.next, t.order, n);
      assert t.order[..n + 1][..n] == t.order[..n];
      if cur.value != entry && (victim.None? || active(cur.value) < active(victim.value)) {
        victim := cur;
      }
      cur, n := t.next[cur.value], n + 1;
    }
    assert t.order[..n] == t.order;
  }

  /** LRU_DEFINE_ADD */
  method Add(t: Table, active: nat -> int, entry: nat, k: Key, maxsize: nat) returns (victim: Option<nat>)
    requires t.Valid() && entry < |t.key| && entry !in t.order && forall y :: y in t.order ==> t.key[y] != k
    modifies t
    ensures t.Valid() && Added(t.order, victim) == AddTo(old(t.order), active, entry, maxsize)
    ensures t.key == old(t.key)[entry := k]
  {
    ghost var before := t.order;
    t.Add(entry, k);
    victim := None;
    if t.numItems > maxsize {
      victim := Scan(t, active, entry);
      VictimIsChosen(before + [entry], active, entry);
      ChosenFromOthers(before, active, entry, victim);
      if victim.Some? {
        t.Delete(victim.value);
      }
    }
  }

  lemma {:induction false} ChosenFromOthers(before: seq<nat>, active: nat -> int, x: nat, victim: Option<nat>)
    requires x !in before && Chosen(before + [x], active, x, victim)
    ensures victim.None? <==> before == []
    ensures victim.Some? ==> victim.value in before && victim.value in before + [x]
  {
    var all := before + [x];
    if before != [] { assert all[0] == before[0] && all[0] in before; }
    if victim.Some? {
      var k: nat :| IsVictim(all, active, x, k) && all[k] == victim.value;
      assert k < |before| && all[k] == before[k];
    }
  }

  // ---------- the bound ----------

  /** A single entry is never evicted for itself, so a limit of zero works like one. */
  function Bound(maxsize: nat): nat { if maxsize == 0 then 1 else maxsize }

  /** A table never outgrows its limit, whatever is added to it, exactly when the limit is not
      zero; the one evicted is another than the one added, and was active longest ago. */
  lemma {:induction false} StaysWithin(before: seq<nat>, active: nat -> int, x: nat, maxsize: nat)
    requires Distinct(before) && x !in before && |before| <= Bound(maxsize)
    ensures var r := AddTo(before, active, x, maxsize);
            |r.order| <= Bound(maxsize) && (|r.order| <= maxsize <==> maxsize > 0) && Distinct(r.order) &&
            (r.victim.Some? ==> r.victim.value in before && Chosen(before + [x], active, x, r.victim) &&
                                r.order == Without(before + [x], r.victim.value) && |r.order| == |before|) &&
            (r.victim.None? ==> r.order == before + [x])
  {
    var all := before + [x];
    var victim := Victim(all, active, x);
    DistinctPush(before, x);
    VictimIsChosen(all, active, x);
    ChosenFromOthers(before, active, x, victim);
    if victim.Some? {
      var k :| 0 <= k < |all| && all[k] == victim.value;
      WithoutAt(all, k);
      DistinctCut(all, k);
    }
  }

  // ---------- the sizes ----------

  const SYMMETRIC_SIZE_MULTIPLIER := 2
  const TPROXY_SIZE_MULTIPLIER := 4
  const U16_MAX := 65535

  datatype Sizes = Sizes(fullcone: nat, symmetric: nat, tproxy: nat)

  /** udp_lrucache_set_maxsize: the multiples saturate instead of wrapping. */
  function SizesFor(base: nat): (s: Sizes)
    requires base <= U16_MAX
    ensures s.fullcone == base && s.fullcone <= s.symmetric <= s.tproxy <= U16_MAX
    ensures s.tproxy < U16_MAX ==> s.symmetric == 2 * base && s.tproxy == 4 * base
    ensures 0 < base ==> 0 < s.symmetric && 0 < s.tproxy
  {
    var symmetric, tproxy := base * SYMMETRIC_SIZE_MULTIPLIER, base * TPROXY_SIZE_MULTIPLIER;
    Sizes(base, if symmetric > U16_MAX then U16_MAX else symmetric, if tproxy > U16_MAX then U16_MAX else tproxy)
  }
}
