/** The per-thread cache in front of the fake-DNS pool (src/fakedns.c): eight cells behind an
    array of pointers kept in most-recently-used order, checked without a lock against the
    version of the pool slot.  The writer changes an entry in two steps, domain first, version
    second; only readers that hold the lock are kept out between them. */
module FakeDnsMru {
  import opened Bytes
  import opened FakeDnsPool
  import opened Options

  const MRU_SIZE := 8

  datatype Cell = Cell(ip: nat, version: nat, valid: bool, domain: Name)

  // ---------- what a slot has held ----------

  /** Which domain each version of each slot stood for; a version is published last. */
  type History = map<(nat, nat), Name>

  /** Every version now in the pool has been published. */
  ghost predicate Published(p: Pool, h: History) {
    forall s :: 0 <= s < |p| && p[s].Entry? ==> (s, p[s].version) in h
  }

  /** No overwrite is under way: each slot's domain is the one its version stands for. */
  ghost predicate Settled(p: Pool, h: History) {
    Published(p, h) &&
    forall s :: 0 <= s < |p| && p[s].Entry? ==> h[(s, p[s].version)] == CStr(p[s].domain)
  }

  /** No version beyond the current ones has been used. */
  ghost predicate NoFuture(p: Pool, h: History) {
    forall k :: k in h ==> k.0 < |p| && p[k.0].Entry? && k.1 <= p[k.0].version
  }

  ghost predicate Extends(h: History, h': History) {
    forall k :: k in h ==> k in h' && h'[k] == h[k]
  }

  /** The history after a lookup: the slot it wrote, if any, publishes its version. */
  ghost function Record(h: History, q: Pool, slot: Option<nat>): History
    requires slot.Some? ==> slot.value < |q| && q[slot.value].Entry?
  {
    if slot.Some? then h[(slot.value, q[slot.value].version) := CStr(q[slot.value].domain)] else h
  }

  /** At most the slot `s` changes: it is refreshed, or another name comes with a version of its own. */
  ghost predicate Written(p: Pool, q: Pool, slot: Option<nat>) {
    |q| == |p| && (slot.None? ==> q == p) &&
    (slot.Some? ==> slot.value < |p| && q[slot.value].Entry? && OneSlot(p, q, slot.value) && Newer(p[slot.value], q[slot.value]))
  }

  ghost predicate OneSlot(p: Pool, q: Pool, s: nat)
    requires |q| == |p|
  {
    forall k :: 0 <= k < |p| && k != s ==> q[k] == p[k]
  }

  ghost predicate Newer(before: Slot, after: Slot)
    requires after.Entry?
  {
    before.Entry? ==> before.version < after.version || (after.domain == before.domain && after.version == before.version)
  }

  lemma {:induction false} OneSlotWritten(cfg: Config, p: Pool, used: nat, d: Name, now: nat, memoryOk: bool)
    requires |p| == cfg.size && 0 < cfg.size
    ensures var r := Lookup(cfg, p, used, d, now, memoryOk); Written(p, r.pool, r.slot)
  {}

  lemma {:induction false} WrittenExtends(p: Pool, q: Pool, slot: Option<nat>, h: History)
    requires Written(p, q, slot) && Settled(p, h) && NoFuture(p, h)
    ensures var h' := Record(h, q, slot); Extends(h, h') && Settled(q, h') && NoFuture(q, h')
  {
    var h' := Record(h, q, slot);
    forall k | k in h ensures k in h' && h'[k] == h[k] {
      assert k.0 < |p| && k.1 <= p[k.0].version;
    }
  }

  /** A slot and a version determine a domain: lookups only ever add to the history. */
  lemma {:induction false} LookupExtendsHistory(cfg: Config, p: Pool, used: nat, d: Name, now: nat, memoryOk: bool, h: History)
    requires |p| == cfg.size && 0 < cfg.size && Settled(p, h) && NoFuture(p, h)
    ensures var r := Lookup(cfg, p, used, d, now, memoryOk);
            var h' := Record(h, r.pool, r.slot);
            Extends(h, h') && Settled(r.pool, h') && NoFuture(r.pool, h')
  {
    var r := Lookup(cfg, p, used, d, now, memoryOk);
    OneSlotWritten(cfg, p, used, d, now, memoryOk);
    hide Lookup;
    WrittenExtends(p, r.pool, r.slot, h);
  }

  /** Between the writer's two steps the new domain is in place under the old version: what a
      reader's version check accepts is the domain each slot held before. */
  lemma {:induction false} MidOverwrite(p: Pool, h: History, s: nat, d: Name, expire: nat)
    requires Settled(p, h) && s < |p| && p[s].Entry?
    ensures var mid := p[s := Entry(d, expire, p[s].version)];
            Published(mid, h) &&
            forall k :: 0 <= k < |mid| && mid[k].Entry? ==> p[k].Entry? && h[(k, mid[k].version)] == CStr(p[k].domain)
  {}

  // ---------- the cache ----------

  function Truncated(d: Name, bufLen: nat): Name
    requires 0 < bufLen
  {
    if |d| >= bufLen then d[..bufLen - 1] else d
  }

  function MoveToFront(s: seq<nat>, i: nat): (r: seq<nat>)
    requires i < |s|
    ensures |r| == |s|
  {
    [s[i]] + s[..i] + s[i + 1..]
  }

  ghost predicate Permutation(s: seq<nat>) {
    |s| == MRU_SIZE && (forall i :: 0 <= i < |s| ==> s[i] < MRU_SIZE) &&
    forall i, j :: 0 <= i < j < |s| ==> s[i] != s[j]
  }

  lemma {:induction false} MoveToFrontPermutes(s: seq<nat>, i: nat)
    requires Permutation(s) && i < |s|
    ensures Permutation(MoveToFront(s, i))
  {
    var r := MoveToFront(s, i);
    forall a, b | 0 <= a < b < |r| ensures r[a] != r[b] {
      assert r[b] == if b <= i then s[b - 1] else s[b];
      assert r[a] == if a == 0 then s[i] else if a <= i then s[a - 1] else s[a];
    }
  }

  class MruCache {
    const cfg: Config
    const data: array<Cell>
    const ptrs: array<nat>

    ghost predicate Shaped()
      reads this, data, ptrs
    {
      data.Length == MRU_SIZE && ptrs.Length == MRU_SIZE && Permutation(ptrs[..])
    }

    /** Valid cells hold what their slot and version stand for, and no address has two. */
    ghost predicate Valid(h: History)
      reads this, data, ptrs
    {
      Shaped() && CellsOk(data[..], cfg, h)
    }

    constructor (cfg: Config)
      ensures forall h :: Valid(h)
      ensures this.cfg == cfg && fresh(data) && fresh(ptrs)
    {
      this.cfg := cfg;
      data := new Cell[MRU_SIZE](i => Cell(0, 0, false, []));
      ptrs := new nat[MRU_SIZE](i => i);
    }

    /** memmove by one, then the promoted pointer in front. */
    method Promote(i: nat)
      requires Shaped() && i < MRU_SIZE
      modifies ptrs
      ensures Shaped() && ptrs[..] == MoveToFront(old(ptrs[..]), i)
    {
      MoveToFrontPermutes(ptrs[..], i);
      var item := ptrs[i];
      forall j | 0 < j <= i {
        ptrs[j] := ptrs[j - 1];
      }
      ptrs[0] := item;
      assert ptrs[..] == MoveToFront(old(ptrs[..]), i);
    }

    /** The lock-free part: the pool is looked at once, as it is in `p`, for the version check. */
    method CheckCache(ip: nat, slot: nat, bufLen: nat, p: Pool, ghost h: History) returns (hit: Option<Name>)
      requires Valid(h) && 0 < bufLen && cfg.netHost + slot == ip && slot < |p| && Published(p, h)
      modifies data, ptrs
      ensures Valid(h)
      ensures hit.Some? ==> p[slot].Entry? && hit.value == Truncated(h[(slot, p[slot].version)], bufLen)
      ensures hit.None? ==> NotCached(data[..], ip) && ptrs[..] == old(ptrs[..])
    {
      for i := 0 to MRU_SIZE
        invariant data[..] == old(data[..]) && ptrs[..] == old(ptrs[..])
        invariant forall j :: 0 <= j < i ==> !(data[ptrs[j]].valid && data[ptrs[j]].ip == ip)
      {
        var c := ptrs[i];
        var item := data[c];
        if item.valid && item.ip == ip {
          if p[slot].Empty? || p[slot].version != item.version {
            data[c] := item.(valid := false);
            return None;
          }
          Promote(i);
          return Some(Truncated(item.domain, bufLen));
        }
      }
      forall c | 0 <= c < MRU_SIZE
        ensures !(data[c].valid && data[c].ip == ip)
      {
        AllPointedTo(ptrs[..], c);
      }
      return None;
    }

    /** Puts a slow-path result in front, in the cell used least recently. */
    method Remember(ip: nat, slot: nat, version: nat, domain: Name, ghost h: History)
      requires Valid(h) && NotCached(data[..], ip) && cfg.netHost + slot == ip
      requires (slot, version) in h && h[(slot, version)] == domain
      modifies data, ptrs
      ensures Valid(h) && ptrs[..] == MoveToFront(old(ptrs[..]), MRU_SIZE - 1)
      ensures data[ptrs[0]] == Cell(ip, version, true, domain)
    {
      Promote(MRU_SIZE - 1);
      data[ptrs[0]] := Cell(ip, version, true, domain);
    }

    /** fakedns_reverse_lookup.  The pool is read at most twice: as `p` at the version check, and,
        under the read lock, as `q`; other threads may have changed it in between. */
    method ReverseLookup(ip: nat, bufLen: nat, p: Pool, q: Pool, ghost h: History, ghost h': History) returns (r: Option<Name>)
      requires Valid(h) && |p| == |q| == cfg.size && Published(p, h) && Settled(q, h') && Extends(h, h')
      modifies data, ptrs
      ensures Valid(h')
      ensures bufLen == 0 || ip < cfg.netHost || ip >= cfg.netHost + cfg.size ==> r.None?
      ensures 0 < bufLen && cfg.netHost <= ip < cfg.netHost + cfg.size ==>
                var s := ip - cfg.netHost;
                (p[s].Entry? && r == Some(Truncated(h[(s, p[s].version)], bufLen))) ||
                ((r.None? <==> q[s].Empty?) && (q[s].Entry? ==> r == Some(Truncated(CStr(q[s].domain), bufLen))))
      ensures p == q && Settled(p, h) ==> r == Direct(cfg, p, ip, bufLen)
    {
      CellsMonotone(data[..], cfg, h, h');
      if bufLen == 0 || ip < cfg.netHost || ip >= cfg.netHost + cfg.size {
        return None;
      }
      var slot := ip - cfg.netHost;
      r := CheckCache(ip, slot, bufLen, p, h);
      CellsMonotone(data[..], cfg, h, h');
      if r.Some? {
        return;
      }
      if q[slot].Empty? {
        return None;
      }
      var domain := CStr(q[slot].domain);
      Remember(ip, slot, q[slot].version, domain, h');
      r := Some(Truncated(domain, bufLen));
    }
  }

  ghost predicate CellsOk(data: seq<Cell>, cfg: Config, h: History) {
    (forall c :: 0 <= c < |data| && data[c].valid ==>
       cfg.netHost <= data[c].ip && var k := (data[c].ip - cfg.netHost, data[c].version); k in h && h[k] == data[c].domain) &&
    forall c, e :: 0 <= c < e < |data| && data[c].valid && data[e].valid ==> data[c].ip != data[e].ip
  }

  ghost predicate NotCached(data: seq<Cell>, ip: nat) {
    forall c :: 0 <= c < |data| ==> !(data[c].valid && data[c].ip == ip)
  }

  lemma {:induction false} CellsMonotone(data: seq<Cell>, cfg: Config, h: History, h': History)
    requires CellsOk(data, cfg, h) && Extends(h, h')
    ensures CellsOk(data, cfg, h')
  {}

  /** A permutation points to every cell. */
  lemma {:induction false} AllPointedTo(s: seq<nat>, c: nat)
    requires Permutation(s) && c < MRU_SIZE
    ensures c in s
  {
    if c !in s {
      var all: set<nat> := {0, 1, 2, 3, 4, 5, 6, 7};
      assert |all| == 8 && |all - {c}| == 7;
      Pigeonhole(s, all - {c});
    }
  }

  lemma {:induction false} Pigeonhole(s: seq<nat>, others: set<nat>)
    requires forall i :: 0 <= i < |s| ==> s[i] in others
    requires forall i, j :: 0 <= i < j < |s| ==> s[i] != s[j]
    ensures |s| <= |others|
    decreases |s|
  {
    if s != [] {
      Pigeonhole(s[1..], others - {s[0]});
    }
  }

  // ---------- the cache refines the pool ----------

  /** What a reader without a cache gets. */
  function Direct(cfg: Config, p: Pool, ip: nat, bufLen: nat): Option<Name>
    requires |p| == cfg.size
  {
    if bufLen == 0 || ip < cfg.netHost || ip >= cfg.netHost + cfg.size then None
    else match Resolve(p, ip - cfg.netHost) case None => None case Some(d) => Some(Truncated(d, bufLen))
  }

  datatype Op = Query(domain: Name, now: nat, memoryOk: bool) | Reverse(ip: nat, bufLen: nat)

  /** What one operation answers, and what it leaves of the pool. */
  function Output(cfg: Config, p: Pool, op: Op): seq<Option<Name>>
    requires |p| == cfg.size
  {
    match op case Query(_, _, _) => [] case Reverse(ip, bufLen) => [Direct(cfg, p, ip, bufLen)]
  }

  function After(cfg: Config, p: Pool, used: nat, op: Op): (r: (Pool, nat))
    requires |p| == cfg.size && 0 < cfg.size
    ensures |r.0| == |p|
  {
    match op
    case Query(d, now, ok) => var a := Lookup(cfg, p, used, d, now, ok); (a.pool, a.used)
    case Reverse(_, _) => (p, used)
  }

  /** The answers to the reverse lookups in a sequence of operations on a pool. */
  function Answers(cfg: Config, p: Pool, used: nat, ops: seq<Op>): seq<Option<Name>>
    requires |p| == cfg.size && 0 < cfg.size
    decreases |ops|
  {
    if ops == [] then []
    else
      var next := After(cfg, p, used, ops[0]);
      Output(cfg, p, ops[0]) + Answers(cfg, next.0, next.1, ops[1..])
  }

  lemma {:induction false} AnswersStep(cfg: Config, p: Pool, used: nat, ops: seq<Op>, i: nat, answers: seq<Option<Name>>)
    requires |p| == cfg.size && 0 < cfg.size && i < |ops|
    ensures var next := After(cfg, p, used, ops[i]);
            answers + Answers(cfg, p, used, ops[i..]) ==
            answers + Output(cfg, p, ops[i]) + Answers(cfg, next.0, next.1, ops[i + 1..])
  {
    assert ops[i..][0] == ops[i] && ops[i..][1..] == ops[i + 1..];
  }

  ghost predicate Agreed(dns: FakeDns, cache: MruCache, h: History)
    reads dns, dns.pool, cache, cache.data, cache.ptrs
  {
    dns.Valid() && cache.Valid(h) && dns.cfg == cache.cfg &&
    dns.pool as object != cache.data && dns.pool as object != cache.ptrs &&
    Settled(dns.pool[..], h) && NoFuture(dns.pool[..], h)
  }

  /** Any interleaving of queries, with their refreshes and overwrites, and reverse lookups: the
      cached answers are the ones the pool itself would have given. */
  method CachedAnswers(cfg: Config, ops: seq<Op>) returns (answers: seq<Option<Name>>)
    requires 0 < cfg.size
    ensures answers == Answers(cfg, FreshPool(cfg), 0, ops)
  {
    var dns := new FakeDns(cfg);
    var cache := new MruCache(cfg);
    ghost var h: History := map[];
    answers := [];
    assert ops[0..] == ops;
    for i := 0 to |ops|
      invariant fresh(dns) && fresh(dns.pool) && fresh(cache) && fresh(cache.data) && fresh(cache.ptrs)
      invariant Agreed(dns, cache, h) && dns.cfg == cfg
      invariant answers + Answers(cfg, dns.pool[..], dns.used, ops[i..]) == Answers(cfg, FreshPool(cfg), 0, ops)
    {
      AnswersStep(cfg, dns.pool[..], dns.used, ops, i, answers);
      var output;
      output, h := Apply(dns, cache, ops[i], h);
      answers := answers + output;
    }
  }

  method Apply(dns: FakeDns, cache: MruCache, op: Op, ghost h: History) returns (output: seq<Option<Name>>, ghost h': History)
    requires Agreed(dns, cache, h)
    modifies dns, dns.pool, cache, cache.data, cache.ptrs
    ensures Agreed(dns, cache, h')
    ensures output == Output(dns.cfg, old(dns.pool[..]), op)
    ensures (dns.pool[..], dns.used) == After(dns.cfg, old(dns.pool[..]), old(dns.used), op)
  {
    match op {
      case Query(d, now, ok) =>
        h' := CachedQuery(dns, cache, d, now, ok, h);
        output := [];
      case Reverse(ip, bufLen) =>
        var r := cache.ReverseLookup(ip, bufLen, dns.pool[..], dns.pool[..], h, h);
        output, h' := [r], h;
    }
  }

  method CachedQuery(dns: FakeDns, cache: MruCache, d: Name, now: nat, ok: bool, ghost h: History) returns (ghost h': History)
    requires dns.Valid() && cache.Valid(h) && Settled(dns.pool[..], h) && NoFuture(dns.pool[..], h)
    requires dns.cfg == cache.cfg && dns.pool as object != cache.data && dns.pool as object != cache.ptrs
    modifies dns, dns.pool
    ensures dns.Valid() && cache.Valid(h') && Settled(dns.pool[..], h') && NoFuture(dns.pool[..], h')
    ensures var a := Lookup(dns.cfg, old(dns.pool[..]), old(dns.used), d, now, ok);
            dns.pool[..] == a.pool && dns.used == a.used
  {
    ghost var a := Lookup(dns.cfg, dns.pool[..], dns.used, d, now, ok);
    LookupExtendsHistory(dns.cfg, dns.pool[..], dns.used, d, now, ok, h);
    h' := Record(h, a.pool, a.slot);
    CellsMonotone(cache.data[..], cache.cfg, h, h');
    var ip := dns.LookupDomain(d, now, ok);
  }
}
