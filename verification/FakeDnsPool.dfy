/** The fake-DNS pool (src/fakedns.c): domain names are given addresses of a CIDR block, one slot
    an address.  A name probes its slots by double hashing; slots are filled or overwritten,
    never emptied; expiry times are 32-bit and compared with wrap-around. */
module FakeDnsPool {
  import opened Bytes
  import opened Options
  import opened Powers

  const MAX_DOMAIN_LEN := 244
  const DNS_TTL := 3600
  const ENTRY_LIFETIME := 86400
  const REFRESH_THRESHOLD := ENTRY_LIFETIME * 3 / 10
  const TWO31 := 0x8000_0000

  type Name = seq<Byte>

  datatype Slot = Empty | Entry(domain: Name, expire: nat, version: nat)

  /** What fakedns_init fixes: the block's first address, the number of addresses, and the hash. */
  datatype Config = Config(netHost: nat, size: nat, hash: Name -> U64)
  {
    ghost predicate Valid() {
      exists bits :: 8 <= bits <= 24 && size == Power(bits)
    }

    /** g_max_probes */
    function MaxProbes(): nat { if size < 128 then size else 128 }
  }

  // ---------- C strings ----------

  /** The string a NUL-terminated buffer holding `d` denotes. */
  function CStr(d: Name): (s: Name)
    ensures |s| <= |d|
  {
    if d == [] || d[0] == 0 then [] else [d[0]] + CStr(d[1..])
  }

  predicate NulFree(d: Name) { forall i :: 0 <= i < |d| ==> d[i] != 0 }

  lemma {:induction false} CStrOfNulFree(d: Name)
    requires NulFree(d)
    ensures CStr(d) == d
  {
    if d != [] { CStrOfNulFree(d[1..]); }
  }

  /** entry_set_domain: at most 243 bytes are kept. */
  function Stored(d: Name): (s: Name)
    ensures |s| < MAX_DOMAIN_LEN
  {
    if |d| >= MAX_DOMAIN_LEN then d[..MAX_DOMAIN_LEN - 1] else d
  }

  // ---------- 32-bit time ----------

  /** (int32_t)(a - b) */
  function Signed(a: int, b: int): (r: int)
    ensures -TWO31 <= r < TWO31 && (r - (a - b)) % TWO32 == 0
  {
    var d := (a - b) % TWO32;
    if d < TWO31 then d else d - TWO32
  }

  predicate Expired(e: Slot, now: nat) requires e.Entry? { Signed(e.expire, now) < 0 }

  function Refreshed(now: nat): nat { (now % TWO32 + ENTRY_LIFETIME) % TWO32 }

  // ---------- probing ----------

  function FirstOffset(cfg: Config, d: Name): nat requires 0 < cfg.size { cfg.hash(d) % cfg.size }

  /** The upper half of the hash, made odd. */
  function Stride(cfg: Config, d: Name): (r: nat)
    ensures r % 2 == 1
  {
    var high := cfg.hash(d) / TWO32;
    if high % 2 == 0 then high + 1 else high
  }

  /** 32-bit addition, then the mask. */
  function NextOffset(cfg: Config, d: Name, offset: nat): (r: nat)
    requires 0 < cfg.size
    ensures r < cfg.size
  {
    (offset + Stride(cfg, d)) % TWO32 % cfg.size
  }

  /** The `i`-th slot on the probe chain of `d`. */
  function Probe(cfg: Config, d: Name, i: nat): (r: nat)
    requires 0 < cfg.size
    ensures r < cfg.size
  {
    if i == 0 then FirstOffset(cfg, d) else NextOffset(cfg, d, Probe(cfg, d, i - 1))
  }

  type Pool = seq<Slot>

  function FreshPool(cfg: Config): (p: Pool)
    ensures |p| == cfg.size && forall i :: 0 <= i < |p| ==> p[i] == Empty
  {
    seq(cfg.size, i => Empty)
  }

  predicate Holds(p: Pool, slot: nat, d: Name) {
    slot < |p| && p[slot].Entry? && CStr(p[slot].domain) == CStr(d)
  }

  /** Outcome of phase 1: the name's slot, or where a new entry may go. */
  datatype Scan = Hit(slot: nat) | Hole(slot: nat, expired: Option<nat>) | Exhausted(expired: Option<nat>)

  function ScanFrom(cfg: Config, p: Pool, d: Name, now: nat, i: nat, offset: nat, expired: Option<nat>): (r: Scan)
    requires |p| == cfg.size && offset < cfg.size && i <= cfg.MaxProbes()
    requires expired.Some? ==> expired.value < |p| && p[expired.value].Entry?
    ensures r.Hit? ==> Holds(p, r.slot, d)
    ensures r.Hole? ==> r.slot < |p| && p[r.slot].Empty?
    ensures !r.Hit? && r.expired.Some? ==> r.expired.value < |p| && p[r.expired.value].Entry?
    decreases cfg.MaxProbes() - i
  {
    if i == cfg.MaxProbes() then Exhausted(expired)
    else if p[offset].Empty? then Hole(offset, expired)
    else if CStr(p[offset].domain) == CStr(d) then Hit(offset)
    else ScanFrom(cfg, p, d, now, i + 1, NextOffset(cfg, d, offset),
                  if expired.None? && Expired(p[offset], now) then Some(offset) else expired)
  }

  function FindSlot(cfg: Config, p: Pool, d: Name, now: nat): (r: Scan)
    requires |p| == cfg.size && 0 < cfg.size
    ensures r.Hit? ==> Holds(p, r.slot, d)
    ensures r.Hole? ==> r.slot < |p| && p[r.slot].Empty?
    ensures !r.Hit? && r.expired.Some? ==> r.expired.value < |p| && p[r.expired.value].Entry?
  {
    ScanFrom(cfg, p, d, now, 0, FirstOffset(cfg, d), None)
  }

  /** What fakedns_lookup_domain does to the pool, and the slot it answers with. */
  datatype Answer = Answer(pool: Pool, used: nat, slot: Option<nat>)

  function Lookup(cfg: Config, p: Pool, used: nat, d: Name, now: nat, memoryOk: bool): (r: Answer)
    requires |p| == cfg.size && 0 < cfg.size
    ensures |r.pool| == |p|
    ensures r.slot.Some? ==> r.slot.value < |p| && r.pool[r.slot.value].Entry?
  {
    match FindSlot(cfg, p, d, now)
    case Hit(s) =>
      if Signed(p[s].expire, now) > REFRESH_THRESHOLD then Answer(p, used, Some(s))
      else Answer(p[s := p[s].(expire := Refreshed(now))], used, Some(s))
    case Hole(s, expired) =>
      if expired.Some? then Overwrite(p, used, expired.value, d, now)
      else if used >= cfg.size || !memoryOk then Answer(p, used, None)
      else Answer(p[s := Entry(Stored(d), Refreshed(now), 1)], used + 1, Some(s))
    case Exhausted(expired) =>
      if expired.Some? then Overwrite(p, used, expired.value, d, now) else Answer(p, used, None)
  }

  function Overwrite(p: Pool, used: nat, s: nat, d: Name, now: nat): Answer
    requires s < |p| && p[s].Entry?
  {
    Answer(p[s := Entry(Stored(d), Refreshed(now), p[s].version + 1)], used, Some(s))
  }

  // ---------- the source's code ----------

  class FakeDns {
    const cfg: Config
    const pool: array<Slot>
    var used: nat

    ghost predicate Valid()
      reads this
    {
      0 < cfg.size == pool.Length
    }

    /** fakedns_init after parsing: an empty pool. */
    constructor (cfg: Config)
      requires 0 < cfg.size
      ensures Valid() && fresh(pool) && this.cfg == cfg && used == 0
      ensures pool[..] == FreshPool(cfg)
    {
      this.cfg := cfg;
      pool := new Slot[cfg.size](i => Empty);
      used := 0;
    }

    /** Phase 1 of fakedns_lookup_domain: scan the probe chain up to a match or an empty slot,
        remembering the first expired entry passed. */
    method ProbeChain(domain: Name, now: nat) returns (found: Scan)
      requires Valid()
      ensures found == FindSlot(cfg, pool[..], domain, now)
    {
      var offset: nat := FirstOffset(cfg, domain);
      var firstExpired: Option<nat> := None;
      ghost var p := pool[..];
      for i := 0 to cfg.MaxProbes()
        invariant offset < cfg.size
        invariant firstExpired.Some? ==> firstExpired.value < |p| && p[firstExpired.value].Entry?
        invariant ScanFrom(cfg, p, domain, now, i, offset, firstExpired) == FindSlot(cfg, p, domain, now)
      {
        var entry := pool[offset];
        if entry.Empty? {
          return Hole(offset, firstExpired);
        }
        if CStr(entry.domain) == CStr(domain) {
          return Hit(offset);
        }
        if firstExpired.None? && Expired(entry, now) {
          firstExpired := Some(offset);
        }
        offset := NextOffset(cfg, domain, offset);
      }
      return Exhausted(firstExpired);
    }

    /** fakedns_lookup_domain: 0 when the name cannot be given an address.  The pool has a single
        writer, so what phase 1 found still holds in phase 2. */
    method LookupDomain(domain: Name, now: nat, memoryOk: bool) returns (ip: nat)
      requires Valid()
      modifies this, pool
      ensures Valid()
      ensures var a := Lookup(cfg, old(pool[..]), old(used), domain, now, memoryOk);
              pool[..] == a.pool && used == a.used &&
              ip == if a.slot.Some? then cfg.netHost + a.slot.value else 0
    {
      var found := ProbeChain(domain, now);
      if found.Hit? {
        var entry := pool[found.slot];
        if Signed(entry.expire, now) <= REFRESH_THRESHOLD {
          pool[found.slot] := entry.(expire := Refreshed(now));
        }
        return cfg.netHost + found.slot;
      }
      if found.expired.Some? {
        var s := found.expired.value;
        pool[s] := Entry(Stored(domain), Refreshed(now), pool[s].version + 1);
        return cfg.netHost + s;
      }
      if found.Hole? {
        if used >= cfg.size || !memoryOk {
          return 0;
        }
        pool[found.slot] := Entry(Stored(domain), Refreshed(now), 1);
        used := used + 1;
        return cfg.netHost + found.slot;
      }
      return 0;
    }
  }

  // ---------- a name keeps one slot ----------

  /** The first `n` slots on the chain of `x` are all in use. */
  ghost predicate NoHoleBefore(cfg: Config, p: Pool, x: Name, n: nat)
    requires 0 < cfg.size == |p|
  {
    forall h :: 0 <= h < n ==> p[Probe(cfg, x, h)].Entry?
  }

  /** The first `n` slots on the chain of `d` do not hold `d`. */
  ghost predicate NotAmongFirst(cfg: Config, p: Pool, d: Name, n: nat)
    requires 0 < cfg.size == |p|
  {
    forall h :: 0 <= h < n ==> !Holds(p, Probe(cfg, d, h), d)
  }

  ghost predicate ExpiredAmongFirst(cfg: Config, p: Pool, d: Name, now: nat, n: nat, e: Option<nat>)
    requires 0 < cfg.size == |p|
  {
    e.Some? ==> e.value < |p| && p[e.value].Entry? && Expired(p[e.value], now) &&
                exists h :: 0 <= h < n && Probe(cfg, d, h) == e.value
  }

  /** A scan of the chain of `d` that stopped after `n` slots with outcome `r`. */
  ghost predicate StopsAt(cfg: Config, p: Pool, d: Name, now: nat, n: nat, r: Scan)
    requires 0 < cfg.size == |p|
  {
    NoHoleBefore(cfg, p, d, n) && NotAmongFirst(cfg, p, d, n) &&
    match r
    case Hit(s) => n < cfg.MaxProbes() && Probe(cfg, d, n) == s && Holds(p, s, d)
    case Hole(s, e) =>
      n < cfg.MaxProbes() && Probe(cfg, d, n) == s && p[s].Empty? && ExpiredAmongFirst(cfg, p, d, now, n, e)
    case Exhausted(e) => n == cfg.MaxProbes() && ExpiredAmongFirst(cfg, p, d, now, n, e)
  }

  lemma {:induction false} ScanPath(cfg: Config, p: Pool, d: Name, now: nat, i: nat, expired: Option<nat>) returns (n: nat)
    requires |p| == cfg.size && 0 < cfg.size && i <= cfg.MaxProbes()
    requires NoHoleBefore(cfg, p, d, i) && NotAmongFirst(cfg, p, d, i) && ExpiredAmongFirst(cfg, p, d, now, i, expired)
    ensures StopsAt(cfg, p, d, now, n, ScanFrom(cfg, p, d, now, i, Probe(cfg, d, i), expired))
    decreases cfg.MaxProbes() - i
  {
    hide StopsAt, ScanFrom, NoHoleBefore, NotAmongFirst, ExpiredAmongFirst, Probe;
    var offset := Probe(cfg, d, i);
    if i == cfg.MaxProbes() || p[offset].Empty? || CStr(p[offset].domain) == CStr(d) {
      n := i;
      ScanStops(cfg, p, d, now, i, expired);
    } else {
      var expired' := if expired.None? && Expired(p[offset], now) then Some(offset) else expired;
      ScanGoesOn(cfg, p, d, now, i, expired);
      n := ScanPath(cfg, p, d, now, i + 1, expired');
    }
  }

  lemma {:induction false} ScanStops(cfg: Config, p: Pool, d: Name, now: nat, i: nat, expired: Option<nat>)
    requires |p| == cfg.size && 0 < cfg.size && i <= cfg.MaxProbes()
    requires NoHoleBefore(cfg, p, d, i) && NotAmongFirst(cfg, p, d, i) && ExpiredAmongFirst(cfg, p, d, now, i, expired)
    requires var e := p[Probe(cfg, d, i)]; i == cfg.MaxProbes() || e.Empty? || CStr(e.domain) == CStr(d)
    ensures StopsAt(cfg, p, d, now, i, ScanFrom(cfg, p, d, now, i, Probe(cfg, d, i), expired))
  {
    hide NoHoleBefore, NotAmongFirst;
  }

  lemma {:induction false} ScanGoesOn(cfg: Config, p: Pool, d: Name, now: nat, i: nat, expired: Option<nat>)
    requires |p| == cfg.size && 0 < cfg.size && i < cfg.MaxProbes()
    requires NoHoleBefore(cfg, p, d, i) && NotAmongFirst(cfg, p, d, i) && ExpiredAmongFirst(cfg, p, d, now, i, expired)
    requires var e := p[Probe(cfg, d, i)]; e.Entry? && CStr(e.domain) != CStr(d)
    ensures var offset := Probe(cfg, d, i);
            var expired' := if expired.None? && Expired(p[offset], now) then Some(offset) else expired;
            NoHoleBefore(cfg, p, d, i + 1) && NotAmongFirst(cfg, p, d, i + 1) && ExpiredAmongFirst(cfg, p, d, now, i + 1, expired') &&
            ScanFrom(cfg, p, d, now, i, offset, expired) == ScanFrom(cfg, p, d, now, i + 1, Probe(cfg, d, i + 1), expired')
  {}

  lemma {:induction false} FindSlotPath(cfg: Config, p: Pool, d: Name, now: nat) returns (n: nat)
    requires |p| == cfg.size && 0 < cfg.size
    ensures StopsAt(cfg, p, d, now, n, FindSlot(cfg, p, d, now))
  {
    n := ScanPath(cfg, p, d, now, 0, None);
  }

  /** Slot `j` is on the probe chain of `x`, and the chain has no hole before it. */
  ghost predicate OnChain(cfg: Config, p: Pool, x: Name, j: nat) {
    0 < cfg.size == |p| &&
    exists i :: 0 <= i < cfg.MaxProbes() && Probe(cfg, x, i) == j && NoHoleBefore(cfg, p, x, i)
  }

  /** No domain has two slots. */
  ghost predicate Unique(p: Pool) {
    forall a, b :: 0 <= a < |p| && 0 <= b < |p| && SameDomain(p[a], p[b]) ==> a == b
  }

  predicate SameDomain(x: Slot, y: Slot) { x.Entry? && y.Entry? && CStr(x.domain) == CStr(y.domain) }

  ghost predicate ValidName(d: Name) { NulFree(d) && |d| < MAX_DOMAIN_LEN }

  ghost function ValidNames(): iset<Name> { iset d: Name | ValidName(d) }

  /** Names that fit, and that their C strings tell apart. */
  ghost predicate Separable(names: iset<Name>) {
    (forall d :: d in names ==> |d| < MAX_DOMAIN_LEN) &&
    forall x, y :: x in names && y in names && CStr(x) == CStr(y) ==> x == y
  }

  lemma {:induction false} ValidNamesSeparable()
    ensures Separable(ValidNames())
  {
    forall x, y | x in ValidNames() && y in ValidNames() && CStr(x) == CStr(y) ensures x == y {
      CStrOfNulFree(x);
      CStrOfNulFree(y);
    }
  }

  ghost predicate StoredFrom(p: Pool, names: iset<Name>) {
    forall j :: 0 <= j < |p| && p[j].Entry? ==> p[j].domain in names
  }

  /** Every stored name is one of `names` and findable on its own chain. */
  ghost predicate Findable(cfg: Config, p: Pool, names: iset<Name>) {
    |p| == cfg.size && 0 < cfg.size && StoredFrom(p, names) &&
    forall j :: 0 <= j < |p| && p[j].Entry? ==> OnChain(cfg, p, p[j].domain, j)
  }

  lemma {:induction false} NoHoleAt(cfg: Config, p: Pool, x: Name, i: nat, n: nat)
    requires 0 < cfg.size == |p| && NoHoleBefore(cfg, p, x, i)
    ensures n < i ==> p[Probe(cfg, x, n)].Entry?
  {}

  lemma {:induction false} NotHeldAt(cfg: Config, p: Pool, d: Name, n: nat, i: nat)
    requires 0 < cfg.size == |p| && NotAmongFirst(cfg, p, d, n)
    ensures i < n ==> !Holds(p, Probe(cfg, d, i), d)
  {}

  /** A name stored on a gap-free chain is found. */
  lemma {:induction false} StoredIsFound(cfg: Config, p: Pool, names: iset<Name>, d: Name, now: nat, j: nat)
    requires Findable(cfg, p, names) && Separable(names) && d in names && Holds(p, j, d)
    ensures FindSlot(cfg, p, d, now).Hit?
  {
    var n := FindSlotPath(cfg, p, d, now);
    assert p[j].domain == d;
    var i :| 0 <= i < cfg.MaxProbes() && Probe(cfg, d, i) == j && NoHoleBefore(cfg, p, d, i);
    NotHeldAt(cfg, p, d, n, i);
    NoHoleAt(cfg, p, d, i, n);
  }

  /** Slots only fill up, so a chain without holes stays one. */
  lemma {:induction false} ChainsPersist(cfg: Config, p: Pool, q: Pool, x: Name, j: nat)
    requires OnChain(cfg, p, x, j) && |q| == |p| && forall k :: 0 <= k < |p| && p[k].Entry? ==> q[k].Entry?
    ensures OnChain(cfg, q, x, j)
  {
    var i :| 0 <= i < cfg.MaxProbes() && Probe(cfg, x, i) == j && NoHoleBefore(cfg, p, x, i);
    assert NoHoleBefore(cfg, q, x, i);
  }

  /** Writing a name nobody holds into a slot on its chain. */
  lemma {:induction false} WriteKeeps(cfg: Config, p: Pool, names: iset<Name>, s: nat, d: Name, e: Slot)
    requires Findable(cfg, p, names) && Unique(p) && d in names && OnChain(cfg, p, d, s) && s < |p|
    requires e.Entry? && e.domain == d && forall j :: 0 <= j < |p| && j != s ==> !Holds(p, j, d)
    ensures Findable(cfg, p[s := e], names) && Unique(p[s := e])
  {
    var q := p[s := e];
    forall j | 0 <= j < |q| && q[j].Entry?
      ensures q[j].domain in names && OnChain(cfg, q, q[j].domain, j)
    {
      assert OnChain(cfg, p, q[j].domain, j);
      ChainsPersist(cfg, p, q, q[j].domain, j);
    }
    forall a, b | 0 <= a < |q| && 0 <= b < |q| && SameDomain(q[a], q[b])
      ensures a == b
    {
      if a != s && b != s {
        assert SameDomain(p[a], p[b]);
      } else {
        assert a != s ==> !Holds(p, a, d);
        assert b != s ==> !Holds(p, b, d);
      }
    }
  }

  lemma {:induction false} LookupKeeps(cfg: Config, p: Pool, names: iset<Name>, used: nat, d: Name, now: nat, memoryOk: bool)
    requires Findable(cfg, p, names) && Unique(p) && Separable(names) && d in names
    ensures Findable(cfg, Lookup(cfg, p, used, d, now, memoryOk).pool, names)
    ensures Unique(Lookup(cfg, p, used, d, now, memoryOk).pool)
  {
    var n := FindSlotPath(cfg, p, d, now);
    var r := FindSlot(cfg, p, d, now);
    var q := Lookup(cfg, p, used, d, now, memoryOk).pool;
    if r.Hit? {
      RefreshKeeps(cfg, p, names, r.slot, Refreshed(now));
    } else {
      forall j | 0 <= j < |p| ensures !Holds(p, j, d) {
        if Holds(p, j, d) { StoredIsFound(cfg, p, names, d, now, j); }
      }
      if q != p {
        var s := if r.expired.Some? then r.expired.value else r.slot;
        assert OnChain(cfg, p, d, s);
        WriteKeeps(cfg, p, names, s, d, q[s]);
      }
    }
  }

  lemma {:induction false} RefreshKeeps(cfg: Config, p: Pool, names: iset<Name>, s: nat, expire: nat)
    requires Findable(cfg, p, names) && Unique(p) && s < |p| && p[s].Entry?
    ensures Findable(cfg, p[s := p[s].(expire := expire)], names) && Unique(p[s := p[s].(expire := expire)])
  {
    var q := p[s := p[s].(expire := expire)];
    forall j | 0 <= j < |q| && q[j].Entry?
      ensures q[j].domain in names && OnChain(cfg, q, q[j].domain, j)
    {
      ChainsPersist(cfg, p, q, q[j].domain, j);
    }
    forall a, b | 0 <= a < |q| && 0 <= b < |q| && SameDomain(q[a], q[b]) ensures a == b {
      assert SameDomain(p[a], p[b]);
    }
  }

  // ---------- runs ----------

  datatype Query = Query(domain: Name, now: nat, memoryOk: bool)

  function Run(cfg: Config, p: Pool, used: nat, queries: seq<Query>): (r: (Pool, nat))
    requires |p| == cfg.size && 0 < cfg.size
    ensures |r.0| == |p|
    decreases |queries|
  {
    if queries == [] then (p, used)
    else
      var q := queries[0];
      var a := Lookup(cfg, p, used, q.domain, q.now, q.memoryOk);
      Run(cfg, a.pool, a.used, queries[1..])
  }

  lemma {:induction false} RunKeeps(cfg: Config, p: Pool, names: iset<Name>, used: nat, queries: seq<Query>)
    requires Findable(cfg, p, names) && Unique(p) && Separable(names) && Asked(queries, names)
    ensures Findable(cfg, Run(cfg, p, used, queries).0, names) && Unique(Run(cfg, p, used, queries).0)
    decreases |queries|
  {
    if queries != [] {
      var q := queries[0];
      var a := Lookup(cfg, p, used, q.domain, q.now, q.memoryOk);
      LookupKeeps(cfg, p, names, used, q.domain, q.now, q.memoryOk);
      RunKeeps(cfg, a.pool, names, a.used, queries[1..]);
    }
  }

  /** All names asked for are among `names`. */
  ghost predicate Asked(queries: seq<Query>, names: iset<Name>) {
    forall i :: 0 <= i < |queries| ==> queries[i].domain in names
  }

  /** Whatever is looked up, and whenever, a fresh pool never gives one domain two addresses. */
  lemma {:induction false} NeverTwoSlots(cfg: Config, names: iset<Name>, queries: seq<Query>)
    requires 0 < cfg.size && Separable(names) && Asked(queries, names)
    ensures Unique(Run(cfg, FreshPool(cfg), 0, queries).0)
  {
    RunKeeps(cfg, FreshPool(cfg), names, 0, queries);
  }

  // ---------- exactly when a name keeps one slot ----------

  ghost predicate StaysUnique(cfg: Config, p: Pool, used: nat, queries: seq<Query>)
    requires |p| == cfg.size && 0 < cfg.size
  {
    Unique(Run(cfg, p, used, queries).0)
  }

  /** Names with a NUL inside are stored whole but compared only up to it: two that share a C string
      can be probed for at different places. */
  lemma {:induction false} SharedCStringBreaksUniqueness(x: Name, y: Name) returns (cfg: Config, queries: seq<Query>)
    requires x != y && CStr(x) == CStr(y) && |x| < MAX_DOMAIN_LEN && |y| < MAX_DOMAIN_LEN
    ensures 0 < cfg.size && |queries| == 2 && queries[0].domain == x && queries[1].domain == y
    ensures !StaysUnique(cfg, FreshPool(cfg), 0, queries)
  {
    cfg := Config(0x0A00_0000, 256, (d: Name) => if d == x then 0 else 1);
    queries := [Query(x, 0, true), Query(y, 0, true)];
    var p := FreshPool(cfg);
    assert FindSlot(cfg, p, x, 0) == Hole(0, None);
    var a := Lookup(cfg, p, 0, x, 0, true);
    assert FindSlot(cfg, a.pool, y, 0) == Hole(1, None);
    var b := Lookup(cfg, a.pool, a.used, y, 0, true);
    assert SameDomain(b.pool[0], b.pool[1]);
    assert queries[1..] == [queries[1]] && queries[1..][1..] == [];
    assert Run(cfg, p, 0, queries) == Run(cfg, a.pool, a.used, queries[1..]);
    assert Run(cfg, a.pool, a.used, queries[1..]) == Run(cfg, b.pool, b.used, []);
  }

  /** Lookups of certain names keep every fresh pool without duplicates, whatever the hash, exactly
      when no two of the names share a C string. */
  lemma {:induction false} UniqueForEveryHashExactly(names: iset<Name>)
    requires forall d :: d in names ==> |d| < MAX_DOMAIN_LEN
    ensures Separable(names) <==>
            forall cfg: Config, queries: seq<Query> :: 0 < cfg.size && Asked(queries, names) ==> StaysUnique(cfg, FreshPool(cfg), 0, queries)
  {
    if Separable(names) {
      forall cfg: Config, queries: seq<Query> | 0 < cfg.size && Asked(queries, names)
        ensures StaysUnique(cfg, FreshPool(cfg), 0, queries)
      {
        NeverTwoSlots(cfg, names, queries);
      }
    } else {
      var x, y :| x in names && y in names && CStr(x) == CStr(y) && x != y;
      var cfg, queries := SharedCStringBreaksUniqueness(x, y);
      assert Asked(queries, names);
    }
  }

  /** Two such names. */
  lemma {:induction false} NulBreaksUniqueness() returns (x: Name, y: Name)
    ensures x != y && CStr(x) == CStr(y) && 0 < |x| < MAX_DOMAIN_LEN && 0 < |y| < MAX_DOMAIN_LEN
  {
    x, y := [97, 0, 98], [97, 0, 99];
    CStrOfTwo(97, x[1..]);
    CStrOfTwo(97, y[1..]);
    assert x[2] != y[2];
  }

  lemma {:induction false} CStrOfTwo(c: Byte, rest: Name)
    requires c != 0 && rest != [] && rest[0] == 0
    ensures CStr([c] + rest) == [c]
  {}

  lemma {:induction false} ExpiredStays(cfg: Config, p: Pool, d: Name, now: nat, i: nat, offset: nat, expired: Option<nat>)
    requires |p| == cfg.size && offset < cfg.size && i <= cfg.MaxProbes()
    requires expired.Some? && expired.value < |p| && p[expired.value].Entry?
    ensures var r := ScanFrom(cfg, p, d, now, i, offset, expired); !r.Hit? ==> r.expired == expired
    decreases cfg.MaxProbes() - i
  {
    if i < cfg.MaxProbes() && p[offset].Entry? && CStr(p[offset].domain) != CStr(d) {
      ExpiredStays(cfg, p, d, now, i + 1, NextOffset(cfg, d, offset), expired);
    }
  }

  lemma {:induction false} JustExpired(e: nat)
    ensures Signed(e, e + 1) == -1
  {}

  /** A name in a slot off its chain is not found, and at some time gets a second slot. */
  lemma {:induction false} OffChainIsDoubled(cfg: Config, p: Pool, used: nat, j: nat) returns (now: nat)
    requires |p| == cfg.size && 0 < cfg.size && Unique(p) && used == Occupied(p)
    requires j < |p| && p[j].Entry? && |p[j].domain| < MAX_DOMAIN_LEN && !OnChain(cfg, p, p[j].domain, j)
    ensures !Unique(Lookup(cfg, p, used, p[j].domain, now, true).pool)
  {
    var d, first := p[j].domain, FirstOffset(cfg, p[j].domain);
    now := if p[first].Entry? then p[first].expire + 1 else 0;
    var n := FindSlotPath(cfg, p, d, now);
    var r := FindSlot(cfg, p, d, now);
    if p[first].Entry? {
      JustExpired(p[first].expire);
      ExpiredStays(cfg, p, d, now, 1, NextOffset(cfg, d, first), Some(first));
    }
    UsedIsOccupied(cfg, p, used, d, now, true);
    var q := Lookup(cfg, p, used, d, now, true).pool;
    var s := if r.expired.Some? then r.expired.value else r.slot;
    assert s != j && q == p[s := q[s]] && q[s].domain == d;
    assert SameDomain(q[s], q[j]);
  }

  /** In any pool without duplicates, however it came about, every lookup of one of the names at any
      time keeps it so exactly when each stored name has a chain without holes up to its slot. */
  lemma {:induction false} FindableExactly(cfg: Config, p: Pool, names: iset<Name>, used: nat)
    requires |p| == cfg.size && 0 < cfg.size && Unique(p) && used == Occupied(p) && Separable(names) && StoredFrom(p, names)
    ensures Findable(cfg, p, names) <==> forall d: Name, now: nat :: d in names ==> Unique(Lookup(cfg, p, used, d, now, true).pool)
  {
    if Findable(cfg, p, names) {
      forall d: Name, now: nat | d in names ensures Unique(Lookup(cfg, p, used, d, now, true).pool) {
        LookupKeeps(cfg, p, names, used, d, now, true);
      }
    } else {
      var j :| 0 <= j < |p| && p[j].Entry? && !OnChain(cfg, p, p[j].domain, j);
      var now := OffChainIsDoubled(cfg, p, used, j);
      assert p[j].domain in names;
    }
  }

  /** The same for every run. */
  lemma {:induction false} RunsUniqueExactly(cfg: Config, p: Pool, names: iset<Name>, used: nat)
    requires |p| == cfg.size && 0 < cfg.size && Unique(p) && used == Occupied(p) && Separable(names) && StoredFrom(p, names)
    ensures Findable(cfg, p, names) <==> forall queries: seq<Query> :: Asked(queries, names) ==> StaysUnique(cfg, p, used, queries)
  {
    if Findable(cfg, p, names) {
      forall queries: seq<Query> | Asked(queries, names) ensures StaysUnique(cfg, p, used, queries) {
        RunKeeps(cfg, p, names, used, queries);
      }
    } else {
      var j :| 0 <= j < |p| && p[j].Entry? && !OnChain(cfg, p, p[j].domain, j);
      var now := OffChainIsDoubled(cfg, p, used, j);
      var query := Query(p[j].domain, now, true);
      assert Asked([query], names) && [query][1..] == [];
      var a := Lookup(cfg, p, used, query.domain, now, true);
      assert Run(cfg, p, used, [query]) == Run(cfg, a.pool, a.used, []);
      assert !StaysUnique(cfg, p, used, [query]);
    }
  }

  /** Phase 2 has nowhere to put the name: no expired slot was passed, and no empty one can be used. */
  predicate NoPlace(cfg: Config, found: Scan, used: nat, memoryOk: bool) {
    match found
    case Hit(_) => false
    case Hole(_, expired) => expired.None? && (used >= cfg.size || !memoryOk)
    case Exhausted(expired) => expired.None?
  }

  /** In any pool without duplicates, however it came about, one lookup of a name that fits
      keeps it so exactly when the scan finds the name, or there is no place, or it is not stored. */
  lemma {:induction false} UniqueAfterLookup(cfg: Config, p: Pool, used: nat, d: Name, now: nat, memoryOk: bool)
    requires |p| == cfg.size && 0 < cfg.size && Unique(p) && |d| < MAX_DOMAIN_LEN
    ensures var found := FindSlot(cfg, p, d, now);
            Unique(Lookup(cfg, p, used, d, now, memoryOk).pool) <==>
            found.Hit? || NoPlace(cfg, found, used, memoryOk) || forall j :: 0 <= j < |p| ==> !Holds(p, j, d)
  {
    var n := FindSlotPath(cfg, p, d, now);
    var r := Lookup(cfg, p, used, d, now, memoryOk);
    var q, found := r.pool, FindSlot(cfg, p, d, now);
    if found.Hit? || NoPlace(cfg, found, used, memoryOk) {
      forall a, b | 0 <= a < |q| && 0 <= b < |q| && SameDomain(q[a], q[b]) ensures a == b {
        assert SameDomain(p[a], p[b]);
      }
    } else {
      var s := r.slot.value;
      assert q == p[s := q[s]] && q[s].domain == d && !Holds(p, s, d);
      if j :| 0 <= j < |p| && Holds(p, j, d) {
        assert SameDomain(q[s], q[j]);
      } else {
        forall a, b | 0 <= a < |q| && 0 <= b < |q| && SameDomain(q[a], q[b]) ensures a == b {
          if a != s && b != s { assert SameDomain(p[a], p[b]); }
          assert a != s ==> !Holds(p, a, d);
          assert b != s ==> !Holds(p, b, d);
        }
      }
    }
  }

  // ---------- the chain visits distinct slots ----------

  /** One step along the chain adds the stride, modulo the pool size: the 32-bit wrap before the
      mask does no harm because the size is a power of two. */
  lemma {:induction false} StepCongruent(cfg: Config, d: Name, offset: nat)
    requires cfg.Valid()
    ensures Congruent(NextOffset(cfg, d, offset), offset + Stride(cfg, d), cfg.size)
  {
    var bits :| 8 <= bits <= 24 && cfg.size == Power(bits);
    var sum := offset + Stride(cfg, d);
    ModCongruent(sum % TWO32, cfg.size);
    ModCongruent(sum, TWO32);
    CongruentCoarser(sum % TWO32, sum, bits);
    CongruentSum(NextOffset(cfg, d, offset), sum % TWO32, sum, cfg.size);
  }

  lemma {:induction false} ProbeCongruent(cfg: Config, d: Name, i: nat, n: nat)
    requires cfg.Valid()
    ensures Congruent(Probe(cfg, d, i + n), Probe(cfg, d, i) + n * Stride(cfg, d), cfg.size)
    decreases n
  {
    hide Congruent, Stride, NextOffset;
    var s := Stride(cfg, d);
    if n == 0 {
      MakeCongruent(Probe(cfg, d, i), Probe(cfg, d, i), cfg.size, 0);
    } else {
      var first, before := Probe(cfg, d, i), Probe(cfg, d, i + n - 1);
      assert i + (n - 1) == i + n - 1;
      ProbeCongruent(cfg, d, i, n - 1);
      StepCongruent(cfg, d, before);
      MulSum(n - 1, 1, s);
      CongruentShift(before, first + (n - 1) * s, s, cfg.size);
      CongruentSum(Probe(cfg, d, i + n), before + s, first + n * s, cfg.size);
    }
  }

  /** The slots a lookup probes are all different. */
  lemma {:induction false} ProbesDistinct(cfg: Config, d: Name, i: nat, j: nat)
    requires cfg.Valid() && i < j < i + cfg.size
    ensures Probe(cfg, d, i) != Probe(cfg, d, j)
  {
    if Probe(cfg, d, i) == Probe(cfg, d, j) {
      var n, s := j - i, Stride(cfg, d);
      ProbeCongruent(cfg, d, i, n);
      var k: int :| Probe(cfg, d, i + n) - (Probe(cfg, d, i) + n * s) == k * cfg.size;
      var bits :| 8 <= bits <= 24 && cfg.size == Power(bits);
      MulSum(k, -k, cfg.size);
      OddFactor(n, s, bits, -k);
      NoSmallMultiple(n, cfg.size);
    }
  }

  // ---------- the usage counter ----------

  function Occupied(p: Pool): (n: nat)
    ensures n <= |p|
  {
    if p == [] then 0 else (if p[0].Entry? then 1 else 0) + Occupied(p[1..])
  }

  lemma {:induction false} OccupiedUpdate(p: Pool, s: nat, e: Slot)
    requires s < |p| && e.Entry?
    ensures Occupied(p[s := e]) == Occupied(p) + if p[s].Empty? then 1 else 0
    ensures p[s].Empty? ==> Occupied(p) < |p|
  {
    if s > 0 {
      OccupiedUpdate(p[1..], s - 1, e);
      assert p[s := e][1..] == p[1..][s - 1 := e];
    } else {
      assert p[0 := e][1..] == p[1..];
    }
  }

  /** The counter is the number of slots in use, so the pool-full branch is never taken. */
  lemma {:induction false} UsedIsOccupied(cfg: Config, p: Pool, used: nat, d: Name, now: nat, memoryOk: bool)
    requires |p| == cfg.size && 0 < cfg.size && used == Occupied(p)
    ensures var r := Lookup(cfg, p, used, d, now, memoryOk); r.used == Occupied(r.pool)
    ensures FindSlot(cfg, p, d, now).Hole? ==> used < cfg.size
  {
    var r := Lookup(cfg, p, used, d, now, memoryOk);
    var f := FindSlot(cfg, p, d, now);
    if f.Hole? {
      OccupiedUpdate(p, f.slot, Entry([], 0, 0));
    }
    if r.pool != p {
      OccupiedUpdate(p, r.slot.value, r.pool[r.slot.value]);
    }
  }

  // ---------- an answer outlives its TTL ----------

  /** fakedns_reverse_lookup without its cache. */
  function Resolve(p: Pool, slot: nat): Option<Name> {
    if slot < |p| && p[slot].Entry? then Some(CStr(p[slot].domain)) else None
  }

  /** Seconds left, as the code computes them. */
  function Left(p: Pool, s: nat, now: nat): int
    requires s < |p| && p[s].Entry?
  {
    Signed(p[s].expire, now)
  }

  lemma {:induction false} SignedLater(e: nat, t: nat, u: nat)
    requires t <= u && Signed(e, t) - (u - t) >= 0
    ensures Signed(e, u) == Signed(e, t) - (u - t)
  {}

  lemma {:induction false} RefreshedLeft(now: nat)
    ensures Signed(Refreshed(now), now) == ENTRY_LIFETIME
  {
    var q, r := now / TWO32, now % TWO32;
    assert now == TWO32 * q + r;
    SignedIs(Refreshed(now), now, ENTRY_LIFETIME, if r + ENTRY_LIFETIME < TWO32 then -q else -q - 1);
  }

  lemma {:induction false} SignedIs(a: int, b: int, left: int, wraps: int)
    requires -TWO31 <= left < TWO31 && a - b == left + TWO32 * wraps
    ensures Signed(a, b) == left
  {}

  /** Whoever gets an answer, the entry behind it has more than the refresh threshold left. */
  lemma {:induction false} AnsweredIsFresh(cfg: Config, p: Pool, used: nat, d: Name, now: nat, memoryOk: bool)
    requires |p| == cfg.size && 0 < cfg.size && |d| < MAX_DOMAIN_LEN
    ensures var r := Lookup(cfg, p, used, d, now, memoryOk);
            r.slot.Some? ==> Left(r.pool, r.slot.value, now) > REFRESH_THRESHOLD && Resolve(r.pool, r.slot.value) == Some(CStr(d))
  {
    RefreshedLeft(now);
  }

  /** Another lookup, while an entry has not expired, leaves its domain alone. */
  lemma {:induction false} UnexpiredSurvives(cfg: Config, p: Pool, used: nat, d: Name, now: nat, memoryOk: bool, s: nat)
    requires |p| == cfg.size && 0 < cfg.size && s < |p| && p[s].Entry? && 0 <= Left(p, s, now)
    ensures var q := Lookup(cfg, p, used, d, now, memoryOk).pool;
            q[s].Entry? && q[s].domain == p[s].domain && q[s].version == p[s].version &&
            Left(p, s, now) <= Left(q, s, now)
  {
    var n := FindSlotPath(cfg, p, d, now);
    RefreshedLeft(now);
  }

  /** A query sequence whose clock does not run backwards and stays within [from, to]. */
  ghost predicate Within(queries: seq<Query>, from: nat, to: nat) {
    (forall i :: 0 <= i < |queries| ==> from <= queries[i].now <= to) &&
    forall i, j :: 0 <= i < j < |queries| ==> queries[i].now <= queries[j].now
  }

  lemma {:induction false} EntryLasts(cfg: Config, p: Pool, used: nat, s: nat, t: nat, queries: seq<Query>, end: nat)
    requires |p| == cfg.size && 0 < cfg.size && s < |p| && p[s].Entry?
    requires t <= end && Within(queries, t, end) && Left(p, s, t) >= end - t
    ensures var q := Run(cfg, p, used, queries).0; q[s].Entry? && q[s].domain == p[s].domain
    decreases |queries|
  {
    if queries != [] {
      var c := queries[0];
      SignedLater(p[s].expire, t, c.now);
      UnexpiredSurvives(cfg, p, used, c.domain, c.now, c.memoryOk, s);
      var a := Lookup(cfg, p, used, c.domain, c.now, c.memoryOk);
      assert Within(queries[1..], c.now, end);
      EntryLasts(cfg, a.pool, a.used, s, c.now, queries[1..], end);
    }
  }

  /** The address a name was answered with resolves back to that name for at least the TTL the
      answer advertises, whatever is looked up in between, in any pool, and wherever the 32-bit
      clock wraps. */
  lemma {:induction false} AnswerOutlivesTtl(cfg: Config, p: Pool, used: nat, d: Name, t: nat, memoryOk: bool, queries: seq<Query>)
    requires |p| == cfg.size && 0 < cfg.size && |d| < MAX_DOMAIN_LEN && Within(queries, t, t + DNS_TTL)
    ensures var a := Lookup(cfg, p, used, d, t, memoryOk);
            a.slot.Some? ==> Resolve(Run(cfg, a.pool, a.used, queries).0, a.slot.value) == Some(CStr(d))
  {
    var a := Lookup(cfg, p, used, d, t, memoryOk);
    if a.slot.Some? {
      AnsweredIsFresh(cfg, p, used, d, t, memoryOk);
      EntryLasts(cfg, a.pool, a.used, a.slot.value, t, queries, t + DNS_TTL);
    }
  }
}
