/** The snapshot file of the fake-DNS pool (src/fakedns.c, fakedns_save and fakedns_load), on a
    little-endian host: a header with magic, version and count, the CIDR string, then a record
    for each entry with its address in network byte order, its length and its domain. */
module FakeDnsSnapshot {
  import opened Bytes
  import opened FakeDnsPool
  import opened Options
  import opened Powers

  const MAGIC := 0x464E5344
  const VERSION := 3
  const CIDR_MAX := 64

  // ---------- save ----------

  /** The comparison is unsigned and does not allow for the wrap of the clock. */
  predicate Kept(e: Slot, now: nat) { e.Entry? && e.expire > now % TWO32 }

  /** A pool in memory: the CIDR block lies in the address space and stored names are short. */
  ghost predicate Sound(cfg: Config, p: Pool) {
    |p| == cfg.size <= 0x100_0000 && cfg.netHost + cfg.size <= TWO32 && Short(p)
  }

  ghost predicate Short(p: Pool) {
    forall s :: 0 <= s < |p| && p[s].Entry? ==> |CStr(p[s].domain)| < MAX_DOMAIN_LEN
  }

  function Encoded(ip: nat, domain: Name): seq<Byte> {
    Big(ip, 4) + Little(|domain|, 2) + domain
  }

  /** What is written for slot `s`. */
  function Record(cfg: Config, p: Pool, now: nat, s: nat): seq<Byte>
    requires Sound(cfg, p) && s < |p|
  {
    if Kept(p[s], now) then Encoded(cfg.netHost + s, CStr(p[s].domain))
    else []
  }

  function Records(cfg: Config, p: Pool, now: nat, s: nat): seq<Byte>
    requires Sound(cfg, p) && s <= |p|
    decreases |p| - s
  {
    if s == |p| then [] else Record(cfg, p, now, s) + Records(cfg, p, now, s + 1)
  }

  function KeptCount(p: Pool, now: nat, s: nat): (n: nat)
    requires s <= |p|
    ensures n <= |p| - s
    decreases |p| - s
  {
    if s == |p| then 0 else (if Kept(p[s], now) then 1 else 0) + KeptCount(p, now, s + 1)
  }

  function Header(cidr: seq<Byte>, count: nat): seq<Byte>
    requires count < TWO32 && |cidr| < CIDR_MAX
  {
    Little(MAGIC, 4) + Little(VERSION, 4) + Little(count, 4) + Little(|cidr|, 2) + cidr
  }

  /** The whole snapshot. */
  function File(cfg: Config, cidr: seq<Byte>, p: Pool, now: nat): seq<Byte>
    requires Sound(cfg, p) && |cidr| < CIDR_MAX
  {
    Header(cidr, KeptCount(p, now, 0)) + Records(cfg, p, now, 0)
  }

  // ---------- load ----------

  datatype Loaded = Loaded(pool: Pool, used: nat)

  /** The network mask test and the offset test together. */
  predicate InBlock(cfg: Config, ip: nat) { cfg.netHost <= ip < cfg.netHost + cfg.size }

  /** What the loop body reads at a position, which a skip may have moved past the end: nothing
      more, a record to pass over, or a name for a slot. */
  datatype Read = Cut | Skip(next: nat) | Take(slot: nat, domain: Name, next: nat)

  function ReadRecord(cfg: Config, file: seq<Byte>, pos: nat): (r: Read)
    ensures r.Take? ==> r.slot < cfg.size && |r.domain| < MAX_DOMAIN_LEN && r.next <= |file|
  {
    if pos + 6 > |file| then Cut
    else
      var ip := FromBig(file[pos..pos + 4]);
      var dlen := FromLittle(file[pos + 4..pos + 6]);
      if !InBlock(cfg, ip) || dlen >= MAX_DOMAIN_LEN then Skip(pos + 6 + dlen)
      else if pos + 6 + dlen > |file| then Cut
      else Take(ip - cfg.netHost, file[pos + 6..pos + 6 + dlen], pos + 6 + dlen)
  }

  function Restore(l: Loaded, s: nat, domain: Name, now: nat, memoryOk: bool): (r: Loaded)
    requires s < |l.pool|
    ensures |r.pool| == |l.pool|
  {
    if l.pool[s].Entry? then
      l.(pool := l.pool[s := Entry(domain, Refreshed(now), l.pool[s].version)])
    else if memoryOk then
      Loaded(l.pool[s := Entry(domain, Refreshed(now), 1)], l.used + 1)
    else l
  }

  datatype Named = Named(slot: nat, domain: Name)

  /** The names in up to `n` records from `pos` on; reading stops at the first that is cut short. */
  function Parse(cfg: Config, file: seq<Byte>, pos: nat, n: nat): (names: seq<Named>)
    ensures InRange(cfg, names)
    decreases n
  {
    if n == 0 then []
    else
      match ReadRecord(cfg, file, pos)
      case Cut => []
      case Skip(next) => Parse(cfg, file, next, n - 1)
      case Take(s, domain, next) => [Named(s, domain)] + Parse(cfg, file, next, n - 1)
  }

  ghost predicate InRange(cfg: Config, names: seq<Named>) {
    forall i :: 0 <= i < |names| ==> names[i].slot < cfg.size && |names[i].domain| < MAX_DOMAIN_LEN
  }

  function RestoreAll(cfg: Config, l: Loaded, names: seq<Named>, now: nat, memoryOk: nat -> bool): (r: Loaded)
    requires |l.pool| == cfg.size && InRange(cfg, names)
    ensures |r.pool| == cfg.size
    decreases |names|
  {
    if names == [] then l
    else
      var first := names[0];
      RestoreAll(cfg, Restore(l, first.slot, first.domain, now, memoryOk(first.slot)), names[1..], now, memoryOk)
  }

  /** Magic, version, and the same CIDR string: how long the header is, if it is acceptable. */
  function HeaderLength(cidr: seq<Byte>, file: seq<Byte>): (r: Option<nat>)
    ensures r.Some? ==> 14 <= r.value <= |file|
  {
    if |file| < 14 || FromLittle(file[..4]) != MAGIC || FromLittle(file[4..8]) != VERSION then None
    else
      var cidrLen := FromLittle(file[12..14]);
      if cidrLen >= CIDR_MAX || |file| < 14 + cidrLen || CStr(file[14..14 + cidrLen]) != cidr then None
      else Some(14 + cidrLen)
  }

  function LoadFile(cfg: Config, cidr: seq<Byte>, l: Loaded, file: seq<Byte>, now: nat, memoryOk: nat -> bool): (r: Loaded)
    requires |l.pool| == cfg.size
    ensures |r.pool| == cfg.size
  {
    var h := HeaderLength(cidr, file);
    if h.None? then l
    else RestoreAll(cfg, l, Parse(cfg, file, h.value, FromLittle(file[8..12])), now, memoryOk)
  }

  // ---------- the source's code ----------

  lemma {:induction false} RecordsStep(cfg: Config, p: Pool, now: nat, s: nat, out: seq<Byte>)
    requires Sound(cfg, p) && s < |p|
    ensures out + Records(cfg, p, now, s) == out + Record(cfg, p, now, s) + Records(cfg, p, now, s + 1)
  {}

  /** The entry loop of fakedns_save. */
  method SaveRecords(cfg: Config, pool: array<Slot>, now: nat) returns (out: seq<Byte>, count: nat)
    requires Sound(cfg, pool[..])
    ensures out == Records(cfg, pool[..], now, 0) && count == KeptCount(pool[..], now, 0)
  {
    out, count := [], 0;
    ghost var p := pool[..];
    for i := 0 to pool.Length
      invariant out + Records(cfg, p, now, i) == Records(cfg, p, now, 0)
      invariant count + KeptCount(p, now, i) == KeptCount(p, now, 0)
    {
      RecordsStep(cfg, p, now, i, out);
      var entry := pool[i];
      if entry.Entry? && !(entry.expire <= now % TWO32) {
        out := out + Encoded(cfg.netHost + i, CStr(entry.domain));
        count := count + 1;
      } else {
        assert out + Record(cfg, p, now, i) == out;
      }
    }
  }

  lemma {:induction false} PatchCount(cidr: seq<Byte>, count: nat, tail: seq<Byte>)
    requires count < TWO32 && |cidr| < CIDR_MAX
    ensures var out := Header(cidr, 0) + tail;
            out[..8] + Little(count, 4) + out[12..] == Header(cidr, count) + tail
  {}

  /** fakedns_save: the header is written with count 0 and patched afterwards. */
  method Save(dns: FakeDns, cidr: seq<Byte>, now: nat) returns (file: Option<seq<Byte>>)
    requires Sound(dns.cfg, dns.pool[..]) && |cidr| < CIDR_MAX
    ensures dns.used == 0 ==> file.None?
    ensures dns.used > 0 ==> file == Some(File(dns.cfg, cidr, dns.pool[..], now))
  {
    if dns.used == 0 {
      return None;
    }
    var tail, count := SaveRecords(dns.cfg, dns.pool, now);
    var out := Header(cidr, 0) + tail;
    PatchCount(cidr, count, tail);
    return Some(out[..8] + Little(count, 4) + out[12..]);
  }

  method RestoreSlot(dns: FakeDns, s: nat, domain: Name, now: nat, memoryOk: bool)
    requires dns.Valid() && s < dns.pool.Length
    modifies dns, dns.pool
    ensures Loaded(dns.pool[..], dns.used) == Restore(Loaded(old(dns.pool[..]), old(dns.used)), s, domain, now, memoryOk)
  {
    var entry := dns.pool[s];
    if entry.Empty? {
      if !memoryOk {
        return;
      }
      dns.pool[s] := Entry(domain, Refreshed(now), 1);
      dns.used := dns.used + 1;
    } else {
      dns.pool[s] := Entry(domain, Refreshed(now), entry.version);
    }
  }

  lemma {:induction false} RestoreFirst(cfg: Config, l: Loaded, first: Named, names: seq<Named>, now: nat, memoryOk: nat -> bool)
    requires |l.pool| == cfg.size && InRange(cfg, [first] + names) && InRange(cfg, names)
    ensures RestoreAll(cfg, l, [first] + names, now, memoryOk) ==
            RestoreAll(cfg, Restore(l, first.slot, first.domain, now, memoryOk(first.slot)), names, now, memoryOk)
  {
    assert ([first] + names)[1..] == names;
  }

  /** The record loop of fakedns_load. */
  method LoadLoop(dns: FakeDns, file: seq<Byte>, start: nat, count: nat, now: nat, memoryOk: nat -> bool)
    requires dns.Valid()
    modifies dns, dns.pool
    ensures Loaded(dns.pool[..], dns.used) ==
            RestoreAll(dns.cfg, Loaded(old(dns.pool[..]), old(dns.used)), Parse(dns.cfg, file, start, count), now, memoryOk)
  {
    var pos := start;
    ghost var result := RestoreAll(dns.cfg, Loaded(dns.pool[..], dns.used), Parse(dns.cfg, file, start, count), now, memoryOk);
    for i := 0 to count
      invariant RestoreAll(dns.cfg, Loaded(dns.pool[..], dns.used), Parse(dns.cfg, file, pos, count - i), now, memoryOk) == result
    {
      match ReadRecord(dns.cfg, file, pos)
      case Cut =>
        break;
      case Skip(next) =>
        pos := next;
      case Take(s, domain, next) =>
        RestoreFirst(dns.cfg, Loaded(dns.pool[..], dns.used), Named(s, domain), Parse(dns.cfg, file, next, count - i - 1), now, memoryOk);
        RestoreSlot(dns, s, domain, now, memoryOk(s));
        pos := next;
    }
  }

  /** fakedns_load */
  method Load(dns: FakeDns, cidr: seq<Byte>, file: seq<Byte>, now: nat, memoryOk: nat -> bool)
    requires dns.Valid()
    modifies dns, dns.pool
    ensures Loaded(dns.pool[..], dns.used) ==
            LoadFile(dns.cfg, cidr, Loaded(old(dns.pool[..]), old(dns.used)), file, now, memoryOk)
  {
    var h := HeaderLength(cidr, file);
    if h.Some? {
      LoadLoop(dns, file, h.value, FromLittle(file[8..12]), now, memoryOk);
    }
  }

  // ---------- what a load restores ----------

  /** The entries of the first `n` slots that were kept, with lifetimes restarted at load time. */
  function Restored(p: Pool, now: nat, later: nat, n: nat): (q: Pool)
    ensures |q| == |p|
    ensures forall s :: 0 <= s < |p| ==> q[s] == RestoredSlot(p[s], now, later, s < n)
  {
    seq(|p|, s requires 0 <= s < |p| => RestoredSlot(p[s], now, later, s < n))
  }

  function RestoredSlot(e: Slot, now: nat, later: nat, reached: bool): Slot {
    if reached && Kept(e, now) then Entry(CStr(e.domain), Refreshed(later), 1) else Empty
  }

  lemma {:induction false} EncodedIsRead(cfg: Config, s: nat, d: Name, file: seq<Byte>, pos: nat, tail: seq<Byte>)
    requires s < cfg.size && cfg.netHost + cfg.size <= TWO32 && |d| < MAX_DOMAIN_LEN
    requires pos <= |file| && file[pos..] == Encoded(cfg.netHost + s, d) + tail
    ensures pos + 6 + |d| <= |file| && file[pos + 6 + |d|..] == tail
    ensures ReadRecord(cfg, file, pos) == Take(s, d, pos + 6 + |d|)
  {
    var a, b := Big(cfg.netHost + s, 4), Little(|d|, 2);
    NumberRoundTrips(cfg.netHost + s, |d|);
    assert a + b + d + tail == a + (b + (d + tail));
    Piece(file, pos, a, b + (d + tail));
    Piece(file, pos + 4, b, d + tail);
    Piece(file, pos + 6, d, tail);
  }

  /** The kept entries from slot `s` on. */
  function KeptNames(p: Pool, now: nat, s: nat): seq<Named>
    requires s <= |p|
    decreases |p| - s
  {
    if s == |p| then []
    else (if Kept(p[s], now) then [Named(s, CStr(p[s].domain))] else []) + KeptNames(p, now, s + 1)
  }

  /** The rest of the file is the records from slot `s` on. */
  ghost predicate At(cfg: Config, p: Pool, now: nat, s: nat, file: seq<Byte>, pos: nat)
    requires Sound(cfg, p) && s <= |p|
  {
    pos <= |file| && file[pos..] == Records(cfg, p, now, s)
  }

  /** Where the record of slot `s` starts, or would. */
  function Offset(p: Pool, now: nat, base: nat, s: nat): (pos: nat)
    requires s <= |p|
  {
    if s == 0 then base
    else Offset(p, now, base, s - 1) + if Kept(p[s - 1], now) then 6 + |CStr(p[s - 1].domain)| else 0
  }

  /** At a kept slot's offset the loop reads that slot and moves on to the next offset. */
  ghost predicate ReadsBackAt(cfg: Config, p: Pool, now: nat, file: seq<Byte>, base: nat, s: nat)
    requires s < |p|
  {
    Kept(p[s], now) ==> ReadRecord(cfg, file, Offset(p, now, base, s)) == Take(s, CStr(p[s].domain), Offset(p, now, base, s + 1))
  }

  ghost predicate ReadsBack(cfg: Config, p: Pool, now: nat, file: seq<Byte>, base: nat) {
    forall s :: 0 <= s < |p| ==> ReadsBackAt(cfg, p, now, file, base, s)
  }

  lemma {:induction false} OffsetsAreAt(cfg: Config, p: Pool, now: nat, file: seq<Byte>, base: nat, s: nat)
    requires Sound(cfg, p) && s <= |p| && At(cfg, p, now, 0, file, base)
    ensures At(cfg, p, now, s, file, Offset(p, now, base, s))
  {
    hide At, Sound;
    if s > 0 {
      OffsetsAreAt(cfg, p, now, file, base, s - 1);
      NextIsAt(cfg, p, now, s - 1, file, Offset(p, now, base, s - 1));
    }
  }

  lemma {:induction false} NextIsAt(cfg: Config, p: Pool, now: nat, s: nat, file: seq<Byte>, pos: nat)
    requires Sound(cfg, p) && s < |p| && At(cfg, p, now, s, file, pos)
    ensures At(cfg, p, now, s + 1, file, pos + if Kept(p[s], now) then 6 + |CStr(p[s].domain)| else 0)
    ensures Kept(p[s], now) ==>
      ReadRecord(cfg, file, pos) == Take(s, CStr(p[s].domain), pos + 6 + |CStr(p[s].domain)|)
  {
    hide Encoded, CStr, ReadRecord;
    if Kept(p[s], now) {
      EncodedIsRead(cfg, s, CStr(p[s].domain), file, pos, Records(cfg, p, now, s + 1));
    } else {
      assert Records(cfg, p, now, s) == Records(cfg, p, now, s + 1);
    }
  }

  lemma {:induction false} AllReadBack(cfg: Config, p: Pool, now: nat, file: seq<Byte>, base: nat)
    requires Sound(cfg, p) && At(cfg, p, now, 0, file, base)
    ensures ReadsBack(cfg, p, now, file, base)
  {
    forall s | 0 <= s < |p| ensures ReadsBackAt(cfg, p, now, file, base, s)
    {
      OffsetsAreAt(cfg, p, now, file, base, s);
      NextIsAt(cfg, p, now, s, file, Offset(p, now, base, s));
    }
  }

  lemma {:induction false} NameIsParsed(cfg: Config, p: Pool, now: nat, file: seq<Byte>, base: nat, s: nat)
    requires s < |p| && ReadsBackAt(cfg, p, now, file, base, s) && Kept(p[s], now)
    ensures var n := KeptCount(p, now, s);
            n == 1 + KeptCount(p, now, s + 1) &&
            Parse(cfg, file, Offset(p, now, base, s), n) ==
            [Named(s, CStr(p[s].domain))] + Parse(cfg, file, Offset(p, now, base, s + 1), n - 1)
  {}

  lemma {:induction false} NameIsKept(p: Pool, now: nat, s: nat)
    requires s < |p|
    ensures KeptNames(p, now, s) ==
            if Kept(p[s], now) then [Named(s, CStr(p[s].domain))] + KeptNames(p, now, s + 1) else KeptNames(p, now, s + 1)
  {}

  /** The loop reads back what was written. */
  lemma {:induction false} RecordsAreParsed(cfg: Config, p: Pool, now: nat, file: seq<Byte>, base: nat, s: nat)
    requires s <= |p| && ReadsBack(cfg, p, now, file, base)
    ensures Parse(cfg, file, Offset(p, now, base, s), KeptCount(p, now, s)) == KeptNames(p, now, s)
    decreases |p| - s
  {
    NoneIsParsed(cfg, p, now, file, Offset(p, now, base, |p|));
    hide Parse, KeptNames, KeptCount, Offset, ReadsBackAt;
    if s < |p| {
      NameIsKept(p, now, s);
      RecordsAreParsed(cfg, p, now, file, base, s + 1);
      if Kept(p[s], now) {
        assert ReadsBackAt(cfg, p, now, file, base, s);
        NameIsParsed(cfg, p, now, file, base, s);
      } else {
        NotKeptIsPassed(p, now, base, s);
      }
    }
  }

  lemma {:induction false} NoneIsParsed(cfg: Config, p: Pool, now: nat, file: seq<Byte>, pos: nat)
    ensures Parse(cfg, file, pos, KeptCount(p, now, |p|)) == KeptNames(p, now, |p|)
  {}

  lemma {:induction false} NotKeptIsPassed(p: Pool, now: nat, base: nat, s: nat)
    requires s < |p| && !Kept(p[s], now)
    ensures Offset(p, now, base, s + 1) == Offset(p, now, base, s) && KeptCount(p, now, s) == KeptCount(p, now, s + 1)
  {}

  lemma {:induction false} KeptInRange(cfg: Config, p: Pool, now: nat, s: nat)
    requires Sound(cfg, p) && s <= |p|
    ensures InRange(cfg, KeptNames(p, now, s))
    decreases |p| - s
  {
    if s < |p| { KeptInRange(cfg, p, now, s + 1); }
  }

  lemma {:induction false} RestoredEntries(cfg: Config, p: Pool, now: nat, later: nat, s: nat, l: Loaded, memoryOk: nat -> bool)
    requires s <= |p| == |l.pool| == cfg.size && l.pool == Restored(p, now, later, s) && InRange(cfg, KeptNames(p, now, s))
    requires forall i :: memoryOk(i)
    ensures RestoreAll(cfg, l, KeptNames(p, now, s), later, memoryOk) ==
            Loaded(Restored(p, now, later, |p|), l.used + KeptCount(p, now, s))
    decreases |p| - s
  {
    if s < |p| {
      var names := KeptNames(p, now, s + 1);
      if Kept(p[s], now) {
        assert KeptNames(p, now, s)[1..] == names;
        var l' := Restore(l, s, CStr(p[s].domain), later, true);
        assert l'.pool == Restored(p, now, later, s + 1);
        RestoredEntries(cfg, p, now, later, s + 1, l', memoryOk);
      } else {
        assert KeptNames(p, now, s) == names;
        assert l.pool == Restored(p, now, later, s + 1);
        RestoredEntries(cfg, p, now, later, s + 1, l, memoryOk);
      }
    }
  }

  lemma {:induction false} HeaderPieces(a: seq<Byte>, b: seq<Byte>, c: seq<Byte>, d: seq<Byte>, e: seq<Byte>, tail: seq<Byte>)
    requires |a| == |b| == |c| == 4 && |d| == 2
    ensures var file := a + b + c + d + e + tail;
            file[..4] == a && file[4..8] == b && file[8..12] == c && file[12..14] == d &&
            file[14..14 + |e|] == e && file[14 + |e|..] == tail
  {
    var file := a + b + c + d + e + tail;
    assert file == a + (b + (c + (d + (e + tail))));
    Piece(file, 0, a, b + (c + (d + (e + tail))));
    Piece(file, 4, b, c + (d + (e + tail)));
    Piece(file, 8, c, d + (e + tail));
    Piece(file, 12, d, e + tail);
    Piece(file, 14, e, tail);
  }

  lemma {:induction false} HeaderIsRead(cidr: seq<Byte>, count: nat, tail: seq<Byte>)
    requires count < TWO32 && |cidr| < CIDR_MAX && NulFree(cidr)
    ensures var file := Header(cidr, count) + tail;
            HeaderLength(cidr, file) == Some(14 + |cidr|) && FromLittle(file[8..12]) == count && file[14 + |cidr|..] == tail
  {
    HeaderPieces(Little(MAGIC, 4), Little(VERSION, 4), Little(count, 4), Little(|cidr|, 2), cidr, tail);
    NumberRoundTrips(MAGIC, |cidr|);
    NumberRoundTrips(VERSION, |cidr|);
    NumberRoundTrips(count, |cidr|);
    CStrOfNulFree(cidr);
  }

  /** A snapshot loaded into a fresh pool of the same block gives back, slot by slot, exactly the
      entries that were kept, and counts them. */
  lemma {:induction false} RoundTrip(cfg: Config, cidr: seq<Byte>, p: Pool, now: nat, later: nat, memoryOk: nat -> bool)
    requires Sound(cfg, p) && |cidr| < CIDR_MAX && NulFree(cidr) && forall i :: memoryOk(i)
    ensures LoadFile(cfg, cidr, Loaded(FreshPool(cfg), 0), File(cfg, cidr, p, now), later, memoryOk) ==
            Loaded(Restored(p, now, later, |p|), Occupied(Restored(p, now, later, |p|)))
  {
    var file := File(cfg, cidr, p, now);
    HeaderIsRead(cidr, KeptCount(p, now, 0), Records(cfg, p, now, 0));
    assert FreshPool(cfg) == Restored(p, now, later, 0);
    AllReadBack(cfg, p, now, file, 14 + |cidr|);
    RecordsAreParsed(cfg, p, now, file, 14 + |cidr|, 0);
    KeptInRange(cfg, p, now, 0);
    RestoredEntries(cfg, p, now, later, 0, Loaded(FreshPool(cfg), 0), memoryOk);
    RestoredCount(p, now, later);
  }

  lemma {:induction false} RestoredCount(p: Pool, now: nat, later: nat)
    ensures Occupied(Restored(p, now, later, |p|)) == KeptCount(p, now, 0)
    decreases |p|
  {
    if p != [] {
      var q := p[1..];
      assert Restored(p, now, later, |p|)[1..] == Restored(q, now, later, |q|);
      RestoredCount(q, now, later);
      KeptCountTail(p, now, 1);
    }
  }

  lemma {:induction false} KeptCountTail(p: Pool, now: nat, s: nat)
    requires 1 <= s <= |p|
    ensures KeptCount(p, now, s) == KeptCount(p[1..], now, s - 1)
    decreases |p| - s
  {
    if s < |p| { KeptCountTail(p, now, s + 1); }
  }

  /** Clock and expiry time are on the same side of a wrap, and not the same second. */
  predicate SameSide(e: Slot, now: nat)
    requires e.Entry?
  {
    -TWO31 <= e.expire - now % TWO32 < TWO31 && e.expire != now % TWO32
  }

  /** The test at save time agrees with the expiry test of a lookup exactly while the expiry time
      and the clock are on the same side of a wrap, and the entry does not expire this second. */
  lemma {:induction false} KeptVersusExpired(e: Slot, now: nat)
    requires e.Entry? && e.expire < TWO32
    ensures (Kept(e, now) <==> !Expired(e, now)) <==> SameSide(e, now)
  {
    SignedModulo(e.expire, now);
  }

  /** An entry refreshed in the last second before the wrap has a day left and is skipped. */
  lemma {:induction false} SkippedBeforeWrap(d: Name)
    ensures var now := TWO32 - 1;
            var e := Entry(d, Refreshed(now), 1);
            Signed(e.expire, now) == ENTRY_LIFETIME && !Expired(e, now) && !Kept(e, now)
  {
    RefreshedLeft(TWO32 - 1);
  }

  /** Saving and loading gives back exactly the unexpired entries exactly when each entry is on the
      clock's side of a wrap and none expires in the second of saving. */
  lemma {:induction false} UnexpiredRestoredExactly(p: Pool, now: nat, later: nat)
    requires forall s :: 0 <= s < |p| && p[s].Entry? ==> p[s].expire < TWO32
    ensures (forall s :: 0 <= s < |p| && p[s].Entry? ==> SameSide(p[s], now)) <==>
            forall s :: 0 <= s < |p| ==>
              (Restored(p, now, later, |p|)[s].Entry? <==> p[s].Entry? && !Expired(p[s], now))
  {
    var q := Restored(p, now, later, |p|);
    forall s | 0 <= s < |p| && p[s].Entry?
      ensures SameSide(p[s], now) <==> (q[s].Entry? <==> !Expired(p[s], now))
    {
      KeptVersusExpired(p[s], now);
    }
  }

  lemma {:induction false} SignedModulo(a: nat, now: nat)
    ensures Signed(a, now) == Signed(a, now % TWO32)
  {
    var q, r := now / TWO32, now % TWO32;
    assert now == TWO32 * q + r;
    assert (a - now) == (a - r) - TWO32 * q;
  }

  /** Addresses of a restored pool resolve as they did before, and the others do not resolve. */
  lemma {:induction false} RestoredResolves(p: Pool, now: nat, later: nat, s: nat)
    requires s < |p|
    ensures Resolve(Restored(p, now, later, |p|), s) == if Kept(p[s], now) then Resolve(p, s) else None
  {
    if p[s].Entry? { CStrTwice(p[s].domain); }
  }

  lemma {:induction false} CStrTwice(d: Name)
    ensures CStr(CStr(d)) == CStr(d) && NulFree(CStr(d))
  {
    if d != [] && d[0] != 0 { CStrTwice(d[1..]); }
  }

  // ---------- any bytes at all ----------

  /** What a load keeps of a pool, whatever it reads. */
  ghost predicate Grown(before: Loaded, after: Loaded) {
    |after.pool| == |before.pool| &&
    after.used - Occupied(after.pool) == before.used - Occupied(before.pool) &&
    forall s :: 0 <= s < |before.pool| && before.pool[s].Entry? ==>
      after.pool[s].Entry? && after.pool[s].version == before.pool[s].version
  }

  lemma {:induction false} RestoreGrows(l: Loaded, s: nat, domain: Name, now: nat, memoryOk: bool)
    requires s < |l.pool| && |domain| < MAX_DOMAIN_LEN && Short(l.pool)
    ensures var r := Restore(l, s, domain, now, memoryOk); Grown(l, r) && Short(r.pool)
  {
    OccupiedUpdate(l.pool, s, Entry(domain, Refreshed(now), 1));
    OccupiedUpdate(l.pool, s, Entry(domain, Refreshed(now), if l.pool[s].Entry? then l.pool[s].version else 1));
  }

  lemma {:induction false} RestoreAllGrows(cfg: Config, l: Loaded, names: seq<Named>, now: nat, memoryOk: nat -> bool)
    requires |l.pool| == cfg.size && Short(l.pool) && InRange(cfg, names)
    ensures var r := RestoreAll(cfg, l, names, now, memoryOk); Grown(l, r) && Short(r.pool)
    decreases |names|
  {
    if names != [] {
      var first := names[0];
      RestoreGrows(l, first.slot, first.domain, now, memoryOk(first.slot));
      RestoreAllGrows(cfg, Restore(l, first.slot, first.domain, now, memoryOk(first.slot)), names[1..], now, memoryOk);
    }
  }

  /** Whatever bytes are loaded into whatever pool, the counter stays the number of slots in use,
      no stored name reaches the limit, and nothing is emptied. */
  lemma {:induction false} LoadIsSafe(cfg: Config, cidr: seq<Byte>, p: Pool, file: seq<Byte>, now: nat, memoryOk: nat -> bool)
    requires |p| == cfg.size && Short(p)
    ensures var r := LoadFile(cfg, cidr, Loaded(p, Occupied(p)), file, now, memoryOk);
            r.used == Occupied(r.pool) && Short(r.pool) && forall s :: 0 <= s < |p| && p[s].Entry? ==> r.pool[s].Entry?
  {
    var h := HeaderLength(cidr, file);
    if h.Some? {
      RestoreAllGrows(cfg, Loaded(p, Occupied(p)), Parse(cfg, file, h.value, FromLittle(file[8..12])), now, memoryOk);
    }
  }

  // ---------- what a load does to the probe chains ----------

  /** Name `j` is kept, but before its slot its chain passes one that is not. */
  ghost predicate SkippedBefore(cfg: Config, p: Pool, now: nat, j: nat)
    requires 0 < cfg.size == |p|
  {
    j < |p| && Kept(p[j], now) && exists i :: 0 <= i < cfg.MaxProbes() && Probe(cfg, p[j].domain, i) == j && GapBefore(cfg, p, now, j, i)
  }

  ghost predicate GapBefore(cfg: Config, p: Pool, now: nat, j: nat, i: nat)
    requires 0 < cfg.size == |p| && j < |p| && p[j].Entry?
  {
    exists h :: 0 <= h < i && !Kept(p[Probe(cfg, p[j].domain, h)], now)
  }

  lemma {:induction false} RestoredNames(cfg: Config, p: Pool, now: nat, later: nat)
    requires Findable(cfg, p, ValidNames()) && Unique(p)
    ensures var q := Restored(p, now, later, |p|);
            Unique(q) && StoredFrom(q, ValidNames()) &&
            forall j :: 0 <= j < |q| && q[j].Entry? ==> Kept(p[j], now) && q[j].domain == p[j].domain
  {
    var q := Restored(p, now, later, |p|);
    forall j | 0 <= j < |q| && q[j].Entry? ensures q[j].domain == p[j].domain {
      assert p[j].domain in ValidNames();
      CStrOfNulFree(p[j].domain);
    }
    forall a, b | 0 <= a < |q| && 0 <= b < |q| && SameDomain(q[a], q[b]) ensures a == b {
      assert SameDomain(p[a], p[b]);
    }
  }

  lemma {:induction false} RestoredOnChain(cfg: Config, p: Pool, now: nat, later: nat, j: nat)
    requires cfg.Valid() && Findable(cfg, p, ValidNames()) && j < |p| && Kept(p[j], now)
    ensures OnChain(cfg, Restored(p, now, later, |p|), p[j].domain, j) <==> !SkippedBefore(cfg, p, now, j)
  {
    var q, d := Restored(p, now, later, |p|), p[j].domain;
    if !SkippedBefore(cfg, p, now, j) {
      var i :| 0 <= i < cfg.MaxProbes() && Probe(cfg, d, i) == j && NoHoleBefore(cfg, p, d, i);
      assert !GapBefore(cfg, p, now, j, i);
      assert NoHoleBefore(cfg, q, d, i);
    } else {
      var k :| 0 <= k < cfg.MaxProbes() && Probe(cfg, d, k) == j && GapBefore(cfg, p, now, j, k);
      forall i | 0 <= i < cfg.MaxProbes() && Probe(cfg, d, i) == j ensures !NoHoleBefore(cfg, q, d, i) {
        if i < k { ProbesDistinct(cfg, d, i, k); }
        if k < i { ProbesDistinct(cfg, d, k, i); }
      }
    }
  }

  /** After loading, no run of lookups gives a name two addresses exactly when no kept name's chain
      passed a skipped entry before the name's slot, which can be checked when saving. */
  lemma {:induction false} SafeAfterLoadExactly(cfg: Config, p: Pool, now: nat, later: nat)
    requires cfg.Valid() && Findable(cfg, p, ValidNames()) && Unique(p)
    ensures var q := Restored(p, now, later, |p|);
            (forall j :: 0 <= j < |p| ==> !SkippedBefore(cfg, p, now, j)) <==>
            forall queries: seq<Query> :: Asked(queries, ValidNames()) ==> StaysUnique(cfg, q, Occupied(q), queries)
  {
    var q := Restored(p, now, later, |p|);
    RestoredNames(cfg, p, now, later);
    ValidNamesSeparable();
    RunsUniqueExactly(cfg, q, ValidNames(), Occupied(q));
    forall j | 0 <= j < |p| && Kept(p[j], now)
      ensures OnChain(cfg, q, q[j].domain, j) <==> !SkippedBefore(cfg, p, now, j)
    {
      assert q[j].Entry?;
      RestoredOnChain(cfg, p, now, later, j);
    }
  }

  /** In particular when nothing was skipped. */
  lemma {:induction false} FullSnapshotKeepsChains(cfg: Config, p: Pool, now: nat, later: nat, queries: seq<Query>)
    requires cfg.Valid() && Findable(cfg, p, ValidNames()) && Unique(p) && Asked(queries, ValidNames())
    requires forall s :: 0 <= s < |p| && p[s].Entry? ==> Kept(p[s], now)
    ensures var q := Restored(p, now, later, |p|); StaysUnique(cfg, q, Occupied(q), queries)
  {
    forall j | 0 <= j < |p| ensures !SkippedBefore(cfg, p, now, j) {
      if Kept(p[j], now) {
        assert OnChain(cfg, p, p[j].domain, j);
        var i :| 0 <= i < cfg.MaxProbes() && Probe(cfg, p[j].domain, i) == j && NoHoleBefore(cfg, p, p[j].domain, i);
        forall k | 0 <= k < cfg.MaxProbes() && Probe(cfg, p[j].domain, k) == j ensures !GapBefore(cfg, p, now, j, k) {
          if i < k { ProbesDistinct(cfg, p[j].domain, i, k); }
          if k < i { ProbesDistinct(cfg, p[j].domain, k, i); }
        }
      }
    }
    SafeAfterLoadExactly(cfg, p, now, later);
  }

  /** Skipping expired entries leaves holes: a name that had probed past one is no longer found,
      and its next lookup gives it a second address. */
  lemma {:induction false} SkippedEntryBreaksUniqueness() returns (cfg: Config, p: Pool, now: nat, d: Name)
    ensures cfg.Valid() && Findable(cfg, p, ValidNames()) && Unique(p) && Sound(cfg, p) && ValidName(d)
    ensures var q := Restored(p, now, now, |p|); Unique(q) && !Unique(Lookup(cfg, q, 1, d, now, true).pool)
  {
    var x: Name, y: Name := [97], [98];
    d, now := y, 100;
    cfg := Config(0x0A00_0000, 256, (_: Name) => 0);
    assert Power(8) == 256;
    var fresh0 := FreshPool(cfg);
    var first, second := Entry(x, 50, 1), Entry(y, 200, 1);
    p := fresh0[0 := first][1 := second];
    assert Probe(cfg, y, 0) == 0 && Probe(cfg, y, 1) == 1 && Probe(cfg, x, 0) == 0;
    assert NoHoleBefore(cfg, p, x, 0) && NoHoleBefore(cfg, p, y, 1);
    assert OnChain(cfg, p, x, 0) && OnChain(cfg, p, y, 1);
    CStrOfNulFree(x);
    CStrOfNulFree(y);
    var q := Restored(p, now, now, |p|);
    assert q[0].Empty? && q[1].Entry? && q[1].domain == y;
    assert FindSlot(cfg, q, y, now) == Hole(0, None);
    var r := Lookup(cfg, q, 1, y, now, true).pool;
    assert SameDomain(r[0], r[1]);
  }
}
