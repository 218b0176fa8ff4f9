/** Replies from a server to UDP clients (src/udp_proxy.c): each goes out of a socket bound to the
    address it comes from, kept in a table of its own.  The replies of a batch are queued first and
    sent afterwards; sockets evicted meanwhile are closed only after that. */
module UdpReplies {
  import opened LinkedLists
  import opened Lru
  import opened Options
  import opened Sequences
  import opened UdpFlush

  const UDP_BATCH_SIZE := 16

  // ---------- the table of sockets ----------

  datatype Entry = Entry(key: int, lastActive: int)

  function Active(entries: map<nat, Entry>): nat -> int {
    (e: nat) => if e in entries then entries[e].lastActive else 0
  }

  /** Entries in use are in the table, or evicted and waiting to be freed. */
  ghost predicate InUse(order: seq<nat>, live: set<nat>, deferred: seq<nat>) {
    Distinct(order) && Distinct(deferred) && (forall e :: e in live <==> e in order || e in deferred) &&
    forall e :: e in order ==> e !in deferred
  }

  lemma {:induction false} InUseCount(order: seq<nat>, live: set<nat>, deferred: seq<nat>)
    requires InUse(order, live, deferred)
    ensures |live| == |order| + |deferred|
  {
    DistinctSize(order);
    DistinctSize(deferred);
    assert Elements(order) + Elements(deferred) == live;
    assert Elements(order) !! Elements(deferred);
  }

  function Deferred(deferred: seq<nat>, victim: Option<nat>): seq<nat> {
    if victim.Some? then deferred + [victim.value] else deferred
  }

  /** As in a hash table, no two entries of the table have the same key. */
  ghost predicate KeysDiffer(order: seq<nat>, entries: map<nat, Entry>) {
    (forall e :: e in order ==> e in entries) &&
    forall e, f :: e in order && f in order && entries[e].key == entries[f].key ==> e == f
  }

  lemma {:induction false} AddedKeys(order: seq<nat>, entries: map<nat, Entry>, e: nat, x: Entry, active: nat -> int, maxsize: nat)
    requires KeysDiffer(order, entries) && Distinct(order) && e !in entries && |order| <= Bound(maxsize)
    requires forall f :: f in order ==> entries[f].key != x.key
    ensures KeysDiffer(AddTo(order, active, e, maxsize).order, entries[e := x])
  {
    StaysWithin(order, active, e, maxsize);
    var r := AddTo(order, active, e, maxsize);
    if r.victim.Some? {
      WithoutMembers(order + [e], r.victim.value);
    }
    assert forall f :: f in r.order ==> f in order || f == e;
  }

  lemma {:induction false} AddedInUse(order: seq<nat>, live: set<nat>, deferred: seq<nat>, e: nat, active: nat -> int, maxsize: nat)
    requires InUse(order, live, deferred) && e !in live && |order| <= Bound(maxsize)
    ensures var r := AddTo(order, active, e, maxsize);
            InUse(r.order, live + {e}, Deferred(deferred, r.victim)) &&
            |r.order| <= Bound(maxsize) && (0 < maxsize ==> |r.order| <= maxsize) && e in r.order
  {
    StaysWithin(order, active, e, maxsize);
    var r := AddTo(order, active, e, maxsize);
    assert e in order + [e];
    if r.victim.Some? {
      WithoutMembers(order + [e], r.victim.value);
      DistinctPush(deferred, r.victim.value);
    }
  }

  // ---------- what a reply makes of the table ----------

  /** A reply that opened: the address it comes from, and whether a socket could be bound to it. */
  datatype Reply = Reply(source: int, bindOk: bool)

  /** The table in the course of a batch, with the entries it has put off, the sockets of the sends
      queued, and which replies those are. */
  datatype Batch = Batch(order: seq<nat>, entries: map<nat, Entry>, deferred: seq<nat>, sources: seq<nat>, queued: seq<nat>)

  datatype Setting = Setting(maxsize: nat, pool: set<nat> -> nat) {
    /** The limit set in main.c. */
    function EntryBlocks(): nat { maxsize + UDP_BATCH_SIZE }

    /** The socket for the address of the reply, and the table with it. */
    function Got(b: Batch, reply: Reply, now: int): (Option<nat>, Batch) {
      match Holder(b.order, b.entries, reply.source)
      case Some(e) => (Some(e), b.(entries := b.entries[e := b.entries[e].(lastActive := now)]))
      case None =>
        if !reply.bindOk || |b.entries.Keys| >= EntryBlocks() then (None, b)
        else
          var e := pool(b.entries.Keys);
          var entries := b.entries[e := Entry(reply.source, now)];
          var r := AddTo(b.order, Active(entries), e, maxsize);
          (Some(e), b.(order := r.order, entries := entries, deferred := Deferred(b.deferred, r.victim)))
    }

    /** After the first `n` replies. */
    function Handled(b: Batch, replies: seq<Reply>, now: int, n: nat): Batch
      requires n <= |replies|
    {
      if n == 0 then b
      else
        var before := Handled(b, replies, now, n - 1);
        var (entry, after) := Got(before, replies[n - 1], now);
        if entry.None? then after
        else after.(sources := after.sources + [entry.value], queued := after.queued + [n - 1])
    }

    lemma {:induction false} HandledOn(b: Batch, replies: seq<Reply>, now: int, n: nat, entry: Option<nat>, after: Batch)
      requires n < |replies| && Got(Handled(b, replies, now, n), replies[n], now) == (entry, after)
      ensures Handled(b, replies, now, n + 1) ==
              if entry.None? then after else after.(sources := after.sources + [entry.value], queued := after.queued + [n])
    {}
  }

  /** The entry of the table with the key. */
  function Holder(order: seq<nat>, entries: map<nat, Entry>, key: int): (r: Option<nat>)
    ensures r.Some? ==> r.value in order && r.value in entries && entries[r.value].key == key
    ensures r.None? ==> forall e :: e in order && e in entries ==> entries[e].key != key
  {
    if order == [] then None
    else if order[0] in entries && entries[order[0]].key == key then Some(order[0])
    else Holder(order[1..], entries, key)
  }

  // ---------- the source's code ----------

  class Replies {
    const setting: Setting
    var order: seq<nat>
    var entries: map<nat, Entry>

    function Now(deferred: seq<nat>, sources: seq<nat>, queued: seq<nat>): Batch
      reads this
    {
      Batch(order, entries, deferred, sources, queued)
    }

    /** Within a batch, with evicted entries not freed yet. */
    ghost predicate Busy(deferred: seq<nat>)
      reads this
    {
      (forall live: set<nat> :: setting.pool(live) !in live) && InUse(order, entries.Keys, deferred) && |order| <= Bound(setting.maxsize) &&
      KeysDiffer(order, entries)
    }

    constructor (setting: Setting)
      requires forall live: set<nat> :: setting.pool(live) !in live
      ensures Busy([]) && this.setting == setting && order == []
    {
      this.setting := setting;
      order, entries := [], map[];
    }

    /** udp_tproxy_entry_find, by way of the hash table. */
    method Find(source: int) returns (found: Option<nat>)
      requires forall e :: e in order ==> e in entries
      ensures found == Holder(order, entries, source)
      ensures found.Some? ==> found.value in order && entries[found.value].key == source
      ensures found.None? ==> forall e :: e in order ==> entries[e].key != source
    {
      assert order[0..] == order;
      for i := 0 to |order|
        invariant Holder(order[i..], entries, source) == Holder(order, entries, source)
      {
        assert order[i] in order && order[i..][1..] == order[i + 1..];
        if entries[order[i]].key == source {
          return Some(order[i]);
        }
      }
      return None;
    }

    /** udp_tproxy_entry_get_or_create.  The victim of an insertion is put off, not freed. */
    method GetOrCreate(source: int, bindOk: bool, now: int, deferred: seq<nat>) returns (r: Option<nat>, deferred': seq<nat>)
      requires Busy(deferred)
      modifies this
      ensures Busy(deferred') && deferred <= deferred' && |deferred'| <= |deferred| + 1
      ensures forall sources, queued ::
        setting.Got(old(Now(deferred, sources, queued)), Reply(source, bindOk), now) == (r, Now(deferred', sources, queued))
      ensures r.Some? ==> r.value in order && r.value in entries && entries[r.value] == Entry(source, now)
      ensures forall e :: e in old(entries) ==> e in entries && entries[e].key == old(entries)[e].key
      ensures forall e :: e in old(order) && old(entries)[e].key == source ==> r == Some(e)
      ensures forall e :: e in old(order) ==> e in order || e in deferred'
      ensures |old(order)| < setting.maxsize ==> old(order) <= order && |order| <= |old(order)| + 1
      ensures |old(order)| <= setting.maxsize && 0 < setting.maxsize ==> |order| <= setting.maxsize
      ensures r.None? ==> !bindOk || |old(order)| + |deferred| >= setting.EntryBlocks()
    {
      var found := Find(source);
      if found.Some? {
        assert entries[found.value := entries[found.value].(lastActive := now)].Keys == entries.Keys;
        entries := entries[found.value := entries[found.value].(lastActive := now)];
        return found, deferred;
      }
      if !bindOk {
        return None, deferred;
      }
      InUseCount(order, entries.Keys, deferred);
      if |entries.Keys| >= setting.EntryBlocks() {
        return None, deferred;
      }
      var e := setting.pool(entries.Keys);
      assert e !in entries.Keys;
      assert entries[e := Entry(source, now)].Keys == entries.Keys + {e};
      ghost var active := Active(entries[e := Entry(source, now)]);
      AddedInUse(order, entries.Keys, deferred, e, active, setting.maxsize);
      AddedKeys(order, entries, e, Entry(source, now), active, setting.maxsize);
      entries := entries[e := Entry(source, now)];
      var added := AddTo(order, Active(entries), e, setting.maxsize);
      order := added.order;
      return Some(e), Deferred(deferred, added.victim);
    }

    /** udp_relay_on_server_reply, for the replies of a batch that opened; `queued` says which of them
        were queued, and `atFlush` which sockets were open when they were sent.  With a limit above
        zero no allocation is refused, so every reply is sent whose socket can be bound, from a socket
        bound to its own address that is still open, and evicted sockets are closed afterwards.  No
        socket is forgotten: those of before are open when the batch is sent, and stay in the table
        unless new ones have driven them out of a full one. */
    method OnServerReply(replies: seq<Reply>, now: int)
      returns (sources: seq<nat>, groups: seq<Group>, ghost queued: seq<nat>, ghost atFlush: map<nat, Entry>)
      requires Busy([]) && |replies| <= UDP_BATCH_SIZE && 0 < setting.maxsize && |order| <= setting.maxsize
      modifies this
      ensures Busy([]) && |order| <= setting.maxsize
      ensures var b := setting.Handled(old(Now([], [], [])), replies, now, |replies|);
              b.order == order && b.entries == atFlush && b.sources == sources && b.queued == queued
      ensures forall e :: e in old(entries) ==> e in atFlush && atFlush[e].key == old(entries)[e].key
      ensures |old(order)| + |replies| <= setting.maxsize ==> old(order) <= order
      ensures Queued(replies, |replies|, sources, queued, atFlush)
      ensures groups == Groups(sources, UpTo(|sources|))
      ensures entries == map e | e in atFlush && e in order :: atFlush[e]
    {
      hide Setting.Got, Setting.Handled, Queued, InUse, KeysDiffer;
      sources, queued := [], [];
      var deferred: seq<nat> := [];
      BatchBegins(old(Now([], [], [])), replies, now, entries);
      for i := 0 to |replies|
        invariant Busy(deferred) && |order| <= setting.maxsize && |deferred| <= i
        invariant Now(deferred, sources, queued) == setting.Handled(old(Now([], [], [])), replies, now, i)
        invariant forall e :: e in old(entries) ==> e in entries && entries[e].key == old(entries)[e].key
        invariant |old(order)| + |replies| <= setting.maxsize ==> old(order) <= order && |order| <= |old(order)| + i
        invariant Queued(replies, i, sources, queued, entries)
      {
        ghost var before := entries;
        var entry;
        entry, deferred := GetOrCreate(replies[i].source, replies[i].bindOk, now, deferred);
        assert Reply(replies[i].source, replies[i].bindOk) == replies[i];
        setting.HandledOn(old(Now([], [], [])), replies, now, i, entry, Now(deferred, sources, queued));
        StillQueued(replies, i, sources, queued, before, entries);
        NextQueued(replies, i, sources, queued, entries, entry);
        if entry.Some? {
          sources, queued := sources + [entry.value], queued + [i];
        }
      }
      groups := Flush(sources);
      atFlush := entries;
      FreeDeferred(deferred);
    }

    /** The evicted entries are closed. */
    method FreeDeferred(deferred: seq<nat>)
      requires Busy(deferred)
      modifies this`entries
      ensures Busy([]) && entries == map e | e in old(entries) && e in order :: old(entries)[e]
    {
      entries := map e | e in entries && e !in deferred :: entries[e];
    }

    lemma {:induction false} BatchBegins(b: Batch, replies: seq<Reply>, now: int, entries: map<nat, Entry>)
      ensures setting.Handled(b, replies, now, 0) == b && Queued(replies, 0, [], [], entries)
    {}
  }

  /** The first `n` replies have been dealt with: those in `queued` go out, in that order, each from
      an open socket bound to its own address, and only unbindable ones are missing. */
  ghost predicate Queued(replies: seq<Reply>, n: nat, sources: seq<nat>, queued: seq<nat>, entries: map<nat, Entry>) {
    n <= |replies| && |sources| == |queued| && Ascends(queued) &&
    (forall k :: 0 <= k < |queued| ==> QueuedAt(replies, n, sources, queued, entries, k)) &&
    forall i :: 0 <= i < n && replies[i].bindOk ==> i in queued
  }

  ghost predicate QueuedAt(replies: seq<Reply>, n: nat, sources: seq<nat>, queued: seq<nat>, entries: map<nat, Entry>, k: nat)
    requires k < |queued| == |sources| && n <= |replies|
  {
    queued[k] < n && sources[k] in entries && entries[sources[k]].key == replies[queued[k]].source
  }

  lemma {:induction false} StillQueued(replies: seq<Reply>, n: nat, sources: seq<nat>, queued: seq<nat>,
                                       before: map<nat, Entry>, after: map<nat, Entry>)
    requires Queued(replies, n, sources, queued, before)
    requires forall e :: e in before ==> e in after && after[e].key == before[e].key
    ensures Queued(replies, n, sources, queued, after)
  {
    forall k | 0 <= k < |queued| ensures QueuedAt(replies, n, sources, queued, after, k) {
      assert QueuedAt(replies, n, sources, queued, before, k);
    }
  }

  lemma {:induction false} NextQueued(replies: seq<Reply>, n: nat, sources: seq<nat>, queued: seq<nat>,
                                      entries: map<nat, Entry>, entry: Option<nat>)
    requires Queued(replies, n, sources, queued, entries) && n < |replies|
    requires if entry.Some? then entry.value in entries && entries[entry.value].key == replies[n].source else !replies[n].bindOk
    ensures if entry.Some? then Queued(replies, n + 1, sources + [entry.value], queued + [n], entries)
            else Queued(replies, n + 1, sources, queued, entries)
  {
    var m := n + 1;
    forall k | 0 <= k < |queued| ensures queued[k] < n && QueuedAt(replies, m, sources, queued, entries, k) {
      assert QueuedAt(replies, n, sources, queued, entries, k);
    }
    if entry.Some? {
      var sources', queued' := sources + [entry.value], queued + [n];
      forall k | 0 <= k < |queued'| ensures QueuedAt(replies, m, sources', queued', entries, k) {
        if k < |queued| { assert QueuedAt(replies, n, sources, queued, entries, k); }
      }
      assert n in queued' && forall i :: i in queued ==> i in queued';
      assert Ascends(queued') && Queued(replies, m, sources', queued', entries);
    } else {
      assert Queued(replies, m, sources, queued, entries);
    }
  }
}
