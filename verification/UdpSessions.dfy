/** The UDP sessions (src/udp_proxy.c): each is reachable from one node, in the full-cone or the
    symmetric table, and the pools their blocks come from (src/main.c) are just large enough.  A
    table is the order of its entries, as its hash table keeps it; a pool is the blocks it has given
    out, of which there can be no more than its limit. */
module UdpSessions {
  import opened LinkedLists
  import opened Lru
  import opened Options
  import opened Sequences

  datatype Kind = Fullcone | Symmetric

  /** A node of one of the two pools. */
  datatype Id = Id(kind: Kind, block: nat)

  datatype Node = Node(key: int, session: nat, lastActive: int)

  datatype Session = Session(fullconeNode: Option<nat>, symmetricNode: Option<nat>)
  {
    /** The node that is set, when exactly one is. */
    function Holder(): Option<Id> {
      if fullconeNode.Some? && symmetricNode.None? then Some(Id(Fullcone, fullconeNode.value))
      else if fullconeNode.None? && symmetricNode.Some? then Some(Id(Symmetric, symmetricNode.value))
      else None
    }
  }

  function HeldBy(id: Id): (s: Session)
    ensures s.Holder() == Some(id)
  {
    if id.kind.Fullcone? then Session(Some(id.block), None) else Session(None, Some(id.block))
  }

  ghost predicate NodeOk(nodes: map<Id, Node>, sessions: map<nat, Session>, id: Id)
    requires id in nodes
  {
    nodes[id].session in sessions && sessions[nodes[id].session].Holder() == Some(id)
  }

  ghost predicate SessionOk(nodes: map<Id, Node>, sessions: map<nat, Session>, s: nat)
    requires s in sessions
  {
    var id := sessions[s].Holder();
    id.Some? && id.value in nodes && nodes[id.value].session == s
  }

  /** Nodes and sessions point at each other, one to one. */
  ghost predicate Paired(nodes: map<Id, Node>, sessions: map<nat, Session>) {
    (forall id :: id in nodes ==> NodeOk(nodes, sessions, id)) &&
    (forall s :: s in sessions ==> SessionOk(nodes, sessions, s)) &&
    |sessions| == |nodes|
  }

  ghost predicate KeysDiffer(nodes: map<Id, Node>) {
    forall a, b :: a in nodes && b in nodes && a.kind == b.kind && nodes[a].key == nodes[b].key ==> a == b
  }

  ghost predicate Tabled(order: seq<nat>, kind: Kind, nodes: map<Id, Node>) {
    Distinct(order) && forall n: nat :: n in order <==> Id(kind, n) in nodes
  }

  lemma {:induction false} PairAdded(nodes: map<Id, Node>, sessions: map<nat, Session>, id: Id, node: Node)
    requires Paired(nodes, sessions) && KeysDiffer(nodes) && id !in nodes && node.session !in sessions
    requires forall m :: m in nodes && m.kind == id.kind ==> nodes[m].key != node.key
    ensures Paired(nodes[id := node], sessions[node.session := HeldBy(id)]) && KeysDiffer(nodes[id := node])
  {
    var nodes', sessions' := nodes[id := node], sessions[node.session := HeldBy(id)];
    forall m | m in nodes' ensures NodeOk(nodes', sessions', m) {
      if m != id { assert NodeOk(nodes, sessions, m); }
    }
    forall s | s in sessions' ensures SessionOk(nodes', sessions', s) {
      if s != node.session { assert SessionOk(nodes, sessions, s); }
    }
  }

  lemma {:induction false} PairRemoved(nodes: map<Id, Node>, sessions: map<nat, Session>, id: Id)
    requires Paired(nodes, sessions) && KeysDiffer(nodes) && id in nodes
    ensures nodes[id].session in sessions
    ensures Paired(nodes - {id}, sessions - {nodes[id].session}) && KeysDiffer(nodes - {id})
    ensures |nodes - {id}| == |nodes| - 1
  {
    assert NodeOk(nodes, sessions, id);
    var gone := nodes[id].session;
    var nodes', sessions' := nodes - {id}, sessions - {gone};
    forall m | m in nodes' ensures NodeOk(nodes', sessions', m) {
      assert NodeOk(nodes, sessions, m);
    }
    forall s | s in sessions' ensures SessionOk(nodes', sessions', s) {
      assert SessionOk(nodes, sessions, s);
    }
    MapMinus(nodes, id);
    MapMinus(sessions, gone);
  }

  lemma {:induction false} MapMinus<K, V>(m: map<K, V>, k: K)
    requires k in m
    ensures |m - {k}| == |m| - 1
  {
    assert (m - {k}).Keys == m.Keys - {k};
    assert |m.Keys| == |m| && |(m - {k}).Keys| == |m - {k}|;
  }

  lemma {:induction false} TabAdded(order: seq<nat>, kind: Kind, nodes: map<Id, Node>, id: Id, node: Node)
    requires Tabled(order, kind, nodes) && id !in nodes
    ensures Tabled(if kind == id.kind then order + [id.block] else order, kind, nodes[id := node])
  {
    if kind == id.kind { DistinctPush(order, id.block); }
  }

  lemma {:induction false} TabRemoved(order: seq<nat>, kind: Kind, nodes: map<Id, Node>, id: Id)
    requires Tabled(order, kind, nodes) && id in nodes
    ensures Tabled(if kind == id.kind then LinkedLists.Without(order, id.block) else order, kind, nodes - {id})
    ensures kind == id.kind ==> |LinkedLists.Without(order, id.block)| == |order| - 1
  {
    if kind == id.kind {
      var k :| 0 <= k < |order| && order[k] == id.block;
      WithoutAt(order, k);
      DistinctCut(order, k);
      WithoutMembers(order, id.block);
    }
  }

  /** The nodes of a pool that are in use. */
  function InUse(nodes: map<Id, Node>, kind: Kind): set<Id> {
    set id | id in nodes && id.kind == kind
  }

  lemma {:induction false} InUseCount(order: seq<nat>, kind: Kind, nodes: map<Id, Node>)
    requires Tabled(order, kind, nodes)
    ensures |InUse(nodes, kind)| == |order|
    decreases |order|
  {
    hide InUse, Tabled, LinkedLists.Without;
    if order == [] {
      NoneInUse(kind, nodes);
    } else {
      var id := Id(kind, order[0]);
      FirstInUse(order, kind, nodes);
      TabRemoved(order, kind, nodes, id);
      WithoutAt(order, 0);
      assert order[..0] + order[1..] == order[1..];
      InUseCount(order[1..], kind, nodes - {id});
      InUseWithout(nodes, kind, id);
    }
  }

  lemma {:induction false} NoneInUse(kind: Kind, nodes: map<Id, Node>)
    requires Tabled([], kind, nodes)
    ensures InUse(nodes, kind) == {}
  {}

  lemma {:induction false} FirstInUse(order: seq<nat>, kind: Kind, nodes: map<Id, Node>)
    requires Tabled(order, kind, nodes) && order != []
    ensures Id(kind, order[0]) in nodes && Distinct(order)
  {
    assert order[0] in order;
  }

  lemma {:induction false} InUseWithout(nodes: map<Id, Node>, kind: Kind, id: Id)
    requires id in nodes && id.kind == kind
    ensures |InUse(nodes, kind)| == |InUse(nodes - {id}, kind)| + 1
  {
    assert InUse(nodes, kind) == InUse(nodes - {id}, kind) + {id};
  }

  lemma {:induction false} AllInUse(nodes: map<Id, Node>)
    ensures |nodes| == |InUse(nodes, Fullcone)| + |InUse(nodes, Symmetric)|
  {
    assert nodes.Keys == InUse(nodes, Fullcone) + InUse(nodes, Symmetric);
    assert |nodes.Keys| == |nodes|;
  }

  function Active(nodes: map<Id, Node>, kind: Kind): nat -> int {
    (n: nat) => if Id(kind, n) in nodes then nodes[Id(kind, n)].lastActive else 0
  }

  // ---------- what each operation makes of the tables ----------

  datatype Tables = Tables(fullcone: seq<nat>, symmetric: seq<nat>, nodes: map<Id, Node>, sessions: map<nat, Session>)
  {
    /** Nodes and sessions are paired, and each node is in the table of its kind. */
    ghost predicate Valid() {
      Paired(nodes, sessions) && KeysDiffer(nodes) && Tabled(fullcone, Fullcone, nodes) && Tabled(symmetric, Symmetric, nodes)
    }

    function Order(kind: Kind): seq<nat> { if kind.Fullcone? then fullcone else symmetric }

    function With(kind: Kind, order: seq<nat>): Tables {
      if kind.Fullcone? then this.(fullcone := order) else this.(symmetric := order)
    }

    /** Without a node and its session. */
    function Closed(id: Id): Tables
      requires id in nodes
    {
      With(id.kind, LinkedLists.Without(Order(id.kind), id.block)).(nodes := nodes - {id}, sessions := sessions - {nodes[id].session})
    }

    function Touched(id: Id, now: int): Tables
      requires id in nodes
    {
      this.(nodes := nodes[id := nodes[id].(lastActive := now)])
    }

    function Adding(id: Id, node: Node, size: nat): Added {
      AddTo(Order(id.kind), Active(nodes[id := node], id.kind), id.block, size)
    }

    /** With a new node and its session, and without those evicted for them. */
    function Registered(id: Id, node: Node, size: nat): Tables {
      var r := Adding(id, node, size);
      With(id.kind, r.order).(nodes := NodesAfter(nodes, id, node, r.victim), sessions := SessionsAfter(nodes, sessions, id, node, r.victim))
    }
  }

  // ---------- the source's code ----------

  /** Which node and session blocks a pool would hand out next: never ones in use. */
  datatype Pools = Pools(session: set<nat> -> nat, node: set<Id> -> nat)
  {
    ghost predicate Valid() {
      (forall live: set<nat> :: session(live) !in live) &&
      forall live: set<Id>, kind :: Id(kind, node(live)) !in live
    }
  }

  class Udp {
    const sizes: Sizes
    const pools: Pools
    var fullcone: seq<nat>
    var symmetric: seq<nat>
    var nodes: map<Id, Node>
    var sessions: map<nat, Session>

    function Now(): Tables
      reads this
    {
      Tables(fullcone, symmetric, nodes, sessions)
    }

    function Order(kind: Kind): seq<nat>
      reads this
    {
      Now().Order(kind)
    }

    function Size(kind: Kind): nat { if kind.Fullcone? then sizes.fullcone else sizes.symmetric }

    ghost predicate Valid()
      reads this
    {
      pools.Valid() && Now().Valid() && |fullcone| <= Bound(sizes.fullcone) && |symmetric| <= Bound(sizes.symmetric)
    }

    /** No table is fuller than it was configured to be. */
    ghost predicate WithinSizes()
      reads this
    {
      |fullcone| <= sizes.fullcone && |symmetric| <= sizes.symmetric
    }

    /** The limits set in main.c: insert first, evict afterwards. */
    function SessionBlocks(): nat { sizes.fullcone + sizes.symmetric + 1 }

    function NodeBlocks(kind: Kind): nat { Size(kind) + 1 }

    constructor (sizes: Sizes, pools: Pools)
      requires pools.Valid()
      ensures Valid() && WithinSizes() && this.sizes == sizes && sessions == map[]
    {
      this.sizes, this.pools := sizes, pools;
      fullcone, symmetric, nodes, sessions := [], [], map[], map[];
    }

    /** What a limit means for the sessions in use. */
    lemma {:induction false} SessionsFit()
      requires Valid()
      ensures |sessions| == |fullcone| + |symmetric|
      ensures WithinSizes() ==> |sessions| < SessionBlocks()
      ensures forall kind :: |InUse(nodes, kind)| == |Order(kind)|
    {
      InUseCount(fullcone, Fullcone, nodes);
      InUseCount(symmetric, Symmetric, nodes);
      AllInUse(nodes);
    }

    method SetOrder(kind: Kind, order: seq<nat>)
      modifies this`fullcone, this`symmetric
      ensures Order(kind) == order
      ensures kind.Fullcone? ==> symmetric == old(symmetric)
      ensures kind.Symmetric? ==> fullcone == old(fullcone)
    {
      if kind.Fullcone? {
        fullcone := order;
      } else {
        symmetric := order;
      }
    }

    /** udp_session_close of an indexed session: its node leaves the table, and both blocks are
        freed. */
    method CloseIndexed(s: nat)
      requires Valid() && s in sessions
      modifies this`fullcone, this`symmetric, this`nodes, this`sessions
      ensures Valid() && sessions == old(sessions) - {s} && nodes == old(nodes - {sessions[s].Holder().value})
      ensures Now() == old(Now().Closed(sessions[s].Holder().value))
      ensures |fullcone| <= |old(fullcone)| && |symmetric| <= |old(symmetric)|
    {
      assert SessionOk(nodes, sessions, s);
      var id := sessions[s].Holder().value;
      ClosedExactly(Now(), id);
      hide Tables.Valid, Session.Holder, LinkedLists.Without;
      SetOrder(id.kind, LinkedLists.Without(Order(id.kind), id.block));
      nodes, sessions := nodes - {id}, sessions - {s};
    }

    /** udp_session_register_fullcone and udp_session_register_symmetric: the new node enters its
        table, and the victim, detached by that, is closed. */
    method Register(id: Id, node: Node)
      requires Valid() && id !in nodes && node.session !in sessions
      requires forall m :: m in nodes && m.kind == id.kind ==> nodes[m].key != node.key
      modifies this`fullcone, this`symmetric, this`nodes, this`sessions
      ensures Valid() && id in nodes && nodes[id] == node && node.session in sessions && sessions[node.session] == HeldBy(id)
      ensures old(WithinSizes()) && 0 < Size(id.kind) ==> WithinSizes()
      ensures |old(Order(id.kind))| < Size(id.kind) ==> forall s :: s in old(sessions) ==> s in sessions
      ensures Now() == old(Now()).Registered(id, node, Size(id.kind))
    {
      OnlyVictimLeaves(Now(), id, node, Size(id.kind));
      hide AddTo, NodesAfter, SessionsAfter, Tables.Valid;
      var r := AddTo(Order(id.kind), Active(nodes[id := node], id.kind), id.block, Size(id.kind));
      SetOrder(id.kind, r.order);
      nodes, sessions := NodesAfter(nodes, id, node, r.victim), SessionsAfter(nodes, sessions, id, node, r.victim);
    }

    /** udp_session_create.  With tables within their sizes no pool ever refuses a block. */
    method Create(kind: Kind, key: int, now: int, connectOk: bool, initOk: bool) returns (r: Option<nat>)
      requires Valid() && forall m :: m in nodes && m.kind == kind ==> nodes[m].key != key
      modifies this`fullcone, this`symmetric, this`nodes, this`sessions
      ensures Valid() && (old(WithinSizes()) && 0 < Size(kind) ==> WithinSizes())
      ensures Makes(old(Now()), kind, key, now, r)
      ensures r.Some? ==> connectOk && initOk && Reaches(kind, key, r.value, now)
      ensures |old(Order(kind))| < Size(kind) ==> forall s :: s in old(sessions) ==> s in sessions
      ensures r.None? ==> !connectOk || !initOk || !old(WithinSizes())
    {
      SessionsFit();
      hide Tables.Valid, Tables.Registered, InUse;
      if !connectOk {
        return None;
      }
      if |sessions| >= SessionBlocks() {
        return None;
      }
      var s := pools.session(sessions.Keys);
      if !initOk {
        return None;
      }
      if |InUse(nodes, kind)| >= NodeBlocks(kind) {
        return None;
      }
      var n := pools.node(nodes.Keys);
      assert s !in sessions.Keys && Id(kind, n) !in nodes.Keys;
      Register(Id(kind, n), Node(key, s, now));
      return Some(s);
    }

    /** What the tables are now is what creating a session makes of `t`: nothing, if it is refused. */
    ghost predicate Makes(t: Tables, kind: Kind, key: int, now: int, r: Option<nat>)
      reads this
    {
      match r
      case None => Now() == t
      case Some(s) =>
        s == pools.session(t.sessions.Keys) &&
        Now() == t.Registered(Id(kind, pools.node(t.nodes.Keys)), Node(key, s, now), Size(kind))
    }

    /** Session `s` is the one for `key`, and was active at `now`. */
    ghost predicate Reaches(kind: Kind, key: int, s: nat, now: int)
      reads this
    {
      s in sessions && var id := sessions[s].Holder();
      id.Some? && id.value.kind == kind && id.value in nodes && nodes[id.value] == Node(key, s, now)
    }

    /** udp_session_lookup, by way of the hash table. */
    method Lookup(kind: Kind, key: int) returns (found: Option<Id>)
      requires Valid()
      ensures found.Some? ==> found.value in nodes && found.value.kind == kind && nodes[found.value].key == key
      ensures found.None? ==> forall m :: m in nodes && m.kind == kind ==> nodes[m].key != key
    {
      var order := Order(kind);
      for i := 0 to |order|
        invariant forall j :: 0 <= j < i ==> Id(kind, order[j]) in nodes && nodes[Id(kind, order[j])].key != key
      {
        assert order[i] in order;
        if nodes[Id(kind, order[i])].key == key {
          return Some(Id(kind, order[i]));
        }
      }
      forall m | m in nodes && m.kind == kind ensures nodes[m].key != key {
        assert m == Id(kind, m.block) && m.block in order;
      }
      return None;
    }

    /** udp_session_get_or_create; `replace` when the selector has a healthy server for the failed
        one of the session, which is then closed before its successor is made. */
    method GetOrCreate(kind: Kind, key: int, now: int, replace: bool, connectOk: bool, initOk: bool) returns (r: Option<nat>)
      requires Valid()
      modifies this`fullcone, this`symmetric, this`nodes, this`sessions
      ensures Valid() && (old(WithinSizes()) && 0 < Size(kind) ==> WithinSizes())
      ensures r.Some? ==> Reaches(kind, key, r.value, now)
      ensures r.None? ==> !connectOk || !initOk || !old(WithinSizes())
      ensures (forall m :: m in old(nodes) && m.kind == kind ==> old(nodes)[m].key != key) ==> Makes(old(Now()), kind, key, now, r)
      ensures forall m :: m in old(nodes) && m.kind == kind && old(nodes)[m].key == key ==>
                if replace then Makes(old(Now()).Closed(m), kind, key, now, r)
                else r == Some(old(nodes)[m].session) && Now() == old(Now()).Touched(m, now)
    {
      var found := Lookup(kind, key);
      if found.Some? {
        var s := nodes[found.value].session;
        assert NodeOk(nodes, sessions, found.value);
        if !replace {
          Touch(found.value, now);
          return Some(s);
        }
        CloseIndexed(s);
      }
      r := Create(kind, key, now, connectOk, initOk);
    }

    /** udp_session_touch */
    method Touch(id: Id, now: int)
      requires Valid() && id in nodes
      modifies this`nodes
      ensures Valid() && nodes == old(nodes)[id := old(nodes)[id].(lastActive := now)]
      ensures Reaches(id.kind, nodes[id].key, nodes[id].session, now)
    {
      assert NodeOk(nodes, sessions, id);
      TouchKeeps(nodes, sessions, id, now);
      nodes := nodes[id := nodes[id].(lastActive := now)];
    }

    /** udp_gc_sweep_fullcone_sessions and udp_gc_sweep_symmetric_sessions: exactly the sessions that
        have been idle for too long are closed. */
    method Sweep(kind: Kind, now: int, timeout: int)
      requires Valid()
      modifies this`fullcone, this`symmetric, this`nodes, this`sessions
      ensures Valid() && (old(WithinSizes()) ==> WithinSizes())
      ensures nodes == map id | id in old(nodes) && !(id.kind == kind && Idle(old(nodes)[id], now, timeout)) :: old(nodes)[id]
    {
      var order := Order(kind);
      ghost var before := nodes;
      assert nodes == Swept(before, kind, [], now, timeout);
      for i := 0 to |order|
        invariant Valid() && (old(WithinSizes()) ==> WithinSizes())
        invariant nodes == Swept(before, kind, order[..i], now, timeout)
      {
        var id := Id(kind, order[i]);
        SweptMore(before, kind, order, i, now, timeout);
        if Idle(nodes[id], now, timeout) {
          assert NodeOk(nodes, sessions, id);
          CloseIndexed(nodes[id].session);
        }
      }
      SweptAll(before, kind, order, now, timeout);
    }
  }

  // ---------- sweeping ----------

  predicate Idle(n: Node, now: int, timeout: int) { now - n.lastActive >= timeout }

  /** The nodes without the idle ones of `kind` among `seen`. */
  function Swept(before: map<Id, Node>, kind: Kind, seen: seq<nat>, now: int, timeout: int): map<Id, Node> {
    map id | id in before && !(id.kind == kind && id.block in seen && Idle(before[id], now, timeout)) :: before[id]
  }

  lemma {:induction false} SweptMore(before: map<Id, Node>, kind: Kind, order: seq<nat>, i: nat, now: int, timeout: int)
    requires Tabled(order, kind, before) && i < |order|
    ensures var id, r := Id(kind, order[i]), Swept(before, kind, order[..i], now, timeout);
            id in r && r[id] == before[id] &&
            Swept(before, kind, order[..i + 1], now, timeout) == if Idle(before[id], now, timeout) then r - {id} else r
  {
    assert order[i] in order && order[i] !in order[..i];
    assert order[..i + 1] == order[..i] + [order[i]];
  }

  lemma {:induction false} SweptAll(before: map<Id, Node>, kind: Kind, order: seq<nat>, now: int, timeout: int)
    requires Tabled(order, kind, before)
    ensures Swept(before, kind, order[..|order|], now, timeout) ==
            map id | id in before && !(id.kind == kind && Idle(before[id], now, timeout)) :: before[id]
  {
    assert order[..|order|] == order;
    forall id | id in before && id.kind == kind ensures id.block in order {
      assert id == Id(kind, id.block);
    }
  }

  // ---------- closing and registering ----------

  /** Closing takes out one node and its session, the key has none any more, and nothing else changes. */
  lemma {:induction false} ClosedExactly(t: Tables, id: Id)
    requires t.Valid() && id in t.nodes
    ensures var u := t.Closed(id);
            u.Valid() && |u.fullcone| <= |t.fullcone| && |u.symmetric| <= |t.symmetric| &&
            t.nodes[id].session in t.sessions && t.nodes[id].session !in u.sessions &&
            (forall m :: m in u.nodes && m.kind == id.kind ==> u.nodes[m].key != t.nodes[id].key) &&
            forall m :: m in t.nodes && m != id ==> Unchanged(t, u, m)
  {
    PairRemoved(t.nodes, t.sessions, id);
    TabRemoved(t.fullcone, Fullcone, t.nodes, id);
    TabRemoved(t.symmetric, Symmetric, t.nodes, id);
    assert NodeOk(t.nodes, t.sessions, id);
    forall m | m in t.nodes && m != id ensures Unchanged(t, t.Closed(id), m) {
      assert NodeOk(t.nodes, t.sessions, m);
    }
  }

  /** Node and session are as they were. */
  ghost predicate Unchanged(t: Tables, u: Tables, m: Id)
    requires m in t.nodes
  {
    var s := t.nodes[m].session;
    m in u.nodes && u.nodes[m] == t.nodes[m] && s in t.sessions && s in u.sessions && u.sessions[s] == t.sessions[s]
  }

  /** Of the sessions there are, a new one drives out none, unless its table is full, and then
      exactly the one that was active longest ago. */
  lemma {:induction false} OnlyVictimLeaves(t: Tables, id: Id, node: Node, size: nat)
    requires t.Valid() && id !in t.nodes && node.session !in t.sessions && |t.Order(id.kind)| <= Bound(size)
    requires forall m :: m in t.nodes && m.kind == id.kind ==> t.nodes[m].key != node.key
    ensures var u, order, victim := t.Registered(id, node, size), t.Order(id.kind), t.Adding(id, node, size).victim;
            u.Valid() && id in u.nodes && u.nodes[id] == node && node.session in u.sessions && u.sessions[node.session] == HeldBy(id) &&
            |u.Order(id.kind)| <= Bound(size) && (0 < size ==> |u.Order(id.kind)| <= size) &&
            (victim.Some? <==> order != [] && |order| >= size) && (victim.None? ==> forall s :: s in t.sessions ==> s in u.sessions) &&
            (forall m :: m in t.nodes && Some(m) != VictimId(id.kind, victim) ==> Unchanged(t, u, m)) &&
            (victim.Some? ==>
              Chosen(order + [id.block], Active(t.nodes[id := node], id.kind), id.block, victim) &&
              Id(id.kind, victim.value) in t.nodes && Id(id.kind, victim.value) !in u.nodes &&
              t.nodes[Id(id.kind, victim.value)].session !in u.sessions)
  {
    var order, other := t.Order(id.kind), t.Order(if id.kind.Fullcone? then Symmetric else Fullcone);
    var r := t.Adding(id, node, size);
    NotListed(order, id.kind, t.nodes, id);
    StaysWithin(order, Active(t.nodes[id := node], id.kind), id.block, size);
    RegisteredTab(order, t.nodes, id, node, size);
    RegisteredOther(other, if id.kind.Fullcone? then Symmetric else Fullcone, t.nodes, id, node, r.victim);
    RegisteredPairs(t.nodes, t.sessions, id, node, r.victim);
    OthersStay(t.nodes, t.sessions, id, node, r.victim);
  }

  lemma {:induction false} NotListed(order: seq<nat>, kind: Kind, nodes: map<Id, Node>, id: Id)
    requires Tabled(order, kind, nodes) && id !in nodes && id.kind == kind
    ensures id.block !in order && Distinct(order)
  {
    assert id == Id(kind, id.block);
  }

  lemma {:induction false} OthersStay(nodes: map<Id, Node>, sessions: map<nat, Session>, id: Id, node: Node, victim: Option<nat>)
    requires Paired(nodes, sessions) && id !in nodes && node.session !in sessions
    requires victim.Some? ==> Id(id.kind, victim.value) in nodes
    ensures var nodes', sessions' := NodesAfter(nodes, id, node, victim), SessionsAfter(nodes, sessions, id, node, victim);
            (forall m :: m in nodes && Some(m) != VictimId(id.kind, victim) ==>
              m in nodes' && nodes'[m] == nodes[m] && nodes[m].session in sessions && nodes[m].session in sessions' &&
              sessions'[nodes[m].session] == sessions[nodes[m].session]) &&
            (victim.Some? ==> Id(id.kind, victim.value) !in nodes' && nodes[Id(id.kind, victim.value)].session !in sessions')
  {
    forall m | m in nodes && Some(m) != VictimId(id.kind, victim)
      ensures nodes[m].session in sessions && nodes[m].session != node.session
      ensures victim.Some? ==> nodes[m].session != nodes[Id(id.kind, victim.value)].session
    {
      assert NodeOk(nodes, sessions, m);
      if victim.Some? { assert NodeOk(nodes, sessions, Id(id.kind, victim.value)); }
    }
    if victim.Some? { assert NodeOk(nodes, sessions, Id(id.kind, victim.value)); }
  }

  function VictimId(kind: Kind, victim: Option<nat>): Option<Id> {
    if victim.Some? then Some(Id(kind, victim.value)) else None
  }


  function NodesAfter(nodes: map<Id, Node>, id: Id, node: Node, victim: Option<nat>): map<Id, Node> {
    if victim.None? then nodes[id := node] else nodes[id := node] - {Id(id.kind, victim.value)}
  }

  /** The victim's session goes with it. */
  function SessionsAfter(nodes: map<Id, Node>, sessions: map<nat, Session>, id: Id, node: Node, victim: Option<nat>): map<nat, Session> {
    var more := sessions[node.session := HeldBy(id)];
    if victim.Some? && Id(id.kind, victim.value) in nodes then more - {nodes[Id(id.kind, victim.value)].session} else more
  }

  lemma {:induction false} RegisteredTab(order: seq<nat>, nodes: map<Id, Node>, id: Id, node: Node, size: nat)
    requires Tabled(order, id.kind, nodes) && id !in nodes && |order| <= Bound(size)
    ensures var r := AddTo(order, Active(nodes[id := node], id.kind), id.block, size);
            Tabled(r.order, id.kind, NodesAfter(nodes, id, node, r.victim)) && |r.order| <= Bound(size) &&
            (0 < size ==> |r.order| <= size) && (r.victim.Some? ==> Id(id.kind, r.victim.value) in nodes)
  {
    StaysWithin(order, Active(nodes[id := node], id.kind), id.block, size);
    TabAdded(order, id.kind, nodes, id, node);
    var r := AddTo(order, Active(nodes[id := node], id.kind), id.block, size);
    if r.victim.Some? {
      TabRemoved(order + [id.block], id.kind, nodes[id := node], Id(id.kind, r.victim.value));
    }
  }

  lemma {:induction false} RegisteredOther(order: seq<nat>, kind: Kind, nodes: map<Id, Node>, id: Id, node: Node, victim: Option<nat>)
    requires Tabled(order, kind, nodes) && kind != id.kind
    ensures Tabled(order, kind, NodesAfter(nodes, id, node, victim))
  {}

  lemma {:induction false} RegisteredPairs(nodes: map<Id, Node>, sessions: map<nat, Session>, id: Id, node: Node, victim: Option<nat>)
    requires Paired(nodes, sessions) && KeysDiffer(nodes) && id !in nodes && node.session !in sessions
    requires forall m :: m in nodes && m.kind == id.kind ==> nodes[m].key != node.key
    requires victim.Some? ==> Id(id.kind, victim.value) in nodes
    ensures Paired(NodesAfter(nodes, id, node, victim), SessionsAfter(nodes, sessions, id, node, victim))
    ensures KeysDiffer(NodesAfter(nodes, id, node, victim))
    ensures node.session in SessionsAfter(nodes, sessions, id, node, victim)
    ensures SessionsAfter(nodes, sessions, id, node, victim)[node.session] == HeldBy(id)
    ensures id in NodesAfter(nodes, id, node, victim) && NodesAfter(nodes, id, node, victim)[id] == node
  {
    PairAdded(nodes, sessions, id, node);
    if victim.Some? {
      var v := Id(id.kind, victim.value);
      assert NodeOk(nodes, sessions, v);
      hide Paired, KeysDiffer;
      PairRemoved(nodes[id := node], sessions[node.session := HeldBy(id)], v);
    }
  }

  lemma {:induction false} TouchKeeps(nodes: map<Id, Node>, sessions: map<nat, Session>, id: Id, now: int)
    requires Paired(nodes, sessions) && KeysDiffer(nodes) && id in nodes
    ensures var r := nodes[id := nodes[id].(lastActive := now)];
            Paired(r, sessions) && KeysDiffer(r) && r.Keys == nodes.Keys
  {
    var r := nodes[id := nodes[id].(lastActive := now)];
    forall m | m in r ensures NodeOk(r, sessions, m) {
      assert NodeOk(nodes, sessions, m);
    }
    forall s | s in sessions ensures SessionOk(r, sessions, s) {
      assert SessionOk(nodes, sessions, s);
    }
    assert r.Keys == nodes.Keys && |r.Keys| == |r|;
  }
}
