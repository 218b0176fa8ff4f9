/** The timer heap of libev (deps/libev/ev.c): a heap of branching factor four in an array that
    starts at index three.  Each slot caches the time of its watcher, and each watcher knows its
    slot.  Watchers are referred to by their number in the table of all watchers. */
module TimerHeap {

  const HEAP0 := 3
  const DHEAP := 4

  /** An ev_timer; `active` is its slot, or 0; `pending` its place in the pending queue, or 0. */
  datatype Watcher = Watcher(active: nat, pending: nat, at: int, repeat: nat)

  datatype Anhe = Anhe(w: nat, at: int)

  type Heap = seq<Anhe>

  /** Division as in C. */
  function Truncated(a: int, b: int): int
    requires 0 < b
  {
    if a >= 0 then a / b else -(-a / b)
  }

  function Parent(k: int): int { Truncated(k - HEAP0 - 1, DHEAP) + HEAP0 }

  function FirstChild(k: int): int { DHEAP * (k - HEAP0) + HEAP0 + 1 }

  predicate Live(n: nat, i: int) { HEAP0 <= i < HEAP0 + n }

  /** The root is its own parent, because the division truncates; and a slot's parent is the one
      it is a child of. */
  lemma {:induction false} ParentAndChild(i: int, k: int)
    requires HEAP0 <= i && HEAP0 <= k
    ensures Parent(HEAP0) == HEAP0
    ensures i > HEAP0 ==> HEAP0 <= Parent(i) < i && (Parent(i) == k <==> FirstChild(k) <= i < FirstChild(k) + DHEAP)
  {}

  // ---------- the heap order ----------

  predicate Below(h: Heap, i: int)
    requires HEAP0 < i < |h|
  {
    ParentAndChild(i, i);
    h[Parent(i)].at <= h[i].at
  }

  ghost predicate Ordered(h: Heap, n: nat) {
    HEAP0 + n <= |h| && forall i :: HEAP0 < i < HEAP0 + n ==> Below(h, i)
  }

  /** The earliest timer is at the root. */
  lemma {:induction false} RootIsEarliest(h: Heap, n: nat, i: nat)
    requires Ordered(h, n) && Live(n, i)
    ensures h[HEAP0].at <= h[i].at
    decreases i
  {
    if i > HEAP0 {
      ParentAndChild(i, i);
      assert Below(h, i);
      RootIsEarliest(h, n, Parent(i));
    }
  }

  /** Order, but for slot `k` against its parent; its children are no earlier than its parent. */
  ghost predicate OrderedUp(h: Heap, n: nat, k: nat) {
    HEAP0 + n <= |h| && Live(n, k) &&
    (forall i :: HEAP0 < i < HEAP0 + n && i != k ==> Below(h, i)) && Bridged(h, n, k)
  }

  /** Order, but for the children of slot `k` against it. */
  ghost predicate OrderedDown(h: Heap, n: nat, k: nat) {
    HEAP0 + n <= |h| && Live(n, k) &&
    (forall i :: HEAP0 < i < HEAP0 + n && Parent(i) != k ==> Below(h, i)) && Bridged(h, n, k)
  }

  ghost predicate Bridged(h: Heap, n: nat, k: nat)
    requires HEAP0 + n <= |h| && Live(n, k)
  {
    ParentAndChild(k, k);
    k > HEAP0 ==> forall i :: HEAP0 < i < HEAP0 + n && Parent(i) == k ==> h[Parent(k)].at <= h[i].at
  }

  function Swapped(h: Heap, k: nat, p: nat): (r: Heap)
    requires k < |h| && p < |h|
    ensures |r| == |h|
  {
    h[k := h[p]][p := h[k]]
  }

  lemma {:induction false} MoveUp(h: Heap, n: nat, k: nat)
    requires OrderedUp(h, n, k) && k > HEAP0 && !Below(h, k)
    ensures HEAP0 <= Parent(k) < k && OrderedUp(Swapped(h, k, Parent(k)), n, Parent(k))
  {
    ParentAndChild(k, k);
    var p := Parent(k);
    var r := Swapped(h, k, p);
    forall i | HEAP0 < i < HEAP0 + n && i != p ensures Below(r, i) {
      ParentAndChild(i, p);
      ParentAndChild(i, k);
      if i != k { assert Below(h, i); }
    }
    ParentAndChild(p, p);
    forall i | p > HEAP0 && HEAP0 < i < HEAP0 + n && Parent(i) == p ensures r[Parent(p)].at <= r[i].at {
      assert Below(h, p);
      ParentAndChild(i, p);
      if i != k { assert Below(h, i); }
    }
  }

  /** `c` is an earliest child of `k`. */
  ghost predicate EarliestChild(h: Heap, n: nat, k: nat, c: nat) {
    HEAP0 + n <= |h| && Live(n, k) && Live(n, c) && k < c && Parent(c) == k &&
    forall i :: HEAP0 < i < HEAP0 + n && Parent(i) == k ==> h[c].at <= h[i].at
  }

  lemma {:induction false} MoveDown(h: Heap, n: nat, k: nat, c: nat)
    requires OrderedDown(h, n, k) && EarliestChild(h, n, k, c) && h[c].at < h[k].at
    ensures OrderedDown(Swapped(h, k, c), n, c)
  {
    var r := Swapped(h, k, c);
    forall i | HEAP0 < i < HEAP0 + n && Parent(i) != c ensures Below(r, i) {
      ParentAndChild(i, k);
      ParentAndChild(i, c);
      ParentAndChild(k, k);
      if Parent(i) != k { assert Below(h, i); }
    }
    forall i | HEAP0 < i < HEAP0 + n && Parent(i) == c ensures r[k].at <= r[i].at {
      ParentAndChild(i, c);
      assert Below(h, i);
    }
  }

  // ---------- slots and watchers ----------

  ghost predicate SlotOk(ws: seq<Watcher>, h: Heap, i: nat)
    requires i < |h|
  {
    h[i].w < |ws| && ws[h[i].w].active == i && h[i].at == ws[h[i].w].at
  }

  ghost predicate WatcherOk(ws: seq<Watcher>, h: Heap, n: nat, w: nat)
    requires w < |ws| && HEAP0 + n <= |h|
  {
    ws[w].active != 0 ==> Live(n, ws[w].active) && h[ws[w].active].w == w
  }

  /** Slots and watchers refer to each other, and cached times are the watchers'; but for watcher
      `x`, which has no slot whatever it says. */
  ghost predicate Linked(ws: seq<Watcher>, h: Heap, n: nat, x: nat) {
    HEAP0 + n <= |h| &&
    (forall i :: HEAP0 <= i < HEAP0 + n ==> SlotOk(ws, h, i) && h[i].w != x) &&
    (forall w :: 0 <= w < |ws| && w != x ==> WatcherOk(ws, h, n, w))
  }

  /** The same, but that the watcher of slot `k` has not been told its slot. */
  ghost predicate LinkedBut(ws: seq<Watcher>, h: Heap, n: nat, k: nat, x: nat) {
    HEAP0 + n <= |h| && Live(n, k) && h[k].w < |ws| && h[k].at == ws[h[k].w].at && h[k].w != x &&
    (forall i :: HEAP0 <= i < HEAP0 + n && i != k ==> SlotOk(ws, h, i) && h[i].w != h[k].w && h[i].w != x) &&
    (forall w :: 0 <= w < |ws| && w != h[k].w && w != x ==> WatcherOk(ws, h, n, w) && ws[w].active != k)
  }

  function Told(ws: seq<Watcher>, w: nat, k: nat): (r: seq<Watcher>)
    requires w < |ws|
    ensures |r| == |ws|
  {
    ws[w := ws[w].(active := k)]
  }

  lemma {:induction false} MoveHole(ws: seq<Watcher>, h: Heap, n: nat, k: nat, p: nat, x: nat)
    requires LinkedBut(ws, h, n, k, x) && Live(n, p) && p != k
    ensures h[p].w < |ws| && LinkedBut(Told(ws, h[p].w, k), Swapped(h, k, p), n, p, x)
  {
    var ws', r := Told(ws, h[p].w, k), Swapped(h, k, p);
    forall i | HEAP0 <= i < HEAP0 + n && i != p ensures SlotOk(ws', r, i) && r[i].w != r[p].w && r[i].w != x {
      if i != k { assert SlotOk(ws, h, i) && h[i].w != h[k].w; }
      assert SlotOk(ws, h, p) && h[p].w != h[k].w;
    }
    forall w | 0 <= w < |ws| && w != r[p].w && w != x ensures WatcherOk(ws', r, n, w) && ws'[w].active != p {
      assert w != h[k].w;
      assert WatcherOk(ws, h, n, w) && ws[w].active != k;
    }
  }

  lemma {:induction false} FillHole(ws: seq<Watcher>, h: Heap, n: nat, k: nat, x: nat)
    requires LinkedBut(ws, h, n, k, x)
    ensures Linked(Told(ws, h[k].w, k), h, n, x)
  {
    var ws' := Told(ws, h[k].w, k);
    forall i | HEAP0 <= i < HEAP0 + n ensures SlotOk(ws', h, i) && h[i].w != x {
      if i != k { assert SlotOk(ws, h, i) && h[i].w != h[k].w; }
    }
    forall w | 0 <= w < |ws| && w != x ensures WatcherOk(ws', h, n, w) {
      if w != h[k].w { assert WatcherOk(ws, h, n, w); }
    }
  }

  /** Only slots have been changed: who is active, and everything else about everyone, is as
      before. */
  ghost predicate OnlySlots(ws: seq<Watcher>, ws': seq<Watcher>) {
    |ws'| == |ws| && forall w :: 0 <= w < |ws| ==> SameButSlot(ws[w], ws'[w])
  }

  predicate SameButSlot(a: Watcher, b: Watcher) {
    b == a.(active := b.active) && (a.active == 0 <==> b.active == 0)
  }

  lemma {:induction false} ToldOnlySlots(ws: seq<Watcher>, ws': seq<Watcher>, w: nat, k: nat)
    requires OnlySlots(ws, ws') && w < |ws'| && ws'[w].active != 0 && k != 0
    ensures OnlySlots(ws, Told(ws', w, k))
  {
    forall v | 0 <= v < |ws| ensures SameButSlot(ws[v], Told(ws', w, k)[v]) {
      assert SameButSlot(ws[v], ws'[v]);
    }
  }

  /** When a slot is in order against its parent too, all is. */
  lemma {:induction false} UpIsOrdered(h: Heap, n: nat, k: nat)
    requires OrderedUp(h, n, k) && (k == HEAP0 || Below(h, k))
    ensures Ordered(h, n)
  {}

  lemma {:induction false} DownIsOrdered(h: Heap, n: nat, k: nat)
    requires OrderedDown(h, n, k)
    requires forall i :: HEAP0 < i < HEAP0 + n && Parent(i) == k ==> h[k].at <= h[i].at
    ensures Ordered(h, n)
  {}

  /** What the sift loops keep: `he` has been lifted out of slot `k`, the heap being `h` with it. */
  ghost predicate Lifted(before: seq<Watcher>, ws: seq<Watcher>, timers: Heap, h: Heap, n: nat, k: nat, he: Anhe, x: nat) {
    LinkedBut(ws, h, n, k, x) && h[k] == he && |timers| == |h| && timers[k := he] == h &&
    OnlySlots(before, ws) && ws[he.w].active != 0
  }

  lemma {:induction false} LiftOn(before: seq<Watcher>, ws: seq<Watcher>, timers: Heap, h: Heap, n: nat, k: nat, he: Anhe, x: nat, p: nat)
    requires Lifted(before, ws, timers, h, n, k, he, x) && Live(n, p) && p != k
    ensures timers[p].w < |ws| && timers[p] == h[p] &&
            Lifted(before, Told(ws, timers[p].w, k), timers[k := timers[p]], Swapped(h, k, p), n, p, he, x)
  {
    assert timers[p] == timers[k := he][p];
    assert SlotOk(ws, h, p) && h[p].w != h[k].w;
    MoveHole(ws, h, n, k, p, x);
    ToldOnlySlots(before, ws, h[p].w, k);
    assert timers[k := timers[p]][p := he] == Swapped(h, k, p);
  }

  lemma {:induction false} PutDown(before: seq<Watcher>, ws: seq<Watcher>, timers: Heap, h: Heap, n: nat, k: nat, he: Anhe, x: nat)
    requires Lifted(before, ws, timers, h, n, k, he, x)
    ensures Linked(Told(ws, he.w, k), timers[k := he], n, x) && OnlySlots(before, Told(ws, he.w, k))
  {
    FillHole(ws, h, n, k, x);
    ToldOnlySlots(before, ws, he.w, k);
  }

  // ---------- changes to a heap ----------

  /** Order, but for slot `k` against its parent and its children. */
  ghost predicate OrderedBut(h: Heap, n: nat, k: nat) {
    HEAP0 + n <= |h| && Live(n, k) &&
    (forall i :: HEAP0 < i < HEAP0 + n && i != k && Parent(i) != k ==> Below(h, i)) && Bridged(h, n, k)
  }

  lemma {:induction false} UpOrDown(h: Heap, n: nat, k: nat)
    requires OrderedBut(h, n, k)
    ensures k == HEAP0 ==> OrderedDown(h, n, k)
    ensures k > HEAP0 ==> HEAP0 <= Parent(k) < k
    ensures k > HEAP0 && h[k].at <= h[Parent(k)].at ==> OrderedUp(h, n, k)
    ensures k > HEAP0 && h[k].at > h[Parent(k)].at ==> OrderedDown(h, n, k)
  {
    ParentAndChild(k, k);
    forall i | HEAP0 < i < HEAP0 + n && Parent(i) == k && k > HEAP0 && h[k].at <= h[Parent(k)].at ensures Below(h, i) {
      assert h[Parent(k)].at <= h[i].at;
    }
  }

  lemma {:induction false} Replaced(h: Heap, n: nat, k: nat, e: Anhe)
    requires Ordered(h, n) && Live(n, k)
    ensures OrderedBut(h[k := e], n, k)
  {
    var r := h[k := e];
    forall i | HEAP0 < i < HEAP0 + n && i != k && Parent(i) != k ensures Below(r, i) {
      assert Below(h, i);
    }
    ParentAndChild(k, k);
    forall i | k > HEAP0 && HEAP0 < i < HEAP0 + n && Parent(i) == k ensures r[Parent(k)].at <= r[i].at {
      ParentAndChild(i, k);
      assert Below(h, i) && Below(h, k);
    }
  }

  lemma {:induction false} Appended(h: Heap, r: Heap, n: nat)
    requires Ordered(h, n) && HEAP0 + n < |r| && forall i :: HEAP0 <= i < HEAP0 + n ==> r[i] == h[i]
    ensures OrderedUp(r, n + 1, HEAP0 + n)
  {
    forall i | HEAP0 < i < HEAP0 + n ensures Below(r, i) {
      ParentAndChild(i, i);
      assert Below(h, i);
    }
    forall i | HEAP0 < i < HEAP0 + n + 1 ensures Parent(i) != HEAP0 + n {
      ParentAndChild(i, HEAP0 + n);
    }
  }

  lemma {:induction false} Entered(ws: seq<Watcher>, h: Heap, r: Heap, n: nat, w: nat, at: int)
    requires Linked(ws, h, n, |ws|) && w < |ws| && ws[w].active == 0 && HEAP0 + n < |r|
    requires (forall i :: HEAP0 <= i < HEAP0 + n ==> r[i] == h[i]) && r[HEAP0 + n] == Anhe(w, at)
    ensures LinkedBut(ws[w := ws[w].(active := HEAP0 + n, at := at)], r, n + 1, HEAP0 + n, |ws|)
  {
    var ws' := ws[w := ws[w].(active := HEAP0 + n, at := at)];
    forall i | HEAP0 <= i < HEAP0 + n ensures SlotOk(ws', r, i) && r[i].w != w {
      assert SlotOk(ws, h, i);
    }
    forall v | 0 <= v < |ws| && v != w ensures WatcherOk(ws', r, n + 1, v) && ws'[v].active != HEAP0 + n {
      assert WatcherOk(ws, h, n, v);
    }
  }

  lemma {:induction false} Removed(ws: seq<Watcher>, h: Heap, n: nat, w: nat)
    requires Linked(ws, h, n + 1, |ws|) && w < |ws| && ws[w].active != 0
    ensures var k := ws[w].active;
            Live(n + 1, k) && if k == HEAP0 + n then Linked(ws, h, n, w) else LinkedBut(ws, h[k := h[HEAP0 + n]], n, k, w)
  {
    assert WatcherOk(ws, h, n + 1, w);
    var k := ws[w].active;
    assert SlotOk(ws, h, HEAP0 + n);
    var r := h[k := h[HEAP0 + n]];
    forall i | HEAP0 <= i < HEAP0 + n && i != k ensures SlotOk(ws, r, i) && SlotOk(ws, h, i) && h[i].w != w && r[i].w != h[HEAP0 + n].w {
      assert SlotOk(ws, h, i);
    }
    forall v | 0 <= v < |ws| && v != w ensures k == HEAP0 + n ==> WatcherOk(ws, h, n, v)
      ensures v != h[HEAP0 + n].w ==> WatcherOk(ws, r, n, v) && ws[v].active != k
    {
      assert WatcherOk(ws, h, n + 1, v);
    }
  }

  lemma {:induction false} Shortened(h: Heap, n: nat, k: nat)
    requires Ordered(h, n + 1) && Live(n + 1, k)
    ensures Ordered(h, n)
    ensures k < HEAP0 + n ==> OrderedBut(h[k := h[HEAP0 + n]], n, k)
  {
    if k < HEAP0 + n {
      Replaced(h, n, k, h[HEAP0 + n]);
    }
  }

  lemma {:induction false} Dropped(ws: seq<Watcher>, h: Heap, n: nat, x: nat, at: int)
    requires Linked(ws, h, n, x) && x < |ws|
    ensures Linked(ws[x := ws[x].(active := 0, at := at)], h, n, |ws|)
  {
    var ws' := ws[x := ws[x].(active := 0, at := at)];
    forall i | HEAP0 <= i < HEAP0 + n ensures SlotOk(ws', h, i) {
      assert SlotOk(ws, h, i);
    }
    forall v | 0 <= v < |ws| ensures WatcherOk(ws', h, n, v) {
      if v != x { assert WatcherOk(ws, h, n, v); }
    }
  }

  lemma {:induction false} Retimed(ws: seq<Watcher>, h: Heap, n: nat, w: nat, at: int)
    requires Linked(ws, h, n, |ws|) && w < |ws| && ws[w].active != 0
    ensures var k := ws[w].active;
            Live(n, k) && h[k].w == w && LinkedBut(ws[w := ws[w].(at := at)], h[k := Anhe(w, at)], n, k, |ws|)
  {
    assert WatcherOk(ws, h, n, w);
    var k := ws[w].active;
    var ws', r := ws[w := ws[w].(at := at)], h[k := Anhe(w, at)];
    forall i | HEAP0 <= i < HEAP0 + n && i != k ensures SlotOk(ws', r, i) && r[i].w != w {
      assert SlotOk(ws, h, i);
    }
    forall v | 0 <= v < |ws| && v != w ensures WatcherOk(ws', r, n, v) && ws'[v].active != k {
      assert WatcherOk(ws, h, n, v);
    }
  }

  /** The links do not concern places in the pending queue. */
  lemma {:induction false} PlacesKeepLinks(ws: seq<Watcher>, ws': seq<Watcher>, h: Heap, n: nat)
    requires Linked(ws, h, n, |ws|) && |ws'| == |ws|
    requires forall w :: 0 <= w < |ws| ==> ws'[w] == ws[w].(pending := ws'[w].pending)
    ensures Linked(ws', h, n, |ws|)
  {
    forall i | HEAP0 <= i < HEAP0 + n ensures SlotOk(ws', h, i) {
      assert SlotOk(ws, h, i);
    }
    forall v | 0 <= v < |ws| ensures WatcherOk(ws', h, n, v) {
      assert WatcherOk(ws, h, n, v);
    }
  }

  /** The time of a timer that is not active may be anything. */
  lemma {:induction false} IdleTimeIsFree(ws: seq<Watcher>, h: Heap, n: nat, w: nat, at: int)
    requires Linked(ws, h, n, |ws|) && w < |ws| && ws[w].active == 0
    ensures Linked(ws[w := ws[w].(at := at)], h, n, |ws|)
  {
    var ws' := ws[w := ws[w].(at := at)];
    forall i | HEAP0 <= i < HEAP0 + n ensures SlotOk(ws', h, i) {
      assert SlotOk(ws, h, i);
    }
    forall v | 0 <= v < |ws| ensures WatcherOk(ws', h, n, v) {
      assert WatcherOk(ws, h, n, v);
    }
  }
}
