/** The pending queue of libev (deps/libev/ev.c), for one priority: watchers whose callbacks are to
    be called, the last one first.  A watcher knows its place, so that its entry can be given to a
    dummy watcher when it is stopped. */
module PendingQueue {
  import opened Options
  import opened TimerHeap

  /** `None` is the dummy. */
  datatype Entry = Entry(w: Option<nat>, events: set<nat>)

  type Queue = seq<Entry>

  ghost predicate PlaceOk(ws: seq<Watcher>, q: Queue, w: nat)
    requires w < |ws|
  {
    ws[w].pending != 0 ==> ws[w].pending <= |q| && q[ws[w].pending - 1].w == Some(w)
  }

  ghost predicate EntryOk(ws: seq<Watcher>, q: Queue, i: nat)
    requires i < |q|
  {
    q[i].w.Some? ==> q[i].w.value < |ws| && ws[q[i].w.value].pending == i + 1
  }

  /** Places and entries agree. */
  ghost predicate Queued(ws: seq<Watcher>, q: Queue) {
    (forall w :: 0 <= w < |ws| ==> PlaceOk(ws, q, w)) && (forall i :: 0 <= i < |q| ==> EntryOk(ws, q, i))
  }

  function Placed(ws: seq<Watcher>, w: nat, place: nat): (r: seq<Watcher>)
    requires w < |ws|
    ensures |r| == |ws|
  {
    ws[w := ws[w].(pending := place)]
  }

  lemma {:induction false} FedKeeps(ws: seq<Watcher>, q: Queue, w: nat, events: set<nat>)
    requires Queued(ws, q) && w < |ws| && ws[w].pending == 0
    ensures Queued(Placed(ws, w, |q| + 1), q + [Entry(Some(w), events)])
  {
    var ws', r := Placed(ws, w, |q| + 1), q + [Entry(Some(w), events)];
    forall v | 0 <= v < |ws| ensures PlaceOk(ws', r, v) {
      assert PlaceOk(ws, q, v);
    }
    forall i | 0 <= i < |r| ensures EntryOk(ws', r, i) {
      if i < |q| { assert EntryOk(ws, q, i); }
    }
  }

  lemma {:induction false} MergedKeeps(ws: seq<Watcher>, q: Queue, w: nat, events: set<nat>)
    requires Queued(ws, q) && w < |ws| && ws[w].pending != 0
    ensures ws[w].pending <= |q| && Queued(ws, q[ws[w].pending - 1 := Entry(Some(w), events)])
  {
    assert PlaceOk(ws, q, w);
    var r := q[ws[w].pending - 1 := Entry(Some(w), events)];
    forall v | 0 <= v < |ws| ensures PlaceOk(ws, r, v) {
      assert PlaceOk(ws, q, v);
    }
    forall i | 0 <= i < |r| ensures EntryOk(ws, r, i) {
      assert EntryOk(ws, q, i);
    }
  }

  lemma {:induction false} ClearedKeeps(ws: seq<Watcher>, q: Queue, w: nat)
    requires Queued(ws, q) && w < |ws| && ws[w].pending != 0
    ensures ws[w].pending <= |q| &&
            Queued(Placed(ws, w, 0), q[ws[w].pending - 1 := q[ws[w].pending - 1].(w := None)])
  {
    assert PlaceOk(ws, q, w);
    var ws', r := Placed(ws, w, 0), q[ws[w].pending - 1 := q[ws[w].pending - 1].(w := None)];
    forall v | 0 <= v < |ws| ensures PlaceOk(ws', r, v) {
      assert PlaceOk(ws, q, v);
    }
    forall i | 0 <= i < |r| ensures EntryOk(ws', r, i) {
      assert EntryOk(ws, q, i);
    }
  }

  lemma {:induction false} PoppedKeeps(ws: seq<Watcher>, q: Queue)
    requires Queued(ws, q) && q != []
    ensures var e := q[|q| - 1].w;
            (e.Some? ==> e.value < |ws|) &&
            Queued(if e.Some? then Placed(ws, e.value, 0) else ws, q[..|q| - 1])
  {
    assert EntryOk(ws, q, |q| - 1);
    var e, r := q[|q| - 1].w, q[..|q| - 1];
    var ws' := if e.Some? then Placed(ws, e.value, 0) else ws;
    forall v | 0 <= v < |ws'| ensures PlaceOk(ws', r, v) {
      assert PlaceOk(ws, q, v);
    }
    forall i | 0 <= i < |r| ensures EntryOk(ws', r, i) {
      assert EntryOk(ws, q, i);
    }
  }

  /** Changing what does not concern the queue. */
  lemma {:induction false} UnconcernedKeeps(ws: seq<Watcher>, ws': seq<Watcher>, q: Queue)
    requires Queued(ws, q) && |ws'| == |ws| && forall w :: 0 <= w < |ws| ==> ws'[w].pending == ws[w].pending
    ensures Queued(ws', q)
  {
    forall v | 0 <= v < |ws'| ensures PlaceOk(ws', q, v) {
      assert PlaceOk(ws, q, v);
    }
    forall i | 0 <= i < |q| ensures EntryOk(ws', q, i) {
      assert EntryOk(ws, q, i);
    }
  }

  /** The queue with the entries of `w` given to the dummy. */
  function Without(q: Queue, w: nat): (r: Queue)
    ensures |r| == |q| && forall i :: 0 <= i < |q| ==> r[i] == if q[i].w == Some(w) then q[i].(w := None) else q[i]
  {
    seq(|q|, i requires 0 <= i < |q| => if q[i].w == Some(w) then q[i].(w := None) else q[i])
  }

  lemma {:induction false} ClearedIsWithout(ws: seq<Watcher>, q: Queue, w: nat)
    requires Queued(ws, q) && w < |ws|
    ensures ws[w].pending == 0 ==> q == Without(q, w)
    ensures ws[w].pending != 0 ==>
      ws[w].pending <= |q| && q[ws[w].pending - 1 := q[ws[w].pending - 1].(w := None)] == Without(q, w)
  {
    assert PlaceOk(ws, q, w);
    forall i | 0 <= i < |q| && q[i].w == Some(w) ensures ws[w].pending == i + 1 {
      assert EntryOk(ws, q, i);
    }
  }
}
