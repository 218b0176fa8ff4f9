/** The timers and the pending queue of an event loop (deps/libev/ev.c), with one priority. */
module EventLoop {
  import opened Options
  import opened PendingQueue
  import opened Sequences
  import opened TimerHeap

  class Loop {
    var watchers: seq<Watcher>
    var timers: Heap
    var timercnt: nat
    var now: int
    var pendings: Queue
    var rfeeds: seq<nat>

    /** A loop whose watchers are all idle. */
    constructor (watchers: seq<Watcher>)
      requires forall w :: 0 <= w < |watchers| ==> watchers[w].active == 0 && watchers[w].pending == 0
      ensures Valid() && rfeeds == [] && pendings == [] && timercnt == 0 && this.watchers == watchers
    {
      this.watchers, timers, timercnt, now := watchers, seq(HEAP0, i => Anhe(0, 0)), 0, 0;
      pendings, rfeeds := [], [];
    }

    /** upheap: towards the root.  Here and below `x` is a watcher that has just left the heap
        without having been told, if there is one. */
    method Upheap(start: nat, ghost x: nat)
      requires LinkedBut(watchers, timers, timercnt, start, x) && OrderedUp(timers, timercnt, start)
      requires watchers[timers[start].w].active != 0
      modifies this`watchers, this`timers
      ensures Linked(watchers, timers, timercnt, x) && Ordered(timers, timercnt)
      ensures OnlySlots(old(watchers), watchers)
    {
      var k, he := start, timers[start];
      ghost var h := timers;
      var p: int := Parent(k);
      while !(p == k || timers[p].at <= he.at)
        invariant p == Parent(k) && HEAP0 <= p
        invariant Lifted(old(watchers), watchers, timers, h, timercnt, k, he, x) && OrderedUp(h, timercnt, k)
        decreases k
      {
        ParentAndChild(k, k);
        MoveUp(h, timercnt, k);
        LiftOn(old(watchers), watchers, timers, h, timercnt, k, he, x, p);
        timers, watchers := timers[k := timers[p]], Told(watchers, timers[p].w, k);
        h := Swapped(h, k, p);
        k := p;
        p := Parent(k);
        ParentAndChild(k, k);
      }
      ParentAndChild(k, k);
      UpIsOrdered(h, timercnt, k);
      PutDown(old(watchers), watchers, timers, h, timercnt, k, he, x);
      timers, watchers := timers[k := he], Told(watchers, he.w, k);
    }

    /** The choice of the earliest child in downheap; `end` is one past the last slot.  The slow path
        is taken only when the fourth child does not exist, so its last comparison is never made. */
    method EarliestOf(pos: nat, end: nat) returns (minpos: nat)
      requires pos < end <= |timers|
      ensures pos <= minpos < end && minpos < pos + DHEAP
      ensures forall i :: pos <= i < end && i < pos + DHEAP ==> timers[minpos].at <= timers[i].at
    {
      minpos := pos;
      var minat := timers[minpos].at;
      if pos + DHEAP - 1 < end {
        if minat > timers[pos + 1].at { minpos, minat := pos + 1, timers[pos + 1].at; }
        if minat > timers[pos + 2].at { minpos, minat := pos + 2, timers[pos + 2].at; }
        if minat > timers[pos + 3].at { minpos, minat := pos + 3, timers[pos + 3].at; }
      } else {
        if pos + 1 < end && minat > timers[pos + 1].at { minpos, minat := pos + 1, timers[pos + 1].at; }
        if pos + 2 < end && minat > timers[pos + 2].at { minpos, minat := pos + 2, timers[pos + 2].at; }
        if pos + 3 < end { assert false; }
      }
    }

    /** downheap: away from the root */
    method Downheap(start: nat, ghost x: nat)
      requires LinkedBut(watchers, timers, timercnt, start, x) && OrderedDown(timers, timercnt, start)
      requires watchers[timers[start].w].active != 0
      modifies this`watchers, this`timers
      ensures Linked(watchers, timers, timercnt, x) && Ordered(timers, timercnt)
      ensures OnlySlots(old(watchers), watchers)
    {
      var k, he := start, timers[start];
      ghost var h := timers;
      var end := timercnt + HEAP0;
      while true
        invariant Lifted(old(watchers), watchers, timers, h, timercnt, k, he, x) && OrderedDown(h, timercnt, k)
        decreases end - k
      {
        var pos := FirstChild(k);
        forall i | HEAP0 < i < end ensures Parent(i) == k <==> pos <= i < pos + DHEAP {
          ParentAndChild(i, k);
        }
        if pos >= end {
          break;
        }
        var c := EarliestOf(pos, end);
        assert forall i :: pos <= i < end ==> timers[i] == h[i];
        if he.at <= timers[c].at {
          break;
        }
        MoveDown(h, timercnt, k, c);
        LiftOn(old(watchers), watchers, timers, h, timercnt, k, he, x, c);
        timers, watchers := timers[k := timers[c]], Told(watchers, timers[c].w, k);
        h := Swapped(h, k, c);
        k := c;
      }
      DownIsOrdered(h, timercnt, k);
      PutDown(old(watchers), watchers, timers, h, timercnt, k, he, x);
      timers, watchers := timers[k := he], Told(watchers, he.w, k);
    }

    /** adjustheap: whichever way is needed */
    method Adjustheap(k: nat, ghost x: nat)
      requires LinkedBut(watchers, timers, timercnt, k, x) && OrderedBut(timers, timercnt, k)
      requires watchers[timers[k].w].active != 0
      modifies this`watchers, this`timers
      ensures Linked(watchers, timers, timercnt, x) && Ordered(timers, timercnt)
      ensures OnlySlots(old(watchers), watchers)
    {
      UpOrDown(timers, timercnt, k);
      if k > HEAP0 && timers[k].at <= timers[Parent(k)].at {
        Upheap(k, x);
      } else {
        Downheap(k, x);
      }
    }

    /** The heap part of the loop's invariant, as the library's own heap check states it. */
    ghost predicate HeapOk()
      reads this`watchers, this`timers, this`timercnt
    {
      Linked(watchers, timers, timercnt, |watchers|) && Ordered(timers, timercnt)
    }

    ghost predicate Valid()
      reads this
    {
      HeapOk() && Queued(watchers, pendings)
    }

    /** clear_pending */
    method ClearPending(w: nat)
      requires Valid() && w < |watchers|
      modifies this`watchers, this`pendings
      ensures Valid() && watchers == Placed(old(watchers), w, 0) && pendings == Without(old(pendings), w)
    {
      ghost var ws := watchers;
      ClearedIsWithout(watchers, pendings, w);
      if watchers[w].pending != 0 {
        ClearedKeeps(watchers, pendings, w);
        var i := watchers[w].pending - 1;
        pendings := pendings[i := pendings[i].(w := None)];
        watchers := Placed(watchers, w, 0);
      }
      PlacesKeepLinks(ws, watchers, timers, timercnt);
    }

    /** Everything but the slots of the others is as it was, and `w` is as given, but for its slot. */
    ghost predicate Changed(before: seq<Watcher>, w: nat, as_: Watcher)
      requires w < |before|
      reads this`watchers
    {
      OnlySlots(before[w := as_], watchers)
    }

    /** ev_timer_start: the time given becomes absolute; an active timer is left alone. */
    method TimerStart(w: nat)
      requires Valid() && w < |watchers|
      modifies this`watchers, this`timers, this`timercnt
      ensures Valid()
      ensures old(watchers)[w].active != 0 ==> watchers == old(watchers) && timercnt == old(timercnt)
      ensures old(watchers)[w].active == 0 ==> timercnt == old(timercnt) + 1
      ensures var b := old(watchers)[w];
              b.active == 0 ==> Changed(old(watchers), w, b.(active := 1, at := b.at + now))
    {
      if watchers[w].active != 0 {
        return;
      }
      ghost var ws, h := watchers, timers;
      var at := watchers[w].at + now;
      timercnt := timercnt + 1;
      var slot := timercnt + HEAP0 - 1;
      watchers := watchers[w := watchers[w].(active := slot, at := at)];
      if |timers| <= slot {
        timers := timers + [Anhe(w, at)];
      }
      timers := timers[slot := Anhe(w, at)];
      Entered(ws, h, timers, timercnt - 1, w, at);
      Appended(h, timers, timercnt - 1);
      Upheap(slot, |watchers|);
      UnconcernedKeeps(ws, watchers, pendings);
    }

    /** ev_timer_stop: the time left becomes relative; the timer is no longer pending either. */
    method TimerStop(w: nat)
      requires Valid() && w < |watchers|
      modifies this`watchers, this`timers, this`timercnt, this`pendings
      ensures Valid() && pendings == Without(old(pendings), w)
      ensures timercnt == old(timercnt) - if old(watchers)[w].active != 0 then 1 else 0
      ensures var b := old(watchers)[w];
              Changed(old(watchers), w, b.(active := 0, pending := 0, at := if b.active != 0 then b.at - now else b.at))
    {
      ClearPending(w);
      if watchers[w].active == 0 {
        return;
      }
      Remove(w);
    }

    /** The rest of ev_timer_stop, for an active timer. */
    method Remove(w: nat)
      requires Valid() && w < |watchers| && watchers[w].active != 0
      modifies this`watchers, this`timers, this`timercnt
      ensures Valid() && timercnt == old(timercnt) - 1
      ensures Changed(old(watchers), w, old(watchers)[w].(active := 0, at := old(watchers)[w].at - now))
    {
      ghost var ws := watchers;
      TakeOff(w);
      DroppedKeeps(ws, watchers, timers, timercnt, pendings, w, now);
      watchers := watchers[w := watchers[w].(active := 0, at := watchers[w].at - now)];
    }

    /** Takes a timer off the heap, without telling it so. */
    method TakeOff(w: nat)
      requires HeapOk() && w < |watchers| && watchers[w].active != 0
      modifies this`watchers, this`timers, this`timercnt
      ensures Linked(watchers, timers, timercnt, w) && Ordered(timers, timercnt)
      ensures timercnt == old(timercnt) - 1 && OnlySlots(old(watchers), watchers)
    {
      var k := watchers[w].active;
      assert WatcherOk(watchers, timers, timercnt, w);
      timercnt := timercnt - 1;
      Removed(watchers, timers, timercnt, w);
      Shortened(timers, timercnt, k);
      if k < timercnt + HEAP0 {
        timers := timers[k := timers[timercnt + HEAP0]];
        Adjustheap(k, w);
      }
    }

    /** ev_timer_again */
    method TimerAgain(w: nat)
      requires Valid() && w < |watchers|
      modifies this`watchers, this`timers, this`timercnt, this`pendings
      ensures Valid() && pendings == Without(old(pendings), w)
      ensures var b := old(watchers)[w];
              Changed(old(watchers), w,
                      if b.repeat != 0 then b.(pending := 0, active := 1, at := now + b.repeat)
                      else b.(pending := 0, active := 0, at := if b.active != 0 then b.at - now else b.at))
    {
      ClearPending(w);
      if watchers[w].active != 0 {
        if watchers[w].repeat != 0 {
          Retime(w, now + watchers[w].repeat);
        } else {
          Remove(w);
        }
      } else if watchers[w].repeat != 0 {
        ghost var ws := watchers;
        watchers := watchers[w := watchers[w].(at := watchers[w].repeat)];
        IdleTimeIsFree(ws, timers, timercnt, w, watchers[w].at);
        UnconcernedKeeps(ws, watchers, pendings);
        TimerStart(w);
      }
    }

    /** Gives an active timer another time. */
    method Retime(w: nat, at: int)
      requires Valid() && w < |watchers| && watchers[w].active != 0
      modifies this`watchers, this`timers
      ensures Valid() && Changed(old(watchers), w, old(watchers)[w].(at := at))
    {
      ghost var ws := watchers;
      var k := watchers[w].active;
      Retimed(watchers, timers, timercnt, w, at);
      Replaced(timers, timercnt, k, Anhe(w, at));
      watchers := watchers[w := watchers[w].(at := at)];
      timers := timers[k := Anhe(w, at)];
      Adjustheap(k, |watchers|);
      UnconcernedKeeps(ws, watchers, pendings);
    }

    /** ev_feed_event */
    method FeedEvent(w: nat, events: set<nat>)
      requires Valid() && w < |watchers|
      modifies this`watchers, this`pendings
      ensures Valid() && watchers == Fed(old(watchers), |old(pendings)|, w)
      ensures old(watchers)[w].pending == 0 ==> pendings == old(pendings) + [Entry(Some(w), events)]
      ensures old(watchers)[w].pending != 0 ==> SameWatchers(old(pendings), pendings)
    {
      ghost var ws := watchers;
      if watchers[w].pending != 0 {
        var i := watchers[w].pending - 1;
        assert PlaceOk(watchers, pendings, w);
        MergedKeeps(watchers, pendings, w, pendings[i].events + events);
        pendings := pendings[i := pendings[i].(events := pendings[i].events + events)];
      } else {
        FedKeeps(watchers, pendings, w, events);
        watchers := Placed(watchers, w, |pendings| + 1);
        pendings := pendings + [Entry(Some(w), events)];
      }
      PlacesKeepLinks(ws, watchers, timers, timercnt);
    }

    /** The rescheduling branch of timers_reify. */
    method RescheduleRoot()
      requires Valid() && 0 < timercnt
      modifies this`watchers, this`timers
      ensures Valid()
      ensures var w := old(timers)[HEAP0].w;
              w < |old(watchers)| && Changed(old(watchers), w, old(watchers)[w].(at := NextTime(old(watchers)[w], now)))
    {
      ghost var ws := watchers;
      var w := timers[HEAP0].w;
      assert SlotOk(watchers, timers, HEAP0);
      var at := NextTime(watchers[w], now);
      Retimed(watchers, timers, timercnt, w, at);
      Replaced(timers, timercnt, HEAP0, Anhe(w, at));
      UpOrDown(timers[HEAP0 := Anhe(w, at)], timercnt, HEAP0);
      watchers := watchers[w := watchers[w].(at := at)];
      timers := timers[HEAP0 := Anhe(w, at)];
      Downheap(HEAP0, |watchers|);
      UnconcernedKeeps(ws, watchers, pendings);
    }

    /** One round of the loop of timers_reify: the earliest timer is rescheduled or stopped. */
    method ReifyOne() returns (w: nat)
      requires Valid() && 0 < timercnt
      modifies this`watchers, this`timers, this`timercnt, this`pendings
      ensures w == old(timers)[HEAP0].w && w < |old(watchers)| && old(watchers)[w].active != 0
      ensures Valid() && Changed(old(watchers), w, Fired(old(watchers)[w], now))
      ensures pendings == if old(watchers)[w].repeat == 0 then Without(old(pendings), w) else old(pendings)
    {
      w := timers[HEAP0].w;
      assert SlotOk(watchers, timers, HEAP0);
      if watchers[w].repeat != 0 {
        RescheduleRoot();
      } else {
        TimerStop(w);
      }
    }

    /** The loop of timers_reify. */
    method CollectExpired(ghost ws0: seq<Watcher>, ghost q0: Queue)
      requires Valid() && watchers == ws0 && pendings == q0 && rfeeds == []
      modifies this`watchers, this`timers, this`timercnt, this`pendings, this`rfeeds
      ensures Valid() && Passed(ws0, watchers, now, rfeeds) && InOrder(ws0, rfeeds) && QueuePassed(ws0, q0, pendings, rfeeds)
      ensures forall w :: 0 <= w < |ws0| ==> (w in rfeeds <==> Expired(ws0[w], now))
    {
      while timercnt > 0 && timers[HEAP0].at < now
        invariant Valid() && Passed(ws0, watchers, now, rfeeds) && InOrder(ws0, rfeeds) && QueuePassed(ws0, q0, pendings, rfeeds)
        invariant NoneEarlier(ws0, rfeeds)
        decreases |ws0| - |rfeeds|
      {
        ghost var before, q := watchers, pendings;
        RootIsNext(ws0, watchers, timers, timercnt, now, rfeeds);
        var w := ReifyOne();
        PassedOn(ws0, before, watchers, now, rfeeds, w);
        QueuePassedOn(ws0, q0, q, pendings, rfeeds, w);
        DistinctBounded(rfeeds + [w], |ws0|);
        rfeeds := rfeeds + [w];
      }
      NoneLeft(ws0, watchers, timers, timercnt, now, rfeeds);
    }

    /** feed_reverse_done: the last collected first, so that the first ends on top. */
    method FeedReverseDone(events: set<nat>)
      requires Valid() && rfeeds != [] && Distinct(rfeeds) && forall i :: 0 <= i < |rfeeds| ==> rfeeds[i] < |watchers|
      modifies this`watchers, this`pendings, this`rfeeds
      ensures Valid() && rfeeds == [] && StackedFrom(old(watchers), old(pendings), watchers, pendings, old(rfeeds), 0)
    {
      ghost var ws1, q1, fed := watchers, pendings, rfeeds;
      StackedNone(ws1, q1, fed);
      while true
        invariant Valid() && 0 < |rfeeds| <= |fed| && rfeeds == fed[..|rfeeds|]
        invariant StackedFrom(ws1, q1, watchers, pendings, fed, |rfeeds|)
        decreases |rfeeds|
      {
        var n := |rfeeds| - 1;
        var w := rfeeds[n];
        ghost var ws, q := watchers, pendings;
        rfeeds := rfeeds[..n];
        FeedEvent(w, events);
        StackedOn(ws1, q1, ws, q, watchers, pendings, fed, n);
        if rfeeds == [] {
          break;
        }
      }
    }

    /** timers_reify.  `mid` and `midq` are the state between collecting and feeding. */
    method TimersReify() returns (ghost fed: seq<nat>, ghost mid: seq<Watcher>, ghost midq: Queue)
      requires Valid() && rfeeds == []
      modifies this`watchers, this`timers, this`timercnt, this`pendings, this`rfeeds
      ensures Valid() && rfeeds == []
      ensures forall w :: 0 <= w < |old(watchers)| ==> (w in fed <==> Expired(old(watchers)[w], now))
      ensures InOrder(old(watchers), fed) && Passed(old(watchers), mid, now, fed)
      ensures QueuePassed(old(watchers), old(pendings), midq, fed) && StackedFrom(mid, midq, watchers, pendings, fed, 0)
      ensures Queued(mid, midq)
    {
      CollectExpired(watchers, pendings);
      fed, mid, midq := rfeeds, watchers, pendings;
      if rfeeds != [] {
        FeedReverseDone({TIMER_EVENT});
      } else {
        StackedNone(watchers, pendings, fed);
      }
    }

    /** A callback: it may start, stop and restart any timers. */
    method Callback(calls: seq<Call>)
      requires Valid() && forall i :: 0 <= i < |calls| ==> calls[i].w < |watchers|
      modifies this`watchers, this`timers, this`timercnt, this`pendings
      ensures Valid() && |watchers| == |old(watchers)| && |pendings| == |old(pendings)|
      ensures forall v :: 0 <= v < |watchers| ==> watchers[v].pending == if Cancels(calls, v) then 0 else old(watchers)[v].pending
    {
      for i := 0 to |calls|
        invariant Valid() && |watchers| == |old(watchers)| && |pendings| == |old(pendings)|
        invariant forall v :: 0 <= v < |watchers| ==>
          watchers[v].pending == if Cancels(calls[..i], v) then 0 else old(watchers)[v].pending
      {
        ghost var ws := watchers;
        var c := calls[i];
        match c {
          case Start(w) => TimerStart(w);
          case Stop(w) => TimerStop(w);
          case Again(w) => TimerAgain(w);
        }
        forall v | 0 <= v < |watchers|
          ensures watchers[v].pending == if Cancels(calls[..i + 1], v) then 0 else old(watchers)[v].pending
        {
          CancelsMore(calls, i, v);
          CallPending(ws, watchers, c, v);
        }
      }
      assert calls[..|calls|] == calls;
    }

    /** ev_invoke_pending, with callbacks that do not feed events. */
    method InvokePending(callbacks: nat -> seq<Call>) returns (ran: seq<nat>)
      requires Valid() && forall w, i :: 0 <= i < |callbacks(w)| ==> callbacks(w)[i].w < |watchers|
      modifies this`watchers, this`timers, this`timercnt, this`pendings
      ensures Valid() && pendings == [] && RanFrom(old(watchers), watchers, callbacks, ran, 0)
    {
      ghost var ws1 := watchers;
      UniquePlaces(watchers, pendings);
      ran := [];
      RanNone(ws1, pendings, callbacks);
      while pendings != []
        invariant Valid() && |watchers| == |ws1| && RanFrom(ws1, watchers, callbacks, ran, |pendings|)
        decreases |pendings|
      {
        ghost var ws, q := watchers, pendings;
        PoppedKeeps(watchers, pendings);
        var n := |pendings| - 1;
        var e := pendings[n].w;
        pendings := pendings[..n];
        if e.Some? {
          watchers := Placed(watchers, e.value, 0);
          PlacesKeepLinks(ws, watchers, timers, timercnt);
          ran := ran + [e.value];
          Callback(callbacks(e.value));
          RanOne(ws1, ws, q, watchers, callbacks, ran[..|ran| - 1], n, e.value);
        } else {
          RanDummy(ws1, ws, q, callbacks, ran, n);
        }
      }
    }

    /** One turn of the loop as far as timers go: whatever has expired or was pending runs exactly
        once unless a callback whose turn comes before its own stops or restarts it, and all run in
        the order of their turns: first what was not kept pending from before, in the order of expiry. */
    method RunTimers(callbacks: nat -> seq<Call>) returns (ran: seq<nat>)
      requires Valid() && rfeeds == [] && forall w, i :: 0 <= i < |callbacks(w)| ==> callbacks(w)[i].w < |watchers|
      modifies this`watchers, this`timers, this`timercnt, this`pendings, this`rfeeds
      ensures Valid() && rfeeds == [] && pendings == [] && Distinct(ran)
      ensures forall i :: 0 <= i < |ran| ==> ran[i] < |old(watchers)| && Due(old(watchers)[ran[i]], now)
      ensures forall w :: 0 <= w < |old(watchers)| && Due(old(watchers)[w], now) ==>
                w in ran || CancelledBefore(old(watchers), now, callbacks, ran, w)
      ensures forall i, j :: 0 <= i < j < |ran| ==> !Cancels(callbacks(ran[i]), ran[j])
      ensures forall i, j :: 0 <= i < j < |ran| ==> TurnBefore(old(watchers), now, ran[i], ran[j])
    {
      ghost var fed, mid, midq := TimersReify();
      ghost var ws1, q1 := watchers, pendings;
      ran := InvokePending(callbacks);
      RanOnce(ws1, watchers, callbacks, ran);
      OnlyDueRan(old(watchers), mid, midq, ws1, q1, watchers, now, callbacks, fed, ran);
      RanInOrder(old(watchers), mid, midq, ws1, q1, watchers, now, callbacks, fed, ran);
    }
  }

  datatype Call = Start(w: nat) | Stop(w: nat) | Again(w: nat)

  const TIMER_EVENT := 0x100

  /** Places of the timers in fed[k..] after they have been fed, the last one first. */
  ghost predicate StackedFrom(ws1: seq<Watcher>, q1: Queue, ws: seq<Watcher>, q: Queue, fed: seq<nat>, k: nat) {
    k <= |fed| && |ws| == |ws1| && |q1| <= |q| && (forall i :: 0 <= i < |fed| ==> fed[i] < |ws1|) &&
    (forall i :: 0 <= i < |q1| ==> q[i].w == q1[i].w) &&
    (forall w :: 0 <= w < |ws1| ==> ws[w] == ws1[w].(pending := ws[w].pending)) &&
    (forall w :: 0 <= w < |ws1| && (ws1[w].pending != 0 || w !in fed[k..]) ==> ws[w].pending == ws1[w].pending) &&
    (forall i :: k <= i < |fed| && ws1[fed[i]].pending == 0 ==> |q1| < ws[fed[i]].pending <= |q|) &&
    (forall i, j :: k <= i < j < |fed| && ws1[fed[i]].pending == 0 && ws1[fed[j]].pending == 0 ==>
      ws[fed[i]].pending > ws[fed[j]].pending)
  }

  /** The watchers after `w` has been fed to a queue of length `n`. */
  function Fed(ws: seq<Watcher>, n: nat, w: nat): (r: seq<Watcher>)
    requires w < |ws|
    ensures |r| == |ws|
  {
    if ws[w].pending != 0 then ws else Placed(ws, w, n + 1)
  }

  ghost predicate SameWatchers(q: Queue, r: Queue) {
    |r| == |q| && forall i :: 0 <= i < |q| ==> r[i].w == q[i].w
  }

  // ---------- one pass over the expired timers ----------

  predicate Expired(w: Watcher, now: int) { w.active != 0 && w.at < now }

  function NextTime(w: Watcher, now: int): int { if w.at + w.repeat < now then now else w.at + w.repeat }

  /** What becomes of an expired timer. */
  function Fired(w: Watcher, now: int): Watcher {
    if w.repeat != 0 then w.(at := NextTime(w, now)) else w.(active := 0, pending := 0, at := w.at - now)
  }

  ghost predicate PassedAt(ws0: seq<Watcher>, ws: seq<Watcher>, now: int, fed: seq<nat>, w: nat)
    requires w < |ws0| == |ws|
  {
    SameButSlot(if w in fed then Fired(ws0[w], now) else ws0[w], ws[w])
  }

  /** The timers in `fed`, expired ones of `ws0`, have been dealt with, and the others have not. */
  ghost predicate Passed(ws0: seq<Watcher>, ws: seq<Watcher>, now: int, fed: seq<nat>) {
    |ws| == |ws0| && Distinct(fed) && (forall i :: 0 <= i < |fed| ==> fed[i] < |ws0| && Expired(ws0[fed[i]], now)) &&
    forall w :: 0 <= w < |ws0| ==> PassedAt(ws0, ws, now, fed, w)
  }

  /** A watcher that has left the heap can be told so. */
  lemma {:induction false} DroppedKeeps(ws: seq<Watcher>, mid: seq<Watcher>, h: Heap, n: nat, q: Queue, w: nat, now: int)
    requires Linked(mid, h, n, w) && OnlySlots(ws, mid) && w < |ws| && Queued(ws, q)
    ensures var r := mid[w := mid[w].(active := 0, at := mid[w].at - now)];
            Linked(r, h, n, |r|) && OnlySlots(ws[w := ws[w].(active := 0, at := ws[w].at - now)], r) && Queued(r, q)
  {
    Dropped(mid, h, n, w, mid[w].at - now);
    var r := mid[w := mid[w].(active := 0, at := mid[w].at - now)];
    forall v | 0 <= v < |ws|
      ensures SameButSlot(ws[w := ws[w].(active := 0, at := ws[w].at - now)][v], r[v]) && r[v].pending == ws[v].pending {
      assert SameButSlot(ws[v], mid[v]);
    }
    UnconcernedKeeps(ws, r, q);
  }

  /** Expiry times do not decrease. */
  ghost predicate InOrder(ws0: seq<Watcher>, fed: seq<nat>) {
    (forall i :: 0 <= i < |fed| ==> fed[i] < |ws0|) &&
    forall i, j :: 0 <= i < j < |fed| ==> ws0[fed[i]].at <= ws0[fed[j]].at
  }

  ghost predicate NoneEarlier(ws0: seq<Watcher>, fed: seq<nat>) {
    (forall i :: 0 <= i < |fed| ==> fed[i] < |ws0|) &&
    forall i, w :: 0 <= i < |fed| && 0 <= w < |ws0| && w !in fed && ws0[w].active != 0 ==> ws0[fed[i]].at <= ws0[w].at
  }

  lemma {:induction false} RootIsNext(ws0: seq<Watcher>, ws: seq<Watcher>, h: Heap, n: nat, now: int, fed: seq<nat>)
    requires Passed(ws0, ws, now, fed) && InOrder(ws0, fed) && NoneEarlier(ws0, fed)
    requires Linked(ws, h, n, |ws|) && Ordered(h, n) && 0 < n && h[HEAP0].at < now
    ensures var w := h[HEAP0].w;
            w < |ws0| && w !in fed && Expired(ws0[w], now) && ws[w].repeat == ws0[w].repeat &&
            InOrder(ws0, fed + [w]) && NoneEarlier(ws0, fed + [w])
  {
    assert SlotOk(ws, h, HEAP0);
    var w := h[HEAP0].w;
    assert PassedAt(ws0, ws, now, fed, w);
    forall v | 0 <= v < |ws0| && v !in fed && ws0[v].active != 0 ensures ws0[w].at <= ws0[v].at {
      assert PassedAt(ws0, ws, now, fed, v);
      assert WatcherOk(ws, h, n, v);
      assert SlotOk(ws, h, ws[v].active);
      RootIsEarliest(h, n, ws[v].active);
    }
  }

  lemma {:induction false} PassedOn(ws0: seq<Watcher>, ws: seq<Watcher>, ws': seq<Watcher>, now: int, fed: seq<nat>, w: nat)
    requires Passed(ws0, ws, now, fed) && w < |ws| && w !in fed && Expired(ws0[w], now)
    requires OnlySlots(ws[w := Fired(ws[w], now)], ws')
    ensures Passed(ws0, ws', now, fed + [w])
  {
    forall v | 0 <= v < |ws0| ensures PassedAt(ws0, ws', now, fed + [w], v) {
      assert PassedAt(ws0, ws, now, fed, v);
      assert SameButSlot(ws[w := Fired(ws[w], now)][v], ws'[v]);
    }
  }

  /** When the earliest timer left is not due, no expired one has been left out. */
  lemma {:induction false} NoneLeft(ws0: seq<Watcher>, ws: seq<Watcher>, h: Heap, n: nat, now: int, fed: seq<nat>)
    requires Passed(ws0, ws, now, fed) && Linked(ws, h, n, |ws|) && Ordered(h, n) && !(n > 0 && h[HEAP0].at < now)
    ensures forall w :: 0 <= w < |ws0| ==> (w in fed <==> Expired(ws0[w], now))
  {
    forall w | 0 <= w < |ws0| && w !in fed ensures !Expired(ws0[w], now) {
      assert PassedAt(ws0, ws, now, fed, w);
      if ws0[w].active != 0 {
        assert WatcherOk(ws, h, n, w);
        assert SlotOk(ws, h, ws[w].active);
        RootIsEarliest(h, n, ws[w].active);
      }
    }
  }

  /** One-shot timers that were pending have lost their places. */
  ghost predicate QueuePassed(ws0: seq<Watcher>, q0: Queue, q: Queue, fed: seq<nat>) {
    |q| == |q0| && forall i :: 0 <= i < |q0| ==> QueuePassedAt(ws0, q0, q, fed, i)
  }

  ghost predicate QueuePassedAt(ws0: seq<Watcher>, q0: Queue, q: Queue, fed: seq<nat>, i: nat)
    requires i < |q0| == |q|
  {
    var w := q0[i].w;
    q[i].w == if w.Some? && w.value in fed && w.value < |ws0| && ws0[w.value].repeat == 0 then None else w
  }

  lemma {:induction false} QueuePassedOn(ws0: seq<Watcher>, q0: Queue, q: Queue, q': Queue, fed: seq<nat>, w: nat)
    requires QueuePassed(ws0, q0, q, fed) && w < |ws0|
    requires q' == if ws0[w].repeat == 0 then Without(q, w) else q
    ensures QueuePassed(ws0, q0, q', fed + [w])
  {
    forall i | 0 <= i < |q0| ensures QueuePassedAt(ws0, q0, q', fed + [w], i) {
      assert QueuePassedAt(ws0, q0, q, fed, i);
    }
  }

  lemma {:induction false} StackedNone(ws: seq<Watcher>, q: Queue, fed: seq<nat>)
    requires forall i :: 0 <= i < |fed| ==> fed[i] < |ws|
    ensures StackedFrom(ws, q, ws, q, fed, |fed|)
  {}

  lemma {:induction false} StackedOn(ws1: seq<Watcher>, q1: Queue, ws: seq<Watcher>, q: Queue, ws': seq<Watcher>, q': Queue, fed: seq<nat>, n: nat)
    requires n < |fed| && Distinct(fed) && StackedFrom(ws1, q1, ws, q, fed, n + 1)
    requires var w := fed[n];
             ws' == Fed(ws, |q|, w) && if ws[w].pending == 0 then |q'| == |q| + 1 && q'[..|q|] == q else SameWatchers(q, q')
    ensures StackedFrom(ws1, q1, ws', q', fed, n)
  {
    var w := fed[n];
    assert w !in fed[n + 1..];
    assert fed[n..] == [w] + fed[n + 1..];
    assert ws[w].pending == ws1[w].pending;
    forall i | 0 <= i < |q1| ensures q'[i].w == q1[i].w {
      assert ws[w].pending == 0 ==> q'[i] == q'[..|q|][i];
    }
  }

  // ---------- invoking what is pending ----------

  /** Stopping or restarting a timer takes it off the queue. */
  predicate CancelledBy(c: Call, w: nat) { !c.Start? && c.w == w }

  ghost predicate Cancels(calls: seq<Call>, w: nat) {
    exists i :: 0 <= i < |calls| && CancelledBy(calls[i], w)
  }

  lemma {:induction false} CancelsMore(calls: seq<Call>, i: nat, v: nat)
    requires i < |calls|
    ensures Cancels(calls[..i + 1], v) <==> Cancels(calls[..i], v) || CancelledBy(calls[i], v)
  {
    if Cancels(calls[..i], v) {
      var j :| 0 <= j < i && CancelledBy(calls[..i][j], v);
      assert CancelledBy(calls[..i + 1][j], v);
    }
    if CancelledBy(calls[i], v) {
      assert CancelledBy(calls[..i + 1][i], v);
    }
    if Cancels(calls[..i + 1], v) && !CancelledBy(calls[i], v) {
      var j :| 0 <= j < i + 1 && CancelledBy(calls[..i + 1][j], v);
      assert CancelledBy(calls[..i][j], v);
    }
  }

  /** What the three calls do to places in the queue. */
  lemma {:induction false} CallPending(ws: seq<Watcher>, ws': seq<Watcher>, c: Call, v: nat)
    requires v < |ws| == |ws'| && c.w < |ws|
    requires exists b: Watcher :: b.pending == (if c.Start? then ws[c.w].pending else 0) && OnlySlots(ws[c.w := b], ws')
    ensures ws'[v].pending == if CancelledBy(c, v) then 0 else ws[v].pending
  {
    var b: Watcher :| b.pending == (if c.Start? then ws[c.w].pending else 0) && OnlySlots(ws[c.w := b], ws');
    assert SameButSlot(ws[c.w := b][v], ws'[v]);
  }

  lemma {:induction false} UniquePlaces(ws: seq<Watcher>, q: Queue)
    requires Queued(ws, q)
    ensures forall v, w :: 0 <= v < |ws| && 0 <= w < |ws| && ws[v].pending == ws[w].pending != 0 ==> v == w
    ensures forall w :: 0 <= w < |ws| ==> ws[w].pending <= |q|
  {
    forall v, w | 0 <= v < |ws| && 0 <= w < |ws| && ws[v].pending == ws[w].pending != 0 ensures v == w {
      assert PlaceOk(ws, q, v) && PlaceOk(ws, q, w);
    }
    forall w | 0 <= w < |ws| ensures ws[w].pending <= |q| {
      assert PlaceOk(ws, q, w);
    }
  }

  /** Some callback among those that have been called has cancelled `w`. */
  ghost predicate Cancelled(callbacks: nat -> seq<Call>, ran: seq<nat>, w: nat) {
    exists i :: 0 <= i < |ran| && Cancels(callbacks(ran[i]), w)
  }

  /** And it was one from above `w` in the queue. */
  ghost predicate CancelledFromAbove(ws1: seq<Watcher>, callbacks: nat -> seq<Call>, ran: seq<nat>, w: nat)
    requires w < |ws1|
  {
    exists i :: 0 <= i < |ran| && ran[i] < |ws1| && ws1[ran[i]].pending > ws1[w].pending && Cancels(callbacks(ran[i]), w)
  }

  /** The callbacks called, `ran`, when what was above place `n` in the queue is done: from the top
      downwards, each once, and all but those cancelled by one above. */
  ghost predicate RanFrom(ws1: seq<Watcher>, ws: seq<Watcher>, callbacks: nat -> seq<Call>, ran: seq<nat>, n: nat) {
    |ws| == |ws1| &&
    (forall i :: 0 <= i < |ran| ==> ran[i] < |ws1| && ws1[ran[i]].pending > n) &&
    (forall i, j :: 0 <= i < j < |ran| ==> ws1[ran[i]].pending > ws1[ran[j]].pending) &&
    (forall w :: 0 <= w < |ws1| ==>
      ws[w].pending == if ws1[w].pending <= n && !Cancelled(callbacks, ran, w) then ws1[w].pending else 0) &&
    (forall w :: 0 <= w < |ws1| && ws1[w].pending > n ==> (w in ran <==> !CancelledFromAbove(ws1, callbacks, ran, w)))
  }

  lemma {:induction false} RanNone(ws: seq<Watcher>, q: Queue, callbacks: nat -> seq<Call>)
    requires Queued(ws, q)
    ensures RanFrom(ws, ws, callbacks, [], |q|)
  {
    UniquePlaces(ws, q);
  }

  lemma {:induction false} RanDummy(ws1: seq<Watcher>, ws: seq<Watcher>, q: Queue, callbacks: nat -> seq<Call>, ran: seq<nat>, n: nat)
    requires RanFrom(ws1, ws, callbacks, ran, n + 1) && Queued(ws, q) && |q| == n + 1 && q[n].w.None?
    ensures RanFrom(ws1, ws, callbacks, ran, n)
  {
    forall w | 0 <= w < |ws1| && ws1[w].pending == n + 1 ensures Cancelled(callbacks, ran, w) && CancelledFromAbove(ws1, callbacks, ran, w) {
      assert PlaceOk(ws, q, w);
    }
  }

  lemma {:induction false} RanOne(ws1: seq<Watcher>, ws: seq<Watcher>, q: Queue, ws': seq<Watcher>, callbacks: nat -> seq<Call>,
               ran: seq<nat>, n: nat, w: nat)
    requires RanFrom(ws1, ws, callbacks, ran, n + 1) && Queued(ws, q) && |q| == n + 1 && q[n].w == Some(w)
    requires |ws'| == |ws| && w < |ws|
    requires forall v :: 0 <= v < |ws| ==>
               ws'[v].pending == if Cancels(callbacks(w), v) then 0 else Placed(ws, w, 0)[v].pending
    requires forall v, u :: 0 <= v < |ws1| && 0 <= u < |ws1| && ws1[v].pending == ws1[u].pending != 0 ==> v == u
    ensures RanFrom(ws1, ws', callbacks, ran + [w], n)
  {
    assert EntryOk(ws, q, n);
    assert ws1[w].pending == n + 1 && !Cancelled(callbacks, ran, w);
    RanOnePlaces(ws1, ws, ws', callbacks, ran, n, w);
    forall v | 0 <= v < |ws1| && ws1[v].pending > n
      ensures v in ran + [w] <==> !CancelledFromAbove(ws1, callbacks, ran + [w], v)
    {
      AboveMore(ws1, callbacks, ran, w, v);
      if v == w { NotFromAbove(ws1, callbacks, ran, w); }
    }
  }

  lemma {:induction false} RanOnePlaces(ws1: seq<Watcher>, ws: seq<Watcher>, ws': seq<Watcher>, callbacks: nat -> seq<Call>,
                     ran: seq<nat>, n: nat, w: nat)
    requires |ws1| == |ws| == |ws'| && w < |ws| && ws1[w].pending == n + 1
    requires forall v :: 0 <= v < |ws1| ==>
               ws[v].pending == if ws1[v].pending <= n + 1 && !Cancelled(callbacks, ran, v) then ws1[v].pending else 0
    requires forall v :: 0 <= v < |ws| ==>
               ws'[v].pending == if Cancels(callbacks(w), v) then 0 else Placed(ws, w, 0)[v].pending
    requires forall v, u :: 0 <= v < |ws1| && 0 <= u < |ws1| && ws1[v].pending == ws1[u].pending != 0 ==> v == u
    ensures forall v :: 0 <= v < |ws1| ==>
              ws'[v].pending == if ws1[v].pending <= n && !Cancelled(callbacks, ran + [w], v) then ws1[v].pending else 0
  {
    forall v | 0 <= v < |ws1|
      ensures ws'[v].pending == if ws1[v].pending <= n && !Cancelled(callbacks, ran + [w], v) then ws1[v].pending else 0
    {
      CancelledMore(callbacks, ran, w, v);
    }
  }

  lemma {:induction false} NotFromAbove(ws1: seq<Watcher>, callbacks: nat -> seq<Call>, ran: seq<nat>, w: nat)
    requires w < |ws1| && !Cancelled(callbacks, ran, w)
    ensures !CancelledFromAbove(ws1, callbacks, ran, w)
  {}

  lemma {:induction false} CancelledMore(callbacks: nat -> seq<Call>, ran: seq<nat>, w: nat, v: nat)
    ensures Cancelled(callbacks, ran + [w], v) <==> Cancelled(callbacks, ran, v) || Cancels(callbacks(w), v)
  {
    var ran' := ran + [w];
    if i :| 0 <= i < |ran| && Cancels(callbacks(ran[i]), v) {
      assert ran'[i] == ran[i];
    }
    if Cancels(callbacks(w), v) {
      assert ran'[|ran|] == w;
    }
  }

  lemma {:induction false} AboveMore(ws1: seq<Watcher>, callbacks: nat -> seq<Call>, ran: seq<nat>, w: nat, v: nat)
    requires v < |ws1| && w < |ws1| && ws1[v].pending >= ws1[w].pending
    ensures CancelledFromAbove(ws1, callbacks, ran + [w], v) <==> CancelledFromAbove(ws1, callbacks, ran, v)
  {
    var ran' := ran + [w];
    if i :| 0 <= i < |ran| && ran[i] < |ws1| && ws1[ran[i]].pending > ws1[v].pending && Cancels(callbacks(ran[i]), v) {
      assert ran'[i] == ran[i];
    }
  }

  /** Expired, and not waiting in the queue already, or a one-shot timer, which gives up its place. */
  predicate NewlyDue(ws0: seq<Watcher>, now: int, w: nat) {
    w < |ws0| && Expired(ws0[w], now) && (ws0[w].pending == 0 || ws0[w].repeat == 0)
  }

  /** Expired, or pending from before. */
  predicate Due(w: Watcher, now: int) { Expired(w, now) || w.pending != 0 }

  lemma {:induction false} OnlyDueRan(ws0: seq<Watcher>, mid: seq<Watcher>, midq: Queue, ws1: seq<Watcher>, q1: Queue, ws: seq<Watcher>,
                                      now: int, callbacks: nat -> seq<Call>, fed: seq<nat>, ran: seq<nat>)
    requires Passed(ws0, mid, now, fed) && StackedFrom(mid, midq, ws1, q1, fed, 0) && RanFrom(ws1, ws, callbacks, ran, 0)
    ensures forall i :: 0 <= i < |ran| ==> ran[i] < |ws0| && Due(ws0[ran[i]], now)
  {
    forall i | 0 <= i < |ran| ensures ran[i] < |ws0| && Due(ws0[ran[i]], now) {
      var w := ran[i];
      assert PassedAt(ws0, mid, now, fed, w);
      assert fed[0..] == fed;
    }
  }

  lemma {:induction false} RanOnce(ws1: seq<Watcher>, ws: seq<Watcher>, callbacks: nat -> seq<Call>, ran: seq<nat>)
    requires RanFrom(ws1, ws, callbacks, ran, 0)
    ensures Distinct(ran) && forall i, j :: 0 <= i < j < |ran| ==> !Cancels(callbacks(ran[i]), ran[j])
  {
    forall i, j | 0 <= i < j < |ran| ensures !Cancels(callbacks(ran[i]), ran[j]) {
      assert ran[j] in ran;
    }
  }

  /** What is newly due has its turn first, in the order of expiry; then comes what was kept
      pending from before, from the top of the queue downwards. */
  predicate TurnBefore(ws0: seq<Watcher>, now: int, u: nat, w: nat) {
    u < |ws0| && w < |ws0| &&
    if NewlyDue(ws0, now, w) then NewlyDue(ws0, now, u) && ws0[u].at <= ws0[w].at
    else NewlyDue(ws0, now, u) || ws0[u].pending > ws0[w].pending
  }

  /** A callback called has cancelled `w`, and had its turn before. */
  ghost predicate CancelledBefore(ws0: seq<Watcher>, now: int, callbacks: nat -> seq<Call>, ran: seq<nat>, w: nat) {
    exists i :: 0 <= i < |ran| && TurnBefore(ws0, now, ran[i], w) && Cancels(callbacks(ran[i]), w)
  }

  /** The expired timers of `ws0` have been collected, and then fed. */
  ghost predicate Reified(ws0: seq<Watcher>, mid: seq<Watcher>, midq: Queue, ws1: seq<Watcher>, q1: Queue, now: int, fed: seq<nat>) {
    Passed(ws0, mid, now, fed) && InOrder(ws0, fed) && StackedFrom(mid, midq, ws1, q1, fed, 0) && Queued(mid, midq) &&
    forall w :: 0 <= w < |ws0| ==> (w in fed <==> Expired(ws0[w], now))
  }

  /** Newly due timers are on top of what was pending, which has kept its places. */
  lemma {:induction false} DueIsPlaced(ws0: seq<Watcher>, mid: seq<Watcher>, midq: Queue, ws1: seq<Watcher>, q1: Queue,
                                       now: int, fed: seq<nat>, w: nat)
    requires Reified(ws0, mid, midq, ws1, q1, now, fed) && w < |ws0| && Due(ws0[w], now)
    ensures w < |ws1| && ws1[w].pending > 0
    ensures if NewlyDue(ws0, now, w) then mid[w].pending == 0 && w in fed && ws1[w].pending > |midq|
            else ws1[w].pending == ws0[w].pending <= |midq|
  {
    assert PassedAt(ws0, mid, now, fed, w);
    assert PlaceOk(mid, midq, w);
  }

  lemma {:induction false} HigherIsEarlier(ws0: seq<Watcher>, mid: seq<Watcher>, midq: Queue, ws1: seq<Watcher>, q1: Queue,
                                           now: int, fed: seq<nat>, u: nat, w: nat)
    requires Reified(ws0, mid, midq, ws1, q1, now, fed) && u < |ws0| && w < |ws0| && Due(ws0[u], now) && Due(ws0[w], now)
    requires u < |ws1| && w < |ws1| && ws1[u].pending > ws1[w].pending
    ensures TurnBefore(ws0, now, u, w)
  {
    DueIsPlaced(ws0, mid, midq, ws1, q1, now, fed, u);
    DueIsPlaced(ws0, mid, midq, ws1, q1, now, fed, w);
    if NewlyDue(ws0, now, w) {
      var a :| 0 <= a < |fed| && fed[a] == u;
      var b :| 0 <= b < |fed| && fed[b] == w;
      assert a < b;
    }
  }

  lemma {:induction false} RanInOrder(ws0: seq<Watcher>, mid: seq<Watcher>, midq: Queue, ws1: seq<Watcher>, q1: Queue, ws: seq<Watcher>,
                   now: int, callbacks: nat -> seq<Call>, fed: seq<nat>, ran: seq<nat>)
    requires Reified(ws0, mid, midq, ws1, q1, now, fed) && RanFrom(ws1, ws, callbacks, ran, 0)
    requires forall i :: 0 <= i < |ran| ==> ran[i] < |ws0| && Due(ws0[ran[i]], now)
    ensures forall w :: 0 <= w < |ws0| && Due(ws0[w], now) ==> w in ran || CancelledBefore(ws0, now, callbacks, ran, w)
    ensures forall i, j :: 0 <= i < j < |ran| ==> TurnBefore(ws0, now, ran[i], ran[j])
  {
    forall w | 0 <= w < |ws0| && Due(ws0[w], now) && w !in ran ensures CancelledBefore(ws0, now, callbacks, ran, w) {
      DueIsPlaced(ws0, mid, midq, ws1, q1, now, fed, w);
      var i :| 0 <= i < |ran| && ran[i] < |ws1| && ws1[ran[i]].pending > ws1[w].pending && Cancels(callbacks(ran[i]), w);
      HigherIsEarlier(ws0, mid, midq, ws1, q1, now, fed, ran[i], w);
    }
    forall i, j | 0 <= i < j < |ran| ensures TurnBefore(ws0, now, ran[i], ran[j]) {
      HigherIsEarlier(ws0, mid, midq, ws1, q1, now, fed, ran[i], ran[j]);
    }
  }
}
