/** The cross-thread wake-up of libev (deps/libev/ev.c): ev_async_send and evpipe_write on any
    number of sending threads, the polling part of ev_run and pipecb on the loop thread.
    Every read or write of a shared flag is a step of its own, and steps of all threads
    interleave in any order under sequential consistency. */
module AsyncWakeup {

  type Watcher = nat

  /** Where a thread is inside ev_async_send for `w`, named after the step it takes next. */
  datatype Sender =
    | Idle
    | CheckFlag(w: Watcher)    // sent = 1 is done; next: if (*flag) return
    | SetFlag(w: Watcher)      // next: *flag = 1
    | MarkSkipped(w: Watcher)  // next: pipe_write_skipped = 1
    | CheckWanted(w: Watcher)  // next: if (pipe_write_wanted)
    | Unskip(w: Watcher)       // next: pipe_write_skipped = 0
    | WritePipe(w: Watcher)    // next: write

  /** Where the loop thread is, named after the step it takes next.  `ready` records that the
      poll found the pipe readable. */
  datatype Loop =
    | SetWanted                // pipe_write_wanted = 1
    | CheckSkipped             // decide whether to block
    | Poll(blocking: bool)     // inside backend_poll
    | ClearWanted(ready: bool) // pipe_write_wanted = 0
    | FeedSkipped(ready: bool) // if (pipe_write_skipped) feed pipe_w
    | ReadPipe(ready: bool)    // pipecb: drain the pipe if it was readable
    | ClearSkipped             // pipe_write_skipped = 0
    | CheckPending             // if (async_pending)
    | ClearPending             // async_pending = 0
    | Scan(i: nat)             // watchers below i are still to be looked at
    | ClearSent(i: nat)        // asyncs[i]->sent = 0
    | Feed(i: nat)             // ev_feed_event(asyncs[i])

  /** `pipe` is the eventfd counter, `sent` the watchers whose sent flag is set.  Bookkeeping:
      `owed` are the watchers with a send begun and no event fed since, `done` those among them for
      which a thread has passed the flag check. */
  datatype State = State(
    senders: seq<Sender>,
    loop: Loop,
    asyncCount: nat,
    sent: set<Watcher>,
    asyncPending: bool,
    skipped: bool,
    wanted: bool,
    pipe: nat,
    owed: set<Watcher>,
    done: set<Watcher>
  )

  datatype Action =
    | Send(t: nat, w: Watcher)      // thread t calls ev_async_send: sent = 1
    | SenderStep(t: nat)
    | LoopStep
    | OtherEvent                    // poll returns for a reason of its own

  predicate Enabled(s: State, a: Action) {
    match a
    case Send(t, w) => t < |s.senders| && s.senders[t].Idle? && w < s.asyncCount
    case SenderStep(t) => t < |s.senders| && !s.senders[t].Idle?
    case LoopStep => s.loop == Poll(true) ==> s.pipe > 0  // a blocking poll waits for the pipe
    case OtherEvent => s.loop.Poll?
  }

  function Advance(s: State, t: nat): (s': State)
    requires t < |s.senders| && !s.senders[t].Idle?
  {
    match s.senders[t]
    case CheckFlag(w) =>
      s.(senders := s.senders[t := if s.asyncPending then Idle else SetFlag(w)], done := if w in s.owed then s.done + {w} else s.done)
    case SetFlag(w) => s.(asyncPending := true, senders := s.senders[t := MarkSkipped(w)])
    case MarkSkipped(w) => s.(skipped := true, senders := s.senders[t := CheckWanted(w)])
    case CheckWanted(w) => s.(senders := s.senders[t := if s.wanted then Unskip(w) else Idle])
    case Unskip(w) => s.(skipped := false, senders := s.senders[t := WritePipe(w)])
    case WritePipe(w) => s.(pipe := s.pipe + 1, senders := s.senders[t := Idle])
  }

  function AdvanceLoop(s: State): (s': State) {
    match s.loop
    case SetWanted => s.(wanted := true, loop := CheckSkipped)
    case CheckSkipped => s.(loop := Poll(!s.skipped))
    case Poll(_) => s.(loop := ClearWanted(s.pipe > 0))
    case ClearWanted(ready) => s.(wanted := false, loop := FeedSkipped(ready))
    case FeedSkipped(ready) => s.(loop := if ready || s.skipped then ReadPipe(ready) else SetWanted)
    case ReadPipe(ready) => s.(pipe := if ready then 0 else s.pipe, loop := ClearSkipped)
    case ClearSkipped => s.(skipped := false, loop := CheckPending)
    case CheckPending => s.(loop := if s.asyncPending then ClearPending else SetWanted)
    case ClearPending => s.(asyncPending := false, loop := Scan(s.asyncCount))
    case Scan(i) =>
      if i == 0 then s.(loop := SetWanted)
      else s.(loop := if i - 1 in s.sent then ClearSent(i - 1) else Scan(i - 1))
    case ClearSent(i) => s.(sent := s.sent - {i}, loop := Feed(i))
    case Feed(i) => s.(owed := s.owed - {i}, done := s.done - {i}, loop := Scan(i))
  }

  function Apply(s: State, a: Action): (s': State)
    requires Enabled(s, a)
  {
    match a
    case Send(t, w) => s.(sent := s.sent + {w}, owed := s.owed + {w}, senders := s.senders[t := CheckFlag(w)])
    case SenderStep(t) => Advance(s, t)
    case LoopStep => AdvanceLoop(s)
    case OtherEvent => AdvanceLoop(s)
  }

  predicate Initial(s: State) {
    s.loop == SetWanted && s.sent == {} && s.owed == {} && s.done == {} && !s.asyncPending && !s.skipped && !s.wanted && s.pipe == 0 &&
    forall t :: 0 <= t < |s.senders| ==> s.senders[t].Idle?
  }

  /** `s'` is reached from `s` by the given schedule. */
  predicate Reaches(s: State, schedule: seq<Action>, s': State)
    decreases |schedule|
  {
    if schedule == [] then s == s'
    else Enabled(s, schedule[0]) && Reaches(Apply(s, schedule[0]), schedule[1..], s')
  }

  // ---------- the invariant ----------

  /** What a thread inside ev_async_send is still going to do. */
  datatype Promise =
    | ChecksFlag(w: Watcher)  // has yet to look at the flag for `w`
    | SetsFlag                // has seen it clear and will set it
    | Signals                 // will mark the skip, or write the pipe, whatever the loop does
    | Writes                  // will write the pipe if the loop still wants that

  predicate Makes(x: Sender, p: Promise) {
    match p
    case ChecksFlag(w) => x == CheckFlag(w)
    case SetsFlag => x.SetFlag?
    case Signals => x.MarkSkipped? || x.Unskip? || x.WritePipe?
    case Writes => x.CheckWanted? || x.Unskip?
  }

  ghost predicate Promised(senders: seq<Sender>, p: Promise) {
    exists t :: 0 <= t < |senders| && Makes(senders[t], p)
  }

  /** The loop will look at watcher `w`'s sent flag before it polls again. */
  predicate StillToScan(l: Loop, w: Watcher) {
    (l.Scan? && w < l.i) || (l.ClearSent? && w <= l.i) || (l.Feed? && w < l.i)
  }

  /** The loop will look at async_pending before it polls again. */
  predicate WillCheckPending(l: Loop) {
    (l.ClearWanted? && l.ready) || (l.FeedSkipped? && l.ready) || l.ReadPipe? || l.ClearSkipped? || l.CheckPending? ||
    l.ClearPending?
  }

  /** A set sent flag is announced by async_pending, is about to be, or is about to be scanned. */
  ghost predicate Announced(s: State, w: Watcher) {
    s.asyncPending || Promised(s.senders, ChecksFlag(w)) || Promised(s.senders, SetsFlag) || StillToScan(s.loop, w)
  }

  /** For a send that has passed the flag check that is not left to another one. */
  ghost predicate Secured(s: State, w: Watcher) {
    s.asyncPending || Promised(s.senders, SetsFlag) || StillToScan(s.loop, w) || s.loop == Feed(w)
  }

  /** A set async_pending will be noticed: by the skip mark, by the pipe, by a thread about to
      see to one of these, or because the loop is about to look. */
  ghost predicate Noticed(s: State) {
    s.skipped || s.pipe > 0 || Promised(s.senders, Signals) || WillCheckPending(s.loop)
  }

  ghost predicate Invariant(s: State) {
    && (forall w :: w in s.sent ==> w < s.asyncCount)
    && (forall w :: w in s.owed ==> w in s.sent || s.loop == Feed(w))
    && (forall w :: w in s.sent ==> Announced(s, w))
    && (forall w :: w in s.owed && w !in s.done ==> Promised(s.senders, ChecksFlag(w)))
    && (forall w :: w in s.done ==> w in s.owed && Secured(s, w))
    && (s.asyncPending ==> Noticed(s))
    && (s.loop == Poll(true) && s.skipped ==> Promised(s.senders, Writes))
    && (s.wanted <==> s.loop.CheckSkipped? || s.loop.Poll? || s.loop.ClearWanted?)
  }

  lemma {:induction false} InitialInvariant(s: State)
    requires Initial(s)
    ensures Invariant(s)
  {}

  /** A step of thread `t` leaves the promises of the others in force. */
  lemma {:induction false} Kept(senders: seq<Sender>, t: nat, x: Sender, p: Promise)
    requires t < |senders| && Promised(senders, p) && (Makes(senders[t], p) ==> Makes(x, p))
    ensures Promised(senders[t := x], p)
  {
    var u :| 0 <= u < |senders| && Makes(senders[u], p);
    assert Makes(senders[t := x][u], p);
  }

  lemma {:induction false} Made(senders: seq<Sender>, t: nat, x: Sender, p: Promise)
    requires t < |senders| && Makes(x, p)
    ensures Promised(senders[t := x], p)
  {
    assert Makes(senders[t := x][t], p);
  }

  /** When `t` moves to `x`, every promise it does not drop stays in force. */
  lemma {:induction false} PromisesKept(senders: seq<Sender>, t: nat, x: Sender, p: Promise)
    requires t < |senders|
    ensures Promised(senders, p) && (Makes(senders[t], p) ==> Makes(x, p)) ==> Promised(senders[t := x], p)
    ensures Makes(x, p) ==> Promised(senders[t := x], p)
  {
    if Makes(x, p) {
      Made(senders, t, x, p);
    } else if Promised(senders, p) && !Makes(senders[t], p) {
      Kept(senders, t, x, p);
    }
  }

  lemma {:induction false} AllPromisesKept(s: State, t: nat, x: Sender)
    requires t < |s.senders|
    ensures var after := s.senders[t := x];
            (forall w :: Promised(s.senders, ChecksFlag(w)) && s.senders[t] != CheckFlag(w) ==> Promised(after, ChecksFlag(w))) &&
            (forall w :: x == CheckFlag(w) ==> Promised(after, ChecksFlag(w))) &&
            (forall p | p in {SetsFlag, Signals, Writes} ::
               (Promised(s.senders, p) && (Makes(s.senders[t], p) ==> Makes(x, p)) ==> Promised(after, p)) &&
               (Makes(x, p) ==> Promised(after, p)))
  {
    PromisesKept(s.senders, t, x, SetsFlag);
    PromisesKept(s.senders, t, x, Signals);
    PromisesKept(s.senders, t, x, Writes);
    forall w ensures Promised(s.senders, ChecksFlag(w)) && s.senders[t] != CheckFlag(w) ==> Promised(s.senders[t := x], ChecksFlag(w))
             ensures x == CheckFlag(w) ==> Promised(s.senders[t := x], ChecksFlag(w))
    {
      PromisesKept(s.senders, t, x, ChecksFlag(w));
    }
  }

  lemma {:induction false} SendKeeps(s: State, t: nat, w: Watcher)
    requires Invariant(s) && Enabled(s, Send(t, w))
    ensures Invariant(Apply(s, Send(t, w)))
  {
    AllPromisesKept(s, t, CheckFlag(w));
    var s' := Apply(s, Send(t, w));
    forall v | v in s'.sent ensures Announced(s', v) {
      assert v == w || Announced(s, v);
    }
    forall v | v in s'.done ensures Secured(s', v) {
      assert Secured(s, v);
    }
  }

  lemma {:induction false} CheckFlagKeeps(s: State, t: nat)
    requires Invariant(s) && t < |s.senders| && s.senders[t].CheckFlag?
    ensures Invariant(Advance(s, t))
  {
    AllPromisesKept(s, t, if s.asyncPending then Idle else SetFlag(s.senders[t].w));
    var s' := Advance(s, t);
    forall v | v in s'.sent ensures Announced(s', v) {
      assert Announced(s, v);
    }
    forall v | v in s'.done ensures Secured(s', v) {
      assert v in s.done ==> Secured(s, v);
    }
  }

  lemma {:induction false} SetFlagKeeps(s: State, t: nat)
    requires Invariant(s) && t < |s.senders| && s.senders[t].SetFlag?
    ensures Invariant(Advance(s, t))
  {
    AllPromisesKept(s, t, MarkSkipped(s.senders[t].w));
    assert Noticed(Advance(s, t));
  }

  lemma {:induction false} MarkSkippedKeeps(s: State, t: nat)
    requires Invariant(s) && t < |s.senders| && s.senders[t].MarkSkipped?
    ensures Invariant(Advance(s, t))
  {
    AllPromisesKept(s, t, CheckWanted(s.senders[t].w));
    var s' := Advance(s, t);
    forall v | v in s'.sent ensures Announced(s', v) {
      assert Announced(s, v);
    }
    forall v | v in s'.done ensures Secured(s', v) {
      assert v in s.done ==> Secured(s, v);
    }
  }

  lemma {:induction false} CheckWantedKeeps(s: State, t: nat)
    requires Invariant(s) && t < |s.senders| && s.senders[t].CheckWanted?
    ensures Invariant(Advance(s, t))
  {
    AllPromisesKept(s, t, if s.wanted then Unskip(s.senders[t].w) else Idle);
    var s' := Advance(s, t);
    forall v | v in s'.sent ensures Announced(s', v) {
      assert Announced(s, v);
    }
    forall v | v in s'.done ensures Secured(s', v) {
      assert v in s.done ==> Secured(s, v);
    }
  }

  lemma {:induction false} UnskipKeeps(s: State, t: nat)
    requires Invariant(s) && t < |s.senders| && s.senders[t].Unskip?
    ensures Invariant(Advance(s, t))
  {
    AllPromisesKept(s, t, WritePipe(s.senders[t].w));
    var s' := Advance(s, t);
    forall v | v in s'.sent ensures Announced(s', v) {
      assert Announced(s, v);
    }
    forall v | v in s'.done ensures Secured(s', v) {
      assert v in s.done ==> Secured(s, v);
    }
  }

  lemma {:induction false} WritePipeKeeps(s: State, t: nat)
    requires Invariant(s) && t < |s.senders| && s.senders[t].WritePipe?
    ensures Invariant(Advance(s, t))
  {
    AllPromisesKept(s, t, Idle);
    var s' := Advance(s, t);
    forall v | v in s'.sent ensures Announced(s', v) {
      assert Announced(s, v);
    }
    forall v | v in s'.done ensures Secured(s', v) {
      assert v in s.done ==> Secured(s, v);
    }
  }

  lemma {:induction false} LoopKeeps(s: State)
    requires Invariant(s)
    ensures Invariant(AdvanceLoop(s))
  {
    var s' := AdvanceLoop(s);
    forall w | w in s'.sent
      ensures Announced(s', w)
    {
      assert Announced(s, w);
    }
    forall w | w in s'.done ensures Secured(s', w) {
      assert Secured(s, w);
    }
  }

  lemma {:induction false} StepKeepsInvariant(s: State, a: Action)
    requires Invariant(s) && Enabled(s, a)
    ensures Invariant(Apply(s, a))
  {
    match a {
      case Send(t, w) => SendKeeps(s, t, w);
      case LoopStep => LoopKeeps(s);
      case OtherEvent => LoopKeeps(s);
      case SenderStep(t) =>
        match s.senders[t] {
          case CheckFlag(_) => CheckFlagKeeps(s, t);
          case SetFlag(_) => SetFlagKeeps(s, t);
          case MarkSkipped(_) => MarkSkippedKeeps(s, t);
          case CheckWanted(_) => CheckWantedKeeps(s, t);
          case Unskip(_) => UnskipKeeps(s, t);
          case WritePipe(_) => WritePipeKeeps(s, t);
        }
    }
  }

  lemma {:induction false} ReachableInvariant(s: State, schedule: seq<Action>, s': State)
    requires Invariant(s) && Reaches(s, schedule, s')
    ensures Invariant(s')
    decreases |schedule|
  {
    if schedule != [] {
      StepKeepsInvariant(s, schedule[0]);
      ReachableInvariant(Apply(s, schedule[0]), schedule[1..], s');
    }
  }

  // ---------- no lost wake-up ----------

  /** How many more steps of its own take a thread to its write into the pipe, as long as the
      loop stays blocked; 0 when it may still give up before that. */
  function StepsToWrite(x: Sender): nat {
    match x
    case SetFlag(_) => 5
    case MarkSkipped(_) => 4
    case CheckWanted(_) => 3
    case Unskip(_) => 2
    case WritePipe(_) => 1
    case CheckFlag(_) => 0
    case Idle => 0
  }

  /** Whatever the schedule: if the loop is blocked in its poll with nothing in the pipe, and for
      some watcher a send has passed the flag check and no event been fed, then some thread is on
      its way to write the pipe. */
  lemma {:induction false} NoLostWakeUp(s: State, schedule: seq<Action>, s': State, w: Watcher)
    requires Initial(s) && Reaches(s, schedule, s')
    requires s'.loop == Poll(true) && s'.pipe == 0 && w in s'.done
    ensures exists t :: 0 <= t < |s'.senders| && StepsToWrite(s'.senders[t]) > 0
  {
    InitialInvariant(s);
    ReachableInvariant(s, schedule, s');
    assert Secured(s', w);
    if s'.asyncPending { assert Noticed(s'); }
    var p := if !s'.asyncPending then SetsFlag else if s'.skipped then Writes else Signals;
    var t :| 0 <= t < |s'.senders| && Makes(s'.senders[t], p);
    assert StepsToWrite(s'.senders[t]) > 0;
  }

  /** A send that has not passed the flag check is still on its way to it. */
  lemma {:induction false} BegunSendGoesOn(s: State, schedule: seq<Action>, s': State, w: Watcher)
    requires Initial(s) && Reaches(s, schedule, s') && w in s'.owed && w !in s'.done
    ensures exists t :: 0 <= t < |s'.senders| && s'.senders[t] == CheckFlag(w)
  {
    InitialInvariant(s);
    ReachableInvariant(s, schedule, s');
    var t :| 0 <= t < |s'.senders| && Makes(s'.senders[t], ChecksFlag(w));
  }

  // ---------- what a completed send is ----------

  /** The schedule, from `s`, feeds no event to `w`. */
  predicate NotFed(s: State, schedule: seq<Action>, w: Watcher)
    decreases |schedule|
  {
    schedule == [] ||
    (Enabled(s, schedule[0]) && !(schedule[0].LoopStep? && s.loop == Feed(w)) && NotFed(Apply(s, schedule[0]), schedule[1..], w))
  }

  lemma {:induction false} DoneStays(s: State, schedule: seq<Action>, s': State, w: Watcher)
    requires Reaches(s, schedule, s') && NotFed(s, schedule, w) && w in s.done
    ensures w in s'.done
    decreases |schedule|
  {
    if schedule != [] {
      DoneStays(Apply(s, schedule[0]), schedule[1..], s', w);
    }
  }

  /** A send begun by thread `t` is in `done` as soon as the thread has passed the flag check, in
      particular when ev_async_send has returned, for as long as no event is fed. */
  lemma {:induction false} PassedIsDone(s: State, schedule: seq<Action>, s': State, t: nat, w: Watcher)
    requires Reaches(s, schedule, s') && NotFed(s, schedule, w) && w in s.owed
    requires t < |s.senders| && s.senders[t] == CheckFlag(w) && (t < |s'.senders| ==> s'.senders[t] != CheckFlag(w))
    ensures w in s'.done
    decreases |schedule|
  {
    if schedule != [] {
      var next := Apply(s, schedule[0]);
      if schedule[0] == SenderStep(t) {
        DoneStays(next, schedule[1..], s', w);
      } else {
        PassedIsDone(next, schedule[1..], s', t, w);
      }
    }
  }

  lemma {:induction false} ReachesOn(s: State, first: seq<Action>, m: State, rest: seq<Action>, s': State)
    requires Reaches(s, first, m) && Reaches(m, rest, s')
    ensures Reaches(s, first + rest, s')
    decreases |first|
  {
    if first == [] {
      assert [] + rest == rest;
    } else {
      ReachesOn(Apply(s, first[0]), first[1..], m, rest, s');
      assert (first + rest)[1..] == first[1..] + rest;
    }
  }

  /** No send is lost: a thread calls ev_async_send for `w`, anything happens but an event fed to
      `w`, and the thread has returned.  Then the loop is not blocked with an empty pipe, unless
      some thread is on its way to write it. */
  lemma {:induction false} CompletedSendIsNotLost(s: State, before: seq<Action>, m: State, t: nat, w: Watcher,
                                                  after: seq<Action>, s': State)
    requires Initial(s) && Reaches(s, before, m) && Enabled(m, Send(t, w))
    requires Reaches(Apply(m, Send(t, w)), after, s') && NotFed(Apply(m, Send(t, w)), after, w)
    requires t < |s'.senders| && s'.senders[t].Idle? && s'.loop == Poll(true) && s'.pipe == 0
    ensures exists u :: 0 <= u < |s'.senders| && StepsToWrite(s'.senders[u]) > 0
  {
    var begun := Apply(m, Send(t, w));
    assert Reaches(begun, [], begun) && Reaches(m, [Send(t, w)], begun);
    ReachesOn(s, before, m, [Send(t, w)], begun);
    ReachesOn(s, before + [Send(t, w)], begun, after, s');
    PassedIsDone(begun, after, s', t, w);
    NoLostWakeUp(s, before + [Send(t, w)] + after, s', w);
  }

  /** That write cannot be called off: while the loop is blocked each step of the thread brings it
      closer, and no step of another thread, or send begun by one, changes that or empties the pipe. */
  lemma {:induction false} WakeUpArrives(s: State, t: nat, a: Action)
    requires Invariant(s) && s.loop == Poll(true) && t < |s.senders| && StepsToWrite(s.senders[t]) > 0
    requires Enabled(s, a) && (a.Send? || a.SenderStep?)
    ensures var s' := Apply(s, a);
            s'.loop == Poll(true) &&
            (if a != SenderStep(t) then s'.senders[t] == s.senders[t] && s'.pipe >= s.pipe
             else if StepsToWrite(s.senders[t]) == 1 then s'.pipe == s.pipe + 1
             else s'.pipe == s.pipe && StepsToWrite(s'.senders[t]) == StepsToWrite(s.senders[t]) - 1)
  {}

  /** Once nobody is inside ev_async_send, the loop is never stuck: it has fed every watcher, or
      the pipe is readable and wakes it. */
  lemma {:induction false} NeverStuck(s: State, schedule: seq<Action>, s': State)
    requires Initial(s) && Reaches(s, schedule, s')
    requires forall t :: 0 <= t < |s'.senders| ==> s'.senders[t].Idle?
    ensures s'.loop == Poll(true) && s'.pipe == 0 ==> s'.owed == {}
  {
    if s'.loop == Poll(true) && s'.pipe == 0 && s'.owed != {} {
      InitialInvariant(s);
      ReachableInvariant(s, schedule, s');
      var w :| w in s'.owed;
      NoLostWakeUp(s, schedule, s', w);
    }
  }

  // ---------- delivery ----------

  /** An upper bound on the loop steps left before the next pipe_write_wanted = 1. */
  function Remaining(s: State): nat {
    match s.loop
    case SetWanted => 0
    case Scan(i) => 3 * i + 1
    case ClearSent(i) => 3 * i + 3
    case Feed(i) => 3 * i + 2
    case ClearPending => 3 * s.asyncCount + 2
    case CheckPending => 3 * s.asyncCount + 3
    case ClearSkipped => 3 * s.asyncCount + 4
    case ReadPipe(_) => 3 * s.asyncCount + 5
    case FeedSkipped(_) => 3 * s.asyncCount + 6
    case ClearWanted(_) => 3 * s.asyncCount + 7
    case Poll(_) => 3 * s.asyncCount + 8
    case CheckSkipped => 3 * s.asyncCount + 9
  }

  lemma {:induction false} LoopMakesProgress(s: State)
    requires s.loop != SetWanted
    ensures Remaining(AdvanceLoop(s)) < Remaining(s)
  {}

  /** The loop thread alone, up to its next pipe_write_wanted = 1. */
  function RunLoop(s: State): (s': State)
    ensures s'.loop == SetWanted
    decreases Remaining(s)
  {
    if s.loop == SetWanted then s else LoopMakesProgress(s); RunLoop(AdvanceLoop(s))
  }

  /** With nobody inside ev_async_send, only the flags announce a send. */
  lemma {:induction false} QuiescentFlags(s: State)
    requires Invariant(s) && forall t :: 0 <= t < |s.senders| ==> s.senders[t].Idle?
    ensures forall w :: w in s.sent ==> s.asyncPending || StillToScan(s.loop, w)
    ensures s.asyncPending ==> s.skipped || s.pipe > 0 || WillCheckPending(s.loop)
  {
    forall w | w in s.sent
      ensures s.asyncPending || StillToScan(s.loop, w)
    {
      assert Announced(s, w);
    }
  }

  lemma {:induction false} RunLoopFeeds(s: State)
    requires Invariant(s) && forall t :: 0 <= t < |s.senders| ==> s.senders[t].Idle?
    requires s.loop == SetWanted ==> s.owed == {}
    requires s.loop.ClearWanted? && !s.loop.ready ==> s.pipe == 0
    requires s.loop.FeedSkipped? && !s.loop.ready ==> s.pipe == 0
    requires s.loop.Scan? || s.loop.ClearSent? || s.loop.Feed? ==> !s.asyncPending
    ensures RunLoop(s).owed == {}
    decreases Remaining(s)
  {
    if s.loop != SetWanted {
      var s' := AdvanceLoop(s);
      LoopKeeps(s);
      LoopMakesProgress(s);
      QuiescentFlags(s);
      QuiescentFlags(s');
      RunLoopFeeds(s');
    }
  }

  /** A loop that comes out of its poll while nobody is inside ev_async_send feeds every watcher
      that is owed an event before it polls again: none stays behind. */
  lemma {:induction false} PollDeliversAll(s: State, schedule: seq<Action>, s': State)
    requires Initial(s) && Reaches(s, schedule, s') && s'.loop.Poll?
    requires forall t :: 0 <= t < |s'.senders| ==> s'.senders[t].Idle?
    ensures RunLoop(s').owed == {}
  {
    InitialInvariant(s);
    ReachableInvariant(s, schedule, s');
    RunLoopFeeds(s');
  }
}
