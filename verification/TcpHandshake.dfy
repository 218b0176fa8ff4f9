/** The handshake of a TCP session with its failover between servers (src/tcp_proxy.c): build the
    request header, connect, send the header, and on failure go on with the next untried server,
    unless the whole request with the client's payload has been queued already. */
module TcpHandshake {
  import opened Options
  import opened Sequences
  import Selector = ServerSelector

  /** The result of tcp_connect; Fast Open queues some of the header at once. */
  datatype Connect = ConnectFailed(local: bool) | InProgress(sent: nat) | Connected

  /** The result of one send of the request header. */
  datatype HeaderSend = Took(n: nat) | NotReady | SendError(local: bool)

  /** What happens while a server is awaited. */
  datatype Event = Timeout | Ready(error: Option<bool>, send: HeaderSend)

  /** What happens during the `k`-th attempt of a session, as far as it is outside the session; the
      selector is asked with `n` servers tried. */
  datatype World = World(
    selector: (nat, nat) -> Selector.State,
    clientBroken: nat -> bool,
    contextReady: (nat, nat) -> bool,
    buildHeader: nat -> Option<nat>,
    connect: nat -> Connect,
    connectError: nat -> Option<bool>,
    firstSend: nat -> HeaderSend)

  datatype Phase = Connecting | Relaying | Closed(reset: bool)

  /** A session, and what has happened: servers connected to, servers that the whole of a request
      with payload was queued to, servers reported as failed. */
  datatype State = State(serverIdx: nat, tried: set<nat>, retryCount: nat, headerLen: nat, headerSent: nat, sending: bool,
                         phase: Phase, attempts: seq<nat>, queued: seq<nat>, reported: seq<nat>)

  // ---------- what each step makes of a session ----------

  ghost predicate Bounded(tried: set<nat>, n: nat) { forall i :: i in tried ==> i < n }

  /** How many servers are left to try. */
  ghost function Untried(tried: set<nat>, n: nat): nat
    requires Bounded(tried, n)
  {
    BoundedSet(tried, n);
    n - |tried|
  }

  lemma {:induction false} FewerUntried(tried: set<nat>, n: nat, next: nat)
    requires Bounded(tried, n) && next < n && next !in tried
    ensures Bounded(tried + {next}, n) && Untried(tried + {next}, n) < Untried(tried, n)
  {
    BoundedSet(tried + {next}, n);
  }

  datatype Setting = Setting(servers: nat, world: World, payloadLen: nat) {
    /** The selector's other users change what it prefers, not which servers there are; and a
        request header is never empty. */
    ghost predicate Valid() {
      0 < servers && (forall k: nat, n: nat :: |world.selector(k, n).servers| == servers) &&
      forall k: nat :: world.buildHeader(k).Some? ==> 0 < world.buildHeader(k).value
    }

    /** The guard against replay. */
    predicate FullyQueued(s: State) {
      payloadLen > 0 && s.headerLen > 0 && s.headerSent >= s.headerLen
    }

    /** At attempt `j` server `i` cannot be used: no context, or no header. */
    predicate Unusable(j: nat, i: nat) { !world.contextReady(j, i) || world.buildHeader(j).None? }

    ghost predicate PassedOver(i: nat, k: nat) { exists j: nat :: j <= k && Unusable(j, i) }

    /** Every server turned to, but possibly the current one, was connected to or could not be used. */
    ghost predicate Accounted(s: State, current: bool) {
      forall i :: i in s.tried && (current || i != s.serverIdx) ==> i in s.attempts || PassedOver(i, s.retryCount)
    }

    /** What holds of every session: servers are connected to once, only those connected to are
        reported, the whole request is queued to the current one or to none, and why it was closed. */
    ghost predicate Sound(s: State) {
      s.serverIdx in s.tried && Bounded(s.tried, servers) && s.headerSent <= s.headerLen &&
      Distinct(s.attempts) && (forall i :: i in s.attempts ==> i in s.tried) && (forall i :: i in s.reported ==> i in s.attempts) &&
      (s.attempts != [] ==> 0 < s.headerLen) && (s.phase.Relaying? ==> s.attempts != [] && s.headerSent == s.headerLen) &&
      (s.queued != [] ==> s.serverIdx in s.attempts) && (s.queued == if FullyQueued(s) then [s.serverIdx] else []) &&
      (s.phase == Closed(true) ==> FullyQueued(s) || forall i :: 0 <= i < servers ==> i in s.tried) &&
      (s.phase == Closed(false) ==> !FullyQueued(s) && (world.clientBroken(s.retryCount) || (forall i :: 0 <= i < servers ==> i in s.tried)))
    }

    /** Turned to a server that has not been connected to. */
    ghost predicate Starting(s: State) {
      Sound(s) && s.phase.Connecting? && !FullyQueued(s) && s.serverIdx !in s.attempts && Accounted(s, false)
    }

    /** Connected to the current server, or connecting. */
    ghost predicate Waiting(s: State) {
      Sound(s) && s.phase.Connecting? && s.serverIdx in s.attempts && Accounted(s, true)
    }

    /** Where every step leaves a session. */
    ghost predicate Stepped(s: State) {
      Sound(s) && Accounted(s, true) && (s.phase.Connecting? ==> s.serverIdx in s.attempts)
    }

    /** Given up on the current server. */
    ghost predicate Failed(s: State, nodeFailure: bool) {
      Sound(s) && s.phase.Connecting? && Accounted(s, true) && (nodeFailure ==> s.serverIdx in s.attempts)
    }

    // ---------- what each step makes of a session ----------

    function Counted(s: State, n: nat): State {
      var t := s.(headerSent := s.headerSent + n);
      if n > 0 && FullyQueued(t) then t.(queued := s.queued + [s.serverIdx]) else t
    }

    /** The untried server the selector prefers at this attempt. */
    function Next(s: State): (next: Option<nat>)
      requires Valid() && Bounded(s.tried, servers)
      ensures next.Some? ==> next.value < servers && next.value !in s.tried &&
                             Bounded(s.tried + {next.value}, servers) && Untried(s.tried + {next.value}, servers) < Untried(s.tried, servers)
      ensures next.None? ==> forall i :: 0 <= i < servers ==> i in s.tried
    {
      var state := world.selector(s.retryCount, |s.tried|);
      Selector.CandidateIsBest(state, s.tried);
      var next := Selector.Candidate(state, s.tried);
      if next.Some? then FewerUntried(s.tried, servers, next.value); next else next
    }

    /** A session turned to the next server. */
    function Moved(s: State, next: nat): State {
      s.(serverIdx := next, tried := s.tried + {next}, retryCount := s.retryCount + 1)
    }

    function Reported(s: State, nodeFailure: bool): State {
      if nodeFailure then s.(reported := s.reported + [s.serverIdx]) else s
    }

    lemma {:induction false} MovedStarts(s: State, nodeFailure: bool)
      requires Valid() && Failed(s, nodeFailure) && !FullyQueued(s) && Next(s).Some?
      ensures Starting(Moved(Reported(s, nodeFailure), Next(s).value))
    {
      var m := Moved(Reported(s, nodeFailure), Next(s).value);
      forall i | i in m.tried && i != m.serverIdx ensures i in m.attempts || PassedOver(i, m.retryCount) {
        if PassedOver(i, s.retryCount) {
          var j: nat :| j <= s.retryCount && Unusable(j, i);
        }
      }
    }

    /** What is tried depends on neither reports nor phase. */
    lemma {:induction false} NextOf(s: State, nodeFailure: bool)
      requires Valid() && Bounded(s.tried, servers)
      ensures Next(Reported(s, nodeFailure)) == Next(s)
    {}

    lemma {:induction false} CurrentPassedOver(s: State)
      requires Starting(s) && Unusable(s.retryCount, s.serverIdx)
      ensures Failed(s, false)
    {
      assert PassedOver(s.serverIdx, s.retryCount);
    }

    lemma {:induction false} CountedWaits(s: State, n: nat)
      requires Waiting(s) && s.headerSent + n <= s.headerLen && (n > 0 ==> !FullyQueued(s))
      ensures Waiting(Counted(s, n))
    {}

    lemma {:induction false} ConnectingWaits(s: State, len: nat, sending: bool)
      requires Starting(s) && 0 < len
      ensures Waiting(s.(headerLen := len, headerSent := 0, attempts := s.attempts + [s.serverIdx], sending := sending))
    {}

    /** After a failure: report it, stop if the request is queued whole or the client has gone, and
        otherwise try one server after the other. */
    ghost function Retried(s: State, nodeFailure: bool): (t: State)
      requires Valid() && Failed(s, nodeFailure)
      ensures Stepped(t)
      decreases Untried(s.tried, servers), 0
    {
      var r := Reported(s, nodeFailure);
      if FullyQueued(s) then r.(phase := Closed(true))
      else if world.clientBroken(s.retryCount) then r.(phase := Closed(false))
      else
        match Next(s)
        case None => r.(phase := Closed(true))
        case Some(next) =>
          MovedStarts(s, nodeFailure);
          Entered(Moved(r, next))
    }

    lemma {:induction false} RetriedOn(s: State, nodeFailure: bool)
      requires Valid() && Failed(s, nodeFailure)
      ensures Bounded(s.tried, servers)
      ensures FullyQueued(s) || world.clientBroken(s.retryCount) ==>
              Retried(s, nodeFailure) == Reported(s, nodeFailure).(phase := Closed(FullyQueued(s)))
      ensures !FullyQueued(s) && !world.clientBroken(s.retryCount) ==>
              match Next(Reported(s, nodeFailure))
              case None => Retried(s, nodeFailure) == Reported(s, nodeFailure).(phase := Closed(true))
              case Some(next) => var m := Moved(Reported(s, nodeFailure), next); Starting(m) && Retried(s, nodeFailure) == Entered(m)
    {
      NextOf(s, nodeFailure);
      hide Next;
      if !FullyQueued(s) && !world.clientBroken(s.retryCount) && Next(s).Some? { MovedStarts(s, nodeFailure); }
    }

    /** A server just turned to is passed over when its context cannot be used. */
    ghost function Entered(s: State): (t: State)
      requires Valid() && Starting(s)
      ensures Stepped(t)
      decreases Untried(s.tried, servers), 4
    {
      if world.contextReady(s.retryCount, s.serverIdx) then Started(s)
      else
        CurrentPassedOver(s);
        Retried(s, false)
    }

    /** Building the header and connecting. */
    ghost function Started(s: State): (t: State)
      requires Valid() && Starting(s)
      ensures Stepped(t)
      decreases Untried(s.tried, servers), 3
    {
      match world.buildHeader(s.retryCount)
      case None =>
        CurrentPassedOver(s);
        Retried(s, false)
      case Some(len) =>
        var t := s.(headerLen := len, headerSent := 0, attempts := s.attempts + [s.serverIdx]);
        ConnectingWaits(s, len, s.sending);
        ConnectingWaits(s, len, false);
        match world.connect(s.retryCount)
        case ConnectFailed(local) => Retried(t, !local)
        case InProgress(sent) =>
          CountedWaits(t.(sending := false), Least(sent, len));
          Counted(t.(sending := false), Least(sent, len))
        case Connected => Answered(t.(sending := false), world.connectError(s.retryCount), world.firstSend(s.retryCount))
    }

    /** The server's socket is ready for the first time. */
    ghost function Answered(s: State, error: Option<bool>, send: HeaderSend): (t: State)
      requires Valid() && Waiting(s)
      ensures Stepped(t)
      decreases Untried(s.tried, servers), 2
    {
      if error.Some? then Retried(s, !error.value)
      else if s.headerSent >= s.headerLen then s.(phase := Relaying)
      else HeaderSent(s.(sending := true), send)
    }

    /** One send of the rest of the header. */
    ghost function HeaderSent(s: State, send: HeaderSend): (t: State)
      requires Valid() && Waiting(s)
      ensures Stepped(t)
      decreases Untried(s.tried, servers), 1
    {
      if s.headerSent >= s.headerLen then s.(phase := Relaying)
      else
        match send
        case NotReady => s
        case SendError(local) => Retried(s, !local)
        case Took(n) =>
          if n == 0 then Retried(s, true)
          else
            CountedWaits(s, Least(n, s.headerLen - s.headerSent));
            var t := Counted(s, Least(n, s.headerLen - s.headerSent));
            if t.headerSent == t.headerLen then t.(phase := Relaying) else t
    }

    ghost function After(s: State, e: Event): (t: State)
      requires Valid() && Stepped(s)
      ensures Stepped(t)
    {
      if !s.phase.Connecting? then s
      else
        match e
        case Timeout => Retried(s, true)
        case Ready(error, send) => if s.sending then HeaderSent(s, send) else Answered(s, error, send)
    }

    /** tcp_session_create: the published server, or the best one whose context is usable. */
    ghost function Chosen(s: State): (t: State)
      requires Valid() && Starting(s) && s.attempts == [] && s.headerLen == 0
      ensures if t.phase.Connecting? then Starting(t) && t.attempts == [] && t.headerLen == 0 else Stepped(t)
      decreases Untried(s.tried, servers)
    {
      if world.contextReady(s.retryCount, s.serverIdx) then s
      else
        CurrentPassedOver(s);
        match Next(s)
        case None => s.(phase := Closed(false))
        case Some(next) => Chosen(s.(serverIdx := next, tried := s.tried + {next}))
    }

    function New(published: nat): State {
      State(published, {published}, 0, 0, 0, false, Connecting, [], [], [])
    }

    ghost function Begun(published: nat): (t: State)
      requires Valid() && published < servers
      ensures Stepped(t)
    {
      var s := Chosen(New(published));
      if s.phase.Connecting? then Started(s) else s
    }

    /** A whole handshake. */
    ghost function Ran(published: nat, events: seq<Event>): (s: State)
      requires Valid() && published < servers
      ensures Stepped(s)
      decreases |events|
    {
      if events == [] then Begun(published)
      else After(Ran(published, events[..|events| - 1]), events[|events| - 1])
    }
  }

  // ---------- the source's code ----------

  /** How far a send of the header got; `Gone` when the session has moved on. */
  datatype Progress = All | Part | Gone

  class Handshake {
    const setting: Setting
    var serverIdx: nat
    var tried: set<nat>
    var retryCount: nat
    var headerLen: nat
    var headerSent: nat
    var sending: bool
    var phase: Phase
    var attempts: seq<nat>
    var queued: seq<nat>
    var reported: seq<nat>

    function Now(): State
      reads this
    {
      State(serverIdx, tried, retryCount, headerLen, headerSent, sending, phase, attempts, queued, reported)
    }

    ghost predicate Starting()
      reads this
    {
      setting.Valid() && setting.Starting(Now())
    }

    ghost predicate Waiting()
      reads this
    {
      setting.Valid() && setting.Waiting(Now())
    }

    ghost function Room(): nat
      requires Bounded(tried, setting.servers)
      reads this
    {
      Untried(tried, setting.servers)
    }

    /** tcp_session_create */
    constructor (setting: Setting, published: nat)
      requires setting.Valid() && published < setting.servers
      ensures this.setting == setting && Now() == setting.Chosen(setting.New(published))
    {
      this.setting := setting;
      serverIdx, tried, retryCount := published, {published}, 0;
      headerLen, headerSent, sending, phase := 0, 0, false, Connecting;
      attempts, queued, reported := [], [], [];
      new;
      assert setting.Starting(setting.New(published));
      SkipUnusable();
    }

    /** The selection loop of tcp_session_create. */
    method SkipUnusable()
      requires Starting() && attempts == [] && headerLen == 0
      modifies this`serverIdx, this`tried, this`phase
      ensures Now() == setting.Chosen(old(Now()))
    {
      while !setting.world.contextReady(retryCount, serverIdx)
        invariant Starting() && attempts == [] && headerLen == 0
        invariant setting.Chosen(Now()) == setting.Chosen(old(Now()))
        decreases Room()
      {
        setting.CurrentPassedOver(Now());
        var next := setting.Next(Now());
        if next.None? {
          phase := Closed(false);
          return;
        }
        serverIdx, tried := next.value, tried + {next.value};
      }
    }

    /** Advances request_header_sent. */
    method CountSent(n: nat)
      modifies this`headerSent, this`queued
      ensures Now() == setting.Counted(old(Now()), n)
    {
      headerSent := headerSent + n;
      if n > 0 && setting.FullyQueued(Now()) {
        queued := queued + [serverIdx];
      }
    }

    /** tcp_handshake_send_request_header; the session enters the relay when all is sent. */
    method SendRequestHeader(send: HeaderSend) returns (r: Progress)
      requires Waiting()
      modifies this
      ensures setting.HeaderSent(old(Now()), send) == if r.All? then Now().(phase := Relaying) else Now()
      decreases Room(), 1
    {
      if headerSent == headerLen {
        return All;
      }
      match send {
        case NotReady => return Part;
        case SendError(local) =>
          var _ := Retry(!local);
          return Gone;
        case Took(n) =>
          if n == 0 {
            var _ := Retry(true);
            return Gone;
          }
          CountSent(Least(n, headerLen - headerSent));
          return if headerSent == headerLen then All else Part;
      }
    }

    /** tcp_handshake_on_server_writable */
    method OnServerWritable(send: HeaderSend)
      requires Waiting()
      modifies this
      ensures Now() == setting.HeaderSent(old(Now()), send)
      decreases Room(), 2
    {
      var r := SendRequestHeader(send);
      if r.All? {
        phase := Relaying;
      }
    }

    /** tcp_handshake_on_server_connected */
    method OnServerConnected(error: Option<bool>, send: HeaderSend)
      requires Waiting()
      modifies this
      ensures Now() == setting.Answered(old(Now()), error, send)
      decreases Room(), 3
    {
      if error.Some? {
        var _ := Retry(!error.value);
        return;
      }
      if headerSent >= headerLen {
        phase := Relaying;
        return;
      }
      sending := true;
      OnServerWritable(send);
    }

    /** tcp_handshake_try_connect: what is left to do after a failure is to retry. */
    method TryConnect() returns (ok: bool, nodeFailure: bool)
      requires Starting()
      modifies this
      ensures ok ==> Now() == setting.Started(old(Now()))
      ensures !ok ==> setting.Failed(Now(), nodeFailure) && tried == old(tried)
      ensures !ok ==> setting.Started(old(Now())) == setting.Retried(Now(), nodeFailure)
      decreases Room(), 4
    {
      var header := setting.world.buildHeader(retryCount);
      if header.None? {
        setting.CurrentPassedOver(Now());
        return false, false;
      }
      setting.ConnectingWaits(Now(), header.value, sending);
      setting.ConnectingWaits(Now(), header.value, false);
      headerLen, headerSent := header.value, 0;
      attempts := attempts + [serverIdx];
      var conn := setting.world.connect(retryCount);
      match conn {
        case ConnectFailed(local) => return false, !local;
        case InProgress(sent) =>
          sending := false;
          CountSent(Least(sent, headerLen));
        case Connected =>
          sending := false;
          OnServerConnected(setting.world.connectError(retryCount), setting.world.firstSend(retryCount));
      }
      return true, false;
    }

    /** The start of the loop of tcp_handshake_retry: report, and give up exactly when the request is
        queued whole or the client has gone. */
    method GiveUp(nodeFailure: bool) returns (over: bool)
      modifies this`reported, this`phase
      ensures over <==> setting.FullyQueued(old(Now())) || setting.world.clientBroken(retryCount)
      ensures var r := setting.Reported(old(Now()), nodeFailure);
              Now() == if over then r.(phase := Closed(setting.FullyQueued(r))) else r
    {
      if nodeFailure {
        reported := reported + [serverIdx];
      }
      over := true;
      if setting.FullyQueued(Now()) {
        phase := Closed(true);
      } else if setting.world.clientBroken(retryCount) {
        phase := Closed(false);
      } else {
        over := false;
      }
    }

    /** Turns to the next server, or gives up because all have been tried. */
    method TurnToNext() returns (found: bool)
      requires setting.Valid() && Bounded(tried, setting.servers)
      modifies this`phase, this`serverIdx, this`tried, this`retryCount
      ensures match setting.Next(old(Now()))
              case None => !found && Now() == old(Now()).(phase := Closed(true))
              case Some(next) => found && Now() == setting.Moved(old(Now()), next)
    {
      hide Setting.Next;
      var next := setting.Next(Now());
      found := next.Some?;
      if found {
        serverIdx, tried, retryCount := next.value, tried + {next.value}, retryCount + 1;
      } else {
        phase := Closed(true);
      }
    }

    /** The loop of tcp_handshake_retry up to the choice of the next server. */
    method NextServer(nodeFailure: bool) returns (found: bool)
      requires setting.Valid() && setting.Failed(Now(), nodeFailure)
      modifies this`reported, this`phase, this`serverIdx, this`tried, this`retryCount
      ensures found ==> Starting() && Room() < old(Room()) && setting.Retried(old(Now()), nodeFailure) == setting.Entered(Now())
      ensures !found ==> Now() == setting.Retried(old(Now()), nodeFailure)
    {
      setting.RetriedOn(Now(), nodeFailure);
      hide Setting.Retried, Setting.Entered, Setting.Next, Setting.Failed, Setting.Starting, Setting.Valid, Bounded, Untried;
      var over := GiveUp(nodeFailure);
      found := false;
      if !over {
        found := TurnToNext();
      }
    }

    /** tcp_handshake_retry */
    method Retry(nodeFailure: bool) returns (ok: bool)
      requires setting.Valid() && setting.Failed(Now(), nodeFailure)
      modifies this
      ensures Now() == setting.Retried(old(Now()), nodeFailure)
      decreases Room(), 0
    {
      var failed := nodeFailure;
      while true
        invariant setting.Failed(Now(), failed) && Room() <= old(Room())
        invariant setting.Retried(Now(), failed) == setting.Retried(old(Now()), nodeFailure)
        decreases Room()
      {
        var found := NextServer(failed);
        if !found {
          return false;
        }
        failed := false;
        if !setting.world.contextReady(retryCount, serverIdx) {
          setting.CurrentPassedOver(Now());
          continue;
        }
        ok, failed := TryConnect();
        if ok {
          return true;
        }
      }
    }

    /** tcp_handshake_start */
    method Start()
      requires Starting()
      modifies this
      ensures Now() == setting.Started(old(Now()))
    {
      var ok, nodeFailure := TryConnect();
      if !ok {
        var _ := Retry(nodeFailure);
      }
    }

    /** The callbacks while a server is awaited. */
    method OnEvent(e: Event)
      requires setting.Valid() && setting.Stepped(Now())
      modifies this
      ensures Now() == setting.After(old(Now()), e)
    {
      if !phase.Connecting? {
        return;
      }
      match e {
        case Timeout => var _ := Retry(true);
        case Ready(error, send) =>
          if sending {
            OnServerWritable(send);
          } else {
            OnServerConnected(error, send);
          }
      }
    }
  }

  /** Any handshake, against any servers and any event order: it is what the steps make of it; no
      server is connected to twice, a request with payload is queued whole to one server at most, to
      exactly one by the time the session relays, and whoever is reported as failed had been connected
      to.  A session closed by a reset has queued its payload whole, or has turned to every server and
      connected to each but those it could not use. */
  method RunHandshake(setting: Setting, published: nat, events: seq<Event>) returns (s: State)
    requires setting.Valid() && published < setting.servers
    ensures s == setting.Ran(published, events)
    ensures Distinct(s.attempts) && |s.attempts| <= setting.servers && forall i :: i in s.attempts ==> i < setting.servers
    ensures |s.queued| <= 1 && (forall i :: i in s.queued ==> i in s.attempts) && forall i :: i in s.reported ==> i in s.attempts
    ensures s.phase.Relaying? && setting.payloadLen > 0 ==> |s.queued| == 1
    ensures s.phase == Closed(true) && s.queued == [] ==>
            forall i :: 0 <= i < setting.servers ==> i in s.tried && (i in s.attempts || setting.PassedOver(i, s.retryCount))
  {
    var h := new Handshake(setting, published);
    if h.phase.Connecting? {
      h.Start();
    }
    for i := 0 to |events|
      invariant fresh(h) && h.setting == setting && h.Now() == setting.Ran(published, events[..i])
    {
      assert events[..i + 1][..i] == events[..i];
      h.OnEvent(events[i]);
    }
    assert events[..|events|] == events;
    s := h.Now();
    DistinctBounded(s.attempts, setting.servers);
  }

  /** The price of the guard: the payload is queued whole to the first of two servers by Fast Open,
      the connection times out, and the session is closed with the second one untried. */
  lemma {:induction false} QueuedIsNotReplayed(setting: Setting)
    requires setting.Valid() && setting.servers == 2 && setting.payloadLen > 0
    requires setting.world.contextReady(0, 0) && setting.world.buildHeader(0) == Some(100) && setting.world.connect(0) == InProgress(100)
    ensures var s := setting.Ran(0, [Timeout]); s.phase == Closed(true) && s.queued == [0] && 1 !in s.tried
  {
    var n := setting.New(0);
    assert setting.Starting(n) && setting.Chosen(n) == n;
    var b := setting.Begun(0);
    assert b.queued == [0] && b.tried == {0} && setting.FullyQueued(b) && b.phase.Connecting?;
    assert setting.Ran(0, []) == b && [Timeout][..0] == [];
    assert setting.Ran(0, [Timeout]) == setting.After(b, Timeout);
  }
}
