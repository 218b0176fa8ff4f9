/** Both directions of a relayed TCP session and the watchers that drive them (src/tcp_proxy.c). */
module TcpSession {
  import opened Bytes
  import opened Options
  import opened TcpRelay

  const PLAIN_BUFSIZ := 16384
  const CIPHER_BUFSIZ := 16418

  /** Sealing depends on the chunk counter and the bytes. */
  datatype Sealer = Sealer(seal: (nat, seq<Byte>) -> Option<seq<Byte>>)
  {
    /** A sealed chunk adds a two-byte length and two tags. */
    ghost predicate Sound() {
      forall c: nat, p :: seal(c, p).Some? ==> |seal(c, p).value| == |p| + 2 + 2 * TAG_LEN
    }
  }

  /** The client's chunks as the server is to receive them. */
  function SealedAll(s: Sealer, chunks: seq<seq<Byte>>): seq<Byte> {
    if chunks == [] then []
    else
      var n := |chunks| - 1;
      SealedAll(s, chunks[..n]) + match s.seal(n, chunks[n]) case None => [] case Some(c) => c
  }

  lemma {:induction false} SealedMore(s: Sealer, chunks: seq<seq<Byte>>, p: seq<Byte>)
    requires s.seal(|chunks|, p).Some?
    ensures SealedAll(s, chunks + [p]) == SealedAll(s, chunks) + s.seal(|chunks|, p).value
  {
    assert (chunks + [p])[..|chunks|] == chunks;
  }

  /** The client-to-server half of the session. */
  class Upstream {
    const sealer: Sealer
    const buf: array<Byte>
    var off: nat
    var len: nat
    var count: nat

    ghost predicate Valid()
      reads this
    {
      sealer.Sound() && buf.Length == CIPHER_BUFSIZ && off + len <= CIPHER_BUFSIZ && (len == 0 ==> off == 0)
    }

    ghost function Pending(): seq<Byte>
      requires Valid()
      reads this, buf
    {
      buf[off..off + len]
    }

    constructor (sealer: Sealer)
      requires sealer.Sound()
      ensures Valid() && this.sealer == sealer && fresh(buf) && Pending() == [] && count == 0 && len == 0
    {
      this.sealer := sealer;
      buf := new Byte[CIPHER_BUFSIZ];
      off, len, count := 0, 0, 0;
    }

    /** tcp_relay_write_to_server */
    method WriteToServer(sends: seq<Send>) returns (wire: seq<Byte>, ok: bool)
      requires Valid()
      modifies this`off, this`len
      ensures wire == SentOf(old(Pending()), sends) && ok == Drained(sends, old(len)).open
      ensures ok ==> Valid() && wire + Pending() == old(Pending())
    {
      hide Drained, SentOf;
      off, len, wire, ok := Drain(buf, 0, off, len, sends);
    }

    /** tcp_relay_read_from_client: one chunk is received and sealed, in place. */
    method ReadFromClient(a: Arrival) returns (plain: seq<Byte>, r: ReadOutcome)
      requires Valid() && len == 0
      modifies this, buf
      ensures plain == if a.Bytes? then Received(a, PLAIN_BUFSIZ) else []
      ensures r.Ended? <==> a.End?
      ensures r.Closed? <==> a.Broken? || (a.Bytes? && sealer.seal(old(count), plain).None?)
      ensures !r.Closed? ==> Valid()
      ensures !r.Closed? && !a.Bytes? ==> len == 0 && count == old(count)
      ensures r.Going? && a.Bytes? ==>
        sealer.seal(old(count), plain) == Some(Pending()) && count == old(count) + 1
    {
      plain := [];
      match a {
        case Broken => return plain, Closed;
        case NotYet => return plain, Going;
        case End => return plain, Ended;
        case Bytes(_, _) =>
      }
      assert 0 < |a.Data()|;
      plain := Received(a, PLAIN_BUFSIZ);
      var sealed := sealer.seal(count, plain);
      if sealed.None? {
        return plain, Closed;
      }
      var cipher := sealed.value;
      assert |cipher| == |plain| + 2 + 2 * TAG_LEN;
      forall i | 0 <= i < |cipher| {
        buf[i] := cipher[i];
      }
      off, len, count := 0, |cipher|, count + 1;
      assert Pending() == cipher;
      return plain, Going;
    }
  }

  // ---------- what flows to the client ----------

  /** Of the plaintext in `all`, `sent` has reached the client, `pending` waits, and the rest is
      what decoding `rest` will give. */
  ghost predicate Flow(a: Aead, all: seq<Byte>, sent: seq<Byte>, pending: seq<Byte>, d: Decoder, rest: seq<Byte>)
    requires 0 < a.headerLen
  {
    Yields(a, START, all, sent + pending, d, rest)
  }

  lemma {:induction false} FlowSent(a: Aead, all: seq<Byte>, sent: seq<Byte>, pending: seq<Byte>, d: Decoder, rest: seq<Byte>,
                 wire: seq<Byte>, left: seq<Byte>)
    requires 0 < a.headerLen && Flow(a, all, sent, pending, d, rest) && wire + left == pending
    ensures Flow(a, all, sent + wire, left, d, rest)
  {
    assert sent + wire + left == sent + pending;
  }

  lemma {:induction false} FlowDecoded(a: Aead, all: seq<Byte>, sent: seq<Byte>, d: Decoder, rest: seq<Byte>,
                    got: seq<Byte>, plain: seq<Byte>, d': Decoder, rest': seq<Byte>)
    requires 0 < a.headerLen && Flow(a, all, sent, [], d, rest) && Yields(a, d, rest + got, plain, d', rest')
    ensures Flow(a, all + got, sent, plain, d', rest')
  {
    assert sent + [] == sent;
    Arrives(a, all, sent, d, rest, got);
    AfterAfter(sent, plain, Decode(a, d', rest'));
  }

  lemma {:induction false} FlowSafe(a: Aead, all: seq<Byte>, sent: seq<Byte>, pending: seq<Byte>, d: Decoder, rest: seq<Byte>, wire: seq<Byte>)
    requires 0 < a.headerLen && Flow(a, all, sent, pending, d, rest) && wire <= pending
    ensures sent + wire <= Decode(a, START, all).plain
  {
    assert sent + wire <= sent + pending;
  }

  lemma {:induction false} FlowBad(a: Aead, all: seq<Byte>, sent: seq<Byte>, d: Decoder, rest: seq<Byte>, got: seq<Byte>)
    requires 0 < a.headerLen && Flow(a, all, sent, [], d, rest) && Bad(a, d, rest + got)
    ensures Decode(a, START, all + got).plain == sent && !Decode(a, START, all + got).ok
  {
    assert sent + [] == sent;
    Arrives(a, all, sent, d, rest, got);
  }

  lemma {:induction false} FlowDrained(a: Aead, all: seq<Byte>, sent: seq<Byte>, d: Decoder, rest: seq<Byte>)
    requires 0 < a.headerLen && Flow(a, all, sent, [], d, rest) && |rest| < Need(a, d)
    ensures var r := Decode(a, START, all); r.plain == sent && r.ok && r.decoder == d && r.left == rest
  {
    assert sent + [] + [] == sent;
  }

  // ---------- the session ----------

  /** One callback of the event loop: which socket, what it is ready for, and what the system
      calls made on it return. */
  datatype Event = Event(isClient: bool, writable: bool, readable: bool, sends: seq<Send>, arrival: Arrival) {
    /** The event loop calls back only for what the watcher waits for. */
    predicate For(read: bool, write: bool) { (writable ==> write) && (readable ==> read) }

    /** The end of the stream is read. */
    predicate Ends(ofClient: bool) { readable && arrival.End? && isClient == ofClient }
  }

  /** What the server has sent ends with a chunk that does not open, and everything before it has
      reached the client. */
  ghost predicate Undecodable(a: Aead, fromServer: seq<Byte>, toClient: seq<Byte>)
    requires 0 < a.headerLen
  {
    var r := Decode(a, START, fromServer);
    r.plain == toClient && !r.ok
  }

  /** What the server has sent stops short of the end of a chunk. */
  ghost predicate EndsInside(a: Aead, fromServer: seq<Byte>)
    requires 0 < a.headerLen
  {
    var r := Decode(a, START, fromServer);
    r.left != [] || r.decoder.phase != Length
  }

  /** What can be told of a session between two events: what has crossed the sockets, what its
      watchers wait for, what waits to be sent, and how much can be received. */
  datatype Moment = Moment(closed: bool, reset: bool, fromServer: seq<Byte>, toClient: seq<Byte>, fromClient: seq<seq<Byte>>,
                           toServer: seq<Byte>, clientEof: bool, serverEof: bool, clientRead: bool, clientWrite: bool,
                           serverRead: bool, serverWrite: bool, pendingDown: seq<Byte>, pendingUp: seq<Byte>, room: nat)
  {
    /** An open session on which nothing has been received or sent. */
    predicate Fresh(eof: bool) {
      !closed && fromServer == toClient == toServer == [] && fromClient == [] && clientEof == eof && !serverEof
    }

    predicate Expected(e: Event) {
      !closed && if e.isClient then e.For(clientRead, clientWrite) else e.For(serverRead, serverWrite)
    }

    /** Each side is read until it ends, when nothing it has sent waits, and written when something does. */
    predicate Watching() {
      clientRead == (!clientEof && pendingUp == []) && clientWrite == (pendingDown != []) &&
      serverRead == (!serverEof && pendingDown == []) && serverWrite == (pendingUp != [])
    }

    /** What the sends of the event take. */
    function Sent(e: Event, toTheClient: bool): seq<Byte> {
      if !e.writable || e.isClient != toTheClient then []
      else SentOf(if toTheClient then pendingDown else pendingUp, e.sends)
    }

    /** What is received from the server: nothing when a send has broken the session before. */
    function FromServer(e: Event): seq<Byte> {
      if e.isClient || !e.readable || !e.arrival.Bytes? || SendBreaks(e) then []
      else Received(e.arrival, room)
    }

    /** The client's chunk, unless the session broke. */
    function FromClient(e: Event, broken: bool): seq<seq<Byte>> {
      if !e.isClient || !e.readable || !e.arrival.Bytes? || broken then [] else [Received(e.arrival, PLAIN_BUFSIZ)]
    }

    /** The sends of the event do not leave the session open. */
    predicate SendBreaks(e: Event) {
      e.writable && !Drained(e.sends, if e.isClient then |pendingDown| else |pendingUp|).open
    }

    /** What the event reads cannot be passed on: the socket is broken, the client's bytes do not
        seal, or the server ends inside a chunk. */
    ghost predicate ReadBreaks(aead: Aead, sealer: Sealer, e: Event)
      requires 0 < aead.headerLen
    {
      e.readable &&
      match e.arrival
      case NotYet => false
      case Broken => true
      case End => !e.isClient && EndsInside(aead, fromServer)
      case Bytes(_, _) => e.isClient && sealer.seal(|fromClient|, Received(e.arrival, PLAIN_BUFSIZ)).None?
    }

    /** Why an event resets the session: one of these, or a chunk of what has come does not open
        when everything before it has been sent. */
    ghost predicate Breaks(aead: Aead, sealer: Sealer, e: Event, fromServer': seq<Byte>, toClient': seq<Byte>)
      requires 0 < aead.headerLen
    {
      SendBreaks(e) || ReadBreaks(aead, sealer, e) || Undecodable(aead, fromServer', toClient')
    }

    /** An event makes `later` of this moment. */
    ghost predicate LeadsTo(aead: Aead, sealer: Sealer, e: Event, later: Moment)
      requires 0 < aead.headerLen
    {
      if !Expected(e) then later == this
      else
        later.fromServer == fromServer + FromServer(e) && later.toClient == toClient + Sent(e, true) &&
        later.fromClient == fromClient + FromClient(e, later.reset) && later.toServer == toServer + Sent(e, false) &&
        (later.reset <==> Breaks(aead, sealer, e, later.fromServer, later.toClient)) &&
        (!later.reset ==> later.clientEof == (clientEof || e.Ends(true)) && later.serverEof == (serverEof || e.Ends(false)))
    }
  }

  class Relay {
    const down: Downstream
    const up: Upstream
    var clientEof: bool
    var serverEof: bool
    var clientShutdownSent: bool
    var serverShutdownSent: bool
    var closed: bool
    var reset: bool
    // the events each watcher waits for
    var clientRead: bool
    var clientWrite: bool
    var serverRead: bool
    var serverWrite: bool
    // what has crossed the sockets, and the calls of shutdown made on them
    var fromServer: seq<Byte>
    var toClient: seq<Byte>
    var fromClient: seq<seq<Byte>>
    var toServer: seq<Byte>
    var clientShutdowns: nat
    var serverShutdowns: nat

    ghost predicate FlowsDown()
      reads this`fromServer, this`toClient, down, down.buf
    {
      down.Valid() && Flow(down.aead, fromServer, toClient, down.Pending(), down.Position(), down.Undecoded())
    }

    ghost predicate FlowsUp()
      reads this`fromClient, this`toServer, up, up.buf
    {
      up.Valid() && toServer + up.Pending() == SealedAll(up.sealer, fromClient) && up.count == |fromClient|
    }

    /** A direction that has ended is empty, and SHUT_WR is sent at most once, after that. */
    ghost predicate Ends()
      reads this, down, up
    {
      (serverEof ==> down.len == 0 && down.Position().phase == Length) &&
      (clientShutdownSent ==> serverEof && down.outLen == 0) && (serverShutdownSent ==> clientEof && up.len == 0) &&
      clientShutdowns == (if clientShutdownSent then 1 else 0) &&
      serverShutdowns == (if serverShutdownSent then 1 else 0)
    }

    ghost predicate Open()
      reads this, down, down.buf, up, up.buf
    {
      FlowsDown() && FlowsUp() && Ends()
    }

    /** What an open session waits for. */
    ghost predicate Watching()
      reads this, down, up
    {
      clientRead == (!clientEof && up.len == 0) && clientWrite == (down.outLen > 0) &&
      serverRead == (!serverEof && down.outLen == 0) && serverWrite == (up.len > 0)
    }

    /** Between two events, an open session has no complete chunk lying undecoded while there is
        nothing to send, and waits for something. */
    ghost predicate Resting()
      reads this, down, down.buf, up, up.buf
    {
      FlowsDown() && FlowsUp() && (down.outLen == 0 ==> down.Starved()) && Settled()
    }

    ghost predicate Settled()
      reads this, down, up
    {
      Ends() && Watching() && (clientRead || clientWrite || serverRead || serverWrite) &&
      (serverEof && down.outLen == 0 ==> clientShutdownSent) && (clientEof && up.len == 0 ==> serverShutdownSent)
    }

    ghost function Now(): Moment
      requires !closed ==> Resting()
      reads this, down, down.buf, up, up.buf
    {
      if closed
      then Moment(true, reset, fromServer, toClient, fromClient, toServer, clientEof, serverEof, false, false, false, false, [], [], 0)
      else Moment(false, false, fromServer, toClient, fromClient, toServer, clientEof, serverEof,
                  clientRead, clientWrite, serverRead, serverWrite, down.Pending(), up.Pending(), down.Room())
    }

    /** Nothing wrong has been sent, whether or not the session is still open. */
    ghost predicate Safe()
      reads this`fromServer, this`toClient, this`fromClient, this`toServer
    {
      0 < down.aead.headerLen && toClient <= Decode(down.aead, START, fromServer).plain &&
      toServer <= SealedAll(up.sealer, fromClient)
    }

    /** Both streams ended cleanly and everything they carried has been passed on. */
    ghost predicate Complete()
      reads this`fromServer, this`toClient, this`fromClient, this`toServer
    {
      0 < down.aead.headerLen && toServer == SealedAll(up.sealer, fromClient) &&
      var r := Decode(down.aead, START, fromServer);
      r.plain == toClient && r.ok && r.left == [] && r.decoder.phase == Length
    }

    lemma {:induction false} DrainedIsComplete()
      requires FlowsDown() && FlowsUp() && down.len == 0 && down.Position().phase == Length && up.len == 0
      ensures Complete()
    {
      assert toServer + [] == toServer;
      FlowDrained(down.aead, fromServer, toClient, down.Position(), down.Undecoded());
    }

    /** Whenever an open session has nothing to send to the client, the client has been sent all
        the complete chunks that have come. */
    lemma {:induction false} RestingIsUpToDate()
      requires Resting() && down.outLen == 0
      ensures toClient == Decode(down.aead, START, fromServer).plain
    {
      FlowDrained(down.aead, fromServer, toClient, down.Position(), down.Undecoded());
    }

    lemma {:induction false} FlowsAreSafe()
      requires FlowsDown() && FlowsUp()
      ensures Safe()
    {
      FlowSafe(down.aead, fromServer, toClient, down.Pending(), down.Position(), down.Undecoded(), []);
      assert toClient + [] == toClient;
    }

    /** tcp_session_enter_relay, with a response header length that passed its check. */
    constructor (aead: Aead, sealer: Sealer, clientEof: bool)
      requires aead.Sound() && sealer.Sound()
      ensures !closed && Resting() && fresh(down) && fresh(down.buf) && fresh(up) && fresh(up.buf)
      ensures down.aead == aead && up.sealer == sealer && this.clientEof == clientEof && !serverEof
      ensures fromServer == [] && toClient == [] && fromClient == [] && toServer == []
    {
      down := new Downstream(aead);
      up := new Upstream(sealer);
      this.clientEof, serverEof, clientShutdownSent, serverShutdownSent := clientEof, false, false, false;
      closed, reset := false, false;
      fromServer, toClient, fromClient, toServer := [], [], [], [];
      clientShutdowns, serverShutdowns := 0, 0;
      new;
      Begins();
      hide Relay.FlowsDown, Relay.FlowsUp, Aead.Sound, Sealer.Sound, Decode, SealedAll;
      Rest();
    }

    /** With nothing received and nothing waiting, the flows begin. */
    lemma {:induction false} Begins()
      requires down.Valid() && up.Valid() && down.Pending() == [] && down.Undecoded() == [] && down.Position() == START
      requires fromServer == toClient == toServer == [] && fromClient == [] && up.Pending() == [] && up.count == 0
      ensures FlowsDown() && FlowsUp()
    {
      YieldsNothing(down.aead, START, []);
    }

    /** tcp_session_close, with or without RST */
    method Close(isReset: bool)
      modifies this`closed, this`reset, this`clientRead, this`clientWrite, this`serverRead, this`serverWrite
      ensures closed && reset == isReset
    {
      closed, reset := true, isReset;
      clientRead, clientWrite, serverRead, serverWrite := false, false, false, false;
    }

    /** tcp_relay_update_watchers */
    method UpdateWatchers()
      requires !closed && Ends() && (down.outLen == 0 ==> down.len < IN_BUFSIZ) && down.outLen <= down.len
      modifies this`clientShutdownSent, this`serverShutdownSent, this`clientShutdowns, this`serverShutdowns,
               this`closed, this`reset, this`clientRead, this`clientWrite, this`serverRead, this`serverWrite
      ensures !closed ==> Settled()
      ensures closed ==> !reset && clientEof && serverEof && up.len == 0
      ensures closed ==> down.len == 0 && down.Position().phase == Length
      ensures closed ==> clientShutdowns == 1 && serverShutdowns == 1
    {
      if clientEof && up.len == 0 && !serverShutdownSent {
        serverShutdowns := serverShutdowns + 1;
        serverShutdownSent := true;
      }
      if serverEof && down.outLen == 0 && down.len == 0 && !clientShutdownSent {
        clientShutdowns := clientShutdowns + 1;
        clientShutdownSent := true;
      }
      if clientEof && serverEof && up.len == 0 && down.outLen == 0 && down.len == 0 {
        Close(false);
        return;
      }
      clientRead, clientWrite, serverRead, serverWrite := false, false, false, false;
      if !clientEof && up.len == 0 {
        clientRead := true;
      }
      if down.outLen > 0 {
        clientWrite := true;
      }
      if !serverEof && down.outLen == 0 && down.len < IN_BUFSIZ {
        serverRead := true;
      }
      if up.len > 0 {
        serverWrite := true;
      }
    }

    /** After tcp_relay_update_watchers the session rests, or is over. */
    method Rest()
      requires !closed && Open() && (down.outLen == 0 ==> down.Starved())
      modifies this`clientShutdownSent, this`serverShutdownSent, this`clientShutdowns, this`serverShutdowns,
               this`closed, this`reset, this`clientRead, this`clientWrite, this`serverRead, this`serverWrite
      ensures !closed ==> Resting()
      ensures closed ==> !reset && clientEof && serverEof && Complete()
    {
      UpdateWatchers();
      if closed {
        DrainedIsComplete();
      }
    }

    /** The client's half of tcp_relay_handle_write. */
    method WriteClient(sends: seq<Send>) returns (ok: bool)
      requires FlowsDown()
      modifies this`toClient, down
      ensures toClient == old(toClient) + SentOf(old(down.Pending()), sends) && ok == Drained(sends, |old(down.Pending())|).open
      ensures ok ==> FlowsDown() && down.len <= old(down.len) && down.Position() == old(down.Position())
      ensures ok && down.len == 0 ==> down.outLen == 0
      ensures toClient <= Decode(down.aead, START, fromServer).plain
    {
      FlowingDown();
      hide Drained, SentOf, Decode, Flow, Aead.Sound, Relay.FlowsDown,
           Downstream.Pending, Downstream.Undecoded, Downstream.Valid, Downstream.Position;
      SentIsPrefix(down.Pending(), sends);
      ghost var sent, pending := toClient, down.Pending();
      ghost var d, rest := down.Position(), down.Undecoded();
      var wire;
      wire, ok := down.WriteToClient(sends);
      toClient := toClient + wire;
      FlowSafe(down.aead, fromServer, sent, pending, d, rest, wire);
      if ok {
        SentOn(sent, pending, d, rest, wire);
        FlowingDown();
      }
    }

    lemma {:induction false} SentOn(sent: seq<Byte>, pending: seq<Byte>, d: Decoder, rest: seq<Byte>, wire: seq<Byte>)
      requires down.Valid() && 0 < down.aead.headerLen && Flow(down.aead, fromServer, sent, pending, d, rest)
      requires toClient == sent + wire && wire + down.Pending() == pending && d == down.Position() && rest == down.Undecoded()
      ensures FlowsDown()
    {
      hide Flow, Decode, Aead.Sound, Downstream.Pending, Downstream.Undecoded, Downstream.Valid;
      FlowSent(down.aead, fromServer, sent, pending, d, rest, wire, down.Pending());
    }

    lemma {:induction false} FlowingDown()
      requires FlowsDown()
      ensures down.Valid() && 0 < down.aead.headerLen && (down.len == 0 ==> down.outLen == 0)
      ensures Flow(down.aead, fromServer, toClient, down.Pending(), down.Position(), down.Undecoded())
    {}

    /** The server's half of tcp_relay_handle_write. */
    method WriteServer(sends: seq<Send>) returns (ok: bool)
      requires FlowsUp()
      modifies this`toServer, up`off, up`len
      ensures toServer == old(toServer) + SentOf(old(up.Pending()), sends) && ok == Drained(sends, |old(up.Pending())|).open
      ensures ok ==> FlowsUp() && (old(up.len) == 0 ==> up.len == 0)
      ensures toServer <= SealedAll(up.sealer, fromClient)
    {
      hide Drained, SealedAll, SentOf, Sealer.Sound;
      SentIsPrefix(up.Pending(), sends);
      ghost var sent, pending := toServer, up.Pending();
      var wire;
      wire, ok := up.WriteToServer(sends);
      toServer := toServer + wire;
      if ok {
        assert sent + wire + up.Pending() == sent + pending;
      }
      assert sent + wire <= sent + pending;
    }

    /** tcp_relay_process_pending_server_data */
    method ProcessPending() returns (ok: bool)
      requires Open()
      modifies down, down.buf
      ensures ok ==> Open() && (down.outLen == 0 ==> down.Starved())
      ensures old(down.Starved()) ==> ok && down.Starved() && down.Room() == old(down.Room())
      ensures old(down.outLen) != 0 ==> ok
      ensures !ok ==> Undecodable(down.aead, fromServer, toClient)
      ensures Safe()
    {
      FlowsAreSafe();
      if down.outLen != 0 || down.len == 0 {
        return true;
      }
      ghost var d, rest := down.Position(), down.Undecoded();
      assert rest + [] == rest && fromServer + [] == fromServer;
      ok := down.ProcessServerData();
      if ok {
        FlowDecoded(down.aead, fromServer, toClient, d, rest, [], down.Pending(), down.Position(), down.Undecoded());
      } else {
        FlowBad(down.aead, fromServer, toClient, d, rest, []);
      }
    }

    /** The server's half of tcp_relay_handle_read: there is always room to receive into, so an
        empty recv is the end of the stream. */
    method ReadServer(a: Arrival) returns (ok: bool)
      requires FlowsDown() && down.Starved() && !serverEof
      modifies this`serverEof, this`fromServer, down, down.buf
      ensures fromServer == if a.Bytes? then old(fromServer) + Received(a, old(down.Room())) else old(fromServer)
      ensures !ok ==> match a
        case NotYet => false
        case Broken => true
        case End => EndsInside(down.aead, fromServer)
        case Bytes(_, _) => Undecodable(down.aead, fromServer, toClient)
      ensures ok ==> !a.Broken? && (a.End? ==> !EndsInside(down.aead, fromServer))
      ensures ok ==> FlowsDown() && (down.outLen == 0 ==> down.Starved()) && serverEof == a.End?
      ensures ok ==> serverEof ==> down.len == 0 && down.Position().phase == Length
      ensures toClient <= Decode(down.aead, START, fromServer).plain
    {
      down.AeadIsSound();
      hide Received, Decode, Flow, Aead.Sound;
      ghost var d, rest := down.Position(), down.Undecoded();
      FlowSafe(down.aead, fromServer, toClient, [], d, rest, []);
      FlowDrained(down.aead, fromServer, toClient, d, rest);
      assert toClient + [] == toClient;
      var got, r := down.ReadFromServer(a);
      assert got == [] ==> fromServer + got == fromServer && rest + got == rest;
      fromServer := fromServer + got;
      ok := !r.Closed?;
      if r.Going? {
        FlowDecoded(down.aead, old(fromServer), toClient, d, rest, got, down.Pending(), down.Position(), down.Undecoded());
        FlowSafe(down.aead, fromServer, toClient, down.Pending(), down.Position(), down.Undecoded(), []);
      } else if r.Ended? {
        serverEof := true;
        assert down.Undecoded() == rest && down.Pending() == [];
      } else if a.Bytes? {
        FlowBad(down.aead, old(fromServer), toClient, d, rest, got);
      }
    }

    /** The client's half of tcp_relay_handle_read. */
    method ReadClient(a: Arrival) returns (ok: bool)
      requires FlowsUp() && up.len == 0 && !clientEof
      modifies this`clientEof, this`fromClient, up, up.buf
      ensures fromClient == if ok && a.Bytes? then old(fromClient) + [Received(a, PLAIN_BUFSIZ)] else old(fromClient)
      ensures ok <==> !a.Broken? && (a.Bytes? ==> up.sealer.seal(|old(fromClient)|, Received(a, PLAIN_BUFSIZ)).Some?)
      ensures ok ==> FlowsUp() && clientEof == a.End? && (clientEof ==> up.len == 0)
      ensures toServer <= SealedAll(up.sealer, fromClient)
    {
      assert toServer + [] == toServer;
      ghost var k := up.count;
      var plain, r := up.ReadFromClient(a);
      ok := !r.Closed?;
      if r.Ended? {
        clientEof := true;
      } else if r.Going? && a.Bytes? {
        SealedMore(up.sealer, fromClient, plain);
        fromClient := fromClient + [plain];
      }
    }

    /** tcp_relay_handle_write: a writable socket is sent what waits for it. */
    method HandleWrite(e: Event) returns (ok: bool)
      requires Open()
      modifies this`toClient, this`toServer, down, up`off, up`len
      ensures ok ==> Open()
      ensures toClient == if e.writable && e.isClient then old(toClient) + SentOf(old(down.Pending()), e.sends) else old(toClient)
      ensures toServer == if e.writable && !e.isClient then old(toServer) + SentOf(old(up.Pending()), e.sends) else old(toServer)
      ensures ok <==> (e.writable ==> Drained(e.sends, if e.isClient then |old(down.Pending())| else |old(up.Pending())|).open)
      ensures !e.writable ==> unchanged(up)
      ensures if e.isClient then unchanged(up) else unchanged(down)
      ensures Safe()
    {
      hide Drained, SentOf, Decode, SealedAll, Flow, Aead.Sound, Sealer.Sound;
      FlowsAreSafe();
      if !e.writable {
        return true;
      }
      if e.isClient {
        ok := WriteClient(e.sends);
      } else {
        ok := WriteServer(e.sends);
      }
    }

    /** tcp_relay_handle_read: a readable socket is read when the other direction has room. */
    method HandleRead(e: Event) returns (ok: bool)
      requires Open() && (down.outLen == 0 ==> down.Starved())
      requires e.readable ==> if e.isClient then !clientEof else !serverEof
      modifies this`clientEof, this`serverEof, this`fromServer, this`fromClient, down, down.buf, up, up.buf
      ensures ok ==> Open() && (down.outLen == 0 ==> down.Starved())
      ensures fromServer ==
                if e.readable && !e.isClient && e.arrival.Bytes? && old(down.outLen) == 0
                then old(fromServer) + Received(e.arrival, old(down.Room())) else old(fromServer)
      ensures fromClient ==
                if e.readable && e.isClient && e.arrival.Bytes? && ok && old(up.len) == 0
                then old(fromClient) + [Received(e.arrival, PLAIN_BUFSIZ)] else old(fromClient)
      ensures !ok ==> e.readable && match e.arrival
        case NotYet => false
        case Broken => true
        case End => !e.isClient && EndsInside(down.aead, fromServer)
        case Bytes(_, _) =>
          if e.isClient then up.sealer.seal(|old(fromClient)|, Received(e.arrival, PLAIN_BUFSIZ)).None?
          else Undecodable(down.aead, fromServer, toClient)
      ensures ok && e.readable && (if e.isClient then old(up.len) == 0 else old(down.outLen) == 0) ==>
        !e.arrival.Broken? && (e.arrival.End? && !e.isClient ==> !EndsInside(down.aead, fromServer)) &&
        (e.arrival.Bytes? && e.isClient ==> up.sealer.seal(|old(fromClient)|, Received(e.arrival, PLAIN_BUFSIZ)).Some?) &&
        clientEof == (old(clientEof) || e.Ends(true)) && serverEof == (old(serverEof) || e.Ends(false))
      ensures !e.readable ==> clientEof == old(clientEof) && serverEof == old(serverEof)
      ensures Safe()
    {
      hide Received, Decode, SealedAll, Flow, Aead.Sound, Sealer.Sound;
      FlowsAreSafe();
      if !e.readable {
        return true;
      }
      if e.isClient {
        if up.len != 0 {
          return true;
        }
        ok := ReadClient(e.arrival);
      } else {
        if down.outLen != 0 {
          return true;
        }
        ok := ReadServer(e.arrival);
      }
    }

    /** The three steps of tcp_relay_on_event. */
    method Pump(e: Event) returns (ok: bool)
      requires !closed && Resting() && Now().Expected(e)
      modifies this`toClient, this`toServer, this`clientEof, this`serverEof, this`fromServer, this`fromClient,
               down, down.buf, up, up.buf
      ensures ok ==> Open() && (down.outLen == 0 ==> down.Starved())
      ensures toClient == old(toClient) + old(Now()).Sent(e, true) && toServer == old(toServer) + old(Now()).Sent(e, false)
      ensures fromServer == old(fromServer) + old(Now()).FromServer(e)
      ensures fromClient == old(fromClient) + old(Now()).FromClient(e, !ok)
      ensures ok <==> !old(Now()).Breaks(down.aead, up.sealer, e, fromServer, toClient)
      ensures ok ==> clientEof == (old(clientEof) || e.Ends(true)) && serverEof == (old(serverEof) || e.Ends(false))
      ensures Safe()
    {
      hide Drained, SentOf, Received, Decode, SealedAll, Flow, Aead.Sound, Sealer.Sound, Undecodable, EndsInside,
           Moment.Sent, Moment.SendBreaks;
      ok := SendFirst(e);
      if ok {
        ok := HandleRead(e);
      }
      if ok {
        AllOpened();
      }
    }

    /** The first two of them, which make room for the third. */
    method SendFirst(e: Event) returns (ok: bool)
      requires !closed && Resting() && Now().Expected(e)
      modifies this`toClient, this`toServer, down, down.buf, up`off, up`len
      ensures ok ==> Open() && (down.outLen == 0 ==> down.Starved())
      ensures toClient == old(toClient) + old(Now()).Sent(e, true) && toServer == old(toServer) + old(Now()).Sent(e, false)
      ensures ok ==> !old(Now()).SendBreaks(e)
      ensures !ok ==> old(Now()).SendBreaks(e) || (e.isClient && Undecodable(down.aead, fromServer, toClient))
      ensures if e.isClient then unchanged(up) else old(down.outLen) == 0 && ok ==> down.outLen == 0 && down.Room() == old(down.Room())
      ensures Safe()
    {
      hide Drained, SentOf, Received, Decode, SealedAll, Flow, Aead.Sound, Sealer.Sound, Undecodable;
      ok := HandleWrite(e);
      if ok {
        ok := ProcessPending();
      }
    }

    /** Of a session that goes on, every complete chunk opened, or there is something to send. */
    lemma {:induction false} AllOpened()
      requires FlowsDown() && (down.outLen == 0 ==> down.Starved())
      ensures 0 < down.aead.headerLen && !Undecodable(down.aead, fromServer, toClient)
    {
      FlowingDown();
      if down.outLen == 0 {
        FlowDrained(down.aead, fromServer, toClient, down.Position(), down.Undecoded());
      } else {
        hide Decode;
        assert toClient + down.Pending() <= Decode(down.aead, START, fromServer).plain;
      }
    }

    /** tcp_relay_on_event */
    method OnEvent(e: Event)
      requires !closed && Resting() && Now().Expected(e)
      modifies this, down, down.buf, up, up.buf
      ensures !closed ==> Resting()
      ensures old(Now()).LeadsTo(down.aead, up.sealer, e, Now())
      ensures closed && !reset ==> clientEof && serverEof && Complete()
      ensures Safe()
    {
      hide Drained, SentOf, Received, Decode, SealedAll, Flow, Aead.Sound, Sealer.Sound;
      var ok := Pump(e);
      if ok {
        Rest();
      } else {
        Close(true);
      }
    }

    /** A session between two events. */
    ghost predicate Lasting()
      reads this, down, down.buf, up, up.buf
    {
      if closed then Safe() && (reset || (clientEof && serverEof && Complete())) else Resting()
    }

    /** The event loop calls back only for what a watcher waits for. */
    method Dispatch(e: Event)
      requires Lasting()
      modifies this, down, down.buf, up, up.buf
      ensures Lasting() && old(Now()).LeadsTo(down.aead, up.sealer, e, Now())
    {
      if !closed && if e.isClient then e.For(clientRead, clientWrite) else e.For(serverRead, serverWrite) {
        OnEvent(e);
      }
    }

    lemma {:induction false} NowIsFaithful()
      requires Lasting()
      ensures Faithful(down.aead, up.sealer, Now())
    {
      if !closed {
        FlowSafe(down.aead, fromServer, toClient, down.Pending(), down.Position(), down.Undecoded(), down.Pending());
        if down.outLen == 0 { RestingIsUpToDate(); }
      }
    }
  }

  /** What crosses the sockets, and what waits, belongs to the streams.  A session that is open waits
      for what its streams ask for, which is something, can always receive, and has passed on every
      complete chunk when nothing waits; one closed without a reset has passed on everything. */
  ghost predicate Faithful(aead: Aead, sealer: Sealer, m: Moment) {
    0 < aead.headerLen &&
    var r := Decode(aead, START, m.fromServer);
    var sealed := SealedAll(sealer, m.fromClient);
    if !m.closed then
      m.toClient + m.pendingDown <= r.plain && m.toServer + m.pendingUp == sealed && (m.pendingDown == [] ==> m.toClient == r.plain) &&
      m.Watching() && (m.clientRead || m.clientWrite || m.serverRead || m.serverWrite) && (m.serverRead ==> 0 < m.room)
    else if m.reset then m.toClient <= r.plain && m.toServer <= sealed
    else m.clientEof && m.serverEof && m.toServer == sealed && m.toClient == r.plain && r.ok && !EndsInside(aead, m.fromServer)
  }

  /** A whole session: whatever the sockets take and deliver, in whatever pieces.  `moments` are the
      session's states between the events: nothing crosses a socket but what the events say. */
  method RunSession(aead: Aead, sealer: Sealer, clientEof: bool, events: seq<Event>) returns (r: Relay, ghost moments: seq<Moment>)
    requires aead.Sound() && sealer.Sound()
    ensures (!r.closed ==> r.Resting()) && |moments| == |events| + 1 && moments[|events|] == r.Now()
    ensures moments[0].Fresh(clientEof)
    ensures forall i :: 0 <= i < |events| ==> moments[i].LeadsTo(aead, sealer, events[i], moments[i + 1])
    ensures forall i :: 0 <= i <= |events| ==> Faithful(aead, sealer, moments[i])
    ensures r.closed && !r.reset ==> r.Complete()
  {
    hide Relay.Resting, Relay.Complete, Relay.Safe, Moment.LeadsTo, Faithful;
    r := new Relay(aead, sealer, clientEof);
    r.NowIsFaithful();
    moments := [r.Now()];
    for i := 0 to |events|
      invariant fresh(r) && fresh(r.down) && fresh(r.down.buf) && fresh(r.up) && fresh(r.up.buf)
      invariant r.down.aead == aead && r.up.sealer == sealer && r.Lasting()
      invariant Recorded(aead, sealer, clientEof, events, moments, i) && moments[i] == r.Now()
    {
      r.Dispatch(events[i]);
      r.NowIsFaithful();
      RecordedMore(aead, sealer, clientEof, events, moments, i, r.Now());
      hide Recorded;
      moments := moments + [r.Now()];
    }
  }

  /** The first `n` events lead from each moment to the next, from the empty streams on. */
  ghost predicate Recorded(aead: Aead, sealer: Sealer, clientEof: bool, events: seq<Event>, moments: seq<Moment>, n: nat)
    requires 0 < aead.headerLen
  {
    n <= |events| && |moments| == n + 1 && moments[0].Fresh(clientEof) &&
    (forall i :: 0 <= i < n ==> moments[i].LeadsTo(aead, sealer, events[i], moments[i + 1])) &&
    forall i :: 0 <= i <= n ==> Faithful(aead, sealer, moments[i])
  }

  lemma {:induction false} RecordedMore(aead: Aead, sealer: Sealer, clientEof: bool, events: seq<Event>, moments: seq<Moment>,
                                      n: nat, next: Moment)
    requires 0 < aead.headerLen && Recorded(aead, sealer, clientEof, events, moments, n) && n < |events|
    requires moments[n].LeadsTo(aead, sealer, events[n], next) && Faithful(aead, sealer, next)
    ensures |moments + [next]| == n + 2 && (moments + [next])[n + 1] == next
    ensures Recorded(aead, sealer, clientEof, events, moments + [next], n + 1)
  {
    hide Moment.LeadsTo, Faithful;
  }

  /** If the server's stream is, so far, the start of what its peer encoded, then what the client
      has been sent is the start of what the peer meant. */
  lemma {:induction false} EndToEnd(a: Aead, peer: Peer, first: seq<Byte>, more: seq<seq<Byte>>, fromServer: seq<Byte>, toClient: seq<Byte>)
    requires Matches(a, peer) && |first| <= MAX_PAYLOAD && Fits(more)
    requires fromServer <= Encode(peer, first, more) && toClient <= Decode(a, START, fromServer).plain
    ensures toClient <= first + Flatten(more)
  {
    var whole := Encode(peer, first, more);
    assert whole == fromServer + whole[|fromServer|..];
    DecodeMonotone(a, START, fromServer, whole[|fromServer|..]);
    EncodedDecodes(a, peer, first, more);
  }
}
