/** The relay phase of a TCP session (src/tcp_proxy.c).  The server's stream is a response header,
    a payload, then length and payload chunks, all sealed; it is received into a sliding buffer,
    opened in place, and sent on to the client as the client's socket takes it. */
module TcpRelay {
  import opened Bytes
  import opened Options

  const TAG_LEN := 16
  const LENGTH_CHUNK_LEN := 18
  const MAX_PAYLOAD := 65535
  const IN_BUFSIZ := 65617

  type U16 = x: nat | x <= MAX_PAYLOAD witness 0

  // ---------- the frame decoder ----------

  /** What is expected next on the server's stream. */
  datatype Phase = Header | Length | Payload(length: U16)

  /** The phase, and how many chunks have been opened. */
  datatype Decoder = Decoder(phase: Phase, count: nat)

  /** Opening depends on the chunk counter and the bytes. */
  datatype Aead = Aead(headerLen: nat, openHeader: seq<Byte> -> Option<U16>,
                       openLength: (nat, seq<Byte>) -> Option<U16>, openPayload: (nat, seq<Byte>) -> Option<seq<Byte>>)
  {
    /** The header length has passed the check made on entry, and a plaintext is shorter than its
        ciphertext by at least the tag. */
    ghost predicate Sound() {
      0 < headerLen <= IN_BUFSIZ && forall c: nat, s :: openPayload(c, s).Some? ==> |openPayload(c, s).value| + TAG_LEN <= |s|
    }
  }

  const START := Decoder(Header, 0)

  function Need(a: Aead, d: Decoder): (n: nat)
    ensures 0 < a.headerLen ==> 0 < n
    ensures a.headerLen <= IN_BUFSIZ ==> n <= IN_BUFSIZ
  {
    match d.phase
    case Header => a.headerLen
    case Length => LENGTH_CHUNK_LEN
    case Payload(n) => n + TAG_LEN
  }

  datatype Opened = Opened(next: Decoder, plain: seq<Byte>)

  function Open(a: Aead, d: Decoder, chunk: seq<Byte>): Option<Opened> {
    match d.phase
    case Header =>
      (match a.openHeader(chunk) case None => None case Some(n) => Some(Opened(Decoder(Payload(n), d.count), [])))
    case Length =>
      (match a.openLength(d.count, chunk) case None => None case Some(n) => Some(Opened(Decoder(Payload(n), d.count + 1), [])))
    case Payload(_) =>
      (match a.openPayload(d.count, chunk) case None => None case Some(p) => Some(Opened(Decoder(Length, d.count + 1), p)))
  }

  /** The plaintext of the complete chunks, where the decoder stands after them, the bytes of the
      incomplete one, and whether every chunk opened; nothing is decoded past one that does not. */
  datatype Decoded = Decoded(plain: seq<Byte>, decoder: Decoder, left: seq<Byte>, ok: bool)

  function After(plain: seq<Byte>, r: Decoded): Decoded { r.(plain := plain + r.plain) }

  function Decode(a: Aead, d: Decoder, s: seq<Byte>): (r: Decoded)
    requires 0 < a.headerLen
    decreases |s|
  {
    var need := Need(a, d);
    if |s| < need then Decoded([], d, s, true)
    else
      match Open(a, d, s[..need])
      case None => Decoded([], d, [], false)
      case Some(o) => After(o.plain, Decode(a, o.next, s[need..]))
  }

  lemma {:induction false} AfterAfter(p: seq<Byte>, q: seq<Byte>, r: Decoded)
    ensures After(p, After(q, r)) == After(p + q, r) && After([], r) == r
  {
    assert p + (q + r.plain) == p + q + r.plain;
  }

  /** The decoder opens the chunk at the front of `s`. */
  ghost predicate Steps(a: Aead, d: Decoder, s: seq<Byte>, plain: seq<Byte>, next: Decoder, rest: seq<Byte>) {
    Need(a, d) <= |s| && Open(a, d, s[..Need(a, d)]) == Some(Opened(next, plain)) && rest == s[Need(a, d)..]
  }

  ghost predicate Refuses(a: Aead, d: Decoder, s: seq<Byte>) {
    Need(a, d) <= |s| && Open(a, d, s[..Need(a, d)]).None?
  }

  lemma {:induction false} DecodeStep(a: Aead, d: Decoder, s: seq<Byte>, plain: seq<Byte>, next: Decoder, rest: seq<Byte>)
    requires 0 < a.headerLen && Steps(a, d, s, plain, next, rest)
    ensures Decode(a, d, s) == After(plain, Decode(a, next, rest))
  {}

  /** Decoding `s` gives `plain`, and then whatever decoding `rest` gives. */
  ghost predicate Yields(a: Aead, d: Decoder, s: seq<Byte>, plain: seq<Byte>, next: Decoder, rest: seq<Byte>)
    requires 0 < a.headerLen
  {
    Decode(a, d, s) == After(plain, Decode(a, next, rest))
  }

  /** Decoding `s` gives nothing, because its first payload does not open. */
  ghost predicate Bad(a: Aead, d: Decoder, s: seq<Byte>)
    requires 0 < a.headerLen
  {
    Decode(a, d, s).plain == [] && !Decode(a, d, s).ok
  }

  lemma {:induction false} YieldsNothing(a: Aead, d: Decoder, s: seq<Byte>)
    requires 0 < a.headerLen
    ensures Yields(a, d, s, [], d, s)
  {
    AfterAfter([], [], Decode(a, d, s));
  }

  lemma {:induction false} YieldsStep(a: Aead, d: Decoder, s: seq<Byte>, d1: Decoder, s1: seq<Byte>, plain: seq<Byte>, d2: Decoder, s2: seq<Byte>)
    requires 0 < a.headerLen && Yields(a, d, s, [], d1, s1) && Steps(a, d1, s1, plain, d2, s2)
    ensures Yields(a, d, s, plain, d2, s2)
  {
    DecodeStep(a, d1, s1, plain, d2, s2);
    AfterAfter([], plain, Decode(a, d2, s2));
  }

  lemma {:induction false} YieldsBad(a: Aead, d: Decoder, s: seq<Byte>, d1: Decoder, s1: seq<Byte>)
    requires 0 < a.headerLen && Yields(a, d, s, [], d1, s1) && Refuses(a, d1, s1)
    ensures Bad(a, d, s)
  {}

  /** Decoding can be resumed where it stopped. */
  lemma {:induction false} DecodeMore(a: Aead, d: Decoder, s: seq<Byte>, t: seq<Byte>)
    requires 0 < a.headerLen
    ensures var r := Decode(a, d, s);
            Decode(a, d, s + t) == if r.ok then After(r.plain, Decode(a, r.decoder, r.left + t)) else r
    decreases |s|
  {
    var need := Need(a, d);
    if |s| < need {
      AfterAfter([], [], Decode(a, d, s + t));
    } else {
      assert (s + t)[..need] == s[..need] && (s + t)[need..] == s[need..] + t;
      match Open(a, d, s[..need])
      case None =>
      case Some(o) =>
        var r := Decode(a, o.next, s[need..]);
        DecodeStep(a, d, s, o.plain, o.next, s[need..]);
        DecodeStep(a, d, s + t, o.plain, o.next, s[need..] + t);
        DecodeMore(a, o.next, s[need..], t);
        AfterAfter(o.plain, r.plain, Decode(a, r.decoder, r.left + t));
    }
  }

  /** More bytes never change what has been decoded already. */
  lemma {:induction false} DecodeMonotone(a: Aead, d: Decoder, s: seq<Byte>, t: seq<Byte>)
    requires 0 < a.headerLen
    ensures Decode(a, d, s).plain <= Decode(a, d, s + t).plain
  {
    DecodeMore(a, d, s, t);
  }

  /** Bytes that arrive join what is still to be decoded. */
  lemma {:induction false} Arrives(a: Aead, all: seq<Byte>, out: seq<Byte>, d: Decoder, rest: seq<Byte>, t: seq<Byte>)
    requires 0 < a.headerLen && Decode(a, START, all) == After(out, Decode(a, d, rest))
    ensures Decode(a, START, all + t) == After(out, Decode(a, d, rest + t))
  {
    var r, q := Decode(a, START, all), Decode(a, d, rest);
    DecodeMore(a, START, all, t);
    DecodeMore(a, d, rest, t);
    if r.ok {
      AfterAfter(out, q.plain, Decode(a, q.decoder, q.left + t));
    }
  }

  // ---------- the encoder at the other end ----------

  datatype Peer = Peer(header: U16 -> seq<Byte>, length: (nat, U16) -> seq<Byte>, payload: (nat, seq<Byte>) -> seq<Byte>)

  /** What the peer seals, we open. */
  ghost predicate Matches(a: Aead, peer: Peer) {
    0 < a.headerLen &&
    (forall n: U16 :: |peer.header(n)| == a.headerLen && a.openHeader(peer.header(n)) == Some(n)) &&
    (forall c: nat, n: U16 :: |peer.length(c, n)| == LENGTH_CHUNK_LEN && a.openLength(c, peer.length(c, n)) == Some(n)) &&
    (forall c: nat, p: seq<Byte> :: |p| <= MAX_PAYLOAD ==>
      |peer.payload(c, p)| == |p| + TAG_LEN && a.openPayload(c, peer.payload(c, p)) == Some(p))
  }

  ghost predicate Fits(chunks: seq<seq<Byte>>) {
    forall i :: 0 <= i < |chunks| ==> |chunks[i]| <= MAX_PAYLOAD
  }

  function EncodeFrom(peer: Peer, count: nat, chunks: seq<seq<Byte>>): seq<Byte>
    requires Fits(chunks)
    decreases |chunks|
  {
    if chunks == [] then []
    else peer.length(count, |chunks[0]|) + (peer.payload(count + 1, chunks[0]) + EncodeFrom(peer, count + 2, chunks[1..]))
  }

  function Encode(peer: Peer, first: seq<Byte>, more: seq<seq<Byte>>): seq<Byte>
    requires |first| <= MAX_PAYLOAD && Fits(more)
  {
    peer.header(|first|) + (peer.payload(0, first) + EncodeFrom(peer, 1, more))
  }

  lemma {:induction false} PayloadDecodes(a: Aead, peer: Peer, p: seq<Byte>, count: nat, rest: seq<Byte>)
    requires Matches(a, peer) && |p| <= MAX_PAYLOAD
    ensures Steps(a, Decoder(Payload(|p|), count), peer.payload(count, p) + rest, p, Decoder(Length, count + 1), rest)
  {
    var s := peer.payload(count, p) + rest;
    assert |peer.payload(count, p)| == |p| + TAG_LEN;
    assert s[..|p| + TAG_LEN] == peer.payload(count, p) && s[|p| + TAG_LEN..] == rest;
  }

  lemma {:induction false} ChunksDecode(a: Aead, peer: Peer, count: nat, chunks: seq<seq<Byte>>)
    requires Matches(a, peer) && Fits(chunks)
    ensures Decode(a, Decoder(Length, count), EncodeFrom(peer, count, chunks)) ==
            Decoded(Flatten(chunks), Decoder(Length, count + 2 * |chunks|), [], true)
    decreases |chunks|
  {
    if chunks != [] {
      var p, more := chunks[0], chunks[1..];
      var rest := EncodeFrom(peer, count + 2, more);
      var s1 := peer.payload(count + 1, p) + rest;
      var s := peer.length(count, |p|) + s1;
      var d, d1, d2 := Decoder(Length, count), Decoder(Payload(|p|), count + 1), Decoder(Length, count + 2);
      assert s[..LENGTH_CHUNK_LEN] == peer.length(count, |p|) && s[LENGTH_CHUNK_LEN..] == s1;
      DecodeStep(a, d, s, [], d1, s1);
      PayloadDecodes(a, peer, p, count + 1, rest);
      DecodeStep(a, d1, s1, p, d2, rest);
      ChunksDecode(a, peer, count + 2, more);
      FlattenHead(chunks);
    }
  }

  /** Whatever a peer sends decodes to what it meant. */
  lemma {:induction false} EncodedDecodes(a: Aead, peer: Peer, first: seq<Byte>, more: seq<seq<Byte>>)
    requires Matches(a, peer) && |first| <= MAX_PAYLOAD && Fits(more)
    ensures Decode(a, START, Encode(peer, first, more)) ==
            Decoded(first + Flatten(more), Decoder(Length, 1 + 2 * |more|), [], true)
  {
    var rest := EncodeFrom(peer, 1, more);
    var s1 := peer.payload(0, first) + rest;
    var s := peer.header(|first|) + s1;
    var d1 := Decoder(Payload(|first|), 0);
    assert |peer.header(|first|)| == a.headerLen;
    assert s[..a.headerLen] == peer.header(|first|) && s[a.headerLen..] == s1;
    DecodeStep(a, START, s, [], d1, s1);
    PayloadDecodes(a, peer, first, 0, rest);
    DecodeStep(a, d1, s1, first, Decoder(Length, 1), rest);
    ChunksDecode(a, peer, 1, more);
  }

  // ---------- the two buffers ----------

  /** What one call of send does: takes some bytes, is interrupted, would block, or fails. */
  datatype Send = Wrote(n: nat) | Interrupted | Blocked | Broken

  /** How many of `len` bytes the sends take, and whether the session survives it. */
  datatype Draining = Draining(taken: nat, open: bool)

  function Drained(sends: seq<Send>, len: nat): (d: Draining)
    ensures d.taken <= len
    decreases |sends|
  {
    if len == 0 || sends == [] then Draining(0, true)
    else
      match sends[0]
      case Interrupted => Drained(sends[1..], len)
      case Blocked => Draining(0, true)
      case Broken => Draining(0, false)
      case Wrote(n) =>
        var taken := Least(n, len);
        if taken == 0 then Draining(0, false)
        else
          var d := Drained(sends[1..], len - taken);
          d.(taken := taken + d.taken)
  }

  /** The part of `pending` that the sends take. */
  function SentOf(pending: seq<Byte>, sends: seq<Send>): seq<Byte> {
    pending[..Drained(sends, |pending|).taken]
  }

  lemma {:induction false} SentIsPrefix(pending: seq<Byte>, sends: seq<Send>)
    ensures SentOf(pending, sends) <= pending
  {}

  /** What the sends still to come will take. */
  ghost function Remaining(sends: seq<Send>, i: nat, len: nat): Draining
    requires i <= |sends|
  {
    Drained(sends[i..], len)
  }

  lemma {:induction false} RemainingBegins(buf: array<Byte>, from: nat, sends: seq<Send>, len: nat)
    requires from <= buf.Length
    ensures IsPart(buf, from, from, []) && Remaining(sends, 0, len) == Drained(sends, len)
  {
    assert sends[0..] == sends;
  }

  lemma {:induction false} RemainingNext(sends: seq<Send>, i: nat, len: nat)
    requires i <= |sends|
    ensures Remaining(sends, i, len) ==
            if len == 0 || i == |sends| then Draining(0, true)
            else
              match sends[i]
              case Interrupted => Remaining(sends, i + 1, len)
              case Blocked => Draining(0, true)
              case Broken => Draining(0, false)
              case Wrote(n) =>
                if Least(n, len) == 0 then Draining(0, false)
                else
                  var d := Remaining(sends, i + 1, len - Least(n, len));
                  d.(taken := Least(n, len) + d.taken)
  {
    if i < |sends| {
      assert sends[i..][1..] == sends[i + 1..];
    }
  }

  ghost predicate IsPart(buf: array<Byte>, i: nat, j: nat, wire: seq<Byte>)
    reads buf
  {
    i <= j <= buf.Length && wire == buf[i..j]
  }

  lemma {:induction false} PartGrows(buf: array<Byte>, i: nat, j: nat, k: nat, wire: seq<Byte>)
    requires IsPart(buf, i, j, wire) && j <= k <= buf.Length
    ensures IsPart(buf, i, k, wire + buf[j..k])
  {}

  lemma {:induction false} PartSent(buf: array<Byte>, from: nat, n: nat, sends: seq<Send>, wire: seq<Byte>)
    requires from + n <= buf.Length && IsPart(buf, from, from + Drained(sends, n).taken, wire)
    ensures wire == SentOf(buf[from..from + n], sends) && wire + buf[from + |wire|..from + n] == buf[from..from + n]
    ensures |wire| == Drained(sends, n).taken
  {
    hide Drained;
    assert |buf[from..from + n]| == n;
  }

  /** tcp_relay_drain: `wire` is what the socket has taken; the session is closed when the socket
      is broken or a send takes nothing.  A socket that is not ready any more ends `sends`. */
  method Drain(buf: array<Byte>, base: nat, start: nat, count: nat, sends: seq<Send>)
      returns (off: nat, len: nat, wire: seq<Byte>, open: bool)
    requires base + start + count <= buf.Length
    ensures open == Drained(sends, count).open
    ensures wire == SentOf(buf[base + start..base + start + count], sends)
    ensures open ==> off + len <= start + count && (len == 0 ==> off == 0) && len == count - |wire|
    ensures open ==> wire + buf[base + off..base + off + len] == buf[base + start..base + start + count]
  {
    off, len, wire, open := DrainLoop(buf, base, start, count, sends);
    PartSent(buf, base + start, count, sends, wire);
    hide Drained, SentOf;
    if len == 0 {
      off := 0;
    }
  }

  method DrainLoop(buf: array<Byte>, base: nat, start: nat, count: nat, sends: seq<Send>)
      returns (off: nat, len: nat, wire: seq<Byte>, open: bool)
    requires base + start + count <= buf.Length
    ensures start <= off && off + len == start + count && IsPart(buf, base + start, base + off, wire)
    ensures Draining(off - start, open) == Drained(sends, count)
  {
    hide Drained, Remaining, IsPart;
    off, len, wire := start, count, [];
    var i := 0;
    RemainingBegins(buf, base + start, sends, len);
    while len > 0
      invariant start <= off && off + len == start + count && i <= |sends|
      invariant IsPart(buf, base + start, base + off, wire)
      invariant Drained(sends, count) == Remaining(sends, i, len).(taken := off - start + Remaining(sends, i, len).taken)
      decreases |sends| - i, len
    {
      RemainingNext(sends, i, len);
      if i == |sends| {
        return off, len, wire, true;
      }
      var s := sends[i];
      i := i + 1;
      match s {
        case Interrupted =>
        case Blocked => return off, len, wire, true;
        case Broken => return off, len, wire, false;
        case Wrote(n) =>
          var taken := Least(n, len);
          if taken == 0 {
            return off, len, wire, false;
          }
          PartGrows(buf, base + start, base + off, base + off + taken, wire);
          wire := wire + buf[base + off..base + off + taken];
          off, len := off + taken, len - taken;
      }
    }
    RemainingNext(sends, i, len);
    open := true;
  }

  /** What recv finds at the socket: some bytes, the end of the stream, nothing yet, or an error. */
  datatype Arrival = Bytes(first: Byte, rest: seq<Byte>) | End | NotYet | Broken
  {
    function Data(): seq<Byte> { if Bytes? then [first] + rest else [] }
  }

  /** What recv returns when there is `room` to receive into. */
  function Received(a: Arrival, room: nat): (got: seq<Byte>)
    ensures 0 < room ==> (got == [] <==> !a.Bytes?)
  {
    a.Data()[..Least(|a.Data()|, room)]
  }

  datatype ReadOutcome = Going | Ended | Closed

  datatype Outcome = Opens | Waits | Fails

  lemma {:induction false} PlainFits(a: Aead, count: nat, chunk: seq<Byte>)
    requires a.Sound() && a.openPayload(count, chunk).Some?
    ensures |a.openPayload(count, chunk).value| + TAG_LEN <= |chunk|
  {}

  /** The server-to-client half of the session. */
  class Downstream {
    const aead: Aead
    const buf: array<Byte>
    var head: nat
    var len: nat
    var headerDone: bool
    var needLen: bool
    var payloadLen: U16
    var outOff: nat
    var outLen: nat
    var consume: nat
    var count: nat

    ghost predicate Valid()
      reads this
    {
      aead.Sound() && buf.Length == IN_BUFSIZ && head + len <= IN_BUFSIZ && (needLen ==> headerDone) &&
      if outLen == 0 then consume == 0 == outOff else outOff + outLen + TAG_LEN <= consume <= len && needLen
    }

    function Position(): Decoder
      reads this`headerDone, this`needLen, this`payloadLen, this`count
    {
      Decoder(if !headerDone then Header else if needLen then Length else Payload(payloadLen), count)
    }

    /** The bytes received and not yet let go of. */
    ghost function Window(): (w: seq<Byte>)
      requires Valid()
      reads this, buf
      ensures |w| == len
    {
      buf[head..head + len]
    }

    /** Plaintext waiting to be sent. */
    ghost function Pending(): seq<Byte>
      requires Valid()
      reads this, buf
    {
      if outLen == 0 then [] else buf[head + outOff..head + outOff + outLen]
    }

    ghost function Undecoded(): seq<Byte>
      requires Valid()
      reads this, buf
    {
      buf[head + consume..head + len]
    }

    /** Nothing more can be decoded until bytes arrive. */
    ghost predicate Starved()
      requires Valid()
      reads this, buf
    {
      outLen == 0 && len < Need(aead, Position())
    }

    constructor (aead: Aead)
      requires aead.Sound()
      ensures Valid() && this.aead == aead && fresh(buf)
      ensures Pending() == [] && Undecoded() == [] && Position() == START && outLen == 0 && len == 0
    {
      this.aead := aead;
      buf := new Byte[IN_BUFSIZ];
      head, len, headerDone, needLen, payloadLen := 0, 0, false, false, 0;
      outOff, outLen, consume, count := 0, 0, 0, 0;
    }

    /** tcp_buf_consume */
    method Consume(n: nat)
      requires head + len <= buf.Length && n <= len
      modifies this`head, this`len
      ensures head + len <= buf.Length && len == old(len) - n
      ensures buf[head..head + len] == old(buf[head + n..head + len])
    {
      if n >= len {
        head, len := 0, 0;
      } else {
        head, len := head + n, len - n;
      }
    }

    /** Opening the response header in tcp_relay_process_server_data. */
    method OpenHeader() returns (ok: bool)
      requires Valid() && outLen == 0 && !headerDone && aead.headerLen <= len
      modifies this
      ensures ok ==> Valid() && outLen == 0 && headerDone && !needLen && len < old(len)
      ensures ok ==> Steps(aead, old(Position()), old(Undecoded()), [], Position(), Undecoded())
      ensures !ok ==> Refuses(aead, old(Position()), old(Undecoded()))
    {
      ghost var d, s := Position(), Undecoded();
      var chunk := buf[head..head + aead.headerLen];
      assert chunk == s[..Need(aead, d)];
      var r := aead.openHeader(chunk);
      if r.None? {
        return false;
      }
      payloadLen := r.value;
      Consume(aead.headerLen);
      headerDone, needLen := true, false;
      return true;
    }

    /** Opening a length chunk in tcp_relay_process_server_data. */
    method OpenLength() returns (ok: bool)
      requires Valid() && outLen == 0 && headerDone && needLen && LENGTH_CHUNK_LEN <= len
      modifies this
      ensures ok ==> Valid() && outLen == 0 && headerDone && !needLen && len < old(len)
      ensures ok ==> Steps(aead, old(Position()), old(Undecoded()), [], Position(), Undecoded())
      ensures !ok ==> Refuses(aead, old(Position()), old(Undecoded()))
    {
      ghost var d, s := Position(), Undecoded();
      var chunk := buf[head..head + LENGTH_CHUNK_LEN];
      assert chunk == s[..Need(aead, d)];
      var r := aead.openLength(count, chunk);
      if r.None? {
        return false;
      }
      payloadLen := r.value;
      Consume(LENGTH_CHUNK_LEN);
      count, needLen := count + 1, false;
      return true;
    }

    /** The plaintext takes the front of its ciphertext. */
    method Place(plain: seq<Byte>, need: nat)
      requires Valid() && 0 < |plain| && |plain| <= need <= len
      modifies this`consume, buf
      ensures consume == need && buf[head..head + |plain|] == plain
      ensures buf[head + need..head + len] == old(buf[head + need..head + len])
    {
      forall i | 0 <= i < |plain| {
        buf[head + i] := plain[i];
      }
      consume := need;
    }

    /** Opening a payload chunk in place in tcp_relay_process_server_data. */
    method OpenPayload() returns (ok: bool)
      requires Valid() && outLen == 0 && headerDone && !needLen && payloadLen + TAG_LEN <= len
      modifies this, buf
      ensures ok ==> Valid() && headerDone && needLen && len <= old(len) && (outLen == 0 ==> len < old(len))
      ensures ok ==> Steps(aead, old(Position()), old(Undecoded()), Pending(), Position(), Undecoded())
      ensures !ok ==> Refuses(aead, old(Position()), old(Undecoded()))
    {
      ghost var d, s := Position(), Undecoded();
      var need := payloadLen + TAG_LEN;
      var chunk := buf[head..head + need];
      assert chunk == s[..Need(aead, d)];
      var r := aead.openPayload(count, chunk);
      if r.None? {
        return false;
      }
      PlainFits(aead, count, chunk);
      assert s[need..] == buf[head + need..head + len];
      TakePlain(r.value, need);
      return true;
    }

    /** What has been opened waits to be sent, or, when empty, is let go of at once. */
    method TakePlain(plain: seq<Byte>, need: nat)
      requires Valid() && outLen == 0 && headerDone && |plain| + TAG_LEN <= need <= len
      modifies this`head, this`len, this`consume, this`needLen, this`count, this`outOff, this`outLen, buf
      ensures Valid() && needLen && len <= old(len) && (outLen == 0 ==> len < old(len)) && count == old(count) + 1
      ensures Pending() == plain && Undecoded() == old(buf[head + need..head + len])
    {
      hide Aead.Sound;
      if |plain| == 0 {
        Consume(need);
        consume := 0;
      } else {
        Place(plain, need);
      }
      needLen, count := true, count + 1;
      outOff, outLen := 0, |plain|;
    }

    lemma {:induction false} AeadIsSound()
      requires Valid()
      ensures 0 < aead.headerLen
    {}

    lemma {:induction false} NothingPending()
      requires Valid() && outLen == 0
      ensures Pending() == []
    {}

    /** The loop body of tcp_relay_process_server_data: up to three chunks, ending with a payload. */
    method OpenNext() returns (r: Outcome)
      requires Valid() && outLen == 0
      modifies this, buf
      ensures !r.Fails? ==> Valid() && len <= old(len)
      ensures r.Waits? ==> Starved()
      ensures old(Starved()) ==> r.Waits? && unchanged(this) && unchanged(buf)
      ensures r.Opens? ==> outLen == 0 ==> len < old(len)
      ensures r.Fails? ==> Bad(aead, old(Position()), old(Undecoded()))
      ensures !r.Fails? ==> Yields(aead, old(Position()), old(Undecoded()), Pending(), Position(), Undecoded())
    {
      ghost var d, s := Position(), Undecoded();
      ghost var d1, s1 := d, s;
      AeadIsSound();
      NothingPending();
      YieldsNothing(aead, d, s);
      hide Decode, Yields, Steps, Refuses, Bad, Aead.Sound, Downstream.Pending, Downstream.Undecoded;
      if !headerDone {
        if len < aead.headerLen { return Waits; }
        var ok := OpenHeader();
        if !ok {
          YieldsBad(aead, d, s, d1, s1);
          return Fails;
        }
        NothingPending();
        YieldsStep(aead, d, s, d1, s1, [], Position(), Undecoded());
        d1, s1 := Position(), Undecoded();
      }
      if needLen {
        if len < LENGTH_CHUNK_LEN { return Waits; }
        var ok := OpenLength();
        if !ok {
          YieldsBad(aead, d, s, d1, s1);
          return Fails;
        }
        NothingPending();
        YieldsStep(aead, d, s, d1, s1, [], Position(), Undecoded());
        d1, s1 := Position(), Undecoded();
      }
      if len < payloadLen + TAG_LEN { return Waits; }
      var ok := OpenPayload();
      if !ok {
        YieldsBad(aead, d, s, d1, s1);
        return Fails;
      }
      YieldsStep(aead, d, s, d1, s1, Pending(), Position(), Undecoded());
      return Opens;
    }

    /** tcp_relay_process_server_data: open chunks until there is something to send. */
    method ProcessServerData() returns (ok: bool)
      requires Valid() && outLen == 0
      modifies this, buf
      ensures ok ==> Valid() && (outLen > 0 || Starved()) && len <= old(len)
      ensures old(Starved()) ==> ok && outLen == 0 && Undecoded() == old(Undecoded()) && Room() == old(Room())
      ensures ok ==> Yields(aead, old(Position()), old(Undecoded()), Pending(), Position(), Undecoded())
      ensures !ok ==> Bad(aead, old(Position()), old(Undecoded()))
    {
      ghost var whole := Decode(aead, Position(), Undecoded());
      var next := Opens;
      while outLen == 0
        invariant Valid() && len <= old(len)
        invariant old(Starved()) ==> unchanged(this) && unchanged(buf)
        invariant whole == After(Pending(), Decode(aead, Position(), Undecoded()))
        decreases if outLen == 0 then len + 1 else 0
      {
        next := OpenNext();
        if !next.Opens? {
          return next.Waits?;
        }
      }
      ok := true;
    }

    /** Valid, except that a payload that has been sent may still be held. */
    ghost predicate Holding()
      reads this
    {
      aead.Sound() && buf.Length == IN_BUFSIZ && head + len <= IN_BUFSIZ && (needLen ==> headerDone) && consume <= len &&
      if outLen == 0 then outOff == 0 else outOff + outLen + TAG_LEN <= consume && needLen
    }

    ghost function OutBytes(): seq<Byte>
      requires Holding()
      reads this, buf
    {
      buf[head + outOff..head + outOff + outLen]
    }

    ghost function Behind(): seq<Byte>
      requires head + consume <= head + len <= buf.Length
      reads this`head, this`consume, this`len, buf
    {
      buf[head + consume..head + len]
    }

    lemma {:induction false} ValidIsHolding()
      requires Valid()
      ensures Holding() && OutBytes() == Pending() && Behind() == Undecoded() && |OutBytes()| == outLen
    {}

    /** The drain in tcp_relay_write_to_client. */
    method SendOut(sends: seq<Send>) returns (wire: seq<Byte>, ok: bool)
      requires Holding()
      modifies this`outOff, this`outLen
      ensures wire == SentOf(old(OutBytes()), sends) && ok == Drained(sends, old(outLen)).open
      ensures ok ==> Holding() && wire + OutBytes() == old(OutBytes())
    {
      hide Drained, SentOf, Aead.Sound;
      outOff, outLen, wire, ok := Drain(buf, head, outOff, outLen, sends);
    }

    /** The end of tcp_relay_write_to_client: a payload that has been sent is let go of. */
    method LetGo()
      requires Holding()
      modifies this`head, this`len, this`consume
      ensures Valid() && len <= old(len) && Pending() == old(OutBytes()) && Undecoded() == old(Behind())
    {
      if outLen == 0 && consume > 0 {
        Consume(consume);
        consume := 0;
      }
    }

    /** tcp_relay_write_to_client */
    method WriteToClient(sends: seq<Send>) returns (wire: seq<Byte>, ok: bool)
      requires Valid()
      modifies this
      ensures ok ==> Valid() && len <= old(len) && wire + Pending() == old(Pending())
      ensures ok ==> Position() == old(Position()) && Undecoded() == old(Undecoded())
      ensures wire == SentOf(old(Pending()), sends) && ok == Drained(sends, |old(Pending())|).open
    {
      ValidIsHolding();
      hide Drained, SentOf, Downstream.Valid, Downstream.Holding, Downstream.Pending, Downstream.Undecoded, Downstream.OutBytes, Downstream.Behind;
      wire, ok := SendOut(sends);
      if ok {
        LetGo();
      }
    }

    /** How much can be received, after compaction. */
    function Room(): nat
      requires head + len <= IN_BUFSIZ
      reads this`head, this`len
    {
      if head != 0 && head + len == IN_BUFSIZ then IN_BUFSIZ - len else IN_BUFSIZ - head - len
    }

    /** tcp_relay_compact_server_input: only when the window has reached the end of the buffer. */
    method Compact()
      requires Valid() && outLen == 0
      modifies this`head, buf
      ensures Valid() && Undecoded() == old(Undecoded())
      ensures IN_BUFSIZ - head - len == old(Room()) && (len < IN_BUFSIZ ==> head + len < IN_BUFSIZ)
    {
      hide Aead.Sound;
      if head != 0 && head + len == IN_BUFSIZ {
        forall i | 0 <= i < len {
          buf[i] := buf[head + i];
        }
        head := 0;
      }
    }

    /** recv into the free end of the buffer. */
    method Append(data: seq<Byte>)
      requires Valid() && outLen == 0 && head + len + |data| <= IN_BUFSIZ
      modifies this`len, buf
      ensures Valid() && Undecoded() == old(Undecoded()) + data
    {
      forall i | 0 <= i < |data| {
        buf[head + len + i] := data[i];
      }
      len := len + |data|;
    }

    /** tcp_relay_read_from_server.  `got` is what recv returned.  An end of stream is clean only
        between chunks. */
    method ReadFromServer(a: Arrival) returns (got: seq<Byte>, r: ReadOutcome)
      requires Valid() && Starved()
      modifies this, buf
      ensures 0 < old(Room()) && (a.Bytes? ==> got == Received(a, old(Room()))) && (!a.Bytes? ==> got == [])
      ensures r.Going? ==> Valid() && (outLen > 0 || Starved()) && !a.End? && !a.Broken?
      ensures r.Going? ==> Yields(aead, old(Position()), old(Undecoded()) + got, Pending(), Position(), Undecoded())
      ensures r.Ended? ==> a.End? && Valid() && old(len) == 0 == len && outLen == 0
      ensures r.Ended? ==> Position() == old(Position()) && Position().phase == Length
      ensures r.Closed? ==> match a
        case NotYet => false
        case Broken => true
        case End => old(Undecoded()) != [] || old(Position()).phase != Length
        case Bytes(_, _) => Bad(aead, old(Position()), old(Undecoded()) + got)
    {
      got := [];
      Compact();
      assert Undecoded() + [] == Undecoded();
      YieldsNothing(aead, Position(), Undecoded());
      var cap := IN_BUFSIZ - head - len;
      match a {
        case Broken => return got, Closed;
        case NotYet => return got, Going;
        case _ =>
      }
      var n := Least(|a.Data()|, cap);
      if n == 0 {
        if len != 0 || !headerDone || !needLen {
          return got, Closed;
        }
        return got, Ended;
      }
      got := Received(a, cap);
      Append(got);
      var ok := ProcessServerData();
      r := if ok then Going else Closed;
    }
  }
}
