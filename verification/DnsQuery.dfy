/** Answering a DNS query out of the fake-DNS pool (src/fakedns.c, fakedns_process_query), in place
    or from one buffer into another.  What the pool answers is a parameter. */
module DnsQuery {
  import opened Bytes
  import opened DnsName
  import opened FakeDnsPool
  import opened Options

  const HEADER := 12
  const TYPE_A := 1
  const TYPE_PTR := 12
  const CLASS_IN := 1
  const NO_ERROR := 0x8180
  const SERVFAIL := 0x8182
  const REFUSED := 0x8185

  type U16 = x: nat | x < TWO16 witness 0

  /** The pool, and the parser of reverse names. */
  datatype Zone = Zone(lookup: Name -> nat, pointer: Name -> Option<nat>, reverse: nat -> Option<Name>)

  function Be16(q: seq<Byte>, i: nat): U16
    requires i + 2 <= |q|
  {
    256 * (q[i] as int) + q[i + 1] as int
  }

  // ---------- what is answered ----------

  datatype Question = Question(domain: Name, end: nat)

  /** A standard query with one question that is well formed. */
  function Asked(q: seq<Byte>): (r: Option<Question>)
    ensures r.Some? ==> HEADER + 4 <= r.value.end <= |q| && r.value.domain != []
  {
    if |q| < HEADER || Be16(q, 2) >= 0x800 || Be16(q, 4) != 1 then None
    else
      match ParseFrom(q, HEADER, [], 0)
      case Bad => None
      case Parsed(domain, next) =>
        if domain == [] || next + 4 > |q| then None else Some(Question(domain, next + 4))
  }

  /** Identifier and question echoed, flags set, no records but `answers`. */
  function Head(q: seq<Byte>, end: nat, flags: U16, answers: Byte): (h: seq<Byte>)
    requires HEADER <= end <= |q|
    ensures |h| == end
  {
    q[..2] + [flags / 256, flags % 256] + q[4..6] + [0, answers, 0, 0, 0, 0] + q[HEADER..end]
  }

  /** A record for the name of the question. */
  function Record(kind: Byte, data: seq<Byte>): (r: seq<Byte>)
    requires |data| < TWO16
    ensures |r| == HEADER + |data|
  {
    [0xC0, 0x0C, 0, kind, 0, 1] + Big(DNS_TTL, 4) + [|data| / 256, |data| % 256] + data
  }

  /** The data of the answer, if there is one. */
  function AnswerData(z: Zone, qtype: U16, domain: Name): (d: Option<seq<Byte>>)
    ensures d.Some? ==> |d.value| <= RDATA_SIZE
  {
    if qtype == TYPE_A then
      (var ip := z.lookup(domain); if ip == 0 then None else Some(Big(ip, 4)))
    else if qtype == TYPE_PTR then
      match z.pointer(domain)
      case None => None
      case Some(ip) =>
        match z.reverse(ip)
        case None => None
        case Some(name) => EncodedName(name)
    else None
  }

  function EncodedName(name: Name): (d: Option<seq<Byte>>)
    ensures d.Some? ==> |d.value| <= RDATA_SIZE
  {
    EncodedFits(CStr(name), 0, RDATA_SIZE);
    EncodeFrom(CStr(name), 0, RDATA_SIZE)
  }

  lemma {:induction false} EncodedFits(d: Name, pos: nat, outlen: nat)
    ensures EncodeFrom(d, pos, outlen).Some? ==> pos + |EncodeFrom(d, pos, outlen).value| <= outlen
    decreases |d|
  {
    if d != [] && EncodeFrom(d, pos, outlen).Some? {
      EncodedFits(PastDot(d), pos + 1 + |UpToDot(d)|, outlen);
    }
  }

  /** The response, as bytes: a function of the query's bytes and nothing else. */
  function Response(z: Zone, q: seq<Byte>, buflen: nat): (r: Option<seq<Byte>>)
    ensures r.Some? ==> |q| <= buflen && HEADER <= |r.value| <= buflen
  {
    if buflen < |q| then None
    else
      match Asked(q)
      case None => None
      case Some(Question(domain, end)) =>
        if Be16(q, end - 2) != CLASS_IN then Some(Head(q, end, REFUSED, 0))
        else
          var qtype := Be16(q, end - 4);
          match AnswerData(z, qtype, domain)
          case Some(data) =>
            if end + HEADER + |data| > buflen then None
            else Some(Head(q, end, NO_ERROR, 1) + Record(if qtype == TYPE_A then 1 else 12, data))
          case None => Some(Head(q, end, if qtype == TYPE_A then SERVFAIL else NO_ERROR, 0))
  }

  // ---------- what a client can rely on ----------

  /** A response is a response to the query: same identifier, the question echoed, as many answers
      announced as there are, and recursion always both desired and available. */
  lemma {:induction false} ResponseIsWellFormed(z: Zone, q: seq<Byte>, buflen: nat)
    requires Response(z, q, buflen).Some?
    ensures var r := Response(z, q, buflen).value;
            var end := Asked(q).value.end;
            Asked(q).Some? && end <= |r| <= buflen && r[..2] == q[..2] && r[HEADER..end] == q[HEADER..end] &&
            Be16(r, 2) >= 0x8000 && Be16(r, 2) / 0x100 % 2 == 1 && Be16(r, 2) / 0x80 % 2 == 1 &&
            Be16(r, 4) == 1 && Be16(r, 6) == (if |r| == end then 0 else 1) && Be16(r, 8) == 0 && Be16(r, 10) == 0
  {
    hide Head, Record, AnswerData, ParseFrom;
    var r := Response(z, q, buflen).value;
    var Question(domain, end) := Asked(q).value;
    var answers := if |r| == end then 0 else 1;
    var flags: U16 := if Be16(q, end - 2) != CLASS_IN then REFUSED
                      else if Be16(q, end - 4) == TYPE_A && answers == 0 then SERVFAIL else NO_ERROR;
    var h := Head(q, end, flags, answers);
    assert h <= r;
    HeadBytes(q, end, flags, answers);
    assert r[..2] == h[..2] && r[HEADER..end] == h[HEADER..end];
    forall i | 2 <= i < 12 ensures r[i] == h[i] {}
  }

  lemma {:induction false} HeadBytes(q: seq<Byte>, end: nat, flags: U16, answers: Byte)
    requires HEADER <= end <= |q|
    ensures var h := Head(q, end, flags, answers);
            h[..2] == q[..2] && h[2] as int == flags / 256 && h[3] as int == flags % 256 && h[4] == q[4] && h[5] == q[5] &&
            h[6] == 0 && h[7] == answers && h[8] == 0 && h[9] == 0 && h[10] == 0 && h[11] == 0 && h[HEADER..end] == q[HEADER..end]
  {}

  // ---------- the source's code ----------

  /** The walk through the question's name in fakedns_process_query. */
  method ReadName(query: array<Byte>, qlen: nat) returns (r: Parsed)
    requires HEADER <= qlen <= query.Length
    ensures r == ParseFrom(query[..qlen], HEADER, [], 0)
  {
    hide ParseFrom, Lower, Appended;
    var offset: nat := HEADER;
    var domain: Name := [];
    var labelCount := 0;
    ghost var q := query[..qlen];
    while offset < qlen
      invariant offset <= qlen && |domain| < MAX_DOMAIN_LEN && labelCount <= MAX_LABELS
      invariant ParseFrom(q, offset, domain, labelCount) == ParseFrom(q, HEADER, [], 0)
      decreases qlen - offset
    {
      ParseStep(q, offset, domain, labelCount);
      labelCount := labelCount + 1;
      if labelCount > MAX_LABELS {
        return Bad;
      }
      var len := query[offset] as int;
      if len == 0 {
        return Parsed(domain, offset + 1);
      }
      if len > MAX_LABEL || offset + 1 + len > qlen {
        return Bad;
      }
      if |domain| + (if |domain| > 0 then 1 else 0) + len >= MAX_DOMAIN_LEN {
        return Bad;
      }
      var part := LowerCase(query, offset + 1, len);
      SameSlice(query[..], qlen, offset + 1, offset + 1 + len);
      AppendedIs(domain, part);
      if |domain| > 0 {
        domain := domain + [DOT];
      }
      domain := domain + part;
      offset := offset + 1 + len;
    }
    ParseStep(q, offset, domain, labelCount);
    return Parsed(domain, offset);
  }

  lemma {:induction false} AppendedIs(domain: Name, part: Name)
    ensures Appended(domain, part) == (if |domain| > 0 then domain + [DOT] else domain) + part
  {}

  /** One label more. */
  lemma {:induction false} ParseStep(q: seq<Byte>, offset: nat, domain: Name, labels: nat)
    requires |domain| < MAX_DOMAIN_LEN
    ensures ParseFrom(q, offset, domain, labels) ==
            if offset >= |q| then Parsed(domain, offset)
            else
              var len := q[offset] as int;
              var end := offset + 1 + len;
              if labels == MAX_LABELS then Bad
              else if len == 0 && labels < MAX_LABELS then Parsed(domain, end)
              else if labels > MAX_LABELS || len > MAX_LABEL || end > |q| || |domain| + (if |domain| > 0 then 1 else 0) + len >= MAX_DOMAIN_LEN then Bad
              else ParseFrom(q, end, Appended(domain, Lower(q[offset + 1..end])), labels + 1)
  {}

  lemma {:induction false} SameSlice(s: seq<Byte>, n: nat, i: nat, j: nat)
    requires i <= j <= n <= |s|
    ensures s[..n][i..j] == s[i..j]
  {}

  /** The inner loop, byte by byte. */
  method LowerCase(query: array<Byte>, start: nat, len: nat) returns (part: Name)
    requires start + len <= query.Length
    ensures part == Lower(query[start..start + len])
  {
    part := [];
    for j := 0 to len
      invariant |part| == j && forall i :: 0 <= i < j ==> part[i] == LowerByte(query[start + i])
    {
      part := part + [LowerByte(query[start + j])];
    }
  }

  /** memcpy, and runs of single-byte stores. */
  method Put(buffer: array<Byte>, at: nat, bytes: seq<Byte>)
    requires at + |bytes| <= buffer.Length
    modifies buffer
    ensures buffer[..] == old(buffer[..at]) + bytes + old(buffer[at + |bytes|..])
    ensures forall i :: at + |bytes| <= i < buffer.Length ==> buffer[i] == old(buffer[i])
  {
    forall i | 0 <= i < |bytes| {
      buffer[at + i] := bytes[i];
    }
  }

  /** Echoing the header and the question, with the header updated.  In place there is nothing to
      copy. */
  method Echo(query: array<Byte>, buffer: array<Byte>, end: nat, flags: U16)
    requires HEADER <= end <= query.Length && end <= buffer.Length
    modifies buffer
    ensures buffer[..end] == Head(old(query[..end]), end, flags, 0)
    ensures forall i :: end <= i < buffer.Length ==> buffer[i] == old(buffer[i])
  {
    ghost var q := query[..end];
    if query != buffer {
      forall i | 0 <= i < end {
        buffer[i] := query[i];
      }
    }
    assert buffer[..end] == q;
    buffer[2] := flags / 256;
    buffer[3] := flags % 256;
    buffer[6] := 0;
    buffer[7] := 0;
    buffer[8] := 0;
    buffer[9] := 0;
    buffer[10] := 0;
    buffer[11] := 0;
  }

  function Prefixed(front: seq<Byte>, r: Option<seq<Byte>>): Option<seq<Byte>> {
    match r case None => None case Some(w) => Some(front + w)
  }

  /** `front` has been written, and what is still to come is the encoding of `p`. */
  ghost predicate Remaining(whole: Option<seq<Byte>>, front: seq<Byte>, p: Name, outlen: nat) {
    |front| <= outlen && whole == Prefixed(front, EncodeFrom(p, |front|, outlen))
  }

  lemma {:induction false} RemainingAll(p: Name, outlen: nat)
    ensures Remaining(EncodeFrom(p, 0, outlen), [], p, outlen)
  {
    var r := EncodeFrom(p, 0, outlen);
    if r.Some? { assert [] + r.value == r.value; }
  }

  function LabelOf(part: Name): (r: seq<Byte>)
    requires |part| <= MAX_LABEL
    ensures |r| == 1 + |part|
  {
    [|part| as Byte] + part
  }

  lemma {:induction false} EncodeOn(p: Name, pos: nat, outlen: nat)
    requires p != [] && 1 <= |UpToDot(p)| <= MAX_LABEL && pos + 1 + |UpToDot(p)| + 1 <= outlen
    ensures EncodeFrom(p, pos, outlen) ==
            Prefixed(LabelOf(UpToDot(p)), EncodeFrom(PastDot(p), pos + |LabelOf(UpToDot(p))|, outlen))
  {
    assert pos + |LabelOf(UpToDot(p))| == pos + 1 + |UpToDot(p)|;
  }

  lemma {:induction false} RemainingStep(whole: Option<seq<Byte>>, front: seq<Byte>, p: Name, outlen: nat)
    requires Remaining(whole, front, p, outlen) && p != []
    requires 1 <= |UpToDot(p)| <= MAX_LABEL && |front| + 1 + |UpToDot(p)| + 1 <= outlen
    ensures Remaining(whole, front + LabelOf(UpToDot(p)), PastDot(p), outlen)
  {
    var lead := LabelOf(UpToDot(p));
    var e, e' := EncodeFrom(p, |front|, outlen), EncodeFrom(PastDot(p), |front + lead|, outlen);
    assert e == Prefixed(lead, e') by {
      EncodeOn(p, |front|, outlen);
    }
    PrefixedTwice(front, lead, e');
  }

  lemma {:induction false} PrefixedTwice(front: seq<Byte>, a: seq<Byte>, r: Option<seq<Byte>>)
    ensures Prefixed(front, Prefixed(a, r)) == Prefixed(front + a, r)
  {
    if r.Some? { assert front + (a + r.value) == front + a + r.value; }
  }

  lemma {:induction false} RemainingStuck(whole: Option<seq<Byte>>, front: seq<Byte>, p: Name, outlen: nat)
    requires Remaining(whole, front, p, outlen)
    requires p != [] ==> UpToDot(p) == [] || |UpToDot(p)| > MAX_LABEL || |front| + 1 + |UpToDot(p)| + 1 > outlen
    ensures whole == if p == [] && |front| + 1 <= outlen then Some(front + [0]) else None
  {}

  /** fakedns_encode_dns_name: 0 on failure. */
  method EncodeDnsName(domain: Name, out: array<Byte>) returns (n: nat)
    modifies out
    ensures match EncodeFrom(CStr(domain), 0, out.Length)
            case None => n == 0
            case Some(w) => 0 < n == |w| <= out.Length && out[..n] == w
  {
    var p := CStr(domain);
    var pos: nat := 0;
    ghost var whole := EncodeFrom(p, 0, out.Length);
    RemainingAll(p, out.Length);
    hide EncodeFrom, Remaining, CStr;
    while p != []
      invariant pos <= out.Length && Remaining(whole, out[..pos], p, out.Length)
      decreases |p|
    {
      var part := UpToDot(p);
      if part == [] || |part| > MAX_LABEL || pos + 1 + |part| + 1 > out.Length {
        RemainingStuck(whole, out[..pos], p, out.Length);
        return 0;
      }
      RemainingStep(whole, out[..pos], p, out.Length);
      WriteLabel(out, pos, part);
      pos := pos + 1 + |part|;
      p := PastDot(p);
    }
    RemainingStuck(whole, out[..pos], p, out.Length);
    if pos + 1 > out.Length {
      return 0;
    }
    WriteEnd(out, pos);
    return pos + 1;
  }

  method WriteEnd(out: array<Byte>, pos: nat)
    requires pos < out.Length
    modifies out
    ensures out[..pos + 1] == old(out[..pos]) + [0]
  {
    out[pos] := 0;
  }

  method WriteLabel(out: array<Byte>, pos: nat, part: Name)
    requires 1 <= |part| <= MAX_LABEL && pos + 1 + |part| <= out.Length
    modifies out
    ensures out[..pos + 1 + |part|] == old(out[..pos]) + LabelOf(part)
  {
    ghost var front := out[..pos];
    Put(out, pos, LabelOf(part));
    assert out[..pos + 1 + |part|] == front + LabelOf(part);
  }

  /** Appending an answer, and announcing it. */
  method AddRecord(buffer: array<Byte>, respLen: nat, kind: Byte, data: seq<Byte>, ghost q: seq<Byte>, flags: U16)
    requires |data| < TWO16 && HEADER <= respLen <= |q| && respLen + HEADER + |data| <= buffer.Length
    requires buffer[..respLen] == Head(q, respLen, flags, 0)
    modifies buffer
    ensures buffer[..respLen + HEADER + |data|] == Head(q, respLen, flags, 1) + Record(kind, data)
    ensures forall i :: respLen + HEADER + |data| <= i < buffer.Length ==> buffer[i] == old(buffer[i])
  {
    ghost var h := buffer[..respLen];
    Put(buffer, respLen, Record(kind, data));
    assert buffer[..respLen + HEADER + |data|] == h + Record(kind, data);
    buffer[7] := 1;
    assert h[7 := 1] == Head(q, respLen, flags, 1);
    assert buffer[..respLen + HEADER + |data|] == h[7 := 1] + Record(kind, data);
  }

  /** The data of the answer; the source encodes a name into a buffer of its own. */
  method FindAnswer(z: Zone, qtype: U16, domain: Name) returns (d: Option<seq<Byte>>)
    ensures d == AnswerData(z, qtype, domain)
  {
    d := None;
    if qtype == TYPE_A {
      var ip := z.lookup(domain);
      if ip != 0 {
        d := Some(Big(ip, 4));
      }
    } else if qtype == TYPE_PTR {
      var ip := z.pointer(domain);
      if ip.Some? {
        var name := z.reverse(ip.value);
        if name.Some? {
          var rdata := new Byte[RDATA_SIZE];
          var n := EncodeDnsName(name.value, rdata);
          if n > 0 {
            d := Some(rdata[..n]);
          }
        }
      }
    }
  }

  /** Two bytes, most significant first. */
  function ReadU16(query: array<Byte>, qlen: nat, i: nat): (x: U16)
    requires i + 2 <= qlen <= query.Length
    reads query
    ensures x == Be16(query[..qlen], i)
  {
    256 * (query[i] as int) + query[i + 1] as int
  }

  /** The checks on the header and the question. */
  method ReadQuestion(query: array<Byte>, qlen: nat) returns (r: Option<Question>)
    requires HEADER <= qlen <= query.Length
    ensures r == Asked(query[..qlen])
  {
    if ReadU16(query, qlen, 2) >= 0x800 || ReadU16(query, qlen, 4) != 1 {
      return None;
    }
    var name := ReadName(query, qlen);
    match name {
      case Bad => return None;
      case Parsed(domain, next) =>
        if domain == [] || next + 4 > qlen {
          return None;
        }
        return Some(Question(domain, next + 4));
    }
  }

  lemma {:induction false} HeadOfPrefix(q: seq<Byte>, end: nat, flags: U16, answers: Byte)
    requires HEADER <= end <= |q|
    ensures Head(q[..end], end, flags, answers) == Head(q, end, flags, answers)
  {
    assert q[..end][..2] == q[..2] && q[..end][4..6] == q[4..6] && q[..end][HEADER..end] == q[HEADER..end];
  }

  /** The rest of fakedns_process_query, for a question of the Internet class. */
  method Answer(z: Zone, query: array<Byte>, buffer: array<Byte>, buflen: nat, qtype: U16, domain: Name, end: nat, ghost q: seq<Byte>)
      returns (n: nat)
    requires HEADER + 4 <= end <= |q| <= buflen <= buffer.Length && end <= query.Length && query[..end] == q[..end]
    requires Asked(q) == Some(Question(domain, end)) && Be16(q, end - 2) == CLASS_IN && qtype == Be16(q, end - 4)
    modifies buffer
    ensures match Response(z, q, buflen)
            case None => n == 0
            case Some(r) => n == |r| && buffer[..n] == r
    ensures forall i :: buflen <= i < buffer.Length ==> buffer[i] == old(buffer[i])
  {
    hide AnswerData, Asked, Head, Record;
    Echo(query, buffer, end, NO_ERROR);
    HeadOfPrefix(q, end, NO_ERROR, 0);
    var data := FindAnswer(z, qtype, domain);
    if data.Some? {
      if end + HEADER + |data.value| > buflen {
        return 0;
      }
      AddRecord(buffer, end, if qtype == TYPE_A then 1 else 12, data.value, q, NO_ERROR);
      return end + HEADER + |data.value|;
    }
    if qtype == TYPE_A {
      SetFlags(buffer, end, NO_ERROR, SERVFAIL, q);
    }
    return end;
  }

  method SetFlags(buffer: array<Byte>, end: nat, before: U16, flags: U16, ghost q: seq<Byte>)
    requires HEADER <= end <= |q| && end <= buffer.Length && buffer[..end] == Head(q, end, before, 0)
    modifies buffer
    ensures buffer[..end] == Head(q, end, flags, 0)
    ensures forall i :: end <= i < buffer.Length ==> buffer[i] == old(buffer[i])
  {
    buffer[2] := flags / 256;
    buffer[3] := flags % 256;
  }

  /** fakedns_process_query: the length of the response, or 0.  Whether `buffer` is `query` makes
      no difference to the bytes. */
  method ProcessQuery(z: Zone, query: array<Byte>, qlen: nat, buffer: array<Byte>, buflen: nat) returns (n: nat)
    requires qlen <= query.Length && buflen <= buffer.Length
    modifies buffer
    ensures match Response(z, old(query[..qlen]), buflen)
            case None => n == 0
            case Some(r) => n == |r| && buffer[..n] == r
    ensures forall i :: buflen <= i < buffer.Length ==> buffer[i] == old(buffer[i])
  {
    ghost var q := query[..qlen];
    if qlen < HEADER || buflen < qlen {
      return 0;
    }
    var question := ReadQuestion(query, qlen);
    if question.None? {
      return 0;
    }
    var Question(domain, end) := question.value;
    var qtype, qclass := ReadU16(query, qlen, end - 4), ReadU16(query, qlen, end - 2);
    assert query[..end] == q[..end];
    if qclass != CLASS_IN {
      Echo(query, buffer, end, REFUSED);
      HeadOfPrefix(q, end, REFUSED, 0);
      return end;
    }
    n := Answer(z, query, buffer, buflen, qtype, domain, end, q);
  }
}
