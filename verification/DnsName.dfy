/** Domain names on the wire and as dotted text (src/fakedns.c; section 4.1.2 of RFC 1035). */
module DnsName {
  import opened Bytes
  import opened FakeDnsPool
  import opened Options

  const DOT := 46
  const MAX_LABEL := 63
  const MAX_LABELS := 128
  const RDATA_SIZE := MAX_DOMAIN_LEN + 2

  /** A to Z become a to z. */
  function LowerByte(c: Byte): Byte { if 65 <= c <= 90 then c + 32 else c }

  function Lower(s: Name): (r: Name)
    ensures |r| == |s| && forall i :: 0 <= i < |s| ==> r[i] == LowerByte(s[i])
  {
    seq(|s|, i requires 0 <= i < |s| => LowerByte(s[i]))
  }

  ghost predicate Labels(m: seq<Name>) {
    forall i :: 0 <= i < |m| ==> 1 <= |m[i]| <= MAX_LABEL
  }

  /** Length-prefixed labels, then the root. */
  function Wire(m: seq<Name>): (w: seq<Byte>)
    requires Labels(m)
    decreases |m|
  {
    if m == [] then [0] else [|m[0]| as Byte] + m[0] + Wire(m[1..])
  }

  function Dotted(m: seq<Name>): Name
    decreases |m|
  {
    if m == [] then [] else if |m| == 1 then m[0] else m[0] + [DOT] + Dotted(m[1..])
  }

  function LowerAll(m: seq<Name>): (r: seq<Name>)
    ensures |r| == |m| && forall i :: 0 <= i < |m| ==> r[i] == Lower(m[i])
  {
    seq(|m|, i requires 0 <= i < |m| => Lower(m[i]))
  }

  /** The text takes one byte less for each label, and the root its own. */
  lemma {:induction false} WireLength(m: seq<Name>)
    requires Labels(m)
    ensures |Wire(m)| == if m == [] then 1 else |Dotted(m)| + 2
    ensures |m| <= |Dotted(m)|
    decreases |m|
  {
    if m != [] {
      WireLength(m[1..]);
    }
  }

  // ---------- reading a name ----------

  datatype Parsed = Bad | Parsed(domain: Name, next: nat)

  function Appended(domain: Name, part: Name): Name {
    domain + (if domain == [] then [] else [DOT]) + part
  }

  /** The loop over the labels of a question; running out of bytes ends it too. */
  function ParseFrom(q: seq<Byte>, offset: nat, domain: Name, labels: nat): (r: Parsed)
    requires |domain| < MAX_DOMAIN_LEN
    ensures r.Parsed? ==> |r.domain| < MAX_DOMAIN_LEN && offset <= r.next && (offset < |q| ==> r.next <= |q|)
    decreases |q| - offset
  {
    if offset >= |q| then Parsed(domain, offset)
    else if labels + 1 > MAX_LABELS then Bad
    else
      var len := q[offset] as int;
      if len == 0 then Parsed(domain, offset + 1)
      else if len > MAX_LABEL || offset + 1 + len > |q| then Bad
      else
        var d := Appended(domain, Lower(q[offset + 1..offset + 1 + len]));
        if |d| >= MAX_DOMAIN_LEN then Bad else ParseFrom(q, offset + 1 + len, d, labels + 1)
  }

  function Join(domain: Name, m: seq<Name>): Name
    decreases |m|
  {
    if m == [] then domain else Join(Appended(domain, m[0]), m[1..])
  }

  lemma {:induction false} JoinIsDotted(domain: Name, m: seq<Name>)
    requires Labels(m) && m != []
    ensures Join(domain, m) == Appended(domain, Dotted(m))
    decreases |m|
  {
    if |m| > 1 {
      JoinIsDotted(Appended(domain, m[0]), m[1..]);
      assert Appended(Appended(domain, m[0]), Dotted(m[1..])) == Appended(domain, m[0] + [DOT] + Dotted(m[1..]));
    } else {
      assert Join(domain, m) == Join(Appended(domain, m[0]), []);
    }
  }

  lemma {:induction false} ParsesWire(q: seq<Byte>, offset: nat, domain: Name, m: seq<Name>, rest: seq<Byte>, labels: nat)
    requires Labels(m) && offset <= |q| && q[offset..] == Wire(m) + rest
    requires |domain| < MAX_DOMAIN_LEN && |Join(domain, LowerAll(m))| < MAX_DOMAIN_LEN && labels + |m| < MAX_LABELS
    ensures ParseFrom(q, offset, domain, labels) == Parsed(Join(domain, LowerAll(m)), offset + |Wire(m)|)
    decreases |m|
  {
    if m == [] {
      assert q[offset] == q[offset..][0] == 0;
    } else {
      var len := |m[0]|;
      var d := Appended(domain, Lower(m[0]));
      FirstOnWire(q, offset, m, rest);
      assert LowerAll(m)[1..] == LowerAll(m[1..]);
      JoinLonger(d, LowerAll(m[1..]));
      ParsesWire(q, offset + 1 + len, d, m[1..], rest, labels + 1);
    }
  }

  lemma {:induction false} FirstOnWire(q: seq<Byte>, offset: nat, m: seq<Name>, rest: seq<Byte>)
    requires Labels(m) && m != [] && offset <= |q| && q[offset..] == Wire(m) + rest
    ensures var len := |m[0]|;
            offset + 1 + len <= |q| && q[offset] as int == len && q[offset + 1..offset + 1 + len] == m[0] &&
            q[offset + 1 + len..] == Wire(m[1..]) + rest
  {
    var len := |m[0]|;
    var tail := Wire(m[1..]) + rest;
    WireFront(m, rest);
    hide Wire;
    Piece(q, offset, [len as Byte], m[0] + tail);
    Piece(q, offset + 1, m[0], tail);
    assert q[offset] == q[offset..offset + 1][0];
  }

  lemma {:induction false} WireFront(m: seq<Name>, rest: seq<Byte>)
    requires Labels(m) && m != []
    ensures Wire(m) + rest == [|m[0]| as Byte] + (m[0] + (Wire(m[1..]) + rest))
  {}

  lemma {:induction false} JoinLonger(domain: Name, m: seq<Name>)
    ensures |domain| <= |Join(domain, m)|
    decreases |m|
  {
    if m != [] { JoinLonger(Appended(domain, m[0]), m[1..]); }
  }

  // ---------- writing a name ----------

  function UpToDot(d: Name): (r: Name)
    ensures |r| <= |d| && r == d[..|r|] && DOT !in r && (|r| < |d| ==> d[|r|] == DOT)
  {
    d[..DotFrom(d, 0)]
  }

  /** Where the next dot is, or the end. */
  function DotFrom(d: Name, i: nat): (n: nat)
    requires i <= |d|
    ensures i <= n <= |d| && (n < |d| ==> d[n] == DOT) && forall k :: i <= k < n ==> d[k] != DOT
    decreases |d| - i
  {
    if i == |d| || d[i] == DOT then i else DotFrom(d, i + 1)
  }

  /** What is left after the first label and the dot behind it. */
  function PastDot(d: Name): (r: Name)
    ensures d != [] ==> |r| < |d| || UpToDot(d) == []
  {
    var n := |UpToDot(d)|;
    if n < |d| then d[n + 1..] else []
  }

  /** fakedns_encode_dns_name from position `pos` on, for a string up to its NUL. */
  function EncodeFrom(d: Name, pos: nat, outlen: nat): Option<seq<Byte>>
    decreases |d|
  {
    if d == [] then if pos + 1 > outlen then None else Some([0])
    else
      var part := UpToDot(d);
      if part == [] || |part| > MAX_LABEL || pos + 1 + |part| + 1 > outlen then None
      else
        match EncodeFrom(PastDot(d), pos + 1 + |part|, outlen)
        case None => None
        case Some(w) => Some([|part| as Byte] + part + w)
  }

  function Split(d: Name): seq<Name>
    decreases |d|
  {
    if d == [] then []
    else if UpToDot(d) == [] then [[]] + Split(d[1..])
    else [UpToDot(d)] + Split(PastDot(d))
  }

  lemma {:induction false} EncodeStep(d: Name, pos: nat, outlen: nat, w: seq<Byte>) returns (part: Name, more: seq<Name>, w': seq<Byte>)
    requires EncodeFrom(d, pos, outlen) == Some(w) && d != []
    ensures part == UpToDot(d) && more == Split(PastDot(d)) && |PastDot(d)| < |d|
    ensures EncodeFrom(PastDot(d), pos + 1 + |part|, outlen) == Some(w')
    ensures 1 <= |part| <= MAX_LABEL && Split(d) == [part] + more && w == [|part| as Byte] + part + w'
  {
    part, more := UpToDot(d), Split(PastDot(d));
    w' := EncodeFrom(PastDot(d), pos + 1 + |part|, outlen).value;
  }

  /** What is written is the labels between the dots. */
  lemma {:induction false} EncodedIsWire(d: Name, pos: nat, outlen: nat, w: seq<Byte>)
    requires EncodeFrom(d, pos, outlen) == Some(w)
    ensures EncodesTo(w, Split(d))
    decreases |d|
  {
    NothingIsWire(pos, outlen);
    hide EncodeFrom, Split, EncodesTo, UpToDot, PastDot;
    if d != [] {
      var part, more, w' := EncodeStep(d, pos, outlen, w);
      EncodedIsWire(PastDot(d), pos + 1 + |part|, outlen, w');
      WireOfSplit(part, more, w');
    } else {
      assert d == [];
    }
  }

  lemma {:induction false} NothingIsWire(pos: nat, outlen: nat)
    ensures EncodeFrom([], pos, outlen).Some? ==> EncodesTo(EncodeFrom([], pos, outlen).value, Split([]))
  {}

  ghost predicate EncodesTo(w: seq<Byte>, m: seq<Name>) { Labels(m) && w == Wire(m) }

  lemma {:induction false} WireOfSplit(part: Name, more: seq<Name>, w: seq<Byte>)
    requires 1 <= |part| <= MAX_LABEL && EncodesTo(w, more)
    ensures EncodesTo([|part| as Byte] + part + w, [part] + more)
  {
    assert ([part] + more)[1..] == more;
  }

  predicate Plain(part: Name) { NulFree(part) && DOT !in part }

  lemma {:induction false} SplitIsPlain(d: Name)
    requires NulFree(d)
    ensures forall i :: 0 <= i < |Split(d)| ==> Plain(Split(d)[i])
    decreases |d|
  {
    if d != [] && UpToDot(d) == [] {
      SplitIsPlain(d[1..]);
    } else if d != [] {
      SplitIsPlain(PastDot(d));
    }
  }

  lemma {:induction false} UpToDotOf(part: Name, rest: Name)
    requires Plain(part)
    ensures UpToDot(part + [DOT] + rest) == part && UpToDot(part) == part
  {
    var d := part + [DOT] + rest;
    assert d[|part|] == DOT;
    assert d[..|part|] == part;
  }

  /** Names whose labels hold no dot and no NUL fit and are written back as they are. */
  lemma {:induction false} PlainIsEncoded(m: seq<Name>, pos: nat, outlen: nat)
    requires Labels(m) && (forall i :: 0 <= i < |m| ==> Plain(m[i])) && pos + |Wire(m)| <= outlen
    ensures EncodeFrom(Dotted(m), pos, outlen) == Some(Wire(m))
    decreases |m|
  {
    if m != [] {
      var d, part, more := Dotted(m), m[0], m[1..];
      UpToDotOf(part, Dotted(more));
      WireLength(more);
      assert UpToDot(d) == part;
      assert PastDot(d) == Dotted(more);
      PlainIsEncoded(more, pos + 1 + |part|, outlen);
    }
  }

  lemma {:induction false} PlainIsNulFree(m: seq<Name>)
    requires forall i :: 0 <= i < |m| ==> Plain(m[i])
    ensures NulFree(Dotted(m))
    decreases |m|
  {
    if m != [] { PlainIsNulFree(m[1..]); }
  }

  lemma {:induction false} WireInjective(m: seq<Name>, n: seq<Name>)
    requires Labels(m) && Labels(n) && Wire(m) == Wire(n)
    ensures m == n
    decreases |m|
  {
    if m == [] || n == [] {
      assert Wire(m)[0] == Wire(n)[0];
    } else {
      assert Wire(m)[0] == Wire(n)[0];
      assert m[0] == Wire(m)[1..1 + |m[0]|] == n[0];
      assert Wire(m[1..]) == Wire(m)[1 + |m[0]|..] == Wire(n[1..]);
      WireInjective(m[1..], n[1..]);
      assert m == [m[0]] + m[1..] && n == [n[0]] + n[1..];
    }
  }

  /** Writing out the text of a name gives the name back exactly when no label holds a dot or a
      NUL; it always fits the buffer then. */
  lemma {:induction false} WrittenBackExactly(m: seq<Name>)
    requires Labels(m) && |Dotted(m)| < MAX_DOMAIN_LEN
    ensures EncodeFrom(CStr(Dotted(m)), 0, RDATA_SIZE) == Some(Wire(m)) <==> forall i :: 0 <= i < |m| ==> Plain(m[i])
  {
    var text := CStr(Dotted(m));
    if forall i :: 0 <= i < |m| ==> Plain(m[i]) {
      PlainIsNulFree(m);
      CStrOfNulFree(Dotted(m));
      WireLength(m);
      PlainIsEncoded(m, 0, RDATA_SIZE);
    } else if EncodeFrom(text, 0, RDATA_SIZE) == Some(Wire(m)) {
      EncodedIsWire(text, 0, RDATA_SIZE, Wire(m));
      WireInjective(m, Split(text));
      CStrIsNulFree(Dotted(m));
      SplitIsPlain(text);
      assert false;
    }
  }

  lemma {:induction false} CStrIsNulFree(d: Name)
    ensures NulFree(CStr(d))
  {
    if d != [] && d[0] != 0 { CStrIsNulFree(d[1..]); }
  }

  /** A question's name, read and written again, is the name in lower case: for any name that fits,
      whatever follows it, exactly when no label holds a dot or a NUL. */
  lemma {:induction false} ReadAndWrittenBack(q: seq<Byte>, m: seq<Name>, rest: seq<Byte>)
    requires Labels(m) && |q| >= 12 && q[12..] == Wire(m) + rest && |Dotted(m)| < MAX_DOMAIN_LEN && m != []
    ensures Labels(LowerAll(m)) && ParseFrom(q, 12, [], 0) == Parsed(Dotted(LowerAll(m)), 12 + |Wire(m)|)
    ensures EncodeFrom(CStr(Dotted(LowerAll(m))), 0, RDATA_SIZE) == Some(Wire(LowerAll(m))) <==>
            forall i :: 0 <= i < |m| ==> Plain(m[i])
  {
    ReadsLower(q, m, rest);
    LowerDotted(m);
    WrittenBackExactly(LowerAll(m));
    AllLowerPlain(m);
  }

  lemma {:induction false} ReadsLower(q: seq<Byte>, m: seq<Name>, rest: seq<Byte>)
    requires Labels(m) && |q| >= 12 && q[12..] == Wire(m) + rest && |Dotted(m)| < MAX_DOMAIN_LEN && m != []
    ensures ParseFrom(q, 12, [], 0) == Parsed(Dotted(LowerAll(m)), 12 + |Wire(m)|)
  {
    LowerDotted(m);
    FewLabels(m);
    JoinIsDotted([], LowerAll(m));
    ParsesWire(q, 12, [], m, rest, 0);
  }

  lemma {:induction false} AllLowerPlain(m: seq<Name>)
    ensures (forall i :: 0 <= i < |m| ==> Plain(LowerAll(m)[i])) <==> (forall i :: 0 <= i < |m| ==> Plain(m[i]))
  {
    forall i | 0 <= i < |m| ensures Plain(LowerAll(m)[i]) <==> Plain(m[i]) {
      LowerPlain(m[i]);
    }
  }

  lemma {:induction false} LowerDotted(m: seq<Name>)
    requires Labels(m)
    ensures |Dotted(LowerAll(m))| == |Dotted(m)|
    decreases |m|
  {
    if |m| > 1 {
      LowerDotted(m[1..]);
      assert LowerAll(m)[1..] == LowerAll(m[1..]);
    }
  }

  lemma {:induction false} FewLabels(m: seq<Name>)
    requires Labels(m) && m != []
    ensures 2 * |m| - 1 <= |Dotted(m)|
    decreases |m|
  {
    if |m| > 1 { FewLabels(m[1..]); }
  }

  lemma {:induction false} LowerPlain(s: Name)
    ensures Plain(Lower(s)) <==> Plain(s)
  {
    forall i | 0 <= i < |s| ensures (Lower(s)[i] == DOT <==> s[i] == DOT) && (Lower(s)[i] == 0 <==> s[i] == 0) {}
    if DOT in s {
      var i :| 0 <= i < |s| && s[i] == DOT;
      assert Lower(s)[i] == DOT;
    }
    if DOT in Lower(s) {
      var i :| 0 <= i < |s| && Lower(s)[i] == DOT;
      assert s[i] == DOT;
    }
    if !NulFree(s) {
      var i :| 0 <= i < |s| && s[i] == 0;
      assert Lower(s)[i] == 0;
    }
  }
}
