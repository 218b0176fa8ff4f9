/** The names of reverse queries (src/fakedns.c, fakedns_parse_ptr_name): the four octets of an
    address, last one first, and a suffix (section 3.5 of RFC 1035). */
module PtrName {
  import opened Bytes
  import opened DnsName
  import opened FakeDnsPool
  import opened Options

  const SUFFIX: Name := [46, 105, 110, 45, 97, 100, 100, 114, 46, 97, 114, 112, 97]
  const MIN_NAME := 20
  const MAX_NAME := 28

  // ---------- the C library ----------

  function IsDigit(c: Byte): bool { 48 <= c <= 57 }

  function DigitValue(c: Byte): nat { if IsDigit(c) then c as int - 48 else 0 }

  function Digits(t: Name): bool {
    t == [] || (IsDigit(t[|t| - 1]) && Digits(t[..|t| - 1]))
  }

  function Number(t: Name): nat {
    if t == [] then 0 else 10 * Number(t[..|t| - 1]) + DigitValue(t[|t| - 1])
  }

  function SkipSpace(t: Name): Name {
    if t != [] && (t[0] == 32 || 9 <= t[0] <= 13) then SkipSpace(t[1..]) else t
  }

  lemma {:induction false} DigitsAt(t: Name)
    ensures Digits(t) <==> forall i :: 0 <= i < |t| ==> IsDigit(t[i])
  {
    if t != [] {
      DigitsAt(t[..|t| - 1]);
    }
  }

  /** strtoul in base 10, when all of `t` is taken: white space and a sign may come first, a
      negative number wraps, and one too large is the largest there is. */
  function StrToUl(t: Name): (r: Option<nat>)
    ensures r.Some? ==> t != []
  {
    var u := SkipSpace(t);
    var d := if u != [] && (u[0] == 43 || u[0] == 45) then u[1..] else u;
    if d == [] || !Digits(d) then None
    else if Number(d) >= TWO64 then Some(TWO64 - 1)
    else Some(if u[0] == 45 then (TWO64 - Number(d)) % TWO64 else Number(d))
  }

  function SkipDots(p: Name): (r: Name)
    ensures |r| <= |p| && (r != [] ==> r[0] != DOT) && (p != [] && p[0] != DOT ==> r == p)
  {
    if p != [] && p[0] == DOT then SkipDots(p[1..]) else p
  }

  /** strtok_r: the next part that is not empty, and what is left for the call after. */
  function StrTok(p: Name): (r: (Option<Name>, Name))
    ensures r.0.Some? ==> |r.1| < |p| && r.0.value != []
  {
    var q := SkipDots(p);
    if q == [] then (None, []) else (Some(UpToDot(q)), PastDot(q))
  }

  // ---------- what is parsed ----------

  function Tokens(p: Name): seq<Name>
    decreases |p|
  {
    var r := StrTok(p);
    if r.0.None? then [] else [r.0.value] + Tokens(r.1)
  }

  /** The part at hand and those still to come. */
  ghost function Parts(tok: Option<Name>, rest: Name): seq<Name> {
    match tok
    case None => []
    case Some(t) => [t] + Tokens(rest)
  }

  function Octet(t: Name): (r: Option<nat>)
    ensures r.Some? ==> r.value < 256
  {
    if t != [] && t[0] == 48 && |t| > 1 then None
    else
      match StrToUl(t)
      case None => None
      case Some(v) => if v > 255 then None else Some(v)
  }

  function Address(o: seq<nat>): nat
    requires |o| == 4
  {
    o[3] * 0x100_0000 + o[2] * 0x1_0000 + o[1] * 0x100 + o[0]
  }

  function OctetsOf(ts: seq<Name>): (o: Option<seq<nat>>)
    ensures o.Some? ==> |o.value| == |ts|
  {
    if ts == [] then Some([])
    else
      match (OctetsOf(ts[..|ts| - 1]), Octet(ts[|ts| - 1]))
      case (Some(o), Some(v)) => Some(o + [v])
      case _ => None
  }

  function Meaning(ts: seq<Name>): Option<nat> {
    if |ts| != 4 then None else match OctetsOf(ts) case None => None case Some(o) => Some(Address(o))
  }

  /** What a name is read as. */
  function Pointer(name: Name): Option<nat> {
    if MIN_NAME <= |name| <= MAX_NAME && Lower(name[|name| - |SUFFIX|..]) == SUFFIX
    then Meaning(Tokens(CStr(name[..|name| - |SUFFIX|]))) else None
  }

  /** fakedns_parse_ptr_name */
  method ParsePtrName(name: Name) returns (ip: Option<nat>)
    ensures ip == Pointer(name)
  {
    if |name| < MIN_NAME || |name| > MAX_NAME {
      return None;
    }
    if Lower(name[|name| - |SUFFIX|..]) != SUFFIX {
      return None;
    }
    ip := ParseOctets(CStr(name[..|name| - |SUFFIX|]));
  }

  /** The loop over the parts. */
  method ParseOctets(p: Name) returns (ip: Option<nat>)
    ensures ip == Meaning(Tokens(p))
  {
    ghost var done: seq<Name> := [];
    var octets: seq<nat> := [];
    var first := StrTok(p);
    var tok, rest := first.0, first.1;
    while tok.Some? && |octets| < 4
      invariant |octets| <= 4 && OctetsOf(done) == Some(octets) && Tokens(p) == done + Parts(tok, rest)
      decreases 4 - |octets|
    {
      var val := Octet(tok.value);
      PartsOn(done, tok.value, rest);
      OctetsOn(done, tok.value);
      done := done + [tok.value];
      var next := StrTok(rest);
      tok, rest := next.0, next.1;
      if val.None? {
        NoOctets(done, Parts(tok, rest));
        return None;
      }
      octets := octets + [val.value];
    }
    AllParts(Tokens(p), done, octets, tok, rest);
    if |octets| != 4 || tok.Some? {
      return None;
    }
    return Some(Address(octets));
  }

  lemma {:induction false} PartsOn(done: seq<Name>, t: Name, rest: Name)
    ensures done + Parts(Some(t), rest) == done + [t] + Parts(StrTok(rest).0, StrTok(rest).1)
  {}

  lemma {:induction false} AllParts(ts: seq<Name>, done: seq<Name>, octets: seq<nat>, tok: Option<Name>, rest: Name)
    requires OctetsOf(done) == Some(octets) && ts == done + Parts(tok, rest) && (tok.None? || |octets| == 4)
    ensures Meaning(ts) == if |octets| == 4 && tok.None? then Some(Address(octets)) else None
  {
    if tok.None? {
      assert ts == done;
    } else {
      assert Parts(tok, rest) == [tok.value] + Tokens(rest);
    }
  }

  lemma {:induction false} OctetsOn(ts: seq<Name>, t: Name)
    ensures OctetsOf(ts + [t]) == if OctetsOf(ts).Some? && Octet(t).Some? then Some(OctetsOf(ts).value + [Octet(t).value]) else None
  {
    assert (ts + [t])[..|ts|] == ts;
  }

  lemma {:induction false} NoOctets(ts: seq<Name>, more: seq<Name>)
    requires OctetsOf(ts).None?
    ensures OctetsOf(ts + more).None?
    decreases |more|
  {
    if more == [] {
      assert ts + more == ts;
    } else {
      NoOctets(ts, more[..|more| - 1]);
      OctetsOn(ts + more[..|more| - 1], more[|more| - 1]);
      assert ts + more == ts + more[..|more| - 1] + [more[|more| - 1]];
    }
  }

  /** The octets are those of the parts, one by one. */
  lemma {:induction false} OctetsAt(ts: seq<Name>, o: seq<nat>)
    requires |o| == |ts|
    ensures OctetsOf(ts) == Some(o) <==> forall i :: 0 <= i < |ts| ==> Octet(ts[i]) == Some(o[i])
  {
    if ts != [] {
      var n := |ts| - 1;
      OctetsAt(ts[..n], o[..n]);
      assert o == o[..n] + [o[n]];
    }
  }

  // ---------- the names of the standard ----------

  function Decimal(v: nat): (t: Name)
    requires v < 256
    ensures 1 <= |t| <= 3
  {
    if v < 10 then [48 + v] else if v < 100 then [48 + v / 10, 48 + v % 10]
    else [48 + v / 100, 48 + v / 10 % 10, 48 + v % 10]
  }

  function Octets(ip: nat): (o: seq<nat>)
    requires ip < TWO32
    ensures |o| == 4 && forall i :: 0 <= i < 4 ==> o[i] < 256
  {
    assert ip / 256 / 256 / 256 < 256;
    [ip % 256, ip / 256 % 256, ip / 256 / 256 % 256, ip / 256 / 256 / 256]
  }

  function Labels4(ip: nat): (m: seq<Name>)
    requires ip < TWO32
    ensures |m| == 4 && forall i :: 0 <= i < 4 ==> m[i] == Decimal(Octets(ip)[i])
  {
    var o := Octets(ip);
    [Decimal(o[0]), Decimal(o[1]), Decimal(o[2]), Decimal(o[3])]
  }

  function PtrOf(ip: nat): Name
    requires ip < TWO32
  {
    Dotted(Labels4(ip)) + SUFFIX
  }

  /** Only digits and dots before the suffix, and no part between the dots is empty. */
  ghost predicate Regular(p: Name) {
    p != [] && p[0] != DOT && p[|p| - 1] != DOT && (forall i :: 0 <= i < |p| ==> IsDigit(p[i]) || p[i] == DOT) &&
    forall i :: 0 <= i < |p| - 1 && p[i] == DOT ==> p[i + 1] != DOT
  }

  ghost predicate Numerals(m: seq<Name>) {
    forall i :: 0 <= i < |m| ==> m[i] != [] && Digits(m[i])
  }

  lemma {:induction false} NumberOn(t: Name, c: Byte)
    ensures Number(t + [c]) == 10 * Number(t) + DigitValue(c) && (Digits(t + [c]) <==> Digits(t) && IsDigit(c))
  {
    assert (t + [c])[..|t|] == t;
  }

  lemma {:induction false} NumberUpTo3(a: Byte, b: Byte, c: Byte)
    ensures Number([a]) == DigitValue(a) && (Digits([a]) <==> IsDigit(a))
    ensures Number([a, b]) == 10 * DigitValue(a) + DigitValue(b) && (Digits([a, b]) <==> IsDigit(a) && IsDigit(b))
    ensures Number([a, b, c]) == 100 * DigitValue(a) + 10 * DigitValue(b) + DigitValue(c)
    ensures Digits([a, b, c]) <==> IsDigit(a) && IsDigit(b) && IsDigit(c)
  {
    NumberOn([], a);
    NumberOn([a], b);
    NumberOn([a, b], c);
    assert [] + [a] == [a] && [a] + [b] == [a, b] && [a, b] + [c] == [a, b, c];
  }

  lemma {:induction false} NumberOfDecimal(v: nat)
    requires v < 256
    ensures Digits(Decimal(v)) && Number(Decimal(v)) == v && (Decimal(v)[0] == 48 ==> |Decimal(v)| == 1)
  {
    hide Number, Digits;
    if v < 10 {
      NumberUpTo3(48 + v, 48, 48);
    } else if v < 100 {
      NumberUpTo3(48 + v / 10, 48 + v % 10, 48);
    } else {
      NumberUpTo3(48 + v / 100, 48 + v / 10 % 10, 48 + v % 10);
    }
  }

  lemma {:induction false} NumberAtLeast(t: Name)
    requires Digits(t) && t != [] && t[0] != 48
    ensures 1 <= Number(t) && (2 <= |t| ==> 10 <= Number(t)) && (3 <= |t| ==> 100 <= Number(t)) && (4 <= |t| ==> 1000 <= Number(t))
  {
    if |t| > 1 {
      NumberAtLeast(t[..|t| - 1]);
    } else {
      assert t == [t[0]];
      NumberUpTo3(t[0], 48, 48);
    }
  }

  lemma {:induction false} DecimalOfDigits(a: nat, b: nat, c: nat)
    requires a < 10 && b < 10 && c < 10
    ensures Decimal(a) == [48 + a] && (a > 0 ==> Decimal(10 * a + b) == [48 + a, 48 + b])
    ensures a > 0 && 100 * a + 10 * b + c < 256 ==> Decimal(100 * a + 10 * b + c) == [48 + a, 48 + b, 48 + c]
  {}

  lemma {:induction false} DecimalOfNumber(t: Name)
    requires Digits(t) && t != [] && (t[0] == 48 ==> |t| == 1) && Number(t) < 256
    ensures Decimal(Number(t)) == t
  {
    var a := t[0];
    var b, c := if |t| > 1 then t[1] else 48, if |t| > 2 then t[2] else 48;
    DigitsAt(t);
    NumberUpTo3(a, b, c);
    DecimalOfDigits(DigitValue(a), DigitValue(b), DigitValue(c));
    if |t| > 1 {
      NumberAtLeast(t);
    }
    assert t == if |t| == 1 then [a] else if |t| == 2 then [a, b] else [a, b, c];
  }

  lemma {:induction false} DecimalIsOctet(v: nat)
    requires v < 256
    ensures Digits(Decimal(v)) && Octet(Decimal(v)) == Some(v)
  {
    NumberOfDecimal(v);
    UnsignedOctet(Decimal(v));
  }

  /** A numeral without leading zeros has no white space and no sign to skip. */
  lemma {:induction false} UnsignedOctet(t: Name)
    requires t != [] && Digits(t)
    ensures StrToUl(t) == Some(if Number(t) >= TWO64 then TWO64 - 1 else Number(t))
    ensures StrToUl([43] + t) == StrToUl(t) && Plain(t)
  {
    DigitsAt(t);
    assert SkipSpace(t) == t;
    var u: Name := [43] + t;
    assert SkipSpace(u) == u && u[1..] == t;
  }

  /** A numeral that is an octet is the decimal form of it. */
  lemma {:induction false} OctetIsDecimal(t: Name, v: nat)
    requires t != [] && Digits(t) && Octet(t) == Some(v)
    ensures t == Decimal(v)
  {
    UnsignedOctet(t);
    DecimalOfNumber(t);
  }

  lemma {:induction false} TokensOn(u: Name, rest: Name)
    requires u != [] && Plain(u)
    ensures Tokens(u + [DOT] + rest) == [u] + Tokens(rest) && Tokens(u) == [u]
  {
    UpToDotOf(u, rest);
    var p := u + [DOT] + rest;
    assert p[0] == u[0] && PastDot(p) == rest;
  }

  lemma {:induction false} TokensOfDotted(m: seq<Name>)
    requires forall i :: 0 <= i < |m| ==> m[i] != [] && Plain(m[i])
    ensures Tokens(Dotted(m)) == m
    decreases |m|
  {
    if m != [] {
      TokensOfDotted(m[1..]);
      TokensOn(m[0], Dotted(m[1..]));
      assert m == [m[0]] + m[1..];
    }
  }

  lemma {:induction false} RegularOn(u: Name, p: Name)
    requires u != [] && Digits(u) && Regular(p)
    ensures Regular(u + [DOT] + p)
  {
    DigitsAt(u);
  }

  lemma {:induction false} DottedIsRegular(m: seq<Name>)
    requires Numerals(m) && m != []
    ensures Regular(Dotted(m))
    decreases |m|
  {
    if |m| > 1 {
      DottedIsRegular(m[1..]);
      RegularOn(m[0], Dotted(m[1..]));
    } else {
      DigitsAt(m[0]);
    }
  }

  lemma {:induction false} RegularParts(p: Name)
    requires Regular(p)
    ensures UpToDot(p) != [] && Digits(UpToDot(p))
    ensures |UpToDot(p)| < |p| ==> Regular(PastDot(p)) && p == UpToDot(p) + [DOT] + PastDot(p)
  {
    var u := UpToDot(p);
    forall i | 0 <= i < |u| ensures IsDigit(u[i]) { assert u[i] == p[i] && u[i] in u; }
    DigitsAt(u);
  }

  /** The parts of a regular text are numerals, and make it up. */
  lemma {:induction false} RegularIsDotted(p: Name)
    requires Regular(p)
    ensures Tokens(p) != [] && Numerals(Tokens(p)) && p == Dotted(Tokens(p))
    decreases |p|
  {
    var u := UpToDot(p);
    RegularParts(p);
    UnsignedOctet(u);
    TokensOn(u, PastDot(p));
    if |u| < |p| {
      RegularIsDotted(PastDot(p));
      NumeralsOn(u, Tokens(PastDot(p)));
    }
  }

  lemma {:induction false} NumeralsOn(u: Name, m: seq<Name>)
    requires m != [] && u != [] && Digits(u) && Numerals(m)
    ensures Numerals([u] + m) && Dotted([u] + m) == u + [DOT] + Dotted(m)
  {
    assert ([u] + m)[1..] == m;
  }

  lemma {:induction false} RegularIsNulFree(p: Name)
    requires Regular(p)
    ensures CStr(p) == p
  {
    CStrOfNulFree(p);
  }

  /** Accepted names with a regular address part are the names of the standard, in any case. */
  lemma {:induction false} RegularIsStandard(name: Name, ip: nat)
    requires Pointer(name) == Some(ip) && Regular(name[..|name| - |SUFFIX|])
    ensures ip < TWO32 && Lower(name) == PtrOf(ip)
  {
    RegularPart(name[..|name| - |SUFFIX|], ip);
    LowerEnds(name, SUFFIX);
  }

  lemma {:induction false} RegularPart(p: Name, ip: nat)
    requires Regular(p) && Meaning(Tokens(CStr(p))) == Some(ip)
    ensures ip < TWO32 && p == Dotted(Labels4(ip))
  {
    RegularIsNulFree(p);
    RegularIsDotted(p);
    OctetsAreLabels(Tokens(p), ip);
  }

  lemma {:induction false} StandardPart(ip: nat)
    requires ip < TWO32
    ensures var d := Dotted(Labels4(ip)); Regular(d) && 7 <= |d| <= 15 && Meaning(Tokens(CStr(d))) == Some(ip)
  {
    var m := Labels4(ip);
    Labels4Mean(ip, []);
    assert [] + m[0] == m[0] && m[0 := m[0]] == m;
    forall i | 0 <= i < 4 ensures m[i] != [] && Digits(m[i]) {
      DecimalIsOctet(Octets(ip)[i]);
    }
    DottedIsRegular(m);
    RegularIsNulFree(Dotted(m));
    TokensOfDotted(m);
  }

  lemma {:induction false} LowerEnds(name: Name, s: Name)
    requires |s| <= |name| && Lower(name[|name| - |s|..]) == s && Regular(name[..|name| - |s|])
    ensures Lower(name) == name[..|name| - |s|] + s
  {
    var k := |name| - |s|;
    forall i | 0 <= i < |name| ensures Lower(name)[i] == (name[..k] + s)[i] {
      if i < k {
        assert name[..k][i] == name[i];
      } else {
        assert name[k..][i - k] == name[i];
      }
    }
  }

  lemma {:induction false} EndsLower(name: Name, d: Name, s: Name)
    requires Lower(name) == d + s && Regular(d)
    ensures |name| == |d| + |s| && name[..|name| - |s|] == d && Lower(name[|name| - |s|..]) == s
  {
    forall i | 0 <= i < |d| ensures name[i] == d[i] {
      assert Lower(name)[i] == d[i];
    }
    forall i | 0 <= i < |s| ensures Lower(name[|d|..])[i] == s[i] {
      assert Lower(name)[|d| + i] == s[i];
    }
  }

  lemma {:induction false} OctetsAreLabels(ts: seq<Name>, ip: nat)
    requires Numerals(ts) && Meaning(ts) == Some(ip)
    ensures ip < TWO32 && ts == Labels4(ip)
  {
    var o := OctetsOf(ts).value;
    OctetsAt(ts, o);
    forall i | 0 <= i < 4 ensures ts[i] == Decimal(o[i]) && o[i] < 256 {
      OctetIsDecimal(ts[i], o[i]);
    }
    OctetsOfAddress(o);
  }

  lemma {:induction false} OctetsOfAddress(o: seq<nat>)
    requires |o| == 4 && forall i :: 0 <= i < 4 ==> o[i] < 256
    ensures Address(o) < TWO32 && Octets(Address(o)) == o
  {
    var ip := Address(o);
    var y, z := o[3] * 0x1_0000 + o[2] * 0x100 + o[1], o[3] * 0x100 + o[2];
    assert ip == 256 * y + o[0];
    assert ip / 256 == y;
    assert y == 256 * z + o[1];
    assert y / 256 == z;
  }

  lemma {:induction false} AddressOf(ip: nat)
    requires ip < TWO32
    ensures Address(Octets(ip)) == ip
  {
    var y, z := ip / 256, ip / 256 / 256;
    assert ip == 256 * y + ip % 256 && y == 256 * z + y % 256 && z == 256 * (z / 256) + z % 256;
  }

  lemma {:induction false} LabelOctet(v: nat, sign: Name)
    requires v < 256 && (sign == [] || sign == [43])
    ensures Octet(sign + Decimal(v)) == Some(v) && Plain(sign + Decimal(v))
  {
    var t := Decimal(v);
    DecimalIsOctet(v);
    hide Decimal, Digits;
    SignedOctet(t, v);
    assert [] + t == t;
  }

  lemma {:induction false} SignedOctet(t: Name, v: nat)
    requires t != [] && Digits(t) && Octet(t) == Some(v)
    ensures Octet([43] + t) == Some(v) && Plain(t) && Plain([43] + t)
  {
    UnsignedOctet(t);
    hide StrToUl, Digits;
  }

  /** The labels of an address, with or without a sign before the first, mean it. */
  lemma {:induction false} Labels4Mean(ip: nat, sign: Name)
    requires ip < TWO32 && (sign == [] || sign == [43])
    ensures var m := Labels4(ip)[0 := sign + Labels4(ip)[0]];
            Meaning(m) == Some(ip) && 7 + |sign| <= |Dotted(m)| <= 15 + |sign| &&
            forall i :: 0 <= i < 4 ==> Plain(m[i]) && m[i] != []
  {
    AddressOf(ip);
    var o, l := Octets(ip), Labels4(ip);
    var m := l[0 := sign + l[0]];
    forall i | 0 <= i < 4 ensures m[i] != [] && Octet(m[i]) == Some(o[i]) && 1 <= |l[i]| <= 3 && Plain(m[i]) {
      LabelOctet(o[i], if i == 0 then sign else []);
      assert [] + l[i] == l[i];
    }
    OctetsAt(m, o);
    DottedOf4(m);
  }

  lemma {:induction false} DottedOf4(m: seq<Name>)
    requires |m| == 4
    ensures |Dotted(m)| == |m[0]| + |m[1]| + |m[2]| + |m[3]| + 3
  {
    assert |Dotted(m[1..][1..][1..])| == |m[3]|;
    assert |Dotted(m[1..][1..])| == |m[2]| + 1 + |m[3]|;
    assert |Dotted(m[1..])| == |m[1]| + 1 + |m[2]| + 1 + |m[3]|;
  }

  /** The name of every address is accepted, in any mixture of cases, and gives the address. */
  lemma {:induction false} StandardIsAccepted(name: Name, ip: nat)
    requires ip < TWO32 && Lower(name) == PtrOf(ip)
    ensures Pointer(name) == Some(ip) && Regular(name[..|name| - |SUFFIX|])
  {
    StandardPart(ip);
    EndsLower(name, Dotted(Labels4(ip)), SUFFIX);
  }

  /** What is accepted is the standard's name of the address exactly when the address part is
      regular. */
  lemma {:induction false} AcceptedExactly(name: Name, ip: nat)
    requires Pointer(name) == Some(ip)
    ensures Regular(name[..|name| - |SUFFIX|]) <==> ip < TWO32 && Lower(name) == PtrOf(ip)
  {
    if Regular(name[..|name| - |SUFFIX|]) {
      RegularIsStandard(name, ip);
    } else if ip < TWO32 && Lower(name) == PtrOf(ip) {
      StandardIsAccepted(name, ip);
    }
  }

  /** A sign before an octet is accepted, too, as long as the name is not too long for it. */
  lemma {:induction false} SignIsAccepted(ip: nat)
    requires ip < TWO32 && |PtrOf(ip)| < MAX_NAME
    ensures var name := [43] + PtrOf(ip); Pointer(name) == Some(ip) && !Regular(name[..|name| - |SUFFIX|])
  {
    SignedPart(ip);
    var p := [43] + Dotted(Labels4(ip));
    assert [43] + PtrOf(ip) == p + SUFFIX;
    SuffixCut(p, SUFFIX);
    SuffixIsLower();
  }

  lemma {:induction false} SuffixIsLower()
    ensures Lower(SUFFIX) == SUFFIX
  {}

  lemma {:induction false} SignedPart(ip: nat)
    requires ip < TWO32
    ensures var p := [43] + Dotted(Labels4(ip)); 8 <= |p| && Meaning(Tokens(CStr(p))) == Some(ip)
  {
    var l := Labels4(ip);
    var m := l[0 := [43] + l[0]];
    Labels4Mean(ip, [43]);
    SignedDotted(l);
    hide Labels4, Meaning, Tokens, Dotted, Plain, NulFree, CStr;
    TokensOfDotted(m);
    PlainIsNulFree(m);
    CStrOfNulFree(Dotted(m));
  }

  lemma {:induction false} SignedDotted(l: seq<Name>)
    requires |l| > 1
    ensures Dotted(l[0 := [43] + l[0]]) == [43] + Dotted(l)
  {
    assert l[0 := [43] + l[0]][1..] == l[1..];
    assert [43] + l[0] + [DOT] + Dotted(l[1..]) == [43] + (l[0] + [DOT] + Dotted(l[1..]));
  }

  lemma {:induction false} SuffixCut(p: Name, s: Name)
    ensures (p + s)[..|p + s| - |s|] == p && (p + s)[|p + s| - |s|..] == s
  {}
}
