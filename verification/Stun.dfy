/** STUN binding responses (RFC 5389): the attribute walk and the (XOR-)MAPPED-ADDRESS it returns. */
module Stun {
  import opened Bytes

  const MAGIC_COOKIE: int := 0x2112_A442
  const ATTR_XOR_MAPPED_ADDRESS: int := 0x0020
  const ATTR_MAPPED_ADDRESS: int := 0x0001
  const MSG_BINDING_RESPONSE: int := 0x0101
  const HEADER: int := 20

  datatype Endpoint = Endpoint(ip: bytes, port: nat)

  datatype StunError = TooShort | BadType | BadCookie | AttrOverflow | BadFamily | NoAddress

  datatype Result = Found(at: Endpoint) | Failed(error: StunError)

  // ---------------------------------------------------------------- words

  function BE2(n: nat): (b: bytes)
    requires n < 0x1_0000
    ensures |b| == 2
  {
    [n / 0x100, n % 0x100]
  }

  function Val2(hi: byte, lo: byte): (n: nat)
    ensures n < 0x1_0000
  {
    hi * 0x100 + lo
  }

  /** Bitwise exclusive or. */
  function Xor(a: nat, b: nat): nat {
    if a == 0 && b == 0 then 0 else 2 * Xor(a / 2, b / 2) + (a % 2 + b % 2) % 2
  }

  function Pow2(k: nat): nat {
    if k == 0 then 1 else 2 * Pow2(k - 1)
  }

  lemma XorBits(a: nat, b: nat)
    ensures Xor(a, b) == 2 * Xor(a / 2, b / 2) + (a % 2 + b % 2) % 2
    ensures Xor(a, b) / 2 == Xor(a / 2, b / 2) && Xor(a, b) % 2 == (a % 2 + b % 2) % 2
  {
  }

  lemma BitTwice(p: nat, q: nat)
    ensures ((p % 2 + q % 2) % 2 + q % 2) % 2 == p % 2
  {
  }

  lemma Halves(a: nat)
    ensures 2 * (a / 2) + a % 2 == a
  {
  }

  lemma {:induction false} XorTwice(a: nat, b: nat)
    ensures Xor(Xor(a, b), b) == a
    decreases a + b
  {
    if a == 0 && b == 0 {
      assert Xor(0, 0) == 0;
    } else {
      XorTwice(a / 2, b / 2);
    }
    hide Xor;
    if a != 0 || b != 0 {
      XorBits(a, b);
      XorBits(Xor(a, b), b);
      BitTwice(a, b);
      Halves(a);
    }
  }

  lemma {:induction false} XorBelow(a: nat, b: nat, k: nat)
    requires a < Pow2(k) && b < Pow2(k)
    ensures Xor(a, b) < Pow2(k)
    decreases k
  {
    if a != 0 || b != 0 {
      XorBelow(a / 2, b / 2, k - 1);
    }
  }

  lemma Xor16(a: nat, b: nat)
    requires a < 0x1_0000 && b < 0x1_0000
    ensures Xor(a, b) < 0x1_0000
  {
    assert Pow2(4) == 16 && Pow2(8) == 0x100 && Pow2(12) == 0x1000 && Pow2(16) == 0x1_0000;
    XorBelow(a, b, 16);
  }

  lemma Xor32(a: nat, b: nat)
    requires a < U32 && b < U32
    ensures Xor(a, b) < U32
  {
    assert Pow2(4) == 16 && Pow2(8) == 0x100 && Pow2(12) == 0x1000 && Pow2(16) == 0x1_0000;
    assert Pow2(20) == 0x10_0000 && Pow2(24) == 0x100_0000 && Pow2(28) == 0x1000_0000 && Pow2(32) == U32;
    XorBelow(a, b, 32);
  }

  // ---------------------------------------------------------------- the parser

  predicate Mapped(typ: nat, len: nat) {
    (typ == ATTR_XOR_MAPPED_ADDRESS || typ == ATTR_MAPPED_ADDRESS) && len >= 8
  }

  /** The address an attribute value holds. */
  function Address(typ: nat, value: bytes): Result
    requires |value| >= 8
  {
    if value[1] != 1 then Failed(BadFamily)
    else
      var port, ip := Val2(value[2], value[3]), value[4..8];
      if typ == ATTR_XOR_MAPPED_ADDRESS then
        Xor32(Val4(ip), MAGIC_COOKIE);
        Found(Endpoint(BE4(Xor(Val4(ip), MAGIC_COOKIE)), Xor(port, MAGIC_COOKIE / 0x1_0000)))
      else Found(Endpoint(ip, port))
  }

  function Padded(len: nat): nat { (len + 3) / 4 * 4 }

  function Walk(resp: bytes, offset: nat, end: nat): Result
    requires end <= |resp|
    decreases end - offset
  {
    if offset + 4 > end then Failed(NoAddress)
    else
      var typ, len := Val2(resp[offset], resp[offset + 1]), Val2(resp[offset + 2], resp[offset + 3]);
      var start := offset + 4;
      if start + len > |resp| then Failed(AttrOverflow)
      else if Mapped(typ, len) then Address(typ, resp[start..start + len])
      else Walk(resp, start + Padded(len), end)
  }

  function Parse(resp: bytes): Result {
    if |resp| < HEADER then Failed(TooShort)
    else if Val2(resp[0], resp[1]) != MSG_BINDING_RESPONSE then Failed(BadType)
    else if Val4(resp[4..8]) != MAGIC_COOKIE then Failed(BadCookie)
    else Walk(resp, HEADER, Min(HEADER + Val2(resp[2], resp[3]), |resp|))
  }

  /** The address in the value of a mapped or XOR-mapped attribute. */
  method ReadAddress(typ: nat, value: bytes) returns (r: Result)
    requires |value| >= 8
    ensures r == Address(typ, value)
  {
    hide Xor;
    if value[1] != 1 { return Failed(BadFamily); }
    var port, ip := Val2(value[2], value[3]), value[4..8];
    if typ == ATTR_XOR_MAPPED_ADDRESS {
      Xor32(Val4(ip), MAGIC_COOKIE);
      return Found(Endpoint(BE4(Xor(Val4(ip), MAGIC_COOKIE)), Xor(port, MAGIC_COOKIE / 0x1_0000)));
    }
    return Found(Endpoint(ip, port));
  }

  /** `parse_mapped_address`: in bounds and terminating on every input. */
  method ParseMappedAddress(resp: bytes) returns (r: Result)
    ensures r == Parse(resp)
  {
    if |resp| < 20 { return Failed(TooShort); }
    if Val2(resp[0], resp[1]) != MSG_BINDING_RESPONSE { return Failed(BadType); }
    if Val4(resp[4..8]) != MAGIC_COOKIE { return Failed(BadCookie); }
    var offset, end := 20, Min(20 + Val2(resp[2], resp[3]), |resp|);
    while offset + 4 <= end
      invariant Walk(resp, offset, end) == Walk(resp, HEADER, end)
      decreases end - offset
    {
      hide Address;
      var typ := Val2(resp[offset], resp[offset + 1]);
      var len := Val2(resp[offset + 2], resp[offset + 3]);
      var valueStart := offset + 4;
      var valueEnd := valueStart + len;
      if valueEnd > |resp| { return Failed(AttrOverflow); }
      var value := resp[valueStart..valueEnd];
      if Mapped(typ, len) {
        r := ReadAddress(typ, value);
        return;
      }
      offset := valueStart + (len + 3) / 4 * 4;
    }
    return Failed(NoAddress);
  }

  // ---------------------------------------------------------------- well-formed responses

  datatype Attr = Attr(typ: nat, value: bytes, pad: bytes)

  predicate WellFormed(a: Attr) {
    a.typ < 0x1_0000 && |a.value| < 0x1_0000 && |a.value| + |a.pad| == Padded(|a.value|)
  }

  function Octets(a: Attr): bytes
    requires WellFormed(a)
  {
    BE2(a.typ) + BE2(|a.value|) + a.value + a.pad
  }

  function Attrs(attrs: seq<Attr>): bytes
    requires forall a :: a in attrs ==> WellFormed(a)
  {
    if attrs == [] then [] else Octets(attrs[0]) + Attrs(attrs[1..])
  }

  /** A binding response: header, attributes, and whatever else the datagram carries. */
  function Response(txId: bytes, attrs: seq<Attr>, extra: bytes): bytes
    requires forall a :: a in attrs ==> WellFormed(a)
    requires |txId| == 12 && |Attrs(attrs)| < 0x1_0000
  {
    BE2(0x0101) + BE2(|Attrs(attrs)|) + BE4(0x2112_A442) + txId + (Attrs(attrs) + extra)
  }

  /** What a response means: its first usable mapped address. */
  function FirstMapped(attrs: seq<Attr>): Result {
    if attrs == [] then Failed(NoAddress)
    else if Mapped(attrs[0].typ, |attrs[0].value|) then Address(attrs[0].typ, attrs[0].value)
    else FirstMapped(attrs[1..])
  }

  lemma BE2Val2(n: nat)
    requires n < 0x1_0000
    ensures Val2(BE2(n)[0], BE2(n)[1]) == n
  {
  }

  lemma AtWord(b: bytes, pos: nat, n: nat)
    requires n < 0x1_0000 && At(b, pos, BE2(n))
    ensures pos + 2 <= |b| && Val2(b[pos], b[pos + 1]) == n
  {
    BE2Val2(n);
    assert b[pos..pos + 2][0] == b[pos] && b[pos..pos + 2][1] == b[pos + 1];
  }

  lemma AtAttr(b: bytes, pos: nat, a: Attr)
    requires WellFormed(a) && At(b, pos, Octets(a))
    ensures pos + 4 + |a.value| <= |b|
    ensures Val2(b[pos], b[pos + 1]) == a.typ && Val2(b[pos + 2], b[pos + 3]) == |a.value|
    ensures b[pos + 4..pos + 4 + |a.value|] == a.value
    ensures |Octets(a)| == 4 + Padded(|a.value|)
  {
    hide Val2, BE2, Padded;
    AtParts(b, pos, BE2(a.typ) + BE2(|a.value|) + a.value, a.pad);
    AtParts(b, pos, BE2(a.typ) + BE2(|a.value|), a.value);
    AtParts(b, pos, BE2(a.typ), BE2(|a.value|));
    AtWord(b, pos, a.typ);
    AtWord(b, pos + 2, |a.value|);
  }

  lemma WalkStep(resp: bytes, pos: nat, end: nat, a: Attr)
    requires WellFormed(a) && At(resp, pos, Octets(a)) && pos + |Octets(a)| <= end <= |resp|
    ensures Walk(resp, pos, end) ==
            if Mapped(a.typ, |a.value|) then Address(a.typ, a.value) else Walk(resp, pos + |Octets(a)|, end)
  {
    hide At, Octets, Address, Val2, Padded;
    AtAttr(resp, pos, a);
  }

  lemma WalkNothing(resp: bytes, pos: nat)
    requires At(resp, pos, [])
    ensures pos <= |resp| && Walk(resp, pos, pos) == Failed(NoAddress)
  {
  }

  lemma AtBound(resp: bytes, pos: nat, part: bytes)
    requires At(resp, pos, part)
    ensures pos + |part| <= |resp|
  {
  }

  lemma {:induction false} WalkAttrs(resp: bytes, pos: nat, attrs: seq<Attr>)
    requires forall a :: a in attrs ==> WellFormed(a)
    requires At(resp, pos, Attrs(attrs))
    ensures pos + |Attrs(attrs)| <= |resp| && Walk(resp, pos, pos + |Attrs(attrs)|) == FirstMapped(attrs)
    decreases |attrs|
  {
    hide At, Octets, Address, Walk;
    if attrs == [] {
      WalkNothing(resp, pos);
    } else {
      var a := attrs[0];
      AtParts(resp, pos, Octets(a), Attrs(attrs[1..]));
      AtBound(resp, pos, Attrs(attrs));
      WalkStep(resp, pos, pos + |Attrs(attrs)|, a);
      WalkAttrs(resp, pos + |Octets(a)|, attrs[1..]);
    }
  }

  lemma ResponseParts(txId: bytes, attrs: seq<Attr>, extra: bytes)
    requires forall a :: a in attrs ==> WellFormed(a)
    requires |txId| == 12 && |Attrs(attrs)| < 0x1_0000
    ensures var resp := Response(txId, attrs, extra);
            && At(resp, 0, BE2(MSG_BINDING_RESPONSE)) && At(resp, 2, BE2(|Attrs(attrs)|))
            && At(resp, 4, BE4(MAGIC_COOKIE)) && At(resp, HEADER, Attrs(attrs))
  {
    var resp, body := Response(txId, attrs, extra), Attrs(attrs);
    assert At(resp, 0, resp);
    var w0, w1, w2 := BE2(MSG_BINDING_RESPONSE), BE2(|body|), BE4(MAGIC_COOKIE);
    hide Attrs, At, BE2, BE4, WellFormed;
    AtParts(resp, 0, w0 + w1 + w2 + txId, body + extra);
    AtParts(resp, HEADER, body, extra);
    AtParts(resp, 0, w0 + w1 + w2, txId);
    AtParts(resp, 0, w0 + w1, w2);
    AtParts(resp, 0, w0, w1);
  }

  /** For every well-formed response the parser returns the first usable mapped address, whatever surrounds it. */
  lemma ParsesResponse(txId: bytes, attrs: seq<Attr>, extra: bytes)
    requires forall a :: a in attrs ==> WellFormed(a)
    requires |txId| == 12 && |Attrs(attrs)| < 0x1_0000
    ensures Parse(Response(txId, attrs, extra)) == FirstMapped(attrs)
  {
    hide Response, Walk, Attrs, FirstMapped, BE2, BE4, Val2, Val4, WellFormed;
    var resp := Response(txId, attrs, extra);
    ResponseParts(txId, attrs, extra);
    AtWord(resp, 0, MSG_BINDING_RESPONSE);
    AtWord(resp, 2, |Attrs(attrs)|);
    CookieAt(resp, 4);
    assert HEADER + |Attrs(attrs)| <= |resp|;
    WalkAttrs(resp, HEADER, attrs);
  }

  lemma CookieAt(resp: bytes, pos: nat)
    requires At(resp, pos, BE4(MAGIC_COOKIE))
    ensures pos + 4 <= |resp| && Val4(resp[pos..pos + 4]) == MAGIC_COOKIE
  {
    BE4Val4(MAGIC_COOKIE, []);
    assert BE4(MAGIC_COOKIE) + [] == BE4(MAGIC_COOKIE);
  }

  // ---------------------------------------------------------------- XOR-MAPPED-ADDRESS

  /** The value a server sends for an IPv4 endpoint (section 15.2). */
  function XorValue(ip: bytes, port: nat): bytes
    requires |ip| == 4 && port < 0x1_0000
  {
    Xor16(port, 0x2112);
    Xor32(Val4(ip), 0x2112_A442);
    [0, 1] + BE2(Xor(port, 0x2112)) + BE4(Xor(Val4(ip), 0x2112_A442))
  }

  /** The value of a plain MAPPED-ADDRESS (section 15.1). */
  function PlainValue(ip: bytes, port: nat): bytes
    requires |ip| == 4 && port < 0x1_0000
  {
    [0, 1] + BE2(port) + ip
  }

  /** Encoding then parsing is the identity for every address and port. */
  lemma XorRoundTrip(txId: bytes, ip: bytes, port: nat)
    requires |txId| == 12 && |ip| == 4 && port < 0x1_0000
    ensures |Attrs([Attr(0x0020, XorValue(ip, port), [])])| < 0x1_0000
    ensures Parse(Response(txId, [Attr(0x0020, XorValue(ip, port), [])], [])) == Found(Endpoint(ip, port))
  {
    var attrs := [Attr(0x0020, XorValue(ip, port), [])];
    assert attrs[1..] == [];
    XorValueDecodes(ip, port);
    hide Address, XorValue;
    ParsesResponse(txId, attrs, []);
  }

  /** So it is without the exclusive or. */
  lemma PlainRoundTrip(txId: bytes, ip: bytes, port: nat)
    requires |txId| == 12 && |ip| == 4 && port < 0x1_0000
    ensures |Attrs([Attr(0x0001, PlainValue(ip, port), [])])| < 0x1_0000
    ensures Parse(Response(txId, [Attr(0x0001, PlainValue(ip, port), [])], [])) == Found(Endpoint(ip, port))
  {
    var v := PlainValue(ip, port);
    var attrs := [Attr(0x0001, v, [])];
    assert attrs[1..] == [];
    assert Val2(v[2], v[3]) == port by { BE2Val2(port); }
    assert v[4..8] == ip;
    assert Address(0x0001, v) == Found(Endpoint(ip, port));
    hide Address, PlainValue;
    ParsesResponse(txId, attrs, []);
  }

  /** An attribute for another address family is an error, in either form. */
  lemma OtherFamily(typ: nat, value: bytes)
    requires |value| >= 8 && value[1] != 1
    ensures Address(typ, value) == Failed(BadFamily)
  {
  }

  /** Datagrams that are no binding response of this protocol. */
  lemma RejectsOthers(resp: bytes)
    ensures |resp| < 20 <==> Parse(resp) == Failed(TooShort)
    ensures |resp| >= 20 && resp[..2] != [1, 1] <==> Parse(resp) == Failed(BadType)
    ensures |resp| >= 20 && resp[..2] == [1, 1] && resp[4..8] != [0x21, 0x12, 0xA4, 0x42] <==>
            Parse(resp) == Failed(BadCookie)
  {
    if |resp| >= 20 {
      WalkErrors(resp, HEADER, Min(HEADER + Val2(resp[2], resp[3]), |resp|));
      TypeOctets(resp);
      CookieOctets(resp[4..8]);
      hide Walk, Val2, Val4;
    }
  }

  lemma TypeOctets(resp: bytes)
    requires |resp| >= 2
    ensures Val2(resp[0], resp[1]) == MSG_BINDING_RESPONSE <==> resp[..2] == [1, 1]
  {
    assert resp[..2] == [resp[0], resp[1]];
  }

  lemma CookieOctets(c: bytes)
    requires |c| == 4
    ensures Val4(c) == MAGIC_COOKIE <==> c == [0x21, 0x12, 0xA4, 0x42]
  {
    Val4BE4(c);
    assert BE4(0x2112_A442) == [0x21, 0x12, 0xA4, 0x42];
    assert Val4([0x21, 0x12, 0xA4, 0x42]) == 0x2112_A442;
  }

  predicate InAttributes(e: StunError) { e == AttrOverflow || e == BadFamily || e == NoAddress }

  lemma OverflowIs()
    ensures InAttributes(AttrOverflow) && InAttributes(NoAddress)
  {
  }

  lemma AddressErrors(typ: nat, value: bytes)
    requires |value| >= 8
    ensures Address(typ, value).Failed? ==> InAttributes(Address(typ, value).error)
  {
  }

  lemma {:induction false} WalkErrors(resp: bytes, offset: nat, end: nat)
    requires end <= |resp|
    ensures Walk(resp, offset, end).Failed? ==> InAttributes(Walk(resp, offset, end).error)
    decreases end - offset
  {
    if offset + 4 <= end {
      var start := offset + 4;
      var typ, len := Val2(resp[offset], resp[offset + 1]), Val2(resp[offset + 2], resp[offset + 3]);
      PaddedIs(len);
      hide Address, Val2, InAttributes, Padded;
      if start + len <= |resp| {
        if Mapped(typ, len) {
          AddressErrors(typ, resp[start..start + len]);
        } else {
          hide Mapped;
          WalkErrors(resp, start + Padded(len), end);
        }
      } else {
        OverflowIs();
      }
    } else {
      OverflowIs();
    }
  }

  /** Attributes are padded to the next multiple of four. */
  lemma PaddedIs(len: nat)
    ensures Padded(len) % 4 == 0 && len <= Padded(len) < len + 4
  {
  }

  /** The k-th binary digit. */
  function Bit(n: nat, k: nat): nat {
    if k == 0 then n % 2 else Bit(n / 2, k - 1)
  }

  /** `Xor` is exclusive or, bit by bit. */
  lemma {:induction false} XorIsBitwise(a: nat, b: nat, k: nat)
    ensures Bit(Xor(a, b), k) == if Bit(a, k) == Bit(b, k) then 0 else 1
    decreases k
  {
    XorBits(a, b);
    if k > 0 { XorIsBitwise(a / 2, b / 2, k - 1); }
  }

  lemma XorValueDecodes(ip: bytes, port: nat)
    requires |ip| == 4 && port < 0x1_0000
    ensures |XorValue(ip, port)| == 8
    ensures Address(0x0020, XorValue(ip, port)) == Found(Endpoint(ip, port))
  {
    var xp, xa := Xor(port, MAGIC_COOKIE / 0x1_0000), Xor(Val4(ip), MAGIC_COOKIE);
    Xor16(port, MAGIC_COOKIE / 0x1_0000);
    Xor32(Val4(ip), MAGIC_COOKIE);
    XorTwice(port, MAGIC_COOKIE / 0x1_0000);
    XorTwice(Val4(ip), MAGIC_COOKIE);
    var v := XorValue(ip, port);
    assert v[4..8] == BE4(xa);
    BE4Val4(xa, []);
    assert BE4(xa) + [] == BE4(xa);
    assert Val2(v[2], v[3]) == xp by { BE2Val2(xp); }
    Val4BE4(ip);
  }

  lemma Val4BE4(b: bytes)
    requires |b| == 4
    ensures BE4(Val4(b)) == b
  {
    FourDigits(b[0], b[1], b[2], b[3]);
  }

  lemma FourDigits(b0: int, b1: int, b2: int, b3: int)
    requires 0 <= b0 < 0x100 && 0 <= b1 < 0x100 && 0 <= b2 < 0x100 && 0 <= b3 < 0x100
    ensures var n := ((b0 * 0x100 + b1) * 0x100 + b2) * 0x100 + b3;
            n / 0x100_0000 == b0 && n / 0x1_0000 % 0x100 == b1 && n / 0x100 % 0x100 == b2 && n % 0x100 == b3
  {
  }
}
