/**
 PKCS#1 `RSAPublicKey` in DER, as handed to the signature verifier: SEQUENCE { INTEGER n, INTEGER e }.
 `Decode...` is an independent reader written from X.690 (sections 8.1.3, 8.3 and 10.1); it accepts only definite,
 minimal lengths and minimal integers.
*/
module Der {
  import opened Bytes

  // ---------------------------------------------------------------- numbers

  function Pow256(k: nat): nat {
    if k == 0 then 1 else 256 * Pow256(k - 1)
  }

  /** The unsigned big-endian value. */
  function Num(b: bytes): nat {
    if b == [] then 0 else Num(b[..|b| - 1]) * 256 + b[|b| - 1]
  }

  /** The shortest big-endian form; zero has no digits. */
  function Digits(n: nat): (d: bytes)
    ensures Num(d) == n
    ensures n > 0 ==> d != [] && d[0] != 0
    decreases n
  {
    if n == 0 then []
    else
      var d := Digits(n / 256) + [n % 256];
      assert d[..|d| - 1] == Digits(n / 256);
      d
  }

  lemma {:induction false} DigitsBound(n: nat, k: nat)
    requires n < Pow256(k)
    ensures |Digits(n)| <= k
  {
    if n > 0 {
      DivBelow(n, Pow256(k - 1));
      DigitsBound(n / 256, k - 1);
    }
  }

  lemma DivBelow(n: nat, p: nat)
    requires n < 256 * p
    ensures n / 256 < p
  {
  }

  lemma LengthDigits(len: nat)
    requires len < U64
    ensures |Digits(len)| <= 8
  {
    assert Pow256(8) == U64 by {
      assert Pow256(1) == 0x100 && Pow256(2) == 0x1_0000 && Pow256(3) == 0x100_0000 && Pow256(4) == U32;
      assert Pow256(5) == 0x100 * U32 && Pow256(6) == 0x1_0000 * U32 && Pow256(7) == 0x100_0000 * U32;
    }
    DigitsBound(len, 8);
  }

  lemma SplitByte(v: nat, last: byte)
    ensures (v * 256 + last) / 256 == v && (v * 256 + last) % 256 == last
  {
  }

  lemma DigitsSnoc(v: nat, last: byte)
    requires v > 0 || last > 0
    ensures Digits(v * 256 + last) == Digits(v) + [last]
  {
    SplitByte(v, last);
  }

  /** Leading zeros do not change the value, and without them the form is unique. */
  lemma {:induction false} DigitsOfNum(b: bytes)
    requires b != [] ==> b[0] != 0
    ensures Digits(Num(b)) == b
    ensures b != [] ==> Num(b) > 0
    decreases |b|
  {
    hide Digits;
    DigitsDef(0);
    if b != [] {
      var init, last := b[..|b| - 1], b[|b| - 1];
      DigitsOfNum(init);
      DigitsSnoc(Num(init), last);
      assert b == init + [last];
    }
  }

  lemma {:induction false} NumLeadingZero(b: bytes)
    ensures Num([0] + b) == Num(b)
  {
    if b == [] {
      assert ([0] + b)[..0] == [];
    } else {
      assert ([0] + b)[..|b|] == [0] + b[..|b| - 1];
      NumLeadingZero(b[..|b| - 1]);
    }
  }

  /** What the stripping loop leaves: at least one byte of a non-empty input. */
  function Strip(b: bytes): (r: bytes)
    ensures |r| <= |b| && (b != [] ==> r != []) && (|r| > 1 ==> r[0] != 0)
  {
    if |b| > 1 && b[0] == 0 then Strip(b[1..]) else b
  }

  lemma {:induction false} StripNum(b: bytes)
    ensures Num(Strip(b)) == Num(b)
  {
    if |b| > 1 && b[0] == 0 {
      StripNum(b[1..]);
      NumLeadingZero(b[1..]);
      assert b == [0] + b[1..];
    }
  }

  /** Stripped forms are determined by their value. */
  lemma StripIsCanonical(b: bytes)
    requires b != []
    ensures Strip(b) == if Num(b) == 0 then [0] else Digits(Num(b))
  {
    StripNum(b);
    var s := Strip(b);
    hide Digits, Strip;
    if s[0] != 0 {
      DigitsOfNum(s);
    } else {
      assert s == [0] && Num(s[..0]) == 0;
    }
  }

  lemma StripUnique(a: bytes, b: bytes)
    requires a != [] && b != [] && Num(a) == Num(b)
    ensures Strip(a) == Strip(b)
  {
    hide Num, Digits, Strip;
    StripIsCanonical(a);
    StripIsCanonical(b);
  }

  // ---------------------------------------------------------------- encoder

  const TAG_INTEGER: byte := 0x02
  const TAG_SEQUENCE: byte := 0x30

  function LenOctets(len: nat): bytes
    requires len < U64
  {
    if len < 0x80 then [len]
    else
      LengthDigits(len);
      [0x80 + |Digits(len)|] + Digits(len)
  }

  function Content(b: bytes): bytes {
    var s := Strip(b);
    if s != [] && s[0] >= 0x80 then [0] + s else s
  }

  function IntegerOctets(b: bytes): bytes
    requires |b| + 1 < U64
  {
    [TAG_INTEGER] + LenOctets(|Content(b)|) + Content(b)
  }

  function RsaOctets(n: bytes, e: bytes): bytes
    requires |n| + |e| + 32 < U64
  {
    LenShort(n);
    LenShort(e);
    var body := IntegerOctets(n) + IntegerOctets(e);
    [TAG_SEQUENCE] + LenOctets(|body|) + body
  }

  lemma LenShort(b: bytes)
    requires |b| + 1 < U64
    ensures |IntegerOctets(b)| <= |b| + 11
  {
    LengthDigits(|Content(b)|);
  }

  function Reverse(b: bytes): bytes {
    if b == [] then [] else Reverse(b[1..]) + [b[0]]
  }

  lemma {:induction false} ReverseSnoc(b: bytes, x: byte)
    ensures Reverse(b + [x]) == [x] + Reverse(b)
  {
    if b == [] {
      assert (b + [x])[1..] == [];
    } else {
      assert (b + [x])[1..] == b[1..] + [x];
      ReverseSnoc(b[1..], x);
    }
  }

  lemma DigitsDef(n: nat)
    ensures Digits(n) == if n == 0 then [] else Digits(n / 256) + [n % 256]
  {
  }

  lemma DigitsStep(l: nat, octets: bytes)
    requires l > 0
    ensures Digits(l) + Reverse(octets) == Digits(l / 256) + Reverse(octets + [l % 256])
  {
    hide Digits, Reverse;
    DigitsDef(l);
    var q, r: byte := Digits(l / 256), l % 256;
    ReverseSnoc(octets, r);
    assert q + [r] + Reverse(octets) == q + ([r] + Reverse(octets));
  }

  /** `der_len`. */
  method DerLen(len: nat) returns (out: bytes)
    requires len < U64
    ensures out == LenOctets(len)
  {
    if len < 0x80 { return [len]; }
    var octets: bytes := [];
    var l := len;
    assert Digits(len) + Reverse(octets) == Digits(len);
    while l > 0
      invariant Digits(l) + Reverse(octets) == Digits(len)
    {
      DigitsStep(l, octets);
      octets := octets + [l % 256];
      l := l / 256;
    }
    octets := Reverse(octets);
    assert Digits(0) + octets == octets;
    LengthDigits(len);
    out := [0x80 + |octets|] + octets;
  }

  /** `der_integer`. */
  method DerInteger(raw: bytes) returns (out: bytes)
    requires |raw| + 1 < U64
    ensures out == IntegerOctets(raw)
  {
    var b := raw;
    while |b| > 1 && b[0] == 0
      invariant Strip(b) == Strip(raw) && |b| <= |raw|
      decreases |b|
    {
      b := b[1..];
    }
    assert Strip(b) == b;
    var needPad := b != [] && b[0] >= 0x80;
    var contentLen := |b| + (if needPad then 1 else 0);
    var len := DerLen(contentLen);
    out := [TAG_INTEGER] + len;
    if needPad { out := out + [0]; }
    out := out + b;
    assert |Content(raw)| == contentLen;
    assert needPad ==> [TAG_INTEGER] + len + [0] + b == [TAG_INTEGER] + len + ([0] + b);
  }

  /** `rsa_pkcs1_der`. */
  method RsaPkcs1Der(n: bytes, e: bytes) returns (out: bytes)
    requires |n| + |e| + 32 < U64
    ensures out == RsaOctets(n, e)
  {
    LenShort(n);
    LenShort(e);
    var body := DerInteger(n);
    var second := DerInteger(e);
    body := body + second;
    var len := DerLen(|body|);
    out := [TAG_SEQUENCE] + len + body;
  }

  // ---------------------------------------------------------------- decoder

  /** A definite length in its shortest form, and how many octets it took. */
  function DecodeLen(b: bytes): Option<(nat, nat)> {
    if b == [] then None
    else if b[0] < 0x80 then Some((b[0], 1))
    else
      var k := b[0] - 0x80;
      if k == 0 || k == 0x7F || |b| < 1 + k then None
      else
        var digits := b[1..1 + k];
        var len := Num(digits);
        if digits[0] == 0 || len < 0x80 then None else Some((len, 1 + k))
  }

  /** The content of an element with this tag, and what follows it. */
  function DecodeElement(tag: byte, b: bytes): Option<(bytes, bytes)> {
    if b == [] || b[0] != tag then None
    else
      match DecodeLen(b[1..])
      case None => None
      case Some((len, used)) =>
        var at := 1 + used;
        if at + len > |b| then None else Some((b[at..at + len], b[at + len..]))
  }

  /** Two's complement, at least one octet, first nine bits not all equal. */
  function DecodeInteger(content: bytes): Option<int> {
    if content == [] then None
    else if |content| > 1 && content[0] == 0 && content[1] < 0x80 then None
    else if |content| > 1 && content[0] == 0xFF && content[1] >= 0x80 then None
    else if content[0] < 0x80 then Some(Num(content))
    else Some(Num(content) - Pow256(|content|))
  }

  function DecodeIntegerElement(b: bytes): Option<(int, bytes)> {
    match DecodeElement(0x02, b)
    case None => None
    case Some((content, rest)) =>
      match DecodeInteger(content)
      case None => None
      case Some(v) => Some((v, rest))
  }

  function DecodeRsa(b: bytes): Option<(int, int)> {
    match DecodeElement(0x30, b)
    case None => None
    case Some((body, rest)) =>
      if rest != [] then None
      else
        match DecodeIntegerElement(body)
        case None => None
        case Some((n, rest1)) =>
          match DecodeIntegerElement(rest1)
          case None => None
          case Some((e, rest2)) => if rest2 == [] then Some((n, e)) else None
  }

  // ---------------------------------------------------------------- round trip

  lemma LenRoundTrip(len: nat, tail: bytes)
    requires len < U64
    ensures DecodeLen(LenOctets(len) + tail) == Some((len, |LenOctets(len)|))
  {
    if len >= 0x80 {
      LengthDigits(len);
      var d := Digits(len);
      var b := LenOctets(len) + tail;
      assert b[1..1 + |d|] == d;
    }
  }

  lemma ElementRoundTrip(tag: byte, content: bytes, tail: bytes)
    requires |content| < U64
    ensures DecodeElement(tag, [tag] + LenOctets(|content|) + content + tail) == Some((content, tail))
  {
    hide Digits, LenOctets, DecodeLen;
    var len := LenOctets(|content|);
    var b := [tag] + len + content + tail;
    LenRoundTrip(|content|, content + tail);
    assert b[1..] == len + (content + tail);
    var at := 1 + |len|;
    assert b[at..at + |content|] == content && b[at + |content|..] == tail;
  }

  /** Minimal, non-negative, and of the right value. */
  lemma ContentDecodes(b: bytes)
    ensures DecodeInteger(Content(b)) == if b == [] then None else Some(Num(b))
  {
    if b != [] {
      var s := Strip(b);
      StripNum(b);
      NumLeadingZero(s);
      if |s| > 1 { assert s[0] != 0; }
    }
  }

  lemma IntegerRoundTrip(b: bytes, tail: bytes)
    requires |b| + 1 < U64
    ensures DecodeIntegerElement(IntegerOctets(b) + tail) == if b == [] then None else Some((Num(b), tail))
  {
    hide Num, DecodeInteger, LenOctets, DecodeElement;
    ContentDecodes(b);
    ElementRoundTrip(TAG_INTEGER, Content(b), tail);
  }

  /**
   The encoding decodes to the same two non-negative integers, and is valid DER, exactly when neither input is empty.
  */
  lemma RsaRoundTrip(n: bytes, e: bytes)
    requires |n| + |e| + 32 < U64
    ensures DecodeRsa(RsaOctets(n, e)) == if n == [] || e == [] then None else Some((Num(n), Num(e)))
  {
    hide Num, DecodeInteger, LenOctets, DecodeElement, IntegerOctets, DecodeIntegerElement;
    LenShort(n);
    LenShort(e);
    var first, second := IntegerOctets(n), IntegerOctets(e);
    var body := first + second;
    ElementRoundTrip(TAG_SEQUENCE, body, []);
    assert RsaOctets(n, e) == [TAG_SEQUENCE] + LenOctets(|body|) + body;
    assert [TAG_SEQUENCE] + LenOctets(|body|) + body + [] == [TAG_SEQUENCE] + LenOctets(|body|) + body;
    IntegerRoundTrip(n, second);
    assert second + [] == second;
    IntegerRoundTrip(e, []);
  }

  /** Two keys encode alike exactly when they are the same numbers: injective up to leading zeros. */
  lemma RsaInjective(n1: bytes, e1: bytes, n2: bytes, e2: bytes)
    requires n1 != [] && e1 != [] && n2 != [] && e2 != []
    requires |n1| + |e1| + 32 < U64 && |n2| + |e2| + 32 < U64
    ensures RsaOctets(n1, e1) == RsaOctets(n2, e2) <==> Num(n1) == Num(n2) && Num(e1) == Num(e2)
  {
    hide LenOctets, Num, DecodeRsa, Digits;
    RsaRoundTrip(n1, e1);
    RsaRoundTrip(n2, e2);
    if Num(n1) == Num(n2) && Num(e1) == Num(e2) {
      StripUnique(n1, n2);
      StripUnique(e1, e2);
    }
  }

  /** In octets: a padded modulus and the exponent 65537. */
  lemma RsaExample()
    ensures RsaOctets([0, 0xC5], [1, 0, 1]) == [0x30, 9, 2, 2, 0, 0xC5, 2, 3, 1, 0, 1]
    ensures Num([0, 0xC5]) == 197 && Num([1, 0, 1]) == 65537
  {
    assert Content([0, 0xC5]) == [0, 0xC5] by { assert [0, 0xC5][1..] == [0xC5]; }
    assert Content([1, 0, 1]) == [1, 0, 1];
    assert [1, 0, 1][..2] == [1, 0] && [1, 0][..1] == [1] && [0, 0xC5][..1] == [0];
    assert [1][..0] == [] && [0][..0] == [];
  }
}
