/**
 `application/x-www-form-urlencoded` bodies. Text is its UTF-8 bytes. `ParseForm` is the parser of the URL Standard,
 section 5.1, with its percent decoding (section 1.3); the encoder is shown to be inverted by it.
*/
module Form {
  import opened Bytes

  const SPACE: byte := 0x20
  const PERCENT: byte := 0x25
  const AMP: byte := 0x26
  const PLUS: byte := 0x2B
  const EQUALS: byte := 0x3D

  predicate Unreserved(b: byte) {
    || 0x41 <= b <= 0x5A || 0x61 <= b <= 0x7A || 0x30 <= b <= 0x39
    || b == 0x2D || b == 0x2E || b == 0x5F || b == 0x7E
  }

  /** `{:X}` of one nibble. */
  function HexDigit(n: nat): byte
    requires n < 16
  {
    if n < 10 then 0x30 + n else 0x41 + (n - 10)
  }

  function EncodeByte(b: byte): bytes {
    if Unreserved(b) then [b]
    else if b == SPACE then [PLUS]
    else [PERCENT, HexDigit(b / 16), HexDigit(b % 16)]
  }

  function Percent(input: bytes): bytes {
    if input == [] then [] else Percent(input[..|input| - 1]) + EncodeByte(input[|input| - 1])
  }

  function Pair(p: (bytes, bytes)): bytes { Percent(p.0) + [EQUALS] + Percent(p.1) }

  function FormOctets(params: seq<(bytes, bytes)>): bytes {
    if params == [] then []
    else if |params| == 1 then Pair(params[0])
    else FormOctets(params[..|params| - 1]) + [AMP] + Pair(params[|params| - 1])
  }

  // ---------------------------------------------------------------- encoder

  /** `percent_encode`. */
  method PercentEncode(input: bytes) returns (out: bytes)
    ensures out == Percent(input)
  {
    out := [];
    for i := 0 to |input|
      invariant out == Percent(input[..i])
    {
      var b := input[i];
      assert input[..i + 1][..i] == input[..i];
      if Unreserved(b) { out := out + [b]; }
      else if b == SPACE { out := out + [PLUS]; }
      else { out := out + [PERCENT, HexDigit(b / 16), HexDigit(b % 16)]; }
    }
    assert input[..|input|] == input;
  }

  /** `encode_form`: the parts, then `join("&")`. */
  method EncodeForm(params: seq<(bytes, bytes)>) returns (out: bytes)
    ensures out == FormOctets(params)
  {
    var parts: seq<bytes> := [];
    for i := 0 to |params|
      invariant |parts| == i && forall k :: 0 <= k < i ==> parts[k] == Pair(params[k])
    {
      var key := PercentEncode(params[i].0);
      var value := PercentEncode(params[i].1);
      parts := parts + [key + [EQUALS] + value];
    }
    out := [];
    for i := 0 to |parts|
      invariant out == FormOctets(params[..i])
    {
      assert params[..i + 1][..i] == params[..i];
      if i > 0 { out := out + [AMP]; }
      out := out + parts[i];
    }
    assert params[..|params|] == params;
  }

  // ---------------------------------------------------------------- the standard's parser

  /** Plus signs become spaces, then percent triples become bytes; a stray percent sign stands for itself. */
  function Decode(b: bytes): bytes {
    if b == [] then []
    else if b[0] == PERCENT && |b| >= 3 && HexValue(b[1]).Some? && HexValue(b[2]).Some? then
      HexPairIsByte(b[1], b[2]);
      [HexValue(b[1]).value * 16 + HexValue(b[2]).value] + Decode(b[3..])
    else [if b[0] == PLUS then SPACE else b[0]] + Decode(b[1..])
  }

  lemma HexPairIsByte(hi: byte, lo: byte)
    requires HexValue(hi).Some? && HexValue(lo).Some?
    ensures HexValue(hi).value * 16 + HexValue(lo).value < 256
  {
  }

  /** Position of the first `x`, or the length. */
  function IndexOf(b: bytes, x: byte): (i: nat)
    ensures i <= |b| && (i < |b| ==> b[i] == x) && forall k :: 0 <= k < i ==> b[k] != x
  {
    if b == [] || b[0] == x then 0 else 1 + IndexOf(b[1..], x)
  }

  function ParsePiece(piece: bytes): (bytes, bytes) {
    var i := IndexOf(piece, EQUALS);
    if i == |piece| then (Decode(piece), []) else (Decode(piece[..i]), Decode(piece[i + 1..]))
  }

  function ParseForm(b: bytes): seq<(bytes, bytes)>
    decreases |b|
  {
    var i := IndexOf(b, AMP);
    var first := if i == 0 then [] else [ParsePiece(b[..i])];
    if i == |b| then first else first + ParseForm(b[i + 1..])
  }

  // ---------------------------------------------------------------- round trip

  lemma DecodeOne(b: byte, rest: bytes)
    ensures Decode(EncodeByte(b) + rest) == [b] + Decode(rest)
  {
    var e := EncodeByte(b);
    assert (e + rest)[|e|..] == rest;
    if !Unreserved(b) && b != SPACE {
      assert HexValue(e[1]) == Some(b / 16) && HexValue(e[2]) == Some(b % 16);
    }
  }

  lemma {:induction false} DecodePercent(input: bytes, rest: bytes)
    ensures Decode(Percent(input) + rest) == input + Decode(rest)
    decreases |input|
  {
    hide EncodeByte, Decode;
    if input == [] {
      assert Percent(input) + rest == rest;
    } else {
      var init, last := input[..|input| - 1], input[|input| - 1];
      assert Percent(input) + rest == Percent(init) + (EncodeByte(last) + rest);
      DecodePercent(init, EncodeByte(last) + rest);
      DecodeOne(last, rest);
      assert init + ([last] + Decode(rest)) == input + Decode(rest);
    }
  }

  /** Letters, digits, `-`, `.`, `_`, `~`, and the `+` and `%` of the encoding. */
  predicate Allowed(b: byte) {
    || 'A' as int <= b <= 'Z' as int || 'a' as int <= b <= 'z' as int || '0' as int <= b <= '9' as int
    || b == '-' as int || b == '.' as int || b == '_' as int || b == '~' as int || b == '+' as int || b == '%' as int
  }

  /** The encoded alphabet; no separator can appear, nor anything that is not ASCII. */
  lemma {:induction false} EncodedAlphabet(input: bytes)
    ensures forall b :: b in Percent(input) ==> Allowed(b)
  {
    if input != [] {
      EncodedAlphabet(input[..|input| - 1]);
    }
  }

  lemma IndexOfAt(a: bytes, x: byte, tail: bytes)
    requires x !in a
    ensures IndexOf(a + [x] + tail, x) == |a| && IndexOf(a, x) == |a|
  {
    var b := a + [x] + tail;
    assert b[|a|] == x;
    assert forall k :: 0 <= k < |a| ==> b[k] == a[k] && a[k] in a;
  }

  lemma NoSeparators(input: bytes)
    ensures AMP !in Percent(input) && EQUALS !in Percent(input)
  {
    EncodedAlphabet(input);
  }

  lemma DecodeAll(input: bytes)
    ensures Decode(Percent(input)) == input
  {
    DecodePercent(input, []);
    assert Percent(input) + [] == Percent(input) && input + Decode([]) == input;
  }

  lemma PairRoundTrip(p: (bytes, bytes))
    ensures AMP !in Pair(p) && Pair(p) != [] && ParsePiece(Pair(p)) == p
  {
    hide Percent, Decode, IndexOf;
    NoSeparators(p.0);
    NoSeparators(p.1);
    DecodeAll(p.0);
    DecodeAll(p.1);
    var k, v := Percent(p.0), Percent(p.1);
    IndexOfAt(k, EQUALS, v);
    assert Pair(p)[..|k|] == k && Pair(p)[|k| + 1..] == v;
  }

  lemma ParseFirst(piece: bytes, tail: bytes)
    requires AMP !in piece && piece != []
    ensures ParseForm(piece) == [ParsePiece(piece)]
    ensures ParseForm(piece + [AMP] + tail) == [ParsePiece(piece)] + ParseForm(tail)
  {
    IndexOfAt(piece, AMP, tail);
    var b := piece + [AMP] + tail;
    assert piece[..|piece|] == piece && b[..|piece|] == piece && b[|piece| + 1..] == tail;
  }

  lemma Regroup(a: bytes, b: bytes, c: bytes, d: bytes)
    ensures a + b + c + d == a + (b + c + d)
  {
  }

  /** The form from its front, to follow the parser. */
  lemma {:induction false} FormFromFront(params: seq<(bytes, bytes)>)
    requires |params| > 1
    ensures FormOctets(params) == Pair(params[0]) + [AMP] + FormOctets(params[1..])
    decreases |params|
  {
    hide Pair;
    var init, last := params[..|params| - 1], params[|params| - 1];
    if |params| > 2 {
      FormFromFront(init);
      assert params[1..][..|params| - 2] == init[1..];
      Regroup(Pair(params[0]) + [AMP], FormOctets(init[1..]), [AMP], Pair(last));
    }
  }

  /** Every list of key/value pairs is read back exactly: same pairs, same order, every byte. */
  lemma {:induction false} FormRoundTrip(params: seq<(bytes, bytes)>)
    ensures ParseForm(FormOctets(params)) == params
    decreases |params|
  {
    if params != [] {
      PairRoundTrip(params[0]);
      if |params| == 1 {
        ParseFirst(Pair(params[0]), []);
      } else {
        FormFromFront(params);
        ParseFirst(Pair(params[0]), FormOctets(params[1..]));
        FormRoundTrip(params[1..]);
      }
    }
  }

  lemma PercentOne(b: byte)
    ensures Percent([b]) == EncodeByte(b)
  {
    assert [b][..0] == [];
    assert Percent([b]) == Percent([]) + EncodeByte(b);
  }

  lemma PercentTwo(a: byte, b: byte)
    ensures Percent([a, b]) == EncodeByte(a) + EncodeByte(b)
  {
    assert [a, b][..1] == [a];
    PercentOne(a);
    assert Percent([a, b]) == Percent([a]) + EncodeByte(b);
  }

  lemma PairExamples()
    ensures Pair(([0x61], [0x62, 0x20])) == [0x61, 0x3D, 0x62, 0x2B]
    ensures Pair(([0x26], [0xE9])) == [0x25, 0x32, 0x36, 0x3D, 0x25, 0x45, 0x39]
  {
    assert EncodeByte(0x61) == [0x61] && EncodeByte(0x62) == [0x62] && EncodeByte(0x20) == [0x2B];
    assert EncodeByte(0x26) == [0x25, 0x32, 0x36] && EncodeByte(0xE9) == [0x25, 0x45, 0x39];
    hide EncodeByte;
    PercentOne(0x61);
    PercentTwo(0x62, 0x20);
    PercentOne(0x26);
    PercentOne(0xE9);
    hide Percent;
  }

  lemma FormOfTwo(p: (bytes, bytes), q: (bytes, bytes))
    ensures FormOctets([p, q]) == Pair(p) + [0x26] + Pair(q)
  {
    hide Pair;
    assert [p, q][..1] == [p];
  }

  /** What stands for what: `a`=`b `, `&`=0xE9 is `a=b+&%26=%E9`. */
  lemma FormExample()
    ensures FormOctets([([0x61], [0x62, 0x20]), ([0x26], [0xE9])]) ==
            [0x61, 0x3D, 0x62, 0x2B, 0x26, 0x25, 0x32, 0x36, 0x3D, 0x25, 0x45, 0x39]
  {
    hide FormOctets, Pair;
    PairExamples();
    FormOfTwo(([0x61], [0x62, 0x20]), ([0x26], [0xE9]));
  }
}
