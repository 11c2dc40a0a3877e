/**
 HTTP/1.1 chunked bodies (RFC 9112, section 7.1), as the client decodes them: best effort, stopping at the first
 line it cannot read. Offsets are 64-bit `usize`; the addition of a chunk size to an offset can overflow, which the
 original answers with a panic.
*/
module Chunked {
  import opened Bytes

  const CR: byte := 13
  const LF: byte := 10
  const SP: byte := 32
  const SEMI: byte := 0x3B
  const PLUS: byte := 0x2B
  const CRLF: bytes := [CR, LF]

  // ---------------------------------------------------------------- the size line

  /** Start of the first CR LF at or after `pos`. */
  function FindCrlf(raw: bytes, pos: nat): (r: Option<nat>)
    ensures r.Some? ==> pos <= r.value && r.value + 2 <= |raw| && CrlfAt(raw, r.value)
    ensures r.Some? ==> forall k :: pos <= k < r.value ==> !CrlfAt(raw, k)
    ensures r.None? ==> forall k :: pos <= k ==> !CrlfAt(raw, k)
    decreases |raw| - pos
  {
    if pos + 2 > |raw| then None
    else if CrlfAt(raw, pos) then Some(pos)
    else FindCrlf(raw, pos + 1)
  }

  predicate CrlfAt(raw: bytes, k: nat) {
    k + 2 <= |raw| && raw[k] == CR && raw[k + 1] == LF
  }

  /** UTF-8 forms of the characters `str::trim` removes. */
  predicate IsSpace(c: bytes) {
    match |c|
    case 1 => 9 <= c[0] <= 13 || c[0] == SP
    case 2 => c[0] == 0xC2 && (c[1] == 0x85 || c[1] == 0xA0)
    case 3 =>
      || (c[0] == 0xE1 && c[1] == 0x9A && c[2] == 0x80)
      || (c[0] == 0xE2 && c[1] == 0x80 && (0x80 <= c[2] <= 0x8A || c[2] == 0xA8 || c[2] == 0xA9 || c[2] == 0xAF))
      || (c[0] == 0xE2 && c[1] == 0x81 && c[2] == 0x9F)
      || (c[0] == 0xE3 && c[1] == 0x80 && c[2] == 0x80)
    case _ => false
  }

  /** Width of the space character at the front, or 0. */
  function SpaceAtFront(b: bytes): (w: nat)
    ensures w <= |b|
  {
    if |b| >= 1 && IsSpace(b[..1]) then 1
    else if |b| >= 2 && IsSpace(b[..2]) then 2
    else if |b| >= 3 && IsSpace(b[..3]) then 3
    else 0
  }

  function SpaceAtBack(b: bytes): (w: nat)
    ensures w <= |b| && w <= 3 && (w > 0 ==> IsSpace(b[|b| - w..]))
  {
    if |b| >= 1 && IsSpace(b[|b| - 1..]) then 1
    else if |b| >= 2 && IsSpace(b[|b| - 2..]) then 2
    else if |b| >= 3 && IsSpace(b[|b| - 3..]) then 3
    else 0
  }

  function TrimStart(b: bytes): bytes
    decreases |b|
  {
    if SpaceAtFront(b) == 0 then b else TrimStart(b[SpaceAtFront(b)..])
  }

  function TrimEnd(b: bytes): (r: bytes)
    ensures r <= b
    decreases |b|
  {
    if SpaceAtBack(b) == 0 then b else TrimEnd(b[..|b| - SpaceAtBack(b)])
  }

  /** `split(';').next()`. */
  function BeforeSemi(b: bytes): bytes {
    if b == [] || b[0] == SEMI then [] else [b[0]] + BeforeSemi(b[1..])
  }

  predicate HexDigits(b: bytes) {
    forall k :: 0 <= k < |b| ==> HexValue(b[k]).Some?
  }

  function HexNum(b: bytes): nat
    requires HexDigits(b)
  {
    if b == [] then 0 else HexNum(b[..|b| - 1]) * 16 + HexValue(b[|b| - 1]).value
  }

  /** `usize::from_str_radix(_, 16)`: an optional plus sign, at least one digit, no overflow. */
  function FromHex(b: bytes): Option<nat> {
    var digits := if b != [] && b[0] == PLUS then b[1..] else b;
    if digits == [] || !HexDigits(digits) || HexNum(digits) >= U64 then None else Some(HexNum(digits))
  }

  function ParseSize(line: bytes): Option<nat> {
    FromHex(BeforeSemi(TrimEnd(TrimStart(line))))
  }

  // ---------------------------------------------------------------- decoding

  datatype Decoded = Done(body: bytes) | Overflow(body: bytes)

  /** What one turn of the loop finds at `pos`: nothing to go on with, a size too large to add, or data. */
  datatype Head = NoChunk | TooBig | DataAt(start: nat, size: nat)

  function ReadHead(raw: bytes, pos: nat): (h: Head)
    ensures h.DataAt? ==> pos + 2 <= h.start <= |raw| && 0 < h.size && h.start + h.size < U64
  {
    match FindCrlf(raw, pos)
    case None => NoChunk
    case Some(lineEnd) =>
      match ParseSize(raw[pos..lineEnd])
      case None => NoChunk
      case Some(size) =>
        if size == 0 then NoChunk
        else if lineEnd + 2 + size >= U64 then TooBig
        else DataAt(lineEnd + 2, size)
  }

  /** What is decoded from position `pos` on. */
  function DecodeFrom(raw: bytes, pos: nat): Decoded
    decreases |raw| - pos
  {
    match ReadHead(raw, pos)
    case NoChunk => Done([])
    case TooBig => Overflow([])
    case DataAt(start, size) =>
      var end := Min(start + size, |raw|);
      Prepend(raw[start..end], DecodeFrom(raw, end + 2))
  }

  function Prepend(data: bytes, d: Decoded): Decoded {
    match d
    case Done(b) => Done(data + b)
    case Overflow(b) => Overflow(data + b)
  }

  lemma PrependTwice(a: bytes, b: bytes, d: Decoded)
    ensures Prepend(a, Prepend(b, d)) == Prepend(a + b, d)
  {
    assert a + (b + d.body) == a + b + d.body;
  }

  lemma PrependNothing(a: bytes)
    ensures Prepend(a, Done([])) == Done(a) && Prepend(a, Overflow([])) == Overflow(a)
    ensures forall d :: Prepend([], d) == d
  {
    assert a + [] == a;
    forall d
      ensures Prepend([], d) == d
    {
      assert [] + d.body == d.body;
    }
  }

  /** One turn of the loop of `decode_chunked_into`, up to the slice. */
  method NextHead(raw: bytes, pos: nat) returns (h: Head)
    ensures h == ReadHead(raw, pos)
  {
    var found := FindCrlf(raw, pos);
    if found.None? { return NoChunk; }
    var lineEnd := found.value;
    var size := ParseSize(raw[pos..lineEnd]);
    if size.None? { return NoChunk; }
    if size.value == 0 { return NoChunk; }
    var dataStart := lineEnd + 2;
    if dataStart + size.value >= U64 { return TooBig; }
    return DataAt(dataStart, size.value);
  }

  /** `decode_chunked_into` an empty buffer. */
  method DecodeChunked(raw: bytes) returns (r: Decoded)
    ensures r == DecodeFrom(raw, 0)
  {
    hide ReadHead, Prepend;
    var pos, out := 0, [];
    PrependNothing(out);
    while pos < |raw|
      invariant Prepend(out, DecodeFrom(raw, pos)) == DecodeFrom(raw, 0)
      decreases |raw| - pos
    {
      PrependNothing(out);
      var head := NextHead(raw, pos);
      if head.NoChunk? { return Done(out); }
      if head.TooBig? { return Overflow(out); }
      var dataEnd := Min(head.start + head.size, |raw|);
      PrependTwice(out, raw[head.start..dataEnd], DecodeFrom(raw, dataEnd + 2));
      out := out + raw[head.start..dataEnd];
      pos := dataEnd + 2;
    }
    PastEnd(raw, pos);
    PrependNothing(out);
    return Done(out);
  }

  lemma PastEnd(raw: bytes, pos: nat)
    requires pos >= |raw|
    ensures DecodeFrom(raw, pos) == Done([])
  {
  }

  // ---------------------------------------------------------------- truncation

  lemma {:induction false} FindCrlfCut(raw: bytes, pos: nat, k: nat)
    requires k <= |raw|
    ensures FindCrlf(raw[..k], pos).Some? ==> FindCrlf(raw, pos) == FindCrlf(raw[..k], pos)
    decreases |raw| - pos
  {
    if pos + 2 <= k && !CrlfAt(raw, pos) {
      FindCrlfCut(raw, pos + 1, k);
    }
  }

  lemma ReadHeadCut(raw: bytes, pos: nat, k: nat)
    requires k <= |raw|
    ensures !ReadHead(raw[..k], pos).NoChunk? ==> ReadHead(raw[..k], pos) == ReadHead(raw, pos)
  {
    hide ParseSize;
    FindCrlfCut(raw, pos, k);
    var found := FindCrlf(raw[..k], pos);
    if found.Some? { assert raw[..k][pos..found.value] == raw[pos..found.value]; }
  }

  lemma DecodeData(raw: bytes, pos: nat, head: Head, end: nat)
    requires ReadHead(raw, pos) == head && head.DataAt? && end == Min(head.start + head.size, |raw|)
    ensures DecodeFrom(raw, pos).body == raw[head.start..end] + DecodeFrom(raw, end + 2).body
  {
    hide ReadHead;
    assert DecodeFrom(raw, pos) == Prepend(raw[head.start..end], DecodeFrom(raw, end + 2));
  }

  lemma NoDataNoBody(raw: bytes, pos: nat)
    requires !ReadHead(raw, pos).DataAt?
    ensures DecodeFrom(raw, pos).body == []
  {
  }

  lemma PrefixStep(data: bytes, x: bytes, y: bytes)
    requires x <= y
    ensures data + x <= data + y
  {
  }

  lemma CutSame(raw: bytes, start: nat, end: nat, k: nat)
    requires start <= end <= k <= |raw|
    ensures raw[..k][start..end] == raw[start..end]
  {
  }

  lemma CutSlice(raw: bytes, start: nat, end: nat, k: nat, more: bytes)
    requires start <= k < end <= |raw|
    ensures raw[..k][start..k] + [] <= raw[start..end] + more
  {
  }

  /** Any truncation of any input decodes to a prefix of what the whole input decodes to. */
  lemma {:induction false} TruncationIsPrefix(raw: bytes, pos: nat, k: nat)
    requires k <= |raw|
    ensures DecodeFrom(raw[..k], pos).body <= DecodeFrom(raw, pos).body
    decreases |raw| - pos
  {
    hide ReadHead, DecodeFrom;
    var cut := raw[..k];
    ReadHeadCut(raw, pos, k);
    var head := ReadHead(cut, pos);
    if head.DataAt? {
      var end := Min(head.start + head.size, |raw|);
      DecodeData(raw, pos, head, end);
      DecodeData(cut, pos, head, Min(end, k));
      if end <= k {
        TruncationIsPrefix(raw, end + 2, k);
        CutSame(raw, head.start, end, k);
        PrefixStep(raw[head.start..end], DecodeFrom(cut, end + 2).body, DecodeFrom(raw, end + 2).body);
      } else {
        PastEnd(cut, k + 2);
        CutSlice(raw, head.start, end, k, DecodeFrom(raw, end + 2).body);
      }
    } else {
      NoDataNoBody(cut, pos);
    }
  }

  // ---------------------------------------------------------------- well-formed bodies

  /** The hexadecimal digit for a value below 16, in either case. */
  predicate DigitFor(b: byte, v: nat) {
    v < 16 && (b == "0123456789abcdef"[v] as int || b == "0123456789ABCDEF"[v] as int)
  }

  /** Hexadecimal digits of `n`, leading zeros and mixed cases allowed. */
  predicate Writes(digits: bytes, n: nat) {
    if digits == [] then n == 0
    else DigitFor(digits[|digits| - 1], n % 16) && Writes(digits[..|digits| - 1], n / 16)
  }

  lemma DigitHasValue(b: byte, v: nat)
    requires DigitFor(b, v)
    ensures HexValue(b) == Some(v)
  {
  }

  lemma {:induction false} WritesNum(digits: bytes, n: nat)
    requires Writes(digits, n)
    ensures HexDigits(digits) && HexNum(digits) == n
  {
    if digits != [] {
      hide HexValue, DigitFor;
      DigitHasValue(digits[|digits| - 1], n % 16);
      WritesNum(digits[..|digits| - 1], n / 16);
    }
  }

  /** One chunk in the form of RFC 9112: 1*HEXDIG of the right value, then nothing or an extension. */
  datatype Chunk = Chunk(digits: bytes, bws: bytes, ext: bytes, data: bytes)

  predicate Blank(b: bytes) { forall k :: 0 <= k < |b| ==> b[k] == SP || b[k] == 9 }

  function Line(c: Chunk): bytes { c.digits + c.bws + c.ext }

  ghost predicate NoCrlf(b: bytes) { forall k :: !CrlfAt(b, k) }

  ghost predicate WellFormed(c: Chunk) {
    && c.data != [] && |c.data| < U64
    && c.digits != [] && Writes(c.digits, |c.data|)
    && Blank(c.bws) && (c.ext == [] || c.ext[0] == SEMI)
    && NoCrlf(Line(c))
  }

  /** Blanks before an extension's semicolon are the one RFC form the decoder cannot read. */
  predicate Readable(c: Chunk) { c.bws == [] || c.ext == [] }

  lemma SpaceBytes(c: bytes, k: nat)
    requires IsSpace(c) && k < |c|
    ensures c[k] != SEMI
  {
  }

  lemma SpaceHasNoSemi(b: bytes, at: nat)
    requires at < |b| && b[at] == SEMI
    ensures SpaceAtBack(b) < |b| - at
  {
    var w := SpaceAtBack(b);
    hide IsSpace, SpaceAtBack;
    if |b| - at <= w {
      SpaceBytes(b[|b| - w..], at - (|b| - w));
    }
  }

  lemma {:induction false} TrimEndKeepsSemi(a: bytes, x: bytes)
    ensures a + [SEMI] <= TrimEnd(a + [SEMI] + x)
    decreases |x|
  {
    var b := a + [SEMI] + x;
    var w := SpaceAtBack(b);
    if w > 0 {
      assert b[|a|] == SEMI;
      assert w <= |x| by { SpaceHasNoSemi(b, |a|); }
      assert b[..|b| - w] == a + [SEMI] + x[..|x| - w];
      TrimEndKeepsSemi(a, x[..|x| - w]);
    }
  }

  lemma SpaceLast(b: bytes, w: nat)
    requires 0 < w <= |b| && IsSpace(b[|b| - w..])
    ensures HexValue(b[|b| - 1]).None?
  {
    assert b[|b| - w..][w - 1] == b[|b| - 1];
  }

  lemma DigitIsNoSpace(a: bytes)
    requires a != [] && HexValue(a[|a| - 1]).Some?
    ensures SpaceAtBack(a) == 0
  {
    hide IsSpace, HexValue;
    if SpaceAtBack(a) > 0 { SpaceLast(a, SpaceAtBack(a)); }
  }

  lemma {:induction false} TrimEndBlanks(a: bytes, bws: bytes)
    requires a != [] && HexValue(a[|a| - 1]).Some? && Blank(bws)
    ensures TrimEnd(a + bws) == a
    decreases |bws|
  {
    var b := a + bws;
    if bws == [] {
      assert b == a;
      hide SpaceAtBack;
      DigitIsNoSpace(a);
    } else {
      assert b[|b| - 1..] == [bws[|bws| - 1]];
      assert SpaceAtBack(b) == 1;
      assert b[..|b| - 1] == a + bws[..|bws| - 1];
      TrimEndBlanks(a, bws[..|bws| - 1]);
    }
  }

  lemma {:induction false} BeforeSemiAt(a: bytes, x: bytes)
    requires SEMI !in a && (x == [] || x[0] == SEMI)
    ensures BeforeSemi(a + x) == a
    decreases |a|
  {
    if a == [] {
      assert a + x == x;
    } else {
      assert (a + x)[1..] == a[1..] + x;
      BeforeSemiAt(a[1..], x);
    }
  }

  lemma DigitsAreNotSpecial(digits: bytes)
    requires HexDigits(digits)
    ensures forall b :: b in digits ==> b != SEMI && b != PLUS && b != SP && b != 9
  {
  }

  lemma FrontIsDigit(digits: bytes, rest: bytes)
    requires digits != [] && HexDigits(digits)
    ensures TrimStart(digits + rest) == digits + rest
  {
    var b := digits + rest;
    assert b[0] == digits[0] && HexValue(digits[0]).Some?;
    assert b[..1][0] == b[0];
    assert |b| >= 2 ==> b[..2][0] == b[0];
    assert |b| >= 3 ==> b[..3][0] == b[0];
  }

  /** The line of a chunk or a last chunk: digits, blanks, and nothing or an extension. */
  predicate SizeLineForm(digits: bytes, bws: bytes, ext: bytes) {
    digits != [] && HexDigits(digits) && HexNum(digits) < U64 && Blank(bws) && (ext == [] || ext[0] == SEMI)
  }

  /** Such a line is read correctly exactly when no blank precedes an extension. */
  lemma SizeOfLine(digits: bytes, bws: bytes, ext: bytes)
    requires SizeLineForm(digits, bws, ext)
    ensures ParseSize(digits + bws + ext) == if bws == [] || ext == [] then Some(HexNum(digits)) else None
  {
    hide TrimStart, TrimEnd, BeforeSemi, SpaceAtFront, SpaceAtBack, HexNum;
    var line := digits + bws + ext;
    assert line == digits + (bws + ext);
    FrontIsDigit(digits, bws + ext);
    DigitsAreNotSpecial(digits);
    if ext == [] {
      assert line == digits + bws;
      TrimEndBlanks(digits, bws);
      BeforeSemiAt(digits, []);
      assert digits + [] == digits;
    } else {
      var a := digits + bws;
      assert line == a + [SEMI] + ext[1..];
      TrimEndKeepsSemi(a, ext[1..]);
      var t := TrimEnd(line);
      var x := t[|a|..];
      assert t == a + x && x[0] == SEMI by { assert t[|a|] == (a + [SEMI])[|a|]; }
      BeforeSemiAt(a, x);
      SizeOfPadded(digits, bws);
    }
  }

  /** The size line of a well-formed chunk is read correctly exactly when no blank precedes an extension. */
  lemma SizeLine(c: Chunk)
    requires WellFormed(c)
    ensures ParseSize(Line(c)) == if Readable(c) then Some(|c.data|) else None
  {
    hide ParseSize, HexNum, HexDigits, Writes;
    WritesNum(c.digits, |c.data|);
    SizeOfLine(c.digits, c.bws, c.ext);
  }

  lemma SizeOfPadded(digits: bytes, bws: bytes)
    requires digits != [] && HexDigits(digits) && Blank(bws) && HexNum(digits) < U64
    ensures FromHex(digits + bws) == if bws == [] then Some(HexNum(digits)) else None
  {
    var b := digits + bws;
    assert b[0] == digits[0];
    if bws == [] {
      assert b == digits;
    } else {
      assert b[|digits|] == bws[0] && HexValue(bws[0]).None?;
    }
  }

  lemma {:induction false} TrimStartBlanks(front: bytes, b: bytes)
    requires Blank(front) && (b == [] || HexValue(b[0]).Some? || b[0] == PLUS)
    ensures TrimStart(front + b) == b
    decreases |front|
  {
    if front == [] {
      assert front + b == b;
      if b != [] {
        assert b[..1][0] == b[0];
        assert |b| >= 2 ==> b[..2][0] == b[0];
        assert |b| >= 3 ==> b[..3][0] == b[0];
      }
    } else {
      assert (front + b)[..1] == [front[0]] && (front + b)[1..] == front[1..] + b;
      TrimStartBlanks(front[1..], b);
    }
  }

  /** The decoder is more lenient than the RFC: blanks around the digits, and a plus sign before them. */
  lemma LenientSize(front: bytes, plus: bool, digits: bytes, back: bytes, n: nat)
    requires Blank(front) && Blank(back) && digits != [] && Writes(digits, n) && n < U64
    ensures ParseSize(front + ((if plus then [0x2B] else []) + digits) + back) == Some(n)
  {
    hide TrimStart, TrimEnd, BeforeSemi, SpaceAtFront, SpaceAtBack, HexNum, Writes;
    WritesNum(digits, n);
    DigitsAreNotSpecial(digits);
    var sign: bytes := if plus then [0x2B] else [];
    var a := sign + digits;
    assert a[|a| - 1] == digits[|digits| - 1];
    assert front + a + back == front + (a + back);
    TrimStartBlanks(front, a + back);
    TrimEndBlanks(a, back);
    BeforeSemiAt(a, []);
    assert a + [] == a;
    if plus { assert a[1..] == digits; } else { assert a == digits; }
  }

  function Octets(c: Chunk): bytes { Line(c) + CRLF + c.data + CRLF }

  function Encode(chunks: seq<Chunk>): bytes {
    if chunks == [] then [] else Octets(chunks[0]) + Encode(chunks[1..])
  }

  function Body(chunks: seq<Chunk>): bytes {
    if chunks == [] then [] else chunks[0].data + Body(chunks[1..])
  }

  lemma {:induction false} FindCrlfIs(raw: bytes, pos: nat, at: nat)
    requires pos <= at && CrlfAt(raw, at) && forall k :: pos <= k < at ==> !CrlfAt(raw, k)
    ensures FindCrlf(raw, pos) == Some(at)
    decreases at - pos
  {
    if pos < at { FindCrlfIs(raw, pos + 1, at); }
  }

  /** A line without CR LF inside ends at the CR LF that follows it. */
  lemma LineEnds(raw: bytes, pos: nat, line: bytes)
    requires At(raw, pos, line) && At(raw, pos + |line|, CRLF) && NoCrlf(line)
    ensures FindCrlf(raw, pos) == Some(pos + |line|)
  {
    var at := pos + |line|;
    assert raw[at..at + 2][0] == CR && raw[at..at + 2][1] == LF;
    forall k | pos <= k < at
      ensures !CrlfAt(raw, k)
    {
      var j := k - pos;
      assert raw[pos..pos + |line|][j] == raw[k];
      assert !CrlfAt(line, j);
      if j + 1 < |line| { assert raw[pos..pos + |line|][j + 1] == raw[k + 1]; }
    }
    FindCrlfIs(raw, pos, at);
  }

  /** One chunk, with anything before and after it. */
  lemma OneChunk(raw: bytes, pos: nat, c: Chunk)
    requires WellFormed(c) && At(raw, pos, Octets(c)) && |raw| < U64
    ensures DecodeFrom(raw, pos) ==
            if Readable(c) then Prepend(c.data, DecodeFrom(raw, pos + |Octets(c)|)) else Done([])
  {
    hide FindCrlf, ParseSize, At, DecodeFrom;
    var line := Line(c);
    AtParts(raw, pos, line + CRLF + c.data, CRLF);
    AtParts(raw, pos, line + CRLF, c.data);
    AtParts(raw, pos, line, CRLF);
    LineEnds(raw, pos, line);
    SizeLine(c);
    OneHead(raw, pos, line, c.data, if Readable(c) then Some(|c.data|) else None);
  }

  lemma OneHead(raw: bytes, pos: nat, line: bytes, data: bytes, size: Option<nat>)
    requires At(raw, pos, line) && At(raw, pos + |line| + 2, data) && data != [] && |raw| < U64
    requires FindCrlf(raw, pos) == Some(pos + |line|) && ParseSize(line) == size
    requires size.Some? ==> size.value == |data|
    ensures DecodeFrom(raw, pos) ==
            if size.Some? then Prepend(data, DecodeFrom(raw, pos + |line| + 2 + |data| + 2)) else Done([])
  {
    hide FindCrlf, ParseSize;
    assert raw[pos..pos + |line|] == line;
    var start := pos + |line| + 2;
    if size.Some? {
      assert ReadHead(raw, pos) == DataAt(start, |data|);
      assert Min(start + |data|, |raw|) == start + |data|;
    }
  }

  /** The chunks up to the first one the decoder cannot read. */
  function ReadableFront(chunks: seq<Chunk>): seq<Chunk> {
    if chunks == [] || !Readable(chunks[0]) then [] else [chunks[0]] + ReadableFront(chunks[1..])
  }

  lemma {:induction false} ReadableFrontIs(chunks: seq<Chunk>)
    ensures var r := ReadableFront(chunks);
            && r <= chunks && (forall c :: c in r ==> Readable(c)) && (|r| < |chunks| ==> !Readable(chunks[|r|]))
            && (r == chunks <==> forall c :: c in chunks ==> Readable(c))
  {
    if chunks != [] && Readable(chunks[0]) { ReadableFrontIs(chunks[1..]); }
  }

  /**
   Well-formed chunks decode to the data of the readable ones in front; the decoder goes on if that is all of them.
  */
  lemma {:induction false} DecodesChunks(raw: bytes, pos: nat, chunks: seq<Chunk>)
    requires forall c :: c in chunks ==> WellFormed(c)
    requires At(raw, pos, Encode(chunks)) && |raw| < U64
    ensures var front := ReadableFront(chunks);
            DecodeFrom(raw, pos) ==
            Prepend(Body(front), if front == chunks then DecodeFrom(raw, pos + |Encode(chunks)|) else Done([]))
    decreases |chunks|
  {
    hide DecodeFrom, WellFormed, Octets, Prepend, At, Readable;
    PrependNothing([]);
    if chunks != [] {
      var c, rest := chunks[0], chunks[1..];
      FirstChunk(chunks);
      hide Body, ReadableFront, Encode;
      AtParts(raw, pos, Octets(c), Encode(rest));
      OneChunk(raw, pos, c);
      if Readable(c) {
        DecodesChunks(raw, pos + |Octets(c)|, rest);
        var tail := if ReadableFront(rest) == rest then DecodeFrom(raw, pos + |Encode(chunks)|) else Done([]);
        PrependTwice(c.data, Body(ReadableFront(rest)), tail);
      }
    }
  }

  lemma FirstChunk(chunks: seq<Chunk>)
    requires chunks != []
    ensures var c, rest := chunks[0], chunks[1..];
            && Encode(chunks) == Octets(c) + Encode(rest)
            && (!Readable(c) ==> Body(ReadableFront(chunks)) == [] && ReadableFront(chunks) != chunks)
            && (Readable(c) ==>
                  && Body(ReadableFront(chunks)) == c.data + Body(ReadableFront(rest))
                  && (ReadableFront(chunks) == chunks <==> ReadableFront(rest) == rest))
  {
    hide Octets, Readable;
    var c, rest := chunks[0], chunks[1..];
    var front := ReadableFront(rest);
    assert ([c] + front)[1..] == front && chunks == [c] + rest;
  }

  /** The chunk that ends a message: 1*("0"), with blanks and an extension as any chunk may have. */
  datatype LastChunk = LastChunk(zeros: bytes, bws: bytes, ext: bytes)

  function LastLine(l: LastChunk): bytes { l.zeros + l.bws + l.ext }

  ghost predicate EndsMessage(l: LastChunk) {
    && l.zeros != [] && (forall k :: 0 <= k < |l.zeros| ==> l.zeros[k] == 0x30)
    && Blank(l.bws) && (l.ext == [] || l.ext[0] == SEMI)
    && NoCrlf(LastLine(l))
  }

  lemma {:induction false} ZerosAreZero(zeros: bytes)
    requires forall k :: 0 <= k < |zeros| ==> zeros[k] == 0x30
    ensures HexDigits(zeros) && HexNum(zeros) == 0
  {
    if zeros != [] { ZerosAreZero(zeros[..|zeros| - 1]); }
  }

  /** Read or not, a last chunk makes the decoder stop. */
  lemma LastChunkStops(raw: bytes, pos: nat, l: LastChunk)
    requires EndsMessage(l) && At(raw, pos, LastLine(l)) && At(raw, pos + |LastLine(l)|, CRLF)
    ensures DecodeFrom(raw, pos) == Done([])
  {
    hide FindCrlf, ParseSize, At, HexNum;
    ZerosAreZero(l.zeros);
    SizeOfLine(l.zeros, l.bws, l.ext);
    AtSlice(raw, pos, LastLine(l));
    LineEnds(raw, pos, LastLine(l));
    assert ReadHead(raw, pos) == NoChunk;
  }

  /**
   A complete message, with its last chunk and any trailer, always decodes to the data of the chunks before the first
   unreadable one; so to the whole body exactly when every chunk is readable.
  */
  lemma DecodesMessage(chunks: seq<Chunk>, last: LastChunk, trailer: bytes)
    requires (forall c :: c in chunks ==> WellFormed(c)) && EndsMessage(last)
    requires |Encode(chunks)| + (|LastLine(last)| + 2 + |trailer|) < U64
    ensures var raw := Encode(chunks) + (LastLine(last) + CRLF + trailer);
            && DecodeFrom(raw, 0) == Done(Body(ReadableFront(chunks)))
            && (DecodeFrom(raw, 0) == Done(Body(chunks)) <==> forall c :: c in chunks ==> Readable(c))
  {
    hide WellFormed, Readable, Encode, At, DecodeFrom, EndsMessage, LastLine, ReadableFront;
    var e, line := Encode(chunks), LastLine(last);
    var raw := e + (line + CRLF + trailer);
    MessageParts(e, line, trailer);
    DecodesChunks(raw, 0, chunks);
    LastChunkStops(raw, |e|, last);
    ReadableFrontIs(chunks);
    var front := ReadableFront(chunks);
    PrependNothing(Body(front));
    if front != chunks {
      assert chunks[..|front|] == front && |front| < |chunks|;
      BodyShorter(chunks, |front|);
    }
  }

  /** Well-formed chunks carry data, so leaving some out shows. */
  lemma {:induction false} BodyShorter(chunks: seq<Chunk>, n: nat)
    requires n < |chunks| && forall c :: c in chunks ==> WellFormed(c)
    ensures |Body(chunks[..n])| < |Body(chunks)|
  {
    hide Writes, Blank, NoCrlf;
    assert chunks[0] in chunks && WellFormed(chunks[0]);
    if n > 0 {
      assert chunks[..n][1..] == chunks[1..][..n - 1];
      BodyShorter(chunks[1..], n - 1);
    }
  }

  lemma MessageParts(e: bytes, line: bytes, trailer: bytes)
    ensures var raw := e + (line + CRLF + trailer); At(raw, 0, e) && At(raw, |e|, line) && At(raw, |e| + |line|, CRLF)
  {
    hide At;
    var end := line + CRLF + trailer;
    AtAll(e + end);
    AtParts(e + end, 0, e, end);
    AtParts(e + end, |e|, line + CRLF, trailer);
    AtParts(e + end, |e|, line, CRLF);
  }

  lemma AtAll(raw: bytes)
    ensures At(raw, 0, raw)
  {
  }

  lemma AtSlice(raw: bytes, pos: nat, part: bytes)
    requires At(raw, pos, part)
    ensures pos + |part| <= |raw| && raw[pos..pos + |part|] == part
  {
  }

  /** The RFC form the decoder does not follow: `3 ;x` ends the body, although the chunk is well-formed. */
  lemma BlankBeforeExtensionStops()
    ensures exists c: Chunk :: WellFormed(c) && DecodeFrom(Octets(c), 0) == Done([])
  {
    var c := Chunk([0x33], [SP], [SEMI, 0x78], [1, 2, 3]);
    assert Writes(c.digits[..0], 0) && DigitFor(0x33, 3) && Writes(c.digits, 3);
    assert Line(c) == [0x33, SP, SEMI, 0x78];
    assert WellFormed(c);
    assert At(Octets(c), 0, Octets(c));
    OneChunk(Octets(c), 0, c);
  }

  /** In octets: `3;x` CRLF `abc` CRLF, `0` CRLF CRLF is `abc`. */
  lemma MessageExample()
    ensures DecodeFrom([0x33, 0x3B, 0x78, 13, 10, 0x61, 0x62, 0x63, 13, 10] + [0x30, 13, 10, 13, 10], 0)
         == Done([0x61, 0x62, 0x63])
  {
    var c, last := Chunk([0x33], [], [0x3B, 0x78], [0x61, 0x62, 0x63]), LastChunk([0x30], [], []);
    assert Writes(c.digits[..0], 0) && DigitFor(0x33, 3) && Writes(c.digits, 3);
    assert Line(c) == [0x33, 0x3B, 0x78] && WellFormed(c);
    assert LastLine(last) == [0x30] && EndsMessage(last);
    assert [c][1..] == [] && Encode([c]) == Octets(c) + Encode([]);
    assert Encode([c]) == [0x33, 0x3B, 0x78, 13, 10, 0x61, 0x62, 0x63, 13, 10];
    assert LastLine(last) + CRLF + [13, 10] == [0x30, 13, 10, 13, 10];
    assert Body([c]) == c.data + Body([]) && c.data + [] == c.data;
    hide Encode, Body, DecodeFrom, WellFormed, EndsMessage;
    DecodesMessage([c], last, [13, 10]);
  }
}
