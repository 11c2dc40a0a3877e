/** Byte strings, big-endian words, and the few sequence facts the wire formats share. */
module Bytes {

  type byte = x: int | 0 <= x < 256

  type bytes = seq<byte>

  datatype Option<+T> = None | Some(value: T)

  const U32: int := 0x1_0000_0000
  const U64: int := 0x1_0000_0000_0000_0000

  /** `u32::to_be_bytes`. */
  function BE4(n: nat): (b: bytes)
    requires n < U32
    ensures |b| == 4
  {
    [n / 0x100_0000, n / 0x1_0000 % 0x100, n / 0x100 % 0x100, n % 0x100]
  }

  /** `u32::from_be_bytes` on the first four bytes. */
  function Val4(b: bytes): (n: nat)
    requires |b| >= 4
    ensures n < U32
  {
    var (b0: int, b1: int, b2: int, b3: int) := (b[0], b[1], b[2], b[3]);
    ((b0 * 0x100 + b1) * 0x100 + b2) * 0x100 + b3
  }

  lemma BE4Val4(n: nat, tail: bytes)
    requires n < U32
    ensures Val4(BE4(n) + tail) == n
  {
    var hi, mid := n / 0x1_0000, n / 0x100;
    assert mid == hi * 0x100 + mid % 0x100 by { assert mid / 0x100 == hi; }
    assert hi == n / 0x100_0000 * 0x100 + hi % 0x100 by { assert hi / 0x100 == n / 0x100_0000; }
  }

  /** Most significant byte first. */
  lemma BE4Example()
    ensures BE4(0x0102_0304) == [1, 2, 3, 4] && forall tail: bytes :: Val4([1, 2, 3, 4] + tail) == 0x0102_0304
  {
  }

  lemma BE4Injective(m: nat, n: nat)
    requires m < U32 && n < U32
    requires BE4(m) == BE4(n)
    ensures m == n
  {
    BE4Val4(m, []);
    BE4Val4(n, []);
    assert BE4(m) + [] == BE4(n) + [];
  }

  function Flatten(parts: seq<bytes>): bytes {
    if parts == [] then [] else parts[0] + Flatten(parts[1..])
  }

  lemma {:induction false} FlattenAppend(a: seq<bytes>, b: seq<bytes>)
    ensures Flatten(a + b) == Flatten(a) + Flatten(b)
  {
    if a == [] {
      assert a + b == b;
    } else {
      assert (a + b)[1..] == a[1..] + b;
      calc {
        Flatten(a + b);
        a[0] + Flatten(a[1..] + b);
        { FlattenAppend(a[1..], b); }
        a[0] + (Flatten(a[1..]) + Flatten(b));
        (a[0] + Flatten(a[1..])) + Flatten(b);
      }
    }
  }

  lemma FlattenSnoc(a: seq<bytes>, x: bytes)
    ensures Flatten(a + [x]) == Flatten(a) + x
  {
    FlattenAppend(a, [x]);
    assert Flatten([x]) == x + Flatten([]);
  }

  lemma FlattenPrefix(a: seq<bytes>, b: seq<bytes>)
    requires a <= b
    ensures Flatten(a) <= Flatten(b)
  {
    assert b == a + b[|a|..];
    FlattenAppend(a, b[|a|..]);
  }

  /** `slice::chunks(size)`: every piece has `size` bytes except possibly the last. */
  function Chunks(data: bytes, size: nat): (pieces: seq<bytes>)
    requires size > 0
    ensures Flatten(pieces) == data
    ensures forall c :: c in pieces ==> 0 < |c| <= size
    decreases |data|
  {
    if data == [] then []
    else if |data| <= size then
      assert Flatten([data]) == data + Flatten([]);
      [data]
    else
      var rest := Chunks(data[size..], size);
      assert ([data[..size]] + rest)[1..] == rest;
      [data[..size]] + rest
  }

  /** All pieces but the last are full. */
  lemma {:induction false} ChunksFull(data: bytes, size: nat, k: nat)
    requires size > 0 && k + 1 < |Chunks(data, size)|
    ensures |Chunks(data, size)[k]| == size
    decreases |data|
  {
    if k > 0 { ChunksFull(data[size..], size, k - 1); }
  }

  lemma ConcatAssoc<T>(a: seq<T>, b: seq<T>, c: seq<T>)
    ensures a + b + c == a + (b + c)
  {
  }

  lemma DropAppend(a: bytes, b: bytes, n: nat)
    requires n <= |a|
    ensures (a + b)[n..] == a[n..] + b
  {
  }

  lemma CutAt(a: bytes, from: nat, at: nat)
    requires from <= at <= |a|
    ensures a[from..] == a[from..at] + a[at..]
  {
  }

  /** The value of a hexadecimal digit, of either case. */
  function HexValue(b: byte): Option<nat> {
    if 0x30 <= b <= 0x39 then Some(b - 0x30)
    else if 0x41 <= b <= 0x46 then Some(b - 0x41 + 10)
    else if 0x61 <= b <= 0x66 then Some(b - 0x61 + 10)
    else None
  }

  /** `part` stands in `raw` at `pos`. */
  ghost predicate At(raw: bytes, pos: nat, part: bytes) {
    pos + |part| <= |raw| && raw[pos..pos + |part|] == part
  }

  lemma AtParts(raw: bytes, pos: nat, a: bytes, b: bytes)
    requires At(raw, pos, a + b)
    ensures At(raw, pos, a) && At(raw, pos + |a|, b)
  {
    assert (a + b)[..|a|] == a && (a + b)[|a|..] == b;
    assert raw[pos..pos + |a + b|][..|a|] == raw[pos..pos + |a|];
    assert raw[pos..pos + |a + b|][|a|..] == raw[pos + |a|..pos + |a| + |b|];
  }

  predicate NoDups(ids: seq<nat>) {
    forall j, k :: 0 <= j < k < |ids| ==> ids[j] != ids[k]
  }

  function Min(a: int, b: int): int { if a <= b then a else b }
}
