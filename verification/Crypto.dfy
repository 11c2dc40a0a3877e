/**
 The two foreign algorithms, AES-256-GCM (ring) and raw snappy (snap), as function values with the laws
 the streams rely on, and the payload formats built from them. Each law set has a concrete model.
*/
module Crypto {
  import opened Bytes
  import opened Framing

  // ---------------------------------------------------------------- AES-256-GCM records

  const MAX_PLAINTEXT_RECORD: int := 16 * 1024
  const NONCE_LEN: int := 12
  const NONCE_PREFIX_LEN: int := 8
  const TAG_LEN: int := 16
  const KEY_LEN: int := 32
  const MIN_PAYLOAD: int := NONCE_LEN + TAG_LEN
  const MAX_PAYLOAD: int := NONCE_LEN + MAX_PLAINTEXT_RECORD + TAG_LEN

  /** `seal(key, nonce, plain)` is ciphertext with the tag appended; `open` may reject. */
  datatype Cipher = Cipher(seal: (bytes, bytes, bytes) -> bytes, open: (bytes, bytes, bytes) -> Option<bytes>)

  ghost predicate GcmLaws(c: Cipher) {
    forall k: bytes, n: bytes, p: bytes :: SealOpens(c, k, n, p)
  }

  ghost predicate SealOpens(c: Cipher, k: bytes, n: bytes, p: bytes) {
    |c.seal(k, n, p)| == |p| + TAG_LEN && c.open(k, n, c.seal(k, n, p)) == Some(p)
  }

  /** 8-byte session prefix, 4-byte big-endian counter (the source's `as u32`). */
  function Nonce(prefix: bytes, i: nat): bytes { prefix + BE4(i % U32) }

  function GcmSealer(c: Cipher, key: bytes, prefix: bytes): Sealer<bytes> {
    Sealer((p: bytes) => 0 < |p| <= MAX_PLAINTEXT_RECORD,
           (i: nat, p: bytes) => Nonce(prefix, i) + c.seal(key, Nonce(prefix, i), p))
  }

  /** The receiver takes the nonce from the frame and ignores its layout. */
  function GcmOpener(c: Cipher, key: bytes): Opener<bytes> {
    Opener(MIN_PAYLOAD, MAX_PAYLOAD,
           (p: bytes) => if |p| < NONCE_LEN then None else c.open(key, p[..NONCE_LEN], p[NONCE_LEN..]))
  }

  /** Every record the sender can produce passes the length check and opens to its plaintext under the same key. */
  lemma GcmMatches(c: Cipher, key: bytes, prefix: bytes)
    requires GcmLaws(c) && |prefix| == NONCE_PREFIX_LEN
    ensures Matches(GcmSealer(c, key, prefix), GcmOpener(c, key))
  {
    var s, o := GcmSealer(c, key, prefix), GcmOpener(c, key);
    forall i: nat, p: bytes | s.fits(p)
      ensures Undoes(s, o, i, p)
    {
      var n := Nonce(prefix, i);
      assert SealOpens(c, key, n, p);
      var w := n + c.seal(key, n, p);
      assert w[..NONCE_LEN] == n && w[NONCE_LEN..] == c.seal(key, n, p);
    }
  }

  /**
   What the receiver of sealed records rejects: lengths that no record of 1 to 16384 bytes with a 12-byte nonce and a
   16-byte tag can have (one byte short of the smallest is let through to the cipher), and what does not open.
  */
  lemma GcmRejects(c: Cipher, key: bytes, rx: bytes)
    requires |rx| >= 4
    ensures NextFrame(GcmOpener(c, key), rx).Bad? <==>
            var len := Val4(rx);
            || len < 28 || len > 16412
            || (|rx| >= 4 + len && c.open(key, rx[4..16], rx[16..4 + len]).None?)
  {
    var len := Val4(rx);
    if 28 <= len <= 16412 && |rx| >= 4 + len {
      var p := rx[4..4 + len];
      assert p[..12] == rx[4..16] && p[12..] == rx[16..4 + len];
    }
  }

  /** Nonces of one stream never repeat below the counter limit. */
  lemma NonceDistinct(prefix: bytes, i: nat, j: nat)
    requires i < U32 && j < U32
    requires Nonce(prefix, i) == Nonce(prefix, j)
    ensures i == j
  {
    hide BE4;
    var m, n := i % U32, j % U32;
    assert BE4(m) == BE4(n) by {
      assert (prefix + BE4(m))[|prefix|..] == BE4(m);
      assert (prefix + BE4(n))[|prefix|..] == BE4(n);
    }
    BE4Injective(m, n);
  }

  /** The bound is exact: the record after the last one would reuse the first nonce. */
  lemma NonceWraps(prefix: bytes)
    ensures Nonce(prefix, U32) == Nonce(prefix, 0)
  {
  }

  function Zeros(n: nat): (z: bytes)
    ensures |z| == n
  {
    seq(n, i => 0)
  }

  /** A cipher that appends a constant tag: the laws are satisfiable. */
  lemma GcmLawsConsistent()
    ensures exists c: Cipher :: GcmLaws(c)
  {
    var c := Cipher((k: bytes, n: bytes, p: bytes) => p + Zeros(TAG_LEN),
                    (k: bytes, n: bytes, x: bytes) => if |x| < TAG_LEN then None else Some(x[..|x| - TAG_LEN]));
    forall k: bytes, n: bytes, p: bytes
      ensures SealOpens(c, k, n, p)
    {
      assert (p + Zeros(TAG_LEN))[..|p|] == p;
    }
    assert GcmLaws(c);
  }

  // ---------------------------------------------------------------- snappy blocks

  const MAX_BLOCK: int := 32 * 1024

  /** `maxLen` is `snap::raw::max_compress_len`. */
  datatype Snappy = Snappy(compress: bytes -> bytes, decompress: bytes -> Option<bytes>, maxLen: nat -> nat)

  /** Only blocks the stream makes, at most MAX_BLOCK bytes long, are concerned. */
  ghost predicate SnappyLaws(z: Snappy) {
    && z.maxLen(MAX_BLOCK) < U32
    && (forall n: nat :: n <= MAX_BLOCK ==> z.maxLen(n) <= z.maxLen(MAX_BLOCK))
    && (forall p: bytes :: |p| <= MAX_BLOCK ==> RoundTrips(z, p))
  }

  ghost predicate RoundTrips(z: Snappy, p: bytes) {
    0 < |z.compress(p)| <= z.maxLen(|p|) && z.decompress(z.compress(p)) == Some(p)
  }

  function SnappySealer(z: Snappy): Sealer<bytes> {
    Sealer((p: bytes) => 0 < |p| <= MAX_BLOCK, (i: nat, p: bytes) => z.compress(p))
  }

  /** Length in 1..=maxLen(MAX_BLOCK), and the block may not expand past MAX_BLOCK. */
  function SnappyOpener(z: Snappy): Opener<bytes> {
    Opener(1, z.maxLen(MAX_BLOCK),
           (p: bytes) => match z.decompress(p)
             case None => None
             case Some(q) => if |q| > MAX_BLOCK then None else Some(q))
  }

  /** Every block the sender emits passes all three of the receiver's checks. */
  lemma SnappyMatches(z: Snappy)
    requires SnappyLaws(z)
    ensures Matches(SnappySealer(z), SnappyOpener(z))
  {
    var s, o := SnappySealer(z), SnappyOpener(z);
    forall i: nat, p: bytes | s.fits(p)
      ensures Undoes(s, o, i, p)
    {
      assert RoundTrips(z, p);
      assert z.maxLen(|p|) <= z.maxLen(MAX_BLOCK);
    }
  }

  /** `snap::raw::max_compress_len`: 0 when the input or the bound does not fit 32 bits. */
  function MaxCompressLen(n: nat): nat {
    if n >= U32 || 32 + n + n / 6 >= U32 then 0 else 32 + n + n / 6
  }

  lemma MaxCompressLenBounds(n: nat)
    requires n <= MAX_BLOCK
    ensures n < MaxCompressLen(n) <= MaxCompressLen(MAX_BLOCK) < U32
  {
  }

  /** A codec that marks and stores its input, with snap's own bound. */
  function Storing(): Snappy {
    Snappy((p: bytes) => [0] + p, (x: bytes) => if x == [] then None else Some(x[1..]), (n: nat) => MaxCompressLen(n))
  }

  lemma StoringRoundTrips(p: bytes)
    requires |p| <= MAX_BLOCK
    ensures RoundTrips(Storing(), p) && Storing().maxLen(|p|) <= Storing().maxLen(MAX_BLOCK) < U32
  {
    hide MaxCompressLen;
    MaxCompressLenBounds(|p|);
    assert ([0] + p)[1..] == p;
  }

  lemma SnappyLawsConsistent()
    ensures SnappyLaws(Storing())
  {
    hide Storing, RoundTrips;
    StoringRoundTrips([]);
    forall p: bytes | |p| <= MAX_BLOCK
      ensures RoundTrips(Storing(), p)
    {
      StoringRoundTrips(p);
    }
    forall n: nat | n <= MAX_BLOCK
      ensures Storing().maxLen(n) <= Storing().maxLen(MAX_BLOCK)
    {
      StoringRoundTrips(Zeros(n));
    }
  }

  /**
   What the receiver of compressed blocks rejects: length zero, more than a block can compress to, and what does not
   expand, or expands beyond 32768 bytes.
  */
  lemma SnappyRejects(z: Snappy, rx: bytes)
    requires |rx| >= 4
    ensures NextFrame(SnappyOpener(z), rx).Bad? <==>
            var len := Val4(rx);
            || len == 0 || len > z.maxLen(32768)
            || (|rx| >= 4 + len
                && match z.decompress(rx[4..4 + len]) case None => true case Some(q) => |q| > 32768)
  {
  }
}
