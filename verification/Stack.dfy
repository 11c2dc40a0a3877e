/**
 Two peer stacks of any height form a faithful byte pipe: what one end reads is always a prefix of what the
 other end was told was written, and everything once both sides are drained.
*/
module Stack {
  import opened Bytes
  import opened Framing
  import opened Crypto
  import opened Streams

  // ---------------------------------------------------------------- one layer

  lemma ArrivedIsSent<T(!new)>(s: Sealer<T>, writeBase: bytes, below: bytes, buffered: bytes, records: seq<T>,
                               readBase: bytes, under: bytes)
    requires Sent(s, writeBase, below, buffered, records)
    requires |writeBase| == |readBase| && readBase <= under <= below + buffered
    ensures AllFit(s, records) && under[|readBase|..] <= Frames(s, 0, records)
    ensures under == below && buffered == [] ==> under[|readBase|..] == Frames(s, 0, records)
  {
    hide Frames;
    var wire := Frames(s, 0, records);
    assert (writeBase + wire)[|writeBase|..] == wire;
    assert under <= writeBase + wire;
    assert buffered == [] ==> below + buffered == below;
  }

  /** If the layer below gives only what it was given or is about to be given, this layer is faithful. */
  lemma LayerFaithful<T(!new)>(s: Sealer<T>, o: Opener<T>,
                               writeBase: bytes, below: bytes, buffered: bytes, records: seq<T>,
                               readBase: bytes, under: bytes, eaten: bytes, rx: bytes, got: seq<T>)
    requires Matches(s, o) && |writeBase| == |readBase| && under <= below + buffered
    requires Sent(s, writeBase, below, buffered, records)
    requires Received(o, readBase, under, eaten, rx, got)
    ensures got <= records && AllFit(s, got) && !NextFrame(o, rx).Bad?
    ensures under == below && buffered == [] && !NextFrame(o, rx).Frame? ==> got == records && rx == []
  {
    hide Sent, Written, Received, Parse, Frames, NextFrame, Flatten, Matches;
    ReceivedIsParse(o, readBase, under, eaten, rx, got);
    ArrivedIsSent(s, writeBase, below, buffered, records, readBase, under);
    HonestPrefix(s, o, records, under[|readBase|..]);
  }

  // ---------------------------------------------------------------- whole stacks

  /** The same layers on both ends, wrapped at the same point of the byte stream, with matching keys. */
  ghost predicate Peers(s: AnyConn, r: AnyConn)
    decreases s.Depth()
  {
    match (s, r)
    case (Tcp(_), Tcp(_)) => true
    case (Compressed(a), Compressed(b)) =>
      && a.Linked() && a.snappy == b.snappy && SnappyLaws(a.snappy)
      && |a.writeBase| == |b.readBase| && Peers(a.inner, b.inner)
    case (Encrypted(a), Encrypted(b)) =>
      && a.Linked() && a.cipher == b.cipher && GcmLaws(a.cipher) && a.writeKey == b.readKey
      && |a.writeBase| == |b.readBase| && Peers(a.inner, b.inner)
    case _ => false
  }

  /** The receiver's transport has given out only bytes the sender's transport took, in order. */
  ghost predicate Honest(s: AnyConn, r: AnyConn)
    reads s.Repr(), r.Repr(), s.Bottom(), r.Bottom()
  {
    s.Valid() && r.Valid() && Peers(s, r) && r.Bottom().Given() <= s.Bottom().accepted
  }

  lemma HonestBelow(s: AnyConn, r: AnyConn)
    requires Honest(s, r)
    ensures s.Compressed? ==> r.Compressed? && Honest(s.c.inner, r.c.inner)
    ensures s.Encrypted? ==> r.Encrypted? && Honest(s.e.inner, r.e.inner)
    ensures s.Tcp? ==> r.Tcp?
  {
    hide Sent, Written, Received, Flatten, Parse, Frames, NextFrame;
    match s
    case Tcp(_) =>
    case Compressed(a) => assert a.Valid() && a.Sound() && r.c.Valid() && r.c.Sound();
    case Encrypted(a) => assert a.Valid() && a.Sound() && r.e.Valid() && r.e.Sound();
  }

  ghost predicate CompressedPeers(a: CompressedStream, b: CompressedStream)
    reads a, a.Repr, b, b.Repr
  {
    a.Sound() && b.Sound() && a.snappy == b.snappy && SnappyLaws(a.snappy) && |a.writeBase| == |b.readBase|
  }

  ghost predicate EncryptedPeers(a: EncryptedStream, b: EncryptedStream)
    reads a, a.Repr, b, b.Repr
  {
    && a.Sound() && b.Sound() && a.cipher == b.cipher && GcmLaws(a.cipher) && a.writeKey == b.readKey
    && |a.writeBase| == |b.readBase|
  }

  /** What of the acknowledged records is still in the output buffer: none of it once the nonces have run out. */
  ghost function Unsent(a: EncryptedStream): bytes
    reads a
  {
    if a.sealed == a.records && a.outPos <= |a.outBuf| then a.outBuf[a.outPos..] else []
  }

  lemma CompressedFaithful(a: CompressedStream, b: CompressedStream)
    requires CompressedPeers(a, b) && b.inner.Delivered() <= a.inner.Accepted() + a.outBuf[a.outPos..]
    ensures b.delivered <= a.accepted && b.got <= a.records
    ensures [] !in b.got && !NextFrame(SnappyOpener(b.snappy), b.rxBuf).Bad?
    ensures b.inner.Delivered() == a.inner.Accepted() && a.outPos == |a.outBuf|
            && !NextFrame(SnappyOpener(b.snappy), b.rxBuf).Frame?
            ==> b.rxBuf == [] && b.delivered + b.inPlain[b.inPos..] == a.accepted
  {
    hide Sent, Written, Received, Flatten, Parse, Frames, NextFrame, SnappyLaws;
    SnappyMatches(a.snappy);
    LayerFaithful(SnappySealer(a.snappy), SnappyOpener(b.snappy),
                  a.writeBase, a.inner.Accepted(), a.outBuf[a.outPos..], a.records,
                  b.readBase, b.inner.Delivered(), b.eaten, b.rxBuf, b.got);
    FlattenPrefix(b.got, a.records);
    assert !SnappySealer(a.snappy).fits([]);
  }

  lemma EncryptedFaithful(a: EncryptedStream, b: EncryptedStream)
    requires EncryptedPeers(a, b) && b.inner.Delivered() <= a.inner.Accepted() + Unsent(a)
    ensures b.delivered <= a.accepted && b.got <= a.records
    ensures [] !in b.got && !NextFrame(b.Opens(), b.rxBuf).Bad?
    ensures b.inner.Delivered() == a.inner.Accepted() && a.outPos == |a.outBuf| && !NextFrame(b.Opens(), b.rxBuf).Frame?
            ==> b.rxBuf == [] && b.delivered + b.inPlain[b.inPos..] == a.accepted
  {
    hide Sent, Written, Received, Flatten, Parse, Frames, NextFrame, GcmLaws;
    GcmMatches(a.cipher, a.writeKey, a.noncePrefix);
    LayerFaithful(a.Seals(), b.Opens(),
                  a.writeBase, a.inner.Accepted(), Unsent(a), a.records,
                  b.readBase, b.inner.Delivered(), b.eaten, b.rxBuf, b.got);
    FlattenPrefix(b.got, a.records);
    assert !a.Seals().fits([]);
  }

  /**
   Safety, in every state two stacks can reach: nothing is lost, reordered, duplicated or invented, no frame
   looks bad, and no record is empty, so a zero-byte read can only mean the end of the stream.
  */
  lemma {:induction false} Faithful(s: AnyConn, r: AnyConn)
    requires Honest(s, r)
    ensures r.Delivered() <= s.Accepted()
    ensures !r.SawBad() && !r.SawEmpty()
    decreases s.Depth()
  {
    hide Sent, Written, Received, Flatten, Parse, Frames, NextFrame, SnappyLaws, GcmLaws;
    HonestBelow(s, r);
    match s {
      case Tcp(_) =>
      case Compressed(a) =>
        assert a.Valid() && a.Sound() && r.c.Valid() && r.c.Sound();
        Faithful(a.inner, r.c.inner);
        CompressedFaithful(a, r.c);
      case Encrypted(a) =>
        assert a.Valid() && a.Sound() && r.e.Valid() && r.e.Sound();
        Faithful(a.inner, r.e.inner);
        EncryptedFaithful(a, r.e);
    }
  }

  /**
   The receiver's transport may be ahead of the acknowledgements: it has given bytes the sender's transport took, or was
   asked to take by the lowest layer and has not answered for. That layer asks again with the same bytes, so they count
   once.
  */
  ghost predicate Ahead(s: AnyConn, r: AnyConn)
    requires Peers(s, r)
    reads s.Repr(), r.Repr()
    decreases s.Depth()
  {
    && BothLinked(s, r)
    && match s
       case Tcp(_) => false
       case Compressed(a) =>
         if !a.inner.Tcp? then Ahead(a.inner, r.c.inner)
         else a.outPos <= |a.outBuf| && r.c.inner.Delivered() <= a.inner.Accepted() + a.outBuf[a.outPos..]
       case Encrypted(a) =>
         if !a.inner.Tcp? then Ahead(a.inner, r.e.inner)
         else r.e.inner.Delivered() <= a.inner.Accepted() + Unsent(a)
  }

  ghost predicate BothLinked(s: AnyConn, r: AnyConn) {
    && (s.Compressed? ==> s.c.Linked()) && (r.Compressed? ==> r.c.Linked())
    && (s.Encrypted? ==> s.e.Linked()) && (r.Encrypted? ==> r.e.Linked())
  }

  /** Safety holds all the same. */
  lemma {:induction false} FaithfulAhead(s: AnyConn, r: AnyConn)
    requires s.Valid() && r.Valid() && Peers(s, r) && Ahead(s, r)
    ensures r.Delivered() <= s.Accepted() && !r.SawBad() && !r.SawEmpty()
    decreases s.Depth()
  {
    hide Sent, Written, Received, Flatten, Parse, Frames, NextFrame, SnappyLaws, GcmLaws;
    match s {
      case Compressed(a) =>
        assert a.Valid() && a.Sound() && r.c.Valid() && r.c.Sound();
        if !a.inner.Tcp? { FaithfulAhead(a.inner, r.c.inner); }
        assert !r.c.inner.SawBad();
        CompressedFaithful(a, r.c);
      case Encrypted(a) =>
        assert a.Valid() && a.Sound() && r.e.Valid() && r.e.Sound();
        if !a.inner.Tcp? { FaithfulAhead(a.inner, r.e.inner); }
        assert !r.e.inner.SawBad();
        EncryptedFaithful(a, r.e);
    }
  }

  /** Once the sender is flushed, the wire is read to its end and the reader has caught up, both sides agree exactly. */
  lemma {:induction false} Complete(s: AnyConn, r: AnyConn)
    requires Honest(s, r) && s.Flushed() && r.CaughtUp()
    requires r.Bottom().Given() == s.Bottom().accepted
    ensures r.Delivered() == s.Accepted()
    decreases s.Depth()
  {
    hide Sent, Written, Received, Flatten, Parse, Frames, NextFrame, SnappyLaws, GcmLaws;
    HonestBelow(s, r);
    match s {
      case Tcp(_) =>
      case Compressed(a) =>
        assert a.Valid() && a.Sound() && r.c.Valid() && r.c.Sound();
        Complete(a.inner, r.c.inner);
        CompressedFaithful(a, r.c);
      case Encrypted(a) =>
        assert a.Valid() && a.Sound() && r.e.Valid() && r.e.Sound();
        Complete(a.inner, r.e.inner);
        EncryptedFaithful(a, r.e);
    }
  }

  /**
   If everything the flushed sender wrote has arrived, a clean end of stream is reported only after all of it
   was handed out, and the reader never finds the stream cut short.
  */
  lemma {:induction false} EndIsComplete(s: AnyConn, r: AnyConn)
    requires Honest(s, r) && s.Flushed()
    requires r.Bottom().arrived == s.Bottom().accepted
    ensures r.AtEof() ==> r.Delivered() == s.Accepted()
    ensures !r.CutShort()
    decreases s.Depth()
  {
    hide Sent, Written, Received, Flatten, Parse, Frames, NextFrame, SnappyLaws, GcmLaws;
    HonestBelow(s, r);
    match s {
      case Tcp(_) =>
      case Compressed(a) =>
        assert a.Valid() && a.Sound() && r.c.Valid() && r.c.Sound();
        Faithful(a.inner, r.c.inner);
        EndIsComplete(a.inner, r.c.inner);
        CompressedFaithful(a, r.c);
        if r.c.AtEof() {
          EmptyNeedsMore(SnappyOpener(r.c.snappy), r.c.rxBuf);
          assert r.c.inPlain[r.c.inPos..] == [];
        }
      case Encrypted(a) =>
        assert a.Valid() && a.Sound() && r.e.Valid() && r.e.Sound();
        Faithful(a.inner, r.e.inner);
        EndIsComplete(a.inner, r.e.inner);
        EncryptedFaithful(a, r.e);
        if r.e.AtEof() {
          EmptyNeedsMore(r.e.Opens(), r.e.rxBuf);
          assert r.e.inPlain[r.e.inPos..] == [];
        }
    }
  }

  /** Between honest peers, a clean end means that the transport itself ended and was read to its end. */
  lemma {:induction false} EndIsBelow(s: AnyConn, r: AnyConn)
    requires Honest(s, r) && r.AtEof()
    ensures r.Bottom().eof && r.Bottom().taken == |r.Bottom().arrived|
    decreases s.Depth()
  {
    hide Sent, Written, Received, Flatten, Parse, Frames, NextFrame, SnappyLaws, GcmLaws;
    HonestBelow(s, r);
    match s {
      case Tcp(_) =>
      case Compressed(a) =>
        assert a.Valid() && a.Sound() && r.c.Valid() && r.c.Sound();
        Faithful(a.inner, r.c.inner);
        EndIsBelow(a.inner, r.c.inner);
      case Encrypted(a) =>
        assert a.Valid() && a.Sound() && r.e.Valid() && r.e.Sound();
        Faithful(a.inner, r.e.inner);
        EndIsBelow(a.inner, r.e.inner);
    }
  }

  lemma EmptyNeedsMore(o: Opener<bytes>, b: bytes)
    requires b == []
    ensures NextFrame(o, b).NeedMore?
  {
  }

  /**
   For any incoming bytes at all, honest or not: what a layer has decoded is the front of the one-shot parse of
   what the layer below handed over, and all of it whenever a read ends pending, at the end, or in an error.
  */
  lemma ReadRefinesParse(b: EncryptedStream)
    requires b.Sound()
    ensures b.readBase <= b.inner.Delivered()
    ensures var p := Parse(b.Opens(), b.inner.Delivered()[|b.readBase|..]);
            && b.got <= p.values && b.delivered <= Flatten(p.values)
            && (b.inPlain == [] && !NextFrame(b.Opens(), b.rxBuf).Frame? ==>
                  b.got == p.values && b.delivered == Flatten(p.values) && p.rest == b.rxBuf)
            && (NextFrame(b.Opens(), b.rxBuf).Bad? ==> p.bad)
  {
    hide Sent, Written, Received, Flatten, Parse, NextFrame;
    ReceivedIsParse(b.Opens(), b.readBase, b.inner.Delivered(), b.eaten, b.rxBuf, b.got);
    FlattenPrefix(b.got, Parse(b.Opens(), b.inner.Delivered()[|b.readBase|..]).values);
    assert b.inPlain == [] ==> b.delivered + b.inPlain[b.inPos..] == b.delivered;
  }

  lemma ReadRefinesParseCompressed(b: CompressedStream)
    requires b.Sound()
    ensures b.readBase <= b.inner.Delivered()
    ensures var p := Parse(SnappyOpener(b.snappy), b.inner.Delivered()[|b.readBase|..]);
            && b.got <= p.values && b.delivered <= Flatten(p.values)
            && (b.inPlain == [] && !NextFrame(SnappyOpener(b.snappy), b.rxBuf).Frame? ==>
                  b.got == p.values && b.delivered == Flatten(p.values) && p.rest == b.rxBuf)
            && (NextFrame(SnappyOpener(b.snappy), b.rxBuf).Bad? ==> p.bad)
  {
    hide Sent, Written, Received, Flatten, Parse, NextFrame;
    var o := SnappyOpener(b.snappy);
    ReceivedIsParse(o, b.readBase, b.inner.Delivered(), b.eaten, b.rxBuf, b.got);
    FlattenPrefix(b.got, Parse(o, b.inner.Delivered()[|b.readBase|..]).values);
    assert b.inPlain == [] ==> b.delivered + b.inPlain[b.inPos..] == b.delivered;
  }

  // ---------------------------------------------------------------- what the transport is asked

  /** At least one layer, and the one on the transport was added with no write pending or failed underneath. */
  ghost predicate CleanStack(conn: AnyConn)
    decreases conn.Depth()
  {
    match conn
    case Tcp(_) => false
    case Compressed(c) => c.Linked() && (if c.inner.Tcp? then c.clean else CleanStack(c.inner))
    case Encrypted(e) => e.Linked() && (if e.inner.Tcp? then e.clean else CleanStack(e.inner))
  }

  /**
   Whatever its callers do, a stack asks its transport in turn: an unanswered write is asked again with the same bytes
   before anything else is asked, flushes included, and nothing is asked after a failed write.
  */
  lemma {:induction false} AsksInTurn(conn: AnyConn)
    requires conn.Valid() && CleanStack(conn)
    ensures conn.Bottom().asked.kept && conn.Bottom().asked == AfterAsks(conn.Bottom().asks)
    decreases conn.Depth()
  {
    hide Sent, Written, Received, Flatten, Parse, Frames, NextFrame, AfterAsks, AckedBy;
    match conn {
      case Compressed(c) =>
        assert c.Valid() && c.Sound();
        if c.inner.Tcp? { assert c.inner.Valid(); assert c.inner.t.Valid(); } else { AsksInTurn(c.inner); }
      case Encrypted(e) =>
        assert e.Valid() && e.Sound();
        if e.inner.Tcp? { assert e.inner.Valid(); assert e.inner.t.Valid(); } else { AsksInTurn(e.inner); }
    }
  }

  // ---------------------------------------------------------------- latched errors

  /** A call on a stream, or bytes arriving at its transport. */
  datatype Call =
    | WriteCall(data: bytes) | FlushCall | ShutdownCall | ReadCall(cap: nat) | ArriveCall(more: bytes, last: bool)

  /**
   Once an error is latched, exhaustion of the nonces included: over any calls whatever, each answers that error, and
   not a byte is accepted, handed out or sent, nor is the transport closed.
  */
  method RunLatched(e: EncryptedStream, calls: seq<Call>) returns (answers: seq<Option<IoError>>)
    requires e.Valid() && e.stickyErr.Some?
    modifies e.Repr
    ensures e.Valid() && e.stickyErr == old(e.stickyErr)
    ensures e.bottom.accepted == old(e.bottom.accepted) && e.bottom.finished == old(e.bottom.finished)
    ensures e.accepted == old(e.accepted) && e.delivered == old(e.delivered)
    ensures |answers| == |calls|
    ensures forall k :: 0 <= k < |calls| ==> answers[k] == if calls[k].ArriveCall? then None else e.stickyErr
  {
    hide Sent, Written, Received, Flatten, Parse, Frames, NextFrame;
    answers := [];
    for i := 0 to |calls|
      invariant e.Valid() && e.stickyErr == old(e.stickyErr)
      invariant e.bottom.accepted == old(e.bottom.accepted) && e.bottom.finished == old(e.bottom.finished)
      invariant e.accepted == old(e.accepted) && e.delivered == old(e.delivered)
      invariant |answers| == i
      invariant forall k :: 0 <= k < i ==> answers[k] == if calls[k].ArriveCall? then None else e.stickyErr
    {
      var answer := CallLatched(e, calls[i]);
      answers := answers + [answer];
    }
  }

  method CallLatched(e: EncryptedStream, call: Call) returns (answer: Option<IoError>)
    requires e.Valid() && e.stickyErr.Some?
    modifies e.Repr
    ensures e.Valid() && e.stickyErr == old(e.stickyErr)
    ensures e.bottom.accepted == old(e.bottom.accepted) && e.bottom.finished == old(e.bottom.finished)
    ensures e.accepted == old(e.accepted) && e.delivered == old(e.delivered)
    ensures answer == if call.ArriveCall? then None else e.stickyErr
  {
    hide Sent, Written, Received, Flatten, Parse, Frames, NextFrame;
    match call
    case WriteCall(data) =>
      var r := e.PollWrite(data);
      return Some(r.io.error);
    case FlushCall =>
      var r := e.PollFlush();
      return Some(r.io.error);
    case ShutdownCall =>
      var r := e.PollShutdown();
      return Some(r.io.error);
    case ReadCall(cap) =>
      var r := e.PollRead(cap);
      return Some(r.io.error);
    case ArriveCall(more, last) =>
      e.Arrive(more, last);
      return None;
  }

  // ---------------------------------------------------------------- nonces

  function FramesLength(s: Sealer<bytes>, records: seq<bytes>, i: nat): nat
    requires i <= |records|
  {
    |Frames(s, 0, records[..i])|
  }

  /** In every state, the i-th record sealed is on the wire (or buffered) under nonce prefix ++ i, for i below 2^32. */
  lemma RecordNonce(e: EncryptedStream, i: nat)
    requires e.Sound() && i < |e.sealed|
    ensures i < U32
    ensures var at := |e.writeBase| + FramesLength(e.Seals(), e.sealed, i) + HEADER_LEN;
            var stream := e.inner.Accepted() + e.outBuf[e.outPos..];
            at + NONCE_LEN <= |stream| && stream[at..at + NONCE_LEN] == Nonce(e.noncePrefix, i)
  {
    hide Frames, FrameBytes, Parse, NextFrame, Nonce, GcmSealer, Flatten, Received;
    var s := e.Seals();
    FrameAt(s, e.sealed, i);
    var wire := Frames(s, 0, e.sealed);
    NonceInFrame(e.cipher, e.writeKey, e.noncePrefix, i, e.sealed[i]);
    SliceOf(e.writeBase, wire, FramesLength(s, e.sealed, i), FrameBytes(s, i, e.sealed[i]), HEADER_LEN, NONCE_LEN);
    assert e.inner.Accepted() + e.outBuf[e.outPos..] == e.writeBase + wire;
  }

  lemma NonceInFrame(c: Cipher, key: bytes, prefix: bytes, i: nat, v: bytes)
    requires |prefix| == NONCE_PREFIX_LEN
    ensures var f := FrameBytes(GcmSealer(c, key, prefix), i, v);
            HEADER_LEN + NONCE_LEN <= |f| && f[HEADER_LEN..HEADER_LEN + NONCE_LEN] == Nonce(prefix, i)
  {
    var s, nonce := GcmSealer(c, key, prefix), Nonce(prefix, i);
    assert s.wrap(i, v)[..NONCE_LEN] == nonce;
    var f := FrameBytes(s, i, v);
    assert f[HEADER_LEN..] == s.wrap(i, v);
  }

  lemma SliceOf(base: bytes, wire: bytes, start: nat, f: bytes, skip: nat, len: nat)
    requires start + |f| <= |wire| && wire[start..start + |f|] == f && skip + len <= |f|
    ensures (base + wire)[|base| + start + skip..|base| + start + skip + len] == f[skip..skip + len]
  {
    var at := start + skip;
    assert (base + wire)[|base| + at..|base| + at + len] == wire[at..at + len];
    var x, y := wire[at..at + len], f[skip..skip + len];
    forall k | 0 <= k < len
      ensures x[k] == y[k]
    {
      assert y[k] == f[skip + k] == wire[start..start + |f|][skip + k];
    }
  }

  lemma FrameAt(s: Sealer<bytes>, records: seq<bytes>, i: nat)
    requires i < |records|
    ensures var start := FramesLength(s, records, i);
            var f := FrameBytes(s, i, records[i]);
            start + |f| <= |Frames(s, 0, records)| && Frames(s, 0, records)[start..start + |f|] == f
  {
    hide FrameBytes;
    assert records == records[..i] + ([records[i]] + records[i + 1..]);
    FramesAppend(s, 0, records[..i], [records[i]] + records[i + 1..]);
    assert ([records[i]] + records[i + 1..])[1..] == records[i + 1..];
  }

  /** No nonce is ever used twice by one stream. */
  lemma NoncesNeverRepeat(e: EncryptedStream, i: nat, j: nat)
    requires e.Sound() && i < j < |e.sealed|
    ensures Nonce(e.noncePrefix, i) != Nonce(e.noncePrefix, j)
  {
    if Nonce(e.noncePrefix, i) == Nonce(e.noncePrefix, j) {
      hide Sent, Written, Received, Nonce, Flatten;
      NonceDistinct(e.noncePrefix, i, j);
    }
  }

  /** The nonce the i-th sealed record carries on the wire, or in the output buffer. */
  ghost function NonceSent(e: EncryptedStream, i: nat): bytes
    requires e.Sound() && i < |e.sealed|
    reads e, e.Repr
  {
    RecordNonce(e, i);
    var at := |e.writeBase| + FramesLength(e.Seals(), e.sealed, i) + HEADER_LEN;
    (e.inner.Accepted() + e.outBuf[e.outPos..])[at..at + NONCE_LEN]
  }

  /**
   Both ends of a work connection seal under the same key. In every state of both, no two records carry the same nonce:
   neither two of one stream nor, when the random prefixes differ, one of each.
  */
  lemma NoncesNeverShared(e: EncryptedStream, f: EncryptedStream, i: nat, j: nat)
    requires e.Sound() && f.Sound() && i < |e.sealed| && j < |f.sealed|
    requires e.noncePrefix != f.noncePrefix || (e == f && i != j)
    ensures NonceSent(e, i) != NonceSent(f, j)
  {
    hide Sent, Written, Received, Flatten, Nonce, Frames, FrameBytes, GcmSealer;
    RecordNonce(e, i);
    RecordNonce(f, j);
    if e.noncePrefix != f.noncePrefix {
      NonceShowsPrefix(e.noncePrefix, i);
      NonceShowsPrefix(f.noncePrefix, j);
    } else if Nonce(e.noncePrefix, i) == Nonce(f.noncePrefix, j) {
      NonceDistinct(e.noncePrefix, i, j);
    }
  }

  lemma NonceShowsPrefix(prefix: bytes, i: nat)
    requires |prefix| == NONCE_PREFIX_LEN
    ensures |Nonce(prefix, i)| == NONCE_LEN && Nonce(prefix, i)[..NONCE_PREFIX_LEN] == prefix
  {
  }
}
