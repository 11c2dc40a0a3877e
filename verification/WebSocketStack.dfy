/**
 The layered streams over a WebSocket. The layers retry a pending write with the same bytes and do not flush before it
 is answered, which is the discipline the WebSocket adapter needs; so their frames cross it exactly once.
*/
module WebSocketStack {
  import opened Bytes
  import opened Framing
  import opened Crypto
  import opened Streams
  import opened Stack
  import W = WebSocket

  /** One question to the transport is one poll of the adapter, with the same answer. */
  ghost predicate SamePoll(ask: Ask, op: W.Op, w: W.Writer) {
    match ask
    case WriteAsk(buf, r) =>
      && op.Write? && op.buf == buf
      && (match W.WriteResult(w, buf, op.sink)
          case StillPending => r.Pending?
          case Wrote(n) => r == Ready(Ok(n))
          case Error => r.IsErr())
    case FlushAsk(done) =>
      op.Flush? && (op.answer.Pending? <==> done.Pending?) && (op.answer.Fine? <==> done.IsOk())
    case ShutAsk(done) =>
      op.Close? && (op.answer.Pending? <==> done.Pending?) && (op.answer.Fine? <==> done.IsOk())
  }

  /** The transport is a WebSocket whose adapter has been polled by `ops`. */
  ghost predicate Carries(asks: seq<Ask>, ops: seq<W.Op>) {
    if asks == [] || ops == [] then asks == [] && ops == []
    else
      && Carries(asks[..|asks| - 1], ops[..|ops| - 1])
      && SamePoll(asks[|asks| - 1], ops[|ops| - 1], W.Run(ops[..|ops| - 1]))
  }

  ghost predicate Agree(a: Asked, acked: bytes, w: W.Writer) {
    && a.failed == w.failed && acked == w.acked
    && (w.writePending.Some? || w.owed != [] ==> a.left == Some(w.owed))
  }

  lemma StepAgrees(a: Asked, acked: bytes, w: W.Writer, ask: Ask, op: W.Op)
    requires W.Inv(w) && Agree(a, acked, w) && SamePoll(ask, op, w)
    requires (if ask.WriteAsk? then AfterWrite(a, ask.buf, ask.r) else AfterFlush(a)).kept
    ensures W.Retries(w, op) && !W.Forgets(w, op)
    ensures Agree(if ask.WriteAsk? then AfterWrite(a, ask.buf, ask.r) else AfterFlush(a),
                  acked + (if ask.WriteAsk? && ask.r.IsOk() then ask.buf[..Min(ask.r.io.value, |ask.buf|)] else []),
                  W.Step(w, op))
  {
    assert acked + [] == acked;
  }

  /** Asking in turn is exactly what the adapter needs of its caller. */
  lemma {:induction false} InTurnIsDisciplined(asks: seq<Ask>, ops: seq<W.Op>)
    requires Carries(asks, ops) && AfterAsks(asks).kept
    ensures W.Retrying(ops) && W.NeverForgets(ops)
    ensures Agree(AfterAsks(asks), AckedBy(asks), W.Run(ops))
    decreases |ops|
  {
    if ops != [] {
      var asks', ops' := asks[..|asks| - 1], ops[..|ops| - 1];
      var ask, op := asks[|asks| - 1], ops[|ops| - 1];
      assert asks == asks' + [ask];
      AskSnoc(asks', ask);
      InTurnIsDisciplined(asks', ops');
      W.ExactlyOnce(ops');
      StepAgrees(AfterAsks(asks'), AckedBy(asks'), W.Run(ops'), ask, op);
    }
  }

  /** What the layer on the WebSocket has put on it: acknowledged bytes, and at most the rest of its output buffer. */
  lemma SubmittedOnce(conn: AnyConn, ops: seq<W.Op>, left: bytes, latched: bool)
    requires conn.Tcp? && conn.Valid() && conn.InTurn(left, latched) && Carries(conn.t.asks, ops)
    ensures var w := W.Run(ops);
            && Flatten(w.submitted) == conn.t.accepted + w.owed
            && (w.owed == [] || (w.owed == left && conn.Asks().left.Some?))
  {
    hide Carries, AfterAsks, AckedBy, Flatten;
    InTurnIsDisciplined(conn.t.asks, ops);
    W.ExactlyOnce(ops);
  }

  /** The bytes a reader has taken off the WebSocket are the first of those submitted to it. */
  ghost predicate Reads(reader: W.WebSocketConn, ops: seq<W.Op>)
    reads reader
  {
    reader.Valid() && W.DataOf(reader.consumed) <= W.Run(ops).submitted
  }

  lemma ReadIsSubmitted(reader: W.WebSocketConn, ops: seq<W.Op>)
    requires Reads(reader, ops)
    ensures reader.delivered <= Flatten(W.Run(ops).submitted)
    ensures W.DataOf(reader.consumed) == W.Run(ops).submitted && reader.readBuf == [] ==>
              reader.delivered == Flatten(W.Run(ops).submitted)
  {
    hide W.Payload, W.DataOf, W.Run, Flatten;
    W.PayloadIsFlatten(reader.consumed);
    FlattenPrefix(W.DataOf(reader.consumed), W.Run(ops).submitted);
    assert reader.delivered + [] == reader.delivered;
  }

  /**
   Whatever the callers of the stack do and however often the socket is pending: the bytes the peer takes off the
   WebSocket are, in order and once each, bytes of the frames of the records sealed; they decode to the first of those
   records and never look bad, and to all of them once nothing is left to write and every message was consumed.
  */
  lemma FramesOnce<T(!new)>(s: Sealer<T>, o: Opener<T>, base: bytes, conn: AnyConn, left: bytes, latched: bool,
                            records: seq<T>, ops: seq<W.Op>, reader: W.WebSocketConn)
    requires Matches(s, o) && AllFit(s, records)
    requires conn.Tcp? && conn.Valid() && conn.InTurn(left, latched) && Carries(conn.t.asks, ops)
    requires Sent(s, base, conn.t.accepted, left, records)
    requires Reads(reader, ops) && |base| <= |reader.delivered|
    ensures reader.delivered <= base + Frames(s, 0, records)
    ensures var p := Parse(o, reader.delivered[|base|..]); p.values <= records && !p.bad
    ensures left == [] && W.DataOf(reader.consumed) == W.Run(ops).submitted && reader.readBuf == [] ==>
              Parse(o, reader.delivered[|base|..]) == Scan(records, [], false)
  {
    hide Carries, Flatten, Parse, Frames, Matches, AllFit, W.Payload, W.DataOf, W.Run;
    var w, wire := W.Run(ops), Frames(s, 0, records);
    SubmittedOnce(conn, ops, left, latched);
    ReadIsSubmitted(reader, ops);
    assert base + wire == conn.t.accepted + left;
    assert Flatten(w.submitted) <= base + wire;
    assert (base + wire)[|base|..] == wire;
    HonestPrefix(s, o, records, reader.delivered[|base|..]);
    if left == [] && W.DataOf(reader.consumed) == w.submitted && reader.readBuf == [] {
      assert reader.delivered == base + wire;
      ParseFrames(s, o, 0, records);
    }
  }

  /** Sealed records over a WebSocket. */
  lemma EncryptedOnce(e: EncryptedStream, ops: seq<W.Op>, reader: W.WebSocketConn)
    requires e.Valid() && e.Sound() && e.clean && e.inner.Tcp? && GcmLaws(e.cipher) && Carries(e.inner.t.asks, ops)
    requires Reads(reader, ops) && |e.writeBase| <= |reader.delivered|
    ensures var p := Parse(GcmOpener(e.cipher, e.writeKey), reader.delivered[|e.writeBase|..]);
            && p.values <= e.sealed && !p.bad
            && (e.outPos == |e.outBuf| && W.DataOf(reader.consumed) == W.Run(ops).submitted && reader.readBuf == [] ==>
                  p == Scan(e.sealed, [], false))
  {
    hide Written, Received, Flatten, Parse, Frames, NextFrame, GcmLaws, Carries, GcmSealer, GcmOpener, W.DataOf, W.Run;
    GcmMatches(e.cipher, e.writeKey, e.noncePrefix);
    FramesOnce(e.Seals(), GcmOpener(e.cipher, e.writeKey), e.writeBase, e.inner, e.outBuf[e.outPos..],
               e.stickyErr.Some?, e.sealed, ops, reader);
  }

  /** Compressed blocks over a WebSocket, whatever is stacked above. */
  lemma CompressedOnce(c: CompressedStream, ops: seq<W.Op>, reader: W.WebSocketConn)
    requires c.Valid() && c.Sound() && c.clean && c.inner.Tcp? && SnappyLaws(c.snappy) && Carries(c.inner.t.asks, ops)
    requires Reads(reader, ops) && |c.writeBase| <= |reader.delivered|
    ensures var p := Parse(SnappyOpener(c.snappy), reader.delivered[|c.writeBase|..]);
            && p.values <= c.records && !p.bad
            && (c.outPos == |c.outBuf| && W.DataOf(reader.consumed) == W.Run(ops).submitted && reader.readBuf == [] ==>
                  p == Scan(c.records, [], false))
  {
    hide Written, Received, Flatten, Parse, Frames, NextFrame, SnappyLaws, Carries, SnappySealer, SnappyOpener,
      W.DataOf, W.Run;
    SnappyMatches(c.snappy);
    FramesOnce(SnappySealer(c.snappy), SnappyOpener(c.snappy), c.writeBase, c.inner, c.outBuf[c.outPos..],
               c.stickyErr.Some?, c.records, ops, reader);
  }

  lemma {:induction false} SocketIsAhead(s: AnyConn, r: AnyConn, ops: seq<W.Op>, reader: W.WebSocketConn)
    requires s.Valid() && r.Valid() && Peers(s, r) && CleanStack(s)
    requires Carries(s.Bottom().asks, ops) && Reads(reader, ops) && r.Bottom().Given() <= reader.delivered
    ensures Ahead(s, r)
    decreases s.Depth()
  {
    hide Sent, Written, Received, Flatten, Parse, Frames, NextFrame, SnappyLaws, GcmLaws, Carries, Reads, W.Run;
    ReadIsSubmitted(reader, ops);
    match s {
      case Compressed(a) =>
        assert a.Valid() && a.Sound() && r.c.Valid() && r.c.Sound();
        if a.inner.Tcp? {
          SubmittedOnce(a.inner, ops, a.outBuf[a.outPos..], a.stickyErr.Some?);
        } else {
          SocketIsAhead(a.inner, r.c.inner, ops, reader);
        }
      case Encrypted(a) =>
        assert a.Valid() && a.Sound() && r.e.Valid() && r.e.Sound();
        if a.inner.Tcp? {
          SubmittedOnce(a.inner, ops, a.outBuf[a.outPos..], a.stickyErr.Some?);
        } else {
          SocketIsAhead(a.inner, r.e.inner, ops, reader);
        }
    }
  }

  lemma {:induction false} FlushedIsAnswered(s: AnyConn, ops: seq<W.Op>)
    requires s.Valid() && CleanStack(s) && s.Flushed() && Carries(s.Bottom().asks, ops)
    ensures Flatten(W.Run(ops).submitted) == s.Bottom().accepted
    decreases s.Depth()
  {
    hide Sent, Written, Received, Flatten, Parse, Frames, NextFrame, Carries, W.Run;
    match s {
      case Compressed(a) =>
        assert a.Valid() && a.Sound();
        if a.inner.Tcp? {
          SubmittedOnce(a.inner, ops, a.outBuf[a.outPos..], a.stickyErr.Some?);
          assert a.inner.Accepted() + [] == a.inner.Accepted();
        } else {
          FlushedIsAnswered(a.inner, ops);
        }
      case Encrypted(a) =>
        assert a.Valid() && a.Sound();
        if a.inner.Tcp? {
          SubmittedOnce(a.inner, ops, a.outBuf[a.outPos..], a.stickyErr.Some?);
          assert a.inner.Accepted() + [] == a.inner.Accepted();
        } else {
          FlushedIsAnswered(a.inner, ops);
        }
    }
  }

  /**
   Two peer stacks of any height, at least one layer each, over a WebSocket: whatever the callers do and however often
   the socket is pending, the bytes delivered are a prefix of the bytes accepted and no frame looks bad; and they are
   all of them once the sender is flushed, every message is consumed and the reader has caught up.
  */
  lemma FaithfulOverWebSocket(s: AnyConn, r: AnyConn, ops: seq<W.Op>, reader: W.WebSocketConn)
    requires s.Valid() && r.Valid() && Peers(s, r) && CleanStack(s)
    requires Carries(s.Bottom().asks, ops) && Reads(reader, ops) && r.Bottom().Given() <= reader.delivered
    ensures r.Delivered() <= s.Accepted() && !r.SawBad() && !r.SawEmpty()
    ensures
      && s.Flushed() && r.CaughtUp() && r.Bottom().Given() == reader.delivered
      && W.DataOf(reader.consumed) == W.Run(ops).submitted && reader.readBuf == []
      ==> r.Delivered() == s.Accepted()
  {
    hide Carries, Reads, Ahead, Peers, CleanStack, AnyConn.Valid, AnyConn.Flushed, AnyConn.CaughtUp, W.Run, W.DataOf;
    hide Flatten;
    SocketIsAhead(s, r, ops, reader);
    FaithfulAhead(s, r);
    if && s.Flushed() && r.CaughtUp() && r.Bottom().Given() == reader.delivered
       && W.DataOf(reader.consumed) == W.Run(ops).submitted && reader.readBuf == []
    {
      ReadIsSubmitted(reader, ops);
      FlushedIsAnswered(s, ops);
      Complete(s, r);
    }
  }
}
