/**
 v1 control messages, `[4-byte big-endian length][JSON]`, on top of any connection. `write_message` and
 `read_message_with_limit` are futures: each object here is one such future (or a loop of them, one message
 after the other) and `Poll` is one poll of it, resuming where the last one stopped.
*/
module Messages {
  import opened Bytes
  import opened Framing
  import opened Crypto
  import opened Streams
  import opened Stack
  import WorkConn

  /** serde_json for the message type. */
  datatype Json<!M> = Json(encode: M -> bytes, decode: bytes -> Option<M>)

  ghost predicate JsonLaws<M(!new)>(j: Json<M>) {
    forall m: M :: j.decode(j.encode(m)) == Some(m)
  }

  /** Byte strings that stand for themselves satisfy the law. */
  lemma JsonLawsConsistent()
    ensures JsonLaws(Json((m: bytes) => m, (b: bytes) => Some(b)))
  {
  }

  /** The sender checks nothing; a message fits when the receiver's limit admits its encoding. */
  function MsgSealer<M>(j: Json<M>, limit: nat): Sealer<M> {
    Sealer((m: M) => |j.encode(m)| <= limit, (i: nat, m: M) => j.encode(m))
  }

  function MsgOpener<M>(j: Json<M>, limit: nat): Opener<M> {
    Opener(0, limit, j.decode)
  }

  lemma MessagesMatch<M(!new)>(j: Json<M>, limit: nat)
    requires JsonLaws(j) && limit < U32
    ensures Matches(MsgSealer(j, limit), MsgOpener(j, limit))
  {
    var s, o := MsgSealer(j, limit), MsgOpener(j, limit);
    forall i: nat, m: M | s.fits(m)
      ensures Undoes(s, o, i, m)
    {
    }
  }

  lemma CutLeft(a: bytes, b: bytes, n: nat)
    requires n <= |a|
    ensures (a + b)[..n] == a[..n] && (a + b)[n..] == a[n..] + b
  {
  }

  // ---------------------------------------------------------------- writing

  class MessageWriter<M(!new)> {
    const conn: AnyConn
    const json: Json<M>
    var lenLeft: bytes
    var bodyLeft: bytes

    // The peer's size limit; the writer itself never looks at it.
    ghost const limit: nat
    ghost const base: bytes
    ghost var sent: seq<M>

    ghost predicate Valid()
      reads this, conn.Repr()
    {
      && this !in conn.Repr() && conn.Valid()
      && Written(MsgSealer(json, limit), base, conn.Accepted(), lenLeft + bodyLeft, sent)
    }

    constructor (conn: AnyConn, json: Json<M>, ghost limit: nat)
      requires conn.Valid()
      ensures Valid() && this.conn == conn && this.json == json && this.limit == limit
      ensures base == conn.Accepted() && sent == [] && lenLeft == [] && bodyLeft == []
    {
      this.conn, this.json, lenLeft, bodyLeft := conn, json, [], [];
      this.limit, base, sent := limit, conn.Accepted(), [];
      new;
      assert base + [] == base;
    }

    /** A call of `write_message`; nothing is sent before the first poll. */
    method Start(m: M)
      requires Valid() && lenLeft == [] && bodyLeft == []
      modifies this`lenLeft, this`bodyLeft, this`sent
      ensures Valid() && sent == old(sent) + [m]
      ensures lenLeft == BE4(|json.encode(m)| % U32) && bodyLeft == json.encode(m)
    {
      hide Written;
      assert lenLeft + bodyLeft == [];
      WrittenFrame(MsgSealer(json, limit), base, conn.Accepted(), lenLeft + bodyLeft, sent, m);
      var body := json.encode(m);
      assert [] + FrameBytes(MsgSealer(json, limit), |sent|, m) == BE4(|body| % U32) + body;
      lenLeft, bodyLeft := BE4(|body| % U32), body;
      sent := sent + [m];
    }

    /** What was acknowledged has left every layer. */
    ghost predicate OnWire()
      reads conn.Repr()
    {
      conn.Tcp? || conn.Flushed()
    }

    /** One turn of `write_all` on what is left of the length, or else of the body. */
    method WriteSome() returns (r: Poll<()>)
      requires Valid() && lenLeft + bodyLeft != []
      modifies this`lenLeft, this`bodyLeft, conn.Repr()
      ensures Valid() && sent == old(sent) && conn.Delivered() == old(conn.Delivered())
      ensures r.IsOk() ==> |lenLeft| + |bodyLeft| < |old(lenLeft)| + |old(bodyLeft)|
      ensures r.IsOk() ==> old(lenLeft) == [] ==> lenLeft == []
      ensures r.IsErr() ==> conn.Explains(r.io.error)
      ensures Later(old(conn.Bottom().Wire()), conn.Bottom().Wire())
      ensures r.Pending? ==> conn.Bottom().pended > old(conn.Bottom().pended)
      ensures r.IsOk() ==> OnWire() || conn.Bottom().pended > old(conn.Bottom().pended) || conn.InTrouble()
    {
      hide Written, Frames, MsgSealer;
      ghost var under, left := conn.Accepted(), lenLeft + bodyLeft;
      var first := lenLeft != [];
      var wrote := conn.PollWrite(if first then lenLeft else bodyLeft);
      match wrote {
        case Pending => return Pending;
        case Ready(Err(e)) => return Ready(Err(e));
        case Ready(Ok(n)) =>
          WrittenDrain(MsgSealer(json, limit), base, under, left, sent, n);
          if first {
            CutLeft(lenLeft, bodyLeft, n);
            lenLeft := lenLeft[n..];
          } else {
            CutLeft(bodyLeft, [], n);
            assert left == bodyLeft + [] && lenLeft + bodyLeft[n..] == bodyLeft[n..] + [];
            bodyLeft := bodyLeft[n..];
          }
          return Ready(if n == 0 then Err(WriteZero) else Ok(()));
      }
    }

    /**
     Two `write_all`s: the length, then the body. Ready when both are fully acknowledged, and then they have left every
     layer, unless the transport was pending or there is trouble; pending only if the transport was.
    */
    method Poll() returns (r: Poll<()>)
      requires Valid()
      modifies this`lenLeft, this`bodyLeft, conn.Repr()
      ensures Valid() && sent == old(sent) && conn.Delivered() == old(conn.Delivered())
      ensures r.IsOk() ==> lenLeft == [] && bodyLeft == []
      ensures r.IsErr() ==> conn.Explains(r.io.error)
      ensures Later(old(conn.Bottom().Wire()), conn.Bottom().Wire())
      ensures r.Pending? ==> conn.Bottom().pended > old(conn.Bottom().pended)
      ensures r.IsOk() && old(lenLeft + bodyLeft) != [] ==>
                OnWire() || conn.Bottom().pended > old(conn.Bottom().pended) || conn.InTrouble()
    {
      hide Written, Frames, MsgSealer;
      r := Ready(Ok(()));
      while lenLeft != [] || bodyLeft != []
        invariant Valid() && sent == old(sent) && conn.Delivered() == old(conn.Delivered()) && r.IsOk()
        invariant Later(old(conn.Bottom().Wire()), conn.Bottom().Wire())
        invariant lenLeft + bodyLeft == old(lenLeft + bodyLeft) ||
                  OnWire() || conn.Bottom().pended > old(conn.Bottom().pended) || conn.InTrouble()
        decreases |lenLeft| + |bodyLeft|
      {
        r := WriteSome();
        if !r.IsOk() { return; }
      }
    }
  }

  // ---------------------------------------------------------------- reading

  datatype ReadResult<+M> =
    | ReadPending | Message(message: M) | TooLarge(len: nat) | BadJson | ReadFailed(error: IoError)

  class MessageReader<M(!new)> {
    const conn: AnyConn
    const json: Json<M>
    const maxSize: nat
    var lenBuf: bytes
    var msgBuf: bytes

    ghost const base: bytes
    ghost var eaten: bytes
    ghost var got: seq<M>

    ghost function Opens(): Opener<M> { MsgOpener(json, maxSize) }

    ghost predicate Valid()
      reads this, conn.Repr()
    {
      && this !in conn.Repr() && conn.Valid() && |lenBuf| <= HEADER_LEN
      && (msgBuf != [] ==> |lenBuf| == HEADER_LEN && |msgBuf| <= Val4(lenBuf) <= maxSize)
      && Received(Opens(), base, conn.Delivered(), eaten, lenBuf + msgBuf, got)
    }

    constructor (conn: AnyConn, json: Json<M>, maxSize: nat)
      requires conn.Valid()
      ensures Valid() && this.conn == conn && this.json == json && this.maxSize == maxSize
      ensures base == conn.Delivered() && got == [] && lenBuf == [] && msgBuf == []
    {
      hide Received, Parse, NextFrame;
      this.conn, this.json, this.maxSize, lenBuf, msgBuf := conn, json, maxSize, [], [];
      base, eaten, got := conn.Delivered(), [], [];
      new;
      assert lenBuf + msgBuf == [];
      ReceivedNothing(Opens(), base);
    }

    /** Why a read can fail: the stream ended, or the connection's own reason. */
    ghost predicate Fails(e: IoError)
      reads conn.Repr()
    {
      (e == UnexpectedEof && (conn.AtEof() || conn.SawEmpty())) || conn.Explains(e)
    }

    /** One `poll_read` of `read_exact`; a zero-byte read is `UnexpectedEof`. */
    method Fill(want: nat) returns (r: Poll<bytes>)
      requires conn.Valid() && want > 0 && this !in conn.Repr()
      modifies conn.Repr()
      ensures conn.Valid()
      ensures r.IsOk() ==> 0 < |r.io.value| <= want && conn.Delivered() == old(conn.Delivered()) + r.io.value
      ensures !r.IsOk() ==> conn.Delivered() == old(conn.Delivered())
      ensures r.Pending? ==> conn.CaughtUp()
      ensures r.IsErr() ==> Fails(r.io.error)
      ensures conn.Accepted() == old(conn.Accepted())
      ensures Later(old(conn.Bottom().Wire()), conn.Bottom().Wire())
      ensures conn.Bottom().accepted == old(conn.Bottom().accepted)
      ensures r.Pending? ==> conn.Bottom().pended > old(conn.Bottom().pended)
    {
      r := conn.PollRead(want);
      if r.IsOk() && r.io.value == [] {
        assert old(conn.Delivered()) + [] == old(conn.Delivered());
        return Ready(Err(UnexpectedEof));
      }
    }

    /** `read_exact` of the length. */
    method ReadLen() returns (r: Poll<()>)
      requires Valid()
      modifies this`lenBuf, conn.Repr()
      ensures Valid() && conn.Accepted() == old(conn.Accepted())
      ensures r.IsOk() ==> |lenBuf| == HEADER_LEN
      ensures r.Pending? ==> conn.CaughtUp() && |lenBuf| < HEADER_LEN
      ensures r.IsErr() ==> Fails(r.io.error) && |lenBuf| < HEADER_LEN
      ensures Later(old(conn.Bottom().Wire()), conn.Bottom().Wire())
      ensures conn.Bottom().accepted == old(conn.Bottom().accepted)
      ensures r.Pending? ==> conn.Bottom().pended > old(conn.Bottom().pended)
    {
      hide Received, Parse, NextFrame, Val4, Fails;
      while |lenBuf| < HEADER_LEN
        invariant Valid() && conn.Accepted() == old(conn.Accepted())
        invariant Later(old(conn.Bottom().Wire()), conn.Bottom().Wire())
        invariant conn.Bottom().accepted == old(conn.Bottom().accepted)
        decreases HEADER_LEN - |lenBuf|
      {
        ghost var under := conn.Delivered();
        var read := Fill(HEADER_LEN - |lenBuf|);
        match read {
          case Pending => return Pending;
          case Ready(Err(e)) => return Ready(Err(e));
          case Ready(Ok(data)) =>
            ReceivedMore(Opens(), base, under, eaten, lenBuf + msgBuf, got, data);
            assert lenBuf + msgBuf == lenBuf && lenBuf + data + [] == lenBuf + data;
            lenBuf := lenBuf + data;
        }
      }
      return Ready(Ok(()));
    }

    /** `read_exact` of the body. */
    method ReadBody(len: nat) returns (r: Poll<()>)
      requires Valid() && |lenBuf| == HEADER_LEN && Val4(lenBuf) == len <= maxSize
      modifies this`msgBuf, conn.Repr()
      ensures Valid() && conn.Accepted() == old(conn.Accepted())
      ensures r.IsOk() ==> |msgBuf| == len
      ensures r.Pending? ==> conn.CaughtUp() && |msgBuf| < len
      ensures r.IsErr() ==> Fails(r.io.error) && |msgBuf| < len
      ensures Later(old(conn.Bottom().Wire()), conn.Bottom().Wire())
      ensures conn.Bottom().accepted == old(conn.Bottom().accepted)
      ensures r.Pending? ==> conn.Bottom().pended > old(conn.Bottom().pended)
    {
      hide Received, Parse, NextFrame, Val4, Fails;
      while |msgBuf| < len
        invariant Valid() && conn.Accepted() == old(conn.Accepted()) && |msgBuf| <= len
        invariant Later(old(conn.Bottom().Wire()), conn.Bottom().Wire())
        invariant conn.Bottom().accepted == old(conn.Bottom().accepted)
        decreases len - |msgBuf|
      {
        ghost var under := conn.Delivered();
        var read := Fill(len - |msgBuf|);
        match read {
          case Pending => return Pending;
          case Ready(Err(e)) => return Ready(Err(e));
          case Ready(Ok(data)) =>
            ReceivedMore(Opens(), base, under, eaten, lenBuf + msgBuf, got, data);
            ConcatAssoc(lenBuf, msgBuf, data);
            msgBuf := msgBuf + data;
        }
      }
      return Ready(Ok(()));
    }

    /**
     Polls the current `read_message_with_limit`. A message is returned exactly when the one-shot parser finds it
     next; an over-long length is rejected while only its four bytes have been taken; a failed read means that the
     stream ended or broke before the next message was complete.
    */
    method Poll() returns (r: ReadResult<M>)
      requires Valid()
      modifies this`lenBuf, this`msgBuf, this`eaten, this`got, conn.Repr()
      ensures Valid() && conn.Accepted() == old(conn.Accepted())
      ensures r.Message? ==> got == old(got) + [r.message] && lenBuf == [] && msgBuf == []
      ensures !r.Message? ==> got == old(got) && eaten == old(eaten)
      ensures r.TooLarge? ==> |lenBuf| == HEADER_LEN && Val4(lenBuf) == r.len > maxSize
      ensures r.TooLarge? ==> conn.Delivered() == base + eaten + lenBuf
      ensures r.BadJson? ==>
                && |lenBuf| == HEADER_LEN && |msgBuf| == Val4(lenBuf) <= maxSize && json.decode(msgBuf).None?
      ensures r.TooLarge? || r.BadJson? ==> NextFrame(Opens(), lenBuf + msgBuf).Bad?
      ensures r.ReadPending? ==> conn.CaughtUp() && NextFrame(Opens(), lenBuf + msgBuf).NeedMore?
      ensures r.ReadFailed? ==> Fails(r.error) && NextFrame(Opens(), lenBuf + msgBuf).NeedMore?
      ensures Later(old(conn.Bottom().Wire()), conn.Bottom().Wire())
      ensures conn.Bottom().accepted == old(conn.Bottom().accepted)
      ensures r.ReadPending? ==> conn.Bottom().pended > old(conn.Bottom().pended)
    {
      hide Received, Parse, NextFrame, Val4, Fails;
      var head := ReadLen();
      if !head.IsOk() {
        MsgNext(json, maxSize, lenBuf, msgBuf);
        return if head.Pending? then ReadPending else ReadFailed(head.io.error);
      }
      var len := Val4(lenBuf);
      MsgNext(json, maxSize, lenBuf, msgBuf);
      if len > maxSize {
        ReceivedUnder(Opens(), base, conn.Delivered(), eaten, lenBuf + msgBuf, got);
        assert lenBuf + msgBuf == lenBuf;
        return TooLarge(len);
      }
      var body := ReadBody(len);
      MsgNext(json, maxSize, lenBuf, msgBuf);
      if !body.IsOk() { return if body.Pending? then ReadPending else ReadFailed(body.io.error); }
      match json.decode(msgBuf)
      case None => return BadJson;
      case Some(m) =>
        ghost var rx := lenBuf + msgBuf;
        ReceivedFrame(Opens(), base, conn.Delivered(), eaten, rx, got);
        assert rx[|rx|..] == [] + [];
        eaten, got := eaten + rx[..|rx|], got + [m];
        lenBuf, msgBuf := [], [];
        return Message(m);
    }
  }

  lemma ReceivedUnder<T>(o: Opener<T>, base: bytes, under: bytes, eaten: bytes, rx: bytes, got: seq<T>)
    requires Received(o, base, under, eaten, rx, got)
    ensures under == base + eaten + rx
  {
  }

  /** The reader's own checks, in its order, against the one-shot parser. */
  lemma MsgNext<M>(j: Json<M>, limit: nat, lenBuf: bytes, msgBuf: bytes)
    requires |lenBuf| <= HEADER_LEN && (|lenBuf| < HEADER_LEN ==> msgBuf == [])
    requires |lenBuf| == HEADER_LEN && Val4(lenBuf) <= limit ==> |msgBuf| <= Val4(lenBuf)
    ensures NextFrame(MsgOpener(j, limit), lenBuf + msgBuf) ==
            if |lenBuf| < HEADER_LEN then NeedMore
            else if Val4(lenBuf) > limit then Bad
            else if |msgBuf| < Val4(lenBuf) then NeedMore
            else match j.decode(msgBuf)
              case None => Bad
              case Some(m) => Frame(m, HEADER_LEN + Val4(lenBuf))
  {
    var rx := lenBuf + msgBuf;
    if |lenBuf| == HEADER_LEN {
      assert Val4(rx) == Val4(lenBuf);
      assert rx[HEADER_LEN..] == msgBuf;
      if |msgBuf| == Val4(lenBuf) { assert rx[HEADER_LEN..HEADER_LEN + Val4(lenBuf)] == msgBuf; }
    }
  }

  // ---------------------------------------------------------------- end to end

  /**
   Messages written back to back on one end of a faithful pipe come out on the other end in order, none lost,
   merged or split, and never look malformed; when everything has come through, exactly the list that was sent.
  */
  lemma MessagesFaithful<M(!new)>(w: MessageWriter<M>, r: MessageReader<M>)
    requires JsonLaws(w.json) && w.json == r.json && r.maxSize < U32
    requires w.Valid() && r.Valid() && w.limit == r.maxSize
    requires forall m :: m in w.sent ==> |w.json.encode(m)| <= r.maxSize
    requires Honest(w.conn, r.conn) && |w.base| == |r.base|
    ensures r.got <= w.sent && !NextFrame(r.Opens(), r.lenBuf + r.msgBuf).Bad?
    ensures
      && w.lenLeft == [] && w.bodyLeft == [] && w.OnWire()
      && r.conn.CaughtUp() && r.conn.Bottom().Given() == w.conn.Bottom().accepted
      && !NextFrame(r.Opens(), r.lenBuf + r.msgBuf).Frame?
      ==> r.got == w.sent && r.lenBuf + r.msgBuf == []
  {
    hide Written, Received, Parse, Frames, NextFrame, Honest, JsonLaws;
    var s := MsgSealer(w.json, r.maxSize);
    assert AllFit(s, w.sent);
    assert Sent(s, w.base, w.conn.Accepted(), w.lenLeft + w.bodyLeft, w.sent);
    Faithful(w.conn, r.conn);
    MessagesMatch(w.json, r.maxSize);
    LayerFaithful(s, r.Opens(), w.base, w.conn.Accepted(), w.lenLeft + w.bodyLeft, w.sent,
                  r.base, r.conn.Delivered(), r.eaten, r.lenBuf + r.msgBuf, r.got);
    assert Honest(w.conn, r.conn) && w.conn.Valid() && r.conn.Valid();
    if w.OnWire() && r.conn.CaughtUp() && r.conn.Bottom().Given() == w.conn.Bottom().accepted {
      if w.conn.Tcp? { HonestBelow(w.conn, r.conn); } else { Complete(w.conn, r.conn); }
    }
  }

  /**
   A message over the receiver's limit is a bad frame: everything before it is still read, and nothing after it.
  */
  lemma OverLimitStops<M(!new)>(j: Json<M>, limit: nat, before: seq<M>, big: M, after: bytes)
    requires JsonLaws(j) && limit < U32
    requires forall m :: m in before ==> |j.encode(m)| <= limit
    requires limit < |j.encode(big)| < U32
    ensures Parse(MsgOpener(j, limit),
                  Frames(MsgSealer(j, limit), 0, before) + (FrameBytes(MsgSealer(j, limit), |before|, big) + after))
         == Scan(before, FrameBytes(MsgSealer(j, limit), |before|, big) + after, true)
  {
    var s, o := MsgSealer(j, limit), MsgOpener(j, limit);
    var rest := FrameBytes(s, |before|, big) + after;
    OverLimitIsBad(j, limit, |before|, big, after);
    assert Parse(o, rest) == Scan([], rest, true);
    MessagesMatch(j, limit);
    assert AllFit(s, before);
    hide Parse, Frames, FrameBytes, NextFrame, JsonLaws;
    ParseFrames(s, o, 0, before);
    ParseAfter(o, Frames(s, 0, before), rest);
    assert before + [] == before;
  }

  lemma OverLimitIsBad<M>(j: Json<M>, limit: nat, i: nat, big: M, after: bytes)
    requires limit < |j.encode(big)| < U32
    ensures NextFrame(MsgOpener(j, limit), FrameBytes(MsgSealer(j, limit), i, big) + after).Bad?
  {
    hide BE4, Val4;
    var body := j.encode(big);
    BE4Val4(|body|, body + after);
    assert FrameBytes(MsgSealer(j, limit), i, big) + after == BE4(|body|) + (body + after);
  }

  // ---------------------------------------------------------------- arbitrary schedules

  /**
   One thing that can happen: the writer starts a message (if the last one is done) or is polled, the reader is polled,
   or anything else at either end: flushes, shutdowns, traffic the other way, and deliveries by the network.
  */
  datatype Event<M> = Send(m: M) | PollWriter | PollReader | AtWriter(op: WorkConn.Op) | AtReader(op: WorkConn.Op)

  /** A writer and a reader on two connected ends. */
  ghost predicate Linked<M(!new)>(w: MessageWriter<M>, r: MessageReader<M>)
    reads w, w.conn.Repr(), w.conn.Bottom(), r, r.conn.Repr(), r.conn.Bottom()
  {
    && w.Valid() && r.Valid() && WorkConn.Connected(w.conn, r.conn)
    && w !in r.conn.Repr() && r !in w.conn.Repr()
    && JsonLaws(w.json) && w.json == r.json && w.limit == r.maxSize < U32 && |w.base| == |r.base|
    && (forall m :: m in w.sent ==> |w.json.encode(m)| <= r.maxSize)
  }

  /** What came of it: whether a message was started, or what a poll answered. */
  datatype Result<+M> = Started(yes: bool) | Wrote(w: Poll<()>) | Read(r: ReadResult<M>) | Other

  function StartedBy<M>(e: Event<M>, out: Result<M>): seq<M> {
    if e.Send? && out.Started? && out.yes then [e.m] else []
  }

  function ReadBy<M>(e: Event<M>, out: Result<M>): seq<M> {
    if e.PollReader? && out.Read? && out.r.Message? then [out.r.message] else []
  }

  method Handle<M(!new)>(w: MessageWriter<M>, r: MessageReader<M>, e: Event<M>) returns (out: Result<M>)
    requires Linked(w, r) && (e.Send? ==> |w.json.encode(e.m)| <= r.maxSize)
    modifies w, w.conn.Repr(), r, r.conn.Repr()
    ensures Linked(w, r)
    ensures w.sent == old(w.sent) + StartedBy(e, out) && r.got == old(r.got) + ReadBy(e, out)
    ensures e.Send? ==> out == Started(old(w.lenLeft) == [] && old(w.bodyLeft) == [])
    ensures e.PollWriter? ==> out.Wrote?
    ensures e.PollWriter? && out.w.Pending? ==> w.conn.Bottom().pended > old(w.conn.Bottom().pended)
    ensures e.PollReader? ==> out.Read?
    ensures e.PollReader? && out.r.ReadPending? ==> r.conn.Bottom().pended > old(r.conn.Bottom().pended)
  {
    hide Written, Received, Parse, Frames, NextFrame, JsonLaws, Peers, AnyConn.Valid,
      AnyConn.Flushed, AnyConn.CaughtUp, AnyConn.Explains, AnyConn.InTrouble, AnyConn.AtEof;
    BottomInside(w.conn);
    BottomInside(r.conn);
    assert w.sent + [] == w.sent && r.got + [] == r.got;
    out := Other;
    match e
    case Send(m) =>
      out := Started(w.lenLeft == [] && w.bodyLeft == []);
      if out.yes { w.Start(m); }
    case PollWriter =>
      var p := w.Poll();
      out := Wrote(p);
    case PollReader =>
      var p := r.Poll();
      out := Read(p);
    case AtWriter(op) => if !op.Write? { OtherTraffic(w, r, true, op); }
    case AtReader(op) => if !op.Read? { OtherTraffic(w, r, false, op); }
  }

  /** Anything else at the writer's end or at the reader's: it does not write there, nor read here. */
  method OtherTraffic<M(!new)>(w: MessageWriter<M>, r: MessageReader<M>, atWriter: bool, op: WorkConn.Op)
    requires Linked(w, r) && (if atWriter then !op.Write? else !op.Read?)
    modifies w.conn.Repr(), r.conn.Repr()
    ensures Linked(w, r) && w.sent == old(w.sent) && r.got == old(r.got)
  {
    hide Written, Received, Parse, Frames, NextFrame, JsonLaws, Peers, AnyConn.Valid,
      AnyConn.Flushed, AnyConn.CaughtUp, AnyConn.Explains, AnyConn.InTrouble, AnyConn.AtEof;
    BottomInside(w.conn);
    BottomInside(r.conn);
    if atWriter { var _ := WorkConn.Act(w.conn, r.conn, op); } else { var _ := WorkConn.Act(r.conn, w.conn, op); }
  }

  /** The messages handed to the writer, in order. */
  function AllStarted<M>(schedule: seq<Event<M>>, outs: seq<Result<M>>): seq<M>
    requires |schedule| == |outs|
  {
    if schedule == [] then []
    else
      var last := |schedule| - 1;
      AllStarted(schedule[..last], outs[..last]) + StartedBy(schedule[last], outs[last])
  }

  /** The messages the reader returned, in order. */
  function AllRead<M>(schedule: seq<Event<M>>, outs: seq<Result<M>>): seq<M>
    requires |schedule| == |outs|
  {
    if schedule == [] then []
    else
      var last := |schedule| - 1;
      AllRead(schedule[..last], outs[..last]) + ReadBy(schedule[last], outs[last])
  }

  lemma OneMore<M>(sent: seq<M>, got: seq<M>, schedule: seq<Event<M>>, outs: seq<Result<M>>, i: nat, out: Result<M>)
    requires i == |outs| < |schedule|
    ensures sent + AllStarted(schedule[..i + 1], outs + [out]) ==
            sent + AllStarted(schedule[..i], outs) + StartedBy(schedule[i], out)
    ensures got + AllRead(schedule[..i + 1], outs + [out]) ==
            got + AllRead(schedule[..i], outs) + ReadBy(schedule[i], out)
  {
    hide StartedBy, ReadBy;
    assert schedule[..i + 1][..i] == schedule[..i] && (outs + [out])[..i] == outs;
  }

  /**
   For every schedule of messages sent, polls of the two futures, other calls on both ends and deliveries by the
   network, whatever the transports answer: the messages read are the first of those sent, unchanged and in order, and
   all of them once everything has come through.
  */
  method RunMessages<M(!new)>(w: MessageWriter<M>, r: MessageReader<M>, schedule: seq<Event<M>>)
    returns (outs: seq<Result<M>>)
    requires Linked(w, r)
    requires forall e :: e in schedule && e.Send? ==> |w.json.encode(e.m)| <= r.maxSize
    modifies w, w.conn.Repr(), r, r.conn.Repr()
    ensures Linked(w, r) && |outs| == |schedule|
    ensures w.sent == old(w.sent) + AllStarted(schedule, outs) && r.got == old(r.got) + AllRead(schedule, outs)
    ensures r.got <= w.sent && !NextFrame(r.Opens(), r.lenBuf + r.msgBuf).Bad?
    ensures
      && w.lenLeft == [] && w.bodyLeft == [] && w.OnWire()
      && r.conn.CaughtUp() && r.conn.Bottom().Given() == w.conn.Bottom().accepted
      && !NextFrame(r.Opens(), r.lenBuf + r.msgBuf).Frame?
      ==> r.got == w.sent
  {
    hide Written, Received, Parse, Frames, NextFrame, JsonLaws, Peers, AnyConn.Valid;
    outs := PerformMessages(w, r, schedule);
    WorkConn.ConnectedIsHonest(w.conn, r.conn);
    MessagesFaithful(w, r);
  }

  /** The loop over the schedule. */
  method PerformMessages<M(!new)>(w: MessageWriter<M>, r: MessageReader<M>, schedule: seq<Event<M>>)
    returns (outs: seq<Result<M>>)
    requires Linked(w, r)
    requires forall e :: e in schedule && e.Send? ==> |w.json.encode(e.m)| <= r.maxSize
    modifies w, w.conn.Repr(), r, r.conn.Repr()
    ensures Linked(w, r) && |outs| == |schedule|
    ensures w.sent == old(w.sent) + AllStarted(schedule, outs) && r.got == old(r.got) + AllRead(schedule, outs)
  {
    hide Linked, StartedBy, ReadBy;
    outs := [];
    ghost var sent, got := w.sent, r.got;
    for i := 0 to |schedule|
      invariant Linked(w, r) && |outs| == i
      invariant w.sent == sent + AllStarted(schedule[..i], outs) && r.got == got + AllRead(schedule[..i], outs)
    {
      hide AllStarted, AllRead;
      var out := Handle(w, r, schedule[i]);
      OneMore(sent, got, schedule, outs, i, out);
      outs := outs + [out];
    }
    assert schedule[..|schedule|] == schedule;
  }

  /**
   `write_message` does not flush. Once it has returned on an encrypted connection, every byte of every message is
   acknowledged; the layer below has been given the frames of all of them exactly when nothing waits in the output
   buffer, and the rest waits there until the next flush or write.
  */
  lemma AcknowledgedMayWait<M(!new)>(w: MessageWriter<M>, e: EncryptedStream)
    requires w.Valid() && w.conn == Encrypted(e) && e.Sound() && w.lenLeft == [] && w.bodyLeft == []
    ensures e.accepted == w.base + Frames(MsgSealer(w.json, w.limit), 0, w.sent)
    ensures e.inner.Accepted() + e.outBuf[e.outPos..] == e.writeBase + Frames(e.Seals(), 0, e.sealed)
    ensures e.inner.Accepted() == e.writeBase + Frames(e.Seals(), 0, e.sealed) <==> e.outPos == |e.outBuf|
  {
    hide Frames, Received, Flatten, NextFrame;
    assert e.accepted + (w.lenLeft + w.bodyLeft) == e.accepted;
  }
}
