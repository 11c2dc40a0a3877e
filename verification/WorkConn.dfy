/**
 The end of `open_work_conn`: how a work connection is wrapped, what its wire then carries, and what any
 schedule of calls on the two wrapped ends, with any network between them, can make of it.
*/
module WorkConn {
  import opened Bytes
  import opened Framing
  import opened Crypto
  import opened Streams
  import opened Stack

  datatype WrapError = MissingToken | BadKey

  datatype WrapResult = Wrapped(conn: AnyConn) | Failed(error: WrapError)

  /** `w` is `conn` under the requested layers: compression directly on `conn`, encryption outermost. */
  ghost predicate IsWrapped(w: AnyConn, conn: AnyConn, sentBefore: bytes, readBefore: bytes,
                            useCompression: bool, useEncryption: bool, snappy: Snappy, cipher: Cipher, key: bytes)
  {
    var mid := if useEncryption && w.Encrypted? then w.e.inner else w;
    && (useEncryption ==>
          && w.Encrypted? && w.e.Linked() && w.e.cipher == cipher && w.e.writeKey == w.e.readKey == key
          && w.e.writeBase == (if useCompression then [] else sentBefore)
          && w.e.readBase == (if useCompression then [] else readBefore))
    && (useCompression ==>
          && mid.Compressed? && mid.c.Linked() && mid.c.inner == conn && mid.c.snappy == snappy
          && mid.c.writeBase == sentBefore && mid.c.readBase == readBefore)
    && (!useCompression ==> mid == conn)
  }

  /** `key` is the key derived from the configured token, if there is one; `prefix` the random nonce prefix. */
  method WrapWorkConn(conn: AnyConn, useCompression: bool, useEncryption: bool, key: Option<bytes>,
                      snappy: Snappy, cipher: Cipher, prefix: bytes)
    returns (r: WrapResult)
    requires conn.Valid() && |prefix| == NONCE_PREFIX_LEN
    ensures r.Failed? <==> useEncryption && (key.None? || |key.value| != KEY_LEN)
    ensures r.Failed? ==> r.error == if key.None? then MissingToken else BadKey
    ensures r.Wrapped? && useEncryption ==> r.conn.Encrypted? && r.conn.e.noncePrefix == prefix
    ensures r.Wrapped? && conn.Tcp? && conn.Asks() == NOTHING_ASKED && (useCompression || useEncryption) ==>
              CleanStack(r.conn)
    ensures r.Wrapped? ==>
              && r.conn.Valid() && r.conn.Bottom() == conn.Bottom() && fresh(r.conn.Repr() - conn.Repr())
              && IsWrapped(r.conn, conn, conn.Accepted(), conn.Delivered(), useCompression, useEncryption,
                           snappy, cipher, if key.Some? then key.value else [])
              && r.conn.Accepted() == (if useCompression || useEncryption then [] else conn.Accepted())
              && r.conn.Delivered() == (if useCompression || useEncryption then [] else conn.Delivered())
  {
    hide Sent, Written, Received, Flatten, Parse, NextFrame, Frames;
    var workConn := conn;
    if useCompression {
      var c := new CompressedStream(workConn, snappy);
      workConn := Compressed(c);
    }
    if useEncryption {
      if key.None? { return Failed(MissingToken); }
      var e := EncryptedStream.NewDirectional(workConn, cipher, key.value, key.value, prefix);
      if e.Err? { return Failed(BadKey); }
      workConn := Encrypted(e.value);
    }
    return Wrapped(workConn);
  }

  /** Both ends wrap with the same options at the same point of the stream: the stacks are peers, in both directions. */
  lemma WrappedArePeers(w1: AnyConn, c1: AnyConn, sent1: bytes, read1: bytes,
                        w2: AnyConn, c2: AnyConn, sent2: bytes, read2: bytes,
                        useCompression: bool, useEncryption: bool, snappy: Snappy, cipher: Cipher, key: bytes)
    requires IsWrapped(w1, c1, sent1, read1, useCompression, useEncryption, snappy, cipher, key)
    requires IsWrapped(w2, c2, sent2, read2, useCompression, useEncryption, snappy, cipher, key)
    requires |sent1| == |read2| && |sent2| == |read1|
    requires SnappyLaws(snappy) && GcmLaws(cipher) && Peers(c1, c2) && Peers(c2, c1)
    ensures Peers(w1, w2) && Peers(w2, w1)
  {
    hide SnappyLaws, GcmLaws;
    if useEncryption && useCompression {
      assert Peers(w1.e.inner, w2.e.inner) && Peers(w2.e.inner, w1.e.inner);
    }
  }

  /**
   The code's layering, read off the wire: the socket carries the compressed frames of a byte string which is
   itself the concatenation of the sealed frames (not the other way round).
  */
  lemma StackedWire(e: EncryptedStream, c: CompressedStream, t: Transport)
    requires e.Sound() && c.Sound() && e.inner == Compressed(c) && c.inner == Tcp(t) && e.writeBase == []
    ensures Flatten(e.records) == e.accepted && e.records <= e.sealed
    ensures Flatten(c.records) + e.outBuf[e.outPos..]
         == Frames(GcmSealer(e.cipher, e.writeKey, e.noncePrefix), 0, e.sealed)
    ensures t.accepted + c.outBuf[c.outPos..] == c.writeBase + Frames(SnappySealer(c.snappy), 0, c.records)
    ensures e.Flushed() ==> t.accepted == c.writeBase + Frames(SnappySealer(c.snappy), 0, c.records)
    ensures e.Flushed() ==> Flatten(c.records) == Frames(GcmSealer(e.cipher, e.writeKey, e.noncePrefix), 0, e.sealed)
  {
    hide Received, Flatten, Parse, Frames, NextFrame, GcmSealer, SnappySealer;
    var s := e.Seals();
    assert e.writeBase + Frames(s, 0, e.sealed) == Frames(s, 0, e.sealed);
    if e.Flushed() {
      assert e.inner.Flushed() && c.Flushed();
      assert e.outBuf[e.outPos..] == [] && c.outBuf[c.outPos..] == [];
      assert Flatten(c.records) + [] == Flatten(c.records) && t.accepted + [] == t.accepted;
    }
  }

  // ---------------------------------------------------------------- arbitrary schedules

  /**
   One thing that can happen at an end: a poll by its owner, or the network carrying `n` bytes from it to its peer.
  */
  datatype Op = Write(data: bytes) | Flush | Shutdown | Read(cap: nat) | Carry(n: nat, last: bool)

  /** Wires so far: each end's transport has received a prefix of what the other's took. */
  ghost predicate Connected(a: AnyConn, b: AnyConn)
    reads a.Repr(), b.Repr(), a.Bottom(), b.Bottom()
  {
    && a.Valid() && b.Valid() && Peers(a, b) && Peers(b, a) && a.Repr() !! b.Repr()
    && b.Bottom().arrived <= a.Bottom().accepted && a.Bottom().arrived <= b.Bottom().accepted
  }

  lemma ConnectedIsHonest(a: AnyConn, b: AnyConn)
    requires Connected(a, b)
    ensures Honest(a, b) && Honest(b, a)
  {
    hide Sent, Written, Received, Flatten, Parse, NextFrame, Frames;
  }

  /** Errors between honest peers: out of nonces, a transport fault, or a stream cut short; never a bad frame. */
  ghost predicate FairError(conn: AnyConn, e: IoError)
    reads conn.Repr()
  {
    e != InvalidData && conn.Explains(e)
  }

  /** What a read may report between honest peers. */
  ghost predicate FairRead(conn: AnyConn, cap: nat, r: Poll<bytes>)
    reads conn.Repr()
  {
    && (r.IsErr() ==> FairError(conn, r.io.error))
    && (r.IsOk() && r.io.value == [] && cap > 0 ==> conn.AtEof())
    && (r.Pending? ==> conn.CaughtUp())
  }

  /** Nothing is buffered or on its way from `x` to `y`. */
  ghost predicate Drained(x: AnyConn, y: AnyConn)
    reads x.Repr(), y.Repr(), x.Bottom(), y.Bottom()
  {
    x.Flushed() && y.CaughtUp() && y.Bottom().Given() == x.Bottom().accepted
  }

  method ReadFairly(x: AnyConn, ghost y: AnyConn, cap: nat) returns (r: Poll<bytes>)
    requires Connected(x, y)
    modifies x.Repr()
    ensures Connected(x, y) && x.Accepted() == old(x.Accepted())
    ensures x.Delivered() == old(x.Delivered()) + (if r.IsOk() then r.io.value else [])
    ensures FairRead(x, cap, r)
    ensures Later(old(x.Bottom().Wire()), x.Bottom().Wire()) && x.Bottom().accepted == old(x.Bottom().accepted)
    ensures x.Flushed() == old(x.Flushed())
    ensures r.Pending? ==> x.Bottom().pended > old(x.Bottom().pended)
  {
    hide Sent, Written, Received, Flatten, Parse, NextFrame, Frames, Honest, Peers, SnappyLaws, GcmLaws;
    BottomInside(x);
    BottomInside(y);
    r := x.PollRead(cap);
    ConnectedIsHonest(x, y);
    Faithful(y, x);
  }

  /**
   The network moves up to `n` bytes from `x`'s socket to `y`'s; the end of the stream only after the last of them.
  */
  method CarryBytes(x: AnyConn, y: AnyConn, n: nat, last: bool)
    requires Connected(x, y)
    modifies y.Repr()
    ensures Connected(x, y) && y.Accepted() == old(y.Accepted()) && y.Delivered() == old(y.Delivered())
    ensures y.Flushed() == old(y.Flushed()) && y.Bottom().finished == old(y.Bottom().finished)
    ensures y.Bottom().accepted == old(y.Bottom().accepted)
    ensures old(y.Bottom().eof) ==> y.Bottom().eof && y.Bottom().arrived == old(y.Bottom().arrived)
    ensures !old(y.Bottom().eof) ==>
              && y.Bottom().arrived == x.Bottom().accepted[..Min(|old(y.Bottom().arrived)| + n, |x.Bottom().accepted|)]
              && (y.Bottom().eof <==> last && x.Bottom().finished && y.Bottom().arrived == x.Bottom().accepted)
  {
    hide Sent, Written, Received, Flatten, Parse, NextFrame, Frames, Honest, Peers, SnappyLaws, GcmLaws;
    BottomInside(x);
    BottomInside(y);
    var wire, have := x.Bottom().accepted, |y.Bottom().arrived|;
    var upTo := Min(have + n, |wire|);
    assert wire[..have] + wire[have..upTo] == wire[..upTo];
    y.Arrive(wire[have..upTo], last && upTo == |wire| && x.Bottom().finished);
  }

  method WriteFairly(x: AnyConn, ghost y: AnyConn, data: bytes) returns (r: Poll<nat>)
    requires Connected(x, y)
    modifies x.Repr()
    ensures Connected(x, y) && x.Delivered() == old(x.Delivered())
    ensures r.IsOk() ==> r.io.value <= |data|
    ensures r.IsErr() ==> FairError(x, r.io.error)
    ensures x.Accepted() == old(x.Accepted()) + (if r.IsOk() then data[..r.io.value] else [])
    ensures Later(old(x.Bottom().Wire()), x.Bottom().Wire())
    ensures r.Pending? ==> x.Bottom().pended > old(x.Bottom().pended)
  {
    hide Sent, Written, Received, Flatten, Parse, NextFrame, Frames, Honest, Peers, SnappyLaws, GcmLaws;
    BottomInside(x);
    BottomInside(y);
    r := x.PollWrite(data);
    ConnectedIsHonest(x, y);
    Faithful(y, x);
  }

  method FlushFairly(x: AnyConn, ghost y: AnyConn, shutdown: bool) returns (r: Poll<()>)
    requires Connected(x, y)
    modifies x.Repr()
    ensures Connected(x, y) && x.Delivered() == old(x.Delivered()) && x.Accepted() == old(x.Accepted())
    ensures r.IsOk() ==> x.Flushed()
    ensures r.IsErr() ==> FairError(x, r.io.error)
    ensures LaterOrClosed(old(x.Bottom().Wire()), x.Bottom().Wire())
    ensures x.Bottom().finished ==> old(x.Bottom().finished) || x.Flushed()
    ensures old(x.Flushed()) ==> x.Flushed() && x.Bottom().accepted == old(x.Bottom().accepted)
    ensures r.Pending? ==> x.Bottom().pended > old(x.Bottom().pended)
  {
    hide Sent, Written, Received, Flatten, Parse, NextFrame, Frames, Honest, Peers, SnappyLaws, GcmLaws;
    BottomInside(x);
    BottomInside(y);
    if shutdown { r := x.PollShutdown(); } else { r := x.PollFlush(); }
    ConnectedIsHonest(x, y);
    Faithful(y, x);
  }

  /** What came of it. */
  datatype Answer =
    | WriteAnswer(wrote: Poll<nat>) | FlushAnswer(done: Poll<()>) | ReadAnswer(read: Poll<bytes>) | Carried

  /** The bytes a write was told were taken. */
  function Taken(op: Op, answer: Answer): bytes {
    if op.Write? && answer.WriteAnswer? && answer.wrote.IsOk() then op.data[..Min(answer.wrote.io.value, |op.data|)]
    else []
  }

  /** The bytes a read was given. */
  function Given(op: Op, answer: Answer): bytes {
    if op.Read? && answer.ReadAnswer? && answer.read.IsOk() then answer.read.io.value else []
  }

  /** The answer is of the right kind, and pending or failed only for a reason. */
  ghost predicate Fits(x: AnyConn, pendedBefore: nat, op: Op, answer: Answer)
    reads x.Repr(), x.Bottom()
  {
    match op
    case Write(data) =>
      && answer.WriteAnswer?
      && (answer.wrote.Pending? ==> x.Bottom().pended > pendedBefore)
      && (answer.wrote.IsErr() ==> FairError(x, answer.wrote.io.error))
    case Read(cap) =>
      && answer.ReadAnswer? && FairRead(x, cap, answer.read)
      && (answer.read.Pending? ==> x.Bottom().pended > pendedBefore)
    case Carry(_, _) => answer.Carried?
    case _ =>
      && answer.FlushAnswer?
      && (answer.done.Pending? ==> x.Bottom().pended > pendedBefore)
      && (answer.done.IsErr() ==> FairError(x, answer.done.io.error))
      && (answer.done.IsOk() ==> x.Flushed())
  }

  method Act(x: AnyConn, y: AnyConn, op: Op) returns (answer: Answer)
    requires Connected(x, y)
    modifies x.Repr(), y.Repr()
    ensures Connected(x, y) && Fits(x, old(x.Bottom().pended), op, answer)
    ensures x.Accepted() == old(x.Accepted()) + Taken(op, answer) && y.Accepted() == old(y.Accepted())
    ensures x.Delivered() == old(x.Delivered()) + Given(op, answer) && y.Delivered() == old(y.Delivered())
    ensures !op.Write? ==> x.Accepted() == old(x.Accepted())
    ensures !op.Read? ==> x.Delivered() == old(x.Delivered())
  {
    hide Sent, Written, Received, Flatten, Parse, NextFrame, Frames, Honest, Peers, SnappyLaws, GcmLaws, Connected,
      AnyConn.Valid, AnyConn.Flushed, FairError;
    ConnectedEnds(x, y);
    match op
    case Write(data) =>
      var r := WriteFairly(x, y, data);
      answer := WriteAnswer(r);
    case Flush =>
      var r := FlushFairly(x, y, false);
      answer := FlushAnswer(r);
    case Shutdown =>
      var r := FlushFairly(x, y, true);
      answer := FlushAnswer(r);
    case Read(cap) =>
      var r := ReadFairly(x, y, cap);
      answer := ReadAnswer(r);
    case Carry(n, last) =>
      CarryBytes(x, y, n, last);
      answer := Carried;
  }

  /** All an end was told it wrote, in order. */
  function Told(schedule: seq<(bool, Op)>, answers: seq<Answer>, side: bool): bytes
    requires |schedule| == |answers|
  {
    if schedule == [] then []
    else
      var last := |schedule| - 1;
      Told(schedule[..last], answers[..last], side)
      + if schedule[last].0 == side then Taken(schedule[last].1, answers[last]) else []
  }

  /** All an end was given to read, in order. */
  function Gotten(schedule: seq<(bool, Op)>, answers: seq<Answer>, side: bool): bytes
    requires |schedule| == |answers|
  {
    if schedule == [] then []
    else
      var last := |schedule| - 1;
      Gotten(schedule[..last], answers[..last], side)
      + if schedule[last].0 == side then Given(schedule[last].1, answers[last]) else []
  }

  lemma OneMore(accepted: bytes, delivered: bytes, schedule: seq<(bool, Op)>, answers: seq<Answer>, i: nat,
                answer: Answer, side: bool)
    requires i == |answers| < |schedule|
    ensures accepted + Told(schedule[..i + 1], answers + [answer], side) ==
            accepted + Told(schedule[..i], answers, side)
            + if schedule[i].0 == side then Taken(schedule[i].1, answer) else []
    ensures delivered + Gotten(schedule[..i + 1], answers + [answer], side) ==
            delivered + Gotten(schedule[..i], answers, side)
            + if schedule[i].0 == side then Given(schedule[i].1, answer) else []
  {
    hide Taken, Given;
    assert schedule[..i + 1][..i] == schedule[..i] && (answers + [answer])[..i] == answers;
  }

  /**
   For every schedule of polls by both ends and deliveries by the network, whatever the transports answer: what an end
   has accepted and handed out is what its callers were told and given, and each end has read a prefix of what the
   other was told it wrote, all of it once drained.
  */
  method RunSchedule(a: AnyConn, b: AnyConn, schedule: seq<(bool, Op)>) returns (answers: seq<Answer>)
    requires Connected(a, b)
    modifies a.Repr(), b.Repr()
    ensures Connected(a, b) && |answers| == |schedule|
    ensures a.Accepted() == old(a.Accepted()) + Told(schedule, answers, true)
    ensures b.Accepted() == old(b.Accepted()) + Told(schedule, answers, false)
    ensures a.Delivered() == old(a.Delivered()) + Gotten(schedule, answers, true)
    ensures b.Delivered() == old(b.Delivered()) + Gotten(schedule, answers, false)
    ensures b.Delivered() <= a.Accepted() && a.Delivered() <= b.Accepted()
    ensures !a.SawBad() && !b.SawBad()
    ensures Drained(a, b) ==> b.Delivered() == a.Accepted()
    ensures Drained(b, a) ==> a.Delivered() == b.Accepted()
  {
    hide Sent, Written, Received, Flatten, Parse, NextFrame, Frames, Peers, SnappyLaws, GcmLaws, Connected, Told,
      Gotten, AnyConn.Valid, Fits;
    answers := Perform(a, b, schedule);
    ConnectedIsHonest(a, b);
    Faithful(a, b);
    Faithful(b, a);
    if Drained(a, b) { Complete(a, b); }
    if Drained(b, a) { Complete(b, a); }
  }

  /** As `Act`, at the end `a` or the end `b`. */
  method ActAt(a: AnyConn, b: AnyConn, side: bool, op: Op) returns (answer: Answer)
    requires Connected(a, b)
    modifies a.Repr(), b.Repr()
    ensures Connected(a, b)
    ensures a.Accepted() == old(a.Accepted()) + if side == true then Taken(op, answer) else []
    ensures b.Accepted() == old(b.Accepted()) + if side == false then Taken(op, answer) else []
    ensures a.Delivered() == old(a.Delivered()) + if side == true then Given(op, answer) else []
    ensures b.Delivered() == old(b.Delivered()) + if side == false then Given(op, answer) else []
  {
    hide Connected, Taken, Given, Fits, AnyConn.Accepted, AnyConn.Delivered;
    if side {
      answer := Act(a, b, op);
    } else {
      Swapped(a, b);
      answer := Act(b, a, op);
      Swapped(b, a);
    }
  }

  /** The loop over the schedule. */
  method Perform(a: AnyConn, b: AnyConn, schedule: seq<(bool, Op)>) returns (answers: seq<Answer>)
    requires Connected(a, b)
    modifies a.Repr(), b.Repr()
    ensures Connected(a, b) && |answers| == |schedule|
    ensures a.Accepted() == old(a.Accepted()) + Told(schedule, answers, true)
    ensures b.Accepted() == old(b.Accepted()) + Told(schedule, answers, false)
    ensures a.Delivered() == old(a.Delivered()) + Gotten(schedule, answers, true)
    ensures b.Delivered() == old(b.Delivered()) + Gotten(schedule, answers, false)
  {
    hide Connected, Taken, Given, AnyConn.Accepted, AnyConn.Delivered;
    answers := [];
    ghost var a0, b0, a1, b1 := a.Accepted(), b.Accepted(), a.Delivered(), b.Delivered();
    for i := 0 to |schedule|
      invariant Connected(a, b) && |answers| == i
      invariant a.Accepted() == a0 + Told(schedule[..i], answers, true)
      invariant b.Accepted() == b0 + Told(schedule[..i], answers, false)
      invariant a.Delivered() == a1 + Gotten(schedule[..i], answers, true)
      invariant b.Delivered() == b1 + Gotten(schedule[..i], answers, false)
    {
      hide Told, Gotten;
      var answer := ActAt(a, b, schedule[i].0, schedule[i].1);
      OneMore(a0, a1, schedule, answers, i, answer, true);
      OneMore(b0, b1, schedule, answers, i, answer, false);
      answers := answers + [answer];
    }
    assert schedule[..|schedule|] == schedule;
  }

  lemma Swapped(a: AnyConn, b: AnyConn)
    requires Connected(a, b)
    ensures Connected(b, a)
  {
    hide Peers, AnyConn.Valid;
  }

  // ---------------------------------------------------------------- the end of the stream

  /** `x` was closed only once flushed, and `y` saw its end only after everything `x` ever sent. */
  ghost predicate EndsAfterAll(x: AnyConn, y: AnyConn)
    reads x.Repr(), y.Repr(), x.Bottom(), y.Bottom()
  {
    && (x.Bottom().finished ==> x.Flushed())
    && (y.Bottom().eof ==> x.Bottom().finished && y.Bottom().arrived == x.Bottom().accepted)
  }

  /** A poll by a caller who does not write after its shutdown has completed. */
  method PollUntilClosed(x: AnyConn, ghost y: AnyConn, op: Op)
    requires Connected(x, y) && EndsAfterAll(x, y) && EndsAfterAll(y, x)
    modifies x.Repr()
    ensures Connected(x, y) && EndsAfterAll(x, y) && EndsAfterAll(y, x)
  {
    hide Connected, AnyConn.Valid, AnyConn.Flushed;
    ConnectedEnds(x, y);
    match op
    case Write(data) => if !x.Bottom().finished { var _ := WriteFairly(x, y, data); }
    case Flush => var _ := FlushFairly(x, y, false);
    case Shutdown => var _ := FlushFairly(x, y, true);
    case Read(cap) => var _ := ReadFairly(x, y, cap);
    case Carry(_, _) =>
  }

  lemma ConnectedEnds(x: AnyConn, y: AnyConn)
    requires Connected(x, y)
    ensures x.Repr() !! y.Repr() && x.Bottom() in x.Repr() && y.Bottom() in y.Repr()
  {
    BottomInside(x);
    BottomInside(y);
  }

  /** As `Act`, by such a caller. */
  method ActUntilClosed(x: AnyConn, y: AnyConn, op: Op)
    requires Connected(x, y) && EndsAfterAll(x, y) && EndsAfterAll(y, x)
    modifies x.Repr(), y.Repr()
    ensures Connected(x, y) && EndsAfterAll(x, y) && EndsAfterAll(y, x)
  {
    hide Sent, Written, Received, Flatten, Parse, NextFrame, Frames, Honest, Peers, SnappyLaws, GcmLaws, AnyConn.Valid,
      AnyConn.Flushed, AnyConn.CaughtUp, AnyConn.AtEof, AnyConn.CutShort, AnyConn.Explains;
    BottomInside(x);
    BottomInside(y);
    if op.Carry? { CarryBytes(x, y, op.n, op.last); } else { PollUntilClosed(x, y, op); }
  }

  /**
   For every schedule in which neither caller writes after its own shutdown has completed: an end that sees the clean
   end of the stream has been given exactly what the other was told it wrote, and never finds the stream cut short.
  */
  method RunToEnd(a: AnyConn, b: AnyConn, schedule: seq<(bool, Op)>)
    requires Connected(a, b) && EndsAfterAll(a, b) && EndsAfterAll(b, a)
    modifies a.Repr(), b.Repr()
    ensures Connected(a, b)
    ensures b.AtEof() ==> b.Delivered() == a.Accepted()
    ensures a.AtEof() ==> a.Delivered() == b.Accepted()
    ensures (b.Bottom().eof ==> !b.CutShort()) && (a.Bottom().eof ==> !a.CutShort())
  {
    hide Sent, Written, Received, Flatten, Parse, NextFrame, Frames, Peers, SnappyLaws, GcmLaws;
    for i := 0 to |schedule|
      invariant Connected(a, b) && EndsAfterAll(a, b) && EndsAfterAll(b, a)
    {
      if schedule[i].0 { ActUntilClosed(a, b, schedule[i].1); } else { ActUntilClosed(b, a, schedule[i].1); }
    }
    ConnectedIsHonest(a, b);
    EndMeansAll(a, b);
    EndMeansAll(b, a);
  }

  lemma EndMeansAll(x: AnyConn, y: AnyConn)
    requires Honest(x, y) && EndsAfterAll(x, y)
    ensures y.AtEof() ==> y.Delivered() == x.Accepted()
    ensures y.Bottom().eof ==> !y.CutShort()
  {
    hide Honest;
    if y.AtEof() { EndIsBelow(x, y); }
    if y.Bottom().eof { EndIsComplete(x, y); }
  }

  /** One end on a fresh socket. */
  method OpenEnd(useCompression: bool, useEncryption: bool, key: bytes, snappy: Snappy, cipher: Cipher, prefix: bytes)
    returns (t: Transport, conn: AnyConn)
    requires |key| == KEY_LEN && |prefix| == NONCE_PREFIX_LEN
    ensures conn.Valid() && fresh(conn.Repr()) && conn.Bottom().arrived == []
    ensures conn.Accepted() == [] && conn.Delivered() == []
    ensures IsWrapped(conn, Tcp(t), [], [], useCompression, useEncryption, snappy, cipher, key)
    ensures useCompression || useEncryption ==> CleanStack(conn)
    ensures useEncryption ==> conn.Encrypted? && conn.e.noncePrefix == prefix
  {
    hide Sent, Written, Received, Flatten, Parse, NextFrame, Frames, SnappyLaws, GcmLaws, AfterAsks, AckedBy;
    t := new Transport();
    assert Tcp(t).Valid() && Tcp(t).Asks() == NOTHING_ASKED;
    hide IsWrapped, CleanStack, AnyConn.Valid;
    var w := WrapWorkConn(Tcp(t), useCompression, useEncryption, Some(key), snappy, cipher, prefix);
    conn := w.conn;
  }

  /** A connected pair exists for every choice of options: two fresh sockets, both ends wrapped the same way. */
  method OpenPair(useCompression: bool, useEncryption: bool, key: bytes, snappy: Snappy, cipher: Cipher,
                  prefixA: bytes, prefixB: bytes)
    returns (a: AnyConn, b: AnyConn)
    requires |key| == KEY_LEN && |prefixA| == |prefixB| == NONCE_PREFIX_LEN
    requires SnappyLaws(snappy) && GcmLaws(cipher)
    ensures Connected(a, b) && fresh(a.Repr()) && fresh(b.Repr())
    ensures a.Accepted() == [] && b.Accepted() == [] && a.Delivered() == [] && b.Delivered() == []
    ensures useCompression || useEncryption ==> CleanStack(a) && CleanStack(b)
    ensures useEncryption ==>
              a.Encrypted? && b.Encrypted? && a.e.noncePrefix == prefixA && b.e.noncePrefix == prefixB
  {
    hide SnappyLaws, GcmLaws, IsWrapped, CleanStack, Connected, AnyConn.Valid, AnyConn.Accepted, AnyConn.Delivered;
    var ta, tb;
    ta, a := OpenEnd(useCompression, useEncryption, key, snappy, cipher, prefixA);
    tb, b := OpenEnd(useCompression, useEncryption, key, snappy, cipher, prefixB);
    assert Peers(Tcp(ta), Tcp(tb)) && Peers(Tcp(tb), Tcp(ta));
    WrappedArePeers(a, Tcp(ta), [], [], b, Tcp(tb), [], [], useCompression, useEncryption, snappy, cipher, key);
    BottomInside(a);
    NothingCarried(a, b);
  }

  lemma NothingCarried(a: AnyConn, b: AnyConn)
    requires a.Valid() && b.Valid() && Peers(a, b) && Peers(b, a) && a.Repr() !! b.Repr()
    requires a.Bottom().arrived == [] && b.Bottom().arrived == []
    ensures Connected(a, b)
  {
    hide Peers, AnyConn.Valid;
  }
}
