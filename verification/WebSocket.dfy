/**
 A byte stream over WebSocket messages. A write submits one binary message and then has to flush it; if the flush is
 pending, `write_pending` remembers the length so that the caller's retry does not submit the message again.
*/
module WebSocket {
  import opened Bytes

  /** What the underlying sink or stream answers to one poll. */
  datatype Answer = Pending | Fine | Broken

  /** The answers met by one `poll_write`: readiness, `start_send`, flush. */
  datatype Sink = Sink(ready: Answer, accepts: bool, flush: Answer)

  datatype PollResult = StillPending | Wrote(n: nat) | Error

  // ---------------------------------------------------------------- write side

  /**
   `submitted` are the payloads handed to the sink, in order; `acked` the bytes the caller was told were written;
   `owed` the payload submitted by a write that has not been answered yet; `failed` after a write answered by an error.
  */
  datatype Writer = Writer(submitted: seq<bytes>, writePending: Option<nat>, acked: bytes, owed: bytes, failed: bool)

  datatype Op = Write(buf: bytes, sink: Sink) | Flush(answer: Answer) | Close(answer: Answer)

  function WriteResult(w: Writer, buf: bytes, k: Sink): PollResult {
    match w.writePending
    case Some(n) =>
      (match k.flush case Fine => Wrote(n) case Broken => Error case Pending => StillPending)
    case None =>
      match k.ready
      case Pending => StillPending
      case Broken => Error
      case Fine =>
        if !k.accepts then Error
        else (match k.flush case Fine => Wrote(|buf|) case Broken => Error case Pending => StillPending)
  }

  /**
   How a write is answered. With a message still to be flushed only the flush matters; otherwise the sink must be ready,
   accept the message and be flushed. Whatever breaks is an error, whatever must wait is pending, and what is written is
   the length of the message submitted.
  */
  lemma AnswersWrite(w: Writer, buf: bytes, k: Sink)
    ensures WriteResult(w, buf, k).Error? <==>
              if w.writePending.Some? then k.flush == Broken
              else k.ready == Broken || (k.ready == Fine && (!k.accepts || k.flush == Broken))
    ensures WriteResult(w, buf, k).StillPending? <==>
              if w.writePending.Some? then k.flush == Pending
              else k.ready == Pending || (k.ready == Fine && k.accepts && k.flush == Pending)
    ensures WriteResult(w, buf, k).Wrote? ==>
              WriteResult(w, buf, k).n == if w.writePending.Some? then w.writePending.value else |buf|
  {
  }

  function Step(w: Writer, op: Op): Writer {
    match op
    case Flush(a) => if a.Fine? then w.(writePending := None) else w
    case Close(_) => w
    case Write(buf, k) =>
      var r := WriteResult(w, buf, k);
      var submits := w.writePending.None? && k.ready.Fine? && k.accepts;
      var w' := if submits then w.(submitted := w.submitted + [buf], owed := buf) else w;
      match r
      case Wrote(n) => w'.(writePending := None, owed := [], acked := w.acked + buf[..Min(n, |buf|)])
      case Error => w'.(writePending := None, failed := true)
      case StillPending => if submits then w'.(writePending := Some(|buf|)) else w'
  }

  function Run(ops: seq<Op>): Writer {
    if ops == [] then Writer([], None, [], [], false) else Step(Run(ops[..|ops| - 1]), ops[|ops| - 1])
  }

  /** A caller that stops when a write fails and, while a write is unanswered, retries it with the same bytes. */
  predicate Retries(w: Writer, op: Op) {
    && !w.failed
    && (op.Write? && (w.writePending.Some? || w.owed != []) ==> op.buf == w.owed)
  }

  /** A flush completes while a non-empty write is unanswered. */
  predicate Forgets(w: Writer, op: Op) { op == Flush(Fine) && w.owed != [] }

  predicate Retrying(ops: seq<Op>) {
    ops == [] || (Retrying(ops[..|ops| - 1]) && Retries(Run(ops[..|ops| - 1]), ops[|ops| - 1]))
  }

  predicate NeverForgets(ops: seq<Op>) {
    ops == [] || (NeverForgets(ops[..|ops| - 1]) && !Forgets(Run(ops[..|ops| - 1]), ops[|ops| - 1]))
  }

  ghost predicate Inv(w: Writer) {
    && Flatten(w.submitted) == w.acked + w.owed
    && (!w.failed ==> w.writePending == Some(|w.owed|) || (w.writePending == None && w.owed == []))
  }

  lemma WriteKeeps(w: Writer, buf: bytes, k: Sink)
    requires Inv(w) && Retries(w, Write(buf, k))
    ensures var t := Step(w, Write(buf, k));
            && Inv(t)
            && (match WriteResult(w, buf, k)
                case Wrote(n) => n == |buf| && t.acked == w.acked + buf
                case _ => t.acked == w.acked)
  {
    hide Flatten;
    FlattenSnoc(w.submitted, buf);
    assert buf[..|buf|] == buf;
    assert w.acked + w.owed + [] == w.acked + w.owed && w.acked + [] == w.acked;
  }

  lemma StepKeeps(w: Writer, op: Op)
    requires Inv(w) && Retries(w, op) && !Forgets(w, op)
    ensures Inv(Step(w, op))
    ensures op.Write? ==>
              match WriteResult(w, op.buf, op.sink)
              case Wrote(n) => n == |op.buf| && Step(w, op).acked == w.acked + op.buf
              case _ => Step(w, op).acked == w.acked
  {
    hide Flatten, WriteResult;
    if op.Write? { WriteKeeps(w, op.buf, op.sink); }
  }

  /**
   Exactly once: as long as no flush completes while a non-empty write is unanswered (flushes that stay pending or fail
   do no harm), the payloads on the wire are the acknowledged bytes, followed by at most the one write still pending
   (or the one that failed).
  */
  lemma {:induction false} ExactlyOnce(ops: seq<Op>)
    requires Retrying(ops) && NeverForgets(ops)
    ensures Inv(Run(ops))
  {
    if ops != [] {
      ExactlyOnce(ops[..|ops| - 1]);
      StepKeeps(Run(ops[..|ops| - 1]), ops[|ops| - 1]);
    }
  }

  /** More was submitted than acknowledged or owed, or it will be as soon as the unanswered write is retried. */
  predicate Doubled(w: Writer) {
    var sent, known := |Flatten(w.submitted)|, |w.acked| + |w.owed|;
    sent >= known && (sent > known || (w.writePending.None? && w.owed != []))
  }

  lemma DoubledStays(w: Writer, op: Op)
    requires Doubled(w) && Retries(w, op) && (w.writePending.Some? ==> w.writePending.value == |w.owed|)
    ensures Doubled(Step(w, op)) || Step(w, op).failed
    ensures var t := Step(w, op); t.writePending.Some? ==> t.writePending.value == |t.owed|
  {
    if op.Write? { FlattenSnoc(w.submitted, op.buf); }
  }

  /** Once such a flush has completed, every way on but an error leads to doubled bytes. */
  lemma {:induction false} ForgottenIsDoubled(ops: seq<Op>)
    requires Retrying(ops) && !NeverForgets(ops) && !Run(ops).failed
    ensures var w := Run(ops); Doubled(w) && (w.writePending.Some? ==> w.writePending.value == |w.owed|)
  {
    var init, last := ops[..|ops| - 1], ops[|ops| - 1];
    if NeverForgets(init) {
      ExactlyOnce(init);
    } else {
      ForgottenIsDoubled(init);
      DoubledStays(Run(init), last);
    }
  }

  /**
   When a caller that retries has had all its writes answered, the wire holds exactly the acknowledged bytes if and only
   if no flush completed while a non-empty write was unanswered.
  */
  lemma ExactlyOnceIff(ops: seq<Op>)
    requires Retrying(ops) && !Run(ops).failed && Run(ops).owed == []
    ensures Flatten(Run(ops).submitted) == Run(ops).acked <==> NeverForgets(ops)
  {
    if NeverForgets(ops) {
      ExactlyOnce(ops);
      assert Run(ops).acked + [] == Run(ops).acked;
    } else {
      ForgottenIsDoubled(ops);
    }
  }

  /**
   What happens then: the flush forgets the pending length, and the retry sends the same bytes twice. This happens for
   every pending write of at least one byte.
  */
  lemma FlushBeforeRetryDuplicates(w: Writer)
    requires Inv(w) && !w.failed && w.writePending.Some? && w.owed != []
    ensures var t := Step(Step(w, Flush(Fine)), Write(w.owed, Sink(Fine, true, Fine)));
            && t.acked == w.acked + w.owed
            && Flatten(t.submitted) == w.acked + w.owed + w.owed != t.acked
  {
    FlattenSnoc(w.submitted, w.owed);
    assert w.owed[..|w.owed|] == w.owed;
  }

  /** A flush is harmless exactly when it does not complete or no non-empty write is pending. */
  lemma FlushSafeIff(w: Writer, a: Answer)
    requires Inv(w) && !w.failed
    ensures Inv(Step(w, Flush(a))) <==> !Forgets(w, Flush(a))
  {
  }

  // ---------------------------------------------------------------- read side

  /** Data messages carry bytes; the rest (ping, pong, close) carries none. */
  datatype Message = Binary(data: bytes) | Text(data: bytes) | Control

  function Payload(ms: seq<Message>): bytes {
    if ms == [] then []
    else Payload(ms[..|ms| - 1]) + (if ms[|ms| - 1].Control? then [] else ms[|ms| - 1].data)
  }

  datatype ReadResult = ReadPending | Bytes(data: bytes) | ReadError

  // ---------------------------------------------------------------- the adapter

  class WebSocketConn {
    var readBuf: bytes
    var writePending: Option<nat>
    var incoming: seq<Message>
    ghost var writer: Writer
    ghost var consumed: seq<Message>
    ghost var delivered: bytes

    ghost predicate Valid()
      reads this
    {
      && writer.writePending == writePending
      && Payload(consumed) == delivered + readBuf
    }

    constructor ()
      ensures Valid() && writer == Run([]) && consumed == [] && delivered == []
    {
      readBuf, writePending, incoming := [], None, [];
      writer, consumed, delivered := Run([]), [], [];
    }

    /** `poll_write`. */
    method PollWrite(buf: bytes, sink: Sink) returns (r: PollResult)
      requires Valid()
      modifies this`writePending, this`writer
      ensures Valid() && writer == Step(old(writer), Write(buf, sink)) && r == WriteResult(old(writer), buf, sink)
    {
      writer := Step(writer, Write(buf, sink));
      if writePending.Some? {
        var n := writePending.value;
        match sink.flush
        case Fine => writePending := None; return Wrote(n);
        case Broken => writePending := None; return Error;
        case Pending => return StillPending;
      }
      match sink.ready
      case Pending => return StillPending;
      case Broken => return Error;
      case Fine =>
        if !sink.accepts { return Error; }
        match sink.flush
        case Fine => return Wrote(|buf|);
        case Broken => return Error;
        case Pending =>
          writePending := Some(|buf|);
          return StillPending;
    }

    /** `poll_flush`. */
    method PollFlush(answer: Answer)
      requires Valid()
      modifies this`writePending, this`writer
      ensures Valid() && writer == Step(old(writer), Flush(answer))
    {
      writer := Step(writer, Flush(answer));
      if answer.Fine? { writePending := None; }
    }

    /** `poll_shutdown`: the sink is closed, nothing else changes. */
    method PollShutdown(answer: Answer)
      requires Valid()
      modifies this`writer
      ensures Valid() && writer == Step(old(writer), Close(answer))
    {
      writer := Step(writer, Close(answer));
    }

    /** Copies out the front of `data` and keeps the rest in `readBuf`. */
    method HandOut(data: bytes, cap: nat) returns (front: bytes)
      requires writer.writePending == writePending && Payload(consumed) == delivered + data
      modifies this`readBuf, this`delivered
      ensures Valid() && delivered == old(delivered) + front && |front| == Min(|data|, cap)
    {
      var len := Min(|data|, cap);
      front := data[..len];
      assert delivered + data == delivered + front + data[len..];
      delivered := delivered + front;
      readBuf := data[len..];
    }

    /**
     `poll_read`: buffered bytes first, else the next data message; control messages are skipped. `idle` is what the
     stream answers when no message is queued (`Fine` stands for the end of the stream, reported as an error).
    */
    method PollRead(cap: nat, idle: Answer) returns (r: ReadResult)
      requires Valid()
      modifies this`readBuf, this`incoming, this`consumed, this`delivered
      ensures Valid()
      ensures r.Bytes? ==> |r.data| <= cap && delivered == old(delivered) + r.data
      ensures !r.Bytes? ==> delivered == old(delivered)
      ensures consumed + incoming == old(consumed) + old(incoming)
      ensures r.Bytes? && r.data == [] && cap > 0 ==>
                consumed != [] && !consumed[|consumed| - 1].Control? && consumed[|consumed| - 1].data == []
      ensures !r.Bytes? ==> incoming == [] && (r.ReadPending? <==> idle.Pending?)
    {
      hide Payload;
      if readBuf != [] {
        var data := HandOut(readBuf, cap);
        return Bytes(data);
      }
      while incoming != []
        invariant Valid() && readBuf == [] && delivered == old(delivered)
        invariant consumed + incoming == old(consumed) + old(incoming)
        decreases |incoming|
      {
        var m := incoming[0];
        PayloadSnoc(consumed, m);
        MoveOver(consumed, incoming);
        consumed, incoming := consumed + [m], incoming[1..];
        if !m.Control? {
          var data := HandOut(m.data, cap);
          return Bytes(data);
        }
        assert Payload(consumed) == delivered + [] + [] == delivered + readBuf;
      }
      return if idle.Pending? then ReadPending else ReadError;
    }
  }

  lemma MoveOver(a: seq<Message>, b: seq<Message>)
    requires b != []
    ensures a + b == a + [b[0]] + b[1..]
  {
  }

  lemma PayloadSnoc(ms: seq<Message>, m: Message)
    ensures Payload(ms + [m]) == Payload(ms) + (if m.Control? then [] else m.data)
  {
    assert (ms + [m])[..|ms|] == ms;
  }

  /** The payloads of the data messages among `ms`. */
  function DataOf(ms: seq<Message>): seq<bytes> {
    if ms == [] then []
    else DataOf(ms[..|ms| - 1]) + (if ms[|ms| - 1].Control? then [] else [ms[|ms| - 1].data])
  }

  lemma {:induction false} PayloadIsFlatten(ms: seq<Message>)
    ensures Payload(ms) == Flatten(DataOf(ms))
  {
    if ms != [] {
      var init, last := ms[..|ms| - 1], ms[|ms| - 1];
      PayloadIsFlatten(init);
      if last.Control? {
        assert DataOf(init) + [] == DataOf(init) && Payload(init) + [] == Payload(init);
      } else {
        FlattenSnoc(DataOf(init), last.data);
      }
    }
  }

  /**
   Both ends together. The writing end has done any run of a retrying caller in which no flush completes while a
   non-empty write is unanswered; the data messages the reading end has consumed, with any control messages in between,
   are the first of those submitted. Then the bytes read are a prefix of the acknowledged bytes and the one unanswered
   write; and all the acknowledged bytes once every message is consumed and every write answered.
  */
  lemma ReadsWhatWasSubmitted(ops: seq<Op>, sender: WebSocketConn, reader: WebSocketConn)
    requires sender.writer == Run(ops) && Retrying(ops) && NeverForgets(ops)
    requires reader.Valid() && DataOf(reader.consumed) <= sender.writer.submitted
    ensures reader.delivered <= sender.writer.acked + sender.writer.owed
    ensures DataOf(reader.consumed) == sender.writer.submitted && reader.readBuf == [] && sender.writer.owed == []
            ==> reader.delivered == sender.writer.acked
  {
    hide Payload, Flatten, DataOf, Run, Retrying, NeverForgets;
    ExactlyOnce(ops);
    PayloadIsFlatten(reader.consumed);
    FlattenPrefix(DataOf(reader.consumed), sender.writer.submitted);
    assert sender.writer.acked + [] == sender.writer.acked && reader.delivered + [] == reader.delivered;
  }
}
