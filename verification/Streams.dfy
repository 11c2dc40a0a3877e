/**
 The layered byte streams. `AnyConn` is the source's boxed connection: a transport, or a transport under
 any stack of `CompressedStream` and `EncryptedStream` layers. Every poll method may be called at any
 moment; the transport decides freely how much it takes, how much it gives, and when it is pending.

 `Accepted()` is every byte the caller was told was written; `Delivered()` every byte handed to a reader.
*/
module Streams {
  import opened Bytes
  import opened Framing
  import opened Crypto

  /** The `ErrorKind`s the layers produce; `Os` is whatever the transport reports. */
  datatype IoError = WriteZero | InvalidData | UnexpectedEof | NonceExhausted | InvalidInput | Os(code: int)

  datatype Io<+T> = Ok(value: T) | Err(error: IoError)

  /** `Poll<io::Result<T>>`. */
  datatype Poll<+T> = Pending | Ready(io: Io<T>) {
    predicate IsOk() { Ready? && io.Ok? }
    predicate IsErr() { Ready? && io.Err? }
  }

  const TMP_LEN: int := 4096

  // ---------------------------------------------------------------- transport

  /**
   What can be seen of a transport from outside: the two wires, how often it was pending or at fault, and whether each
   direction was closed.
  */
  datatype Trace = Trace(accepted: bytes, arrived: bytes, pended: nat, faults: set<IoError>, finished: bool, eof: bool)

  /** Polls only add to the outgoing wire and to the counts. */
  predicate Later(a: Trace, b: Trace) {
    && a.accepted <= b.accepted && a.arrived == b.arrived && a.pended <= b.pended && a.faults <= b.faults
    && a.finished == b.finished && a.eof == b.eof
  }

  /** A shutdown may also close the transport. */
  predicate LaterOrClosed(a: Trace, b: Trace) { Later(a, b.(finished := a.finished)) && (a.finished ==> b.finished) }

  /** What was asked of the sending side of a transport, with the answer. */
  datatype Ask = WriteAsk(buf: bytes, r: Poll<nat>) | FlushAsk(done: Poll<()>) | ShutAsk(done: Poll<()>)

  /**
   How the asking went: `left` is the write not answered yet, or answered by an error; `failed` whether there was such
   an error; `kept` whether every unanswered write was asked again with the same bytes before anything else was asked,
   and nothing was asked after an error.
  */
  datatype Asked = Asked(left: Option<bytes>, failed: bool, kept: bool)

  const NOTHING_ASKED: Asked := Asked(None, false, true)

  function AfterWrite(a: Asked, buf: bytes, r: Poll<nat>): Asked {
    Asked(if r.IsOk() then None else Some(buf), a.failed || r.IsErr(),
          a.kept && !a.failed && (a.left.Some? ==> a.left.value == buf))
  }

  function AfterFlush(a: Asked): Asked { a.(kept := a.kept && !a.failed && a.left.None?) }

  function AfterAsks(asks: seq<Ask>): Asked {
    if asks == [] then NOTHING_ASKED
    else
      var before, last := AfterAsks(asks[..|asks| - 1]), asks[|asks| - 1];
      if last.WriteAsk? then AfterWrite(before, last.buf, last.r) else AfterFlush(before)
  }

  /** The bytes answered for. */
  function AckedBy(asks: seq<Ask>): bytes {
    if asks == [] then []
    else
      var before, last := AckedBy(asks[..|asks| - 1]), asks[|asks| - 1];
      if last.WriteAsk? && last.r.IsOk() then before + last.buf[..Min(last.r.io.value, |last.buf|)] else before
  }

  lemma AskSnoc(asks: seq<Ask>, ask: Ask)
    ensures AfterAsks(asks + [ask]) ==
            if ask.WriteAsk? then AfterWrite(AfterAsks(asks), ask.buf, ask.r) else AfterFlush(AfterAsks(asks))
    ensures AckedBy(asks + [ask]) ==
            AckedBy(asks) + if ask.WriteAsk? && ask.r.IsOk() then ask.buf[..Min(ask.r.io.value, |ask.buf|)] else []
  {
    assert (asks + [ask])[..|asks|] == asks;
    assert AckedBy(asks) + [] == AckedBy(asks);
  }

  /**
   A socket. `accepted` is the outgoing wire; `arrived` is what the network has brought in so far. `pended` says
   how often it answered pending; `faults` are the errors it has reported, `WriteZero` standing for taking nothing of a
   write; `flushedTo` is what the last flush covered; `asks` is all that was asked of its sending side, and `asked`
   what that comes to.
  */
  class Transport {
    var accepted: bytes
    var arrived: bytes
    var taken: nat
    var eof: bool
    var finished: bool
    ghost var pended: nat
    ghost var faults: set<IoError>
    ghost var flushedTo: nat
    ghost var asks: seq<Ask>
    ghost var asked: Asked

    ghost predicate Valid()
      reads this
    {
      taken <= |arrived| && asked == AfterAsks(asks) && accepted == AckedBy(asks)
    }

    /** The bytes handed out so far. */
    ghost function Given(): bytes
      reads this
    {
      if taken <= |arrived| then arrived[..taken] else arrived
    }

    ghost function Wire(): Trace
      reads this
    {
      Trace(accepted, arrived, pended, faults, finished, eof)
    }

    constructor ()
      ensures Valid() && accepted == [] && arrived == [] && taken == 0 && !eof && !finished
      ensures pended == flushedTo == 0 && faults == {} && asks == [] && asked == NOTHING_ASKED
    {
      accepted, arrived, taken, eof, finished := [], [], 0, false, false;
      pended, faults, flushedTo, asks, asked := 0, {}, 0, [], NOTHING_ASKED;
    }

    /** The transport's free choice between going on, being pending and failing. */
    method Choose() returns (r: Poll<()>)
      modifies this`pended, this`faults
      ensures r.Pending? ==> pended == old(pended) + 1 && faults == old(faults)
      ensures r.IsErr() ==> r.io.error.Os? && faults == old(faults) + {r.io.error} && pended == old(pended)
      ensures r.IsOk() ==> pended == old(pended) && faults == old(faults)
    {
      var pending, fails: bool := *, *;
      if pending {
        pended := pended + 1;
        return Pending;
      }
      if fails {
        var code: int := *;
        faults := faults + {Os(code)};
        return Ready(Err(Os(code)));
      }
      return Ready(Ok(()));
    }

    /** Records a question about the sending side. */
    ghost method Note(ask: Ask)
      requires asked == AfterAsks(asks)
      modifies this`asks, this`asked
      ensures asks == old(asks) + [ask] && asked == AfterAsks(asks)
      ensures asked == if ask.WriteAsk? then AfterWrite(old(asked), ask.buf, ask.r) else AfterFlush(old(asked))
      ensures AckedBy(asks) ==
              AckedBy(old(asks))
              + if ask.WriteAsk? && ask.r.IsOk() then ask.buf[..Min(ask.r.io.value, |ask.buf|)] else []
    {
      AskSnoc(asks, ask);
      asks := asks + [ask];
      asked := AfterAsks(asks);
    }

    /** Takes any prefix of `buf`, including none of it, or is pending, or fails. */
    method PollWrite(buf: bytes) returns (r: Poll<nat>)
      requires Valid()
      modifies this`accepted, this`pended, this`faults, this`asks, this`asked
      ensures Valid() && Later(old(Wire()), Wire())
      ensures asks == old(asks) + [WriteAsk(buf, r)] && asked == AfterWrite(old(asked), buf, r)
      ensures r.IsOk() ==> r.io.value <= |buf| && accepted == old(accepted) + buf[..r.io.value]
      ensures r.IsOk() && r.io.value == 0 && buf != [] ==> WriteZero in faults
      ensures !r.IsOk() ==> accepted == old(accepted)
      ensures r.Pending? ==> pended > old(pended)
      ensures r.IsErr() ==> r.io.error.Os? && r.io.error in faults
    {
      hide AfterAsks, AckedBy, AfterWrite, AfterFlush;
      var go := Choose();
      match go {
        case Pending => r := Pending;
        case Ready(Err(e)) => r := Ready(Err(e));
        case Ready(Ok(_)) =>
          var n: nat :| n <= |buf|;
          accepted := accepted + buf[..n];
          if n == 0 && buf != [] { faults := faults + {WriteZero}; }
          r := Ready(Ok(n));
      }
      Note(WriteAsk(buf, r));
    }

    /** Gives some arrived bytes, or is pending even though bytes have arrived, or fails; no bytes only at the end. */
    method PollRead(cap: nat) returns (r: Poll<bytes>)
      requires Valid()
      modifies this`taken, this`pended, this`faults
      ensures Valid() && Later(old(Wire()), Wire())
      ensures r.IsOk() ==> |r.io.value| <= cap && Given() == old(Given()) + r.io.value
      ensures !r.IsOk() ==> taken == old(taken)
      ensures r.IsOk() && r.io.value == [] && cap > 0 ==> eof && taken == |arrived|
      ensures r.Pending? ==> pended > old(pended)
      ensures r.IsErr() ==> r.io.error.Os? && r.io.error in faults
    {
      var go := Choose();
      match go
      case Pending => return Pending;
      case Ready(Err(e)) => return Ready(Err(e));
      case Ready(Ok(_)) =>
        if cap > 0 && taken == |arrived| && !eof {
          pended := pended + 1;
          return Pending;
        }
        if cap == 0 || taken == |arrived| { return Ready(Ok([])); }
        var n: nat :| 0 < n <= cap && taken + n <= |arrived|;
        var data := arrived[taken..taken + n];
        assert arrived[..taken + n] == arrived[..taken] + data;
        taken := taken + n;
        return Ready(Ok(data));
    }

    method PollFlush() returns (r: Poll<()>)
      requires Valid()
      modifies this`flushedTo, this`pended, this`faults, this`asks, this`asked
      ensures Valid() && Later(old(Wire()), Wire())
      ensures asks == old(asks) + [FlushAsk(r)] && asked == AfterFlush(old(asked))
      ensures flushedTo == if r.IsOk() then |accepted| else old(flushedTo)
      ensures accepted == old(accepted)
      ensures r.Pending? ==> pended > old(pended)
      ensures r.IsErr() ==> r.io.error.Os? && r.io.error in faults
    {
      hide AfterAsks, AckedBy, AfterWrite, AfterFlush;
      r := Choose();
      Note(FlushAsk(r));
      if r.IsOk() { flushedTo := |accepted|; }
    }

    method PollShutdown() returns (r: Poll<()>)
      requires Valid()
      modifies this`finished, this`flushedTo, this`pended, this`faults, this`asks, this`asked
      ensures Valid() && LaterOrClosed(old(Wire()), Wire())
      ensures asks == old(asks) + [ShutAsk(r)] && asked == AfterFlush(old(asked))
      ensures r.IsOk() ==> finished && flushedTo == |accepted|
      ensures !r.IsOk() ==> finished == old(finished) && flushedTo == old(flushedTo)
      ensures accepted == old(accepted)
      ensures r.Pending? ==> pended > old(pended)
      ensures r.IsErr() ==> r.io.error.Os? && r.io.error in faults
    {
      hide AfterAsks, AckedBy, AfterWrite, AfterFlush;
      r := Choose();
      Note(ShutAsk(r));
      if r.IsOk() { finished, flushedTo := true, |accepted|; }
    }

    /** The network brings more bytes, and possibly the end of the stream. */
    method Arrive(more: bytes, last: bool)
      requires Valid()
      modifies this`arrived, this`eof
      ensures Valid()
      ensures old(eof) ==> arrived == old(arrived) && eof
      ensures !old(eof) ==> arrived == old(arrived) + more && eof == last
      ensures taken == old(taken) && Given() == old(Given())
    {
      if !eof {
        assert (arrived + more)[..taken] == arrived[..taken];
        arrived := arrived + more;
        eof := last;
      }
    }
  }

  // ---------------------------------------------------------------- boxed connection

  datatype AnyConn = Tcp(t: Transport) | Compressed(c: CompressedStream) | Encrypted(e: EncryptedStream) {

    ghost function Repr(): set<object> {
      match this
      case Tcp(t) => {t}
      case Compressed(c) => {c} + c.Repr
      case Encrypted(e) => {e} + e.Repr
    }

    ghost function Depth(): nat {
      match this
      case Tcp(_) => 0
      case Compressed(c) => c.depth
      case Encrypted(e) => e.depth
    }

    function Bottom(): Transport {
      match this
      case Tcp(t) => t
      case Compressed(c) => c.bottom
      case Encrypted(e) => e.bottom
    }

    ghost predicate Valid()
      reads Repr()
      decreases Depth(), 6
    {
      match this
      case Tcp(t) => t.Valid()
      case Compressed(c) => c.Valid()
      case Encrypted(e) => e.Valid()
    }

    ghost function Accepted(): bytes
      reads Repr()
    {
      match this
      case Tcp(t) => t.accepted
      case Compressed(c) => c.accepted
      case Encrypted(e) => e.accepted
    }

    ghost function Delivered(): bytes
      reads Repr()
    {
      match this
      case Tcp(t) => t.Given()
      case Compressed(c) => c.delivered
      case Encrypted(e) => e.delivered
    }

    /** How a bare transport was asked; a layer above answers for itself. */
    ghost function Asks(): Asked
      reads Repr()
    {
      if Tcp? then t.asked else NOTHING_ASKED
    }

    /**
     What a layer with `left` still to write may have asked so far: nothing out of turn, and the unanswered write, if
     any, is `left` itself.
    */
    ghost predicate InTurn(left: bytes, latched: bool)
      reads Repr()
    {
      && Asks().kept && (Asks().failed ==> latched)
      && (Asks().left.Some? ==> left != [] && Asks().left.value == left)
    }

    /** Nothing accepted is still buffered in any layer. */
    ghost predicate Flushed()
      reads Repr()
      decreases Depth(), 2
    {
      match this
      case Tcp(t) => t.flushedTo == |t.accepted|
      case Compressed(c) => c.Flushed()
      case Encrypted(e) => e.Flushed()
    }

    /** Every layer has decoded and handed out all it can from the bytes taken off the transport. */
    ghost predicate CaughtUp()
      reads Repr()
      decreases Depth(), 2
    {
      match this
      case Tcp(_) => true
      case Compressed(c) => c.CaughtUp()
      case Encrypted(e) => e.CaughtUp()
    }

    /** The stream ended on a frame boundary of every layer. */
    ghost predicate AtEof()
      reads Repr()
      decreases Depth(), 2
    {
      match this
      case Tcp(t) => t.eof && t.taken == |t.arrived|
      case Compressed(c) => c.AtEof()
      case Encrypted(e) => e.AtEof()
    }

    /** A frame with an empty plaintext was decoded; the reader cannot tell it from the end of the stream. */
    ghost predicate SawEmpty()
      reads Repr()
    {
      match this
      case Tcp(_) => false
      case Compressed(c) => [] in c.got
      case Encrypted(e) => [] in e.got
    }

    /** Some layer has a bad frame at the front of its receive buffer. */
    ghost predicate SawBad()
      reads Repr()
      decreases Depth(), 2
    {
      match this
      case Tcp(_) => false
      case Compressed(c) => c.SawBad()
      case Encrypted(e) => e.SawBad()
    }

    /** Some layer saw the end of its input in the middle of a frame. */
    ghost predicate CutShort()
      reads Repr()
      decreases Depth(), 2
    {
      match this
      case Tcp(_) => false
      case Compressed(c) => c.CutShort()
      case Encrypted(e) => e.CutShort()
    }

    /** Some layer has used all its nonces. */
    ghost predicate Spent()
      reads Repr()
      decreases Depth(), 2
    {
      match this
      case Tcp(_) => false
      case Compressed(c) => c.Spent()
      case Encrypted(e) => e.Spent()
    }

    /** The transport has reported this very error, or taken none of a write. */
    ghost predicate Faulty(e: IoError)
      reads Repr()
      decreases Depth(), 2
    {
      match this
      case Tcp(t) => e in t.faults
      case Compressed(c) => c.Faulty(e)
      case Encrypted(s) => s.Faulty(e)
    }

    /** Each error kind means what it says. */
    ghost predicate Explains(e: IoError)
      reads Repr()
      decreases Depth(), 4
    {
      match e
      case InvalidData => SawBad()
      case UnexpectedEof => CutShort()
      case NonceExhausted => Spent()
      case InvalidInput => false
      case _ => Faulty(e)
    }

    /** Some error has a reason. */
    ghost predicate InTrouble()
      reads Repr()
      decreases Depth(), 5
    {
      match this
      case Tcp(t) => t.faults != {}
      case Compressed(c) => c.InTrouble()
      case Encrypted(e) => e.InTrouble()
    }

    method PollWrite(buf: bytes) returns (r: Poll<nat>)
      requires Valid()
      modifies Repr()
      ensures Valid() && Delivered() == old(Delivered())
      ensures r.IsOk() ==> r.io.value <= |buf| && Accepted() == old(Accepted()) + buf[..r.io.value]
      ensures r.IsOk() && r.io.value == 0 && buf != [] ==> Faulty(WriteZero)
      ensures !r.IsOk() ==> Accepted() == old(Accepted())
      ensures r.IsErr() ==> Explains(r.io.error)
      ensures Later(old(Bottom().Wire()), Bottom().Wire()) && (r.Pending? ==> Bottom().pended > old(Bottom().pended))
      ensures Tcp? ==> Asks() == AfterWrite(old(Asks()), buf, r)
      ensures r.IsOk() && !Tcp? ==> Flushed() || Bottom().pended > old(Bottom().pended) || InTrouble()
      decreases Depth(), 9
    {
      hide Sent, Written, Received, Flatten, Parse, Frames, FrameBytes, NextFrame, SnappySealer, SnappyOpener,
        GcmSealer, GcmOpener;
      match this
      case Tcp(t) => r := t.PollWrite(buf);
      case Compressed(c) => r := c.PollWrite(buf);
      case Encrypted(e) => r := e.PollWrite(buf);
    }

    method PollFlush() returns (r: Poll<()>)
      requires Valid()
      modifies Repr()
      ensures Valid() && Accepted() == old(Accepted()) && Delivered() == old(Delivered())
      ensures r.IsOk() ==> Flushed()
      ensures r.IsErr() ==> Explains(r.io.error)
      ensures Later(old(Bottom().Wire()), Bottom().Wire()) && (r.Pending? ==> Bottom().pended > old(Bottom().pended))
      ensures Tcp? ==> Asks() == AfterFlush(old(Asks()))
      ensures old(Flushed()) ==> Flushed() && Bottom().accepted == old(Bottom().accepted)
      decreases Depth(), 9
    {
      hide Sent, Written, Received, Flatten, Parse, Frames, FrameBytes, NextFrame, SnappySealer, SnappyOpener,
        GcmSealer, GcmOpener;
      match this
      case Tcp(t) => r := t.PollFlush();
      case Compressed(c) => r := c.PollFlush();
      case Encrypted(e) => r := e.PollFlush();
    }

    method PollShutdown() returns (r: Poll<()>)
      requires Valid()
      modifies Repr()
      ensures Valid() && Accepted() == old(Accepted()) && Delivered() == old(Delivered())
      ensures r.IsOk() ==> Flushed() && Bottom().finished
      ensures r.IsErr() ==> Explains(r.io.error)
      ensures LaterOrClosed(old(Bottom().Wire()), Bottom().Wire())
      ensures (r.Pending? ==> Bottom().pended > old(Bottom().pended))
      ensures Tcp? ==> Asks() == AfterFlush(old(Asks()))
      ensures Bottom().finished ==> old(Bottom().finished) || r.IsOk()
      ensures old(Flushed()) ==> Flushed() && Bottom().accepted == old(Bottom().accepted)
      decreases Depth(), 9
    {
      hide Sent, Written, Received, Flatten, Parse, Frames, FrameBytes, NextFrame, SnappySealer, SnappyOpener,
        GcmSealer, GcmOpener;
      match this
      case Tcp(t) => r := t.PollShutdown();
      case Compressed(c) => r := c.PollShutdown();
      case Encrypted(e) => r := e.PollShutdown();
    }

    method PollRead(cap: nat) returns (r: Poll<bytes>)
      requires Valid()
      modifies Repr()
      ensures Valid() && Accepted() == old(Accepted())
      ensures r.IsOk() ==> |r.io.value| <= cap && Delivered() == old(Delivered()) + r.io.value
      ensures !r.IsOk() ==> Delivered() == old(Delivered())
      ensures r.Pending? ==> CaughtUp()
      ensures r.IsOk() && r.io.value == [] && cap > 0 ==> AtEof() || SawEmpty()
      ensures r.IsErr() ==> Explains(r.io.error)
      ensures Later(old(Bottom().Wire()), Bottom().Wire()) && Bottom().accepted == old(Bottom().accepted)
      ensures r.Pending? ==> Bottom().pended > old(Bottom().pended)
      ensures Asks() == old(Asks())
      ensures Flushed() == old(Flushed())
      decreases Depth(), 9
    {
      hide Sent, Written, Received, Flatten, Parse, Frames, FrameBytes, NextFrame, SnappySealer, SnappyOpener,
        GcmSealer, GcmOpener;
      match this
      case Tcp(t) => r := t.PollRead(cap);
      case Compressed(c) => r := c.PollRead(cap);
      case Encrypted(e) => r := e.PollRead(cap);
    }

    /** The network acts on the transport underneath; no layer notices until it reads. */
    method Arrive(more: bytes, last: bool)
      requires Valid()
      modifies Repr()
      ensures Valid() && Accepted() == old(Accepted()) && Delivered() == old(Delivered())
      ensures Bottom().Wire() == old(Bottom().Wire()).(arrived := Bottom().arrived, eof := Bottom().eof)
      ensures old(Bottom().eof) ==> Bottom().arrived == old(Bottom().arrived) && Bottom().eof
      ensures !old(Bottom().eof) ==> Bottom().arrived == old(Bottom().arrived) + more && Bottom().eof == last
      ensures Flushed() == old(Flushed()) && SawBad() == old(SawBad()) && SawEmpty() == old(SawEmpty())
      ensures Spent() == old(Spent()) && forall e :: Faulty(e) == old(Faulty(e))
      ensures (old(AtEof()) ==> AtEof()) && (old(CutShort()) ==> CutShort())
      ensures Asks() == old(Asks())
      decreases Depth(), 9
    {
      hide Sent, Written, Received, Flatten, Parse, Frames, FrameBytes, NextFrame, SnappySealer, SnappyOpener,
        GcmSealer, GcmOpener;
      match this
      case Tcp(t) => t.Arrive(more, last);
      case Compressed(c) => c.Arrive(more, last);
      case Encrypted(e) => e.Arrive(more, last);
    }
  }

  lemma BottomInside(conn: AnyConn)
    requires conn.Valid()
    ensures conn.Bottom() in conn.Repr()
  {
    match conn
    case Tcp(_) =>
    case Compressed(c) => assert c.Sound();
    case Encrypted(e) => assert e.Sound();
  }

  // ---------------------------------------------------------------- compression layer

  class CompressedStream {
    const inner: AnyConn
    const snappy: Snappy
    var outBuf: bytes
    var outPos: nat
    var rxBuf: bytes
    var inPlain: bytes
    var inPos: nat
    var stickyErr: Option<IoError>

    // The objects below, the height of the stack, and what `inner` had already carried when this layer was added.
    ghost const Repr: set<object>
    ghost const depth: nat
    const bottom: Transport
    ghost const writeBase: bytes
    ghost const readBase: bytes
    // Whether nothing of the sending side was pending or broken when this layer was added.
    ghost const clean: bool

    // History: bytes acknowledged and handed out, blocks framed, frames decoded (as bytes and as blocks).
    ghost var accepted: bytes
    ghost var delivered: bytes
    ghost var records: seq<bytes>
    ghost var eaten: bytes
    ghost var got: seq<bytes>

    ghost predicate Valid()
      reads this, Repr
      decreases depth, 5
    {
      Sound() && (clean ==> inner.InTurn(outBuf[outPos..], stickyErr.Some?))
    }

    ghost predicate Sound()
      reads this, Repr
      decreases depth, 4
    {
      && Repr == {this} + inner.Repr() && this !in inner.Repr()
      && inner.Depth() < depth && bottom == inner.Bottom() && bottom in inner.Repr() && inner.Valid()
      && outPos <= |outBuf|
      && Sent(SnappySealer(snappy), writeBase, inner.Accepted(), outBuf[outPos..], records)
      && Flatten(records) == accepted
      && Received(SnappyOpener(snappy), readBase, inner.Delivered(), eaten, rxBuf, got)
      && inPos <= |inPlain| && (inPos == |inPlain| ==> inPlain == [])
      && Flatten(got) == delivered + inPlain[inPos..]
      && (stickyErr.Some? ==> Explains(stickyErr.value))
    }

    ghost predicate Linked() {
      inner.Repr() <= Repr && inner.Depth() < depth
    }

    ghost predicate Flushed()
      reads this, Repr
      decreases depth, 1
    {
      Linked() && outPos == |outBuf| && inner.Flushed()
    }

    ghost predicate CaughtUp()
      reads this, Repr
      decreases depth, 1
    {
      Linked() && inPlain == [] && NextFrame(SnappyOpener(snappy), rxBuf).NeedMore? && inner.CaughtUp()
    }

    ghost predicate AtEof()
      reads this, Repr
      decreases depth, 1
    {
      Linked() && inPlain == [] && rxBuf == [] && (inner.AtEof() || inner.SawEmpty())
    }

    ghost predicate SawBad()
      reads this, Repr
      decreases depth, 1
    {
      Linked() && (NextFrame(SnappyOpener(snappy), rxBuf).Bad? || inner.SawBad())
    }

    ghost predicate CutShort()
      reads this, Repr
      decreases depth, 1
    {
      && Linked()
      && (|| (rxBuf != [] && NextFrame(SnappyOpener(snappy), rxBuf).NeedMore? && (inner.AtEof() || inner.SawEmpty()))
          || inner.CutShort())
    }

    ghost predicate Spent()
      reads this, Repr
      decreases depth, 1
    {
      Linked() && inner.Spent()
    }

    ghost predicate Faulty(e: IoError)
      reads this, Repr
      decreases depth, 1
    {
      Linked() && inner.Faulty(e)
    }

    ghost predicate Explains(e: IoError)
      reads this, Repr
      decreases depth, 3
    {
      match e
      case InvalidData => SawBad()
      case UnexpectedEof => CutShort()
      case NonceExhausted => Spent()
      case InvalidInput => false
      case _ => Faulty(e)
    }

    ghost predicate InTrouble()
      reads this, Repr
      decreases depth, 4
    {
      exists e :: Explains(e)
    }

    constructor (inner: AnyConn, snappy: Snappy)
      requires inner.Valid()
      ensures Valid() && this.inner == inner && this.snappy == snappy
      ensures writeBase == inner.Accepted() && readBase == inner.Delivered()
      ensures accepted == [] && delivered == [] && records == [] && got == [] && stickyErr == None
      ensures outBuf == [] && rxBuf == [] && inPlain == []
      ensures depth == inner.Depth() + 1 && bottom == inner.Bottom() && Repr == {this} + inner.Repr()
      ensures clean == (inner.Asks() == NOTHING_ASKED)
    {
      hide Sent, Written, Received, Flatten, Parse, Frames, FrameBytes, NextFrame, SnappySealer, SnappyOpener,
        GcmSealer, GcmOpener;
      BottomInside(inner);
      this.inner, this.snappy := inner, snappy;
      outBuf, outPos, rxBuf, inPlain, inPos, stickyErr := [], 0, [], [], 0, None;
      Repr, depth, bottom := {this} + inner.Repr(), inner.Depth() + 1, inner.Bottom();
      writeBase, readBase, clean := inner.Accepted(), inner.Delivered(), inner.Asks() == NOTHING_ASKED;
      accepted, delivered, records, eaten, got := [], [], [], [], [];
      new;
      StartsEmpty(SnappySealer(snappy), SnappyOpener(snappy), writeBase, readBase);
    }

    /** `compress_into_out_buf`. */
    method CompressIntoOutBuf(chunk: bytes)
      requires Valid() && stickyErr.None? && 0 < |chunk| <= MAX_BLOCK && (clean ==> inner.Asks().left.None?)
      modifies this`outBuf, this`records, this`accepted
      ensures Valid()
      ensures records == old(records) + [chunk] && accepted == old(accepted) + chunk
      ensures outBuf == old(outBuf) + FrameBytes(SnappySealer(snappy), |old(records)|, chunk)
    {
      hide Sent, Written, Received, Flatten, Parse, Frames, NextFrame, SnappyOpener, Chunks, Explains, SawBad, CutShort,
        Spent, Faulty, AfterAsks, AckedBy, AfterWrite, AfterFlush;
      var compressed := snappy.compress(chunk);
      ghost var s := SnappySealer(snappy);
      SentFrame(s, writeBase, inner.Accepted(), outBuf[outPos..], records, chunk);
      FlattenSnoc(records, chunk);
      var frame := BE4(|compressed| % U32) + compressed;
      assert frame == FrameBytes(s, |records|, chunk);
      DropAppend(outBuf, frame, outPos);
      outBuf := outBuf + frame;
      records, accepted := records + [chunk], accepted + chunk;
    }

    /** An error of the layer below has the same reason seen from here. */
    lemma ExplainedBelow(e: IoError)
      requires Linked() && inner.Explains(e)
      ensures Explains(e)
    {
    }

    lemma FaultBelow()
      requires Linked() && inner.Faulty(WriteZero)
      ensures Explains(WriteZero)
    {
    }

    /** The stream ended inside a frame. */
    lemma EndsInFrame()
      requires Linked() && rxBuf != [] && NextFrame(SnappyOpener(snappy), rxBuf).NeedMore?
      requires inner.AtEof() || inner.SawEmpty()
      ensures Explains(UnexpectedEof)
    {
    }

    /** Sets the sticky error, with the reason it stands for. */
    method Latch(e: IoError)
      requires Sound() && stickyErr.None? && Explains(e) && (clean ==> inner.InTurn(outBuf[outPos..], true))
      modifies this`stickyErr
      ensures Valid() && stickyErr == Some(e)
      ensures CaughtUp() == old(CaughtUp()) && AtEof() == old(AtEof()) && Explains(e)
    {
      hide Sent, Written, Received, Flatten, Parse, Frames, FrameBytes, NextFrame, SnappySealer, SnappyOpener, Chunks;
      stickyErr := Some(e);
    }

    method LatchBadFrame()
      requires Valid() && stickyErr.None? && NextFrame(SnappyOpener(snappy), rxBuf).Bad?
      modifies this`stickyErr
      ensures Valid() && stickyErr == Some(InvalidData) && Explains(InvalidData)
    {
      hide Sent, Written, Received, Flatten, Parse, Frames, FrameBytes, NextFrame, SnappySealer, SnappyOpener, Chunks;
      Latch(InvalidData);
    }

    /**
     One turn of the loop of `try_drain_out`; a zero-length write is reported but, unlike in `EncryptedStream`, not
     latched.
    */
    method WriteSome() returns (r: Poll<()>)
      requires Valid() && stickyErr.None? && outPos < |outBuf|
      modifies Repr
      ensures Valid() && Untouched(old(accepted), old(records), old(delivered), old(got))
      ensures r.IsOk() ==> stickyErr.None? && outBuf == old(outBuf) && outPos > old(outPos)
      ensures r.Pending? ==> stickyErr.None?
      ensures r.IsErr() ==> Explains(r.io.error) && (r.io.error != WriteZero ==> stickyErr == Some(r.io.error))
      ensures Later(old(bottom.Wire()), bottom.Wire()) && (r.Pending? ==> bottom.pended > old(bottom.pended))
      ensures clean && inner.Tcp? && r.IsErr() ==> (stickyErr.Some? <==> inner.Asks().failed)
      decreases depth, 0
    {
      hide Sent, Written, Received, Flatten, Parse, Frames, FrameBytes, NextFrame, SnappySealer, SnappyOpener, Chunks,
        Explains, SawBad, CutShort, Spent, Faulty, Flushed, CaughtUp, AtEof;
      ghost var under, left := inner.Accepted(), outBuf[outPos..];
      var wrote := inner.PollWrite(outBuf[outPos..]);
      match wrote
      case Ready(Ok(n)) =>
        SentDrain(SnappySealer(snappy), writeBase, under, left, records, n);
        assert left[n..] == outBuf[outPos + n..];
        outPos := outPos + n;
        if n == 0 {
          FaultBelow();
          return Ready(Err(WriteZero));
        }
        return Ready(Ok(()));
      case Ready(Err(e)) =>
        ExplainedBelow(e);
        Latch(e);
        return Ready(Err(e));
      case Pending => return Pending;
    }

    /** `try_drain_out`. */
    method TryDrainOut() returns (r: Poll<()>)
      requires Valid() && stickyErr.None?
      modifies Repr
      ensures Valid() && Untouched(old(accepted), old(records), old(delivered), old(got))
      ensures r.IsOk() ==> stickyErr.None? && Flushed() && outBuf == []
      ensures r.Pending? ==> stickyErr.None?
      ensures r.IsErr() ==> Explains(r.io.error)
      ensures Later(old(bottom.Wire()), bottom.Wire()) && (r.Pending? ==> bottom.pended > old(bottom.pended))
      ensures old(Flushed()) ==> Flushed() && bottom.accepted == old(bottom.accepted)
      decreases depth, 1
    {
      hide Sent, Written, Received, Flatten, Parse, Frames, FrameBytes, NextFrame, SnappySealer, SnappyOpener, Chunks;
      while outPos < |outBuf|
        invariant Valid() && stickyErr.None? && Untouched(old(accepted), old(records), old(delivered), old(got))
        invariant Later(old(bottom.Wire()), bottom.Wire())
        invariant old(Flushed()) ==> Flushed() && bottom.accepted == old(bottom.accepted)
        decreases |outBuf| - outPos
      {
        r := WriteSome();
        if !r.IsOk() { return; }
      }
      assert outBuf[outPos..] == [];
      outBuf, outPos := [], 0;
      assert outBuf[outPos..] == [];
      r := inner.PollFlush();
    }

    ghost predicate Untouched(accepted: bytes, records: seq<bytes>, delivered: bytes, got: seq<bytes>)
      reads this
    {
      this.accepted == accepted && this.records == records && this.delivered == delivered && this.got == got
    }

    /** The chunking loop of `poll_write`. */
    method CompressChunks(buf: bytes)
      requires Valid() && stickyErr.None? && (clean ==> inner.Asks().left.None?)
      modifies this`outBuf, this`records, this`accepted
      ensures Valid() && accepted == old(accepted) + buf && records == old(records) + Chunks(buf, MAX_BLOCK)
    {
      hide Sent, Written, Received, Flatten, Parse, Frames, FrameBytes, NextFrame, SnappySealer, SnappyOpener, Chunks,
        Explains, SawBad, CutShort, Spent, Faulty, Sound;
      var off := 0;
      assert buf[0..] == buf && accepted == old(accepted) + buf[..0];
      while off < |buf|
        invariant 0 <= off <= |buf| && Valid()
        invariant accepted == old(accepted) + buf[..off]
        invariant records + Chunks(buf[off..], MAX_BLOCK) == old(records) + Chunks(buf, MAX_BLOCK)
      {
        var next := Min(off + MAX_BLOCK, |buf|);
        ChunkLoop(records, old(accepted), buf, off, MAX_BLOCK);
        CompressIntoOutBuf(buf[off..next]);
        off := next;
      }
      ChunksDone(records, buf, MAX_BLOCK);
    }

    /** `AsyncWrite::poll_write`. */
    method PollWrite(buf: bytes) returns (r: Poll<nat>)
      requires Valid()
      modifies Repr
      ensures Valid() && delivered == old(delivered) && got == old(got)
      ensures r.IsOk() ==> r.io.value == |buf| && accepted == old(accepted) + buf
      ensures r.IsOk() ==> records == old(records) + Chunks(buf, MAX_BLOCK)
      ensures !r.IsOk() ==> accepted == old(accepted) && records == old(records)
      ensures r.IsErr() ==> Explains(r.io.error)
      ensures old(stickyErr.Some?) ==> r == Ready(Err(old(stickyErr.value))) && bottom.accepted == old(bottom.accepted)
      ensures Later(old(bottom.Wire()), bottom.Wire()) && (r.Pending? ==> bottom.pended > old(bottom.pended))
      ensures old(stickyErr.Some?) ==> stickyErr == old(stickyErr)
      ensures r.IsOk() ==> Flushed() || bottom.pended > old(bottom.pended) || InTrouble()
      decreases depth, 2
    {
      hide Sent, Written, Received, Flatten, Parse, Frames, FrameBytes, NextFrame, SnappySealer, SnappyOpener, Chunks,
        AnyConn.InTrouble;
      if stickyErr.Some? { return Ready(Err(stickyErr.value)); }
      var drained := TryDrainOut();
      match drained {
        case Pending => return Pending;
        case Ready(Err(e)) => return Ready(Err(e));
        case Ready(Ok(_)) =>
      }
      CompressChunks(buf);
      var _ := TryDrainOut();
      return Ready(Ok(|buf|));
    }

    /** `AsyncWrite::poll_flush`. */
    method PollFlush() returns (r: Poll<()>)
      requires Valid()
      modifies Repr
      ensures Valid() && Untouched(old(accepted), old(records), old(delivered), old(got))
      ensures r.IsOk() ==> Flushed() && stickyErr.None?
      ensures r.IsErr() ==> Explains(r.io.error)
      ensures old(stickyErr.Some?) ==> r == Ready(Err(old(stickyErr.value))) && bottom.accepted == old(bottom.accepted)
      ensures Later(old(bottom.Wire()), bottom.Wire()) && (r.Pending? ==> bottom.pended > old(bottom.pended))
      ensures old(stickyErr.Some?) ==> stickyErr == old(stickyErr)
      ensures old(Flushed()) ==> Flushed() && bottom.accepted == old(bottom.accepted)
      decreases depth, 2
    {
      hide Sent, Written, Received, Flatten, Parse, Frames, FrameBytes, NextFrame, SnappySealer, SnappyOpener, Chunks;
      if stickyErr.Some? { return Ready(Err(stickyErr.value)); }
      r := TryDrainOut();
    }

    /** `AsyncWrite::poll_shutdown`: everything is flushed before the transport is closed. */
    method PollShutdown() returns (r: Poll<()>)
      requires Valid()
      modifies Repr
      ensures Valid() && Untouched(old(accepted), old(records), old(delivered), old(got))
      ensures r.IsOk() ==> Flushed() && bottom.finished
      ensures r.IsErr() ==> Explains(r.io.error)
      ensures old(stickyErr.Some?) ==> r == Ready(Err(old(stickyErr.value))) && bottom.accepted == old(bottom.accepted)
      ensures LaterOrClosed(old(bottom.Wire()), bottom.Wire()) && (r.Pending? ==> bottom.pended > old(bottom.pended))
      ensures old(stickyErr.Some?) ==> stickyErr == old(stickyErr)
      ensures old(Flushed()) ==> Flushed() && bottom.accepted == old(bottom.accepted)
      ensures bottom.finished ==> old(bottom.finished) || r.IsOk()
      decreases depth, 3
    {
      hide Sent, Written, Received, Flatten, Parse, Frames, FrameBytes, NextFrame, SnappySealer, SnappyOpener, Chunks;
      r := PollFlush();
      if r.IsOk() { r := inner.PollShutdown(); }
    }

    /** Moves the frame at the front of `rxBuf` to `inPlain`. */
    method TakeFrame(v: bytes, frameLen: nat)
      requires Valid() && stickyErr.None? && inPlain == []
      requires NextFrame(SnappyOpener(snappy), rxBuf) == Frame(v, frameLen)
      modifies this`rxBuf, this`inPlain, this`eaten, this`got
      ensures Valid() && rxBuf == old(rxBuf)[frameLen..] && inPlain == v && got == old(got) + [v]
    {
      hide Sent, Written, Received, Flatten, Parse, Frames, FrameBytes, SnappySealer, SnappyOpener, NextFrame,
        Explains, SawBad, CutShort, Spent, Faulty, AnyConn.InTurn, AfterAsks, AckedBy, Flushed, CaughtUp, AtEof,
        AnyConn.Explains, AnyConn.Flushed;
      ReceivedFrame(SnappyOpener(snappy), readBase, inner.Delivered(), eaten, rxBuf, got);
      FlattenSnoc(got, v);
      eaten, got := eaten + rxBuf[..frameLen], got + [v];
      inPlain := v;
      rxBuf := rxBuf[frameLen..];
    }

    /** `try_decompress_frame`: at most one frame leaves `rxBuf`. */
    method TryDecompressFrame() returns (r: Io<bool>)
      requires Valid() && stickyErr.None? && inPlain == []
      modifies this`rxBuf, this`inPlain, this`eaten, this`got
      ensures var next := NextFrame(SnappyOpener(snappy), old(rxBuf));
              match next
              case NeedMore => r == Ok(false) && rxBuf == old(rxBuf) && inPlain == [] && got == old(got)
              case Bad => r == Err(InvalidData) && rxBuf == old(rxBuf) && inPlain == [] && got == old(got)
              case Frame(v, n) => r == Ok(true) && rxBuf == old(rxBuf)[n..] && inPlain == v && got == old(got) + [v]
      ensures Valid()
      ensures r == Ok(false) ==> |rxBuf| <= HEADER_LEN + snappy.maxLen(MAX_BLOCK)
    {
      hide Sent, Written, Received, Flatten, Parse, Frames, FrameBytes, SnappySealer, SnappyOpener, NextFrame, Valid,
        Sound;
      SnappyNext(snappy, rxBuf);
      if |rxBuf| < HEADER_LEN { return Ok(false); }
      var payloadLen := Val4(rxBuf);
      if payloadLen == 0 || payloadLen > snappy.maxLen(MAX_BLOCK) { return Err(InvalidData); }
      var frameLen := HEADER_LEN + payloadLen;
      if |rxBuf| < frameLen { return Ok(false); }
      var plain := snappy.decompress(rxBuf[HEADER_LEN..frameLen]);
      match plain
      case None => return Err(InvalidData);
      case Some(v) =>
        if |v| > MAX_BLOCK { return Err(InvalidData); }
        TakeFrame(v, frameLen);
        return Ok(true);
    }

    /** The copy-out shared by both exits of `poll_read`. */
    method HandOut(cap: nat) returns (data: bytes)
      requires Valid() && stickyErr.None?
      modifies this`inPlain, this`inPos, this`delivered
      ensures Valid() && delivered == old(delivered) + data
      ensures |data| == Min(cap, |old(inPlain)| - old(inPos))
      ensures |data| == cap || inPlain == []
    {
      hide Sent, Written, Received, Flatten, Parse, Frames, FrameBytes, NextFrame, SnappySealer, SnappyOpener, Chunks,
        Explains, SawBad, CutShort, Spent, Faulty;
      var n := Min(cap, |inPlain| - inPos);
      data := inPlain[inPos..inPos + n];
      CutOut(delivered, inPlain, inPos, n);
      delivered := delivered + data;
      if inPos + n == |inPlain| {
        inPlain, inPos := [], 0;
        assert inPlain[inPos..] == [];
      } else {
        inPos := inPos + n;
      }
    }

    /** The part of `poll_read` that reads raw bytes from below; `Ok(false)` is a clean end. */
    method PullInner() returns (r: Poll<bool>)
      requires Valid() && stickyErr.None? && inPlain == [] && NextFrame(SnappyOpener(snappy), rxBuf).NeedMore?
      modifies Repr
      ensures Valid() && Untouched(old(accepted), old(records), old(delivered), old(got)) && inPlain == []
      ensures r == Ready(Ok(true)) ==> stickyErr.None? && |rxBuf| > |old(rxBuf)|
      ensures r == Ready(Ok(false)) ==> stickyErr.None? && AtEof()
      ensures r.Pending? ==> stickyErr.None? && CaughtUp()
      ensures r.IsErr() ==> stickyErr == Some(r.io.error) && rxBuf == old(rxBuf)
      ensures Later(old(bottom.Wire()), bottom.Wire()) && bottom.accepted == old(bottom.accepted)
      ensures r.Pending? ==> bottom.pended > old(bottom.pended)
      ensures Flushed() == old(Flushed())
      decreases depth, 1
    {
      hide Sent, Written, Received, Flatten, Parse, Frames, FrameBytes, NextFrame, SnappySealer, SnappyOpener, Chunks,
        Explains, SawBad, CutShort, Spent, Faulty, AnyConn.Flushed;
      ghost var under := inner.Delivered();
      var read := inner.PollRead(TMP_LEN);
      match read {
        case Ready(Ok(data)) =>
          if data == [] {
            assert under + data == under;
            if rxBuf == [] { return Ready(Ok(false)); }
            EndsInFrame();
            Latch(UnexpectedEof);
            return Ready(Err(UnexpectedEof));
          }
          ReceivedMore(SnappyOpener(snappy), readBase, under, eaten, rxBuf, got, data);
          rxBuf := rxBuf + data;
          return Ready(Ok(true));
        case Ready(Err(e)) =>
          ExplainedBelow(e);
          Latch(e);
          return Ready(Err(e));
        case Pending => return Pending;
      }
    }

    /** The loop of `poll_read`: one frame, or whatever stops it. */
    method ReadLoop(cap: nat) returns (r: Poll<bytes>)
      requires Valid() && stickyErr.None? && inPlain == []
      modifies Repr
      ensures Valid() && accepted == old(accepted) && records == old(records)
      ensures r.IsOk() ==> |r.io.value| <= cap && delivered == old(delivered) + r.io.value
      ensures !r.IsOk() ==> delivered == old(delivered)
      ensures r.Pending? ==> CaughtUp()
      ensures r.IsOk() && r.io.value == [] && cap > 0 ==> AtEof() || [] in got
      ensures r.IsErr() ==>
                stickyErr == Some(r.io.error) && inPlain == [] && !NextFrame(SnappyOpener(snappy), rxBuf).Frame?
      ensures Later(old(bottom.Wire()), bottom.Wire()) && bottom.accepted == old(bottom.accepted)
      ensures r.Pending? ==> bottom.pended > old(bottom.pended)
      ensures Flushed() == old(Flushed())
      ensures r.IsOk() ==> |r.io.value| == cap || inPlain == []
      decreases depth, 2
    {
      hide Sent, Written, Received, Flatten, Parse, Frames, FrameBytes, NextFrame, SnappySealer, SnappyOpener, Chunks,
        Explains, SawBad, CutShort, Spent, Faulty;
      while true
        invariant Valid() && stickyErr.None? && inPlain == []
        invariant Untouched(old(accepted), old(records), old(delivered), got)
        invariant Later(old(bottom.Wire()), bottom.Wire()) && bottom.accepted == old(bottom.accepted)
        invariant Flushed() == old(Flushed())
        decreases HEADER_LEN + snappy.maxLen(MAX_BLOCK) + 1 - |rxBuf|
      {
        var decoded := TryDecompressFrame();
        match decoded {
          case Ok(true) =>
            var data := HandOut(cap);
            return Ready(Ok(data));
          case Ok(false) =>
          case Err(e) =>
            LatchBadFrame();
            return Ready(Err(e));
        }
        var pulled := PullInner();
        match pulled {
          case Ready(Ok(true)) =>
          case Ready(Ok(false)) => return Ready(Ok([]));
          case Ready(Err(e)) => return Ready(Err(e));
          case Pending => return Pending;
        }
      }
    }

    /** `AsyncRead::poll_read` into a buffer with `cap` bytes free. */
    method PollRead(cap: nat) returns (r: Poll<bytes>)
      requires Valid()
      modifies Repr
      ensures Valid() && accepted == old(accepted) && records == old(records)
      ensures r.IsOk() ==> |r.io.value| <= cap && delivered == old(delivered) + r.io.value
      ensures !r.IsOk() ==> delivered == old(delivered)
      ensures r.Pending? ==> CaughtUp()
      ensures r.IsOk() && r.io.value == [] && cap > 0 ==> AtEof() || [] in got
      ensures r.IsErr() ==> Explains(r.io.error) && stickyErr == Some(r.io.error)
      ensures r.IsErr() && old(stickyErr.None?) ==> inPlain == [] && !NextFrame(SnappyOpener(snappy), rxBuf).Frame?
      ensures old(stickyErr.Some?) ==>
                r == Ready(Err(old(stickyErr.value))) && inner.Delivered() == old(inner.Delivered())
      ensures Later(old(bottom.Wire()), bottom.Wire()) && bottom.accepted == old(bottom.accepted)
      ensures r.Pending? ==> bottom.pended > old(bottom.pended)
      ensures old(stickyErr.Some?) ==> stickyErr == old(stickyErr)
      ensures Flushed() == old(Flushed())
      ensures r.IsOk() ==> |r.io.value| == cap || inPlain == []
      decreases depth, 3
    {
      hide Sent, Written, Received, Flatten, Parse, Frames, FrameBytes, NextFrame, SnappySealer, SnappyOpener, Chunks,
        SawBad, CutShort, Spent, Faulty;
      if stickyErr.Some? { return Ready(Err(stickyErr.value)); }
      if inPos < |inPlain| {
        var data := HandOut(cap);
        return Ready(Ok(data));
      }
      r := ReadLoop(cap);
    }

    method Arrive(more: bytes, last: bool)
      requires Valid()
      modifies Repr
      ensures Valid() && Untouched(old(accepted), old(records), old(delivered), old(got))
      ensures bottom.Wire() == old(bottom.Wire()).(arrived := bottom.arrived, eof := bottom.eof)
      ensures old(bottom.eof) ==> bottom.arrived == old(bottom.arrived) && bottom.eof
      ensures !old(bottom.eof) ==> bottom.arrived == old(bottom.arrived) + more && bottom.eof == last
      ensures Flushed() == old(Flushed()) && SawBad() == old(SawBad()) && Spent() == old(Spent())
      ensures forall e :: Faulty(e) == old(Faulty(e))
      ensures (old(AtEof()) ==> AtEof()) && (old(CutShort()) ==> CutShort())
      ensures old(stickyErr.Some?) ==> stickyErr == old(stickyErr)
      decreases depth, 2
    {
      hide Sent, Written, Received, Flatten, Parse, Frames, FrameBytes, NextFrame, SnappySealer, SnappyOpener, Chunks;
      ghost var e := if stickyErr.Some? then stickyErr.value else WriteZero;
      ghost var reason := inner.Faulty(e);
      inner.Arrive(more, last);
      assert inner.Faulty(e) == reason;
    }
  }

  /** Handing out `n` bytes moves them from what is left to what was delivered. */
  lemma CutOut(delivered: bytes, plain: bytes, pos: nat, n: nat)
    requires pos + n <= |plain|
    ensures delivered + plain[pos..] == delivered + plain[pos..pos + n] + plain[pos + n..]
    ensures pos + n == |plain| ==> plain[pos + n..] == []
  {
    CutAt(plain, pos, pos + n);
    ConcatAssoc(delivered, plain[pos..pos + n], plain[pos + n..]);
  }

  lemma ChunksStep(buf: bytes, off: nat, size: nat)
    requires off < |buf| && size > 0
    ensures var next := Min(off + size, |buf|);
            Chunks(buf[off..], size) == [buf[off..next]] + Chunks(buf[next..], size)
  {
    if |buf| - off <= size {
      assert buf[off..|buf|] == buf[off..];
      assert Chunks(buf[|buf|..], size) == [];
    } else {
      assert buf[off..][..size] == buf[off..off + size];
      assert buf[off..][size..] == buf[off + size..];
    }
  }

  lemma ChunkLoop(framed: seq<bytes>, base: bytes, buf: bytes, off: nat, size: nat)
    requires off < |buf| && size > 0
    ensures var next := Min(off + size, |buf|);
            && framed + Chunks(buf[off..], size) == framed + [buf[off..next]] + Chunks(buf[next..], size)
            && base + buf[..next] == base + buf[..off] + buf[off..next]
  {
    hide Chunks, Flatten;
    ChunksStep(buf, off, size);
    var next := Min(off + size, |buf|);
    assert buf[..next] == buf[..off] + buf[off..next];
    ConcatAssoc(base, buf[..off], buf[off..next]);
    ConcatAssoc(framed, [buf[off..next]], Chunks(buf[next..], size));
  }

  lemma ChunksNonEmpty(buf: bytes, size: nat)
    requires buf != [] && size > 0
    ensures Chunks(buf, size) != []
  {
  }

  lemma ChunksDone(framed: seq<bytes>, buf: bytes, size: nat)
    requires size > 0
    ensures buf[..|buf|] == buf && framed + Chunks(buf[|buf|..], size) == framed
  {
    assert Chunks([], size) == [];
    assert framed + [] == framed;
  }

  /** The checks of `try_decompress_frame`, in its order, are those of the one-shot parser. */
  lemma SnappyNext(z: Snappy, rx: bytes)
    ensures NextFrame(SnappyOpener(z), rx) ==
            if |rx| < HEADER_LEN then NeedMore
            else if Val4(rx) == 0 || Val4(rx) > z.maxLen(MAX_BLOCK) then Bad
            else if |rx| < HEADER_LEN + Val4(rx) then NeedMore
            else match z.decompress(rx[HEADER_LEN..HEADER_LEN + Val4(rx)])
              case None => Bad
              case Some(q) => if |q| > MAX_BLOCK then Bad else Frame(q, HEADER_LEN + Val4(rx))
  {
  }

  /** The checks of `try_decrypt_frame`, in its order, are those of the one-shot parser. */
  lemma GcmNext(c: Cipher, key: bytes, rx: bytes)
    ensures NextFrame(GcmOpener(c, key), rx) ==
            if |rx| < HEADER_LEN then NeedMore
            else if !(MIN_PAYLOAD <= Val4(rx) <= MAX_PAYLOAD) then Bad
            else if |rx| < HEADER_LEN + Val4(rx) then NeedMore
            else
              var frame := rx[HEADER_LEN..HEADER_LEN + Val4(rx)];
              match c.open(key, frame[..NONCE_LEN], frame[NONCE_LEN..])
              case None => Bad
              case Some(q) => Frame(q, HEADER_LEN + Val4(rx))
  {
  }

  // ---------------------------------------------------------------- encryption layer

  /** The bytes `seal_into_out_buf` appends are the frame of the i-th record. */
  lemma GcmFrame(c: Cipher, key: bytes, prefix: bytes, i: nat, data: bytes)
    requires |prefix| == NONCE_PREFIX_LEN
    ensures var nonce := Nonce(prefix, i);
            var body := c.seal(key, nonce, data);
            FrameBytes(GcmSealer(c, key, prefix), i, data) == BE4((NONCE_LEN + |body|) % U32) + nonce + body
  {
    var nonce := Nonce(prefix, i);
    var body := c.seal(key, nonce, data);
    var len := BE4((NONCE_LEN + |body|) % U32);
    assert |nonce + body| == NONCE_LEN + |body|;
    assert len + nonce + body == len + (nonce + body);
  }

  lemma GcmFits(c: Cipher, key: bytes, prefix: bytes, data: bytes)
    ensures GcmSealer(c, key, prefix).fits(data) <==> 0 < |data| <= MAX_PLAINTEXT_RECORD
  {
  }

  class EncryptedStream {
    const inner: AnyConn
    const cipher: Cipher
    const readKey: bytes
    const writeKey: bytes
    const noncePrefix: bytes
    var writeCounter: nat
    var outBuf: bytes
    var outPos: nat
    var rxBuf: bytes
    var inPlain: bytes
    var inPos: nat
    var stickyErr: Option<IoError>

    // The objects below, the height of the stack, and what `inner` had already carried when this layer was added.
    ghost const Repr: set<object>
    ghost const depth: nat
    const bottom: Transport
    ghost const writeBase: bytes
    ghost const readBase: bytes
    // Whether nothing of the sending side was pending or broken when this layer was added.
    ghost const clean: bool

    // History. `sealed` are all records ever sealed and `records` those whose bytes were acknowledged. The rest
    // were sealed by a write that then ran out of nonces: they stay in `outBuf` and are never sent.
    ghost var accepted: bytes
    ghost var delivered: bytes
    ghost var records: seq<bytes>
    ghost var sealed: seq<bytes>
    ghost var eaten: bytes
    ghost var got: seq<bytes>

    ghost function Seals(): Sealer<bytes> { GcmSealer(cipher, writeKey, noncePrefix) }

    ghost function Opens(): Opener<bytes> { GcmOpener(cipher, readKey) }

    ghost predicate Valid()
      reads this, Repr
      decreases depth, 5
    {
      && Sound() && (clean ==> inner.InTurn(outBuf[outPos..], stickyErr.Some?))
      && (clean && sealed != records ==> inner.Asks().left.None?)
    }

    ghost predicate Sound()
      reads this, Repr
      decreases depth, 4
    {
      && Repr == {this} + inner.Repr() && this !in inner.Repr()
      && inner.Depth() < depth && bottom == inner.Bottom() && bottom in inner.Repr() && inner.Valid()
      && outPos <= |outBuf|
      && |noncePrefix| == NONCE_PREFIX_LEN
      && writeCounter == |sealed| <= U32
      && Sent(Seals(), writeBase, inner.Accepted(), outBuf[outPos..], sealed)
      && Flatten(records) == accepted
      && (sealed != records ==>
            && records <= sealed && writeCounter == U32 && stickyErr == Some(NonceExhausted)
            && Sent(Seals(), writeBase, inner.Accepted(), [], records))
      && Received(Opens(), readBase, inner.Delivered(), eaten, rxBuf, got)
      && inPos <= |inPlain| && (inPos == |inPlain| ==> inPlain == [])
      && Flatten(got) == delivered + inPlain[inPos..]
      && (stickyErr.Some? ==> Explains(stickyErr.value))
    }

    ghost predicate Linked() {
      inner.Repr() <= Repr && inner.Depth() < depth
    }

    ghost predicate Flushed()
      reads this, Repr
      decreases depth, 1
    {
      Linked() && outPos == |outBuf| && inner.Flushed()
    }

    ghost predicate CaughtUp()
      reads this, Repr
      decreases depth, 1
    {
      Linked() && inPlain == [] && NextFrame(Opens(), rxBuf).NeedMore? && inner.CaughtUp()
    }

    ghost predicate AtEof()
      reads this, Repr
      decreases depth, 1
    {
      Linked() && inPlain == [] && rxBuf == [] && (inner.AtEof() || inner.SawEmpty())
    }

    ghost predicate SawBad()
      reads this, Repr
      decreases depth, 1
    {
      Linked() && (NextFrame(Opens(), rxBuf).Bad? || inner.SawBad())
    }

    ghost predicate CutShort()
      reads this, Repr
      decreases depth, 1
    {
      && Linked()
      && (|| (rxBuf != [] && NextFrame(Opens(), rxBuf).NeedMore? && (inner.AtEof() || inner.SawEmpty()))
          || inner.CutShort())
    }

    ghost predicate Spent()
      reads this, Repr
      decreases depth, 1
    {
      Linked() && (writeCounter == U32 || inner.Spent())
    }

    ghost predicate Faulty(e: IoError)
      reads this, Repr
      decreases depth, 1
    {
      Linked() && inner.Faulty(e)
    }

    ghost predicate Explains(e: IoError)
      reads this, Repr
      decreases depth, 3
    {
      match e
      case InvalidData => SawBad()
      case UnexpectedEof => CutShort()
      case NonceExhausted => Spent()
      case InvalidInput => false
      case _ => Faulty(e)
    }

    ghost predicate InTrouble()
      reads this, Repr
      decreases depth, 4
    {
      exists e :: Explains(e)
    }

    constructor (inner: AnyConn, cipher: Cipher, readKey: bytes, writeKey: bytes, prefix: bytes)
      requires inner.Valid()
      requires |prefix| == NONCE_PREFIX_LEN
      ensures Valid() && this.inner == inner && this.cipher == cipher
      ensures this.readKey == readKey && this.writeKey == writeKey && noncePrefix == prefix && writeCounter == 0
      ensures writeBase == inner.Accepted() && readBase == inner.Delivered()
      ensures accepted == [] && delivered == [] && records == [] && got == [] && stickyErr == None
      ensures outBuf == [] && rxBuf == [] && inPlain == []
      ensures depth == inner.Depth() + 1 && bottom == inner.Bottom() && Repr == {this} + inner.Repr()
      ensures clean == (inner.Asks() == NOTHING_ASKED)
    {
      hide Sent, Written, Received, Flatten, Parse, Frames, FrameBytes, NextFrame, SnappySealer, SnappyOpener,
        GcmSealer, GcmOpener;
      BottomInside(inner);
      this.inner, this.cipher, this.readKey, this.writeKey, noncePrefix := inner, cipher, readKey, writeKey, prefix;
      writeCounter, outBuf, outPos, rxBuf, inPlain, inPos, stickyErr := 0, [], 0, [], [], 0, None;
      Repr, depth, bottom := {this} + inner.Repr(), inner.Depth() + 1, inner.Bottom();
      writeBase, readBase, clean := inner.Accepted(), inner.Delivered(), inner.Asks() == NOTHING_ASKED;
      accepted, delivered, records, sealed, eaten, got := [], [], [], [], [], [];
      new;
      StartsEmpty(Seals(), Opens(), writeBase, readBase);
    }

    /** `new_directional`: both keys must be 32 bytes; `prefix` is the random session prefix. */
    static method NewDirectional(inner: AnyConn, cipher: Cipher, readKey: bytes, writeKey: bytes, prefix: bytes)
      returns (r: Io<EncryptedStream>)
      requires inner.Valid() && |prefix| == NONCE_PREFIX_LEN
      ensures r.Ok? <==> |readKey| == KEY_LEN && |writeKey| == KEY_LEN
      ensures r.Err? ==> r.error == InvalidInput
      ensures r.Ok? ==> fresh(r.value) && r.value.Valid() && r.value.inner == inner && r.value.cipher == cipher
                        && r.value.readKey == readKey && r.value.writeKey == writeKey && r.value.noncePrefix == prefix
                        && r.value.writeBase == inner.Accepted() && r.value.readBase == inner.Delivered()
                        && r.value.accepted == [] && r.value.delivered == []
      ensures r.Ok? ==> r.value.clean == (inner.Asks() == NOTHING_ASKED)
      ensures r.Ok? ==> r.value.writeCounter == 0 && r.value.stickyErr == None
      ensures r.Ok? ==> r.value.outBuf == [] && r.value.rxBuf == [] && r.value.inPlain == []
    {
      if |readKey| != KEY_LEN || |writeKey| != KEY_LEN { return Err(InvalidInput); }
      var e := new EncryptedStream(inner, cipher, readKey, writeKey, prefix);
      return Ok(e);
    }

    /** `next_nonce`: the counter never wraps; the 2^32-th record is the last. */
    method NextNonce() returns (r: Io<bytes>)
      modifies this`writeCounter
      ensures old(writeCounter) < U32 ==>
                r == Ok(Nonce(noncePrefix, old(writeCounter))) && writeCounter == old(writeCounter) + 1
      ensures old(writeCounter) >= U32 ==> r == Err(NonceExhausted) && writeCounter == old(writeCounter)
    {
      if writeCounter > 0xFFFF_FFFF { return Err(NonceExhausted); }
      r := Ok(noncePrefix + BE4(writeCounter % U32));
      writeCounter := writeCounter + 1;
    }

    /** Seals one record under the next nonce and frames it. */
    method SealFrame(data: bytes) returns (r: Io<bytes>)
      requires |noncePrefix| == NONCE_PREFIX_LEN
      modifies this`writeCounter
      ensures r.Ok? <==> old(writeCounter) < U32
      ensures r.Ok? ==> r.value == FrameBytes(Seals(), old(writeCounter), data) && writeCounter == old(writeCounter) + 1
      ensures r.Err? ==> r.error == NonceExhausted && writeCounter == old(writeCounter)
    {
      hide FrameBytes, GcmSealer, BE4;
      GcmFrame(cipher, writeKey, noncePrefix, writeCounter, data);
      var nonce := NextNonce();
      if nonce.Err? { return Err(nonce.error); }
      var body := cipher.seal(writeKey, nonce.value, data);
      return Ok(BE4((NONCE_LEN + |body|) % U32) + nonce.value + body);
    }

    /** `seal_into_out_buf`. */
    method SealIntoOutBuf(data: bytes) returns (r: Io<()>)
      requires Valid() && stickyErr.None? && 0 < |data| <= MAX_PLAINTEXT_RECORD && (clean ==> inner.Asks().left.None?)
      modifies this`outBuf, this`records, this`sealed, this`accepted, this`writeCounter
      ensures Valid()
      ensures r.Ok? <==> old(writeCounter) < U32
      ensures r.Ok? ==> records == old(records) + [data] && accepted == old(accepted) + data
      ensures r.Ok? ==> outBuf == old(outBuf) + FrameBytes(Seals(), |old(records)|, data)
      ensures inner.Accepted() == old(inner.Accepted())
      ensures r.Err? ==> r.error == NonceExhausted && writeCounter == U32
      ensures r.Err? ==> records == old(records) && accepted == old(accepted) && outBuf == old(outBuf)
    {
      hide Sent, Written, Received, Flatten, Parse, Frames, FrameBytes, NextFrame, GcmSealer, GcmOpener, Chunks, BE4,
        Nonce, Explains, SawBad, CutShort, Spent, Faulty, AfterAsks, AckedBy, AfterWrite, AfterFlush, Flushed, CaughtUp,
        AtEof, AnyConn.Explains, AnyConn.Flushed;
      GcmFits(cipher, writeKey, noncePrefix, data);
      SentFrame(Seals(), writeBase, inner.Accepted(), outBuf[outPos..], records, data);
      var frame := SealFrame(data);
      if frame.Err? { return Err(frame.error); }
      FlattenSnoc(records, data);
      DropAppend(outBuf, frame.value, outPos);
      outBuf := outBuf + frame.value;
      records, sealed, accepted := records + [data], sealed + [data], accepted + data;
      return Ok(());
    }

    /** An error of the layer below has the same reason seen from here. */
    lemma ExplainedBelow(e: IoError)
      requires Linked() && inner.Explains(e)
      ensures Explains(e)
    {
    }

    lemma FaultBelow()
      requires Linked() && inner.Faulty(WriteZero)
      ensures Explains(WriteZero)
    {
    }

    /** The stream ended inside a frame. */
    lemma EndsInFrame()
      requires Linked() && rxBuf != [] && NextFrame(Opens(), rxBuf).NeedMore? && (inner.AtEof() || inner.SawEmpty())
      ensures Explains(UnexpectedEof)
    {
    }

    /** Sets the sticky error, with the reason it stands for. */
    method Latch(e: IoError)
      requires Sound() && stickyErr.None? && Explains(e) && (clean ==> inner.InTurn(outBuf[outPos..], true))
      modifies this`stickyErr
      ensures Valid() && stickyErr == Some(e)
      ensures CaughtUp() == old(CaughtUp()) && AtEof() == old(AtEof()) && Explains(e)
    {
      hide Sent, Written, Received, Flatten, Parse, Frames, FrameBytes, NextFrame, GcmSealer, GcmOpener, Chunks, BE4,
        Nonce;
      stickyErr := Some(e);
    }

    method LatchBadFrame()
      requires Valid() && stickyErr.None? && NextFrame(Opens(), rxBuf).Bad?
      modifies this`stickyErr
      ensures Valid() && stickyErr == Some(InvalidData) && Explains(InvalidData)
    {
      hide Sent, Written, Received, Flatten, Parse, Frames, FrameBytes, NextFrame, GcmSealer, GcmOpener, Chunks, BE4,
        Nonce;
      Latch(InvalidData);
    }

    /** One turn of the loop of `try_drain_out`. */
    method WriteSome() returns (r: Poll<()>)
      requires Valid() && stickyErr.None? && outPos < |outBuf|
      modifies Repr
      ensures Valid() && Untouched(old(accepted), old(records), old(delivered), old(got))
      ensures r.IsOk() ==> stickyErr.None? && outBuf == old(outBuf) && outPos > old(outPos)
      ensures r.Pending? ==> stickyErr.None?
      ensures r.IsErr() ==> Explains(r.io.error) && stickyErr == Some(r.io.error)
      ensures Later(old(bottom.Wire()), bottom.Wire()) && (r.Pending? ==> bottom.pended > old(bottom.pended))
      decreases depth, 0
    {
      hide Sent, Written, Received, Flatten, Parse, Frames, FrameBytes, NextFrame, GcmSealer, GcmOpener, Chunks, BE4,
        Nonce, Explains, SawBad, CutShort, Spent, Faulty, Flushed, CaughtUp, AtEof;
      ghost var under, left := inner.Accepted(), outBuf[outPos..];
      var wrote := inner.PollWrite(outBuf[outPos..]);
      match wrote
      case Ready(Ok(n)) =>
        SentDrain(Seals(), writeBase, under, left, sealed, n);
        assert left[n..] == outBuf[outPos + n..];
        outPos := outPos + n;
        if n == 0 {
          FaultBelow();
          Latch(WriteZero);
          return Ready(Err(WriteZero));
        }
        return Ready(Ok(()));
      case Ready(Err(e)) =>
        ExplainedBelow(e);
        Latch(e);
        return Ready(Err(e));
      case Pending => return Pending;
    }

    /** `try_drain_out`. */
    method TryDrainOut() returns (r: Poll<()>)
      requires Valid() && stickyErr.None?
      modifies Repr
      ensures Valid() && Untouched(old(accepted), old(records), old(delivered), old(got))
      ensures r.IsOk() ==> stickyErr.None? && Flushed() && outBuf == []
      ensures r.Pending? ==> stickyErr.None?
      ensures r.IsErr() ==> Explains(r.io.error)
      ensures Later(old(bottom.Wire()), bottom.Wire()) && (r.Pending? ==> bottom.pended > old(bottom.pended))
      ensures old(Flushed()) ==> Flushed() && bottom.accepted == old(bottom.accepted)
      decreases depth, 1
    {
      hide Sent, Written, Received, Flatten, Parse, Frames, FrameBytes, NextFrame, GcmSealer, GcmOpener, Chunks, BE4,
        Nonce;
      while outPos < |outBuf|
        invariant Valid() && stickyErr.None? && Untouched(old(accepted), old(records), old(delivered), old(got))
        invariant Later(old(bottom.Wire()), bottom.Wire())
        invariant old(Flushed()) ==> Flushed() && bottom.accepted == old(bottom.accepted)
        decreases |outBuf| - outPos
      {
        r := WriteSome();
        if !r.IsOk() { return; }
      }
      assert outBuf[outPos..] == [];
      outBuf, outPos := [], 0;
      assert outBuf[outPos..] == [];
      r := inner.PollFlush();
    }

    ghost predicate Untouched(accepted: bytes, records: seq<bytes>, delivered: bytes, got: seq<bytes>)
      reads this
    {
      this.accepted == accepted && this.records == records && this.delivered == delivered && this.got == got
    }

    /** The chunking loop of `poll_write`: stops at the first chunk that finds no nonce left. */
    method SealChunks(buf: bytes) returns (r: Io<()>)
      requires Valid() && stickyErr.None? && (clean ==> inner.Asks().left.None?)
      modifies this`outBuf, this`records, this`sealed, this`accepted, this`writeCounter
      ensures Valid() && inner.Accepted() == old(inner.Accepted())
      ensures r.Ok? <==> old(writeCounter) + |Chunks(buf, MAX_PLAINTEXT_RECORD)| <= U32
      ensures r.Ok? ==> accepted == old(accepted) + buf && records == old(records) + Chunks(buf, MAX_PLAINTEXT_RECORD)
      ensures r.Err? ==> r.error == NonceExhausted && writeCounter == U32 && old(records) <= records
    {
      hide Sent, Written, Received, Flatten, Parse, Frames, FrameBytes, NextFrame, GcmSealer, GcmOpener, Chunks, BE4,
        Nonce, Explains, SawBad, CutShort, Spent, Faulty;
      ghost var under, before, all := inner.Accepted(), records, Chunks(buf, MAX_PLAINTEXT_RECORD);
      var off := 0;
      assert buf[0..] == buf && accepted == old(accepted) + buf[..0];
      while off < |buf|
        invariant 0 <= off <= |buf| && Valid() && inner.Accepted() == under
        invariant accepted == old(accepted) + buf[..off]
        invariant before <= records && records + Chunks(buf[off..], MAX_PLAINTEXT_RECORD) == before + all
      {
        var next := Min(off + MAX_PLAINTEXT_RECORD, |buf|);
        ChunkLoop(records, old(accepted), buf, off, MAX_PLAINTEXT_RECORD);
        r := SealIntoOutBuf(buf[off..next]);
        if r.Err? {
          ChunksNonEmpty(buf[off..], MAX_PLAINTEXT_RECORD);
          return;
        }
        off := next;
      }
      ChunksDone(records, buf, MAX_PLAINTEXT_RECORD);
      return Ok(());
    }

    /**
     A write ran out of nonces: the error is latched, and none of this write's bytes count as accepted.
     The frames it had already made stay in `outBuf`, which nothing drains any more.
    */
    method LatchExhausted(ghost before: seq<bytes>)
      requires Valid() && stickyErr.None? && writeCounter == U32 && before <= records
      requires clean ==> inner.Asks().left.None?
      requires Sent(Seals(), writeBase, inner.Accepted(), [], before)
      modifies this`records, this`accepted, this`stickyErr
      ensures Valid() && stickyErr == Some(NonceExhausted)
      ensures records == before && accepted == Flatten(before)
    {
      hide Sent, Written, Received, Flatten, Parse, Frames, FrameBytes, NextFrame, GcmSealer, GcmOpener, Chunks, BE4,
        Nonce;
      records, accepted, stickyErr := before, Flatten(before), Some(NonceExhausted);
    }

    /** `AsyncWrite::poll_write`. */
    method PollWrite(buf: bytes) returns (r: Poll<nat>)
      requires Valid()
      modifies Repr
      ensures Valid() && delivered == old(delivered) && got == old(got)
      ensures r.IsOk() ==> r.io.value == |buf| && accepted == old(accepted) + buf
      ensures r.IsOk() ==> records == old(records) + Chunks(buf, MAX_PLAINTEXT_RECORD)
      ensures !r.IsOk() ==> accepted == old(accepted) && records == old(records)
      ensures r.IsErr() ==> Explains(r.io.error)
      ensures old(stickyErr.Some?) ==> r == Ready(Err(old(stickyErr.value))) && bottom.accepted == old(bottom.accepted)
      ensures Later(old(bottom.Wire()), bottom.Wire()) && (r.Pending? ==> bottom.pended > old(bottom.pended))
      ensures old(stickyErr.Some?) ==> stickyErr == old(stickyErr)
      ensures r.IsOk() ==> Flushed() || bottom.pended > old(bottom.pended) || InTrouble()
      decreases depth, 2
    {
      hide Sent, Written, Received, Flatten, Parse, Frames, FrameBytes, NextFrame, GcmSealer, GcmOpener, Chunks, BE4,
        Nonce, AnyConn.InTrouble;
      if stickyErr.Some? { return Ready(Err(stickyErr.value)); }
      var drained := TryDrainOut();
      match drained {
        case Pending => return Pending;
        case Ready(Err(e)) => return Ready(Err(e));
        case Ready(Ok(_)) =>
      }
      ghost var before := records;
      assert outBuf[outPos..] == [];
      var r' := SealChunks(buf);
      if r'.Err? {
        LatchExhausted(before);
        return Ready(Err(r'.error));
      }
      var _ := TryDrainOut();
      return Ready(Ok(|buf|));
    }

    /** `AsyncWrite::poll_flush`. */
    method PollFlush() returns (r: Poll<()>)
      requires Valid()
      modifies Repr
      ensures Valid() && Untouched(old(accepted), old(records), old(delivered), old(got))
      ensures r.IsOk() ==> Flushed() && stickyErr.None?
      ensures r.IsErr() ==> Explains(r.io.error)
      ensures old(stickyErr.Some?) ==> r == Ready(Err(old(stickyErr.value))) && bottom.accepted == old(bottom.accepted)
      ensures Later(old(bottom.Wire()), bottom.Wire()) && (r.Pending? ==> bottom.pended > old(bottom.pended))
      ensures old(stickyErr.Some?) ==> stickyErr == old(stickyErr)
      ensures old(Flushed()) ==> Flushed() && bottom.accepted == old(bottom.accepted)
      decreases depth, 2
    {
      hide Sent, Written, Received, Flatten, Parse, Frames, FrameBytes, NextFrame, GcmSealer, GcmOpener, Chunks, BE4,
        Nonce;
      if stickyErr.Some? { return Ready(Err(stickyErr.value)); }
      r := TryDrainOut();
    }

    /** `AsyncWrite::poll_shutdown`: everything is flushed before the transport is closed. */
    method PollShutdown() returns (r: Poll<()>)
      requires Valid()
      modifies Repr
      ensures Valid() && Untouched(old(accepted), old(records), old(delivered), old(got))
      ensures r.IsOk() ==> Flushed() && bottom.finished
      ensures r.IsErr() ==> Explains(r.io.error)
      ensures old(stickyErr.Some?) ==> r == Ready(Err(old(stickyErr.value))) && bottom.accepted == old(bottom.accepted)
      ensures LaterOrClosed(old(bottom.Wire()), bottom.Wire()) && (r.Pending? ==> bottom.pended > old(bottom.pended))
      ensures old(stickyErr.Some?) ==> stickyErr == old(stickyErr)
      ensures old(Flushed()) ==> Flushed() && bottom.accepted == old(bottom.accepted)
      ensures bottom.finished ==> old(bottom.finished) || r.IsOk()
      decreases depth, 3
    {
      hide Sent, Written, Received, Flatten, Parse, Frames, FrameBytes, NextFrame, GcmSealer, GcmOpener, Chunks, BE4,
        Nonce;
      r := PollFlush();
      if r.IsOk() { r := inner.PollShutdown(); }
    }

    /** Moves the frame at the front of `rxBuf` to `inPlain`. */
    method TakeFrame(v: bytes, frameLen: nat)
      requires Valid() && stickyErr.None? && inPlain == [] && NextFrame(Opens(), rxBuf) == Frame(v, frameLen)
      modifies this`rxBuf, this`inPlain, this`eaten, this`got
      ensures Valid() && rxBuf == old(rxBuf)[frameLen..] && inPlain == v && got == old(got) + [v]
    {
      hide Sent, Written, Received, Flatten, Parse, Frames, FrameBytes, GcmSealer, GcmOpener, NextFrame,
        Explains, SawBad, CutShort, Spent, Faulty, AnyConn.InTurn, AfterAsks, AckedBy, Flushed, CaughtUp, AtEof,
        AnyConn.Explains, AnyConn.Flushed;
      ReceivedFrame(Opens(), readBase, inner.Delivered(), eaten, rxBuf, got);
      FlattenSnoc(got, v);
      eaten, got := eaten + rxBuf[..frameLen], got + [v];
      inPlain := v;
      rxBuf := rxBuf[frameLen..];
    }

    /** `try_decrypt_frame`: at most one frame leaves `rxBuf`. */
    method TryDecryptFrame() returns (r: Io<bool>)
      requires Valid() && stickyErr.None? && inPlain == []
      modifies this`rxBuf, this`inPlain, this`eaten, this`got
      ensures var next := NextFrame(Opens(), old(rxBuf));
              match next
              case NeedMore => r == Ok(false) && rxBuf == old(rxBuf) && inPlain == [] && got == old(got)
              case Bad => r == Err(InvalidData) && rxBuf == old(rxBuf) && inPlain == [] && got == old(got)
              case Frame(v, n) => r == Ok(true) && rxBuf == old(rxBuf)[n..] && inPlain == v && got == old(got) + [v]
      ensures Valid()
      ensures r == Ok(false) ==> |rxBuf| <= HEADER_LEN + MAX_PAYLOAD
    {
      hide Sent, Written, Received, Flatten, Parse, Frames, FrameBytes, GcmSealer, GcmOpener, NextFrame, Valid,
        Sound;
      GcmNext(cipher, readKey, rxBuf);
      if |rxBuf| < HEADER_LEN { return Ok(false); }
      var payloadLen := Val4(rxBuf);
      if !(MIN_PAYLOAD <= payloadLen <= MAX_PAYLOAD) { return Err(InvalidData); }
      var frameLen := HEADER_LEN + payloadLen;
      if |rxBuf| < frameLen { return Ok(false); }
      var frame := rxBuf[HEADER_LEN..frameLen];
      var plain := cipher.open(readKey, frame[..NONCE_LEN], frame[NONCE_LEN..]);
      match plain
      case None => return Err(InvalidData);
      case Some(v) =>
        TakeFrame(v, frameLen);
        return Ok(true);
    }

    /** The copy-out shared by both exits of `poll_read`. */
    method HandOut(cap: nat) returns (data: bytes)
      requires Valid() && stickyErr.None?
      modifies this`inPlain, this`inPos, this`delivered
      ensures Valid() && delivered == old(delivered) + data
      ensures |data| == Min(cap, |old(inPlain)| - old(inPos))
      ensures |data| == cap || inPlain == []
    {
      hide Sent, Written, Received, Flatten, Parse, Frames, FrameBytes, NextFrame, GcmSealer, GcmOpener, Chunks, BE4,
        Nonce, Explains, SawBad, CutShort, Spent, Faulty;
      var n := Min(cap, |inPlain| - inPos);
      data := inPlain[inPos..inPos + n];
      CutOut(delivered, inPlain, inPos, n);
      delivered := delivered + data;
      if inPos + n == |inPlain| {
        inPlain, inPos := [], 0;
        assert inPlain[inPos..] == [];
      } else {
        inPos := inPos + n;
      }
    }

    /** The part of `poll_read` that reads raw bytes from below; `Ok(false)` is a clean end. */
    method PullInner() returns (r: Poll<bool>)
      requires Valid() && stickyErr.None? && inPlain == [] && NextFrame(Opens(), rxBuf).NeedMore?
      modifies Repr
      ensures Valid() && Untouched(old(accepted), old(records), old(delivered), old(got)) && inPlain == []
      ensures r == Ready(Ok(true)) ==> stickyErr.None? && |rxBuf| > |old(rxBuf)|
      ensures r == Ready(Ok(false)) ==> stickyErr.None? && AtEof()
      ensures r.Pending? ==> stickyErr.None? && CaughtUp()
      ensures r.IsErr() ==> stickyErr == Some(r.io.error) && rxBuf == old(rxBuf)
      ensures Later(old(bottom.Wire()), bottom.Wire()) && bottom.accepted == old(bottom.accepted)
      ensures r.Pending? ==> bottom.pended > old(bottom.pended)
      ensures Flushed() == old(Flushed())
      decreases depth, 1
    {
      hide Sent, Written, Received, Flatten, Parse, Frames, FrameBytes, NextFrame, GcmSealer, GcmOpener, Chunks, BE4,
        Nonce, Explains, SawBad, CutShort, Spent, Faulty, AnyConn.Flushed;
      ghost var under := inner.Delivered();
      var read := inner.PollRead(TMP_LEN);
      match read {
        case Ready(Ok(data)) =>
          if data == [] {
            assert under + data == under;
            if rxBuf == [] { return Ready(Ok(false)); }
            EndsInFrame();
            Latch(UnexpectedEof);
            return Ready(Err(UnexpectedEof));
          }
          ReceivedMore(Opens(), readBase, under, eaten, rxBuf, got, data);
          rxBuf := rxBuf + data;
          return Ready(Ok(true));
        case Ready(Err(e)) =>
          ExplainedBelow(e);
          Latch(e);
          return Ready(Err(e));
        case Pending => return Pending;
      }
    }

    /** The loop of `poll_read`: one frame, or whatever stops it. */
    method ReadLoop(cap: nat) returns (r: Poll<bytes>)
      requires Valid() && stickyErr.None? && inPlain == []
      modifies Repr
      ensures Valid() && accepted == old(accepted) && records == old(records)
      ensures r.IsOk() ==> |r.io.value| <= cap && delivered == old(delivered) + r.io.value
      ensures !r.IsOk() ==> delivered == old(delivered)
      ensures r.Pending? ==> CaughtUp()
      ensures r.IsOk() && r.io.value == [] && cap > 0 ==> AtEof() || [] in got
      ensures r.IsErr() ==> stickyErr == Some(r.io.error) && inPlain == [] && !NextFrame(Opens(), rxBuf).Frame?
      ensures Later(old(bottom.Wire()), bottom.Wire()) && bottom.accepted == old(bottom.accepted)
      ensures r.Pending? ==> bottom.pended > old(bottom.pended)
      ensures Flushed() == old(Flushed())
      ensures r.IsOk() ==> |r.io.value| == cap || inPlain == []
      decreases depth, 2
    {
      hide Sent, Written, Received, Flatten, Parse, Frames, FrameBytes, NextFrame, GcmSealer, GcmOpener, Chunks, BE4,
        Nonce, Explains, SawBad, CutShort, Spent, Faulty;
      while true
        invariant Valid() && stickyErr.None? && inPlain == []
        invariant Untouched(old(accepted), old(records), old(delivered), got)
        invariant Later(old(bottom.Wire()), bottom.Wire()) && bottom.accepted == old(bottom.accepted)
        invariant Flushed() == old(Flushed())
        decreases HEADER_LEN + MAX_PAYLOAD + 1 - |rxBuf|
      {
        var decoded := TryDecryptFrame();
        match decoded {
          case Ok(true) =>
            var data := HandOut(cap);
            return Ready(Ok(data));
          case Ok(false) =>
          case Err(e) =>
            LatchBadFrame();
            return Ready(Err(e));
        }
        var pulled := PullInner();
        match pulled {
          case Ready(Ok(true)) =>
          case Ready(Ok(false)) => return Ready(Ok([]));
          case Ready(Err(e)) => return Ready(Err(e));
          case Pending => return Pending;
        }
      }
    }

    /** `AsyncRead::poll_read` into a buffer with `cap` bytes free. */
    method PollRead(cap: nat) returns (r: Poll<bytes>)
      requires Valid()
      modifies Repr
      ensures Valid() && accepted == old(accepted) && records == old(records)
      ensures r.IsOk() ==> |r.io.value| <= cap && delivered == old(delivered) + r.io.value
      ensures !r.IsOk() ==> delivered == old(delivered)
      ensures r.Pending? ==> CaughtUp()
      ensures r.IsOk() && r.io.value == [] && cap > 0 ==> AtEof() || [] in got
      ensures r.IsErr() ==> Explains(r.io.error) && stickyErr == Some(r.io.error)
      ensures r.IsErr() && old(stickyErr.None?) ==> inPlain == [] && !NextFrame(Opens(), rxBuf).Frame?
      ensures old(stickyErr.Some?) ==>
                r == Ready(Err(old(stickyErr.value))) && inner.Delivered() == old(inner.Delivered())
      ensures Later(old(bottom.Wire()), bottom.Wire()) && bottom.accepted == old(bottom.accepted)
      ensures r.Pending? ==> bottom.pended > old(bottom.pended)
      ensures old(stickyErr.Some?) ==> stickyErr == old(stickyErr)
      ensures Flushed() == old(Flushed())
      ensures r.IsOk() ==> |r.io.value| == cap || inPlain == []
      decreases depth, 3
    {
      hide Sent, Written, Received, Flatten, Parse, Frames, FrameBytes, NextFrame, GcmSealer, GcmOpener, Chunks, BE4,
        Nonce, SawBad, CutShort, Spent, Faulty;
      if stickyErr.Some? { return Ready(Err(stickyErr.value)); }
      if inPos < |inPlain| {
        var data := HandOut(cap);
        return Ready(Ok(data));
      }
      r := ReadLoop(cap);
    }

    method Arrive(more: bytes, last: bool)
      requires Valid()
      modifies Repr
      ensures Valid() && Untouched(old(accepted), old(records), old(delivered), old(got))
      ensures bottom.Wire() == old(bottom.Wire()).(arrived := bottom.arrived, eof := bottom.eof)
      ensures old(bottom.eof) ==> bottom.arrived == old(bottom.arrived) && bottom.eof
      ensures !old(bottom.eof) ==> bottom.arrived == old(bottom.arrived) + more && bottom.eof == last
      ensures Flushed() == old(Flushed()) && SawBad() == old(SawBad()) && Spent() == old(Spent())
      ensures forall e :: Faulty(e) == old(Faulty(e))
      ensures (old(AtEof()) ==> AtEof()) && (old(CutShort()) ==> CutShort())
      ensures old(stickyErr.Some?) ==> stickyErr == old(stickyErr)
      decreases depth, 2
    {
      hide Sent, Written, Received, Flatten, Parse, Frames, FrameBytes, NextFrame, GcmSealer, GcmOpener, Chunks, BE4,
        Nonce;
      ghost var e := if stickyErr.Some? then stickyErr.value else WriteZero;
      ghost var reason := inner.Faulty(e);
      inner.Arrive(more, last);
      assert inner.Faulty(e) == reason;
    }
  }
}
