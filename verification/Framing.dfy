/**
 Length-prefixed frames, `[4-byte big-endian payload length][payload]`: the one wire shape shared by
 encrypted records, compressed blocks and v1 control messages.

 `Parse` is the one-shot reference parser. The stream classes decode incrementally; everything they
 hand out is stated in terms of `Parse`.
*/
module Framing {
  import opened Bytes

  const HEADER_LEN: int := 4

  /** A receiver: the accepted payload lengths and what a payload means. */
  datatype Opener<!T> = Opener(min: nat, max: nat, unwrap: bytes -> Option<T>)

  /** A sender: the values it may frame and the payload of the i-th one. */
  datatype Sealer<!T> = Sealer(fits: T -> bool, wrap: (nat, T) -> bytes)

  datatype Next<T> = NeedMore | Bad | Frame(value: T, len: nat)

  /** What the front of a receive buffer holds. */
  function NextFrame<T>(o: Opener<T>, b: bytes): (r: Next<T>)
    ensures r.Frame? ==> HEADER_LEN <= r.len <= |b|
    ensures r.NeedMore? ==> |b| < HEADER_LEN + o.max || |b| < HEADER_LEN
  {
    if |b| < HEADER_LEN then NeedMore
    else
      var n := Val4(b);
      if n < o.min || n > o.max then Bad
      else if |b| < HEADER_LEN + n then NeedMore
      else
        match o.unwrap(b[HEADER_LEN..HEADER_LEN + n])
        case None => Bad
        case Some(v) => Frame(v, HEADER_LEN + n)
  }

  /** `values` of the longest run of valid frames, then the bytes left, and whether they start with a bad frame. */
  datatype Scan<T> = Scan(values: seq<T>, rest: bytes, bad: bool)

  function Parse<T>(o: Opener<T>, b: bytes): Scan<T>
    decreases |b|
  {
    match NextFrame(o, b)
    case NeedMore => Scan([], b, false)
    case Bad => Scan([], b, true)
    case Frame(v, n) =>
      var tail := Parse(o, b[n..]);
      Scan([v] + tail.values, tail.rest, tail.bad)
  }

  /** A verdict on the front of a buffer does not change when more bytes arrive. */
  lemma NextFrameStable<T>(o: Opener<T>, a: bytes, b: bytes)
    requires !NextFrame(o, a).NeedMore?
    ensures NextFrame(o, a + b) == NextFrame(o, a)
  {
    assert Val4(a + b) == Val4(a);
    var n := Val4(a);
    if o.min <= n <= o.max {
      assert (a + b)[HEADER_LEN..HEADER_LEN + n] == a[HEADER_LEN..HEADER_LEN + n];
    }
  }

  /** Continue a scan with newly arrived bytes. */
  function Feed<T>(o: Opener<T>, s: Scan<T>, more: bytes): Scan<T> {
    if s.bad then Scan(s.values, s.rest + more, true)
    else
      var tail := Parse(o, s.rest + more);
      Scan(s.values + tail.values, tail.rest, tail.bad)
  }

  /** Feeding the rest later is the same as parsing everything at once. */
  lemma {:induction false} ParseAppend<T>(o: Opener<T>, a: bytes, b: bytes)
    ensures Parse(o, a + b) == Feed(o, Parse(o, a), b)
    decreases |a|
  {
    match NextFrame(o, a) {
      case NeedMore =>
        assert [] + Parse(o, a + b).values == Parse(o, a + b).values;
      case Bad =>
        NextFrameStable(o, a, b);
      case Frame(v, n) =>
        NextFrameStable(o, a, b);
        assert (a + b)[n..] == a[n..] + b;
        ParseAppend(o, a[n..], b);
        FeedCons(o, v, Parse(o, a[n..]), b);
    }
  }

  lemma FeedCons<T>(o: Opener<T>, v: T, s: Scan<T>, more: bytes)
    ensures Feed(o, Scan([v] + s.values, s.rest, s.bad), more)
         == var t := Feed(o, s, more); Scan([v] + t.values, t.rest, t.bad)
  {
    if !s.bad {
      var tail := Parse(o, s.rest + more);
      assert [v] + (s.values + tail.values) == ([v] + s.values) + tail.values;
    }
  }

  function FeedAll<T>(o: Opener<T>, s: Scan<T>, segments: seq<bytes>): Scan<T>
    decreases |segments|
  {
    if segments == [] then s else FeedAll(o, Feed(o, s, segments[0]), segments[1..])
  }

  /** However a byte string is cut into segments, the incremental scan ends where the one-shot parser does. */
  lemma {:induction false} SegmentationIrrelevant<T>(o: Opener<T>, seen: bytes, segments: seq<bytes>)
    ensures FeedAll(o, Parse(o, seen), segments) == Parse(o, seen + Flatten(segments))
    decreases |segments|
  {
    hide Parse, Feed, NextFrame;
    if segments == [] {
      assert seen + Flatten(segments) == seen;
    } else {
      ParseAppend(o, seen, segments[0]);
      SegmentationIrrelevant(o, seen + segments[0], segments[1..]);
      assert seen + segments[0] + Flatten(segments[1..]) == seen + Flatten(segments);
    }
  }

  /** One more complete frame after a fully consumed string. */
  lemma ParseSnoc<T>(o: Opener<T>, done: bytes, rx: bytes)
    requires Parse(o, done).rest == [] && !Parse(o, done).bad
    requires NextFrame(o, rx).Frame?
    ensures var f := NextFrame(o, rx);
            Parse(o, done + rx[..f.len]) == Scan(Parse(o, done).values + [f.value], [], false)
  {
    var f := NextFrame(o, rx);
    var one := rx[..f.len];
    assert NextFrame(o, one) == f by {
      assert Val4(one) == Val4(rx);
      var n := Val4(rx);
      assert one[HEADER_LEN..HEADER_LEN + n] == rx[HEADER_LEN..HEADER_LEN + n];
    }
    assert one[f.len..] == [];
    assert Parse(o, one) == Scan([f.value] + Parse(o, []).values, [], false);
    ParseAppend(o, done, one);
    assert [] + one == one;
  }

  /** Bytes after a fully consumed string are parsed on their own. */
  lemma ParseAfter<T>(o: Opener<T>, done: bytes, rx: bytes)
    requires Parse(o, done).rest == [] && !Parse(o, done).bad
    ensures var p := Parse(o, rx);
            Parse(o, done + rx) == Scan(Parse(o, done).values + p.values, p.rest, p.bad)
  {
    ParseAppend(o, done, rx);
    assert [] + rx == rx;
  }

  /** What is left after the last valid frame is itself a verdict: bad, or not yet a frame. */
  lemma {:induction false} ParseStops<T>(o: Opener<T>, b: bytes)
    ensures var s := Parse(o, b);
            Parse(o, s.rest) == Scan([], s.rest, s.bad)
            && if s.bad then NextFrame(o, s.rest).Bad? else NextFrame(o, s.rest).NeedMore?
    decreases |b|
  {
    if NextFrame(o, b).Frame? {
      ParseStops(o, b[NextFrame(o, b).len..]);
    }
  }

  /** Later bytes never take back a value, and nothing follows a bad frame. */
  lemma ParseMonotone<T>(o: Opener<T>, a: bytes, b: bytes)
    requires a <= b
    ensures Parse(o, a).values <= Parse(o, b).values
    ensures Parse(o, a).bad ==> Parse(o, b).bad && Parse(o, b).values == Parse(o, a).values
  {
    assert b == a + b[|a|..];
    ParseAppend(o, a, b[|a|..]);
  }

  // ---------------------------------------------------------------- sending

  /** One frame on the wire; the length goes through the source's `as u32` cast. */
  function FrameBytes<T>(s: Sealer<T>, i: nat, v: T): bytes {
    BE4(|s.wrap(i, v)| % U32) + s.wrap(i, v)
  }

  function Frames<T>(s: Sealer<T>, first: nat, vs: seq<T>): bytes
    decreases |vs|
  {
    if vs == [] then [] else FrameBytes(s, first, vs[0]) + Frames(s, first + 1, vs[1..])
  }

  lemma {:induction false} FramesAppend<T>(s: Sealer<T>, first: nat, a: seq<T>, b: seq<T>)
    ensures Frames(s, first, a + b) == Frames(s, first, a) + Frames(s, first + |a|, b)
    decreases |a|
  {
    hide FrameBytes;
    if a == [] {
      assert a + b == b;
    } else {
      assert (a + b)[1..] == a[1..] + b;
      calc {
        Frames(s, first, a + b);
        FrameBytes(s, first, a[0]) + Frames(s, first + 1, a[1..] + b);
        { FramesAppend(s, first + 1, a[1..], b); }
        FrameBytes(s, first, a[0]) + (Frames(s, first + 1, a[1..]) + Frames(s, first + |a|, b));
        Frames(s, first, a) + Frames(s, first + |a|, b);
      }
    }
  }

  lemma FramesSnoc<T>(s: Sealer<T>, first: nat, a: seq<T>, v: T)
    ensures Frames(s, first, a + [v]) == Frames(s, first, a) + FrameBytes(s, first + |a|, v)
  {
    FramesAppend(s, first, a, [v]);
    assert [v][1..] == [];
    assert Frames(s, first + |a|, [v]) == FrameBytes(s, first + |a|, v) + [];
  }

  ghost predicate AllFit<T(!new)>(s: Sealer<T>, vs: seq<T>) {
    forall v :: v in vs ==> s.fits(v)
  }

  /** The receiver undoes the sender and its length check lets every honest payload pass. */
  ghost predicate Matches<T(!new)>(s: Sealer<T>, o: Opener<T>) {
    && o.max < U32
    && forall i: nat, v: T :: s.fits(v) ==> Undoes(s, o, i, v)
  }

  ghost predicate Undoes<T>(s: Sealer<T>, o: Opener<T>, i: nat, v: T) {
    o.min <= |s.wrap(i, v)| <= o.max && o.unwrap(s.wrap(i, v)) == Some(v)
  }

  lemma NextOfFrame<T(!new)>(s: Sealer<T>, o: Opener<T>, i: nat, v: T, tail: bytes)
    requires Matches(s, o) && s.fits(v)
    ensures NextFrame(o, FrameBytes(s, i, v) + tail) == Frame(v, |FrameBytes(s, i, v)|)
  {
    assert Undoes(s, o, i, v);
    var w := s.wrap(i, v);
    BE4Val4(|w|, w + tail);
    var b := FrameBytes(s, i, v) + tail;
    assert b == BE4(|w|) + (w + tail);
    assert b[HEADER_LEN..HEADER_LEN + |w|] == w;
  }

  /** Round trip: parsing the frames of `vs` gives back exactly `vs`. */
  lemma {:induction false} ParseFrames<T(!new)>(s: Sealer<T>, o: Opener<T>, first: nat, vs: seq<T>)
    requires Matches(s, o) && AllFit(s, vs)
    ensures Parse(o, Frames(s, first, vs)) == Scan(vs, [], false)
    decreases |vs|
  {
    if vs != [] {
      var tail := Frames(s, first + 1, vs[1..]);
      NextOfFrame(s, o, first, vs[0], tail);
      assert Frames(s, first, vs)[|FrameBytes(s, first, vs[0])|..] == tail;
      ParseFrames(s, o, first + 1, vs[1..]);
      assert vs == [vs[0]] + vs[1..];
    }
  }

  /** Any part of an honest byte stream that has arrived parses to a prefix of what was sent, and never looks bad. */
  lemma HonestPrefix<T(!new)>(s: Sealer<T>, o: Opener<T>, vs: seq<T>, arrived: bytes)
    requires Matches(s, o) && AllFit(s, vs)
    requires arrived <= Frames(s, 0, vs)
    ensures Parse(o, arrived).values <= vs
    ensures !Parse(o, arrived).bad
    ensures arrived == Frames(s, 0, vs) ==> Parse(o, arrived) == Scan(vs, [], false)
  {
    ParseFrames(s, o, 0, vs);
    ParseMonotone(o, arrived, Frames(s, 0, vs));
  }

  // ---------------------------------------------------------------- buffer bookkeeping of one layer

  /**
   Write side of a layer: what the layer below has acknowledged, followed by what is still buffered,
   is what was there before the layer was added (`base`) followed by the frames of `records`.
  */
  ghost predicate Written<T>(s: Sealer<T>, base: bytes, under: bytes, buffered: bytes, records: seq<T>) {
    under + buffered == base + Frames(s, 0, records)
  }

  ghost predicate Sent<T(!new)>(s: Sealer<T>, base: bytes, under: bytes, buffered: bytes, records: seq<T>) {
    Written(s, base, under, buffered, records) && AllFit(s, records)
  }

  lemma ReceivedNothing<T>(o: Opener<T>, read: bytes)
    ensures Received(o, read, read, [], [], [])
  {
    assert read + [] + [] == read;
  }

  /** A layer starts with nothing buffered and nothing decoded. */
  lemma StartsEmpty(s: Sealer<bytes>, o: Opener<bytes>, written: bytes, read: bytes)
    ensures Sent(s, written, written, [], []) && Received(o, read, read, [], [], []) && Flatten([]) == []
  {
    assert written + [] == written;
    ReceivedNothing(o, read);
  }

  lemma WrittenDrain<T>(s: Sealer<T>, base: bytes, under: bytes, buffered: bytes, records: seq<T>, n: nat)
    requires Written(s, base, under, buffered, records) && n <= |buffered|
    ensures Written(s, base, under + buffered[..n], buffered[n..], records)
  {
    assert under + buffered[..n] + buffered[n..] == under + buffered;
  }

  lemma WrittenFrame<T>(s: Sealer<T>, base: bytes, under: bytes, buffered: bytes, records: seq<T>, v: T)
    requires Written(s, base, under, buffered, records)
    ensures Written(s, base, under, buffered + FrameBytes(s, |records|, v), records + [v])
  {
    FramesSnoc(s, 0, records, v);
    var f := FrameBytes(s, |records|, v);
    assert under + (buffered + f) == (under + buffered) + f;
    assert base + Frames(s, 0, records) + f == base + (Frames(s, 0, records) + f);
  }

  lemma SentDrain(s: Sealer<bytes>, base: bytes, under: bytes, buffered: bytes, records: seq<bytes>, n: nat)
    requires Sent(s, base, under, buffered, records) && n <= |buffered|
    ensures Sent(s, base, under + buffered[..n], buffered[n..], records)
  {
    WrittenDrain(s, base, under, buffered, records, n);
  }

  lemma SentFrame(s: Sealer<bytes>, base: bytes, under: bytes, buffered: bytes, records: seq<bytes>, v: bytes)
    requires Sent(s, base, under, buffered, records) && s.fits(v)
    ensures Sent(s, base, under, buffered + FrameBytes(s, |records|, v), records + [v])
  {
    WrittenFrame(s, base, under, buffered, records, v);
  }

  /**
   Read side of a layer: what the layer below has handed over is `base`, then `eaten`, a whole number
   of valid frames holding the records `got`, then the bytes not yet decoded.
  */
  ghost predicate Received<T>(o: Opener<T>, base: bytes, under: bytes, eaten: bytes, rx: bytes, got: seq<T>) {
    under == base + eaten + rx && Parse(o, eaten) == Scan(got, [], false)
  }

  lemma ReceivedMore<T>(o: Opener<T>, base: bytes, under: bytes, eaten: bytes, rx: bytes, got: seq<T>, data: bytes)
    requires Received(o, base, under, eaten, rx, got)
    ensures Received(o, base, under + data, eaten, rx + data, got)
  {
    assert base + eaten + rx + data == base + eaten + (rx + data);
  }

  lemma ReceivedFrame<T>(o: Opener<T>, base: bytes, under: bytes, eaten: bytes, rx: bytes, got: seq<T>)
    requires Received(o, base, under, eaten, rx, got)
    requires NextFrame(o, rx).Frame?
    ensures var f := NextFrame(o, rx);
            Received(o, base, under, eaten + rx[..f.len], rx[f.len..], got + [f.value])
  {
    ParseSnoc(o, eaten, rx);
    Regroup(base, eaten, rx, NextFrame(o, rx).len);
  }

  lemma Regroup(a: bytes, b: bytes, c: bytes, n: nat)
    requires n <= |c|
    ensures a + b + c == a + (b + c[..n]) + c[n..]
  {
    assert c == c[..n] + c[n..];
  }

  /** Seen from outside, a layer has decoded part of the one-shot parse, and all of it once no frame is waiting. */
  lemma ReceivedIsParse<T>(o: Opener<T>, base: bytes, under: bytes, eaten: bytes, rx: bytes, got: seq<T>)
    requires Received(o, base, under, eaten, rx, got)
    ensures base <= under
    ensures var p := Parse(o, under[|base|..]);
            && got <= p.values
            && (!NextFrame(o, rx).Frame? ==> p == Scan(got, rx, NextFrame(o, rx).Bad?))
            && (NextFrame(o, rx).Bad? ==> p.bad)
  {
    assert under[|base|..] == eaten + rx;
    ParseAfter(o, eaten, rx);
  }
}
