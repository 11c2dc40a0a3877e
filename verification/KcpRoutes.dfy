/**
 The KCP listener's source-route table. One reader task routes datagrams by source address; any number of
 `accept` calls run concurrently; each accepted connection holds a guard that removes its route when dropped.

 `Step` gives one atomic action (one lock region, channel operation or counter increment); the class performs
 it on the listener's own fields; the invariant is proved for every sequence of steps.
*/
module KcpRoutes {
  import opened Bytes

  /** Source addresses. */
  type Addr = nat

  const INCOMING_CAPACITY: int := 256

  /**
   `taken` are first packets an `accept` has received but not yet numbered, `reserved` the numbers drawn but not yet
   inserted, `live` the route guards not yet dropped. `accepted` is the history of insertions.
  */
  datatype State = State(
    routes: map<Addr, nat>, nextId: nat, incoming: seq<Addr>,
    taken: multiset<Addr>, reserved: map<nat, Addr>, live: map<nat, Addr>,
    accepted: seq<(Addr, nat)>)

  const INITIAL: State := State(map[], 1, [], multiset{}, map[], map[], [])

  datatype Op =
    | Datagram(src: Addr)   // the reader gets a packet
    | Take                  // an accept receives the next first packet
    | Reserve(src: Addr)    // it draws a route id
    | Insert(id: nat)       // it inserts the route and creates the guard
    | Abandon(id: nat)      // it is cancelled before inserting
    | DropGuard(id: nat)    // a connection ends, or its setup fails: its guard is dropped

  datatype Routed = Forwarded(id: nat) | Queued | Discarded

  /** What the reader does with a packet. */
  function Route(s: State, src: Addr): Routed {
    if src in s.routes then Forwarded(s.routes[src])
    else if |s.incoming| < INCOMING_CAPACITY then Queued
    else Discarded
  }

  /** An action that is not enabled leaves the state alone. */
  function Step(s: State, op: Op): State {
    match op
    case Datagram(src) =>
      if Route(s, src).Queued? then s.(incoming := s.incoming + [src]) else s
    case Take =>
      if s.incoming == [] then s
      else s.(incoming := s.incoming[1..], taken := s.taken + multiset{s.incoming[0]})
    case Reserve(src) =>
      if src !in s.taken then s
      else s.(taken := s.taken - multiset{src}, reserved := s.reserved[s.nextId := src], nextId := s.nextId + 1)
    case Insert(id) =>
      if id !in s.reserved then s
      else
        var src := s.reserved[id];
        s.(reserved := s.reserved - {id}, routes := s.routes[src := id], live := s.live[id := src],
           accepted := s.accepted + [(src, id)])
    case Abandon(id) => s.(reserved := s.reserved - {id})
    case DropGuard(id) =>
      if id !in s.live then s
      else
        var src := s.live[id];
        s.(live := s.live - {id},
           routes := if src in s.routes && s.routes[src] == id then s.routes - {src} else s.routes)
  }

  function Run(ops: seq<Op>): State {
    if ops == [] then INITIAL else Step(Run(ops[..|ops| - 1]), ops[|ops| - 1])
  }

  /** The id most recently inserted for a source. */
  function LastFor(accepted: seq<(Addr, nat)>, src: Addr): Option<nat> {
    if accepted == [] then None
    else
      var e := accepted[|accepted| - 1];
      if e.0 == src then Some(e.1) else LastFor(accepted[..|accepted| - 1], src)
  }

  ghost predicate Numbered(s: State) {
    && (forall id :: id in s.reserved ==> id < s.nextId && id !in s.live)
    && (forall k :: 0 <= k < |s.accepted| ==> s.accepted[k].1 < s.nextId && s.accepted[k].1 !in s.reserved)
    && (forall j, k :: 0 <= j < k < |s.accepted| ==> s.accepted[j].1 != s.accepted[k].1)
    && (forall id :: id in s.live ==> (s.live[id], id) in s.accepted)
  }

  /** A source has route `id` exactly when `id` is the last id accepted for it and that connection is still live. */
  ghost predicate RoutesExact(s: State) {
    forall src: Addr, id: nat :: HasRoute(s, src, id) <==> LastFor(s.accepted, src) == Some(id) && id in s.live
  }

  predicate HasRoute(s: State, src: Addr, id: nat) {
    src in s.routes && s.routes[src] == id
  }

  ghost predicate Inv(s: State) { Numbered(s) && RoutesExact(s) }

  lemma {:induction false} LastForIsEntry(accepted: seq<(Addr, nat)>, src: Addr)
    ensures LastFor(accepted, src).Some? ==> (src, LastFor(accepted, src).value) in accepted
    ensures LastFor(accepted, src).None? ==> forall e :: e in accepted ==> e.0 != src
  {
    if accepted != [] {
      var init := accepted[..|accepted| - 1];
      LastForIsEntry(init, src);
      assert accepted == init + [accepted[|accepted| - 1]];
    }
  }

  lemma InsertKeeps(s: State, id: nat)
    requires Inv(s) && id in s.reserved
    ensures Inv(Step(s, Insert(id)))
  {
    var src0, t := s.reserved[id], Step(s, Insert(id));
    assert t.accepted[..|t.accepted| - 1] == s.accepted;
    forall src: Addr, i: nat
      ensures HasRoute(t, src, i) <==> LastFor(t.accepted, src) == Some(i) && i in t.live
    {
      assert HasRoute(s, src, i) <==> LastFor(s.accepted, src) == Some(i) && i in s.live;
      LastForIsEntry(s.accepted, src);
      assert (src, id) !in s.accepted;
    }
  }

  lemma DropKeeps(s: State, id: nat)
    requires Inv(s) && id in s.live
    ensures Inv(Step(s, DropGuard(id)))
  {
    var src0, t := s.live[id], Step(s, DropGuard(id));
    forall src: Addr, i: nat
      ensures HasRoute(t, src, i) <==> LastFor(t.accepted, src) == Some(i) && i in t.live
    {
      assert HasRoute(s, src, i) <==> LastFor(s.accepted, src) == Some(i) && i in s.live;
      LastForIsEntry(s.accepted, src);
      if LastFor(s.accepted, src) == Some(id) { assert (src, id) in s.accepted && (src0, id) in s.accepted; }
    }
  }

  lemma RoutesUntouched(s: State, t: State)
    requires RoutesExact(s) && t.routes == s.routes && t.live == s.live && t.accepted == s.accepted
    ensures RoutesExact(t)
  {
    forall src: Addr, i: nat
      ensures HasRoute(t, src, i) <==> LastFor(t.accepted, src) == Some(i) && i in t.live
    {
      assert HasRoute(s, src, i) <==> LastFor(s.accepted, src) == Some(i) && i in s.live;
    }
  }

  lemma ReserveKeeps(s: State, src: Addr)
    requires Numbered(s)
    ensures Numbered(Step(s, Reserve(src)))
  {
    assert s.nextId !in s.live;
  }

  lemma QueueKeeps(s: State, t: State)
    requires Numbered(s) && t == s.(incoming := t.incoming, taken := t.taken)
    ensures Numbered(t)
  {
  }

  lemma AbandonKeeps(s: State, id: nat)
    requires Numbered(s)
    ensures Numbered(Step(s, Abandon(id)))
  {
  }

  lemma OtherKeeps(s: State, op: Op)
    requires Inv(s) && !op.Insert? && !op.DropGuard?
    ensures Inv(Step(s, op))
  {
    hide RoutesExact, Numbered, LastFor;
    var t := Step(s, op);
    match op {
      case Reserve(src) => ReserveKeeps(s, src);
      case Abandon(id) => AbandonKeeps(s, id);
      case _ => QueueKeeps(s, t);
    }
    RoutesUntouched(s, t);
  }

  lemma StepKeeps(s: State, op: Op)
    requires Inv(s)
    ensures Inv(Step(s, op))
  {
    hide Inv, LastFor;
    match op
    case Insert(id) => if id in s.reserved { InsertKeeps(s, id); }
    case DropGuard(id) => if id in s.live { DropKeeps(s, id); }
    case _ => OtherKeeps(s, op);
  }

  /** Every run of datagrams, concurrent accepts and connection drops, in any order. */
  lemma {:induction false} RunKeeps(ops: seq<Op>)
    ensures Inv(Run(ops))
  {
    if ops != [] {
      RunKeeps(ops[..|ops| - 1]);
      StepKeeps(Run(ops[..|ops| - 1]), ops[|ops| - 1]);
    }
  }

  /** A guard that is not the newest for its source never removes a route. */
  lemma StaleGuardHarmless(ops: seq<Op>, id: nat)
    requires id in Run(ops).live
    requires LastFor(Run(ops).accepted, Run(ops).live[id]) != Some(id)
    ensures Run(ops + [DropGuard(id)]).routes == Run(ops).routes
  {
    RunKeeps(ops);
    var s := Run(ops);
    assert HasRoute(s, s.live[id], id) <==> LastFor(s.accepted, s.live[id]) == Some(id) && id in s.live;
    assert (ops + [DropGuard(id)])[..|ops|] == ops;
  }

  /** No route outlives the connections. */
  lemma NoLeak(ops: seq<Op>)
    requires Run(ops).live == map[]
    ensures Run(ops).routes == map[]
  {
    RunKeeps(ops);
    var s := Run(ops);
    forall src | src in s.routes
      ensures false
    {
      assert HasRoute(s, src, s.routes[src]);
    }
  }

  /**
   A datagram reaches the newest connection of its source as long as that one is live; otherwise it is queued as the
   first packet of a new one exactly when there is room, and discarded when there is none.
  */
  lemma RoutedToNewest(ops: seq<Op>, src: Addr)
    ensures var s := Run(ops);
            var newest := LastFor(s.accepted, src);
            if newest.Some? && newest.value in s.live then Route(s, src) == Forwarded(newest.value)
            else if |s.incoming| < 256 then Route(s, src) == Queued
            else Route(s, src) == Discarded
  {
    RunKeeps(ops);
    var s := Run(ops);
    if src in s.routes { assert HasRoute(s, src, s.routes[src]); }
    match LastFor(s.accepted, src)
    case Some(id) => assert HasRoute(s, src, id) <==> id in s.live;
    case None =>
  }

  /** The packets that were queued, in order. */
  function QueuedBy(ops: seq<Op>): seq<Addr> {
    if ops == [] then []
    else
      var before, s, op := QueuedBy(ops[..|ops| - 1]), Run(ops[..|ops| - 1]), ops[|ops| - 1];
      if op.Datagram? && Route(s, op.src).Queued? then before + [op.src] else before
  }

  /** What the accepts took from the queue, in order. */
  function TakenBy(ops: seq<Op>): seq<Addr> {
    if ops == [] then []
    else
      var before, s, op := TakenBy(ops[..|ops| - 1]), Run(ops[..|ops| - 1]), ops[|ops| - 1];
      if op.Take? && s.incoming != [] then before + [s.incoming[0]] else before
  }

  /** The sources of the route ids drawn, in order; the first id is 1. */
  function DrawnBy(ops: seq<Op>): seq<Addr> {
    if ops == [] then []
    else
      var before, s, op := DrawnBy(ops[..|ops| - 1]), Run(ops[..|ops| - 1]), ops[|ops| - 1];
      if op.Reserve? && op.src in s.taken then before + [op.src] else before
  }

  ghost predicate For(drawn: seq<Addr>, id: nat, src: Addr) { 1 <= id <= |drawn| && drawn[id - 1] == src }

  lemma {:induction false} QueueInOrder(ops: seq<Op>)
    ensures QueuedBy(ops) == TakenBy(ops) + Run(ops).incoming && |Run(ops).incoming| <= 256
  {
    if ops != [] {
      var init, last := ops[..|ops| - 1], ops[|ops| - 1];
      QueueInOrder(init);
      var s := Run(init);
      match last
      case Datagram(src) => assert TakenBy(init) + s.incoming + [src] == TakenBy(init) + (s.incoming + [src]);
      case Take =>
        if s.incoming != [] {
          assert TakenBy(init) + [s.incoming[0]] + s.incoming[1..] == TakenBy(init) + s.incoming;
        }
      case _ =>
    }
  }

  lemma TakenStep(s: State, op: Op, took: seq<Addr>, drew: seq<Addr>)
    requires multiset(took) == s.taken + multiset(drew)
    ensures multiset(if op.Take? && s.incoming != [] then took + [s.incoming[0]] else took)
         == Step(s, op).taken + multiset(if op.Reserve? && op.src in s.taken then drew + [op.src] else drew)
  {
    if op.Reserve? && op.src in s.taken { assert s.taken == s.taken - multiset{op.src} + multiset{op.src}; }
  }

  lemma {:induction false} TakenOnce(ops: seq<Op>)
    ensures multiset(TakenBy(ops)) == Run(ops).taken + multiset(DrawnBy(ops))
  {
    if ops != [] {
      var init, last := ops[..|ops| - 1], ops[|ops| - 1];
      TakenOnce(init);
      hide Step;
      TakenStep(Run(init), last, TakenBy(init), DrawnBy(init));
    }
  }

  ghost predicate DrawnFor(s: State, drawn: seq<Addr>) {
    && s.nextId == |drawn| + 1
    && (forall id :: id in s.reserved ==> For(drawn, id, s.reserved[id]))
    && (forall id :: id in s.live ==> For(drawn, id, s.live[id]))
  }

  lemma DrawnStep(s: State, op: Op, drew: seq<Addr>)
    requires DrawnFor(s, drew)
    ensures DrawnFor(Step(s, op), if op.Reserve? && op.src in s.taken then drew + [op.src] else drew)
  {
    hide Route;
  }

  lemma {:induction false} DrawnForSource(ops: seq<Op>)
    ensures DrawnFor(Run(ops), DrawnBy(ops))
  {
    if ops != [] {
      var init, last := ops[..|ops| - 1], ops[|ops| - 1];
      DrawnForSource(init);
      hide Step, DrawnFor;
      DrawnStep(Run(init), last, DrawnBy(init));
    }
  }

  /**
   First packets are accepted in the order they were queued, none lost, each at most once; and every connection, from
   drawing its id on, is that of a source whose packet was taken.
  */
  lemma AcceptsInOrder(ops: seq<Op>)
    ensures var s := Run(ops);
            && QueuedBy(ops) == TakenBy(ops) + s.incoming && |s.incoming| <= 256
            && multiset(TakenBy(ops)) == s.taken + multiset(DrawnBy(ops))
            && DrawnFor(s, DrawnBy(ops))
  {
    QueueInOrder(ops);
    TakenOnce(ops);
    DrawnForSource(ops);
  }

  /** Inserting a drawn id makes it the route of its source. */
  lemma InsertsRoute(ops: seq<Op>, id: nat)
    requires id in Run(ops).reserved
    ensures var src, t := Run(ops).reserved[id], Run(ops + [Insert(id)]);
            && t.routes == Run(ops).routes[src := id] && id in t.live && t.live[id] == src
            && t.accepted == Run(ops).accepted + [(src, id)]
  {
    assert (ops + [Insert(id)])[..|ops|] == ops;
  }

  /** An id stays drawn until it is inserted or its accept is cancelled. */
  lemma StaysDrawn(ops: seq<Op>, op: Op, id: nat)
    requires id in Run(ops).reserved && op != Insert(id) && op != Abandon(id)
    ensures id in Run(ops + [op]).reserved && Run(ops + [op]).reserved[id] == Run(ops).reserved[id]
  {
    RunKeeps(ops);
    assert (ops + [op])[..|ops|] == ops;
  }

  // ---------------------------------------------------------------- the listener

  class KcpListener {
    var routes: map<Addr, nat>
    var nextId: nat
    var incoming: seq<Addr>
    ghost var taken: multiset<Addr>
    ghost var reserved: map<nat, Addr>
    ghost var live: map<nat, Addr>
    ghost var accepted: seq<(Addr, nat)>

    ghost function Now(): State
      reads this
    {
      State(routes, nextId, incoming, taken, reserved, live, accepted)
    }

    constructor ()
      ensures Now() == INITIAL
    {
      routes, nextId, incoming, taken, reserved, live, accepted := map[], 1, [], multiset{}, map[], map[], [];
    }

    /** One turn of the reader loop. */
    method OnDatagram(src: Addr) returns (r: Routed)
      modifies this
      ensures r == Route(old(Now()), src) && Now() == Step(old(Now()), Datagram(src))
    {
      if src in routes { return Forwarded(routes[src]); }
      if |incoming| >= INCOMING_CAPACITY { return Discarded; }
      incoming := incoming + [src];
      return Queued;
    }

    /** `accept`, up to its first await point after the packet arrives. */
    method TakeFirst() returns (src: Option<Addr>)
      modifies this
      ensures Now() == Step(old(Now()), Take)
      ensures src == if old(incoming) == [] then None else Some(old(incoming)[0])
    {
      if incoming == [] { return None; }
      src := Some(incoming[0]);
      taken := taken + multiset{incoming[0]};
      incoming := incoming[1..];
    }

    method DrawId(src: Addr) returns (id: nat)
      requires src in taken
      modifies this
      ensures Now() == Step(old(Now()), Reserve(src)) && id == old(nextId) && id in reserved
    {
      id := nextId;
      nextId := nextId + 1;
      taken, reserved := taken - multiset{src}, reserved[id := src];
    }

    method InsertRoute(src: Addr, id: nat)
      requires id in reserved && reserved[id] == src
      modifies this
      ensures Now() == Step(old(Now()), Insert(id))
    {
      routes := routes[src := id];
      reserved, live, accepted := reserved - {id}, live[id := src], accepted + [(src, id)];
    }

    /** `KcpRouteGuard::drop`. */
    method DropRoute(remoteAddr: Addr, id: nat)
      requires id in live && live[id] == remoteAddr
      modifies this
      ensures Now() == Step(old(Now()), DropGuard(id))
    {
      if remoteAddr in routes && routes[remoteAddr] == id {
        routes := routes - {remoteAddr};
      }
      live := live - {id};
    }
  }
}
