/**
 The yamux session driver: one task owns the connection and turns `open_stream` calls, received over a bounded
 command channel, into replies over one-shot channels, in order. The connection is an adversary: each turn brings
 an arbitrary answer to every poll of it.
*/
module MuxDriver {
  import opened Bytes

  const CHANNEL_CAPACITY: int := 64

  /** What an `open_stream` call returns. */
  datatype Outcome = Opened(stream: nat) | OpenFailed(code: int) | SessionClosed

  datatype Cmd = Open(id: nat) | Close

  /**
   `Delivering` and `Closing` are the driver's two other await points; `Stopped` has set the closed flag, `Gone` has
   dropped its channels.
  */
  datatype Phase = Polling | Delivering(stream: nat) | Closing | Stopped | Gone

  datatype Inbound = NewStream(stream: nat) | InboundError | InboundEnd | InboundPending
  datatype Outbound = OutboundReady(stream: nat) | OutboundError(code: int) | OutboundPending
  datatype Polls = Polls(inbound: Inbound, outbound: Outbound, closeDone: bool)

  /**
   `sending` are calls waiting for room in the command channel; `issued` the calls that got in, in that order;
   `replies` the one-shot sends, in order; `outcomes` what calls have returned; `abandoned` calls whose future was
   dropped.
   `arrived` are the streams the peer opened, `accepted` those `accept_stream` has returned.
  */
  datatype State = State(
    phase: Phase, cmds: seq<Cmd>, pendingOpens: seq<nat>, inbound: seq<nat>, session: bool,
    callers: set<nat>, sending: set<nat>, abandoned: set<nat>, outcomes: map<nat, Outcome>,
    issued: seq<nat>, replies: seq<(nat, Outcome)>, arrived: seq<nat>, accepted: seq<nat>)

  const INITIAL: State := State(Polling, [], [], [], true, {}, {}, {}, map[], [], [], [], [])

  datatype Op =
    | Call(id: nat) | Push(id: nat) | Abandon(id: nat) | CallClose | Accept | DropSession
    | Turn(polls: Polls) | DropChannels

  /** A one-shot send: lost if the caller has gone. */
  function Reply(s: State, id: nat, o: Outcome): State {
    s.(replies := s.replies + [(id, o)], outcomes := if id in s.abandoned then s.outcomes else s.outcomes[id := o])
  }

  /** One poll of the driver's event sources, in its order, and the handling of the event. */
  function DriverTurn(s: State, p: Polls): State {
    match s.phase
    case Polling =>
      (match p.inbound
       case NewStream(st) => s.(phase := Delivering(st), arrived := s.arrived + [st])
       case InboundError => s.(phase := Stopped)
       case InboundEnd => s.(phase := Stopped)
       case InboundPending =>
         if s.pendingOpens != [] && !p.outbound.OutboundPending? then
           Reply(s.(pendingOpens := s.pendingOpens[1..]), s.pendingOpens[0],
                 if p.outbound.OutboundReady? then Opened(p.outbound.stream) else OpenFailed(p.outbound.code))
         else if s.cmds != [] then
           match s.cmds[0]
           case Open(id) => s.(cmds := s.cmds[1..], pendingOpens := s.pendingOpens + [id])
           case Close => s.(cmds := s.cmds[1..], phase := Closing)
         else if !s.session then s.(phase := Stopped)
         else s)
    case Delivering(st) =>
      if !s.session then s.(phase := Stopped)
      else if |s.inbound| < CHANNEL_CAPACITY then s.(phase := Polling, inbound := s.inbound + [st])
      else s
    case Closing => if p.closeDone then s.(phase := Stopped) else s
    case Stopped => s
    case Gone => s
  }

  function OpenIds(cmds: seq<Cmd>): seq<nat> {
    if cmds == [] then []
    else if cmds[0].Open? then [cmds[0].id] + OpenIds(cmds[1..])
    else OpenIds(cmds[1..])
  }

  function Settled(s: State): set<nat> { s.outcomes.Keys + s.abandoned }

  function Step(s: State, op: Op): State {
    match op
    case Call(id) =>
      if id in s.callers || !s.session then s
      else if s.phase.Stopped? || s.phase.Gone? then
        s.(callers := s.callers + {id}, outcomes := s.outcomes[id := SessionClosed])
      else s.(callers := s.callers + {id}, sending := s.sending + {id})
    case Push(id) =>
      if id !in s.sending then s
      else if s.phase.Gone? then s.(sending := s.sending - {id}, outcomes := s.outcomes[id := SessionClosed])
      else if |s.cmds| < CHANNEL_CAPACITY then
        s.(sending := s.sending - {id}, cmds := s.cmds + [Open(id)], issued := s.issued + [id])
      else s
    case Abandon(id) =>
      if id !in s.callers || id in Settled(s) then s
      else s.(abandoned := s.abandoned + {id}, sending := s.sending - {id})
    case CallClose =>
      if s.session && !s.phase.Gone? && |s.cmds| < CHANNEL_CAPACITY then s.(cmds := s.cmds + [Close]) else s
    case Accept =>
      if s.inbound == [] || !s.session then s
      else s.(inbound := s.inbound[1..], accepted := s.accepted + [s.inbound[0]])
    case DropSession => if s.callers <= Settled(s) then s.(session := false, inbound := []) else s
    case Turn(polls) => DriverTurn(s, polls)
    case DropChannels =>
      if !s.phase.Stopped? then s
      else
        var orphans := set id | id in s.pendingOpens + OpenIds(s.cmds) && id !in s.abandoned;
        s.(phase := Gone, cmds := [], pendingOpens := [],
           outcomes := s.outcomes + map id | id in orphans :: SessionClosed)
  }

  function Run(ops: seq<Op>): State {
    if ops == [] then INITIAL else Step(Run(ops[..|ops| - 1]), ops[|ops| - 1])
  }

  // ---------------------------------------------------------------- the invariant

  function Ids(replies: seq<(nat, Outcome)>): (r: seq<nat>)
    ensures |r| == |replies| && forall k :: 0 <= k < |r| ==> r[k] == replies[k].0
  {
    seq(|replies|, k requires 0 <= k < |replies| => replies[k].0)
  }

  /** The calls that got into the channel are, in order: the answered ones, the pending ones, the queued ones. */
  ghost predicate InOrder(s: State) {
    if s.phase.Gone? then Ids(s.replies) <= s.issued && s.cmds == [] && s.pendingOpens == []
    else Ids(s.replies) + s.pendingOpens + OpenIds(s.cmds) == s.issued
  }

  ghost predicate Waiting(s: State, id: nat) {
    id in s.pendingOpens || id in OpenIds(s.cmds)
  }

  ghost predicate CallsOk(s: State) {
    && NoDups(s.issued)
    && (forall id :: id in s.issued ==> id in s.callers && id !in s.sending)
    && s.sending <= s.callers && s.abandoned <= s.callers && s.outcomes.Keys <= s.callers
    && s.sending !! Settled(s) && s.outcomes.Keys !! s.abandoned
    // a call without an outcome is somewhere, and a call with an outcome is nowhere
    && (forall id :: id in s.callers && id !in Settled(s) ==> id in s.sending || Waiting(s, id))
    && (forall id :: id in s.outcomes ==> !Waiting(s, id))
  }

  /** A reply is the outcome of its caller, and every outcome other than "closed" is its own reply. */
  ghost predicate RepliesOk(s: State) {
    && (forall k :: 0 <= k < |s.replies| && s.replies[k].0 !in s.abandoned ==>
          s.replies[k].0 in s.outcomes && s.outcomes[s.replies[k].0] == s.replies[k].1)
    && (forall id :: id in s.outcomes && s.outcomes[id] != SessionClosed ==> (id, s.outcomes[id]) in s.replies)
    && (forall k :: 0 <= k < |s.replies| ==> s.replies[k].1 != SessionClosed)
  }

  function InHand(phase: Phase): seq<nat> {
    if phase.Delivering? then [phase.stream] else []
  }

  /** As long as the session is in use, no stream the peer opened is lost or reordered. */
  ghost predicate InboundOk(s: State) {
    && |s.inbound| <= CHANNEL_CAPACITY
    && s.accepted <= s.arrived
    && (s.session ==> s.accepted + s.inbound + InHand(s.phase) == s.arrived)
    && (s.phase.Delivering? ==> s.arrived != [])
  }

  ghost predicate Inv(s: State) { InOrder(s) && CallsOk(s) && RepliesOk(s) && InboundOk(s) }

  lemma {:induction false} OpenIdsAppend(a: seq<Cmd>, b: seq<Cmd>)
    ensures OpenIds(a + b) == OpenIds(a) + OpenIds(b)
  {
    if a == [] {
      assert a + b == b;
    } else {
      assert (a + b)[1..] == a[1..] + b;
      OpenIdsAppend(a[1..], b);
    }
  }

  lemma AnswerKeeps(s: State, o: Outcome)
    requires Inv(s) && !s.phase.Gone? && s.pendingOpens != [] && o != SessionClosed
    ensures Inv(Reply(s.(pendingOpens := s.pendingOpens[1..]), s.pendingOpens[0], o))
  {
    var id, rest := s.pendingOpens[0], s.pendingOpens[1..];
    var t := Reply(s.(pendingOpens := rest), id, o);
    assert s.pendingOpens == [id] + rest;
    assert Ids(t.replies) == Ids(s.replies) + [id];
    assert Ids(t.replies) + rest + OpenIds(s.cmds) == Ids(s.replies) + s.pendingOpens + OpenIds(s.cmds);
    AtIssued(s, |s.replies|);
    assert Waiting(s, id) && !Waiting(t, id);
    forall i | i in t.callers && i !in Settled(t)
      ensures i in t.sending || Waiting(t, i)
    {
      assert i in s.sending || Waiting(s, i);
    }
    forall i | i in t.outcomes && t.outcomes[i] != SessionClosed
      ensures (i, t.outcomes[i]) in t.replies
    {
      if i != id { assert (i, s.outcomes[i]) in s.replies; }
      else { assert t.replies[|s.replies|] == (id, o); }
    }
  }

  /** The position of each call in `issued`. */
  lemma AtIssued(s: State, k: nat)
    requires InOrder(s) && NoDups(s.issued) && !s.phase.Gone? && |s.replies| <= k < |s.replies| + |s.pendingOpens|
    ensures s.issued[k] == s.pendingOpens[k - |s.replies|]
    ensures s.issued[k] !in s.pendingOpens[k - |s.replies| + 1..] && s.issued[k] !in OpenIds(s.cmds)
    ensures forall j :: 0 <= j < |s.replies| ==> s.replies[j].0 != s.issued[k]
  {
    var a, b, c := Ids(s.replies), s.pendingOpens, OpenIds(s.cmds);
    assert s.issued == a + b + c;
    forall j | 0 <= j < |s.replies|
      ensures s.replies[j].0 != s.issued[k]
    {
      assert s.issued[j] == a[j];
    }
    forall j | 0 <= j < |c|
      ensures c[j] != s.issued[k]
    {
      assert s.issued[|a| + |b| + j] == c[j];
    }
    forall j | k - |a| + 1 <= j < |b|
      ensures b[j] != s.issued[k]
    {
      assert s.issued[|a| + j] == b[j];
    }
  }

  lemma TakeCmdKeeps(s: State, p: Polls)
    requires Inv(s) && s.phase.Polling? && p.inbound.InboundPending?
    requires (s.pendingOpens == [] || p.outbound.OutboundPending?) && s.cmds != []
    ensures Inv(DriverTurn(s, p))
  {
    var t := DriverTurn(s, p);
    hide NoDups, Ids;
    var rest := OpenIds(s.cmds[1..]);
    if s.cmds[0].Open? { MoveOne(Ids(s.replies), s.pendingOpens, s.cmds[0].id, rest); }
    assert OpenIds(s.cmds) == if s.cmds[0].Open? then [s.cmds[0].id] + rest else rest;
    hide OpenIds;
    assert forall i :: Waiting(t, i) <==> Waiting(s, i);
  }

  lemma MoveOne(a: seq<nat>, b: seq<nat>, id: nat, rest: seq<nat>)
    ensures a + (b + [id]) + rest == a + b + ([id] + rest)
  {
  }

  /** Changes of phase and of the inbound side do not concern the calls. */
  lemma CallsUntouched(s: State, t: State)
    requires Inv(s) && InboundOk(t)
    requires t == s.(phase := t.phase, inbound := t.inbound, session := t.session, arrived := t.arrived,
                     accepted := t.accepted)
    requires s.phase.Gone? <==> t.phase.Gone?
    ensures Inv(t)
  {
    hide NoDups, OpenIds, Ids;
    assert forall i :: Waiting(t, i) <==> Waiting(s, i);
  }

  lemma TurnKeeps(s: State, p: Polls)
    requires Inv(s)
    ensures Inv(DriverTurn(s, p))
  {
    hide InOrder, CallsOk, RepliesOk, InboundOk;
    var t := DriverTurn(s, p);
    if s.phase.Polling? && p.inbound.InboundPending? && s.pendingOpens != [] && !p.outbound.OutboundPending? {
      AnswerKeeps(s, if p.outbound.OutboundReady? then Opened(p.outbound.stream) else OpenFailed(p.outbound.code));
    } else if s.phase.Polling? && p.inbound.InboundPending? && s.cmds != [] {
      TakeCmdKeeps(s, p);
    } else {
      InboundTurn(s, p);
      CallsUntouched(s, t);
    }
  }

  lemma InboundTurn(s: State, p: Polls)
    requires InboundOk(s)
    ensures InboundOk(DriverTurn(s, p))
  {
    var all := s.accepted + s.inbound;
    assert forall st :: all + [] + [st] == all + [st] && s.accepted + (s.inbound + [st]) + [] == all + [st];
  }

  lemma AcceptKeeps(s: State)
    requires InboundOk(s)
    ensures InboundOk(Step(s, Accept))
  {
    if s.inbound != [] && s.session {
      assert s.accepted + [s.inbound[0]] + s.inbound[1..] == s.accepted + s.inbound;
      var done := s.accepted + [s.inbound[0]];
      assert done + (s.inbound[1..] + InHand(s.phase)) == done + s.inbound[1..] + InHand(s.phase);
    }
  }

  lemma PushKeeps(s: State, id: nat)
    requires Inv(s) && id in s.sending
    ensures Inv(Step(s, Push(id)))
  {
    var t := Step(s, Push(id));
    if s.phase.Gone? {
      assert forall i :: Waiting(t, i) <==> Waiting(s, i);
    } else if |s.cmds| < CHANNEL_CAPACITY {
      OpenIdsAppend(s.cmds, [Open(id)]);
      assert OpenIds([Open(id)]) == [id] + OpenIds([]);
      assert OpenIds(t.cmds) == OpenIds(s.cmds) + [id];
      assert Ids(s.replies) + s.pendingOpens + (OpenIds(s.cmds) + [id]) == s.issued + [id];
      assert forall i :: Waiting(t, i) <==> Waiting(s, i) || i == id;
    }
  }

  lemma DropChannelsKeeps(s: State)
    requires Inv(s) && s.phase.Stopped?
    ensures Inv(Step(s, DropChannels))
  {
    var t := Step(s, DropChannels);
    var a := Ids(s.replies);
    assert s.issued == a + (s.pendingOpens + OpenIds(s.cmds)) by {
      assert a + s.pendingOpens + OpenIds(s.cmds) == a + (s.pendingOpens + OpenIds(s.cmds));
    }
    forall id | id in s.callers && id !in Settled(s) && id !in s.sending
      ensures id in t.outcomes
    {
      assert Waiting(s, id);
    }
    forall id | id in t.outcomes
      ensures id in s.callers && id !in t.sending && id !in t.abandoned
    {
      if id !in s.outcomes { assert id in s.issued; }
    }
    forall k | 0 <= k < |s.replies| && s.replies[k].0 !in s.abandoned
      ensures t.outcomes[s.replies[k].0] == s.replies[k].1
    {
      assert s.replies[k].0 in s.outcomes && !Waiting(s, s.replies[k].0);
    }
  }

  lemma CloseKeeps(s: State)
    requires Inv(s)
    ensures Inv(Step(s, CallClose))
  {
    OpenIdsAppend(s.cmds, [Close]);
    assert OpenIds([Close]) == OpenIds([]);
    assert OpenIds(s.cmds) + [] == OpenIds(s.cmds);
    assert forall i :: Waiting(Step(s, CallClose), i) <==> Waiting(s, i);
  }

  lemma CallKeeps(s: State, id: nat)
    requires Inv(s)
    ensures Inv(Step(s, Call(id)))
  {
    assert forall i :: Waiting(Step(s, Call(id)), i) <==> Waiting(s, i);
    if !s.phase.Gone? { assert forall i :: Waiting(s, i) ==> i in s.issued; }
  }

  lemma AbandonKeeps(s: State, id: nat)
    requires Inv(s)
    ensures Inv(Step(s, Abandon(id)))
  {
    assert forall i :: Waiting(Step(s, Abandon(id)), i) <==> Waiting(s, i);
  }

  lemma StepKeeps(s: State, op: Op)
    requires Inv(s)
    ensures Inv(Step(s, op))
  {
    hide InOrder, CallsOk, RepliesOk;
    match op
    case Turn(p) => TurnKeeps(s, p);
    case Push(id) => if id in s.sending { PushKeeps(s, id); }
    case DropChannels => if s.phase.Stopped? { DropChannelsKeeps(s); }
    case CallClose => CloseKeeps(s);
    case Accept =>
      AcceptKeeps(s);
      CallsUntouched(s, Step(s, op));
    case DropSession => CallsUntouched(s, Step(s, op));
    case Call(id) => CallKeeps(s, id);
    case Abandon(id) => AbandonKeeps(s, id);
  }

  /** Every run: any calls, any cancellations, any connection. */
  lemma {:induction false} RunKeeps(ops: seq<Op>)
    ensures var s := Run(ops); InOrder(s) && CallsOk(s) && RepliesOk(s) && InboundOk(s)
  {
    if ops != [] {
      RunKeeps(ops[..|ops| - 1]);
      StepKeeps(Run(ops[..|ops| - 1]), ops[|ops| - 1]);
    }
  }

  // ---------------------------------------------------------------- what it means

  /**
   First in, first out: the k-th reply answers the k-th call that got into the channel, and no call is answered twice.
  */
  lemma RepliesAreFifo(ops: seq<Op>, k: nat)
    requires k < |Run(ops).replies|
    ensures var s := Run(ops);
            && k < |s.issued| && s.replies[k].0 == s.issued[k]
            && (forall j :: 0 <= j < |s.replies| && s.replies[j].0 == s.replies[k].0 ==> j == k)
  {
    RunKeeps(ops);
    var s := Run(ops);
    var a := Ids(s.replies);
    assert a <= s.issued by {
      if !s.phase.Gone? { assert a + s.pendingOpens + OpenIds(s.cmds) == a + (s.pendingOpens + OpenIds(s.cmds)); }
    }
    forall j | 0 <= j < |s.replies| && s.replies[j].0 == s.replies[k].0
      ensures j == k
    {
      assert a[j] == s.issued[j] && a[k] == s.issued[k];
    }
  }

  /** The answer of the connection to an open request, as the caller sees it. */
  function Granted(answer: Outbound): Outcome
    requires !answer.OutboundPending?
  {
    match answer
    case OutboundReady(stream) => Opened(stream)
    case OutboundError(code) => OpenFailed(code)
  }

  /** The driver was ready to hear about an open request in this turn, and did. */
  predicate Hears(s: State, op: Op) {
    && op.Turn? && s.phase.Polling? && s.pendingOpens != []
    && op.polls.inbound.InboundPending? && !op.polls.outbound.OutboundPending?
  }

  /** What the connection has answered to open requests, in order. */
  function Grants(ops: seq<Op>): seq<Outcome> {
    if ops == [] then []
    else
      var before, s, op := Grants(ops[..|ops| - 1]), Run(ops[..|ops| - 1]), ops[|ops| - 1];
      if Hears(s, op) then before + [Granted(op.polls.outbound)] else before
  }

  predicate Receives(s: State, op: Op) { op.Turn? && s.phase.Polling? && op.polls.inbound.NewStream? }

  predicate Enters(s: State, op: Op) { op.Push? && op.id in s.sending && !s.phase.Gone? && |s.cmds| < CHANNEL_CAPACITY }

  /** The streams the peer has opened, in order. */
  function Offered(ops: seq<Op>): seq<nat> {
    if ops == [] then []
    else
      var before, s, op := Offered(ops[..|ops| - 1]), Run(ops[..|ops| - 1]), ops[|ops| - 1];
      if Receives(s, op) then before + [op.polls.inbound.stream] else before
  }

  /** The calls that have got into the command channel, in order. */
  function Entered(ops: seq<Op>): seq<nat> {
    if ops == [] then []
    else
      var before, s, op := Entered(ops[..|ops| - 1]), Run(ops[..|ops| - 1]), ops[|ops| - 1];
      if Enters(s, op) then before + [op.id] else before
  }

  ghost predicate Tells(s: State, grants: seq<Outcome>, offered: seq<nat>, entered: seq<nat>) {
    && |s.replies| == |grants| && (forall k :: 0 <= k < |grants| ==> s.replies[k].1 == grants[k])
    && s.arrived == offered && s.issued == entered
  }

  lemma StepTells(s: State, op: Op, grants: seq<Outcome>, offered: seq<nat>, entered: seq<nat>)
    requires Tells(s, grants, offered, entered)
    ensures Tells(Step(s, op),
                  if Hears(s, op) then grants + [Granted(op.polls.outbound)] else grants,
                  if Receives(s, op) then offered + [op.polls.inbound.stream] else offered,
                  if Enters(s, op) then entered + [op.id] else entered)
  {
    hide OpenIds;
  }

  lemma {:induction false} RunTells(ops: seq<Op>)
    ensures Tells(Run(ops), Grants(ops), Offered(ops), Entered(ops))
  {
    if ops != [] {
      var init, last := ops[..|ops| - 1], ops[|ops| - 1];
      RunTells(init);
      hide Step, Tells;
      StepTells(Run(init), last, Grants(init), Offered(init), Entered(init));
    }
  }

  /**
   The k-th call that got into the channel gets the k-th answer of the connection, the same stream or the same error,
   and nothing else: it has an outcome other than "closed" exactly when there are that many answers, unless it was
   cancelled. The streams on the inbound side are those the peer opened.
  */
  lemma CallGetsItsGrant(ops: seq<Op>, k: nat)
    requires k < |Entered(ops)|
    ensures var s, id := Run(ops), Entered(ops)[k];
            && id in s.callers
            && (id !in s.abandoned ==>
                  (id in s.outcomes && s.outcomes[id] != SessionClosed <==> k < |Grants(ops)|)
                  && (k < |Grants(ops)| ==> s.outcomes[id] == Grants(ops)[k]))
            && s.arrived == Offered(ops)
    ensures forall j :: 0 <= j < |Entered(ops)| && j != k ==> Entered(ops)[j] != Entered(ops)[k]
  {
    RunKeeps(ops);
    RunTells(ops);
    var s, id := Run(ops), Entered(ops)[k];
    assert forall j :: 0 <= j < |s.replies| ==> Ids(s.replies)[j] == s.issued[j];
    if k < |s.replies| { assert s.replies[k].0 == id; }
  }

  /** "Closed" is reported only once the driver has stopped. */
  ghost predicate ClosedMeansStopped(s: State) {
    forall id :: id in s.outcomes && s.outcomes[id] == SessionClosed ==> s.phase.Stopped? || s.phase.Gone?
  }

  lemma {:induction false} ClosedOnlyWhenStopped(ops: seq<Op>)
    ensures ClosedMeansStopped(Run(ops))
  {
    if ops != [] { ClosedOnlyWhenStopped(ops[..|ops| - 1]); }
  }

  /**
   When the driver stops: the connection ended or failed while it listened, a close it was asked for is done, or the
   session is gone and there is nothing left to do.
  */
  lemma StopsIff(s: State, op: Op)
    requires !s.phase.Stopped? && !s.phase.Gone?
    ensures Step(s, op).phase.Stopped? <==>
            && op.Turn?
            && match s.phase
               case Polling =>
                 || op.polls.inbound.InboundError? || op.polls.inbound.InboundEnd?
                 || (op.polls.inbound.InboundPending? && !s.session && s.cmds == []
                     && (s.pendingOpens == [] || op.polls.outbound.OutboundPending?))
               case Delivering(_) => !s.session
               case _ => op.polls.closeDone
  {
  }

  /** A close command takes effect in its turn: after the commands before it, and nothing is dequeued after it. */
  lemma ClosesInTurn(s: State, op: Op)
    requires s.phase.Polling?
    ensures Step(s, op).phase.Closing? <==>
            && op.Turn? && op.polls.inbound.InboundPending? && s.cmds != [] && s.cmds[0].Close?
            && (s.pendingOpens == [] || op.polls.outbound.OutboundPending?)
    ensures Step(s, op).phase.Closing? ==> Step(s, op).cmds == s.cmds[1..] && Step(s, op).pendingOpens == s.pendingOpens
  {
  }

  /** A close request gets into the command channel. */
  predicate AsksClose(s: State, op: Op) { op.CallClose? && s.session && !s.phase.Gone? && |s.cmds| < 64 }

  /** The driver takes the oldest command. */
  predicate Dequeues(s: State, op: Op) {
    && op.Turn? && s.phase.Polling? && op.polls.inbound.InboundPending? && s.cmds != []
    && (s.pendingOpens == [] || op.polls.outbound.OutboundPending?)
  }

  /** The commands put into the channel, in order. */
  function Commanded(ops: seq<Op>): seq<Cmd> {
    if ops == [] then []
    else
      var before, s, op := Commanded(ops[..|ops| - 1]), Run(ops[..|ops| - 1]), ops[|ops| - 1];
      if Enters(s, op) then before + [Open(op.id)] else if AsksClose(s, op) then before + [Close] else before
  }

  /** The commands the driver has taken out of it, in order. */
  function Dequeued(ops: seq<Op>): seq<Cmd> {
    if ops == [] then []
    else
      var before, s, op := Dequeued(ops[..|ops| - 1]), Run(ops[..|ops| - 1]), ops[|ops| - 1];
      if Dequeues(s, op) then before + [s.cmds[0]] else before
  }

  lemma StepQueues(s: State, op: Op, put: seq<Cmd>, got: seq<Cmd>)
    requires s.phase.Gone? || put == got + s.cmds
    ensures var t := Step(s, op);
            var put' := if Enters(s, op) then put + [Open(op.id)] else if AsksClose(s, op) then put + [Close] else put;
            var got' := if Dequeues(s, op) then got + [s.cmds[0]] else got;
            t.phase.Gone? || put' == got' + t.cmds
  {
    hide OpenIds;
    if Dequeues(s, op) { assert got + s.cmds == got + [s.cmds[0]] + s.cmds[1..]; }
    assert forall c: Cmd :: got + s.cmds + [c] == got + (s.cmds + [c]);
  }

  /** First in, first out: opens and closes are taken in the order they were sent, none lost while the driver lives. */
  lemma {:induction false} CommandsInOrder(ops: seq<Op>)
    ensures Run(ops).phase.Gone? || Commanded(ops) == Dequeued(ops) + Run(ops).cmds
  {
    if ops != [] {
      var init, last := ops[..|ops| - 1], ops[|ops| - 1];
      CommandsInOrder(init);
      hide Step, Enters, AsksClose, Dequeues;
      StepQueues(Run(init), last, Commanded(init), Dequeued(init));
    }
  }

  /**
   The callers' side: `accept_stream` takes the oldest delivered stream; a call whose future is dropped before it has an
   outcome is cancelled; and the session can be dropped once no call is waiting.
  */
  lemma CallersSide(s: State, id: nat)
    ensures s.session && s.inbound != [] ==>
              var t := Step(s, Accept); t.accepted == s.accepted + [s.inbound[0]] && t.inbound == s.inbound[1..]
    ensures id in s.callers && id !in s.outcomes && id !in s.abandoned ==>
              var t := Step(s, Abandon(id)); id in t.abandoned && id !in t.sending && t.outcomes == s.outcomes
    ensures (forall c :: c in s.callers ==> c in s.outcomes || c in s.abandoned) ==> !Step(s, DropSession).session
  {
  }

  /** A call that returned a stream or an error returned the reply to its own request. */
  lemma OwnReply(ops: seq<Op>, id: nat)
    requires id in Run(ops).outcomes && Run(ops).outcomes[id] != SessionClosed
    ensures (id, Run(ops).outcomes[id]) in Run(ops).replies
  {
    RunKeeps(ops);
  }

  lemma OutcomeStays(s: State, op: Op, id: nat)
    requires Inv(s) && id in s.outcomes
    ensures id in Step(s, op).outcomes && Step(s, op).outcomes[id] == s.outcomes[id]
  {
    assert !Waiting(s, id);
    if s.pendingOpens != [] { assert s.pendingOpens[0] in s.pendingOpens; }
  }

  /** An outcome, once there, never changes, whatever happens afterwards. */
  lemma {:induction false} OutcomeFinal(ops: seq<Op>, more: seq<Op>, id: nat)
    requires id in Run(ops).outcomes
    ensures id in Run(ops + more).outcomes && Run(ops + more).outcomes[id] == Run(ops).outcomes[id]
    decreases |more|
  {
    if more == [] {
      assert ops + more == ops;
    } else {
      var init, last := more[..|more| - 1], more[|more| - 1];
      assert (ops + more)[..|ops + more| - 1] == ops + init;
      OutcomeFinal(ops, init, id);
      RunKeeps(ops + init);
      hide Inv, Step;
      OutcomeStays(Run(ops + init), last, id);
    }
  }

  /**
   Once the driver has exited, no call waits for ever: every call that was not cancelled has an outcome, except those
   still waiting for channel room, whose next poll reports the session closed.
  */
  lemma ExitSettlesAll(ops: seq<Op>, id: nat)
    requires Run(ops).phase.Gone? && id in Run(ops).callers && id !in Run(ops).abandoned
    ensures var s := Run(ops);
            if id in s.sending then Step(s, Push(id)).outcomes == s.outcomes[id := SessionClosed]
            else id in s.outcomes
  {
    RunKeeps(ops);
    assert !Waiting(Run(ops), id);
  }

  /** `accept_stream` returns the streams the peer opened, in order, each once. */
  lemma AcceptsInOrder(ops: seq<Op>)
    ensures Run(ops).accepted <= Run(ops).arrived
    ensures Run(ops).session ==> Run(ops).accepted + Run(ops).inbound + InHand(Run(ops).phase) == Run(ops).arrived
  {
    RunKeeps(ops);
  }

  /** The driver's turns against a sequence of answers of the connection. */
  function Serve(s: State, polls: seq<Polls>): State
    decreases |polls|
  {
    if polls == [] then s else Serve(DriverTurn(s, polls[0]), polls[1..])
  }

  function Arrivals(polls: seq<Polls>): nat
    decreases |polls|
  {
    if polls == [] then 0 else Arrivals(polls[1..]) + (if polls[0].inbound.NewStream? then 1 else 0)
  }

  /** Answers of a connection in use: streams may come in, and every request to open one is granted or refused. */
  predicate Answers(polls: seq<Polls>) {
    forall k :: 0 <= k < |polls| ==>
      (polls[k].inbound.NewStream? || polls[k].inbound.InboundPending?) && !polls[k].outbound.OutboundPending?
  }

  /** Turns still needed: one to answer a call, one more to dequeue it, one to deliver a stream in hand. */
  function Todo(s: State): nat { |s.pendingOpens| + 2 * |s.cmds| + |InHand(s.phase)| }

  predicate Unanswered(s: State) { s.pendingOpens != [] || s.cmds != [] }

  ghost predicate Serving(s: State) {
    Inv(s) && (s.phase.Polling? || s.phase.Delivering?) && s.session && Close !in s.cmds
  }

  lemma TurnServes(s: State, p: Polls)
    requires Serving(s) && Answers([p]) && |s.inbound| + |InHand(s.phase)| <= CHANNEL_CAPACITY
    ensures var t := DriverTurn(s, p);
            var came := if p.inbound.NewStream? then 1 else 0;
            && Serving(t) && t.issued == s.issued
            && |t.inbound| + |InHand(t.phase)| <= |s.inbound| + |InHand(s.phase)| + came
            && (Unanswered(s) ==> Todo(t) <= Todo(s) - 1 + 2 * came)
            && (!Unanswered(s) ==> !Unanswered(t))
  {
    assert Answers([p]) && [p][0] == p;
    TurnKeeps(s, p);
    hide Inv;
  }

  /**
   Progress: whatever streams the peer opens meanwhile, as long as the inbound channel has room for them, every call in
   the channel is answered within the turns it takes to dequeue and answer each call and to receive and deliver each
   stream.
  */
  lemma {:induction false} ServesAll(s: State, polls: seq<Polls>)
    requires Serving(s) && Answers(polls)
    requires |s.inbound| + |InHand(s.phase)| + Arrivals(polls) <= CHANNEL_CAPACITY
    requires |polls| >= Todo(s) + 2 * Arrivals(polls)
    ensures Ids(Serve(s, polls).replies) == s.issued
    decreases |polls|
  {
    hide Inv, DriverTurn;
    if polls == [] {
      AllAnswered(s);
    } else {
      var p, rest := polls[0], polls[1..];
      assert Answers([p]) && forall k :: 0 <= k < |rest| ==> rest[k] == polls[k + 1];
      TurnServes(s, p);
      if Unanswered(s) { ServesAll(DriverTurn(s, p), rest); } else { StaysAnswered(s, polls); }
    }
  }

  lemma AllAnswered(s: State)
    requires Serving(s) && !Unanswered(s)
    ensures Ids(s.replies) == s.issued
  {
    assert Ids(s.replies) + [] + OpenIds([]) == Ids(s.replies);
  }

  lemma {:induction false} StaysAnswered(s: State, polls: seq<Polls>)
    requires Serving(s) && Answers(polls) && !Unanswered(s)
    requires |s.inbound| + |InHand(s.phase)| + Arrivals(polls) <= CHANNEL_CAPACITY
    ensures Ids(Serve(s, polls).replies) == s.issued
    decreases |polls|
  {
    hide Inv, DriverTurn;
    if polls == [] {
      AllAnswered(s);
    } else {
      var p, rest := polls[0], polls[1..];
      assert Answers([p]) && forall k :: 0 <= k < |rest| ==> rest[k] == polls[k + 1];
      TurnServes(s, p);
      StaysAnswered(DriverTurn(s, p), rest);
    }
  }

  // ---------------------------------------------------------------- the driver

  class Driver {
    var phase: Phase
    var cmds: seq<Cmd>
    var pendingOpens: seq<nat>
    var inbound: seq<nat>
    var session: bool
    ghost var callers: set<nat>
    ghost var sending: set<nat>
    ghost var abandoned: set<nat>
    ghost var outcomes: map<nat, Outcome>
    ghost var issued: seq<nat>
    ghost var replies: seq<(nat, Outcome)>
    ghost var arrived: seq<nat>
    ghost var accepted: seq<nat>

    ghost function Now(): State
      reads this
    {
      State(phase, cmds, pendingOpens, inbound, session, callers, sending, abandoned, outcomes, issued, replies,
            arrived, accepted)
    }

    constructor ()
      ensures Now() == INITIAL
    {
      phase, cmds, pendingOpens, inbound, session := Polling, [], [], [], true;
      callers, sending, abandoned, outcomes, issued, replies := {}, {}, {}, map[], [], [];
      arrived, accepted := [], [];
    }

    /** `pop_front` and the one-shot send. */
    method Answer(o: Outcome)
      requires pendingOpens != []
      modifies this
      ensures Now() == Reply(old(Now()).(pendingOpens := old(pendingOpens)[1..]), old(pendingOpens)[0], o)
    {
      var id := pendingOpens[0];
      pendingOpens := pendingOpens[1..];
      replies := replies + [(id, o)];
      if id !in abandoned { outcomes := outcomes[id := o]; }
    }

    /** One turn of `driver_loop`. */
    method TakeTurn(p: Polls)
      modifies this
      ensures Now() == DriverTurn(old(Now()), p)
    {
      match phase
      case Delivering(st) =>
        if !session { phase := Stopped; }
        else if |inbound| < CHANNEL_CAPACITY { phase, inbound := Polling, inbound + [st]; }
      case Closing => if p.closeDone { phase := Stopped; }
      case Polling =>
        if p.inbound.NewStream? {
          phase, arrived := Delivering(p.inbound.stream), arrived + [p.inbound.stream];
          return;
        }
        if !p.inbound.InboundPending? { phase := Stopped; return; }
        if pendingOpens != [] {
          match p.outbound
          case OutboundReady(st) => Answer(Opened(st)); return;
          case OutboundError(code) => Answer(OpenFailed(code)); return;
          case OutboundPending =>
        }
        if cmds != [] {
          var cmd := cmds[0];
          cmds := cmds[1..];
          match cmd
          case Open(id) => pendingOpens := pendingOpens + [id];
          case Close => phase := Closing;
        } else if !session {
          phase := Stopped;
        }
      case Stopped =>
      case Gone =>
    }

    /** The loop: runs until it stops or the given connection answers are used up. */
    method DriverLoop(polls: seq<Polls>)
      requires Inv(Now())
      modifies this
      ensures Inv(Now()) && old(replies) <= replies
      ensures issued == old(issued) && callers == old(callers)
    {
      hide InOrder, CallsOk, RepliesOk;
      for i := 0 to |polls|
        invariant Inv(Now()) && old(replies) <= replies && issued == old(issued) && callers == old(callers)
      {
        if phase.Stopped? || phase.Gone? { break; }
        TurnKeeps(Now(), polls[i]);
        TakeTurn(polls[i]);
      }
    }
  }
}
