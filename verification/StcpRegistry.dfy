/**
 The STCP reply registry: visitors register a waiter for a bridge before asking the server, the server's
 reply wakes every waiter of that bridge, and a waiter that is dropped takes its own entry out.

 `Step` is one atomic action; `register` is two of them (the id counter is outside the lock), and so is a wait
 that times out (the receiver closes first, the handle is dropped later).
*/
module StcpRegistry {
  import opened Bytes

  type Bridge = string

  /** `Result<StcpVisitorGrant, String>`. */
  datatype Reply = Granted(grant: string) | Refused(reason: string)

  datatype Outcome = Got(reply: Reply) | TimedOut | Dropped

  /**
   One `StcpWaiter` with its oneshot channel. `since` is how many replies had been resolved when it was entered in the
   table; `sent` whether its sender was taken out by a resolve, `slot` what the channel holds.
  */
  datatype Waiter = Waiter(
    bridge: Bridge, since: nat, sent: bool, slot: Option<Reply>, rxOpen: bool, outcome: Option<Outcome>)

  datatype State = State(
    pending: map<Bridge, seq<nat>>, nextId: nat, reserved: map<nat, Bridge>,
    live: map<nat, Waiter>, done: map<nat, Waiter>, replies: seq<(Bridge, Reply)>)

  const INITIAL: State := State(map[], 1, map[], map[], map[], [])

  datatype Op =
    | Draw(bridge: Bridge)                 // register: the id counter
    | Enter(id: nat)                       // register: the table
    | Resolve(bridge: Bridge, reply: Reply)
    | Wait(id: nat, expired: bool)         // one poll of wait_timeout
    | DropWaiter(id: nat)                  // the handle is dropped, in whatever state

  function Entries(pending: map<Bridge, seq<nat>>, bridge: Bridge): seq<nat> {
    if bridge in pending then pending[bridge] else []
  }

  /** `tx.send`: fills the channel if the receiver still exists. */
  function Send(w: Waiter, reply: Reply): Waiter {
    if w.rxOpen then w.(sent := true, slot := Some(reply)) else w.(sent := true)
  }

  /** `timeout(dur, rx)`: the channel is polled before the clock. */
  function Polled(w: Waiter, expired: bool): Waiter {
    if !w.rxOpen then w
    else if w.slot.Some? then w.(rxOpen := false, outcome := Some(Got(w.slot.value)))
    else if w.sent then w.(rxOpen := false, outcome := Some(Dropped))
    else if expired then w.(rxOpen := false, outcome := Some(TimedOut))
    else w
  }

  function Without(ids: seq<nat>, id: nat): (r: seq<nat>)
    ensures forall i :: i in r <==> i in ids && i != id
  {
    if ids == [] then []
    else
      var init, last := ids[..|ids| - 1], ids[|ids| - 1];
      assert ids == init + [last];
      var rest := Without(init, id);
      if last == id then rest else rest + [last]
  }

  lemma {:induction false} WithoutKeepsNoDups(ids: seq<nat>, id: nat)
    requires NoDups(ids)
    ensures NoDups(Without(ids, id))
  {
    if ids != [] {
      var init, last := ids[..|ids| - 1], ids[|ids| - 1];
      WithoutKeepsNoDups(init, id);
      var r := Without(ids, id);
      forall j, k | 0 <= j < k < |r|
        ensures r[j] != r[k]
      {
        assert last !in init;
        if k == |r| - 1 && last != id { assert r[j] in Without(init, id); }
      }
    }
  }

  /** `cancel`: an emptied list takes its key with it. */
  function Cancelled(pending: map<Bridge, seq<nat>>, bridge: Bridge, id: nat): map<Bridge, seq<nat>> {
    if bridge !in pending then pending
    else
      var left := Without(pending[bridge], id);
      if left == [] then pending - {bridge} else pending[bridge := left]
  }

  function Step(s: State, op: Op): State {
    match op
    case Draw(bridge) => s.(nextId := s.nextId + 1, reserved := s.reserved[s.nextId := bridge])
    case Enter(id) =>
      if id !in s.reserved then s
      else
        var bridge := s.reserved[id];
        s.(reserved := s.reserved - {id},
           pending := s.pending[bridge := Entries(s.pending, bridge) + [id]],
           live := s.live[id := Waiter(bridge, |s.replies|, false, None, true, None)])
    case Resolve(bridge, reply) =>
      var woken := Entries(s.pending, bridge);
      s.(pending := s.pending - {bridge},
         live := map id | id in s.live :: if id in woken then Send(s.live[id], reply) else s.live[id],
         replies := s.replies + [(bridge, reply)])
    case Wait(id, expired) =>
      if id !in s.live then s else s.(live := s.live[id := Polled(s.live[id], expired)])
    case DropWaiter(id) =>
      if id !in s.live then s
      else
        var w := s.live[id];
        s.(pending := Cancelled(s.pending, w.bridge, id), live := s.live - {id},
           done := s.done[id := w.(rxOpen := false)])
  }

  function Run(ops: seq<Op>): State {
    if ops == [] then INITIAL else Step(Run(ops[..|ops| - 1]), ops[|ops| - 1])
  }

  // ---------------------------------------------------------------- the invariant

  /** The first reply for a bridge among those resolved at or after position `since`. */
  function FirstReply(replies: seq<(Bridge, Reply)>, since: nat, bridge: Bridge): Option<Reply>
    decreases |replies| - since
  {
    if since >= |replies| then None
    else if replies[since].0 == bridge then Some(replies[since].1)
    else FirstReply(replies, since + 1, bridge)
  }

  lemma {:induction false} FirstReplySnoc(replies: seq<(Bridge, Reply)>, since: nat, bridge: Bridge, e: (Bridge, Reply))
    requires since <= |replies|
    ensures FirstReply(replies + [e], since, bridge) ==
            if FirstReply(replies, since, bridge).Some? then FirstReply(replies, since, bridge)
            else if e.0 == bridge then Some(e.1) else None
    decreases |replies| - since
  {
    if since < |replies| {
      FirstReplySnoc(replies, since + 1, bridge, e);
    } else {
      assert (replies + [e])[since] == e;
      assert FirstReply(replies + [e], since + 1, bridge) == None;
    }
  }

  /**
   What a waiter knows: it was sent to exactly when its bridge was resolved after it was entered; an open receiver
   holds that reply; a finished wait got that very reply or ran out of time; the channel is never simply dropped.
  */
  ghost predicate WaiterOk(w: Waiter, replies: seq<(Bridge, Reply)>) {
    var first := FirstReply(replies, w.since, w.bridge);
    && w.since <= |replies|
    && (w.sent <==> first.Some?)
    && (w.slot.Some? ==> w.slot == first)
    && (w.rxOpen <==> w.outcome.None?)
    && (w.rxOpen ==> w.slot == first)
    && (w.outcome.Some? ==> w.outcome == Some(TimedOut) || (first.Some? && w.outcome == Some(Got(first.value))))
  }

  ghost predicate TableOk(s: State) {
    && (forall b :: b in s.pending ==> s.pending[b] != [] && NoDups(s.pending[b]))
    && (forall b, id :: b in s.pending && id in s.pending[b] ==>
          id in s.live && s.live[id].bridge == b && !s.live[id].sent)
    && (forall id :: id in s.live && !s.live[id].sent ==> id in Entries(s.pending, s.live[id].bridge))
  }

  ghost predicate IdsOk(s: State) {
    && (forall id :: id in s.reserved ==> id < s.nextId && id !in s.live && id !in s.done)
    && (forall id :: id in s.live ==> id < s.nextId && id !in s.done)
    && (forall id :: id in s.done ==> id < s.nextId && !s.done[id].rxOpen)
  }

  ghost predicate WaitersOk(s: State) {
    && (forall id :: id in s.live ==> WaiterOk(s.live[id], s.replies))
    && (forall id :: id in s.done ==> DoneOk(s.done[id], s.replies))
  }

  /** A dropped handle keeps its outcome: the first reply of its own bridge, a timeout, or none if it never waited. */
  ghost predicate DoneOk(w: Waiter, replies: seq<(Bridge, Reply)>) {
    var first := FirstReply(replies, w.since, w.bridge);
    && w.since <= |replies|
    && (w.outcome.Some? ==> w.outcome == Some(TimedOut) || (first.Some? && w.outcome == Some(Got(first.value))))
  }

  ghost predicate Inv(s: State) { TableOk(s) && IdsOk(s) && WaitersOk(s) }

  lemma EnterKeeps(s: State, id: nat)
    requires Inv(s) && id in s.reserved
    ensures Inv(Step(s, Enter(id)))
  {
    hide WaitersOk;
    EnterTable(s, id);
    EnterWaiters(s, id);
  }

  lemma EnterTable(s: State, id: nat)
    requires TableOk(s) && IdsOk(s) && id in s.reserved
    ensures TableOk(Step(s, Enter(id)))
  {
    var t, b := Step(s, Enter(id)), s.reserved[id];
    assert t.pending[b] == Entries(s.pending, b) + [id];
    assert id !in Entries(s.pending, b);
  }

  lemma EnterWaiters(s: State, id: nat)
    requires IdsOk(s) && WaitersOk(s) && id in s.reserved
    ensures WaitersOk(Step(s, Enter(id)))
  {
    assert FirstReply(s.replies, |s.replies|, s.reserved[id]) == None;
    hide FirstReply;
  }

  lemma ResolveKeeps(s: State, bridge: Bridge, reply: Reply)
    requires Inv(s)
    ensures Inv(Step(s, Resolve(bridge, reply)))
  {
    var t, e := Step(s, Resolve(bridge, reply)), (bridge, reply);
    var woken := Entries(s.pending, bridge);
    forall id | id in t.live
      ensures WaiterOk(t.live[id], t.replies)
    {
      SentKeeps(s, id, e);
    }
    forall id | id in t.done
      ensures DoneOk(t.done[id], t.replies)
    {
      FirstReplySnoc(s.replies, s.done[id].since, s.done[id].bridge, e);
    }
    forall id | id in t.live && !t.live[id].sent
      ensures id in Entries(t.pending, t.live[id].bridge)
    {
      assert id !in woken && id in Entries(s.pending, s.live[id].bridge);
    }
  }

  lemma SentKeeps(s: State, id: nat, e: (Bridge, Reply))
    requires Inv(s) && id in s.live
    ensures WaiterOk(if id in Entries(s.pending, e.0) then Send(s.live[id], e.1) else s.live[id], s.replies + [e])
  {
    var w := s.live[id];
    assert WaiterOk(w, s.replies);
    FirstReplySnoc(s.replies, w.since, w.bridge, e);
    assert id in Entries(s.pending, e.0) <==> w.bridge == e.0 && !w.sent;
  }

  lemma WaitKeeps(s: State, id: nat, expired: bool)
    requires Inv(s) && id in s.live
    ensures Inv(Step(s, Wait(id, expired)))
  {
    assert WaiterOk(s.live[id], s.replies);
  }

  lemma CancelledEntries(pending: map<Bridge, seq<nat>>, bridge: Bridge, id: nat, b: Bridge, i: nat)
    ensures i in Entries(Cancelled(pending, bridge, id), b) <==> i in Entries(pending, b) && (b == bridge ==> i != id)
  {
  }

  lemma DropKeepsTable(s: State, id: nat)
    requires Inv(s) && id in s.live
    ensures TableOk(Step(s, DropWaiter(id)))
  {
    var t, w := Step(s, DropWaiter(id)), s.live[id];
    if w.bridge in s.pending { WithoutKeepsNoDups(s.pending[w.bridge], id); }
    forall i | i in t.live && !t.live[i].sent
      ensures i in Entries(t.pending, t.live[i].bridge)
    {
      CancelledEntries(s.pending, w.bridge, id, s.live[i].bridge, i);
    }
    forall b, i | b in t.pending && i in t.pending[b]
      ensures i in t.live && t.live[i].bridge == b && !t.live[i].sent
    {
      CancelledEntries(s.pending, w.bridge, id, b, i);
      assert i in Entries(t.pending, b);
    }
  }

  lemma DropKeeps(s: State, id: nat)
    requires Inv(s) && id in s.live
    ensures Inv(Step(s, DropWaiter(id)))
  {
    DropKeepsTable(s, id);
    assert WaiterOk(s.live[id], s.replies);
    hide TableOk, Cancelled, FirstReply;
  }

  lemma StepKeeps(s: State, op: Op)
    requires Inv(s)
    ensures Inv(Step(s, op))
  {
    match op
    case Draw(_) =>
    case Enter(id) => if id in s.reserved { EnterKeeps(s, id); }
    case Resolve(bridge, reply) => ResolveKeeps(s, bridge, reply);
    case Wait(id, expired) => if id in s.live { WaitKeeps(s, id, expired); }
    case DropWaiter(id) => if id in s.live { DropKeeps(s, id); }
  }

  lemma {:induction false} RunKeeps(ops: seq<Op>)
    ensures var s := Run(ops); TableOk(s) && IdsOk(s) && WaitersOk(s)
  {
    if ops != [] {
      RunKeeps(ops[..|ops| - 1]);
      StepKeeps(Run(ops[..|ops| - 1]), ops[|ops| - 1]);
    }
  }

  // ---------------------------------------------------------------- what it means

  /** What the waiter with this id has got so far, dropped or not. */
  function OutcomeOf(s: State, id: nat): Option<Outcome> {
    if id in s.live then s.live[id].outcome else if id in s.done then s.done[id].outcome else None
  }

  /** The bridges asked for, in the order of the ids drawn; the first id is 1. */
  function Asked(ops: seq<Op>): seq<Bridge> {
    if ops == [] then []
    else
      var before, op := Asked(ops[..|ops| - 1]), ops[|ops| - 1];
      if op.Draw? then before + [op.bridge] else before
  }

  /** The replies resolved, in order. */
  function Resolved(ops: seq<Op>): seq<(Bridge, Reply)> {
    if ops == [] then []
    else
      var before, op := Resolved(ops[..|ops| - 1]), ops[|ops| - 1];
      if op.Resolve? then before + [(op.bridge, op.reply)] else before
  }

  ghost predicate ForBridge(asked: seq<Bridge>, id: nat, bridge: Bridge) {
    1 <= id <= |asked| && asked[id - 1] == bridge
  }

  ghost predicate Tells(s: State, asked: seq<Bridge>, resolved: seq<(Bridge, Reply)>) {
    && s.nextId == |asked| + 1 && s.replies == resolved
    && (forall id :: id in s.reserved ==> ForBridge(asked, id, s.reserved[id]))
    && (forall id :: id in s.live ==> ForBridge(asked, id, s.live[id].bridge))
    && (forall id :: id in s.done ==> ForBridge(asked, id, s.done[id].bridge))
  }

  lemma StepTells(s: State, op: Op, asked: seq<Bridge>, resolved: seq<(Bridge, Reply)>)
    requires Tells(s, asked, resolved)
    ensures Tells(Step(s, op), if op.Draw? then asked + [op.bridge] else asked,
                  if op.Resolve? then resolved + [(op.bridge, op.reply)] else resolved)
  {
    hide Entries, Cancelled;
    if op.Draw? { assert forall id, b :: ForBridge(asked, id, b) ==> ForBridge(asked + [op.bridge], id, b); }
  }

  /** Every id stands for the bridge it was drawn for, and the replies are those resolved. */
  lemma {:induction false} RunTells(ops: seq<Op>)
    ensures Tells(Run(ops), Asked(ops), Resolved(ops))
  {
    if ops != [] {
      var init, last := ops[..|ops| - 1], ops[|ops| - 1];
      RunTells(init);
      hide Step, Tells;
      StepTells(Run(init), last, Asked(init), Resolved(init));
    }
  }

  lemma RunSnoc(ops: seq<Op>, op: Op)
    ensures Run(ops + [op]) == Step(Run(ops), op)
  {
    assert (ops + [op])[..|ops|] == ops;
  }

  /**
   Registering: an id drawn and not yet entered becomes a live waiter of the bridge it was drawn for, without an
   outcome, and from then on waits for the replies resolved after this moment.
  */
  lemma Registers(ops: seq<Op>, id: nat)
    requires id in Run(ops).reserved
    ensures var t := Run(ops + [Enter(id)]);
            && id in t.live && OutcomeOf(t, id).None? && ForBridge(Asked(ops), id, t.live[id].bridge)
            && t.live[id].since == |Resolved(ops)| && id in Entries(t.pending, t.live[id].bridge)
  {
    RunTells(ops);
    RunSnoc(ops, Enter(id));
  }

  /**
   A reply resolved after `register` is never lost: as long as a live waiter has no outcome, its next poll gives it the
   first reply resolved for its bridge since it registered, even if the deadline has passed; without one it times out
   when the deadline has passed, and otherwise goes on waiting.
  */
  lemma NeverLost(ops: seq<Op>, id: nat, expired: bool)
    requires id in Run(ops).live && OutcomeOf(Run(ops), id).None?
    ensures var w := Run(ops).live[id];
            var first := FirstReply(Resolved(ops), w.since, w.bridge);
            OutcomeOf(Run(ops + [Wait(id, expired)]), id) ==
              if first.Some? then Some(Got(first.value)) else if expired then Some(TimedOut) else None
  {
    RunKeeps(ops);
    RunTells(ops);
    RunSnoc(ops, Wait(id, expired));
    assert WaiterOk(Run(ops).live[id], Run(ops).replies);
  }

  /** Every finished wait got the first reply for its own bridge since it registered, or timed out; never `Dropped`. */
  lemma OwnReplyOnly(ops: seq<Op>, id: nat)
    requires id in Run(ops).done && Run(ops).done[id].outcome.Some?
    ensures var w := Run(ops).done[id];
            w.outcome == Some(TimedOut) || exists k :: IsReplyTo(Run(ops).replies, w, k)
  {
    RunKeeps(ops);
    var s, w := Run(ops), Run(ops).done[id];
    assert DoneOk(w, s.replies);
    if w.outcome != Some(TimedOut) {
      var k := FirstReplyIsReply(s.replies, w.since, w.bridge);
      assert IsReplyTo(s.replies, w, k);
    }
  }

  ghost predicate IsReplyTo(replies: seq<(Bridge, Reply)>, w: Waiter, k: nat) {
    w.since <= k < |replies| && replies[k].0 == w.bridge && w.outcome == Some(Got(replies[k].1))
  }

  lemma {:induction false} FirstReplyIsReply(replies: seq<(Bridge, Reply)>, since: nat, bridge: Bridge) returns (k: nat)
    requires FirstReply(replies, since, bridge).Some?
    ensures since <= k < |replies| && replies[k].0 == bridge && FirstReply(replies, since, bridge) == Some(replies[k].1)
    decreases |replies| - since
  {
    if replies[since].0 == bridge { k := since; } else { k := FirstReplyIsReply(replies, since + 1, bridge); }
  }

  /** Its wait is over: it has an outcome, or its handle is gone. */
  predicate Settled(s: State, id: nat) { id in s.done || OutcomeOf(s, id).Some? }

  lemma StaysSettled(s: State, op: Op, id: nat)
    requires Inv(s) && Settled(s, id)
    ensures Settled(Step(s, op), id) && OutcomeOf(Step(s, op), id) == OutcomeOf(s, id)
  {
    hide TableOk, FirstReply;
    if id in s.live { assert WaiterOk(s.live[id], s.replies); }
  }

  /** A wait ends once: whatever happens afterwards, an outcome stays, and a dropped handle never gets a new one. */
  lemma {:induction false} OutcomeFinal(ops: seq<Op>, more: seq<Op>, id: nat)
    requires Settled(Run(ops), id)
    ensures Settled(Run(ops + more), id) && OutcomeOf(Run(ops + more), id) == OutcomeOf(Run(ops), id)
    decreases |more|
  {
    hide Settled, OutcomeOf, Step;
    if more == [] {
      assert ops + more == ops;
    } else {
      var init, last := more[..|more| - 1], more[|more| - 1];
      assert (ops + more)[..|ops + more| - 1] == ops + init;
      OutcomeFinal(ops, init, id);
      RunKeeps(ops + init);
      StaysSettled(Run(ops + init), last, id);
    }
  }

  /** A waiter of another bridge is not touched by a resolve. */
  lemma OtherBridgesUntouched(ops: seq<Op>, bridge: Bridge, reply: Reply, id: nat)
    requires id in Run(ops).live && Run(ops).live[id].bridge != bridge
    ensures Step(Run(ops), Resolve(bridge, reply)).live[id] == Run(ops).live[id]
  {
    RunKeeps(ops);
  }

  /** A live waiter is missing from the table exactly when its bridge was resolved after it was entered. */
  lemma AbsentIffResolved(ops: seq<Op>, id: nat)
    requires id in Run(ops).live
    ensures var s := Run(ops);
            id !in Entries(s.pending, s.live[id].bridge) <==>
            FirstReply(s.replies, s.live[id].since, s.live[id].bridge).Some?
  {
    RunKeeps(ops);
    assert WaiterOk(Run(ops).live[id], Run(ops).replies);
  }

  lemma EntryIsLive(s: State, b: Bridge) returns (id: nat)
    requires Inv(s) && b in s.pending
    ensures id in s.live && s.live[id].bridge == b
  {
    id := s.pending[b][0];
  }

  /** Once every handle is dropped the table is empty: no dead sender, no empty list. */
  lemma NoLeak(ops: seq<Op>)
    requires Run(ops).live == map[]
    ensures Run(ops).pending == map[]
  {
    RunKeeps(ops);
    var s := Run(ops);
    if b :| b in s.pending {
      var _ := EntryIsLive(s, b);
    }
  }

  // ---------------------------------------------------------------- the registry

  class StcpRespRegistry {
    var pending: map<Bridge, seq<nat>>
    var nextId: nat
    var live: map<nat, Waiter>
    ghost var reserved: map<nat, Bridge>
    ghost var done: map<nat, Waiter>
    var replies: seq<(Bridge, Reply)>

    ghost function Now(): State
      reads this
    {
      State(pending, nextId, reserved, live, done, replies)
    }

    constructor ()
      ensures Now() == INITIAL
    {
      pending, nextId, live, reserved, done, replies := map[], 1, map[], map[], map[], [];
    }

    /** `register`, before the lock. */
    method DrawId(bridgeId: Bridge) returns (id: nat)
      modifies this
      ensures Now() == Step(old(Now()), Draw(bridgeId)) && id == old(nextId)
    {
      id := nextId;
      nextId, reserved := nextId + 1, reserved[id := bridgeId];
    }

    /** `register`, under the lock: `entry(bridge_id).or_default().push((id, tx))`. */
    method EnterWaiter(bridgeId: Bridge, id: nat)
      requires id in reserved && reserved[id] == bridgeId
      modifies this
      ensures Now() == Step(old(Now()), Enter(id))
    {
      if bridgeId !in pending { pending := pending[bridgeId := []]; }
      pending := pending[bridgeId := pending[bridgeId] + [id]];
      live := live[id := Waiter(bridgeId, |replies|, false, None, true, None)];
      reserved := reserved - {id};
    }

    /** The sending loop of `resolve`. */
    method WakeAll(waiters: seq<nat>, result: Reply)
      requires NoDups(waiters) && forall id :: id in waiters ==> id in live
      modifies this`live
      ensures live == map id | id in old(live) :: if id in waiters then Send(old(live)[id], result) else old(live)[id]
    {
      ghost var before := live;
      for k := 0 to |waiters|
        invariant live.Keys == before.Keys
        invariant forall i :: i in live ==> live[i] == if i in waiters[..k] then Send(before[i], result) else before[i]
      {
        var id := waiters[k];
        assert id !in waiters[..k] && waiters[..k + 1] == waiters[..k] + [id];
        live := live[id := Send(live[id], result)];
      }
      assert waiters[..|waiters|] == waiters;
    }

    /** `resolve`. */
    method ResolveBridge(bridgeId: Bridge, result: Reply)
      requires Inv(Now())
      modifies this
      ensures Now() == Step(old(Now()), Resolve(bridgeId, result))
    {
      if bridgeId in pending {
        var waiters := pending[bridgeId];
        pending := pending - {bridgeId};
        WakeAll(waiters, result);
      } else {
        assert live == map id | id in live :: live[id];
      }
      replies := replies + [(bridgeId, result)];
    }

    /** `cancel`. */
    method Cancel(bridgeId: Bridge, id: nat)
      modifies this`pending
      ensures pending == Cancelled(old(pending), bridgeId, id)
    {
      var nowEmpty := false;
      if bridgeId in pending {
        var waiters := pending[bridgeId];
        var kept: seq<nat> := [];
        for k := 0 to |waiters|
          invariant kept == Without(waiters[..k], id)
        {
          assert waiters[..k + 1][..k] == waiters[..k];
          if waiters[k] != id { kept := kept + [waiters[k]]; }
        }
        assert waiters[..|waiters|] == waiters;
        pending := pending[bridgeId := kept];
        nowEmpty := kept == [];
      }
      if nowEmpty { pending := pending - {bridgeId}; }
    }

    /** One poll of `StcpWaiter::wait_timeout`. */
    method PollWait(id: nat, expired: bool) returns (r: Option<Outcome>)
      requires Inv(Now()) && id in live && live[id].rxOpen
      modifies this
      ensures Now() == Step(old(Now()), Wait(id, expired)) && r == live[id].outcome
      ensures r != Some(Dropped)
    {
      var w := live[id];
      assert WaiterOk(w, replies);
      if w.slot.Some? { w := w.(rxOpen := false, outcome := Some(Got(w.slot.value))); }
      else if w.sent { w := w.(rxOpen := false, outcome := Some(Dropped)); }
      else if expired { w := w.(rxOpen := false, outcome := Some(TimedOut)); }
      live := live[id := w];
      return w.outcome;
    }

    /** `StcpWaiter::drop`. */
    method DropHandle(id: nat)
      requires id in live
      modifies this
      ensures Now() == Step(old(Now()), DropWaiter(id))
    {
      var w := live[id];
      Cancel(w.bridge, id);
      done := done[id := w.(rxOpen := false)];
      live := live - {id};
    }
  }
}
