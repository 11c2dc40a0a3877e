/**
 The TCP connection pool, shared by many tasks. Idle connections are reused from the back of a vector behind a lock;
 expired and unhealthy ones are closed; `PoolStats`, behind a lock of its own, counts what happened. A task can be
 interrupted at every `await`: while it waits for the vector lock, while it dials, and before each update of the
 statistics, some of which come after the vector lock was given back. One step here is what runs between two awaits.
 Health checks, dialling and the clock (read once per connection examined) are inputs.
*/
module Pool {
  import opened Bytes

  datatype Config = Config(maxSize: nat, maxIdleTime: nat, maxLifetime: nat, healthCheck: bool)

  datatype PooledConn = PooledConn(id: nat, createdAt: int, lastUsedAt: int, useCount: nat)

  datatype Stats = Stats(totalCreated: nat, totalReused: nat, totalClosed: nat, currentIdle: nat, currentInUse: int)

  /** `Instant::duration_since` saturates at zero. */
  function Since(now: int, t: int): nat { if now > t then now - t else 0 }

  predicate Expired(c: Config, now: int, conn: PooledConn) {
    Since(now, conn.lastUsedAt) > c.maxIdleTime || Since(now, conn.createdAt) > c.maxLifetime
  }

  predicate Usable(c: Config, now: int, healthy: bool, conn: PooledConn) {
    !Expired(c, now, conn) && (c.healthCheck ==> healthy)
  }

  /** What `get` saw when it examined a connection. */
  datatype Verdict = Verdict(conn: PooledConn, now: int, healthy: bool)

  /** Where a task is suspended. `had` is the vector when `get` locked it, `log` the connections it has refused. */
  datatype Task =
    | GetWait
    | GetPop(had: seq<PooledConn>, log: seq<Verdict>)
    | GetClose(had: seq<PooledConn>, log: seq<Verdict>)
    | GetReuse(had: seq<PooledConn>, log: seq<Verdict>, found: Verdict, conn: PooledConn)
    | Dialling(had: seq<PooledConn>, log: seq<Verdict>)
    | Dialled(id: nat)
    | PutWait(conn: PooledConn)
    | PutBad
    | PutFull
    | PutPushed
    | CleanWait
    | CleanPublish(expired: nat, after: nat, markEntered: nat, markLeft: nat)
    | CloseWait
    | ClosePublish(count: nat)
    | Got(conn: PooledConn)
    | Over

  /** Who has a socket: a caller of `get`, a suspended task, or nobody (it is in the vector or closed). */
  datatype Owner = Handle | Held(task: nat) | NoOne

  /**
   `owner` has one entry per socket ever dialled. `entered` and `left` count the connections put into and taken out of
   the vector, `seenEntered` and `seenLeft` are their values when the published `currentIdle` was measured. `lost` are
   closed connections that `totalClosed` will never count, `leaked` handles that `currentInUse` will never give back,
   `unreported` dialled sockets that `totalCreated` will never count.
  */
  datatype State = State(
    idle: seq<PooledConn>, stats: Stats, permits: nat, lock: Option<nat>, tasks: seq<Task>, owner: seq<Owner>,
    entered: nat, left: nat, seenEntered: nat, seenLeft: nat, lost: int, leaked: nat, unreported: nat)

  function Initial(c: Config): State {
    State([], Stats(0, 0, 0, 0, 0), c.maxSize, None, [], [], 0, 0, 0, 0, 0, 0, 0)
  }

  /**
   `Lock` is the stretch that begins with the vector lock granted to task `i`; cleanup reads the clock once per
   connection to count (`count`) and again to retain (`keep`). `Publish` is an update of the statistics; `now` is the
   creation time of a new connection. `Abandon` drops the future of a task, `DropHandle` a connection in use.
  */
  datatype Op =
    | StartGet
    | StartPut(conn: PooledConn, healthy: bool)
    | StartCleanup
    | StartClose
    | Lock(i: nat, count: seq<int>, keep: seq<int>)
    | Pop(i: nat, now: int, healthy: bool, usedAt: int)
    | Dial(i: nat, connects: bool)
    | Publish(i: nat, now: int)
    | Abandon(i: nat)
    | DropHandle(id: nat)

  // ---------------------------------------------------------------- what a suspended task owes

  /** Connections already closed (or pushed, with a minus) whose count is still to come. */
  function InFlight(t: Task): int {
    match t
    case GetClose(_, _) => 1
    case GetReuse(_, _, _, _) => 1
    case PutPushed => -1
    case CleanPublish(expired, _, _, _) => expired
    case ClosePublish(count) => count
    case _ => 0
  }

  /** Connections being given back, still counted as in use. */
  function Returning(t: Task): int { if t.PutWait? || t.PutBad? || t.PutFull? || t.PutPushed? then 1 else 0 }

  function JustDialled(t: Task): int { if t.Dialled? then 1 else 0 }

  function HoldsPermit(t: Task): int {
    if t.GetWait? || t.GetPop? || t.GetClose? || t.GetReuse? || t.Dialling? || t.Dialled? then 1 else 0
  }

  predicate InLock(t: Task) {
    t.GetPop? || t.GetClose? || t.GetReuse? || t.PutFull? || t.PutPushed? || t.ClosePublish?
  }

  /** Changed the vector and has not published its new length. */
  predicate Owes(t: Task) {
    (t.GetPop? && t.log != []) || t.GetClose? || t.GetReuse? || t.PutPushed? || t.CleanPublish? || t.ClosePublish?
  }

  function Holding(t: Task): Option<nat> {
    match t
    case GetReuse(_, _, _, conn) => Some(conn.id)
    case Dialled(id) => Some(id)
    case PutWait(conn) => Some(conn.id)
    case _ => None
  }

  // ---------------------------------------------------------------- cleanup

  /** The clock does not go back between counting and retaining. */
  predicate Readings(count: seq<int>, keep: seq<int>, n: nat) {
    |count| == n && |keep| == n && forall k :: 0 <= k < n ==> count[k] <= keep[k]
  }

  /** `filter(is_expired).count()`, one clock reading per connection. */
  function CountExpired(c: Config, times: seq<int>, idle: seq<PooledConn>): (n: nat)
    requires |times| == |idle|
    ensures n <= |idle|
  {
    if idle == [] then 0
    else
      var last := |idle| - 1;
      CountExpired(c, times[..last], idle[..last]) + (if Expired(c, times[last], idle[last]) then 1 else 0)
  }

  /** `retain(!is_expired)`, one clock reading per connection. */
  function Kept(c: Config, times: seq<int>, idle: seq<PooledConn>): (r: seq<PooledConn>)
    requires |times| == |idle|
    ensures |r| <= |idle|
    ensures forall x :: x in r ==> x in idle
  {
    if idle == [] then []
    else
      var last := |idle| - 1;
      assert idle == idle[..last] + [idle[last]];
      Kept(c, times[..last], idle[..last]) + (if Expired(c, times[last], idle[last]) then [] else [idle[last]])
  }

  /** No idle connection expires between being counted and being examined by `retain`. */
  predicate Agree(c: Config, count: seq<int>, keep: seq<int>, idle: seq<PooledConn>)
    requires Readings(count, keep, |idle|)
  {
    forall k :: 0 <= k < |idle| ==> Expired(c, count[k], idle[k]) == Expired(c, keep[k], idle[k])
  }

  /** What cleanup counts is never more than what it removes, and the same exactly when the two readings agree. */
  lemma {:induction false} CountedIsRemoved(c: Config, count: seq<int>, keep: seq<int>, idle: seq<PooledConn>)
    requires Readings(count, keep, |idle|)
    ensures CountExpired(c, count, idle) <= |idle| - |Kept(c, keep, idle)|
    ensures CountExpired(c, count, idle) == |idle| - |Kept(c, keep, idle)| <==> Agree(c, count, keep, idle)
  {
    if idle != [] {
      var last := |idle| - 1;
      CountedIsRemoved(c, count[..last], keep[..last], idle[..last]);
      assert Agree(c, count, keep, idle) <==>
        Agree(c, count[..last], keep[..last], idle[..last])
        && Expired(c, count[last], idle[last]) == Expired(c, keep[last], idle[last]);
    }
  }

  lemma Front<T>(xs: seq<T>, k: nat)
    requires k < |xs|
    ensures xs[..k + 1][..k] == xs[..k] && xs[..k + 1][k] == xs[k]
  {
  }

  lemma Whole<T>(xs: seq<T>)
    ensures xs[..|xs|] == xs
  {
  }

  method Count(c: Config, times: seq<int>, idle: seq<PooledConn>) returns (n: nat)
    requires |times| == |idle|
    ensures n == CountExpired(c, times, idle)
  {
    n := 0;
    for k := 0 to |idle|
      invariant n == CountExpired(c, times[..k], idle[..k])
    {
      Front(idle, k);
      Front(times, k);
      if Expired(c, times[k], idle[k]) { n := n + 1; }
    }
    Whole(idle);
    Whole(times);
  }

  method Retain(c: Config, times: seq<int>, idle: seq<PooledConn>) returns (kept: seq<PooledConn>)
    requires |times| == |idle|
    ensures kept == Kept(c, times, idle)
  {
    kept := [];
    for k := 0 to |idle|
      invariant kept == Kept(c, times[..k], idle[..k])
    {
      Front(idle, k);
      Front(times, k);
      if !Expired(c, times[k], idle[k]) { kept := kept + [idle[k]]; }
    }
    Whole(idle);
    Whole(times);
  }

  // ---------------------------------------------------------------- the steps

  function Locked(c: Config, s: State, i: nat, count: seq<int>, keep: seq<int>): State
    requires i < |s.tasks|
  {
    match s.tasks[i]
    case GetWait => s.(lock := Some(i), tasks := s.tasks[i := GetPop(s.idle, [])])
    case PutWait(conn) =>
      if conn.id >= |s.owner| then s
      else if |s.idle| >= c.maxSize then
        s.(lock := Some(i), tasks := s.tasks[i := PutFull], owner := s.owner[conn.id := NoOne])
      else
        s.(lock := Some(i), tasks := s.tasks[i := PutPushed], owner := s.owner[conn.id := NoOne],
           idle := s.idle + [conn], entered := s.entered + 1)
    case CleanWait =>
      if !Readings(count, keep, |s.idle|) then s
      else
        var expired, kept := CountExpired(c, count, s.idle), Kept(c, keep, s.idle);
        var gone := |s.idle| - |kept|;
        if gone == 0 then s.(tasks := s.tasks[i := Over])
        else
          s.(idle := kept, left := s.left + gone, lost := s.lost + (gone - expired),
             tasks := s.tasks[i := CleanPublish(expired, |kept|, s.entered, s.left + gone)])
    case CloseWait =>
      s.(lock := Some(i), idle := [], left := s.left + |s.idle|, tasks := s.tasks[i := ClosePublish(|s.idle|)])
    case _ => s
  }

  function Popped(c: Config, s: State, i: nat, now: int, healthy: bool, usedAt: int): State
    requires i < |s.tasks| && s.tasks[i].GetPop?
  {
    var had, log := s.tasks[i].had, s.tasks[i].log;
    if s.idle == [] then s.(lock := None, tasks := s.tasks[i := Dialling(had, log)])
    else
      var conn, rest := s.idle[|s.idle| - 1], s.idle[..|s.idle| - 1];
      var v := Verdict(conn, now, healthy);
      if !Usable(c, now, healthy, conn) then
        s.(idle := rest, left := s.left + 1, tasks := s.tasks[i := GetClose(had, log + [v])])
      else if conn.id >= |s.owner| then s
      else
        s.(idle := rest, left := s.left + 1, owner := s.owner[conn.id := Held(i)],
           tasks := s.tasks[i := GetReuse(had, log, v, conn.(lastUsedAt := usedAt, useCount := conn.useCount + 1))])
  }

  function Published(s: State, i: nat, now: int): State
    requires i < |s.tasks|
  {
    var st := s.stats;
    match s.tasks[i]
    case GetClose(had, log) =>
      s.(stats := st.(totalClosed := st.totalClosed + 1), tasks := s.tasks[i := GetPop(had, log)])
    case GetReuse(_, _, _, conn) =>
      if conn.id >= |s.owner| then s
      else
        s.(stats := st.(totalReused := st.totalReused + 1, currentInUse := st.currentInUse + 1,
                        currentIdle := |s.idle|),
           seenEntered := s.entered, seenLeft := s.left, lock := None, permits := s.permits + 1,
           owner := s.owner[conn.id := Handle], tasks := s.tasks[i := Got(conn)])
    case Dialled(id) =>
      if id >= |s.owner| then s
      else
        s.(stats := st.(totalCreated := st.totalCreated + 1, currentInUse := st.currentInUse + 1),
           permits := s.permits + 1, owner := s.owner[id := Handle],
           tasks := s.tasks[i := Got(PooledConn(id, now, now, 0))])
    case PutBad =>
      s.(stats := st.(totalClosed := st.totalClosed + 1, currentInUse := st.currentInUse - 1),
         tasks := s.tasks[i := Over])
    case PutFull =>
      s.(stats := st.(totalClosed := st.totalClosed + 1, currentInUse := st.currentInUse - 1),
         lock := None, tasks := s.tasks[i := Over])
    case PutPushed =>
      s.(stats := st.(currentInUse := st.currentInUse - 1, currentIdle := |s.idle|),
         seenEntered := s.entered, seenLeft := s.left, lock := None, tasks := s.tasks[i := Over])
    case CleanPublish(expired, after, markEntered, markLeft) =>
      s.(stats := st.(totalClosed := st.totalClosed + expired, currentIdle := after),
         seenEntered := markEntered, seenLeft := markLeft, tasks := s.tasks[i := Over])
    case ClosePublish(count) =>
      s.(stats := st.(totalClosed := st.totalClosed + count, currentIdle := 0),
         seenEntered := s.entered, seenLeft := s.left, lock := None, tasks := s.tasks[i := Over])
    case _ => s
  }

  /**
   Dropping a suspended task closes what it holds and releases its lock and permit; what it owes is never published.
  */
  function Abandoned(s: State, i: nat): State
    requires i < |s.tasks|
  {
    var t := s.tasks[i];
    s.(lost := s.lost + InFlight(t), leaked := s.leaked + Returning(t), unreported := s.unreported + JustDialled(t),
       permits := s.permits + HoldsPermit(t), lock := if InLock(t) then None else s.lock,
       owner := if Holding(t).Some? && Holding(t).value < |s.owner| then s.owner[Holding(t).value := NoOne]
                else s.owner,
       tasks := s.tasks[i := Over])
  }

  function Step(c: Config, s: State, op: Op): State {
    match op
    case StartGet => if s.permits == 0 then s else s.(permits := s.permits - 1, tasks := s.tasks + [GetWait])
    case StartPut(conn, healthy) =>
      if conn.id >= |s.owner| || !s.owner[conn.id].Handle? then s
      else if c.healthCheck && !healthy then s.(tasks := s.tasks + [PutBad], owner := s.owner[conn.id := NoOne])
      else s.(tasks := s.tasks + [PutWait(conn)], owner := s.owner[conn.id := Held(|s.tasks|)])
    case StartCleanup => s.(tasks := s.tasks + [CleanWait])
    case StartClose => s.(tasks := s.tasks + [CloseWait])
    case Lock(i, count, keep) => if i < |s.tasks| && s.lock.None? then Locked(c, s, i, count, keep) else s
    case Pop(i, now, healthy, usedAt) =>
      if i < |s.tasks| && s.tasks[i].GetPop? then Popped(c, s, i, now, healthy, usedAt) else s
    case Dial(i, connects) =>
      if i >= |s.tasks| || !s.tasks[i].Dialling? then s
      else if connects then s.(owner := s.owner + [Held(i)], tasks := s.tasks[i := Dialled(|s.owner|)])
      else s.(permits := s.permits + 1, tasks := s.tasks[i := Over])
    case Publish(i, now) => if i < |s.tasks| then Published(s, i, now) else s
    case Abandon(i) => if i < |s.tasks| then Abandoned(s, i) else s
    case DropHandle(id) =>
      if id >= |s.owner| || !s.owner[id].Handle? then s
      else s.(owner := s.owner[id := NoOne], leaked := s.leaked + 1)
  }

  function Run(c: Config, ops: seq<Op>): State {
    if ops == [] then Initial(c) else Step(c, Run(c, ops[..|ops| - 1]), ops[|ops| - 1])
  }

  // ---------------------------------------------------------------- sums over tasks and sockets

  function SumOf<T>(w: T -> int, xs: seq<T>): int {
    if xs == [] then 0 else SumOf(w, xs[..|xs| - 1]) + w(xs[|xs| - 1])
  }

  lemma SumSnoc<T>(w: T -> int, xs: seq<T>, x: T)
    ensures SumOf(w, xs + [x]) == SumOf(w, xs) + w(x)
  {
    assert (xs + [x])[..|xs|] == xs;
  }

  lemma {:induction false} SumUpdate<T>(w: T -> int, xs: seq<T>, i: nat, x: T)
    requires i < |xs|
    ensures SumOf(w, xs[i := x]) == SumOf(w, xs) - w(xs[i]) + w(x)
  {
    var last := |xs| - 1;
    if i == last {
      assert xs[i := x][..last] == xs[..last];
    } else {
      assert xs[i := x][..last] == xs[..last][i := x];
      SumUpdate(w, xs[..last], i, x);
    }
  }

  lemma {:induction false} SumAtLeast<T>(w: T -> int, xs: seq<T>, i: nat)
    requires i < |xs| && forall x :: x in xs ==> w(x) >= 0
    ensures SumOf(w, xs) >= w(xs[i])
  {
    var last := |xs| - 1;
    if i == last {
      SumNatural(w, xs[..last]);
    } else {
      SumAtLeast(w, xs[..last], i);
    }
  }

  lemma {:induction false} SumNatural<T>(w: T -> int, xs: seq<T>)
    requires forall x :: x in xs ==> w(x) >= 0
    ensures SumOf(w, xs) >= 0
  {
    if xs != [] { SumNatural(w, xs[..|xs| - 1]); }
  }

  lemma {:induction false} SumZero<T>(w: T -> int, xs: seq<T>)
    requires forall x :: x in xs ==> w(x) == 0
    ensures SumOf(w, xs) == 0
  {
    if xs != [] { SumZero(w, xs[..|xs| - 1]); }
  }

  function Handles(o: Owner): int { if o.Handle? then 1 else 0 }

  function Pending(s: State): int { SumOf(InFlight, s.tasks) }

  function InHand(s: State): int { SumOf(Handles, s.owner) }

  function GivingBack(s: State): int { SumOf(Returning, s.tasks) }

  function Unannounced(s: State): int { SumOf(JustDialled, s.tasks) }

  function PermitsOut(s: State): int { SumOf(HoldsPermit, s.tasks) }

  // ---------------------------------------------------------------- the invariant

  /** Conservation, on the real vector, with what is in flight. */
  ghost predicate Counts(c: Config, s: State) {
    && s.stats.totalCreated == s.stats.totalClosed + s.stats.currentInUse + |s.idle| + Pending(s) + s.lost
    && s.stats.totalCreated + Unannounced(s) + s.unreported == |s.owner|
    && s.stats.currentInUse == InHand(s) + GivingBack(s) + s.leaked
    && s.permits + PermitsOut(s) == c.maxSize
    && |s.idle| <= c.maxSize
    && s.entered - s.left == |s.idle|
    && s.seenEntered - s.seenLeft == s.stats.currentIdle
  }

  ghost predicate DistinctIds(idle: seq<PooledConn>) {
    forall j, k :: 0 <= j < k < |idle| ==> idle[j].id != idle[k].id
  }

  /** No connection is in two places. */
  ghost predicate Owned(s: State) {
    && DistinctIds(s.idle)
    && (forall k :: 0 <= k < |s.idle| ==> s.idle[k].id < |s.owner| && s.owner[s.idle[k].id].NoOne?)
    && (forall i :: 0 <= i < |s.tasks| && Holding(s.tasks[i]).Some? ==>
          Holding(s.tasks[i]).value < |s.owner| && s.owner[Holding(s.tasks[i]).value] == Held(i))
  }

  /** `log` are the last connections of `had`, from the back, each refused for cause. */
  ghost predicate Refused(c: Config, had: seq<PooledConn>, log: seq<Verdict>) {
    && |log| <= |had|
    && forall j :: 0 <= j < |log| ==>
         log[j].conn == had[|had| - 1 - j] && !Usable(c, log[j].now, log[j].healthy, log[j].conn)
  }

  ghost predicate TaskOk(c: Config, idle: seq<PooledConn>, t: Task) {
    match t
    case GetPop(had, log) => Refused(c, had, log) && idle == had[..|had| - |log|]
    case GetClose(had, log) => log != [] && Refused(c, had, log) && idle == had[..|had| - |log|]
    case GetReuse(had, log, found, conn) =>
      && Refused(c, had, log) && |log| < |had| && idle == had[..|had| - 1 - |log|]
      && found.conn == had[|had| - 1 - |log|] && Usable(c, found.now, found.healthy, found.conn)
      && conn == found.conn.(lastUsedAt := conn.lastUsedAt, useCount := found.conn.useCount + 1)
    case Dialling(had, log) => Refused(c, had, log) && |log| == |had|
    case CleanPublish(_, after, markEntered, markLeft) => markEntered - markLeft == after
    case ClosePublish(_) => idle == []
    case _ => true
  }

  ghost predicate Locks(c: Config, s: State) {
    && (forall i :: 0 <= i < |s.tasks| ==> (InLock(s.tasks[i]) <==> s.lock == Some(i)))
    && (s.lock.Some? ==> s.lock.value < |s.tasks|)
    && (forall i :: 0 <= i < |s.tasks| ==> TaskOk(c, s.idle, s.tasks[i]))
  }

  ghost predicate Inv(c: Config, s: State) { Counts(c, s) && Owned(s) && Locks(c, s) }

  // ---------------------------------------------------------------- the counts

  lemma TaskSums(s: State, i: nat, t: Task, u: State)
    requires i < |s.tasks| && u.tasks == s.tasks[i := t]
    ensures Pending(u) == Pending(s) - InFlight(s.tasks[i]) + InFlight(t)
    ensures GivingBack(u) == GivingBack(s) - Returning(s.tasks[i]) + Returning(t)
    ensures Unannounced(u) == Unannounced(s) - JustDialled(s.tasks[i]) + JustDialled(t)
    ensures PermitsOut(u) == PermitsOut(s) - HoldsPermit(s.tasks[i]) + HoldsPermit(t)
  {
    SumUpdate(InFlight, s.tasks, i, t);
    SumUpdate(Returning, s.tasks, i, t);
    SumUpdate(JustDialled, s.tasks, i, t);
    SumUpdate(HoldsPermit, s.tasks, i, t);
  }

  lemma NewTaskSums(s: State, t: Task, u: State)
    requires u.tasks == s.tasks + [t]
    ensures Pending(u) == Pending(s) + InFlight(t) && GivingBack(u) == GivingBack(s) + Returning(t)
    ensures Unannounced(u) == Unannounced(s) + JustDialled(t) && PermitsOut(u) == PermitsOut(s) + HoldsPermit(t)
  {
    SumSnoc(InFlight, s.tasks, t);
    SumSnoc(Returning, s.tasks, t);
    SumSnoc(JustDialled, s.tasks, t);
    SumSnoc(HoldsPermit, s.tasks, t);
  }

  lemma OwnerSums(s: State, id: nat, o: Owner, u: State)
    requires id < |s.owner| && u.owner == s.owner[id := o]
    ensures InHand(u) == InHand(s) - Handles(s.owner[id]) + Handles(o)
  {
    SumUpdate(Handles, s.owner, id, o);
  }

  lemma StartCounts(c: Config, s: State, op: Op)
    requires Counts(c, s) && (op.StartGet? || op.StartPut? || op.StartCleanup? || op.StartClose? || op.DropHandle?)
    ensures Counts(c, Step(c, s, op))
  {
    hide SumOf;
    var u := Step(c, s, op);
    match op
    case StartGet => if u != s { NewTaskSums(s, GetWait, u); }
    case StartPut(conn, healthy) =>
      if u != s {
        NewTaskSums(s, if c.healthCheck && !healthy then PutBad else PutWait(conn), u);
        OwnerSums(s, conn.id, if c.healthCheck && !healthy then NoOne else Held(|s.tasks|), u);
      }
    case StartCleanup => NewTaskSums(s, CleanWait, u);
    case StartClose => NewTaskSums(s, CloseWait, u);
    case DropHandle(id) => if u != s { OwnerSums(s, id, NoOne, u); }
  }

  lemma LockCounts(c: Config, s: State, i: nat, count: seq<int>, keep: seq<int>)
    requires Counts(c, s) && Owned(s) && i < |s.tasks|
    ensures Counts(c, Locked(c, s, i, count, keep))
  {
    hide SumOf, CountExpired, Kept, DistinctIds;
    var u := Locked(c, s, i, count, keep);
    if u != s {
      TaskSums(s, i, u.tasks[i], u);
      if s.tasks[i].PutWait? { OwnerSums(s, s.tasks[i].conn.id, NoOne, u); }
      if s.tasks[i].CleanWait? { CountedIsRemoved(c, count, keep, s.idle); }
    }
  }

  lemma PopCounts(c: Config, s: State, i: nat, now: int, healthy: bool, usedAt: int)
    requires Counts(c, s) && Owned(s) && i < |s.tasks| && s.tasks[i].GetPop?
    ensures Counts(c, Popped(c, s, i, now, healthy, usedAt))
  {
    hide SumOf, Usable, DistinctIds;
    var u := Popped(c, s, i, now, healthy, usedAt);
    if u != s {
      TaskSums(s, i, u.tasks[i], u);
      if u.tasks[i].GetReuse? {
        var id := s.idle[|s.idle| - 1].id;
        OwnerSums(s, id, Held(i), u);
      }
    }
  }

  lemma DialCounts(c: Config, s: State, i: nat, connects: bool)
    requires Counts(c, s)
    ensures Counts(c, Step(c, s, Dial(i, connects)))
  {
    hide SumOf;
    var u := Step(c, s, Dial(i, connects));
    if u != s {
      TaskSums(s, i, u.tasks[i], u);
      if connects { SumSnoc(Handles, s.owner, Held(i)); }
    }
  }

  lemma WhatIsOwed(c: Config, s: State, i: nat)
    requires Locks(c, s) && i < |s.tasks|
    ensures s.tasks[i].CleanPublish? ==> s.tasks[i].markEntered - s.tasks[i].markLeft == s.tasks[i].after
    ensures s.tasks[i].ClosePublish? ==> s.idle == []
  {
    assert TaskOk(c, s.idle, s.tasks[i]);
  }

  lemma PublishCounts(c: Config, s: State, i: nat, now: int)
    requires Counts(c, s) && Owned(s) && Locks(c, s) && i < |s.tasks|
    ensures Counts(c, Published(s, i, now))
  {
    hide SumOf, DistinctIds, Locks;
    var u := Published(s, i, now);
    WhatIsOwed(c, s, i);
    if u != s {
      TaskSums(s, i, u.tasks[i], u);
      if Holding(s.tasks[i]).Some? { OwnerSums(s, Holding(s.tasks[i]).value, Handle, u); }
    }
  }

  lemma AbandonCounts(c: Config, s: State, i: nat)
    requires Counts(c, s) && Owned(s) && i < |s.tasks|
    ensures Counts(c, Abandoned(s, i))
  {
    hide SumOf, DistinctIds;
    var u := Abandoned(s, i);
    TaskSums(s, i, Over, u);
    if Holding(s.tasks[i]).Some? { OwnerSums(s, Holding(s.tasks[i]).value, NoOne, u); }
  }

  lemma StepCounts(c: Config, s: State, op: Op)
    requires Inv(c, s)
    ensures Counts(c, Step(c, s, op))
  {
    hide Counts, Owned, Locks, Locked, Popped, Published, Abandoned;
    match op
    case Lock(i, count, keep) => if i < |s.tasks| { LockCounts(c, s, i, count, keep); }
    case Pop(i, now, healthy, usedAt) =>
      if i < |s.tasks| && s.tasks[i].GetPop? { PopCounts(c, s, i, now, healthy, usedAt); }
    case Dial(i, connects) => DialCounts(c, s, i, connects);
    case Publish(i, now) => if i < |s.tasks| { PublishCounts(c, s, i, now); }
    case Abandon(i) => if i < |s.tasks| { AbandonCounts(c, s, i); }
    case _ => StartCounts(c, s, op);
  }

  // ---------------------------------------------------------------- owners and locks

  lemma {:induction false} KeptDistinct(c: Config, times: seq<int>, idle: seq<PooledConn>)
    requires DistinctIds(idle) && |times| == |idle|
    ensures DistinctIds(Kept(c, times, idle))
  {
    if idle != [] {
      var last := |idle| - 1;
      KeptDistinct(c, times[..last], idle[..last]);
      assert forall x :: x in idle[..last] ==> x.id != idle[last].id;
      if !Expired(c, times[last], idle[last]) { SnocDistinct(Kept(c, times[..last], idle[..last]), idle[last]); }
    }
  }

  lemma SnocDistinct(idle: seq<PooledConn>, last: PooledConn)
    requires DistinctIds(idle) && forall x :: x in idle ==> x.id != last.id
    ensures DistinctIds(idle + [last])
  {
    forall j, k | 0 <= j < k < |idle| + 1
      ensures (idle + [last])[j].id != (idle + [last])[k].id
    {
      assert idle[j] in idle;
    }
  }

  lemma LockOwned(c: Config, s: State, i: nat, count: seq<int>, keep: seq<int>)
    requires Owned(s) && i < |s.tasks|
    ensures Owned(Locked(c, s, i, count, keep))
  {
    var u := Locked(c, s, i, count, keep);
    match s.tasks[i]
    case PutWait(conn) =>
      assert forall x :: x in s.idle ==> x.id != conn.id;
      SnocDistinct(s.idle, conn);
    case CleanWait =>
      hide CountExpired, Kept;
      if Readings(count, keep, |s.idle|) {
        KeptDistinct(c, keep, s.idle);
        forall k | 0 <= k < |u.idle|
          ensures u.idle[k].id < |s.owner| && s.owner[u.idle[k].id].NoOne?
        {
          assert u.idle[k] in u.idle;
        }
      }
    case _ =>
  }

  lemma PopOwned(c: Config, s: State, i: nat, now: int, healthy: bool, usedAt: int)
    requires Owned(s) && i < |s.tasks| && s.tasks[i].GetPop?
    ensures Owned(Popped(c, s, i, now, healthy, usedAt))
  {
    hide Usable;
  }

  /** A task that holds nothing leaves the owners and the vector alone. */
  lemma ReleaseOwned(s: State, u: State, i: nat, t: Task)
    requires Owned(s) && i < |s.tasks| && Holding(t).None?
    requires u.owner == s.owner && u.idle == s.idle && u.tasks == s.tasks[i := t]
    ensures Owned(u)
  {
    hide DistinctIds;
  }

  /** What a task held goes to a caller. */
  lemma HandoverOwned(s: State, u: State, i: nat, id: nat, t: Task)
    requires Owned(s) && i < |s.tasks| && Holding(s.tasks[i]) == Some(id) && Holding(t).None?
    requires u.owner == s.owner[id := Handle] && u.idle == s.idle && u.tasks == s.tasks[i := t]
    ensures Owned(u)
  {
    hide DistinctIds;
  }

  lemma PublishOwned(c: Config, s: State, i: nat, now: int)
    requires Owned(s) && i < |s.tasks|
    ensures Owned(Published(s, i, now))
  {
    var u := Published(s, i, now);
    assert Holding(s.tasks[i]).Some? ==> Holding(s.tasks[i]).value < |s.owner|;
    hide Owned;
    var t := s.tasks[i];
    if t.GetReuse? {
      HandoverOwned(s, u, i, t.conn.id, u.tasks[i]);
    } else if t.Dialled? {
      HandoverOwned(s, u, i, t.id, u.tasks[i]);
    } else if u != s {
      ReleaseOwned(s, u, i, u.tasks[i]);
    }
  }

  lemma AbandonOwned(c: Config, s: State, i: nat)
    requires Owned(s) && i < |s.tasks|
    ensures Owned(Abandoned(s, i))
  {
    hide DistinctIds;
  }

  lemma OtherOwned(c: Config, s: State, op: Op)
    requires Owned(s) && !op.Lock? && !op.Pop? && !op.Publish? && !op.Abandon?
    ensures Owned(Step(c, s, op))
  {
    hide DistinctIds;
  }

  lemma StepOwned(c: Config, s: State, op: Op)
    requires Inv(c, s)
    ensures Owned(Step(c, s, op))
  {
    hide Counts, Owned, Locks, Locked, Popped, Published, Abandoned;
    match op
    case Lock(i, count, keep) => if i < |s.tasks| { LockOwned(c, s, i, count, keep); }
    case Pop(i, now, healthy, usedAt) =>
      if i < |s.tasks| && s.tasks[i].GetPop? { PopOwned(c, s, i, now, healthy, usedAt); }
    case Publish(i, now) => if i < |s.tasks| { PublishOwned(c, s, i, now); }
    case Abandon(i) => if i < |s.tasks| { AbandonOwned(c, s, i); }
    case _ => OtherOwned(c, s, op);
  }

  /** Only a task inside the lock cares what the vector is. */
  lemma OutsideLock(c: Config, t: Task, idle: seq<PooledConn>, later: seq<PooledConn>)
    requires TaskOk(c, idle, t) && !InLock(t)
    ensures TaskOk(c, later, t)
  {
  }

  lemma LockLocks(c: Config, s: State, i: nat, count: seq<int>, keep: seq<int>)
    requires Locks(c, s) && s.lock.None? && i < |s.tasks| && s.entered - s.left == |s.idle|
    ensures Locks(c, Locked(c, s, i, count, keep))
  {
    hide Usable, CountExpired, Kept, Readings;
    var u := Locked(c, s, i, count, keep);
    assert s.idle[..|s.idle|] == s.idle;
    forall j | 0 <= j < |u.tasks|
      ensures TaskOk(c, u.idle, u.tasks[j])
    {
      if j != i { OutsideLock(c, s.tasks[j], s.idle, u.idle); }
    }
  }

  lemma PopTask(c: Config, s: State, i: nat, now: int, healthy: bool, usedAt: int)
    requires i < |s.tasks| && s.tasks[i].GetPop? && TaskOk(c, s.idle, s.tasks[i])
    ensures var u := Popped(c, s, i, now, healthy, usedAt); TaskOk(c, u.idle, u.tasks[i])
  {
    hide Usable;
    var had, log := s.tasks[i].had, s.tasks[i].log;
    if s.idle != [] { ExaminesLast(c, had, log, s.idle, Verdict(s.idle[|s.idle| - 1], now, healthy)); }
  }

  lemma PopLocks(c: Config, s: State, i: nat, now: int, healthy: bool, usedAt: int)
    requires Locks(c, s) && i < |s.tasks| && s.tasks[i].GetPop?
    ensures Locks(c, Popped(c, s, i, now, healthy, usedAt))
  {
    hide Usable, TaskOk;
    var u := Popped(c, s, i, now, healthy, usedAt);
    PopTask(c, s, i, now, healthy, usedAt);
    forall j | 0 <= j < |u.tasks|
      ensures TaskOk(c, u.idle, u.tasks[j])
    {
      if j != i { OutsideLock(c, s.tasks[j], s.idle, u.idle); }
    }
  }

  lemma ExaminesLast(c: Config, had: seq<PooledConn>, log: seq<Verdict>, idle: seq<PooledConn>, v: Verdict)
    requires Refused(c, had, log) && idle == had[..|had| - |log|] && idle != [] && v.conn == idle[|idle| - 1]
    ensures v.conn == had[|had| - 1 - |log|] && idle[..|idle| - 1] == had[..|had| - 1 - |log|]
    ensures !Usable(c, v.now, v.healthy, v.conn) ==> Refused(c, had, log + [v])
  {
  }

  lemma PublishLocks(c: Config, s: State, i: nat, now: int)
    requires Locks(c, s) && i < |s.tasks|
    ensures Locks(c, Published(s, i, now))
  {
    hide Refused;
    assert TaskOk(c, s.idle, s.tasks[i]);
  }

  lemma OverOk(c: Config, idle: seq<PooledConn>)
    ensures TaskOk(c, idle, Over)
  {
  }

  lemma AbandonLocks(c: Config, s: State, i: nat)
    requires Locks(c, s) && i < |s.tasks|
    ensures Locks(c, Abandoned(s, i))
  {
    hide TaskOk;
    OverOk(c, s.idle);
  }

  lemma OtherLocks(c: Config, s: State, op: Op)
    requires Locks(c, s) && !op.Lock? && !op.Pop? && !op.Publish? && !op.Abandon?
    ensures Locks(c, Step(c, s, op))
  {
    hide Refused;
    if op.Dial? && op.i < |s.tasks| { assert TaskOk(c, s.idle, s.tasks[op.i]); }
  }

  lemma StepLocks(c: Config, s: State, op: Op)
    requires Inv(c, s)
    ensures Locks(c, Step(c, s, op))
  {
    hide Owned, Locks, Locked, Popped, Published, Abandoned;
    match op
    case Lock(i, count, keep) => if i < |s.tasks| && s.lock.None? { LockLocks(c, s, i, count, keep); }
    case Pop(i, now, healthy, usedAt) =>
      if i < |s.tasks| && s.tasks[i].GetPop? { PopLocks(c, s, i, now, healthy, usedAt); }
    case Publish(i, now) => if i < |s.tasks| { PublishLocks(c, s, i, now); }
    case Abandon(i) => if i < |s.tasks| { AbandonLocks(c, s, i); }
    case _ => OtherLocks(c, s, op);
  }

  lemma StepKeeps(c: Config, s: State, op: Op)
    requires Inv(c, s)
    ensures Inv(c, Step(c, s, op))
  {
    hide Counts, Owned, Locks, Step;
    StepCounts(c, s, op);
    StepOwned(c, s, op);
    StepLocks(c, s, op);
  }

  /** Conservation and exclusive ownership after any interleaving of any operations, dropped tasks included. */
  lemma {:induction false} RunKeeps(c: Config, ops: seq<Op>)
    ensures var s := Run(c, ops); Counts(c, s) && Owned(s) && Locks(c, s)
  {
    if ops != [] {
      RunKeeps(c, ops[..|ops| - 1]);
      StepKeeps(c, Run(c, ops[..|ops| - 1]), ops[|ops| - 1]);
    }
  }

  lemma ReturnCovered(c: Config, s: State, i: nat)
    requires Inv(c, s) && i < |s.tasks| && Returning(s.tasks[i]) == 1
    ensures s.stats.currentInUse >= 1
  {
    SumAtLeast(Returning, s.tasks, i);
    SumNatural(Handles, s.owner);
  }

  /** Whoever is about to decrement the in-use count finds it positive: it never wraps below zero. */
  lemma InUseCovers(c: Config, ops: seq<Op>, i: nat)
    requires i < |Run(c, ops).tasks| && Returning(Run(c, ops).tasks[i]) == 1
    ensures Run(c, ops).stats.currentInUse >= 1
  {
    RunKeeps(c, ops);
    ReturnCovered(c, Run(c, ops), i);
  }

  // ---------------------------------------------------------------- when the counts balance

  /** No operation is under way. */
  predicate Quiet(s: State) { forall t :: t in s.tasks ==> t.Got? || t.Over? }

  lemma QuietOwesNothing(s: State)
    requires Quiet(s)
    ensures Pending(s) == GivingBack(s) == Unannounced(s) == PermitsOut(s) == 0
  {
    SumZero(InFlight, s.tasks);
    SumZero(Returning, s.tasks);
    SumZero(JustDialled, s.tasks);
    SumZero(HoldsPermit, s.tasks);
  }

  /** A cleanup in which some connection expires after it was counted and before `retain` looks at it. */
  predicate Slips(c: Config, s: State, op: Op) {
    && op.Lock? && op.i < |s.tasks| && s.lock.None? && s.tasks[op.i].CleanWait?
    && Readings(op.count, op.keep, |s.idle|) && !Agree(c, op.count, op.keep, s.idle)
  }

  predicate NoSlips(c: Config, ops: seq<Op>) {
    ops == [] || (NoSlips(c, ops[..|ops| - 1]) && !Slips(c, Run(c, ops[..|ops| - 1]), ops[|ops| - 1]))
  }

  /** The future of an operation is dropped after it closed or pushed a connection and before it counted that. */
  predicate DropsUncounted(s: State, op: Op) {
    op.Abandon? && op.i < |s.tasks| && InFlight(s.tasks[op.i]) != 0
  }

  predicate AllCounted(c: Config, ops: seq<Op>) {
    ops == [] || (AllCounted(c, ops[..|ops| - 1]) && !DropsUncounted(Run(c, ops[..|ops| - 1]), ops[|ops| - 1]))
  }

  lemma StepLoses(c: Config, s: State, op: Op)
    requires !DropsUncounted(s, op)
    ensures Step(c, s, op).lost >= s.lost
    ensures Step(c, s, op).lost == s.lost <==> !Slips(c, s, op)
  {
    hide CountExpired, Kept, Agree, Usable;
    if op.Lock? && op.i < |s.tasks| && s.tasks[op.i].CleanWait? && Readings(op.count, op.keep, |s.idle|) {
      CountedIsRemoved(c, op.count, op.keep, s.idle);
    }
  }

  lemma {:induction false} LostIffSlipped(c: Config, ops: seq<Op>)
    requires AllCounted(c, ops)
    ensures Run(c, ops).lost >= 0
    ensures Run(c, ops).lost == 0 <==> NoSlips(c, ops)
  {
    if ops != [] {
      LostIffSlipped(c, ops[..|ops| - 1]);
      StepLoses(c, Run(c, ops[..|ops| - 1]), ops[|ops| - 1]);
    }
  }

  /**
   Unless a future is dropped between closing or pushing a connection and counting that: whenever no operation is under
   way, created = closed + in use + idle, exactly when no connection ever expired between the two passes of a cleanup.
  */
  lemma BalancedIff(c: Config, ops: seq<Op>)
    requires Quiet(Run(c, ops)) && AllCounted(c, ops)
    ensures var s := Run(c, ops);
            && (s.stats.totalCreated == s.stats.totalClosed + s.stats.currentInUse + |s.idle| <==> NoSlips(c, ops))
            && s.stats.currentInUse == InHand(s) + s.leaked
            && s.permits == c.maxSize
  {
    hide NoSlips, AllCounted, Quiet;
    RunKeeps(c, ops);
    QuietOwesNothing(Run(c, ops));
    LostIffSlipped(c, ops);
  }

  // ---------------------------------------------------------------- the published idle count

  /**
   In every state of every run: the published idle count is right exactly when as many connections entered the vector
   as left it since the published length was measured, and too low exactly when more entered than left.
  */
  lemma IdleCountRight(c: Config, ops: seq<Op>)
    ensures var s := Run(c, ops);
            && (s.stats.currentIdle == |s.idle| <==> s.entered - s.seenEntered == s.left - s.seenLeft)
            && (s.stats.currentIdle < |s.idle| <==> s.entered - s.seenEntered > s.left - s.seenLeft)
  {
    RunKeeps(c, ops);
  }

  /**
   The steps that make a right count wrong: exactly those that change the vector (its new length is published later, or
   never), and the publication of a cleanup that finds the vector changed since it unlocked it.
  */
  lemma IdleCountGoesStale(c: Config, s: State, op: Op)
    requires Inv(c, s) && s.stats.currentIdle == |s.idle|
    ensures var t := Step(c, s, op);
            t.stats.currentIdle != |t.idle| <==>
              || |t.idle| != |s.idle|
              || (op.Publish? && op.i < |s.tasks| && s.tasks[op.i].CleanPublish? && s.tasks[op.i].after != |s.idle|)
  {
    hide Counts, DistinctIds, Refused, Usable, CountExpired, Kept, Agree;
    if op.Publish? && op.i < |s.tasks| { assert TaskOk(c, s.idle, s.tasks[op.i]); }
  }

  /** A task is dropped that changed the vector and has not published its new length. */
  predicate DropsOwing(s: State, op: Op) { op.Abandon? && op.i < |s.tasks| && Owes(s.tasks[op.i]) }

  predicate AllPublish(c: Config, ops: seq<Op>) {
    ops == [] || (AllPublish(c, ops[..|ops| - 1]) && !DropsOwing(Run(c, ops[..|ops| - 1]), ops[|ops| - 1]))
  }

  /** No task owes a publication. */
  ghost predicate Settled(s: State) { forall i :: 0 <= i < |s.tasks| ==> !Owes(s.tasks[i]) }

  predicate PublishesLength(s: State, op: Op) {
    && op.Publish? && op.i < |s.tasks|
    && var t := s.tasks[op.i]; t.CleanPublish? || t.GetReuse? || t.PutPushed? || t.ClosePublish?
  }

  /**
   How much the vector has grown between the measuring and the publication of the length last published: nothing if the
   vector lock was held all the while; a cleanup has given it back in between.
  */
  function LateBy(c: Config, ops: seq<Op>): int {
    if ops == [] then 0
    else
      var s, op := Run(c, ops[..|ops| - 1]), ops[|ops| - 1];
      if !PublishesLength(s, op) then LateBy(c, ops[..|ops| - 1])
      else if s.tasks[op.i].CleanPublish? then |s.idle| - s.tasks[op.i].after
      else 0
  }

  /**
   A step that leaves nothing owing empties the vector, or changes neither the vector nor its published length, or
   publishes a length: of the vector as it is, or as a cleanup left it.
  */
  ghost predicate KeepsIdle(s: State, op: Op, t: State) {
    || t.idle == []
    || (!PublishesLength(s, op) && t.idle == s.idle && t.stats.currentIdle == s.stats.currentIdle && Settled(s))
    || (PublishesLength(s, op) && t.idle == s.idle
        && t.stats.currentIdle == if s.tasks[op.i].CleanPublish? then s.tasks[op.i].after else |t.idle|)
  }

  lemma SettledPublish(c: Config, s: State, i: nat, now: int)
    requires Locks(c, s) && i < |s.tasks| && Settled(Published(s, i, now))
    ensures KeepsIdle(s, Publish(i, now), Published(s, i, now))
  {
    hide Refused;
    var t := Published(s, i, now);
    assert TaskOk(c, s.idle, s.tasks[i]) && !Owes(t.tasks[i]);
    assert forall j :: 0 <= j < |s.tasks| && j != i ==> t.tasks[j] == s.tasks[j];
  }

  lemma SettledOther(c: Config, s: State, op: Op)
    requires Locks(c, s) && !op.Publish? && Settled(Step(c, s, op)) && !DropsOwing(s, op)
    ensures KeepsIdle(s, op, Step(c, s, op))
  {
    hide Refused, Usable, CountExpired, Kept, Agree, Readings;
    var t := Step(c, s, op);
    var i := match op
      case Lock(i, _, _) => i
      case Pop(i, _, _, _) => i
      case Dial(i, _) => i
      case Abandon(i) => i
      case _ => |s.tasks|;
    if i < |s.tasks| { assert TaskOk(c, s.idle, s.tasks[i]) && !Owes(t.tasks[i]); }
    assert forall j :: 0 <= j < |s.tasks| && j != i ==> t.tasks[j] == s.tasks[j];
  }

  lemma StepKeepsIdle(c: Config, s: State, op: Op)
    requires Locks(c, s) && Settled(Step(c, s, op)) && !DropsOwing(s, op)
    ensures KeepsIdle(s, op, Step(c, s, op))
  {
    hide Locks, Published, KeepsIdle, Settled;
    if op.Publish? {
      if op.i < |s.tasks| { SettledPublish(c, s, op.i, op.now); } else { KeepsIdleSame(s, op); }
    } else {
      SettledOther(c, s, op);
    }
  }

  lemma KeepsIdleSame(s: State, op: Op)
    requires Settled(s) && !PublishesLength(s, op)
    ensures KeepsIdle(s, op, s)
  {
  }

  lemma {:induction false} ShownIsLate(c: Config, ops: seq<Op>)
    requires AllPublish(c, ops) && Settled(Run(c, ops)) && Run(c, ops).idle != []
    ensures |Run(c, ops).idle| - Run(c, ops).stats.currentIdle == LateBy(c, ops)
  {
    if ops != [] {
      var init, last := ops[..|ops| - 1], ops[|ops| - 1];
      hide Settled, Step;
      RunKeeps(c, init);
      StepKeepsIdle(c, Run(c, init), last);
      if !PublishesLength(Run(c, init), last) { ShownIsLate(c, init); }
    }
  }

  /**
   Exactly when the published idle count is too low, or right. In every run in which no task is dropped while it owes a
   publication, and whenever none is owed: it is too low exactly when the vector is not empty and the length last
   published was late by more connections put in than taken out; over a non-empty vector it is right exactly when that
   publication was late by none. (Over an empty vector it is wrong exactly when it is not zero.)
  */
  lemma IdleCount(c: Config, ops: seq<Op>)
    requires AllPublish(c, ops) && Settled(Run(c, ops))
    ensures var s := Run(c, ops);
            && (s.stats.currentIdle < |s.idle| <==> s.idle != [] && LateBy(c, ops) > 0)
            && (s.idle != [] ==> (s.stats.currentIdle == |s.idle| <==> LateBy(c, ops) == 0))
  {
    hide LateBy, Settled;
    if Run(c, ops).idle != [] { ShownIsLate(c, ops); }
  }

  // ---------------------------------------------------------------- runs without interference

  ghost predicate Cleaning(s: State) { exists i :: 0 <= i < |s.tasks| && s.tasks[i].CleanPublish? }

  /** Nobody touches the vector between a cleanup's unlock and its publication, and no task is dropped owing one. */
  ghost predicate Calm(c: Config, s: State, op: Op) {
    (Cleaning(s) ==> Step(c, s, op).idle == s.idle) && !DropsOwing(s, op)
  }

  ghost predicate CalmRun(c: Config, ops: seq<Op>) {
    ops == [] || (CalmRun(c, ops[..|ops| - 1]) && Calm(c, Run(c, ops[..|ops| - 1]), ops[|ops| - 1]))
  }

  /** What every cleanup under way is about to publish is the length of the vector. */
  ghost predicate CleanersCurrent(s: State) {
    forall i :: 0 <= i < |s.tasks| && s.tasks[i].CleanPublish? ==> s.tasks[i].after == |s.idle|
  }

  lemma CleanerIsOldOrFresh(c: Config, s: State, op: Op, i: nat)
    requires i < |Step(c, s, op).tasks| && Step(c, s, op).tasks[i].CleanPublish?
    ensures var t := Step(c, s, op);
            (i < |s.tasks| && s.tasks[i] == t.tasks[i]) || t.tasks[i].after == |t.idle|
  {
    hide Usable, CountExpired, Kept, Readings;
  }

  lemma CalmKeepsCurrent(c: Config, s: State, op: Op)
    requires CleanersCurrent(s) && Calm(c, s, op)
    ensures CleanersCurrent(Step(c, s, op))
  {
    hide Step;
    var t := Step(c, s, op);
    forall i | 0 <= i < |t.tasks| && t.tasks[i].CleanPublish?
      ensures t.tasks[i].after == |t.idle|
    {
      CleanerIsOldOrFresh(c, s, op, i);
      assert i < |s.tasks| && s.tasks[i] == t.tasks[i] ==> Cleaning(s);
    }
  }

  lemma {:induction false} CalmIsNeverLate(c: Config, ops: seq<Op>)
    requires CalmRun(c, ops)
    ensures AllPublish(c, ops) && CleanersCurrent(Run(c, ops)) && LateBy(c, ops) == 0
  {
    if ops != [] {
      hide Step;
      CalmIsNeverLate(c, ops[..|ops| - 1]);
      CalmKeepsCurrent(c, Run(c, ops[..|ops| - 1]), ops[|ops| - 1]);
    }
  }

  /**
   In particular, as long as no operation gets between a cleanup's unlock and its publication, the count is never too
   low when nothing is owed, and wrong exactly when it is non-zero over an empty vector (a `get` refused every
   connection, then dialled or failed to).
  */
  lemma CalmIdleCount(c: Config, ops: seq<Op>)
    requires CalmRun(c, ops) && Settled(Run(c, ops))
    ensures var s := Run(c, ops);
            && s.stats.currentIdle >= |s.idle|
            && (s.stats.currentIdle != |s.idle| <==> s.idle == [] && s.stats.currentIdle > 0)
  {
    hide LateBy, AllPublish, CalmRun, Settled;
    CalmIsNeverLate(c, ops);
    IdleCount(c, ops);
  }

  // ---------------------------------------------------------------- what get returns

  /**
   A connection about to be reused was in the vector when `get` locked it, not expired and, if checked, healthy; every
   connection returned more recently was refused for cause.
  */
  lemma ReusedIsUsable(c: Config, ops: seq<Op>, i: nat)
    requires i < |Run(c, ops).tasks| && Run(c, ops).tasks[i].GetReuse?
    ensures var t := Run(c, ops).tasks[i];
            var k := |t.had| - 1 - |t.log|;
            && k >= 0 && t.conn.id == t.had[k].id && t.conn.useCount == t.had[k].useCount + 1
            && t.found.conn == t.had[k]
            && !Expired(c, t.found.now, t.had[k]) && (c.healthCheck ==> t.found.healthy)
            && Refused(c, t.had, t.log) && Run(c, ops).idle == t.had[..k]
  {
    RunKeeps(c, ops);
    var s := Run(c, ops);
    assert TaskOk(c, s.idle, s.tasks[i]);
  }

  /** `get` dials only after refusing, for cause, every connection that was idle when it locked the vector. */
  lemma DialsOnlyWhenNoneUsable(c: Config, ops: seq<Op>, i: nat, k: nat)
    requires i < |Run(c, ops).tasks| && Run(c, ops).tasks[i].Dialling? && k < |Run(c, ops).tasks[i].had|
    ensures var t := Run(c, ops).tasks[i];
            exists v :: v in t.log && v.conn == t.had[k]
                          && (Expired(c, v.now, t.had[k]) || (c.healthCheck && !v.healthy))
  {
    hide Run, Expired;
    RunKeeps(c, ops);
    var s := Run(c, ops);
    assert TaskOk(c, s.idle, s.tasks[i]);
    var t := s.tasks[i];
    assert t.log[|t.had| - 1 - k] in t.log;
  }

  /** Which limit goes with which time: idle since the last use, alive since the creation. */
  lemma ExpiredIff(c: Config, now: int, conn: PooledConn)
    ensures Expired(c, now, conn) <==> now - conn.lastUsedAt > c.maxIdleTime || now - conn.createdAt > c.maxLifetime
  {
  }

  /** Cleanup keeps exactly the connections not expired when `retain` looked at them, in their order. */
  lemma {:induction false} KeepsUnexpired(c: Config, times: seq<int>, idle: seq<PooledConn>, k: nat)
    requires |times| == |idle| && DistinctIds(idle) && k < |idle|
    ensures idle[k] in Kept(c, times, idle) <==> !Expired(c, times[k], idle[k])
    decreases |idle|
  {
    var last := |idle| - 1;
    var init := Kept(c, times[..last], idle[..last]);
    if k < last {
      KeepsUnexpired(c, times[..last], idle[..last], k);
      assert idle[k] != idle[last];
    } else {
      assert idle[last] !in idle[..last];
    }
  }

  lemma {:induction false} KeepsOrder(c: Config, times: seq<int>, idle: seq<PooledConn>, p: nat, q: nat, i: nat, j: nat)
    requires |times| == |idle| && DistinctIds(idle) && p < |idle| && q < |idle|
    requires i < j < |Kept(c, times, idle)| && Kept(c, times, idle)[i] == idle[p] && Kept(c, times, idle)[j] == idle[q]
    ensures p < q
    decreases |idle|
  {
    var last := |idle| - 1;
    var init := Kept(c, times[..last], idle[..last]);
    assert init[i] in init && init[i] in idle[..last] && idle[last] !in idle[..last];
    if j < |init| {
      assert init[j] in init && init[j] in idle[..last];
      KeepsOrder(c, times[..last], idle[..last], p, q, i, j);
    }
  }

  /**
   What `put` does with a connection: closed if unhealthy, closed if the pool is full, else the last of the vector.
  */
  lemma PutDecides(c: Config, s: State, conn: PooledConn, healthy: bool)
    requires Inv(c, s) && s.lock.None? && conn.id < |s.owner| && s.owner[conn.id].Handle?
    ensures var n, t := |s.tasks|, Step(c, s, StartPut(conn, healthy));
            var u := Step(c, t, Lock(n, [], []));
            if c.healthCheck && !healthy then t.tasks[n] == PutBad && u == t && t.idle == s.idle
            else if |s.idle| == c.maxSize then u.tasks[n] == PutFull && u.idle == s.idle
            else u.tasks[n] == PutPushed && u.idle == s.idle + [conn]
  {
  }

  /** `close_all` empties the vector and counts what it closed. */
  lemma CloseAllEmpties(c: Config, s: State, i: nat, now: int)
    requires Inv(c, s) && s.lock.None? && i < |s.tasks| && s.tasks[i].CloseWait?
    ensures var t := Step(c, s, Lock(i, [], []));
            var u := Step(c, t, Publish(i, now));
            && t.idle == u.idle == [] && u.tasks[i].Over?
            && u.stats == s.stats.(totalClosed := s.stats.totalClosed + |s.idle|, currentIdle := 0)
  {
  }

  /** How often a connection was handed out again. */
  function Reuses(c: Config, ops: seq<Op>): nat {
    if ops == [] then 0
    else
      var before, s, op := Reuses(c, ops[..|ops| - 1]), Run(c, ops[..|ops| - 1]), ops[|ops| - 1];
      if op.Publish? && op.i < |s.tasks| && s.tasks[op.i].GetReuse? then before + 1 else before
  }

  lemma {:induction false} ReusedIsCounted(c: Config, ops: seq<Op>)
    ensures Run(c, ops).stats.totalReused == Reuses(c, ops)
  {
    if ops != [] {
      var init, last := ops[..|ops| - 1], ops[|ops| - 1];
      ReusedIsCounted(c, init);
      RunKeeps(c, init);
      hide Step;
      StepReuses(c, Run(c, init), last);
    }
  }

  lemma StepReuses(c: Config, s: State, op: Op)
    requires Inv(c, s)
    ensures Step(c, s, op).stats.totalReused ==
            s.stats.totalReused + if op.Publish? && op.i < |s.tasks| && s.tasks[op.i].GetReuse? then 1 else 0
  {
    hide Counts, DistinctIds, Locks, Usable, CountExpired, Kept;
  }

  /**
   What `get` hands out: a reused connection with its use recorded at the time it was taken, or a new one, created and
   last used when it is handed out.
  */
  lemma HandsOut(c: Config, s: State, op: Op)
    requires Inv(c, s) && (op.Pop? || op.Publish?) && op.i < |s.tasks|
    ensures var t := Step(c, s, op).tasks[op.i];
            && (op.Pop? && s.tasks[op.i].GetPop? && t.GetReuse? ==>
                  var last := s.idle[|s.idle| - 1];
                  t.conn == last.(lastUsedAt := op.usedAt, useCount := last.useCount + 1))
            && (op.Publish? && s.tasks[op.i].GetReuse? ==> t == Got(s.tasks[op.i].conn))
            && (op.Publish? && s.tasks[op.i].Dialled? ==> t == Got(PooledConn(s.tasks[op.i].id, op.now, op.now, 0)))
  {
    hide Counts, DistinctIds, Locks, Usable;
  }

  // ---------------------------------------------------------------- runs in which it goes wrong

  lemma RunSnoc(c: Config, ops: seq<Op>, op: Op)
    ensures Run(c, ops + [op]) == Step(c, Run(c, ops), op)
  {
    assert (ops + [op])[..|ops|] == ops;
  }

  predicate NoDrops(ops: seq<Op>) { forall op :: op in ops ==> !op.Abandon? }

  lemma {:induction false} NoDropsAllCounted(c: Config, ops: seq<Op>)
    requires NoDrops(ops)
    ensures AllCounted(c, ops)
  {
    if ops != [] { NoDropsAllCounted(c, ops[..|ops| - 1]); }
  }

  const PLAIN: Config := Config(2, 10, 100, false)

  function Fresh(id: nat): PooledConn { PooledConn(id, 0, 0, 0) }

  lemma LastTask(tasks: seq<Task>, t: Task, u: Task)
    ensures (tasks + [t])[|tasks| := u] == tasks + [u]
  {
  }

  /** From an empty vector, an undisturbed `get` at time 0 dials. */
  lemma DialOne(ops: seq<Op>) returns (more: seq<Op>)
    requires var s := Run(PLAIN, ops); s.lock.None? && s.idle == [] && s.permits > 0
    ensures var s := Run(PLAIN, ops);
            Run(PLAIN, more) == s.(tasks := s.tasks + [Got(Fresh(|s.owner|))], owner := s.owner + [Handle],
              stats := s.stats.(totalCreated := s.stats.totalCreated + 1, currentInUse := s.stats.currentInUse + 1))
    ensures NoDrops(ops) ==> NoDrops(more)
  {
    var s, n := Run(PLAIN, ops), |Run(PLAIN, ops).tasks|;
    hide Run;
    RunSnoc(PLAIN, ops, StartGet);
    more := ops + [StartGet];
    RunSnoc(PLAIN, more, Lock(n, [], []));
    more := more + [Lock(n, [], [])];
    LastTask(s.tasks, GetWait, GetPop([], []));
    RunSnoc(PLAIN, more, Pop(n, 0, true, 0));
    more := more + [Pop(n, 0, true, 0)];
    LastTask(s.tasks, GetPop([], []), Dialling([], []));
    RunSnoc(PLAIN, more, Dial(n, true));
    more := more + [Dial(n, true)];
    LastTask(s.tasks, Dialling([], []), Dialled(|s.owner|));
    RunSnoc(PLAIN, more, Publish(n, 0));
    more := more + [Publish(n, 0)];
    LastTask(s.tasks, Dialled(|s.owner|), Got(Fresh(|s.owner|)));
    assert (s.owner + [Held(n)])[|s.owner| := Handle] == s.owner + [Handle];
  }

  /** An undisturbed `put` into a vector with room. */
  lemma PutOne(ops: seq<Op>, conn: PooledConn) returns (more: seq<Op>)
    requires var s := Run(PLAIN, ops);
             && s.lock.None? && |s.idle| < 2 && conn.id < |s.owner| && s.owner[conn.id].Handle?
    ensures var s := Run(PLAIN, ops);
            Run(PLAIN, more) == s.(tasks := s.tasks + [Over], owner := s.owner[conn.id := NoOne],
              idle := s.idle + [conn],
              entered := s.entered + 1, seenEntered := s.entered + 1, seenLeft := s.left,
              stats := s.stats.(currentInUse := s.stats.currentInUse - 1, currentIdle := |s.idle| + 1))
    ensures NoDrops(ops) ==> NoDrops(more)
  {
    var s, n := Run(PLAIN, ops), |Run(PLAIN, ops).tasks|;
    hide Run;
    RunSnoc(PLAIN, ops, StartPut(conn, true));
    more := ops + [StartPut(conn, true)];
    RunSnoc(PLAIN, more, Lock(n, [], []));
    more := more + [Lock(n, [], [])];
    LastTask(s.tasks, PutWait(conn), PutPushed);
    assert s.owner[conn.id := Held(n)][conn.id := NoOne] == s.owner[conn.id := NoOne];
    RunSnoc(PLAIN, more, Publish(n, 0));
    more := more + [Publish(n, 0)];
    LastTask(s.tasks, PutPushed, Over);
  }

  /** Two connections dialled, the first one given back. */
  lemma OneIdleOneOut() returns (ops: seq<Op>)
    ensures var s := Run(PLAIN, ops);
            && s.lock.None? && s.permits == 2 && s.idle == [Fresh(0)] && s.owner == [NoOne, Handle]
            && s.stats == Stats(2, 0, 0, 1, 1) && Quiet(s) && s.lost == 0
    ensures NoDrops(ops)
  {
    ops := DialOne([]);
    ops := DialOne(ops);
    ops := PutOne(ops, Fresh(0));
  }

  lemma OneExpires(count: int)
    requires count <= 11
    ensures Readings([count], [11], 1) && Kept(PLAIN, [11], [Fresh(0)]) == []
    ensures CountExpired(PLAIN, [count], [Fresh(0)]) == if count == 11 then 1 else 0
  {
    assert [count][..0] == [] && [11][..0] == [] && [Fresh(0)][..0] == [];
  }

  /** Cleanup, begun when the first connection has expired, stops before its publication. */
  lemma CleanupUnlocked(ops: seq<Op>, count: int) returns (more: seq<Op>)
    requires Run(PLAIN, ops).lock.None? && Run(PLAIN, ops).idle == [Fresh(0)] && count <= 11
    ensures var s, t := Run(PLAIN, ops), Run(PLAIN, more);
            && t.tasks == s.tasks + [CleanPublish(if count == 11 then 1 else 0, 0, s.entered, s.left + 1)]
            && t.idle == [] && t.lock.None? && t.owner == s.owner && t.stats == s.stats
  {
    var s, n := Run(PLAIN, ops), |Run(PLAIN, ops).tasks|;
    var go := Lock(n, [count], [11]);
    hide Run, CountExpired, Kept, Expired, Popped, Published, Abandoned;
    RunSnoc(PLAIN, ops, StartCleanup);
    more := ops + [StartCleanup];
    RunSnoc(PLAIN, more, go);
    more := more + [go];
    OneExpires(count);
    LastTask(s.tasks, CleanWait, CleanPublish(if count == 11 then 1 else 0, 0, s.entered, s.left + 1));
  }

  lemma PublishCleanup(ops: seq<Op>, i: nat) returns (more: seq<Op>)
    requires i < |Run(PLAIN, ops).tasks| && Run(PLAIN, ops).tasks[i].CleanPublish?
    requires Quiet(Run(PLAIN, ops).(tasks := Run(PLAIN, ops).tasks[i := Over]))
    ensures var s, t := Run(PLAIN, ops), Run(PLAIN, more);
            && Quiet(t) && t.idle == s.idle
            && t.stats == s.stats.(totalClosed := s.stats.totalClosed + s.tasks[i].expired,
                                   currentIdle := s.tasks[i].after)
  {
    more := ops + [Publish(i, 0)];
    RunSnoc(PLAIN, ops, Publish(i, 0));
  }

  /**
   Outside a calm run it is false: a `put` between a cleanup's unlock and its publication leaves the count too low.
  */
  lemma IdleCountCanBeTooLow()
    ensures exists ops :: Quiet(Run(PLAIN, ops)) && Run(PLAIN, ops).stats.currentIdle < |Run(PLAIN, ops).idle|
  {
    var ops := OneIdleOneOut();
    var i := |Run(PLAIN, ops).tasks|;
    ops := CleanupUnlocked(ops, 11);
    ops := PutOne(ops, Fresh(1));
    ops := PublishCleanup(ops, i);
  }

  /** A connection that expires between the two passes of a cleanup is closed and never counted. */
  lemma BalanceCanBeLost()
    ensures exists ops :: var s := Run(PLAIN, ops);
              Quiet(s) && s.stats.totalCreated > s.stats.totalClosed + s.stats.currentInUse + |s.idle|
  {
    var ops := OneIdleOneOut();
    var i := |Run(PLAIN, ops).tasks|;
    ops := CleanupUnlocked(ops, 10);
    ops := PublishCleanup(ops, i);
  }

  /** A `get` dropped after it closed an expired connection and before it counted that loses it without any slip. */
  lemma DroppedGetLosesCount()
    ensures exists ops :: var s := Run(PLAIN, ops);
              && Quiet(s) && NoSlips(PLAIN, ops) && !AllCounted(PLAIN, ops)
              && s.stats.totalCreated > s.stats.totalClosed + s.stats.currentInUse + |s.idle|
  {
    var ops := OneIdleOneOut();
    var s, n := Run(PLAIN, ops), |Run(PLAIN, ops).tasks|;
    hide Run;
    var had, log := [Fresh(0)], [Verdict(Fresh(0), 11, true)];
    var todo := [StartGet, Lock(n, [], []), Pop(n, 11, true, 11), Abandon(n)];
    RunSnoc(PLAIN, ops, todo[0]);
    ops := ops + [todo[0]];
    RunSnoc(PLAIN, ops, todo[1]);
    ops := ops + [todo[1]];
    LastTask(s.tasks, GetWait, GetPop(had, []));
    RunSnoc(PLAIN, ops, todo[2]);
    ops := ops + [todo[2]];
    LastTask(s.tasks, GetPop(had, []), GetClose(had, log));
    NoDropsAllCounted(PLAIN, ops);
    LostIffSlipped(PLAIN, ops);
    RunSnoc(PLAIN, ops, todo[3]);
    assert (ops + [todo[3]])[..|ops|] == ops;
    ops := ops + [todo[3]];
    LastTask(s.tasks, GetClose(had, log), Over);
  }

  /**
   In a calm run it can be too high: a `get` refuses the one idle connection, fails to dial, and publishes nothing.
  */
  lemma IdleCountCanBeStale()
    ensures exists ops :: Quiet(Run(PLAIN, ops)) && Run(PLAIN, ops).stats.currentIdle > |Run(PLAIN, ops).idle|
  {
    var ops := OneIdleOneOut();
    var s, n := Run(PLAIN, ops), |Run(PLAIN, ops).tasks|;
    hide Run;
    var had, log := [Fresh(0)], [Verdict(Fresh(0), 11, true)];
    var todo := [StartGet, Lock(n, [], []), Pop(n, 11, true, 11), Publish(n, 11), Pop(n, 11, true, 11), Dial(n, false)];
    RunSnoc(PLAIN, ops, todo[0]);
    ops := ops + [todo[0]];
    RunSnoc(PLAIN, ops, todo[1]);
    ops := ops + [todo[1]];
    LastTask(s.tasks, GetWait, GetPop(had, []));
    RunSnoc(PLAIN, ops, todo[2]);
    ops := ops + [todo[2]];
    LastTask(s.tasks, GetPop(had, []), GetClose(had, log));
    RunSnoc(PLAIN, ops, todo[3]);
    ops := ops + [todo[3]];
    LastTask(s.tasks, GetClose(had, log), GetPop(had, log));
    RunSnoc(PLAIN, ops, todo[4]);
    ops := ops + [todo[4]];
    LastTask(s.tasks, GetPop(had, log), Dialling(had, log));
    RunSnoc(PLAIN, ops, todo[5]);
    ops := ops + [todo[5]];
    LastTask(s.tasks, Dialling(had, log), Over);
    assert Run(PLAIN, ops).stats.currentIdle == 1 && Run(PLAIN, ops).idle == [];
  }

  // ---------------------------------------------------------------- the pool

  /** One method for each stretch of the original between two awaits; `state` also records where every task stands. */
  class ConnPool {
    const config: Config
    var connections: seq<PooledConn>
    var stats: Stats
    var permits: nat
    var locked: bool
    var dialled: nat
    ghost var state: State

    ghost predicate Valid()
      reads this
    {
      && Inv(config, state)
      && state.idle == connections && state.stats == stats && state.permits == permits
      && state.lock.Some? == locked && |state.owner| == dialled
    }

    constructor (config: Config)
      ensures Valid() && state == Initial(config) && this.config == config
    {
      this.config := config;
      connections, stats, permits, locked, dialled := [], Stats(0, 0, 0, 0, 0), config.maxSize, false, 0;
      state := Initial(config);
    }

    /** `semaphore.acquire`. */
    method Acquire() returns (ok: bool)
      requires Valid()
      modifies this
      ensures Valid() && state == Step(config, old(state), StartGet) && ok == (old(permits) > 0)
    {
      hide Inv, Locked, Popped, Published, Abandoned;
      StepKeeps(config, state, StartGet);
      state := Step(config, state, StartGet);
      if permits == 0 { return false; }
      permits := permits - 1;
      return true;
    }

    /** The vector lock is granted to a `get`. */
    method LockForGet(ghost i: nat)
      requires Valid() && !locked && i < |state.tasks| && state.tasks[i].GetWait?
      modifies this
      ensures Valid() && state == Step(config, old(state), Lock(i, [], []))
    {
      hide Inv;
      StepKeeps(config, state, Lock(i, [], []));
      state := Step(config, state, Lock(i, [], []));
      locked := true;
    }

    /** One turn of the popping loop: `None` with the lock released when nothing is left, else the connection popped. */
    method PopNext(ghost i: nat, now: int, healthy: bool, usedAt: int)
      returns (popped: Option<PooledConn>, usable: bool)
      requires Valid() && i < |state.tasks| && state.tasks[i].GetPop?
      modifies this
      ensures Valid() && state == Step(config, old(state), Pop(i, now, healthy, usedAt))
      ensures popped.None? <==> state.tasks[i].Dialling?
      ensures popped.Some? ==> (usable <==> state.tasks[i].GetReuse?)
      ensures popped.Some? && usable ==> popped.value == state.tasks[i].conn
    {
      hide Inv;
      StepKeeps(config, state, Pop(i, now, healthy, usedAt));
      LastIsPooled(config, state);
      state := Step(config, state, Pop(i, now, healthy, usedAt));
      if connections == [] {
        locked := false;
        return None, false;
      }
      var conn := connections[|connections| - 1];
      connections := connections[..|connections| - 1];
      if Expired(config, now, conn) { return Some(conn), false; }
      if config.healthCheck && !healthy { return Some(conn), false; }
      return Some(conn.(lastUsedAt := usedAt, useCount := conn.useCount + 1)), true;
    }

    /** A connection attempt ends. */
    method DialDone(ghost i: nat, connects: bool) returns (id: Option<nat>)
      requires Valid() && i < |state.tasks| && state.tasks[i].Dialling?
      modifies this
      ensures Valid() && state == Step(config, old(state), Dial(i, connects))
      ensures id == if connects then Some(old(dialled)) else None
    {
      hide Inv;
      StepKeeps(config, state, Dial(i, connects));
      state := Step(config, state, Dial(i, connects));
      if !connects {
        permits := permits + 1;
        return None;
      }
      id := Some(dialled);
      dialled := dialled + 1;
    }

    /** `put` up to the vector lock, for a connection obtained from `get`; whether it goes on to the vector. */
    method StartReturn(conn: PooledConn, healthy: bool) returns (goesOn: bool)
      requires Valid() && conn.id < |state.owner| && state.owner[conn.id].Handle?
      modifies this`state
      ensures Valid() && state == Step(config, old(state), StartPut(conn, healthy))
      ensures goesOn <==> state.tasks[|old(state).tasks|] == PutWait(conn)
    {
      hide Inv;
      StepKeeps(config, state, StartPut(conn, healthy));
      state := Step(config, state, StartPut(conn, healthy));
      return !(config.healthCheck && !healthy);
    }

    /** `put` with the vector lock: whether there was room. */
    method LockForPut(ghost i: nat, conn: PooledConn) returns (pushed: bool)
      requires Valid() && !locked && i < |state.tasks| && state.tasks[i] == PutWait(conn)
      modifies this
      ensures Valid() && state == Step(config, old(state), Lock(i, [], []))
      ensures state.tasks[i] == if pushed then PutPushed else PutFull
    {
      hide Inv;
      StepKeeps(config, state, Lock(i, [], []));
      HeldInRange(config, state, i);
      state := Step(config, state, Lock(i, [], []));
      locked := true;
      if |connections| >= config.maxSize { return false; }
      connections := connections + [conn];
      return true;
    }

    /** `cleanup` with the vector lock: counts the expired, then retains the rest, reading the clock each time. */
    method CleanupExpired(ghost i: nat, count: seq<int>, keep: seq<int>) returns (expired: nat, removed: nat)
      requires Valid() && !locked && i < |state.tasks| && state.tasks[i].CleanWait?
      requires Readings(count, keep, |connections|)
      modifies this
      ensures Valid() && state == Step(config, old(state), Lock(i, count, keep))
      ensures removed == |old(connections)| - |connections|
      ensures expired == removed <==> Agree(config, count, keep, old(connections))
    {
      hide Inv, Agree, CountExpired, Kept;
      StepKeeps(config, state, Lock(i, count, keep));
      CountedIsRemoved(config, count, keep, connections);
      expired := Count(config, count, connections);
      var kept := Retain(config, keep, connections);
      removed := |connections| - |kept|;
      if removed == 0 { KeptAll(config, keep, connections); }
      connections := kept;
      state := Step(config, state, Lock(i, count, keep));
    }

    /** `close_all` with the vector lock. */
    method CloseAll(ghost i: nat) returns (count: nat)
      requires Valid() && !locked && i < |state.tasks| && state.tasks[i].CloseWait?
      modifies this
      ensures Valid() && state == Step(config, old(state), Lock(i, [], [])) && state.tasks[i] == ClosePublish(count)
    {
      hide Inv;
      StepKeeps(config, state, Lock(i, [], []));
      state := Step(config, state, Lock(i, [], []));
      count := |connections|;
      locked, connections := true, [];
    }

    /** `update_stats` for the task that reused `conn`, with everything `get` releases on return. */
    method PublishReuse(ghost i: nat)
      requires Valid() && i < |state.tasks| && state.tasks[i].GetReuse?
      modifies this
      ensures Valid() && state == Step(config, old(state), Publish(i, 0))
    {
      hide Inv;
      StepKeeps(config, state, Publish(i, 0));
      HeldInRange(config, state, i);
      state := Step(config, state, Publish(i, 0));
      stats := stats.(totalReused := stats.totalReused + 1, currentInUse := stats.currentInUse + 1,
                      currentIdle := |connections|);
      locked, permits := false, permits + 1;
    }

    /** `update_stats` for a refused connection; the lock stays. */
    method PublishRefused(ghost i: nat)
      requires Valid() && i < |state.tasks| && state.tasks[i].GetClose?
      modifies this
      ensures Valid() && state == Step(config, old(state), Publish(i, 0))
    {
      hide Inv;
      StepKeeps(config, state, Publish(i, 0));
      state := Step(config, state, Publish(i, 0));
      stats := stats.(totalClosed := stats.totalClosed + 1);
    }

    /** `update_stats` for a new connection. */
    method PublishDialled(ghost i: nat, id: nat, now: int) returns (conn: PooledConn)
      requires Valid() && i < |state.tasks| && state.tasks[i] == Dialled(id)
      modifies this
      ensures Valid() && state == Step(config, old(state), Publish(i, now)) && state.tasks[i] == Got(conn)
    {
      hide Inv;
      StepKeeps(config, state, Publish(i, now));
      HeldInRange(config, state, i);
      state := Step(config, state, Publish(i, now));
      stats := stats.(totalCreated := stats.totalCreated + 1, currentInUse := stats.currentInUse + 1);
      permits := permits + 1;
      conn := PooledConn(id, now, now, 0);
    }

    /** `update_stats` at the end of `put`: not decremented below zero. */
    method PublishReturn(ghost i: nat, wentOn: bool, pushed: bool)
      requires Valid() && i < |state.tasks| && (pushed ==> wentOn)
      requires state.tasks[i] == if pushed then PutPushed else if wentOn then PutFull else PutBad
      modifies this
      ensures Valid() && state == Step(config, old(state), Publish(i, 0))
      ensures stats.currentInUse >= 0
    {
      hide Inv;
      StepKeeps(config, state, Publish(i, 0));
      ReturnCovered(config, state, i);
      state := Step(config, state, Publish(i, 0));
      stats := stats.(currentInUse := stats.currentInUse - 1);
      if pushed {
        stats := stats.(currentIdle := |connections|);
      } else {
        stats := stats.(totalClosed := stats.totalClosed + 1);
      }
      if wentOn { locked := false; }
    }

    /** `update_stats` of a cleanup, after the lock was released. */
    method PublishCleaned(ghost i: nat, expired: nat, after: nat)
      requires Valid() && i < |state.tasks|
      requires state.tasks[i].CleanPublish? && state.tasks[i].expired == expired && state.tasks[i].after == after
      modifies this
      ensures Valid() && state == Step(config, old(state), Publish(i, 0))
    {
      hide Inv;
      StepKeeps(config, state, Publish(i, 0));
      state := Step(config, state, Publish(i, 0));
      stats := stats.(totalClosed := stats.totalClosed + expired, currentIdle := after);
    }

    /** `update_stats` of `close_all`. */
    method PublishClosed(ghost i: nat, count: nat)
      requires Valid() && i < |state.tasks| && state.tasks[i] == ClosePublish(count)
      modifies this
      ensures Valid() && state == Step(config, old(state), Publish(i, 0))
    {
      hide Inv;
      StepKeeps(config, state, Publish(i, 0));
      state := Step(config, state, Publish(i, 0));
      stats := stats.(totalClosed := stats.totalClosed + count, currentIdle := 0);
      locked := false;
    }
  }

  lemma LastIsPooled(c: Config, s: State)
    requires Inv(c, s)
    ensures s.idle != [] ==> s.idle[|s.idle| - 1].id < |s.owner|
  {
  }

  lemma HeldInRange(c: Config, s: State, i: nat)
    requires Inv(c, s) && i < |s.tasks|
    ensures Holding(s.tasks[i]).Some? ==> Holding(s.tasks[i]).value < |s.owner|
  {
  }

  lemma {:induction false} KeptAll(c: Config, times: seq<int>, idle: seq<PooledConn>)
    requires |times| == |idle| && |Kept(c, times, idle)| == |idle|
    ensures Kept(c, times, idle) == idle
  {
    if idle != [] {
      var last := |idle| - 1;
      KeptAll(c, times[..last], idle[..last]);
    }
  }
}
