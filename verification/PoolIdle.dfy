/** Exactly which connections the keeper cannot save from becoming idle: those that a thread holds. */
module PoolIdle {
  import opened Wrappers
  import opened Pool
  import opened PoolOwnership
  import opened PoolBarrier
  import opened PoolProgress
  import opened PoolTiming

  // ---- Timely reachable states

  ghost predicate TimelyReachable(s: State) {
    exists threads: nat, start: real, steps: seq<Step> ::
      TimedRun(Init(s.n, threads, start), steps) && TimedAfter(Init(s.n, threads, start), steps) == s
  }

  /** No use lies in the future, and the keeper stops only for the cleanup. */
  ghost predicate Dated(s: State) {
    && |s.lastUsed| == s.n && (s.keeper.Stopped? ==> s.done)
    && forall c: Conn :: c < |s.lastUsed| && s.lastUsed[c].Some? ==> s.lastUsed[c].value <= s.now
  }

  lemma StepKeepsDated(s: State, step: Step)
    requires Owned(s) && Attended(s) && Dated(s) && OnTime(s, step)
    ensures Dated(Do(s, step))
  {
    match step
    case Thread(t, move) => MoveKeepsDated(s, t, move);
    case Keep(chore) => ChoreKeepsDated(s, chore);
    case Tick(_) =>
  }

  lemma MoveKeepsDated(s: State, t: nat, move: Move)
    requires Dated(s) && t < |s.actors| && CanMove(s, s.actors[t], move)
    ensures Dated(DoMove(s, t, move))
  {
  }

  lemma ChoreKeepsDated(s: State, chore: Chore)
    requires Attended(s) && Dated(s) && CanKeep(s, chore)
    ensures Dated(DoChore(s, chore))
  {
  }

  lemma {:induction false} TimedRunKeepsDated(s: State, steps: seq<Step>)
    requires Owned(s) && Attended(s) && Dated(s) && TimedRun(s, steps)
    ensures var s' := TimedAfter(s, steps); Owned(s') && Attended(s') && Dated(s')
    decreases |steps|
  {
    if steps != [] {
      StepKeepsOwned(s, steps[0]);
      StepKeepsAttended(s, steps[0]);
      StepKeepsDated(s, steps[0]);
      TimedRunKeepsDated(Do(s, steps[0]), steps[1..]);
    }
  }

  lemma TimelyIsDated(s: State)
    requires TimelyReachable(s)
    ensures Owned(s) && Attended(s) && Dated(s)
  {
    var threads: nat, start: real, steps: seq<Step> :|
      TimedRun(Init(s.n, threads, start), steps) && TimedAfter(Init(s.n, threads, start), steps) == s;
    InitOwned(s.n, threads, start);
    TimedRunKeepsDated(Init(s.n, threads, start), steps);
  }

  // ---- The threads stand still

  ghost predicate HeldByThread(s: State, c: Conn) {
    exists t :: 0 <= t < |s.actors| && c in Held(s.actors[t])
  }

  ghost predicate KeeperAlone(steps: seq<Step>) {
    forall step :: step in steps ==> !step.Thread?
  }

  ghost predicate IdleFor(s: State, c: Conn, bound: real) {
    c < |s.lastUsed| && s.lastUsed[c].Some? && s.now - s.lastUsed[c].value > bound
  }

  ghost predicate Idles(s: State, steps: seq<Step>, c: Conn, bound: real) {
    TimedRun(s, steps) && KeeperAlone(steps) && IdleFor(TimedAfter(s, steps), c, bound)
  }

  /** If the threads stand still, a timely keeper may let the connection be idle for longer than `bound`. */
  ghost predicate CanIdle(s: State, c: Conn, bound: real) {
    exists steps :: Idles(s, steps, c, bound)
  }

  // ---- A connection in the pool is served in time

  /** How long it may take until the keeper looks at the connection. */
  ghost function Delay(s: State, c: Conn): real {
    match s.keeper
    case Asleep => s.lastWake + WAKE_INTERVAL - s.now
    case Stopped => 0.0
    case Draining(_) => 0.0
    case _ => if c in Ahead(s.keeper) then 0.0 else WAKE_INTERVAL
  }

  /** No thread holds the connection; it has been looked at, or will be before `until`, unused since `used`. */
  ghost predicate Watched(s: State, c: Conn, used: real, until: real) {
    && Owned(s) && Attended(s) && c < s.n && !HeldByThread(s, c)
    && (s.lastUsed[c].Some? ==>
          Tracked(s, c) || (s.lastUsed[c].value == used && s.now + Delay(s, c) <= until))
  }

  lemma InPoolOrWithKeeper(s: State, c: Conn)
    requires Owned(s) && c < s.n && !HeldByThread(s, c)
    ensures c in s.queue || c in HeldByKeeper(s.keeper)
  {
    if c !in s.queue && c !in HeldByKeeper(s.keeper) {
      SomewhereElse(s, c);
      var t := HolderExists(s.actors, c);
    }
  }

  lemma StaysTracked(s: State, step: Step, c: Conn)
    requires Owned(s) && c < s.n && !HeldByThread(s, c) && OnTime(s, step) && !step.Thread?
    ensures Do(s, step).actors == s.actors
    ensures s.lastUsed[c].None? ==> Do(s, step).lastUsed[c].None?
    ensures Tracked(s, c) && Do(s, step).lastUsed[c].Some? ==> Tracked(Do(s, step), c)
  {
    if c !in s.missed && c in Do(s, step).missed { OnlyHeldAreMissed(s, step, c); }
  }

  lemma ChoreKeepsWatch(s: State, chore: Chore, c: Conn, used: real, until: real)
    requires Watched(s, c, used, until) && CanKeep(s, chore) && s.lastUsed[c].Some? && !Tracked(s, c)
    requires DoChore(s, chore).lastUsed[c].Some?
    ensures var s' := DoChore(s, chore);
            Tracked(s', c) || (s'.lastUsed[c].value == used && s'.now + Delay(s', c) <= until)
  {
    var k := s.keeper;
    if chore.Emptied? {
      InPoolOrWithKeeper(s, c);
      assert k.idle[0..] == k.idle;
    } else if chore.Skip? || chore.KeepAlive? || chore.KeepAliveFails? {
      ServiceKeepsWatch(s, chore, c, used, until);
    } else if chore.PutBack? {
      assert Ahead(DoChore(s, chore).keeper) == Ahead(k);
    }
  }

  lemma ServiceKeepsWatch(s: State, chore: Chore, c: Conn, used: real, until: real)
    requires Watched(s, c, used, until) && CanKeep(s, chore) && s.lastUsed[c].Some? && !Tracked(s, c)
    requires DoChore(s, chore).lastUsed[c].Some? && (chore.Skip? || chore.KeepAlive? || chore.KeepAliveFails?)
    ensures var s' := DoChore(s, chore);
            Tracked(s', c) || (s'.lastUsed[c].value == used && s'.now + Delay(s', c) <= until)
  {
    var k := s.keeper;
    assert k.idle[k.at..] == [k.idle[k.at]] + k.idle[k.at + 1..];
  }

  lemma StepKeepsWatch(s: State, step: Step, c: Conn, used: real, until: real)
    requires Watched(s, c, used, until) && OnTime(s, step) && !step.Thread?
    ensures Watched(Do(s, step), c, used, until)
  {
    StepKeepsOwned(s, step);
    StepKeepsAttended(s, step);
    StaysTracked(s, step, c);
    assert !HeldByThread(Do(s, step), c);
    if step.Keep? && !Tracked(s, c) && Do(s, step).lastUsed[c].Some? {
      ChoreKeepsWatch(s, step.chore, c, used, until);
    }
  }

  lemma {:induction false} RunKeepsWatch(s: State, steps: seq<Step>, c: Conn, used: real, until: real)
    requires Watched(s, c, used, until) && TimedRun(s, steps) && KeeperAlone(steps)
    ensures Watched(TimedAfter(s, steps), c, used, until)
    decreases |steps|
  {
    if steps != [] {
      StepKeepsWatch(s, steps[0], c, used, until);
      RunKeepsWatch(Do(s, steps[0]), steps[1..], c, used, until);
    }
  }

  lemma WatchedIsBounded(s: State, c: Conn, used: real, until: real, bound: real)
    requires Watched(s, c, used, until) && IDLE_TIMEOUT + WAKE_INTERVAL <= bound && until - used <= bound
    ensures !IdleFor(s, c, bound)
  {
    if s.lastUsed[c].Some? && !Tracked(s, c) {
      assert 0.0 <= Delay(s, c);
    }
  }

  /** While no thread holds it, a used connection is idle for 45 s at most, or 15 s more than it has been. */
  lemma InPoolIsServed(s: State, c: Conn, bound: real)
    requires Owned(s) && Attended(s) && c < s.n && !HeldByThread(s, c) && s.lastUsed[c].Some?
    requires IDLE_TIMEOUT + WAKE_INTERVAL <= bound
    requires Tracked(s, c) || s.now + WAKE_INTERVAL - s.lastUsed[c].value <= bound
    ensures !CanIdle(s, c, bound)
  {
    var used := s.lastUsed[c].value;
    var until := if Tracked(s, c) then used + bound else s.now + WAKE_INTERVAL;
    assert Watched(s, c, used, until);
    forall steps ensures !Idles(s, steps, c, bound) {
      if TimedRun(s, steps) && KeeperAlone(steps) {
        RunKeepsWatch(s, steps, c, used, until);
        WatchedIsBounded(TimedAfter(s, steps), c, used, until, bound);
      }
    }
  }

  // ---- A connection held by a thread is out of the keeper's reach

  /** Nothing has changed for the connection that thread `t` holds. */
  ghost predicate Unserved(s: State, s': State, t: nat, c: Conn) {
    && Owned(s') && s'.n == s.n && s'.actors == s.actors && s'.done == s.done
    && t < |s.actors| && c in Held(s.actors[t])
    && c < |s.lastUsed| == |s'.lastUsed| && s'.lastUsed[c] == s.lastUsed[c]
  }

  lemma ChorePassesBy(s: State, t: nat, c: Conn)
    requires Owned(s) && Unserved(s, s, t, c) && !AtRest(s.keeper)
    ensures CanKeep(s, NextChoreOf(s))
    ensures var s' := DoChore(s, NextChoreOf(s));
            && Unserved(s, s', t, c) && s'.now == s.now && KeeperWork(s') < KeeperWork(s)
            && !s'.keeper.Stopped? && (AtRest(s'.keeper) ==> s'.lastWake == s'.now)
  {
    KeeperCanGoOn(s);
    ChoreLowersWork(s);
    ChoreKeepsOwned(s, NextChoreOf(s));
    OnlyHolder(s, t, c);
    if s.keeper.Serving? { assert s.keeper.idle[s.keeper.at..][0] == s.keeper.idle[s.keeper.at]; }
  }

  ghost function NextChoreOf(s: State): Chore
    requires Owned(s) && !AtRest(s.keeper)
  {
    KeeperCanGoOn(s);
    NextChore(s)
  }

  lemma JoinOne(s: State, step: Step, rest: seq<Step>)
    requires OnTime(s, step) && TimedRun(Do(s, step), rest) && !step.Thread? && KeeperAlone(rest)
    ensures TimedRun(s, [step] + rest) && KeeperAlone([step] + rest)
    ensures TimedAfter(s, [step] + rest) == TimedAfter(Do(s, step), rest)
  {
    assert ([step] + rest)[1..] == rest;
  }

  /** The keeper finishes its pass in no time. */
  lemma {:induction false} FinishPass(s: State, t: nat, c: Conn) returns (steps: seq<Step>)
    requires Owned(s) && Unserved(s, s, t, c) && !AtRest(s.keeper)
    ensures TimedRun(s, steps) && KeeperAlone(steps)
    ensures var s' := TimedAfter(s, steps);
            Unserved(s, s', t, c) && s'.now == s.now == s'.lastWake && s'.keeper.Asleep?
    decreases KeeperWork(s)
  {
    ChorePassesBy(s, t, c);
    var step := Keep(NextChoreOf(s));
    var s1 := Do(s, step);
    var rest := [];
    if !AtRest(s1.keeper) { rest := FinishPass(s1, t, c); }
    JoinOne(s, step, rest);
    steps := [step] + rest;
  }

  /** The keeper sleeps until it is time, and makes a pass. */
  lemma OneRound(s: State, t: nat, c: Conn) returns (steps: seq<Step>)
    requires Owned(s) && Unserved(s, s, t, c) && s.keeper.Asleep? && !s.done
    requires s.now <= s.lastWake + WAKE_INTERVAL
    ensures TimedRun(s, steps) && KeeperAlone(steps)
    ensures var s' := TimedAfter(s, steps);
            Unserved(s, s', t, c) && s'.now == s.lastWake + WAKE_INTERVAL == s'.lastWake && s'.keeper.Asleep?
  {
    var dt := s.lastWake + WAKE_INTERVAL - s.now;
    var s1 := if dt > 0.0 then Do(s, Tick(dt)) else s;
    var s2 := Do(s1, Keep(Wake));
    steps := FinishPass(s2, t, c);
    JoinOne(s1, Keep(Wake), steps);
    steps := [Keep(Wake)] + steps;
    if dt > 0.0 {
      JoinOne(s, Tick(dt), steps);
      steps := [Tick(dt)] + steps;
    }
  }

  lemma {:induction false} AppendRun(s: State, u: seq<Step>, v: seq<Step>)
    requires TimedRun(s, u) && TimedRun(TimedAfter(s, u), v)
    ensures TimedRun(s, u + v) && TimedAfter(s, u + v) == TimedAfter(TimedAfter(s, u), v)
    decreases |u|
  {
    if u == [] {
      assert u + v == v;
    } else {
      assert (u + v)[1..] == u[1..] + v;
      AppendRun(Do(s, u[0]), u[1..], v);
    }
  }

  lemma JoinRuns(s: State, u: seq<Step>, v: seq<Step>)
    requires TimedRun(s, u) && KeeperAlone(u) && TimedRun(TimedAfter(s, u), v) && KeeperAlone(v)
    ensures TimedRun(s, u + v) && KeeperAlone(u + v) && TimedAfter(s, u + v) == TimedAfter(TimedAfter(s, u), v)
  {
    AppendRun(s, u, v);
  }

  lemma {:induction false} ManyRounds(s: State, t: nat, c: Conn, k: nat) returns (steps: seq<Step>)
    requires Owned(s) && Unserved(s, s, t, c) && s.keeper.Asleep? && !s.done
    requires s.lastWake <= s.now <= s.lastWake + WAKE_INTERVAL
    ensures TimedRun(s, steps) && KeeperAlone(steps)
    ensures var s' := TimedAfter(s, steps);
            && Unserved(s, s', t, c) && s'.keeper.Asleep?
            && s'.now >= s.lastWake + k as real * WAKE_INTERVAL
    decreases k
  {
    steps := [];
    if k > 0 {
      steps := OneRound(s, t, c);
      var s1 := TimedAfter(s, steps);
      var rest := ManyRounds(s1, t, c, k - 1);
      JoinRuns(s, steps, rest);
      steps := steps + rest;
    }
  }

  /** A used connection that a thread holds can be idle for longer than any bound. */
  lemma HeldIdlesAtWill(s: State, t: nat, c: Conn, bound: real)
    requires Owned(s) && Attended(s) && Dated(s) && !s.done && t < |s.actors| && c in Held(s.actors[t])
    requires c < s.n && s.lastUsed[c].Some?
    ensures CanIdle(s, c, bound)
  {
    var steps := [];
    if !AtRest(s.keeper) { steps := FinishPass(s, t, c); }
    var s1 := TimedAfter(s, steps);
    var k := RoundsFor(s1.lastWake, s.lastUsed[c].value + bound);
    var rest := ManyRounds(s1, t, c, k);
    JoinRuns(s, steps, rest);
    assert Idles(s, steps + rest, c, bound);
  }

  lemma RoundsFor(from: real, beyond: real) returns (k: nat)
    ensures from + k as real * WAKE_INTERVAL > beyond
  {
    k := if beyond < from then 1 else (beyond - from).Floor + 1;
  }

  /**
   * In every timely reachable state before the cleanup, for every used connection: if the threads
   * stand still, the keeper can let it be idle for longer than any bound exactly when a thread holds
   * it.  For one that was not missed at a wake-up since its last use or service, that is also exactly
   * when it can be idle for longer than 45 seconds.
   */
  lemma IdlesExactlyWhenHeld(s: State, c: Conn)
    requires TimelyReachable(s) && !s.done && c < |s.lastUsed| && s.lastUsed[c].Some?
    ensures (forall bound :: CanIdle(s, c, bound)) <==> HeldByThread(s, c)
    ensures Tracked(s, c) ==> (CanIdle(s, c, IDLE_TIMEOUT + WAKE_INTERVAL) <==> HeldByThread(s, c))
  {
    TimelyIsDated(s);
    if HeldByThread(s, c) {
      var t :| 0 <= t < |s.actors| && c in Held(s.actors[t]);
      forall bound ensures CanIdle(s, c, bound) { HeldIdlesAtWill(s, t, c, bound); }
    } else {
      var most := IDLE_TIMEOUT + WAKE_INTERVAL + (s.now - s.lastUsed[c].value);
      InPoolIsServed(s, c, most);
      if Tracked(s, c) { InPoolIsServed(s, c, IDLE_TIMEOUT + WAKE_INTERVAL); }
    }
  }

  // ---- A flush that waits for a slow request

  ghost predicate Ticks(steps: seq<Step>) {
    exists step :: step in steps && step.Tick?
  }

  /** A run in which no time passes is timely. */
  lemma {:induction false} RunInNoTime(s: State, steps: seq<Step>)
    requires IsRun(s, steps) && !Ticks(steps)
    ensures TimedRun(s, steps) && TimedAfter(s, steps) == After(s, steps)
    decreases |steps|
  {
    if steps != [] {
      assert steps[0] in steps;
      assert forall step :: step in steps[1..] ==> step in steps;
      RunInNoTime(Do(s, steps[0]), steps[1..]);
    }
  }

  ghost function Served(n: nat): seq<Conn>
    requires 2 <= n
  {
    Identity(n)[2..] + [0]
  }

  /** Thread 1 has used connection 0 and waits in a flush for the one that thread 0 is using. */
  ghost predicate FlushWaits(s: State, n: nat, start: real)
    requires 2 <= n
  {
    && s.n == n && s.actors == [Using(1), Locking(ToFlush, Served(n))] && s.queue == []
    && !s.done && |s.lastUsed| == n && s.lastUsed[0] == Some(start) && s.now == start
  }

  ghost predicate Used(s: State, n: nat, start: real, queue: seq<Conn>, actors: seq<Actor>) {
    && s.n == n && s.queue == queue && s.actors == actors && !s.done && !s.poolError
    && |s.lastUsed| == n && 0 < n && s.lastUsed[0] == Some(start) && s.now == start
  }

  lemma UseOnce(n: nat, start: real) returns (steps: seq<Step>)
    requires 2 <= n
    ensures IsRun(Init(n, 2, start), steps) && !Ticks(steps)
    ensures Used(After(Init(n, 2, start), steps), n, start, Identity(n)[1..] + [0], [Idle, Idle])
  {
    var s0 := Init(n, 2, start);
    var s1 := DoMove(s0, 1, Start);
    var s2 := DoMove(s1, 1, Get);
    var s3 := DoMove(s2, 1, Release);
    var s4 := DoMove(s3, 1, Put);
    assert s4.actors == [Idle, Idle];
    RunsJoin(s3, Thread(1, Put), []);
    RunsJoin(s2, Thread(1, Release), [Thread(1, Put)] + []);
    RunsJoin(s1, Thread(1, Get), [Thread(1, Release)] + ([Thread(1, Put)] + []));
    steps := [Thread(1, Start)] + ([Thread(1, Get)] + ([Thread(1, Release)] + ([Thread(1, Put)] + [])));
    RunsJoin(s0, Thread(1, Start), [Thread(1, Get)] + ([Thread(1, Release)] + ([Thread(1, Put)] + [])));
  }

  lemma LockRest(s: State, n: nat, start: real) returns (steps: seq<Step>)
    requires 2 <= n && Used(s, n, start, Identity(n)[1..] + [0], [Idle, Idle])
    ensures IsRun(s, steps) && !Ticks(steps) && FlushWaits(After(s, steps), n, start)
  {
    var s1 := DoMove(s, 0, Start);
    var s2 := DoMove(s1, 0, Get);
    var s3 := DoMove(s2, 1, StartFlush);
    assert s2.queue == Served(n);
    assert s3.actors == [Using(1), Locking(ToFlush, [])];
    LockMany(s3, n - 1);
    assert s3.queue[..n - 1] == Served(n) && s3.queue[n - 1..] == [] && [] + Served(n) == Served(n);
    var locks := Locks(n - 1);
    RunsJoin(s2, Thread(1, StartFlush), locks);
    RunsJoin(s1, Thread(0, Get), [Thread(1, StartFlush)] + locks);
    RunsJoin(s, Thread(0, Start), [Thread(0, Get)] + ([Thread(1, StartFlush)] + locks));
    steps := [Thread(0, Start)] + ([Thread(0, Get)] + ([Thread(1, StartFlush)] + locks));
  }

  /** A flush holds a used connection that has been idle for longer than `bound`. */
  ghost predicate IdlesInFlush(s: State, t: nat, c: Conn, bound: real) {
    && t < |s.actors| && s.actors[t].Locking? && s.actors[t].purpose.ToFlush? && c in Held(s.actors[t])
    && IdleFor(s, c, bound)
  }

  /**
   * The promise that no connection becomes idle fails for every pool of two connections or more: for
   * every bound there is a timely run in which a flush, waiting for a slow request, holds a used
   * connection that has been idle for longer.
   */
  lemma WaitingFlushIdlesForever(n: nat, start: real, bound: real)
    requires 2 <= n
    ensures exists steps :: TimedRun(Init(n, 2, start), steps)
                            && IdlesInFlush(TimedAfter(Init(n, 2, start), steps), 1, 0, bound)
  {
    var s0 := Init(n, 2, start);
    var first := UseOnce(n, start);
    RunInNoTime(s0, first);
    var second := LockRest(After(s0, first), n, start);
    RunInNoTime(After(s0, first), second);
    AppendRun(s0, first, second);
    var s := TimedAfter(s0, first + second);
    assert Served(n)[n - 2] == 0;
    InitOwned(n, 2, start);
    TimedRunKeepsDated(s0, first + second);
    var rest := IdleInFlush(s, bound);
    AppendRun(s0, first + second, rest);
  }

  lemma IdleInFlush(s: State, bound: real) returns (steps: seq<Step>)
    requires Owned(s) && Attended(s) && Dated(s) && !s.done && 1 < |s.actors|
    requires s.actors[1].Locking? && s.actors[1].purpose.ToFlush? && 0 in Held(s.actors[1])
    requires 0 < s.n && s.lastUsed[0].Some?
    ensures TimedRun(s, steps) && IdlesInFlush(TimedAfter(s, steps), 1, 0, bound)
  {
    HeldIdlesAtWill(s, 1, 0, bound);
    steps :| Idles(s, steps, 0, bound);
    ThreadsStandStill(s, steps);
  }

  lemma {:induction false} ThreadsStandStill(s: State, steps: seq<Step>)
    requires TimedRun(s, steps) && KeeperAlone(steps)
    ensures TimedAfter(s, steps).actors == s.actors
    decreases |steps|
  {
    if steps != [] { ThreadsStandStill(Do(s, steps[0]), steps[1..]); }
  }
}
