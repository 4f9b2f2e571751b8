/** What the pool's records mean, told from the steps of a run alone. */
module PoolHistory {
  import opened Wrappers
  import opened Pool
  import opened PoolOwnership
  import opened PoolBarrier
  import opened PoolTiming
  import opened PoolIdle

  // ---- What the server has acknowledged

  /** The event of a step: a write that completes, or a flush that is sent. */
  ghost function EventOf(s: State, step: Step): seq<Event>
    requires Enabled(s, step)
  {
    match step
    case Thread(t, CompleteWrite) => [WriteDone(s.actors[t].conn)]
    case Thread(t, Send) => [FlushSent(s.actors[t].locked[s.actors[t].sent])]
    case Keep(KeepAlive) => [FlushSent(s.keeper.idle[s.keeper.at])]
    case _ => []
  }

  ghost function Events(s: State, steps: seq<Step>): seq<Event>
    requires IsRun(s, steps)
    decreases |steps|
  {
    if steps == [] then [] else EventOf(s, steps[0]) + Events(Do(s, steps[0]), steps[1..])
  }

  lemma {:induction false} LogIsHistory(s: State, steps: seq<Step>)
    requires IsRun(s, steps)
    ensures After(s, steps).log == s.log + Events(s, steps)
    decreases |steps|
  {
    if steps != [] {
      StepLogs(s, steps[0]);
      LogIsHistory(Do(s, steps[0]), steps[1..]);
    }
  }

  lemma StepLogs(s: State, step: Step)
    requires Enabled(s, step)
    ensures Do(s, step).log == s.log + EventOf(s, step)
  {
  }

  /**
   * The barrier, told from the run: when the send loop of a flush ends, every write that any thread
   * has completed was followed by a flush on its connection, and no request is in flight.
   */
  lemma FlushCoversHistory(n: nat, threads: nat, start: real, steps: seq<Step>, t: nat)
    requires IsRun(Init(n, threads, start), steps) && t < |After(Init(n, threads, start), steps).actors|
    requires var a := After(Init(n, threads, start), steps).actors[t]; a.Sending? && a.sent == |a.locked|
    ensures var events := Events(Init(n, threads, start), steps);
            forall i :: 0 <= i < |events| && events[i].WriteDone? ==> FlushedAfter(events, i)
    ensures var s := After(Init(n, threads, start), steps);
            forall u :: 0 <= u < |s.actors| ==> !s.actors[u].Using? && !s.actors[u].Returning?
  {
    var s := After(Init(n, threads, start), steps);
    LogIsHistory(Init(n, threads, start), steps);
    RunKeepsPoolSize(Init(n, threads, start), steps);
    assert s.log == Events(Init(n, threads, start), steps);
    assert Reachable(s);
    FlushIsBarrier(s, t);
  }

  lemma {:induction false} RunKeepsPoolSize(s: State, steps: seq<Step>)
    requires IsRun(s, steps)
    ensures After(s, steps).n == s.n && |After(s, steps).actors| == |s.actors|
    decreases |steps|
  {
    if steps != [] { RunKeepsPoolSize(Do(s, steps[0]), steps[1..]); }
  }

  // ---- The queue

  /** The connection a step takes out of the pool, as seen in the hands of whoever took it. */
  ghost function TakenBy(s: State, step: Step): seq<Conn>
    requires Enabled(s, step)
  {
    match step
    case Thread(t, Get) => Held(Do(s, step).actors[t])
    case Thread(t, Lock) => Held(Do(s, step).actors[t])[|Held(s.actors[t])|..]
    case Keep(Take) => HeldByKeeper(Do(s, step).keeper)[|HeldByKeeper(s.keeper)|..]
    case _ => []
  }

  /** The connection a step puts back into the pool. */
  ghost function ReturnedBy(s: State, step: Step): seq<Conn>
    requires Enabled(s, step)
  {
    match step
    case Thread(t, Put) => [s.actors[t].conn]
    case Thread(t, Unlock) => [s.actors[t].locked[s.actors[t].returned]]
    case Keep(PutBack) => [s.keeper.idle[s.keeper.at]]
    case _ => []
  }

  ghost function Taken(s: State, steps: seq<Step>): seq<Conn>
    requires IsRun(s, steps)
    decreases |steps|
  {
    if steps == [] then [] else TakenBy(s, steps[0]) + Taken(Do(s, steps[0]), steps[1..])
  }

  ghost function Returned(s: State, steps: seq<Step>): seq<Conn>
    requires IsRun(s, steps)
    decreases |steps|
  {
    if steps == [] then [] else ReturnedBy(s, steps[0]) + Returned(Do(s, steps[0]), steps[1..])
  }

  lemma StepIsFifo(s: State, step: Step)
    requires Enabled(s, step)
    ensures s.queue + ReturnedBy(s, step) == TakenBy(s, step) + Do(s, step).queue
  {
    if step.Thread? { MoveIsFifo(s, step.t, step.move); }
  }

  lemma MoveIsFifo(s: State, t: nat, move: Move)
    requires t < |s.actors| && CanMove(s, s.actors[t], move)
    ensures s.queue + ReturnedBy(s, Thread(t, move)) == TakenBy(s, Thread(t, move)) + DoMove(s, t, move).queue
  {
    var a, a' := s.actors[t], NextActor(s, s.actors[t], move);
    assert move.Lock? ==> Held(a')[|Held(a)|..] == [s.queue[0]];
    assert s.queue != [] ==> s.queue == [s.queue[0]] + s.queue[1..];
  }

  /** First in, first out: what has been in the pool is what has been taken, in that order, and what is left. */
  lemma {:induction false} QueueIsFifo(s: State, steps: seq<Step>)
    requires IsRun(s, steps)
    ensures s.queue + Returned(s, steps) == Taken(s, steps) + After(s, steps).queue
    decreases |steps|
  {
    if steps != [] {
      var s1, rest := Do(s, steps[0]), steps[1..];
      StepIsFifo(s, steps[0]);
      QueueIsFifo(s1, rest);
      JoinFifo(s.queue, ReturnedBy(s, steps[0]), TakenBy(s, steps[0]), s1.queue,
               Returned(s1, rest), Taken(s1, rest), After(s1, rest).queue);
    }
  }

  lemma JoinFifo(q: seq<Conn>, r: seq<Conn>, t: seq<Conn>, q1: seq<Conn>, r1: seq<Conn>, t1: seq<Conn>, q2: seq<Conn>)
    requires q + r == t + q1 && q1 + r1 == t1 + q2
    ensures q + (r + r1) == (t + t1) + q2
  {
    assert q + (r + r1) == (q + r) + r1 == t + (q1 + r1);
    assert (t + t1) + q2 == t + (t1 + q2);
  }

  // ---- The sticky error and the cleanup

  lemma {:induction false} ErrorIsFailedKeepAlive(s: State, steps: seq<Step>)
    requires IsRun(s, steps)
    ensures After(s, steps).poolError <==> s.poolError || Keep(KeepAliveFails) in steps
    ensures After(s, steps).done <==> s.done || exists t :: Thread(t, StartClose) in steps
    decreases |steps|
  {
    if steps != [] {
      var first, rest := steps[0], steps[1..];
      ErrorIsFailedKeepAlive(Do(s, first), rest);
      assert forall step :: step in steps <==> step == first || step in rest;
      assert Do(s, first).poolError <==> s.poolError || first == Keep(KeepAliveFails);
      assert Do(s, first).done <==> s.done || (first.Thread? && first.move.StartClose?);
    }
  }

  /**
   * A thread at rest may start a request or a flush exactly when no keep-alive has ever failed, and
   * the keeper may wake up exactly when no cleanup has begun.
   */
  lemma StartsExactlyWithoutError(n: nat, threads: nat, start: real, steps: seq<Step>, t: nat)
    requires IsRun(Init(n, threads, start), steps)
    ensures var s := After(Init(n, threads, start), steps);
            && (t < |s.actors| && s.actors[t].Idle? ==>
                  && (Enabled(s, Thread(t, Start)) <==> Keep(KeepAliveFails) !in steps)
                  && (Enabled(s, Thread(t, StartFlush)) <==> Keep(KeepAliveFails) !in steps))
            && (s.keeper.Asleep? ==> (Enabled(s, Keep(Wake)) <==> !exists u :: Thread(u, StartClose) in steps))
  {
    ErrorIsFailedKeepAlive(Init(n, threads, start), steps);
  }

  // ---- Closing

  /** What a closing thread is past has been closed. */
  ghost predicate ShutSoFar(s: State) {
    forall t :: 0 <= t < |s.actors| ==> ShutByActor(s.actors[t], s.shut)
  }

  ghost predicate ShutByActor(a: Actor, shut: set<Conn>) {
    && (a.Closing? && a.shut <= |a.locked| ==> forall c :: c in a.locked[..a.shut] ==> c in shut)
    && (a.Closed? ==> forall c :: c in a.locked ==> c in shut)
  }

  lemma MoveKeepsShut(s: State, a: Actor, move: Move)
    requires CanMove(s, a, move) && ShutByActor(a, s.shut)
    ensures ShutByActor(NextActor(s, a, move), if move.CloseOne? then s.shut + {a.locked[a.shut]} else s.shut)
  {
    if move.CloseOne? {
      assert a.locked[..a.shut + 1] == a.locked[..a.shut] + [a.locked[a.shut]];
    } else if move.AllClosed? {
      assert a.locked[..a.shut] == a.locked;
    }
  }

  lemma StepKeepsShut(s: State, step: Step)
    requires ShutSoFar(s) && Enabled(s, step)
    ensures ShutSoFar(Do(s, step))
  {
    if step.Thread? {
      MoveKeepsShut(s, s.actors[step.t], step.move);
      var s' := Do(s, step);
      forall t | 0 <= t < |s'.actors| ensures ShutByActor(s'.actors[t], s'.shut) {
        assert ShutByActor(s.actors[t], s.shut);
      }
    }
  }

  lemma {:induction false} RunKeepsShut(s: State, steps: seq<Step>)
    requires ShutSoFar(s) && IsRun(s, steps)
    ensures ShutSoFar(After(s, steps))
    decreases |steps|
  {
    if steps != [] {
      StepKeepsShut(s, steps[0]);
      RunKeepsShut(Do(s, steps[0]), steps[1..]);
    }
  }

  /** When the close completes every connection of the pool has been closed. */
  lemma ClosedMeansAllShut(s: State, t: nat)
    requires Reachable(s) && t < |s.actors| && s.actors[t].Closed?
    ensures forall c: Conn :: c < s.n ==> c in s.shut
  {
    ReachableIsOwned(s);
    var threads: nat, start: real, steps: seq<Step> :|
      IsRun(Init(s.n, threads, start), steps) && After(Init(s.n, threads, start), steps) == s;
    RunKeepsShut(Init(s.n, threads, start), steps);
    assert ShutByActor(s.actors[t], s.shut) && ShapedActor(s.n, s.actors[t]);
    LockedPoolIsWhole(s, t);
  }

  // ---- When a connection last carried something

  /** The connection on which a request ends or a flush is sent in this step. */
  ghost function Carries(s: State, step: Step): Option<Conn>
    requires Enabled(s, step)
  {
    match step
    case Thread(t, Release) => Some(s.actors[t].conn)
    case Thread(t, Send) => Some(s.actors[t].locked[s.actors[t].sent])
    case Keep(KeepAlive) => Some(s.keeper.idle[s.keeper.at])
    case _ => None
  }

  /** A keep-alive on the connection fails. */
  ghost predicate FailsOn(s: State, step: Step, c: Conn)
    requires Enabled(s, step)
  {
    step == Keep(KeepAliveFails) && s.keeper.idle[s.keeper.at] == c
  }

  /** When the connection last carried a request or a flush, unless a keep-alive on it has failed since. */
  ghost function Traffic(s: State, steps: seq<Step>, c: Conn, before: Option<real>): Option<real>
    requires TimedRun(s, steps)
    decreases |steps|
  {
    if steps == [] then before
    else Traffic(Do(s, steps[0]), steps[1..], c, TrafficAfter(s, steps[0], c, before))
  }

  ghost function TrafficAfter(s: State, step: Step, c: Conn, before: Option<real>): Option<real>
    requires Enabled(s, step)
  {
    if Carries(s, step) == Some(c) then Some(s.now) else if FailsOn(s, step, c) then None else before
  }

  /** Some wake-up since the connection was last used or looked at found it in the hands of a thread. */
  ghost function Overlooked(s: State, steps: seq<Step>, c: Conn, before: bool): bool
    requires TimedRun(s, steps)
    decreases |steps|
  {
    if steps == [] then before
    else Overlooked(Do(s, steps[0]), steps[1..], c, OverlookedAfter(s, steps[0], c, before))
  }

  ghost predicate OverlookedAfter(s: State, step: Step, c: Conn, before: bool)
    requires Enabled(s, step)
  {
    if Carries(s, step) == Some(c) || (step == Keep(Skip) && s.keeper.idle[s.keeper.at] == c) then false
    else before || (step == Keep(Emptied) && HeldByThread(s, c))
  }

  lemma MoveRecords(s: State, t: nat, move: Move, c: Conn)
    requires Owned(s) && t < |s.actors| && CanMove(s, s.actors[t], move) && c < s.n
    ensures var s' := DoMove(s, t, move);
            && s'.lastUsed[c] == TrafficAfter(s, Thread(t, move), c, s.lastUsed[c])
            && (c in s'.missed <==> OverlookedAfter(s, Thread(t, move), c, c in s.missed))
  {
  }

  lemma ChoreRecords(s: State, chore: Chore, c: Conn)
    requires Owned(s) && Attended(s) && CanKeep(s, chore) && c < s.n
    ensures var s' := DoChore(s, chore);
            && s'.lastUsed[c] == TrafficAfter(s, Keep(chore), c, s.lastUsed[c])
            && (c in s'.missed <==> OverlookedAfter(s, Keep(chore), c, c in s.missed))
  {
    if chore.Emptied? {
      if HeldByThread(s, c) {
        var t :| 0 <= t < |s.actors| && c in Held(s.actors[t]);
        OnlyHolder(s, t, c);
      } else {
        InPoolOrWithKeeper(s, c);
      }
    }
  }

  lemma StepRecords(s: State, step: Step, c: Conn)
    requires Owned(s) && Attended(s) && Enabled(s, step) && c < s.n
    ensures var s' := Do(s, step);
            && s'.n == s.n && |s'.lastUsed| == |s.lastUsed|
            && s'.lastUsed[c] == TrafficAfter(s, step, c, s.lastUsed[c])
            && (c in s'.missed <==> OverlookedAfter(s, step, c, c in s.missed))
  {
    if step.Thread? {
      MoveRecords(s, step.t, step.move, c);
    } else if step.Keep? {
      ChoreRecords(s, step.chore, c);
    }
  }

  /** The records `last_used` and the book-keeping of wake-ups say just what the run says. */
  lemma {:induction false} RecordsAreHistory(s: State, steps: seq<Step>, c: Conn)
    requires Owned(s) && Attended(s) && TimedRun(s, steps) && c < s.n
    ensures var s' := TimedAfter(s, steps);
            && s'.n == s.n && Owned(s') && Attended(s')
            && s'.lastUsed[c] == Traffic(s, steps, c, s.lastUsed[c])
            && (c in s'.missed <==> Overlooked(s, steps, c, c in s.missed))
    decreases |steps|
  {
    if steps != [] {
      var step := steps[0];
      StepKeepsOwned(s, step);
      StepKeepsAttended(s, step);
      StepRecords(s, step, c);
      RecordsAreHistory(Do(s, step), steps[1..], c);
    }
  }

  // ---- The timing of the keeper, in terms of traffic

  ghost function TrafficOn(n: nat, threads: nat, start: real, steps: seq<Step>, c: Conn): Option<real>
    requires TimedRun(Init(n, threads, start), steps)
  {
    Traffic(Init(n, threads, start), steps, c, None)
  }

  ghost predicate OverlookedOn(n: nat, threads: nat, start: real, steps: seq<Step>, c: Conn)
    requires TimedRun(Init(n, threads, start), steps)
  {
    Overlooked(Init(n, threads, start), steps, c, false)
  }

  lemma RunRecords(n: nat, threads: nat, start: real, steps: seq<Step>, c: Conn)
    requires TimedRun(Init(n, threads, start), steps) && c < n
    ensures var s := TimedAfter(Init(n, threads, start), steps);
            && s.n == n && Owned(s) && Attended(s) && Dated(s) && TimelyReachable(s)
            && s.lastUsed[c] == TrafficOn(n, threads, start, steps, c)
            && (c in s.missed <==> OverlookedOn(n, threads, start, steps, c))
  {
    InitOwned(n, threads, start);
    RecordsAreHistory(Init(n, threads, start), steps, c);
    TimedRunKeepsDated(Init(n, threads, start), steps);
    assert TimelyReachable(TimedAfter(Init(n, threads, start), steps));
  }

  /**
   * With the keeper on time, at every moment of every run a connection that has carried a request or
   * a flush has been idle since for at most 45 seconds, below the limit of the server, unless a thread
   * held it at a wake-up since or its keep-alive failed.
   */
  lemma IdleTimeIsBounded(n: nat, threads: nat, start: real, steps: seq<Step>, c: Conn)
    requires TimedRun(Init(n, threads, start), steps) && c < n
    requires TrafficOn(n, threads, start, steps, c).Some? && !OverlookedOn(n, threads, start, steps, c)
    ensures var s := TimedAfter(Init(n, threads, start), steps);
            s.now - TrafficOn(n, threads, start, steps, c).value <= IDLE_TIMEOUT + WAKE_INTERVAL < SERVER_LIMIT
  {
    RunRecords(n, threads, start, steps, c);
    TrackedIsBounded(n, threads, start, steps, c);
  }

  /** The keeper flushes a connection exactly when it has been idle for more than 30 seconds. */
  lemma KeepsAliveExactlyWhenIdle(n: nat, threads: nat, start: real, steps: seq<Step>)
    requires TimedRun(Init(n, threads, start), steps)
    ensures var s := TimedAfter(Init(n, threads, start), steps);
            s.keeper.Serving? && s.keeper.at < |s.keeper.idle| && s.keeper.idle[s.keeper.at] < n ==>
              var last := TrafficOn(n, threads, start, steps, s.keeper.idle[s.keeper.at]);
              && (Enabled(s, Keep(KeepAlive)) <==> last.Some? && s.now - last.value > IDLE_TIMEOUT)
              && (Enabled(s, Keep(Skip)) <==> !(last.Some? && s.now - last.value > IDLE_TIMEOUT))
  {
    var s := TimedAfter(Init(n, threads, start), steps);
    if s.keeper.Serving? && s.keeper.at < |s.keeper.idle| && s.keeper.idle[s.keeper.at] < n {
      RunRecords(n, threads, start, steps, s.keeper.idle[s.keeper.at]);
      ServesByRecord(s);
    }
  }

  lemma ServesByRecord(s: State)
    requires Attended(s) && |s.lastUsed| == s.n
    requires s.keeper.Serving? && s.keeper.at < |s.keeper.idle| && s.keeper.idle[s.keeper.at] < s.n
    ensures var last := s.lastUsed[s.keeper.idle[s.keeper.at]];
            && (Enabled(s, Keep(KeepAlive)) <==> last.Some? && s.now - last.value > IDLE_TIMEOUT)
            && (Enabled(s, Keep(Skip)) <==> !(last.Some? && s.now - last.value > IDLE_TIMEOUT))
  {
  }

  /** After `past`, a timely keeper on its own may leave the connection idle for longer than `bound`. */
  ghost predicate CanIdleAfter(n: nat, threads: nat, start: real, past: seq<Step>, c: Conn, bound: real) {
    exists steps :: IdlesAfter(n, threads, start, past, steps, c, bound)
  }

  ghost predicate IdlesAfter(n: nat, threads: nat, start: real, past: seq<Step>, steps: seq<Step>, c: Conn, bound: real) {
    && KeeperAlone(steps) && TimedRun(Init(n, threads, start), past + steps)
    && var last := TrafficOn(n, threads, start, past + steps, c);
       last.Some? && TimedAfter(Init(n, threads, start), past + steps).now - last.value > bound
  }

  lemma {:induction false} SplitRun(s: State, u: seq<Step>, v: seq<Step>)
    requires TimedRun(s, u + v)
    ensures TimedRun(s, u) && TimedRun(TimedAfter(s, u), v)
    decreases |u|
  {
    if u == [] {
      assert u + v == v;
    } else {
      assert (u + v)[1..] == u[1..] + v;
      SplitRun(Do(s, u[0]), u[1..], v);
    }
  }

  lemma SameIdling(n: nat, threads: nat, start: real, past: seq<Step>, c: Conn, bound: real)
    requires TimedRun(Init(n, threads, start), past) && c < n
    ensures CanIdleAfter(n, threads, start, past, c, bound) <==>
            CanIdle(TimedAfter(Init(n, threads, start), past), c, bound)
  {
    var s0 := Init(n, threads, start);
    var s := TimedAfter(s0, past);
    if steps :| IdlesAfter(n, threads, start, past, steps, c, bound) {
      SplitRun(s0, past, steps);
      AppendRun(s0, past, steps);
      RunRecords(n, threads, start, past + steps, c);
      assert Idles(s, steps, c, bound);
    }
    if steps :| Idles(s, steps, c, bound) {
      AppendRun(s0, past, steps);
      RunRecords(n, threads, start, past + steps, c);
      assert IdlesAfter(n, threads, start, past, steps, c, bound);
    }
  }

  /**
   * The exact condition, in terms of traffic: after every timely run before the cleanup, a connection
   * that has carried something can, with the threads standing still, be idle for longer than every
   * bound exactly when a thread holds it; and if no wake-up has overlooked it, for longer than 45
   * seconds exactly then too.
   */
  lemma IdlesOnlyInHands(n: nat, threads: nat, start: real, past: seq<Step>, c: Conn)
    requires TimedRun(Init(n, threads, start), past) && !TimedAfter(Init(n, threads, start), past).done && c < n
    requires TrafficOn(n, threads, start, past, c).Some?
    ensures var held := HeldByThread(TimedAfter(Init(n, threads, start), past), c);
            && ((forall bound :: CanIdleAfter(n, threads, start, past, c, bound)) <==> held)
            && (!OverlookedOn(n, threads, start, past, c) ==>
                  (CanIdleAfter(n, threads, start, past, c, IDLE_TIMEOUT + WAKE_INTERVAL) <==> held))
  {
    RunRecords(n, threads, start, past, c);
    IdlesExactlyWhenHeld(TimedAfter(Init(n, threads, start), past), c);
    forall bound ensures CanIdleAfter(n, threads, start, past, c, bound) <==>
                         CanIdle(TimedAfter(Init(n, threads, start), past), c, bound)
    {
      SameIdling(n, threads, start, past, c, bound);
    }
  }
}
