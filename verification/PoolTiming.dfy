/** How long a connection can stay idle when the keeper runs on time. */
module PoolTiming {
  import opened Wrappers
  import opened Pool
  import opened PoolOwnership

  /** Time passes only while the keeper sleeps, never past its next wake-up, and before cleanup. */
  ghost predicate OnTime(s: State, step: Step) {
    && Enabled(s, step)
    && (step.Tick? ==> s.keeper.Asleep? && !s.done && s.now + step.dt <= s.lastWake + WAKE_INTERVAL)
  }

  ghost predicate TimedRun(s: State, steps: seq<Step>)
    decreases |steps|
  {
    steps == [] || (OnTime(s, steps[0]) && TimedRun(Do(s, steps[0]), steps[1..]))
  }

  ghost function TimedAfter(s: State, steps: seq<Step>): State
    requires TimedRun(s, steps)
    decreases |steps|
  {
    if steps == [] then s else TimedAfter(Do(s, steps[0]), steps[1..])
  }

  /** The connections the keeper has drained in this pass and not looked at yet. */
  ghost function Ahead(k: Keeper): seq<Conn> {
    match k
    case Serving(idle, at, _) => if at <= |idle| then idle[at..] else []
    case Putting(idle, at, _) => if at + 1 <= |idle| then idle[at + 1..] else []
    case _ => []
  }

  /** The bound on the idle time of a connection in this state. */
  ghost function Limit(s: State, c: Conn): real {
    if s.keeper.Serving? || s.keeper.Putting? then
      if c in Ahead(s.keeper) then IDLE_TIMEOUT + WAKE_INTERVAL else IDLE_TIMEOUT
    else IDLE_TIMEOUT + (s.now - s.lastWake)
  }

  /** A connection that has been in use, whose last use is on record. */
  ghost predicate Tracked(s: State, c: Conn) {
    c < s.n && c < |s.lastUsed| && c !in s.missed && s.lastUsed[c].Some?
  }

  ghost predicate Attended(s: State) {
    && s.lastWake <= s.now <= s.lastWake + WAKE_INTERVAL
    && ((s.keeper.Serving? || s.keeper.Putting?) ==> s.keeper.now == s.now)
    && (forall c: Conn :: Tracked(s, c) ==> s.now - s.lastUsed[c].value <= Limit(s, c))
  }

  lemma MoveKeepsAttended(s: State, t: nat, move: Move)
    requires Attended(s) && t < |s.actors| && CanMove(s, s.actors[t], move)
    ensures Attended(DoMove(s, t, move))
  {
    var s' := DoMove(s, t, move);
    forall c: Conn | Tracked(s', c) ensures s'.now - s'.lastUsed[c].value <= Limit(s', c) {
      if Touched(s.actors[t], move) != Some(c) { assert Tracked(s, c); }
    }
  }

  lemma ServeKeepsAttended(s: State, chore: Chore)
    requires Attended(s) && Shaped(s) && CanKeep(s, chore)
    requires chore.Skip? || chore.KeepAlive? || chore.KeepAliveFails?
    ensures Attended(DoChore(s, chore))
  {
    var s', k := DoChore(s, chore), s.keeper;
    forall c: Conn | Tracked(s', c) ensures s'.now - s'.lastUsed[c].value <= Limit(s', c) {
      if c == k.idle[k.at] {
        assert chore.Skip? ==> !Expired(s.lastUsed[c], s.now);
      } else {
        assert Tracked(s, c);
        assert c in k.idle[k.at..] ==> c in k.idle[k.at + 1..] by {
          assert k.idle[k.at..] == [k.idle[k.at]] + k.idle[k.at + 1..];
        }
      }
    }
  }

  lemma EmptiedKeepsAttended(s: State)
    requires Attended(s) && CanKeep(s, Emptied)
    ensures Attended(DoChore(s, Emptied))
  {
    var s', idle := DoChore(s, Emptied), s.keeper.idle;
    forall c: Conn | Tracked(s', c) ensures s'.now - s'.lastUsed[c].value <= Limit(s', c) {
      assert Tracked(s, c) && c in idle;
      assert idle[0..] == idle;
    }
  }

  lemma PutBackKeepsAttended(s: State)
    requires Attended(s) && Shaped(s) && CanKeep(s, PutBack)
    ensures Attended(DoChore(s, PutBack))
  {
    var s', k := DoChore(s, PutBack), s.keeper;
    assert Ahead(s'.keeper) == Ahead(k);
    forall c: Conn | Tracked(s', c) ensures s'.now - s'.lastUsed[c].value <= Limit(s', c) {
      assert Tracked(s, c);
    }
  }

  lemma ChoreKeepsAttended(s: State, chore: Chore)
    requires Attended(s) && Shaped(s) && CanKeep(s, chore)
    ensures Attended(DoChore(s, chore))
  {
    if chore.Skip? || chore.KeepAlive? || chore.KeepAliveFails? {
      ServeKeepsAttended(s, chore);
    } else if chore.Emptied? {
      EmptiedKeepsAttended(s);
    } else if chore.PutBack? {
      PutBackKeepsAttended(s);
    } else {
      var s' := DoChore(s, chore);
      assert forall c: Conn :: Tracked(s', c) ==> Tracked(s, c) && Limit(s', c) == Limit(s, c);
    }
  }

  lemma TickKeepsAttended(s: State, dt: real)
    requires Attended(s) && OnTime(s, Tick(dt))
    ensures Attended(Do(s, Tick(dt)))
  {
    var s' := Do(s, Tick(dt));
    assert forall c: Conn :: Tracked(s', c) ==> Tracked(s, c) && Limit(s', c) == Limit(s, c) + dt;
  }

  lemma StepKeepsAttended(s: State, step: Step)
    requires Attended(s) && Owned(s) && OnTime(s, step)
    ensures Attended(Do(s, step))
  {
    match step
    case Thread(t, move) => MoveKeepsAttended(s, t, move);
    case Keep(chore) => ChoreKeepsAttended(s, chore);
    case Tick(dt) => TickKeepsAttended(s, dt);
  }

  lemma {:induction false} TimedRunKeepsAttended(s: State, steps: seq<Step>)
    requires TimedRun(s, steps) && Owned(s) && Attended(s)
    ensures Attended(TimedAfter(s, steps))
    decreases |steps|
  {
    if steps != [] {
      StepKeepsOwned(s, steps[0]);
      StepKeepsAttended(s, steps[0]);
      TimedRunKeepsAttended(Do(s, steps[0]), steps[1..]);
    }
  }

  /** With the keeper on time, a tracked connection has been idle for at most 45 seconds by its record. */
  lemma TrackedIsBounded(n: nat, threads: nat, start: real, steps: seq<Step>, c: Conn)
    requires TimedRun(Init(n, threads, start), steps)
    requires Tracked(TimedAfter(Init(n, threads, start), steps), c)
    ensures var s := TimedAfter(Init(n, threads, start), steps);
            s.now - s.lastUsed[c].value <= IDLE_TIMEOUT + WAKE_INTERVAL < SERVER_LIMIT
  {
    InitOwned(n, threads, start);
    TimedRunKeepsAttended(Init(n, threads, start), steps);
  }

  lemma {:induction false} HolderExists(actors: seq<Actor>, c: Conn) returns (t: nat)
    requires c in HeldByAll(actors)
    ensures t < |actors| && c in Held(actors[t])
  {
    var mine, rest := Held(actors[0]), actors[1..];
    InSum(multiset(mine), HeldByAll(rest), c);
    if c in mine {
      t := 0;
    } else {
      t := HolderExists(rest, c);
      assert rest[t] == actors[t + 1];
      t := t + 1;
    }
  }

  lemma InSum(a: multiset<Conn>, b: multiset<Conn>, c: Conn)
    ensures c in a + b <==> c in a || c in b
  {
  }

  lemma SomewhereElse(s: State, c: Conn)
    requires Owned(s) && c < s.n && c !in s.queue && c !in HeldByKeeper(s.keeper)
    ensures c in HeldByAll(s.actors)
  {
    AllHasEachOnce(s.n);
    assert All(s.n)[c] == multiset(s.queue)[c] + HeldByAll(s.actors)[c] + multiset(HeldByKeeper(s.keeper))[c];
  }

  lemma MissedByEmptied(s: State, step: Step, c: Conn)
    requires Enabled(s, step) && c !in s.missed && c in Do(s, step).missed
    ensures step == Keep(Emptied) && c < s.n && c !in HeldByKeeper(s.keeper) && s.queue == []
  {
  }

  /** A connection is missed at a wake-up only because some thread holds it then. */
  lemma OnlyHeldAreMissed(s: State, step: Step, c: Conn)
    requires Owned(s) && Enabled(s, step) && c !in s.missed && c in Do(s, step).missed
    ensures step == Keep(Emptied) && exists t :: 0 <= t < |s.actors| && c in Held(s.actors[t])
  {
    MissedByEmptied(s, step, c);
    SomewhereElse(s, c);
    var t := HolderExists(s.actors, c);
  }
}
