/**
 * When what has been begun on the pool can still be finished: exactly when no two threads are in each
 * other's way for good.
 */
module PoolProgress {
  import opened Pool
  import opened PoolOwnership
  import opened PoolBarrier

  /** The step goes on with something begun, rather than beginning something or letting time pass. */
  predicate Continues(step: Step) {
    match step
    case Thread(_, move) => !move.Start? && !move.StartFlush? && !move.StartClose?
    case Keep(chore) => !chore.Wake? && !chore.Stop?
    case Tick(_) => false
  }

  predicate BusyActor(a: Actor) {
    !a.Idle? && !a.Closed?
  }

  predicate AtRest(k: Keeper) {
    k.Asleep? || k.Stopped?
  }

  ghost predicate Busy(s: State) {
    (exists t :: 0 <= t < |s.actors| && BusyActor(s.actors[t])) || !AtRest(s.keeper)
  }

  // ---- Threads in each other's way

  /** A thread that is in the middle of locking, short of some connection. */
  predicate Short(n: nat, a: Actor) {
    a.Locking? && |a.locked| < n
  }

  /** A lock-all operation that has some of the connections, but not all. */
  predicate Grabbing(n: nat, a: Actor) {
    Short(n, a) && a.locked != []
  }

  predicate Closer(a: Actor) {
    (a.Locking? && a.purpose.ToClose?) || a.Closing? || a.Closed?
  }

  /** A close that has got hold of a connection, which it will never give back. */
  ghost predicate Keeps(a: Actor) {
    Closer(a) && Held(a) != []
  }

  /**
   * Two lock-all operations that each have some of the connections; a close that has one and a thread
   * that wants them all; a close that has them all and a thread that wants one.
   */
  ghost predicate Clash(n: nat, a: Actor, b: Actor) {
    || (Grabbing(n, a) && Grabbing(n, b))
    || (Keeps(a) && b.Locking?)
    || (Keeps(a) && |Held(a)| == n && b.Waiting?)
  }

  ghost predicate ClashAt(s: State, t: nat, u: nat) {
    t < |s.actors| && u < |s.actors| && t != u && Clash(s.n, s.actors[t], s.actors[u])
  }

  ghost predicate Clashing(s: State) {
    exists t: nat, u: nat :: ClashAt(s, t, u)
  }

  // ---- A clash is for good

  lemma RoomForTwo(s: State, t: nat, u: nat)
    requires Owned(s) && t < |s.actors| && u < |s.actors| && t != u
    ensures |s.queue| + |Held(s.actors[t])| + |Held(s.actors[u])| <= s.n
  {
    AllHasEachOnce(s.n);
    WithoutOne(s.actors, t);
    var others := s.actors[t := Idle];
    WithoutOne(others, u);
    assert others[u] == s.actors[u];
    var q, h, k := multiset(s.queue), HeldByAll(s.actors), multiset(HeldByKeeper(s.keeper));
    assert |q + h + k| == |q| + |h| + |k| && |q| == |s.queue|;
  }

  /** Neither thread of a clash can move out of it. */
  lemma MoveKeepsClash(s: State, a: Actor, b: Actor, move: Move)
    requires 1 <= s.n && ShapedActor(s.n, a) && ShapedActor(s.n, b)
    requires |s.queue| + |Held(a)| + |Held(b)| <= s.n && Clash(s.n, a, b)
    ensures CanMove(s, a, move) ==> Clash(s.n, NextActor(s, a, move), b)
    ensures CanMove(s, b, move) ==> Clash(s.n, a, NextActor(s, b, move))
  {
  }

  /** What a step does to one thread. */
  lemma StepOfThread(s: State, step: Step, t: nat)
    requires Enabled(s, step) && t < |s.actors|
    ensures var s' := Do(s, step);
            && s'.n == s.n && |s'.actors| == |s.actors|
            && if step.Thread? && step.t == t then
                 CanMove(s, s.actors[t], step.move) && s'.actors[t] == NextActor(s, s.actors[t], step.move)
               else s'.actors[t] == s.actors[t]
  {
  }

  lemma StepKeepsClash(s: State, step: Step, t: nat, u: nat)
    requires 1 <= s.n && Owned(s) && ClashAt(s, t, u) && Enabled(s, step)
    ensures ClashAt(Do(s, step), t, u)
  {
    StepOfThread(s, step, t);
    StepOfThread(s, step, u);
    RoomForTwo(s, t, u);
    assert ShapedActor(s.n, s.actors[t]) && ShapedActor(s.n, s.actors[u]);
    if step.Thread? { MoveKeepsClash(s, s.actors[t], s.actors[u], step.move); }
  }

  /** Whatever anybody does, a clash stays, and its second thread never gets done. */
  lemma {:induction false} ClashIsForever(s: State, steps: seq<Step>, t: nat, u: nat)
    requires 1 <= s.n && Owned(s) && ClashAt(s, t, u) && IsRun(s, steps)
    ensures ClashAt(After(s, steps), t, u)
    ensures After(s, steps).actors[u].Locking? || After(s, steps).actors[u].Waiting?
    ensures Busy(After(s, steps))
    decreases |steps|
  {
    if steps == [] {
      assert BusyActor(s.actors[u]);
    } else {
      StepKeepsClash(s, steps[0], t, u);
      StepKeepsOwned(s, steps[0]);
      ClashIsForever(Do(s, steps[0]), steps[1..], t, u);
    }
  }

  // ---- Only one thread ever closes

  ghost predicate OneCloser(s: State) {
    && (forall t :: 0 <= t < |s.actors| && Closer(s.actors[t]) ==> s.done)
    && (forall t, u :: 0 <= t < u < |s.actors| ==> !(Closer(s.actors[t]) && Closer(s.actors[u])))
  }

  lemma StepKeepsOneCloser(s: State, step: Step)
    requires OneCloser(s) && Enabled(s, step)
    ensures OneCloser(Do(s, step))
  {
    if step.Thread? { BecomesCloser(s, s.actors[step.t], step.move); }
  }

  lemma BecomesCloser(s: State, a: Actor, move: Move)
    requires CanMove(s, a, move)
    ensures Closer(NextActor(s, a, move)) <==> Closer(a) || move.StartClose?
  {
  }

  lemma {:induction false} RunKeepsOneCloser(s: State, steps: seq<Step>)
    requires OneCloser(s) && IsRun(s, steps)
    ensures OneCloser(After(s, steps))
    decreases |steps|
  {
    if steps != [] {
      StepKeepsOneCloser(s, steps[0]);
      RunKeepsOneCloser(Do(s, steps[0]), steps[1..]);
    }
  }

  lemma ReachableHasOneCloser(s: State)
    requires Reachable(s)
    ensures OneCloser(s)
  {
    var threads: nat, start: real, steps: seq<Step> :|
      IsRun(Init(s.n, threads, start), steps) && After(Init(s.n, threads, start), steps) == s;
    RunKeepsOneCloser(Init(s.n, threads, start), steps);
  }

  // ---- The work left

  function Left(n: nat, k: nat): nat { if k <= n then n - k else 0 }

  /** A bound on the moves a thread still makes before it is at rest. */
  function Rank(n: nat, a: Actor): nat {
    match a
    case Idle => 0
    case Waiting => 3
    case Using(_) => 2
    case Returning(_) => 1
    case Locking(_, locked) => 2 * n + 3 + Left(n, |locked|)
    case Sending(_, k) => Left(n, k) + n + 2
    case Unlocking(_, k) => Left(n, k) + 1
    case Closing(_, k) => Left(n, k) + 1
    case Closed(_) => 0
  }

  function Work(n: nat, actors: seq<Actor>): nat {
    if actors == [] then 0 else Rank(n, actors[0]) + Work(n, actors[1..])
  }

  lemma {:induction false} WorkAfter(n: nat, actors: seq<Actor>, t: nat, a: Actor)
    requires t < |actors|
    ensures Work(n, actors[t := a]) == Work(n, actors) - Rank(n, actors[t]) + Rank(n, a)
  {
    if t == 0 {
      assert actors[0 := a][1..] == actors[1..];
    } else {
      assert actors[t := a][1..] == actors[1..][t - 1 := a];
      WorkAfter(n, actors[1..], t - 1, a);
    }
  }

  /** The same for the keeper's pass. */
  function KeeperWork(s: State): nat {
    match s.keeper
    case Asleep => 0
    case Stopped => 0
    case Draining(idle) => 3 * |s.queue| + 2 * |idle| + 1
    case Serving(idle, at, _) => 2 * Left(|idle|, at)
    case Putting(idle, at, _) => if at < |idle| then 2 * (|idle| - at) - 1 else 0
  }

  /** A step on the way to rest, and into no clash. */
  ghost predicate Advances(s: State, step: Step) {
    && Enabled(s, step) && Continues(step)
    && var s' := Do(s, step);
       && s'.n == s.n && !Clashing(s')
       && Work(s'.n, s'.actors) <= Work(s.n, s.actors)
       && (Work(s'.n, s'.actors) == Work(s.n, s.actors) ==> KeeperWork(s') < KeeperWork(s))
  }

  // ---- Who can take the next step

  function NextChore(s: State): Chore
    requires Shaped(s) && !AtRest(s.keeper)
    requires s.keeper.Serving? ==> s.keeper.idle[s.keeper.at] < s.n
  {
    match s.keeper
    case Draining(_) => if s.queue == [] then Emptied else Take
    case Serving(idle, at, now) => if Expired(s.lastUsed[idle[at]], now) then KeepAlive else Skip
    case Putting(_, _, _) => PutBack
  }

  lemma KeeperHoldsPooled(s: State)
    requires Owned(s) && s.keeper.Serving?
    ensures s.keeper.idle[s.keeper.at] < s.n
  {
    AllHasEachOnce(s.n);
    var c := s.keeper.idle[s.keeper.at];
    assert s.keeper.idle[s.keeper.at..][0] == c;
    assert c in multiset(HeldByKeeper(s.keeper));
    assert All(s.n)[c] == multiset(s.queue)[c] + HeldByAll(s.actors)[c] + multiset(HeldByKeeper(s.keeper))[c];
  }

  lemma KeeperCanGoOn(s: State)
    requires Owned(s) && !AtRest(s.keeper)
    ensures s.keeper.Serving? ==> s.keeper.idle[s.keeper.at] < s.n
    ensures s.keeper.Putting? ==> |s.queue| < s.n
  {
    if s.keeper.Serving? {
      KeeperHoldsPooled(s);
    } else if s.keeper.Putting? {
      assert s.keeper.idle[s.keeper.at] in HeldByKeeper(s.keeper);
      PutNeverBlocks(s);
    }
  }

  /** The keeper can always go on with a pass. */
  lemma KeeperAdvances(s: State)
    requires Owned(s) && !Clashing(s) && !AtRest(s.keeper)
    ensures exists step :: Advances(s, step)
  {
    KeeperCanGoOn(s);
    ChoreLowersWork(s);
    SameClashes(s, Do(s, Keep(NextChore(s))));
    assert Advances(s, Keep(NextChore(s)));
  }

  lemma ChoreLowersWork(s: State)
    requires Shaped(s) && !AtRest(s.keeper) && (s.keeper.Serving? ==> s.keeper.idle[s.keeper.at] < s.n)
    requires s.keeper.Putting? ==> |s.queue| < s.n
    ensures CanKeep(s, NextChore(s)) && Continues(Keep(NextChore(s)))
    ensures var s' := DoChore(s, NextChore(s));
            s'.n == s.n && s'.actors == s.actors && KeeperWork(s') < KeeperWork(s)
  {
  }

  lemma SameClashes(s: State, s': State)
    requires s'.n == s.n && s'.actors == s.actors && !Clashing(s)
    ensures !Clashing(s')
  {
    forall t, u ensures !ClashAt(s', t, u) { assert !ClashAt(s, t, u); }
  }

  /** The move a busy thread makes next. */
  function NextMove(n: nat, a: Actor): Move {
    match a
    case Using(_) => Release
    case Returning(_) => Put
    case Locking(_, locked) => if |locked| == n then Locked else Lock
    case Sending(locked, k) => if k < |locked| then Send else Sent
    case Unlocking(locked, k) => if k < |locked| then Unlock else Unlocked
    case Closing(locked, k) => if k < |locked| then CloseOne else AllClosed
    case _ => Get
  }

  predicate Waits(n: nat, a: Actor) {
    a.Waiting? || Short(n, a)
  }

  lemma ThreadCanMove(s: State, t: nat)
    requires Owned(s) && t < |s.actors| && BusyActor(s.actors[t])
    requires s.queue != [] || !Waits(s.n, s.actors[t])
    ensures Enabled(s, Thread(t, NextMove(s.n, s.actors[t])))
    ensures Continues(Thread(t, NextMove(s.n, s.actors[t])))
  {
    var a := s.actors[t];
    assert ShapedActor(s.n, a);
    PutNeverBlocks(s);
    if a.Using? { HeldIsPooled(s, t, a.conn); }
    if a.Sending? && a.sent < |a.locked| { HeldIsPooled(s, t, a.locked[a.sent]); }
    if a.Unlocking? && a.returned < |a.locked| { assert a.locked[a.returned..] != []; }
  }

  lemma MoveLowersRank(s: State, a: Actor)
    requires ShapedActor(s.n, a) && BusyActor(a) && CanMove(s, a, NextMove(s.n, a))
    ensures Rank(s.n, NextActor(s, a, NextMove(s.n, a))) < Rank(s.n, a)
  {
  }

  /** A thread that advances and takes part in no new clash advances the whole pool. */
  lemma ThreadAdvances(s: State, t: nat)
    requires Owned(s) && t < |s.actors| && BusyActor(s.actors[t]) && !Clashing(s)
    requires s.queue != [] || !Waits(s.n, s.actors[t])
    requires var a := s.actors[t];
             var a' := if CanMove(s, a, NextMove(s.n, a)) then NextActor(s, a, NextMove(s.n, a)) else a;
             forall u :: 0 <= u < |s.actors| && u != t ==>
               !Clash(s.n, a', s.actors[u]) && !Clash(s.n, s.actors[u], a')
    ensures exists step :: Advances(s, step)
  {
    var a := s.actors[t];
    var move := NextMove(s.n, a);
    var step := Thread(t, move);
    ThreadCanMove(s, t);
    assert ShapedActor(s.n, a);
    MoveLowersRank(s, a);
    WorkAfter(s.n, s.actors, t, NextActor(s, a, move));
    var s' := Do(s, step);
    forall i, j ensures !ClashAt(s', i, j) { assert !ClashAt(s, i, j); }
    assert Advances(s, step);
  }

  /** Who does not wait for a connection is in nobody's way after the next move, if not before. */
  lemma MoveIsTame(s: State, a: Actor, b: Actor)
    requires 1 <= s.n && ShapedActor(s.n, a) && CanMove(s, a, NextMove(s.n, a)) && BusyActor(a) && !Short(s.n, a)
    ensures Clash(s.n, NextActor(s, a, NextMove(s.n, a)), b) ==> Clash(s.n, a, b)
    ensures Clash(s.n, b, NextActor(s, a, NextMove(s.n, a))) ==> Clash(s.n, b, a)
  {
  }

  lemma TameThreadAdvances(s: State, t: nat)
    requires 1 <= s.n && Owned(s) && !Clashing(s) && t < |s.actors| && BusyActor(s.actors[t])
    requires !Short(s.n, s.actors[t]) && (s.queue != [] || !s.actors[t].Waiting?)
    ensures exists step :: Advances(s, step)
  {
    ThreadCanMove(s, t);
    assert ShapedActor(s.n, s.actors[t]);
    forall u | 0 <= u < |s.actors| && u != t
      ensures !Clash(s.n, NextActor(s, s.actors[t], NextMove(s.n, s.actors[t])), s.actors[u])
      ensures !Clash(s.n, s.actors[u], NextActor(s, s.actors[t], NextMove(s.n, s.actors[t])))
    {
      assert !ClashAt(s, t, u) && !ClashAt(s, u, t);
      MoveIsTame(s, s.actors[t], s.actors[u]);
    }
    ThreadAdvances(s, t);
  }

  /** A locking thread may take one more connection if nobody else is at it. */
  lemma LockerAdvances(s: State, t: nat)
    requires 1 <= s.n && Owned(s) && !Clashing(s) && t < |s.actors| && Short(s.n, s.actors[t]) && s.queue != []
    requires forall u :: 0 <= u < |s.actors| && u != t ==> !Grabbing(s.n, s.actors[u]) && !s.actors[u].Waiting?
    requires Closer(s.actors[t]) ==> forall u :: 0 <= u < |s.actors| && u != t ==> !s.actors[u].Locking?
    ensures exists step :: Advances(s, step)
  {
    ThreadCanMove(s, t);
    forall u | 0 <= u < |s.actors| && u != t
      ensures !Clash(s.n, NextActor(s, s.actors[t], Lock), s.actors[u])
      ensures !Clash(s.n, s.actors[u], NextActor(s, s.actors[t], Lock))
    {
      assert !ClashAt(s, t, u) && !ClashAt(s, u, t);
    }
    ThreadAdvances(s, t);
  }

  // ---- Somebody always can

  /** Every thread is at rest or waits for a connection, and so does the keeper. */
  ghost predicate AllWait(s: State) {
    && AtRest(s.keeper)
    && (forall t :: 0 <= t < |s.actors| && BusyActor(s.actors[t]) ==> Waits(s.n, s.actors[t]))
  }

  lemma {:induction false} EmptyHands(actors: seq<Actor>)
    requires forall t :: 0 <= t < |actors| ==> Held(actors[t]) == []
    ensures HeldByAll(actors) == multiset{}
  {
    if actors != [] { EmptyHands(actors[1..]); }
  }

  lemma SomebodyHolds(actors: seq<Actor>) returns (t: nat)
    requires HeldByAll(actors) != multiset{}
    ensures t < |actors| && Held(actors[t]) != []
  {
    if forall t :: 0 <= t < |actors| ==> Held(actors[t]) == [] { EmptyHands(actors); }
    t :| 0 <= t < |actors| && Held(actors[t]) != [];
  }

  /** If threads hold all the connections but none holds them all, two of them hold some. */
  lemma TwoHold(actors: seq<Actor>, n: nat) returns (t: nat, u: nat)
    requires 1 <= n && HeldByAll(actors) == All(n)
    requires forall t :: 0 <= t < |actors| ==> |Held(actors[t])| < n
    ensures t < u < |actors| && Held(actors[t]) != [] && Held(actors[u]) != []
  {
    AllHasEachOnce(n);
    t := SomebodyHolds(actors);
    WithoutOne(actors, t);
    u := SomebodyHolds(actors[t := Idle]);
    if u < t { t, u := u, t; }
  }

  lemma NobodyHasAll(s: State, t: nat, u: nat)
    requires 1 <= s.n && Owned(s) && !Clashing(s) && AllWait(s)
    requires t < |s.actors| && BusyActor(s.actors[t]) && u < |s.actors|
    ensures |Held(s.actors[u])| < s.n && (Held(s.actors[u]) != [] ==> Grabbing(s.n, s.actors[u]))
  {
    assert ShapedActor(s.n, s.actors[u]) && !ClashAt(s, u, t) && Waits(s.n, s.actors[t]);
  }

  /** Without a clash, when all wait there is something to wait for. */
  lemma SomethingToTake(s: State, t: nat)
    requires 1 <= s.n && Owned(s) && !Clashing(s) && AllWait(s) && t < |s.actors| && BusyActor(s.actors[t])
    ensures s.queue != []
  {
    forall u | 0 <= u < |s.actors| ensures |Held(s.actors[u])| < s.n { NobodyHasAll(s, t, u); }
    if s.queue == [] {
      assert HeldByAll(s.actors) == All(s.n);
      var i, j := TwoHold(s.actors, s.n);
      NobodyHasAll(s, t, i);
      NobodyHasAll(s, t, j);
      assert ClashAt(s, i, j);
    }
  }

  lemma WaiterAdvances(s: State)
    requires 1 <= s.n && Owned(s) && OneCloser(s) && !Clashing(s) && AllWait(s) && Busy(s)
    ensures exists step :: Advances(s, step)
  {
    var t :| 0 <= t < |s.actors| && BusyActor(s.actors[t]);
    SomethingToTake(s, t);
    if u :| 0 <= u < |s.actors| && s.actors[u].Waiting? {
      TameThreadAdvances(s, u);
    } else if u :| 0 <= u < |s.actors| && Grabbing(s.n, s.actors[u]) {
      forall v | 0 <= v < |s.actors| && v != u
        ensures !Grabbing(s.n, s.actors[v]) && (Closer(s.actors[u]) ==> !s.actors[v].Locking?)
      {
        assert !ClashAt(s, u, v);
      }
      LockerAdvances(s, u);
    } else if u :| 0 <= u < |s.actors| && Short(s.n, s.actors[u]) && !Closer(s.actors[u]) {
      LockerAdvances(s, u);
    } else {
      LockerAdvances(s, t);
    }
  }

  /** Without a clash a busy pool can always go on, and without running into one. */
  lemma PoolAdvances(s: State)
    requires 1 <= s.n && Owned(s) && OneCloser(s) && !Clashing(s) && Busy(s)
    ensures exists step :: Advances(s, step)
  {
    if !AtRest(s.keeper) {
      KeeperAdvances(s);
    } else if t :| 0 <= t < |s.actors| && BusyActor(s.actors[t]) && !Waits(s.n, s.actors[t]) {
      TameThreadAdvances(s, t);
    } else {
      WaiterAdvances(s);
    }
  }

  // ---- Finishing

  /** Some way of going on with what has been begun, and nothing else, brings everything to rest. */
  ghost predicate CanFinish(s: State) {
    exists steps :: Finishes(s, steps)
  }

  ghost predicate Finishes(s: State, steps: seq<Step>) {
    IsRun(s, steps) && (forall step :: step in steps ==> Continues(step)) && !Busy(After(s, steps))
  }

  lemma RunsJoin(s: State, first: Step, rest: seq<Step>)
    requires Enabled(s, first) && IsRun(Do(s, first), rest)
    ensures IsRun(s, [first] + rest) && After(s, [first] + rest) == After(Do(s, first), rest)
  {
    assert ([first] + rest)[1..] == rest;
  }

  lemma {:induction false} FinishingRun(s: State) returns (steps: seq<Step>)
    requires 1 <= s.n && Owned(s) && OneCloser(s) && !Clashing(s)
    ensures Finishes(s, steps)
    decreases Work(s.n, s.actors), KeeperWork(s)
  {
    steps := [];
    if Busy(s) {
      PoolAdvances(s);
      var step :| Advances(s, step);
      StepKeepsOwned(s, step);
      StepKeepsOneCloser(s, step);
      var rest := FinishingRun(Do(s, step));
      RunsJoin(s, step, rest);
      steps := [step] + rest;
    }
  }

  /**
   * In every reachable state: everything begun can still be finished exactly when no two threads
   * clash.  If two do, no run whatsoever finishes.
   */
  lemma FinishesExactlyWithoutClash(s: State)
    requires Reachable(s) && 1 <= s.n
    ensures CanFinish(s) <==> !Clashing(s)
    ensures Clashing(s) ==> forall steps :: IsRun(s, steps) ==> Busy(After(s, steps))
  {
    ReachableIsOwned(s);
    ReachableHasOneCloser(s);
    if Clashing(s) {
      var t: nat, u: nat :| ClashAt(s, t, u);
      forall steps | IsRun(s, steps) ensures Busy(After(s, steps)) { ClashIsForever(s, steps, t, u); }
    } else {
      var steps := FinishingRun(s);
    }
  }

  /** While nobody closes the pool, a clash is two lock-all operations holding connections. */
  ghost predicate TwoLockers(s: State) {
    exists t, u :: 0 <= t < u < |s.actors| && Grabbing(s.n, s.actors[t]) && Grabbing(s.n, s.actors[u])
  }

  lemma FinishesUnlessTwoLockers(s: State)
    requires Reachable(s) && 1 <= s.n && forall t :: 0 <= t < |s.actors| ==> !Closer(s.actors[t])
    ensures CanFinish(s) <==> !TwoLockers(s)
    ensures TwoLockers(s) ==> 2 <= s.n
  {
    FinishesExactlyWithoutClash(s);
    if Clashing(s) {
      var t: nat, u: nat :| ClashAt(s, t, u);
      assert TwoLockers(s) by { if u < t { assert Grabbing(s.n, s.actors[u]); } }
    }
    if TwoLockers(s) {
      var t, u :| 0 <= t < u < |s.actors| && Grabbing(s.n, s.actors[t]) && Grabbing(s.n, s.actors[u]);
      assert ClashAt(s, t, u);
    }
  }

  // ---- One lock-all at a time always gets done

  /** A step of something begun, other than the writes a request may complete any number of. */
  predicate Productive(step: Step) {
    Continues(step) && !(step.Thread? && step.move.CompleteWrite?)
  }

  ghost predicate OneLocker(s: State) {
    && (forall t :: 0 <= t < |s.actors| ==> !Closer(s.actors[t]))
    && (forall t, u :: 0 <= t < u < |s.actors| ==> !(s.actors[t].Locking? && s.actors[u].Locking?))
  }

  lemma MoveLowers(s: State, a: Actor, move: Move)
    requires ShapedActor(s.n, a) && CanMove(s, a, move) && Productive(Thread(0, move))
    ensures Rank(s.n, NextActor(s, a, move)) < Rank(s.n, a)
    ensures NextActor(s, a, move).Locking? ==> a.Locking?
    ensures Closer(NextActor(s, a, move)) ==> Closer(a)
  {
  }

  lemma ChoreLowers(s: State, chore: Chore)
    requires Shaped(s) && CanKeep(s, chore) && Productive(Keep(chore))
    ensures DoChore(s, chore).actors == s.actors && DoChore(s, chore).n == s.n
    ensures KeeperWork(DoChore(s, chore)) < KeeperWork(s)
  {
  }

  /** Every productive step of every thread and of the keeper lowers the work left. */
  lemma ProductiveLowers(s: State, step: Step)
    requires Owned(s) && Enabled(s, step) && Productive(step)
    ensures var s' := Do(s, step);
            && s'.n == s.n && Work(s'.n, s'.actors) <= Work(s.n, s.actors)
            && (Work(s'.n, s'.actors) == Work(s.n, s.actors) ==> KeeperWork(s') < KeeperWork(s))
    ensures OneLocker(s) ==> OneLocker(Do(s, step))
  {
    if step.Keep? {
      ChoreLowers(s, step.chore);
    } else {
      var a := s.actors[step.t];
      assert ShapedActor(s.n, a);
      MoveLowers(s, a, step.move);
      WorkAfter(s.n, s.actors, step.t, NextActor(s, a, step.move));
    }
  }

  ghost predicate Follows(states: nat -> State, steps: nat -> Step, i: nat) {
    && Enabled(states(i), steps(i)) && Productive(steps(i))
    && states(i + 1) == Do(states(i), steps(i))
  }

  /** No run of productive steps goes on for ever. */
  lemma {:induction false} ProductiveRunEnds(states: nat -> State, steps: nat -> Step, i: nat)
    requires Owned(states(i))
    ensures exists j: nat :: i <= j && !Follows(states, steps, j)
    decreases Work(states(i).n, states(i).actors), KeeperWork(states(i))
  {
    if Follows(states, steps, i) {
      ProductiveLowers(states(i), steps(i));
      StepKeepsOwned(states(i), steps(i));
      ProductiveRunEnds(states, steps, i + 1);
    }
  }

  ghost predicate AllProductive(steps: seq<Step>) {
    forall step :: step in steps ==> Productive(step)
  }

  lemma {:induction false} RunKeepsOneLocker(s: State, steps: seq<Step>)
    requires Owned(s) && OneCloser(s) && OneLocker(s) && IsRun(s, steps) && AllProductive(steps)
    ensures var s' := After(s, steps); s'.n == s.n && Owned(s') && OneCloser(s') && OneLocker(s')
    decreases |steps|
  {
    if steps != [] {
      ProductiveLowers(s, steps[0]);
      StepKeepsOwned(s, steps[0]);
      StepKeepsOneCloser(s, steps[0]);
      RunKeepsOneLocker(Do(s, steps[0]), steps[1..]);
    }
  }

  /** The run can be extended by no productive step. */
  ghost predicate Exhausted(s: State) {
    forall step :: Enabled(s, step) ==> !Productive(step)
  }

  /**
   * While nobody closes the pool and one thread at most is locking it, every way of going on gets
   * everything done: a run of productive steps that cannot be extended ends at rest, and none goes on
   * for ever, as `ProductiveRunEnds` says.
   */
  lemma OneLockerAlwaysFinishes(s: State, steps: seq<Step>)
    requires Reachable(s) && 1 <= s.n && OneLocker(s) && IsRun(s, steps) && AllProductive(steps)
    ensures Exhausted(After(s, steps)) ==> !Busy(After(s, steps))
  {
    ReachableIsOwned(s);
    ReachableHasOneCloser(s);
    RunKeepsOneLocker(s, steps);
    var s' := After(s, steps);
    if Busy(s') {
      forall t: nat, u: nat ensures !ClashAt(s', t, u) {
        assert t < u < |s'.actors| ==> !(s'.actors[t].Locking? && s'.actors[u].Locking?);
        assert u < t < |s'.actors| ==> !(s'.actors[u].Locking? && s'.actors[t].Locking?);
      }
      PoolAdvances(s');
      var step :| Advances(s', step);
      AdvancingIsProductive(s', step);
    }
  }

  lemma WriteLeavesWork(s: State, t: nat)
    requires Enabled(s, Thread(t, CompleteWrite))
    ensures var s' := Do(s, Thread(t, CompleteWrite));
            s'.actors == s.actors && s'.n == s.n && KeeperWork(s') == KeeperWork(s)
  {
  }

  lemma AdvancingIsProductive(s: State, step: Step)
    requires Advances(s, step)
    ensures Productive(step)
  {
    forall t ensures !Advances(s, Thread(t, CompleteWrite)) {
      if Enabled(s, Thread(t, CompleteWrite)) { WriteLeavesWork(s, t); }
    }
  }

  // ---- Two flushes can halt every pool of two connections or more

  ghost function Locks(k: nat): seq<Step> {
    seq(k, _ => Thread(1, Lock))
  }

  lemma TakeOneMore(locked: seq<Conn>, queue: seq<Conn>, k: nat)
    requires 1 <= k <= |queue|
    ensures queue[1..][k - 1..] == queue[k..]
    ensures (locked + [queue[0]]) + queue[1..][..k - 1] == locked + queue[..k]
  {
    assert [queue[0]] + queue[1..][..k - 1] == queue[..k];
  }

  lemma {:induction false} LockMany(s: State, k: nat)
    requires 1 < |s.actors| && s.actors[1].Locking? && k <= |s.queue|
    requires |s.actors[1].locked| + k <= s.n
    ensures IsRun(s, Locks(k))
    ensures var a := s.actors[1];
            After(s, Locks(k)) ==
            s.(queue := s.queue[k..], actors := s.actors[1 := Locking(a.purpose, a.locked + s.queue[..k])])
    decreases k
  {
    var a := s.actors[1];
    if k == 0 {
      assert s.queue[0..] == s.queue && a.locked + s.queue[..0] == a.locked;
      assert s.actors[1 := a] == s.actors;
    } else {
      var s1 := Do(s, Thread(1, Lock));
      assert s1 == s.(queue := s.queue[1..],
                      actors := s.actors[1 := Locking(a.purpose, a.locked + [s.queue[0]])], log := s.log + []);
      assert s.log + [] == s.log;
      LockMany(s1, k - 1);
      assert Locks(k)[0] == Thread(1, Lock) && Locks(k)[1..] == Locks(k - 1);
      TakeOneMore(a.locked, s.queue, k);
      assert s1.actors[1 := Locking(a.purpose, a.locked + s.queue[..k])] ==
             s.actors[1 := Locking(a.purpose, a.locked + s.queue[..k])];
    }
  }

  /** The run: both flushes start, one takes one connection, the other takes the rest. */
  ghost function Collision(n: nat): seq<Step>
    requires 2 <= n
  {
    [Thread(0, StartFlush), Thread(1, StartFlush), Thread(0, Lock)] + Locks(n - 1)
  }

  ghost function Halted(n: nat): State
    requires 2 <= n
  {
    Init(n, 2, 1.0).(queue := [],
                     actors := [Locking(ToFlush, [0]), Locking(ToFlush, Identity(n)[1..])])
  }

  /**
   * For every pool of two or more connections two flushes can reach a state from which, whatever
   * happens, both are still locking the pool.
   */
  lemma TwoFlushesCanHalt(n: nat)
    requires 2 <= n
    ensures IsRun(Init(n, 2, 1.0), Collision(n))
    ensures After(Init(n, 2, 1.0), Collision(n)) == Halted(n)
    ensures Reachable(Halted(n)) && TwoLockers(Halted(n))
    ensures forall steps :: IsRun(Halted(n), steps) ==>
              var s := After(Halted(n), steps); |s.actors| == 2 && s.actors[0].Locking? && s.actors[1].Locking?
  {
    CollisionRun(n);
    var h := Halted(n);
    assert h.n == n;
    ReachableIsOwned(h);
    assert Grabbing(n, h.actors[0]) && Grabbing(n, h.actors[1]);
    forall steps | IsRun(h, steps)
      ensures var s := After(h, steps); |s.actors| == 2 && s.actors[0].Locking? && s.actors[1].Locking?
    {
      BothKeepGrabbing(h, steps, 0, 1);
    }
  }

  lemma MoveKeepsGrabbing(s: State, a: Actor, b: Actor, move: Move)
    requires Grabbing(s.n, a) && Grabbing(s.n, b) && |s.queue| + |Held(a)| + |Held(b)| <= s.n
    ensures CanMove(s, a, move) ==> Grabbing(s.n, NextActor(s, a, move))
    ensures CanMove(s, b, move) ==> Grabbing(s.n, NextActor(s, b, move))
  {
  }

  lemma StepKeepsGrabbing(s: State, step: Step, t: nat, u: nat)
    requires Owned(s) && Enabled(s, step) && t < |s.actors| && u < |s.actors| && t != u
    requires Grabbing(s.n, s.actors[t]) && Grabbing(s.n, s.actors[u])
    ensures var s' := Do(s, step);
            && |s'.actors| == |s.actors| && s'.n == s.n
            && Grabbing(s'.n, s'.actors[t]) && Grabbing(s'.n, s'.actors[u])
  {
    RoomForTwo(s, t, u);
    StepOfThread(s, step, t);
    StepOfThread(s, step, u);
    if step.Thread? { MoveKeepsGrabbing(s, s.actors[t], s.actors[u], step.move); }
  }

  /** Two lock-all operations that each have some of the connections keep locking for good. */
  lemma {:induction false} BothKeepGrabbing(s: State, steps: seq<Step>, t: nat, u: nat)
    requires Owned(s) && IsRun(s, steps) && t < |s.actors| && u < |s.actors| && t != u
    requires Grabbing(s.n, s.actors[t]) && Grabbing(s.n, s.actors[u])
    ensures var s' := After(s, steps);
            && |s'.actors| == |s.actors| && s'.n == s.n
            && Grabbing(s'.n, s'.actors[t]) && Grabbing(s'.n, s'.actors[u])
    decreases |steps|
  {
    if steps != [] {
      StepKeepsGrabbing(s, steps[0], t, u);
      StepKeepsOwned(s, steps[0]);
      BothKeepGrabbing(Do(s, steps[0]), steps[1..], t, u);
    }
  }

  lemma CollisionRun(n: nat)
    requires 2 <= n
    ensures IsRun(Init(n, 2, 1.0), Collision(n))
    ensures After(Init(n, 2, 1.0), Collision(n)) == Halted(n)
  {
    var s0, locks := Init(n, 2, 1.0), Locks(n - 1);
    var s2 := s0.(actors := [Locking(ToFlush, []), Locking(ToFlush, [])]);
    SecondTakesRest(n, s2);
    BothStart(s0, [Thread(0, Lock)] + locks, s2);
    assert Collision(n) == [Thread(0, StartFlush)] + ([Thread(1, StartFlush)] + ([Thread(0, Lock)] + locks));
  }

  lemma BothStart(s0: State, rest: seq<Step>, s2: State)
    requires s0.actors == [Idle, Idle] && !s0.poolError && s0.log == []
    requires s2 == s0.(actors := [Locking(ToFlush, []), Locking(ToFlush, [])]) && IsRun(s2, rest)
    ensures var steps := [Thread(0, StartFlush)] + ([Thread(1, StartFlush)] + rest);
            IsRun(s0, steps) && After(s0, steps) == After(s2, rest)
  {
    var s1 := s0.(actors := [Locking(ToFlush, []), Idle]);
    assert Do(s0, Thread(0, StartFlush)) == s1;
    assert Do(s1, Thread(1, StartFlush)) == s2;
    RunsJoin(s1, Thread(1, StartFlush), rest);
    RunsJoin(s0, Thread(0, StartFlush), [Thread(1, StartFlush)] + rest);
  }

  lemma SecondTakesRest(n: nat, s2: State)
    requires 2 <= n && s2 == Init(n, 2, 1.0).(actors := [Locking(ToFlush, []), Locking(ToFlush, [])])
    ensures var steps := [Thread(0, Lock)] + Locks(n - 1);
            IsRun(s2, steps) && After(s2, steps) == Halted(n)
  {
    var q := Identity(n);
    var s3 := s2.(queue := q[1..], actors := [Locking(ToFlush, [0]), Locking(ToFlush, [])]);
    assert Do(s2, Thread(0, Lock)) == s3 by { assert [] + [q[0]] == [0]; }
    LockMany(s3, n - 1);
    assert s3.queue[n - 1..] == [] && [] + s3.queue[..n - 1] == q[1..];
    RunsJoin(s2, Thread(0, Lock), Locks(n - 1));
  }
}
