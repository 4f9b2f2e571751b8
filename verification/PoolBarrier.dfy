/** A successful flush is a barrier, and nothing uses a closed connection. */
module PoolBarrier {
  import opened Pool
  import opened PoolOwnership

  /** The connections with a completed write that no flush on the same connection has followed. */
  ghost function Unflushed(log: seq<Event>): set<Conn> {
    if log == [] then {}
    else
      var before, last := Unflushed(log[..|log| - 1]), log[|log| - 1];
      match last
      case WriteDone(c) => before + {c}
      case FlushSent(c) => before - {c}
  }

  ghost predicate FlushedAfter(log: seq<Event>, i: nat)
    requires i < |log|
  {
    exists j :: i < j < |log| && log[j] == FlushSent(log[i].conn)
  }

  /** Outside `Unflushed` every completed write has had a flush sent on its connection. */
  lemma {:induction false} FlushedMeaning(log: seq<Event>, i: nat)
    requires i < |log| && log[i].WriteDone? && log[i].conn !in Unflushed(log)
    ensures FlushedAfter(log, i)
  {
    var before, last := log[..|log| - 1], log[|log| - 1];
    if last == FlushSent(log[i].conn) {
      assert i < |log| - 1 < |log|;
    } else if i < |before| {
      assert before[i] == log[i];
      FlushedMeaning(before, i);
      var j :| i < j < |before| && before[j] == FlushSent(before[i].conn);
      assert log[j] == before[j];
    }
  }

  lemma UnflushedStep(log: seq<Event>, e: Event)
    ensures Unflushed(log + [e]) ==
            if e.WriteDone? then Unflushed(log) + {e.conn} else Unflushed(log) - {e.conn}
  {
    assert (log + [e])[..|log|] == log;
  }

  /** A flush has cleaned the connections it is past; closed connections stay with the closer. */
  ghost predicate ActorOk(s: State, a: Actor) {
    a.Sending? ==> forall i :: 0 <= i < a.sent && i < |a.locked| ==> a.locked[i] !in Unflushed(s.log)
  }

  ghost predicate ShutBy(a: Actor, c: Conn) {
    || (a.Closing? && a.shut <= |a.locked| && c in a.locked[..a.shut])
    || (a.Closed? && c in a.locked)
  }

  ghost predicate Ordered(s: State) {
    && (forall t :: 0 <= t < |s.actors| ==> ActorOk(s, s.actors[t]))
    && (forall c :: c in s.shut ==> exists t :: 0 <= t < |s.actors| && ShutBy(s.actors[t], c))
    && (forall i :: 0 <= i < |s.log| && s.log[i].WriteDone? ==> s.log[i].conn < s.n)
  }

  lemma ShutIsHeld(a: Actor, c: Conn)
    requires ShutBy(a, c)
    ensures c in Held(a)
  {
    if a.Closing? { assert forall x :: x in a.locked[..a.shut] ==> x in a.locked; }
  }

  /** A closed connection is with the thread that closed it and nowhere else. */
  lemma ClosedIsOutOfReach(s: State, c: Conn)
    requires Owned(s) && Ordered(s) && c in s.shut
    ensures c !in s.queue && c !in HeldByKeeper(s.keeper)
    ensures forall t :: 0 <= t < |s.actors| && c in Held(s.actors[t]) ==> ShutBy(s.actors[t], c)
  {
    var t :| 0 <= t < |s.actors| && ShutBy(s.actors[t], c);
    ShutIsHeld(s.actors[t], c);
    OnlyHolder(s, t, c);
  }

  lemma OnlyHolder(s: State, t: nat, c: Conn)
    requires Owned(s) && t < |s.actors| && c in Held(s.actors[t])
    ensures c !in s.queue && c !in HeldByKeeper(s.keeper)
    ensures forall u :: 0 <= u < |s.actors| && u != t ==> c !in Held(s.actors[u])
  {
    HeldByOne(s.actors, t);
    AllHasEachOnce(s.n);
    assert c in multiset(Held(s.actors[t]));
    assert All(s.n)[c] == multiset(s.queue)[c] + HeldByAll(s.actors)[c] + multiset(HeldByKeeper(s.keeper))[c];
    forall u | 0 <= u < |s.actors| && u != t ensures c !in Held(s.actors[u]) { Exclusive(s, t, u, c); }
  }

  lemma HeldIsPooled(s: State, t: nat, c: Conn)
    requires Owned(s) && t < |s.actors| && c in Held(s.actors[t])
    ensures c < s.n
  {
    HeldByOne(s.actors, t);
    AllHasEachOnce(s.n);
    assert c in multiset(Held(s.actors[t]));
    assert All(s.n)[c] == multiset(s.queue)[c] + HeldByAll(s.actors)[c] + multiset(HeldByKeeper(s.keeper))[c];
  }

  // ---- Preservation

  lemma LogKeepsFlushed(s: State, s': State, u: nat, c: Conn)
    requires u < |s.actors| && ActorOk(s, s.actors[u]) && c !in Held(s.actors[u])
    requires s'.log == s.log + [WriteDone(c)]
    ensures ActorOk(s', s.actors[u])
  {
    UnflushedStep(s.log, WriteDone(c));
  }

  lemma FlushKeepsFlushed(s: State, s': State, a: Actor, c: Conn)
    requires ActorOk(s, a) && s'.log == s.log + [FlushSent(c)]
    ensures ActorOk(s', a)
  {
    UnflushedStep(s.log, FlushSent(c));
  }

  /** Threads other than the one that moves keep what they have flushed. */
  lemma OthersStayOk(s: State, t: nat, move: Move, u: nat)
    requires Owned(s) && Ordered(s) && t < |s.actors| && CanMove(s, s.actors[t], move)
    requires u < |s.actors| && u != t
    ensures ActorOk(DoMove(s, t, move), s.actors[u])
  {
    var a, s' := s.actors[t], DoMove(s, t, move);
    if move.CompleteWrite? {
      Exclusive(s, t, u, a.conn);
      LogKeepsFlushed(s, s', u, a.conn);
    } else if move.Send? {
      FlushKeepsFlushed(s, s', s.actors[u], a.locked[a.sent]);
    } else {
      assert s'.log == s.log;
    }
  }

  lemma MoverStaysOk(s: State, t: nat, move: Move)
    requires Ordered(s) && t < |s.actors| && CanMove(s, s.actors[t], move)
    ensures ActorOk(DoMove(s, t, move), NextActor(s, s.actors[t], move))
  {
    var a, s' := s.actors[t], DoMove(s, t, move);
    assert ActorOk(s, a);
    if move.Send? { UnflushedStep(s.log, FlushSent(a.locked[a.sent])); }
  }

  lemma ShutStaysHeld(s: State, t: nat, move: Move)
    requires Ordered(s) && t < |s.actors| && CanMove(s, s.actors[t], move)
    ensures var s' := DoMove(s, t, move);
            forall c :: c in s'.shut ==> exists u :: 0 <= u < |s'.actors| && ShutBy(s'.actors[u], c)
  {
    var a, s' := s.actors[t], DoMove(s, t, move);
    forall c | c in s'.shut ensures exists u :: 0 <= u < |s'.actors| && ShutBy(s'.actors[u], c) {
      if c in s.shut {
        var u :| 0 <= u < |s.actors| && ShutBy(s.actors[u], c);
        if u == t { StaysShutBy(s, a, move, c); }
        assert ShutBy(s'.actors[u], c);
      } else {
        assert s'.actors[t].locked[..s'.actors[t].shut][a.shut] == c;
        assert ShutBy(s'.actors[t], c);
      }
    }
  }

  lemma StaysShutBy(s: State, a: Actor, move: Move, c: Conn)
    requires CanMove(s, a, move) && ShutBy(a, c)
    ensures ShutBy(NextActor(s, a, move), c)
  {
    if a.Closing? {
      var k :| 0 <= k < a.shut && a.locked[k] == c;
      assert a.shut < |a.locked| ==> a.locked[..a.shut + 1][k] == c;
    }
  }

  lemma MoveKeepsOrdered(s: State, t: nat, move: Move)
    requires Owned(s) && Ordered(s) && t < |s.actors| && CanMove(s, s.actors[t], move)
    ensures Ordered(DoMove(s, t, move))
  {
    var s' := DoMove(s, t, move);
    MoverStaysOk(s, t, move);
    ShutStaysHeld(s, t, move);
    if move.CompleteWrite? { HeldIsPooled(s, t, s.actors[t].conn); }
    forall u | 0 <= u < |s'.actors| ensures ActorOk(s', s'.actors[u]) {
      if u != t { OthersStayOk(s, t, move, u); }
    }
  }

  lemma ChoreKeepsOrdered(s: State, chore: Chore)
    requires Ordered(s) && CanKeep(s, chore)
    ensures Ordered(DoChore(s, chore))
  {
    var s' := DoChore(s, chore);
    forall u | 0 <= u < |s'.actors| ensures ActorOk(s', s'.actors[u]) {
      assert ActorOk(s, s.actors[u]);
      if chore.KeepAlive? { FlushKeepsFlushed(s, s', s.actors[u], s.keeper.idle[s.keeper.at]); }
    }
  }

  lemma StepKeepsOrdered(s: State, step: Step)
    requires Owned(s) && Ordered(s) && Enabled(s, step)
    ensures Ordered(Do(s, step))
  {
    match step
    case Thread(t, move) => MoveKeepsOrdered(s, t, move);
    case Keep(chore) => ChoreKeepsOrdered(s, chore);
    case Tick(_) => assert forall a :: ActorOk(Do(s, step), a) == ActorOk(s, a);
  }

  lemma {:induction false} RunKeepsOrdered(s: State, steps: seq<Step>)
    requires IsRun(s, steps) && Owned(s) && Ordered(s)
    ensures Ordered(After(s, steps))
    decreases |steps|
  {
    if steps != [] {
      StepKeepsOwned(s, steps[0]);
      StepKeepsOrdered(s, steps[0]);
      RunKeepsOrdered(Do(s, steps[0]), steps[1..]);
    }
  }

  lemma ReachableIsOrdered(s: State)
    requires Reachable(s)
    ensures Owned(s) && Ordered(s)
  {
    ReachableIsOwned(s);
    var threads: nat, start: real, steps: seq<Step> :|
      IsRun(Init(s.n, threads, start), steps) && After(Init(s.n, threads, start), steps) == s;
    InitOwned(s.n, threads, start);
    RunKeepsOrdered(Init(s.n, threads, start), steps);
  }

  /**
   * In no interleaving can a closed connection be used: it is neither in the pool nor with the
   * keeper, and of the threads only the one that closed it has it.  So no request of any kind, no
   * flush that succeeds or fails, and no keep-alive is ever on it.
   */
  lemma NoUseAfterClose(s: State, c: Conn)
    requires Reachable(s) && c in s.shut
    ensures c !in s.queue && c !in HeldByKeeper(s.keeper)
    ensures forall t :: 0 <= t < |s.actors| && c in Held(s.actors[t]) ==>
              (s.actors[t].Closing? || s.actors[t].Closed?) && ShutBy(s.actors[t], c)
  {
    ReachableIsOrdered(s);
    ClosedIsOutOfReach(s, c);
  }

  // ---- The barrier

  /** A thread that has locked the pool holds every connection, so nobody else holds any. */
  lemma LockedPoolIsWhole(s: State, t: nat)
    requires Owned(s) && t < |s.actors| && |Held(s.actors[t])| == s.n
    ensures forall c: Conn :: c < s.n ==> c in Held(s.actors[t])
    ensures forall u :: 0 <= u < |s.actors| && u != t ==> Held(s.actors[u]) == []
    ensures s.queue == [] && HeldByKeeper(s.keeper) == []
  {
    AllHasEachOnce(s.n);
    WithoutOne(s.actors, t);
    var mine, others := multiset(Held(s.actors[t])), HeldByAll(s.actors[t := Idle]);
    var rest := multiset(s.queue) + others + multiset(HeldByKeeper(s.keeper));
    WholeAndRest(multiset(s.queue), HeldByAll(s.actors), multiset(HeldByKeeper(s.keeper)), mine, others);
    NothingLeft(All(s.n), mine, rest);
    forall c: Conn | c < s.n ensures c in Held(s.actors[t]) { assert All(s.n)[c] == 1; }
    forall u | 0 <= u < |s.actors| && u != t ensures Held(s.actors[u]) == [] {
      HeldByOne(s.actors[t := Idle], u);
      var h := Held(s.actors[u]);
      assert multiset(h) <= others;
      assert |multiset(h)| == |h|;
    }
  }

  lemma WholeAndRest(q: multiset<Conn>, h: multiset<Conn>, k: multiset<Conn>, mine: multiset<Conn>, others: multiset<Conn>)
    requires others + mine == h
    ensures q + h + k == mine + (q + others + k)
  {
  }

  lemma NothingLeft(all: multiset<Conn>, mine: multiset<Conn>, rest: multiset<Conn>)
    requires all == mine + rest && |mine| == |all|
    ensures rest == multiset{} && mine == all
  {
    assert |all| == |mine| + |rest|;
  }

  /**
   * At the end of a successful send loop of `flush` no request is in flight, and every write that
   * completed before has had a flush sent on its connection.
   */
  lemma FlushIsBarrier(s: State, t: nat)
    requires Reachable(s) && t < |s.actors|
    requires s.actors[t].Sending? && s.actors[t].sent == |s.actors[t].locked|
    ensures forall u :: 0 <= u < |s.actors| ==> !s.actors[u].Using? && !s.actors[u].Returning?
    ensures forall i :: 0 <= i < |s.log| && s.log[i].WriteDone? ==> FlushedAfter(s.log, i)
  {
    ReachableIsOrdered(s);
    LockedPoolIsWhole(s, t);
    var a := s.actors[t];
    forall u | 0 <= u < |s.actors| ensures !s.actors[u].Using? && !s.actors[u].Returning? {
      assert u != t ==> Held(s.actors[u]) == [];
    }
    assert ActorOk(s, a);
    forall i | 0 <= i < |s.log| && s.log[i].WriteDone? ensures FlushedAfter(s.log, i) {
      assert s.log[i].conn in a.locked;
      FlushedMeaning(s.log, i);
    }
  }
}
