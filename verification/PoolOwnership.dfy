/** In every interleaving each connection of the pool has exactly one owner. */
module PoolOwnership {
  import opened Multisets
  import opened Pool

  ghost function Held(a: Actor): seq<Conn> {
    match a
    case Idle => []
    case Waiting => []
    case Using(c) => [c]
    case Returning(c) => [c]
    case Locking(_, locked) => locked
    case Sending(locked, _) => locked
    case Unlocking(locked, k) => if k <= |locked| then locked[k..] else []
    case Closing(locked, _) => locked
    case Closed(locked) => locked
  }

  ghost function HeldByKeeper(k: Keeper): seq<Conn> {
    match k
    case Asleep => []
    case Stopped => []
    case Draining(idle) => idle
    case Serving(idle, at, _) => if at <= |idle| then idle[at..] else []
    case Putting(idle, at, _) => if at <= |idle| then idle[at..] else []
  }

  ghost function HeldByAll(actors: seq<Actor>): multiset<Conn> {
    if actors == [] then multiset{} else multiset(Held(actors[0])) + HeldByAll(actors[1..])
  }

  ghost function All(n: nat): multiset<Conn> {
    if n == 0 then multiset{} else All(n - 1) + multiset{n - 1}
  }

  lemma {:induction false} AllHasEachOnce(n: nat)
    ensures |All(n)| == n && forall c: Conn :: All(n)[c] == if c < n then 1 else 0
  {
    if n != 0 {
      AllHasEachOnce(n - 1);
      assert forall c: Conn :: All(n)[c] == All(n - 1)[c] + if c == n - 1 then 1 else 0;
    }
  }

  /** Queue, threads and keeper together have every connection once. */
  ghost predicate Conserved(s: State) {
    multiset(s.queue) + HeldByAll(s.actors) + multiset(HeldByKeeper(s.keeper)) == All(s.n)
  }

  ghost predicate ShapedActor(n: nat, a: Actor) {
    match a
    case Locking(_, locked) => |locked| <= n
    case Sending(locked, k) => |locked| == n && k <= n
    case Unlocking(locked, k) => |locked| == n && k <= n
    case Closing(locked, k) => |locked| == n && k <= n
    case Closed(locked) => |locked| == n
    case _ => true
  }

  ghost predicate Shaped(s: State) {
    && |s.lastUsed| == s.n
    && (forall t :: 0 <= t < |s.actors| ==> ShapedActor(s.n, s.actors[t]))
    && ((s.keeper.Serving? || s.keeper.Putting?) ==> s.keeper.at < |s.keeper.idle|)
  }

  ghost predicate Owned(s: State) {
    Conserved(s) && Shaped(s)
  }

  // ---- One thread changes

  lemma {:induction false} ReplaceActor(actors: seq<Actor>, t: nat, a: Actor)
    requires t < |actors|
    ensures HeldByAll(actors[t := a]) + multiset(Held(actors[t])) == HeldByAll(actors) + multiset(Held(a))
  {
    var rest := actors[1..];
    if t == 0 {
      assert actors[0 := a][1..] == rest;
      assert HeldByAll(actors[0 := a]) == multiset(Held(a)) + HeldByAll(rest);
      MultisetAssoc(multiset(Held(a)), HeldByAll(rest), multiset(Held(actors[0])));
      MultisetAssoc(multiset(Held(actors[0])), HeldByAll(rest), multiset(Held(a)));
    } else {
      assert actors[t := a][1..] == rest[t - 1 := a];
      ReplaceActor(rest, t - 1, a);
      assert HeldByAll(actors[t := a]) == multiset(Held(actors[0])) + HeldByAll(rest[t - 1 := a]);
      MultisetAssoc(multiset(Held(actors[0])), HeldByAll(rest[t - 1 := a]), multiset(Held(actors[t])));
      MultisetAssoc(multiset(Held(actors[0])), HeldByAll(rest), multiset(Held(a)));
    }
  }

  lemma ActorStepConserves(s: State, t: nat, a: Actor, queue: seq<Conn>, s': State)
    requires Conserved(s) && t < |s.actors|
    requires HandedOver(s.queue, Held(s.actors[t]), queue, Held(a))
    requires s'.n == s.n && s'.queue == queue && s'.actors == s.actors[t := a] && s'.keeper == s.keeper
    ensures Conserved(s')
  {
    ReplaceActor(s.actors, t, a);
    HandoverBalances(s.queue, Held(s.actors[t]), queue, Held(a));
    ThreadBalance(multiset(s.queue), multiset(queue), HeldByAll(s.actors), HeldByAll(s'.actors),
                  multiset(Held(s.actors[t])), multiset(Held(a)));
  }

  lemma ThreadBalance(q: multiset<Conn>, q': multiset<Conn>, h: multiset<Conn>, h': multiset<Conn>,
                      a: multiset<Conn>, a': multiset<Conn>)
    requires q' + a' == q + a && h' + a == h + a'
    ensures q' + h' == q + h
  {
    assert (q' + h') + (a + a') == (q' + a') + (h' + a);
    assert (q + h) + (a + a') == (q + a) + (h + a');
    MultisetCancel(q' + h', q + h, a + a');
  }

  /** Connections only changed hands between the queue and one owner. */
  ghost predicate Balanced(q: seq<Conn>, held: seq<Conn>, q': seq<Conn>, held': seq<Conn>) {
    multiset(q') + multiset(held') == multiset(q) + multiset(held)
  }

  ghost predicate Takes(q: seq<Conn>, held: seq<Conn>, q': seq<Conn>, held': seq<Conn>) {
    q != [] && q' == q[1..] && held' == held + [q[0]]
  }

  ghost predicate Returns(q: seq<Conn>, held: seq<Conn>, q': seq<Conn>, held': seq<Conn>) {
    held != [] && q' == q + [held[0]] && held' == held[1..]
  }

  ghost predicate HandedOver(q: seq<Conn>, held: seq<Conn>, q': seq<Conn>, held': seq<Conn>) {
    Takes(q, held, q', held') || Returns(q, held, q', held') || (q' == q && held' == held)
  }

  lemma HandoverBalances(q: seq<Conn>, held: seq<Conn>, q': seq<Conn>, held': seq<Conn>)
    requires HandedOver(q, held, q', held')
    ensures Balanced(q, held, q', held')
  {
    if Takes(q, held, q', held') {
      assert q == [q[0]] + q[1..];
    } else if Returns(q, held, q', held') {
      assert held == [held[0]] + held[1..];
    }
  }

  lemma MoveStaysShaped(s: State, a: Actor, move: Move)
    requires CanMove(s, a, move) && ShapedActor(s.n, a)
    ensures ShapedActor(s.n, NextActor(s, a, move))
  {
  }

  /** A move of a thread passes at most one connection between its hands and the queue. */
  lemma MoveHandsOver(s: State, a: Actor, move: Move)
    requires CanMove(s, a, move) && ShapedActor(s.n, a)
    ensures var q, h, q', h' := s.queue, Held(a), NextQueue(s, a, move), Held(NextActor(s, a, move));
            && HandedOver(q, h, q', h')
            && (q' != q ==> move.Get? || move.Lock? || move.Put? || move.Unlock?)
  {
  }

  lemma MoveKeepsOwned(s: State, t: nat, move: Move)
    requires Owned(s) && t < |s.actors| && CanMove(s, s.actors[t], move)
    ensures Owned(DoMove(s, t, move))
  {
    var a := s.actors[t];
    MoveStaysShaped(s, a, move);
    MoveHandsOver(s, a, move);
    ActorStepConserves(s, t, NextActor(s, a, move), NextQueue(s, a, move), DoMove(s, t, move));
  }

  lemma ChoreHandsOver(s: State, chore: Chore)
    requires CanKeep(s, chore) && Shaped(s)
    ensures var s' := DoChore(s, chore);
            var q, h, q', h' := s.queue, HeldByKeeper(s.keeper), s'.queue, HeldByKeeper(s'.keeper);
            if chore.Take? then Takes(q, h, q', h')
            else if chore.PutBack? then Returns(q, h, q', h')
            else q' == q && h' == h
  {
  }

  lemma ChoreStaysShaped(s: State, chore: Chore)
    requires CanKeep(s, chore) && Shaped(s)
    ensures Shaped(DoChore(s, chore))
  {
  }

  lemma ChoreKeepsOwned(s: State, chore: Chore)
    requires Owned(s) && CanKeep(s, chore)
    ensures Owned(DoChore(s, chore))
  {
    var s' := DoChore(s, chore);
    ChoreHandsOver(s, chore);
    ChoreStaysShaped(s, chore);
    HandoverBalances(s.queue, HeldByKeeper(s.keeper), s'.queue, HeldByKeeper(s'.keeper));
    KeeperBalance(multiset(s.queue), multiset(s'.queue), HeldByAll(s.actors),
                  multiset(HeldByKeeper(s.keeper)), multiset(HeldByKeeper(s'.keeper)));
  }

  lemma KeeperBalance(q: multiset<Conn>, q': multiset<Conn>, h: multiset<Conn>, k: multiset<Conn>, k': multiset<Conn>)
    requires q' + k' == q + k
    ensures q' + h + k' == q + h + k
  {
    assert q' + h + k' == (q' + k') + h;
    assert q + h + k == (q + k) + h;
  }

  lemma StepKeepsOwned(s: State, step: Step)
    requires Enabled(s, step) && Owned(s)
    ensures Owned(Do(s, step))
  {
    match step
    case Thread(t, move) => MoveKeepsOwned(s, t, move);
    case Keep(chore) => ChoreKeepsOwned(s, chore);
    case Tick(_) =>
  }

  lemma {:induction false} InitOwned(n: nat, threads: nat, now: real)
    ensures Owned(Init(n, threads, now))
  {
    NobodyHolds(threads);
    QueueIsAll(n);
  }

  lemma {:induction false} NobodyHolds(threads: nat)
    ensures HeldByAll(seq(threads, _ => Idle)) == multiset{}
  {
    if threads != 0 {
      assert seq(threads, _ => Idle)[1..] == seq(threads - 1, _ => Idle);
      NobodyHolds(threads - 1);
    }
  }

  lemma {:induction false} QueueIsAll(n: nat)
    ensures multiset(Identity(n)) == All(n)
  {
    if n != 0 {
      assert Identity(n) == Identity(n - 1) + [n - 1];
      QueueIsAll(n - 1);
    }
  }

  lemma {:induction false} RunKeepsOwned(s: State, steps: seq<Step>)
    requires IsRun(s, steps) && Owned(s)
    ensures Owned(After(s, steps))
    decreases |steps|
  {
    if steps != [] {
      StepKeepsOwned(s, steps[0]);
      RunKeepsOwned(Do(s, steps[0]), steps[1..]);
    }
  }

  lemma ReachableIsOwned(s: State)
    requires Reachable(s)
    ensures Owned(s)
  {
    var threads: nat, start: real, steps: seq<Step> :|
      IsRun(Init(s.n, threads, start), steps) && After(Init(s.n, threads, start), steps) == s;
    InitOwned(s.n, threads, start);
    RunKeepsOwned(Init(s.n, threads, start), steps);
  }

  // ---- What ownership means

  ghost function Owners(s: State, c: Conn): nat {
    multiset(s.queue)[c] + HeldByAll(s.actors)[c] + multiset(HeldByKeeper(s.keeper))[c]
  }

  /** Every connection is in exactly one place: the queue, one thread, or the keeper. */
  lemma ExactlyOneOwner(s: State, c: Conn)
    requires Reachable(s)
    ensures Owners(s, c) == if c < s.n then 1 else 0
  {
    ReachableIsOwned(s);
    AllHasEachOnce(s.n);
    assert (multiset(s.queue) + HeldByAll(s.actors) + multiset(HeldByKeeper(s.keeper)))[c] == All(s.n)[c];
  }

  lemma {:induction false} HeldByOne(actors: seq<Actor>, t: nat)
    requires t < |actors|
    ensures multiset(Held(actors[t])) <= HeldByAll(actors)
  {
    if t != 0 { HeldByOne(actors[1..], t - 1); }
  }

  lemma WithoutOne(actors: seq<Actor>, t: nat)
    requires t < |actors|
    ensures HeldByAll(actors) == HeldByAll(actors[t := Idle]) + multiset(Held(actors[t]))
    ensures |HeldByAll(actors)| == |HeldByAll(actors[t := Idle])| + |Held(actors[t])|
  {
    ReplaceActor(actors, t, Idle);
    assert HeldByAll(actors) + multiset([]) == HeldByAll(actors);
    assert |multiset(Held(actors[t]))| == |Held(actors[t])|;
  }

  lemma Exclusive(s: State, t: nat, u: nat, c: Conn)
    requires Owned(s) && t < |s.actors| && u < |s.actors| && t != u
    requires c in Held(s.actors[t])
    ensures c !in Held(s.actors[u]) && c !in s.queue && c !in HeldByKeeper(s.keeper) && c < s.n
  {
    WithoutOne(s.actors, t);
    var others := s.actors[t := Idle];
    HeldByOne(others, u);
    AllHasEachOnce(s.n);
    assert c in multiset(Held(s.actors[t]));
    assert All(s.n)[c] == multiset(s.queue)[c] + HeldByAll(s.actors)[c] + multiset(HeldByKeeper(s.keeper))[c];
    assert others[u] == s.actors[u];
    assert multiset(Held(others[u]))[c] <= HeldByAll(others)[c];
  }

  /** A `put` never finds the queue full. */
  lemma PutNeverBlocks(s: State)
    requires Owned(s)
    ensures forall t :: 0 <= t < |s.actors| && Held(s.actors[t]) != [] ==> |s.queue| < s.n
    ensures HeldByKeeper(s.keeper) != [] ==> |s.queue| < s.n
  {
    AllHasEachOnce(s.n);
    var q, h, k := multiset(s.queue), HeldByAll(s.actors), multiset(HeldByKeeper(s.keeper));
    assert |q + h + k| == |q| + |h| + |k|;
    forall t | 0 <= t < |s.actors| && Held(s.actors[t]) != [] ensures |s.queue| < s.n {
      HeldByOne(s.actors, t);
      assert Held(s.actors[t])[0] in h;
    }
  }
}
