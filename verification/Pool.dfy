/**
 * The connection pool of output/rhv-upload-plugin.py as a transition system: threads running
 * requests, flushes and the final close, and the keeper thread, interleaved step by step over one
 * bounded queue.
 */
module Pool {
  import opened Wrappers

  type Conn = nat

  const IDLE_TIMEOUT := 30.0
  const WAKE_INTERVAL := 15.0  // IDLE_TIMEOUT / 2
  const SERVER_LIMIT := 60.0

  datatype Purpose = ToFlush | ToClose

  /** A thread of nbdkit, between two accesses to shared state. */
  datatype Actor =
    | Idle
    | Waiting                                                // in `pool.get ()` of a request
    | Using(conn: Conn)                                      // a request in flight
    | Returning(conn: Conn)                                  // about to `put`
    | Locking(purpose: Purpose, locked: seq<Conn>)           // taking all connections out
    | Sending(locked: seq<Conn>, sent: nat)                  // flush: sending
    | Unlocking(locked: seq<Conn>, returned: nat)            // flush: putting back
    | Closing(locked: seq<Conn>, shut: nat)
    | Closed(locked: seq<Conn>)

  datatype Keeper =
    | Asleep
    | Draining(idle: seq<Conn>)
    | Serving(idle: seq<Conn>, at: nat, now: real)           // looking at idle[at]
    | Putting(idle: seq<Conn>, at: nat, now: real)           // done with it
    | Stopped

  datatype Event = WriteDone(conn: Conn) | FlushSent(conn: Conn)

  datatype State = State(
    n: nat,                          // `pool.maxsize`
    queue: seq<Conn>,
    actors: seq<Actor>,
    keeper: Keeper,
    lastUsed: seq<Option<real>>,
    poolError: bool,
    done: bool,
    shut: set<Conn>,                 // connections that have been closed
    now: real,
    log: seq<Event>,                 // what the server has acknowledged
    lastWake: real,                  // when the keeper last finished a pass
    missed: set<Conn>)               // out of the pool at a wake-up, neither used nor served since

  /** What a thread does next. */
  datatype Move =
    | Start | Get | CompleteWrite | Release | Put
    | StartFlush | Lock | Locked | Send | SendFails | Sent | Unlock | Unlocked
    | StartClose | CloseOne | AllClosed

  /** What the keeper does next. */
  datatype Chore = Wake | Stop | Take | Emptied | Skip | KeepAlive | KeepAliveFails | PutBack

  datatype Step = Thread(t: nat, move: Move) | Keep(chore: Chore) | Tick(dt: real)

  predicate Expired(lastUsed: Option<real>, now: real) {
    lastUsed.Some? && now - lastUsed.value > IDLE_TIMEOUT
  }

  ghost predicate Enabled(s: State, step: Step) {
    match step
    case Tick(dt) => 0.0 < dt
    case Keep(chore) => CanKeep(s, chore)
    case Thread(t, move) => t < |s.actors| && CanMove(s, s.actors[t], move)
  }

  ghost predicate CanKeep(s: State, chore: Chore) {
    match chore
    case Wake => s.keeper.Asleep? && !s.done
    case Stop => s.keeper.Asleep? && s.done
    case Take => s.keeper.Draining? && s.queue != []
    case Emptied => s.keeper.Draining? && s.queue == []
    case Skip => ServingSome(s) && !Expired(s.lastUsed[s.keeper.idle[s.keeper.at]], s.keeper.now)
    case KeepAlive => ServingSome(s) && Expired(s.lastUsed[s.keeper.idle[s.keeper.at]], s.keeper.now)
    case KeepAliveFails => ServingSome(s) && Expired(s.lastUsed[s.keeper.idle[s.keeper.at]], s.keeper.now)
    case PutBack => s.keeper.Putting? && s.keeper.at < |s.keeper.idle| && |s.queue| < s.n
  }

  ghost predicate ServingSome(s: State) {
    && s.keeper.Serving? && s.keeper.at < |s.keeper.idle|
    && s.keeper.idle[s.keeper.at] < |s.lastUsed|
  }

  ghost predicate CanMove(s: State, a: Actor, move: Move) {
    match move
    case Start => a.Idle? && !s.poolError
    case Get => a.Waiting? && s.queue != []
    case CompleteWrite => a.Using?
    case Release => a.Using? && a.conn < |s.lastUsed|
    case Put => a.Returning? && |s.queue| < s.n
    case StartFlush => a.Idle? && !s.poolError
    case Lock => a.Locking? && |a.locked| < s.n && s.queue != []
    case Locked => a.Locking? && |a.locked| == s.n
    case Send => a.Sending? && a.sent < |a.locked| && a.locked[a.sent] < |s.lastUsed|
    case SendFails => a.Sending? && a.sent < |a.locked|
    case Sent => a.Sending? && a.sent == |a.locked|
    case Unlock => a.Unlocking? && a.returned < |a.locked| && |s.queue| < s.n
    case Unlocked => a.Unlocking? && a.returned == |a.locked|
    case StartClose => a.Idle? && !s.done
    case CloseOne => a.Closing? && a.shut < |a.locked|
    case AllClosed => a.Closing? && a.shut == |a.locked|
  }

  ghost function Do(s: State, step: Step): State
    requires Enabled(s, step)
  {
    match step
    case Tick(dt) => s.(now := s.now + dt)
    case Keep(chore) => DoChore(s, chore)
    case Thread(t, move) => DoMove(s, t, move)
  }

  ghost function DoChore(s: State, chore: Chore): State
    requires CanKeep(s, chore)
  {
    var k := s.keeper;
    match chore
    case Wake => s.(keeper := Draining([]))
    case Stop => s.(keeper := Stopped)
    case Take => s.(keeper := Draining(k.idle + [s.queue[0]]), queue := s.queue[1..])
    case Emptied => DoEmptied(s)
    case Skip => s.(keeper := Putting(k.idle, k.at, k.now), missed := s.missed - {k.idle[k.at]})
    case KeepAlive =>
      var c := k.idle[k.at];
      s.(keeper := Putting(k.idle, k.at, k.now), missed := s.missed - {c},
         lastUsed := s.lastUsed[c := Some(k.now)], log := s.log + [FlushSent(c)])
    case KeepAliveFails =>
      s.(keeper := Putting(k.idle, k.at, k.now),
         lastUsed := s.lastUsed[k.idle[k.at] := None], poolError := true)
    case PutBack =>
      var more := k.at + 1 < |k.idle|;
      s.(queue := s.queue + [k.idle[k.at]],
         keeper := if more then Serving(k.idle, k.at + 1, k.now) else Asleep,
         lastWake := if more then s.lastWake else s.now)
  }

  /** The keeper has drained the queue; whatever it did not get is out of the pool at this wake-up. */
  ghost function DoEmptied(s: State): State
    requires s.keeper.Draining?
  {
    var idle := s.keeper.idle;
    var missed := s.missed + set c: nat | c < s.n && c !in idle;
    if idle == [] then s.(keeper := Asleep, lastWake := s.now, missed := missed)
    else s.(keeper := Serving(idle, 0, s.now), missed := missed)
  }

  ghost function DoMove(s: State, t: nat, move: Move): State
    requires t < |s.actors| && CanMove(s, s.actors[t], move)
  {
    var a := s.actors[t];
    var touched := Touched(a, move);
    s.(actors := s.actors[t := NextActor(s, a, move)],
       queue := NextQueue(s, a, move),
       // `item.last_used = time.monotonic ()`
       lastUsed := if touched.Some? then s.lastUsed[touched.value := Some(s.now)] else s.lastUsed,
       missed := if touched.Some? then s.missed - {touched.value} else s.missed,
       log := s.log + Logged(a, move),
       done := s.done || move.StartClose?,
       shut := if move.CloseOne? then s.shut + {a.locked[a.shut]} else s.shut)
  }

  ghost function NextActor(s: State, a: Actor, move: Move): Actor
    requires CanMove(s, a, move)
  {
    match move
    case Start => Waiting
    case Get => Using(s.queue[0])
    case CompleteWrite => a
    case Release => Returning(a.conn)
    case Put => Idle
    case StartFlush => Locking(ToFlush, [])
    case Lock => Locking(a.purpose, a.locked + [s.queue[0]])
    case Locked => if a.purpose.ToFlush? then Sending(a.locked, 0) else Closing(a.locked, 0)
    case Send => Sending(a.locked, a.sent + 1)
    case SendFails => Unlocking(a.locked, 0)
    case Sent => Unlocking(a.locked, 0)
    case Unlock => Unlocking(a.locked, a.returned + 1)
    case Unlocked => Idle
    case StartClose => Locking(ToClose, [])
    case CloseOne => Closing(a.locked, a.shut + 1)
    case AllClosed => Closed(a.locked)
  }

  ghost function NextQueue(s: State, a: Actor, move: Move): seq<Conn>
    requires CanMove(s, a, move)
  {
    match move
    case Get => s.queue[1..]
    case Lock => s.queue[1..]
    case Put => s.queue + [a.conn]
    case Unlock => s.queue + [a.locked[a.returned]]
    case _ => s.queue
  }

  ghost function Touched(a: Actor, move: Move): Option<Conn> {
    if move.Release? && a.Using? then Some(a.conn)
    else if move.Send? && a.Sending? && a.sent < |a.locked| then Some(a.locked[a.sent])
    else None
  }

  ghost function Logged(a: Actor, move: Move): seq<Event> {
    if move.CompleteWrite? && a.Using? then [WriteDone(a.conn)]
    else if move.Send? && a.Sending? && a.sent < |a.locked| then [FlushSent(a.locked[a.sent])]
    else []
  }

  ghost function Identity(n: nat): (q: seq<Conn>)
    ensures |q| == n && forall i :: 0 <= i < n ==> q[i] == i
  {
    seq(n, i => i)
  }

  /** `create_http_pool` has filled the queue; `threads` threads are at rest. */
  ghost function Init(n: nat, threads: nat, now: real): State {
    State(n, Identity(n), seq(threads, _ => Idle), Asleep, seq(n, _ => None),
          false, false, {}, now, [], now, {})
  }

  ghost predicate IsRun(s: State, steps: seq<Step>)
    decreases |steps|
  {
    steps == [] || (Enabled(s, steps[0]) && IsRun(Do(s, steps[0]), steps[1..]))
  }

  ghost function After(s: State, steps: seq<Step>): State
    requires IsRun(s, steps)
    decreases |steps|
  {
    if steps == [] then s else After(Do(s, steps[0]), steps[1..])
  }

  /** Some interleaving leads from a fresh pool of `n` connections to this state. */
  ghost predicate Reachable(s: State) {
    exists threads: nat, start: real, steps: seq<Step> ::
      IsRun(Init(s.n, threads, start), steps) && After(Init(s.n, threads, start), steps) == s
  }
}
