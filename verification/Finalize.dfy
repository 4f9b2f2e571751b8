/**
 * `rhv-upload-finalize.py` against the engine its documentation describes.  The engine works on
 * all transfers at once while the script polls them one after the other.
 */
module Finalize {
  datatype Phase = InProgress | FinishedSuccess | FinishedFailure | PausedSystem

  datatype Transfer = Present(phase: Phase) | TransferRemoved

  datatype Disk = Pending | OK | Illegal | DiskRemoved

  /** A transfer, its disk, and the lock the engine holds on the disk. */
  datatype Job = Job(transfer: Transfer, disk: Disk, locked: bool, asked: bool)

  const TIMEOUT := 300.0

  datatype Work = SetOk | SetIllegal | Unlock | Succeed | Fail | Pause | RemoveDisk | RemoveTransfer

  /**
   * What the engine may do to a job.  The documentation promises an order only on the way to success:
   * the disk is OK before it is unlocked, and unlocked before the transfer succeeds or is removed.
   * The steps of a failure may come in any order.
   */
  ghost predicate CanWork(j: Job, w: Work) {
    match w
    case SetOk => j.asked && j.transfer == Present(InProgress) && j.disk == Pending
    case SetIllegal => j.disk == Pending
    case Unlock => j.locked && (j.disk != Pending || j.transfer == Present(FinishedFailure))
    case Succeed => j.transfer == Present(InProgress) && j.disk == OK && !j.locked
    case Fail => j.transfer == Present(InProgress) && j.disk != OK
    case Pause => j.transfer == Present(InProgress) && j.disk != OK
    case RemoveDisk => j.disk == Illegal
    case RemoveTransfer =>
      (j.transfer == Present(FinishedSuccess) || j.transfer == Present(FinishedFailure)) && !j.locked
  }

  ghost function DoWork(j: Job, w: Work): Job
    requires CanWork(j, w)
  {
    match w
    case SetOk => j.(disk := OK)
    case SetIllegal => j.(disk := Illegal)
    case Unlock => j.(locked := false)
    case Succeed => j.(transfer := Present(FinishedSuccess))
    case Fail => j.(transfer := Present(FinishedFailure))
    case Pause => j.(transfer := Present(PausedSystem))
    case RemoveDisk => j.(disk := DiskRemoved)
    case RemoveTransfer => j.(transfer := TransferRemoved)
  }

  /** Where the script is within `finalize_transfer`, or how it ended. */
  datatype Script =
    | Calling                 // about to call `finalize ()`
    | Sleeping
    | Polling                 // about to get the transfer
    | CheckingDisk            // the transfer was not found
    | CheckingTime            // the transfer is in no final phase
    | Finished                // all transfers done
    | Raised                  // a RuntimeError

  datatype State = State(jobs: seq<Job>, current: nat, script: Script, start: real, now: real, polls: nat)

  datatype Step =
    | Engine(job: nat, work: Work)
    | CallFinalize | WakeUp(slept: real) | Poll | CheckDisk | CheckTime
    | Elapse(dt: real)

  ghost predicate Enabled(s: State, step: Step) {
    match step
    case Engine(i, w) => i < |s.jobs| && CanWork(s.jobs[i], w)
    case Elapse(dt) => 0.0 <= dt
    case CallFinalize => s.script.Calling? && s.current < |s.jobs|
    case WakeUp(slept) => s.script.Sleeping? && 1.0 <= slept
    case Poll => s.script.Polling? && s.current < |s.jobs|
    case CheckDisk => s.script.CheckingDisk? && s.current < |s.jobs|
    case CheckTime => s.script.CheckingTime?
  }

  /** The loop is left; the next transfer, if any, is taken up. */
  ghost function NextTransfer(s: State): State {
    s.(current := s.current + 1, script := if s.current + 1 < |s.jobs| then Calling else Finished)
  }

  ghost function AfterPoll(s: State, t: Transfer): State {
    match t
    case TransferRemoved => s.(script := CheckingDisk)
    case Present(FinishedSuccess) => NextTransfer(s)
    case Present(InProgress) => s.(script := CheckingTime)
    case Present(_) => s.(script := Raised)
  }

  ghost function Do(s: State, step: Step): State
    requires Enabled(s, step)
  {
    match step
    case Engine(i, w) => s.(jobs := s.jobs[i := DoWork(s.jobs[i], w)])
    case Elapse(dt) => s.(now := s.now + dt)
    case CallFinalize =>
      s.(jobs := s.jobs[s.current := s.jobs[s.current].(asked := true)],
         start := s.now, polls := 0, script := Sleeping)
    case WakeUp(slept) => s.(now := s.now + slept, script := Polling)
    case Poll => AfterPoll(s.(polls := s.polls + 1), s.jobs[s.current].transfer)
    case CheckDisk => if s.jobs[s.current].disk == OK then NextTransfer(s) else s.(script := Raised)
    case CheckTime => s.(script := if s.now > s.start + TIMEOUT then Raised else Sleeping)
  }

  /** Uploads are over: every transfer is in progress and its disk locked. */
  ghost predicate Initial(s: State) {
    && (forall i :: 0 <= i < |s.jobs| ==> s.jobs[i] == Job(Present(InProgress), Pending, true, false))
    && s.current == 0 && s.script == (if s.jobs == [] then Finished else Calling)
    && s.polls == 0 && s.start == s.now
  }

  ghost predicate IsRun(s: State, steps: seq<Step>)
    decreases |steps|
  {
    steps == [] || (Enabled(s, steps[0]) && IsRun(Do(s, steps[0]), steps[1..]))
  }

  ghost function After(s: State, steps: seq<Step>): State
    requires IsRun(s, steps)
    decreases |steps|
  {
    if steps == [] then s else After(Do(s, steps[0]), steps[1..])
  }

  // ---- What every step keeps

  /** The order the documentation promises, as a property of a job at any time. */
  ghost predicate InOrder(j: Job) {
    && (j.transfer == Present(FinishedSuccess) ==> j.disk == OK && !j.locked)
    && (j.transfer == TransferRemoved ==> !j.locked)
  }

  ghost predicate Ready(j: Job) {
    j.disk == OK && !j.locked
  }

  ghost predicate Inv(s: State) {
    && s.current <= |s.jobs|
    && (forall i :: 0 <= i < |s.jobs| ==> InOrder(s.jobs[i]))
    && (forall i :: 0 <= i < s.current ==> Ready(s.jobs[i]))
    && (s.script.Finished? <==> s.current == |s.jobs|)
    && (s.script.CheckingDisk? ==> s.jobs[s.current].transfer == TransferRemoved)
    && Timed(s)
  }

  /** Every poll has been preceded by a second of sleep, and none follows a timeout. */
  ghost predicate Timed(s: State) {
    && s.polls <= 301
    && (s.script.Sleeping? ==> s.polls <= 300 && s.start + s.polls as real <= s.now)
    && (s.script.Polling? ==> s.polls <= 300 && s.start + s.polls as real + 1.0 <= s.now)
    && (s.script.CheckingTime? ==> s.start + s.polls as real <= s.now)
  }

  lemma WorkKeepsOrder(j: Job, w: Work)
    requires CanWork(j, w) && InOrder(j)
    ensures InOrder(DoWork(j, w))
    ensures Ready(j) ==> Ready(DoWork(j, w))
    ensures j.transfer == TransferRemoved ==> DoWork(j, w).transfer == TransferRemoved
  {
  }

  lemma EngineKeepsInv(s: State, i: nat, w: Work)
    requires Inv(s) && Enabled(s, Engine(i, w))
    ensures Inv(Do(s, Engine(i, w)))
  {
    WorkKeepsOrder(s.jobs[i], w);
  }

  lemma StepKeepsInv(s: State, step: Step)
    requires Inv(s) && Enabled(s, step)
    ensures Inv(Do(s, step))
  {
    if step.Engine? {
      EngineKeepsInv(s, step.job, step.work);
    } else if step.CheckTime? {
      assert s.now <= s.start + TIMEOUT ==> s.polls as real <= 300.0;
    } else if step.Poll? || step.CheckDisk? {
      assert InOrder(s.jobs[s.current]);
    }
  }

  lemma {:induction false} RunKeepsInv(s: State, steps: seq<Step>)
    requires IsRun(s, steps) && Inv(s)
    ensures Inv(After(s, steps))
    decreases |steps|
  {
    if steps != [] {
      StepKeepsInv(s, steps[0]);
      RunKeepsInv(Do(s, steps[0]), steps[1..]);
    }
  }

  /**
   * In every interleaving a normal end of the script means that every disk is OK and unlocked, and
   * no wait makes more than 301 polls.
   */
  lemma NormalEndMeansReady(s: State, steps: seq<Step>)
    requires Initial(s) && IsRun(s, steps)
    ensures After(s, steps).script.Finished? ==>
              forall i :: 0 <= i < |After(s, steps).jobs| ==> Ready(After(s, steps).jobs[i])
    ensures After(s, steps).polls <= 301
  {
    RunKeepsInv(s, steps);
  }

  /** It stays so, whatever the engine does afterwards. */
  lemma {:induction false} ReadyForGood(s: State, steps: seq<Step>, i: nat)
    requires IsRun(s, steps) && Inv(s) && i < |s.jobs| && Ready(s.jobs[i])
    ensures i < |After(s, steps).jobs| && Ready(After(s, steps).jobs[i])
    decreases |steps|
  {
    if steps != [] {
      StepKeepsInv(s, steps[0]);
      if steps[0].Engine? { WorkKeepsOrder(s.jobs[steps[0].job], steps[0].work); }
      ReadyForGood(Do(s, steps[0]), steps[1..], i);
    }
  }

  /** Looking at the disk alone is not enough: it can be OK while the engine still locks it. */
  lemma OkButLocked(s: State)
    requires Initial(s) && s.jobs != []
    ensures var steps := [CallFinalize, Engine(0, SetOk)];
            IsRun(s, steps) && After(s, steps).jobs[0].disk == OK && After(s, steps).jobs[0].locked
  {
    var steps := [CallFinalize, Engine(0, SetOk)];
    var s1 := Do(s, CallFinalize);
    assert steps[1..] == [Engine(0, SetOk)];
    var s2 := Do(s1, Engine(0, SetOk));
    assert [Engine(0, SetOk)][1..] == [];
    assert IsRun(s2, []) && IsRun(s1, [Engine(0, SetOk)]);
  }

  /** The 301st poll is possible: the bound cannot be lowered. */
  ghost function Wait(k: nat): seq<Step> {
    if k == 0 then [] else [WakeUp(1.0), Poll, CheckTime] + Wait(k - 1)
  }

  lemma {:induction false} WaitRuns(s: State, k: nat)
    requires s.script.Sleeping? && s.current < |s.jobs| && s.jobs[s.current].transfer == Present(InProgress)
    requires s.now == s.start + s.polls as real && s.polls + k <= 300
    ensures IsRun(s, Wait(k))
    ensures After(s, Wait(k)) == s.(now := s.now + k as real, polls := s.polls + k)
    decreases k
  {
    if k != 0 {
      var s1 := Do(s, WakeUp(1.0));
      var s2 := Do(s1, Poll);
      var s3 := Do(s2, CheckTime);
      assert s3 == s.(now := s.now + 1.0, polls := s.polls + 1);
      WaitRuns(s3, k - 1);
      var rest := Wait(k - 1);
      assert Wait(k)[1..] == [Poll, CheckTime] + rest;
      assert ([Poll, CheckTime] + rest)[1..] == [CheckTime] + rest;
      assert ([CheckTime] + rest)[1..] == rest;
      assert IsRun(s2, [CheckTime] + rest) && IsRun(s1, [Poll, CheckTime] + rest);
      assert After(s2, [CheckTime] + rest) == After(s3, rest);
      assert After(s1, [Poll, CheckTime] + rest) == After(s2, [CheckTime] + rest);
      assert After(s, Wait(k)) == After(s1, [Poll, CheckTime] + rest);
      assert s3.now + (k - 1) as real == s.now + k as real;
    }
  }

  lemma {:induction false} RunsJoin(s: State, u: seq<Step>, v: seq<Step>)
    requires IsRun(s, u) && IsRun(After(s, u), v)
    ensures IsRun(s, u + v) && After(s, u + v) == After(After(s, u), v)
    decreases |u|
  {
    if u == [] {
      assert u + v == v;
    } else {
      assert (u + v)[1..] == u[1..] + v;
      RunsJoin(Do(s, u[0]), u[1..], v);
    }
  }

  /** One more poll after 300 of them. */
  lemma LastPoll(s: State)
    requires s.script.Sleeping? && s.current < |s.jobs|
    ensures IsRun(s, LAST) && After(s, LAST).polls == s.polls + 1
  {
    var s1 := Do(s, WakeUp(1.0));
    assert LAST[1..] == [Poll] && [Poll][1..] == [];
    assert IsRun(Do(s1, Poll), []) && IsRun(s1, [Poll]);
    assert After(s1, [Poll]) == Do(s1, Poll);
  }

  const LAST: seq<Step> := [WakeUp(1.0), Poll]

  lemma FirstOf(s: State, step: Step, rest: seq<Step>)
    requires Enabled(s, step) && IsRun(Do(s, step), rest)
    ensures IsRun(s, [step] + rest) && After(s, [step] + rest) == After(Do(s, step), rest)
  {
    assert ([step] + rest)[1..] == rest;
  }

  lemma BoundIsReached(s: State)
    requires Initial(s) && s.jobs != []
    ensures exists steps :: IsRun(s, steps) && After(s, steps).polls == 301
  {
    var s1 := Do(s, CallFinalize);
    var k := 300;
    WaitRuns(s1, k);
    LastPoll(After(s1, Wait(k)));
    RunsJoin(s1, Wait(k), LAST);
    FirstOf(s, CallFinalize, Wait(k) + LAST);
    assert IsRun(s, [CallFinalize] + (Wait(k) + LAST));
  }

  // ---- When the script raises

  /** The engine has given up on the transfer, or removed it and left a disk that is not OK. */
  ghost predicate Failed(j: Job) {
    || j.transfer == Present(FinishedFailure) || j.transfer == Present(PausedSystem)
    || (j.transfer == TransferRemoved && j.disk != OK)
  }

  /** The script raises in this step exactly when it sees a failure, or when time is up. */
  lemma RaisesExactlyWhen(s: State, step: Step)
    requires Inv(s) && Enabled(s, step) && !s.script.Raised?
    ensures Do(s, step).script.Raised? <==>
            || (step.Poll? && Failed(s.jobs[s.current]) && s.jobs[s.current].transfer != TransferRemoved)
            || (step.CheckDisk? && Failed(s.jobs[s.current]))
            || (step.CheckTime? && s.now - s.start > 300.0)
  {
  }

  /** It goes on to the next transfer, or ends, exactly when it sees success. */
  lemma AdvancesExactlyWhen(s: State, step: Step)
    requires Inv(s) && Enabled(s, step)
    ensures Do(s, step).current != s.current <==>
            || (step.Poll? && s.jobs[s.current].transfer == Present(FinishedSuccess))
            || (step.CheckDisk? && s.jobs[s.current].disk == OK)
    ensures Do(s, step).current != s.current ==>
            && Do(s, step).current == s.current + 1 && Ready(s.jobs[s.current])
            && Do(s, step).script == if s.current + 1 == |s.jobs| then Finished else Calling
  {
  }

  /** What has made the script raise stays visible. */
  ghost predicate RaisedForCause(s: State) {
    && (forall i :: 0 <= i < |s.jobs| && s.jobs[i].transfer == Present(FinishedFailure) ==> s.jobs[i].disk != OK)
    && (s.script.Raised? ==> s.current < |s.jobs| && (Failed(s.jobs[s.current]) || s.now - s.start > 300.0))
  }

  lemma WorkKeepsFailure(j: Job, w: Work)
    requires CanWork(j, w) && (j.transfer == Present(FinishedFailure) ==> j.disk != OK)
    ensures DoWork(j, w).transfer == Present(FinishedFailure) ==> DoWork(j, w).disk != OK
    ensures Failed(j) ==> Failed(DoWork(j, w))
  {
  }

  lemma StepKeepsCause(s: State, step: Step)
    requires Inv(s) && RaisedForCause(s) && Enabled(s, step)
    ensures RaisedForCause(Do(s, step))
  {
    if step.Engine? {
      WorkKeepsFailure(s.jobs[step.job], step.work);
    } else if !s.script.Raised? {
      RaisesExactlyWhen(s, step);
    }
  }

  lemma {:induction false} RunKeepsCause(s: State, steps: seq<Step>)
    requires Inv(s) && RaisedForCause(s) && IsRun(s, steps)
    ensures RaisedForCause(After(s, steps))
    decreases |steps|
  {
    if steps != [] {
      StepKeepsInv(s, steps[0]);
      StepKeepsCause(s, steps[0]);
      RunKeepsCause(Do(s, steps[0]), steps[1..]);
    }
  }

  /** When `finalize ()` was last called, told from the run. */
  ghost function CalledAt(s: State, steps: seq<Step>, before: real): real
    requires IsRun(s, steps)
    decreases |steps|
  {
    if steps == [] then before
    else CalledAt(Do(s, steps[0]), steps[1..], if steps[0] == CallFinalize then s.now else before)
  }

  lemma {:induction false} StartIsCall(s: State, steps: seq<Step>)
    requires IsRun(s, steps)
    ensures After(s, steps).start == CalledAt(s, steps, s.start)
    decreases |steps|
  {
    if steps != [] { StartIsCall(Do(s, steps[0]), steps[1..]); }
  }

  /**
   * In every interleaving the script raises only if the engine has failed the transfer it waits for,
   * or more than 300 seconds have passed since it asked for it.
   */
  lemma RaisesOnlyForCause(s: State, steps: seq<Step>)
    requires Initial(s) && IsRun(s, steps) && After(s, steps).script.Raised?
    ensures var s' := After(s, steps);
            && s'.current < |s'.jobs|
            && (Failed(s'.jobs[s'.current]) || s'.now - CalledAt(s, steps, s.start) > 300.0)
  {
    RunKeepsCause(s, steps);
    StartIsCall(s, steps);
  }

  // ---- An engine that succeeds

  /** What is asked for is done, unlocked and reported before the first poll. */
  ghost function Success(i: nat): seq<Step> {
    [CallFinalize] + ([Engine(i, SetOk)] + ([Engine(i, Unlock)] + ([Engine(i, Succeed)] + LAST)))
  }

  ghost function Fresh(): Job { Job(Present(InProgress), Pending, true, false) }

  /** The first `i` jobs have been seen through; the others have not been begun. */
  ghost predicate Begun(s: State, i: nat) {
    && i <= |s.jobs| && s.current == i && s.script == (if i == |s.jobs| then Finished else Calling)
    && (forall k :: i <= k < |s.jobs| ==> s.jobs[k] == Fresh())
  }

  lemma SeenThrough(s: State, i: nat)
    requires Begun(s, i) && i < |s.jobs|
    ensures IsRun(s, Success(i)) && Begun(After(s, Success(i)), i + 1) && |After(s, Success(i)).jobs| == |s.jobs|
  {
    var s1 := Do(s, CallFinalize);
    var s2 := Do(s1, Engine(i, SetOk));
    var s3 := Do(s2, Engine(i, Unlock));
    var s4 := Do(s3, Engine(i, Succeed));
    PollSucceeds(s4);
    FirstOf(s3, Engine(i, Succeed), LAST);
    FirstOf(s2, Engine(i, Unlock), [Engine(i, Succeed)] + LAST);
    FirstOf(s1, Engine(i, SetOk), [Engine(i, Unlock)] + ([Engine(i, Succeed)] + LAST));
    FirstOf(s, CallFinalize, [Engine(i, SetOk)] + ([Engine(i, Unlock)] + ([Engine(i, Succeed)] + LAST)));
  }

  /** A transfer that has succeeded is seen at the next poll. */
  lemma PollSucceeds(s: State)
    requires s.script.Sleeping? && s.current < |s.jobs| && s.jobs[s.current].transfer == Present(FinishedSuccess)
    ensures IsRun(s, LAST)
    ensures var s' := After(s, LAST);
            && s'.jobs == s.jobs && s'.current == s.current + 1
            && s'.script == if s.current + 1 == |s.jobs| then Finished else Calling
  {
    var s1 := Do(s, WakeUp(1.0));
    assert LAST[1..] == [Poll] && [Poll][1..] == [];
    assert IsRun(Do(s1, Poll), []) && IsRun(s1, [Poll]);
    assert After(s1, [Poll]) == Do(s1, Poll);
  }

  ghost function Successes(i: nat, n: nat): seq<Step>
    requires i <= n
    decreases n - i
  {
    if i == n then [] else Success(i) + Successes(i + 1, n)
  }

  lemma {:induction false} AllSeenThrough(s: State, i: nat)
    requires Begun(s, i)
    ensures IsRun(s, Successes(i, |s.jobs|)) && After(s, Successes(i, |s.jobs|)).script.Finished?
    decreases |s.jobs| - i
  {
    if i < |s.jobs| {
      SeenThrough(s, i);
      var s1 := After(s, Success(i));
      AllSeenThrough(s1, i + 1);
      RunsJoin(s, Success(i), Successes(i + 1, |s.jobs|));
    }
  }

  /** With an engine that brings every transfer to success in time the script ends normally, whatever their number. */
  lemma SuccessEndsNormally(s: State)
    requires Initial(s)
    ensures IsRun(s, Successes(0, |s.jobs|)) && After(s, Successes(0, |s.jobs|)).script.Finished?
  {
    AllSeenThrough(s, 0);
  }

  /** The script ends normally only after asking for every transfer. */
  ghost predicate AskedSoFar(s: State) {
    && s.current <= |s.jobs| && (s.script.Finished? ==> s.current == |s.jobs|)
    && (forall i :: 0 <= i < s.current ==> s.jobs[i].asked)
    && (!s.script.Calling? && s.current < |s.jobs| ==> s.jobs[s.current].asked)
  }

  lemma StepKeepsAsked(s: State, step: Step)
    requires AskedSoFar(s) && Enabled(s, step)
    ensures AskedSoFar(Do(s, step))
  {
  }

  lemma {:induction false} FinishedHasAsked(s: State, steps: seq<Step>)
    requires AskedSoFar(s) && IsRun(s, steps)
    ensures AskedSoFar(After(s, steps))
    ensures After(s, steps).script.Finished? ==> forall i :: 0 <= i < |After(s, steps).jobs| ==> After(s, steps).jobs[i].asked
    decreases |steps|
  {
    if steps != [] {
      StepKeepsAsked(s, steps[0]);
      FinishedHasAsked(Do(s, steps[0]), steps[1..]);
    }
  }
}
