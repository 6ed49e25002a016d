/**
 The phase barrier with removable threads. A step is one section under the barrier's lock, one
 notification, or a spurious wake-up; any thread may take any enabled step.
 */
module Barrier {
  import opened Sets

  // ---- The fields and the locked sections.

  datatype Core = Core(running: int, phase: int, entered: int)

  /** How a locked section ends: the caller waits, leaves, was last, or the check at entry failed. */
  datatype Ending = Wait | Leave | Last | CheckFailed

  /** The beginning of createBarrier, up to the wait. */
  function Arrive(c: Core): (Core, Ending) {
    if c.entered >= c.running then (c, CheckFailed)
    else if c.entered + 1 < c.running then (c.(entered := c.entered + 1), Wait)
    else (Core(c.running, c.phase + 1, 0), Last)
  }

  /** The wait condition evaluated by a thread that entered in phase p, and what follows. */
  function Recheck(c: Core, p: int): (Core, Ending) {
    if c.phase > p then (c, Leave)
    else if c.entered == c.running then (Core(c.running, c.phase + 1, 0), Last)
    else (c, Wait)
  }

  function Remove(c: Core): Core { c.(running := c.running - 1) }

  /** Entering for any counters: refused exactly when all registered threads are inside already, and
      otherwise one more is; waiting exactly when others are missing; else everybody is let out into
      the next phase. */
  lemma ArriveCounts(c: Core)
    ensures var (c', e) := Arrive(c);
      && (e.CheckFailed? <==> c.running <= c.entered) && (e.CheckFailed? ==> c' == c)
      && (e.Wait? <==> c.entered + 1 < c.running) && (e.Wait? ==> c' == Core(c.running, c.phase, c.entered + 1))
      && (e.Last? <==> c.entered + 1 == c.running) && (e.Last? ==> c' == Core(c.running, c.phase + 1, 0))
  {
  }

  /** Waking for any counters: a thread of an earlier phase leaves; one whose phase everybody has
      entered lets all out; any other waits on. */
  lemma RecheckCounts(c: Core, p: int)
    ensures var (c', e) := Recheck(c, p);
      && (e.Leave? <==> p < c.phase) && (e.Last? <==> c.phase <= p && c.running == c.entered) && !e.CheckFailed?
      && c' == if e.Last? then Core(c.running, c.phase + 1, 0) else c
  {
  }

  class Barrier {
    var runningThreads: int
    var phaseNumber: int
    var entered: int

    ghost function Abs(): Core
      reads this
    {
      Core(runningThreads, phaseNumber, entered)
    }

    constructor (numThreads: int)
      ensures Abs() == Core(numThreads, 0, 0)
    {
      runningThreads, phaseNumber, entered := numThreads, 0, 0;
    }

    method ArriveLocked() returns (e: Ending)
      modifies this
      ensures (Abs(), e) == Arrive(old(Abs()))
    {
      if entered >= runningThreads {
        return CheckFailed;
      }
      entered := entered + 1;
      if entered < runningThreads {
        return Wait;
      }
      phaseNumber := phaseNumber + 1;
      entered := 0;
      return Last;
    }

    method RecheckLocked(p: int) returns (e: Ending)
      modifies this
      ensures (Abs(), e) == Recheck(old(Abs()), p)
    {
      if !(phaseNumber > p || entered == runningThreads) {
        return Wait;
      }
      if phaseNumber > p {
        return Leave;
      }
      phaseNumber := phaseNumber + 1;
      entered := 0;
      return Last;
    }

    method RemoveThread() returns (notify: bool)
      modifies this
      ensures Abs() == Remove(old(Abs())) && notify == (old(entered) != 0)
    {
      runningThreads := runningThreads - 1;
      notify := entered != 0;
    }
  }

  // ---- All interleavings.

  datatype Thread =
    | Outside
    | Asleep(p: int)       // waiting on the condition since phase p
    | Awake(p: int)        // woken, about to take the lock and check again
    | Notifying            // was last; notify_all still to come
    | Gone

  /** One return from wait: the phase it belongs to and whether it returned true. */
  datatype Return = Return(phase: int, last: bool)

  datatype State = State(
    core: Core,
    threads: seq<Thread>,
    entries: seq<nat>,      // how often each thread has entered the barrier
    log: seq<Return>,
    failed: bool)           // the check at entry fired

  datatype Step = Enter(t: nat) | Check(t: nat) | Notify(t: nat) | Spurious(t: nat) | Quit(t: nat)

  ghost function Init(n: nat): State {
    State(Core(n, 0, 0), seq(n, i => Outside), seq(n, i => 0), [], false)
  }

  predicate Enabled(s: State, step: Step) {
    step.t < |s.threads| && |s.entries| == |s.threads|
    && match step
       case Enter(t) => s.threads[t].Outside?
       case Check(t) => s.threads[t].Awake?
       case Notify(t) => s.threads[t].Notifying?
       case Spurious(t) => s.threads[t].Asleep?
       case Quit(t) => s.threads[t].Outside?
  }

  function Woken(x: Thread): Thread {
    if x.Asleep? then Awake(x.p) else x
  }

  function WakeAll(ts: seq<Thread>): (r: seq<Thread>)
    ensures |r| == |ts| && forall i :: 0 <= i < |ts| ==> r[i] == Woken(ts[i])
  {
    seq(|ts|, i requires 0 <= i < |ts| => Woken(ts[i]))
  }

  function Next(s: State, step: Step): State
    requires Enabled(s, step)
  {
    match step
    case Enter(t) =>
      var (c, e) := Arrive(s.core);
      if e.CheckFailed? then s.(failed := true)
      else if e.Wait? then
        s.(core := c, threads := s.threads[t := Asleep(s.core.phase)], entries := s.entries[t := s.entries[t] + 1])
      else
        s.(core := c, threads := s.threads[t := Notifying], entries := s.entries[t := s.entries[t] + 1],
           log := s.log + [Return(s.core.phase, true)])
    case Check(t) =>
      var p := s.threads[t].p;
      var (c, e) := Recheck(s.core, p);
      if e.Wait? then s.(threads := s.threads[t := Asleep(p)])
      else if e.Leave? then s.(threads := s.threads[t := Outside], log := s.log + [Return(p, false)])
      else s.(core := c, threads := s.threads[t := Notifying], log := s.log + [Return(p, true)])
    case Notify(t) => s.(threads := WakeAll(s.threads[t := Outside]))
    case Spurious(t) => s.(threads := s.threads[t := Woken(s.threads[t])])
    case Quit(t) =>
      var ts := s.threads[t := Gone];
      s.(core := Remove(s.core), threads := if s.core.entered != 0 then WakeAll(ts) else ts)
  }

  // ---- The invariant.

  predicate Inside(x: Thread, p: int) {
    (x.Asleep? || x.Awake?) && x.p == p
  }

  ghost function Registered(ts: seq<Thread>): set<nat> {
    set i: nat | i < |ts| && !ts[i].Gone?
  }

  ghost function Waiting(ts: seq<Thread>, p: int): set<nat> {
    set i: nat | i < |ts| && Inside(ts[i], p)
  }

  /** A thread waits for the current phase, or has yet to leave the one before; the k-th time it
      enters is phase k. */
  ghost predicate ThreadOk(x: Thread, entries: nat, phase: int) {
    match x
    case Asleep(p) => (p == phase || p == phase - 1) && entries == p + 1
    case Awake(p) => (p == phase || p == phase - 1) && entries == p + 1
    case Gone => true
    case _ => entries == phase
  }

  predicate Ready(c: Core, p: int) {
    c.phase > p || c.entered == c.running
  }

  /** A sleeping thread whose condition holds is about to be notified. */
  ghost predicate NoLostWakeup(c: Core, ts: seq<Thread>) {
    (exists i :: 0 <= i < |ts| && ts[i].Asleep? && Ready(c, ts[i].p)) ==>
      exists u :: 0 <= u < |ts| && ts[u].Notifying?
  }

  ghost function Trues(log: seq<Return>): seq<int> {
    if log == [] then []
    else
      var r := log[|log| - 1];
      Trues(log[..|log| - 1]) + if r.last then [r.phase] else []
  }

  /** Per phase, in order, exactly one return was true. */
  ghost predicate LogOk(log: seq<Return>, phase: int) {
    && |Trues(log)| == phase
    && (forall k :: 0 <= k < phase ==> Trues(log)[k] == k)
    && (forall k :: 0 <= k < |log| ==> log[k].phase < phase)
  }

  ghost predicate Inv(s: State) {
    && |s.entries| == |s.threads| && !s.failed
    && s.core.running == |Registered(s.threads)|
    && s.core.entered == |Waiting(s.threads, s.core.phase)|
    && (forall i :: 0 <= i < |s.threads| ==> ThreadOk(s.threads[i], s.entries[i], s.core.phase))
    && NoLostWakeup(s.core, s.threads)
    && LogOk(s.log, s.core.phase)
  }

  // ---- Counting threads.

  lemma WaitingAreRegistered(ts: seq<Thread>, p: int)
    ensures Waiting(ts, p) <= Registered(ts)
    ensures |Waiting(ts, p)| <= |Registered(ts)|
    ensures |Waiting(ts, p)| == |Registered(ts)| ==> Waiting(ts, p) == Registered(ts)
  {
    SubsetSize(Waiting(ts, p), Registered(ts));
  }

  lemma RegisteredAfter(ts: seq<Thread>, t: nat, x: Thread)
    requires t < |ts| && !ts[t].Gone?
    ensures |Registered(ts[t := x])| == |Registered(ts)| - if x.Gone? then 1 else 0
  {
    assert t in Registered(ts);
    assert Registered(ts[t := x]) == if x.Gone? then Registered(ts) - {t} else Registered(ts);
  }

  lemma WaitingAfter(ts: seq<Thread>, t: nat, x: Thread, p: int)
    requires t < |ts|
    ensures |Waiting(ts[t := x], p)|
      == |Waiting(ts, p)| - (if Inside(ts[t], p) then 1 else 0) + (if Inside(x, p) then 1 else 0)
  {
    var rest := Waiting(ts, p) - {t};
    assert t !in rest;
    if Inside(ts[t], p) {
      assert Waiting(ts, p) == rest + {t};
    } else {
      assert Waiting(ts, p) == rest;
    }
    var ts' := ts[t := x];
    assert forall i: nat :: i < |ts| && i != t ==> ts'[i] == ts[i];
    if Inside(x, p) {
      assert Waiting(ts', p) == rest + {t};
    } else {
      assert Waiting(ts', p) == rest;
    }
  }

  lemma WakingCountsSame(ts: seq<Thread>, p: int)
    ensures Registered(WakeAll(ts)) == Registered(ts) && Waiting(WakeAll(ts), p) == Waiting(ts, p)
  {
  }

  /** When everybody registered waits in the current phase, nobody waits in the next one. */
  lemma NobodyWaitsAhead(s: State)
    requires Inv(s)
    ensures Waiting(s.threads, s.core.phase + 1) == {}
  {
  }

  lemma TruesOneMore(log: seq<Return>, r: Return)
    ensures Trues(log + [r]) == Trues(log) + if r.last then [r.phase] else []
  {
    assert (log + [r])[..|log|] == log;
  }

  lemma LogKeeps(log: seq<Return>, phase: int, r: Return)
    requires LogOk(log, phase) && (if r.last then r.phase == phase else r.phase < phase)
    ensures LogOk(log + [r], if r.last then phase + 1 else phase)
  {
    TruesOneMore(log, r);
  }

  // ---- Every step keeps the invariant.

  /** The last arrival: all others that are registered wait in the current phase. */
  lemma OthersWait(s: State, t: nat)
    requires Inv(s) && t < |s.threads| && !s.threads[t].Gone?
    requires |Waiting(s.threads, s.core.phase) + {t}| == s.core.running
    ensures forall i: nat :: i < |s.threads| && i != t && !s.threads[i].Gone? ==>
      Inside(s.threads[i], s.core.phase)
  {
    var all := Registered(s.threads);
    WaitingAreRegistered(s.threads, s.core.phase);
    assert t in all;
    SubsetSize(Waiting(s.threads, s.core.phase) + {t}, all);
    forall i: nat | i < |s.threads| && i != t && !s.threads[i].Gone?
      ensures Inside(s.threads[i], s.core.phase)
    {
      assert i in all;
    }
  }

  /** Starting the next phase once everybody has entered this one. */
  lemma AdvanceKeepsInv(s: State, t: nat, entries: nat)
    requires Inv(s) && t < |s.threads| && !s.threads[t].Gone? && entries == s.core.phase + 1
    requires forall i: nat :: i < |s.threads| && i != t && !s.threads[i].Gone? ==>
      Inside(s.threads[i], s.core.phase)
    ensures Inv(s.(core := Core(s.core.running, s.core.phase + 1, 0), threads := s.threads[t := Notifying],
                   entries := s.entries[t := entries], log := s.log + [Return(s.core.phase, true)]))
  {
    var ts := s.threads[t := Notifying];
    RegisteredAfter(s.threads, t, Notifying);
    NobodyWaitsAhead(s);
    assert Waiting(ts, s.core.phase + 1) == {};
    LogKeeps(s.log, s.core.phase, Return(s.core.phase, true));
    assert ts[t].Notifying?;
    forall i | 0 <= i < |ts|
      ensures ThreadOk(ts[i], s.entries[t := entries][i], s.core.phase + 1)
    {
      assert ThreadOk(s.threads[i], s.entries[i], s.core.phase);
    }
  }

  lemma EnterKeepsInv(s: State, t: nat)
    requires Inv(s) && Enabled(s, Enter(t))
    ensures Inv(Next(s, Enter(t)))
  {
    var ts, p := s.threads, s.core.phase;
    assert ThreadOk(ts[t], s.entries[t], p);
    assert t in Registered(ts) && t !in Waiting(ts, p);
    WaitingAreRegistered(ts, p);
    if s.core.entered + 1 < s.core.running {
      RegisteredAfter(ts, t, Asleep(p));
      WaitingAfter(ts, t, Asleep(p), p);
      EnteringWakesNobody(s, t);
    } else {
      OthersWait(s, t);
      AdvanceKeepsInv(s, t, s.entries[t] + 1);
    }
  }

  lemma EnteringWakesNobody(s: State, t: nat)
    requires Inv(s) && Enabled(s, Enter(t)) && s.core.entered + 1 < s.core.running
    ensures NoLostWakeup(s.core.(entered := s.core.entered + 1), s.threads[t := Asleep(s.core.phase)])
  {
    var c, ts := s.core.(entered := s.core.entered + 1), s.threads[t := Asleep(s.core.phase)];
    if i :| 0 <= i < |ts| && ts[i].Asleep? && Ready(c, ts[i].p) {
      assert i != t && Ready(s.core, s.threads[i].p);
      var u :| 0 <= u < |s.threads| && s.threads[u].Notifying?;
      assert ts[u].Notifying?;
    }
  }

  lemma CheckKeepsInv(s: State, t: nat)
    requires Inv(s) && Enabled(s, Check(t))
    ensures Inv(Next(s, Check(t)))
  {
    var ts, p := s.threads, s.threads[t].p;
    assert ThreadOk(ts[t], s.entries[t], s.core.phase);
    if s.core.phase > p {
      RegisteredAfter(ts, t, Outside);
      WaitingAfter(ts, t, Outside, s.core.phase);
      LogKeeps(s.log, s.core.phase, Return(p, false));
      StillNotified(s, t, Outside);
    } else if s.core.entered == s.core.running {
      assert t in Waiting(ts, p);
      assert Waiting(ts, p) + {t} == Waiting(ts, p);
      OthersWait(s, t);
      AdvanceKeepsInv(s, t, s.entries[t]);
      assert s.entries[t := s.entries[t]] == s.entries;
    } else {
      RegisteredAfter(ts, t, Asleep(p));
      WaitingAfter(ts, t, Asleep(p), s.core.phase);
      StillNotified(s, t, Asleep(p));
    }
  }

  /** Changing a thread that is not notifying to one that is not ready to wake loses no wake-up. */
  lemma StillNotified(s: State, t: nat, x: Thread)
    requires Inv(s) && t < |s.threads| && !s.threads[t].Notifying?
    requires x.Asleep? ==> !Ready(s.core, x.p)
    ensures NoLostWakeup(s.core, s.threads[t := x])
  {
    var ts := s.threads[t := x];
    if i :| 0 <= i < |ts| && ts[i].Asleep? && Ready(s.core, ts[i].p) {
      assert i != t && s.threads[i].Asleep?;
      var u :| 0 <= u < |s.threads| && s.threads[u].Notifying?;
      assert ts[u].Notifying?;
    }
  }

  lemma NotifyKeepsInv(s: State, t: nat)
    requires Inv(s) && Enabled(s, Notify(t))
    ensures Inv(Next(s, Notify(t)))
  {
    var ts := s.threads[t := Outside];
    assert ThreadOk(s.threads[t], s.entries[t], s.core.phase);
    RegisteredAfter(s.threads, t, Outside);
    WaitingAfter(s.threads, t, Outside, s.core.phase);
    WakingCountsSame(ts, s.core.phase);
    forall i | 0 <= i < |ts|
      ensures ThreadOk(WakeAll(ts)[i], s.entries[i], s.core.phase)
    {
      assert ThreadOk(s.threads[i], s.entries[i], s.core.phase);
    }
  }

  lemma SpuriousKeepsInv(s: State, t: nat)
    requires Inv(s) && Enabled(s, Spurious(t))
    ensures Inv(Next(s, Spurious(t)))
  {
    var x := Woken(s.threads[t]);
    assert ThreadOk(s.threads[t], s.entries[t], s.core.phase);
    RegisteredAfter(s.threads, t, x);
    WaitingAfter(s.threads, t, x, s.core.phase);
    StillNotified(s, t, x);
  }

  lemma QuitKeepsInv(s: State, t: nat)
    requires Inv(s) && Enabled(s, Quit(t))
    ensures Inv(Next(s, Quit(t)))
  {
    var ts, s' := s.threads[t := Gone], Next(s, Quit(t));
    RegisteredAfter(s.threads, t, Gone);
    WaitingAfter(s.threads, t, Gone, s.core.phase);
    WakingCountsSame(ts, s.core.phase);
    forall i | 0 <= i < |ts|
      ensures ThreadOk(s'.threads[i], s.entries[i], s.core.phase)
    {
      assert ThreadOk(s.threads[i], s.entries[i], s.core.phase);
    }
    if s.core.entered == 0 {
      QuittingLosesNothing(s, t);
    }
  }

  /** With nobody in the current phase no condition becomes true by a removal. */
  lemma QuittingLosesNothing(s: State, t: nat)
    requires Inv(s) && Enabled(s, Quit(t)) && s.core.entered == 0
    ensures NoLostWakeup(Remove(s.core), s.threads[t := Gone])
  {
    var ts := s.threads[t := Gone];
    if i :| 0 <= i < |ts| && ts[i].Asleep? && Ready(Remove(s.core), ts[i].p) {
      assert ThreadOk(s.threads[i], s.entries[i], s.core.phase);
      assert i !in Waiting(s.threads, s.core.phase);
      assert Ready(s.core, s.threads[i].p);
      var u :| 0 <= u < |s.threads| && s.threads[u].Notifying?;
      assert ts[u].Notifying?;
    }
  }

  lemma InvStep(s: State, step: Step)
    requires Inv(s) && Enabled(s, step)
    ensures Inv(Next(s, step))
  {
    match step
    case Enter(t) => EnterKeepsInv(s, t);
    case Check(t) => CheckKeepsInv(s, t);
    case Notify(t) => NotifyKeepsInv(s, t);
    case Spurious(t) => SpuriousKeepsInv(s, t);
    case Quit(t) => QuitKeepsInv(s, t);
  }

  // ---- Runs.

  ghost predicate IsRun(n: nat, run: seq<State>, steps: seq<Step>) {
    && |run| == |steps| + 1 && run[0] == Init(n)
    && forall i :: 0 <= i < |steps| ==> Enabled(run[i], steps[i]) && run[i + 1] == Next(run[i], steps[i])
  }

  lemma InitInv(n: nat)
    ensures Inv(Init(n))
  {
    var ts := Init(n).threads;
    AllRegistered(ts);
    assert Waiting(ts, 0) == {};
  }

  lemma {:induction false} AllRegistered(ts: seq<Thread>)
    requires forall i :: 0 <= i < |ts| ==> ts[i].Outside?
    ensures |Registered(ts)| == |ts|
  {
    if ts != [] {
      var init := ts[..|ts| - 1];
      AllRegistered(init);
      assert Registered(ts) == Registered(init) + {|init|};
    }
  }

  lemma {:induction false} RunsKeepInv(n: nat, run: seq<State>, steps: seq<Step>, i: nat)
    requires IsRun(n, run, steps) && i < |run|
    ensures Inv(run[i])
  {
    if i == 0 {
      InitInv(n);
    } else {
      RunsKeepInv(n, run, steps, i - 1);
      InvStep(run[i - 1], steps[i - 1]);
    }
  }

  /** In every run: the check at entry never fires, the phase counter is at most one ahead of any
      waiting thread, and per phase, in order, exactly one wait has returned true. */
  lemma BarrierIsSafe(n: nat, run: seq<State>, steps: seq<Step>, i: nat)
    requires IsRun(n, run, steps) && i < |run|
    ensures !run[i].failed
    ensures forall t :: 0 <= t < |run[i].threads| && (run[i].threads[t].Asleep? || run[i].threads[t].Awake?) ==>
      run[i].threads[t].p <= run[i].core.phase <= run[i].threads[t].p + 1
    ensures |Trues(run[i].log)| == run[i].core.phase
    ensures forall k :: 0 <= k < run[i].core.phase ==> Trues(run[i].log)[k] == k
  {
    RunsKeepInv(n, run, steps, i);
    var s := run[i];
    forall t | 0 <= t < |s.threads| && (s.threads[t].Asleep? || s.threads[t].Awake?)
      ensures s.threads[t].p <= s.core.phase <= s.threads[t].p + 1
    {
      assert ThreadOk(s.threads[t], s.entries[t], s.core.phase);
    }
  }

  /** A step that makes wait return for phase p finds every still-registered thread to have entered
      p: all of them have entered the barrier p + 1 times or more, the last arrival included. */
  lemma NobodyLeavesEarly(n: nat, run: seq<State>, steps: seq<Step>, i: nat)
    requires IsRun(n, run, steps) && i < |steps| && |run[i + 1].log| > |run[i].log|
    ensures |run[i + 1].entries| == |run[i + 1].threads| == n
    ensures var s, p := run[i + 1], run[i + 1].log[|run[i].log|].phase;
      forall t :: 0 <= t < n && !s.threads[t].Gone? ==> s.entries[t] >= p + 1
  {
    RunsKeepInv(n, run, steps, i);
    RunsKeepInv(n, run, steps, i + 1);
    ThreadsAreFixed(n, run, steps, i + 1);
    var s := run[i + 1];
    assert s.log[|run[i].log|].phase < s.core.phase;
    forall t | 0 <= t < n && !s.threads[t].Gone?
      ensures s.entries[t] >= s.core.phase
    {
      assert ThreadOk(s.threads[t], s.entries[t], s.core.phase);
    }
  }

  lemma {:induction false} ThreadsAreFixed(n: nat, run: seq<State>, steps: seq<Step>, i: nat)
    requires IsRun(n, run, steps) && i < |run|
    ensures |run[i].threads| == n
  {
    if i > 0 {
      ThreadsAreFixed(n, run, steps, i - 1);
    }
  }

  /** If all registered threads sleep, the condition of one of them holds. */
  lemma SleepersAreReady(c: Core, ts: seq<Thread>, entries: seq<nat>)
    requires |entries| == |ts| && c.running == |Registered(ts)| > 0 && c.entered == |Waiting(ts, c.phase)|
    requires forall i :: 0 <= i < |ts| ==> ThreadOk(ts[i], entries[i], c.phase)
    requires forall i :: 0 <= i < |ts| && !ts[i].Gone? ==> ts[i].Asleep?
    ensures exists i :: 0 <= i < |ts| && ts[i].Asleep? && Ready(c, ts[i].p)
  {
    var all := Registered(ts);
    var t :| t in all;
    if !Ready(c, ts[t].p) {
      WaitingAreRegistered(ts, c.phase);
      assert Waiting(ts, c.phase) != all;
      var u :| u in all && u !in Waiting(ts, c.phase);
      assert ThreadOk(ts[u], entries[u], c.phase);
    }
  }

  /** No wake-up is lost: as long as a thread is registered, one is not asleep. */
  lemma NeverAllAsleep(n: nat, run: seq<State>, steps: seq<Step>, i: nat)
    requires IsRun(n, run, steps) && i < |run| && run[i].core.running > 0
    ensures exists t :: 0 <= t < |run[i].threads| && !run[i].threads[t].Gone? && !run[i].threads[t].Asleep?
  {
    RunsKeepInv(n, run, steps, i);
    var s := run[i];
    if forall t :: 0 <= t < |s.threads| && !s.threads[t].Gone? ==> s.threads[t].Asleep? {
      SleepersAreReady(s.core, s.threads, s.entries);
    }
  }

  // ---- Nobody's wait is lost.

  /** The threads that have entered phase p. */
  ghost function Entered(entries: seq<nat>, p: int): set<nat> {
    set i: nat | i < |entries| && entries[i] > p
  }

  /** How many waits have returned for phase p. */
  ghost function Returned(log: seq<Return>, p: int): nat {
    if log == [] then 0
    else Returned(log[..|log| - 1], p) + if log[|log| - 1].phase == p then 1 else 0
  }

  /** Everybody who entered phase p has returned for it, once, or is still inside. */
  ghost predicate Balances(entries: seq<nat>, log: seq<Return>, ts: seq<Thread>, p: int) {
    |Entered(entries, p)| == Returned(log, p) + |Waiting(ts, p)|
  }

  ghost predicate Balanced(s: State, p: int) {
    Balances(s.entries, s.log, s.threads, p)
  }

  lemma ReturnedOneMore(log: seq<Return>, r: Return, p: int)
    ensures Returned(log + [r], p) == Returned(log, p) + if r.phase == p then 1 else 0
  {
    assert (log + [r])[..|log|] == log;
  }

  lemma EnteredOneMore(entries: seq<nat>, t: nat, p: int)
    requires t < |entries|
    ensures |Entered(entries[t := entries[t] + 1], p)| == |Entered(entries, p)| + if entries[t] == p then 1 else 0
  {
    var after := entries[t := entries[t] + 1];
    if entries[t] == p {
      assert Entered(after, p) == Entered(entries, p) + {t};
    } else {
      assert Entered(after, p) == Entered(entries, p);
    }
  }

  /** A thread that was inside gets out, and its wait returns. */
  lemma OutBalances(entries: seq<nat>, log: seq<Return>, ts: seq<Thread>, t: nat, x: Thread, r: Return, p: int)
    requires Balances(entries, log, ts, p) && t < |ts| && Inside(ts[t], r.phase) && (x.Outside? || x.Notifying?)
    ensures Balances(entries, log + [r], ts[t := x], p)
  {
    WaitingAfter(ts, t, x, p);
    ReturnedOneMore(log, r, p);
  }

  /** A thread enters phase q, and waits, or returns at once. */
  lemma InBalances(entries: seq<nat>, log: seq<Return>, ts: seq<Thread>, t: nat, q: int, p: int)
    requires Balances(entries, log, ts, p) && |entries| == |ts| && t < |ts| && ts[t].Outside? && entries[t] == q
    ensures Balances(entries[t := entries[t] + 1], log, ts[t := Asleep(q)], p)
    ensures Balances(entries[t := entries[t] + 1], log + [Return(q, true)], ts[t := Notifying], p)
  {
    EnteredOneMore(entries, t, p);
    WaitingAfter(ts, t, Asleep(q), p);
    WaitingAfter(ts, t, Notifying, p);
    ReturnedOneMore(log, Return(q, true), p);
  }

  lemma EnterBalances(s: State, t: nat, p: int)
    requires Inv(s) && Enabled(s, Enter(t)) && Balanced(s, p)
    ensures Balanced(Next(s, Enter(t)), p)
  {
    assert ThreadOk(s.threads[t], s.entries[t], s.core.phase);
    InBalances(s.entries, s.log, s.threads, t, s.core.phase, p);
  }

  lemma CheckBalances(s: State, t: nat, p: int)
    requires Enabled(s, Check(t)) && Balanced(s, p)
    ensures Balanced(Next(s, Check(t)), p)
  {
    var q := s.threads[t].p;
    OutBalances(s.entries, s.log, s.threads, t, Outside, Return(q, false), p);
    OutBalances(s.entries, s.log, s.threads, t, Notifying, Return(q, true), p);
    WaitingAfter(s.threads, t, Asleep(q), p);
  }

  lemma StepBalances(s: State, step: Step, p: int)
    requires Inv(s) && Enabled(s, step) && Balanced(s, p)
    ensures Balanced(Next(s, step), p)
  {
    match step
    case Enter(t) => EnterBalances(s, t, p);
    case Check(t) => CheckBalances(s, t, p);
    case Notify(t) =>
      WaitingAfter(s.threads, t, Outside, p);
      WakingCountsSame(s.threads[t := Outside], p);
    case Spurious(t) => WaitingAfter(s.threads, t, Woken(s.threads[t]), p);
    case Quit(t) =>
      WaitingAfter(s.threads, t, Gone, p);
      WakingCountsSame(s.threads[t := Gone], p);
  }

  /** In every run and for every phase: as many waits have returned as threads have entered it and are
      not inside any more. */
  lemma {:induction false} EveryWaitReturnsOnce(n: nat, run: seq<State>, steps: seq<Step>, i: nat, p: nat)
    requires IsRun(n, run, steps) && i < |run|
    ensures Balanced(run[i], p)
  {
    if i == 0 {
      assert Entered(run[0].entries, p) == {} && Waiting(run[0].threads, p) == {};
    } else {
      EveryWaitReturnsOnce(n, run, steps, i - 1, p);
      RunsKeepInv(n, run, steps, i - 1);
      StepBalances(run[i - 1], steps[i - 1], p);
    }
  }

  /** In every run: who wakes up. A notification, and a removal while somebody is inside, wakes all that
      sleep; a spurious wake-up wakes its thread; no other step wakes anybody. */
  lemma WhoWakesUp(n: nat, run: seq<State>, steps: seq<Step>, i: nat, t: nat)
    requires IsRun(n, run, steps) && i < |steps| && t < |run[i].threads| && run[i].threads[t].Asleep?
    ensures t < |run[i + 1].threads|
    ensures var step, x := steps[i], run[i].threads[t];
      run[i + 1].threads[t]
      == if step.Notify? || (step.Quit? && run[i].core.entered != 0) || step == Spurious(t) then Awake(x.p) else x
  {
  }

  // ---- Progress.

  /** The steps by which threads inside the barrier go on by themselves. */
  predicate Works(step: Step) { step.Check? || step.Notify? }

  /** How much work a thread may still do, and the more while it is inside; c is more than all the
      threads can gain by being woken. */
  function Work(x: Thread, c: nat): nat {
    match x
    case Asleep(_) => c
    case Awake(_) => c + 2
    case Notifying => c + 1
    case _ => 0
  }

  ghost function AllWork(ts: seq<Thread>, c: nat): nat {
    if ts == [] then 0 else Work(ts[0], c) + AllWork(ts[1..], c)
  }

  lemma {:induction false} WorkAfter(ts: seq<Thread>, t: nat, x: Thread, c: nat)
    requires t < |ts|
    ensures AllWork(ts[t := x], c) == AllWork(ts, c) - Work(ts[t], c) + Work(x, c)
  {
    if t == 0 {
      assert ts[0 := x][1..] == ts[1..];
    } else {
      assert ts[t := x][1..] == ts[1..][t - 1 := x];
      WorkAfter(ts[1..], t - 1, x, c);
    }
  }

  lemma {:induction false} WakingAddsWork(ts: seq<Thread>, c: nat)
    ensures AllWork(WakeAll(ts), c) <= AllWork(ts, c) + 2 * |ts|
  {
    if ts != [] {
      assert WakeAll(ts)[1..] == WakeAll(ts[1..]);
      WakingAddsWork(ts[1..], c);
    }
  }

  /** Every check and every notification uses up work: a checking thread leaves, notifies or goes back
      to sleep, and a notifying one leaves. */
  lemma WorkIsUsedUp(s: State, step: Step)
    requires Enabled(s, step) && Works(step)
    ensures var c := 2 * |s.threads| + 1;
      |Next(s, step).threads| == |s.threads| && AllWork(Next(s, step).threads, c) < AllWork(s.threads, c)
  {
    var c, t := 2 * |s.threads| + 1, step.t;
    if step.Notify? {
      WorkAfter(s.threads, t, Outside, c);
      WakingAddsWork(s.threads[t := Outside], c);
    } else {
      WorkAfter(s.threads, t, Next(s, step).threads[t], c);
    }
  }

  lemma StepUsesUpWork(n: nat, run: seq<State>, steps: seq<Step>, k: nat)
    requires IsRun(n, run, steps) && k < |steps| && Works(steps[k])
    ensures AllWork(run[k + 1].threads, 2 * n + 1) < AllWork(run[k].threads, 2 * n + 1)
  {
    ThreadsAreFixed(n, run, steps, k);
    WorkIsUsedUp(run[k], steps[k]);
  }

  /** Left to themselves, the threads inside make only so many steps. */
  lemma {:induction false} WorkEnds(n: nat, run: seq<State>, steps: seq<Step>, i: nat, j: nat)
    requires IsRun(n, run, steps) && i <= j < |run| && forall k :: i <= k < j ==> Works(steps[k])
    ensures j - i + AllWork(run[j].threads, 2 * n + 1) <= AllWork(run[i].threads, 2 * n + 1)
    decreases j - i
  {
    if i < j {
      StepUsesUpWork(n, run, steps, i);
      WorkEnds(n, run, steps, i + 1, j);
    }
  }

  lemma {:induction false} WorkBound(ts: seq<Thread>, c: nat)
    ensures AllWork(ts, c) <= |ts| * (c + 2)
  {
    if ts != [] {
      WorkBound(ts[1..], c);
      assert |ts| * (c + 2) == (c + 2) + (|ts| - 1) * (c + 2);
    }
  }

  /** The barrier never hangs. With n threads, after at most n * (2n + 3) checks and notifications
      nothing is left to do. When nothing is left to do and somebody is registered, somebody is
      outside, and whoever sleeps waits for the current phase, which somebody has yet to enter. */
  lemma BarrierNeverHangs(n: nat, run: seq<State>, steps: seq<Step>, i: nat, j: nat)
    requires IsRun(n, run, steps) && i <= j < |run| && forall k :: i <= k < j ==> Works(steps[k])
    ensures j - i <= n * (2 * n + 3)
    ensures run[j].core.running > 0 && (forall step :: Works(step) ==> !Enabled(run[j], step)) ==>
      && (exists t :: 0 <= t < |run[j].threads| && run[j].threads[t].Outside?)
      && (forall t :: 0 <= t < |run[j].threads| && run[j].threads[t].Asleep? ==>
            run[j].threads[t].p == run[j].core.phase && run[j].core.entered < run[j].core.running)
  {
    WorkEnds(n, run, steps, i, j);
    ThreadsAreFixed(n, run, steps, i);
    WorkBound(run[i].threads, 2 * n + 1);
    RunsKeepInv(n, run, steps, j);
    if run[j].core.running > 0 && forall step :: Works(step) ==> !Enabled(run[j], step) {
      NothingLeftToDo(run[j]);
    }
  }

  lemma NothingLeftToDo(s: State)
    requires Inv(s) && s.core.running > 0 && forall step :: Works(step) ==> !Enabled(s, step)
    ensures exists t :: 0 <= t < |s.threads| && s.threads[t].Outside?
    ensures forall t :: 0 <= t < |s.threads| && s.threads[t].Asleep? ==>
      s.threads[t].p == s.core.phase && s.core.entered < s.core.running
  {
    forall t | 0 <= t < |s.threads|
      ensures !s.threads[t].Awake? && !s.threads[t].Notifying?
    {
      assert !Enabled(s, Check(t)) && !Enabled(s, Notify(t));
    }
    WaitingAreRegistered(s.threads, s.core.phase);
    forall t | 0 <= t < |s.threads| && s.threads[t].Asleep?
      ensures s.threads[t].p == s.core.phase && s.core.entered < s.core.running
    {
      assert ThreadOk(s.threads[t], s.entries[t], s.core.phase);
      assert !Ready(s.core, s.threads[t].p);
    }
    if forall t :: 0 <= t < |s.threads| && !s.threads[t].Gone? ==> s.threads[t].Asleep? {
      SleepersAreReady(s.core, s.threads, s.entries);
    }
  }
}
