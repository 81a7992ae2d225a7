/** The barrier-started worker pool (internal/concurrency/probe.go) as a protocol: a main thread and n workers
    that interleave freely.  The locked append is split into its read and its write. */
module WorkerPool {
  import opened Wrappers

  /** The pool's own refusal, or an error value that some probe returned. */
  datatype Error = WorkersMustBePositive | ProbeError(value: int)

  /** Where a worker stands; from its probe's return on, it carries what the probe returned. */
  datatype Phase =
    | Unborn
    | Blocked                                      // at `<-start`
    | Probing                                      // inside the probe
    | Returned(result: Option<Error>)              // before `lock.Lock()`, or on the way out
    | Holding(error: Error)                        // has the mutex, has not read `errs`
    | Copied(error: Error, snapshot: seq<Error>)   // has read `errs`, has not written it
    | Stored                                       // has written `errs`, still has the mutex
    | Leaving                                      // before the deferred `group.Done()`
    | Exited

  datatype Main =
    | Adding(worker: nat)
    | Spawning(worker: nat)
    | Closing
    | Waiting
    | Finished(errs: seq<Error>)

  /** Shared memory, both kinds of thread, and a history of the probes' starts and returns. */
  datatype State = State(
    main: Main, open: bool, group: int, lock: Option<nat>, errs: seq<Error>, workers: seq<Phase>,
    starts: seq<nat>, results: seq<(nat, Option<Error>)>)

  datatype Step = MainStep | WorkerStep(id: nat, outcome: Option<Error>)

  function Nursery(n: nat): seq<Phase> {
    seq(n, _ => Unborn)
  }

  function Init(workers: int): State {
    if workers < 1 then State(Finished([WorkersMustBePositive]), false, 0, None, [], [], [], [])
    else State(Adding(0), false, 0, None, [], Nursery(workers), [], [])
  }

  predicate Enabled(s: State, step: Step) {
    match step
    case MainStep => (s.main.Waiting? ==> s.group == 0) && !s.main.Finished?
    case WorkerStep(id, _) =>
      && id < |s.workers|
      && match s.workers[id]
         case Blocked => s.open
         case Returned(Some(_)) => s.lock.None?
         case Unborn => false
         case Exited => false
         case _ => true
  }

  function Next(s: State, step: Step): State
    requires Enabled(s, step)
  {
    match step
    case MainStep => NextMain(s)
    case WorkerStep(id, outcome) => NextWorker(s, id, outcome)
  }

  function NextMain(s: State): State {
    match s.main
    case Adding(k) => s.(group := s.group + 1, main := Spawning(k))
    case Spawning(k) =>
      s.(workers := if k < |s.workers| then s.workers[k := Blocked] else s.workers,
         main := if k + 1 < |s.workers| then Adding(k + 1) else Closing)
    case Closing => s.(open := true, main := Waiting)
    case Waiting => s.(main := Finished(s.errs))
    case Finished(_) => s
  }

  function NextWorker(s: State, id: nat, outcome: Option<Error>): State
    requires Enabled(s, WorkerStep(id, outcome))
  {
    match s.workers[id]
    case Blocked => s.(workers := s.workers[id := Probing], starts := s.starts + [id])
    case Probing => s.(workers := s.workers[id := Returned(outcome)], results := s.results + [(id, outcome)])
    case Returned(None) => s.(workers := s.workers[id := Leaving])
    case Returned(Some(e)) => s.(workers := s.workers[id := Holding(e)], lock := Some(id))
    case Holding(e) => s.(workers := s.workers[id := Copied(e, s.errs)])
    case Copied(e, snapshot) => s.(workers := s.workers[id := Stored], errs := snapshot + [e])
    case Stored => s.(workers := s.workers[id := Leaving], lock := None)
    case Leaving => s.(workers := s.workers[id := Exited], group := s.group - 1)
  }

  // ---------- counting over the workers ----------

  predicate Live(p: Phase) {
    !p.Unborn? && !p.Exited?
  }

  predicate InSection(p: Phase) {
    p.Holding? || p.Copied? || p.Stored?
  }

  predicate Started(p: Phase) {
    !p.Unborn? && !p.Blocked?
  }

  predicate Reported(p: Phase) {
    Started(p) && !p.Probing?
  }

  /** Has the worker this error, and yet to add it to the shared list? */
  predicate Owes(p: Phase, e: Error) {
    match p
    case Returned(Some(x)) => x == e
    case Holding(x) => x == e
    case Copied(x, _) => x == e
    case _ => false
  }

  function LiveCount(ws: seq<Phase>): nat {
    if ws == [] then 0 else LiveCount(ws[..|ws| - 1]) + (if Live(ws[|ws| - 1]) then 1 else 0)
  }

  function OwedCount(ws: seq<Phase>, e: Error): nat {
    if ws == [] then 0 else OwedCount(ws[..|ws| - 1], e) + (if Owes(ws[|ws| - 1], e) then 1 else 0)
  }

  function Weight(p: Phase): nat {
    match p
    case Unborn => 8
    case Blocked => 7
    case Probing => 6
    case Returned(_) => 5
    case Holding(_) => 4
    case Copied(_, _) => 3
    case Stored => 2
    case Leaving => 1
    case Exited => 0
  }

  function WorkersWeight(ws: seq<Phase>): nat {
    if ws == [] then 0 else WorkersWeight(ws[..|ws| - 1]) + Weight(ws[|ws| - 1])
  }

  lemma {:induction false} UpdateLive(ws: seq<Phase>, id: nat, p: Phase)
    requires id < |ws|
    ensures LiveCount(ws[id := p]) == LiveCount(ws) - (if Live(ws[id]) then 1 else 0) + (if Live(p) then 1 else 0)
  {
    var last := |ws| - 1;
    var us := ws[id := p];
    if id == last {
      assert us[..last] == ws[..last];
    } else {
      assert us[..last] == ws[..last][id := p];
      UpdateLive(ws[..last], id, p);
    }
  }

  lemma {:induction false} UpdateOwed(ws: seq<Phase>, id: nat, p: Phase, e: Error)
    requires id < |ws|
    ensures OwedCount(ws[id := p], e)
      == OwedCount(ws, e) - (if Owes(ws[id], e) then 1 else 0) + (if Owes(p, e) then 1 else 0)
  {
    var last := |ws| - 1;
    var us := ws[id := p];
    if id == last {
      assert us[..last] == ws[..last];
    } else {
      assert us[..last] == ws[..last][id := p];
      UpdateOwed(ws[..last], id, p, e);
    }
  }

  lemma {:induction false} UpdateWeight(ws: seq<Phase>, id: nat, p: Phase)
    requires id < |ws|
    ensures WorkersWeight(ws[id := p]) == WorkersWeight(ws) - Weight(ws[id]) + Weight(p)
  {
    var last := |ws| - 1;
    var us := ws[id := p];
    if id == last {
      assert us[..last] == ws[..last];
    } else {
      assert us[..last] == ws[..last][id := p];
      UpdateWeight(ws[..last], id, p);
    }
  }

  lemma {:induction false} SomeoneLives(ws: seq<Phase>) returns (id: nat)
    requires LiveCount(ws) > 0
    ensures id < |ws| && Live(ws[id])
  {
    if Live(ws[|ws| - 1]) {
      id := |ws| - 1;
    } else {
      id := SomeoneLives(ws[..|ws| - 1]);
    }
  }

  lemma {:induction false} NobodyLives(ws: seq<Phase>)
    requires LiveCount(ws) == 0 && forall i :: 0 <= i < |ws| ==> !ws[i].Unborn?
    ensures forall i :: 0 <= i < |ws| ==> ws[i].Exited?
    ensures forall e :: OwedCount(ws, e) == 0
  {
    if ws != [] {
      NobodyLives(ws[..|ws| - 1]);
      assert !ws[|ws| - 1].Unborn?;
    }
  }

  lemma {:induction false} AllUnborn(n: nat)
    ensures LiveCount(Nursery(n)) == 0
    ensures forall e :: OwedCount(Nursery(n), e) == 0
    ensures WorkersWeight(Nursery(n)) == 8 * n
  {
    if n > 0 {
      assert Nursery(n)[..n - 1] == Nursery(n - 1);
      AllUnborn(n - 1);
    }
  }

  /** The errors among the probes' results, in the order of return. */
  function NonNil(results: seq<(nat, Option<Error>)>): seq<Error> {
    if results == [] then []
    else
      var last := results[|results| - 1];
      NonNil(results[..|results| - 1]) + (if last.1.Some? then [last.1.value] else [])
  }

  function Ids(results: seq<(nat, Option<Error>)>): (ids: seq<nat>)
    ensures |ids| == |results| && forall i :: 0 <= i < |ids| ==> ids[i] == results[i].0
  {
    seq(|results|, i requires 0 <= i < |results| => results[i].0)
  }

  // ---------- the invariant ----------

  ghost predicate MainAgrees(n: nat, s: State) {
    && |s.workers| == n
    && (s.open <==> s.main.Waiting? || s.main.Finished?)
    && (forall i :: 0 <= i < n ==>
        (s.workers[i].Unborn? <==> (s.main.Adding? || s.main.Spawning?) && s.main.worker <= i))
    && (s.main.Adding? || s.main.Spawning? ==> s.main.worker < n)
    && (!s.open ==> forall i :: 0 <= i < n ==> s.workers[i].Unborn? || s.workers[i].Blocked?)
    && s.group == LiveCount(s.workers) + (if s.main.Spawning? then 1 else 0)
  }

  ghost predicate LockAgrees(s: State) {
    && (forall i: nat :: i < |s.workers| && InSection(s.workers[i]) ==> s.lock == Some(i))
    && (s.lock.Some? ==> s.lock.value < |s.workers| && InSection(s.workers[s.lock.value]))
    && forall i :: 0 <= i < |s.workers| && s.workers[i].Copied? ==> s.workers[i].snapshot == s.errs
  }

  /** Each worker's probe has started once if the worker is past the barrier, and not otherwise. */
  ghost predicate StartsAgree(s: State) {
    forall id: nat :: multiset(s.starts)[id] == if id < |s.workers| && Started(s.workers[id]) then 1 else 0
  }

  ghost predicate ResultsAgree(s: State) {
    forall id: nat :: multiset(Ids(s.results))[id] == if id < |s.workers| && Reported(s.workers[id]) then 1 else 0
  }

  /** Conservation: an error returned by a probe is in the shared list or still owed to it. */
  ghost predicate ErrorsAgree(s: State) {
    forall e :: Balanced(s, e)
  }

  ghost predicate Balanced(s: State, e: Error) {
    multiset(NonNil(s.results))[e] == multiset(s.errs)[e] + OwedCount(s.workers, e)
  }

  ghost predicate FinishAgrees(s: State) {
    s.main.Finished? ==> LiveCount(s.workers) == 0 && s.main.errs == s.errs
  }

  ghost predicate Inv(n: nat, s: State) {
    MainAgrees(n, s) && LockAgrees(s) && StartsAgree(s) && ResultsAgree(s) && ErrorsAgree(s) && FinishAgrees(s)
  }

  lemma InvInit(n: nat)
    requires n >= 1
    ensures Inv(n, Init(n))
  {
    AllUnborn(n);
  }

  lemma MainStepMain(n: nat, s: State)
    requires MainAgrees(n, s) && Enabled(s, MainStep)
    ensures MainAgrees(n, NextMain(s))
  {
    if s.main.Spawning? {
      UpdateLive(s.workers, s.main.worker, Blocked);
    }
  }

  lemma MainStepRest(n: nat, s: State)
    requires MainAgrees(n, s) && LockAgrees(s) && Enabled(s, MainStep)
    ensures LockAgrees(NextMain(s)) && (FinishAgrees(s) ==> FinishAgrees(NextMain(s)))
  {
    assert s.main.Spawning? ==> s.workers[s.main.worker].Unborn?;
  }

  lemma MainStepErrors(n: nat, s: State)
    requires MainAgrees(n, s) && ErrorsAgree(s) && Enabled(s, MainStep)
    ensures ErrorsAgree(NextMain(s))
  {
    forall e ensures Balanced(NextMain(s), e) {
      assert Balanced(s, e);
      if s.main.Spawning? {
        assert s.workers[s.main.worker].Unborn?;
        UpdateOwed(s.workers, s.main.worker, Blocked, e);
      }
    }
  }

  lemma MainStepHistory(n: nat, s: State)
    requires MainAgrees(n, s) && StartsAgree(s) && ResultsAgree(s) && Enabled(s, MainStep)
    ensures StartsAgree(NextMain(s)) && ResultsAgree(NextMain(s))
  {
    var t := NextMain(s);
    forall id: nat | id < |s.workers|
      ensures |t.workers| == |s.workers|
      ensures Started(t.workers[id]) <==> Started(s.workers[id])
      ensures Reported(t.workers[id]) <==> Reported(s.workers[id])
    {
      assert s.main.Spawning? ==> s.workers[s.main.worker].Unborn?;
    }
    hide MainAgrees, NextMain;
  }

  lemma WorkerStepMain(n: nat, s: State, id: nat, outcome: Option<Error>)
    requires MainAgrees(n, s) && Enabled(s, WorkerStep(id, outcome))
    ensures MainAgrees(n, NextWorker(s, id, outcome))
  {
    UpdateLive(s.workers, id, NextWorker(s, id, outcome).workers[id]);
  }

  /** A worker steps only while it lives, so not after the main thread has returned. */
  lemma WorkerStepFinish(n: nat, s: State, id: nat, outcome: Option<Error>)
    requires MainAgrees(n, s) && FinishAgrees(s) && Enabled(s, WorkerStep(id, outcome))
    ensures !s.main.Finished?
  {
    if s.main.Finished? {
      NobodyLives(s.workers);
      assert false;
    }
  }

  lemma WorkerStepLock(s: State, id: nat, outcome: Option<Error>)
    requires LockAgrees(s) && Enabled(s, WorkerStep(id, outcome))
    ensures LockAgrees(NextWorker(s, id, outcome))
  {
    var t := NextWorker(s, id, outcome);
    forall i: nat | i < |t.workers| && i != id ensures t.workers[i] == s.workers[i] {}
  }

  lemma WorkerStepStarts(s: State, id: nat, outcome: Option<Error>)
    requires StartsAgree(s) && Enabled(s, WorkerStep(id, outcome))
    ensures StartsAgree(NextWorker(s, id, outcome))
  {
    var t := NextWorker(s, id, outcome);
    forall i: nat ensures multiset(t.starts)[i] == if i < |t.workers| && Started(t.workers[i]) then 1 else 0 {
      assert multiset(s.starts)[i] == if i < |s.workers| && Started(s.workers[i]) then 1 else 0;
    }
  }

  lemma WorkerStepResults(s: State, id: nat, outcome: Option<Error>)
    requires ResultsAgree(s) && Enabled(s, WorkerStep(id, outcome))
    ensures ResultsAgree(NextWorker(s, id, outcome))
  {
    var t := NextWorker(s, id, outcome);
    if s.workers[id].Probing? {
      assert Ids(t.results) == Ids(s.results) + [id];
    }
    forall i: nat ensures multiset(Ids(t.results))[i] == if i < |t.workers| && Reported(t.workers[i]) then 1 else 0 {
      assert multiset(Ids(s.results))[i] == if i < |s.workers| && Reported(s.workers[i]) then 1 else 0;
    }
  }

  lemma WorkerStepErrors(s: State, id: nat, outcome: Option<Error>)
    requires LockAgrees(s) && ErrorsAgree(s) && Enabled(s, WorkerStep(id, outcome))
    ensures ErrorsAgree(NextWorker(s, id, outcome))
  {
    forall e ensures Balanced(NextWorker(s, id, outcome), e) {
      assert Balanced(s, e);
      WorkerStepBalance(s, id, outcome, e);
    }
  }

  lemma WorkerStepBalance(s: State, id: nat, outcome: Option<Error>, e: Error)
    requires Balanced(s, e) && Enabled(s, WorkerStep(id, outcome))
    requires s.workers[id].Copied? ==> s.workers[id].snapshot == s.errs
    ensures Balanced(NextWorker(s, id, outcome), e)
  {
    StepEffect(s, id, outcome, e);
    hide NonNil, OwedCount, NextWorker, Enabled, Owes;
    UpdateOwed(s.workers, id, NextWorker(s, id, outcome).workers[id], e);
    if s.workers[id].Probing? {
      NonNilSnoc(s.results, (id, outcome), e);
    }
  }

  /** What one worker step does to the history, the shared list and the worker's debt. */
  lemma StepEffect(s: State, id: nat, outcome: Option<Error>, e: Error)
    requires Enabled(s, WorkerStep(id, outcome))
    requires s.workers[id].Copied? ==> s.workers[id].snapshot == s.errs
    ensures var t, p := NextWorker(s, id, outcome), s.workers[id];
      && id < |t.workers| && t.workers == s.workers[id := t.workers[id]]
      && t.results == (if p.Probing? then s.results + [(id, outcome)] else s.results)
      && t.errs == (if p.Copied? then s.errs + [p.error] else s.errs)
      && (p.Probing? ==> !Owes(p, e)) && (p.Copied? ==> (Owes(p, e) <==> p.error == e))
      && (Owes(t.workers[id], e) <==> (Owes(p, e) && !p.Copied?) || (p.Probing? && outcome == Some(e)))
  {
  }

  lemma NonNilSnoc(results: seq<(nat, Option<Error>)>, last: (nat, Option<Error>), e: Error)
    ensures multiset(NonNil(results + [last]))[e] == multiset(NonNil(results))[e] + (if last.1 == Some(e) then 1 else 0)
  {
    assert (results + [last])[..|results|] == results;
  }

  lemma InvStep(n: nat, s: State, step: Step)
    requires Inv(n, s) && Enabled(s, step)
    ensures Inv(n, Next(s, step))
  {
    match step
    case MainStep =>
      MainStepMain(n, s);
      MainStepRest(n, s);
      MainStepErrors(n, s);
      MainStepHistory(n, s);
    case WorkerStep(id, outcome) =>
      WorkerStepMain(n, s, id, outcome);
      WorkerStepFinish(n, s, id, outcome);
      WorkerStepLock(s, id, outcome);
      WorkerStepStarts(s, id, outcome);
      WorkerStepResults(s, id, outcome);
      WorkerStepErrors(s, id, outcome);
  }

  // ---------- whole runs ----------

  /** A run of the pool: any interleaving, of any length. */
  ghost predicate IsRun(n: int, trace: seq<State>, steps: seq<Step>) {
    && |trace| == |steps| + 1 && trace[0] == Init(n)
    && forall k :: 0 <= k < |steps| ==> Enabled(trace[k], steps[k]) && trace[k + 1] == Next(trace[k], steps[k])
  }

  lemma {:induction false} RunInv(n: nat, trace: seq<State>, steps: seq<Step>, k: nat)
    requires n >= 1 && IsRun(n, trace, steps) && k < |trace|
    ensures Inv(n, trace[k])
  {
    hide Inv, Init, Next, Enabled;
    if k == 0 {
      InvInit(n);
    } else {
      RunInv(n, trace, steps, k - 1);
      InvStep(n, trace[k - 1], steps[k - 1]);
    }
  }

  /** The barrier: when any probe starts, every worker has been spawned. */
  lemma NoProbeBeforeAllSpawned(n: nat, trace: seq<State>, steps: seq<Step>, k: nat)
    requires n >= 1 && IsRun(n, trace, steps) && k < |steps|
    requires |trace[k + 1].starts| > |trace[k].starts|
    ensures |trace[k].workers| == n && forall i :: 0 <= i < n ==> !trace[k].workers[i].Unborn?
  {
    RunInv(n, trace, steps, k);
  }

  /** The mutex: at most one worker is between its lock and its unlock. */
  lemma AtMostOneAppends(n: nat, trace: seq<State>, steps: seq<Step>, k: nat, i: nat, j: nat)
    requires n >= 1 && IsRun(n, trace, steps) && k < |trace|
    requires i < |trace[k].workers| && j < |trace[k].workers|
    requires InSection(trace[k].workers[i]) && InSection(trace[k].workers[j])
    ensures i == j
  {
    RunInv(n, trace, steps, k);
  }

  lemma FirstIsEnabled(n: int, trace: seq<State>, steps: seq<Step>)
    requires IsRun(n, trace, steps)
    ensures steps == [] || Enabled(Init(n), steps[0])
  {
    hide Enabled, Init;
  }

  /** When the pool returns: every worker has ended, each probe ran once, and the errors are exactly the probes'
      errors.  Asked for fewer than one worker it has returned at its start, with its own error, and stays there. */
  lemma ReturnsEveryError(n: int, trace: seq<State>, steps: seq<Step>, k: nat)
    requires IsRun(n, trace, steps) && k < |trace| && trace[k].main.Finished?
    ensures |trace[k].workers| == (if n < 1 then 0 else n)
    ensures forall i :: 0 <= i < n ==> trace[k].workers[i].Exited?
    ensures forall id: nat :: multiset(trace[k].starts)[id] == if id < n then 1 else 0
    ensures forall id: nat :: multiset(Ids(trace[k].results))[id] == if id < n then 1 else 0
    ensures if n < 1 then trace[k].main.errs == [WorkersMustBePositive] && steps == []
            else multiset(trace[k].main.errs) == multiset(NonNil(trace[k].results))
  {
    if n < 1 {
      FirstIsEnabled(n, trace, steps);
      NoWorkersNoRun(n);
    } else {
      RunInv(n, trace, steps, k);
      NobodyLives(trace[k].workers);
      forall e ensures multiset(trace[k].main.errs)[e] == multiset(NonNil(trace[k].results))[e] {
        assert Balanced(trace[k], e);
      }
    }
  }

  function Measure(s: State): int {
    WorkersWeight(s.workers) +
    match s.main
    case Adding(k) => 2 * (|s.workers| - k) + 3
    case Spawning(k) => 2 * (|s.workers| - k) + 2
    case Closing => 2
    case Waiting => 1
    case Finished(_) => 0
  }

  lemma MeasureFalls(n: nat, s: State, step: Step)
    requires MainAgrees(n, s) && Enabled(s, step)
    ensures 0 <= Measure(Next(s, step)) < Measure(s)
  {
    match step
    case MainStep =>
      if s.main.Spawning? {
        UpdateWeight(s.workers, s.main.worker, Blocked);
      }
    case WorkerStep(id, outcome) =>
      UpdateWeight(s.workers, id, NextWorker(s, id, outcome).workers[id]);
  }

  /** Every run ends: no interleaving takes more steps than this. */
  lemma {:induction false} RunsAreBounded(n: nat, trace: seq<State>, steps: seq<Step>, k: nat)
    requires n >= 1 && IsRun(n, trace, steps) && k < |trace|
    ensures 0 <= Measure(trace[k]) <= 10 * n + 3 - k
  {
    if k == 0 {
      AllUnborn(n);
    } else {
      RunsAreBounded(n, trace, steps, k - 1);
      RunInv(n, trace, steps, k - 1);
      MeasureFalls(n, trace[k - 1], steps[k - 1]);
    }
  }

  /** No deadlock: until the pool has returned, some thread can step. */
  lemma NeverStuck(n: nat, trace: seq<State>, steps: seq<Step>, k: nat) returns (step: Step)
    requires n >= 1 && IsRun(n, trace, steps) && k < |trace| && !trace[k].main.Finished?
    ensures Enabled(trace[k], step)
  {
    var s := trace[k];
    RunInv(n, trace, steps, k);
    step := MainStep;
    if s.main.Waiting? && s.group != 0 {
      if s.lock.Some? {
        step := WorkerStep(s.lock.value, None);
      } else {
        var id := SomeoneLives(s.workers);
        step := WorkerStep(id, None);
      }
    }
  }

  /** Without a positive number of workers nothing can step. */
  lemma NoWorkersNoRun(n: int)
    requires n < 1
    ensures Init(n).main == Finished([WorkersMustBePositive])
    ensures forall step :: !Enabled(Init(n), step)
  {
  }
}
