/** The job scheduler (module.go:206-393). Two views of one protocol: the objects with their methods,
    and a state machine in which any number of workers interleave at every lock boundary. */
module Scheduler {
  import opened Common

  /** The fields of a job that the protocol reads and writes. */
  datatype JobState = JobState(every: int, gated: bool, nextRun: int, running: bool, locked: bool,
                               runs: nat, failures: nat)

  // ---------------------------------------------------------- the claim's scan

  predicate Due(j: JobState, now: int) { !j.running && j.nextRun <= now }

  /** One iteration of the scan: job i replaces the pick when due strictly earlier. */
  function Better(jobs: seq<JobState>, now: int, i: nat, pick: Option<nat>): Option<nat>
    requires i < |jobs| && (pick.Some? ==> pick.value < |jobs|)
  {
    if Due(jobs[i], now) && (pick.None? || jobs[i].nextRun < jobs[pick.value].nextRun) then Some(i) else pick
  }

  function Scan(jobs: seq<JobState>, now: int, n: nat): (pick: Option<nat>)
    requires n <= |jobs|
    ensures pick.Some? ==> pick.value < n
  {
    if n == 0 then None else Better(jobs, now, n - 1, Scan(jobs, now, n - 1))
  }

  /** The scan picks the earliest due job, the first registered among equals, or nothing if none is due. */
  lemma {:induction false} ScanPicksEarliest(jobs: seq<JobState>, now: int, n: nat)
    requires n <= |jobs|
    ensures Scan(jobs, now, n).None? <==> forall k :: 0 <= k < n ==> !Due(jobs[k], now)
    ensures Scan(jobs, now, n).Some? ==>
              var p := Scan(jobs, now, n).value;
              && Due(jobs[p], now)
              && forall k :: 0 <= k < n && Due(jobs[k], now) ==>
                   jobs[p].nextRun < jobs[k].nextRun || (jobs[p].nextRun == jobs[k].nextRun && p <= k)
  {
    if n > 0 {
      ScanPicksEarliest(jobs, now, n - 1);
    }
  }

  // ------------------------------------------------------------------- objects

  /** The gate says no: not a run, not a failure. */
  function Denied(j: JobState, now: int): JobState { j.(locked := true, running := false, nextRun := now + j.every) }

  /** The gate, if there is one, lets the job run. */
  function Passed(j: JobState): JobState { if j.gated then j.(locked := false) else j }

  function Ended(j: JobState, failed: bool, now: int): JobState {
    j.(running := false, nextRun := now + j.every, runs := j.runs + 1, failures := j.failures + if failed then 1 else 0)
  }

  class Job {
    const name: string
    const mod: string
    const every: int
    const gated: bool
    var nextRun: int
    var running: bool
    var locked: bool
    var runs: nat
    var failures: nat

    constructor (name: string, mod: string, every: int, gated: bool, nextRun: int)
      ensures this.name == name && this.mod == mod
      ensures State() == JobState(every, gated, nextRun, false, false, 0, 0)
    {
      this.name, this.mod, this.every, this.gated, this.nextRun := name, mod, every, gated, nextRun;
      running, locked, runs, failures := false, false, 0, 0;
    }

    ghost function State(): JobState reads this {
      JobState(every, gated, nextRun, running, locked, runs, failures)
    }
  }

  ghost function States(jobs: seq<Job>): seq<JobState>
    reads jobs
  {
    seq(|jobs|, i requires 0 <= i < |jobs| reads jobs => jobs[i].State())
  }

  /** No job was added twice. */
  ghost predicate Distinct(jobs: seq<Job>) { forall i, j :: 0 <= i < j < |jobs| ==> jobs[i] != jobs[j] }

  class Pool {
    var jobs: seq<Job>

    constructor ()
      ensures jobs == []
    {
      jobs := [];
    }

    method Add(j: Job)
      modifies this
      ensures jobs == old(jobs) + [j]
      ensures old(Distinct(jobs)) && j !in old(jobs) ==> Distinct(jobs)
    {
      jobs := jobs + [j];
    }

    /** Marks the earliest due job as running, or finds that none is due. */
    method Claim(now: int) returns (pick: Job?)
      modifies jobs
      ensures pick == null <==> Scan(old(States(jobs)), now, |jobs|).None?
      ensures pick != null ==> pick == jobs[Scan(old(States(jobs)), now, |jobs|).value]
      ensures forall k :: 0 <= k < |jobs| ==>
                jobs[k].State() ==
                if jobs[k] == pick then old(jobs[k].State()).(running := true) else old(jobs[k].State())
      ensures pick != null && Distinct(jobs) ==>
                var p := Scan(old(States(jobs)), now, |jobs|).value;
                States(jobs) == old(States(jobs))[p := old(States(jobs))[p].(running := true)]
    {
      pick := null;
      ghost var at: Option<nat> := None;
      for i := 0 to |jobs|
        invariant at == Scan(States(jobs), now, i)
        invariant pick == if at.None? then null else jobs[at.value]
        invariant States(jobs) == old(States(jobs))
      {
        var j := jobs[i];
        var due := !j.running && j.nextRun <= now;
        if due && (pick == null || j.nextRun < pick.nextRun) {
          pick := j;
          at := Some(i);
        }
      }
      assert forall k :: 0 <= k < |jobs| ==>
                           jobs[k].State() == States(jobs)[k] == old(States(jobs))[k] == old(jobs[k].State());
      if pick != null {
        pick.running := true;
      }
    }

    /** Gate, run and finish one claimed job; what the gate and the function answered are arguments. */
    method Run(j: Job, denied: bool, failed: bool, now: int)
      modifies j
      ensures j.State() ==
              if j.gated && denied then Denied(old(j.State()), now) else Ended(Passed(old(j.State())), failed, now)
      ensures j.nextRun == now + j.every && !j.running
      ensures j.locked == if j.gated then denied else old(j.locked)
    {
      if j.gated {
        if denied {
          j.locked := true;
          j.running := false;
          j.nextRun := now + j.every;
          return;
        }
        j.locked := false;
      }
      if failed {
        j.failures := j.failures + 1;
      }
      j.runs := j.runs + 1;
      j.nextRun := now + j.every;
      j.running := false;
    }

    /** Moves the first job of that name to now. */
    method RunNow(mod: string, name: string, now: int) returns (found: bool)
      modifies jobs
      ensures found <==> exists i :: 0 <= i < |jobs| && Named(jobs[i], mod, name)
      ensures !found ==> States(jobs) == old(States(jobs))
      ensures found ==> exists i :: FirstNamed(jobs, mod, name, i)
                                    && MovedTo(old(States(jobs)), States(jobs), jobs, i, now)
    {
      for i := 0 to |jobs|
        invariant forall k :: 0 <= k < i ==> !Named(jobs[k], mod, name)
        invariant States(jobs) == old(States(jobs))
      {
        var j := jobs[i];
        if j.name == name && (mod == "" || j.mod == mod) {
          assert forall k :: 0 <= k < |jobs| ==> jobs[k].State() == States(jobs)[k] == old(States(jobs))[k];
          j.nextRun := now;
          assert FirstNamed(jobs, mod, name, i) && MovedTo(old(States(jobs)), States(jobs), jobs, i, now);
          return true;
        }
      }
      return false;
    }
  }

  /** Job i is due now, wherever it is listed, and nothing else changed. */
  ghost predicate MovedTo(was: seq<JobState>, now_: seq<JobState>, jobs: seq<Job>, i: nat, now: int) {
    && |was| == |now_| == |jobs| && i < |jobs|
    && (forall k :: 0 <= k < |jobs| ==> now_[k] == if jobs[k] == jobs[i] then was[k].(nextRun := now) else was[k])
    && (Distinct(jobs) ==> now_ == was[i := was[i].(nextRun := now)])
  }

  ghost predicate FirstNamed(jobs: seq<Job>, mod: string, name: string, i: int) {
    0 <= i < |jobs| && Named(jobs[i], mod, name) && forall k :: 0 <= k < i ==> !Named(jobs[k], mod, name)
  }

  predicate Named(j: Job, mod: string, name: string) {
    j.name == name && (mod == "" || j.mod == mod)
  }

  // ------------------------------------------------------- workers interleaving

  /** Where a worker is. The scheduler's mutex is held exactly while scanning;
      the clock is read before it is taken. */
  datatype Worker =
    | Idle
    | Waiting(now: int)
    | Scanning(now: int, i: nat, pick: Option<nat>)
    | Gating(job: nat)
    | Running(job: nat)

  datatype Sys = Sys(jobs: seq<JobState>, workers: seq<Worker>, clock: int)

  datatype Action =
    | Tick(to: int)
    | ReadClock(w: nat)
    | Lock(w: nat)
    | Inspect(w: nat)
    | Take(w: nat)
    | Deny(w: nat)
    | Pass(w: nat)
    | Finish(w: nat, failed: bool)
    | RunNow(job: nat)
    | AddJob(new_: JobState)

  predicate LockFree(s: Sys) { forall w :: 0 <= w < |s.workers| ==> !s.workers[w].Scanning? }

  predicate Enabled(s: Sys, a: Action) {
    match a
    case Tick(to) => s.clock <= to
    case ReadClock(w) => w < |s.workers| && s.workers[w].Idle?
    case Lock(w) => w < |s.workers| && s.workers[w].Waiting? && LockFree(s)
    case Inspect(w) => w < |s.workers| && s.workers[w].Scanning? && s.workers[w].i < |s.jobs|
                       && (s.workers[w].pick.Some? ==> s.workers[w].pick.value < |s.jobs|)
    case Take(w) => w < |s.workers| && s.workers[w].Scanning? && s.workers[w].i == |s.jobs|
                    && (s.workers[w].pick.Some? ==> s.workers[w].pick.value < |s.jobs|)
    case Deny(w) => w < |s.workers| && s.workers[w].Gating? && s.workers[w].job < |s.jobs|
                    && s.jobs[s.workers[w].job].gated
    case Pass(w) => w < |s.workers| && s.workers[w].Gating? && s.workers[w].job < |s.jobs|
    case Finish(w, _) => w < |s.workers| && s.workers[w].Running? && s.workers[w].job < |s.jobs|
    case RunNow(j) => j < |s.jobs| && LockFree(s)
    case AddJob(j) => LockFree(s) && !j.running && j.failures == j.runs == 0
  }

  function Apply(s: Sys, a: Action): Sys
    requires Enabled(s, a)
  {
    match a
    case Tick(to) => s.(clock := to)
    case ReadClock(w) => s.(workers := s.workers[w := Waiting(s.clock)])
    case Lock(w) => s.(workers := s.workers[w := Scanning(s.workers[w].now, 0, None)])
    case Inspect(w) =>
      var p := s.workers[w];
      s.(workers := s.workers[w := Scanning(p.now, p.i + 1, Better(s.jobs, p.now, p.i, p.pick))])
    case Take(w) =>
      if s.workers[w].pick.None? then s.(workers := s.workers[w := Idle])
      else
        var j := s.workers[w].pick.value;
        s.(workers := s.workers[w := Gating(j)], jobs := s.jobs[j := s.jobs[j].(running := true)])
    case Deny(w) =>
      var j := s.workers[w].job;
      s.(workers := s.workers[w := Idle], jobs := s.jobs[j := Denied(s.jobs[j], s.clock)])
    case Pass(w) =>
      var j := s.workers[w].job;
      s.(workers := s.workers[w := Running(j)], jobs := s.jobs[j := Passed(s.jobs[j])])
    case Finish(w, failed) =>
      var j := s.workers[w].job;
      s.(workers := s.workers[w := Idle], jobs := s.jobs[j := Ended(s.jobs[j], failed, s.clock)])
    case RunNow(j) => s.(jobs := s.jobs[j := s.jobs[j].(nextRun := s.clock)])
    case AddJob(j) => s.(jobs := s.jobs + [j])
  }

  /** A trace is any sequence of actions; one that is not enabled when its turn comes does nothing. */
  function Step(s: Sys, a: Action): Sys {
    if Enabled(s, a) then Apply(s, a) else s
  }

  function Run(s: Sys, tr: seq<Action>): Sys {
    if tr == [] then s else Step(Run(s, tr[..|tr| - 1]), tr[|tr| - 1])
  }

  // ---------------------------------------------------------- mutual exclusion

  predicate Holds(p: Worker, j: nat) { (p.Gating? || p.Running?) && p.job == j }

  ghost predicate Inv(s: Sys) {
    && (forall v, w :: 0 <= v < w < |s.workers| ==> !(s.workers[v].Scanning? && s.workers[w].Scanning?))
    && (forall w :: 0 <= w < |s.workers| ==> WorkerOk(s, s.workers[w]))
    && (forall v, w, j :: 0 <= v < w < |s.workers| && Holds(s.workers[v], j) ==> !Holds(s.workers[w], j))
    && (forall j :: 0 <= j < |s.jobs| && s.jobs[j].running ==>
         exists w :: 0 <= w < |s.workers| && Holds(s.workers[w], j))
    && (forall j :: 0 <= j < |s.jobs| ==> s.jobs[j].failures <= s.jobs[j].runs)
  }

  predicate WorkerOk(s: Sys, p: Worker) {
    match p
    case Idle => true
    case Waiting(now) => now <= s.clock
    case Scanning(now, i, pick) =>
      now <= s.clock && i <= |s.jobs| && (pick.Some? ==> pick.value < i && Due(s.jobs[pick.value], now))
    case Gating(j) => j < |s.jobs| && s.jobs[j].running
    case Running(j) => j < |s.jobs| && s.jobs[j].running
  }

  ghost predicate Init(s: Sys) {
    && (forall w :: 0 <= w < |s.workers| ==> s.workers[w].Idle?)
    && (forall j :: 0 <= j < |s.jobs| ==> !s.jobs[j].running && s.jobs[j].failures <= s.jobs[j].runs)
  }

  lemma HeldStaysHeld(s: Sys, s': Sys, j: nat, w: nat)
    requires w < |s.workers| == |s'.workers| && Holds(s.workers[w], j) && Holds(s'.workers[w], j)
    ensures exists v :: 0 <= v < |s'.workers| && Holds(s'.workers[v], j)
  {
  }

  /** Steps that leave the jobs alone: the clock, reading it, the lock and the scan. */
  lemma QuietStepKeepsInv(s: Sys, a: Action)
    requires Inv(s) && Enabled(s, a)
    requires a.Tick? || a.ReadClock? || a.Lock? || a.Inspect? || (a.Take? && s.workers[a.w].pick.None?)
    ensures Inv(Apply(s, a))
  {
    var s' := Apply(s, a);
    forall w | 0 <= w < |s'.workers|
      ensures WorkerOk(s', s'.workers[w])
    {
      assert WorkerOk(s, s.workers[w]);
    }
    forall j | 0 <= j < |s'.jobs| && s'.jobs[j].running
      ensures exists w :: 0 <= w < |s'.workers| && Holds(s'.workers[w], j)
    {
      var w :| 0 <= w < |s.workers| && Holds(s.workers[w], j);
      HeldStaysHeld(s, s', j, w);
    }
  }

  lemma TakeKeepsInv(s: Sys, w: nat)
    requires Inv(s) && Enabled(s, Take(w)) && s.workers[w].pick.Some?
    ensures Inv(Apply(s, Take(w)))
  {
    var s', p := Apply(s, Take(w)), s.workers[w].pick.value;
    assert WorkerOk(s, s.workers[w]);
    forall v | 0 <= v < |s.workers|
      ensures WorkerOk(s', s'.workers[v]) && !Holds(s.workers[v], p)
    {
      assert WorkerOk(s, s.workers[v]);
    }
    forall j | 0 <= j < |s'.jobs| && s'.jobs[j].running
      ensures exists v :: 0 <= v < |s'.workers| && Holds(s'.workers[v], j)
    {
      if j == p {
        assert Holds(s'.workers[w], j);
      } else {
        var v :| 0 <= v < |s.workers| && Holds(s.workers[v], j);
        HeldStaysHeld(s, s', j, v);
      }
    }
  }

  lemma HolderStepKeepsWorkers(s: Sys, a: Action, v: nat)
    requires Inv(s) && Enabled(s, a) && (a.Deny? || a.Pass? || a.Finish?) && v < |s.workers|
    ensures WorkerOk(Apply(s, a), Apply(s, a).workers[v])
  {
    var p := s.workers[a.w].job;
    assert WorkerOk(s, s.workers[v]) && WorkerOk(s, s.workers[a.w]);
    assert Holds(s.workers[a.w], p);
    assert v != a.w ==> !Holds(s.workers[v], p);
  }

  lemma HolderStepKeepsHeld(s: Sys, a: Action, j: nat)
    requires Inv(s) && Enabled(s, a) && (a.Deny? || a.Pass? || a.Finish?)
    requires j < |s.jobs| && Apply(s, a).jobs[j].running
    ensures exists v :: 0 <= v < |s.workers| && Holds(Apply(s, a).workers[v], j)
  {
    assert Holds(s.workers[a.w], s.workers[a.w].job);
    assert s.jobs[j].running;
    var v :| 0 <= v < |s.workers| && Holds(s.workers[v], j);
    HeldStaysHeld(s, Apply(s, a), j, v);
  }

  lemma HolderStepHoldsNoMore(s: Sys, a: Action, v: nat, j: nat)
    requires Enabled(s, a) && (a.Deny? || a.Pass? || a.Finish?) && v < |s.workers|
    requires Holds(Apply(s, a).workers[v], j)
    ensures Holds(s.workers[v], j)
  {
  }

  /** Steps of the worker that holds a job: the gate's answer and the finish. */
  lemma HolderStepKeepsInv(s: Sys, a: Action)
    requires Inv(s) && Enabled(s, a) && (a.Deny? || a.Pass? || a.Finish?)
    ensures Inv(Apply(s, a))
  {
    var s' := Apply(s, a);
    forall v | 0 <= v < |s.workers|
      ensures WorkerOk(s', s'.workers[v])
    {
      HolderStepKeepsWorkers(s, a, v);
    }
    forall j | 0 <= j < |s'.jobs| && s'.jobs[j].running
      ensures exists v :: 0 <= v < |s'.workers| && Holds(s'.workers[v], j)
    {
      HolderStepKeepsHeld(s, a, j);
    }
    forall v, w, j | 0 <= v < w < |s'.workers| && Holds(s'.workers[v], j)
      ensures !Holds(s'.workers[w], j)
    {
      HolderStepHoldsNoMore(s, a, v, j);
      if Holds(s'.workers[w], j) { HolderStepHoldsNoMore(s, a, w, j); }
    }
  }

  lemma OperatorStepKeepsInv(s: Sys, a: Action)
    requires Inv(s) && Enabled(s, a) && (a.RunNow? || a.AddJob?)
    ensures Inv(Apply(s, a))
  {
    var s' := Apply(s, a);
    forall v | 0 <= v < |s.workers|
      ensures WorkerOk(s', s'.workers[v])
    {
      assert WorkerOk(s, s.workers[v]);
    }
    forall j | 0 <= j < |s'.jobs| && s'.jobs[j].running
      ensures exists v :: 0 <= v < |s'.workers| && Holds(s'.workers[v], j)
    {
      var v :| 0 <= v < |s.workers| && Holds(s.workers[v], j);
      HeldStaysHeld(s, s', j, v);
    }
  }

  lemma StepKeepsInv(s: Sys, a: Action)
    requires Inv(s)
    ensures Inv(Step(s, a))
  {
    if Enabled(s, a) {
      match a
      case Take(w) =>
        if s.workers[w].pick.Some? { TakeKeepsInv(s, w); } else { QuietStepKeepsInv(s, a); }
      case Deny(_) => HolderStepKeepsInv(s, a);
      case Pass(_) => HolderStepKeepsInv(s, a);
      case Finish(_, _) => HolderStepKeepsInv(s, a);
      case RunNow(_) => OperatorStepKeepsInv(s, a);
      case AddJob(_) => OperatorStepKeepsInv(s, a);
      case _ => QuietStepKeepsInv(s, a);
    }
  }

  /** MUTUAL EXCLUSION: in every interleaving a job is marked running exactly when one worker holds it,
      and never two, and no job counts more failures than runs. */
  lemma {:induction false} MutualExclusion(s: Sys, tr: seq<Action>)
    requires Init(s)
    ensures Inv(Run(s, tr))
    ensures var t := Run(s, tr);
            && (forall j :: 0 <= j < |t.jobs| ==>
                 (t.jobs[j].running <==> exists w :: 0 <= w < |t.workers| && Holds(t.workers[w], j)))
            && (forall v, w, j :: 0 <= v < w < |t.workers| ==> !(Holds(t.workers[v], j) && Holds(t.workers[w], j)))
            && (forall j :: 0 <= j < |t.jobs| ==> t.jobs[j].failures <= t.jobs[j].runs)
  {
    if tr != [] {
      MutualExclusion(s, tr[..|tr| - 1]);
      StepKeepsInv(Run(s, tr[..|tr| - 1]), tr[|tr| - 1]);
    }
    var t := Run(s, tr);
    forall j, w | 0 <= j < |t.jobs| && 0 <= w < |t.workers| && Holds(t.workers[w], j)
      ensures t.jobs[j].running
    {
      assert WorkerOk(t, t.workers[w]);
    }
  }

  // ------------------------------------------------------- the scan is atomic

  /** Jobs that are not due on either side do not influence the scan. */
  lemma {:induction false} ScanIgnoresIdle(jobs: seq<JobState>, jobs': seq<JobState>, now: int, n: nat)
    requires n <= |jobs| <= |jobs'|
    requires forall k :: 0 <= k < n ==>
               || jobs'[k] == jobs[k] || (!Due(jobs[k], now) && !Due(jobs'[k], now))
               || (Due(jobs[k], now) && Due(jobs'[k], now) && jobs'[k].nextRun == jobs[k].nextRun)
    ensures Scan(jobs', now, n) == Scan(jobs, now, n)
  {
    if n > 0 {
      ScanIgnoresIdle(jobs, jobs', now, n - 1);
      ScanPicksEarliest(jobs, now, n - 1);
    }
  }

  /** With positive intervals, what a scanning worker has picked so far is what an instantaneous scan
      with its clock reading would pick now. */
  ghost predicate Linear(s: Sys) {
    && Inv(s)
    && (forall j :: 0 <= j < |s.jobs| ==> s.jobs[j].every > 0)
    && (forall w :: 0 <= w < |s.workers| ==> ScanCurrent(s, s.workers[w]))
  }

  predicate ScanCurrent(s: Sys, p: Worker) {
    p.Scanning? && p.i <= |s.jobs| ==> p.pick == Scan(s.jobs, p.now, p.i)
  }

  predicate PositiveIntervals(a: Action) { a.AddJob? ==> a.new_.every > 0 }

  lemma LinearStep(s: Sys, a: Action)
    requires Linear(s) && PositiveIntervals(a)
    ensures Linear(Step(s, a))
  {
    StepKeepsInv(s, a);
    var s' := Step(s, a);
    forall w | 0 <= w < |s'.workers| && s'.workers[w].Scanning?
      ensures ScanCurrent(s', s'.workers[w])
    {
      var p := s'.workers[w];
      assert ScanCurrent(s, s.workers[w]) && WorkerOk(s, s.workers[w]);
      if s.workers[w].Scanning? && s.workers[w].i <= |s.jobs| && Enabled(s, a) && (a.Deny? || a.Pass? || a.Finish?) {
        assert WorkerOk(s, s.workers[a.w]);
        ScanIgnoresIdle(s.jobs, s'.jobs, p.now, p.i);
      }
    }
  }

  lemma {:induction false} LinearRun(s: Sys, tr: seq<Action>)
    requires Linear(s) && forall a :: a in tr ==> PositiveIntervals(a)
    ensures Linear(Run(s, tr))
  {
    if tr != [] {
      assert tr == tr[..|tr| - 1] + [tr[|tr| - 1]];
      LinearRun(s, tr[..|tr| - 1]);
      LinearStep(Run(s, tr[..|tr| - 1]), tr[|tr| - 1]);
    }
  }

  /** The job claimed by a step, if it is a successful claim. */
  function ClaimedBy(s: Sys, a: Action): Option<nat> {
    if a.Take? && Enabled(s, a) then s.workers[a.w].pick else None
  }

  /** Although finishing workers change jobs in the middle of a scan, every claim takes what one
      instantaneous scan at the moment of taking would: the earliest due job. */
  lemma ClaimIsAtomic(s: Sys, tr: seq<Action>, w: nat)
    requires Init(s) && (forall j :: 0 <= j < |s.jobs| ==> s.jobs[j].every > 0)
    requires forall a :: a in tr ==> PositiveIntervals(a)
    requires Enabled(Run(s, tr), Take(w))
    ensures var t := Run(s, tr); ClaimedBy(t, Take(w)) == Scan(t.jobs, t.workers[w].now, |t.jobs|)
  {
    LinearRun(s, tr);
    assert ScanCurrent(Run(s, tr), Run(s, tr).workers[w]);
  }

  // -------------------------------------------------------- bounded overtaking

  function Claims(s: Sys, tr: seq<Action>, j: nat): nat {
    if tr == [] then 0
    else
      var front := tr[..|tr| - 1];
      Claims(s, front, j) + if ClaimedBy(Run(s, front), tr[|tr| - 1]) == Some(j) then 1 else 0
  }

  /** While job a waits, due since before the trace, a job claimed once is running or due later. */
  ghost predicate Waits(s: Sys, tr: seq<Action>, a: nat)
    requires a < |s.jobs|
  {
    var t, due := Run(s, tr), s.jobs[a].nextRun;
    && Linear(t) && a < |t.jobs|
    && !t.jobs[a].running && t.jobs[a].nextRun == due <= t.clock
    && forall b: nat :: Claims(s, tr, b) > 0 ==>
         Claims(s, tr, b) == 1 && b < |t.jobs| && (t.jobs[b].running || t.jobs[b].nextRun > due)
  }

  lemma SnocTrace(s: Sys, tr: seq<Action>, a: Action, j: nat)
    ensures Run(s, tr + [a]) == Step(Run(s, tr), a)
    ensures Claims(s, tr + [a], j) ==
            Claims(s, tr, j) + if ClaimedBy(Run(s, tr), a) == Some(j) then 1 else 0
  {
    assert (tr + [a])[..|tr|] == tr;
  }

  /** A job that is due later than the waiting one is never claimed. */
  lemma LaterIsNotClaimed(t: Sys, act: Action, a: nat, b: nat)
    requires Linear(t) && a < |t.jobs| && b < |t.jobs| && !t.jobs[a].running
    requires t.jobs[b].running || t.jobs[b].nextRun > t.jobs[a].nextRun
    ensures ClaimedBy(t, act) != Some(b)
  {
    if act.Take? && Enabled(t, act) {
      var p := t.workers[act.w];
      assert ScanCurrent(t, p) && WorkerOk(t, p);
      ScanPicksEarliest(t.jobs, p.now, |t.jobs|);
    }
  }

  /** No step touches the waiting job, and a finished job is due strictly later than the clock. */
  lemma WaitingJobStays(t: Sys, act: Action, a: nat, b: nat)
    requires Linear(t) && a < |t.jobs| && Due(t.jobs[a], t.clock)
    requires PositiveIntervals(act) && !act.RunNow? && ClaimedBy(t, act) != Some(a)
    ensures var t' := Step(t, act);
      && a < |t'.jobs| && Due(t'.jobs[a], t'.clock) && t'.jobs[a].nextRun == t.jobs[a].nextRun
      && (b < |t.jobs| && (t.jobs[b].running || t.jobs[b].nextRun > t.jobs[a].nextRun) ==>
           t'.jobs[b].running || t'.jobs[b].nextRun > t.jobs[a].nextRun)
      && (ClaimedBy(t, act) == Some(b) ==> b < |t'.jobs| && t'.jobs[b].running)
  {
    if Enabled(t, act) && (act.Deny? || act.Pass? || act.Finish?) {
      assert WorkerOk(t, t.workers[act.w]);
    }
  }

  lemma WaitsStep(s: Sys, tr: seq<Action>, act: Action, a: nat)
    requires a < |s.jobs| && Waits(s, tr, a)
    requires PositiveIntervals(act) && !act.RunNow? && ClaimedBy(Run(s, tr), act) != Some(a)
    ensures Waits(s, tr + [act], a)
  {
    var t, due := Run(s, tr), s.jobs[a].nextRun;
    var t' := Step(t, act);
    SnocTrace(s, tr, act, a);
    LinearStep(t, act);
    WaitingJobStays(t, act, a, a);
    forall b: nat | Claims(s, tr + [act], b) > 0
      ensures Claims(s, tr + [act], b) == 1 && b < |t'.jobs| && (t'.jobs[b].running || t'.jobs[b].nextRun > due)
    {
      SnocTrace(s, tr, act, b);
      WaitingJobStays(t, act, a, b);
      if Claims(s, tr, b) > 0 {
        LaterIsNotClaimed(t, act, a, b);
      }
    }
  }

  lemma {:induction false} WaitsRun(s: Sys, tr: seq<Action>, a: nat)
    requires Linear(s) && a < |s.jobs| && Due(s.jobs[a], s.clock)
    requires forall act :: act in tr ==> PositiveIntervals(act) && !act.RunNow?
    requires Claims(s, tr, a) == 0
    ensures Waits(s, tr, a)
  {
    if tr != [] {
      var front, act := tr[..|tr| - 1], tr[|tr| - 1];
      assert tr == front + [act];
      WaitsRun(s, front, a);
      WaitsStep(s, front, act, a);
    }
  }

  /** BOUNDED OVERTAKING: once job a is idle and due, in every interleaving with positive intervals and
      no RunNow from then on, every other job is claimed at most once before a is. */
  lemma BoundedOvertaking(start: Sys, past: seq<Action>, tr: seq<Action>, a: nat, b: nat)
    requires Init(start) && (forall j :: 0 <= j < |start.jobs| ==> start.jobs[j].every > 0)
    requires forall act :: act in past + tr ==> PositiveIntervals(act)
    requires forall act :: act in tr ==> !act.RunNow?
    requires var s := Run(start, past); a < |s.jobs| && Due(s.jobs[a], s.clock)
    requires Claims(Run(start, past), tr, a) == 0
    ensures Claims(Run(start, past), tr, b) <= 1
  {
    LinearRun(start, past);
    WaitsRun(Run(start, past), tr, a);
  }

  /** All claims of a trace. */
  function TotalClaims(s: Sys, tr: seq<Action>): nat {
    if tr == [] then 0
    else
      var front := tr[..|tr| - 1];
      TotalClaims(s, front) + if ClaimedBy(Run(s, front), tr[|tr| - 1]).Some? then 1 else 0
  }

  lemma {:induction false} ClaimedJobs(s: Sys, tr: seq<Action>, a: nat) returns (claimed: set<nat>)
    requires Linear(s) && a < |s.jobs| && Due(s.jobs[a], s.clock)
    requires forall act :: act in tr ==> !act.AddJob? && !act.RunNow?
    requires Claims(s, tr, a) == 0
    ensures |claimed| == TotalClaims(s, tr) && |Run(s, tr).jobs| == |s.jobs|
    ensures forall b :: b in claimed <==> Claims(s, tr, b) > 0
  {
    claimed := {};
    if tr != [] {
      var front, act := tr[..|tr| - 1], tr[|tr| - 1];
      assert tr == front + [act];
      claimed := ClaimedJobs(s, front, a);
      var c := ClaimedBy(Run(s, front), act);
      if c.Some? {
        WaitsRun(s, tr, a);
        assert Claims(s, tr, c.value) == Claims(s, front, c.value) + 1;
        assert c.value !in claimed;
        claimed := claimed + {c.value};
      }
    }
  }

  lemma {:induction false} SmallSet(xs: set<nat>, n: nat)
    requires forall x :: x in xs ==> x < n
    ensures |xs| <= n
  {
    if n > 0 {
      SmallSet(xs - {n - 1}, n - 1);
    }
  }

  /** With a job set that is fixed from then on, a due job waits for at most one claim of each other job. */
  lemma WaitIsBounded(start: Sys, past: seq<Action>, tr: seq<Action>, a: nat)
    requires Init(start) && (forall j :: 0 <= j < |start.jobs| ==> start.jobs[j].every > 0)
    requires forall act :: act in past ==> PositiveIntervals(act)
    requires forall act :: act in tr ==> !act.AddJob? && !act.RunNow?
    requires var s := Run(start, past); a < |s.jobs| && Due(s.jobs[a], s.clock)
    requires Claims(Run(start, past), tr, a) == 0
    ensures TotalClaims(Run(start, past), tr) <= |Run(start, past).jobs| - 1
  {
    var s := Run(start, past);
    LinearRun(start, past);
    var claimed := ClaimedJobs(s, tr, a);
    WaitsRun(s, tr, a);
    SmallSet(claimed + {a}, |s.jobs|);
  }

  // ---------------------------------------------------------------- counters

  /** Whether step a finishes a run of job j (a failed one, if only those count). */
  predicate FinishOf(t: Sys, a: Action, j: nat, failedOnly: bool) {
    a.Finish? && Enabled(t, a) && t.workers[a.w].job == j && (failedOnly ==> a.failed)
  }

  /** Finishes of job j, counting all or only the failed ones. */
  function Finishes(s: Sys, tr: seq<Action>, j: nat, failedOnly: bool): nat {
    if tr == [] then 0
    else
      var front, a := tr[..|tr| - 1], tr[|tr| - 1];
      Finishes(s, front, j, failedOnly) + if FinishOf(Run(s, front), a, j, failedOnly) then 1 else 0
  }

  lemma CountersStep(t: Sys, a: Action, j: nat)
    requires j < |t.jobs|
    ensures j < |Step(t, a).jobs|
    ensures Step(t, a).jobs[j].runs == t.jobs[j].runs + if FinishOf(t, a, j, false) then 1 else 0
    ensures Step(t, a).jobs[j].failures == t.jobs[j].failures + if FinishOf(t, a, j, true) then 1 else 0
  {
  }

  /** Runs and Failures count exactly the finishes: a run the gate denied leaves both unchanged. */
  lemma {:induction false} CountersCountFinishes(s: Sys, tr: seq<Action>, j: nat)
    requires j < |s.jobs|
    ensures j < |Run(s, tr).jobs|
    ensures Run(s, tr).jobs[j].runs == s.jobs[j].runs + Finishes(s, tr, j, false)
    ensures Run(s, tr).jobs[j].failures == s.jobs[j].failures + Finishes(s, tr, j, true)
  {
    if tr != [] {
      CountersCountFinishes(s, tr[..|tr| - 1], j);
      CountersStep(Run(s, tr[..|tr| - 1]), tr[|tr| - 1], j);
    }
  }

  // ----------------------------------------------------- interval and gate

  /** Job j waits, and is due no earlier than d. */
  ghost predicate IdleUntil(t: Sys, j: nat, d: int) {
    Inv(t) && j < |t.jobs| && !t.jobs[j].running && t.jobs[j].nextRun == d
  }

  lemma IdleStays(t: Sys, a: Action, j: nat, d: int)
    requires IdleUntil(t, j, d) && a != RunNow(j) && ClaimedBy(t, a) != Some(j)
    ensures IdleUntil(Step(t, a), j, d)
  {
    StepKeepsInv(t, a);
    if Enabled(t, a) && (a.Deny? || a.Pass? || a.Finish?) {
      assert WorkerOk(t, t.workers[a.w]);
    }
  }

  lemma {:induction false} IdleStaysAll(t: Sys, tr: seq<Action>, j: nat, d: int)
    requires IdleUntil(t, j, d) && RunNow(j) !in tr && Claims(t, tr, j) == 0
    ensures IdleUntil(Run(t, tr), j, d)
  {
    if tr != [] {
      var front, a := tr[..|tr| - 1], tr[|tr| - 1];
      assert tr == front + [a];
      IdleStaysAll(t, front, j, d);
      IdleStays(Run(t, front), a, j, d);
    }
  }

  /** THE INTERVAL: in every interleaving, after a worker let go of a job, finished or denied, and unless
      RunNow is asked for, the next claim of that job reads the clock at least one interval later. */
  lemma IntervalIsKept(start: Sys, past: seq<Action>, w: nat, end: Action, tr: seq<Action>, v: nat)
    requires Init(start) && LetsGo(end, w) && Enabled(Run(start, past), end)
    requires var s := Run(start, past); var j, t := s.workers[w].job, Step(s, end);
      && RunNow(j) !in tr && Claims(t, tr, j) == 0
      && Enabled(Run(t, tr), Take(v)) && Run(t, tr).workers[v].pick == Some(j)
    ensures var s := Run(start, past);
            Run(Step(s, end), tr).workers[v].now >= s.clock + s.jobs[s.workers[w].job].every
  {
    var s := Run(start, past);
    var j, t := s.workers[w].job, Step(s, end);
    MutualExclusion(start, past);
    StepKeepsInv(s, end);
    IdleStaysAll(t, tr, j, s.clock + s.jobs[j].every);
    var q := Run(t, tr);
    assert WorkerOk(q, q.workers[v]);
  }

  /** Whether the last answer of the gate of job j in a trace was no; what it was before if none came. */
  function LastAnswer(s: Sys, tr: seq<Action>, j: nat): bool
    requires j < |s.jobs|
  {
    if tr == [] then s.jobs[j].locked
    else
      var front, a := tr[..|tr| - 1], tr[|tr| - 1];
      var t := Run(s, front);
      if (a.Deny? || a.Pass?) && Enabled(t, a) && t.workers[a.w].job == j && t.jobs[j].gated then a.Deny?
      else LastAnswer(s, front, j)
  }

  lemma JobsStay(s: Sys, a: Action)
    ensures |s.jobs| <= |Step(s, a).jobs|
  {
  }

  /** In every trace a job is shown locked exactly when the last answer of its gate was no. */
  lemma {:induction false} LockedIsLastAnswer(s: Sys, tr: seq<Action>, j: nat)
    requires j < |s.jobs|
    ensures j < |Run(s, tr).jobs| && Run(s, tr).jobs[j].gated == s.jobs[j].gated
    ensures Run(s, tr).jobs[j].locked == LastAnswer(s, tr, j)
  {
    if tr != [] {
      LockedIsLastAnswer(s, tr[..|tr| - 1], j);
      JobsStay(Run(s, tr[..|tr| - 1]), tr[|tr| - 1]);
    }
  }

  // ------------------------------------------------------------------ RunNow

  function DueAt(s: Sys, j: nat, n: int): Sys
    requires j < |s.jobs|
  {
    s.(jobs := s.jobs[j := s.jobs[j].(nextRun := n)])
  }

  /** Whether a is a step with which worker w lets go of its job. */
  predicate LetsGo(a: Action, w: nat) { (a.Deny? || a.Finish?) && a.w == w }

  ghost predicate HeldBy(s: Sys, j: nat, w: nat) {
    Inv(s) && w < |s.workers| && Holds(s.workers[w], j) && j < |s.jobs| && s.jobs[j].running
  }

  lemma HeldDueTimeInScan(s: Sys, a: Action, j: nat, w: nat, n: int)
    requires HeldBy(s, j, w) && (a.Tick? || a.ReadClock? || a.Lock? || a.Inspect?)
    ensures Step(DueAt(s, j, n), a) == DueAt(Step(s, a), j, n)
    ensures |Step(s, a).workers| == |s.workers| && Holds(Step(s, a).workers[w], j)
  {
    if a.Inspect? && Enabled(s, a) {
      assert WorkerOk(s, s.workers[a.w]);
    }
  }

  lemma HeldDueTimeInTake(s: Sys, v: nat, j: nat, w: nat, n: int)
    requires HeldBy(s, j, w)
    ensures Step(DueAt(s, j, n), Take(v)) == DueAt(Step(s, Take(v)), j, n)
    ensures |Step(s, Take(v)).workers| == |s.workers| && Holds(Step(s, Take(v)).workers[w], j)
  {
    if Enabled(s, Take(v)) && s.workers[v].pick.Some? {
      assert WorkerOk(s, s.workers[v]);
      assert Step(DueAt(s, j, n), Take(v)).jobs == DueAt(Step(s, Take(v)), j, n).jobs;
    }
  }

  lemma HeldDueTimeInRun(s: Sys, a: Action, j: nat, w: nat, n: int)
    requires HeldBy(s, j, w) && (a.Deny? || a.Pass? || a.Finish?) && !LetsGo(a, w)
    ensures Step(DueAt(s, j, n), a) == DueAt(Step(s, a), j, n)
    ensures |Step(s, a).workers| == |s.workers| && Holds(Step(s, a).workers[w], j)
  {
    if Enabled(s, a) {
      assert a.w != w ==> !Holds(s.workers[a.w], j);
      assert Step(DueAt(s, j, n), a).jobs == DueAt(Step(s, a), j, n).jobs;
    }
  }

  lemma HeldDueTimeInOperator(s: Sys, a: Action, j: nat, w: nat, n: int)
    requires HeldBy(s, j, w) && (a.RunNow? || a.AddJob?)
    ensures Step(DueAt(s, j, n), a) == DueAt(Step(s, a), j, if a == RunNow(j) && LockFree(s) then s.clock else n)
    ensures Step(s, a).workers == s.workers
  {
    assert LockFree(DueAt(s, j, n)) <==> LockFree(s);
    if Enabled(s, a) {
      assert Step(DueAt(s, j, n), a).jobs == DueAt(Step(s, a), j, if a == RunNow(j) then s.clock else n).jobs;
    }
  }

  /** While worker w holds job j, nothing depends on when j would be due. */
  lemma HeldDueTimeIsIdle(s: Sys, a: Action, j: nat, w: nat, n: int) returns (m: int)
    requires HeldBy(s, j, w) && !LetsGo(a, w)
    ensures HeldBy(Step(s, a), j, w) && Step(DueAt(s, j, n), a) == DueAt(Step(s, a), j, m)
  {
    m := n;
    StepKeepsInv(s, a);
    match a
    case Take(v) => HeldDueTimeInTake(s, v, j, w, n);
    case Deny(_) => HeldDueTimeInRun(s, a, j, w, n);
    case Pass(_) => HeldDueTimeInRun(s, a, j, w, n);
    case Finish(_, _) => HeldDueTimeInRun(s, a, j, w, n);
    case RunNow(_) =>
      HeldDueTimeInOperator(s, a, j, w, n);
      m := if a == RunNow(j) && LockFree(s) then s.clock else n;
    case AddJob(_) => HeldDueTimeInOperator(s, a, j, w, n);
    case _ => HeldDueTimeInScan(s, a, j, w, n);
  }

  lemma {:induction false} HeldDueTimeStaysIdle(s: Sys, tr: seq<Action>, j: nat, w: nat, n: int) returns (m: int)
    requires HeldBy(s, j, w) && forall a :: a in tr ==> !LetsGo(a, w)
    ensures HeldBy(Run(s, tr), j, w) && Run(DueAt(s, j, n), tr) == DueAt(Run(s, tr), j, m)
  {
    m := n;
    if tr != [] {
      var front, a := tr[..|tr| - 1], tr[|tr| - 1];
      assert tr == front + [a];
      m := HeldDueTimeStaysIdle(s, front, j, w, n);
      m := HeldDueTimeIsIdle(Run(s, front), a, j, w, m);
    }
  }

  lemma LettingGoSetsDueTime(s: Sys, end: Action, j: nat, w: nat, n: int)
    requires HeldBy(s, j, w) && LetsGo(end, w) && Enabled(s, end)
    ensures Step(DueAt(s, j, n), end) == Step(s, end)
  {
    var a, b := Step(DueAt(s, j, n), end), Step(s, end);
    assert a.jobs[j] == b.jobs[j];
    assert a.jobs == b.jobs;
  }

  /** RunNow is lost on a job somebody holds: whatever happens until the holder lets go, from then on
      the system is the same with and without it. */
  lemma RunNowLostWhileHeld(s: Sys, tr: seq<Action>, end: Action, j: nat, w: nat)
    requires Inv(s) && LockFree(s) && w < |s.workers| && Holds(s.workers[w], j)
    requires (forall a :: a in tr ==> !LetsGo(a, w)) && LetsGo(end, w) && Enabled(Run(s, tr), end)
    ensures Run(Step(s, RunNow(j)), tr + [end]) == Run(s, tr + [end])
  {
    assert WorkerOk(s, s.workers[w]);
    assert Step(s, RunNow(j)) == DueAt(s, j, s.clock);
    var m := HeldDueTimeStaysIdle(s, tr, j, w, s.clock);
    LettingGoSetsDueTime(Run(s, tr), end, j, w, m);
    SnocTrace(s, tr, end, j);
    SnocTrace(DueAt(s, j, s.clock), tr, end, j);
  }

  /** The order in which claims take jobs: by due time, then by registration. */
  predicate Before(x: int, i: nat, y: int, k: nat) { x < y || (x == y && i < k) }

  function IdleJobs(jobs: seq<JobState>): set<nat> { set i: nat | i < |jobs| && !jobs[i].running }

  function Taken(jobs: seq<JobState>, p: nat): seq<JobState>
    requires p < |jobs|
  {
    jobs[p := jobs[p].(running := true)]
  }

  lemma TakenShrinks(jobs: seq<JobState>, p: nat)
    requires p < |jobs| && !jobs[p].running
    ensures IdleJobs(Taken(jobs, p)) < IdleJobs(jobs)
  {
    assert IdleJobs(Taken(jobs, p)) == IdleJobs(jobs) - {p};
    assert p in IdleJobs(jobs);
  }

  /** Claim after claim with clock reading `now`, is a taken before b? */
  predicate ClaimedFirst(jobs: seq<JobState>, now: int, a: nat, b: nat)
    decreases IdleJobs(jobs)
  {
    var pick := Scan(jobs, now, |jobs|);
    ScanPicksEarliest(jobs, now, |jobs|);
    if pick.None? || pick == Some(b) then false
    else if pick == Some(a) then true
    else
      TakenShrinks(jobs, pick.value);
      ClaimedFirst(Taken(jobs, pick.value), now, a, b)
  }

  /** Claims take due jobs in that order, and no job that is not due. */
  lemma {:induction false} ClaimOrder(jobs: seq<JobState>, now: int, a: nat, b: nat)
    requires a < |jobs| && b < |jobs| && a != b && Due(jobs[b], now)
    ensures ClaimedFirst(jobs, now, a, b) <==>
            Due(jobs[a], now) && Before(jobs[a].nextRun, a, jobs[b].nextRun, b)
    decreases IdleJobs(jobs)
  {
    var pick := Scan(jobs, now, |jobs|);
    ScanPicksEarliest(jobs, now, |jobs|);
    if pick != Some(a) && pick != Some(b) {
      TakenShrinks(jobs, pick.value);
      ClaimOrder(Taken(jobs, pick.value), now, a, b);
    }
  }

  /** After the change job j is still claimed before every due job it was claimed before. */
  ghost predicate KeepsTurn(jobs: seq<JobState>, jobs': seq<JobState>, now: int, j: nat)
    requires |jobs| == |jobs'|
  {
    forall b :: 0 <= b < |jobs| && b != j && Due(jobs[b], now) && ClaimedFirst(jobs, now, j, b) ==>
      ClaimedFirst(jobs', now, j, b)
  }

  /** RunNow on idle job j lets job b past it, for claims with clock reading `now`: b is due then, after
      j was and before j is, or the reading is older than the new due time. */
  predicate LetPast(s: Sys, now: int, j: nat, b: nat)
    requires j < |s.jobs| && b < |s.jobs|
  {
    && Before(s.jobs[j].nextRun, j, s.jobs[b].nextRun, b) && s.jobs[b].nextRun <= now
    && (now < s.clock || Before(s.jobs[b].nextRun, b, s.clock, j))
  }

  /** RunNow on an idle job keeps its turn if and only if no idle job is due between the job's own due
      time and the present, for claims with a clock reading of now or later; with a stale reading, if
      and only if no job due then was behind it. */
  lemma RunNowKeepsItsTurnIff(s: Sys, j: nat, now: int)
    requires j < |s.jobs| && LockFree(s) && !s.jobs[j].running
    ensures KeepsTurn(s.jobs, Step(s, RunNow(j)).jobs, now, j) <==>
            forall b :: 0 <= b < |s.jobs| && b != j && !s.jobs[b].running ==> !LetPast(s, now, j, b)
  {
    var jobs, jobs' := s.jobs, Step(s, RunNow(j)).jobs;
    forall b | 0 <= b < |jobs| && b != j && Due(jobs[b], now)
      ensures ClaimedFirst(jobs, now, j, b) <==>
              jobs[j].nextRun <= now && Before(jobs[j].nextRun, j, jobs[b].nextRun, b)
      ensures ClaimedFirst(jobs', now, j, b) <==> s.clock <= now && Before(s.clock, j, jobs[b].nextRun, b)
    {
      ClaimOrder(jobs, now, j, b);
      ClaimOrder(jobs', now, j, b);
    }
  }

  /** RunNow makes an idle job the next one claimed if and only if no idle job is due before this moment. */
  lemma RunNowIsNextIff(s: Sys, j: nat)
    requires j < |s.jobs| && LockFree(s) && !s.jobs[j].running
    ensures Scan(Step(s, RunNow(j)).jobs, s.clock, |s.jobs|) == Some(j) <==>
            forall b :: 0 <= b < |s.jobs| && b != j && !s.jobs[b].running ==>
              !Before(s.jobs[b].nextRun, b, s.clock, j)
  {
    var jobs' := Step(s, RunNow(j)).jobs;
    ScanPicksEarliest(jobs', s.clock, |jobs'|);
    assert Due(jobs'[j], s.clock);
    assert forall b :: 0 <= b < |jobs'| && b != j ==> jobs'[b] == s.jobs[b];
  }

  /** A concrete loss of turn: job 0, due first, is asked to run now and job 1 is picked instead. */
  lemma RunNowLosesTurn() returns (s: Sys)
    ensures LockFree(s) && |s.jobs| == 2 && Scan(s.jobs, s.clock, 2) == Some(0)
    ensures Scan(Step(s, RunNow(0)).jobs, s.clock, 2) == Some(1)
  {
    var j := JobState(60, false, 10, false, false, 0, 0);
    s := Sys([j, j.(nextRun := 20)], [Idle], 30);
    var t := Step(s, RunNow(0));
    assert Scan(s.jobs, 30, 0) == None && Scan(s.jobs, 30, 1) == Some(0);
    assert Scan(t.jobs, 30, 0) == None && Scan(t.jobs, 30, 1) == Some(0);
  }
}
