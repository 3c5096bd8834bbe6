/** The daemon's job machinery as interleaved steps: RPC requests, and background runners that drive
    the job store and the run store (tunnel/vfp_tunnel/sim/runner.py, tunnel/vfp_tunnel/daemon.py). */
module JobSystem {
  import opened Text
  import opened Jobs

  /** How far JobRunner.run has come; rid is its run, res the stored result. */
  datatype Pc =
    | Begin
    | Created(rid: string)
    | Marked(rid: string)
    | Netlisting(rid: string)
    | Launching(rid: string)
    | Simulated(rid: string)
    | Linking(rid: string, res: string)
    | Finishing(rid: string, res: string)
    | Reporting(rid: string, res: string)
    | Failing(rid: string)
    | FailingJob(rid: string)
    | Stopped

  /** A background runner; `passed` once mark_running has succeeded. */
  datatype Runner = Runner(job: string, pc: Pc, passed: bool)

  /** `launched` lists the jobs whose simulator command was started, in order. */
  datatype Sys = Sys(jobs: map<string, Job>, runs: map<string, RunRec>, runners: map<nat, Runner>,
                     launched: seq<string>)

  /** What a runner's environment decides: the fresh run id, whether the command succeeds, the result id, the error. */
  datatype Choice = Choice(rid: string, ok: bool, res: string, error: string)

  datatype Step =
    | Create(id: string, job: Job)                  // job.create
    | Mark(id: string, to: Status, fields: Fields)  // job.mark_running, mark_done, mark_failed, cancel
    | Request(id: string, r: nat)                   // job.run starts background runner r
    | Advance(r: nat, choice: Choice)               // runner r takes its next step

  function WithRunner(s: Sys, r: nat, x: Runner, pc: Pc): Sys {
    s.(runners := s.runners[r := x.(pc := pc)])
  }

  /** A change of job status by a runner; a refused one ends the runner with an exception. */
  function RunnerSets(s: Sys, r: nat, x: Runner, to: Status, f: Fields, pc: Pc): Sys {
    var res := SetStatus(s.jobs, x.job, to, f);
    if res.Ok? then s.(jobs := res.value, runners := s.runners[r := Runner(x.job, pc, x.passed || to == Running)])
    else WithRunner(s, r, x, Stopped)
  }

  function RunnerRun(s: Sys, r: nat, x: Runner, rid: string, rec: RunRec, pc: Pc): Sys {
    s.(runs := s.runs[rid := rec], runners := s.runners[r := x.(pc := pc)])
  }

  function Advanced(s: Sys, r: nat, c: Choice): (s': Sys)
    requires r in s.runners
    ensures r in s'.runners && s'.runners.Keys == s.runners.Keys && s'.runners[r].job == s.runners[r].job
  {
    var x := s.runners[r];
    match x.pc
    case Begin =>
      if x.job !in s.jobs then WithRunner(s, r, x, Stopped)
      else RunnerRun(s, r, x, c.rid, RunRec(x.job, RunCreated, None), Created(c.rid))
    case Created(rid) => RunnerSets(s, r, x, Running, NO_FIELDS, Marked(rid))
    case Marked(rid) =>
      if rid !in s.runs then WithRunner(s, r, x, Stopped)
      else RunnerRun(s, r, x, rid, s.runs[rid].(status := RunRunning), Netlisting(rid))
    case Netlisting(rid) => WithRunner(s, r, x, if c.ok then Launching(rid) else Failing(rid))
    case Launching(rid) => WithRunner(s, r, x, Simulated(rid)).(launched := s.launched + [x.job])
    case Simulated(rid) => WithRunner(s, r, x, if c.ok then Linking(rid, c.res) else Failing(rid))
    case Linking(rid, res) =>
      if rid !in s.runs then WithRunner(s, r, x, Stopped)
      else RunnerRun(s, r, x, rid, s.runs[rid].(result := Some(res)), Finishing(rid, res))
    case Finishing(rid, res) =>
      if rid !in s.runs then WithRunner(s, r, x, Stopped)
      else RunnerRun(s, r, x, rid, s.runs[rid].(status := RunDone), Reporting(rid, res))
    case Reporting(rid, res) => RunnerSets(s, r, x, Done, Fields(Some(res), Some(rid), None), Stopped)
    case Failing(rid) =>
      if rid !in s.runs then WithRunner(s, r, x, FailingJob(rid))
      else RunnerRun(s, r, x, rid, s.runs[rid].(status := RunFailed), FailingJob(rid))
    case FailingJob(rid) =>
      RunnerSets(s, r, x, Failed, Fields(None, None, if c.error == "" then None else Some(c.error)), Stopped)
    case Stopped => s
  }

  ghost predicate Next(s: Sys, step: Step, s': Sys) {
    match step
    case Create(id, job) => id !in s.jobs && s' == s.(jobs := s.jobs[id := job])
    case Mark(id, to, f) =>
      to in {Running, Done, Failed, Cancelled} && s' == s.(jobs := Stored(s.jobs, SetStatus(s.jobs, id, to, f)))
    case Request(id, r) =>
      id in s.jobs && s.jobs[id].status == Queued && r !in s.runners
      && s' == s.(runners := s.runners[r := Runner(id, Begin, false)])
    case Advance(r, c) =>
      r in s.runners && (s.runners[r].pc == Begin ==> c.rid !in s.runs) && s' == Advanced(s, r, c)
  }

  ghost predicate Init(s: Sys) {
    s == Sys(map[], map[], map[], [])
  }

  ghost predicate Run(ss: seq<Sys>, steps: seq<Step>) {
    && |ss| == |steps| + 1 && Init(ss[0])
    && forall k :: 0 <= k < |steps| ==> Next(ss[k], steps[k], ss[k + 1])
  }

  // ---- a finished job record never changes ----

  lemma SetKeepsTerminal(jobs: map<string, Job>, id: string, to: Status, f: Fields, j: string)
    requires j in jobs
    ensures var jobs' := Stored(jobs, SetStatus(jobs, id, to, f));
            && j in jobs' && jobs'[j].fingerprint == jobs[j].fingerprint
            && (!Allowed(jobs[j].status, to) ==> jobs'[j] == jobs[j])
            && (jobs'[j] != jobs[j] ==> Allowed(jobs[j].status, jobs'[j].status))
  {
  }

  lemma StepKeepsTerminal(s: Sys, step: Step, s': Sys, j: string)
    requires Next(s, step, s') && j in s.jobs
    ensures j in s'.jobs && s'.jobs[j].fingerprint == s.jobs[j].fingerprint
    ensures Terminal(s.jobs[j].status) ==> s'.jobs[j] == s.jobs[j]
    ensures s'.jobs[j] != s.jobs[j] ==> Allowed(s.jobs[j].status, s'.jobs[j].status)
  {
  }

  /** Whatever requests and runners do, a done, failed or cancelled record stays as it is. */
  lemma {:induction false} TerminalForever(ss: seq<Sys>, steps: seq<Step>, i: nat, k: nat, j: string)
    requires Run(ss, steps) && i <= k < |ss| && j in ss[i].jobs && Terminal(ss[i].jobs[j].status)
    ensures j in ss[k].jobs && ss[k].jobs[j] == ss[i].jobs[j]
  {
    hide Next;
    if k == i {
    } else {
      TerminalForever(ss, steps, i, k - 1, j);
      StepKeepsTerminal(ss[k - 1], steps[k - 1], ss[k - 1 + 1], j);
    }
  }

  /** A job the freshness guard may return stays done with the fingerprint asked for. */
  lemma FreshForever(ss: seq<Sys>, steps: seq<Step>, i: nat, k: nat, j: string, fingerprint: string)
    requires Run(ss, steps) && i <= k < |ss| && IsFresh(ss[i].jobs, j, fingerprint)
    ensures IsFresh(ss[k].jobs, j, fingerprint) && ss[k].jobs[j] == ss[i].jobs[j]
  {
    TerminalForever(ss, steps, i, k, j);
  }

  // ---- one runner per job ----

  predicate BeforeLaunch(pc: Pc) {
    pc.Begin? || pc.Created? || pc.Marked? || pc.Netlisting? || pc.Launching?
  }

  /** A runner past mark_running has its job to itself, the job has left the queue for good, and a job
      whose command was started has a runner that is past the launch. */
  ghost predicate Single(s: Sys) {
    && (forall r :: r in s.runners && s.runners[r].passed ==>
          s.runners[r].job in s.jobs && s.jobs[s.runners[r].job].status != Queued)
    && (forall r, q :: r in s.runners && q in s.runners && r != q && s.runners[r].passed && s.runners[q].passed ==>
          s.runners[r].job != s.runners[q].job)
    && (forall r :: r in s.runners && !s.runners[r].passed ==>
          s.runners[r].pc.Begin? || s.runners[r].pc.Created? || s.runners[r].pc.Stopped?)
    && (forall r :: r in s.runners && s.runners[r].passed ==> !s.runners[r].pc.Begin? && !s.runners[r].pc.Created?)
    && Distinct(s.launched)
    && (forall j :: j in s.launched ==>
          exists r :: r in s.runners && s.runners[r].job == j && s.runners[r].passed && !BeforeLaunch(s.runners[r].pc))
  }

  lemma SingleMark(s: Sys, id: string, to: Status, f: Fields, s': Sys)
    requires Single(s) && Next(s, Mark(id, to, f), s')
    ensures Single(s')
  {
    forall j | j in s.jobs
      ensures j in s'.jobs && (s.jobs[j].status != Queued ==> s'.jobs[j].status != Queued)
    {
      SetKeepsTerminal(s.jobs, id, to, f, j);
    }
  }

  predicate Passed(s: Sys, r: nat) {
    r in s.runners && s.runners[r].passed
  }

  predicate LeavesQueue(was: map<string, Job>, jobs: map<string, Job>, j: string) {
    j in was && j in jobs && was[j].status == Queued && jobs[j].status != Queued
  }

  /** Moving one runner, and possibly its job out of the queue, keeps every job with one runner. */
  lemma SingleRunner(s: Sys, r: nat, x: Runner, jobs: map<string, Job>, s': Sys)
    requires Single(s) && s'.runners == s.runners[r := x] && s'.jobs == jobs && s'.launched == s.launched
    requires forall j :: j in s.jobs ==> j in jobs && (s.jobs[j].status != Queued ==> jobs[j].status != Queued)
    requires r in s.runners ==> s.runners[r].job == x.job && (s.runners[r].passed ==> x.passed)
    requires r in s.runners && !BeforeLaunch(s.runners[r].pc) ==> !BeforeLaunch(x.pc)
    requires x.passed ==> Passed(s, r) || LeavesQueue(s.jobs, jobs, x.job)
    requires !x.passed ==> x.pc.Begin? || x.pc.Created? || x.pc.Stopped?
    requires x.passed ==> !x.pc.Begin? && !x.pc.Created?
    ensures Single(s')
  {
    forall j | j in s'.launched
      ensures exists q ::
        q in s'.runners && s'.runners[q].job == j && s'.runners[q].passed && !BeforeLaunch(s'.runners[q].pc)
    {
      var q :| q in s.runners && s.runners[q].job == j && s.runners[q].passed && !BeforeLaunch(s.runners[q].pc);
      assert s'.runners[q].job == j && s'.runners[q].passed && !BeforeLaunch(s'.runners[q].pc);
    }
  }

  /** How one step moves a runner: forward, past mark_running only by taking its job out of the queue. */
  lemma RunnerMoves(s: Sys, r: nat, c: Choice)
    requires r in s.runners && !s.runners[r].pc.Launching?
    requires var x := s.runners[r];
             if x.passed then !x.pc.Begin? && !x.pc.Created? else x.pc.Begin? || x.pc.Created? || x.pc.Stopped?
    ensures var x, s' := s.runners[r], Advanced(s, r, c);
            && r in s'.runners && s'.runners == s.runners[r := s'.runners[r]] && s'.launched == s.launched
            && s'.runners[r].job == x.job && (x.passed ==> s'.runners[r].passed)
            && (!BeforeLaunch(x.pc) ==> !BeforeLaunch(s'.runners[r].pc))
            && (s'.runners[r].passed ==> x.passed || LeavesQueue(s.jobs, s'.jobs, x.job))
            && (!s'.runners[r].passed ==> s'.runners[r].pc.Created? || s'.runners[r].pc.Stopped?)
            && (s'.runners[r].passed ==> !s'.runners[r].pc.Begin? && !s'.runners[r].pc.Created?)
  {
    match s.runners[r].pc {
      case Begin =>
      case Created(rid) =>
      case Marked(rid) =>
      case Reporting(rid, res) =>
      case FailingJob(rid) =>
      case _ =>
    }
  }

  lemma PassedWhen(s: Sys, r: nat)
    requires Single(s) && r in s.runners
    ensures var x := s.runners[r];
            && (x.passed ==> x.job in s.jobs && s.jobs[x.job].status != Queued && !x.pc.Begin? && !x.pc.Created?)
            && (!x.passed ==> x.pc.Begin? || x.pc.Created? || x.pc.Stopped?)
  {
  }

  lemma SingleLaunch(s: Sys, r: nat, c: Choice, s': Sys)
    requires Single(s) && Next(s, Advance(r, c), s') && s.runners[r].pc.Launching?
    ensures Single(s')
  {
    var x := s.runners[r];
    assert x.job !in s.launched;
    assert s'.runners[r].passed && !BeforeLaunch(s'.runners[r].pc);
    forall j | j in s'.launched
      ensures exists q ::
        q in s'.runners && s'.runners[q].job == j && s'.runners[q].passed && !BeforeLaunch(s'.runners[q].pc)
    {
      if j in s.launched {
        var q :| q in s.runners && s.runners[q].job == j && s.runners[q].passed && !BeforeLaunch(s.runners[q].pc);
        assert s'.runners[q] == s.runners[q];
      }
    }
  }

  lemma SingleAdvance(s: Sys, r: nat, c: Choice, s': Sys)
    requires Single(s) && Next(s, Advance(r, c), s')
    ensures Single(s')
  {
    hide Single;
    var x := s.runners[r];
    if x.pc.Launching? {
      SingleLaunch(s, r, c, s');
    } else {
      PassedWhen(s, r);
      forall j | j in s.jobs
        ensures j in s'.jobs && (s.jobs[j].status != Queued ==> s'.jobs[j].status != Queued)
      {
        StepKeepsTerminal(s, Advance(r, c), s', j);
      }
      RunnerMoves(s, r, c);
      hide Advanced;
      SingleRunner(s, r, s'.runners[r], s'.jobs, s');
    }
  }

  lemma SingleStep(s: Sys, step: Step, s': Sys)
    requires Single(s) && Next(s, step, s')
    ensures Single(s')
  {
    match step {
      case Create(id, job) =>
      case Mark(id, to, f) => SingleMark(s, id, to, f, s');
      case Request(id, r) => SingleRunner(s, r, Runner(id, Begin, false), s'.jobs, s');
      case Advance(r, c) => SingleAdvance(s, r, c, s');
    }
  }

  lemma SingleStart(s: Sys)
    requires Init(s)
    ensures Single(s)
  {
  }

  lemma {:induction false} SingleHolds(ss: seq<Sys>, steps: seq<Step>, k: nat)
    requires Run(ss, steps) && k < |ss|
    ensures Single(ss[k])
  {
    hide Next, Single;
    if k == 0 {
      SingleStart(ss[0]);
    } else {
      SingleHolds(ss, steps, k - 1);
      SingleStep(ss[k - 1], steps[k - 1], ss[k - 1 + 1]);
    }
  }

  /** In every interleaving at most one runner gets past mark_running for a job, and no job's simulator
      command is started twice. */
  lemma OneRunnerPerJob(ss: seq<Sys>, steps: seq<Step>, k: nat)
    requires Run(ss, steps) && k < |ss|
    ensures forall r, q :: (Passed(ss[k], r) && Passed(ss[k], q) && ss[k].runners[r].job == ss[k].runners[q].job) ==>
        r == q
    ensures Distinct(ss[k].launched)
  {
    SingleHolds(ss, steps, k);
  }

  // ---- done jobs and their runs ----

  /** The client steps of an ordinary session: jobs enter queued, and are run or cancelled. */
  predicate Ordinary(step: Step) {
    match step
    case Create(_, job) => job.status == Queued
    case Mark(_, to, _) => to == Cancelled
    case _ => true
  }

  predicate HasRun(pc: Pc) {
    !pc.Begin? && !pc.Stopped?
  }

  /** What a live runner has made of its run so far. */
  ghost predicate OwnRun(s: Sys, r: nat)
    requires r in s.runners
  {
    var x := s.runners[r];
    HasRun(x.pc) ==>
      && x.pc.rid in s.runs && s.runs[x.pc.rid].job == x.job
      && (x.pc.Finishing? || x.pc.Reporting? ==> s.runs[x.pc.rid].result == Some(x.pc.res))
      && (x.pc.Reporting? ==> s.runs[x.pc.rid].status == RunDone)
  }

  /** A done job names its own run, which is done and linked to the same result. */
  ghost predicate DoneOk(s: Sys, j: string)
    requires j in s.jobs
  {
    var job := s.jobs[j];
    job.status == Done ==>
      && job.run.Some? && job.run.value in s.runs && job.result.Some?
      && s.runs[job.run.value] == RunRec(j, RunDone, job.result)
  }

  ghost predicate Linked(s: Sys) {
    && (forall r :: r in s.runners ==> OwnRun(s, r))
    && (forall r, q ::
          r in s.runners && q in s.runners && r != q && HasRun(s.runners[r].pc) && HasRun(s.runners[q].pc) ==>
          s.runners[r].pc.rid != s.runners[q].pc.rid)
    && (forall j :: j in s.jobs ==> DoneOk(s, j))
    && (forall r, j :: r in s.runners && j in s.jobs && HasRun(s.runners[r].pc) && s.jobs[j].status == Done ==>
          s.jobs[j].run != Some(s.runners[r].pc.rid))
  }

  lemma LinkedMark(s: Sys, id: string, to: Status, f: Fields, s': Sys)
    requires Linked(s) && Next(s, Mark(id, to, f), s') && to == Cancelled
    ensures Linked(s')
  {
    forall j | j in s'.jobs
      ensures j in s.jobs && (s'.jobs[j].status == Done ==> s'.jobs[j] == s.jobs[j])
    {
    }
    forall r | r in s'.runners
      ensures OwnRun(s', r)
    {
      assert OwnRun(s, r);
    }
    forall j | j in s'.jobs
      ensures DoneOk(s', j)
    {
      assert DoneOk(s, j);
    }
  }

  /** A report ends the runner and either finishes its running job or is refused. */
  lemma ReportShape(s: Sys, r: nat, c: Choice, s': Sys)
    requires Next(s, Advance(r, c), s') && s.runners[r].pc.Reporting?
    ensures var x := s.runners[r];
            && s'.runs == s.runs && s'.runners.Keys == s.runners.Keys && s'.runners[r].pc == Stopped
            && (forall q :: q in s.runners && q != r ==> s'.runners[q] == s.runners[q])
            && s'.jobs.Keys == s.jobs.Keys
            && (forall j :: j in s.jobs && s'.jobs[j] != s.jobs[j] ==>
                  j == x.job && s'.jobs[j].run == Some(x.pc.rid) && s'.jobs[j].result == Some(x.pc.res))
  {
  }

  lemma LinkedReport(s: Sys, r: nat, c: Choice, s': Sys)
    requires Linked(s) && Next(s, Advance(r, c), s') && s.runners[r].pc.Reporting?
    ensures Linked(s')
  {
    ReportShape(s, r, c, s');
    hide Next;
    assert OwnRun(s, r);
    forall q | q in s'.runners
      ensures OwnRun(s', q)
    {
      assert OwnRun(s, q);
    }
    forall j | j in s'.jobs
      ensures DoneOk(s', j)
    {
      assert DoneOk(s, j);
    }
  }

  /** The run a runner works on: its own, or one that did not exist before. */
  predicate Mine(s: Sys, r: nat, rid: string)
    requires r in s.runners
  {
    rid !in s.runs || (HasRun(s.runners[r].pc) && s.runners[r].pc.rid == rid)
  }

  /** A runner that touches only its own run and finishes no job keeps everybody's records in order. */
  lemma LinkedRunner(s: Sys, r: nat, s': Sys)
    requires Linked(s) && r in s.runners && r in s'.runners && s'.runners == s.runners[r := s'.runners[r]]
    requires s'.runners[r].job == s.runners[r].job && OwnRun(s', r)
    requires HasRun(s'.runners[r].pc) ==> Mine(s, r, s'.runners[r].pc.rid)
    requires forall i :: i in s.runs && !Mine(s, r, i) ==> i in s'.runs && s'.runs[i] == s.runs[i]
    requires forall j :: j in s'.jobs ==> j in s.jobs && (s'.jobs[j].status == Done ==> s'.jobs[j] == s.jobs[j])
    ensures Linked(s')
  {
    forall q | q in s'.runners
      ensures OwnRun(s', q)
    {
      assert OwnRun(s, q);
    }
    forall j | j in s'.jobs
      ensures DoneOk(s', j)
    {
      assert DoneOk(s, j);
    }
    forall q | q in s.runners && q != r && HasRun(s.runners[q].pc)
      ensures s.runners[q].pc.rid in s.runs && !Mine(s, r, s.runners[q].pc.rid)
    {
      assert OwnRun(s, q);
    }
    forall q, j | q in s'.runners && j in s'.jobs && HasRun(s'.runners[q].pc) && s'.jobs[j].status == Done
      ensures s'.jobs[j].run != Some(s'.runners[q].pc.rid)
    {
      assert DoneOk(s, j);
    }
  }

  /** What OwnAdvanced says of the runner's step. */
  ghost predicate OwnMove(s: Sys, r: nat, s': Sys)
    requires r in s.runners
  {
    && r in s'.runners && OwnRun(s', r)
    && s'.runners == s.runners[r := s'.runners[r]] && s'.runners[r].job == s.runners[r].job
    && (HasRun(s'.runners[r].pc) ==> Mine(s, r, s'.runners[r].pc.rid))
    && (forall i :: i in s.runs && !Mine(s, r, i) ==> i in s'.runs && s'.runs[i] == s.runs[i])
  }

  lemma OwnByRunner(s: Sys, r: nat, x: Runner, pc: Pc, s': Sys)
    requires r in s.runners && x == s.runners[r] && OwnRun(s, r)
    requires s'.runs == s.runs && r in s'.runners && s'.runners == s.runners[r := s'.runners[r]]
    requires s'.runners[r].job == x.job && (s'.runners[r].pc == pc || s'.runners[r].pc == Stopped)
    requires HasRun(pc) ==> HasRun(x.pc) && pc.rid == x.pc.rid && !pc.Finishing? && !pc.Reporting?
    ensures OwnMove(s, r, s')
  {
  }

  lemma OwnByRun(s: Sys, r: nat, x: Runner, rid: string, rec: RunRec, pc: Pc)
    requires r in s.runners && x == s.runners[r] && Mine(s, r, rid)
    requires rec.job == x.job && HasRun(pc) && pc.rid == rid
    requires pc.Finishing? || pc.Reporting? ==> rec.result == Some(pc.res)
    requires pc.Reporting? ==> rec.status == RunDone
    ensures OwnMove(s, r, RunnerRun(s, r, x, rid, rec, pc))
  {
  }

  /** A runner's step works on its own run only. */
  lemma OwnAdvanced(s: Sys, r: nat, c: Choice)
    requires r in s.runners && OwnRun(s, r)
    requires s.runners[r].pc.Begin? ==> c.rid !in s.runs
    ensures OwnMove(s, r, Advanced(s, r, c))
  {
    hide OwnMove, SetStatus, Stored;
    var x, s' := s.runners[r], Advanced(s, r, c);
    match x.pc {
      case Begin =>
        if x.job in s.jobs {
          OwnByRun(s, r, x, c.rid, RunRec(x.job, RunCreated, None), Created(c.rid));
        } else {
          OwnByRunner(s, r, x, Stopped, s');
        }
      case Marked(rid) => OwnByRun(s, r, x, rid, s.runs[rid].(status := RunRunning), Netlisting(rid));
      case Linking(rid, res) => OwnByRun(s, r, x, rid, s.runs[rid].(result := Some(res)), Finishing(rid, res));
      case Finishing(rid, res) => OwnByRun(s, r, x, rid, s.runs[rid].(status := RunDone), Reporting(rid, res));
      case Failing(rid) => OwnByRun(s, r, x, rid, s.runs[rid].(status := RunFailed), FailingJob(rid));
      case Stopped => OwnByRunner(s, r, x, Stopped, s');
      case _ => OwnByRunner(s, r, x, s'.runners[r].pc, s');
    }
  }

  lemma NoNewDone(s: Sys, r: nat, c: Choice, s': Sys)
    requires Next(s, Advance(r, c), s') && !s.runners[r].pc.Reporting?
    ensures forall j :: j in s'.jobs ==> j in s.jobs && (s'.jobs[j].status == Done ==> s'.jobs[j] == s.jobs[j])
  {
  }

  lemma LinkedAdvance(s: Sys, r: nat, c: Choice, s': Sys)
    requires Linked(s) && Next(s, Advance(r, c), s') && !s.runners[r].pc.Reporting?
    ensures Linked(s')
  {
    OwnAdvanced(s, r, c);
    NoNewDone(s, r, c, s');
    hide Linked, Advanced, OwnRun;
    LinkedRunner(s, r, s');
  }

  lemma LinkedStep(s: Sys, step: Step, s': Sys)
    requires Linked(s) && Next(s, step, s') && Ordinary(step)
    ensures Linked(s')
  {
    match step {
      case Create(id, job) =>
      case Mark(id, to, f) => LinkedMark(s, id, to, f, s');
      case Request(id, r) =>
      case Advance(r, c) =>
        if s.runners[r].pc.Reporting? {
          LinkedReport(s, r, c, s');
        } else {
          LinkedAdvance(s, r, c, s');
        }
    }
  }

  /** In every ordinary session a done job names a run of its own that is done with the same result. */
  lemma {:induction false} DoneJobsHaveTheirRuns(ss: seq<Sys>, steps: seq<Step>, k: nat)
    requires Run(ss, steps) && k < |ss| && forall i :: 0 <= i < |steps| ==> Ordinary(steps[i])
    ensures Linked(ss[k])
    ensures forall j :: j in ss[k].jobs ==> DoneOk(ss[k], j)
  {
    hide Next;
    if k == 0 {
    } else {
      DoneJobsHaveTheirRuns(ss, steps, k - 1);
      LinkedStep(ss[k - 1], steps[k - 1], ss[k - 1 + 1]);
    }
  }

  /** In an ordinary session a job the freshness guard may return is done, and its run is done with the same
      result. */
  lemma FreshHasRun(ss: seq<Sys>, steps: seq<Step>, k: nat, j: string, fingerprint: string)
    requires Run(ss, steps) && k < |ss| && (forall i :: 0 <= i < |steps| ==> Ordinary(steps[i]))
    requires IsFresh(ss[k].jobs, j, fingerprint)
    ensures var job := ss[k].jobs[j];
            && job.fingerprint == fingerprint && job.run.Some? && job.run.value in ss[k].runs
            && job.result.Some? && ss[k].runs[job.run.value] == RunRec(j, RunDone, job.result)
  {
    DoneJobsHaveTheirRuns(ss, steps, k);
    assert DoneOk(ss[k], j);
  }

  /** A job cancelled before its runner reports stays cancelled, though its run has ended as done. */
  lemma CancelWins(ss: seq<Sys>, steps: seq<Step>, k: nat, r: nat, c: Choice)
    requires Run(ss, steps) && k < |steps| && (forall i :: 0 <= i < |steps| ==> Ordinary(steps[i]))
    requires steps[k] == Advance(r, c) && r in ss[k].runners && ss[k].runners[r].pc.Reporting?
    requires ss[k].runners[r].job in ss[k].jobs && ss[k].jobs[ss[k].runners[r].job].status == Cancelled
    ensures var pc := ss[k].runners[r].pc;
            && ss[k + 1].jobs == ss[k].jobs && ss[k + 1].runners[r].pc == Stopped
            && pc.rid in ss[k + 1].runs && ss[k + 1].runs[pc.rid] == RunRec(ss[k].runners[r].job, RunDone, Some(pc.res))
    ensures forall i :: k < i < |ss| ==>
      (ss[k].runners[r].job in ss[i].jobs && ss[i].jobs[ss[k].runners[r].job].status == Cancelled)
  {
    var j := ss[k].runners[r].job;
    DoneJobsHaveTheirRuns(ss, steps, k);
    assert OwnRun(ss[k], r);
    assert Next(ss[k], steps[k], ss[k + 1]);
    forall i | k < i < |ss|
      ensures j in ss[i].jobs && ss[i].jobs[j].status == Cancelled
    {
      TerminalForever(ss, steps, k, i, j);
    }
  }
}
