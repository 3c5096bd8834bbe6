/** JobRunner.run itself (tunnel/vfp_tunnel/sim/runner.py), over the two stores, when nothing else runs:
    its effect is that of a runner taking its interleaving steps one after the other. */
module JobRunner {
  import opened Text
  import opened Jobs
  import opened JobSystem

  /** The runner's steps, one per choice of its environment. */
  function Drive(s: Sys, cs: seq<Choice>): (t: Sys)
    requires 0 in s.runners
    ensures 0 in t.runners
  {
    if cs == [] then s else Advanced(Drive(s, cs[..|cs| - 1]), 0, cs[|cs| - 1])
  }

  ghost predicate Reaches(s: Sys, t: Sys) {
    0 in s.runners && exists cs :: Drive(s, cs) == t
  }

  lemma ReachesNext(s: Sys, t: Sys, c: Choice)
    requires Reaches(s, t)
    ensures 0 in t.runners && Reaches(s, Advanced(t, 0, c))
  {
    var cs :| Drive(s, cs) == t;
    assert (cs + [c])[..|cs + [c]| - 1] == cs;
    assert Drive(s, cs + [c]) == Advanced(t, 0, c);
  }

  lemma ReachesSelf(s: Sys)
    requires 0 in s.runners
    ensures Reaches(s, s)
  {
    assert Drive(s, []) == s;
  }

  /** A lone runner about to begin on a job. */
  function Alone(jobs: map<string, Job>, runs: map<string, RunRec>, id: string): Sys {
    Sys(jobs, runs, map[0 := Runner(id, Begin, false)], [])
  }

  function DoneJob(j: Job, rid: string, res: string): Job {
    j.(status := Done, result := Some(res), run := Some(rid))
  }

  function FailedJob(j: Job, error: string): Job {
    j.(status := Failed, error := if error == "" then j.error else Some(error))
  }

  lemma RunningJob(jobs: map<string, Job>, id: string, rid: string, res: string, error: string)
    requires id in jobs
    ensures var j := jobs[id].(status := Running);
            && jobs[id := j][id := DoneJob(j, rid, res)] == jobs[id := DoneJob(jobs[id], rid, res)]
            && jobs[id := j][id := FailedJob(j, error)] == jobs[id := FailedJob(jobs[id], error)]
  {
  }

  lemma QueuedRuns()
    ensures forall st :: Allowed(st, Running) <==> st == Queued
  {
  }

  // ---- the runner's steps that touch the stores, one by one ----

  /** The runner at pc, past mark_running. */
  predicate Stands(s: Sys, id: string, pc: Pc) {
    0 in s.runners && s.runners[0] == Runner(id, pc, true)
  }

  function ErrorFields(error: string): Fields {
    Fields(None, None, if error == "" then None else Some(error))
  }

  lemma FailRunStep(s: Sys, id: string, rid: string, c: Choice)
    requires Stands(s, id, Failing(rid))
    ensures var t := Advanced(s, 0, c);
            && t.launched == s.launched
            && Stands(t, id, FailingJob(rid)) && t.jobs == s.jobs
            && t.runs == if rid in s.runs then s.runs[rid := s.runs[rid].(status := RunFailed)] else s.runs
  {
  }

  lemma FailJobStep(s: Sys, id: string, rid: string, c: Choice)
    requires Stands(s, id, FailingJob(rid))
    ensures var t := Advanced(s, 0, c);
            && t.launched == s.launched
            && Stands(t, id, Stopped) && t.runs == s.runs
            && t.jobs == Stored(s.jobs, SetStatus(s.jobs, id, Failed, ErrorFields(c.error)))
  {
  }

  lemma LaunchStep(s: Sys, id: string, rid: string, c: Choice)
    requires Stands(s, id, Launching(rid))
    ensures var t := Advanced(s, 0, c);
            && t.launched == s.launched + [id] && t.jobs == s.jobs && t.runs == s.runs
            && Stands(t, id, Simulated(rid))
  {
  }

  lemma CommandStep(s: Sys, id: string, rid: string, c: Choice)
    requires Stands(s, id, Simulated(rid))
    ensures var t := Advanced(s, 0, c);
            && t.launched == s.launched && t.jobs == s.jobs && t.runs == s.runs
            && Stands(t, id, if c.ok then Linking(rid, c.res) else Failing(rid))
  {
  }

  lemma LinkStep(s: Sys, id: string, rid: string, res: string, c: Choice)
    requires Stands(s, id, Linking(rid, res)) && rid in s.runs
    ensures var t := Advanced(s, 0, c);
            && t.launched == s.launched
            && Stands(t, id, Finishing(rid, res)) && t.jobs == s.jobs
            && t.runs == s.runs[rid := s.runs[rid].(result := Some(res))]
  {
  }

  lemma FinishStep(s: Sys, id: string, rid: string, res: string, c: Choice)
    requires Stands(s, id, Finishing(rid, res)) && rid in s.runs
    ensures var t := Advanced(s, 0, c);
            && t.launched == s.launched
            && Stands(t, id, Reporting(rid, res)) && t.jobs == s.jobs
            && t.runs == s.runs[rid := s.runs[rid].(status := RunDone)]
  {
  }

  lemma ReportStep(s: Sys, id: string, rid: string, res: string, c: Choice)
    requires Stands(s, id, Reporting(rid, res))
    ensures var t := Advanced(s, 0, c);
            && t.launched == s.launched
            && Stands(t, id, Stopped) && t.runs == s.runs
            && t.jobs == Stored(s.jobs, SetStatus(s.jobs, id, Done, Fields(Some(res), Some(rid), None)))
  {
  }

  lemma BeginStep(s: Sys, id: string, rid: string, c: Choice)
    requires 0 in s.runners && s.runners[0] == Runner(id, Begin, false) && c.rid == rid
    ensures var t := Advanced(s, 0, c);
            && t.launched == s.launched
            && 0 in t.runners && t.jobs == s.jobs
            && t.runners[0] == Runner(id, if id in s.jobs then Created(rid) else Stopped, false)
            && t.runs == if id in s.jobs then s.runs[rid := RunRec(id, RunCreated, None)] else s.runs
  {
  }

  lemma MarkStep(s: Sys, id: string, rid: string, c: Choice)
    requires 0 in s.runners && s.runners[0] == Runner(id, Created(rid), false)
    ensures var t, r := Advanced(s, 0, c), SetStatus(s.jobs, id, Running, NO_FIELDS);
            && t.launched == s.launched
            && 0 in t.runners && t.runs == s.runs && t.jobs == Stored(s.jobs, r)
            && t.runners[0] == if r.Ok? then Runner(id, Marked(rid), true) else Runner(id, Stopped, false)
  {
  }

  lemma StartRunStep(s: Sys, id: string, rid: string, c: Choice)
    requires Stands(s, id, Marked(rid)) && rid in s.runs
    ensures var t := Advanced(s, 0, c);
            && t.launched == s.launched
            && Stands(t, id, Netlisting(rid)) && t.jobs == s.jobs
            && t.runs == s.runs[rid := s.runs[rid].(status := RunRunning)]
  {
  }

  lemma SetOutcome(jobs: map<string, Job>, id: string, rid: string, res: string, error: string)
    requires id in jobs && jobs[id].status == Running
    ensures Stored(jobs, SetStatus(jobs, id, Failed, ErrorFields(error))) == jobs[id := FailedJob(jobs[id], error)]
    ensures Stored(jobs, SetStatus(jobs, id, Done, Fields(Some(res), Some(rid), None)))
            == jobs[id := DoneJob(jobs[id], rid, res)]
  {
  }

  lemma SetRunning(jobs: map<string, Job>, id: string)
    ensures var r := SetStatus(jobs, id, Running, NO_FIELDS);
            && (r.Ok? <==> id in jobs && Allowed(jobs[id].status, Running))
            && Stored(jobs, r) == if r.Ok? then jobs[id := jobs[id].(status := Running)] else jobs
  {
  }

  class JobRunner {
    const jobs: JobStore
    const runs: RunStore

    constructor (jobs: JobStore, runs: RunStore)
      ensures this.jobs == jobs && this.runs == runs
    {
      this.jobs, this.runs := jobs, runs;
    }

    /** What the two stores and the runner's progress look like at one point of the run. */
    ghost predicate At(s0: Sys, s: Sys, id: string, pc: Pc, passed: bool)
      reads jobs, runs
    {
      && Reaches(s0, s) && s.jobs == jobs.jobs && s.runs == runs.runs
      && 0 in s.runners && s.runners[0] == Runner(id, pc, passed)
    }

    /** Lines 55-63. */
    method Fail(ghost s0: Sys, ghost s: Sys, id: string, rid: string, error: string) returns (ghost end: Sys)
      requires jobs.Valid() && At(s0, s, id, Failing(rid), true)
      modifies jobs, runs
      ensures jobs.Valid() && At(s0, end, id, Stopped, true) && end.launched == s.launched
      ensures runs.runs == if rid in old(runs.runs)
                           then old(runs.runs)[rid := old(runs.runs)[rid].(status := RunFailed)]
                           else old(runs.runs)
      ensures id in old(jobs.jobs) && old(jobs.jobs)[id].status == Running ==>
        jobs.jobs == old(jobs.jobs)[id := FailedJob(old(jobs.jobs)[id], error)]
    {
      hide Reaches, Drive, Advanced, SetStatus, Stored, FailedJob;
      ghost var c := Choice(rid, false, "", error);
      var _ := runs.SetStatus(rid, RunFailed);
      ReachesNext(s0, s, c);
      FailRunStep(s, id, rid, c);
      ghost var mid := Advanced(s, 0, c);
      if id in jobs.jobs && jobs.jobs[id].status == Running {
        SetOutcome(jobs.jobs, id, rid, "", error);
      }
      var _ := jobs.Set(id, Failed, ErrorFields(error));
      ReachesNext(s0, mid, c);
      FailJobStep(mid, id, rid, c);
      end := Advanced(mid, 0, c);
    }

    /** Lines 154-157: link the result, finish the run, report the job done. */
    method Succeed(ghost s0: Sys, ghost s: Sys, id: string, rid: string, res: string) returns (ghost end: Sys)
      requires jobs.Valid() && At(s0, s, id, Linking(rid, res), true) && rid in runs.runs
      modifies jobs, runs
      ensures jobs.Valid() && At(s0, end, id, Stopped, true) && end.launched == s.launched
      ensures runs.runs == old(runs.runs)[rid := RunRec(old(runs.runs)[rid].job, RunDone, Some(res))]
      ensures id in old(jobs.jobs) && old(jobs.jobs)[id].status == Running ==>
        jobs.jobs == old(jobs.jobs)[id := DoneJob(old(jobs.jobs)[id], rid, res)]
    {
      hide Reaches, Drive, Advanced, SetStatus, Stored, DoneJob;
      ghost var c := Choice(rid, true, res, "");
      var _ := runs.LinkResult(rid, res);
      ReachesNext(s0, s, c);
      LinkStep(s, id, rid, res, c);
      ghost var s1 := Advanced(s, 0, c);
      var _ := runs.SetStatus(rid, RunDone);
      ReachesNext(s0, s1, c);
      FinishStep(s1, id, rid, res, c);
      ghost var s2 := Advanced(s1, 0, c);
      if id in jobs.jobs && jobs.jobs[id].status == Running {
        SetOutcome(jobs.jobs, id, rid, res, "");
      }
      var _ := jobs.Set(id, Done, Fields(Some(res), Some(rid), None));
      ReachesNext(s0, s2, c);
      ReportStep(s2, id, rid, res, c);
      end := Advanced(s2, 0, c);
    }

    /** Lines 65-78: up to the point where the job and its run are running. */
    method Prepare(id: string, rid: string) returns (ready: bool, ghost s: Sys)
      requires jobs.Valid() && rid !in runs.runs
      modifies jobs, runs
      ensures jobs.Valid() && ready == (id in old(jobs.jobs) && Allowed(old(jobs.jobs)[id].status, Running))
      ensures ready ==> At(Alone(old(jobs.jobs), old(runs.runs), id), s, id, Netlisting(rid), true) && rid in runs.runs
      ensures !ready ==> At(Alone(old(jobs.jobs), old(runs.runs), id), s, id, Stopped, false)
      ensures s.launched == []
      ensures jobs.jobs == if ready then old(jobs.jobs)[id := old(jobs.jobs)[id].(status := Running)]
                          else old(jobs.jobs)
      ensures runs.runs == if id !in old(jobs.jobs) then old(runs.runs)
                           else old(runs.runs)[rid := RunRec(id, if ready then RunRunning else RunCreated, None)]
    {
      hide Reaches, Drive, Advanced, SetStatus, Stored, Allowed;
      ghost var s0, c := Alone(jobs.jobs, runs.runs, id), Choice(rid, true, "", "");
      QueuedRuns();
      ReachesSelf(s0);
      ReachesNext(s0, s0, c);
      BeginStep(s0, id, rid, c);
      s := Advanced(s0, 0, c);
      if id !in jobs.jobs {
        ready := false;
        return;
      }
      runs.Create(rid, id, None, None);
      ghost var s1 := s;
      SetRunning(jobs.jobs, id);
      var r := jobs.Set(id, Running, NO_FIELDS);
      ReachesNext(s0, s1, c);
      MarkStep(s1, id, rid, c);
      s := Advanced(s1, 0, c);
      if !r.Ok? {
        ready := false;
        return;
      }
      ghost var s2 := s;
      var _ := runs.SetStatus(rid, RunRunning);
      ReachesNext(s0, s2, c);
      StartRunStep(s2, id, rid, c);
      s := Advanced(s2, 0, c);
      ready := true;
    }

    /** The optional netlist command: neither store changes. */
    lemma NetlistStep(s0: Sys, s: Sys, id: string, rid: string, c: Choice) returns (t: Sys)
      requires At(s0, s, id, Netlisting(rid), true)
      ensures At(s0, t, id, if c.ok then Launching(rid) else Failing(rid), true) && t.launched == s.launched
    {
      ReachesNext(s0, s, c);
      t := Advanced(s, 0, c);
    }

    /** The simulator command and the reading of its metrics: neither store changes. */
    lemma SimStep(s0: Sys, s: Sys, id: string, rid: string, c: Choice) returns (t: Sys)
      requires At(s0, s, id, Launching(rid), true)
      ensures At(s0, t, id, if c.ok then Linking(rid, c.res) else Failing(rid), true)
      ensures t.launched == s.launched + [id]
    {
      hide Advanced, Reaches, Drive;
      ReachesNext(s0, s, c);
      LaunchStep(s, id, rid, c);
      var mid := Advanced(s, 0, c);
      ReachesNext(s0, mid, c);
      CommandStep(mid, id, rid, c);
      t := Advanced(mid, 0, c);
    }

    /** Lines 65-161. netlistOk, simOk and res stand for what the two commands do. A queued job ends done with
        the result and its run, or failed; any other job stays as it is, its new run left created. */
    method Run(id: string, rid: string, netlistOk: bool, simOk: bool, res: string, error: string)
      returns (ghost end: Sys)
      requires jobs.Valid() && rid !in runs.runs
      modifies jobs, runs
      ensures jobs.Valid() && Reaches(Alone(old(jobs.jobs), old(runs.runs), id), end)
      ensures end.jobs == jobs.jobs && end.runs == runs.runs
      ensures 0 in end.runners && end.runners[0].pc == Stopped
      ensures end.launched ==
        if id in old(jobs.jobs) && old(jobs.jobs)[id].status == Queued && netlistOk then [id] else []
      ensures id !in old(jobs.jobs) ==> jobs.jobs == old(jobs.jobs) && runs.runs == old(runs.runs)
      ensures id in old(jobs.jobs) && old(jobs.jobs)[id].status != Queued ==>
        jobs.jobs == old(jobs.jobs) && runs.runs == old(runs.runs)[rid := RunRec(id, RunCreated, None)]
      ensures id in old(jobs.jobs) && old(jobs.jobs)[id].status == Queued ==>
        if netlistOk && simOk then
          && jobs.jobs == old(jobs.jobs)[id := old(jobs.jobs)[id].(
               status := Done, result := Some(res), run := Some(rid))]
          && runs.runs == old(runs.runs)[rid := RunRec(id, RunDone, Some(res))]
        else
          && jobs.jobs == old(jobs.jobs)[id := old(jobs.jobs)[id].(
               status := Failed, error := if error == "" then old(jobs.jobs)[id].error else Some(error))]
          && runs.runs == old(runs.runs)[rid := RunRec(id, RunFailed, None)]
    {
      hide Advanced, Reaches, Allowed;
      ghost var s0 := Alone(jobs.jobs, runs.runs, id);
      QueuedRuns();
      var ready, s := Prepare(id, rid);
      if !ready {
        end := s;
        return;
      }
      RunningJob(old(jobs.jobs), id, rid, res, error);
      ghost var c := Choice(rid, netlistOk, res, error);
      ghost var s1 := NetlistStep(s0, s, id, rid, c);
      if !netlistOk {
        end := Fail(s0, s1, id, rid, error);
        return;
      }
      ghost var s2 := SimStep(s0, s1, id, rid, c.(ok := simOk));
      if !simOk {
        end := Fail(s0, s2, id, rid, error);
        return;
      }
      end := Succeed(s0, s2, id, rid, res);
    }
  }
}
