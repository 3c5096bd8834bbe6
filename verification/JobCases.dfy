/** Two ordinary sessions of the job machinery, step by step: one whose job is done, and one whose job is
    cancelled while its simulator's result is being linked. */
module JobCases {
  import opened Text
  import opened Jobs
  import opened JobSystem

  /** A session with one job, its run and its runner. */
  function One(id: string, job: Job, rid: string, rec: RunRec, pc: Pc, launched: seq<string>): Sys {
    Sys(map[id := job], map[rid := rec], map[0 := Runner(id, pc, true)], launched)
  }

  lemma Starting(id: string, q: Job, rid: string, c: Choice) returns (s1: Sys, s2: Sys, s3: Sys, s4: Sys)
    requires q.status == Queued && c.rid == rid
    ensures var s0 := Sys(map[], map[], map[], []);
            && Next(s0, Create(id, q), s1) && Next(s1, Request(id, 0), s2)
            && Next(s2, Advance(0, c), s3) && Next(s3, Advance(0, c), s4)
    ensures s4 == One(id, q.(status := Running), rid, RunRec(id, RunCreated, None), Marked(rid), [])
  {
    s1 := Sys(map[id := q], map[], map[], []);
    s2 := s1.(runners := map[0 := Runner(id, Begin, false)]);
    s3 := s2.(runs := map[rid := RunRec(id, RunCreated, None)], runners := map[0 := Runner(id, Created(rid), false)]);
    s4 := One(id, q.(status := Running), rid, RunRec(id, RunCreated, None), Marked(rid), []);
  }

  lemma Launched(id: string, j: Job, rid: string, c: Choice) returns (s5: Sys, s6: Sys)
    requires c.ok
    ensures Next(One(id, j, rid, RunRec(id, RunCreated, None), Marked(rid), []), Advance(0, c), s5)
    ensures Next(s5, Advance(0, c), s6)
    ensures s6 == One(id, j, rid, RunRec(id, RunRunning, None), Launching(rid), [])
  {
    s5 := One(id, j, rid, RunRec(id, RunRunning, None), Netlisting(rid), []);
    s6 := One(id, j, rid, RunRec(id, RunRunning, None), Launching(rid), []);
  }

  lemma Simulating(id: string, j: Job, rid: string, c: Choice) returns (s7: Sys, s8: Sys)
    requires c.ok
    ensures Next(One(id, j, rid, RunRec(id, RunRunning, None), Launching(rid), []), Advance(0, c), s7)
    ensures Next(s7, Advance(0, c), s8)
    ensures s8 == One(id, j, rid, RunRec(id, RunRunning, None), Linking(rid, c.res), [id])
  {
    s7 := One(id, j, rid, RunRec(id, RunRunning, None), Simulated(rid), [id]);
    s8 := One(id, j, rid, RunRec(id, RunRunning, None), Linking(rid, c.res), [id]);
  }

  lemma Ending(id: string, j: Job, rid: string, res: string, c: Choice) returns (s9: Sys, s10: Sys)
    ensures Next(One(id, j, rid, RunRec(id, RunRunning, None), Linking(rid, res), [id]), Advance(0, c), s9)
    ensures Next(s9, Advance(0, c), s10)
    ensures s10 == One(id, j, rid, RunRec(id, RunDone, Some(res)), Reporting(rid, res), [id])
  {
    s9 := One(id, j, rid, RunRec(id, RunRunning, Some(res)), Finishing(rid, res), [id]);
    s10 := One(id, j, rid, RunRec(id, RunDone, Some(res)), Reporting(rid, res), [id]);
  }

  /** Create a queued job, ask for it to be run, and let the runner come as far as its report. */
  lemma ToReport(id: string, fingerprint: string, rid: string, res: string) returns (ss: seq<Sys>, steps: seq<Step>)
    ensures Run(ss, steps) && |steps| == 10 && forall i :: 0 <= i < |steps| ==> Ordinary(steps[i])
    ensures ss[10] == One(id, Job(Running, fingerprint, "", None, None, None), rid,
                          RunRec(id, RunDone, Some(res)), Reporting(rid, res), [id])
  {
    hide Next, One;
    var q, c := Job(Queued, fingerprint, "", None, None, None), Choice(rid, true, res, "");
    var s0 := Sys(map[], map[], map[], []);
    var s1, s2, s3, s4 := Starting(id, q, rid, c);
    var s5, s6 := Launched(id, q.(status := Running), rid, c);
    var s7, s8 := Simulating(id, q.(status := Running), rid, c);
    var s9, s10 := Ending(id, q.(status := Running), rid, res, c);
    ss := [s0, s1, s2, s3, s4, s5, s6, s7, s8, s9, s10];
    steps := [Create(id, q), Request(id, 0), Advance(0, c), Advance(0, c), Advance(0, c), Advance(0, c),
              Advance(0, c), Advance(0, c), Advance(0, c), Advance(0, c)];
  }

  lemma RunOn(ss: seq<Sys>, steps: seq<Step>, step: Step, s': Sys)
    requires Run(ss, steps) && Next(ss[|steps|], step, s')
    ensures Run(ss + [s'], steps + [step])
  {
  }

  /** The job that is not disturbed is done, fresh, and its run holds the result. */
  lemma JobIsDone(id: string, fingerprint: string, rid: string, res: string) returns (ss: seq<Sys>, steps: seq<Step>)
    requires fingerprint != ""
    ensures Run(ss, steps) && forall i :: 0 <= i < |steps| ==> Ordinary(steps[i])
    ensures var last := ss[|steps|];
            && last.jobs == map[id := Job(Done, fingerprint, "", Some(res), Some(rid), None)]
            && last.runs == map[rid := RunRec(id, RunDone, Some(res))] && IsFresh(last.jobs, id, fingerprint)
  {
    ss, steps := ToReport(id, fingerprint, rid, res);
    var s, step := ss[10], Advance(0, Choice(rid, true, res, ""));
    var s' := s.(jobs := map[id := Job(Done, fingerprint, "", Some(res), Some(rid), None)],
                 runners := map[0 := Runner(id, Stopped, true)]);
    assert Next(s, step, s');
    RunOn(ss, steps, step, s');
    ss, steps := ss + [s'], steps + [step];
  }

  /** A cancel that comes while the runner is about to report: the job stays cancelled, its run is done. */
  lemma CancelledMidRun(id: string, fingerprint: string, rid: string, res: string)
    returns (ss: seq<Sys>, steps: seq<Step>, c: Choice)
    ensures Run(ss, steps) && |steps| == 12 && forall i :: 0 <= i < |steps| ==> Ordinary(steps[i])
    ensures steps[11] == Advance(0, c) && 0 in ss[11].runners && ss[11].runners[0].pc.Reporting?
    ensures ss[11].runners[0].job == id && id in ss[11].jobs && ss[11].jobs[id].status == Cancelled
    ensures id in ss[12].jobs && ss[12].jobs[id].status == Cancelled
    ensures rid in ss[12].runs && ss[12].runs[rid] == RunRec(id, RunDone, Some(res))
  {
    ss, steps := ToReport(id, fingerprint, rid, res);
    c := Choice(rid, true, res, "");
    var s := ss[10];
    var cancelled := s.(jobs := map[id := Job(Cancelled, fingerprint, "", None, None, None)]);
    assert Next(s, Mark(id, Cancelled, NO_FIELDS), cancelled);
    RunOn(ss, steps, Mark(id, Cancelled, NO_FIELDS), cancelled);
    ss, steps := ss + [cancelled], steps + [Mark(id, Cancelled, NO_FIELDS)];
    var s' := cancelled.(runners := map[0 := Runner(id, Stopped, true)]);
    assert Next(cancelled, Advance(0, c), s');
    RunOn(ss, steps, Advance(0, c), s');
    ss, steps := ss + [s'], steps + [Advance(0, c)];
  }
}
