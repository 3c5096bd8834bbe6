/** Simulation jobs and runs: the records, the status machine and the two stores
    (tunnel/vfp_tunnel/sim/job.py, sim/job_store.py, artifact/manager.py). */
module Jobs {
  import opened Text

  /** A creating caller may supply any status, hence Other. */
  datatype Status = Queued | Running | Done | Failed | Cancelled | Other(name: string)

  datatype Job = Job(status: Status, fingerprint: string, created: string,
                     result: Option<string>, run: Option<string>, error: Option<string>)

  /** The fields a status change may carry along. */
  datatype Fields = Fields(result: Option<string>, run: Option<string>, error: Option<string>)

  datatype Outcome<+T> = Ok(value: T) | KeyError | ValueError

  const NO_FIELDS := Fields(None, None, None)

  predicate Allowed(from: Status, to: Status) {
    match from
    case Queued => to == Running || to == Cancelled
    case Running => to == Done || to == Failed || to == Cancelled
    case _ => false
  }

  predicate Terminal(s: Status) {
    s == Done || s == Failed || s == Cancelled
  }

  function Override<T>(given: Option<T>, was: Option<T>): Option<T> {
    if given.Some? then given else was
  }

  function Transition(j: Job, to: Status, f: Fields): Outcome<Job> {
    if !Allowed(j.status, to) then ValueError
    else Ok(Job(to, j.fingerprint, j.created, Override(f.result, j.result), Override(f.run, j.run),
                Override(f.error, j.error)))
  }

  function SetStatus(jobs: map<string, Job>, id: string, to: Status, f: Fields): Outcome<map<string, Job>> {
    if id !in jobs then KeyError
    else match Transition(jobs[id], to, f)
      case Ok(j) => Ok(jobs[id := j])
      case KeyError => KeyError
      case ValueError => ValueError
  }

  /** What a store holds after an attempted change: a refused one changes nothing. */
  function Stored(jobs: map<string, Job>, r: Outcome<map<string, Job>>): map<string, Job> {
    match r case Ok(m) => m case _ => jobs
  }

  /** A job can be cancelled exactly while it is queued or running, and is cancelled then. */
  lemma CancelIff(jobs: map<string, Job>, id: string, f: Fields)
    ensures var r := SetStatus(jobs, id, Cancelled, f);
            && (r.Ok? <==> id in jobs && (jobs[id].status == Queued || jobs[id].status == Running))
            && (r.Ok? ==> r.value.Keys == jobs.Keys && r.value[id].status == Cancelled && r.value - {id} == jobs - {id})
  {
  }

  predicate IsFresh(jobs: map<string, Job>, id: string, fingerprint: string) {
    id in jobs && fingerprint != "" && jobs[id].status == Done && jobs[id].fingerprint == fingerprint
  }

  /** The b-th of these jobs is done with this fingerprint, newer than such jobs before it and no older than
      those after it. */
  ghost predicate NewestAt(jobs: map<string, Job>, ids: seq<string>, b: nat, fingerprint: string) {
    && b < |ids| && IsFresh(jobs, ids[b], fingerprint)
    && (forall k :: 0 <= k < b && IsFresh(jobs, ids[k], fingerprint) ==>
          !Leq(jobs[ids[b]].created, jobs[ids[k]].created))
    && (forall k :: b < k < |ids| && IsFresh(jobs, ids[k], fingerprint) ==>
          Leq(jobs[ids[k]].created, jobs[ids[b]].created))
  }

  lemma NoneNewer(jobs: map<string, Job>, ids: seq<string>, b: nat, k: nat, fingerprint: string)
    requires NewestAt(jobs, ids, b, fingerprint) && k < |ids| && IsFresh(jobs, ids[k], fingerprint)
    ensures b < |ids| && Leq(jobs[ids[k]].created, jobs[ids[b]].created)
  {
    LeqTotal(jobs[ids[k]].created, jobs[ids[b]].created);
  }

  lemma NewestIsFresh(jobs: map<string, Job>, ids: seq<string>, b: nat, fingerprint: string)
    requires NewestAt(jobs, ids, b, fingerprint)
    ensures b < |ids| && IsFresh(jobs, ids[b], fingerprint)
  {
  }

  lemma StillNewest(jobs: map<string, Job>, ids: seq<string>, b: nat, fingerprint: string)
    requires ids != [] && NewestAt(jobs, ids[..|ids| - 1], b, fingerprint)
    requires IsFresh(jobs, ids[|ids| - 1], fingerprint) ==> Leq(jobs[ids[|ids| - 1]].created, jobs[ids[b]].created)
    ensures NewestAt(jobs, ids, b, fingerprint)
  {
    hide Leq;
    assert forall k :: 0 <= k < |ids| - 1 ==> ids[..|ids| - 1][k] == ids[k];
  }

  /** A strictly newer job takes over from the newest one so far. */
  lemma NewerThanAll(jobs: map<string, Job>, ids: seq<string>, b: nat, best: Option<string>, fingerprint: string)
    requires ids != [] && IsFresh(jobs, ids[|ids| - 1], fingerprint)
    requires best.Some? ==> NewestAt(jobs, ids[..|ids| - 1], b, fingerprint) && best.value == ids[b]
    requires best.Some? ==> !Leq(jobs[ids[|ids| - 1]].created, jobs[ids[b]].created)
    requires best.None? ==> forall k :: 0 <= k < |ids| - 1 ==> !IsFresh(jobs, ids[k], fingerprint)
    ensures NewestAt(jobs, ids, |ids| - 1, fingerprint)
  {
    hide Leq;
    var n := |ids| - 1;
    forall k | 0 <= k < n && IsFresh(jobs, ids[k], fingerprint)
      ensures !Leq(jobs[ids[n]].created, jobs[ids[k]].created)
    {
      assert ids[..n][k] == ids[k];
      if Leq(jobs[ids[n]].created, jobs[ids[k]].created) && k != b {
        if k < b {
          LeqTotal(jobs[ids[k]].created, jobs[ids[b]].created);
        }
        LeqTransitive(jobs[ids[n]].created, jobs[ids[k]].created, jobs[ids[b]].created);
      }
    }
  }

  class JobStore {
    var jobs: map<string, Job>
    var order: seq<string>

    /** Every record is listed once, in order of creation. */
    ghost predicate Valid()
      reads this
    {
      Distinct(order) && forall id :: id in order <==> id in jobs
    }

    constructor ()
      ensures Valid() && jobs == map[] && order == []
    {
      jobs, order := map[], [];
    }

    /** sim/job_store.py:43-52: an empty or known identifier is refused. */
    method Add(id: string, job: Job) returns (ok: bool)
      requires Valid()
      modifies this
      ensures Valid() && ok == (id != "" && id !in old(jobs))
      ensures jobs == if ok then old(jobs)[id := job] else old(jobs)
      ensures order == if ok then old(order) + [id] else old(order)
    {
      ok := id != "" && id !in jobs;
      if ok {
        jobs, order := jobs[id := job], order + [id];
      }
    }

    /** sim/job_store.py:97-105: a queued job can start or be cancelled, a running one can end in three ways, any
        other change is refused; the fields given replace the old ones and nothing else changes. */
    method Set(id: string, to: Status, f: Fields) returns (r: Outcome<Job>)
      requires Valid()
      modifies this
      ensures Valid() && jobs == Stored(old(jobs), SetStatus(old(jobs), id, to, f)) && order == old(order)
      ensures r.KeyError? <==> id !in old(jobs)
      ensures r.Ok? <==>
        id in old(jobs) && ((old(jobs)[id].status == Queued && to in {Running, Cancelled})
                            || (old(jobs)[id].status == Running && to in {Done, Failed, Cancelled}))
      ensures r.Ok? ==> jobs == old(jobs)[id := r.value] && r.value.status == to
      ensures r.Ok? ==>
        && r.value.fingerprint == old(jobs)[id].fingerprint && r.value.created == old(jobs)[id].created
        && r.value.result == (if f.result.Some? then f.result else old(jobs)[id].result)
        && r.value.run == (if f.run.Some? then f.run else old(jobs)[id].run)
        && r.value.error == (if f.error.Some? then f.error else old(jobs)[id].error)
      ensures !r.Ok? ==> jobs == old(jobs)
    {
      if id !in jobs {
        return KeyError;
      }
      r := Transition(jobs[id], to, f);
      if r.Ok? {
        jobs := jobs[id := r.value];
      }
    }

    /** sim/job_store.py:67-77: the newest done job with this fingerprint, the earliest created of equally new ones. */
    method FreshDone(fingerprint: string) returns (best: Option<string>)
      requires Valid()
      ensures best.None? <==> forall id ::
        !(id in jobs && fingerprint != "" && jobs[id].status == Done && jobs[id].fingerprint == fingerprint)
      ensures best.Some? ==>
        && best.value in jobs && jobs[best.value].status == Done && jobs[best.value].fingerprint == fingerprint
        && forall id :: id in jobs && jobs[id].status == Done && jobs[id].fingerprint == fingerprint ==>
             Leq(jobs[id].created, jobs[best.value].created)
      ensures best.Some? ==>
        exists b :: 0 <= b < |order| && order[b] == best.value && NewestAt(jobs, order, b, fingerprint)
    {
      hide Leq, NewestAt;
      best := None;
      if fingerprint == "" {
        return;
      }
      ghost var b := 0;
      for i := 0 to |order|
        invariant best.Some? ==> b < i && best.value == order[b] && best.value in jobs
        invariant best.Some? ==> NewestAt(jobs, order[..i], b, fingerprint)
        invariant best.None? ==> forall k :: 0 <= k < i ==> !IsFresh(jobs, order[k], fingerprint)
      {
        var j := jobs[order[i]];
        ghost var seen := order[..i + 1];
        assert seen[..i] == order[..i];
        if j.status == Done && j.fingerprint == fingerprint {
          if best.None? || !Leq(j.created, jobs[best.value].created) {
            NewerThanAll(jobs, seen, b, best, fingerprint);
            best, b := Some(order[i]), i;
          } else {
            StillNewest(jobs, seen, b, fingerprint);
          }
        } else if best.Some? {
          StillNewest(jobs, seen, b, fingerprint);
        }
      }
      assert order[..|order|] == order;
      if best.Some? {
        NewestIsFresh(jobs, order, b, fingerprint);
        forall id | id in jobs && IsFresh(jobs, id, fingerprint)
          ensures Leq(jobs[id].created, jobs[best.value].created)
        {
          var k :| 0 <= k < |order| && order[k] == id;
          NoneNewer(jobs, order, b, k, fingerprint);
        }
      }
    }
  }

  // ---- runs ----

  /** A creating caller may supply any status here too. */
  datatype RunStatus = RunCreated | RunRunning | RunDone | RunFailed | RunOther(name: string)

  datatype RunRec = RunRec(job: string, status: RunStatus, result: Option<string>)

  class RunStore {
    var runs: map<string, RunRec>

    constructor ()
      ensures runs == map[]
    {
      runs := map[];
    }

    /** artifact/manager.py:55-66: created and without a result unless the caller says otherwise; the
        identifier is fresh. */
    method Create(id: string, job: string, status: Option<RunStatus>, result: Option<string>)
      requires id !in runs
      modifies this
      ensures id in runs && runs[id].job == job && runs[id].result == result && runs - {id} == old(runs)
      ensures status == Some(runs[id].status) || (status.None? && runs[id].status == RunCreated)
    {
      runs := runs[id := RunRec(job, if status.Some? then status.value else RunCreated, result)];
    }

    /** artifact/manager.py:82-85: an unknown run or a status of another name is refused. */
    method SetStatus(id: string, status: RunStatus) returns (ok: bool)
      modifies this
      ensures ok == (id in old(runs) && !status.RunOther?)
      ensures runs == if ok then old(runs)[id := old(runs)[id].(status := status)] else old(runs)
    {
      ok := id in runs && !status.RunOther?;
      if ok {
        runs := runs[id := runs[id].(status := status)];
      }
    }

    /** artifact/manager.py:87-88. */
    method LinkResult(id: string, result: string) returns (ok: bool)
      modifies this
      ensures ok == (id in old(runs))
      ensures runs == if ok then old(runs)[id := old(runs)[id].(result := Some(result))] else old(runs)
    {
      ok := id in runs;
      if ok {
        runs := runs[id := runs[id].(result := Some(result))];
      }
    }
  }
}
