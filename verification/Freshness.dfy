/** The freshness guard of job.create (tunnel/vfp_tunnel/daemon.py) with the plugin's fingerprints. */
module Freshness {
  import Fingerprint
  import opened Jobs
  import opened JobSystem

  lemma {:induction false} FingerprintKept(ss: seq<Sys>, steps: seq<Step>, i: nat, k: nat, j: string)
    requires Run(ss, steps) && i <= k < |ss| && j in ss[i].jobs
    ensures j in ss[k].jobs && ss[k].jobs[j].fingerprint == ss[i].jobs[j].fingerprint
  {
    hide Next;
    if k == i {
    } else {
      FingerprintKept(ss, steps, i, k - 1, j);
      StepKeepsTerminal(ss[k - 1], steps[k - 1], ss[k - 1 + 1], j);
    }
  }

  /** A job created for one set of inputs and returned by the guard for another: the inputs are the same,
      and the job stays done, with the same record, for good. */
  lemma ReusedJobRanOnEqualInputs(ss: seq<Sys>, steps: seq<Step>, h: nat, i: nat, k: nat, j: string,
                                  ds: seq<Fingerprint.Device>, test: string, es: seq<Fingerprint.Device>, test': string)
    requires Run(ss, steps) && h <= i <= k < |ss|
    requires j in ss[h].jobs && ss[h].jobs[j].fingerprint == Fingerprint.Print(ds, test)
    requires IsFresh(ss[i].jobs, j, Fingerprint.Print(es, test'))
    requires Fingerprint.CleanInputs(ds, test) && Fingerprint.CleanInputs(es, test')
    ensures Fingerprint.SameInputs(ds, test, es, test')
    ensures IsFresh(ss[k].jobs, j, Fingerprint.Print(ds, test)) && ss[k].jobs[j] == ss[i].jobs[j]
  {
    hide Fingerprint.Print, Fingerprint.CleanInputs, Fingerprint.SameInputs;
    FingerprintKept(ss, steps, h, i, j);
    Fingerprint.FingerprintIff(ds, test, es, test');
    FreshForever(ss, steps, i, k, j, Fingerprint.Print(es, test'));
  }
}
