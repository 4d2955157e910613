/** Runs of the experiment of Confluence, put together and taken apart. */
module Runs {
  import opened Schema
  import opened Protocol
  import opened Fates
  import opened Confluence
  import opened Settling

  /** A run of the experiment from `s` to `u`. */
  ghost predicate Leads(env: Env, base: Db, workers: nat, s: Sys, steps: seq<Step>, u: Sys) {
    && CalmRun(env, base, workers, s, steps)
    && CanRun(workers, s, steps)
    && Run(workers, s, steps) == u
  }

  lemma OneStep(env: Env, base: Db, workers: nat, s: Sys, step: Step)
    requires Enabled(workers, s, step) && Calm(env, base, s, step)
    ensures Leads(env, base, workers, s, [step], Do(workers, s, step))
  {
    assert [step][1..] == [];
  }

  lemma {:induction false} Then(
      env: Env, base: Db, workers: nat, s: Sys, xs: seq<Step>, u: Sys, ys: seq<Step>, v: Sys)
    requires Leads(env, base, workers, s, xs, u) && Leads(env, base, workers, u, ys, v)
    ensures Leads(env, base, workers, s, xs + ys, v)
    decreases |xs|
  {
    if xs == [] {
      assert xs + ys == ys;
    } else {
      assert (xs + ys)[0] == xs[0] && (xs + ys)[1..] == xs[1..] + ys;
      Then(env, base, workers, Do(workers, s, xs[0]), xs[1..], u, ys, v);
    }
  }

  lemma ThenStep(env: Env, base: Db, workers: nat, s: Sys, xs: seq<Step>, u: Sys, step: Step)
    requires Leads(env, base, workers, s, xs, u) && Enabled(workers, u, step) && Calm(env, base, u, step)
    ensures Leads(env, base, workers, s, xs + [step], Do(workers, u, step))
  {
    OneStep(env, base, workers, u, step);
    Then(env, base, workers, s, xs, u, [step], Do(workers, u, step));
  }

  lemma {:induction false} Prefix(env: Env, base: Db, workers: nat, s: Sys, steps: seq<Step>, k: nat)
    requires CalmRun(env, base, workers, s, steps) && k <= |steps|
    ensures CalmRun(env, base, workers, s, steps[..k]) && CanRun(workers, s, steps[..k])
    decreases k
  {
    if k > 0 {
      assert steps[..k][0] == steps[0] && steps[..k][1..] == steps[1..][..k - 1];
      Prefix(env, base, workers, Do(workers, s, steps[0]), steps[1..], k - 1);
    }
  }

  /** Only the archives of the starting store say what a run may do. */
  lemma {:induction false} SameArchivesSameRuns(
      env: Env, base: Db, anew: Db, workers: nat, s: Sys, steps: seq<Step>)
    requires CalmRun(env, base, workers, s, steps) && anew.archives == base.archives
    ensures CalmRun(env, anew, workers, s, steps)
    decreases |steps|
  {
    if steps != [] {
      SameArchivesSameRuns(env, base, anew, workers, Do(workers, s, steps[0]), steps[1..]);
    }
  }

  /** What the process does by itself registers no further archive. */
  lemma InternalStepKeepsArchives(env: Env, base: Db, workers: nat, s: Sys, step: Step)
    requires PhaseGood(env, base, s.db, s.phase)
    requires Enabled(workers, s, step) && Calm(env, base, s, step) && Internal(step)
    ensures Do(workers, s, step).db.archives.Keys == s.db.archives.Keys
  {
    if step.Commit? {
      RecordKeepsArchives(s.db, s.phase.slots[step.slot].cid, step.outcome, step.rowid);
    } else if ReadsOnly(step) {
      ReadOnlyStepKeepsDb(workers, s, step);
    } else {
      assert step.Register? || step.BeginCrawl? || step.CrawlFails? || step.Persist? || step.WriteArchive?;
    }
  }

  lemma InternalStepGoesOn(env: Env, base: Db, workers: nat, s: Sys, step: Step)
    requires Good(env, base, s) && Enabled(workers, s, step) && Calm(env, base, s, step) && Internal(step)
    ensures Good(env, base, Do(workers, s, step))
    ensures Do(workers, s, step).db.archives.Keys == s.db.archives.Keys
  {
    InternalStepKeepsArchives(env, base, workers, s, step);
    StepKeepsGood(env, base, workers, s, step);
  }

  lemma {:induction false} InternalRunKeepsArchives(env: Env, base: Db, workers: nat, s: Sys, steps: seq<Step>, u: Sys)
    requires Good(env, base, s) && Leads(env, base, workers, s, steps, u) && AllInternal(steps)
    ensures Good(env, base, u) && u.db.archives.Keys == s.db.archives.Keys
    decreases |steps|
  {
    if steps != [] {
      InternalStepGoesOn(env, base, workers, s, steps[0]);
      InternalRunKeepsArchives(env, base, workers, Do(workers, s, steps[0]), steps[1..], u);
    }
  }

  /** From any good state the process can go on to rest by itself. */
  lemma ToRest(env: Env, base: Db, n: nat, s: Sys) returns (steps: seq<Step>, u: Sys)
    requires Bounded(env, base, n, s) && CrawlsDistinct(env)
    ensures Leads(env, base, 1, s, steps, u) && AllInternal(steps)
    ensures Quiescent(u) && Good(env, base, u) && u.db.archives.Keys == s.db.archives.Keys
  {
    steps := RestIsReachable(env, base, n, 1, s);
    u := Run(1, s, steps);
    InternalRunKeepsArchives(env, base, 1, s, steps, u);
  }
}
