/**
 Who owns an archive after its submissions are processed. The row takes the owner
 of whichever submission or job writes last, so runs agree exactly when no two
 owners were named.
 */
module Owners {
  import opened Schema
  import opened Protocol
  import opened Fates
  import opened Confluence
  import opened Settling
  import opened Runs

  /** Archives and owners submitted, in order. */
  function Submissions(steps: seq<Step>): seq<(Cid, string)> {
    if steps == [] then []
    else (if steps[0].Submit? then [(steps[0].archive, steps[0].owner)] else []) + Submissions(steps[1..])
  }

  /** The owners named for `a`. */
  function OwnersFor(subs: seq<(Cid, string)>, a: Cid): set<string> {
    set p | p in subs && p.0 == a && p.1 != "" :: p.1
  }

  predicate Submitted(subs: seq<(Cid, string)>, a: Cid) {
    exists p :: p in subs && p.0 == a
  }

  function OwnerOf(t: Db, a: Cid): string {
    if a in t.archives then t.archives[a].owner else ""
  }

  /** No owner where none was named; one of those named otherwise. */
  predicate OwnerOk(base: Db, subs: seq<(Cid, string)>, a: Cid, owner: string) {
    if OwnersFor(subs, a) == {} then owner == OwnerOf(base, a) else owner in OwnersFor(subs, a)
  }

  // ---- What every run keeps ----

  predicate JobOwned(subs: seq<(Cid, string)>, a: Cid, t: Db, job: Job) {
    job.ArchiveJob? && job.archive == a ==> a in t.archives && job.owner in OwnersFor(subs, a) + {""}
  }

  ghost predicate Owned(base: Db, subs: seq<(Cid, string)>, a: Cid, s: Sys) {
    && (a in s.db.archives <==> a in base.archives || Submitted(subs, a))
    && (a in s.db.archives ==> OwnerOk(base, subs, a, s.db.archives[a].owner))
    && (forall job :: job in s.entering || job in s.queue ==> JobOwned(subs, a, s.db, job))
    && (s.phase.Received? ==> JobOwned(subs, a, s.db, s.phase.job))
  }

  lemma SubmissionsGrow(subs: seq<(Cid, string)>, p: (Cid, string), a: Cid)
    ensures OwnersFor(subs + [p], a) == OwnersFor(subs, a) + (if p.0 == a && p.1 != "" then {p.1} else {})
    ensures Submitted(subs + [p], a) <==> Submitted(subs, a) || p.0 == a
  {
    assert p in subs + [p];
    forall q
      ensures q in subs + [p] <==> q in subs || q == p
    {
    }
  }

  lemma SubmitKeepsOwned(base: Db, workers: nat, s: Sys, b: Cid, owner: string, subs: seq<(Cid, string)>, a: Cid)
    requires Owned(base, subs, a, s) && b !in base.archives
    ensures Owned(base, subs + [(b, owner)], a, Do(workers, s, Submit(b, owner)))
  {
    var u := Do(workers, s, Submit(b, owner));
    SubmissionsGrow(subs, (b, owner), a);
    assert u.db.archives.Keys == s.db.archives.Keys + {b};
    forall job | job in u.entering || job in u.queue
      ensures JobOwned(subs + [(b, owner)], a, u.db, job)
    {
      if job != ArchiveJob(b, owner) {
        assert JobOwned(subs, a, s.db, job);
      }
    }
  }

  lemma RestartKeepsOwned(base: Db, workers: nat, s: Sys, order: seq<Cid>, subs: seq<(Cid, string)>, a: Cid)
    requires Owned(base, subs, a, s) && Enabled(workers, s, Restart(order))
    ensures Owned(base, subs, a, Do(workers, s, Restart(order)))
  {
    var u := Do(workers, s, Restart(order));
    forall job | job in u.queue
      ensures JobOwned(subs, a, u.db, job)
    {
      var k :| 0 <= k < |order| && u.queue[k] == job;
      assert order[k] in order;
    }
  }

  /** Neither commits nor the archive writes after registration touch owners. */
  lemma OtherStepsKeepOwners(workers: nat, s: Sys, step: Step, a: Cid)
    requires Enabled(workers, s, step) && !Admin(step) && !step.Submit? && !step.Register?
    ensures var u := Do(workers, s, step);
            (a in u.db.archives <==> a in s.db.archives) && OwnerOf(u.db, a) == OwnerOf(s.db, a)
  {
    if step.Commit? {
      RecordKeepsArchives(s.db, s.phase.slots[step.slot].cid, step.outcome, step.rowid);
    } else if ReadsOnly(step) {
      ReadOnlyStepKeepsDb(workers, s, step);
    } else {
      assert step.NoKey? || step.BeginCrawl? || step.CrawlFails? || step.Persist? || step.WriteArchive?
             || step.Restart?;
    }
  }

  lemma QueueStepKeepsOwned(base: Db, workers: nat, s: Sys, step: Step, subs: seq<(Cid, string)>, a: Cid)
    requires Owned(base, subs, a, s) && Enabled(workers, s, step) && (step.Enqueue? || step.Receive?)
    ensures Owned(base, subs, a, Do(workers, s, step))
  {
    var u := Do(workers, s, step);
    if step.Receive? {
      assert s.queue[0] in s.queue;
    }
    forall job | job in u.entering || job in u.queue
      ensures JobOwned(subs, a, u.db, job)
    {
      assert JobOwned(subs, a, s.db, job);
    }
  }

  lemma DispatcherStepKeepsOwned(base: Db, workers: nat, s: Sys, step: Step, subs: seq<(Cid, string)>, a: Cid)
    requires Owned(base, subs, a, s) && Enabled(workers, s, step) && !Admin(step)
    requires !step.Submit? && !step.SubmitDocs? && !step.Enqueue? && !step.Receive? && !step.Restart?
    ensures Owned(base, subs, a, Do(workers, s, step))
  {
    if !step.Register? {
      OtherStepsKeepOwners(workers, s, step, a);
    }
  }

  lemma StepKeepsOwned(
      env: Env, base: Db, workers: nat, s: Sys, step: Step, subs: seq<(Cid, string)>, a: Cid)
    requires Owned(base, subs, a, s) && Enabled(workers, s, step) && Calm(env, base, s, step)
    ensures Owned(base, subs + Submissions([step]), a, Do(workers, s, step))
  {
    assert Submissions([step]) == if step.Submit? then [(step.archive, step.owner)] else [] by {
      assert [step][1..] == [];
    }
    if step.Submit? {
      SubmitKeepsOwned(base, workers, s, step.archive, step.owner, subs, a);
    } else {
      assert subs + Submissions([step]) == subs;
      if step.Enqueue? || step.Receive? {
        QueueStepKeepsOwned(base, workers, s, step, subs, a);
      } else if step.Restart? {
        RestartKeepsOwned(base, workers, s, step.order, subs, a);
      } else {
        DispatcherStepKeepsOwned(base, workers, s, step, subs, a);
      }
    }
  }

  lemma SubmissionsFirst(steps: seq<Step>)
    requires steps != []
    ensures Submissions(steps) == Submissions([steps[0]]) + Submissions(steps[1..])
  {
    assert [steps[0]][1..] == [];
    assert Submissions([]) == [];
  }

  lemma ConcatAssociates<T>(a: seq<T>, b: seq<T>, c: seq<T>)
    ensures (a + b) + c == a + (b + c)
  {
  }

  lemma {:induction false} RunKeepsOwned(
      env: Env, base: Db, workers: nat, s: Sys, steps: seq<Step>, subs: seq<(Cid, string)>, a: Cid)
    requires Owned(base, subs, a, s) && CalmRun(env, base, workers, s, steps) && CanRun(workers, s, steps)
    ensures Owned(base, subs + Submissions(steps), a, Run(workers, s, steps))
    decreases |steps|
  {
    if steps == [] {
      assert subs + Submissions(steps) == subs;
    } else {
      var next := subs + Submissions([steps[0]]);
      assert Owned(base, next, a, Do(workers, s, steps[0])) by {
        StepKeepsOwned(env, base, workers, s, steps[0], subs, a);
      }
      RunKeepsOwned(env, base, workers, Do(workers, s, steps[0]), steps[1..], next, a);
      SubmissionsFirst(steps);
      ConcatAssociates(subs, Submissions([steps[0]]), Submissions(steps[1..]));
    }
  }

  /** In every settled run the archives are those submitted, each owned by one of the owners named for it, if any. */
  lemma OwnerIsSubmitted(env: Env, base: Db, workers: nat, steps: seq<Step>, t: Db, a: Cid)
    requires SettlesTo(env, base, workers, steps, t)
    ensures a in t.archives <==> a in base.archives || Submitted(Submissions(steps), a)
    ensures a in t.archives ==> OwnerOk(base, Submissions(steps), a, t.archives[a].owner)
  {
    RunKeepsOwned(env, base, workers, Start(base), steps, [], a);
    assert [] + Submissions(steps) == Submissions(steps);
  }

  // ---- The owner a quiet queue is heading for ----

  function After(job: Job, a: Cid, owner: string): string {
    if job.ArchiveJob? && job.archive == a && job.owner != "" then job.owner else owner
  }

  function AfterAll(jobs: seq<Job>, a: Cid, owner: string): string
    decreases |jobs|
  {
    if jobs == [] then owner else AfterAll(jobs[1..], a, After(jobs[0], a, owner))
  }

  function Heir(s: Sys, a: Cid): string {
    var now := OwnerOf(s.db, a);
    AfterAll(s.queue, a, if s.phase.Received? then After(s.phase.job, a, now) else now)
  }

  lemma {:induction false} LastNamedWins(jobs: seq<Job>, a: Cid, job: Job, owner: string)
    requires job.ArchiveJob? && job.archive == a && job.owner != ""
    ensures AfterAll(jobs + [job], a, owner) == job.owner
    decreases |jobs|
  {
    if jobs == [] {
      assert (jobs + [job])[1..] == [];
    } else {
      assert (jobs + [job])[1..] == jobs[1..] + [job];
      LastNamedWins(jobs[1..], a, job, After(jobs[0], a, owner));
    }
  }

  lemma InternalStepKeepsHeir(env: Env, base: Db, workers: nat, s: Sys, step: Step, a: Cid)
    requires Enabled(workers, s, step) && Calm(env, base, s, step) && Internal(step) && !step.Enqueue?
    ensures Heir(Do(workers, s, step), a) == Heir(s, a)
  {
    if !step.Register? {
      OtherStepsKeepOwners(workers, s, step, a);
    }
  }

  lemma InternalStepSendsNothing(workers: nat, s: Sys, step: Step)
    requires Enabled(workers, s, step) && Internal(step) && s.entering == multiset{}
    ensures Do(workers, s, step).entering == multiset{} && !step.Enqueue?
  {
  }

  lemma {:induction false} InternalRunKeepsHeir(
      env: Env, base: Db, workers: nat, s: Sys, steps: seq<Step>, u: Sys, a: Cid)
    requires Leads(env, base, workers, s, steps, u) && AllInternal(steps)
    requires s.entering == multiset{}
    ensures Heir(u, a) == Heir(s, a)
    decreases |steps|
  {
    if steps != [] {
      InternalStepSendsNothing(workers, s, steps[0]);
      InternalStepKeepsHeir(env, base, workers, s, steps[0], a);
      InternalRunKeepsHeir(env, base, workers, Do(workers, s, steps[0]), steps[1..], u, a);
    }
  }

  // ---- Runs with given submissions, sent in a chosen order ----

  function JobOf(p: (Cid, string)): Job {
    ArchiveJob(p.0, p.1)
  }

  function JobsOf(subs: seq<(Cid, string)>): seq<Job> {
    seq(|subs|, i requires 0 <= i < |subs| => JobOf(subs[i]))
  }

  lemma {:induction false} SubmissionsConcat(xs: seq<Step>, ys: seq<Step>)
    ensures Submissions(xs + ys) == Submissions(xs) + Submissions(ys)
  {
    if xs == [] {
      assert xs + ys == ys;
    } else {
      assert (xs + ys)[0] == xs[0] && (xs + ys)[1..] == xs[1..] + ys;
      SubmissionsConcat(xs[1..], ys);
    }
  }

  lemma {:induction false} InternalRunsSubmitNothing(steps: seq<Step>)
    requires AllInternal(steps)
    ensures Submissions(steps) == []
  {
    if steps != [] {
      InternalRunsSubmitNothing(steps[1..]);
    }
  }

  lemma {:induction false} SubmitAll(env: Env, base: Db, subs: seq<(Cid, string)>)
    returns (steps: seq<Step>, s: Sys)
    requires forall p :: p in subs ==> p.0 !in base.archives
    ensures Leads(env, base, 1, Start(base), steps, s)
    ensures Submissions(steps) == subs && Uninterrupted(steps)
    ensures s.entering == multiset(JobsOf(subs)) && s.queue == [] && s.phase.Idle?
    decreases |subs|
  {
    if subs == [] {
      steps, s := [], Start(base);
    } else {
      var k := |subs| - 1;
      var init, last := subs[..k], subs[k];
      assert subs == init + [last] && last in subs;
      var pre, m := SubmitAll(env, base, init);
      var step := Submit(last.0, last.1);
      steps, s := pre + [step], Do(1, m, step);
      ThenStep(env, base, 1, Start(base), pre, m, step);
      SubmissionsConcat(pre, [step]);
      assert [step][1..] == [];
      assert JobsOf(subs) == JobsOf(init) + [JobOf(last)];
    }
  }

  lemma SendOne(env: Env, base: Db, s: Sys, job: Job) returns (u: Sys)
    requires job in s.entering
    ensures Leads(env, base, 1, s, [Enqueue(job)], u)
    ensures u == s.(entering := s.entering - multiset{job}, queue := s.queue + [job])
  {
    OneStep(env, base, 1, s, Enqueue(job));
    u := Do(1, s, Enqueue(job));
  }

  lemma {:induction false} SendAll(env: Env, base: Db, s: Sys, jobs: seq<Job>) returns (steps: seq<Step>, u: Sys)
    requires s.entering == multiset(jobs)
    ensures Leads(env, base, 1, s, steps, u) && AllInternal(steps)
    ensures u == s.(entering := multiset{}, queue := s.queue + jobs)
    decreases |jobs|
  {
    if jobs == [] {
      steps, u := [], s;
      assert s.queue + jobs == s.queue;
    } else {
      assert jobs == [jobs[0]] + jobs[1..];
      var m := SendOne(env, base, s, jobs[0]);
      var rest;
      rest, u := SendAll(env, base, m, jobs[1..]);
      steps := [Enqueue(jobs[0])] + rest;
      assert Leads(env, base, 1, s, steps, u) by {
        Then(env, base, 1, s, [Enqueue(jobs[0])], m, rest, u);
      }
      ConcatAssociates(s.queue, [jobs[0]], jobs[1..]);
    }
  }

  lemma SettleHeir(env: Env, base: Db, n: nat, s: Sys, a: Cid) returns (steps: seq<Step>, u: Sys)
    requires Bounded(env, base, n, s) && CrawlsDistinct(env) && s.entering == multiset{}
    ensures Leads(env, base, 1, s, steps, u) && AllInternal(steps) && Quiescent(u)
    ensures OwnerOf(u.db, a) == Heir(s, a)
  {
    steps, u := ToRest(env, base, n, s);
    InternalRunKeepsHeir(env, base, 1, s, steps, u, a);
  }

  lemma ProcessSent(env: Env, base: Db, n: nat, s: Sys, jobs: seq<Job>, a: Cid) returns (steps: seq<Step>, u: Sys)
    requires Bounded(env, base, n, s) && CrawlsDistinct(env)
    requires s.entering == multiset(jobs) && s.queue == [] && s.phase.Idle?
    ensures Leads(env, base, 1, s, steps, u) && AllInternal(steps) && Quiescent(u)
    ensures OwnerOf(u.db, a) == AfterAll(jobs, a, OwnerOf(s.db, a))
  {
    var sending, m := SendAll(env, base, s, jobs);
    assert Bounded(env, base, n, m) by {
      CalmRunKeepsBounded(env, base, n, 1, s, sending);
    }
    var rest;
    rest, u := SettleHeir(env, base, n, m, a);
    steps := sending + rest;
    assert Leads(env, base, 1, s, steps, u) by {
      Then(env, base, 1, s, sending, m, rest, u);
    }
    assert [] + jobs == jobs;
  }

  /** Everything submitted first, then the jobs sent in the order given, then processed to rest. */
  lemma SubmitThenSend(env: Env, base: Db, n: nat, subs: seq<(Cid, string)>, jobs: seq<Job>, a: Cid)
    returns (steps: seq<Step>, t: Db, before: string)
    requires Valid(base) && CrawlsDistinct(env) && CrawlsWithin(env, n)
    requires forall p :: p in subs ==> p.0 !in base.archives
    requires multiset(jobs) == multiset(JobsOf(subs))
    ensures SettlesTo(env, base, 1, steps, t) && Uninterrupted(steps) && Submissions(steps) == subs
    ensures OwnerOf(t, a) == AfterAll(jobs, a, before)
  {
    var submitting, s := SubmitAll(env, base, subs);
    StartIsGood(env, base);
    CalmRunKeepsBounded(env, base, n, 1, Start(base), submitting);
    var rest, u := ProcessSent(env, base, n, s, jobs, a);
    Then(env, base, 1, Start(base), submitting, s, rest, u);
    SubmissionsConcat(submitting, rest);
    InternalRunsSubmitNothing(rest);
    assert subs + [] == subs;
    steps, t, before := submitting + rest, u.db, OwnerOf(s.db, a);
  }

  /** Whichever submission names an owner, in some settled run without a crash that owner wins: its job is sent last. */
  lemma AnyNamedOwnerCanWin(env: Env, base: Db, n: nat, subs: seq<(Cid, string)>, i: nat)
    returns (steps: seq<Step>, t: Db)
    requires Valid(base) && CrawlsDistinct(env) && CrawlsWithin(env, n)
    requires forall p :: p in subs ==> p.0 !in base.archives
    requires i < |subs| && subs[i].1 != ""
    ensures SettlesTo(env, base, 1, steps, t) && Uninterrupted(steps) && Submissions(steps) == subs
    ensures OwnerOf(t, subs[i].0) == subs[i].1
  {
    var jobs := JobsOf(subs);
    var others, last := jobs[..i] + jobs[i + 1..], jobs[i];
    assert jobs == jobs[..i] + [last] + jobs[i + 1..];
    var before;
    steps, t, before := SubmitThenSend(env, base, n, subs, others + [last], subs[i].0);
    LastNamedWins(others, subs[i].0, last, before);
  }

  // ---- The condition ----

  /** Any two settled runs with these submissions leave `a` with the same owner. */
  ghost predicate OwnerAgrees(env: Env, base: Db, subs: seq<(Cid, string)>, a: Cid) {
    forall m, xs, t, n, ys, u ::
      && SettlesTo(env, base, m, xs, t) && Submissions(xs) == subs
      && SettlesTo(env, base, n, ys, u) && Submissions(ys) == subs
      ==> OwnerOf(t, a) == OwnerOf(u, a)
  }

  lemma AtMostOne<T>(S: set<T>)
    ensures |S| <= 1 <==> forall x, y :: x in S && y in S ==> x == y
  {
    if S != {} {
      var x :| x in S;
      assert |S - {x}| == |S| - 1;
      if |S| > 1 {
        var y :| y in S - {x};
      } else {
        assert S - {x} == {};
      }
    }
  }

  lemma OneNamedOwner(base: Db, subs: seq<(Cid, string)>, a: Cid, x: string, y: string)
    requires OwnerOk(base, subs, a, x) && OwnerOk(base, subs, a, y) && |OwnersFor(subs, a)| <= 1
    ensures x == y
  {
    AtMostOne(OwnersFor(subs, a));
  }

  /** The owner of `a` is settled by the submissions if and only if they name at most one. */
  lemma OwnerAgreesIff(env: Env, base: Db, n: nat, subs: seq<(Cid, string)>, a: Cid)
    requires Valid(base) && CrawlsDistinct(env) && CrawlsWithin(env, n)
    requires forall p :: p in subs ==> p.0 !in base.archives
    ensures OwnerAgrees(env, base, subs, a) <==> |OwnersFor(subs, a)| <= 1
  {
    if |OwnersFor(subs, a)| <= 1 {
      forall m, xs, t, k, ys, u |
        && SettlesTo(env, base, m, xs, t) && Submissions(xs) == subs
        && SettlesTo(env, base, k, ys, u) && Submissions(ys) == subs
        ensures OwnerOf(t, a) == OwnerOf(u, a)
      {
        OwnerIsSubmitted(env, base, m, xs, t, a);
        OwnerIsSubmitted(env, base, k, ys, u, a);
        if a in t.archives {
          OneNamedOwner(base, subs, a, t.archives[a].owner, u.archives[a].owner);
        }
      }
    } else {
      AtMostOne(OwnersFor(subs, a));
      var x, y :| x in OwnersFor(subs, a) && y in OwnersFor(subs, a) && x != y;
      var i :| 0 <= i < |subs| && subs[i] == (a, x);
      var j :| 0 <= j < |subs| && subs[j] == (a, y);
      var xs, t := AnyNamedOwnerCanWin(env, base, n, subs, i);
      var ys, u := AnyNamedOwnerCanWin(env, base, n, subs, j);
    }
  }

  function AsSet(subs: seq<(Cid, string)>): set<(Cid, string)> {
    set p | p in subs
  }

  lemma SameSubmissions(xs: seq<(Cid, string)>, ys: seq<(Cid, string)>, a: Cid)
    requires AsSet(xs) == AsSet(ys)
    ensures OwnersFor(xs, a) == OwnersFor(ys, a) && (Submitted(xs, a) <==> Submitted(ys, a))
  {
    assert forall p :: p in xs <==> p in AsSet(xs);
    assert forall p :: p in ys <==> p in AsSet(ys);
  }

  /**
   Confluence, owners included: settled runs with the same submissions, naming at
   most one owner for each archive, end in the same index and the same archive rows.
   */
  lemma RunsAgreeOnOwners(env: Env, base: Db, m: nat, xs: seq<Step>, t: Db, n: nat, ys: seq<Step>, u: Db)
    requires AtRest(base) && RequeueHarmless(env, base)
    requires SettlesTo(env, base, m, xs, t) && SettlesTo(env, base, n, ys, u)
    requires AsSet(Submissions(xs)) == AsSet(Submissions(ys))
    requires forall a :: |OwnersFor(Submissions(xs), a)| <= 1
    ensures SameIndex(t, u) && t.archives == u.archives
  {
    forall a
      ensures a in t.archives <==> a in u.archives
      ensures a in t.archives ==> t.archives[a].owner == u.archives[a].owner
    {
      SameSubmissions(Submissions(xs), Submissions(ys), a);
      OwnerIsSubmitted(env, base, m, xs, t, a);
      OwnerIsSubmitted(env, base, n, ys, u, a);
      if a in t.archives {
        OneNamedOwner(base, Submissions(xs), a, t.archives[a].owner, u.archives[a].owner);
      }
    }
    assert t.archives.Keys == u.archives.Keys;
    RunsAgree(env, base);
    assert SameIndex(t, u);
    forall a | a in t.archives
      ensures t.archives[a] == u.archives[a]
    {
      assert t.archives[a].(owner := "") == u.archives[a].(owner := "");
      assert t.archives[a] == t.archives[a].(owner := "").(owner := t.archives[a].owner);
    }
  }
}
