/** Runs with one crash, put where start-up's requeue shows in the settled index. */
module Crashes {
  import opened Schema
  import opened Seqs
  import opened Protocol
  import opened Fates
  import opened Confluence
  import opened Settling
  import opened Runs
  import opened Settlements
  import Invariants

  // ---- A crash at rest ----

  /** A crash at rest leaves the process at rest, minus the failures start-up requeues. */
  lemma CrashAtRest(env: Env, base: Db, workers: nat, xs: seq<Step>, t: Db)
    requires SettlesTo(env, base, workers, xs, t) && Resumable(t) == {}
    ensures SettlesTo(env, base, workers, xs + [Restart([])], RequeueTx(t))
  {
    ThenStep(env, base, workers, Start(base), xs, Run(workers, Start(base), xs), Restart([]));
  }

  lemma SameIndexSameStanding(t: Db, u: Db, c: Cid)
    requires SameIndex(t, u)
    ensures StandingOf(t, c) == StandingOf(u, c)
  {
  }

  /** If a document ends in a record that is requeued, a crash at rest changes the settled index. */
  lemma CrashAtRestShows(env: Env, base: Db, n: nat, a: Cid, c: Cid)
    requires AtRest(base) && CrawlsDistinct(env) && CrawlsWithin(env, n)
    requires a !in base.archives && c in DocsOf(env, a) && Requeued(FateOf(env, base, c))
    ensures !Confluent(env, base)
  {
    var xs, t := SettleMember(env, base, n, a, c);
    CrashAtRest(env, base, 1, xs, t);
    RequeuedStanding(t, c);
    if SameIndex(t, RequeueTx(t)) {
      SameIndexSameStanding(t, RequeueTx(t), c);
    }
  }

  // ---- A crash on the way ----

  predicate MovesOnce(env: Env, c: Cid, st: Standing, next: Standing) {
    next == st || next == Attempt(env, c, st)
  }

  /** A step that is no crash leaves a standing alone or makes the next attempt. */
  lemma StandingMoves(env: Env, base: Db, workers: nat, s: Sys, step: Step, c: Cid)
    requires Inv(s) && Enabled(workers, s, step) && Calm(env, base, s, step) && !step.Restart?
    ensures MovesOnce(env, c, StandingOf(s.db, c), StandingOf(Do(workers, s, step).db, c))
  {
    if step.Commit? {
      CommitAttempts(env, s.db, s.phase.slots[step.slot].cid, step.rowid, c);
    } else {
      OtherStepsKeepRecords(workers, s, step);
    }
  }

  /** Along the run the standing of `c` changes only by attempts, one at a time. */
  ghost predicate OneAtATime(env: Env, workers: nat, s: Sys, steps: seq<Step>, c: Cid)
    requires CanRun(workers, s, steps)
    decreases |steps|
  {
    steps == [] || (
      var u := Do(workers, s, steps[0]);
      && MovesOnce(env, c, StandingOf(s.db, c), StandingOf(u.db, c))
      && OneAtATime(env, workers, u, steps[1..], c))
  }

  lemma {:induction false} InternalRunsAttempt(env: Env, base: Db, workers: nat, s: Sys, steps: seq<Step>, c: Cid)
    requires Inv(s) && CalmRun(env, base, workers, s, steps) && CanRun(workers, s, steps) && AllInternal(steps)
    ensures OneAtATime(env, workers, s, steps, c)
    decreases |steps|
  {
    if steps != [] {
      StandingMoves(env, base, workers, s, steps[0], c);
      StepKeepsInv(workers, s, steps[0]);
      InternalRunsAttempt(env, base, workers, Do(workers, s, steps[0]), steps[1..], c);
    }
  }

  lemma PrefixFrom(workers: nat, s: Sys, steps: seq<Step>, j: nat)
    requires steps != [] && Enabled(workers, s, steps[0]) && j < |steps|
    requires CanRun(workers, Do(workers, s, steps[0]), steps[1..][..j])
    ensures CanRun(workers, s, steps[..j + 1])
    ensures Run(workers, s, steps[..j + 1]) == Run(workers, Do(workers, s, steps[0]), steps[1..][..j])
  {
    assert steps[..j + 1][0] == steps[0] && steps[..j + 1][1..] == steps[1..][..j];
  }

  /** A run to a final standing passes through every record on the way. */
  lemma {:induction false} PassesThrough(env: Env, workers: nat, s: Sys, steps: seq<Step>, c: Cid, f: Failure)
    returns (k: nat)
    requires CanRun(workers, s, steps) && OneAtATime(env, workers, s, steps, c)
    requires OnTheWay(env, c, StandingOf(s.db, c), f) && Final(StandingOf(Run(workers, s, steps).db, c))
    ensures k <= |steps| && CanRun(workers, s, steps[..k])
    ensures StandingOf(Run(workers, s, steps[..k]).db, c) == Failing(f)
    decreases |steps|
  {
    var v := Do(workers, s, steps[0]);
    if StandingOf(v.db, c) == Failing(f) {
      PrefixFrom(workers, s, steps, 0);
      k := 1;
    } else {
      var j := PassesThrough(env, workers, v, steps[1..], c, f);
      PrefixFrom(workers, s, steps, j);
      k := j + 1;
    }
  }

  /** The starting store as it would be had the requeued CIDs never been tried. */
  function Forgetful(base: Db, t: Db): Db {
    var gone := t.failures.Keys - RequeueTx(t).failures.Keys;
    base.(documents := base.documents - gone, failures := base.failures - gone)
  }

  lemma ForgetfulStanding(base: Db, t: Db, c: Cid)
    requires Exclusion(t)
    ensures StandingOf(Forgetful(base, t), c) == if Requeued(StandingOf(t, c)) then Untried else StandingOf(base, c)
  {
  }

  /** A crash with one new archive unfinished is as if the requeued CIDs had never been tried. */
  lemma RequeueLeavesGood(env: Env, base: Db, t: Db, a: Cid)
    requires GoodDb(env, base, t) && t.archives.Keys == base.archives.Keys + {a} && a !in base.archives
    requires DocsOf(env, a) != [] && t.archives[a].status != Done
    ensures GoodDb(env, Forgetful(base, t), RequeueTx(t))
  {
    var anew, u := Forgetful(base, t), RequeueTx(t);
    Invariants.FewerFailuresKeepValid(t, u.failures);
    assert forall b :: Members(u, b) == Members(t, b) && Members(anew, b) == Members(base, b);
    RequeueLeavesFates(env, base, t);
    assert RowOk(env, anew, u, a) by {
      assert RowOk(env, base, t, a);
    }
  }

  lemma RequeueLeavesFates(env: Env, base: Db, t: Db)
    requires Exclusion(t) && FatesKept(env, base, t) && UntouchedKept(base, t)
    ensures FatesKept(env, Forgetful(base, t), RequeueTx(t)) && UntouchedKept(Forgetful(base, t), RequeueTx(t))
  {
    var anew, u := Forgetful(base, t), RequeueTx(t);
    forall c
      ensures FateOf(env, u, c) == FateOf(env, anew, c)
      ensures StandingOf(u, c) == StandingOf(anew, c) || Touched(anew, u, c)
    {
      RequeuedStanding(t, c);
      ForgetfulStanding(base, t, c);
      assert FateOf(env, t, c) == FateOf(env, base, c);
      if Touched(base, t, c) {
        var b :| IsNew(base, t, b) && c in Members(t, b);
        assert IsNew(anew, u, b) && c in Members(u, b);
      }
    }
  }

  /** An archive with an unsettled member is not done. */
  lemma UnsettledIsNotDone(env: Env, base: Db, t: Db, a: Cid, c: Cid)
    requires GoodDb(env, base, t) && IsNew(base, t, a) && c in DocsOf(env, a) && !Final(StandingOf(t, c))
    ensures t.archives[a].status != Done
  {
    assert RowOk(env, base, t, a);
  }

  lemma CrashForgets(env: Env, base: Db, n: nat, s: Sys, a: Cid, c: Cid, order: seq<Cid>)
    requires Good(env, base, s) && CrawlsWithin(env, n) && AtRest(base) && Enabled(1, s, Restart(order))
    requires s.db.archives.Keys == base.archives.Keys + {a} && a !in base.archives && c in DocsOf(env, a)
    requires !Final(StandingOf(s.db, c))
    ensures Bounded(env, Forgetful(base, s.db), n, Do(1, s, Restart(order)))
  {
    UnsettledIsNotDone(env, base, s.db, a, c);
    RequeueLeavesGood(env, base, s.db, a);
    RestartLeavesGood(env, base, Forgetful(base, s.db), 1, s, order);
  }

  lemma ForgetfulFate(env: Env, base: Db, t: Db, c: Cid)
    requires Exclusion(t) && Requeued(StandingOf(t, c))
    ensures FateOf(env, Forgetful(base, t), c) == Settle(env, c, NO_FAILURE)
  {
    ForgetfulStanding(base, t, c);
  }

  lemma CrashThenRun(env: Env, base: Db, anew: Db, s: Sys, order: seq<Cid>, rest: seq<Step>, u: Sys)
    requires Enabled(1, s, Restart(order)) && anew.archives == base.archives
    requires Leads(env, anew, 1, Do(1, s, Restart(order)), rest, u)
    ensures Leads(env, base, 1, s, [Restart(order)] + rest, u)
  {
    SameArchivesSameRuns(env, anew, base, 1, Do(1, s, Restart(order)), rest);
    OneStep(env, base, 1, s, Restart(order));
    Then(env, base, 1, s, [Restart(order)], Do(1, s, Restart(order)), rest, u);
  }

  lemma SettleFromCrash(env: Env, base: Db, anew: Db, n: nat, s: Sys, order: seq<Cid>, a: Cid, c: Cid)
    returns (rest: seq<Step>, u: Sys)
    requires Enabled(1, s, Restart(order)) && Bounded(env, anew, n, Do(1, s, Restart(order)))
    requires anew.archives == base.archives && CrawlsDistinct(env)
    requires IsNew(base, s.db, a) && c in DocsOf(env, a)
    ensures Leads(env, base, 1, s, [Restart(order)] + rest, u) && Quiescent(u)
    ensures u.db.archives.Keys == s.db.archives.Keys && StandingOf(u.db, c) == FateOf(env, anew, c)
  {
    rest, u := ToMember(env, anew, n, Do(1, s, Restart(order)), a, c);
    CrashThenRun(env, base, anew, s, order, rest, u);
  }

  /** Crashing while the record of `c` is requeued, and finishing: `c` ends where first attempts lead. */
  lemma CrashThenSettle(env: Env, base: Db, n: nat, s: Sys, a: Cid, c: Cid)
    returns (order: seq<Cid>, rest: seq<Step>, u: Sys)
    requires Bounded(env, base, n, s) && AtRest(base) && CrawlsDistinct(env)
    requires s.db.archives.Keys == base.archives.Keys + {a} && a !in base.archives && c in DocsOf(env, a)
    requires Requeued(StandingOf(s.db, c)) && !Final(StandingOf(s.db, c))
    ensures Leads(env, base, 1, s, [Restart(order)] + rest, u) && Quiescent(u)
    ensures u.db.archives.Keys == s.db.archives.Keys && StandingOf(u.db, c) == Settle(env, c, NO_FAILURE)
  {
    order := Listed(Resumable(s.db));
    assert Bounded(env, Forgetful(base, s.db), n, Do(1, s, Restart(order))) by {
      CrashForgets(env, base, n, s, a, c, order);
    }
    rest, u := SettleFromCrash(env, base, Forgetful(base, s.db), n, s, order, a, c);
    ForgetfulFate(env, base, s.db, c);
  }

  lemma {:induction false} Listed(S: set<Cid>) returns (order: seq<Cid>)
    ensures Distinct(order) && forall a :: a in order <==> a in S
    decreases S
  {
    if S == {} {
      order := [];
    } else {
      var a :| a in S;
      order := Listed(S - {a});
      order := order + [a];
    }
  }

  lemma SettleStepwise(env: Env, base: Db, n: nat, a: Cid, c: Cid) returns (rest: seq<Step>)
    requires AtRest(base) && CrawlsDistinct(env) && CrawlsWithin(env, n)
    requires a !in base.archives && c in DocsOf(env, a)
    ensures var s := Do(1, Start(base), Submit(a, ""));
            && CalmRun(env, base, 1, s, rest) && CanRun(1, s, rest) && AllInternal(rest)
            && OneAtATime(env, 1, s, rest, c) && Final(StandingOf(Run(1, s, rest).db, c))
  {
    var end;
    rest, end := SettleOneArchive(env, base, n, a);
    assert OneAtATime(env, 1, Do(1, Start(base), Submit(a, "")), rest, c) by {
      SubmittedIsBounded(env, base, n, a);
      InternalRunsAttempt(env, base, 1, Do(1, Start(base), Submit(a, "")), rest, c);
    }
    OutcomeOfMember(env, base, end.db, a, c);
    FateIsFinal(env, c, StandingOf(base, c));
  }

  /** The run that settles one archive, halted where the record of `c` is `f`. */
  lemma HaltAt(env: Env, base: Db, n: nat, a: Cid, c: Cid, f: Failure) returns (pre: seq<Step>, m: Sys)
    requires AtRest(base) && CrawlsDistinct(env) && CrawlsWithin(env, n)
    requires a !in base.archives && c in DocsOf(env, a) && OnTheWay(env, c, StandingOf(base, c), f)
    ensures Leads(env, base, 1, Do(1, Start(base), Submit(a, "")), pre, m) && AllInternal(pre)
    ensures StandingOf(m.db, c) == Failing(f)
  {
    var s := Do(1, Start(base), Submit(a, ""));
    var rest := SettleStepwise(env, base, n, a, c);
    assert StandingOf(s.db, c) == StandingOf(base, c);
    var k := PassesThrough(env, 1, s, rest, c, f);
    pre := rest[..k];
    Prefix(env, base, 1, s, rest, k);
    m := Run(1, s, pre);
  }

  lemma BoundedAfter(env: Env, base: Db, n: nat, a: Cid, pre: seq<Step>, m: Sys)
    requires AtRest(base) && CrawlsWithin(env, n) && a !in base.archives
    requires Leads(env, base, 1, Do(1, Start(base), Submit(a, "")), pre, m) && AllInternal(pre)
    ensures Bounded(env, base, n, m) && m.db.archives.Keys == base.archives.Keys + {a}
    ensures Leads(env, base, 1, Start(base), [Submit(a, "")] + pre, m)
  {
    var s := Do(1, Start(base), Submit(a, ""));
    SubmittedIsBounded(env, base, n, a);
    CalmRunKeepsBounded(env, base, n, 1, s, pre);
    InternalRunKeepsArchives(env, base, 1, s, pre, m);
    OneStep(env, base, 1, Start(base), Submit(a, ""));
    Then(env, base, 1, Start(base), [Submit(a, "")], s, pre, m);
  }

  lemma CrashAfter(env: Env, base: Db, n: nat, a: Cid, c: Cid, pre: seq<Step>, m: Sys) returns (ys: seq<Step>, t: Db)
    requires AtRest(base) && CrawlsDistinct(env) && CrawlsWithin(env, n)
    requires a !in base.archives && c in DocsOf(env, a)
    requires Leads(env, base, 1, Do(1, Start(base), Submit(a, "")), pre, m) && AllInternal(pre)
    requires Requeued(StandingOf(m.db, c)) && !Final(StandingOf(m.db, c))
    ensures SettlesTo(env, base, 1, ys, t)
    ensures t.archives.Keys == base.archives.Keys + {a} && StandingOf(t, c) == Settle(env, c, NO_FAILURE)
  {
    BoundedAfter(env, base, n, a, pre, m);
    var order, rest, u := CrashThenSettle(env, base, n, m, a, c);
    Then(env, base, 1, Start(base), [Submit(a, "")] + pre, m, [Restart(order)] + rest, u);
    ys, t := [Submit(a, "")] + pre + ([Restart(order)] + rest), u.db;
  }

  /** If a record on the way is requeued and first attempts end elsewhere, a crash there changes the settled index. */
  lemma CrashOnTheWayShows(env: Env, base: Db, n: nat, a: Cid, c: Cid, f: Failure)
    requires AtRest(base) && CrawlsDistinct(env) && CrawlsWithin(env, n)
    requires a !in base.archives && c in DocsOf(env, a)
    requires OnTheWay(env, c, StandingOf(base, c), f) && Requeued(Failing(f))
    requires f.count < MAX_RETRIES && Settle(env, c, f) != Settle(env, c, NO_FAILURE)
    ensures !Confluent(env, base)
  {
    var xs, t := SettleMember(env, base, n, a, c);
    var pre, m := HaltAt(env, base, n, a, c, f);
    var ys, u := CrashAfter(env, base, n, a, c, pre, m);
    OnTheWayShareFate(env, c, StandingOf(base, c), f);
    if SameIndex(t, u) {
      SameIndexSameStanding(t, u, c);
    }
  }
}
