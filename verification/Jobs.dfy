/**
 What the jobs of archives do to a store, said by the fates of its documents:
 whatever stage an archive was left at, by a crash, a failed crawl or a retry.
 */
module Jobs {
  import opened Schema
  import opened Protocol
  import opened Fates
  import opened Confluence
  import opened StoredProgress
  import Invariants

  // ---- One job ----

  /** The members `a` is indexed by: those listed already, or those a crawl finds. */
  function ListOf(env: Env, t: Db, a: Cid): seq<Cid> {
    if Members(t, a) != [] then Members(t, a) else DocsOf(env, a)
  }

  predicate CannotList(env: Env, t: Db, a: Cid) {
    Members(t, a) == [] && env.crawl(a).CrawlError?
  }

  function RowOf(t: Db, a: Cid): Archive {
    if a in t.archives then t.archives[a] else BLANK
  }

  /** The row a job makes of `row`. */
  ghost function RowFrom(env: Env, t: Db, a: Cid, row: Archive): Archive {
    if CannotList(env, t, a) then row.(status := Failed, error := env.crawl(a).reason)
    else
      var docs := ListOf(env, t, a);
      var n := TotalsOf(FatedBodies(env, t, docs), FatedFailures(env, t, docs), 0);
      row.(status := Done, docCount := |docs|, indexed := n.indexed, failed := n.failed,
           topKeywords := n.topKeywords, broadFields := n.broadFields, name := NameFor(a, row.name, n.broadFields))
  }

  /** From `t` to `u` the documents listed met their fates, and no other changed. */
  ghost predicate Settles(env: Env, t: Db, u: Db, docs: seq<Cid>) {
    forall c :: StandingOf(u, c) == if c in docs then FateOf(env, t, c) else StandingOf(t, c)
  }

  /** `u` is `t` after indexArchive on `a`, which is registered. */
  ghost predicate Reindexed(env: Env, t: Db, u: Db, a: Cid) {
    && Valid(u)
    && Settles(env, t, u, ListOf(env, t, a))
    && u.archives == t.archives[a := RowFrom(env, t, a, RowOf(t, a))]
    && forall b :: Members(u, b) == if b == a then ListOf(env, t, a) else Members(t, b)
  }

  lemma SettlesKeepsFates(env: Env, t: Db, u: Db, docs: seq<Cid>)
    requires Settles(env, t, u, docs) && Exclusion(t) && Exclusion(u)
    ensures forall c :: FateOf(env, u, c) == FateOf(env, t, c)
    ensures forall c :: c in Settled(t) || c in docs ==> c in Settled(u)
  {
    forall c
      ensures FateOf(env, u, c) == FateOf(env, t, c)
      ensures c in Settled(t) || c in docs ==> c in Settled(u)
    {
      FateIsFinal(env, c, StandingOf(t, c));
      SettledMeansFated(env, t, c);
      SettledMeansFated(env, u, c);
      assert StandingOf(u, c) == if c in docs then FateOf(env, t, c) else StandingOf(t, c);
    }
  }

  /** With every member settled, the totals read are those of the fates. */
  lemma FatedRow(env: Env, t: Db, u: Db, a: Cid, status: Status)
    requires a in t.archives && !CannotList(env, t, a) && Members(u, a) == ListOf(env, t, a)
    requires Settles(env, t, u, ListOf(env, t, a)) && Exclusion(t) && Exclusion(u)
    requires u.archives == t.archives[a := t.archives[a].(status := status, docCount := |ListOf(env, t, a)|)]
    ensures FinalizeTx(u, a, ReadTotals(u, a)).archives == t.archives[a := RowFrom(env, t, a, RowOf(t, a))]
  {
    SettlesKeepsFates(env, t, u, ListOf(env, t, a));
    SettledTotals(env, t, u, ListOf(env, t, a));
  }

  /** The last step of indexArchive, whatever status the row has by then. */
  lemma FinalizingReindexes(env: Env, t: Db, u: Db, a: Cid, status: Status)
    requires Valid(t) && Valid(u) && a in t.archives && !CannotList(env, t, a)
    requires Settles(env, t, u, ListOf(env, t, a))
    requires forall b :: Members(u, b) == if b == a then ListOf(env, t, a) else Members(t, b)
    requires u.archives == t.archives[a := t.archives[a].(status := status, docCount := |ListOf(env, t, a)|)]
    ensures Reindexed(env, t, FinalizeTx(u, a, ReadTotals(u, a)), a)
  {
    var v := FinalizeTx(u, a, ReadTotals(u, a));
    FatedRow(env, t, u, a, status);
    Invariants.FinalizeKeepsValid(u, a, ReadTotals(u, a));
    FinalizingKeepsRecords(u, a, ReadTotals(u, a));
    forall c
      ensures StandingOf(v, c) == if c in ListOf(env, t, a) then FateOf(env, t, c) else StandingOf(t, c)
    {
      assert StandingOf(v, c) == StandingOf(u, c);
    }
  }

  lemma FinalizingKeepsRecords(u: Db, a: Cid, n: Totals)
    ensures var v := FinalizeTx(u, a, n);
            && v.documents == u.documents && v.failures == u.failures && v.members == u.members
            && forall b :: Members(v, b) == Members(u, b)
  {
  }

  /** A failed crawl marks the row and leaves all else alone. */
  lemma FailingReindexes(env: Env, t: Db, a: Cid)
    requires Valid(t) && a in t.archives && CannotList(env, t, a)
    ensures Reindexed(env, t, FailedTx(CrawlingTx(t, a), a, env.crawl(a).reason), a)
  {
    var u := CrawlingTx(t, a);
    var v := FailedTx(u, a, env.crawl(a).reason);
    Invariants.CrawlingKeepsValid(t, a);
    Invariants.MarkFailedKeepsValid(u, a, env.crawl(a).reason);
    assert forall b :: Members(v, b) == Members(t, b);
    assert forall c :: StandingOf(v, c) == StandingOf(t, c);
  }

  /** The counters a job stores are those of its settled members. */
  lemma FatedCountsAreRight(env: Env, t: Db, u: Db, a: Cid)
    requires Valid(t) && a in t.archives && !CannotList(env, t, a) && Reindexed(env, t, u, a)
    ensures InStep(u, a) && MembersSettled(u, a) && u.archives[a].status == Done
  {
    var docs := ListOf(env, t, a);
    assert Members(u, a) == docs;
    SettlesKeepsFates(env, t, u, docs);
    SettledTotals(env, t, u, docs);
    Invariants.BodiesCount(u, docs);
  }

  lemma SettlesReopened(env: Env, t: Db, u: Db, docs: seq<Cid>)
    requires Exclusion(t) && Settles(env, t, u, docs)
    ensures forall c :: StandingOf(u, c) ==
              if c in docs && c !in Settled(t) then FateOf(env, t, c) else StandingOf(t, c)
  {
    forall c
      ensures StandingOf(u, c) == if c in docs && c !in Settled(t) then FateOf(env, t, c) else StandingOf(t, c)
    {
      SettledMeansFated(env, t, c);
    }
  }

  lemma RerunKeepsRow(env: Env, t: Db, u: Db, a: Cid)
    requires Counted(t) && a in t.archives && Members(t, a) != [] && Reindexed(env, t, u, a)
    ensures u.archives[a].owner == t.archives[a].owner && u.archives[a].docCount == t.archives[a].docCount
    ensures t.archives[a].name != "" ==> u.archives[a].name == t.archives[a].name
    ensures u.archives - {a} == t.archives - {a}
  {
  }

  /**
   Running a finalized archive again settles the members reopened since to their
   fates, puts its counters right, and leaves every other document, archive and
   member list alone.
   */
  lemma RerunSettlesReopened(env: Env, t: Db, u: Db, a: Cid)
    requires Valid(t) && a in t.archives && Members(t, a) != [] && Reindexed(env, t, u, a)
    ensures forall c :: StandingOf(u, c) ==
              if c in Members(t, a) && c !in Settled(t) then FateOf(env, t, c) else StandingOf(t, c)
    ensures InStep(u, a) && MembersSettled(u, a) && u.archives[a].status == Done
    ensures u.archives[a].owner == t.archives[a].owner && u.archives[a].docCount == t.archives[a].docCount
    ensures t.archives[a].name != "" ==> u.archives[a].name == t.archives[a].name
    ensures u.archives - {a} == t.archives - {a} && forall b :: Members(u, b) == Members(t, b)
  {
    FatedCountsAreRight(env, t, u, a);
    SettlesReopened(env, t, u, Members(t, a));
    RerunKeepsRow(env, t, u, a);
  }

  // ---- A queue of jobs ----

  predicate HasJobFor(jobs: seq<(Cid, string)>, a: Cid) {
    exists job :: job in jobs && job.0 == a
  }

  /** `c` is listed by an archive that has a job. */
  predicate Covered(env: Env, t: Db, jobs: seq<(Cid, string)>, c: Cid) {
    exists job :: job in jobs && c in ListOf(env, t, job.0)
  }

  /**
   `u` is `t` after `jobs`: the documents they list met their fates, the rows and
   lists of their archives are finished (owners aside), and nothing else changed.
   */
  ghost predicate Worked(env: Env, t: Db, u: Db, jobs: seq<(Cid, string)>) {
    && (forall c :: StandingOf(u, c) == if Covered(env, t, jobs, c) then FateOf(env, t, c) else StandingOf(t, c))
    && (forall a :: Members(u, a) == if HasJobFor(jobs, a) then ListOf(env, t, a) else Members(t, a))
    && (forall a :: RowWorked(env, t, u, jobs, a))
  }

  ghost predicate RowWorked(env: Env, t: Db, u: Db, jobs: seq<(Cid, string)>, a: Cid) {
    if HasJobFor(jobs, a) then
      a in u.archives && u.archives[a].(owner := "") == RowFrom(env, t, a, RowOf(t, a)).(owner := "")
    else
      (a in u.archives <==> a in t.archives) && RowOf(u, a) == RowOf(t, a)
  }

  lemma NoJobsWorked(env: Env, t: Db)
    ensures Worked(env, t, t, [])
  {
  }

  lemma WorkedKeepsFates(env: Env, t: Db, u: Db, jobs: seq<(Cid, string)>, c: Cid)
    requires Worked(env, t, u, jobs)
    ensures FateOf(env, u, c) == FateOf(env, t, c)
  {
    FateIsFinal(env, c, StandingOf(t, c));
    assert StandingOf(u, c) == if Covered(env, t, jobs, c) then FateOf(env, t, c) else StandingOf(t, c);
  }

  lemma WorkedKeepsLists(env: Env, t: Db, u: Db, jobs: seq<(Cid, string)>, a: Cid)
    requires Worked(env, t, u, jobs)
    ensures ListOf(env, u, a) == ListOf(env, t, a)
    ensures CannotList(env, u, a) <==> CannotList(env, t, a)
  {
    assert Members(u, a) == if HasJobFor(jobs, a) then ListOf(env, t, a) else Members(t, a);
  }

  /** A row made once is made again, whatever owner it was given meanwhile. */
  lemma RowTwice(env: Env, t: Db, u: Db, a: Cid, row: Archive, owner: string)
    requires forall c :: FateOf(env, u, c) == FateOf(env, t, c)
    requires ListOf(env, u, a) == ListOf(env, t, a) && (CannotList(env, u, a) <==> CannotList(env, t, a))
    ensures RowFrom(env, u, a, row.(owner := owner)).(owner := "") == RowFrom(env, t, a, row).(owner := "")
    ensures RowFrom(env, u, a, RowFrom(env, t, a, row).(owner := owner)).(owner := "")
         == RowFrom(env, t, a, row).(owner := "")
  {
    FatedTotalsSame(env, u, t, ListOf(env, t, a));
  }

  lemma OneMoreRow(env: Env, t: Db, u: Db, jobs: seq<(Cid, string)>, a: Cid, owner: string)
    requires Worked(env, t, u, jobs)
    ensures var w := AddArchiveTx(u, a, owner);
            RowFrom(env, w, a, RowOf(w, a)).(owner := "") == RowFrom(env, t, a, RowOf(t, a)).(owner := "")
  {
    var w := AddArchiveTx(u, a, owner);
    RegisteringKeeps(u, a, owner);
    WorkedKeepsLists(env, t, u, jobs, a);
    forall c
      ensures FateOf(env, w, c) == FateOf(env, t, c)
    {
      WorkedKeepsFates(env, t, u, jobs, c);
    }
    assert RowWorked(env, t, u, jobs, a);
    assert RowOf(w, a) == RowOf(u, a).(owner := RowOf(w, a).owner);
    var row := RowFrom(env, t, a, RowOf(t, a));
    RowTwice(env, t, w, a, RowOf(t, a), RowOf(w, a).owner);
    if HasJobFor(jobs, a) {
      assert RowOf(w, a) == row.(owner := RowOf(w, a).owner) by {
        assert RowOf(u, a).(owner := "").(owner := RowOf(w, a).owner) == row.(owner := "").(owner := RowOf(w, a).owner);
      }
    }
  }

  lemma RegisteringKeeps(u: Db, a: Cid, owner: string)
    ensures var w := AddArchiveTx(u, a, owner);
            && (forall c :: StandingOf(w, c) == StandingOf(u, c))
            && (forall b :: Members(w, b) == Members(u, b))
            && w.archives.Keys == u.archives.Keys + {a}
            && (forall b :: b in u.archives && b != a ==> w.archives[b] == u.archives[b])
            && RowOf(w, a).(owner := "") == RowOf(u, a).(owner := "")
  {
  }

  lemma OneMoreRowWorked(
      env: Env, t: Db, u: Db, v: Db, jobs: seq<(Cid, string)>, job: (Cid, string), owner: string, b: Cid)
    requires Worked(env, t, u, jobs) && Reindexed(env, AddArchiveTx(u, job.0, owner), v, job.0)
    ensures RowWorked(env, t, v, jobs + [job], b)
  {
    RegisteringKeeps(u, job.0, owner);
    assert RowWorked(env, t, u, jobs, b);
    HasOneMore(jobs, job, b);
    if b == job.0 {
      OneMoreRow(env, t, u, jobs, b, owner);
    }
  }

  lemma HasOneMore(jobs: seq<(Cid, string)>, job: (Cid, string), a: Cid)
    ensures HasJobFor(jobs + [job], a) <==> HasJobFor(jobs, a) || job.0 == a
  {
    assert job in jobs + [job];
  }

  lemma CoversOneMore(env: Env, t: Db, jobs: seq<(Cid, string)>, job: (Cid, string), c: Cid)
    ensures Covered(env, t, jobs + [job], c) <==> Covered(env, t, jobs, c) || c in ListOf(env, t, job.0)
  {
    assert job in jobs + [job];
  }

  /** Jobs compose: one more on top of `jobs`. */
  lemma WorkedOneMore(env: Env, t: Db, u: Db, v: Db, jobs: seq<(Cid, string)>, job: (Cid, string), owner: string)
    requires Worked(env, t, u, jobs) && Reindexed(env, AddArchiveTx(u, job.0, owner), v, job.0)
    ensures Worked(env, t, v, jobs + [job])
  {
    var w := AddArchiveTx(u, job.0, owner);
    RegisteringKeeps(u, job.0, owner);
    WorkedKeepsLists(env, t, u, jobs, job.0);
    forall c
      ensures StandingOf(v, c) == if Covered(env, t, jobs + [job], c) then FateOf(env, t, c) else StandingOf(t, c)
    {
      CoversOneMore(env, t, jobs, job, c);
      WorkedKeepsFates(env, t, u, jobs, c);
      assert StandingOf(v, c) == if c in ListOf(env, w, job.0) then FateOf(env, w, c) else StandingOf(w, c);
    }
    forall b
      ensures Members(v, b) == if HasJobFor(jobs + [job], b) then ListOf(env, t, b) else Members(t, b)
      ensures RowWorked(env, t, v, jobs + [job], b)
    {
      HasOneMore(jobs, job, b);
      OneMoreRowWorked(env, t, u, v, jobs, job, owner, b);
    }
  }

  // ---- Against the concurrent system ----

  /** Since `base`, every archive submitted and unfinished has a job, and nothing else happened to the store. */
  ghost predicate Ready(env: Env, base: Db, t: Db, jobs: seq<(Cid, string)>) {
    && GoodDb(env, base, t)
    && (forall job :: job in jobs ==> IsNew(base, t, job.0))
    && (forall a :: IsNew(base, t, a) && a in Resumable(t) ==> HasJobFor(jobs, a))
  }

  /** A store nothing has been submitted to is ready. */
  lemma RestIsReady(env: Env, base: Db)
    requires Valid(base)
    ensures Ready(env, base, base, [])
  {
    StartIsGood(env, base);
  }

  lemma EnqueueKeepsReady(env: Env, base: Db, t: Db, jobs: seq<(Cid, string)>, job: (Cid, string), owner: string)
    requires Ready(env, base, t, jobs) && job.0 !in base.archives
    ensures Ready(env, base, AddArchiveTx(t, job.0, owner), jobs + [job])
  {
    var u := AddArchiveTx(t, job.0, owner);
    assert GoodDb(env, base, u) by {
      AddArchiveKeepsGood(env, base, t, job.0, owner);
    }
    RegisteringKeeps(t, job.0, owner);
    forall a | IsNew(base, u, a) && a in Resumable(u)
      ensures HasJobFor(jobs + [job], a)
    {
      HasOneMore(jobs, job, a);
      if a != job.0 {
        assert IsNew(base, t, a) && a in Resumable(t);
      }
    }
  }

  /** After a crash anywhere, where the requeue is harmless, start-up is ready to go on. */
  lemma StartUpIsReady(env: Env, base: Db, t: Db, jobs: seq<(Cid, string)>)
    requires AtRest(base) && GoodDb(env, base, t) && Safe(env, base, t)
    requires forall job :: job in jobs ==> job.0 in Resumable(t)
    requires forall a :: a in Resumable(t) ==> HasJobFor(jobs, a)
    ensures Ready(env, base, RequeueTx(t), jobs)
  {
    RequeueKeepsGood(env, base, t);
    forall job | job in jobs
      ensures IsNew(base, RequeueTx(t), job.0)
    {
      ResumableIsNew(base, t, job.0);
    }
  }

  lemma GoodListIsCrawl(env: Env, base: Db, t: Db, a: Cid)
    requires GoodDb(env, base, t) && IsNew(base, t, a)
    ensures ListOf(env, t, a) == DocsOf(env, a) && (CannotList(env, t, a) <==> env.crawl(a).CrawlError?)
  {
    assert RowOk(env, base, t, a);
  }

  lemma WorkedRowIsExpected(env: Env, base: Db, t: Db, u: Db, jobs: seq<(Cid, string)>, a: Cid)
    requires Ready(env, base, t, jobs) && Worked(env, t, u, jobs) && IsNew(base, u, a)
    ensures u.archives[a].(owner := "") == ExpectedRow(env, base, a) && Members(u, a) == DocsOf(env, a)
    ensures !HasJobFor(jobs, a) ==> AllSettled(t, DocsOf(env, a))
  {
    assert RowWorked(env, t, u, jobs, a);
    assert Members(u, a) == if HasJobFor(jobs, a) then ListOf(env, t, a) else Members(t, a);
    assert IsNew(base, t, a);
    assert RowOk(env, base, t, a);
    GoodListIsCrawl(env, base, t, a);
    FatedTotalsSame(env, base, t, DocsOf(env, a));
    assert !HasJobFor(jobs, a) ==> a !in Resumable(t);
  }

  lemma WorkedStandings(env: Env, base: Db, t: Db, u: Db, jobs: seq<(Cid, string)>, c: Cid)
    requires Ready(env, base, t, jobs) && Worked(env, t, u, jobs)
    ensures StandingOf(u, c) == if Claimed(env, base, u, c) then FateOf(env, base, c) else StandingOf(base, c)
  {
    assert FateOf(env, t, c) == FateOf(env, base, c);
    if Claimed(env, base, u, c) {
      var a :| IsNew(base, u, a) && c in DocsOf(env, a);
      WorkedRowIsExpected(env, base, t, u, jobs, a);
      assert RowWorked(env, t, u, jobs, a);
      GoodListIsCrawl(env, base, t, a);
      if HasJobFor(jobs, a) {
        var job :| job in jobs && job.0 == a;
        assert Covered(env, t, jobs, c);
      } else {
        SettledMeansFated(env, t, c);
      }
    } else {
      if Covered(env, t, jobs, c) {
        var job :| job in jobs && c in ListOf(env, t, job.0);
        GoodListIsCrawl(env, base, t, job.0);
        assert RowWorked(env, t, u, jobs, job.0);
        assert IsNew(base, u, job.0);
      }
      if Touched(base, t, c) {
        var a :| IsNew(base, t, a) && c in Members(t, a);
        assert RowWorked(env, t, u, jobs, a);
        assert RowOk(env, base, t, a);
        assert IsNew(base, u, a);
      }
    }
  }

  /** Working off the jobs of a store that is ready gives the outcome every settled run has. */
  lemma WorkedIsOutcome(env: Env, base: Db, t: Db, u: Db, jobs: seq<(Cid, string)>)
    requires Ready(env, base, t, jobs) && Worked(env, t, u, jobs) && Valid(u)
    ensures IsOutcome(env, base, u)
  {
    forall a | a in base.archives
      ensures a in u.archives && u.archives[a] == base.archives[a] && Members(u, a) == Members(base, a)
    {
      assert !HasJobFor(jobs, a);
      assert RowWorked(env, t, u, jobs, a);
    }
    forall a | IsNew(base, u, a)
      ensures u.archives[a].(owner := "") == ExpectedRow(env, base, a) && Members(u, a) == DocsOf(env, a)
    {
      WorkedRowIsExpected(env, base, t, u, jobs, a);
    }
    forall c
      ensures StandingOf(u, c) == if Claimed(env, base, u, c) then FateOf(env, base, c) else StandingOf(base, c)
    {
      WorkedStandings(env, base, t, u, jobs, c);
    }
  }

  /** And so the index of every settled run with the same archives, crashes included where the requeue is harmless. */
  lemma WorkedMatchesRuns(
      env: Env, base: Db, t: Db, u: Db, jobs: seq<(Cid, string)>, workers: nat, steps: seq<Step>, v: Db)
    requires Valid(base) && Ready(env, base, t, jobs) && Worked(env, t, u, jobs) && Valid(u)
    requires SettlesTo(env, base, workers, steps, v) && v.archives.Keys == u.archives.Keys
    requires Uninterrupted(steps) || (AtRest(base) && RequeueHarmless(env, base))
    ensures SameIndex(v, u)
  {
    WorkedIsOutcome(env, base, t, u, jobs);
    SettledRunIsOutcome(env, base, workers, steps, v);
    OutcomeIsUnique(env, base, v, u);
  }
}
