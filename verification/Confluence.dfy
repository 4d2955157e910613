/**
 Crash and schedule confluence: from a store at rest, every run that settles the
 archives submitted to it ends in the same index, whatever the interleaving of
 workers and wherever the process was killed and restarted.
 */
module Confluence {
  import opened Schema
  import opened Seqs
  import opened Protocol
  import opened Fates
  import Invariants
  import Text

  /** Crawls list no document twice. */
  ghost predicate CrawlsDistinct(env: Env) {
    forall a :: Distinct(DocsOf(env, a))
  }

  /** A store at rest, started up: no archive unfinished, no failure start-up would requeue. */
  ghost predicate AtRest(base: Db) {
    && Valid(base)
    && RequeueTx(base) == base
    && Resumable(base) == {}
  }

  /** A document of some archive that `base` does not hold. */
  ghost predicate Archivable(env: Env, base: Db, c: Cid) {
    exists a :: a !in base.archives && c in DocsOf(env, a)
  }

  /** Whatever new archives are submitted, start-up's requeue changes no fate. */
  ghost predicate RequeueHarmless(env: Env, base: Db) {
    forall c :: Archivable(env, base, c) ==> Harmless(env, c, StandingOf(base, c))
  }

  /** The same from `t` on, with the records `t` holds already. */
  ghost predicate Safe(env: Env, base: Db, t: Db) {
    forall c :: Archivable(env, base, c) ==>
      Withstands(env, c, StandingOf(t, c)) && Harmless(env, c, StandingOf(t, c))
  }

  ghost predicate AllSettled(t: Db, docs: seq<Cid>) {
    forall c :: c in docs ==> c in Settled(t)
  }

  /** The row of a new archive, at any stage. */
  ghost predicate RowOk(env: Env, base: Db, t: Db, a: Cid)
    requires a in t.archives
  {
    var row := t.archives[a];
    match env.crawl(a)
    case CrawlError(e) =>
      && Members(t, a) == []
      && row.status in {Queued, Crawling, Failed}
      && row.(owner := "", status := Queued, error := "") == BLANK
      && (row.status == Failed ==> row.error == e)
    case Found(docs) =>
      && row.error == ""
      && row.status != Failed
      && (row.name == "" || (row.name == ExpectedRow(env, base, a).name && (row.status == Done || docs == [])))
      && (Members(t, a) == [] || Members(t, a) == docs)
      && (row.status == Done ==>
            && row.(owner := "") == ExpectedRow(env, base, a)
            && Members(t, a) == docs
            && AllSettled(t, docs))
  }

  ghost predicate Touched(base: Db, t: Db, c: Cid) {
    exists a :: IsNew(base, t, a) && c in Members(t, a)
  }

  ghost predicate OldArchivesKept(base: Db, t: Db) {
    forall a :: a in base.archives ==>
      a in t.archives && t.archives[a] == base.archives[a] && Members(t, a) == Members(base, a)
  }

  ghost predicate FatesKept(env: Env, base: Db, t: Db) {
    forall c :: FateOf(env, t, c) == FateOf(env, base, c)
  }

  ghost predicate UntouchedKept(base: Db, t: Db) {
    forall c :: StandingOf(t, c) == StandingOf(base, c) || Touched(base, t, c)
  }

  ghost predicate RowsOk(env: Env, base: Db, t: Db) {
    forall a :: IsNew(base, t, a) ==> RowOk(env, base, t, a)
  }

  ghost predicate GoodDb(env: Env, base: Db, t: Db) {
    && Valid(t)
    && FatesKept(env, base, t)
    && UntouchedKept(base, t)
    && OldArchivesKept(base, t)
    && RowsOk(env, base, t)
  }

  // ---- Transactions ----

  /** Documents and failures alone decide standings. */
  lemma SameRecords(env: Env, base: Db, t: Db, u: Db)
    requires FatesKept(env, base, t)
    requires u.documents == t.documents && u.failures == t.failures
    ensures FatesKept(env, base, u) && Settled(u) == Settled(t)
    ensures forall c :: StandingOf(u, c) == StandingOf(t, c)
  {
    forall c
      ensures StandingOf(u, c) == StandingOf(t, c)
      ensures FateOf(env, u, c) == FateOf(env, base, c)
    {
      assert FateOf(env, t, c) == FateOf(env, base, c);
    }
  }

  /** Rewriting one new archive's row (and nothing else) keeps the store good if the row is. */
  lemma RowUpdateKeepsGood(env: Env, base: Db, t: Db, a: Cid, row: Archive)
    requires GoodDb(env, base, t) && a !in base.archives
    requires var u := t.(archives := t.archives[a := row]); Valid(u) && RowOk(env, base, u, a)
    ensures GoodDb(env, base, t.(archives := t.archives[a := row]))
  {
    var u := t.(archives := t.archives[a := row]);
    SameRecords(env, base, t, u);
    forall b | IsNew(base, u, b)
      ensures RowOk(env, base, u, b)
    {
      if b != a {
        assert IsNew(base, t, b) && Members(u, b) == Members(t, b);
      }
    }
    forall c
      ensures StandingOf(u, c) == StandingOf(base, c) || Touched(base, u, c)
    {
      if Touched(base, t, c) {
        var b :| IsNew(base, t, b) && c in Members(t, b);
        assert IsNew(base, u, b) && c in Members(u, b);
      }
    }
    forall b | b in base.archives
      ensures b in u.archives && u.archives[b] == base.archives[b] && Members(u, b) == Members(base, b)
    {
      assert Members(u, b) == Members(t, b);
    }
  }

  lemma OwnerChangeKeepsRow(env: Env, base: Db, t: Db, a: Cid, owner: string)
    requires a in t.archives && RowOk(env, base, t, a)
    ensures RowOk(env, base, t.(archives := t.archives[a := t.archives[a].(owner := owner)]), a)
  {
    var u := t.(archives := t.archives[a := t.archives[a].(owner := owner)]);
    assert u.archives[a].(owner := "") == t.archives[a].(owner := "");
    assert Members(u, a) == Members(t, a) && Settled(u) == Settled(t);
  }

  lemma BlankRowIsOk(env: Env, base: Db, t: Db, a: Cid, owner: string)
    requires Members(t, a) == []
    ensures RowOk(env, base, t.(archives := t.archives[a := BLANK.(owner := owner)]), a)
  {
    assert Members(t.(archives := t.archives[a := BLANK.(owner := owner)]), a) == [];
  }

  lemma AddArchiveKeepsGood(env: Env, base: Db, t: Db, a: Cid, owner: string)
    requires GoodDb(env, base, t) && a !in base.archives
    ensures GoodDb(env, base, AddArchiveTx(t, a, owner))
    ensures IsNew(base, AddArchiveTx(t, a, owner), a)
  {
    if a !in t.archives {
      assert Members(t, a) == [];
      BlankRowIsOk(env, base, t, a, owner);
      Invariants.RowWriteKeepsValid(t, a, BLANK.(owner := owner));
      RowUpdateKeepsGood(env, base, t, a, BLANK.(owner := owner));
    } else if owner != "" {
      assert IsNew(base, t, a);
      OwnerChangeKeepsRow(env, base, t, a, owner);
      Invariants.RowWriteKeepsValid(t, a, t.archives[a].(owner := owner));
      RowUpdateKeepsGood(env, base, t, a, t.archives[a].(owner := owner));
    }
  }

  lemma CrawlingKeepsGood(env: Env, base: Db, t: Db, a: Cid)
    requires GoodDb(env, base, t) && IsNew(base, t, a) && Members(t, a) == []
    ensures GoodDb(env, base, CrawlingTx(t, a))
  {
    var u := CrawlingTx(t, a);
    Invariants.CrawlingKeepsValid(t, a);
    assert Members(u, a) == Members(t, a);
    assert RowOk(env, base, t, a);
    RowUpdateKeepsGood(env, base, t, a, u.archives[a]);
  }

  lemma MarkFailedKeepsGood(env: Env, base: Db, t: Db, a: Cid, reason: string)
    requires GoodDb(env, base, t) && IsNew(base, t, a) && env.crawl(a) == CrawlError(reason)
    ensures GoodDb(env, base, FailedTx(t, a, reason))
  {
    var u := FailedTx(t, a, reason);
    Invariants.MarkFailedKeepsValid(t, a, reason);
    assert Members(u, a) == Members(t, a);
    assert RowOk(env, base, t, a);
    RowUpdateKeepsGood(env, base, t, a, u.archives[a]);
  }

  /** Listing the members of one archive leaves the other archives and the touched documents alone. */
  lemma SetDocsSparesOthers(env: Env, base: Db, t: Db, a: Cid, docs: seq<Cid>)
    requires UntouchedKept(base, t) && OldArchivesKept(base, t) && RowsOk(env, base, t)
    requires IsNew(base, t, a) && Members(t, a) == []
    ensures var u := SetDocsTx(t, a, docs);
            && OldArchivesKept(base, u)
            && UntouchedKept(base, u)
            && (forall b :: IsNew(base, u, b) && b != a ==> RowOk(env, base, u, b))
  {
    var u := SetDocsTx(t, a, docs);
    forall b | b != a
      ensures Members(u, b) == Members(t, b)
      ensures IsNew(base, u, b) ==> RowOk(env, base, u, b)
    {
      assert IsNew(base, u, b) ==> IsNew(base, t, b) && RowOk(env, base, t, b);
      assert Settled(u) == Settled(t);
    }
    forall c
      ensures StandingOf(u, c) == StandingOf(base, c) || Touched(base, u, c)
    {
      assert StandingOf(u, c) == StandingOf(t, c);
      if Touched(base, t, c) {
        var b :| IsNew(base, t, b) && c in Members(t, b);
        assert IsNew(base, u, b) && c in Members(u, b);
      }
    }
  }

  lemma SetDocsKeepsGood(env: Env, base: Db, t: Db, a: Cid, docs: seq<Cid>)
    requires GoodDb(env, base, t) && IsNew(base, t, a) && Members(t, a) == []
    requires env.crawl(a) == Found(docs) && Distinct(docs)
    ensures GoodDb(env, base, SetDocsTx(t, a, docs))
    ensures Members(SetDocsTx(t, a, docs), a) == docs
  {
    var u := SetDocsTx(t, a, docs);
    DedupMembers(docs);
    assert Valid(u) by {
      Invariants.SetDocsKeepsCountedIff(t, a, docs);
    }
    SameRecords(env, base, t, u);
    SetDocsSparesOthers(env, base, t, a, docs);
    assert RowOk(env, base, u, a) by {
      assert RowOk(env, base, t, a);
    }
  }

  lemma FinalizeKeepsGood(env: Env, base: Db, t: Db, a: Cid, docs: seq<Cid>)
    requires GoodDb(env, base, t) && IsNew(base, t, a)
    requires env.crawl(a) == Found(docs) && Members(t, a) == docs && AllSettled(t, docs)
    ensures GoodDb(env, base, FinalizeTx(t, a, ReadTotals(t, a)))
    ensures FinalizeTx(t, a, ReadTotals(t, a)).archives[a].status == Done
  {
    var n := ReadTotals(t, a);
    var u := FinalizeTx(t, a, n);
    Invariants.FinalizeKeepsValid(t, a, n);
    SettledTotals(env, base, t, docs);
    assert Members(u, a) == docs;
    assert RowOk(env, base, t, a);
    SameRecords(env, base, t, u);
    assert u.archives[a].(owner := "") == ExpectedRow(env, base, a);
    RowUpdateKeepsGood(env, base, t, a, u.archives[a]);
  }

  /** A transaction on documents and failures that only settles members of new archives. */
  lemma RecordsUpdateKeepsGood(env: Env, base: Db, t: Db, u: Db)
    requires GoodDb(env, base, t) && Valid(u)
    requires u.archives == t.archives && u.members == t.members
    requires FatesKept(env, t, u)
    requires forall c :: StandingOf(u, c) == StandingOf(t, c) || Touched(base, t, c)
    requires forall c :: c in Settled(t) ==> c in Settled(u)
    ensures GoodDb(env, base, u)
  {
    assert forall b :: Members(u, b) == Members(t, b);
    assert forall b :: IsNew(base, u, b) == IsNew(base, t, b);
    forall b | IsNew(base, u, b)
      ensures RowOk(env, base, u, b)
    {
      assert RowOk(env, base, t, b);
    }
    forall c
      ensures StandingOf(u, c) == StandingOf(base, c) || Touched(base, u, c)
      ensures FateOf(env, u, c) == FateOf(env, base, c)
    {
      assert FateOf(env, u, c) == FateOf(env, t, c);
      if Touched(base, t, c) {
        var b :| IsNew(base, t, b) && c in Members(t, b);
        assert IsNew(base, u, b) && c in Members(u, b);
      }
    }
  }

  lemma CommitMovesNobody(env: Env, base: Db, t: Db, c: Cid, rowid: nat)
    requires Exclusion(t) && Touched(base, t, c) && c !in Settled(t)
    ensures var u := Record(t, c, env.outcome(c, FailureCount(t, c)), rowid);
            && FatesKept(env, t, u)
            && (forall d :: StandingOf(u, d) == StandingOf(t, d) || Touched(base, t, d))
            && (forall d :: d in Settled(t) ==> d in Settled(u))
  {
    var o := env.outcome(c, FailureCount(t, c));
    var u := Record(t, c, o, rowid);
    forall d
      ensures FateOf(env, u, d) == FateOf(env, t, d)
      ensures d in Settled(t) ==> d in Settled(u)
    {
      RecordConservesFate(env, t, c, rowid, d);
    }
    forall d | d != c
      ensures StandingOf(u, d) == StandingOf(t, d)
    {
      RecordSparesOthers(t, c, o, rowid, d);
    }
  }

  lemma RecordKeepsArchives(t: Db, c: Cid, o: Outcome, rowid: nat)
    ensures Record(t, c, o, rowid).archives == t.archives
    ensures Record(t, c, o, rowid).members == t.members
  {
  }

  lemma CommitKeepsGood(env: Env, base: Db, t: Db, c: Cid, rowid: nat)
    requires GoodDb(env, base, t) && Touched(base, t, c)
    requires c !in Settled(t) && FreshRowid(t, c, rowid)
    ensures GoodDb(env, base, Record(t, c, env.outcome(c, FailureCount(t, c)), rowid))
  {
    var o := env.outcome(c, FailureCount(t, c));
    RecordKeepsValid(t, c, o, rowid);
    RecordKeepsArchives(t, c, o, rowid);
    CommitMovesNobody(env, base, t, c, rowid);
    RecordsUpdateKeepsGood(env, base, t, Record(t, c, o, rowid));
  }

  lemma TouchedIsArchivable(env: Env, base: Db, t: Db, c: Cid)
    requires RowsOk(env, base, t) && Touched(base, t, c)
    ensures Archivable(env, base, c)
  {
    var a :| IsNew(base, t, a) && c in Members(t, a);
    assert RowOk(env, base, t, a);
    assert a !in base.archives && c in DocsOf(env, a);
  }

  lemma RequeueIdle(t: Db, c: Cid)
    requires RequeueTx(t) == t && c in t.failures
    ensures !Text.MentionsRateLimit(t.failures[c].reason)
  {
    assert c in RequeueTx(t).failures;
  }

  lemma RequeuedStanding(t: Db, c: Cid)
    requires Exclusion(t)
    ensures StandingOf(RequeueTx(t), c) == if Requeued(StandingOf(t, c)) then Untried else StandingOf(t, c)
  {
  }

  /** A record start-up requeues belongs to an unsettled CID that a new archive has touched. */
  lemma RequeueSpares(env: Env, base: Db, t: Db, c: Cid)
    requires Exclusion(t) && Safe(env, base, t) && UntouchedKept(base, t) && RowsOk(env, base, t)
    requires RequeueTx(base) == base
    ensures FateOf(env, RequeueTx(t), c) == FateOf(env, t, c)
    ensures StandingOf(RequeueTx(t), c) == StandingOf(t, c) || Touched(base, t, c)
    ensures c in Settled(RequeueTx(t)) <==> c in Settled(t)
  {
    RequeuedStanding(t, c);
    if Requeued(StandingOf(t, c)) {
      if StandingOf(t, c) == StandingOf(base, c) {
        RequeueIdle(base, c);
      } else {
        TouchedIsArchivable(env, base, t, c);
      }
    }
  }

  /** Start-up's requeue undoes no settlement and moves no CID off its way. */
  lemma RequeueKeepsGood(env: Env, base: Db, t: Db)
    requires GoodDb(env, base, t) && Safe(env, base, t) && RequeueTx(base) == base
    ensures GoodDb(env, base, RequeueTx(t))
    ensures Settled(RequeueTx(t)) == Settled(t)
  {
    var u := RequeueTx(t);
    Invariants.FewerFailuresKeepValid(t, u.failures);
    forall c
      ensures FateOf(env, u, c) == FateOf(env, t, c)
      ensures StandingOf(u, c) == StandingOf(t, c) || Touched(base, t, c)
      ensures c in Settled(t) <==> c in Settled(u)
    {
      RequeueSpares(env, base, t, c);
    }
    RecordsUpdateKeepsGood(env, base, t, u);
  }

  lemma RequeueKeepsSafe(env: Env, base: Db, t: Db)
    requires Exclusion(t) && Safe(env, base, t)
    ensures Safe(env, base, RequeueTx(t))
  {
    forall c | Archivable(env, base, c)
      ensures Withstands(env, c, StandingOf(RequeueTx(t), c)) && Harmless(env, c, StandingOf(RequeueTx(t), c))
    {
      RequeuedStanding(t, c);
      if Requeued(StandingOf(t, c)) {
        RequeueStaysHarmless(env, c, StandingOf(t, c));
      }
    }
  }

  /** Committing the oracle's outcome is one attempt on its CID. */
  lemma CommitAttempts(env: Env, t: Db, c: Cid, rowid: nat, d: Cid)
    requires Exclusion(t) && c !in Settled(t)
    ensures var u := Record(t, c, env.outcome(c, FailureCount(t, c)), rowid);
            StandingOf(u, d) == if d == c then Attempt(env, c, StandingOf(t, c)) else StandingOf(t, d)
  {
    var o := env.outcome(c, FailureCount(t, c));
    if d == c {
      RecordedStanding(t, c, o, rowid);
    } else {
      RecordSparesOthers(t, c, o, rowid, d);
    }
  }

  lemma CommitKeepsSafe(env: Env, base: Db, t: Db, c: Cid, rowid: nat)
    requires Exclusion(t) && Safe(env, base, t) && c !in Settled(t)
    ensures Safe(env, base, Record(t, c, env.outcome(c, FailureCount(t, c)), rowid))
  {
    forall d
      ensures var u := Record(t, c, env.outcome(c, FailureCount(t, c)), rowid);
              StandingOf(u, d) == if d == c then Attempt(env, c, StandingOf(t, c)) else StandingOf(t, d)
    {
      CommitAttempts(env, t, c, rowid, d);
    }
    assert !Final(StandingOf(t, c));
  }

  /** A store at rest is safe if and only if the requeue is harmless from there on. */
  lemma RestIsSafe(env: Env, base: Db)
    requires AtRest(base) && RequeueHarmless(env, base)
    ensures Safe(env, base, base)
  {
    forall c | Archivable(env, base, c)
      ensures Withstands(env, c, StandingOf(base, c))
    {
      if Requeued(StandingOf(base, c)) {
        RequeueIdle(base, c);
      }
    }
  }

  // ---- The system ----

  /** Steps of the experiment: new archives, obedient oracles, no admin, a key configured. */
  ghost predicate Calm(env: Env, base: Db, s: Sys, step: Step) {
    match step
    case Submit(a, _) => a !in base.archives
    case SubmitDocs(_) => false
    case NoKey => false
    case CrawlFails(reason) => s.phase.Fetching? && env.crawl(s.phase.archive) == CrawlError(reason)
    case Persist(docs) => s.phase.Fetching? && env.crawl(s.phase.archive) == Found(docs)
    case Commit(i, o, _) =>
      && InRound(s, i, Busy)
      && o == env.outcome(s.phase.slots[i].cid, FailureCount(s.db, s.phase.slots[i].cid))
    case _ => !Admin(step)
  }

  predicate NewJob(base: Db, t: Db, job: Job) {
    job.ArchiveJob? && IsNew(base, t, job.archive)
  }

  /** The list being worked on is the archive's persisted crawl. */
  ghost predicate WorksOn(env: Env, base: Db, t: Db, target: Target, docs: seq<Cid>) {
    && target.Whole?
    && IsNew(base, t, target.archive)
    && Members(t, target.archive) == docs
    && env.crawl(target.archive) == Found(docs)
  }

  ghost predicate SlotsWithin(docs: seq<Cid>, slots: seq<Slot>) {
    forall i :: 0 <= i < |slots| ==> slots[i].cid in docs
  }

  /** What FinalizeArchive has read so far is still so. */
  ghost predicate ReadGood(t: Db, a: Cid, at: Reading) {
    match at
    case Checking => true
    case CountingRows => true
    case CountingFailed(bodies) => bodies == Bodies(t, Members(t, a))
    case CountingPending(bodies, failed) =>
      bodies == Bodies(t, Members(t, a)) && failed == CountIn(Members(t, a), PermFailed(t))
  }

  ghost predicate PhaseGood(env: Env, base: Db, t: Db, phase: Phase) {
    match phase
    case Idle => true
    case Received(job) => NewJob(base, t, job)
    case Registered(a) => IsNew(base, t, a)
    case Fetching(a) => IsNew(base, t, a) && Members(t, a) == []
    case Looping(target, docs, _) => WorksOn(env, base, t, target, docs)
    case Round(target, docs, _, slots) => WorksOn(env, base, t, target, docs) && SlotsWithin(docs, slots)
    case Finalizing(a, at) =>
      WorksOn(env, base, t, Whole(a), Members(t, a)) && AllSettled(t, Members(t, a)) && ReadGood(t, a, at)
    case Writing(a, n) =>
      WorksOn(env, base, t, Whole(a), Members(t, a)) && AllSettled(t, Members(t, a)) && n == Schema.ReadTotals(t, a)
  }

  predicate PhaseIsAbout(phase: Phase, a: Cid) {
    match phase
    case Idle => false
    case Received(job) => job.ArchiveJob? && job.archive == a
    case Registered(b) => a == b
    case Fetching(b) => a == b
    case Looping(target, _, _) => target == Whole(a)
    case Round(target, _, _, _) => target == Whole(a)
    case Finalizing(b, _) => a == b
    case Writing(b, _) => a == b
  }

  /** Some job or the dispatcher is going to finish `a`. */
  ghost predicate Attended(s: Sys, a: Cid) {
    || (exists owner :: ArchiveJob(a, owner) in s.entering)
    || (exists owner :: ArchiveJob(a, owner) in s.queue)
    || PhaseIsAbout(s.phase, a)
  }

  ghost predicate JobsNew(base: Db, s: Sys) {
    forall job :: job in s.entering || job in s.queue ==> NewJob(base, s.db, job)
  }

  ghost predicate NoneForgotten(base: Db, s: Sys) {
    forall a :: IsNew(base, s.db, a) && a in Resumable(s.db) ==> Attended(s, a)
  }

  ghost predicate Good(env: Env, base: Db, s: Sys) {
    && Inv(s)
    && GoodDb(env, base, s.db)
    && JobsNew(base, s)
    && PhaseGood(env, base, s.db, s.phase)
    && NoneForgotten(base, s)
  }

  predicate Quiescent(s: Sys) {
    s.phase.Idle? && s.queue == [] && s.entering == multiset{}
  }

  // ---- Steps ----

  /** A transaction that keeps records and member lists leaves every phase as good as it was. */
  lemma RowChangeKeepsPhase(env: Env, base: Db, t: Db, u: Db, phase: Phase)
    requires PhaseGood(env, base, t, phase)
    requires u.documents == t.documents && u.failures == t.failures && u.members == t.members
    requires t.archives.Keys <= u.archives.Keys
    ensures PhaseGood(env, base, u, phase)
  {
    assert forall a :: Members(u, a) == Members(t, a);
    assert Settled(u) == Settled(t) && PermFailed(u) == PermFailed(t);
    if phase.Writing? || phase.Finalizing? {
      SameBodies(t, u, Members(t, phase.archive));
    }
  }

  lemma {:induction false} SameBodies(t: Db, u: Db, docs: seq<Cid>)
    requires u.documents == t.documents
    ensures Bodies(u, docs) == Bodies(t, docs)
  {
    if docs != [] {
      SameBodies(t, u, docs[1..]);
    }
  }

  lemma SubmitKeepsGood(env: Env, base: Db, workers: nat, s: Sys, a: Cid, owner: string)
    requires Good(env, base, s) && a !in base.archives
    ensures Good(env, base, Do(workers, s, Submit(a, owner)))
  {
    var u := Do(workers, s, Submit(a, owner));
    assert Inv(u) by {
      StepKeepsInv(workers, s, Submit(a, owner));
    }
    assert GoodDb(env, base, u.db) by {
      AddArchiveKeepsGood(env, base, s.db, a, owner);
    }
    SubmitKeepsPhase(env, base, s.db, a, owner, s.phase);
    SubmitKeepsJobs(base, workers, s, a, owner);
  }

  lemma SubmitKeepsPhase(env: Env, base: Db, t: Db, a: Cid, owner: string, phase: Phase)
    requires PhaseGood(env, base, t, phase)
    ensures PhaseGood(env, base, AddArchiveTx(t, a, owner), phase)
  {
    RowChangeKeepsPhase(env, base, t, AddArchiveTx(t, a, owner), phase);
  }

  lemma SubmitKeepsJobs(base: Db, workers: nat, s: Sys, a: Cid, owner: string)
    requires JobsNew(base, s) && NoneForgotten(base, s) && a !in base.archives
    ensures JobsNew(base, Do(workers, s, Submit(a, owner)))
    ensures NoneForgotten(base, Do(workers, s, Submit(a, owner)))
  {
    var u := Do(workers, s, Submit(a, owner));
    forall job | job in u.entering || job in u.queue
      ensures NewJob(base, u.db, job)
    {
      assert job in s.entering || job in s.queue || job == ArchiveJob(a, owner);
    }
    forall b | IsNew(base, u.db, b) && b in Resumable(u.db)
      ensures Attended(u, b)
    {
      if b == a {
        assert ArchiveJob(a, owner) in u.entering;
      } else {
        assert IsNew(base, s.db, b) && b in Resumable(s.db);
        if o :| ArchiveJob(b, o) in s.entering {
          assert ArchiveJob(b, o) in u.entering;
        }
      }
    }
  }

  /** A job on its way stays on its way, or becomes the dispatcher's. */
  lemma QueueStepKeepsJobs(base: Db, workers: nat, s: Sys, step: Step)
    requires JobsNew(base, s) && NoneForgotten(base, s)
    requires Enabled(workers, s, step) && (step.Enqueue? || step.Receive?)
    ensures JobsNew(base, Do(workers, s, step)) && NoneForgotten(base, Do(workers, s, step))
  {
    var u := Do(workers, s, step);
    forall job | job in u.entering || job in u.queue
      ensures NewJob(base, u.db, job)
    {
      assert job in s.entering || job in s.queue;
    }
    forall a | IsNew(base, u.db, a) && a in Resumable(u.db)
      ensures Attended(u, a)
    {
      assert Attended(s, a);
      if owner :| ArchiveJob(a, owner) in s.entering {
        assert ArchiveJob(a, owner) in u.entering || ArchiveJob(a, owner) in u.queue;
      } else if owner :| ArchiveJob(a, owner) in s.queue {
        assert ArchiveJob(a, owner) in u.queue || PhaseIsAbout(u.phase, a);
      }
    }
  }

  lemma QueueStepKeepsGood(env: Env, base: Db, workers: nat, s: Sys, step: Step)
    requires Good(env, base, s) && Enabled(workers, s, step) && (step.Enqueue? || step.Receive?)
    ensures Good(env, base, Do(workers, s, step))
  {
    assert Inv(Do(workers, s, step)) by {
      StepKeepsInv(workers, s, step);
    }
    if step.Receive? {
      assert s.queue[0] in s.queue;
    }
    QueueStepKeepsJobs(base, workers, s, step);
  }

  /** The dispatcher moved on within the same archive, or finished it. */
  lemma DispatcherMovesOn(base: Db, s: Sys, u: Sys, a: Cid)
    requires u.entering == s.entering && u.queue == s.queue
    requires JobsNew(base, s) && NoneForgotten(base, s) && s.db.archives.Keys <= u.db.archives.Keys
    requires forall b :: PhaseIsAbout(s.phase, b) ==> b == a
    requires forall b :: b != a && IsNew(base, u.db, b) && b in Resumable(u.db) ==>
                         IsNew(base, s.db, b) && b in Resumable(s.db)
    requires IsNew(base, u.db, a) && a in Resumable(u.db) ==> PhaseIsAbout(u.phase, a)
    ensures JobsNew(base, u) && NoneForgotten(base, u)
  {
    forall b | IsNew(base, u.db, b) && b in Resumable(u.db)
      ensures Attended(u, b)
    {
      if b != a {
        assert Attended(s, b);
      }
    }
    forall job | job in u.entering || job in u.queue
      ensures NewJob(base, u.db, job)
    {
      assert NewJob(base, s.db, job);
    }
  }

  lemma RegisterMovesOn(base: Db, workers: nat, s: Sys)
    requires Enabled(workers, s, Register) && NewJob(base, s.db, s.phase.job)
    requires JobsNew(base, s) && NoneForgotten(base, s)
    ensures var u := Do(workers, s, Register);
            JobsNew(base, u) && NoneForgotten(base, u) && IsNew(base, u.db, s.phase.job.archive)
  {
    DispatcherMovesOn(base, s, Do(workers, s, Register), s.phase.job.archive);
  }

  lemma RegisterKeepsGood(env: Env, base: Db, workers: nat, s: Sys)
    requires Good(env, base, s) && Enabled(workers, s, Register)
    ensures Good(env, base, Do(workers, s, Register))
  {
    assert Inv(Do(workers, s, Register)) by {
      StepKeepsInv(workers, s, Register);
    }
    assert GoodDb(env, base, Do(workers, s, Register).db) by {
      AddArchiveKeepsGood(env, base, s.db, s.phase.job.archive, s.phase.job.owner);
    }
    RegisterMovesOn(base, workers, s);
  }

  lemma ResumeKeepsGood(env: Env, base: Db, workers: nat, s: Sys)
    requires Good(env, base, s) && Enabled(workers, s, Resume)
    ensures Good(env, base, Do(workers, s, Resume))
  {
    assert Inv(Do(workers, s, Resume)) by {
      StepKeepsInv(workers, s, Resume);
    }
    assert RowOk(env, base, s.db, s.phase.archive);
    DispatcherMovesOn(base, s, Do(workers, s, Resume), s.phase.archive);
  }

  lemma BeginCrawlKeepsGood(env: Env, base: Db, workers: nat, s: Sys)
    requires Good(env, base, s) && Enabled(workers, s, BeginCrawl)
    ensures Good(env, base, Do(workers, s, BeginCrawl))
  {
    var u, a := Do(workers, s, BeginCrawl), s.phase.archive;
    assert Inv(Do(workers, s, BeginCrawl)) by {
      StepKeepsInv(workers, s, BeginCrawl);
    }
    CrawlingKeepsGood(env, base, s.db, a);
    assert Members(u.db, a) == Members(s.db, a);
    DispatcherMovesOn(base, s, u, a);
  }

  lemma CrawlFailsKeepsGood(env: Env, base: Db, workers: nat, s: Sys, reason: string)
    requires Good(env, base, s) && Enabled(workers, s, CrawlFails(reason)) && Calm(env, base, s, CrawlFails(reason))
    ensures Good(env, base, Do(workers, s, CrawlFails(reason)))
  {
    var u, a := Do(workers, s, CrawlFails(reason)), s.phase.archive;
    assert Inv(Do(workers, s, CrawlFails(reason))) by {
      StepKeepsInv(workers, s, CrawlFails(reason));
    }
    MarkFailedKeepsGood(env, base, s.db, a, reason);
    DispatcherMovesOn(base, s, u, a);
  }

  lemma PersistMovesOn(base: Db, workers: nat, s: Sys, docs: seq<Cid>)
    requires Enabled(workers, s, Persist(docs)) && IsNew(base, s.db, s.phase.archive)
    requires JobsNew(base, s) && NoneForgotten(base, s)
    ensures var u := Do(workers, s, Persist(docs));
            JobsNew(base, u) && NoneForgotten(base, u) && IsNew(base, u.db, s.phase.archive)
    ensures Members(Do(workers, s, Persist(docs)).db, s.phase.archive) == docs
  {
    DispatcherMovesOn(base, s, Do(workers, s, Persist(docs)), s.phase.archive);
    DedupMembers(docs);
  }

  lemma PersistKeepsGood(env: Env, base: Db, workers: nat, s: Sys, docs: seq<Cid>)
    requires Good(env, base, s) && Enabled(workers, s, Persist(docs)) && Calm(env, base, s, Persist(docs))
    ensures Good(env, base, Do(workers, s, Persist(docs)))
  {
    assert Inv(Do(workers, s, Persist(docs))) by {
      StepKeepsInv(workers, s, Persist(docs));
    }
    assert GoodDb(env, base, Do(workers, s, Persist(docs)).db) by {
      SetDocsKeepsGood(env, base, s.db, s.phase.archive, docs);
    }
    PersistMovesOn(base, workers, s, docs);
  }

  lemma NoneLeftKeepsGood(env: Env, base: Db, workers: nat, s: Sys)
    requires Good(env, base, s) && Enabled(workers, s, NoneLeft)
    ensures Good(env, base, Do(workers, s, NoneLeft))
  {
    assert Inv(Do(workers, s, NoneLeft)) by {
      StepKeepsInv(workers, s, NoneLeft);
    }
    MinusMembers(s.phase.docs, Settled(s.db));
    forall c | c in s.phase.docs
      ensures c in Settled(s.db)
    {
      assert c !in PendingOf(s.db, s.phase.docs);
    }
    DispatcherMovesOn(base, s, Do(workers, s, NoneLeft), s.phase.target.archive);
  }

  lemma FreshSlotsWithin(t: Db, docs: seq<Cid>)
    ensures SlotsWithin(docs, FreshSlots(PendingOf(t, docs)))
  {
    var p := PendingOf(t, docs);
    MinusMembers(docs, Settled(t));
    forall i | 0 <= i < |p|
      ensures p[i] in docs
    {
      assert p[i] in p;
    }
  }

  lemma BeginRoundKeepsGood(env: Env, base: Db, workers: nat, s: Sys)
    requires Good(env, base, s) && Enabled(workers, s, BeginRound)
    ensures Good(env, base, Do(workers, s, BeginRound))
  {
    assert Inv(Do(workers, s, BeginRound)) by {
      StepKeepsInv(workers, s, BeginRound);
    }
    FreshSlotsWithin(s.db, s.phase.docs);
    DispatcherMovesOn(base, s, Do(workers, s, BeginRound), s.phase.target.archive);
  }

  lemma EndRoundKeepsGood(env: Env, base: Db, workers: nat, s: Sys)
    requires Good(env, base, s) && Enabled(workers, s, EndRound)
    ensures Good(env, base, Do(workers, s, EndRound))
  {
    assert Inv(Do(workers, s, EndRound)) by {
      StepKeepsInv(workers, s, EndRound);
    }
    DispatcherMovesOn(base, s, Do(workers, s, EndRound), s.phase.target.archive);
  }

  lemma ReadKeepsPhase(env: Env, base: Db, workers: nat, s: Sys, step: Step)
    requires PhaseGood(env, base, s.db, s.phase) && Enabled(workers, s, step) && Reads(step)
    ensures PhaseGood(env, base, s.db, Do(workers, s, step).phase) && Do(workers, s, step).db == s.db
    ensures PhaseIsAbout(Do(workers, s, step).phase, s.phase.archive)
  {
  }

  lemma ReadKeepsGood(env: Env, base: Db, workers: nat, s: Sys, step: Step)
    requires Good(env, base, s) && Enabled(workers, s, step) && Reads(step)
    ensures Good(env, base, Do(workers, s, step))
  {
    assert Inv(Do(workers, s, step)) by {
      StepKeepsInv(workers, s, step);
    }
    ReadKeepsPhase(env, base, workers, s, step);
    assert JobsNew(base, Do(workers, s, step)) && NoneForgotten(base, Do(workers, s, step)) by {
      DispatcherMovesOn(base, s, Do(workers, s, step), s.phase.archive);
    }
  }

  lemma WriteArchiveKeepsGood(env: Env, base: Db, workers: nat, s: Sys)
    requires Good(env, base, s) && Enabled(workers, s, WriteArchive)
    ensures Good(env, base, Do(workers, s, WriteArchive))
  {
    var u, a := Do(workers, s, WriteArchive), s.phase.archive;
    assert Inv(u) by {
      StepKeepsInv(workers, s, WriteArchive);
    }
    assert GoodDb(env, base, u.db) by {
      FinalizeKeepsGood(env, base, s.db, a, Members(s.db, a));
    }
    FinalizeFinishesOne(s.db, a, s.phase.totals);
    assert s.phase.totals.pending == 0 by {
      SettledTotals(env, base, s.db, Members(s.db, a));
    }
    DispatcherMovesOn(base, s, u, a);
  }

  lemma FinalizeFinishesOne(t: Db, a: Cid, n: Totals)
    ensures FinalizeTx(t, a, n).archives.Keys == t.archives.Keys
    ensures forall b :: b != a ==> (b in Resumable(FinalizeTx(t, a, n)) <==> b in Resumable(t))
    ensures n.pending == 0 ==> a !in Resumable(FinalizeTx(t, a, n))
  {
  }

  lemma TakeKeepsGood(env: Env, base: Db, workers: nat, s: Sys, i: nat)
    requires Good(env, base, s) && Enabled(workers, s, Take(i))
    ensures Good(env, base, Do(workers, s, Take(i)))
  {
    assert Inv(Do(workers, s, Take(i))) by {
      StepKeepsInv(workers, s, Take(i));
    }
    DispatcherMovesOn(base, s, Do(workers, s, Take(i)), s.phase.target.archive);
  }

  lemma DecrementKeepsGood(env: Env, base: Db, workers: nat, s: Sys, i: nat)
    requires Good(env, base, s) && Enabled(workers, s, Decrement(i))
    ensures Good(env, base, Do(workers, s, Decrement(i)))
  {
    assert Inv(Do(workers, s, Decrement(i))) by {
      StepKeepsInv(workers, s, Decrement(i));
    }
    DispatcherMovesOn(base, s, Do(workers, s, Decrement(i)), s.phase.target.archive);
  }

  lemma CommitKeepsPhase(env: Env, base: Db, workers: nat, s: Sys, i: nat, o: Outcome, rowid: nat)
    requires PhaseGood(env, base, s.db, s.phase) && Enabled(workers, s, Commit(i, o, rowid))
    ensures var u := Do(workers, s, Commit(i, o, rowid)); PhaseGood(env, base, u.db, u.phase)
  {
    RecordKeepsArchives(s.db, s.phase.slots[i].cid, o, rowid);
  }

  lemma CommitStepKeepsGood(env: Env, base: Db, workers: nat, s: Sys, i: nat, o: Outcome, rowid: nat)
    requires Good(env, base, s)
    requires Enabled(workers, s, Commit(i, o, rowid)) && Calm(env, base, s, Commit(i, o, rowid))
    ensures Good(env, base, Do(workers, s, Commit(i, o, rowid)))
  {
    var u := Do(workers, s, Commit(i, o, rowid));
    assert Inv(u) by {
      StepKeepsInv(workers, s, Commit(i, o, rowid));
    }
    var a, c := s.phase.target.archive, s.phase.slots[i].cid;
    assert GoodDb(env, base, u.db) by {
      assert IsNew(base, s.db, a) && c in Members(s.db, a);
      CommitKeepsGood(env, base, s.db, c, rowid);
    }
    CommitKeepsPhase(env, base, workers, s, i, o, rowid);
    assert JobsNew(base, u) && NoneForgotten(base, u) by {
      RecordKeepsArchives(s.db, c, o, rowid);
      DispatcherMovesOn(base, s, u, a);
    }
  }

  lemma ResumableIsNew(base: Db, t: Db, a: Cid)
    requires OldArchivesKept(base, t) && Resumable(base) == {} && a in Resumable(t)
    ensures IsNew(base, t, a)
  {
    assert a !in Resumable(base);
  }

  /** After a crash, the system is good for any starting store the requeued tables are good for. */
  lemma RestartLeavesGood(env: Env, base: Db, anew: Db, workers: nat, s: Sys, order: seq<Cid>)
    requires Good(env, base, s) && Resumable(base) == {} && Enabled(workers, s, Restart(order))
    requires anew.archives == base.archives && GoodDb(env, anew, RequeueTx(s.db))
    ensures Good(env, anew, Do(workers, s, Restart(order)))
  {
    var u := Do(workers, s, Restart(order));
    assert Inv(u) by {
      StepKeepsInv(workers, s, Restart(order));
    }
    forall job | job in u.queue
      ensures NewJob(anew, u.db, job)
    {
      var k :| 0 <= k < |order| && u.queue[k] == job;
      assert order[k] in order && order[k] in Resumable(s.db);
      ResumableIsNew(base, s.db, order[k]);
    }
    forall a | IsNew(anew, u.db, a) && a in Resumable(u.db)
      ensures Attended(u, a)
    {
      assert a in order;
      var k :| 0 <= k < |order| && order[k] == a;
      assert u.queue[k] == ArchiveJob(a, "");
    }
  }

  lemma RestartKeepsGood(env: Env, base: Db, workers: nat, s: Sys, order: seq<Cid>)
    requires Good(env, base, s) && Safe(env, base, s.db) && AtRest(base)
    requires Enabled(workers, s, Restart(order))
    ensures Good(env, base, Do(workers, s, Restart(order)))
  {
    RequeueKeepsGood(env, base, s.db);
    RestartLeavesGood(env, base, base, workers, s, order);
  }

  lemma ArchiveStepKeepsGood(env: Env, base: Db, workers: nat, s: Sys, step: Step)
    requires Good(env, base, s) && Enabled(workers, s, step) && Calm(env, base, s, step)
    requires step.Register? || step.Resume? || step.BeginCrawl? || step.CrawlFails? || step.Persist?
             || Reads(step) || step.WriteArchive?
    ensures Good(env, base, Do(workers, s, step))
  {
    if Reads(step) {
      ReadKeepsGood(env, base, workers, s, step);
      return;
    }
    match step {
      case Register => RegisterKeepsGood(env, base, workers, s);
      case Resume => ResumeKeepsGood(env, base, workers, s);
      case BeginCrawl => BeginCrawlKeepsGood(env, base, workers, s);
      case CrawlFails(reason) => CrawlFailsKeepsGood(env, base, workers, s, reason);
      case Persist(docs) => PersistKeepsGood(env, base, workers, s, docs);
      case WriteArchive => WriteArchiveKeepsGood(env, base, workers, s);
    }
  }

  lemma RoundStepKeepsGood(env: Env, base: Db, workers: nat, s: Sys, step: Step)
    requires Good(env, base, s) && Enabled(workers, s, step) && Calm(env, base, s, step)
    requires step.NoneLeft? || step.BeginRound? || step.EndRound? || step.Take? || step.RateLimited?
             || step.Decrement? || step.Commit?
    ensures Good(env, base, Do(workers, s, step))
  {
    match step {
      case NoneLeft => NoneLeftKeepsGood(env, base, workers, s);
      case BeginRound => BeginRoundKeepsGood(env, base, workers, s);
      case EndRound => EndRoundKeepsGood(env, base, workers, s);
      case Take(i) => TakeKeepsGood(env, base, workers, s, i);
      case RateLimited(_) =>
      case Decrement(i) => DecrementKeepsGood(env, base, workers, s, i);
      case Commit(i, o, rowid) => CommitStepKeepsGood(env, base, workers, s, i, o, rowid);
    }
  }

  lemma StepKeepsGood(env: Env, base: Db, workers: nat, s: Sys, step: Step)
    requires Good(env, base, s) && Enabled(workers, s, step) && Calm(env, base, s, step)
    requires step.Restart? ==> AtRest(base) && Safe(env, base, s.db)
    ensures Good(env, base, Do(workers, s, step))
  {
    if step.Submit? {
      SubmitKeepsGood(env, base, workers, s, step.archive, step.owner);
    } else if step.Enqueue? || step.Receive? {
      QueueStepKeepsGood(env, base, workers, s, step);
    } else if step.Restart? {
      RestartKeepsGood(env, base, workers, s, step.order);
    } else if step.NoneLeft? || step.BeginRound? || step.EndRound? || step.Take? || step.RateLimited?
              || step.Decrement? || step.Commit? {
      RoundStepKeepsGood(env, base, workers, s, step);
    } else {
      assert !step.StartDocs?;
      ArchiveStepKeepsGood(env, base, workers, s, step);
    }
  }

  /** Only commits, start-up and admin write documents or failures. */
  lemma OtherStepsKeepRecords(workers: nat, s: Sys, step: Step)
    requires Enabled(workers, s, step) && !step.Commit? && !step.Restart? && !Admin(step)
    ensures Do(workers, s, step).db.documents == s.db.documents
    ensures Do(workers, s, step).db.failures == s.db.failures
  {
    if ReadsOnly(step) {
      ReadOnlyStepKeepsDb(workers, s, step);
    }
  }

  lemma SameRecordsKeepSafe(env: Env, base: Db, t: Db, u: Db)
    requires Safe(env, base, t) && u.documents == t.documents && u.failures == t.failures
    ensures Safe(env, base, u)
  {
    assert forall c :: StandingOf(u, c) == StandingOf(t, c);
  }

  lemma StepKeepsSafe(env: Env, base: Db, workers: nat, s: Sys, step: Step)
    requires Good(env, base, s) && Enabled(workers, s, step) && Calm(env, base, s, step)
    requires Safe(env, base, s.db)
    ensures Safe(env, base, Do(workers, s, step).db)
  {
    if step.Commit? {
      CommitKeepsSafe(env, base, s.db, s.phase.slots[step.slot].cid, step.rowid);
    } else if step.Restart? {
      RequeueKeepsSafe(env, base, s.db);
    } else {
      OtherStepsKeepRecords(workers, s, step);
      SameRecordsKeepSafe(env, base, s.db, Do(workers, s, step).db);
    }
  }

  // ---- Runs ----

  /** A run of the experiment. */
  ghost predicate CalmRun(env: Env, base: Db, workers: nat, s: Sys, steps: seq<Step>)
    decreases |steps|
  {
    steps == [] || (
      && Enabled(workers, s, steps[0])
      && Calm(env, base, s, steps[0])
      && CalmRun(env, base, workers, Do(workers, s, steps[0]), steps[1..]))
  }

  ghost predicate Uninterrupted(steps: seq<Step>) {
    forall i :: 0 <= i < |steps| ==> !steps[i].Restart?
  }

  lemma {:induction false} CalmRunKeepsGood(env: Env, base: Db, workers: nat, s: Sys, steps: seq<Step>)
    requires Good(env, base, s) && CalmRun(env, base, workers, s, steps)
    requires Uninterrupted(steps) || (AtRest(base) && Safe(env, base, s.db))
    ensures CanRun(workers, s, steps)
    ensures Good(env, base, Run(workers, s, steps))
    decreases |steps|
  {
    if steps != [] {
      StepKeepsGood(env, base, workers, s, steps[0]);
      if !Uninterrupted(steps) {
        StepKeepsSafe(env, base, workers, s, steps[0]);
      }
      CalmRunKeepsGood(env, base, workers, Do(workers, s, steps[0]), steps[1..]);
    }
  }

  function Start(base: Db): Sys {
    Sys(base, multiset{}, [], Idle, 0)
  }

  lemma StartIsGood(env: Env, base: Db)
    requires Valid(base)
    ensures Good(env, base, Start(base))
  {
  }

  /** Once every new archive is finished, the store is the outcome. */
  lemma FinishedIsOutcome(env: Env, base: Db, t: Db)
    requires GoodDb(env, base, t)
    requires forall a :: IsNew(base, t, a) ==> a !in Resumable(t)
    ensures IsOutcome(env, base, t)
  {
    forall a | IsNew(base, t, a)
      ensures t.archives[a].(owner := "") == ExpectedRow(env, base, a) && Members(t, a) == DocsOf(env, a)
      ensures AllSettled(t, DocsOf(env, a))
    {
      assert RowOk(env, base, t, a);
    }
    forall c
      ensures StandingOf(t, c) == if Claimed(env, base, t, c) then FateOf(env, base, c) else StandingOf(base, c)
    {
      assert FateOf(env, t, c) == FateOf(env, base, c);
      if Claimed(env, base, t, c) {
        var a :| IsNew(base, t, a) && c in DocsOf(env, a);
        assert AllSettled(t, DocsOf(env, a));
        SettledMeansFated(env, t, c);
      } else {
        assert Touched(base, t, c) ==> Claimed(env, base, t, c);
      }
    }
  }

  /** When nothing is left to do, the store is the outcome. */
  lemma QuiescenceIsOutcome(env: Env, base: Db, s: Sys)
    requires Good(env, base, s) && Quiescent(s)
    ensures IsOutcome(env, base, s.db)
  {
    forall a | IsNew(base, s.db, a)
      ensures a !in Resumable(s.db)
    {
      assert !Attended(s, a);
    }
    FinishedIsOutcome(env, base, s.db);
  }

  /** `steps` is a run of the experiment from `base` that leaves nothing to do, and `t` is the store it leaves. */
  ghost predicate SettlesTo(env: Env, base: Db, workers: nat, steps: seq<Step>, t: Db) {
    && CalmRun(env, base, workers, Start(base), steps)
    && CanRun(workers, Start(base), steps)
    && Quiescent(Run(workers, Start(base), steps))
    && Run(workers, Start(base), steps).db == t
  }

  /** Every settled run ends in the outcome determined by the store it started from. */
  lemma SettledRunIsOutcome(env: Env, base: Db, workers: nat, steps: seq<Step>, t: Db)
    requires Valid(base) && SettlesTo(env, base, workers, steps, t)
    requires Uninterrupted(steps) || (AtRest(base) && RequeueHarmless(env, base))
    ensures IsOutcome(env, base, t)
  {
    StartIsGood(env, base);
    if !Uninterrupted(steps) {
      RestIsSafe(env, base);
    }
    CalmRunKeepsGood(env, base, workers, Start(base), steps);
    QuiescenceIsOutcome(env, base, Run(workers, Start(base), steps));
  }

  /** Without a crash, any two runs that settle the same archives end in the same index. */
  lemma UninterruptedRunsAgree(
      env: Env, base: Db, m: nat, xs: seq<Step>, t: Db, n: nat, ys: seq<Step>, u: Db)
    requires Valid(base) && Uninterrupted(xs) && Uninterrupted(ys)
    requires SettlesTo(env, base, m, xs, t) && SettlesTo(env, base, n, ys, u)
    requires t.archives.Keys == u.archives.Keys
    ensures SameIndex(t, u)
  {
    SettledRunIsOutcome(env, base, m, xs, t);
    SettledRunIsOutcome(env, base, n, ys, u);
    OutcomeIsUnique(env, base, t, u);
  }

  /**
   Confluence: any two runs from `base` that settle the same archives end in the
   same index, whatever their schedules, worker counts and crashes.
   */
  ghost predicate Confluent(env: Env, base: Db) {
    forall m, xs, t, n, ys, u ::
      && SettlesTo(env, base, m, xs, t)
      && SettlesTo(env, base, n, ys, u)
      && t.archives.Keys == u.archives.Keys
      ==> SameIndex(t, u)
  }

  lemma RunsAgree(env: Env, base: Db)
    requires AtRest(base) && RequeueHarmless(env, base)
    ensures Confluent(env, base)
  {
    forall m, xs, t, n, ys, u |
      && SettlesTo(env, base, m, xs, t)
      && SettlesTo(env, base, n, ys, u)
      && t.archives.Keys == u.archives.Keys
      ensures SameIndex(t, u)
    {
      SettledRunIsOutcome(env, base, m, xs, t);
      SettledRunIsOutcome(env, base, n, ys, u);
      OutcomeIsUnique(env, base, t, u);
    }
  }
}
