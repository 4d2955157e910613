/**
 The stored `indexed` and `failed` of an archive against what fillArchiveProgress
 recomputes: exactly which steps, by whom and when, make them differ.
 */
module StoredProgress {
  import opened Options
  import opened Schema
  import opened Seqs
  import opened Protocol
  import opened Fates
  import Confluence
  import Deletion
  import Invariants

  function IndexedOf(t: Db, a: Cid): nat {
    CountIn(Members(t, a), t.documents.Keys)
  }

  function FailedOf(t: Db, a: Cid): nat {
    CountIn(Members(t, a), PermFailed(t))
  }

  ghost predicate MembersSettled(t: Db, a: Cid) {
    forall c :: c in Members(t, a) ==> c in Settled(t)
  }

  // ---- Losing members that count ----

  /** An admin step that takes an indexed document from the members of `a`. */
  predicate LosesIndexed(t: Db, step: Step, a: Cid) {
    match step
    case DeleteDoc(c) => c in Members(t, a) && c in t.documents
    case DeleteArch(b) => b == a && a in t.archives && exists c :: c in Members(t, a) && c in t.documents
    case _ => false
  }

  /** An admin step that takes a permanent failure from the members of `a`, or its record. */
  predicate LosesFailed(t: Db, step: Step, a: Cid) {
    match step
    case DeleteDoc(c) => c in Members(t, a) && c in PermFailed(t)
    case RetryDoc(c) => c in Members(t, a) && c in PermFailed(t)
    case DeleteArch(b) => b == a && a in t.archives && exists c :: c in Members(t, a) && c in PermFailed(t)
    case _ => false
  }

  predicate Loses(t: Db, step: Step, a: Cid) {
    LosesIndexed(t, step, a) || LosesFailed(t, step, a)
  }

  // ---- Counting ----

  lemma {:induction false} CountNone<T>(s: seq<T>, S: set<T>)
    ensures CountIn(s, S) == 0 <==> forall x :: x in s ==> x !in S
  {
    if s != [] {
      HeadIsMember(s);
      CountNone(s[1..], S);
      assert forall x :: x in s <==> x == s[0] || x in s[1..];
    }
  }

  lemma {:induction false} CountSmaller<T>(s: seq<T>, S: set<T>, R: set<T>)
    requires S <= R
    ensures CountIn(s, S) <= CountIn(s, R)
    ensures CountIn(s, S) == CountIn(s, R) <==> forall x :: x in s && x in R ==> x in S
  {
    if s != [] {
      HeadIsMember(s);
      CountSmaller(s[1..], S, R);
      assert forall x :: x in s <==> x == s[0] || x in s[1..];
    }
  }

  // ---- What the steps of others do to the counts ----

  /** Both counts only fall, and each stays exactly when nothing it counts is lost. */
  ghost predicate CountsFall(t: Db, u: Db, a: Cid, lostIndexed: bool, lostFailed: bool) {
    && IndexedOf(u, a) <= IndexedOf(t, a)
    && FailedOf(u, a) <= FailedOf(t, a)
    && (IndexedOf(u, a) == IndexedOf(t, a) <==> !lostIndexed)
    && (FailedOf(u, a) == FailedOf(t, a) <==> !lostFailed)
  }

  lemma DropIndexed(t: Db, c: Cid, a: Cid)
    requires Consistent(t)
    ensures IndexedOf(DropDocTx(t, c), a) == IndexedOf(t, a) - (if c in Members(t, a) && c in t.documents then 1 else 0)
  {
    var u, docs := DropDocTx(t, c), Members(t, a);
    Deletion.DropShrinksLists(t, c, a);
    CountAfterRemoval(docs, c, t.documents.Keys);
    MinusMembers(docs, {c});
    CountSame(Minus(docs, {c}), t.documents.Keys, u.documents.Keys);
  }

  lemma DropFailed(t: Db, c: Cid, a: Cid)
    requires Consistent(t)
    ensures FailedOf(DropDocTx(t, c), a) == FailedOf(t, a) - (if c in Members(t, a) && c in PermFailed(t) then 1 else 0)
  {
    var u, docs := DropDocTx(t, c), Members(t, a);
    Deletion.DropShrinksLists(t, c, a);
    CountAfterRemoval(docs, c, PermFailed(t));
    MinusMembers(docs, {c});
    CountSame(Minus(docs, {c}), PermFailed(t), PermFailed(u));
  }

  lemma DeleteDocCounts(t: Db, c: Cid, a: Cid)
    requires Consistent(t)
    ensures CountsFall(t, DeleteDocumentTx(t, c), a, LosesIndexed(t, DeleteDoc(c), a), LosesFailed(t, DeleteDoc(c), a))
  {
    if c in t.documents || c in t.failures {
      DropIndexed(t, c, a);
      DropFailed(t, c, a);
      assert DeleteDocumentTx(t, c) == DropDocTx(t, c);
    }
  }

  lemma DeleteArchCounts(t: Db, b: Cid, a: Cid)
    ensures CountsFall(t, WithoutArchive(t, b), a, LosesIndexed(t, DeleteArch(b), a), LosesFailed(t, DeleteArch(b), a))
  {
    if b != a {
      Deletion.DeleteArchiveSparesOthers(t, b, a);
    } else if a in t.archives {
      assert Members(WithoutArchive(t, a), a) == [];
      CountNone(Members(t, a), t.documents.Keys);
      CountNone(Members(t, a), PermFailed(t));
    }
  }

  lemma FewerFailuresCount(t: Db, f: map<Cid, Failure>, a: Cid)
    requires forall c :: c in f ==> c in t.failures && f[c] == t.failures[c]
    ensures var u := t.(failures := f);
            CountsFall(t, u, a, false, exists c :: c in Members(t, a) && c in PermFailed(t) && c !in f)
  {
    var u := t.(failures := f);
    assert Members(u, a) == Members(t, a);
    CountSmaller(Members(t, a), PermFailed(u), PermFailed(t));
  }

  lemma RetryCounts(t: Db, c: Cid, a: Cid)
    ensures CountsFall(t, RetryTx(t, c), a, LosesIndexed(t, RetryDoc(c), a), LosesFailed(t, RetryDoc(c), a))
  {
    FewerFailuresCount(t, RetryTx(t, c).failures, a);
  }

  lemma AdminCounts(workers: nat, s: Sys, step: Step, a: Cid)
    requires Consistent(s.db) && Admin(step) && Enabled(workers, s, step)
    ensures CountsFall(s.db, Do(workers, s, step).db, a, LosesIndexed(s.db, step, a), LosesFailed(s.db, step, a))
  {
    match step {
      case DeleteDoc(c) => DeleteDocCounts(s.db, c, a);
      case DeleteArch(b) => DeleteArchCounts(s.db, b, a);
      case RetryDoc(c) => RetryCounts(s.db, c, a);
    }
  }

  /** What submitters and admin do. */
  predicate ByOthers(step: Step) {
    step.Submit? || step.SubmitDocs? || step.Enqueue? || Admin(step)
  }

  lemma OtherCounts(workers: nat, s: Sys, step: Step, a: Cid)
    requires Consistent(s.db) && ByOthers(step) && Enabled(workers, s, step)
    ensures CountsFall(s.db, Do(workers, s, step).db, a, LosesIndexed(s.db, step, a), LosesFailed(s.db, step, a))
    ensures Do(workers, s, step).phase == s.phase
  {
    if Admin(step) {
      AdminCounts(workers, s, step, a);
    } else {
      var u := Do(workers, s, step).db;
      assert u.documents == s.db.documents && u.failures == s.db.failures && Members(u, a) == Members(s.db, a);
    }
  }

  // ---- Within FinalizeArchive ----

  predicate Finalizes(phase: Phase, a: Cid) {
    (phase.Finalizing? || phase.Writing?) && phase.archive == a
  }

  /** What FinalizeArchive has counted of `a` so far: indexed, then failed. */
  function IndexedSoFar(phase: Phase): Option<nat> {
    match phase
    case Finalizing(_, CountingFailed(bodies)) => Some(|bodies|)
    case Finalizing(_, CountingPending(bodies, _)) => Some(|bodies|)
    case Writing(_, n) => Some(n.indexed)
    case _ => None
  }

  function FailedSoFar(phase: Phase): Option<nat> {
    match phase
    case Finalizing(_, CountingPending(_, failed)) => Some(failed)
    case Writing(_, n) => Some(n.failed)
    case _ => None
  }

  /** The step loses a member that FinalizeArchive has counted already. */
  predicate LosesCounted(s: Sys, step: Step, a: Cid) {
    && Finalizes(s.phase, a)
    && ((IndexedSoFar(s.phase).Some? && LosesIndexed(s.db, step, a))
        || (FailedSoFar(s.phase).Some? && LosesFailed(s.db, step, a)))
  }

  /** No count so far is below the current one. */
  predicate CountsOver(t: Db, phase: Phase, a: Cid) {
    && (IndexedSoFar(phase).Some? ==> IndexedSoFar(phase).value >= IndexedOf(t, a))
    && (FailedSoFar(phase).Some? ==> FailedSoFar(phase).value >= FailedOf(t, a))
  }

  /** Every count so far is the current one. */
  predicate CountsRight(t: Db, phase: Phase, a: Cid) {
    && (IndexedSoFar(phase).Some? ==> IndexedSoFar(phase).value == IndexedOf(t, a))
    && (FailedSoFar(phase).Some? ==> FailedSoFar(phase).value == FailedOf(t, a))
  }

  /** Steps within one finalization: others act, the queries go on. */
  predicate Meanwhile(step: Step) {
    ByOthers(step) || Reads(step)
  }

  lemma MeanwhileCounts(workers: nat, s: Sys, step: Step, a: Cid)
    requires Consistent(s.db) && Finalizes(s.phase, a) && CountsOver(s.db, s.phase, a)
    requires Meanwhile(step) && Enabled(workers, s, step)
    ensures var u := Do(workers, s, step);
            && CountsOver(u.db, u.phase, a)
            && (u.phase.Idle? || Finalizes(u.phase, a))
            && (!u.phase.Idle? ==>
                  (CountsRight(u.db, u.phase, a) <==> CountsRight(s.db, s.phase, a) && !LosesCounted(s, step, a)))
  {
    if ByOthers(step) {
      OtherCounts(workers, s, step, a);
    } else {
      ReadOnlyStepKeepsDb(workers, s, step);
      Invariants.BodiesCount(s.db, Members(s.db, a));
    }
  }

  /** No step of the run loses a member already counted. */
  ghost predicate LosesNothing(workers: nat, s: Sys, steps: seq<Step>, a: Cid)
    requires CanRun(workers, s, steps)
    decreases |steps|
  {
    steps == [] || (!LosesCounted(s, steps[0], a) && LosesNothing(workers, Do(workers, s, steps[0]), steps[1..], a))
  }

  lemma IdleStaysIdle(workers: nat, s: Sys, step: Step)
    requires s.phase.Idle? && Meanwhile(step) && Enabled(workers, s, step)
    ensures Do(workers, s, step).phase.Idle?
  {
  }

  lemma {:induction false} IdleRunStaysIdle(workers: nat, s: Sys, steps: seq<Step>)
    requires s.phase.Idle? && CanRun(workers, s, steps) && forall i :: 0 <= i < |steps| ==> Meanwhile(steps[i])
    ensures Run(workers, s, steps).phase.Idle?
    decreases |steps|
  {
    if steps != [] {
      IdleStaysIdle(workers, s, steps[0]);
      IdleRunStaysIdle(workers, Do(workers, s, steps[0]), steps[1..]);
    }
  }

  lemma {:induction false} MeanwhileRunCounts(workers: nat, s: Sys, steps: seq<Step>, a: Cid)
    requires Inv(s) && Finalizes(s.phase, a) && CountsOver(s.db, s.phase, a) && CanRun(workers, s, steps)
    requires forall i :: 0 <= i < |steps| ==> Meanwhile(steps[i])
    requires Run(workers, s, steps).phase.Writing?
    ensures var u := Run(workers, s, steps);
            && Finalizes(u.phase, a)
            && (CountsRight(u.db, u.phase, a) <==>
                CountsRight(s.db, s.phase, a) && LosesNothing(workers, s, steps, a))
    decreases |steps|
  {
    if steps != [] {
      var u := Do(workers, s, steps[0]);
      MeanwhileCounts(workers, s, steps[0], a);
      if u.phase.Idle? {
        IdleRunStaysIdle(workers, u, steps[1..]);
      } else {
        StepKeepsInv(workers, s, steps[0]);
        MeanwhileRunCounts(workers, u, steps[1..], a);
      }
    }
  }

  lemma FinalizeCounts(t: Db, a: Cid, n: Totals)
    ensures InStep(FinalizeTx(t, a, n), a) <==>
            a in t.archives && n.indexed == IndexedOf(t, a) && n.failed == FailedOf(t, a)
  {
    var u := FinalizeTx(t, a, n);
    assert Members(u, a) == Members(t, a);
  }

  lemma WriteInStepIff(workers: nat, s: Sys, a: Cid)
    requires s.phase.Writing? && s.phase.archive == a
    ensures InStep(Do(workers, s, WriteArchive).db, a) <==> a in s.db.archives && CountsRight(s.db, s.phase, a)
  {
    FinalizeCounts(s.db, a, s.phase.totals);
  }

  /**
   FinalizeArchive, its queries and its write interleaved with the steps of others:
   it leaves the stored counters right if and only if the archive is registered at
   the write and no step lost a member after the query that counted it.
   */
  lemma FinalizeInStepIff(workers: nat, s: Sys, steps: seq<Step>, a: Cid)
    requires Inv(s) && s.phase == Finalizing(a, Checking) && CanRun(workers, s, steps)
    requires forall i :: 0 <= i < |steps| ==> Meanwhile(steps[i])
    requires Run(workers, s, steps).phase.Writing?
    ensures var u := Run(workers, s, steps);
            InStep(Do(workers, u, WriteArchive).db, a) <==>
            a in u.db.archives && LosesNothing(workers, s, steps, a)
  {
    assert Finalizes(Run(workers, s, steps).phase, a)
           && (CountsRight(Run(workers, s, steps).db, Run(workers, s, steps).phase, a) <==>
               LosesNothing(workers, s, steps, a)) by {
      MeanwhileRunCounts(workers, s, steps, a);
    }
    WriteInStepIff(workers, Run(workers, s, steps), a);
  }

  // ---- One archive over whole runs ----

  /** If finalized, `a` stores what would be recomputed, and its members are settled. */
  ghost predicate DoneRight(t: Db, a: Cid) {
    a in t.archives && t.archives[a].status == Done ==> InStep(t, a) && MembersSettled(t, a)
  }

  /** A finalization of `a` under way has counted right so far, and found none pending only if all are settled. */
  ghost predicate PhaseRight(t: Db, phase: Phase, a: Cid) {
    Finalizes(phase, a) ==>
      && CountsRight(t, phase, a)
      && (phase.Writing? && phase.totals.pending == 0 ==> MembersSettled(t, a))
  }

  ghost predicate RightAt(s: Sys, a: Cid) {
    DoneRight(s.db, a) && PhaseRight(s.db, s.phase, a)
  }

  /** A permanent failure of `a`, which is finalized, loses its record. */
  ghost predicate Reopens(t: Db, f: map<Cid, Failure>, a: Cid) {
    && a in t.archives && t.archives[a].status == Done
    && exists c :: c in Members(t, a) && c in PermFailed(t) && c !in f
  }

  /**
   The steps that make a stored counter of `a` wrong: losing a member FinalizeArchive
   has counted, and a retry or start-up's requeue of a permanent failure once `a` is
   finalized.
   */
  ghost predicate Spoils(s: Sys, step: Step, a: Cid) {
    || LosesCounted(s, step, a)
    || (step.RetryDoc? && Reopens(s.db, RetryTx(s.db, step.cid).failures, a))
    || (step.Restart? && Reopens(s.db, RequeueTx(s.db).failures, a))
  }

  // ---- Failures cleared ----

  lemma FewerFailuresRight(t: Db, f: map<Cid, Failure>, a: Cid)
    requires DoneRight(t, a) && Exclusion(t)
    requires forall c :: c in f ==> c in t.failures && f[c] == t.failures[c]
    ensures DoneRight(t.(failures := f), a) <==> !Reopens(t, f, a)
  {
    FewerFailuresCount(t, f, a);
    assert Members(t.(failures := f), a) == Members(t, a);
  }

  // ---- Deletions ----

  lemma DeleteDocRight(t: Db, c: Cid, a: Cid)
    requires Consistent(t) && DoneRight(t, a)
    ensures DoneRight(DeleteDocumentTx(t, c), a)
  {
    if (c in t.documents || c in t.failures) && a in t.archives {
      Deletion.DropShrinksLists(t, c, a);
      MinusMembers(Members(t, a), {c});
      if t.archives[a].status == Done {
        Deletion.DropKeepsInStep(t, c, a);
      }
    }
  }

  lemma DeleteDocKeepsSettled(t: Db, c: Cid, a: Cid)
    requires MembersSettled(t, a)
    ensures MembersSettled(DeleteDocumentTx(t, c), a)
  {
    MinusMembers(Members(t, a), {c});
  }

  lemma DeleteArchKeepsSettled(t: Db, b: Cid, a: Cid)
    requires MembersSettled(t, a)
    ensures MembersSettled(WithoutArchive(t, b), a)
  {
    if b != a {
      Deletion.DeleteArchiveSparesOthers(t, b, a);
      forall c | c in Members(t, a) && b in t.archives
        ensures c !in Exclusive(t, b)
      {
        assert a in t.members && c in t.members[a];
      }
    }
  }

  lemma DeleteArchRight(t: Db, b: Cid, a: Cid)
    requires DoneRight(t, a)
    ensures DoneRight(WithoutArchive(t, b), a)
  {
    if b in t.archives && b != a && a in t.archives && t.archives[a].status == Done {
      Deletion.DeleteArchiveSparesOthers(t, b, a);
      DeleteArchKeepsSettled(t, b, a);
    }
  }

  lemma AdminRight(workers: nat, s: Sys, step: Step, a: Cid)
    requires Consistent(s.db) && DoneRight(s.db, a) && Admin(step) && Enabled(workers, s, step)
    ensures DoneRight(Do(workers, s, step).db, a) <==>
            !(step.RetryDoc? && Reopens(s.db, RetryTx(s.db, step.cid).failures, a))
  {
    match step {
      case DeleteDoc(c) => DeleteDocRight(s.db, c, a);
      case DeleteArch(b) => DeleteArchRight(s.db, b, a);
      case RetryDoc(c) => FewerFailuresRight(s.db, RetryTx(s.db, c).failures, a);
    }
  }

  lemma OthersKeepSettled(workers: nat, s: Sys, step: Step, a: Cid)
    requires Consistent(s.db) && ByOthers(step) && Enabled(workers, s, step)
    requires MembersSettled(s.db, a) && !Loses(s.db, step, a)
    ensures MembersSettled(Do(workers, s, step).db, a)
  {
    match step {
      case DeleteDoc(c) => DeleteDocKeepsSettled(s.db, c, a);
      case DeleteArch(b) => DeleteArchKeepsSettled(s.db, b, a);
      case RetryDoc(c) => assert Members(RetryTx(s.db, c), a) == Members(s.db, a);
      case Submit(b, owner) => assert Members(AddArchiveTx(s.db, b, owner), a) == Members(s.db, a);
      case _ =>
    }
  }

  // ---- Commits ----

  lemma CommitRight(t: Db, c: Cid, o: Outcome, rowid: nat, a: Cid)
    requires DoneRight(t, a) && c !in Settled(t)
    ensures DoneRight(Record(t, c, o, rowid), a)
  {
    var u := Record(t, c, o, rowid);
    Confluence.RecordKeepsArchives(t, c, o, rowid);
    if a in t.archives && t.archives[a].status == Done {
      forall d | d in Members(t, a)
        ensures d in t.documents <==> d in u.documents
        ensures d in PermFailed(t) <==> d in PermFailed(u)
      {
        RecordSparesOthers(t, c, o, rowid, d);
        assert StandingOf(u, d) == StandingOf(t, d);
      }
      CountSame(Members(t, a), t.documents.Keys, u.documents.Keys);
      CountSame(Members(t, a), PermFailed(t), PermFailed(u));
    }
  }

  // ---- The dispatcher's steps ----

  /** Its writes to archive rows and lists. */
  predicate WritesRow(step: Step) {
    || step.NoKey? || step.Register? || step.BeginCrawl? || step.CrawlFails? || step.Persist? || step.WriteArchive?
  }

  /** `a` is as it was, its owner aside, or not finalized. */
  ghost predicate SparedOrOpen(t: Db, u: Db, a: Cid) {
    && u.documents == t.documents
    && u.failures == t.failures
    && (a in u.archives && u.archives[a].status == Done ==>
          && Members(u, a) == Members(t, a)
          && a in t.archives && u.archives[a].(owner := "") == t.archives[a].(owner := ""))
  }

  lemma AddArchiveSpares(t: Db, b: Cid, owner: string, a: Cid)
    ensures SparedOrOpen(t, AddArchiveTx(t, b, owner), a)
  {
  }

  lemma MarksSpare(t: Db, b: Cid, reason: string, a: Cid)
    ensures SparedOrOpen(t, CrawlingTx(t, b), a)
    ensures SparedOrOpen(t, FailedTx(t, b, reason), a)
  {
  }

  lemma SetDocsSpares(t: Db, b: Cid, docs: seq<Cid>, a: Cid)
    ensures SparedOrOpen(t, SetDocsTx(t, b, docs), a)
  {
  }

  lemma FinalizeSpares(t: Db, b: Cid, n: Totals, a: Cid)
    requires a != b
    ensures SparedOrOpen(t, FinalizeTx(t, b, n), a)
  {
  }

  lemma RowStepSpares(workers: nat, s: Sys, step: Step, a: Cid)
    requires Enabled(workers, s, step) && (step.Submit? || WritesRow(step))
    requires !(step.WriteArchive? && s.phase.archive == a)
    ensures SparedOrOpen(s.db, Do(workers, s, step).db, a)
  {
    match step {
      case Submit(b, owner) => AddArchiveSpares(s.db, b, owner, a);
      case NoKey =>
        if s.phase.job.ArchiveJob? {
          MarksSpare(s.db, s.phase.job.archive, "no API key configured for indexing", a);
        }
      case Register => AddArchiveSpares(s.db, s.phase.job.archive, s.phase.job.owner, a);
      case BeginCrawl => MarksSpare(s.db, s.phase.archive, "", a);
      case CrawlFails(reason) => MarksSpare(s.db, s.phase.archive, reason, a);
      case Persist(docs) => SetDocsSpares(s.db, s.phase.archive, docs, a);
      case WriteArchive => FinalizeSpares(s.db, s.phase.archive, s.phase.totals, a);
    }
  }

  lemma RowStepRight(workers: nat, s: Sys, step: Step, a: Cid)
    requires DoneRight(s.db, a) && PhaseRight(s.db, s.phase, a) && Enabled(workers, s, step)
    requires step.Submit? || WritesRow(step)
    ensures DoneRight(Do(workers, s, step).db, a)
  {
    if step.WriteArchive? && s.phase.archive == a {
      WriteRepairs(workers, s, a);
    } else {
      RowStepSpares(workers, s, step, a);
    }
  }

  /** Right counts written are right stored, whatever was stored before. */
  lemma WriteRepairs(workers: nat, s: Sys, a: Cid)
    requires s.phase.Writing? && s.phase.archive == a && PhaseRight(s.db, s.phase, a)
    ensures RightAt(Do(workers, s, WriteArchive), a)
  {
    FinalizeCounts(s.db, a, s.phase.totals);
    assert Members(FinalizeTx(s.db, a, s.phase.totals), a) == Members(s.db, a);
  }

  lemma NonePending(t: Db, docs: seq<Cid>)
    requires PendingOf(t, docs) == []
    ensures forall c :: c in docs ==> c in Settled(t)
  {
    MinusMembers(docs, Settled(t));
    assert forall c :: c in docs && c !in Settled(t) ==> c in PendingOf(t, docs);
  }

  lemma CompleteRight(t: Db, b: Cid, bodies: seq<Body>, failed: nat, n: Totals, a: Cid)
    requires PhaseRight(t, Finalizing(b, CountingPending(bodies, failed)), a)
    requires n.indexed == |bodies| && n.failed == failed && n.pending == |PendingOf(t, Members(t, b))|
    ensures PhaseRight(t, Writing(b, n), a)
  {
    if n.pending == 0 {
      NonePending(t, Members(t, b));
    }
  }

  lemma ReadPendingRight(workers: nat, s: Sys, a: Cid)
    requires PhaseRight(s.db, s.phase, a) && Enabled(workers, s, ReadPending)
    ensures PhaseRight(s.db, Do(workers, s, ReadPending).phase, a)
  {
    var totals := Do(workers, s, ReadPending).phase.totals;
    CompleteRight(s.db, s.phase.archive, s.phase.at.bodies, s.phase.at.failed, totals, a);
  }

  lemma ReadPhaseRight(workers: nat, s: Sys, step: Step, a: Cid)
    requires PhaseRight(s.db, s.phase, a) && Enabled(workers, s, step) && Reads(step)
    ensures Do(workers, s, step).db == s.db && PhaseRight(s.db, Do(workers, s, step).phase, a)
  {
    ReadOnlyStepKeepsDb(workers, s, step);
    if step.ReadPending? {
      ReadPendingRight(workers, s, a);
    } else if step.ReadRows? {
      Invariants.BodiesCount(s.db, Members(s.db, s.phase.archive));
    }
  }

  lemma OtherPhaseRight(workers: nat, s: Sys, step: Step, a: Cid)
    requires Consistent(s.db) && PhaseRight(s.db, s.phase, a) && ByOthers(step) && Enabled(workers, s, step)
    ensures PhaseRight(Do(workers, s, step).db, s.phase, a) <==> !LosesCounted(s, step, a)
    ensures Do(workers, s, step).phase == s.phase
  {
    OtherCounts(workers, s, step, a);
    if s.phase.Writing? && s.phase.totals.pending == 0 && Finalizes(s.phase, a) && !LosesCounted(s, step, a) {
      OthersKeepSettled(workers, s, step, a);
    }
  }

  /** Whatever state `a` is in, a finalization of it goes wrong exactly when a member it has counted is lost. */
  lemma StepPhaseRightIff(workers: nat, s: Sys, step: Step, a: Cid)
    requires Consistent(s.db) && PhaseRight(s.db, s.phase, a) && Enabled(workers, s, step)
    ensures PhaseRight(Do(workers, s, step).db, Do(workers, s, step).phase, a) <==> !LosesCounted(s, step, a)
  {
    if ByOthers(step) {
      OtherPhaseRight(workers, s, step, a);
    } else if Reads(step) {
      ReadPhaseRight(workers, s, step, a);
    } else {
      LeavesFinalizing(workers, s, step);
    }
  }

  lemma LeavesFinalizing(workers: nat, s: Sys, step: Step)
    requires Enabled(workers, s, step) && !Meanwhile(step)
    ensures var p := Do(workers, s, step).phase; !p.Writing? && (p.Finalizing? ==> p.at.Checking?)
    ensures forall a :: !LosesCounted(s, step, a)
  {
  }

  /** A step keeps the counters of `a` right if and only if it does not spoil them, whatever other archives store. */
  lemma StepRightIff(workers: nat, s: Sys, step: Step, a: Cid)
    requires Inv(s) && RightAt(s, a) && Enabled(workers, s, step)
    ensures RightAt(Do(workers, s, step), a) <==> !Spoils(s, step, a)
  {
    StepPhaseRightIff(workers, s, step, a);
    if Admin(step) {
      AdminRight(workers, s, step, a);
    } else if step.Restart? {
      FewerFailuresRight(s.db, RequeueTx(s.db).failures, a);
    } else if step.Commit? {
      CommitRight(s.db, s.phase.slots[step.slot].cid, step.outcome, step.rowid, a);
    } else if ReadsOnly(step) {
      ReadOnlyStepKeepsDb(workers, s, step);
    } else {
      RowStepRight(workers, s, step, a);
    }
  }

  ghost predicate Unspoiled(workers: nat, s: Sys, steps: seq<Step>, a: Cid)
    requires CanRun(workers, s, steps)
    decreases |steps|
  {
    steps == [] || (!Spoils(s, steps[0], a) && Unspoiled(workers, Do(workers, s, steps[0]), steps[1..], a))
  }

  /** Along every run without a step that spoils `a`, its stored counters are right whenever it is finalized. */
  lemma {:induction false} RunStaysRight(workers: nat, s: Sys, steps: seq<Step>, a: Cid)
    requires Inv(s) && RightAt(s, a) && CanRun(workers, s, steps) && Unspoiled(workers, s, steps, a)
    ensures RightAt(Run(workers, s, steps), a)
    decreases |steps|
  {
    if steps != [] {
      StepKeepsInv(workers, s, steps[0]);
      StepRightIff(workers, s, steps[0], a);
      RunStaysRight(workers, Do(workers, s, steps[0]), steps[1..], a);
    }
  }

  lemma {:induction false} RunKeepsPhaseRight(workers: nat, s: Sys, steps: seq<Step>, a: Cid)
    requires Inv(s) && PhaseRight(s.db, s.phase, a) && CanRun(workers, s, steps)
    requires LosesNothing(workers, s, steps, a)
    ensures PhaseRight(Run(workers, s, steps).db, Run(workers, s, steps).phase, a)
    decreases |steps|
  {
    if steps != [] {
      StepKeepsInv(workers, s, steps[0]);
      StepPhaseRightIff(workers, s, steps[0], a);
      RunKeepsPhaseRight(workers, Do(workers, s, steps[0]), steps[1..], a);
    }
  }

  /**
   Finalizing again repairs: however wrong the stored counters of `a` were, any run
   that loses nothing counted and ends in writing `a` leaves them right.
   */
  lemma RefinalizingRepairs(workers: nat, s: Sys, steps: seq<Step>, a: Cid)
    requires Inv(s) && !Finalizes(s.phase, a) && CanRun(workers, s, steps)
    requires LosesNothing(workers, s, steps, a)
    requires Run(workers, s, steps).phase.Writing? && Run(workers, s, steps).phase.archive == a
    ensures RightAt(Do(workers, Run(workers, s, steps), WriteArchive), a)
  {
    assert PhaseRight(Run(workers, s, steps).db, Run(workers, s, steps).phase, a) by {
      RunKeepsPhaseRight(workers, s, steps, a);
    }
    WriteRepairs(workers, Run(workers, s, steps), a);
  }

  // ---- Reopened archives and crashes ----

  ghost predicate HasJob(s: Sys, a: Cid) {
    (exists owner :: ArchiveJob(a, owner) in s.entering) || (exists owner :: ArchiveJob(a, owner) in s.queue)
  }

  /** After a crash an archive has a job if and only if it is queued, crawling or indexing. */
  lemma JobAfterCrashIff(workers: nat, s: Sys, order: seq<Cid>, a: Cid)
    requires Enabled(workers, s, Restart(order))
    ensures HasJob(Do(workers, s, Restart(order)), a) <==>
            a in s.db.archives && s.db.archives[a].status in {Queued, Crawling, Indexing}
  {
    var u := Do(workers, s, Restart(order));
    if a in order {
      var k :| 0 <= k < |order| && order[k] == a;
      assert u.queue[k] == ArchiveJob(a, "");
    }
    if owner :| ArchiveJob(a, owner) in u.queue {
      var k :| 0 <= k < |order| && u.queue[k] == ArchiveJob(a, owner);
      assert order[k] in order;
    }
  }

  lemma ClearedFailureShows(t: Db, f: map<Cid, Failure>, a: Cid, c: Cid)
    requires Exclusion(t) && DoneRight(t, a) && a in t.archives && t.archives[a].status == Done
    requires c in Members(t, a) && c in PermFailed(t) && c !in f
    requires forall d :: d in f ==> d in t.failures && f[d] == t.failures[d]
    ensures var u := t.(failures := f); c in Members(u, a) && c !in Settled(u) && !InStep(u, a)
  {
    FewerFailuresCount(t, f, a);
    assert Members(t.(failures := f), a) == Members(t, a);
  }

  /**
   So a retry is lost when the process is killed before the job it queued is done:
   the member is unsettled, the counters are stale, and no job will mend either.
   */
  lemma CrashLosesRetry(workers: nat, s: Sys, a: Cid, c: Cid, order: seq<Cid>)
    requires Exclusion(s.db) && DoneRight(s.db, a) && a in s.db.archives && s.db.archives[a].status == Done
    requires c in Members(s.db, a) && c in PermFailed(s.db)
    requires Distinct(order) && forall b :: b in order <==> b in Resumable(s.db)
    ensures var steps := [RetryDoc(c), Submit(a, ""), Restart(order)];
            && CanRun(workers, s, steps)
            && var u := Run(workers, s, steps);
            && u.db.archives == s.db.archives && c in Members(u.db, a) && c !in Settled(u.db)
            && !InStep(u.db, a) && !HasJob(u, a)
  {
    var s1 := Do(workers, s, RetryDoc(c));
    var s2 := Do(workers, s1, Submit(a, ""));
    assert s2.db == RetryTx(s.db, c);
    assert Do(workers, s2, Restart(order)).db == s.db.(failures := RequeueTx(s2.db).failures);
    RunOfThree(workers, s, RetryDoc(c), Submit(a, ""), Restart(order));
    JobAfterCrashIff(workers, s2, order, a);
    ClearedFailureShows(s.db, RequeueTx(s2.db).failures, a, c);
  }
}
