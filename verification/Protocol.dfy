/**
 indexer.go, with main.go's start-up: submitters, the dispatcher, the worker
 pool, admin actions and crashes as one step system. A step is one write
 transaction, one read the dispatcher acts on, or one channel operation; any
 interleaving of enabled steps is a run.
 */
module Protocol {
  import opened Schema
  import opened Seqs
  import Invariants
  import Deletion

  /** Owners are given as AddArchive trims them. */
  datatype Job = ArchiveJob(archive: Cid, owner: string) | DocsJob(docs: seq<Cid>)

  /** What Pipeline.Process returns, ErrRateLimited apart. */
  datatype Outcome = Indexed(body: Body) | Skipped | Fails(reason: string)

  /** A pending CID of the current round: undispatched, with a worker, committed but not yet subtracted, done. */
  datatype Progress = Waiting | Busy | Owing | Finished

  datatype Slot = Slot(cid: Cid, at: Progress)

  /** Whether a round belongs to an archive (which loops) or to a documents job (which does not). */
  datatype Target = Whole(archive: Cid) | Loose

  /** How far FinalizeArchive has got with its queries, one at a time, and what they gave. */
  datatype Reading =
    | Checking
    | CountingRows
    | CountingFailed(bodies: seq<Body>)
    | CountingPending(bodies: seq<Body>, failed: nat)

  datatype Phase =
    | Idle
    | Received(job: Job)
    | Registered(archive: Cid)
    | Fetching(archive: Cid)
    | Looping(target: Target, docs: seq<Cid>, rounds: nat)
    | Round(target: Target, docs: seq<Cid>, rounds: nat, slots: seq<Slot>)
    | Finalizing(archive: Cid, at: Reading)
    | Writing(archive: Cid, totals: Totals)

  /** `entering` holds jobs whose submitter has yet to send them. */
  datatype Sys = Sys(db: Db, entering: multiset<Job>, queue: seq<Job>, phase: Phase, pending: nat)

  datatype Step =
    | Submit(archive: Cid, owner: string)
    | SubmitDocs(docs: seq<Cid>)
    | Enqueue(job: Job)
    | Receive
    | NoKey
    | Register
    | Resume
    | BeginCrawl
    | CrawlFails(reason: string)
    | Persist(docs: seq<Cid>)
    | StartDocs
    | NoneLeft
    | BeginRound
    | Take(slot: nat)
    | RateLimited(slot: nat)
    | Commit(slot: nat, outcome: Outcome, rowid: nat)
    | Decrement(slot: nat)
    | EndRound
    | CheckArchive
    | ReadRows
    | ReadFailed
    | ReadPending
    | WriteArchive
    | Restart(order: seq<Cid>)
    | DeleteDoc(cid: Cid)
    | DeleteArch(cid: Cid)
    | RetryDoc(cid: Cid)

  predicate Admin(step: Step) {
    step.DeleteDoc? || step.DeleteArch? || step.RetryDoc?
  }

  // ---- Slots ----

  function Cids(slots: seq<Slot>): seq<Cid> {
    seq(|slots|, i requires 0 <= i < |slots| => slots[i].cid)
  }

  function States(slots: seq<Slot>): seq<Progress> {
    seq(|slots|, i requires 0 <= i < |slots| => slots[i].at)
  }

  function FreshSlots(cids: seq<Cid>): seq<Slot> {
    seq(|cids|, i requires 0 <= i < |cids| => Slot(cids[i], Waiting))
  }

  function Move(slots: seq<Slot>, i: nat, at: Progress): seq<Slot>
    requires i < |slots|
  {
    slots[i := slots[i].(at := at)]
  }

  function FailureCount(t: Db, c: Cid): nat {
    if c in t.failures then t.failures[c].count else 0
  }

  /** The transaction a worker commits for `c`. */
  function Record(t: Db, c: Cid, o: Outcome, rowid: nat): Db {
    match o
    case Indexed(b) => AddTx(t, c, b, rowid)
    case Skipped => SkipTx(t, c)
    case Fails(reason) => FailTx(t, c, reason)
  }

  // ---- Steps ----

  predicate InRound(s: Sys, i: nat, at: Progress) {
    s.phase.Round? && i < |s.phase.slots| && s.phase.slots[i].at == at
  }

  ghost predicate Enabled(workers: nat, s: Sys, step: Step) {
    match step
    case Submit(_, _) => true
    case SubmitDocs(docs) => docs != [] && Distinct(docs)
    case Enqueue(job) => job in s.entering
    case Receive => s.phase.Idle? && s.queue != []
    case NoKey => s.phase.Received?
    case Register => s.phase.Received? && s.phase.job.ArchiveJob?
    case Resume => s.phase.Registered? && Members(s.db, s.phase.archive) != []
    case BeginCrawl => s.phase.Registered? && Members(s.db, s.phase.archive) == []
    case CrawlFails(_) => s.phase.Fetching?
    case Persist(docs) => s.phase.Fetching? && Distinct(docs)
    case StartDocs => s.phase.Received? && s.phase.job.DocsJob?
    case NoneLeft => s.phase.Looping? && PendingOf(s.db, s.phase.docs) == []
    case BeginRound => s.phase.Looping? && PendingOf(s.db, s.phase.docs) != []
    case Take(i) =>
      && InRound(s, i, Waiting)
      && (forall j :: 0 <= j < i ==> s.phase.slots[j].at != Waiting)
      && CountIn(States(s.phase.slots), {Busy, Owing}) < workers
    case RateLimited(i) => InRound(s, i, Busy)
    case Commit(i, o, rowid) => InRound(s, i, Busy) && FreshRowid(s.db, s.phase.slots[i].cid, rowid)
    case Decrement(i) => InRound(s, i, Owing)
    case EndRound => s.phase.Round? && forall i :: 0 <= i < |s.phase.slots| ==> s.phase.slots[i].at == Finished
    case CheckArchive => s.phase.Finalizing? && s.phase.at.Checking?
    case ReadRows => s.phase.Finalizing? && s.phase.at.CountingRows?
    case ReadFailed => s.phase.Finalizing? && s.phase.at.CountingFailed?
    case ReadPending => s.phase.Finalizing? && s.phase.at.CountingPending?
    case WriteArchive => s.phase.Writing?
    case Restart(order) => Distinct(order) && forall a :: a in order <==> a in Resumable(s.db)
    case DeleteDoc(_) => true
    case DeleteArch(_) => true
    case RetryDoc(_) => true
  }

  function Resubmit(order: seq<Cid>): seq<Job> {
    seq(|order|, i requires 0 <= i < |order| => ArchiveJob(order[i], ""))
  }

  ghost function Do(workers: nat, s: Sys, step: Step): Sys
    requires Enabled(workers, s, step)
  {
    match step
    case Submit(a, owner) =>
      s.(db := AddArchiveTx(s.db, a, owner), entering := s.entering + multiset{ArchiveJob(a, owner)})
    case SubmitDocs(docs) => s.(entering := s.entering + multiset{DocsJob(docs)})
    case Enqueue(job) => s.(entering := s.entering - multiset{job}, queue := s.queue + [job])
    case Receive => s.(phase := Received(s.queue[0]), queue := s.queue[1..])
    case NoKey =>
      s.(phase := Idle,
         db := if s.phase.job.ArchiveJob?
               then FailedTx(s.db, s.phase.job.archive, "no API key configured for indexing") else s.db)
    case Register =>
      s.(db := AddArchiveTx(s.db, s.phase.job.archive, s.phase.job.owner), phase := Registered(s.phase.job.archive))
    case Resume => s.(phase := Looping(Whole(s.phase.archive), Members(s.db, s.phase.archive), 0))
    case BeginCrawl => s.(db := CrawlingTx(s.db, s.phase.archive), phase := Fetching(s.phase.archive))
    case CrawlFails(reason) => s.(db := FailedTx(s.db, s.phase.archive, reason), phase := Idle)
    case Persist(docs) =>
      s.(db := SetDocsTx(s.db, s.phase.archive, docs), phase := Looping(Whole(s.phase.archive), docs, 0))
    case StartDocs => s.(phase := Looping(Loose, s.phase.job.docs, 0))
    case NoneLeft =>
      s.(pending := 0, phase := if s.phase.target.Whole? then Finalizing(s.phase.target.archive, Checking) else Idle)
    case BeginRound =>
      var p := PendingOf(s.db, s.phase.docs);
      s.(pending := |p|, phase := Round(s.phase.target, s.phase.docs, s.phase.rounds, FreshSlots(p)))
    case Take(i) => s.(phase := s.phase.(slots := Move(s.phase.slots, i, Busy)))
    case RateLimited(_) => s
    case Commit(i, o, rowid) =>
      var c := s.phase.slots[i].cid;
      var db := Record(s.db, c, o, rowid);
      var owes := o.Fails? ==> c in PermFailed(db);
      s.(db := db, phase := s.phase.(slots := Move(s.phase.slots, i, if owes then Owing else Finished)))
    case Decrement(i) =>
      s.(pending := if s.pending > 0 then s.pending - 1 else 0,
         phase := s.phase.(slots := Move(s.phase.slots, i, Finished)))
    case EndRound =>
      s.(phase := if s.phase.target.Whole?
                  then Looping(s.phase.target, s.phase.docs, s.phase.rounds + 1) else Idle)
    case CheckArchive =>
      s.(phase := if s.phase.archive in s.db.archives then Finalizing(s.phase.archive, CountingRows) else Idle)
    case ReadRows =>
      s.(phase := Finalizing(s.phase.archive, CountingFailed(Bodies(s.db, Members(s.db, s.phase.archive)))))
    case ReadFailed =>
      var failed := CountIn(Members(s.db, s.phase.archive), PermFailed(s.db));
      s.(phase := Finalizing(s.phase.archive, CountingPending(s.phase.at.bodies, failed)))
    case ReadPending =>
      var pending := |PendingOf(s.db, Members(s.db, s.phase.archive))|;
      s.(phase := Writing(s.phase.archive, TotalsOf(s.phase.at.bodies, s.phase.at.failed, pending)))
    case WriteArchive => s.(db := FinalizeTx(s.db, s.phase.archive, s.phase.totals), phase := Idle)
    case Restart(order) => Sys(RequeueTx(s.db), multiset{}, Resubmit(order), Idle, 0)
    case DeleteDoc(c) => s.(db := DeleteDocumentTx(s.db, c))
    case DeleteArch(a) => s.(db := WithoutArchive(s.db, a))
    case RetryDoc(c) => s.(db := RetryTx(s.db, c))
  }

  // ---- Runs ----

  ghost predicate CanRun(workers: nat, s: Sys, steps: seq<Step>)
    decreases |steps|
  {
    steps == [] || (Enabled(workers, s, steps[0]) && CanRun(workers, Do(workers, s, steps[0]), steps[1..]))
  }

  ghost function Run(workers: nat, s: Sys, steps: seq<Step>): Sys
    requires CanRun(workers, s, steps)
    decreases |steps|
  {
    if steps == [] then s else Run(workers, Do(workers, s, steps[0]), steps[1..])
  }

  lemma RunOfTwo(workers: nat, s: Sys, x: Step, y: Step)
    requires Enabled(workers, s, x) && Enabled(workers, Do(workers, s, x), y)
    ensures CanRun(workers, s, [x, y])
    ensures Run(workers, s, [x, y]) == Do(workers, Do(workers, s, x), y)
  {
    var s1 := Do(workers, s, x);
    var s2 := Do(workers, s1, y);
    assert [x, y][1..] == [y] && [y][1..] == [];
    assert CanRun(workers, s2, []) && Run(workers, s2, []) == s2;
    assert CanRun(workers, s1, [y]) && Run(workers, s1, [y]) == s2;
  }

  lemma RunOfThree(workers: nat, s: Sys, x: Step, y: Step, z: Step)
    requires Enabled(workers, s, x) && Enabled(workers, Do(workers, s, x), y)
    requires Enabled(workers, Do(workers, Do(workers, s, x), y), z)
    ensures CanRun(workers, s, [x, y, z])
    ensures Run(workers, s, [x, y, z]) == Do(workers, Do(workers, Do(workers, s, x), y), z)
  {
    RunOfTwo(workers, Do(workers, s, x), y, z);
    assert [x, y, z][1..] == [y, z];
  }

  // ---- What every run keeps, whatever the schedule, the outcomes, the crashes and the admin do ----

  ghost predicate JobOk(job: Job) {
    job.DocsJob? ==> Distinct(job.docs)
  }

  /** No slot shares its CID, and a CID without a recorded outcome is not settled. */
  ghost predicate SlotsOk(t: Db, slots: seq<Slot>) {
    && Distinct(Cids(slots))
    && forall i :: 0 <= i < |slots| && slots[i].at in {Waiting, Busy} ==> slots[i].cid !in Settled(t)
  }

  ghost predicate PhaseOk(t: Db, phase: Phase) {
    match phase
    case Received(job) => JobOk(job)
    case Looping(_, docs, _) => Distinct(docs)
    case Round(_, docs, _, slots) => Distinct(docs) && SlotsOk(t, slots)
    case _ => true
  }

  ghost predicate Inv(s: Sys) {
    && Consistent(s.db)
    && (forall job :: job in s.entering ==> JobOk(job))
    && (forall job :: job in s.queue ==> JobOk(job))
    && PhaseOk(s.db, s.phase)
  }

  lemma MoveKeepsCids(slots: seq<Slot>, i: nat, at: Progress)
    requires i < |slots|
    ensures Cids(Move(slots, i, at)) == Cids(slots)
    ensures States(Move(slots, i, at)) == States(slots)[i := at]
  {
  }

  lemma FreshSlotsOk(t: Db, docs: seq<Cid>)
    requires Distinct(docs)
    ensures SlotsOk(t, FreshSlots(PendingOf(t, docs)))
    ensures Cids(FreshSlots(PendingOf(t, docs))) == PendingOf(t, docs)
  {
    MinusMembers(docs, Settled(t));
    assert Cids(FreshSlots(PendingOf(t, docs))) == PendingOf(t, docs);
    forall i | 0 <= i < |PendingOf(t, docs)|
      ensures PendingOf(t, docs)[i] !in Settled(t)
    {
      assert PendingOf(t, docs)[i] in PendingOf(t, docs);
    }
  }

  lemma RecordKeepsValid(t: Db, c: Cid, o: Outcome, rowid: nat)
    requires Consistent(t) && c !in t.documents && FreshRowid(t, c, rowid)
    ensures Consistent(Record(t, c, o, rowid))
    ensures Counted(t) ==> Counted(Record(t, c, o, rowid))
  {
    match o {
      case Indexed(b) => Invariants.AddKeepsValid(t, c, b, rowid);
      case Skipped => Invariants.FailKeepsValidIff(t, c, "");
      case Fails(reason) => Invariants.FailKeepsValidIff(t, c, reason);
    }
  }

  lemma RecordSettlesOnly(t: Db, c: Cid, o: Outcome, rowid: nat, d: Cid)
    requires d != c
    ensures d in Settled(Record(t, c, o, rowid)) <==> d in Settled(t)
  {
  }

  lemma RecordKeepsSlotsOk(t: Db, slots: seq<Slot>, i: nat, o: Outcome, rowid: nat, at: Progress)
    requires SlotsOk(t, slots) && i < |slots| && at in {Owing, Finished}
    ensures SlotsOk(Record(t, slots[i].cid, o, rowid), Move(slots, i, at))
  {
    MoveKeepsCids(slots, i, at);
    forall j | 0 <= j < |slots| && j != i
      ensures slots[j].cid in Settled(Record(t, slots[i].cid, o, rowid)) <==> slots[j].cid in Settled(t)
    {
      assert Cids(slots)[i] != Cids(slots)[j];
      RecordSettlesOnly(t, slots[i].cid, o, rowid, slots[j].cid);
    }
  }

  /** Recording the outcome of a busy slot keeps the tables consistent and the other slots unsettled. */
  lemma CommitKeepsInv(s: Sys, i: nat, o: Outcome, rowid: nat)
    requires Inv(s) && Enabled(0, s, Commit(i, o, rowid))
    ensures Inv(Do(0, s, Commit(i, o, rowid)))
    ensures Counted(s.db) ==> Counted(Do(0, s, Commit(i, o, rowid)).db)
  {
    var slots, c := s.phase.slots, s.phase.slots[i].cid;
    var u := Do(0, s, Commit(i, o, rowid));
    RecordKeepsValid(s.db, c, o, rowid);
    RecordKeepsSlotsOk(s.db, slots, i, o, rowid, u.phase.slots[i].at);
  }

  lemma FewerSettledKeepInv(s: Sys, t: Db)
    requires Inv(s) && Consistent(t) && Settled(t) <= Settled(s.db)
    ensures Inv(s.(db := t))
  {
  }

  /** Admin steps settle nothing. */
  lemma AdminSettlesNothing(workers: nat, s: Sys, step: Step)
    requires Admin(step) && Enabled(workers, s, step)
    ensures Settled(Do(workers, s, step).db) <= Settled(s.db)
    ensures Do(workers, s, step).phase == s.phase
  {
  }

  lemma AdminKeepsInv(workers: nat, s: Sys, step: Step)
    requires Inv(s) && Admin(step) && Enabled(workers, s, step)
    ensures Inv(Do(workers, s, step))
    ensures Counted(s.db) ==> Counted(Do(workers, s, step).db)
  {
    match step {
      case DeleteDoc(c) => Deletion.DeleteDocumentKeepsValid(s.db, c);
      case DeleteArch(a) => Deletion.DeleteArchiveKeepsValid(s.db, a);
      case RetryDoc(c) => Invariants.FewerFailuresKeepValid(s.db, s.db.failures - {c});
    }
    AdminSettlesNothing(workers, s, step);
    FewerSettledKeepInv(s, Do(workers, s, step).db);
  }

  lemma RestartKeepsInv(workers: nat, s: Sys, order: seq<Cid>)
    requires Inv(s) && Enabled(workers, s, Restart(order))
    ensures Inv(Do(workers, s, Restart(order)))
    ensures Counted(s.db) ==> Counted(Do(workers, s, Restart(order)).db)
  {
    Invariants.FewerFailuresKeepValid(s.db, RequeueTx(s.db).failures);
  }

  lemma SubmitKeepsInv(workers: nat, s: Sys, a: Cid, owner: string)
    requires Inv(s)
    ensures Inv(Do(workers, s, Submit(a, owner)))
    ensures Counted(s.db) ==> Counted(Do(workers, s, Submit(a, owner)).db)
  {
    Invariants.AddArchiveKeepsValid(s.db, a, owner);
    assert Settled(AddArchiveTx(s.db, a, owner)) == Settled(s.db);
  }

  /** The dispatcher's own writes to the archive row leave it in a phase that promises nothing. */
  lemma ArchiveStepKeepsInv(workers: nat, s: Sys, step: Step)
    requires Inv(s) && Enabled(workers, s, step)
    requires step.NoKey? || step.Register? || step.BeginCrawl? || step.CrawlFails? || step.WriteArchive?
    ensures Inv(Do(workers, s, step))
    ensures Counted(s.db) ==> Counted(Do(workers, s, step).db)
  {
    match step {
      case NoKey =>
        if s.phase.job.ArchiveJob? {
          Invariants.MarkFailedKeepsValid(s.db, s.phase.job.archive, "no API key configured for indexing");
        }
      case Register => Invariants.AddArchiveKeepsValid(s.db, s.phase.job.archive, s.phase.job.owner);
      case BeginCrawl => Invariants.CrawlingKeepsValid(s.db, s.phase.archive);
      case CrawlFails(reason) => Invariants.MarkFailedKeepsValid(s.db, s.phase.archive, reason);
      case WriteArchive => Invariants.FinalizeKeepsValid(s.db, s.phase.archive, s.phase.totals);
    }
  }

  /** The archive being persisted was deleted while it was crawled. */
  predicate Orphans(s: Sys, step: Step) {
    step.Persist? && s.phase.Fetching? && s.phase.archive !in s.db.archives && step.docs != []
  }

  lemma PersistKeepsInv(workers: nat, s: Sys, docs: seq<Cid>)
    requires Inv(s) && Enabled(workers, s, Persist(docs))
    ensures Inv(Do(workers, s, Persist(docs)))
    ensures Counted(s.db) ==> (Counted(Do(workers, s, Persist(docs)).db) <==> !Orphans(s, Persist(docs)))
  {
    Invariants.SetDocsKeepsConsistent(s.db, s.phase.archive, docs);
    if Counted(s.db) {
      Invariants.SetDocsKeepsCountedIff(s.db, s.phase.archive, docs);
    }
  }

  /** The queries of FinalizeArchive. */
  predicate Reads(step: Step) {
    step.CheckArchive? || step.ReadRows? || step.ReadFailed? || step.ReadPending?
  }

  /** Steps that only read the database. */
  predicate ReadsOnly(step: Step) {
    || step.SubmitDocs? || step.Enqueue? || step.Receive? || step.Resume? || step.StartDocs? || step.NoneLeft?
    || step.BeginRound? || step.Take? || step.RateLimited? || step.Decrement? || step.EndRound?
    || Reads(step)
  }

  lemma MoveKeepsSlotsOk(t: Db, slots: seq<Slot>, i: nat, at: Progress)
    requires SlotsOk(t, slots) && i < |slots|
    requires at in {Owing, Finished} || slots[i].at in {Waiting, Busy}
    ensures SlotsOk(t, Move(slots, i, at))
  {
    MoveKeepsCids(slots, i, at);
  }

  lemma SlotStepKeepsInv(workers: nat, s: Sys, step: Step)
    requires Inv(s) && Enabled(workers, s, step) && (step.Take? || step.Decrement?)
    ensures Inv(Do(workers, s, step))
  {
    if step.Take? {
      MoveKeepsSlotsOk(s.db, s.phase.slots, step.slot, Busy);
    } else {
      MoveKeepsSlotsOk(s.db, s.phase.slots, step.slot, Finished);
    }
  }

  lemma ReadOnlyStepKeepsDb(workers: nat, s: Sys, step: Step)
    requires Enabled(workers, s, step) && ReadsOnly(step)
    ensures Do(workers, s, step).db == s.db
  {
  }

  lemma ReadOnlyStepKeepsInv(workers: nat, s: Sys, step: Step)
    requires Inv(s) && Enabled(workers, s, step) && ReadsOnly(step)
    ensures Do(workers, s, step).db == s.db
    ensures Inv(Do(workers, s, step))
  {
    ReadOnlyStepKeepsDb(workers, s, step);
    if step.Take? || step.Decrement? {
      SlotStepKeepsInv(workers, s, step);
    } else if step.BeginRound? {
      FreshSlotsOk(s.db, s.phase.docs);
    } else if Reads(step) {
      assert PhaseOk(s.db, Do(workers, s, step).phase);
    }
  }

  /** Without a key a job is dropped, and the row of an archive job says why. */
  lemma NoKeyFails(workers: nat, s: Sys, a: Cid)
    requires Enabled(workers, s, NoKey)
    ensures var u := Do(workers, s, NoKey);
            && u.phase.Idle? && u.queue == s.queue && u.entering == s.entering
            && u.db == s.db.(archives := u.db.archives)
            && u.db.archives.Keys == s.db.archives.Keys
            && (a in s.db.archives ==>
                  if s.phase.job.ArchiveJob? && s.phase.job.archive == a then
                    u.db.archives[a] == s.db.archives[a].(
                      status := Failed, error := "no API key configured for indexing")
                  else u.db.archives[a] == s.db.archives[a])
  {
  }

  lemma StepKeepsInv(workers: nat, s: Sys, step: Step)
    requires Inv(s) && Enabled(workers, s, step)
    ensures Inv(Do(workers, s, step))
    ensures Counted(s.db) ==> (Counted(Do(workers, s, step).db) <==> !Orphans(s, step))
  {
    if ReadsOnly(step) {
      ReadOnlyStepKeepsInv(workers, s, step);
    } else if Admin(step) {
      AdminKeepsInv(workers, s, step);
    } else if step.Commit? {
      CommitKeepsInv(s, step.slot, step.outcome, step.rowid);
    } else if step.Restart? {
      RestartKeepsInv(workers, s, step.order);
    } else if step.Persist? {
      PersistKeepsInv(workers, s, step.docs);
    } else if step.Submit? {
      SubmitKeepsInv(workers, s, step.archive, step.owner);
    } else {
      ArchiveStepKeepsInv(workers, s, step);
    }
  }

  /**
   In every reachable state the full-text table mirrors the documents, the
   label table is exact, and no CID is both indexed and failing.
   */
  lemma {:induction false} EveryRunStaysConsistent(workers: nat, s: Sys, steps: seq<Step>)
    requires Inv(s) && CanRun(workers, s, steps)
    ensures Inv(Run(workers, s, steps))
    decreases |steps|
  {
    if steps != [] {
      StepKeepsInv(workers, s, steps[0]);
      EveryRunStaysConsistent(workers, Do(workers, s, steps[0]), steps[1..]);
    }
  }

  /** No step of the run persists the list of an archive deleted meanwhile. */
  ghost predicate NeverOrphans(workers: nat, s: Sys, steps: seq<Step>)
    requires CanRun(workers, s, steps)
    decreases |steps|
  {
    steps == [] || (!Orphans(s, steps[0]) && NeverOrphans(workers, Do(workers, s, steps[0]), steps[1..]))
  }

  /** doc_count is the number of membership rows in every state reached without that race. */
  lemma {:induction false} EveryRunStaysCounted(workers: nat, s: Sys, steps: seq<Step>)
    requires Inv(s) && Counted(s.db) && CanRun(workers, s, steps) && NeverOrphans(workers, s, steps)
    ensures Counted(Run(workers, s, steps).db)
    decreases |steps|
  {
    if steps != [] {
      StepKeepsInv(workers, s, steps[0]);
      EveryRunStaysCounted(workers, Do(workers, s, steps[0]), steps[1..]);
    }
  }
}
