/** The round loop ends: rounds are bounded by the retry budget, and every run runs out of steps at rest. */
module Settling {
  import opened Schema
  import opened Seqs
  import opened Protocol
  import opened Fates
  import opened Confluence
  import Invariants

  // ---- At most MAX_RETRIES rounds ----

  /** After `k` rounds an unsettled CID has failed at least `k` times. */
  ghost predicate Tried(t: Db, c: Cid, k: nat) {
    c in Settled(t) || FailureCount(t, c) >= k
  }

  ghost predicate SlotTried(t: Db, slot: Slot, k: nat) {
    Tried(t, slot.cid, if slot.at in {Waiting, Busy} then k else k + 1)
  }

  ghost predicate RoundsOk(t: Db, phase: Phase) {
    match phase
    case Looping(_, docs, k) => forall c :: c in docs ==> Tried(t, c, k)
    case Round(_, docs, k, slots) =>
      && k < MAX_RETRIES
      && (forall i :: 0 <= i < |slots| ==> SlotTried(t, slots[i], k))
      && (forall c :: c in docs ==> c in Settled(t) || c in Cids(slots))
    case _ => true
  }

  lemma {:induction false} RecordKeepsTried(t: Db, c: Cid, o: Outcome, rowid: nat, d: Cid, k: nat)
    requires Tried(t, d, k) && c !in t.documents
    ensures Tried(Record(t, c, o, rowid), d, k)
    ensures d == c ==> Tried(Record(t, c, o, rowid), d, k + 1)
  {
    if d == c {
      RecordedStanding(t, c, o, rowid);
    } else {
      RecordSparesOthers(t, c, o, rowid, d);
      assert StandingOf(Record(t, c, o, rowid), d) == StandingOf(t, d);
    }
  }

  lemma CommitKeepsRounds(workers: nat, s: Sys, i: nat, o: Outcome, rowid: nat)
    requires Inv(s) && RoundsOk(s.db, s.phase) && Enabled(workers, s, Commit(i, o, rowid))
    ensures RoundsOk(Do(workers, s, Commit(i, o, rowid)).db, Do(workers, s, Commit(i, o, rowid)).phase)
  {
    var u := Do(workers, s, Commit(i, o, rowid));
    var slots, c, k := s.phase.slots, s.phase.slots[i].cid, s.phase.rounds;
    MoveKeepsCids(slots, i, u.phase.slots[i].at);
    forall j | 0 <= j < |slots|
      ensures SlotTried(u.db, u.phase.slots[j], k)
    {
      assert SlotTried(s.db, slots[j], k);
      RecordKeepsTried(s.db, c, o, rowid, slots[j].cid, if slots[j].at in {Waiting, Busy} then k else k + 1);
    }
    forall d | d in s.phase.docs
      ensures d in Settled(u.db) || d in Cids(u.phase.slots)
    {
      if d in Settled(s.db) && d != c {
        RecordSparesOthers(s.db, c, o, rowid, d);
      }
      assert Cids(slots)[i] == c;
    }
  }

  lemma BeginRoundKeepsRounds(t: Db, docs: seq<Cid>, k: nat)
    requires forall c :: c in docs ==> Tried(t, c, k)
    requires PendingOf(t, docs) != []
    ensures RoundsOk(t, Round(Loose, docs, k, FreshSlots(PendingOf(t, docs))))
  {
    var p := PendingOf(t, docs);
    MinusMembers(docs, Settled(t));
    assert Cids(FreshSlots(p)) == p;
    forall i | 0 <= i < |p|
      ensures p[i] in docs && p[i] !in Settled(t)
    {
      assert p[i] in p;
    }
    assert Tried(t, p[0], k);
  }

  lemma EndRoundKeepsRounds(t: Db, docs: seq<Cid>, k: nat, slots: seq<Slot>)
    requires RoundsOk(t, Round(Loose, docs, k, slots))
    requires forall i :: 0 <= i < |slots| ==> slots[i].at == Finished
    ensures forall c :: c in docs ==> Tried(t, c, k + 1)
  {
    forall c | c in docs
      ensures Tried(t, c, k + 1)
    {
      if c !in Settled(t) {
        var i :| 0 <= i < |Cids(slots)| && Cids(slots)[i] == c;
        assert SlotTried(t, slots[i], k);
      }
    }
  }

  lemma StepKeepsRounds(workers: nat, s: Sys, step: Step)
    requires Inv(s) && RoundsOk(s.db, s.phase) && Enabled(workers, s, step) && !Admin(step)
    ensures RoundsOk(Do(workers, s, step).db, Do(workers, s, step).phase)
  {
    var u := Do(workers, s, step);
    match step {
      case Commit(i, o, rowid) => CommitKeepsRounds(workers, s, i, o, rowid);
      case BeginRound => BeginRoundKeepsRounds(s.db, s.phase.docs, s.phase.rounds);
      case EndRound => EndRoundKeepsRounds(s.db, s.phase.docs, s.phase.rounds, s.phase.slots);
      case Take(i) =>
        MoveKeepsCids(s.phase.slots, i, Busy);
        assert forall j :: 0 <= j < |s.phase.slots| ==> SlotTried(s.db, s.phase.slots[j], s.phase.rounds);
      case Decrement(i) =>
        MoveKeepsCids(s.phase.slots, i, Finished);
        assert forall j :: 0 <= j < |s.phase.slots| ==> SlotTried(s.db, s.phase.slots[j], s.phase.rounds);
      case Submit(a, owner) => assert u.db.documents == s.db.documents && u.db.failures == s.db.failures;
      case _ =>
    }
  }

  /**
   Without admin actions, whatever the outcomes and crashes, no job starts more
   than MAX_RETRIES rounds: the loop's third round settles everything.
   */
  lemma {:induction false} RoundsAreBounded(workers: nat, s: Sys, steps: seq<Step>)
    requires Inv(s) && RoundsOk(s.db, s.phase) && CanRun(workers, s, steps)
    requires forall i :: 0 <= i < |steps| ==> !Admin(steps[i])
    ensures var u := Run(workers, s, steps);
            && RoundsOk(u.db, u.phase)
            && (u.phase.Round? ==> u.phase.rounds < MAX_RETRIES)
            && (u.phase.Looping? && u.phase.rounds >= MAX_RETRIES ==> PendingOf(u.db, u.phase.docs) == [])
    decreases |steps|
  {
    if steps == [] {
      if s.phase.Looping? && s.phase.rounds >= MAX_RETRIES {
        MinusMembers(s.phase.docs, Settled(s.db));
        assert forall c :: c in s.phase.docs ==> Tried(s.db, c, s.phase.rounds);
        assert forall c :: c !in PendingOf(s.db, s.phase.docs);
        NoMembers(PendingOf(s.db, s.phase.docs));
      }
    } else {
      StepKeepsInv(workers, s, steps[0]);
      StepKeepsRounds(workers, s, steps[0]);
      RoundsAreBounded(workers, Do(workers, s, steps[0]), steps[1..]);
    }
  }

  lemma NoMembers(s: seq<Cid>)
    requires forall c :: c !in s
    ensures s == []
  {
    if s != [] {
      HeadIsMember(s);
    }
  }

  // ---- Every run runs out of steps ----

  /** Steps the process takes by itself towards rest. */
  predicate Internal(step: Step) {
    !step.Submit? && !step.SubmitDocs? && !step.Restart? && !step.RateLimited? && !Admin(step)
  }

  ghost predicate AllInternal(steps: seq<Step>) {
    forall i :: 0 <= i < |steps| ==> Internal(steps[i])
  }

  function Left(at: Progress): nat {
    match at
    case Waiting => 3
    case Busy => 2
    case Owing => 1
    case Finished => 0
  }

  function SlotsLeft(slots: seq<Slot>): (n: nat)
    ensures n <= 3 * |slots|
  {
    if slots == [] then 0 else Left(slots[0].at) + SlotsLeft(slots[1..])
  }

  /** Steps of one round over `n` documents: begin, three per document, end. */
  function RoundCost(n: nat): nat {
    2 + 3 * n
  }

  function QueriesLeft(at: Reading): nat {
    match at
    case Checking => 4
    case CountingRows => 3
    case CountingFailed(_) => 2
    case CountingPending(_, _) => 1
  }

  /** Bound on what the dispatcher still does for its current job, with lists of at most `n` documents. */
  function PhaseCost(n: nat, phase: Phase): nat {
    match phase
    case Idle => 0
    case Received(_) => 9 + MAX_RETRIES * RoundCost(n)
    case Registered(_) => 8 + MAX_RETRIES * RoundCost(n)
    case Fetching(_) => 7 + MAX_RETRIES * RoundCost(n)
    case Looping(_, _, k) => 6 + (if k < MAX_RETRIES then MAX_RETRIES - k else 0) * RoundCost(n)
    case Round(_, _, k, slots) =>
      7 + (if k + 1 < MAX_RETRIES then MAX_RETRIES - k - 1 else 0) * RoundCost(n) + SlotsLeft(slots)
    case Finalizing(_, at) => 1 + QueriesLeft(at)
    case Writing(_, _) => 1
  }

  function JobCost(n: nat): nat {
    10 + MAX_RETRIES * RoundCost(n)
  }

  function Cost(n: nat, s: Sys): nat {
    |s.entering| * (JobCost(n) + 1) + |s.queue| * JobCost(n) + PhaseCost(n, s.phase)
  }

  lemma {:induction false} MoveSpends(slots: seq<Slot>, i: nat, at: Progress)
    requires i < |slots|
    ensures SlotsLeft(Move(slots, i, at)) == SlotsLeft(slots) - Left(slots[i].at) + Left(at)
  {
    if i == 0 {
      assert Move(slots, 0, at)[1..] == slots[1..];
    } else {
      assert Move(slots, i, at)[1..] == Move(slots[1..], i - 1, at);
      MoveSpends(slots[1..], i - 1, at);
    }
  }

  lemma {:induction false} FinishedSlotsAreSpent(slots: seq<Slot>)
    requires forall i :: 0 <= i < |slots| ==> slots[i].at == Finished
    ensures SlotsLeft(slots) == 0
  {
    if slots != [] {
      FinishedSlotsAreSpent(slots[1..]);
    }
  }

  ghost predicate ListsWithin(n: nat, phase: Phase) {
    match phase
    case Looping(_, docs, _) => |docs| <= n
    case Round(_, docs, _, slots) => |docs| <= n && |slots| <= n
    case _ => true
  }

  lemma SlotStepSpends(n: nat, workers: nat, s: Sys, step: Step)
    requires Enabled(workers, s, step) && (step.Take? || step.Decrement? || step.Commit?)
    ensures PhaseCost(n, Do(workers, s, step).phase) < PhaseCost(n, s.phase)
  {
    MoveSpends(s.phase.slots, step.slot, Do(workers, s, step).phase.slots[step.slot].at);
  }

  lemma OneRoundLess(n: nat, k: nat)
    requires k < MAX_RETRIES
    ensures (MAX_RETRIES - k) * RoundCost(n) == (MAX_RETRIES - k - 1) * RoundCost(n) + RoundCost(n)
  {
  }

  lemma BeginRoundSpends(n: nat, workers: nat, s: Sys)
    requires RoundsOk(s.db, s.phase) && ListsWithin(n, s.phase) && Enabled(workers, s, BeginRound)
    ensures PhaseCost(n, Do(workers, s, BeginRound).phase) < PhaseCost(n, s.phase)
  {
    var p, k := PendingOf(s.db, s.phase.docs), s.phase.rounds;
    assert |p| <= n by {
      MinusMembers(s.phase.docs, Settled(s.db));
    }
    assert k < MAX_RETRIES by {
      BeginRoundKeepsRounds(s.db, s.phase.docs, k);
    }
    OneRoundLess(n, k);
    assert SlotsLeft(FreshSlots(p)) <= 3 * n;
  }

  lemma LoopStepSpends(n: nat, workers: nat, s: Sys, step: Step)
    requires RoundsOk(s.db, s.phase) && ListsWithin(n, s.phase)
    requires Enabled(workers, s, step) && (step.BeginRound? || step.EndRound? || step.NoneLeft?)
    ensures PhaseCost(n, Do(workers, s, step).phase) < PhaseCost(n, s.phase)
  {
    if step.BeginRound? {
      BeginRoundSpends(n, workers, s);
    } else if step.EndRound? {
      FinishedSlotsAreSpent(s.phase.slots);
    }
  }

  lemma PhaseStepSpends(n: nat, workers: nat, s: Sys, step: Step)
    requires RoundsOk(s.db, s.phase) && ListsWithin(n, s.phase)
    requires Enabled(workers, s, step) && Internal(step) && !step.Enqueue? && !step.Receive?
    requires !step.StartDocs? && !step.NoKey?
    ensures PhaseCost(n, Do(workers, s, step).phase) < PhaseCost(n, s.phase)
  {
    if step.Take? || step.Decrement? || step.Commit? {
      SlotStepSpends(n, workers, s, step);
    } else if step.BeginRound? || step.EndRound? || step.NoneLeft? {
      LoopStepSpends(n, workers, s, step);
    }
  }

  /** The longest member list a crawl can give (maxDocs, say). */
  ghost predicate CrawlsWithin(env: Env, n: nat) {
    forall a :: |DocsOf(env, a)| <= n
  }

  ghost predicate Paced(env: Env, n: nat, s: Sys) {
    RoundsOk(s.db, s.phase) && CrawlsWithin(env, n) && ListsWithin(n, s.phase)
  }

  /** What the termination argument carries along a run. */
  ghost predicate Bounded(env: Env, base: Db, n: nat, s: Sys) {
    Good(env, base, s) && Paced(env, n, s)
  }

  lemma StepKeepsLists(env: Env, base: Db, n: nat, workers: nat, s: Sys, step: Step)
    requires ListsWithin(n, s.phase) && CrawlsWithin(env, n) && Enabled(workers, s, step)
    requires PhaseGood(env, base, Do(workers, s, step).db, Do(workers, s, step).phase)
    ensures ListsWithin(n, Do(workers, s, step).phase)
  {
    var u := Do(workers, s, step);
    if step.BeginRound? {
      MinusMembers(s.phase.docs, Settled(s.db));
    } else if u.phase.Looping? {
      assert u.phase.docs == DocsOf(env, u.phase.target.archive);
    }
  }

  lemma StepKeepsPaced(env: Env, base: Db, n: nat, workers: nat, s: Sys, step: Step)
    requires Inv(s) && Paced(env, n, s) && Enabled(workers, s, step) && !Admin(step)
    requires PhaseGood(env, base, Do(workers, s, step).db, Do(workers, s, step).phase)
    ensures Paced(env, n, Do(workers, s, step))
  {
    assert RoundsOk(Do(workers, s, step).db, Do(workers, s, step).phase) by {
      StepKeepsRounds(workers, s, step);
    }
    StepKeepsLists(env, base, n, workers, s, step);
  }

  lemma StepKeepsBounded(env: Env, base: Db, n: nat, workers: nat, s: Sys, step: Step)
    requires Bounded(env, base, n, s) && Enabled(workers, s, step) && Calm(env, base, s, step)
    requires step.Restart? ==> AtRest(base) && Safe(env, base, s.db)
    ensures Bounded(env, base, n, Do(workers, s, step))
  {
    StepKeepsGood(env, base, workers, s, step);
    assert !Admin(step);
    StepKeepsPaced(env, base, n, workers, s, step);
  }

  lemma {:induction false} CalmRunKeepsBounded(env: Env, base: Db, n: nat, workers: nat, s: Sys, steps: seq<Step>)
    requires Bounded(env, base, n, s) && CalmRun(env, base, workers, s, steps) && Uninterrupted(steps)
    ensures CanRun(workers, s, steps) && Bounded(env, base, n, Run(workers, s, steps))
    decreases |steps|
  {
    if steps != [] {
      StepKeepsBounded(env, base, n, workers, s, steps[0]);
      CalmRunKeepsBounded(env, base, n, workers, Do(workers, s, steps[0]), steps[1..]);
    }
  }

  lemma QueueStepSpends(n: nat, workers: nat, s: Sys, step: Step)
    requires Enabled(workers, s, step) && (step.Enqueue? || step.Receive?)
    ensures Cost(n, Do(workers, s, step)) < Cost(n, s)
  {
    var u, j := Do(workers, s, step), JobCost(n);
    if step.Enqueue? {
      assert |u.entering| == |s.entering| - 1 && |u.queue| == |s.queue| + 1;
      assert (|s.entering| - 1) * (j + 1) == |s.entering| * (j + 1) - (j + 1);
      assert (|s.queue| + 1) * j == |s.queue| * j + j;
    } else {
      assert (|s.queue| - 1) * j == |s.queue| * j - j;
    }
  }

  lemma InternalStepSpends(env: Env, base: Db, n: nat, workers: nat, s: Sys, step: Step)
    requires Bounded(env, base, n, s)
    requires Enabled(workers, s, step) && Calm(env, base, s, step) && Internal(step)
    ensures Cost(n, Do(workers, s, step)) < Cost(n, s)
  {
    if step.Enqueue? || step.Receive? {
      QueueStepSpends(n, workers, s, step);
    } else {
      assert !step.StartDocs? by {
        assert PhaseGood(env, base, s.db, s.phase);
      }
      PhaseStepSpends(n, workers, s, step);
      assert Do(workers, s, step).entering == s.entering && Do(workers, s, step).queue == s.queue;
    }
  }

  /** No run of internal steps is longer than the cost of where it starts. */
  lemma {:induction false} InternalRunsAreShort(env: Env, base: Db, n: nat, workers: nat, s: Sys, steps: seq<Step>)
    requires Bounded(env, base, n, s)
    requires CalmRun(env, base, workers, s, steps) && AllInternal(steps)
    ensures |steps| <= Cost(n, s)
    decreases |steps|
  {
    if steps != [] {
      InternalStepSpends(env, base, n, workers, s, steps[0]);
      StepKeepsBounded(env, base, n, workers, s, steps[0]);
      InternalRunsAreShort(env, base, n, workers, Do(workers, s, steps[0]), steps[1..]);
    }
  }

  // ---- Something can always be done until nothing is left ----

  lemma {:induction false} FreshRowidExists(rows: map<Cid, DocRow>, among: set<Cid>) returns (r: nat)
    requires among <= rows.Keys
    ensures forall c :: c in among ==> rows[c].rowid < r
  {
    if among == {} {
      r := 0;
    } else {
      var c :| c in among;
      r := FreshRowidExists(rows, among - {c});
      r := if rows[c].rowid < r then r else rows[c].rowid + 1;
    }
  }

  lemma {:induction false} NoneActive(slots: seq<Slot>)
    requires forall i :: 0 <= i < |slots| ==> slots[i].at !in {Busy, Owing}
    ensures CountIn(States(slots), {Busy, Owing}) == 0
  {
    if slots != [] {
      assert States(slots)[1..] == States(slots[1..]);
      NoneActive(slots[1..]);
    }
  }

  lemma {:induction false} FirstWaiting(slots: seq<Slot>, n: nat) returns (i: nat)
    requires n < |slots| && slots[n].at == Waiting
    ensures i <= n && slots[i].at == Waiting && forall j :: 0 <= j < i ==> slots[j].at != Waiting
  {
    if exists j :: 0 <= j < n && slots[j].at == Waiting {
      var j :| 0 <= j < n && slots[j].at == Waiting;
      i := FirstWaiting(slots, j);
    } else {
      i := n;
    }
  }

  lemma RoundCanMove(env: Env, base: Db, workers: nat, s: Sys) returns (step: Step)
    requires s.phase.Round? && workers > 0
    ensures Enabled(workers, s, step) && Calm(env, base, s, step) && Internal(step)
  {
    var slots := s.phase.slots;
    if i: nat :| i < |slots| && slots[i].at == Busy {
      var c := slots[i].cid;
      var rowid := FreshRowidExists(s.db.documents, s.db.documents.Keys);
      step := Commit(i, env.outcome(c, FailureCount(s.db, c)), rowid);
    } else if i: nat :| i < |slots| && slots[i].at == Owing {
      step := Decrement(i);
    } else if i: nat :| i < |slots| && slots[i].at == Waiting {
      NoneActive(slots);
      var first := FirstWaiting(slots, i);
      step := Take(first);
    } else {
      forall i | 0 <= i < |slots|
        ensures slots[i].at == Finished
      {
        assert slots[i].at in {Waiting, Busy, Owing, Finished};
      }
      step := EndRound;
    }
  }

  lemma CrawlCanEnd(env: Env, base: Db, workers: nat, s: Sys) returns (step: Step)
    requires s.phase.Fetching? && CrawlsDistinct(env)
    ensures Enabled(workers, s, step) && Calm(env, base, s, step) && Internal(step)
  {
    assert Distinct(DocsOf(env, s.phase.archive));
    match env.crawl(s.phase.archive) {
      case Found(docs) => step := Persist(docs);
      case CrawlError(e) => step := CrawlFails(e);
    }
  }

  lemma DispatcherCanMove(env: Env, base: Db, workers: nat, s: Sys) returns (step: Step)
    requires PhaseGood(env, base, s.db, s.phase) && CrawlsDistinct(env) && workers > 0 && !s.phase.Idle?
    ensures Enabled(workers, s, step) && Calm(env, base, s, step) && Internal(step)
  {
    match s.phase {
      case Received(_) => step := Register;
      case Registered(a) => step := if Members(s.db, a) == [] then BeginCrawl else Resume;
      case Fetching(a) => step := CrawlCanEnd(env, base, workers, s);
      case Looping(_, docs, _) => step := if PendingOf(s.db, docs) == [] then NoneLeft else BeginRound;
      case Round(_, _, _, _) => step := RoundCanMove(env, base, workers, s);
      case Finalizing(_, at) =>
        step := match at
        case Checking => CheckArchive
        case CountingRows => ReadRows
        case CountingFailed(_) => ReadFailed
        case CountingPending(_, _) => ReadPending;
      case Writing(_, _) => step := WriteArchive;
    }
  }

  /** A state with work left has an internal step: the system never gets stuck. */
  lemma CanMove(env: Env, base: Db, workers: nat, s: Sys) returns (step: Step)
    requires Good(env, base, s) && CrawlsDistinct(env) && workers > 0 && !Quiescent(s)
    ensures Enabled(workers, s, step) && Calm(env, base, s, step) && Internal(step)
  {
    if !s.phase.Idle? {
      step := DispatcherCanMove(env, base, workers, s);
    } else if s.queue != [] {
      step := Receive;
    } else {
      var job :| job in s.entering;
      step := Enqueue(job);
    }
  }

  /** From any good state, interrupted or not, internal steps lead to rest. */
  lemma {:induction false} RestIsReachable(env: Env, base: Db, n: nat, workers: nat, s: Sys) returns (steps: seq<Step>)
    requires Bounded(env, base, n, s) && CrawlsDistinct(env) && workers > 0
    ensures CalmRun(env, base, workers, s, steps) && CanRun(workers, s, steps) && AllInternal(steps)
    ensures Quiescent(Run(workers, s, steps))
    ensures |steps| <= Cost(n, s)
    decreases Cost(n, s)
  {
    if Quiescent(s) {
      steps := [];
    } else {
      var step := CanMove(env, base, workers, s);
      InternalStepSpends(env, base, n, workers, s, step);
      StepKeepsBounded(env, base, n, workers, s, step);
      var rest := RestIsReachable(env, base, n, workers, Do(workers, s, step));
      StepThenRun(env, base, workers, s, step, rest);
      steps := [step] + rest;
    }
  }

  lemma StepThenRun(env: Env, base: Db, workers: nat, s: Sys, step: Step, rest: seq<Step>)
    requires Enabled(workers, s, step) && Calm(env, base, s, step)
    requires CalmRun(env, base, workers, Do(workers, s, step), rest) && CanRun(workers, Do(workers, s, step), rest)
    ensures CalmRun(env, base, workers, s, [step] + rest) && CanRun(workers, s, [step] + rest)
    ensures Run(workers, s, [step] + rest) == Run(workers, Do(workers, s, step), rest)
  {
    assert ([step] + rest)[1..] == rest;
  }

  // ---- What a settled archive looks like ----

  lemma {:induction false} FatesAddUp(env: Env, base: Db, docs: seq<Cid>)
    requires forall c :: FateOf(env, base, c) != Untried
    ensures |FatedBodies(env, base, docs)| + FatedFailures(env, base, docs) == |docs|
  {
    if docs != [] {
      FatesAddUp(env, base, docs[1..]);
      assert FateOf(env, base, docs[0]) != Untried;
    }
  }

  /** An archive that was crawled ends `done`, every member indexed or failed for good, and the row says so. */
  lemma SettledArchiveAddsUp(env: Env, base: Db, t: Db, a: Cid)
    requires IsOutcome(env, base, t) && IsNew(base, t, a) && env.crawl(a).Found?
    ensures t.archives[a].status == Done
    ensures t.archives[a].indexed + t.archives[a].failed == t.archives[a].docCount == |Members(t, a)|
    ensures AllSettled(t, Members(t, a))
    ensures InStep(t, a)
  {
    var docs := Members(t, a);
    forall c
      ensures FateOf(env, base, c) != Untried
    {
      FateIsFinal(env, c, StandingOf(base, c));
    }
    FatesAddUp(env, base, docs);
    forall c | c in docs
      ensures c in Settled(t) && FateOf(env, t, c) == FateOf(env, base, c)
    {
      assert Claimed(env, base, t, c);
      FateIsFinal(env, c, StandingOf(base, c));
      SettledMeansFated(env, t, c);
    }
    SettledTotals(env, base, t, docs);
    Invariants.BodiesCount(t, docs);
  }
}
