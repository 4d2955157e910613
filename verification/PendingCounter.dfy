/** indexPending and the in-memory `pending` counter: one outcome per CID, and a guard that never bites. */
module PendingCounter {
  import opened Schema
  import opened Seqs
  import opened Protocol
  import opened Fates

  /**
   The counter is the number of slots still unsettled plus the workers that have
   committed a settling outcome and not yet subtracted it.
   */
  ghost predicate CounterExact(s: Sys) {
    s.phase.Round? ==>
      s.pending == Unsettled(s.db, s.phase.slots) + CountIn(States(s.phase.slots), {Owing})
  }

  function Unsettled(t: Db, slots: seq<Slot>): nat {
    |Minus(Cids(slots), Settled(t))|
  }

  lemma {:induction false} CountAfterUpdate<T>(s: seq<T>, i: nat, x: T, S: set<T>)
    requires i < |s|
    ensures CountIn(s[i := x], S) == CountIn(s, S) - (if s[i] in S then 1 else 0) + (if x in S then 1 else 0)
  {
    if i == 0 {
      assert s[0 := x][1..] == s[1..];
    } else {
      assert s[i := x][1..] == s[1..][i - 1 := x];
      CountAfterUpdate(s[1..], i - 1, x, S);
    }
  }

  lemma {:induction false} CountAfterSettling(cids: seq<Cid>, i: nat, S: set<Cid>, R: set<Cid>)
    requires i < |cids| && Distinct(cids) && cids[i] !in S
    requires forall d :: d != cids[i] ==> (d in R <==> d in S)
    ensures CountIn(cids, R) == CountIn(cids, S) + (if cids[i] in R then 1 else 0)
  {
    if i == 0 {
      forall d | d in cids[1..]
        ensures d in R <==> d in S
      {
        assert d != cids[0];
      }
      CountSame(cids[1..], R, S);
    } else {
      CountAfterSettling(cids[1..], i - 1, S, R);
    }
  }

  lemma MoveCounts(slots: seq<Slot>, i: nat, at: Progress)
    requires i < |slots|
    ensures CountIn(States(Move(slots, i, at)), {Owing})
         == CountIn(States(slots), {Owing}) - (if slots[i].at == Owing then 1 else 0) + (if at == Owing then 1 else 0)
  {
    MoveKeepsCids(slots, i, at);
    CountAfterUpdate(States(slots), i, at, {Owing});
  }

  /** The commit settles the slot's CID exactly when the worker owes a subtraction. */
  lemma CommitCounts(t: Db, slots: seq<Slot>, i: nat, o: Outcome, rowid: nat)
    requires i < |slots| && Distinct(Cids(slots)) && slots[i].cid !in Settled(t)
    ensures var u := Record(t, slots[i].cid, o, rowid);
            var owes := o.Fails? ==> slots[i].cid in PermFailed(u);
            && Unsettled(u, slots) == Unsettled(t, slots) - (if owes then 1 else 0)
            && forall j :: 0 <= j < |slots| && j != i ==> (slots[j].cid in Settled(u) <==> slots[j].cid in Settled(t))
  {
    var c := slots[i].cid;
    var u := Record(t, c, o, rowid);
    forall d | d != c
      ensures d in Settled(u) <==> d in Settled(t)
    {
      RecordSparesOthers(t, c, o, rowid, d);
    }
    RecordedStanding(t, c, o, rowid);
    CountAfterSettling(Cids(slots), i, Settled(t), Settled(u));
    MinusMembers(Cids(slots), Settled(t));
    MinusMembers(Cids(slots), Settled(u));
    forall j | 0 <= j < |slots| && j != i
      ensures slots[j].cid in Settled(u) <==> slots[j].cid in Settled(t)
    {
      assert Cids(slots)[i] != Cids(slots)[j];
    }
  }

  lemma CommitKeepsCounter(workers: nat, s: Sys, i: nat, o: Outcome, rowid: nat)
    requires Inv(s) && CounterExact(s) && Enabled(workers, s, Commit(i, o, rowid))
    ensures CounterExact(Do(workers, s, Commit(i, o, rowid)))
  {
    var u, slots := Do(workers, s, Commit(i, o, rowid)), s.phase.slots;
    CommitCounts(s.db, slots, i, o, rowid);
    MoveCounts(slots, i, u.phase.slots[i].at);
    MoveKeepsCids(slots, i, u.phase.slots[i].at);
  }

  /** An owed subtraction always finds a positive counter: the `> 0` guard never suppresses it. */
  lemma DecrementKeepsCounter(workers: nat, s: Sys, i: nat)
    requires CounterExact(s) && Enabled(workers, s, Decrement(i))
    ensures s.pending > 0
    ensures CounterExact(Do(workers, s, Decrement(i)))
  {
    var slots := s.phase.slots;
    MoveKeepsCids(slots, i, Finished);
    MoveCounts(slots, i, Finished);
    assert States(slots)[i] == Owing;
    CountPositive(States(slots), Owing, {Owing});
  }

  lemma BeginRoundCounts(workers: nat, s: Sys)
    requires Inv(s) && Enabled(workers, s, BeginRound)
    ensures CounterExact(Do(workers, s, BeginRound))
  {
    var p := PendingOf(s.db, s.phase.docs);
    MinusMembers(s.phase.docs, Settled(s.db));
    FreshSlotsOk(s.db, s.phase.docs);
    MinusNothing(p, Settled(s.db));
    NoneOwing(FreshSlots(p));
  }

  lemma {:induction false} NoneOwing(slots: seq<Slot>)
    requires forall i :: 0 <= i < |slots| ==> slots[i].at != Owing
    ensures CountIn(States(slots), {Owing}) == 0
  {
    if slots != [] {
      assert States(slots)[1..] == States(slots[1..]);
      NoneOwing(slots[1..]);
    }
  }

  lemma StepKeepsCounter(workers: nat, s: Sys, step: Step)
    requires Inv(s) && CounterExact(s) && Enabled(workers, s, step) && !Admin(step)
    ensures CounterExact(Do(workers, s, step))
    ensures step.Decrement? ==> s.pending > 0
  {
    match step {
      case Commit(i, o, rowid) => CommitKeepsCounter(workers, s, i, o, rowid);
      case Decrement(i) => DecrementKeepsCounter(workers, s, i);
      case BeginRound => BeginRoundCounts(workers, s);
      case Take(i) =>
        MoveKeepsCids(s.phase.slots, i, Busy);
        MoveCounts(s.phase.slots, i, Busy);
      case Submit(a, owner) => assert Settled(AddArchiveTx(s.db, a, owner)) == Settled(s.db);
      case _ =>
    }
  }

  /** The counter is exact throughout every run without admin or retry actions. */
  lemma {:induction false} CounterStaysExact(workers: nat, s: Sys, steps: seq<Step>)
    requires Inv(s) && CounterExact(s) && CanRun(workers, s, steps)
    requires forall i :: 0 <= i < |steps| ==> !Admin(steps[i])
    ensures CounterExact(Run(workers, s, steps))
    decreases |steps|
  {
    if steps != [] {
      StepKeepsInv(workers, s, steps[0]);
      StepKeepsCounter(workers, s, steps[0]);
      CounterStaysExact(workers, Do(workers, s, steps[0]), steps[1..]);
    }
  }

  // ---- One outcome per CID ----

  /** Steps that do not leave the round. */
  predicate WithinRound(step: Step) {
    !step.EndRound? && !step.Restart?
  }

  function Commits(steps: seq<Step>, i: nat): nat {
    if steps == [] then 0
    else (if steps[0].Commit? && steps[0].slot == i then 1 else 0) + Commits(steps[1..], i)
  }

  predicate HasOutcome(slot: Slot) {
    slot.at in {Owing, Finished}
  }

  /** Within a round, slot `i` has an outcome recorded once if its state says so, else not yet; admin or not. */
  lemma {:induction false} CommitsMatchState(workers: nat, s: Sys, steps: seq<Step>, i: nat)
    requires s.phase.Round? && i < |s.phase.slots| && CanRun(workers, s, steps)
    requires forall k :: 0 <= k < |steps| ==> WithinRound(steps[k])
    ensures var u := Run(workers, s, steps);
            && u.phase.Round? && Cids(u.phase.slots) == Cids(s.phase.slots)
            && |u.phase.slots| == |s.phase.slots|
            && Commits(steps, i) + (if HasOutcome(s.phase.slots[i]) then 1 else 0)
            == if HasOutcome(u.phase.slots[i]) then 1 else 0
    decreases |steps|
  {
    if steps != [] {
      var u := Do(workers, s, steps[0]);
      match steps[0] {
        case Take(j) => MoveKeepsCids(s.phase.slots, j, Busy);
        case Decrement(j) => MoveKeepsCids(s.phase.slots, j, Finished);
        case Commit(j, _, _) => MoveKeepsCids(s.phase.slots, j, u.phase.slots[j].at);
        case _ =>
      }
      CommitsMatchState(workers, u, steps[1..], i);
    }
  }

  /** From the start of a round to the point where it may end, every pending CID gets exactly one outcome. */
  lemma OneOutcomeEach(workers: nat, s: Sys, steps: seq<Step>, i: nat)
    requires Enabled(workers, s, BeginRound) && i < |PendingOf(s.db, s.phase.docs)|
    requires CanRun(workers, Do(workers, s, BeginRound), steps)
    requires forall k :: 0 <= k < |steps| ==> WithinRound(steps[k])
    requires Enabled(workers, Run(workers, Do(workers, s, BeginRound), steps), EndRound)
    ensures Commits(steps, i) == 1
  {
    CommitsMatchState(workers, Do(workers, s, BeginRound), steps, i);
  }

  /** A documents job gets one round: every pending CID of its list has one outcome recorded, then it is over. */
  lemma DocsJobGetsOneRound(workers: nat, s: Sys, docs: seq<Cid>, steps: seq<Step>, i: nat)
    requires s.phase == Received(DocsJob(docs)) && i < |PendingOf(s.db, docs)|
    requires CanRun(workers, Do(workers, Do(workers, s, StartDocs), BeginRound), steps)
    requires forall k :: 0 <= k < |steps| ==> WithinRound(steps[k])
    requires Enabled(workers, Run(workers, Do(workers, Do(workers, s, StartDocs), BeginRound), steps), EndRound)
    ensures var begun := Do(workers, Do(workers, s, StartDocs), BeginRound);
            && begun.phase.slots[i].cid == PendingOf(s.db, docs)[i]
            && Commits(steps, i) == 1
            && Do(workers, Run(workers, begun, steps), EndRound).phase.Idle?
  {
    OneOutcomeEach(workers, Do(workers, s, StartDocs), steps, i);
    RoundKeepsTarget(workers, Do(workers, Do(workers, s, StartDocs), BeginRound), steps);
  }

  lemma {:induction false} RoundKeepsTarget(workers: nat, s: Sys, steps: seq<Step>)
    requires s.phase.Round? && CanRun(workers, s, steps)
    requires forall k :: 0 <= k < |steps| ==> WithinRound(steps[k])
    ensures var u := Run(workers, s, steps); u.phase.Round? && u.phase.target == s.phase.target
    decreases |steps|
  {
    if steps != [] {
      RoundKeepsTarget(workers, Do(workers, s, steps[0]), steps[1..]);
    }
  }
}
