/**
 indexer.go on the Store itself, without others interfering: one worker, one job
 after another, from whatever state the store was left in.
 */
module IndexerClass {
  import opened Schema
  import opened Seqs
  import opened Options
  import opened Protocol
  import opened Fates
  import opened StoreClass
  import opened Confluence
  import opened Jobs
  import PendingCounter
  import Invariants
  import Settling
  import StoredProgress
  import Text

  /** From `t` to `u`, each CID of `done` was attempted once, and nothing else changed. */
  ghost predicate Attempted(env: Env, t: Db, u: Db, done: seq<Cid>) {
    && u.archives == t.archives && u.members == t.members
    && forall c :: StandingOf(u, c) == if c in done then Attempt(env, c, StandingOf(t, c)) else StandingOf(t, c)
  }

  lemma AttemptOneMore(env: Env, t: Db, u: Db, done: seq<Cid>, c: Cid, rowid: nat)
    requires Attempted(env, t, u, done) && c !in done && c !in Settled(u) && Exclusion(u)
    ensures Attempted(env, t, Record(u, c, env.outcome(c, FailureCount(u, c)), rowid), done + [c])
  {
    var o := env.outcome(c, FailureCount(u, c));
    var v := Record(u, c, o, rowid);
    RecordKeepsArchives(u, c, o, rowid);
    forall d
      ensures StandingOf(v, d) == if d in done + [c] then Attempt(env, d, StandingOf(t, d)) else StandingOf(t, d)
    {
      if d == c {
        RecordedStanding(u, c, o, rowid);
      } else {
        RecordSparesOthers(u, c, o, rowid, d);
      }
    }
  }

  lemma AttemptsConserve(env: Env, t: Db, u: Db, done: seq<Cid>, c: Cid, k: nat)
    requires Attempted(env, t, u, done) && Exclusion(t) && Exclusion(u)
    requires forall d :: d in done ==> d !in Settled(t)
    ensures FateOf(env, u, c) == FateOf(env, t, c)
    ensures c in Settled(t) ==> c in Settled(u)
    ensures Settling.Tried(t, c, k) ==> Settling.Tried(u, c, if c in done then k + 1 else k)
  {
    SettledMeansFated(env, t, c);
    SettledMeansFated(env, u, c);
    assert StandingOf(u, c) == if c in done then Attempt(env, c, StandingOf(t, c)) else StandingOf(t, c);
  }

  /** Recording one pending CID's outcome moves the counter by what it settled. */
  lemma OneAttemptCounts(t: Db, pending: seq<Cid>, i: nat, o: Outcome, rowid: nat)
    requires Distinct(pending) && i < |pending| && pending[i] !in Settled(t)
    ensures var u := Record(t, pending[i], o, rowid);
            && |PendingOf(t, pending)| > 0
            && |PendingOf(u, pending)| == |PendingOf(t, pending)| - (if pending[i] in Settled(u) then 1 else 0)
            && forall j :: 0 <= j < |pending| && j != i ==> (pending[j] in Settled(u) <==> pending[j] in Settled(t))
  {
    var u := Record(t, pending[i], o, rowid);
    forall d | d != pending[i]
      ensures d in Settled(u) <==> d in Settled(t)
    {
      RecordSparesOthers(t, pending[i], o, rowid, d);
    }
    PendingCounter.CountAfterSettling(pending, i, Settled(t), Settled(u));
    MinusMembers(pending, Settled(t));
    MinusMembers(pending, Settled(u));
    assert pending[i] in PendingOf(t, pending);
  }

  /** Rounds keep fates and leave documents outside `docs` alone. */
  ghost predicate OnTheirWay(env: Env, t: Db, u: Db, docs: seq<Cid>) {
    forall c :: FateOf(env, u, c) == FateOf(env, t, c) && (c in docs || StandingOf(u, c) == StandingOf(t, c))
  }

  lemma OneMoreRound(env: Env, t: Db, u: Db, v: Db, docs: seq<Cid>, done: seq<Cid>, k: nat)
    requires OnTheirWay(env, t, u, docs) && Attempted(env, u, v, done) && Exclusion(u) && Exclusion(v)
    requires done == PendingOf(u, docs) && forall c :: c in docs ==> Settling.Tried(u, c, k)
    ensures OnTheirWay(env, t, v, docs) && forall c :: c in docs ==> Settling.Tried(v, c, k + 1)
  {
    MinusMembers(docs, Settled(u));
    forall c
      ensures FateOf(env, v, c) == FateOf(env, t, c) && (c in docs || StandingOf(v, c) == StandingOf(t, c))
      ensures c in docs ==> Settling.Tried(v, c, k + 1)
    {
      AttemptsConserve(env, u, v, done, c, k);
      assert FateOf(env, u, c) == FateOf(env, t, c);
    }
  }

  lemma RoundsSettle(env: Env, t: Db, u: Db, docs: seq<Cid>)
    requires OnTheirWay(env, t, u, docs) && Exclusion(u) && PendingOf(u, docs) == []
    ensures Settles(env, t, u, docs)
  {
    StoredProgress.NonePending(u, docs);
    forall c
      ensures StandingOf(u, c) == if c in docs then FateOf(env, t, c) else StandingOf(t, c)
    {
      SettledMeansFated(env, u, c);
      assert FateOf(env, u, c) == FateOf(env, t, c);
    }
  }

  class Indexer {
    const store: Store
    const env: Env
    var jobs: seq<(Cid, string)>

    constructor (store: Store, env: Env)
      ensures this.store == store && this.env == env && jobs == []
    {
      this.store := store;
      this.env := env;
      jobs := [];
    }

    /** A worker on one CID: process it and record what came out. */
    method ProcessOne(c: Cid) returns (ghost rowid: nat)
      requires Valid(store.Now()) && c !in Settled(store.Now())
      modifies store
      ensures Valid(store.Now())
      ensures var t := old(store.Now()); store.Now() == Record(t, c, env.outcome(c, FailureCount(t, c)), rowid)
      ensures store.pending ==
              if c in Settled(store.Now()) && old(store.pending) > 0 then old(store.pending) - 1 else old(store.pending)
    {
      ghost var t := store.Now();
      var n := if c in store.failures then store.failures[c].count else 0;
      var o := env.outcome(c, n);
      var next := NextRowid(store.documents);
      rowid := next;
      match o {
        case Indexed(entry) => store.Add(c, entry, next);
        case Skipped => store.RecordSkip(c);
        case Fails(reason) => store.RecordFailure(c, reason);
      }
      RecordKeepsValid(t, c, o, rowid);
    }

    /** One round: every pending CID gets one attempt, and the counter ends at what is still unsettled. */
    method IndexPending(pending: seq<Cid>)
      requires Valid(store.Now()) && Distinct(pending)
      requires forall c :: c in pending ==> c !in Settled(store.Now())
      requires store.pending == |pending|
      modifies store
      ensures Valid(store.Now()) && Attempted(env, old(store.Now()), store.Now(), pending)
      ensures store.pending == |PendingOf(store.Now(), pending)|
    {
      ghost var t := store.Now();
      MinusNothing(pending, Settled(t));
      for i := 0 to |pending|
        invariant Valid(store.Now()) && Attempted(env, t, store.Now(), pending[..i])
        invariant forall j :: i <= j < |pending| ==> pending[j] !in Settled(store.Now())
        invariant store.pending == |PendingOf(store.Now(), pending)|
      {
        var c := pending[i];
        ghost var u := store.Now();
        assert pending[..i + 1] == pending[..i] + [c];
        assert c !in pending[..i];
        var rowid := ProcessOne(c);
        AttemptOneMore(env, t, u, pending[..i], c, rowid);
        OneAttemptCounts(u, pending, i, env.outcome(c, FailureCount(u, c)), rowid);
      }
      assert pending[..|pending|] == pending;
    }

    /** A job for documents: one round over those pending. */
    method IndexDocs(docs: seq<Cid>)
      requires Valid(store.Now()) && Distinct(docs)
      modifies store
      ensures Valid(store.Now()) && Attempted(env, old(store.Now()), store.Now(), PendingOf(old(store.Now()), docs))
    {
      var pending := store.Pending(docs);
      MinusMembers(docs, Settled(store.Now()));
      if |pending| > 0 {
        IndexPending(pending);
      }
    }

    /** The loop of indexArchive: rounds until nothing is pending, at most MAX_RETRIES of them. */
    method IndexMembers(docs: seq<Cid>) returns (rounds: nat)
      requires Valid(store.Now()) && Distinct(docs)
      modifies store
      ensures Valid(store.Now()) && Settles(env, old(store.Now()), store.Now(), docs)
      ensures store.archives == old(store.archives) && store.members == old(store.members)
      ensures rounds <= MAX_RETRIES && store.pending == 0
    {
      ghost var t := store.Now();
      rounds := 0;
      while true
        invariant Valid(store.Now()) && OnTheirWay(env, t, store.Now(), docs)
        invariant store.archives == old(store.archives) && store.members == old(store.members)
        invariant forall c :: c in docs ==> Settling.Tried(store.Now(), c, rounds)
        invariant rounds <= MAX_RETRIES
        decreases MAX_RETRIES - rounds
      {
        ghost var u := store.Now();
        var pending := store.Pending(docs);
        MinusMembers(docs, Settled(u));
        if pending == [] {
          RoundsSettle(env, t, u, docs);
          break;
        }
        HeadIsMember(pending);
        assert Settling.Tried(u, pending[0], rounds);
        IndexPending(pending);
        OneMoreRound(env, t, u, store.Now(), docs, pending, rounds);
        rounds := rounds + 1;
      }
    }

    /** The members of an archive: those listed already, or crawled now and listed. None when the crawl fails. */
    method FindMembers(a: Cid) returns (found: Option<seq<Cid>>)
      requires Valid(store.Now()) && a in store.archives && Distinct(DocsOf(env, a))
      modifies store
      ensures found.None? <==> CannotList(env, old(store.Now()), a)
      ensures found.None? ==> Reindexed(env, old(store.Now()), store.Now(), a)
      ensures found.Some? ==> found.value == ListOf(env, old(store.Now()), a) && Valid(store.Now())
      ensures found.Some? ==> Listed(old(store.Now()), store.Now(), a, found.value)
    {
      ghost var t := store.Now();
      var listed := store.ArchiveDocCIDs(a);
      if |listed| > 0 {
        ListedAlready(t, a);
        return Some(listed);
      }
      store.MarkArchiveCrawling(a);
      Invariants.CrawlingKeepsValid(t, a);
      ghost var u := store.Now();
      var reply := env.crawl(a);
      match reply {
        case CrawlError(reason) =>
          FailingReindexes(env, t, a);
          store.MarkArchiveFailed(a, reason);
          return None;
        case Found(docs) =>
          Invariants.SetDocsKeepsCountedIff(u, a, docs);
          DedupMembers(docs);
          ListedNow(t, a, docs);
          store.SetArchiveDocs(a, docs);
          return Some(docs);
      }
    }

    /** indexArchive, whatever has become of the archive before. */
    method IndexArchive(a: Cid, owner: string) returns (rounds: nat)
      requires Valid(store.Now()) && Distinct(DocsOf(env, a))
      modifies store
      ensures Reindexed(env, AddArchiveTx(old(store.Now()), a, Text.Trim(owner)), store.Now(), a)
      ensures rounds <= MAX_RETRIES
    {
      rounds := 0;
      Invariants.AddArchiveKeepsValid(store.Now(), a, Text.Trim(owner));
      var _ := store.AddArchive(a, owner);
      ghost var t := store.Now();
      var found := FindMembers(a);
      if found.None? {
        return;
      }
      ghost var u := store.Now();
      rounds := IndexMembers(found.value);
      ghost var v := store.Now();
      store.FinalizeArchive(a, Bodies(store.Now(), found.value));
      ListedThenSettled(env, t, u, v, a);
    }

    // ---- The queue ----

    /** Registers the archive and queues its job. */
    method EnqueueArchive(a: Cid, owner: string)
      modifies this`jobs, store
      ensures store.Now() == AddArchiveTx(old(store.Now()), a, Text.Trim(owner))
      ensures jobs == old(jobs) + [(a, owner)]
    {
      var _ := store.AddArchive(a, owner);
      jobs := jobs + [(a, owner)];
    }

    /** What main does before serving: requeue, then a job for each archive left unfinished, and for no other. */
    method StartUp()
      requires jobs == []
      modifies this`jobs, store
      ensures store.Now() == RequeueTx(old(store.Now()))
      ensures forall a :: HasJobFor(jobs, a) <==> a in Resumable(old(store.Now()))
    {
      ghost var t := store.Now();
      var _ := store.RequeueRateLimited();
      var left := store.ResumableArchives();
      for i := 0 to |left|
        invariant store.Now() == RequeueTx(t)
        invariant forall a :: HasJobFor(jobs, a) <==> a in left[..i]
      {
        assert left[i] in left;
        assert left[..i + 1] == left[..i] + [left[i]];
        forall a
          ensures HasJobFor(jobs + [(left[i], "")], a) <==> HasJobFor(jobs, a) || a == left[i]
        {
          HasOneMore(jobs, (left[i], ""), a);
        }
        EnqueueArchive(left[i], "");
      }
      assert left[..|left|] == left;
    }

    /** One job, on top of those `done` since `t`. */
    method Process(ghost t: Db, ghost done: seq<(Cid, string)>, job: (Cid, string))
      requires Valid(store.Now()) && CrawlsDistinct(env) && Worked(env, t, store.Now(), done)
      modifies store
      ensures Valid(store.Now()) && Worked(env, t, store.Now(), done + [job])
    {
      ghost var u := store.Now();
      assert Distinct(DocsOf(env, job.0));
      var _ := IndexArchive(job.0, job.1);
      WorkedOneMore(env, t, u, store.Now(), done, job, Text.Trim(job.1));
    }

    /** The dispatcher, until the queue is empty. */
    method Run()
      requires Valid(store.Now()) && CrawlsDistinct(env)
      modifies this`jobs, store
      ensures jobs == [] && Valid(store.Now())
      ensures Worked(env, old(store.Now()), store.Now(), old(jobs))
    {
      ghost var t, done, all := store.Now(), [], jobs;
      NoJobsWorked(env, t);
      while jobs != []
        invariant Valid(store.Now()) && Worked(env, t, store.Now(), done)
        invariant done + jobs == all
        decreases |jobs|
      {
        var job := jobs[0];
        jobs := jobs[1..];
        Process(t, done, job);
        done := done + [job];
      }
      assert done == all;
    }
  }

  /** From `t` to `u` only the members of `a` were listed, and its row says how many. */
  ghost predicate Listed(t: Db, u: Db, a: Cid, docs: seq<Cid>) {
    && u.documents == t.documents
    && u.failures == t.failures
    && (forall b :: Members(u, b) == if b == a then docs else Members(t, b))
    && a in t.archives
    && a in u.archives
    && u.archives == t.archives[a := t.archives[a].(status := u.archives[a].status, docCount := |docs|)]
  }

  lemma ListedAlready(t: Db, a: Cid)
    requires Valid(t) && a in t.archives
    ensures Listed(t, t, a, Members(t, a))
  {
  }

  lemma ListedNow(t: Db, a: Cid, docs: seq<Cid>)
    requires a in t.archives && Dedup(docs) == docs
    ensures Listed(t, SetDocsTx(CrawlingTx(t, a), a, docs), a, docs)
  {
  }

  lemma ListedThenSettled(env: Env, t: Db, u: Db, v: Db, a: Cid)
    requires Valid(t) && !CannotList(env, t, a) && Listed(t, u, a, ListOf(env, t, a))
    requires Valid(v) && Settles(env, u, v, ListOf(env, t, a)) && v.archives == u.archives && v.members == u.members
    ensures Reindexed(env, t, FinalizeTx(v, a, ReadTotals(v, a)), a)
  {
    assert forall b :: Members(v, b) == Members(u, b);
    forall c
      ensures StandingOf(v, c) == if c in ListOf(env, t, a) then FateOf(env, t, c) else StandingOf(t, c)
    {
      assert StandingOf(u, c) == StandingOf(t, c);
      assert StandingOf(v, c) == if c in ListOf(env, t, a) then FateOf(env, u, c) else StandingOf(u, c);
    }
    FinalizingReindexes(env, t, v, a, u.archives[a].status);
  }
}
