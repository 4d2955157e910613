/** The fate a CID is heading for, and how recording an outcome conserves it. */
module Fates {
  import opened Schema
  import opened Seqs
  import opened Protocol
  import Text

  datatype CrawlReply = Found(docs: seq<Cid>) | CrawlError(reason: string)

  /** The outside world: what processing `c` gives after `n` recorded failures, and what crawling gives. */
  datatype Env = Env(outcome: (Cid, nat) -> Outcome, crawl: Cid -> CrawlReply)

  /** What the tables say of a CID. */
  datatype Standing = Doc(body: Body) | Failing(failure: Failure) | Untried

  const NO_FAILURE := Failure(0, "")

  function StandingOf(t: Db, c: Cid): Standing {
    if c in t.documents then Doc(t.documents[c].body)
    else if c in t.failures then Failing(t.failures[c])
    else Untried
  }

  /** Where retrying `c` from `f` ends. */
  function Settle(env: Env, c: Cid, f: Failure): Standing
    decreases MAX_RETRIES - f.count
  {
    if f.count >= MAX_RETRIES then Failing(f)
    else
      match env.outcome(c, f.count)
      case Indexed(b) => Doc(b)
      case Skipped => Failing(Failure(MAX_RETRIES, SKIP_REASON))
      case Fails(reason) => Settle(env, c, Failure(f.count + 1, reason))
  }

  function Fate(env: Env, c: Cid, st: Standing): Standing {
    match st
    case Doc(_) => st
    case Failing(f) => Settle(env, c, f)
    case Untried => Settle(env, c, NO_FAILURE)
  }

  /** Retrying ends: indexed, or failed for good. */
  lemma {:induction false} SettleSettles(env: Env, c: Cid, f: Failure)
    ensures match Settle(env, c, f)
            case Doc(_) => true
            case Failing(g) => g.count >= MAX_RETRIES
            case Untried => false
    decreases MAX_RETRIES - f.count
  {
    if f.count < MAX_RETRIES {
      match env.outcome(c, f.count) {
        case Fails(reason) => SettleSettles(env, c, Failure(f.count + 1, reason));
        case _ =>
      }
    }
  }

  lemma RecordSparesOthers(t: Db, c: Cid, o: Outcome, rowid: nat, d: Cid)
    requires d != c
    ensures StandingOf(Record(t, c, o, rowid), d) == StandingOf(t, d)
    ensures d in Settled(Record(t, c, o, rowid)) <==> d in Settled(t)
    ensures d in Record(t, c, o, rowid).failures <==> d in t.failures
  {
  }

  lemma RecordedStanding(t: Db, c: Cid, o: Outcome, rowid: nat)
    requires c !in t.documents
    ensures StandingOf(Record(t, c, o, rowid), c)
         == match o
            case Indexed(b) => Doc(b)
            case Skipped => Failing(Failure(MAX_RETRIES, SKIP_REASON))
            case Fails(reason) => Failing(Failure(FailureCount(t, c) + 1, reason))
  {
  }

  /** Recording an outcome moves no CID off the way to its fate. */
  lemma RecordConservesFate(env: Env, t: Db, c: Cid, rowid: nat, d: Cid)
    requires c !in Settled(t) && Exclusion(t)
    ensures var u := Record(t, c, env.outcome(c, FailureCount(t, c)), rowid);
            && Fate(env, d, StandingOf(u, d)) == Fate(env, d, StandingOf(t, d))
            && (d in Settled(t) ==> d in Settled(u))
  {
    var o := env.outcome(c, FailureCount(t, c));
    if d == c {
      RecordedStanding(t, c, o, rowid);
    } else {
      RecordSparesOthers(t, c, o, rowid, d);
      assert StandingOf(t, d) == StandingOf(Record(t, c, o, rowid), d);
    }
  }

  /** A settled CID's standing is its fate, and no other standing is settled. */
  lemma SettledMeansFated(env: Env, t: Db, c: Cid)
    requires Exclusion(t)
    ensures c in Settled(t) ==> StandingOf(t, c) == Fate(env, c, StandingOf(t, c))
    ensures c in t.documents <==> StandingOf(t, c).Doc?
    ensures c in PermFailed(t) <==> StandingOf(t, c).Failing? && StandingOf(t, c).failure.count >= MAX_RETRIES
  {
  }

  // ---- One attempt at a time ----

  predicate Final(st: Standing) {
    st.Doc? || (st.Failing? && st.failure.count >= MAX_RETRIES)
  }

  function Tries(st: Standing): nat {
    if st.Failing? then st.failure.count else 0
  }

  /** What one attempt makes of a standing that is not final. */
  function Attempt(env: Env, c: Cid, st: Standing): Standing {
    match env.outcome(c, Tries(st))
    case Indexed(b) => Doc(b)
    case Skipped => Failing(Failure(MAX_RETRIES, SKIP_REASON))
    case Fails(reason) => Failing(Failure(Tries(st) + 1, reason))
  }

  /** Attempts left at most. */
  function Budget(st: Standing): int {
    if st.Doc? then 0 else MAX_RETRIES - Tries(st)
  }

  // ---- What start-up's requeue does to a fate ----

  /** Start-up deletes the record of this standing. */
  predicate Requeued(st: Standing) {
    st.Failing? && Text.MentionsRateLimit(st.failure.reason)
  }

  /** Starting `c` afresh from `st` leads where going on from `st` would. */
  predicate Withstands(env: Env, c: Cid, st: Standing) {
    Requeued(st) ==> !Final(st) && Fate(env, c, st) == Fate(env, c, Untried)
  }

  /**
   Every record that attempts on `c` make from `st` on withstands start-up: if it
   mentions a rate limit it is not the last, and first attempts end alike.
   */
  predicate Harmless(env: Env, c: Cid, st: Standing)
    decreases Budget(st)
  {
    Final(st) || (
      var next := Attempt(env, c, st);
      Withstands(env, c, next) && Harmless(env, c, next))
  }

  /** A harmless way ends in a record start-up leaves alone. */
  lemma {:induction false} HarmlessEnd(env: Env, c: Cid, st: Standing)
    requires Harmless(env, c, st) && Withstands(env, c, st)
    ensures !Requeued(Fate(env, c, st))
    decreases Budget(st)
  {
    if Final(st) {
      if st.Failing? {
        assert Fate(env, c, st) == st;
      }
    } else {
      HarmlessEnd(env, c, Attempt(env, c, st));
    }
  }

  /** A way that leads where first attempts lead is harmless if its end is. */
  lemma {:induction false} HarmlessAfresh(env: Env, c: Cid, st: Standing)
    requires Fate(env, c, st) == Fate(env, c, Untried)
    requires !Requeued(Fate(env, c, Untried))
    ensures Harmless(env, c, st)
    decreases Budget(st)
  {
    if !Final(st) {
      var next := Attempt(env, c, st);
      HarmlessAfresh(env, c, next);
      if Final(next) && next.Failing? {
        assert Fate(env, c, next) == next;
      }
    }
  }

  /** Once requeued, a record that withstands it leaves a harmless way ahead. */
  lemma RequeueStaysHarmless(env: Env, c: Cid, st: Standing)
    requires Harmless(env, c, st) && Withstands(env, c, st) && Requeued(st)
    ensures Harmless(env, c, Untried)
  {
    HarmlessEnd(env, c, st);
    HarmlessAfresh(env, c, Untried);
  }

  /** Attempts on `c` from `st` on come to record `f`. */
  ghost predicate OnTheWay(env: Env, c: Cid, st: Standing, f: Failure)
    decreases Budget(st)
  {
    !Final(st) && (
      var next := Attempt(env, c, st);
      next == Failing(f) || OnTheWay(env, c, next, f))
  }

  lemma {:induction false} OnTheWayShareFate(env: Env, c: Cid, st: Standing, f: Failure)
    requires OnTheWay(env, c, st, f)
    ensures Fate(env, c, Failing(f)) == Fate(env, c, st)
    decreases Budget(st)
  {
    var next := Attempt(env, c, st);
    if next != Failing(f) {
      OnTheWayShareFate(env, c, next, f);
    }
  }

  /** Said outright: of the records on the way, none that mentions a rate limit is last or leads elsewhere. */
  lemma {:induction false} HarmlessIff(env: Env, c: Cid, st: Standing)
    ensures Harmless(env, c, st) <==>
            forall f :: OnTheWay(env, c, st, f) && Text.MentionsRateLimit(f.reason) ==>
              f.count < MAX_RETRIES && Settle(env, c, f) == Settle(env, c, NO_FAILURE)
    decreases Budget(st)
  {
    if !Final(st) {
      var next := Attempt(env, c, st);
      HarmlessIff(env, c, next);
      assert forall f :: OnTheWay(env, c, st, f) <==> next == Failing(f) || OnTheWay(env, c, next, f);
    }
  }

  // ---- Archive totals from fates ----

  function FateOf(env: Env, base: Db, c: Cid): Standing {
    Fate(env, c, StandingOf(base, c))
  }

  function FatedBodies(env: Env, base: Db, docs: seq<Cid>): seq<Body> {
    if docs == [] then []
    else (if FateOf(env, base, docs[0]).Doc? then [FateOf(env, base, docs[0]).body] else [])
         + FatedBodies(env, base, docs[1..])
  }

  function FatedFailures(env: Env, base: Db, docs: seq<Cid>): nat {
    if docs == [] then 0
    else (if FateOf(env, base, docs[0]).Failing? then 1 else 0) + FatedFailures(env, base, docs[1..])
  }

  /** Once all of `docs` are settled, the tables agree with the fates. */
  lemma {:induction false} SettledTotals(env: Env, base: Db, t: Db, docs: seq<Cid>)
    requires Exclusion(t) && forall c :: c in docs ==> c in Settled(t) && FateOf(env, t, c) == FateOf(env, base, c)
    ensures Bodies(t, docs) == FatedBodies(env, base, docs)
    ensures CountIn(docs, PermFailed(t)) == FatedFailures(env, base, docs)
    ensures PendingOf(t, docs) == []
  {
    if docs != [] {
      var c := docs[0];
      assert c in docs;
      SettledMeansFated(env, t, c);
      SettledTotals(env, base, t, docs[1..]);
    }
  }

  function DocsOf(env: Env, a: Cid): seq<Cid> {
    var r := env.crawl(a);
    if r.Found? then r.docs else []
  }

  /** The row archive `a` ends with (owner aside). */
  ghost function ExpectedRow(env: Env, base: Db, a: Cid): Archive {
    match env.crawl(a)
    case CrawlError(e) => BLANK.(status := Failed, error := e)
    case Found(docs) =>
      var n := TotalsOf(FatedBodies(env, base, docs), FatedFailures(env, base, docs), 0);
      Archive(NameFor(a, "", n.broadFields), "", Done, |docs|, n.indexed, n.failed, n.topKeywords, n.broadFields, "")
  }

  // ---- The outcome of a run ----

  predicate IsNew(base: Db, t: Db, a: Cid) {
    a in t.archives && a !in base.archives
  }

  /** `c` belongs to an archive submitted since `base`. */
  ghost predicate Claimed(env: Env, base: Db, t: Db, c: Cid) {
    exists a :: IsNew(base, t, a) && c in DocsOf(env, a)
  }

  /**
   `t` is the settled result of indexing the archives it holds beyond `base`:
   their members met their fates, everything else is as it was.
   */
  ghost predicate IsOutcome(env: Env, base: Db, t: Db) {
    && Valid(t)
    && (forall a :: a in base.archives ==>
          a in t.archives && t.archives[a] == base.archives[a] && Members(t, a) == Members(base, a))
    && (forall a :: IsNew(base, t, a) ==>
          t.archives[a].(owner := "") == ExpectedRow(env, base, a) && Members(t, a) == DocsOf(env, a))
    && (forall c :: StandingOf(t, c) == if Claimed(env, base, t, c) then FateOf(env, base, c) else StandingOf(base, c))
  }

  /** Equal stores, up to row ids, times and archive owners. */
  ghost predicate SameIndex(t: Db, u: Db) {
    && t.documents.Keys == u.documents.Keys
    && (forall c :: c in t.documents ==> t.documents[c].body == u.documents[c].body)
    && (forall c :: c in t.documents ==> t.documents[c].rowid in t.fts && u.documents[c].rowid in u.fts
                                         && t.fts[t.documents[c].rowid] == u.fts[u.documents[c].rowid])
    && t.failures == u.failures
    && t.labels == u.labels
    && t.archives.Keys == u.archives.Keys
    && (forall a :: a in t.archives ==> t.archives[a].(owner := "") == u.archives[a].(owner := ""))
    && (forall a :: Members(t, a) == Members(u, a))
  }

  lemma SameStandings(t: Db, u: Db)
    requires Consistent(t) && Consistent(u)
    requires forall c :: StandingOf(t, c) == StandingOf(u, c)
    ensures t.documents.Keys == u.documents.Keys && t.failures == u.failures && t.labels == u.labels
    ensures forall c :: c in t.documents ==> t.documents[c].body == u.documents[c].body
  {
    forall c
      ensures c in t.documents <==> c in u.documents
      ensures c in t.failures <==> c in u.failures
      ensures c in t.documents ==> t.documents[c].body == u.documents[c].body
      ensures c in t.failures ==> t.failures[c] == u.failures[c]
    {
      assert StandingOf(t, c) == StandingOf(u, c);
    }
    assert t.failures == u.failures;
    forall p
      ensures p in t.labels <==> p in u.labels
    {
      assert p == (p.0, p.1);
    }
  }

  /** The base and the set of archives determine the outcome. */
  lemma OutcomeIsUnique(env: Env, base: Db, t: Db, u: Db)
    requires IsOutcome(env, base, t) && IsOutcome(env, base, u) && t.archives.Keys == u.archives.Keys
    requires Counted(base)
    ensures SameIndex(t, u)
  {
    forall c
      ensures StandingOf(t, c) == StandingOf(u, c)
    {
      assert Claimed(env, base, t, c) <==> Claimed(env, base, u, c) by {
        assert forall a :: IsNew(base, t, a) <==> IsNew(base, u, a);
      }
    }
    SameStandings(t, u);
    forall a
      ensures Members(t, a) == Members(u, a)
      ensures a in t.archives ==> t.archives[a].(owner := "") == u.archives[a].(owner := "")
    {
      if a in base.archives {
      } else if a in t.archives {
        assert IsNew(base, t, a) && IsNew(base, u, a);
      }
    }
  }

  // ---- Indexing in instalments ----

  lemma {:induction false} FatedTotalsSame(env: Env, s: Db, t: Db, docs: seq<Cid>)
    requires forall c :: c in docs ==> FateOf(env, s, c) == FateOf(env, t, c)
    ensures FatedBodies(env, s, docs) == FatedBodies(env, t, docs)
    ensures FatedFailures(env, s, docs) == FatedFailures(env, t, docs)
  {
    if docs != [] {
      HeadIsMember(docs);
      assert docs == [docs[0]] + docs[1..];
      FatedTotalsSame(env, s, t, docs[1..]);
    }
  }

  lemma FateIsFinal(env: Env, c: Cid, st: Standing)
    ensures Final(Fate(env, c, st))
    ensures Fate(env, c, Fate(env, c, st)) == Fate(env, c, st)
  {
    match st {
      case Doc(_) =>
      case Failing(f) => SettleSettles(env, c, f);
      case Untried => SettleSettles(env, c, NO_FAILURE);
    }
  }

  /** The outcome of indexing more archives on top of an outcome is an outcome. */
  lemma OutcomesCompose(env: Env, base: Db, t: Db, u: Db)
    requires IsOutcome(env, base, t) && IsOutcome(env, t, u)
    ensures IsOutcome(env, base, u)
  {
    forall c
      ensures FateOf(env, t, c) == FateOf(env, base, c)
    {
      FateIsFinal(env, c, StandingOf(base, c));
    }
    forall a | IsNew(base, u, a)
      ensures u.archives[a].(owner := "") == ExpectedRow(env, base, a) && Members(u, a) == DocsOf(env, a)
    {
      if a in t.archives {
        assert IsNew(base, t, a);
      } else {
        assert IsNew(t, u, a);
        FatedTotalsSame(env, base, t, DocsOf(env, a));
      }
    }
    forall c
      ensures StandingOf(u, c) == if Claimed(env, base, u, c) then FateOf(env, base, c) else StandingOf(base, c)
    {
      ClaimsAddUp(env, base, t, u, c);
    }
  }

  lemma ClaimsAddUp(env: Env, base: Db, t: Db, u: Db, c: Cid)
    requires base.archives.Keys <= t.archives.Keys <= u.archives.Keys
    ensures Claimed(env, base, u, c) <==> Claimed(env, base, t, c) || Claimed(env, t, u, c)
  {
    if Claimed(env, base, u, c) {
      var a :| IsNew(base, u, a) && c in DocsOf(env, a);
      assert IsNew(base, t, a) || IsNew(t, u, a);
    }
    if Claimed(env, base, t, c) {
      var a :| IsNew(base, t, a) && c in DocsOf(env, a);
      assert IsNew(base, u, a);
    }
    if Claimed(env, t, u, c) {
      var a :| IsNew(t, u, a) && c in DocsOf(env, a);
      assert IsNew(base, u, a);
    }
  }
}
