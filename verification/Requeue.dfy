/**
 The exact condition for confluence. Start-up deletes every failure whose last
 reason mentions a rate limit, permanent ones included, without resuming the
 archives they belong to. A crash shows if the record deleted was the last one,
 or if attempts starting afresh end differently from those it interrupts.
 */
module Requeue {
  import opened Options
  import opened Schema
  import opened Seqs
  import opened Fates
  import opened Confluence
  import opened Settling
  import opened Crashes
  import Crawl
  import Text

  // ---- The condition ----

  lemma HarmShows(env: Env, base: Db, n: nat, c: Cid)
    requires AtRest(base) && CrawlsDistinct(env) && CrawlsWithin(env, n)
    requires Archivable(env, base, c) && !Harmless(env, c, StandingOf(base, c))
    ensures !Confluent(env, base)
  {
    var a :| a !in base.archives && c in DocsOf(env, a);
    HarmlessIff(env, c, StandingOf(base, c));
    var f :| OnTheWay(env, c, StandingOf(base, c), f) && Text.MentionsRateLimit(f.reason)
             && !(f.count < MAX_RETRIES && Settle(env, c, f) == Settle(env, c, NO_FAILURE));
    if f.count >= MAX_RETRIES {
      OnTheWayShareFate(env, c, StandingOf(base, c), f);
      CrashAtRestShows(env, base, n, a, c);
    } else {
      CrashOnTheWayShows(env, base, n, a, c, f);
    }
  }

  /**
   From any store at rest, confluence holds exactly when, for every document of an
   archive yet to be submitted, each record on its way that start-up would requeue
   is neither the last nor one from which first attempts end differently.
   */
  lemma ConfluentIff(env: Env, base: Db, n: nat)
    requires AtRest(base) && CrawlsDistinct(env) && CrawlsWithin(env, n)
    ensures Confluent(env, base) <==> RequeueHarmless(env, base)
  {
    if RequeueHarmless(env, base) {
      RunsAgree(env, base);
    } else {
      var c :| Archivable(env, base, c) && !Harmless(env, c, StandingOf(base, c));
      HarmShows(env, base, n, c);
    }
  }

  /** If no outcome's reason mentions a rate limit, every store at rest is confluent. */
  lemma QuietOutcomesAreConfluent(env: Env, base: Db)
    requires AtRest(base)
    requires forall c, n: nat :: env.outcome(c, n).Fails? ==> !Text.MentionsRateLimit(env.outcome(c, n).reason)
    ensures Confluent(env, base)
  {
    forall c
      ensures Harmless(env, c, StandingOf(base, c))
    {
      QuietIsHarmless(env, c, StandingOf(base, c));
    }
    RunsAgree(env, base);
  }

  lemma {:induction false} QuietIsHarmless(env: Env, c: Cid, st: Standing)
    requires forall n: nat :: env.outcome(c, n).Fails? ==> !Text.MentionsRateLimit(env.outcome(c, n).reason)
    ensures Harmless(env, c, st)
    decreases Budget(st)
  {
    if !Final(st) {
      SkipIsQuiet();
      QuietIsHarmless(env, c, Attempt(env, c, st));
    }
  }

  lemma SkipIsQuiet()
    ensures !Text.MentionsRateLimit(SKIP_REASON)
  {
    Text.ContainsNeedsHead(Text.Lower(SKIP_REASON), "rate limited");
  }

  // ---- Stores the same outcomes have filled ----

  /** No document of an archive ends in a failure that start-up would requeue. */
  ghost predicate NoRequeuedEnds(env: Env) {
    forall a, c :: c in DocsOf(env, a) ==> !Requeued(Settle(env, c, NO_FAILURE))
  }

  /** Every failure record lies on the way from a first try. */
  ghost predicate OnPath(env: Env, t: Db) {
    forall c :: c in t.failures ==> Settle(env, c, t.failures[c]) == Settle(env, c, NO_FAILURE)
  }

  const EMPTY := Db(map[], map[], {}, map[], map[], map[])

  lemma EmptyIsAtRest(env: Env)
    ensures AtRest(EMPTY) && OnPath(env, EMPTY)
  {
    assert RequeueTx(EMPTY) == EMPTY;
    assert Resumable(EMPTY) == {};
  }

  lemma OnPathIsHarmless(env: Env, base: Db, c: Cid)
    requires Exclusion(base) && OnPath(env, base) && !Requeued(Settle(env, c, NO_FAILURE))
    ensures Harmless(env, c, StandingOf(base, c))
  {
    if !StandingOf(base, c).Doc? {
      HarmlessAfresh(env, c, StandingOf(base, c));
    }
  }

  /** For stores whose records these very outcomes made, only where documents end matters. */
  lemma OnPathConfluentIff(env: Env, n: nat)
    requires CrawlsDistinct(env) && CrawlsWithin(env, n)
    ensures (forall base :: AtRest(base) && OnPath(env, base) ==> Confluent(env, base)) <==> NoRequeuedEnds(env)
  {
    if NoRequeuedEnds(env) {
      forall base | AtRest(base) && OnPath(env, base)
        ensures Confluent(env, base)
      {
        forall c | Archivable(env, base, c)
          ensures Harmless(env, c, StandingOf(base, c))
        {
          OnPathIsHarmless(env, base, c);
        }
        RunsAgree(env, base);
      }
    } else {
      var a, c :| c in DocsOf(env, a) && Requeued(Settle(env, c, NO_FAILURE));
      EmptyIsAtRest(env);
      CrashAtRestShows(env, EMPTY, n, a, c);
    }
  }

  // ---- The crawler as the source of member lists ----

  /** Archives are crawled by the crawler of Crawl, on a gateway that keeps answering alike. */
  ghost predicate CrawledBy(env: Env, gw: Crawl.Gateway, max: Crawl.Limits)
    requires 0 < max.depth
  {
    forall a ::
      && (env.crawl(a).Found? <==> gw.classify(a) == Some(Crawl.Dir))
      && (env.crawl(a).Found? ==>
            env.crawl(a).docs == Crawl.Walk(Crawl.GraphOf(gw), max, a, 0, Crawl.START).order)
  }

  /** The crawler's lists are what the dispatcher relies on: free of duplicates and bounded. */
  lemma CrawlerSuits(env: Env, gw: Crawl.Gateway, max: Crawl.Limits)
    requires 0 < max.depth && CrawledBy(env, gw, max)
    ensures CrawlsDistinct(env) && CrawlsWithin(env, max.docs)
  {
    forall a
      ensures Distinct(DocsOf(env, a)) && |DocsOf(env, a)| <= max.docs
    {
      if env.crawl(a).Found? {
        Crawl.WalkIsNeat(Crawl.GraphOf(gw), max, a, 0, Crawl.START);
        Crawl.CapTruncates(Crawl.GraphOf(gw), max, max.docs, a);
      }
    }
  }

  /** With the real crawler the condition is exact without further assumptions. */
  lemma CrawlerIsConfluentIff(env: Env, gw: Crawl.Gateway, max: Crawl.Limits, base: Db)
    requires 0 < max.depth && CrawledBy(env, gw, max) && AtRest(base)
    ensures Confluent(env, base) <==> RequeueHarmless(env, base)
  {
    CrawlerSuits(env, gw, max);
    ConfluentIff(env, base, max.docs);
  }
}
