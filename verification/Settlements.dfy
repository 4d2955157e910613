/** One new archive submitted to a store and settled without a crash. */
module Settlements {
  import opened Schema
  import opened Protocol
  import opened Fates
  import opened Confluence
  import opened Settling
  import opened Runs

  lemma StartIsBounded(env: Env, base: Db, n: nat)
    requires Valid(base) && CrawlsWithin(env, n)
    ensures Bounded(env, base, n, Start(base))
  {
    StartIsGood(env, base);
  }

  lemma SubmittedIsBounded(env: Env, base: Db, n: nat, a: Cid)
    requires Valid(base) && CrawlsWithin(env, n) && a !in base.archives
    ensures Bounded(env, base, n, Do(1, Start(base), Submit(a, "")))
  {
    StartIsBounded(env, base, n);
    StepKeepsBounded(env, base, n, 1, Start(base), Submit(a, ""));
  }

  /** From a good state to rest by itself, where a document of a new archive has met its fate. */
  lemma ToMember(env: Env, base: Db, n: nat, s: Sys, a: Cid, c: Cid) returns (rest: seq<Step>, u: Sys)
    requires Bounded(env, base, n, s) && CrawlsDistinct(env) && IsNew(base, s.db, a) && c in DocsOf(env, a)
    ensures Leads(env, base, 1, s, rest, u) && AllInternal(rest) && Quiescent(u)
    ensures u.db.archives.Keys == s.db.archives.Keys && StandingOf(u.db, c) == FateOf(env, base, c)
  {
    rest, u := ToRest(env, base, n, s);
    RestIsFate(env, base, u, a, c);
  }

  lemma RestIsFate(env: Env, base: Db, u: Sys, a: Cid, c: Cid)
    requires Good(env, base, u) && Quiescent(u) && IsNew(base, u.db, a) && c in DocsOf(env, a)
    ensures StandingOf(u.db, c) == FateOf(env, base, c)
  {
    QuiescenceIsOutcome(env, base, u);
    OutcomeOfMember(env, base, u.db, a, c);
  }

  lemma SubmitThenSettle(env: Env, base: Db, a: Cid, rest: seq<Step>, u: Sys)
    requires Leads(env, base, 1, Do(1, Start(base), Submit(a, "")), rest, u) && Quiescent(u) && a !in base.archives
    ensures SettlesTo(env, base, 1, [Submit(a, "")] + rest, u.db)
  {
    OneStep(env, base, 1, Start(base), Submit(a, ""));
    Then(env, base, 1, Start(base), [Submit(a, "")], Do(1, Start(base), Submit(a, "")), rest, u);
  }

  /** Submitting one new archive and letting the process finish. */
  lemma SettleOneArchive(env: Env, base: Db, n: nat, a: Cid) returns (rest: seq<Step>, u: Sys)
    requires Valid(base) && CrawlsDistinct(env) && CrawlsWithin(env, n) && a !in base.archives
    ensures Leads(env, base, 1, Do(1, Start(base), Submit(a, "")), rest, u) && AllInternal(rest)
    ensures SettlesTo(env, base, 1, [Submit(a, "")] + rest, u.db)
    ensures IsOutcome(env, base, u.db) && u.db.archives.Keys == base.archives.Keys + {a}
  {
    SubmittedIsBounded(env, base, n, a);
    rest, u := ToRest(env, base, n, Do(1, Start(base), Submit(a, "")));
    SubmitThenSettle(env, base, a, rest, u);
    assert IsOutcome(env, base, u.db) by {
      QuiescenceIsOutcome(env, base, u);
    }
  }

  lemma NothingToResume(env: Env, base: Db, t: Db)
    requires IsOutcome(env, base, t) && Resumable(base) == {}
    ensures Resumable(t) == {}
  {
    forall b | b in t.archives
      ensures b !in Resumable(t)
    {
      if b in base.archives {
        assert b !in Resumable(base);
      } else {
        assert IsNew(base, t, b) && t.archives[b].(owner := "") == ExpectedRow(env, base, b);
      }
    }
  }

  lemma OutcomeOfMember(env: Env, base: Db, t: Db, a: Cid, c: Cid)
    requires IsOutcome(env, base, t) && IsNew(base, t, a) && c in DocsOf(env, a)
    ensures StandingOf(t, c) == FateOf(env, base, c)
  {
    assert Claimed(env, base, t, c);
  }

  lemma SettleMember(env: Env, base: Db, n: nat, a: Cid, c: Cid) returns (xs: seq<Step>, t: Db)
    requires AtRest(base) && CrawlsDistinct(env) && CrawlsWithin(env, n)
    requires a !in base.archives && c in DocsOf(env, a)
    ensures SettlesTo(env, base, 1, xs, t) && t.archives.Keys == base.archives.Keys + {a}
    ensures Exclusion(t) && Resumable(t) == {} && StandingOf(t, c) == FateOf(env, base, c)
  {
    var rest, u := SettleOneArchive(env, base, n, a);
    xs, t := [Submit(a, "")] + rest, u.db;
    OutcomeOfMember(env, base, t, a, c);
    NothingToResume(env, base, t);
  }
}
