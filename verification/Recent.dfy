/** store_docs.go: the bounded list of recent searches refines an unbounded most-recently-used list. */
module Recent {
  import Text

  const MAX_RECENT: nat := 30

  datatype RecentSearch = RecentSearch(keyword: string, resultCount: nat)

  /** A call of RecordSearch. */
  datatype Query = Query(keyword: string, resultCount: nat)

  /** strings.EqualFold on ASCII letters. */
  predicate EqualFold(a: string, b: string) {
    Text.Lower(a) == Text.Lower(b)
  }

  lemma LowerTwice(s: string)
    ensures Text.Lower(Text.Lower(s)) == Text.Lower(s)
  {
  }

  function Last(n: nat, s: seq<RecentSearch>): seq<RecentSearch> {
    if |s| > n then s[|s| - n..] else s
  }

  /** `s` without its entries for `keyword` (given in the lower case it is stored in). */
  function Forget(s: seq<RecentSearch>, keyword: string): seq<RecentSearch> {
    if s == [] then []
    else Forget(s[..|s| - 1], keyword)
         + (if s[|s| - 1].keyword == keyword then [] else [s[|s| - 1]])
  }

  function Recorded(q: Query): RecentSearch {
    RecentSearch(Text.Lower(q.keyword), q.resultCount)
  }

  /** The unbounded list after a history of calls: each keyword once, at its last use. */
  function History(calls: seq<Query>): seq<RecentSearch> {
    if calls == [] then []
    else
      var q, before := calls[|calls| - 1], History(calls[..|calls| - 1]);
      if q.resultCount == 0 then before
      else
        var x := Recorded(q);
        Forget(before, x.keyword) + [x]
  }

  ghost predicate OnePerKeyword(s: seq<RecentSearch>) {
    forall i, j :: 0 <= i < j < |s| ==> s[i].keyword != s[j].keyword
  }

  /** On a stored (lower-case) keyword, case folding is equality with the lowered query. */
  ghost predicate AllLower(s: seq<RecentSearch>) {
    forall x :: x in s ==> Text.Lower(x.keyword) == x.keyword
  }

  lemma {:induction false} ForgetDrops(s: seq<RecentSearch>, k: string)
    ensures forall x :: x in Forget(s, k) <==> x in s && x.keyword != k
    ensures OnePerKeyword(s) ==> OnePerKeyword(Forget(s, k))
  {
    if s != [] {
      var init, last := s[..|s| - 1], s[|s| - 1];
      assert s == init + [last];
      ForgetDrops(init, k);
      if OnePerKeyword(s) {
        forall i | 0 <= i < |Forget(init, k)|
          ensures Forget(init, k)[i].keyword != last.keyword
        {
          assert Forget(init, k)[i] in init;
        }
      }
    }
  }

  lemma {:induction false} HistoryHasOnePerKeyword(calls: seq<Query>)
    ensures OnePerKeyword(History(calls)) && AllLower(History(calls))
  {
    if calls != [] {
      var q, before := calls[|calls| - 1], History(calls[..|calls| - 1]);
      HistoryHasOnePerKeyword(calls[..|calls| - 1]);
      ForgetDrops(before, Text.Lower(q.keyword));
      LowerTwice(q.keyword);
      var kept := Forget(before, Text.Lower(q.keyword));
      forall i | 0 <= i < |kept|
        ensures kept[i].keyword != Text.Lower(q.keyword)
      {
        assert kept[i] in kept;
      }
    }
  }

  /** `x` was recorded by call `i`, and no later productive call recorded the same keyword. */
  ghost predicate IsLastUse(calls: seq<Query>, i: nat, x: RecentSearch) {
    && i < |calls|
    && calls[i].resultCount != 0
    && x == Recorded(calls[i])
    && forall j :: i < j < |calls| && calls[j].resultCount != 0 ==> Recorded(calls[j]).keyword != x.keyword
  }

  lemma LastUseStep(prior: seq<Query>, q: Query, i: nat, x: RecentSearch)
    requires i < |prior|
    ensures IsLastUse(prior + [q], i, x) <==>
            IsLastUse(prior, i, x) && (q.resultCount != 0 ==> Recorded(q).keyword != x.keyword)
  {
    var calls := prior + [q];
    assert calls[i] == prior[i] && calls[|prior|] == q;
    assert forall j :: 0 <= j < |prior| ==> calls[j] == prior[j];
  }

  /** The unbounded list holds exactly the last productive use of each keyword. */
  lemma {:induction false} HistoryIsLastUses(calls: seq<Query>, x: RecentSearch)
    ensures x in History(calls) <==> exists i :: IsLastUse(calls, i, x)
  {
    if calls != [] {
      var n := |calls| - 1;
      var q, prior := calls[n], calls[..n];
      assert calls == prior + [q];
      HistoryIsLastUses(prior, x);
      ForgetDrops(History(prior), Recorded(q).keyword);
      forall i: nat | i < n
        ensures IsLastUse(calls, i, x) <==>
                IsLastUse(prior, i, x) && (q.resultCount != 0 ==> Recorded(q).keyword != x.keyword)
      {
        LastUseStep(prior, q, i, x);
      }
      assert IsLastUse(calls, n, x) <==> q.resultCount != 0 && x == Recorded(q);
      if x in History(calls) {
        if q.resultCount == 0 || x != Recorded(q) {
          var i :| IsLastUse(prior, i, x);
          assert IsLastUse(calls, i, x);
        }
      }
    }
  }

  /** Forgetting keeps the order of what it keeps. */
  lemma {:induction false} ForgetKeepsOrder(s: seq<RecentSearch>, k: string, i: nat, j: nat) returns (p: nat, q: nat)
    requires i < j < |Forget(s, k)|
    ensures p < q < |s| && s[p] == Forget(s, k)[i] && s[q] == Forget(s, k)[j]
  {
    var n := |s| - 1;
    var init, kept := s[..n], Forget(s[..n], k);
    if j < |kept| {
      p, q := ForgetKeepsOrder(init, k, i, j);
    } else {
      ForgetDrops(init, k);
      assert kept[i] in kept;
      p :| 0 <= p < n && init[p] == kept[i];
      q := n;
    }
  }

  /** A use of another keyword, or an earlier one, is as it was before the last call. */
  lemma UseWasBefore(calls: seq<Query>, i: nat, x: RecentSearch)
    requires calls != [] && IsLastUse(calls, i, x)
    requires calls[|calls| - 1].resultCount == 0 || Recorded(calls[|calls| - 1]).keyword != x.keyword
    ensures i < |calls| - 1 && IsLastUse(calls[..|calls| - 1], i, x)
  {
    var n := |calls| - 1;
    assert calls == calls[..n] + [calls[n]];
    LastUseStep(calls[..n], calls[n], i, x);
  }

  /** The unbounded list is in order of last use. */
  lemma {:induction false} HistoryIsInOrder(calls: seq<Query>, i: nat, j: nat, p: nat, q: nat)
    requires i < j < |History(calls)|
    requires IsLastUse(calls, p, History(calls)[i]) && IsLastUse(calls, q, History(calls)[j])
    ensures p < q
  {
    var n := |calls| - 1;
    var last, before := calls[n], History(calls[..n]);
    if last.resultCount == 0 {
      UseWasBefore(calls, p, before[i]);
      UseWasBefore(calls, q, before[j]);
      HistoryIsInOrder(calls[..n], i, j, p, q);
    } else {
      var k := Recorded(last).keyword;
      var kept := Forget(before, k);
      ForgetDrops(before, k);
      assert kept[i] in kept;
      UseWasBefore(calls, p, kept[i]);
      if j < |kept| {
        assert kept[j] in kept;
        UseWasBefore(calls, q, kept[j]);
        var i', j' := ForgetKeepsOrder(before, k, i, j);
        HistoryIsInOrder(calls[..n], i', j', p, q);
      }
    }
  }

  lemma {:induction false} ForgetAbsent(s: seq<RecentSearch>, k: string)
    requires forall x :: x in s ==> x.keyword != k
    ensures Forget(s, k) == s
  {
    if s != [] {
      assert s == s[..|s| - 1] + [s[|s| - 1]];
      ForgetAbsent(s[..|s| - 1], k);
    }
  }

  lemma {:induction false} ForgetConcat(a: seq<RecentSearch>, b: seq<RecentSearch>, k: string)
    ensures Forget(a + b, k) == Forget(a, k) + Forget(b, k)
  {
    if b == [] {
      assert a + b == a;
    } else {
      assert (a + b)[..|a + b| - 1] == a + b[..|b| - 1];
      ForgetConcat(a, b[..|b| - 1], k);
    }
  }

  /** The loop's single splice removes every entry for the keyword. */
  lemma {:induction false} SpliceForgets(s: seq<RecentSearch>, i: nat, k: string)
    requires OnePerKeyword(s) && i < |s| && s[i].keyword == k
    ensures Forget(s, k) == s[..i] + s[i + 1..]
  {
    var init, last := s[..|s| - 1], s[|s| - 1];
    if i == |s| - 1 {
      forall x | x in init
        ensures x.keyword != k
      {
        var j :| 0 <= j < |init| && init[j] == x;
        assert s[j] == x;
      }
      ForgetAbsent(init, k);
    } else {
      SpliceForgets(init, i, k);
      assert init[..i] + init[i + 1..] + [last] == s[..i] + s[i + 1..];
    }
  }

  lemma TailHasOnePerKeyword(s: seq<RecentSearch>)
    requires OnePerKeyword(s) && AllLower(s)
    ensures OnePerKeyword(Last(MAX_RECENT, s)) && AllLower(Last(MAX_RECENT, s))
  {
  }

  lemma LastIgnoresMore(a: seq<RecentSearch>, b: seq<RecentSearch>)
    requires |b| >= MAX_RECENT
    ensures Last(MAX_RECENT, a + b) == Last(MAX_RECENT, b)
  {
  }

  /** Truncating before or after the update gives the same last `MAX_RECENT` entries. */
  lemma TruncationCommutes(s: seq<RecentSearch>, k: string, x: RecentSearch)
    requires OnePerKeyword(s)
    ensures Last(MAX_RECENT, Forget(Last(MAX_RECENT, s), k) + [x]) == Last(MAX_RECENT, Forget(s, k) + [x])
  {
    if |s| > MAX_RECENT {
      var a, b := s[..|s| - MAX_RECENT], s[|s| - MAX_RECENT..];
      assert s == a + b;
      ForgetConcat(a, b, k);
      ForgetBarely(b, k);
      assert Forget(s, k) + [x] == Forget(a, k) + (Forget(b, k) + [x]);
      LastIgnoresMore(Forget(a, k), Forget(b, k) + [x]);
    }
  }

  lemma {:induction false} ForgetBarely(s: seq<RecentSearch>, k: string)
    requires OnePerKeyword(s)
    ensures |s| - 1 <= |Forget(s, k)| <= |s|
  {
    if exists i :: 0 <= i < |s| && s[i].keyword == k {
      var i :| 0 <= i < |s| && s[i].keyword == k;
      SpliceForgets(s, i, k);
    } else {
      ForgetAbsent(s, k);
    }
  }
}
