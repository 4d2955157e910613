/**
 The Store: its tables and in-memory fields, updated in place by each operation.
 Every method is tied to the transaction function of Schema it carries out.
 */
module StoreClass {
  import opened Schema
  import opened Seqs
  import opened Options
  import opened Ranking
  import Aggregation
  import Deletion
  import Invariants
  import Recent
  import FullText = Search
  import Text

  /** IndexEntry.labelSet. */
  method LabelSet(e: Body) returns (out: seq<string>)
    ensures Distinct(out) && forall l :: l in out <==> l in Labels(e)
    ensures forall l :: l in out <==>
              l != "" && ((exists k :: k in e.keywords && Text.Normal(k) == l)
                          || Text.Normal(e.broadField) == l || Text.Normal(e.subTopic) == l)
    ensures forall l :: l in out ==> l != "" && Text.IsTrimmed(l) && Text.Lower(l) == l
  {
    out := [];
    var sources := LabelSources(e);
    for i := 0 to |sources|
      invariant Distinct(out)
      invariant forall l :: l in out <==> l != "" && exists j :: 0 <= j < i && l == Text.Normal(sources[j])
    {
      var s := Text.Normal(sources[i]);
      if s != "" && s !in out {
        out := out + [s];
      }
    }
    forall l | l in out
      ensures l in Labels(e) && Text.IsTrimmed(l) && Text.Lower(l) == l
    {
      var j :| 0 <= j < |sources| && l == Text.Normal(sources[j]);
      Text.NormalIsTrimmedLower(sources[j]);
    }
    forall l
      ensures l in Labels(e) <==>
              l != "" && ((exists k :: k in e.keywords && Text.Normal(k) == l)
                          || Text.Normal(e.broadField) == l || Text.Normal(e.subTopic) == l)
    {
      Invariants.LabelsAreExact(e, l);
    }
  }

  class Store {
    var documents: map<Cid, DocRow>
    var fts: map<nat, FtsRow>
    var labels: set<(string, Cid)>
    var failures: map<Cid, Failure>
    var archives: map<Cid, Archive>
    var members: map<Cid, seq<Cid>>
    var pending: nat
    var skipped: nat
    var recent: seq<Recent.RecentSearch>

    /** An empty database. */
    constructor ()
      ensures Now() == Db(map[], map[], {}, map[], map[], map[])
      ensures pending == skipped == 0 && recent == []
    {
      documents, fts, labels, failures, archives, members := map[], map[], {}, map[], map[], map[];
      pending, skipped, recent := 0, 0, [];
    }

    function Now(): Db
      reads this
    {
      Db(documents, fts, labels, failures, archives, members)
    }

    /** Everything but the tables and the pending counter. */
    function Rest(): (nat, seq<Recent.RecentSearch>)
      reads this
    {
      (skipped, recent)
    }

    // ---- store_docs.go ----

    method Pending(cids: seq<Cid>) returns (out: seq<Cid>)
      modifies this`pending
      ensures out == PendingOf(Now(), cids)
      ensures pending == |out|
    {
      var indexed := documents.Keys;
      var failed := PermFailed(Now());
      out := [];
      for i := 0 to |cids|
        invariant out + PendingOf(Now(), cids[i..]) == PendingOf(Now(), cids)
      {
        assert cids[i..][1..] == cids[i + 1..];
        if cids[i] in indexed {
          continue;
        }
        if cids[i] in failed {
          continue;
        }
        out := out + [cids[i]];
      }
      assert cids[|cids|..] == [];
      pending := |out|;
    }

    method DropPending()
      modifies this`pending
      ensures pending == if old(pending) > 0 then old(pending) - 1 else 0
    {
      if pending > 0 {
        pending := pending - 1;
      }
    }

    /** `rowid` is the one SQLite assigns when the CID is new. */
    method Add(c: Cid, entry: Body, rowid: nat)
      modifies this
      ensures Now() == AddTx(old(Now()), c, entry, rowid)
      ensures c in documents && documents[c].body == entry && documents - {c} == old(documents) - {c}
      ensures documents[c].rowid == if c in old(documents) then old(documents)[c].rowid else rowid
      ensures documents[c].rowid in fts && fts[documents[c].rowid].title == entry.title
      ensures failures == old(failures) - {c} && archives == old(archives) && members == old(members)
      ensures pending == (if old(pending) > 0 then old(pending) - 1 else 0) && Rest() == old(Rest())
    {
      var r := if c in documents then documents[c].rowid else rowid;
      documents := documents[c := DocRow(r, entry)];
      fts := fts - {r};
      fts := fts[r := FtsOf(c, entry)];
      Relabel(c, entry);
      failures := failures - {c};
      DropPending();
      assert fts == old(fts)[r := FtsOf(c, entry)];
    }

    method Relabel(c: Cid, entry: Body)
      modifies this`labels
      ensures labels == (set p | p in old(labels) && p.1 != c) + (set l | l in Labels(entry) :: (l, c))
    {
      labels := set p | p in labels && p.1 != c;
      var ls := LabelSet(entry);
      ghost var kept := labels;
      for i := 0 to |ls|
        invariant labels == kept + set l | l in ls[..i] :: (l, c)
      {
        assert ls[..i + 1] == ls[..i] + [ls[i]];
        labels := labels + {(ls[i], c)};
      }
      assert ls[..|ls|] == ls;
    }

    method RecordFailure(c: Cid, reason: string)
      modifies this
      ensures Now() == FailTx(old(Now()), c, reason)
      ensures c in failures && failures[c].reason == reason && failures - {c} == old(failures) - {c}
      ensures failures[c].count == if c in old(failures) then old(failures)[c].count + 1 else 1
      ensures Rest() == old(Rest())
      ensures pending == if c in PermFailed(Now()) && old(pending) > 0 then old(pending) - 1 else old(pending)
    {
      var count := if c in failures then failures[c].count + 1 else 1;
      failures := failures[c := Failure(count, reason)];
      if count >= MAX_RETRIES {
        DropPending();
      }
    }

    method RecordSkip(c: Cid)
      modifies this
      ensures Now() == SkipTx(old(Now()), c)
      ensures c in failures && failures[c] == Failure(3, "skipped: not a PDF") && failures - {c} == old(failures) - {c}
      ensures pending == (if old(pending) > 0 then old(pending) - 1 else 0)
      ensures skipped == old(skipped) + 1 && recent == old(recent)
    {
      failures := failures[c := Failure(MAX_RETRIES, SKIP_REASON)];
      skipped := skipped + 1;
      DropPending();
    }

    method RetryFailure(c: Cid) returns (found: bool)
      modifies this`failures
      ensures Now() == RetryTx(old(Now()), c) && failures == old(failures) - {c}
      ensures found == (c in old(failures))
    {
      found := c in failures;
      failures := failures - {c};
    }

    method RequeueRateLimited() returns (n: nat)
      modifies this`failures
      ensures Now() == RequeueTx(old(Now()))
      ensures forall c :: c in failures <==>
                c in old(failures)
                && !exists i: nat :: Text.Occurs(Text.Lower(old(failures)[c].reason), "rate limited", i)
      ensures forall c :: c in failures ==> failures[c] == old(failures)[c]
      ensures n == |set c | c in old(failures) && Text.MentionsRateLimit(old(failures)[c].reason)|
    {
      var gone := set c | c in failures && Text.MentionsRateLimit(failures[c].reason);
      n := |gone|;
      failures := failures - gone;
      assert failures == RequeueTx(old(Now())).failures;
      forall c
        ensures c in failures <==>
                c in old(failures)
                && !exists i: nat :: Text.Occurs(Text.Lower(old(failures)[c].reason), "rate limited", i)
      {
        Invariants.RequeueIsExact(old(Now()), c);
      }
    }

    /** Every match, in rank order. */
    method Search(matches: Option<FtsRow -> bool>, hits: seq<nat>) returns (results: seq<FullText.Hit>)
      requires matches.Some? ==> FullText.IsHitOrder(Now(), matches.value, hits)
      ensures matches.None? ==> results == []
      ensures matches.Some? && Mirrored(Now()) ==>
                && Distinct(FullText.HitCids(results))
                && (forall c :: c in FullText.HitCids(results) <==> c in FullText.Matching(Now(), matches.value))
                && (forall h :: h in results ==> h.cid in documents && h.body == documents[h.cid].body)
    {
      var total;
      results, total := SearchPage(matches, hits, 0, -1);
      if matches.Some? && Mirrored(Now()) {
        FullText.SearchIsExact(Now(), matches.value, hits);
      }
    }

    /** `matches` stands for the MATCH expression (None when the query is empty), `hits` for the rank order. */
    method SearchPage(matches: Option<FtsRow -> bool>, hits: seq<nat>, offset: nat, limit: int)
      returns (results: seq<FullText.Hit>, total: nat)
      requires matches.Some? ==> FullText.IsHitOrder(Now(), matches.value, hits)
      ensures matches.None? ==> results == [] && total == 0
      ensures matches.Some? && Mirrored(Now()) ==>
                && total == |FullText.Matching(Now(), matches.value)| == |hits|
                && results == FullText.Page(FullText.Joined(Now(), hits), offset, limit)
                && |results| == (if offset >= total then 0
                                 else if 0 <= limit < total - offset then limit else total - offset)
                && forall i :: 0 <= i < |results| ==>
                     FullText.IsHit(Now(), hits[offset + i], results[i])
    {
      if matches.None? {
        return [], 0;
      }
      total := |FullText.MatchingRows(Now(), matches.value)|;
      if Mirrored(Now()) {
        FullText.TotalIsNumberOfMatches(Now(), matches.value, hits);
        FullText.JoinShowsHits(Now(), matches.value, hits);
      }
      if total == 0 {
        return [], 0;
      }
      results := FullText.Page(FullText.Joined(Now(), hits), offset, limit);
    }

    method Suggest(like: string -> bool) returns (out: seq<FullText.Suggestion>)
      ensures out == FullText.Suggestions(Now(), like)
      ensures forall i, j :: 0 <= i < j < |out| ==>
                && out[i].cidCount >= out[j].cidCount
                && (out[i].cidCount == out[j].cidCount ==> Text.Less(out[i].keyword, out[j].keyword))
    {
      var counts := FullText.LabelCounts(Now(), like);
      var keys := TopCounted(counts, FullText.MAX_SUGGESTIONS);
      out := [];
      for i := 0 to |keys|
        invariant out == FullText.Suggestions(Now(), like)[..i]
      {
        out := out + [FullText.Suggestion(keys[i], counts[keys[i]])];
      }
      forall i, j | 0 <= i < j < |out|
        ensures out[i].cidCount >= out[j].cidCount
        ensures out[i].cidCount == out[j].cidCount ==> Text.Less(out[i].keyword, out[j].keyword)
      {
        FullText.SuggestionsDescend(Now(), like, i, j);
      }
    }

    /** The list the store keeps is the tail of the unbounded history. */
    ghost predicate Remembers(calls: seq<Recent.Query>)
      reads this
    {
      recent == Recent.Last(Recent.MAX_RECENT, Recent.History(calls))
    }

    /** Remove the first entry whose keyword folds to `keyword`. */
    method Splice(keyword: string)
      requires Recent.OnePerKeyword(recent) && Recent.AllLower(recent)
      modifies this`recent
      ensures recent == Recent.Forget(old(recent), Text.Lower(keyword))
    {
      for i := 0 to |recent|
        invariant recent == old(recent)
        invariant forall j :: 0 <= j < i ==> recent[j].keyword != Text.Lower(keyword)
      {
        assert recent[i] in recent;
        if Recent.EqualFold(recent[i].keyword, keyword) {
          Recent.SpliceForgets(recent, i, Text.Lower(keyword));
          recent := recent[..i] + recent[i + 1..];
          return;
        }
      }
      Recent.ForgetAbsent(recent, Text.Lower(keyword));
    }

    method RecordSearch(q: Recent.Query, ghost calls: seq<Recent.Query>)
      requires Remembers(calls)
      modifies this`recent
      ensures Remembers(calls + [q])
    {
      ghost var history := Recent.History(calls);
      assert (calls + [q])[..|calls|] == calls;
      if q.resultCount == 0 {
        return;
      }
      Recent.HistoryHasOnePerKeyword(calls);
      Recent.TailHasOnePerKeyword(history);
      var x := Recent.Recorded(q);
      Splice(q.keyword);
      recent := recent + [x];
      if |recent| > Recent.MAX_RECENT {
        recent := recent[|recent| - Recent.MAX_RECENT..];
      }
      Recent.TruncationCommutes(history, x.keyword, x);
    }

    method GetRecentSearches() returns (result: seq<Recent.RecentSearch>)
      ensures |result| == |recent|
      ensures forall i :: 0 <= i < |recent| ==> result[|recent| - 1 - i] == recent[i]
    {
      result := recent;
      for i := 0 to |recent|
        invariant |result| == |recent|
        invariant forall j :: 0 <= j < i ==> result[|recent| - 1 - j] == recent[j]
      {
        result := result[|recent| - 1 - i := recent[i]];
      }
    }

    // ---- store_archives.go ----

    method AddArchive(a: Cid, owner: string) returns (created: bool)
      modifies this`archives
      ensures Now() == AddArchiveTx(old(Now()), a, Text.Trim(owner))
      ensures created == (a !in old(archives)) && a in archives && archives - {a} == old(archives) - {a}
      ensures created ==> archives[a] == Archive("", Text.Trim(owner), Queued, 0, 0, 0, [], [], "")
      ensures !created && Text.Trim(owner) == "" ==> archives == old(archives)
      ensures !created && Text.Trim(owner) != "" ==> archives[a] == old(archives)[a].(owner := Text.Trim(owner))
    {
      var o := Text.Trim(owner);
      created := a !in archives;
      if created {
        archives := archives[a := BLANK.(owner := o)];
        return;
      }
      if o != "" {
        archives := archives[a := archives[a].(owner := o)];
      }
    }

    method MarkArchiveCrawling(a: Cid)
      modifies this`archives
      ensures Now() == CrawlingTx(old(Now()), a)
      ensures a !in old(archives) ==> archives == old(archives)
      ensures a in old(archives) ==> archives == old(archives)[a := old(archives)[a].(status := Crawling)]
    {
      if a in archives {
        archives := archives[a := archives[a].(status := Crawling)];
      }
    }

    method MarkArchiveFailed(a: Cid, reason: string)
      modifies this`archives
      ensures Now() == FailedTx(old(Now()), a, reason)
      ensures a !in old(archives) ==> archives == old(archives)
      ensures a in old(archives) ==>
                archives == old(archives)[a := old(archives)[a].(status := Failed, error := reason)]
    {
      if a in archives {
        archives := archives[a := archives[a].(status := Failed, error := reason)];
      }
    }

    method SetArchiveDocs(a: Cid, docs: seq<Cid>)
      modifies this`archives, this`members
      ensures Now() == SetDocsTx(old(Now()), a, docs)
      ensures a !in old(archives) ==> archives == old(archives)
      ensures a in old(archives) ==>
                archives == old(archives)[a := old(archives)[a].(docCount := |docs|, status := Indexing)]
      ensures a in members && Distinct(members[a]) && forall c :: c in members[a] <==> c in docs
      ensures Distinct(docs) ==> members[a] == docs
      ensures members - {a} == old(members) - {a}
    {
      if a in archives {
        archives := archives[a := archives[a].(docCount := |docs|, status := Indexing)];
      }
      members := members[a := []];
      for i := 0 to |docs|
        modifies this`members
        invariant members == old(members)[a := Dedup(docs[..i])]
      {
        assert docs[..i + 1][..i] == docs[..i];
        DedupMembers(docs[..i]);
        if docs[i] !in members[a] {
          members := members[a := members[a] + [docs[i]]];
        }
      }
      assert docs[..|docs|] == docs;
      DedupMembers(docs);
    }

    method ArchiveDocCIDs(a: Cid) returns (out: seq<Cid>)
      ensures out == Members(Now(), a)
    {
      out := if a in members then members[a] else [];
    }

    /** The archives start-up enqueues again, in whatever order the query returns them. */
    method ResumableArchives() returns (out: seq<Cid>)
      ensures Distinct(out) && forall a :: a in out <==> a in Resumable(Now())
    {
      out := [];
      var left := archives.Keys;
      while left != {}
        invariant left <= archives.Keys
        invariant forall a :: a in out <==> a in Resumable(Now()) && a !in left
        invariant Distinct(out)
      {
        var a :| a in left;
        if archives[a].status in {Queued, Crawling, Indexing} {
          out := out + [a];
        }
        left := left - {a};
      }
    }

    /** `rows` is the inner join with `documents`, in whatever order the query returns it. */
    method FinalizeArchive(a: Cid, rows: seq<Body>)
      requires multiset(rows) == multiset(Bodies(Now(), Members(Now(), a)))
      modifies this`archives
      ensures Now() == FinalizeTx(old(Now()), a, ReadTotals(old(Now()), a))
      ensures Invariants.FinalizedRight(old(Now()), Now(), a)
    {
      Invariants.FinalizeIsRight(Now(), a);
      if a !in archives {
        return;
      }
      var docs := if a in members then members[a] else [];
      var indexed := |rows|;
      var kwCount := Aggregation.CountKeywords(rows);
      var fieldCount := Aggregation.CountFields(rows);
      var failed := CountIn(docs, PermFailed(Now()));
      var left := |PendingOf(Now(), docs)|;
      var topKeywords := TopCounted(kwCount, TOP_KEYWORDS);
      var broadFields := TopFields(fieldCount);
      Aggregation.TotalsIgnoreRowOrder(rows, Bodies(Now(), docs), failed, left);
      var row := archives[a];
      var name := row.name;
      if name == "" {
        name := if |broadFields| > 0 then broadFields[0].field else a;
      }
      archives := archives[a := row.(
        indexed := indexed, failed := failed, topKeywords := topKeywords, broadFields := broadFields,
        status := if left > 0 then Indexing else Done, name := name)];
    }

    // ---- store_admin.go ----

    /** UPDATE archives .. WHERE cid IN (SELECT archive_cid ..). */
    method Uncount(c: Cid, wasIndexed: bool, wasFailed: bool)
      modifies this`archives
      ensures archives == map a | a in old(archives) ::
                if c in Members(old(Now()), a) then Shrink(old(archives)[a], wasIndexed, wasFailed)
                else old(archives)[a]
    {
      archives := map a | a in archives ::
        if c in Members(Now(), a) then Shrink(archives[a], wasIndexed, wasFailed) else archives[a];
    }

    method DropDocument(c: Cid)
      modifies this
      ensures Now() == DropDocTx(old(Now()), c)
      ensures pending == old(pending) && Rest() == old(Rest())
    {
      var wasIndexed := c in documents;
      var wasFailed := c in failures && failures[c].count >= MAX_RETRIES;
      assert wasFailed == (c in PermFailed(Now()));
      Uncount(c, wasIndexed, wasFailed);
      if wasIndexed {
        fts := fts - {documents[c].rowid};
      }
      documents := documents - {c};
      labels := set p | p in labels && p.1 != c;
      failures := failures - {c};
      members := map a | a in members :: Minus(members[a], {c});
    }

    method DeleteDocument(c: Cid) returns (found: bool)
      modifies this
      ensures Now() == DeleteDocumentTx(old(Now()), c)
      ensures found == (c in old(documents) || c in old(failures))
      ensures pending == old(pending) && Rest() == old(Rest())
    {
      found := c in documents || c in failures;
      if found {
        DropDocument(c);
      }
    }

    /** The loop over the members of `a`: documents no other archive lists are dropped. */
    method DropExclusive(a: Cid, docs: seq<Cid>)
      requires docs == Members(Now(), a)
      modifies this
      ensures Deletion.Dropped(old(Now()), a, Exclusive(old(Now()), a), Now())
      ensures pending == old(pending) && Rest() == old(Rest())
    {
      ghost var t := Now();
      ghost var gone := {};
      for i := 0 to |docs|
        invariant gone == set c | c in Exclusive(t, a) && c in docs[..i]
        invariant Deletion.Dropped(t, a, gone, Now())
        invariant pending == old(pending) && Rest() == old(Rest())
      {
        var dc := docs[i];
        assert docs[..i + 1] == docs[..i] + [dc];
        var others := |set b | b in members && b != a && dc in members[b]|;
        if others > 0 {
          Deletion.SharedIsNotExclusive(t, a, gone, Now(), dc);
          continue;
        }
        Deletion.UnsharedIsExclusive(t, a, gone, Now(), dc);
        Deletion.DropOneMore(t, a, gone, Now(), dc);
        DropDocument(dc);
        gone := gone + {dc};
      }
      assert docs[..|docs|] == docs;
      assert gone == Exclusive(t, a);
    }

    /** The loop, and what it amounts to. */
    method DeleteArchive(a: Cid) returns (found: bool)
      modifies this
      ensures Now() == WithoutArchive(old(Now()), a)
      ensures found == (a in old(archives))
      ensures pending == old(pending) && Rest() == old(Rest())
    {
      found := a in archives;
      if !found {
        return;
      }
      ghost var t := Now();
      DropExclusive(a, if a in members then members[a] else []);
      Deletion.DropAllThenUnregister(t, a, Now());
      members := members - {a};
      archives := archives - {a};
    }
  }
}
