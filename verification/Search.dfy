/** store_docs.go: search pages and label suggestions, over an abstract match and a given rank order. */
module Search {
  import opened Schema
  import opened Seqs
  import opened Ranking
  import Text

  datatype Hit = Hit(cid: Cid, body: Body)

  datatype Suggestion = Suggestion(keyword: string, cidCount: nat)

  const MAX_SUGGESTIONS: nat := 20

  /** `hits` lists the matching full-text rows once each, in the order the ranking gives. */
  ghost predicate IsHitOrder(t: Db, matches: FtsRow -> bool, hits: seq<nat>) {
    && Distinct(hits)
    && forall r :: r in hits <==> r in t.fts && matches(t.fts[r])
  }

  /** `documents_fts f JOIN documents d ON d.cid = f.cid`. */
  function Joined(t: Db, hits: seq<nat>): seq<Hit> {
    if hits == [] then []
    else (if hits[0] in t.fts && t.fts[hits[0]].cid in t.documents
          then [Hit(t.fts[hits[0]].cid, t.documents[t.fts[hits[0]].cid].body)] else [])
         + Joined(t, hits[1..])
  }

  /** LIMIT and OFFSET; a negative limit is none. */
  function Page<T>(rows: seq<T>, offset: nat, limit: int): seq<T> {
    var rest := if offset <= |rows| then rows[offset..] else [];
    if limit < 0 || limit >= |rest| then rest else rest[..limit]
  }

  /** The documents a query is about. */
  function Matching(t: Db, matches: FtsRow -> bool): set<Cid> {
    set c | c in t.documents && matches(FtsOf(c, t.documents[c].body))
  }

  function MatchingRows(t: Db, matches: FtsRow -> bool): set<nat> {
    set r | r in t.fts && matches(t.fts[r])
  }

  function HitCids(hits: seq<Hit>): seq<Cid> {
    seq(|hits|, i requires 0 <= i < |hits| => hits[i].cid)
  }

  /** The join drops nothing: each hit is its own document, with the fields that matched. */
  lemma {:induction false} JoinDropsNothing(t: Db, hits: seq<nat>)
    requires Mirrored(t) && forall i :: 0 <= i < |hits| ==> hits[i] in t.fts
    ensures |Joined(t, hits)| == |hits|
    ensures forall i :: 0 <= i < |hits| ==>
              && Joined(t, hits)[i].cid == t.fts[hits[i]].cid
              && t.fts[hits[i]] == FtsOf(Joined(t, hits)[i].cid, Joined(t, hits)[i].body)
  {
    if hits != [] {
      var rest := hits[1..];
      forall i | 0 <= i < |rest|
        ensures rest[i] in t.fts
      {
        assert rest[i] == hits[i + 1];
      }
      JoinDropsNothing(t, rest);
      var first := t.fts[hits[0]].cid;
      assert t.documents[first].rowid == hits[0];
      assert Joined(t, hits) == [Hit(first, t.documents[first].body)] + Joined(t, rest);
    }
  }

  lemma JoinIsOneToOne(t: Db, hits: seq<nat>)
    requires Mirrored(t) && Distinct(hits) && forall i :: 0 <= i < |hits| ==> hits[i] in t.fts
    ensures |Joined(t, hits)| == |hits|
    ensures Distinct(HitCids(Joined(t, hits)))
  {
    JoinDropsNothing(t, hits);
    var all := Joined(t, hits);
    forall i, j | 0 <= i < j < |all|
      ensures all[i].cid != all[j].cid
    {
      assert t.documents[t.fts[hits[i]].cid].rowid == hits[i];
      assert t.documents[t.fts[hits[j]].cid].rowid == hits[j];
    }
  }

  /** The reported total is the number of rows found and of documents matching. */
  lemma TotalIsNumberOfMatches(t: Db, matches: FtsRow -> bool, hits: seq<nat>)
    requires Mirrored(t) && IsHitOrder(t, matches, hits)
    ensures |MatchingRows(t, matches)| == |Joined(t, hits)| == |Matching(t, matches)|
    ensures forall c :: c in HitCids(Joined(t, hits)) <==> c in Matching(t, matches)
  {
    var rows := Joined(t, hits);
    forall i | 0 <= i < |hits|
      ensures hits[i] in t.fts
    {
      assert hits[i] in hits;
    }
    JoinDropsNothing(t, hits);
    JoinIsOneToOne(t, hits);
    DistinctCovers(hits, MatchingRows(t, matches));
    forall c
      ensures c in HitCids(rows) <==> c in Matching(t, matches)
    {
      if c in Matching(t, matches) {
        var r := t.documents[c].rowid;
        assert r in hits;
        var i :| 0 <= i < |hits| && hits[i] == r;
        assert HitCids(rows)[i] == c;
      }
      if c in HitCids(rows) {
        var i :| 0 <= i < |rows| && HitCids(rows)[i] == c;
        assert hits[i] in hits;
        assert t.documents[t.fts[hits[i]].cid].rowid == hits[i];
      }
    }
    DistinctCovers(HitCids(rows), Matching(t, matches));
  }

  function Flatten<T>(pages: seq<seq<T>>): seq<T> {
    if pages == [] then [] else Flatten(pages[..|pages| - 1]) + pages[|pages| - 1]
  }

  /** Rows before page `i`. */
  function Skipped(i: nat, size: nat): nat {
    i * size
  }

  /** `pages` are pages 0, 1, .. of `size` rows each. */
  ghost predicate ArePages<T>(rows: seq<T>, size: nat, pages: seq<seq<T>>) {
    forall i :: 0 <= i < |pages| ==> pages[i] == Page(rows, Skipped(i, size), size)
  }

  lemma NextPage(i: nat, size: nat)
    ensures Skipped(0, size) == 0
    ensures Skipped(i + 1, size) == Skipped(i, size) + size
  {
  }

  function UpTo<T>(rows: seq<T>, n: nat): seq<T> {
    if n <= |rows| then rows[..n] else rows
  }

  lemma PageExtends<T>(rows: seq<T>, n: nat, size: nat)
    ensures UpTo(rows, n) + Page(rows, n, size) == UpTo(rows, n + size)
  {
  }

  lemma {:induction false} PagesArePrefix<T>(rows: seq<T>, size: nat, pages: seq<seq<T>>)
    requires ArePages(rows, size, pages)
    ensures Flatten(pages) == UpTo(rows, Skipped(|pages|, size))
  {
    if pages == [] {
      assert UpTo(rows, 0) == [];
    } else {
      var k := |pages| - 1;
      PagesArePrefix(rows, size, pages[..k]);
      PageExtends(rows, Skipped(k, size), size);
      NextPage(k, size);
    }
  }

  lemma PagesAreAll<T>(rows: seq<T>, size: nat, pages: seq<seq<T>>)
    requires ArePages(rows, size, pages) && Skipped(|pages|, size) >= |rows|
    ensures Flatten(pages) == rows
  {
    PagesArePrefix(rows, size, pages);
  }

  /**
   Reading page after page of a search gives every matching document exactly
   once, with its current fields, and nothing else.
   */
  lemma PagesCoverMatching(t: Db, matches: FtsRow -> bool, hits: seq<nat>, size: nat, pages: seq<seq<Hit>>)
    requires Mirrored(t) && IsHitOrder(t, matches, hits)
    requires ArePages(Joined(t, hits), size, pages) && Skipped(|pages|, size) >= |Matching(t, matches)|
    ensures var found := Flatten(pages);
            && Distinct(HitCids(found))
            && (forall c :: c in HitCids(found) <==> c in Matching(t, matches))
            && (forall h :: h in found ==> h.cid in t.documents && h.body == t.documents[h.cid].body)
  {
    assert |Joined(t, hits)| == |Matching(t, matches)| by {
      TotalIsNumberOfMatches(t, matches, hits);
    }
    PagesAreAll(Joined(t, hits), size, pages);
    SearchIsExact(t, matches, hits);
  }

  /** The full result: every matching document exactly once, with its current fields. */
  lemma SearchIsExact(t: Db, matches: FtsRow -> bool, hits: seq<nat>)
    requires Mirrored(t) && IsHitOrder(t, matches, hits)
    ensures Distinct(HitCids(Joined(t, hits)))
    ensures forall c :: c in HitCids(Joined(t, hits)) <==> c in Matching(t, matches)
    ensures forall h :: h in Joined(t, hits) ==> h.cid in t.documents && h.body == t.documents[h.cid].body
  {
    TotalIsNumberOfMatches(t, matches, hits);
    HitsAreMatches(t, matches, hits);
    JoinIsOneToOne(t, hits);
    JoinHasCurrentFields(t, hits);
  }

  lemma HitsAreMatches(t: Db, matches: FtsRow -> bool, hits: seq<nat>)
    requires IsHitOrder(t, matches, hits)
    ensures forall i :: 0 <= i < |hits| ==> hits[i] in t.fts
  {
    assert forall i :: 0 <= i < |hits| ==> hits[i] in hits;
  }

  lemma {:induction false} JoinHasCurrentFields(t: Db, hits: seq<nat>)
    ensures forall h :: h in Joined(t, hits) ==> h.cid in t.documents && h.body == t.documents[h.cid].body
  {
    if hits != [] {
      JoinHasCurrentFields(t, hits[1..]);
    }
  }

  /** `hit` shows the current fields of the document full-text row `r` is about. */
  ghost predicate IsHit(t: Db, r: nat, hit: Hit) {
    && r in t.fts
    && hit.cid == t.fts[r].cid
    && hit.cid in t.documents
    && hit.body == t.documents[hit.cid].body
  }

  lemma JoinShowsHits(t: Db, matches: FtsRow -> bool, hits: seq<nat>)
    requires Mirrored(t) && IsHitOrder(t, matches, hits)
    ensures |Joined(t, hits)| == |hits|
    ensures forall i :: 0 <= i < |hits| ==> IsHit(t, hits[i], Joined(t, hits)[i])
  {
    HitsAreMatches(t, matches, hits);
    JoinDropsNothing(t, hits);
    JoinHasCurrentFields(t, hits);
    forall i | 0 <= i < |hits|
      ensures IsHit(t, hits[i], Joined(t, hits)[i])
    {
      assert Joined(t, hits)[i] in Joined(t, hits);
    }
  }

  // ---- Suggestions ----

  function Bearing(t: Db, word: string): set<Cid> {
    set p | p in t.labels && p.0 == word :: p.1
  }

  /** `SELECT label, COUNT(DISTINCT doc_cid) FROM labels WHERE label LIKE .. GROUP BY label`. */
  function LabelCounts(t: Db, like: string -> bool): Counts {
    map l | l in (set p | p in t.labels && like(p.0) :: p.0) :: |Bearing(t, l)|
  }

  ghost function Suggestions(t: Db, like: string -> bool): seq<Suggestion> {
    var counts := LabelCounts(t, like);
    var keys := Top(counts, MAX_SUGGESTIONS);
    seq(|keys|, i requires 0 <= i < |keys| =>
      Suggestion(keys[i], counts[keys[i]]))
  }

  function DocumentsBearing(t: Db, l: string): set<Cid> {
    set c | c in t.documents && l in Labels(t.documents[c].body)
  }

  lemma BearingIsExact(t: Db, l: string)
    requires LabelsExact(t)
    ensures Bearing(t, l) == DocumentsBearing(t, l)
  {
    forall c
      ensures c in Bearing(t, l) <==> c in DocumentsBearing(t, l)
    {
      assert c in DocumentsBearing(t, l) ==> (l, c) in t.labels;
    }
  }

  lemma LabelCountsAreExact(t: Db, like: string -> bool, l: string)
    requires LabelsExact(t)
    ensures l in LabelCounts(t, like) <==> like(l) && DocumentsBearing(t, l) != {}
    ensures l in LabelCounts(t, like) ==> LabelCounts(t, like)[l] == |DocumentsBearing(t, l)|
  {
    BearingIsExact(t, l);
    if c :| c in DocumentsBearing(t, l) {
      assert (l, c) in t.labels && (l, c).0 == l;
    }
    if l in LabelCounts(t, like) {
      var p :| p in t.labels && like(p.0) && p.0 == l;
      assert p.1 in Bearing(t, l);
    }
  }

  /** Suggestions fall in count, equal counts in the order of the labels. */
  lemma SuggestionsDescend(t: Db, like: string -> bool, i: nat, j: nat)
    requires i < j < |Suggestions(t, like)|
    ensures var x, y := Suggestions(t, like)[i], Suggestions(t, like)[j];
            x.cidCount >= y.cidCount && (x.cidCount == y.cidCount ==> Text.Less(x.keyword, y.keyword))
  {
    TopDescends(LabelCounts(t, like), MAX_SUGGESTIONS);
  }

  /** A label that matches and that some document bears is suggested, unless twenty better ones are. */
  lemma SuggestionsAreComplete(t: Db, like: string -> bool, l: string)
    requires LabelsExact(t) && like(l) && DocumentsBearing(t, l) != {}
    requires forall s :: s in Suggestions(t, like) ==> s.keyword != l
    ensures |Suggestions(t, like)| == 20
    ensures forall s :: s in Suggestions(t, like) ==>
              && s.cidCount >= |DocumentsBearing(t, l)|
              && (s.cidCount == |DocumentsBearing(t, l)| ==> Text.Less(s.keyword, l))
  {
    var counts := LabelCounts(t, like);
    var keys := Top(counts, MAX_SUGGESTIONS);
    LabelCountsAreExact(t, like, l);
    forall i | 0 <= i < |keys|
      ensures keys[i] != l
    {
      assert Suggestions(t, like)[i] in Suggestions(t, like);
    }
    forall s | s in Suggestions(t, like)
      ensures s.cidCount >= counts[l] && (s.cidCount == counts[l] ==> Text.Less(s.keyword, l))
      ensures |keys| == MAX_SUGGESTIONS
    {
      var i :| 0 <= i < |keys| && Suggestions(t, like)[i] == s;
      assert keys[i] in keys;
      TopKeepsTheBest(counts, MAX_SUGGESTIONS, keys[i], l);
    }
    TopDescends(counts, MAX_SUGGESTIONS);
    assert |counts.Keys| > 0 by {
      assert l in counts.Keys;
    }
    assert Suggestions(t, like)[0] in Suggestions(t, like);
  }

  /** A suggestion's count is the number of documents that bear the label. */
  lemma SuggestionCountsDocuments(t: Db, like: string -> bool, s: Suggestion)
    requires LabelsExact(t) && s in Suggestions(t, like)
    ensures like(s.keyword)
    ensures s.cidCount == |DocumentsBearing(t, s.keyword)| > 0
  {
    var counts := LabelCounts(t, like);
    var keys := Top(counts, MAX_SUGGESTIONS);
    var i :| 0 <= i < |keys| && Suggestions(t, like)[i] == s;
    LabelCountsAreExact(t, like, keys[i]);
  }
}
