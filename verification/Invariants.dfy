/** Every write transaction keeps the derived tables in agreement with what they derive from. */
module Invariants {
  import opened Schema
  import opened Seqs
  import opened Ranking
  import Text

  lemma AddKeepsMirror(t: Db, c: Cid, b: Body, rowid: nat)
    requires Mirrored(t) && FreshRowid(t, c, rowid)
    ensures Mirrored(AddTx(t, c, b, rowid))
  {
    var u := AddTx(t, c, b, rowid);
    var r := u.documents[c].rowid;
    forall d | d in u.documents && d != c
      ensures u.documents[d].rowid != r
    {
      assert t.fts[t.documents[d].rowid].cid == d;
    }
  }

  lemma AddKeepsLabels(t: Db, c: Cid, b: Body, rowid: nat)
    requires LabelsExact(t)
    ensures LabelsExact(AddTx(t, c, b, rowid))
  {
  }

  lemma AddKeepsValid(t: Db, c: Cid, b: Body, rowid: nat)
    requires Consistent(t) && FreshRowid(t, c, rowid)
    ensures Consistent(AddTx(t, c, b, rowid))
    ensures Counted(t) ==> Counted(AddTx(t, c, b, rowid))
  {
    AddKeepsMirror(t, c, b, rowid);
    AddKeepsLabels(t, c, b, rowid);
    assert forall a :: Members(AddTx(t, c, b, rowid), a) == Members(t, a);
  }

  /** A failure may be recorded exactly for CIDs that are not indexed. */
  lemma FailKeepsValidIff(t: Db, c: Cid, reason: string)
    requires Consistent(t)
    ensures Consistent(FailTx(t, c, reason)) <==> c !in t.documents
    ensures Consistent(SkipTx(t, c)) <==> c !in t.documents
    ensures Counted(t) ==> Counted(FailTx(t, c, reason)) && Counted(SkipTx(t, c))
  {
    var u, v := FailTx(t, c, reason), SkipTx(t, c);
    assert c in u.failures && c in v.failures;
    assert forall a :: Members(u, a) == Members(t, a) && Members(v, a) == Members(t, a);
  }

  lemma FewerFailuresKeepValid(t: Db, f: map<Cid, Failure>)
    requires Consistent(t) && f.Keys <= t.failures.Keys
    ensures Consistent(t.(failures := f))
    ensures Counted(t) ==> Counted(t.(failures := f))
  {
    assert forall a :: Members(t.(failures := f), a) == Members(t, a);
  }

  /** The labels of a document: its keywords, field and topic, trimmed and lowered, blank ones aside. */
  lemma LabelsAreExact(b: Body, l: string)
    ensures l in Labels(b) <==>
            l != "" && ((exists k :: k in b.keywords && Text.Normal(k) == l)
                        || Text.Normal(b.broadField) == l || Text.Normal(b.subTopic) == l)
  {
    var sources := LabelSources(b);
    assert sources[|b.keywords|] == b.broadField && sources[|b.keywords| + 1] == b.subTopic;
    assert forall s :: s in sources <==> s in b.keywords || s == b.broadField || s == b.subTopic;
  }

  /** Start-up's requeue takes exactly the records whose reason, lowered, has "rate limited" anywhere in it. */
  lemma RequeueIsExact(t: Db, c: Cid)
    ensures c in RequeueTx(t).failures <==>
            c in t.failures && !exists i: nat :: Text.Occurs(Text.Lower(t.failures[c].reason), "rate limited", i)
    ensures c in RequeueTx(t).failures ==> RequeueTx(t).failures[c] == t.failures[c]
    ensures RequeueTx(t) == t.(failures := RequeueTx(t).failures)
  {
    if c in t.failures {
      Text.ContainsIff(Text.Lower(t.failures[c].reason), "rate limited");
    }
  }

  /** Writing an archive row that leaves doc_count alone, or a new row for an archive without members. */
  lemma RowWriteKeepsValid(t: Db, a: Cid, row: Archive)
    requires Consistent(t)
    requires if a in t.archives then row.docCount == t.archives[a].docCount else row.docCount == 0
    ensures Consistent(t.(archives := t.archives[a := row]))
    ensures Counted(t) ==> Counted(t.(archives := t.archives[a := row]))
  {
    var u := t.(archives := t.archives[a := row]);
    assert forall b :: Members(u, b) == Members(t, b);
  }

  lemma AddArchiveKeepsValid(t: Db, a: Cid, owner: string)
    requires Consistent(t)
    ensures Consistent(AddArchiveTx(t, a, owner))
    ensures Counted(t) ==> Counted(AddArchiveTx(t, a, owner))
  {
    if a !in t.archives {
      RowWriteKeepsValid(t, a, BLANK.(owner := owner));
    } else if owner != "" {
      RowWriteKeepsValid(t, a, t.archives[a].(owner := owner));
    }
  }

  lemma CrawlingKeepsValid(t: Db, a: Cid)
    requires Consistent(t)
    ensures Consistent(CrawlingTx(t, a))
    ensures Counted(t) ==> Counted(CrawlingTx(t, a))
  {
    assert forall b :: Members(CrawlingTx(t, a), b) == Members(t, b);
  }

  lemma MarkFailedKeepsValid(t: Db, a: Cid, reason: string)
    requires Consistent(t)
    ensures Consistent(FailedTx(t, a, reason))
    ensures Counted(t) ==> Counted(FailedTx(t, a, reason))
  {
    assert forall b :: Members(FailedTx(t, a, reason), b) == Members(t, b);
  }

  /**
   The crawl result keeps the tables in agreement exactly when the archive is
   still registered (or the list is empty): an archive deleted while it is
   being crawled is left with membership rows nobody owns.
   */
  lemma SetDocsKeepsCountedIff(t: Db, a: Cid, docs: seq<Cid>)
    requires Valid(t) && Distinct(docs)
    ensures Consistent(SetDocsTx(t, a, docs))
    ensures Counted(SetDocsTx(t, a, docs)) <==> a in t.archives || docs == []
  {
    SetDocsKeepsConsistent(t, a, docs);
    DedupMembers(docs);
    var u := SetDocsTx(t, a, docs);
    assert forall b :: b != a ==> Members(u, b) == Members(t, b);
    assert a in u.members && u.members[a] == docs;
  }

  lemma SetDocsKeepsConsistent(t: Db, a: Cid, docs: seq<Cid>)
    requires Consistent(t)
    ensures Consistent(SetDocsTx(t, a, docs))
  {
    DedupMembers(docs);
  }

  lemma FinalizeKeepsValid(t: Db, a: Cid, n: Totals)
    requires Consistent(t)
    ensures Consistent(FinalizeTx(t, a, n))
    ensures Counted(t) ==> Counted(FinalizeTx(t, a, n))
  {
    assert forall b :: Members(FinalizeTx(t, a, n), b) == Members(t, b);
  }

  /** After finalizing on current totals the stored counters are in step. */
  lemma FinalizeSetsInStep(t: Db, a: Cid)
    requires a in t.archives
    ensures InStep(FinalizeTx(t, a, ReadTotals(t, a)), a)
  {
    BodiesCount(t, Members(t, a));
  }

  /** `u` is `t` with the counters and the status of `a` as its members are; owner, error and a given name stay. */
  ghost predicate FinalizedRight(t: Db, u: Db, a: Cid) {
    && u == t.(archives := u.archives)
    && u.archives.Keys == t.archives.Keys
    && u.archives - {a} == t.archives - {a}
    && (a in t.archives ==>
          var row, docs := u.archives[a], Members(t, a);
          && row.indexed == CountIn(docs, t.documents.Keys)
          && row.failed == CountIn(docs, PermFailed(t))
          && row.status == (if PendingOf(t, docs) == [] then Done else Indexing)
          && row.docCount == t.archives[a].docCount
          && row.owner == t.archives[a].owner && row.error == t.archives[a].error
          && (t.archives[a].name != "" ==> row.name == t.archives[a].name))
  }

  lemma FinalizeIsRight(t: Db, a: Cid)
    ensures FinalizedRight(t, FinalizeTx(t, a, ReadTotals(t, a)), a)
  {
    BodiesCount(t, Members(t, a));
  }

  /** It stores the twelve most used keywords of the members, and all their fields, most frequent first. */
  lemma FinalizeRanks(t: Db, a: Cid)
    requires a in t.archives
    ensures var row := FinalizeTx(t, a, ReadTotals(t, a)).archives[a];
            var keywords := Tally(KeywordBag(Bodies(t, Members(t, a))));
            && (forall i :: 0 <= i < |row.topKeywords| ==> row.topKeywords[i] in keywords)
            && Descending(keywords, row.topKeywords)
            && |row.topKeywords| == (if |keywords.Keys| > 12 then 12 else |keywords.Keys|)
            && FieldsDescending(Tally(FieldBag(Bodies(t, Members(t, a)))), row.broadFields)
  {
    TopDescends(Tally(KeywordBag(Bodies(t, Members(t, a)))), TOP_KEYWORDS);
    FieldsDescend(Tally(FieldBag(Bodies(t, Members(t, a)))));
  }

  /** It names an unnamed archive after its most frequent field, after itself when it has none, and renames none. */
  lemma FinalizeNames(t: Db, a: Cid, f: string)
    requires a in t.archives
    ensures var u := FinalizeTx(t, a, ReadTotals(t, a));
            var bag := FieldBag(Bodies(t, Members(t, a)));
            && a in u.archives
            && (t.archives[a].name != "" ==> u.archives[a].name == t.archives[a].name)
            && (t.archives[a].name == "" && bag == multiset{} ==> u.archives[a].name == a)
            && (t.archives[a].name == "" && f in bag ==>
                  var name := u.archives[a].name;
                  && name in bag && bag[name] >= bag[f]
                  && (bag[name] == bag[f] && name != f ==> Text.Less(name, f)))
  {
    var bag := FieldBag(Bodies(t, Members(t, a)));
    var fields := Fields(Tally(bag));
    FieldsDescend(Tally(bag));
    if fields != [] {
      assert fields[0].field in Tally(bag);
    }
    if f in bag {
      assert f in Tally(bag);
      var i :| 0 <= i < |fields| && fields[i].field == f;
    }
  }

  lemma {:induction false} BodiesCount(t: Db, docs: seq<Cid>)
    ensures |Bodies(t, docs)| == CountIn(docs, t.documents.Keys)
  {
    if docs != [] {
      BodiesCount(t, docs[1..]);
    }
  }

  /** Indexed, permanently failed and pending members are three disjoint parts. */
  lemma MembersSplitInThree(t: Db, docs: seq<Cid>)
    requires Exclusion(t)
    ensures CountIn(docs, t.documents.Keys) + CountIn(docs, PermFailed(t)) + |PendingOf(t, docs)| == |docs|
  {
    CountSplit(docs, t.documents.Keys, PermFailed(t));
    MinusMembers(docs, Settled(t));
  }
}
