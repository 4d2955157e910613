/** Interleavings with admin actions under which derived columns go wrong. */
module Races {
  import opened Schema
  import opened Seqs
  import opened Protocol
  import Invariants

  /**
   Deleting an archive while it is being crawled, then submitting it again,
   leaves its row counting no documents while all of its members are listed.
   */
  lemma DeleteDuringCrawlBreaksCount(workers: nat, s: Sys, docs: seq<Cid>)
    requires s.phase.Fetching? && s.phase.archive in s.db.archives && docs != [] && Distinct(docs)
    ensures var a := s.phase.archive;
            var steps := [DeleteArch(a), Persist(docs), Submit(a, "")];
            && CanRun(workers, s, steps)
            && var t := Run(workers, s, steps).db;
            a in t.archives && t.archives[a].docCount == 0 && Members(t, a) == docs
  {
    var a := s.phase.archive;
    DedupMembers(docs);
    RunOfThree(workers, s, DeleteArch(a), Persist(docs), Submit(a, ""));
  }

  lemma StaleTotals(t: Db, a: Cid, c: Cid)
    requires a in t.archives && Distinct(Members(t, a)) && c in Members(t, a) && c in t.documents
    ensures var u := FinalizeTx(DeleteDocumentTx(t, c), a, ReadTotals(t, a));
            a in u.archives && u.archives[a].indexed == CountIn(Members(u, a), u.documents.Keys) + 1
  {
    var u, docs := DropDocTx(t, c), Members(t, a);
    assert Members(u, a) == Minus(docs, {c});
    Invariants.BodiesCount(t, docs);
    CountAfterRemoval(docs, c, t.documents.Keys);
    MinusMembers(docs, {c});
    CountSame(Minus(docs, {c}), u.documents.Keys, t.documents.Keys);
  }

  /**
   FinalizeArchive reads and writes in separate steps: deleting an indexed
   member in between leaves the stored count one above the recomputed one.
   */
  lemma DeleteDuringFinalizeBreaksProgress(workers: nat, s: Sys, a: Cid, c: Cid)
    requires s.phase == Writing(a, ReadTotals(s.db, a)) && a in s.db.archives && Distinct(Members(s.db, a))
    requires c in Members(s.db, a) && c in s.db.documents
    ensures var steps := [DeleteDoc(c), WriteArchive];
            && CanRun(workers, s, steps)
            && var t := Run(workers, s, steps).db;
            a in t.archives && t.archives[a].indexed == CountIn(Members(t, a), t.documents.Keys) + 1
  {
    RunOfTwo(workers, s, DeleteDoc(c), WriteArchive);
    StaleTotals(s.db, a, c);
  }
}
