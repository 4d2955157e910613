/** store_admin.go: what DeleteDocument and DeleteArchive remove, and what they leave alone. */
module Deletion {
  import opened Schema
  import opened Seqs

  lemma DropKeepsMirror(t: Db, c: Cid)
    requires Mirrored(t)
    ensures Mirrored(DropDocTx(t, c))
  {
    var u := DropDocTx(t, c);
    forall d | d in u.documents
      ensures u.documents[d].rowid in u.fts && u.fts[u.documents[d].rowid] == FtsOf(d, u.documents[d].body)
    {
      assert d != c && t.fts[t.documents[d].rowid].cid == d;
      assert c in t.documents ==> t.fts[t.documents[c].rowid].cid == c;
    }
    forall r | r in u.fts
      ensures u.fts[r].cid in u.documents && u.documents[u.fts[r].cid].rowid == r
    {
      assert r in t.fts && t.documents[t.fts[r].cid].rowid == r;
    }
  }

  lemma DropShrinksLists(t: Db, c: Cid, a: Cid)
    requires ListsDistinct(t)
    ensures Members(DropDocTx(t, c), a) == Minus(Members(t, a), {c})
    ensures |Members(DropDocTx(t, c), a)| == |Members(t, a)| - (if c in Members(t, a) then 1 else 0)
  {
    CountAfterRemoval(Members(t, a), c, {});
  }

  /** The clamp of doc_count at zero never fires, so the count stays the number of rows. */
  lemma DropKeepsCounted(t: Db, c: Cid)
    requires Counted(t) && ListsDistinct(t)
    ensures Counted(DropDocTx(t, c))
    ensures forall a :: a in t.archives && c in Members(t, a) ==> t.archives[a].docCount > 0
  {
    var u := DropDocTx(t, c);
    forall a | a in u.archives
      ensures u.archives[a].docCount == |Members(u, a)|
    {
      DropShrinksLists(t, c, a);
    }
    forall a | a in u.members && u.members[a] != []
      ensures a in u.archives
    {
      DropShrinksLists(t, c, a);
    }
  }

  lemma DropKeepsValid(t: Db, c: Cid)
    requires Consistent(t)
    ensures Consistent(DropDocTx(t, c))
    ensures Counted(t) ==> Counted(DropDocTx(t, c))
  {
    DropKeepsMirror(t, c);
    if Counted(t) {
      DropKeepsCounted(t, c);
    }
    forall a | a in t.members
      ensures Distinct(Minus(t.members[a], {c}))
    {
      MinusMembers(t.members[a], {c});
    }
  }

  lemma DeleteDocumentKeepsValid(t: Db, c: Cid)
    requires Consistent(t)
    ensures Consistent(DeleteDocumentTx(t, c))
    ensures Counted(t) ==> Counted(DeleteDocumentTx(t, c))
  {
    if c in t.documents || c in t.failures {
      DropKeepsValid(t, c);
    }
  }

  /** Deleting a document keeps every archive's counters in step; no clamp fires. */
  lemma DropKeepsInStep(t: Db, c: Cid, a: Cid)
    requires Consistent(t) && InStep(t, a)
    ensures InStep(DropDocTx(t, c), a)
    ensures c in Members(t, a) && c in t.documents ==> t.archives[a].indexed > 0
    ensures c in Members(t, a) && c in PermFailed(t) ==> t.archives[a].failed > 0
  {
    var u, docs := DropDocTx(t, c), Members(t, a);
    DropShrinksLists(t, c, a);
    CountAfterRemoval(docs, c, t.documents.Keys);
    CountAfterRemoval(docs, c, PermFailed(t));
    MinusMembers(docs, {c});
    CountSame(Minus(docs, {c}), t.documents.Keys, u.documents.Keys);
    CountSame(Minus(docs, {c}), PermFailed(t), PermFailed(u));
    if c in docs && c in t.documents {
      CountPositive(docs, c, t.documents.Keys);
    }
    if c in docs && c in PermFailed(t) {
      CountPositive(docs, c, PermFailed(t));
    }
  }

  /**
   Deleting a CID that is indexed or has failed, be it once, takes its rows out of
   every table and every member list, and nothing of any other CID.
   */
  lemma DeleteDocumentIsExact(t: Db, c: Cid, d: Cid)
    requires Mirrored(t)
    ensures var u := DeleteDocumentTx(t, c);
            if c !in t.documents && c !in t.failures then u == t
            else if d == c then
              && c !in u.documents && c !in u.failures && (forall l :: (l, c) !in u.labels)
              && (forall r :: r in u.fts ==> u.fts[r].cid != c) && (forall a :: c !in Members(u, a))
            else
              && (d in u.documents <==> d in t.documents) && (d in t.documents ==> u.documents[d] == t.documents[d])
              && (d in u.failures <==> d in t.failures) && (d in t.failures ==> u.failures[d] == t.failures[d])
              && (forall l :: (l, d) in u.labels <==> (l, d) in t.labels)
              && (forall a :: d in Members(u, a) <==> d in Members(t, a))
              && (forall r :: r in t.fts && t.fts[r].cid == d ==> r in u.fts && u.fts[r] == t.fts[r])
  {
    var u := DeleteDocumentTx(t, c);
    if c in t.documents || c in t.failures {
      forall a
        ensures forall x :: x in Members(u, a) <==> x in Members(t, a) && x != c
      {
        MinusMembers(Members(t, a), {c});
      }
      forall r | r in t.fts
        ensures t.fts[r].cid == c ==> r !in u.fts
        ensures t.fts[r].cid != c ==> r in u.fts && u.fts[r] == t.fts[r]
      {
        assert t.documents[t.fts[r].cid].rowid == r;
      }
    }
  }

  /** The archives that listed it count one document less; no other row changes. */
  lemma DeleteDocumentCounts(t: Db, c: Cid, a: Cid)
    requires Consistent(t) && Counted(t) && a in t.archives
    ensures var u := DeleteDocumentTx(t, c);
            && a in u.archives
            && (c in Members(t, a) && (c in t.documents || c in t.failures) ==>
                  u.archives[a].docCount == t.archives[a].docCount - 1)
            && (c !in Members(t, a) || (c !in t.documents && c !in t.failures) ==> u.archives[a] == t.archives[a])
  {
    if c in t.documents || c in t.failures {
      DropKeepsCounted(t, c);
    }
  }

  // ---- The loop of DeleteArchive against its closed form ----

  /** `u` is `t` after the loop has dropped the documents `S`, all of them exclusive to `a`. */
  ghost predicate Dropped(t: Db, a: Cid, S: set<Cid>, u: Db) {
    && u.documents == t.documents - S
    && u.fts == t.fts - Rowids(t, S)
    && u.labels == (set p | p in t.labels && p.1 !in S)
    && u.failures == t.failures - S
    && u.archives - {a} == t.archives - {a}
    && u.members.Keys == t.members.Keys
    && forall b :: b in t.members && b != a ==> u.members[b] == t.members[b]
  }

  lemma DropOneMore(t: Db, a: Cid, S: set<Cid>, u: Db, c: Cid)
    requires Dropped(t, a, S, u) && c in Exclusive(t, a)
    ensures Dropped(t, a, S + {c}, DropDocTx(u, c))
  {
    var v := DropDocTx(u, c);
    forall b | b in t.members && b != a
      ensures v.members[b] == t.members[b]
    {
      MinusNothing(t.members[b], {c});
    }
    assert v.documents == t.documents - (S + {c});
    assert v.failures == t.failures - (S + {c});
    assert v.fts == t.fts - Rowids(t, S + {c}) by {
      if c in u.documents {
        assert Rowids(t, S + {c}) == Rowids(t, S) + {t.documents[c].rowid};
      } else {
        assert Rowids(t, S + {c}) == Rowids(t, S);
      }
    }
    assert v.archives - {a} == t.archives - {a};
  }

  /** The query for other memberships, run inside the loop, tells whether a document is exclusive. */
  lemma SharedIsNotExclusive(t: Db, a: Cid, S: set<Cid>, u: Db, c: Cid)
    requires Dropped(t, a, S, u) && |set b | b in u.members && b != a && c in u.members[b]| > 0
    ensures c !in Exclusive(t, a)
  {
    var others := set b | b in u.members && b != a && c in u.members[b];
    assert others != {};
    var b :| b in others;
    assert u.members[b] == t.members[b];
  }

  lemma UnsharedIsExclusive(t: Db, a: Cid, S: set<Cid>, u: Db, c: Cid)
    requires Dropped(t, a, S, u) && c in Members(t, a)
    requires |set b | b in u.members && b != a && c in u.members[b]| == 0
    ensures c in Exclusive(t, a)
  {
    var others := set b | b in u.members && b != a && c in u.members[b];
    forall b | b in t.members && b != a
      ensures c !in t.members[b]
    {
      assert b !in others;
    }
  }

  lemma DropAllThenUnregister(t: Db, a: Cid, u: Db)
    requires a in t.archives && Dropped(t, a, Exclusive(t, a), u)
    ensures u.(members := u.members - {a}, archives := u.archives - {a}) == WithoutArchive(t, a)
  {
    assert u.members - {a} == t.members - {a};
  }

  // ---- DeleteArchive ----

  /** Every document that stays keeps all its rows; every one that goes loses them all. */
  lemma DeleteArchiveIsExact(t: Db, a: Cid, c: Cid)
    requires Valid(t) && a in t.archives
    ensures var u := WithoutArchive(t, a);
            var goes := c in Members(t, a) && forall b :: b != a ==> c !in Members(t, b);
            if goes
            then c !in u.documents && c !in u.failures && (forall l :: (l, c) !in u.labels)
                 && (forall r :: r in u.fts ==> u.fts[r].cid != c) && (forall b :: c !in Members(u, b))
            else (c in u.documents <==> c in t.documents) && (c in t.documents ==> u.documents[c] == t.documents[c])
                 && (c in u.failures <==> c in t.failures) && (c in t.failures ==> u.failures[c] == t.failures[c])
                 && (forall l :: (l, c) in u.labels <==> (l, c) in t.labels)
                 && (c in t.documents ==> t.documents[c].rowid in u.fts
                                          && u.fts[t.documents[c].rowid] == t.fts[t.documents[c].rowid])
  {
    var u, gone := WithoutArchive(t, a), Exclusive(t, a);
    assert c in gone <==> c in Members(t, a) && forall b :: b != a ==> c !in Members(t, b) by {
      if c in gone {
        forall b | b != a
          ensures c !in Members(t, b)
        {
        }
      } else if c in Members(t, a) {
        var b :| b in t.members && b != a && c in t.members[b];
        assert c in Members(t, b);
      }
    }
    if c in gone {
      forall r | r in u.fts
        ensures u.fts[r].cid != c
      {
        assert t.documents[t.fts[r].cid].rowid == r;
      }
      forall b
        ensures c !in Members(u, b)
      {
        assert b != a ==> c !in Members(t, b);
      }
    } else if c in t.documents {
      var r := t.documents[c].rowid;
      assert r !in Rowids(t, gone) by {
        assert t.fts[r].cid == c;
      }
    }
  }

  lemma DeleteArchiveKeepsValid(t: Db, a: Cid)
    requires Consistent(t)
    ensures Consistent(WithoutArchive(t, a))
    ensures Counted(t) ==> Counted(WithoutArchive(t, a))
  {
    if a in t.archives {
      var u, gone := WithoutArchive(t, a), Exclusive(t, a);
      forall d | d in u.documents
        ensures u.documents[d].rowid in u.fts
      {
        assert t.fts[t.documents[d].rowid].cid == d;
      }
      forall r | r in u.fts
        ensures u.fts[r].cid in u.documents
      {
        assert t.documents[t.fts[r].cid].rowid == r;
      }
      assert forall b :: b != a ==> Members(u, b) == Members(t, b);
    }
  }

  /** No other archive notices: same row, same members, same recomputed progress. */
  lemma DeleteArchiveSparesOthers(t: Db, a: Cid, b: Cid)
    requires a != b
    ensures var u := WithoutArchive(t, a);
            && Members(u, b) == Members(t, b)
            && (b in u.archives <==> b in t.archives)
            && (b in t.archives ==> u.archives[b] == t.archives[b])
            && CountIn(Members(u, b), u.documents.Keys) == CountIn(Members(t, b), t.documents.Keys)
            && CountIn(Members(u, b), PermFailed(u)) == CountIn(Members(t, b), PermFailed(t))
  {
    var u, docs := WithoutArchive(t, a), Members(t, b);
    assert Members(u, b) == docs;
    if a in t.archives {
      assert forall c :: c in docs ==> c !in Exclusive(t, a);
      CountSame(docs, u.documents.Keys, t.documents.Keys);
      CountSame(docs, PermFailed(u), PermFailed(t));
    }
  }

  lemma ExclusiveAfter(t: Db, a: Cid, b: Cid)
    requires a != b && a in t.archives
    ensures Exclusive(t, a) + Exclusive(WithoutArchive(t, a), b) == ExclusiveToBoth(t, a, b)
  {
    var u := WithoutArchive(t, a);
    assert Members(u, b) == Members(t, b);
    forall c
      ensures c in Exclusive(t, a) + Exclusive(u, b) <==>
              c in Members(t, a) + Members(t, b)
              && forall d :: d in t.members && d != a && d != b ==> c !in t.members[d]
    {
      assert forall d :: d in u.members <==> d in t.members && d != a;
    }
  }

  /** Documents listed by `a` or `b` and by no third archive. */
  function ExclusiveToBoth(t: Db, a: Cid, b: Cid): set<Cid> {
    set c | c in Members(t, a) + Members(t, b)
            && forall d :: d in t.members && d != a && d != b ==> c !in t.members[d]
  }

  /** Two deletions in one closed form, symmetric in the two archives. */
  function WithoutBoth(t: Db, a: Cid, b: Cid): Db {
    var gone := ExclusiveToBoth(t, a, b);
    Db(t.documents - gone, t.fts - Rowids(t, gone), (set p | p in t.labels && p.1 !in gone),
       t.failures - gone, t.archives - {a, b}, t.members - {a, b})
  }

  lemma WithoutBothIsSymmetric(t: Db, a: Cid, b: Cid)
    ensures WithoutBoth(t, a, b) == WithoutBoth(t, b, a)
  {
    assert {a, b} == {b, a};
    assert ExclusiveToBoth(t, a, b) == ExclusiveToBoth(t, b, a);
  }

  lemma RowidsTwice(t: Db, a: Cid, b: Cid)
    requires a != b && a in t.archives
    ensures var u := WithoutArchive(t, a);
            Rowids(t, ExclusiveToBoth(t, a, b)) == Rowids(t, Exclusive(t, a)) + Rowids(u, Exclusive(u, b))
  {
    ExclusiveAfter(t, a, b);
    var u := WithoutArchive(t, a);
    var first, second := Exclusive(t, a), Exclusive(u, b);
    assert forall c :: c in second && c in t.documents ==> c in first || c in u.documents;
  }

  lemma DeleteTwice(t: Db, a: Cid, b: Cid)
    requires a != b && a in t.archives && b in t.archives
    ensures WithoutArchive(WithoutArchive(t, a), b) == WithoutBoth(t, a, b)
  {
    ExclusiveAfter(t, a, b);
    RowidsTwice(t, a, b);
    var w, v := WithoutArchive(WithoutArchive(t, a), b), WithoutBoth(t, a, b);
    assert w.documents == v.documents;
    assert w.failures == v.failures;
    assert w.fts == v.fts;
    assert w.archives == v.archives;
    assert w.members == v.members;
    assert w.labels == v.labels;
  }

  /** Deleting A then B leaves the same store as deleting B then A. */
  lemma DeletionsCommute(t: Db, a: Cid, b: Cid)
    ensures WithoutArchive(WithoutArchive(t, a), b) == WithoutArchive(WithoutArchive(t, b), a)
  {
    if a != b && a in t.archives && b in t.archives {
      DeleteTwice(t, a, b);
      DeleteTwice(t, b, a);
      WithoutBothIsSymmetric(t, a, b);
    }
  }

  // ---- Histories of deletions ----

  datatype Deletion = Document(cid: Cid) | Whole(archive: Cid)

  function Apply(t: Db, d: Deletion): Db {
    match d
    case Document(c) => DeleteDocumentTx(t, c)
    case Whole(a) => WithoutArchive(t, a)
  }

  function ApplyAll(t: Db, ds: seq<Deletion>): Db
    decreases |ds|
  {
    if ds == [] then t else ApplyAll(Apply(t, ds[0]), ds[1..])
  }

  /** A finalized archive's counters stay what would be recomputed, whatever else is deleted. */
  lemma {:induction false} DeletionsKeepInStep(t: Db, ds: seq<Deletion>, a: Cid)
    requires Valid(t) && InStep(t, a) && Whole(a) !in ds
    ensures Valid(ApplyAll(t, ds)) && InStep(ApplyAll(t, ds), a)
    decreases |ds|
  {
    if ds != [] {
      match ds[0] {
        case Document(c) =>
          DeleteDocumentKeepsValid(t, c);
          if c in t.documents || c in t.failures {
            DropKeepsInStep(t, c, a);
          }
        case Whole(b) =>
          assert b != a;
          DeleteArchiveKeepsValid(t, b);
          DeleteArchiveSparesOthers(t, b, a);
      }
      DeletionsKeepInStep(Apply(t, ds[0]), ds[1..], a);
    }
  }
}
