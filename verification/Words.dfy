/** store_docs.go: what a full-text row holds, and which documents a word finds. */
module Words {
  import opened Schema
  import opened Search

  // ---- Joined words ----

  /** Where word `i` begins: after the words before it, each with its space. */
  function Offset(words: seq<string>, i: nat): nat
    requires i <= |words|
  {
    if i == 0 then 0 else Offset(words, i - 1) + |words[i - 1]| + 1
  }

  lemma {:induction false} OffsetOfRest(words: seq<string>, i: nat)
    requires 0 < i <= |words|
    ensures Offset(words, i) == |words[0]| + 1 + Offset(words[1..], i - 1)
  {
    if i > 1 {
      OffsetOfRest(words, i - 1);
    }
  }

  /** `w` stands in `s` at `p`, after one space or first, and before one space or last. */
  predicate StandsAt(s: string, w: string, p: nat, first: bool, last: bool) {
    && p + |w| <= |s|
    && s[p..p + |w|] == w
    && (if first then p == 0 else p > 0 && s[p - 1] == ' ')
    && (if last then p + |w| == |s| else p + |w| < |s| && s[p + |w|] == ' ')
  }

  /** What stands in a text stands in it when another and a space are put before it. */
  lemma ShiftStands(a: string, b: string, w: string, q: nat, first: bool, last: bool)
    requires StandsAt(b, w, q, first, last)
    ensures StandsAt(a + " " + b, w, |a| + 1 + q, false, last)
  {
    var s, p := a + " " + b, |a| + 1 + q;
    assert s[p..p + |w|] == b[q..q + |w|];
  }

  lemma HeadStands(a: string, b: string)
    ensures StandsAt(a + " " + b, a, 0, true, false)
  {
    assert (a + " " + b)[..|a|] == a;
  }

  /** The words stand one after the other, with one space between neighbours and nothing else. */
  lemma {:induction false} JoinedAt(words: seq<string>, i: nat)
    requires i < |words|
    ensures StandsAt(JoinWords(words), words[i], Offset(words, i), i == 0, i == |words| - 1)
  {
    if |words| > 1 {
      var tail := JoinWords(words[1..]);
      if i > 0 {
        JoinedAt(words[1..], i - 1);
        OffsetOfRest(words, i);
        ShiftStands(words[0], tail, words[i], Offset(words[1..], i - 1), i == 1, i == |words| - 1);
      } else {
        HeadStands(words[0], tail);
      }
    }
  }

  lemma {:induction false} JoinedLength(words: seq<string>)
    requires words != []
    ensures |JoinWords(words)| + 1 == Offset(words, |words|)
  {
    if |words| > 1 {
      JoinedLength(words[1..]);
      OffsetOfRest(words, |words|);
    } else {
      assert Offset(words, 1) == |words[0]| + 1;
    }
  }

  /** The text of `k` stands in `s` between spaces or at its ends. */
  predicate WordAt(s: string, k: string, p: nat) {
    && p + |k| <= |s|
    && s[p..p + |k|] == k
    && (p == 0 || s[p - 1] == ' ')
    && (p + |k| == |s| || s[p + |k|] == ' ')
  }

  ghost predicate HasWord(s: string, k: string) {
    exists p: nat :: WordAt(s, k, p)
  }

  predicate OneWord(k: string) {
    k != "" && forall c :: c in k ==> c != ' '
  }

  lemma WordHasNoSpace(s: string, k: string, p: nat, q: nat)
    requires OneWord(k) && WordAt(s, k, p) && p <= q < p + |k|
    ensures s[q] != ' '
  {
    assert s[p..p + |k|][q - p] == s[q];
    assert k[q - p] in k;
  }

  /** A word of two texts with a space between them is a word of one of them. */
  lemma WordOfPair(a: string, b: string, k: string)
    requires OneWord(k)
    ensures HasWord(a + " " + b, k) <==> HasWord(a, k) || HasWord(b, k)
  {
    var s := a + " " + b;
    forall p: nat | p + |k| <= |a|
      ensures WordAt(s, k, p) <==> WordAt(a, k, p)
    {
      assert s[p..p + |k|] == a[p..p + |k|];
    }
    forall p: nat | p + |k| <= |b|
      ensures WordAt(s, k, |a| + 1 + p) <==> WordAt(b, k, p)
    {
      assert s[|a| + 1 + p..|a| + 1 + p + |k|] == b[p..p + |k|];
    }
    if p: nat :| WordAt(s, k, p) {
      if p > |a| {
        assert WordAt(b, k, p - |a| - 1);
      } else {
        if |a| < p + |k| {
          WordHasNoSpace(s, k, p, |a|);
        }
        assert WordAt(a, k, p);
      }
    }
    if p: nat :| WordAt(b, k, p) {
      assert WordAt(s, k, |a| + 1 + p);
    }
    if p: nat :| WordAt(a, k, p) {
      assert WordAt(s, k, p);
    }
  }

  /** The words of joined texts are the words of those texts. */
  lemma {:induction false} WordOfJoin(words: seq<string>, k: string)
    requires OneWord(k)
    ensures HasWord(JoinWords(words), k) <==> exists w :: w in words && HasWord(w, k)
  {
    if |words| > 1 {
      WordOfJoin(words[1..], k);
      WordOfPair(words[0], JoinWords(words[1..]), k);
      assert words == [words[0]] + words[1..];
    } else if words == [] {
      assert forall p: nat :: !WordAt("", k, p);
    } else {
      assert words[0] in words;
    }
  }

  /** A keyword without spaces has no word but itself. */
  lemma WholeWord(w: string, k: string)
    requires OneWord(k) && forall c :: c in w ==> c != ' '
    ensures HasWord(w, k) <==> w == k
  {
    if p: nat :| WordAt(w, k, p) {
      assert p > 0 ==> w[p - 1] in w;
      assert p + |k| < |w| ==> w[p + |k|] in w;
    }
    if w == k {
      assert WordAt(w, k, 0);
    }
  }

  // ---- Full-text rows ----

  /** In every mirrored store the row of a document shows its fields and its keywords, each where it stands. */
  lemma RowShowsDocument(t: Db, c: Cid)
    requires Mirrored(t) && c in t.documents
    ensures t.documents[c].rowid in t.fts
    ensures var row, body := t.fts[t.documents[c].rowid], t.documents[c].body;
            && row.cid == c && row.title == body.title
            && row.broadField == body.broadField && row.subTopic == body.subTopic
            && (forall i :: 0 <= i < |body.keywords| ==> WordAt(row.words, body.keywords[i], Offset(body.keywords, i)))
            && |row.words| == if body.keywords == [] then 0 else Offset(body.keywords, |body.keywords|) - 1
  {
    var words := t.documents[c].body.keywords;
    forall i | 0 <= i < |words|
      ensures WordAt(JoinWords(words), words[i], Offset(words, i))
    {
      JoinedAt(words, i);
    }
    if words != [] {
      JoinedLength(words);
    }
  }

  /** A search on one field finds the documents with that field. */
  lemma FieldFinds(t: Db, x: string)
    ensures Matching(t, (r: FtsRow) => r.title == x)
         == set c | c in t.documents && t.documents[c].body.title == x
    ensures Matching(t, (r: FtsRow) => r.broadField == x)
         == set c | c in t.documents && t.documents[c].body.broadField == x
    ensures Matching(t, (r: FtsRow) => r.subTopic == x)
         == set c | c in t.documents && t.documents[c].body.subTopic == x
  {
  }

  /** A document bears `k` as one of its keywords, or as a word of one. */
  ghost predicate BearsWord(t: Db, c: Cid, k: string) {
    c in t.documents && exists w :: w in t.documents[c].body.keywords && HasWord(w, k)
  }

  /** A search for a word among the keywords finds the documents that bear it. */
  lemma WordFinds(t: Db, k: string, matches: FtsRow -> bool, c: Cid)
    requires OneWord(k) && forall r :: matches(r) <==> HasWord(r.words, k)
    ensures c in Matching(t, matches) <==> BearsWord(t, c, k)
    ensures c in t.documents && k in t.documents[c].body.keywords ==> c in Matching(t, matches)
    ensures (forall w, x :: c in t.documents && w in t.documents[c].body.keywords && x in w ==> x != ' ') ==>
              (c in Matching(t, matches) <==> c in t.documents && k in t.documents[c].body.keywords)
  {
    if c in t.documents {
      var words := t.documents[c].body.keywords;
      WordOfJoin(words, k);
      assert WordAt(k, k, 0);
      if forall w, x :: w in words && x in w ==> x != ' ' {
        forall w | w in words
          ensures HasWord(w, k) <==> w == k
        {
          WholeWord(w, k);
        }
      }
    }
  }
}
