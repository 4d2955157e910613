/** store_archives.go: what FinalizeArchive computes does not depend on the order of the joined rows. */
module Aggregation {
  import opened Schema
  import opened Ranking
  import Text

  lemma {:induction false} NormalWordsAppend(ws: seq<string>, w: string)
    ensures NormalWords(ws + [w]) == NormalWords(ws) + NormalWords([w])
  {
    if ws == [] {
      assert ws + [w] == [w];
    } else {
      assert (ws + [w])[1..] == ws[1..] + [w];
      NormalWordsAppend(ws[1..], w);
    }
  }

  lemma {:induction false} BagsAppend(xs: seq<Body>, ys: seq<Body>)
    ensures KeywordBag(xs + ys) == KeywordBag(xs) + KeywordBag(ys)
    ensures FieldBag(xs + ys) == FieldBag(xs) + FieldBag(ys)
  {
    if xs == [] {
      assert xs + ys == ys;
    } else {
      assert (xs + ys)[1..] == xs[1..] + ys;
      BagsAppend(xs[1..], ys);
    }
  }

  function WithoutIndex(ys: seq<Body>, k: nat): seq<Body>
    requires k < |ys|
  {
    ys[..k] + ys[k + 1..]
  }

  lemma SplitAt(ys: seq<Body>, k: nat)
    requires k < |ys|
    ensures ys == ys[..k] + ([ys[k]] + ys[k + 1..])
    ensures multiset(WithoutIndex(ys, k)) == multiset(ys) - multiset{ys[k]}
  {
    assert ys == ys[..k] + ([ys[k]] + ys[k + 1..]);
    assert multiset(ys) == multiset(ys[..k]) + (multiset{ys[k]} + multiset(ys[k + 1..]));
  }

  lemma BagsWithoutIndex(ys: seq<Body>, k: nat)
    requires k < |ys|
    ensures KeywordBag(ys) == KeywordBag([ys[k]]) + KeywordBag(WithoutIndex(ys, k))
    ensures FieldBag(ys) == FieldBag([ys[k]]) + FieldBag(WithoutIndex(ys, k))
    ensures multiset(WithoutIndex(ys, k)) == multiset(ys) - multiset{ys[k]}
  {
    var before, after := ys[..k], ys[k + 1..];
    SplitAt(ys, k);
    BagsAppend(before, after);
    BagsAppend(before, [ys[k]] + after);
    BagsAppend([ys[k]], after);
  }

  lemma {:induction false} BagsOfPermutation(xs: seq<Body>, ys: seq<Body>)
    requires multiset(xs) == multiset(ys)
    ensures KeywordBag(xs) == KeywordBag(ys)
    ensures FieldBag(xs) == FieldBag(ys)
    ensures |xs| == |ys|
  {
    assert |multiset(xs)| == |xs| && |multiset(ys)| == |ys|;
    if xs != [] {
      assert xs[0] in multiset(ys);
      var k :| 0 <= k < |ys| && ys[k] == xs[0];
      BagsWithoutIndex(ys, k);
      BagsWithoutIndex(xs, 0);
      BagsOfPermutation(WithoutIndex(xs, 0), WithoutIndex(ys, k));
    }
  }

  /** The archive's totals are a function of the multiset of its member entries. */
  lemma TotalsIgnoreRowOrder(xs: seq<Body>, ys: seq<Body>, failed: nat, pending: nat)
    requires multiset(xs) == multiset(ys)
    ensures TotalsOf(xs, failed, pending) == TotalsOf(ys, failed, pending)
  {
    BagsOfPermutation(xs, ys);
  }

  /** One more counted word. */
  function Bump(counts: Counts, w: string): Counts {
    counts[w := (if w in counts then counts[w] else 0) + 1]
  }

  lemma BumpTallies(bag: multiset<string>, w: string)
    ensures Bump(Tally(bag), w) == Tally(bag + multiset{w})
  {
  }

  lemma KeywordStep(bag: multiset<string>, ws: seq<string>, w: string)
    ensures var before, kw := Tally(bag + multiset(NormalWords(ws))), Text.Normal(w);
            Tally(bag + multiset(NormalWords(ws + [w]))) == if kw != "" then Bump(before, kw) else before
  {
    NormalWordsAppend(ws, w);
    var kw, sofar := Text.Normal(w), bag + multiset(NormalWords(ws));
    if kw != "" {
      assert NormalWords([w]) == [kw];
      BumpTallies(sofar, kw);
      assert bag + multiset(NormalWords(ws) + [kw]) == sofar + multiset{kw};
    } else {
      assert NormalWords([w]) == [];
    }
  }

  method AddKeywords(counts: Counts, kws: seq<string>, ghost bag: multiset<string>) returns (kwCount: Counts)
    requires counts == Tally(bag)
    ensures kwCount == Tally(bag + multiset(NormalWords(kws)))
  {
    kwCount := counts;
    assert bag + multiset(NormalWords(kws[..0])) == bag;
    for j := 0 to |kws|
      invariant kwCount == Tally(bag + multiset(NormalWords(kws[..j])))
    {
      assert kws[..j + 1] == kws[..j] + [kws[j]];
      KeywordStep(bag, kws[..j], kws[j]);
      var kw := Text.Normal(kws[j]);
      if kw != "" {
        kwCount := Bump(kwCount, kw);
      }
    }
    assert kws[..|kws|] == kws;
  }

  lemma BagsStep(rows: seq<Body>, i: nat)
    requires i < |rows|
    ensures KeywordBag(rows[..i + 1]) == KeywordBag(rows[..i]) + multiset(NormalWords(rows[i].keywords))
    ensures var bf := Text.Trim(rows[i].broadField);
            FieldBag(rows[..i + 1]) == FieldBag(rows[..i]) + (if bf != "" then multiset{bf} else multiset{})
  {
    assert rows[..i + 1] == rows[..i] + [rows[i]];
    BagsAppend(rows[..i], [rows[i]]);
    assert KeywordBag([rows[i]]) == multiset(NormalWords(rows[i].keywords));
  }

  /** How often a list of words uses `w`. */
  function UsesIn(words: seq<string>, w: string): nat {
    if words == [] then 0 else (if Text.Normal(words[0]) == w then 1 else 0) + UsesIn(words[1..], w)
  }

  /** How often the keywords of the rows use `w`. */
  function Uses(rows: seq<Body>, w: string): nat {
    if rows == [] then 0 else UsesIn(rows[0].keywords, w) + Uses(rows[1..], w)
  }

  function RowsWithField(rows: seq<Body>, f: string): nat {
    if rows == [] then 0 else (if Text.Trim(rows[0].broadField) == f then 1 else 0) + RowsWithField(rows[1..], f)
  }

  lemma {:induction false} NormalWordsCount(words: seq<string>, w: string)
    ensures multiset(NormalWords(words))[w] == if w == "" then 0 else UsesIn(words, w)
  {
    if words != [] {
      NormalWordsCount(words[1..], w);
      var first := if Text.Normal(words[0]) != "" then [Text.Normal(words[0])] else [];
      assert multiset(first + NormalWords(words[1..])) == multiset(first) + multiset(NormalWords(words[1..]));
    }
  }

  /** The tallies are what one would count by hand. */
  lemma {:induction false} BagsCount(rows: seq<Body>, w: string)
    ensures KeywordBag(rows)[w] == if w == "" then 0 else Uses(rows, w)
    ensures FieldBag(rows)[w] == if w == "" then 0 else RowsWithField(rows, w)
  {
    if rows != [] {
      NormalWordsCount(rows[0].keywords, w);
      BagsCount(rows[1..], w);
    }
  }

  /** Each word with the number of times it is counted, and no word counted never. */
  ghost predicate Counting(counts: Counts, times: string -> nat) {
    forall w :: (w in counts <==> w != "" && times(w) > 0) && (w in counts ==> counts[w] == times(w))
  }

  lemma TalliesCount(rows: seq<Body>)
    ensures Counting(Tally(KeywordBag(rows)), w => Uses(rows, w))
    ensures Counting(Tally(FieldBag(rows)), f => RowsWithField(rows, f))
  {
    forall w
      ensures KeywordBag(rows)[w] == if w == "" then 0 else Uses(rows, w)
      ensures FieldBag(rows)[w] == if w == "" then 0 else RowsWithField(rows, w)
    {
      BagsCount(rows, w);
    }
  }

  method CountKeywords(rows: seq<Body>) returns (kwCount: Counts)
    ensures kwCount == Tally(KeywordBag(rows))
    ensures Counting(kwCount, w => Uses(rows, w))
  {
    kwCount := map[];
    for i := 0 to |rows|
      invariant kwCount == Tally(KeywordBag(rows[..i]))
    {
      BagsStep(rows, i);
      kwCount := AddKeywords(kwCount, rows[i].keywords, KeywordBag(rows[..i]));
    }
    assert rows[..|rows|] == rows;
    TalliesCount(rows);
  }

  lemma FieldStep(rows: seq<Body>, i: nat)
    requires i < |rows|
    ensures var bf, before := Text.Trim(rows[i].broadField), Tally(FieldBag(rows[..i]));
            Tally(FieldBag(rows[..i + 1])) == if bf != "" then Bump(before, bf) else before
  {
    BagsStep(rows, i);
    BumpTallies(FieldBag(rows[..i]), Text.Trim(rows[i].broadField));
  }

  method CountFields(rows: seq<Body>) returns (fieldCount: Counts)
    ensures fieldCount == Tally(FieldBag(rows))
    ensures Counting(fieldCount, f => RowsWithField(rows, f))
  {
    fieldCount := map[];
    for i := 0 to |rows|
      invariant fieldCount == Tally(FieldBag(rows[..i]))
    {
      var bf := Text.Trim(rows[i].broadField);
      FieldStep(rows, i);
      if bf != "" {
        fieldCount := Bump(fieldCount, bf);
      }
    }
    assert rows[..|rows|] == rows;
    TalliesCount(rows);
  }
}
