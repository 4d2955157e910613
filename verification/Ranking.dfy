/** store.go: ranking counted keys by count, ties broken by key. */
module Ranking {
  import Text
  import opened Seqs

  type Counts = map<string, nat>

  datatype FieldCount = FieldCount(field: string, count: nat)

  /** The comparison sortByCountThenKey hands to sort.Slice. */
  predicate Before(counts: Counts, a: string, b: string)
    requires a in counts && b in counts
  {
    counts[a] > counts[b] || (counts[a] == counts[b] && Text.Less(a, b))
  }

  ghost predicate Sorted(counts: Counts, keys: seq<string>)
    requires forall k :: k in keys ==> k in counts
  {
    forall i, j :: 0 <= i < j < |keys| ==> Before(counts, keys[i], keys[j])
  }

  /** `keys` lists every counted key, best first. */
  ghost predicate IsRanking(counts: Counts, keys: seq<string>) {
    && (forall k :: k in keys <==> k in counts)
    && Sorted(counts, keys)
  }

  lemma BeforeIsStrictTotal(counts: Counts, a: string, b: string)
    requires a in counts && b in counts
    ensures !(Before(counts, a, b) && Before(counts, b, a))
    ensures a != b ==> Before(counts, a, b) || Before(counts, b, a)
    ensures !Before(counts, a, a)
  {
    Text.LessAsymmetric(a, b);
    Text.LessAsymmetric(a, a);
    if a != b {
      Text.LessTotal(a, b);
    }
  }

  lemma BeforeTransitive(counts: Counts, a: string, b: string, c: string)
    requires a in counts && b in counts && c in counts
    requires Before(counts, a, b) && Before(counts, b, c)
    ensures Before(counts, a, c)
  {
    if Text.Less(a, b) && Text.Less(b, c) {
      Text.LessTransitive(a, b, c);
    }
  }

  lemma RankingHasNoDuplicates(counts: Counts, keys: seq<string>)
    requires IsRanking(counts, keys)
    ensures Distinct(keys)
  {
    forall i, j | 0 <= i < j < |keys|
      ensures keys[i] != keys[j]
    {
      BeforeIsStrictTotal(counts, keys[i], keys[i]);
    }
  }

  /** There is one ranking: the order the map was iterated in cannot show. */
  lemma {:induction false} RankingIsUnique(counts: Counts, xs: seq<string>, ys: seq<string>)
    requires IsRanking(counts, xs) && IsRanking(counts, ys)
    ensures xs == ys
  {
    RankingHasNoDuplicates(counts, xs);
    RankingHasNoDuplicates(counts, ys);
    SortedListsAgree(counts, xs, ys);
  }

  lemma {:induction false} SortedListsAgree(counts: Counts, xs: seq<string>, ys: seq<string>)
    requires forall k :: k in xs <==> k in ys
    requires forall k :: k in xs ==> k in counts
    requires Sorted(counts, xs) && Sorted(counts, ys) && Distinct(xs) && Distinct(ys)
    ensures xs == ys
  {
    if xs == [] {
      if ys != [] {
        HeadIsMember(ys);
      }
    } else {
      assert xs[0] in ys && ys[0] in xs;
      if xs[0] != ys[0] {
        assert Before(counts, xs[0], ys[0]) && Before(counts, ys[0], xs[0]);
        BeforeIsStrictTotal(counts, xs[0], ys[0]);
      }
      forall k
        ensures k in xs[1..] <==> k in ys[1..]
      {
        assert k in xs[1..] <==> k in xs && k != xs[0];
        assert k in ys[1..] <==> k in ys && k != ys[0];
      }
      SortedListsAgree(counts, xs[1..], ys[1..]);
      assert xs == [xs[0]] + xs[1..] && ys == [ys[0]] + ys[1..];
    }
  }

  /** Where `k` belongs in a sorted list that does not hold it. */
  function Insert(counts: Counts, keys: seq<string>, k: string): (r: seq<string>)
    requires k in counts && forall x :: x in keys ==> x in counts
    ensures multiset(r) == multiset(keys) + multiset{k}
    ensures forall x :: x in r <==> x in keys || x == k
  {
    if keys == [] then [k]
    else if Before(counts, keys[0], k) then
      assert keys == [keys[0]] + keys[1..];
      [keys[0]] + Insert(counts, keys[1..], k)
    else [k] + keys
  }

  lemma {:induction false} InsertKeepsSorted(counts: Counts, keys: seq<string>, k: string)
    requires k in counts && k !in keys && forall x :: x in keys ==> x in counts
    requires Sorted(counts, keys)
    ensures Sorted(counts, Insert(counts, keys, k))
  {
    if keys != [] {
      if Before(counts, keys[0], k) {
        InsertKeepsSorted(counts, keys[1..], k);
        var rest := Insert(counts, keys[1..], k);
        forall x | x in rest
          ensures Before(counts, keys[0], x)
        {
          if x != k {
            assert x in keys[1..];
          }
        }
      } else {
        BeforeIsStrictTotal(counts, keys[0], k);
        forall x | x in keys
          ensures Before(counts, k, x)
        {
          if x != keys[0] {
            BeforeTransitive(counts, k, keys[0], x);
          }
        }
      }
    }
  }

  /** The ranking of a table of counts. */
  ghost function Ranked(counts: Counts): (keys: seq<string>)
    ensures IsRanking(counts, keys)
  {
    RankingExists(counts);
    var keys :| IsRanking(counts, keys);
    keys
  }

  lemma RankingExists(counts: Counts)
    ensures exists keys :: IsRanking(counts, keys)
  {
    var keys := BuildRanking(counts, counts.Keys);
    assert IsRanking(counts, keys);
  }

  lemma {:induction false} BuildRanking(counts: Counts, todo: set<string>) returns (keys: seq<string>)
    requires todo <= counts.Keys
    ensures forall k :: k in keys <==> k in todo
    ensures Sorted(counts, keys)
    decreases todo
  {
    if todo == {} {
      keys := [];
    } else {
      var k :| k in todo;
      keys := BuildRanking(counts, todo - {k});
      InsertKeepsSorted(counts, keys, k);
      keys := Insert(counts, keys, k);
    }
  }

  ghost function Top(counts: Counts, n: nat): (r: seq<string>)
    ensures forall i :: 0 <= i < |r| ==> r[i] in counts
  {
    var keys := Ranked(counts);
    if |keys| > n then keys[..n] else keys
  }

  ghost function Fields(counts: Counts): (r: seq<FieldCount>) {
    var keys := Ranked(counts);
    seq(|keys|, i requires 0 <= i < |keys| => assert keys[i] in keys; FieldCount(keys[i], counts[keys[i]]))
  }

  /** Counts fall along the list, and equal counts are in the order of the keys. */
  ghost predicate Descending(counts: Counts, keys: seq<string>)
    requires forall i :: 0 <= i < |keys| ==> keys[i] in counts
  {
    forall i, j :: 0 <= i < j < |keys| ==>
      && counts[keys[i]] >= counts[keys[j]]
      && (counts[keys[i]] == counts[keys[j]] ==> Text.Less(keys[i], keys[j]))
  }

  lemma TopDescends(counts: Counts, n: nat)
    ensures Descending(counts, Top(counts, n))
    ensures |Top(counts, n)| == if |counts.Keys| > n then n else |counts.Keys|
  {
    var keys := Ranked(counts);
    RankingHasNoDuplicates(counts, keys);
    DistinctCovers(keys, counts.Keys);
  }

  /** Every field with its count, most frequent first, equal counts in the order of the fields. */
  ghost predicate FieldsDescending(counts: Counts, fields: seq<FieldCount>) {
    && (forall f :: f in counts <==> exists i :: 0 <= i < |fields| && fields[i].field == f)
    && (forall i :: 0 <= i < |fields| ==> fields[i].field in counts && fields[i].count == counts[fields[i].field])
    && (forall i, j :: 0 <= i < j < |fields| ==>
          && fields[i].count >= fields[j].count
          && (fields[i].count == fields[j].count ==> Text.Less(fields[i].field, fields[j].field)))
  }

  lemma FieldsDescend(counts: Counts)
    ensures FieldsDescending(counts, Fields(counts))
  {
    var keys, fields := Ranked(counts), Fields(counts);
    forall i | 0 <= i < |keys|
      ensures keys[i] in counts && fields[i] == FieldCount(keys[i], counts[keys[i]])
    {
      assert keys[i] in keys;
    }
    forall f
      ensures f in counts <==> exists i :: 0 <= i < |fields| && fields[i].field == f
    {
      if f in counts {
        assert f in keys;
        var i :| 0 <= i < |keys| && keys[i] == f;
        assert fields[i].field == f;
      }
    }
    forall i, j | 0 <= i < j < |fields|
      ensures fields[i].count >= fields[j].count
      ensures fields[i].count == fields[j].count ==> Text.Less(fields[i].field, fields[j].field)
    {
      assert Before(counts, keys[i], keys[j]);
    }
  }

  /** Nothing is cut while room remains, and every key cut ranks below every key kept. */
  lemma TopKeepsTheBest(counts: Counts, n: nat, kept: string, cut: string)
    requires kept in Top(counts, n)
    requires cut in counts && cut !in Top(counts, n)
    ensures |Top(counts, n)| == n
    ensures Before(counts, kept, cut)
    ensures kept in counts && counts[cut] <= counts[kept] && (counts[cut] == counts[kept] ==> Text.Less(kept, cut))
  {
    var keys := Ranked(counts);
    assert cut in keys;
    var j :| 0 <= j < |keys| && keys[j] == cut;
    var i :| 0 <= i < |Top(counts, n)| && Top(counts, n)[i] == kept;
    assert |keys| > n;
    if j < n {
      PrefixHasMember(keys, n, j);
    }
  }

  /** sort.Slice with the comparison above, on keys in any order. */
  method SortByCountThenKey(keys: seq<string>, counts: Counts) returns (sorted: seq<string>)
    requires Distinct(keys) && forall k :: k in keys ==> k in counts
    ensures multiset(sorted) == multiset(keys)
    ensures forall k :: k in sorted <==> k in keys
    ensures Sorted(counts, sorted) && Descending(counts, sorted)
  {
    sorted := [];
    for i := 0 to |keys|
      invariant forall k :: k in sorted <==> k in keys[..i]
      invariant multiset(sorted) == multiset(keys[..i])
      invariant Sorted(counts, sorted)
    {
      assert keys[..i + 1] == keys[..i] + [keys[i]];
      InsertKeepsSorted(counts, sorted, keys[i]);
      sorted := Insert(counts, sorted, keys[i]);
    }
    assert keys[..|keys|] == keys;
  }

  /** `for k := range counts { keys = append(keys, k) }`, in whatever order the map yields. */
  method CollectKeys(counts: Counts) returns (keys: seq<string>)
    ensures Distinct(keys) && forall k :: k in keys <==> k in counts
  {
    keys := [];
    var left := counts.Keys;
    while left != {}
      invariant left <= counts.Keys
      invariant forall k :: k in keys <==> k in counts && k !in left
      invariant Distinct(keys)
    {
      var k :| k in left;
      keys := keys + [k];
      left := left - {k};
    }
  }

  method TopCounted(counts: Counts, n: nat) returns (r: seq<string>)
    ensures r == Top(counts, n)
    ensures |r| <= n && Descending(counts, r)
  {
    TopDescends(counts, n);
    var keys := CollectKeys(counts);
    keys := SortByCountThenKey(keys, counts);
    RankingIsUnique(counts, keys, Ranked(counts));
    r := if |keys| > n then keys[..n] else keys;
  }

  method TopFields(counts: Counts) returns (out: seq<FieldCount>)
    ensures out == Fields(counts)
    ensures FieldsDescending(counts, out)
  {
    var keys := CollectKeys(counts);
    keys := SortByCountThenKey(keys, counts);
    RankingIsUnique(counts, keys, Ranked(counts));
    out := [];
    for i := 0 to |keys|
      invariant out == Fields(counts)[..i]
    {
      assert keys[i] in keys;
      out := out + [FieldCount(keys[i], counts[keys[i]])];
    }
    FieldsDescend(counts);
  }
}
