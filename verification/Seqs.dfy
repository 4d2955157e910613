/** Lists of CIDs: distinctness, counting and removal. */
module Seqs {

  ghost predicate Distinct<T>(s: seq<T>) {
    forall i, j :: 0 <= i < j < |s| ==> s[i] != s[j]
  }

  /** How many entries of `s` lie in `S` (a SQL join count). */
  function CountIn<T(==)>(s: seq<T>, S: set<T>): (n: nat)
    ensures n <= |s|
  {
    if s == [] then 0 else (if s[0] in S then 1 else 0) + CountIn(s[1..], S)
  }

  /** `s` without the entries in `S`, order kept. */
  function Minus<T(==)>(s: seq<T>, S: set<T>): seq<T> {
    if s == [] then [] else (if s[0] in S then [] else [s[0]]) + Minus(s[1..], S)
  }

  /** First occurrences of `s`, order kept (INSERT OR IGNORE on a keyed table). */
  function Dedup<T(==)>(s: seq<T>): seq<T> {
    if s == [] then []
    else
      var init := Dedup(s[..|s| - 1]);
      if s[|s| - 1] in s[..|s| - 1] then init else init + [s[|s| - 1]]
  }

  lemma HeadIsMember<T>(s: seq<T>)
    requires s != []
    ensures s[0] in s
  {
  }

  lemma PrefixHasMember<T>(s: seq<T>, n: nat, i: nat)
    requires i < n <= |s|
    ensures s[i] in s[..n]
  {
    assert s[..n][i] == s[i];
  }

  lemma {:induction false} MinusMembers<T>(s: seq<T>, S: set<T>)
    ensures forall x :: x in Minus(s, S) <==> x in s && x !in S
    ensures Distinct(s) ==> Distinct(Minus(s, S))
    ensures |Minus(s, S)| + CountIn(s, S) == |s|
  {
    if s != [] {
      MinusMembers(s[1..], S);
      assert s == [s[0]] + s[1..];
    }
  }

  lemma {:induction false} MinusNothing<T>(s: seq<T>, S: set<T>)
    requires forall x :: x in s ==> x !in S
    ensures Minus(s, S) == s
  {
    if s != [] {
      assert s == [s[0]] + s[1..];
      MinusNothing(s[1..], S);
    }
  }

  lemma {:induction false} CountSame<T>(s: seq<T>, S: set<T>, R: set<T>)
    requires forall x :: x in s ==> (x in S <==> x in R)
    ensures CountIn(s, S) == CountIn(s, R)
  {
    if s != [] {
      assert s == [s[0]] + s[1..];
      CountSame(s[1..], S, R);
    }
  }

  /** Removing one entry of a duplicate-free list lowers each count by what it contributed. */
  lemma {:induction false} CountAfterRemoval<T>(s: seq<T>, c: T, S: set<T>)
    requires Distinct(s)
    ensures CountIn(Minus(s, {c}), S) == CountIn(s, S) - (if c in s && c in S then 1 else 0)
    ensures |Minus(s, {c})| == |s| - (if c in s then 1 else 0)
  {
    if s != [] {
      assert s == [s[0]] + s[1..];
      CountAfterRemoval(s[1..], c, S);
      if s[0] == c {
        MinusNothing(s[1..], {c});
        assert Minus(s, {c}) == s[1..];
      } else {
        assert Minus(s, {c}) == [s[0]] + Minus(s[1..], {c});
      }
    }
  }

  lemma {:induction false} CountPositive<T>(s: seq<T>, x: T, S: set<T>)
    requires x in s && x in S
    ensures CountIn(s, S) > 0
  {
    assert s == [s[0]] + s[1..];
    if s[0] != x {
      CountPositive(s[1..], x, S);
    }
  }

  /** Counts over sets that split the list add up to its length. */
  lemma {:induction false} CountSplit<T>(s: seq<T>, S: set<T>, R: set<T>)
    requires S !! R
    ensures CountIn(s, S) + CountIn(s, R) == CountIn(s, S + R)
  {
    if s != [] {
      CountSplit(s[1..], S, R);
    }
  }

  lemma {:induction false} DedupMembers<T>(s: seq<T>)
    ensures forall x :: x in Dedup(s) <==> x in s
    ensures Distinct(Dedup(s))
    ensures Distinct(s) ==> Dedup(s) == s
  {
    if s != [] {
      var init, last := s[..|s| - 1], s[|s| - 1];
      assert s == init + [last];
      DedupMembers(init);
    }
  }

  /** A list without duplicates is no longer than a set that holds it. */
  lemma {:induction false} DistinctFits<T>(s: seq<T>, S: set<T>)
    requires Distinct(s) && forall x :: x in s ==> x in S
    ensures |s| <= |S|
  {
    if s != [] {
      HeadIsMember(s);
      forall x | x in s[1..]
        ensures x in S - {s[0]}
      {
      }
      DistinctFits(s[1..], S - {s[0]});
    }
  }

  lemma {:induction false} DistinctCovers<T>(s: seq<T>, S: set<T>)
    requires Distinct(s) && forall x :: x in s <==> x in S
    ensures |s| == |S|
  {
    if s != [] {
      HeadIsMember(s);
      forall x
        ensures x in s[1..] <==> x in S - {s[0]}
      {
        assert s == [s[0]] + s[1..];
      }
      DistinctCovers(s[1..], S - {s[0]});
    } else {
      assert S == {};
    }
  }

  lemma {:induction false} KeptAt<T>(s: seq<T>, S: set<T>, j: nat) returns (q: nat)
    requires j < |Minus(s, S)|
    ensures q < |s| && s[q] == Minus(s, S)[j]
  {
    if s[0] !in S && j == 0 {
      q := 0;
    } else {
      q := KeptAt(s[1..], S, if s[0] in S then j else j - 1);
      q := q + 1;
    }
  }

  /** Removal keeps the order of what is kept. */
  lemma {:induction false} MinusKeepsOrder<T>(s: seq<T>, S: set<T>, i: nat, j: nat) returns (p: nat, q: nat)
    requires i < j < |Minus(s, S)|
    ensures p < q < |s| && s[p] == Minus(s, S)[i] && s[q] == Minus(s, S)[j]
  {
    if s[0] !in S && i == 0 {
      q := KeptAt(s[1..], S, j - 1);
      p, q := 0, q + 1;
    } else {
      var k := if s[0] in S then 0 else 1;
      p, q := MinusKeepsOrder(s[1..], S, i - k, j - k);
      p, q := p + 1, q + 1;
    }
  }
}
