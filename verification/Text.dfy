/** String primitives the indexer relies on: case, trimming, byte order and LIKE. */
module Text {

  function LowerChar(c: char): char {
    if 'A' <= c <= 'Z' then (c as int + 32) as char else c
  }

  /** strings.ToLower, on the ASCII letters. */
  function Lower(s: string): (r: string)
    ensures |r| == |s|
  {
    seq(|s|, i requires 0 <= i < |s| => LowerChar(s[i]))
  }

  /** unicode.IsSpace. */
  predicate IsSpace(c: char) {
    || '\t' <= c <= '\r'
    || c == ' ' || c == '\U{0085}' || c == '\U{00A0}' || c == '\U{1680}'
    || c == '\U{2028}' || c == '\U{2029}' || c == '\U{202F}' || c == '\U{205F}' || c == '\U{3000}'
    || '\U{2000}' <= c <= '\U{200A}'
  }

  function TrimLeft(s: string): string {
    if s != "" && IsSpace(s[0]) then TrimLeft(s[1..]) else s
  }

  function TrimRight(s: string): string {
    if s != "" && IsSpace(s[|s| - 1]) then TrimRight(s[..|s| - 1]) else s
  }

  /** strings.TrimSpace. */
  function Trim(s: string): string {
    TrimRight(TrimLeft(s))
  }

  /** The form every label and counted keyword is stored in. */
  function Normal(s: string): string {
    Lower(Trim(s))
  }

  predicate IsTrimmed(s: string) {
    s == "" || (!IsSpace(s[0]) && !IsSpace(s[|s| - 1]))
  }

  lemma {:induction false} TrimRightKeepsHead(s: string)
    requires s == "" || !IsSpace(s[0])
    ensures IsTrimmed(TrimRight(s))
  {
    if s != "" && IsSpace(s[|s| - 1]) {
      TrimRightKeepsHead(s[..|s| - 1]);
    }
  }

  lemma {:induction false} TrimLeftStops(s: string)
    ensures TrimLeft(s) == "" || !IsSpace(TrimLeft(s)[0])
  {
    if s != "" && IsSpace(s[0]) {
      TrimLeftStops(s[1..]);
    }
  }

  /** A normalised label is trimmed and lower-case. */
  lemma NormalIsTrimmedLower(s: string)
    ensures IsTrimmed(Normal(s))
    ensures Lower(Normal(s)) == Normal(s)
  {
    TrimLeftStops(s);
    TrimRightKeepsHead(TrimLeft(s));
  }

  /** Go's `<` on strings. */
  predicate Less(a: string, b: string) {
    b != "" && (a == "" || a[0] < b[0] || (a[0] == b[0] && Less(a[1..], b[1..])))
  }

  lemma {:induction false} LessTotal(a: string, b: string)
    requires a != b
    ensures Less(a, b) || Less(b, a)
  {
    if a != "" && b != "" && a[0] == b[0] {
      assert a == [a[0]] + a[1..] && b == [b[0]] + b[1..];
      LessTotal(a[1..], b[1..]);
    }
  }

  lemma {:induction false} LessAsymmetric(a: string, b: string)
    ensures !(Less(a, b) && Less(b, a))
  {
    if a != "" && b != "" && a[0] == b[0] {
      LessAsymmetric(a[1..], b[1..]);
    }
  }

  lemma {:induction false} LessTransitive(a: string, b: string, c: string)
    requires Less(a, b) && Less(b, c)
    ensures Less(a, c)
  {
    if a != "" && a[0] == b[0] && b[0] == c[0] {
      LessTransitive(a[1..], b[1..], c[1..]);
    }
  }

  predicate Contains(s: string, part: string) {
    |part| <= |s| && (s[..|part|] == part || (s != "" && Contains(s[1..], part)))
  }

  predicate HasSuffix(s: string, suffix: string) {
    |suffix| <= |s| && s[|s| - |suffix|..] == suffix
  }

  /** `reason LIKE '%rate limited%'`; LIKE ignores the case of ASCII letters. */
  predicate MentionsRateLimit(reason: string) {
    Contains(Lower(reason), "rate limited")
  }

  /** Text without the first character of `part` does not contain it. */
  lemma {:induction false} ContainsNeedsHead(s: string, part: string)
    requires part != "" && part[0] !in s
    ensures !Contains(s, part)
  {
    if |part| <= |s| {
      assert s[..|part|][0] == s[0];
      ContainsNeedsHead(s[1..], part);
    }
  }

  // ---- What these mean ----

  const CAPITALS := "ABCDEFGHIJKLMNOPQRSTUVWXYZ"
  const SMALL := "abcdefghijklmnopqrstuvwxyz"

  lemma {:induction false} SmallLetters(k: nat)
    requires k < 26
    ensures CAPITALS[k] as int == 'A' as int + k && SMALL[k] as int == 'a' as int + k
  {
  }

  /** Lower case letter by letter, and nothing but the letters changes. */
  lemma LowerIsExact(s: string, i: nat, k: nat)
    requires i < |s| && k < 26
    ensures s[i] == CAPITALS[k] ==> Lower(s)[i] == SMALL[k]
    ensures s[i] !in CAPITALS ==> Lower(s)[i] == s[i]
  {
    SmallLetters(k);
    if 'A' <= s[i] <= 'Z' {
      SmallLetters(s[i] as int - 'A' as int);
      assert CAPITALS[s[i] as int - 'A' as int] in CAPITALS;
    }
  }

  /** White space by code point: the control characters 9 to 13, next line, and the space separators and their kin. */
  lemma SpaceIs(c: char)
    ensures IsSpace(c) <==>
            var n := c as int;
            9 <= n <= 13 || 0x2000 <= n <= 0x200A
            || n in {0x20, 0x85, 0xA0, 0x1680, 0x2028, 0x2029, 0x202F, 0x205F, 0x3000}
  {
  }

  lemma {:induction false} TrimLeftStart(s: string) returns (m: nat)
    ensures m <= |s| && TrimLeft(s) == s[m..] && forall i :: 0 <= i < m ==> IsSpace(s[i])
  {
    m := 0;
    if s != "" && IsSpace(s[0]) {
      var k := TrimLeftStart(s[1..]);
      m := k + 1;
      assert s[1..][k..] == s[m..];
      assert forall i :: 0 < i < m ==> s[i] == s[1..][i - 1];
    }
  }

  lemma {:induction false} TrimRightEnd(s: string) returns (n: nat)
    ensures n <= |s| && TrimRight(s) == s[..n] && forall i :: n <= i < |s| ==> IsSpace(s[i])
  {
    n := |s|;
    if s != "" && IsSpace(s[|s| - 1]) {
      var init := s[..|s| - 1];
      n := TrimRightEnd(init);
      assert init[..n] == s[..n];
      assert forall i :: 0 <= i < |init| ==> s[i] == init[i];
    }
  }

  /** Trimming takes white space off both ends, all of it and nothing else. */
  lemma TrimIsExact(s: string) returns (m: nat, n: nat)
    ensures m <= n <= |s| && Trim(s) == s[m..n]
    ensures forall i :: 0 <= i < |s| && !(m <= i < n) ==> IsSpace(s[i])
    ensures IsTrimmed(Trim(s))
  {
    m := TrimLeftStart(s);
    var tail := s[m..];
    var k := TrimRightEnd(tail);
    n := m + k;
    assert TrimLeft(s) == tail && k <= |tail|;
    assert tail[..k] == s[m..m + k];
    forall i | n <= i < |s|
      ensures IsSpace(s[i])
    {
      assert tail[i - m] == s[i];
    }
    TrimLeftStops(s);
    TrimRightKeepsHead(TrimLeft(s));
  }

  /** `a` and `b` first differ at `i`, and `a` has the lesser character there. */
  predicate LessAt(a: string, b: string, i: nat) {
    i < |a| && i < |b| && a[..i] == b[..i] && a[i] < b[i]
  }

  predicate ProperPrefix(a: string, b: string) {
    |a| < |b| && b[..|a|] == a
  }

  lemma OneMoreCharacter(x: char, a: string, b: string)
    ensures forall i: nat :: LessAt([x] + a, [x] + b, i + 1) <==> LessAt(a, b, i)
    ensures ProperPrefix([x] + a, [x] + b) <==> ProperPrefix(a, b)
  {
    forall i: nat | i < |a| && i < |b|
      ensures ([x] + a)[..i + 1] == ([x] + b)[..i + 1] <==> a[..i] == b[..i]
    {
      assert ([x] + a)[..i + 1] == [x] + a[..i] && ([x] + b)[..i + 1] == [x] + b[..i];
      assert ([x] + a[..i])[1..] == a[..i] && ([x] + b[..i])[1..] == b[..i];
    }
    if |a| < |b| {
      assert ([x] + b)[..|a| + 1] == [x] + b[..|a|];
      assert ([x] + b[..|a|])[1..] == b[..|a|] && ([x] + a)[1..] == a;
    }
  }

  lemma HeadsAgree(a: string, b: string)
    requires a != "" && b != ""
    ensures forall i: nat :: i > 0 && LessAt(a, b, i) ==> a[0] == b[0]
    ensures ProperPrefix(a, b) ==> a[0] == b[0]
  {
    forall i: nat | i > 0 && LessAt(a, b, i)
      ensures a[0] == b[0]
    {
      assert a[..i][0] == a[0] && b[..i][0] == b[0];
    }
    if ProperPrefix(a, b) {
      assert b[..|a|][0] == b[0];
    }
  }

  /** Order is decided at the first character that differs, or by length when there is none. */
  lemma {:induction false} LessIff(a: string, b: string)
    ensures Less(a, b) <==> ProperPrefix(a, b) || exists i: nat :: LessAt(a, b, i)
  {
    if a != "" && b != "" {
      assert a == [a[0]] + a[1..] && b == [b[0]] + b[1..];
      if a[0] == b[0] {
        LessIff(a[1..], b[1..]);
        OneMoreCharacter(a[0], a[1..], b[1..]);
        if i: nat :| LessAt(a, b, i) {
          assert i > 0 && LessAt(a[1..], b[1..], i - 1);
        }
        if i: nat :| LessAt(a[1..], b[1..], i) {
          assert LessAt(a, b, i + 1);
        }
      } else {
        HeadsAgree(a, b);
        assert LessAt(a, b, 0) <==> a[0] < b[0];
      }
    }
  }

  /** `part` stands in `s` at `i`. */
  predicate Occurs(s: string, part: string, i: nat) {
    i + |part| <= |s| && s[i..i + |part|] == part
  }

  /** Containing is occurring anywhere. */
  lemma {:induction false} ContainsIff(s: string, part: string)
    ensures Contains(s, part) <==> exists i: nat :: Occurs(s, part, i)
  {
    if |part| <= |s| && s != "" {
      ContainsIff(s[1..], part);
      forall i: nat
        ensures i > 0 ==> (Occurs(s, part, i) <==> Occurs(s[1..], part, i - 1))
      {
        if i > 0 && i + |part| <= |s| {
          assert s[i..i + |part|] == s[1..][i - 1..i - 1 + |part|];
        }
      }
      if i: nat :| Occurs(s[1..], part, i) {
        assert Occurs(s, part, i + 1);
      }
      if i: nat :| Occurs(s, part, i) {
        if i > 0 {
          assert Occurs(s[1..], part, i - 1);
        } else {
          assert s[..|part|] == s[0..0 + |part|];
        }
      }
      assert s[..|part|] == part ==> Occurs(s, part, 0);
    } else if |part| <= |s| {
      assert Occurs(s, part, 0) <==> s[..|part|] == part;
    }
  }
}
