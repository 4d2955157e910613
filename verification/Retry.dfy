/** pipeline.go: backoff arithmetic in 64-bit nanoseconds, and the retry loops over any sequence of replies. */
module Retry {

  /** time.Duration. */
  newtype Duration = x: int | -0x8000_0000_0000_0000 <= x < 0x8000_0000_0000_0000

  const SECOND: Duration := 1_000_000_000
  const BASE_BACKOFF: Duration := 2 * SECOND
  const MAX_BACKOFF: Duration := 60 * SECOND
  const QUOTA_PAUSE_THRESHOLD: Duration := 120 * SECOND
  const MAX_COOLDOWN: Duration := 86_400 * SECOND
  const MAX_TRANSIENT_RETRIES: nat := 2

  function Pow2(n: nat): nat {
    if n == 0 then 1 else 2 * Pow2(n - 1)
  }

  function Min(a: int, b: int): int {
    if a < b then a else b
  }

  function Max(a: int, b: int): int {
    if a < b then b else a
  }

  /** The sleep intended for a retry: doubling, floored by the server's hint, capped. */
  function Backoff(attempt: nat, hint: int): int {
    Min(MAX_BACKOFF as int, Max(hint, BASE_BACKOFF as int * Pow2(attempt)))
  }

  lemma {:induction false} Pow2Monotone(a: nat, b: nat)
    requires a <= b
    ensures 1 <= Pow2(a) <= Pow2(b)
    decreases b
  {
    if a < b {
      Pow2Monotone(a, b - 1);
    } else if a > 0 {
      Pow2Monotone(a - 1, b - 1);
    }
  }

  /** Later attempts and larger hints never wait less; every wait is between the base and the cap. */
  lemma BackoffMonotone(a: nat, b: nat, g: int, h: int)
    requires a <= b && g <= h
    ensures BASE_BACKOFF as int <= Backoff(a, g) <= Backoff(b, h) <= MAX_BACKOFF as int
  {
    Pow2Monotone(a, b);
    Pow2Monotone(0, a);
  }

  /** The loop computes the intended wait for every attempt and hint; no product leaves 64 bits. */
  method BackoffDuration(attempt: nat, hint: Duration) returns (wait: Duration)
    ensures wait as int == Backoff(attempt, hint as int)
  {
    var exp := BASE_BACKOFF;
    var i := 0;
    while i < attempt
      invariant 0 <= i <= attempt
      invariant exp as int == BASE_BACKOFF as int * Pow2(i)
      invariant BASE_BACKOFF <= exp < MAX_BACKOFF
    {
      exp := exp * 2;
      if exp >= MAX_BACKOFF {
        Pow2Monotone(i + 1, attempt);
        exp := MAX_BACKOFF;
        break;
      }
      i := i + 1;
    }
    wait := exp;
    if hint > wait {
      wait := hint;
    }
    if wait > MAX_BACKOFF {
      wait := MAX_BACKOFF;
    }
  }

  function CapCooldown(d: Duration): Duration {
    if d > MAX_COOLDOWN then MAX_COOLDOWN else d
  }

  // ---- The retry loops ----

  datatype Reply<T> = Ok(value: T) | Fatal(error: string) | RateLimited(after: Duration) | Transient(error: string)

  /** What the loop does to the limiter and to its own worker. */
  datatype Action = Acquire | Release | Penalize(d: Duration) | Sleep(d: Duration)

  datatype Verdict<T> = Value(value: T) | Error(error: string) | Undecided

  function Transients<T>(replies: seq<Reply<T>>): nat {
    if replies == [] then 0
    else Transients(replies[..|replies| - 1]) + (if replies[|replies| - 1].Transient? then 1 else 0)
  }

  predicate Short<T>(r: Reply<T>) {
    r.RateLimited? && r.after <= QUOTA_PAUSE_THRESHOLD
  }

  function Shorts<T>(replies: seq<Reply<T>>): nat {
    if replies == [] then 0
    else Shorts(replies[..|replies| - 1]) + (if Short(replies[|replies| - 1]) then 1 else 0)
  }

  /** Reply `k` ends the call: a success, a non-retryable error, or a transient one beyond the budget. */
  predicate Decides<T>(replies: seq<Reply<T>>, k: nat)
    requires k < |replies|
  {
    match replies[k]
    case Ok(_) => true
    case Fatal(_) => true
    case RateLimited(_) => false
    case Transient(_) => Transients(replies[..k]) >= MAX_TRANSIENT_RETRIES
  }

  function Outcome<T>(r: Reply<T>): Verdict<T> {
    match r
    case Ok(v) => Value(v)
    case Fatal(e) => Error(e)
    case RateLimited(_) => Undecided
    case Transient(e) => Error(e)
  }

  /** The waiting that follows undecided reply `k`, from the replies before it. */
  ghost predicate IsWait<T>(replies: seq<Reply<T>>, k: nat, actions: seq<Action>)
    requires k < |replies|
  {
    match replies[k]
    case RateLimited(after) =>
      if after > QUOTA_PAUSE_THRESHOLD then
        exists p :: p as int == Min(after as int, 24 * 60 * 60 * SECOND as int) && actions == [Penalize(p)]
      else exists d :: d as int == Backoff(Shorts(replies[..k]), after as int) && actions == [Penalize(d), Sleep(d)]
    case Transient(_) => exists d :: d as int == Backoff(Transients(replies[..k]), 0) && actions == [Sleep(d)]
    case _ => actions == []
  }

  /**
   convertPDFWithRetry (`releases`) and extractKeywordsWithRetry, fed with the
   replies the endpoint will give. `log[k]` is what happens around reply `k`.
   */
  method CallWithRetry<T>(replies: seq<Reply<T>>, releases: bool) returns (v: Verdict<T>, log: seq<seq<Action>>)
    ensures |log| <= |replies|
    ensures forall k :: 0 <= k < |log| - 1 ==> !Decides(replies, k)
    ensures v == Undecided ==> |log| == |replies| && (|log| > 0 ==> !Decides(replies, |log| - 1))
    ensures v != Undecided ==> |log| > 0 && Decides(replies, |log| - 1) && v == Outcome(replies[|log| - 1])
    ensures forall k :: 0 <= k < |log| ==>
              var bracket := if releases then [Acquire, Release] else [Acquire];
              bracket <= log[k] && (Decides(replies, k) ==> log[k] == bracket)
              && (!Decides(replies, k) ==> IsWait(replies, k, log[k][|bracket|..]))
  {
    var bracket := if releases then [Acquire, Release] else [Acquire];
    var rateLimitTries, transientTries := 0, 0;
    log := [];
    var i := 0;
    while i < |replies|
      invariant 0 <= i <= |replies| && |log| == i
      invariant rateLimitTries == Shorts(replies[..i]) && transientTries == Transients(replies[..i])
      invariant transientTries <= MAX_TRANSIENT_RETRIES
      invariant forall k :: 0 <= k < i ==>
                  !Decides(replies, k) && bracket <= log[k] && IsWait(replies, k, log[k][|bracket|..])
    {
      var reply := replies[i];
      assert replies[..i + 1][..i] == replies[..i];
      var wait: seq<Action> := [];
      match reply {
        case Ok(value) =>
          return Value(value), log + [bracket];
        case Fatal(error) =>
          return Error(error), log + [bracket];
        case RateLimited(after) =>
          if after > QUOTA_PAUSE_THRESHOLD {
            wait := [Penalize(CapCooldown(after))];
          } else {
            var d := BackoffDuration(rateLimitTries, after);
            rateLimitTries := rateLimitTries + 1;
            wait := [Penalize(d), Sleep(d)];
          }
        case Transient(error) =>
          if transientTries >= MAX_TRANSIENT_RETRIES {
            return Error(error), log + [bracket];
          }
          var d := BackoffDuration(transientTries, 0);
          transientTries := transientTries + 1;
          wait := [Sleep(d)];
      }
      assert (bracket + wait)[|bracket|..] == wait;
      assert IsWait(replies, i, wait);
      log := log + [bracket + wait];
      i := i + 1;
    }
    v := Undecided;
  }

  lemma {:induction false} TransientsConcat<T>(xs: seq<Reply<T>>, ys: seq<Reply<T>>)
    ensures Transients(xs + ys) == Transients(xs) + Transients(ys)
  {
    if ys == [] {
      assert xs + ys == xs;
    } else {
      assert (xs + ys)[..|xs + ys| - 1] == xs + ys[..|ys| - 1];
      TransientsConcat(xs, ys[..|ys| - 1]);
    }
  }

  /** Rate-limit replies never spend the transient budget: inserting one decides nothing earlier or later. */
  lemma RateLimitsAreFree<T>(xs: seq<Reply<T>>, r: Reply<T>, ys: seq<Reply<T>>)
    requires r.RateLimited?
    ensures var more, less := xs + [r] + ys, xs + ys;
            && !Decides(more, |xs|)
            && (forall k :: 0 <= k < |xs| ==> (Decides(more, k) <==> Decides(less, k)))
            && (forall k :: |xs| < k < |more| ==> (Decides(more, k) <==> Decides(less, k - 1)))
  {
    var more, less := xs + [r] + ys, xs + ys;
    forall k | 0 <= k < |xs|
      ensures Decides(more, k) <==> Decides(less, k)
    {
      assert more[..k] == less[..k];
    }
    forall k | |xs| < k < |more|
      ensures Decides(more, k) <==> Decides(less, k - 1)
    {
      var mid := ys[..k - |xs| - 1];
      assert more[..k] == (xs + [r]) + mid;
      assert less[..k - 1] == xs + mid;
      TransientsConcat(xs + [r], mid);
      TransientsConcat(xs, mid);
      TransientsConcat(xs, [r]);
      assert Transients([r]) == 0 by {
        assert [r][..0] == [];
      }
    }
  }

  /** Without a success or fatal reply, the call ends exactly when a third transient reply has come. */
  lemma {:induction false} ThirdTransientDecides<T>(xs: seq<Reply<T>>)
    requires forall k :: 0 <= k < |xs| ==> xs[k].Transient? || xs[k].RateLimited?
    ensures (exists k :: 0 <= k < |xs| && Decides(xs, k)) <==> Transients(xs) > MAX_TRANSIENT_RETRIES
  {
    if xs != [] {
      var n := |xs| - 1;
      var init := xs[..n];
      ThirdTransientDecides(init);
      forall k | 0 <= k < n
        ensures Decides(xs, k) <==> Decides(init, k)
      {
        assert xs[..k] == init[..k];
      }
      if Decides(xs, n) {
        assert Transients(xs) > MAX_TRANSIENT_RETRIES;
      }
    }
  }

  lemma {:induction false} AllAlike<T>(xs: seq<Reply<T>>)
    ensures (forall i :: 0 <= i < |xs| ==> Short(xs[i])) ==> Shorts(xs) == |xs|
    ensures (forall i :: 0 <= i < |xs| ==> xs[i].Transient?) ==> Transients(xs) == |xs|
    ensures (forall i :: 0 <= i < |xs| ==> !Short(xs[i])) ==> Shorts(xs) == 0
    ensures (forall i :: 0 <= i < |xs| ==> !xs[i].Transient?) ==> Transients(xs) == 0
  {
    if xs != [] {
      AllAlike(xs[..|xs| - 1]);
    }
  }

  /**
   The n-th rate limit in a row doubles the pause of worker and pool, from two
   seconds up to a minute and not below the server's hint; a wait of over two
   minutes pauses the pool alone, for that wait up to a day.
   */
  lemma RateLimitsInARow<T>(replies: seq<Reply<T>>, k: nat, actions: seq<Action>)
    requires k < |replies| && replies[k].RateLimited? && IsWait(replies, k, actions)
    requires forall i :: 0 <= i < k ==> Short(replies[i])
    ensures var after := replies[k].after as int;
            if after <= 120_000_000_000 then
              && |actions| == 2 && actions[0].Penalize? && actions[1] == Sleep(actions[0].d)
              && actions[0].d as int == Min(60_000_000_000, Max(after, 2_000_000_000 * Pow2(k)))
            else
              && |actions| == 1 && actions[0].Penalize?
              && actions[0].d as int == if after <= 86_400_000_000_000 then after else 86_400_000_000_000
  {
    assert forall i :: 0 <= i < k ==> replies[..k][i] == replies[i];
    AllAlike(replies[..k]);
  }

  /** Transient errors in a row double the pause of the worker alone. */
  lemma TransientsInARow<T>(replies: seq<Reply<T>>, k: nat, actions: seq<Action>)
    requires k < |replies| && replies[k].Transient? && IsWait(replies, k, actions)
    requires forall i :: 0 <= i < k ==> replies[i].Transient?
    ensures |actions| == 1 && actions[0].Sleep?
    ensures actions[0].d as int == Min(60_000_000_000, 2_000_000_000 * Pow2(k))
  {
    assert forall i :: 0 <= i < k ==> replies[..k][i] == replies[i];
    AllAlike(replies[..k]);
    Pow2Monotone(0, k);
  }
}
