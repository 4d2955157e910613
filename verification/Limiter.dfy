/**
 pipeline.go: the limiter shared by the workers, as a step system. A worker
 checks the cooldown gate, later takes a token, calls, and releases; penalties,
 refills and the passing of time interleave with all of these.
 */
module Limiter {

  type Worker = nat

  /** A passed gate check: when it was, and how many deadlines had been set by then. */
  datatype Pass = Pass(at: int, seen: nat)

  /**
   `hold` is the concurrency flavour (a call returns its token); otherwise tokens
   come back by refill. `deadlines` is the history of cooldowns set.
   */
  datatype Limiter = Limiter(
    hold: bool, capacity: nat, tokens: nat, now: int, blockUntil: int, deadlines: seq<int>,
    passes: map<Worker, Pass>, calling: set<Worker>)

  datatype Step =
    | Elapse(d: nat)
    | Refill
    | Check(w: Worker)
    | Take(w: Worker)
    | Release(w: Worker)
    | Penalize(pause: int)

  /** newConcurrencyLimiter and newRateLimiter: sizes below one become one, tokens are primed. */
  function Fresh(hold: bool, size: int, now: int): Limiter {
    var n := if size < 1 then 1 else size;
    Limiter(hold, n, n, now, now, [], map[], {})
  }

  predicate Enabled(l: Limiter, step: Step) {
    match step
    case Elapse(_) => true
    case Refill => !l.hold
    case Check(w) => w !in l.passes && w !in l.calling
    case Take(w) => w in l.passes && l.tokens > 0
    case Release(w) => w in l.calling
    case Penalize(_) => true
  }

  function PutBack(l: Limiter): nat {
    if l.tokens < l.capacity then l.tokens + 1 else l.tokens
  }

  function Do(l: Limiter, step: Step): Limiter
    requires Enabled(l, step)
  {
    match step
    case Elapse(d) => l.(now := l.now + d)
    case Refill => l.(tokens := PutBack(l))
    case Check(w) => if l.now >= l.blockUntil then l.(passes := l.passes[w := Pass(l.now, |l.deadlines|)]) else l
    case Take(w) => l.(tokens := l.tokens - 1, passes := l.passes - {w}, calling := l.calling + {w})
    case Release(w) => l.(tokens := if l.hold then PutBack(l) else l.tokens, calling := l.calling - {w})
    case Penalize(d) =>
      if d <= 0 then l
      else
        var until := l.now + d;
        l.(deadlines := l.deadlines + [until], blockUntil := if until > l.blockUntil then until else l.blockUntil)
  }

  ghost predicate Inv(l: Limiter) {
    && l.tokens <= l.capacity
    && l.passes.Keys !! l.calling
    && (l.hold ==> l.tokens + |l.calling| == l.capacity)
    && (forall i :: 0 <= i < |l.deadlines| ==> l.deadlines[i] <= l.blockUntil)
    && (forall w :: w in l.passes ==>
          && l.passes[w].at <= l.now && l.passes[w].seen <= |l.deadlines|
          && forall i :: 0 <= i < l.passes[w].seen ==> l.deadlines[i] <= l.passes[w].at)
  }

  lemma StepKeepsInv(l: Limiter, step: Step)
    requires Inv(l) && Enabled(l, step)
    ensures Inv(Do(l, step))
    ensures l.blockUntil <= Do(l, step).blockUntil
    ensures step.Release? && l.hold ==> l.tokens < l.capacity
  {
    match step {
      case Release(w) => assert |l.calling - {w}| == |l.calling| - 1;
      case Take(w) => assert |l.calling + {w}| == |l.calling| + 1;
      case _ =>
    }
  }

  ghost predicate CanRun(l: Limiter, steps: seq<Step>)
    decreases |steps|
  {
    steps == [] || (Enabled(l, steps[0]) && CanRun(Do(l, steps[0]), steps[1..]))
  }

  ghost function Run(l: Limiter, steps: seq<Step>): Limiter
    requires CanRun(l, steps)
    decreases |steps|
  {
    if steps == [] then l else Run(Do(l, steps[0]), steps[1..])
  }

  function Takes(steps: seq<Step>): nat {
    if steps == [] then 0 else (if steps[0].Take? then 1 else 0) + Takes(steps[1..])
  }

  function Refills(steps: seq<Step>): nat {
    if steps == [] then 0 else (if steps[0].Refill? then 1 else 0) + Refills(steps[1..])
  }

  /**
   Over any window of any run: tokens and calls in flight add up to the capacity
   of a concurrency limiter; the gate never moves back; a ticking limiter admits
   at most its burst plus one call per refill.
   */
  lemma {:induction false} WindowIsSafe(l: Limiter, steps: seq<Step>)
    requires Inv(l) && CanRun(l, steps)
    ensures Inv(Run(l, steps))
    ensures l.blockUntil <= Run(l, steps).blockUntil
    ensures Run(l, steps).hold == l.hold && Run(l, steps).capacity == l.capacity
    ensures !l.hold ==> Takes(steps) + Run(l, steps).tokens <= l.tokens + Refills(steps)
    ensures !l.hold ==> Takes(steps) <= l.capacity + Refills(steps)
    decreases |steps|
  {
    if steps != [] {
      StepKeepsInv(l, steps[0]);
      WindowIsSafe(Do(l, steps[0]), steps[1..]);
    }
  }

  lemma FreshIsSafe(hold: bool, size: int, now: int)
    ensures Inv(Fresh(hold, size, now))
  {
  }

  /** Whoever takes a token passed the gate at or after every deadline set before its last check. */
  lemma TakersWaited(hold: bool, size: int, now: int, steps: seq<Step>, w: Worker, i: nat)
    requires CanRun(Fresh(hold, size, now), steps)
    requires var l := Run(Fresh(hold, size, now), steps);
             Enabled(l, Take(w)) && i < l.passes[w].seen
    ensures var l := Run(Fresh(hold, size, now), steps);
            i < |l.deadlines| && l.deadlines[i] <= l.passes[w].at <= l.now
  {
    FreshIsSafe(hold, size, now);
    WindowIsSafe(Fresh(hold, size, now), steps);
  }

  // ---- The gate, from the penalties themselves ----

  /** The gate is shut until `at`, and whoever has passed it did so since. */
  ghost predicate ShutUntil(l: Limiter, at: int, w: Worker) {
    && l.blockUntil >= at
    && (w in l.passes ==> at <= l.passes[w].at <= l.now)
  }

  lemma {:induction false} StaysShut(l: Limiter, steps: seq<Step>, at: int, w: Worker)
    requires ShutUntil(l, at, w) && CanRun(l, steps)
    ensures ShutUntil(Run(l, steps), at, w)
    decreases |steps|
  {
    if steps != [] {
      StaysShut(Do(l, steps[0]), steps[1..], at, w);
    }
  }

  /** A worker that had not passed the gate when a penalty was set takes no token before the penalty is over. */
  lemma PenaltyHolds(l: Limiter, d: int, steps: seq<Step>, w: Worker)
    requires d > 0 && w !in l.passes && CanRun(Do(l, Penalize(d)), steps)
    requires Enabled(Run(Do(l, Penalize(d)), steps), Take(w))
    ensures Run(Do(l, Penalize(d)), steps).now >= l.now + d
  {
    StaysShut(Do(l, Penalize(d)), steps, l.now + d, w);
  }

  /** Every penalty the run sets is over by `t`; those of no duration set nothing. */
  ghost predicate PenaltiesOver(l: Limiter, steps: seq<Step>, t: int)
    requires CanRun(l, steps)
    decreases |steps|
  {
    steps == [] || (
      && (steps[0].Penalize? && steps[0].pause > 0 ==> l.now + steps[0].pause <= t)
      && PenaltiesOver(Do(l, steps[0]), steps[1..], t))
  }

  lemma {:induction false} GateIsPenalties(l: Limiter, steps: seq<Step>, t: int)
    requires CanRun(l, steps)
    ensures Run(l, steps).blockUntil <= t <==> l.blockUntil <= t && PenaltiesOver(l, steps, t)
    ensures Run(l, steps).now >= l.now
    decreases |steps|
  {
    if steps != [] {
      GateIsPenalties(Do(l, steps[0]), steps[1..], t);
    }
  }

  /** In any run of a new limiter a worker that checks passes if and only if every penalty set so far is over. */
  lemma CheckPassesIff(hold: bool, size: int, now: int, steps: seq<Step>, w: Worker)
    requires CanRun(Fresh(hold, size, now), steps)
    requires Enabled(Run(Fresh(hold, size, now), steps), Check(w))
    ensures var u := Run(Fresh(hold, size, now), steps);
            w in Do(u, Check(w)).passes <==> PenaltiesOver(Fresh(hold, size, now), steps, u.now)
  {
    GateIsPenalties(Fresh(hold, size, now), steps, Run(Fresh(hold, size, now), steps).now);
  }

  // ---- Room ----

  /** As many workers as the size says, and at least one, may check and take at once. */
  lemma {:induction false} FreshLetsIn(hold: bool, size: int, now: int, ws: seq<Worker>) returns (steps: seq<Step>)
    requires forall i, j :: 0 <= i < j < |ws| ==> ws[i] != ws[j]
    requires |ws| <= if size < 1 then 1 else size
    ensures CanRun(Fresh(hold, size, now), steps)
    ensures var u := Run(Fresh(hold, size, now), steps);
            && u == Fresh(hold, size, now).(tokens := u.tokens, calling := set w | w in ws)
            && u.tokens == (if size < 1 then 1 else size) - |ws|
    decreases |ws|
  {
    var l := Fresh(hold, size, now);
    if ws == [] {
      steps := [];
      assert (set w | w in ws) == {};
    } else {
      var k := |ws| - 1;
      var w := ws[k];
      assert ws == ws[..k] + [w] && w !in ws[..k];
      var pre := FreshLetsIn(hold, size, now, ws[..k]);
      var u := Run(l, pre);
      RunTwoMore(l, pre, Check(w), Take(w));
      steps := pre + [Check(w), Take(w)];
      assert Do(Do(u, Check(w)), Take(w)).passes == map[];
    }
  }

  lemma {:induction false} RunTwoMore(l: Limiter, steps: seq<Step>, x: Step, y: Step)
    requires CanRun(l, steps) && Enabled(Run(l, steps), x) && Enabled(Do(Run(l, steps), x), y)
    ensures CanRun(l, steps + [x, y]) && Run(l, steps + [x, y]) == Do(Do(Run(l, steps), x), y)
    decreases |steps|
  {
    if steps == [] {
      assert [x, y][1..] == [y] && [y][1..] == [] && steps + [x, y] == [x, y];
      var u := Do(l, x);
      assert CanRun(Do(u, y), []) && Run(Do(u, y), []) == Do(u, y);
      assert CanRun(u, [y]) && Run(u, [y]) == Do(u, y);
    } else {
      assert (steps + [x, y])[1..] == steps[1..] + [x, y];
      RunTwoMore(Do(l, steps[0]), steps[1..], x, y);
    }
  }

  /**
   No token means no entry; then, and whenever below capacity, one refill of a
   ticking limiter or one release of a holding one lets exactly one more in.
   */
  lemma TokenBackLetsOneIn(l: Limiter, step: Step, w: Worker, v: Worker)
    requires Inv(l) && Enabled(l, step) && l.tokens < l.capacity
    requires step.Refill? || (step.Release? && l.hold)
    requires w != v && w in l.passes && v in l.passes
    ensures l.tokens == 0 ==> !Enabled(l, Take(w))
    ensures var u := Do(l, step);
            && u.tokens == l.tokens + 1
            && Enabled(u, Take(w))
            && (l.tokens == 0 ==> !Enabled(Do(u, Take(w)), Take(v)))
  {
  }
}
