/**
 indexer.go: the counter, the channel and the active flag around the job queue,
 one step per atomic operation. Producers count, then send; the consumer receives,
 discounts, raises the flag, processes, and lowers the flag after two separate looks.
 */
module Queue {
  const CHANNEL_CAPACITY: nat := 4096

  datatype Consumer<J> =
    | Ready
    | Got(job: J)
    | Discounted(job: J)
    | Processing(job: J)
    | Processed
    | SawNoneQueued
    | SawNoneWaiting

  /** `sent` and `done` are the histories of jobs sent and processed. */
  datatype Sys<J> = Sys(
    queued: int, sending: multiset<J>, chan: seq<J>, consumer: Consumer<J>, active: bool, sent: seq<J>, done: seq<J>)

  datatype Step<J> =
    | Count(job: J)
    | Send(job: J)
    | Receive
    | Discount
    | Activate
    | Finish
    | LookAtCounter
    | LookAtChannel
    | Deactivate

  function Start<J>(): Sys<J> {
    Sys(0, multiset{}, [], Ready, false, [], [])
  }

  predicate Enabled<J(==)>(s: Sys<J>, step: Step<J>) {
    match step
    case Count(_) => true
    case Send(job) => job in s.sending && |s.chan| < CHANNEL_CAPACITY
    case Receive => s.consumer.Ready? && s.chan != []
    case Discount => s.consumer.Got?
    case Activate => s.consumer.Discounted?
    case Finish => s.consumer.Processing?
    case LookAtCounter => s.consumer.Processed?
    case LookAtChannel => s.consumer.SawNoneQueued?
    case Deactivate => s.consumer.SawNoneWaiting?
  }

  function Do<J(==)>(s: Sys<J>, step: Step<J>): Sys<J>
    requires Enabled(s, step)
  {
    match step
    case Count(job) => s.(queued := s.queued + 1, sending := s.sending + multiset{job})
    case Send(job) => s.(sending := s.sending - multiset{job}, chan := s.chan + [job], sent := s.sent + [job])
    case Receive => s.(consumer := Got(s.chan[0]), chan := s.chan[1..])
    case Discount => s.(queued := s.queued - 1, consumer := Discounted(s.consumer.job))
    case Activate => s.(active := true, consumer := Processing(s.consumer.job))
    case Finish => s.(done := s.done + [s.consumer.job], consumer := Processed)
    case LookAtCounter => s.(consumer := if s.queued <= 0 then SawNoneQueued else Ready)
    case LookAtChannel => s.(consumer := if s.chan == [] then SawNoneWaiting else Ready)
    case Deactivate => s.(active := false, consumer := Ready)
  }

  /** The job between the channel and its completion. */
  function InHand<J>(c: Consumer<J>): seq<J> {
    if c.Got? || c.Discounted? || c.Processing? then [c.job] else []
  }

  ghost predicate Inv<J>(s: Sys<J>) {
    && s.queued == |s.chan| + |s.sending| + (if s.consumer.Got? then 1 else 0)
    && s.sent == s.done + InHand(s.consumer) + s.chan
    && (s.consumer.Processing? ==> s.active)
    && (s.consumer.Ready? && s.active ==> |s.chan| + |s.sending| > 0)
  }

  lemma StepKeepsInv<J>(s: Sys<J>, step: Step<J>)
    requires Inv(s) && Enabled(s, step)
    ensures Inv(Do(s, step))
  {
    match step {
      case Receive => assert s.chan == [s.chan[0]] + s.chan[1..];
      case _ =>
    }
  }

  ghost predicate CanRun<J>(s: Sys<J>, steps: seq<Step<J>>)
    decreases |steps|
  {
    steps == [] || (Enabled(s, steps[0]) && CanRun(Do(s, steps[0]), steps[1..]))
  }

  ghost function Run<J>(s: Sys<J>, steps: seq<Step<J>>): Sys<J>
    requires CanRun(s, steps)
    decreases |steps|
  {
    if steps == [] then s else Run(Do(s, steps[0]), steps[1..])
  }

  lemma {:induction false} RunKeepsInv<J>(s: Sys<J>, steps: seq<Step<J>>)
    requires Inv(s) && CanRun(s, steps)
    ensures Inv(Run(s, steps))
    decreases |steps|
  {
    if steps != [] {
      StepKeepsInv(s, steps[0]);
      RunKeepsInv(Do(s, steps[0]), steps[1..]);
    }
  }

  /**
   In every reachable state: the counter is what is on its way plus a job just
   received, so never negative; jobs are processed once each, in the order sent;
   the flag is up while one is processed; an idle consumer under a raised flag
   has a job coming.
   */
  lemma QueueProtocol<J>(steps: seq<Step<J>>)
    requires CanRun(Start<J>(), steps)
    ensures var s := Run(Start<J>(), steps);
            && s.queued == |s.chan| + |s.sending| + (if s.consumer.Got? then 1 else 0) >= 0
            && s.done <= s.sent
            && (s.chan == [] && InHand(s.consumer) == [] ==> s.done == s.sent)
            && (s.consumer.Processing? ==> s.active && |s.done| < |s.sent| && s.consumer.job == s.sent[|s.done|])
            && (s.consumer.Ready? && s.active ==> s.chan != [] || s.sending != multiset{})
  {
    RunKeepsInv(Start<J>(), steps);
  }
}
