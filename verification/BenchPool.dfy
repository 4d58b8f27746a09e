/** The worker pool of a benchmark run: one rendezvous channel, one slot per request (internal/bench/bench.go). */
module BenchPool {
  import opened Wrappers
  import opened Bench

  datatype Worker = Idle | Holding(job: nat) | Exited

  /**
   * `next` is the index the sender offers; `received` and `written` count, per index, how often it was
   * taken from the channel and how often its slot was written.
   */
  datatype State = State(next: nat, closed: bool, workers: seq<Worker>, slots: seq<Option<Sample>>,
                         received: seq<nat>, written: seq<nat>)

  datatype Step =
    | Send(w: nat)                    // the sender and an idle worker meet
    | Finish(w: nat, sample: Sample)  // a request ends and its slot is written
    | Close
    | Exit(w: nat)                    // an idle worker sees the closed channel

  function Initial(requests: nat, concurrency: nat): State {
    State(0, false, seq(concurrency, _ => Idle), seq(requests, _ => None),
          seq(requests, _ => 0), seq(requests, _ => 0))
  }

  predicate Shaped(s: State) { |s.slots| == |s.received| == |s.written| }

  predicate Enabled(s: State, step: Step) {
    && Shaped(s)
    && match step
       case Send(w) => s.next < |s.slots| && !s.closed && w < |s.workers| && s.workers[w].Idle?
       case Finish(w, _) => w < |s.workers| && s.workers[w].Holding? && s.workers[w].job < |s.slots|
       case Close => s.next == |s.slots| && !s.closed
       case Exit(w) => s.closed && w < |s.workers| && s.workers[w].Idle?
  }

  function Do(s: State, step: Step): State
    requires Enabled(s, step)
  {
    match step
    case Send(w) => s.(next := s.next + 1, workers := s.workers[w := Holding(s.next)],
                       received := s.received[s.next := s.received[s.next] + 1])
    case Finish(w, sample) =>
      var i := s.workers[w].job;
      s.(workers := s.workers[w := Idle], slots := s.slots[i := Some(sample)],
         written := s.written[i := s.written[i] + 1])
    case Close => s.(closed := true)
    case Exit(w) => s.(workers := s.workers[w := Exited])
  }

  function Run(s: State, steps: seq<Step>): Option<State> {
    if steps == [] then Some(s)
    else
      var before := Run(s, steps[..|steps| - 1]);
      var last := steps[|steps| - 1];
      if before.Some? && Enabled(before.value, last) then Some(Do(before.value, last)) else None
  }

  /** wg.Wait returns. */
  predicate Finished(s: State) { s.closed && forall w | 0 <= w < |s.workers| :: s.workers[w].Exited? }

  predicate Held(s: State, i: nat) { exists w | 0 <= w < |s.workers| :: s.workers[w] == Holding(i) }

  predicate Inv(s: State) {
    && Shaped(s) && s.next <= |s.slots|
    && (s.closed ==> s.next == |s.slots|)
    && (forall w | 0 <= w < |s.workers| && s.workers[w].Holding? :: s.workers[w].job < s.next)
    && (forall w | 0 <= w < |s.workers| && s.workers[w].Exited? :: s.closed)
    && (forall v, w | 0 <= v < w < |s.workers| && s.workers[v].Holding? && s.workers[w].Holding? ::
          s.workers[v].job != s.workers[w].job)
    && (forall i | 0 <= i < |s.slots| ::
          && s.received[i] == (if i < s.next then 1 else 0)
          && s.written[i] == (if s.slots[i].Some? then 1 else 0)
          && (s.slots[i].Some? <==> i < s.next && !Held(s, i)))
  }

  lemma StepKeepsInv(s: State, step: Step)
    requires Inv(s) && Enabled(s, step)
    ensures Inv(Do(s, step))
  {
    var t := Do(s, step);
    forall i | 0 <= i < |s.slots| ensures t.slots[i].Some? <==> i < t.next && !Held(t, i) {
      if step.Close? {
        assert t.workers == s.workers;
        assert Held(t, i) <==> Held(s, i);
      } else {
        var w := step.w;
        assert forall v | 0 <= v < |s.workers| && v != w :: t.workers[v] == s.workers[v];
        if Held(s, i) {
          var v :| 0 <= v < |s.workers| && s.workers[v] == Holding(i);
          assert v != w ==> t.workers[v] == Holding(i);
        }
        if Held(t, i) {
          var v :| 0 <= v < |t.workers| && t.workers[v] == Holding(i);
          assert v != w ==> s.workers[v] == Holding(i);
        }
        if step.Send? && i == s.next {
          assert t.workers[w] == Holding(i);
        }
        if step.Finish? && i == s.workers[w].job {
          assert s.workers[w] == Holding(i);
        }
      }
    }
  }

  lemma {:induction false} ReachableInv(requests: nat, concurrency: nat, steps: seq<Step>)
    requires Run(Initial(requests, concurrency), steps).Some?
    ensures var s := Run(Initial(requests, concurrency), steps).value;
            Inv(s) && |s.slots| == requests && |s.workers| == concurrency
  {
    if steps == [] {
      assert forall i | 0 <= i < requests :: !Held(Initial(requests, concurrency), i);
    } else {
      ReachableInv(requests, concurrency, steps[..|steps| - 1]);
      StepKeepsInv(Run(Initial(requests, concurrency), steps[..|steps| - 1]).value, steps[|steps| - 1]);
    }
  }

  /** Under every schedule each index is taken at most once and no slot is written twice. */
  lemma AtMostOnce(requests: nat, concurrency: nat, steps: seq<Step>, i: nat)
    requires Run(Initial(requests, concurrency), steps).Some? && i < requests
    ensures var s := Run(Initial(requests, concurrency), steps).value;
            |s.received| == |s.written| == requests && s.written[i] <= s.received[i] <= 1
  {
    ReachableInv(requests, concurrency, steps);
  }

  /** When Wait returns every index was taken once, written once, and every slot is filled. */
  lemma FinishedIsComplete(requests: nat, concurrency: nat, steps: seq<Step>, i: nat)
    requires Run(Initial(requests, concurrency), steps).Some? && i < requests
    requires Finished(Run(Initial(requests, concurrency), steps).value)
    ensures var s := Run(Initial(requests, concurrency), steps).value;
            && |s.slots| == |s.received| == |s.written| == requests
            && s.slots[i].Some? && s.received[i] == 1 && s.written[i] == 1
  {
    ReachableInv(requests, concurrency, steps);
    assert !Held(Run(Initial(requests, concurrency), steps).value, i);
  }

  /** With at least one worker nobody ever waits for ever: until Wait can return some step is possible. */
  lemma NoDeadlock(requests: nat, concurrency: nat, steps: seq<Step>) returns (step: Step)
    requires concurrency >= 1 && Run(Initial(requests, concurrency), steps).Some?
    requires !Finished(Run(Initial(requests, concurrency), steps).value)
    ensures Enabled(Run(Initial(requests, concurrency), steps).value, step)
  {
    ReachableInv(requests, concurrency, steps);
    var s := Run(Initial(requests, concurrency), steps).value;
    if w :| 0 <= w < |s.workers| && s.workers[w].Holding? {
      step := Finish(w, Failed);
    } else if s.closed {
      var w :| 0 <= w < |s.workers| && !s.workers[w].Exited?;
      step := Exit(w);
    } else if s.next == |s.slots| {
      step := Close;
    } else {
      assert !s.workers[0].Exited? && !s.workers[0].Holding?;
      step := Send(0);
    }
  }

  // ----- the schedule does not show in the report -----

  /** Request i comes out as outcome(i), whichever worker sends it and whenever. */
  predicate Answers(s: State, steps: seq<Step>, outcome: nat -> Sample)
    requires Run(s, steps).Some?
  {
    steps != [] ==>
      var n := |steps| - 1;
      && Answers(s, steps[..n], outcome)
      && (steps[n].Finish? ==> steps[n].sample == outcome(Run(s, steps[..n]).value.workers[steps[n].w].job))
  }

  lemma {:induction false} SlotsHoldOutcomes(requests: nat, concurrency: nat, steps: seq<Step>, outcome: nat -> Sample,
                                             i: nat)
    requires Run(Initial(requests, concurrency), steps).Some? && i < requests
    requires Answers(Initial(requests, concurrency), steps, outcome)
    ensures var s := Run(Initial(requests, concurrency), steps).value;
            |s.slots| == requests && (s.slots[i].Some? ==> s.slots[i].value == outcome(i))
  {
    ReachableInv(requests, concurrency, steps);
    if steps != [] {
      ReachableInv(requests, concurrency, steps[..|steps| - 1]);
      SlotsHoldOutcomes(requests, concurrency, steps[..|steps| - 1], outcome, i);
    }
  }

  /** The list the aggregation loop reads. */
  function Samples(s: State): seq<Sample>
    requires forall i | 0 <= i < |s.slots| :: s.slots[i].Some?
  {
    seq(|s.slots|, i requires 0 <= i < |s.slots| => s.slots[i].value)
  }

  /** Any two schedules, with any numbers of workers, hand the aggregation the same samples. */
  lemma ScheduleIsInvisible(requests: nat, concurrency: nat, concurrency': nat, steps: seq<Step>, steps': seq<Step>,
                            outcome: nat -> Sample)
    requires Run(Initial(requests, concurrency), steps).Some?
    requires Run(Initial(requests, concurrency'), steps').Some?
    requires Finished(Run(Initial(requests, concurrency), steps).value)
    requires Finished(Run(Initial(requests, concurrency'), steps').value)
    requires Answers(Initial(requests, concurrency), steps, outcome)
    requires Answers(Initial(requests, concurrency'), steps', outcome)
    ensures var s, t := Run(Initial(requests, concurrency), steps).value, Run(Initial(requests, concurrency'), steps').value;
            && (forall i | 0 <= i < |s.slots| :: s.slots[i].Some?)
            && (forall i | 0 <= i < |t.slots| :: t.slots[i].Some?)
            && Samples(s) == Samples(t) && |Samples(s)| == requests
  {
    var s, t := Run(Initial(requests, concurrency), steps).value, Run(Initial(requests, concurrency'), steps').value;
    ReachableInv(requests, concurrency, steps);
    ReachableInv(requests, concurrency', steps');
    forall i | 0 <= i < requests ensures s.slots[i] == Some(outcome(i)) && t.slots[i] == Some(outcome(i)) {
      FinishedIsComplete(requests, concurrency, steps, i);
      FinishedIsComplete(requests, concurrency', steps', i);
      SlotsHoldOutcomes(requests, concurrency, steps, outcome, i);
      SlotsHoldOutcomes(requests, concurrency', steps', outcome, i);
    }
  }

  // ----- termination -----

  /** What a worker still has to do before it exits. */
  function Remaining(w: Worker): nat {
    match w
    case Idle => 1
    case Holding(_) => 2
    case Exited => 0
  }

  function Work(workers: seq<Worker>): nat {
    if workers == [] then 0 else Work(workers[..|workers| - 1]) + Remaining(workers[|workers| - 1])
  }

  lemma {:induction false} WorkAfter(workers: seq<Worker>, w: nat, now: Worker)
    requires w < |workers|
    ensures Work(workers[w := now]) == Work(workers) - Remaining(workers[w]) + Remaining(now)
  {
    var n := |workers| - 1;
    if w < n {
      assert workers[w := now][..n] == workers[..n][w := now];
      WorkAfter(workers[..n], w, now);
    } else {
      assert workers[w := now][..n] == workers[..n];
    }
  }

  function Measure(s: State): int {
    2 * (|s.slots| - s.next) + (if s.closed then 0 else 1) + Work(s.workers)
  }

  lemma StepUsesOne(s: State, step: Step)
    requires Inv(s) && Enabled(s, step)
    ensures Measure(Do(s, step)) == Measure(s) - 1
  {
    match step
    case Send(w) => WorkAfter(s.workers, w, Holding(s.next));
    case Finish(w, _) => WorkAfter(s.workers, w, Idle);
    case Exit(w) => WorkAfter(s.workers, w, Exited);
    case Close =>
  }

  lemma {:induction false} AllIdle(n: nat)
    ensures Work(seq(n, _ => Idle)) == n
  {
    if n > 0 {
      assert seq(n, _ => Idle)[..n - 1] == seq(n - 1, _ => Idle);
      AllIdle(n - 1);
    }
  }

  lemma {:induction false} AllExited(workers: seq<Worker>)
    requires forall w | 0 <= w < |workers| :: workers[w].Exited?
    ensures Work(workers) == 0
  {
    if workers != [] {
      AllExited(workers[..|workers| - 1]);
    }
  }

  /** Every schedule takes exactly two steps per request, one close and one exit per worker. */
  lemma {:induction false} EveryScheduleEnds(requests: nat, concurrency: nat, steps: seq<Step>)
    requires Run(Initial(requests, concurrency), steps).Some?
    ensures Measure(Run(Initial(requests, concurrency), steps).value) == 2 * requests + 1 + concurrency - |steps|
    ensures |steps| <= 2 * requests + 1 + concurrency
    ensures Finished(Run(Initial(requests, concurrency), steps).value) ==>
              |steps| == 2 * requests + 1 + concurrency
  {
    ReachableInv(requests, concurrency, steps);
    if steps == [] {
      AllIdle(concurrency);
    } else {
      var n := |steps| - 1;
      EveryScheduleEnds(requests, concurrency, steps[..n]);
      ReachableInv(requests, concurrency, steps[..n]);
      StepUsesOne(Run(Initial(requests, concurrency), steps[..n]).value, steps[n]);
    }
    var s := Run(Initial(requests, concurrency), steps).value;
    if Finished(s) {
      AllExited(s.workers);
    }
  }
}
