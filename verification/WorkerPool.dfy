/**
 * Calls over a list with bounded concurrency (src/ptv/http.ts:37-65). The workers
 * share the counter `next` and the results; between two awaits a worker runs
 * alone, so one step is one stretch of a worker up to its next await, and any
 * worker that has not ended may take the next step.
 */
module WorkerPool {
  import opened Wrappers

  /** What a call settles with. */
  datatype Outcome<+R> = Value(value: R) | Failure

  datatype Worker =
    | Ready                  // about to look at the counter
    | Waiting(index: nat)    // its call for this item is in flight
    | Ended                  // found nothing left
    | Failed(index: nat)     // its call was rejected

  datatype Event = Call(index: nat) | Settle(index: nat)

  /** The shared variables, the workers, and the calls made and settled so far. */
  datatype Pool<+R> = Pool(next: nat, results: seq<Option<R>>, workers: seq<Worker>, log: seq<Event>)

  function Min(a: int, b: int): int { if a <= b then a else b }

  function Max(a: int, b: int): int { if a >= b then a else b }

  function WorkerCount(concurrency: int, items: nat): nat {
    Max(0, Min(concurrency, items))
  }

  function Start<R>(items: nat, concurrency: int): Pool<R> {
    Pool(0, seq(items, i => None), seq(WorkerCount(concurrency, items), i => Ready), [])
  }

  predicate Enabled<R>(s: Pool<R>, w: nat) {
    w < |s.workers| && (s.workers[w].Ready? || s.workers[w].Waiting?)
  }

  function Step<T, R>(items: seq<T>, fn: T -> Outcome<R>, s: Pool<R>, w: nat): Pool<R>
    requires Enabled(s, w)
  {
    match s.workers[w]
    case Ready =>
      if s.next < |items| then
        s.(next := s.next + 1, workers := s.workers[w := Waiting(s.next)], log := s.log + [Call(s.next)])
      else s.(workers := s.workers[w := Ended])
    case Waiting(i) =>
      if i < |items| && i < |s.results| then Settled(fn(items[i]), s, w, i)
      else s // never: see Inv
    case _ => s
  }

  /** The awaited call settles; a rejection ends the worker. */
  function Settled<R>(outcome: Outcome<R>, s: Pool<R>, w: nat, i: nat): Pool<R>
    requires w < |s.workers| && i < |s.results|
  {
    var settled := s.(log := s.log + [Settle(i)]);
    match outcome
    case Value(v) => settled.(results := s.results[i := Some(v)], workers := s.workers[w := Ready])
    case Failure => settled.(workers := s.workers[w := Failed(i)])
  }

  // ----- What every step keeps -----

  function Calls(log: seq<Event>): seq<nat> {
    if log == [] then []
    else
      var last := log[|log| - 1];
      Calls(log[..|log| - 1]) + if last.Call? then [last.index] else []
  }

  function InFlight(log: seq<Event>): int {
    if log == [] then 0
    else InFlight(log[..|log| - 1]) + if log[|log| - 1].Call? then 1 else -1
  }

  function CountWaiting(workers: seq<Worker>): (n: nat)
    ensures n <= |workers|
  {
    if workers == [] then 0
    else CountWaiting(workers[1..]) + if workers[0].Waiting? then 1 else 0
  }

  ghost predicate Holds(s: Pool, i: nat) {
    exists w :: 0 <= w < |s.workers| && (s.workers[w] == Waiting(i) || s.workers[w] == Failed(i))
  }

  ghost predicate ItemOk<T, R>(items: seq<T>, fn: T -> Outcome<R>, s: Pool<R>, i: nat)
    requires i < |items| == |s.results|
  {
    if i >= s.next then s.results[i].None?
    else if s.results[i].None? then Holds(s, i)
    else fn(items[i]) == Value(s.results[i].value)
  }

  ghost predicate WorkerOk<T, R>(items: seq<T>, fn: T -> Outcome<R>, s: Pool<R>, w: nat)
    requires w < |s.workers| && |items| == |s.results|
  {
    match s.workers[w]
    case Ready => true
    case Waiting(i) => i < s.next && i < |items| && s.results[i].None?
    case Ended => s.next == |items|
    case Failed(i) => i < |items| && fn(items[i]) == Failure && s.results[i].None?
  }

  ghost predicate Inv<T(!new), R(!new)>(items: seq<T>, fn: T -> Outcome<R>, s: Pool<R>) {
    && s.next <= |items| == |s.results|
    && (forall w :: 0 <= w < |s.workers| ==> WorkerOk(items, fn, s, w))
    && (forall i :: 0 <= i < |items| ==> ItemOk(items, fn, s, i))
    && (forall v, w :: 0 <= v < w < |s.workers| && s.workers[v].Waiting? && s.workers[w].Waiting? ==>
                         s.workers[v].index != s.workers[w].index)
  }

  ghost predicate LogOk(s: Pool) {
    && Calls(s.log) == seq(s.next, i => i)
    && InFlight(s.log) == CountWaiting(s.workers)
  }

  lemma StartOk<T(!new), R(!new)>(items: seq<T>, fn: T -> Outcome<R>, concurrency: int)
    ensures Inv(items, fn, Start(|items|, concurrency)) && LogOk(Start<R>(|items|, concurrency))
  {
    NoneWaiting(Start<R>(|items|, concurrency).workers);
  }

  lemma {:induction false} NoneWaiting(workers: seq<Worker>)
    requires forall w :: 0 <= w < |workers| ==> !workers[w].Waiting?
    ensures CountWaiting(workers) == 0
  {
    if workers != [] {
      NoneWaiting(workers[1..]);
    }
  }

  lemma {:induction false} CountChanged(workers: seq<Worker>, w: nat, worker: Worker)
    requires w < |workers|
    ensures CountWaiting(workers[w := worker]) ==
            CountWaiting(workers) + (if worker.Waiting? then 1 else 0) - (if workers[w].Waiting? then 1 else 0)
  {
    if w == 0 {
      assert workers[w := worker][1..] == workers[1..];
    } else {
      CountChanged(workers[1..], w - 1, worker);
      assert workers[w := worker][1..] == workers[1..][w - 1 := worker];
    }
  }

  lemma LogAppended(log: seq<Event>, e: Event)
    ensures Calls(log + [e]) == Calls(log) + if e.Call? then [e.index] else []
    ensures InFlight(log + [e]) == InFlight(log) + if e.Call? then 1 else -1
  {
    assert (log + [e])[..|log|] == log;
  }

  lemma StepKeepsLog<T(!new), R(!new)>(items: seq<T>, fn: T -> Outcome<R>, s: Pool<R>, w: nat)
    requires Inv(items, fn, s) && LogOk(s) && Enabled(s, w)
    ensures WorkerOk(items, fn, s, w) && LogOk(Step(items, fn, s, w))
  {
    hide Calls, InFlight, CountWaiting, ItemOk;
    assert WorkerOk(items, fn, s, w);
    match s.workers[w]
    case Ready =>
      LogAppended(s.log, Call(s.next));
      CountChanged(s.workers, w, Waiting(s.next));
      CountChanged(s.workers, w, Ended);
    case Waiting(i) =>
      LogAppended(s.log, Settle(i));
      CountChanged(s.workers, w, Ready);
      CountChanged(s.workers, w, Failed(i));
    case _ =>
  }

  lemma StepKeepsWorkers<T(!new), R(!new)>(items: seq<T>, fn: T -> Outcome<R>, s: Pool<R>, w: nat)
    requires Inv(items, fn, s) && Enabled(s, w) && WorkerOk(items, fn, s, w)
    ensures var t := Step(items, fn, s, w);
            && t.next <= |items| == |t.results| && |t.workers| == |s.workers|
            && (forall v :: 0 <= v < |t.workers| ==> WorkerOk(items, fn, t, v))
  {
    hide Holds;
    var t := Step(items, fn, s, w);
    forall v | 0 <= v < |t.workers|
      ensures WorkerOk(items, fn, t, v)
    {
      assert WorkerOk(items, fn, s, v);
      if s.workers[w] == Ready && s.next < |items| {
        assert ItemOk(items, fn, s, s.next);
      }
      if s.workers[w].Waiting? && v != w {
        assert s.workers[v].Waiting? ==> s.workers[v].index != s.workers[w].index;
      }
    }
  }

  lemma StepKeepsItems<T(!new), R(!new)>(items: seq<T>, fn: T -> Outcome<R>, s: Pool<R>, w: nat, i: nat)
    requires Inv(items, fn, s) && Enabled(s, w) && WorkerOk(items, fn, s, w) && i < |items|
    ensures ItemOk(items, fn, Step(items, fn, s, w), i)
  {
    var t := Step(items, fn, s, w);
    assert ItemOk(items, fn, s, i);
    if i < s.next && s.results[i].None? {
      var v :| 0 <= v < |s.workers| && (s.workers[v] == Waiting(i) || s.workers[v] == Failed(i));
      assert v != w ==> t.workers[v] == s.workers[v];
      assert t.workers[w] == t.workers[w];
    } else if i == s.next {
      assert s.workers[w] == Ready ==> t.workers[w] == Waiting(i);
    }
  }

  lemma StepKeepsInv<T(!new), R(!new)>(items: seq<T>, fn: T -> Outcome<R>, s: Pool<R>, w: nat)
    requires Inv(items, fn, s) && LogOk(s) && Enabled(s, w)
    ensures WorkerOk(items, fn, s, w)
    ensures Inv(items, fn, Step(items, fn, s, w)) && LogOk(Step(items, fn, s, w))
  {
    StepKeepsLog(items, fn, s, w);
    StepKeepsWorkers(items, fn, s, w);
    hide ItemOk, LogOk;
    forall i | 0 <= i < |items|
      ensures ItemOk(items, fn, Step(items, fn, s, w), i)
    {
      StepKeepsItems(items, fn, s, w, i);
    }
    forall v | 0 <= v < |s.workers|
      ensures s.workers[v].Waiting? ==> s.workers[v].index < s.next
    {
      assert WorkerOk(items, fn, s, v);
    }
  }

  // ----- Every schedule -----

  /** The workers of the schedule take their steps one after the other, none after it has ended. */
  ghost predicate Runs<T(!new), R(!new)>(items: seq<T>, fn: T -> Outcome<R>, s: Pool<R>, schedule: seq<nat>, t: Pool<R>)
    decreases |schedule|
  {
    if schedule == [] then s == t
    else Enabled(s, schedule[0]) && Runs(items, fn, Step(items, fn, s, schedule[0]), schedule[1..], t)
  }

  /** No worker can take another step: every promise has settled. */
  ghost predicate Over(s: Pool) {
    forall w :: 0 <= w < |s.workers| ==> !Enabled(s, w)
  }

  ghost predicate Rejected(s: Pool) {
    exists w :: 0 <= w < |s.workers| && s.workers[w].Failed?
  }

  function Weight(worker: Worker): nat {
    match worker case Ready => 1 case Waiting(_) => 2 case _ => 0
  }

  function WorkerWork(workers: seq<Worker>): nat {
    if workers == [] then 0 else Weight(workers[0]) + WorkerWork(workers[1..])
  }

  function Work<R>(items: nat, s: Pool<R>): int {
    2 * (items - s.next) + WorkerWork(s.workers)
  }

  lemma {:induction false} WorkChanged(workers: seq<Worker>, w: nat, worker: Worker)
    requires w < |workers|
    ensures WorkerWork(workers[w := worker]) == WorkerWork(workers) + Weight(worker) - Weight(workers[w])
  {
    if w == 0 {
      assert workers[w := worker][1..] == workers[1..];
    } else {
      WorkChanged(workers[1..], w - 1, worker);
      assert workers[w := worker][1..] == workers[1..][w - 1 := worker];
    }
  }

  lemma StepsUseUpWork<T(!new), R(!new)>(items: seq<T>, fn: T -> Outcome<R>, s: Pool<R>, w: nat)
    requires Inv(items, fn, s) && Enabled(s, w) && WorkerOk(items, fn, s, w)
    ensures 0 <= Work(|items|, Step(items, fn, s, w)) < Work(|items|, s)
  {
    hide WorkerWork, ItemOk;
    var t := Step(items, fn, s, w);
    WorkChanged(s.workers, w, t.workers[w]);
    assert t.workers == s.workers[w := t.workers[w]];
  }

  lemma {:induction false} RunKeepsInv<T(!new), R(!new)>(items: seq<T>, fn: T -> Outcome<R>, s: Pool<R>, schedule: seq<nat>, t: Pool<R>)
    requires Inv(items, fn, s) && LogOk(s) && Runs(items, fn, s, schedule, t)
    ensures Inv(items, fn, t) && LogOk(t) && |t.workers| == |s.workers|
    ensures |schedule| <= Work(|items|, s)
    decreases |schedule|
  {
    hide LogOk, ItemOk, Work;
    if schedule == [] {
      assert Work(|items|, s) >= 0 by { WorkNotNegative(items, fn, s); }
    } else {
      StepKeepsInv(items, fn, s, schedule[0]);
      StepsUseUpWork(items, fn, s, schedule[0]);
      RunKeepsInv(items, fn, Step(items, fn, s, schedule[0]), schedule[1..], t);
    }
  }

  lemma WorkNotNegative<T(!new), R(!new)>(items: seq<T>, fn: T -> Outcome<R>, s: Pool<R>)
    requires Inv(items, fn, s)
    ensures Work(|items|, s) >= 0
  {
  }

  lemma {:induction false} AllReady(workers: seq<Worker>)
    requires forall w :: 0 <= w < |workers| ==> workers[w] == Ready
    ensures WorkerWork(workers) == |workers|
  {
    if workers != [] {
      AllReady(workers[1..]);
    }
  }

  lemma NoneHeld(s: Pool)
    requires Over(s) && !Rejected(s)
    ensures forall i :: !Holds(s, i)
  {
    forall w | 0 <= w < |s.workers|
      ensures s.workers[w].Ended?
    {
      assert !Enabled(s, w);
    }
  }

  /** With a worker, the pool rejects exactly when some item's call does. */
  lemma OverRejected<T(!new), R(!new)>(items: seq<T>, fn: T -> Outcome<R>, s: Pool<R>)
    requires Inv(items, fn, s) && Over(s) && |s.workers| >= 1
    ensures Rejected(s) <==> exists i :: 0 <= i < |items| && fn(items[i]) == Failure
  {
    if w :| 0 <= w < |s.workers| && s.workers[w].Failed? {
      assert WorkerOk(items, fn, s, w);
    } else {
      assert !Enabled(s, 0) && WorkerOk(items, fn, s, 0);
      NoneHeld(s);
      forall i | 0 <= i < |items|
        ensures fn(items[i]) != Failure
      {
        assert ItemOk(items, fn, s, i);
      }
    }
  }

  /** When nothing rejected, every place holds what its item's call gave. */
  lemma OverComplete<T(!new), R(!new)>(items: seq<T>, fn: T -> Outcome<R>, s: Pool<R>)
    requires Inv(items, fn, s) && Over(s) && |s.workers| >= 1 && !Rejected(s)
    ensures forall i :: 0 <= i < |items| ==> s.results[i].Some? && fn(items[i]) == Value(s.results[i].value)
  {
    assert !Enabled(s, 0) && WorkerOk(items, fn, s, 0);
    NoneHeld(s);
    forall i | 0 <= i < |items|
      ensures s.results[i].Some? && fn(items[i]) == Value(s.results[i].value)
    {
      assert ItemOk(items, fn, s, i);
    }
  }

  ghost predicate Maps<T(!new), R(!new)>(items: seq<T>, fn: T -> Outcome<R>, results: seq<Option<R>>) {
    |results| == |items|
    && forall i :: 0 <= i < |items| ==> results[i].Some? && fn(items[i]) == Value(results[i].value)
  }

  ghost predicate SomeFails<T(!new), R(!new)>(items: seq<T>, fn: T -> Outcome<R>) {
    exists i :: 0 <= i < |items| && fn(items[i]) == Failure
  }

  lemma OverResults<T(!new), R(!new)>(items: seq<T>, fn: T -> Outcome<R>, s: Pool<R>)
    requires Inv(items, fn, s) && Over(s) && |s.workers| >= 1
    ensures Rejected(s) <==> SomeFails(items, fn)
    ensures !Rejected(s) ==> Maps(items, fn, s.results)
  {
    hide Inv, Over, Rejected;
    OverRejected(items, fn, s);
    assert |s.results| == |items| by { SameLength(items, fn, s); }
    if !Rejected(s) { OverComplete(items, fn, s); }
  }

  lemma SameLength<T(!new), R(!new)>(items: seq<T>, fn: T -> Outcome<R>, s: Pool<R>)
    requires Inv(items, fn, s)
    ensures |s.results| == |items|
  {
  }

  lemma RunReachesInv<T(!new), R(!new)>(items: seq<T>, fn: T -> Outcome<R>, concurrency: int, schedule: seq<nat>, t: Pool<R>)
    requires Runs(items, fn, Start(|items|, concurrency), schedule, t)
    ensures Inv(items, fn, t) && LogOk(t) && |t.workers| == WorkerCount(concurrency, |items|)
    ensures |schedule| <= 2 * |items| + WorkerCount(concurrency, |items|)
  {
    hide LogOk, Inv, Runs, WorkerWork;
    StartOk(items, fn, concurrency);
    RunKeepsInv(items, fn, Start(|items|, concurrency), schedule, t);
    AllReady(Start<R>(|items|, concurrency).workers);
  }

  /**
   * Under every schedule and at every moment: the calls made so far are those of the
   * first items, in order and one each, at most `concurrency` are in flight, and no
   * schedule has more than two steps per item and one per worker.
   */
  lemma EveryMoment<T(!new), R(!new)>(items: seq<T>, fn: T -> Outcome<R>, concurrency: int, schedule: seq<nat>, t: Pool<R>)
    requires Runs(items, fn, Start(|items|, concurrency), schedule, t)
    ensures t.next <= |items| && Calls(t.log) == seq(t.next, i => i)
    ensures 0 <= InFlight(t.log) <= Max(0, concurrency)
    ensures |schedule| <= 2 * |items| + WorkerCount(concurrency, |items|)
  {
    hide Calls, InFlight, Inv, Runs;
    RunReachesInv(items, fn, concurrency, schedule, t);
    SameLength(items, fn, t);
    ClaimedWithin(items, fn, t);
  }

  lemma ClaimedWithin<T(!new), R(!new)>(items: seq<T>, fn: T -> Outcome<R>, s: Pool<R>)
    requires Inv(items, fn, s)
    ensures s.next <= |items|
  {
  }

  /** However the workers were scheduled, a pool that did not reject returns the mapped list exactly when it had a worker, or nothing to do. */
  lemma EveryScheduleMaps<T(!new), R(!new)>(items: seq<T>, fn: T -> Outcome<R>, concurrency: int, schedule: seq<nat>, t: Pool<R>)
    requires Runs(items, fn, Start(|items|, concurrency), schedule, t) && Over(t)
    ensures Rejected(t) <==> concurrency >= 1 && SomeFails(items, fn)
    ensures !Rejected(t) ==> (Maps(items, fn, t.results) <==> concurrency >= 1 || items == [])
  {
    hide LogOk, Inv, Runs, Over, Rejected, SomeFails, Maps, Start;
    RunReachesInv(items, fn, concurrency, schedule, t);
    if concurrency >= 1 && items != [] {
      OverResults(items, fn, t);
    } else if items != [] {
      NothingClaimed(items, fn, concurrency, schedule, t);
    } else {
      NothingToMap(items, fn, concurrency, schedule, t);
    }
  }

  lemma NothingToMap<T(!new), R(!new)>(items: seq<T>, fn: T -> Outcome<R>, concurrency: int, schedule: seq<nat>, t: Pool<R>)
    requires Runs(items, fn, Start(|items|, concurrency), schedule, t) && items == []
    ensures Maps(items, fn, t.results) && !Rejected(t) && !SomeFails(items, fn)
  {
    assert schedule == [] && t.results == [];
  }

  lemma NothingClaimed<T(!new), R(!new)>(items: seq<T>, fn: T -> Outcome<R>, concurrency: int, schedule: seq<nat>, t: Pool<R>)
    requires Runs(items, fn, Start(|items|, concurrency), schedule, t) && concurrency < 1 && items != []
    ensures !Maps(items, fn, t.results) && !Rejected(t)
  {
    assert schedule == [] && t.results[0].None?;
  }

  /** The function itself: `:|` stands for whichever worker the event loop runs next. */
  method MapWithConcurrency<T(!new), R(!new)>(items: seq<T>, concurrency: int, fn: T -> Outcome<R>)
    returns (results: seq<Option<R>>, rejected: bool)
    ensures |results| == |items|
    ensures rejected <==> concurrency >= 1 && SomeFails(items, fn)
    ensures !rejected ==> (Maps(items, fn, results) <==> concurrency >= 1 || items == [])
  {
    hide Inv, LogOk, Rejected, Work, WorkerWork, SomeFails, Holds, Maps;
    var next: nat := 0;
    results := seq(|items|, i => None);
    var workers := seq(WorkerCount(concurrency, |items|), i => Ready);
    rejected := false;
    ghost var s := Start<R>(|items|, concurrency);
    StartOk(items, fn, concurrency);
    assert !Rejected(s) by { NobodyFailed(s); }
    while exists w :: 0 <= w < |workers| && (workers[w].Ready? || workers[w].Waiting?)
      invariant s.next == next && s.results == results && s.workers == workers
      invariant |workers| == WorkerCount(concurrency, |items|)
      invariant Inv(items, fn, s) && LogOk(s) && |results| == |items|
      invariant rejected <==> Rejected(s)
      invariant workers == [] ==> s == Start(|items|, concurrency)
      decreases Work(|items|, s)
    {
      var w :| 0 <= w < |workers| && (workers[w].Ready? || workers[w].Waiting?);
      StepKeepsInv(items, fn, s, w);
      StepRejects(items, fn, s, w);
      StepsUseUpWork(items, fn, s, w);
      s := Step(items, fn, s, w);
      match workers[w] {
        case Ready =>
          if next < |items| {
            workers := workers[w := Waiting(next)];
            next := next + 1;
          } else {
            workers := workers[w := Ended];
          }
        case Waiting(i) =>
          match fn(items[i]) {
            case Value(v) =>
              results := results[i := Some(v)];
              workers := workers[w := Ready];
            case Failure =>
              rejected := true;
              workers := workers[w := Failed(i)];
          }
      }
    }
    assert Over(s);
    if concurrency >= 1 && items != [] {
      OverResults(items, fn, s);
    } else if items != [] {
      NothingClaimed(items, fn, concurrency, [], s);
    } else {
      NothingToMap(items, fn, concurrency, [], s);
    }
  }

  lemma NobodyFailed(s: Pool)
    requires forall w :: 0 <= w < |s.workers| ==> s.workers[w] == Ready
    ensures !Rejected(s)
  {
  }

  lemma StepRejects<T(!new), R(!new)>(items: seq<T>, fn: T -> Outcome<R>, s: Pool<R>, w: nat)
    requires Inv(items, fn, s) && Enabled(s, w) && WorkerOk(items, fn, s, w)
    ensures Rejected(Step(items, fn, s, w)) <==> Rejected(s) || (s.workers[w].Waiting? && fn(items[s.workers[w].index]) == Failure)
  {
    var t := Step(items, fn, s, w);
    if v :| 0 <= v < |s.workers| && s.workers[v].Failed? {
      assert t.workers[v] == s.workers[v];
    }
    if s.workers[w].Waiting? && fn(items[s.workers[w].index]) == Failure {
      assert t.workers[w].Failed?;
    }
  }

  // ----- Batches -----

  function Flatten<T>(batches: seq<seq<T>>): seq<T> {
    if batches == [] then [] else Flatten(batches[..|batches| - 1]) + batches[|batches| - 1]
  }

  /** Batches in order that together are the items; all but the last are full and the last is not empty. */
  method Chunk<T>(items: seq<T>, size: nat) returns (batches: seq<seq<T>>)
    requires size >= 1
    ensures Flatten(batches) == items
    ensures forall k :: 0 <= k < |batches| ==> 1 <= |batches[k]| <= size
    ensures forall k :: 0 <= k < |batches| - 1 ==> |batches[k]| == size
  {
    batches := [];
    var i := 0;
    while i < |items|
      invariant 0 <= i
      invariant Flatten(batches) == items[..Min(i, |items|)]
      invariant forall k :: 0 <= k < |batches| ==> 1 <= |batches[k]| <= size
      invariant i <= |items| ==> forall k :: 0 <= k < |batches| ==> |batches[k]| == size
      invariant forall k :: 0 <= k < |batches| - 1 ==> |batches[k]| == size
    {
      var batch := items[i..Min(i + size, |items|)];
      assert (batches + [batch])[..|batches|] == batches;
      assert items[..i] + batch == items[..Min(i + size, |items|)];
      batches := batches + [batch];
      i := i + size;
    }
    assert items[..|items|] == items;
  }
}
