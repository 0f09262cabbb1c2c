/**
 * The fixed-window request limiter (src/oidc/rateLimit.ts:6-33). The clock is a
 * parameter of each call; its readings never go back.
 */
module RateLimit {
  datatype Entry = Entry(windowStart: int, count: nat)

  type Hits = map<string, Entry>

  const PRUNE_ABOVE := 10_000

  /** What allow does to the entries and answers, pruning aside. */
  function Hit(limit: int, windowMs: int, hits: Hits, key: string, now: int): (r: (Hits, bool)) {
    if key !in hits || now - hits[key].windowStart >= windowMs then
      (hits[key := Entry(now, 1)], true)
    else
      var count := hits[key].count + 1;
      (hits[key := hits[key].(count := count)], count <= limit)
  }

  /** The entries whose window is still open. */
  function Open(windowMs: int, hits: Hits, now: int): Hits {
    map key | key in hits && now - hits[key].windowStart < windowMs :: hits[key]
  }

  function Allowed(limit: int, windowMs: int, hits: Hits, key: string, now: int): (Hits, bool) {
    Hit(limit, windowMs, if |hits| > PRUNE_ABOVE then Open(windowMs, hits, now) else hits, key, now)
  }

  class FixedWindowRateLimiter {
    const limit: int
    const windowMs: int
    var hits: Hits

    constructor (limit: int, windowMs: int)
      ensures this.limit == limit && this.windowMs == windowMs && hits == map[]
    {
      this.limit, this.windowMs, this.hits := limit, windowMs, map[];
    }

    method Allow(key: string, now: int) returns (ok: bool)
      modifies this
      ensures (hits, ok) == Allowed(limit, windowMs, old(hits), key, now)
    {
      if |hits| > PRUNE_ABOVE {
        Prune(now);
      }
      if key !in hits || now - hits[key].windowStart >= windowMs {
        hits := hits[key := Entry(now, 1)];
        return true;
      }
      hits := hits[key := hits[key].(count := hits[key].count + 1)];
      ok := hits[key].count <= limit;
    }

    method Prune(now: int)
      modifies this
      ensures hits == Open(windowMs, old(hits), now)
    {
      var left := hits.Keys;
      while left != {}
        invariant left <= hits.Keys <= old(hits).Keys
        invariant forall key :: key in hits ==> hits[key] == old(hits)[key]
        invariant forall key :: key in old(hits) && key !in left ==>
                    (key in hits <==> now - old(hits)[key].windowStart < windowMs)
        decreases |left|
      {
        var key :| key in left;
        left := left - {key};
        if now - hits[key].windowStart >= windowMs {
          hits := hits - {key};
        }
      }
    }
  }

  // ----- Whole runs -----

  datatype Request = Request(key: string, time: int)

  predicate Chronological(requests: seq<Request>) {
    forall i, j :: 0 <= i < j < |requests| ==> requests[i].time <= requests[j].time
  }

  /** The answers of a limiter that starts with these entries. */
  function Answers(limit: int, windowMs: int, hits: Hits, requests: seq<Request>): (answers: seq<bool>)
    ensures |answers| == |requests|
    decreases |requests|
  {
    if requests == [] then []
    else
      var (next, ok) := Allowed(limit, windowMs, hits, requests[0].key, requests[0].time);
      [ok] + Answers(limit, windowMs, next, requests[1..])
  }

  /** The answers of a limiter that never prunes. */
  function PlainAnswers(limit: int, windowMs: int, hits: Hits, requests: seq<Request>): (answers: seq<bool>)
    ensures |answers| == |requests|
    decreases |requests|
  {
    if requests == [] then []
    else
      var (next, ok) := Hit(limit, windowMs, hits, requests[0].key, requests[0].time);
      [ok] + PlainAnswers(limit, windowMs, next, requests[1..])
  }

  /** The entries agree, except that some closed windows are missing. */
  ghost predicate SameOpen(windowMs: int, pruned: Hits, plain: Hits, now: int) {
    && (forall key :: key in pruned ==> key in plain && pruned[key] == plain[key])
    && (forall key :: key in plain && key !in pruned ==> now - plain[key].windowStart >= windowMs)
  }

  lemma HitSame(limit: int, windowMs: int, pruned: Hits, plain: Hits, key: string, now: int)
    requires SameOpen(windowMs, pruned, plain, now)
    ensures Hit(limit, windowMs, pruned, key, now).1 == Hit(limit, windowMs, plain, key, now).1
    ensures SameOpen(windowMs, Hit(limit, windowMs, pruned, key, now).0, Hit(limit, windowMs, plain, key, now).0, now)
  {
  }

  lemma PruneSame(limit: int, windowMs: int, pruned: Hits, plain: Hits, now: int)
    requires SameOpen(windowMs, pruned, plain, now)
    ensures SameOpen(windowMs, Open(windowMs, pruned, now), plain, now)
  {
  }

  lemma {:induction false} SameAnswers(limit: int, windowMs: int, pruned: Hits, plain: Hits, requests: seq<Request>, now: int)
    requires SameOpen(windowMs, pruned, plain, now) && Chronological(requests)
    requires requests != [] ==> now <= requests[0].time
    ensures Answers(limit, windowMs, pruned, requests) == PlainAnswers(limit, windowMs, plain, requests)
    decreases |requests|
  {
    hide Hit, Open;
    if requests != [] {
      var r := requests[0];
      assert SameOpen(windowMs, pruned, plain, r.time);
      PruneSame(limit, windowMs, pruned, plain, r.time);
      var kept := if |pruned| > PRUNE_ABOVE then Open(windowMs, pruned, r.time) else pruned;
      HitSame(limit, windowMs, kept, plain, r.key, r.time);
      SameAnswers(limit, windowMs, Hit(limit, windowMs, kept, r.key, r.time).0,
                  Hit(limit, windowMs, plain, r.key, r.time).0, requests[1..], r.time);
    }
  }

  /** Pruning cannot be told from the answers. */
  lemma PruningUnobservable(limit: int, windowMs: int, requests: seq<Request>)
    requires Chronological(requests)
    ensures Answers(limit, windowMs, map[], requests) == PlainAnswers(limit, windowMs, map[], requests)
  {
    if requests != [] {
      SameAnswers(limit, windowMs, map[], map[], requests, requests[0].time);
    }
  }

  // ----- How many requests pass in one window's length -----

  /** How many of a key's requests in [from, from + windowMs) were let through. */
  function Accepted(windowMs: int, requests: seq<Request>, answers: seq<bool>, key: string, from: int): nat
    requires |answers| == |requests|
  {
    if requests == [] then 0
    else
      (if requests[0].key == key && from <= requests[0].time < from + windowMs && answers[0] then 1 else 0)
      + Accepted(windowMs, requests[1..], answers[1..], key, from)
  }

  function Passed(limit: int, windowMs: int, hits: Hits, requests: seq<Request>, key: string, from: int): nat {
    Accepted(windowMs, requests, PlainAnswers(limit, windowMs, hits, requests), key, from)
  }

  function Max(a: int, b: int): int { if a >= b then a else b }

  /** The requests a window may still let through; at least its first request passes. */
  function Left(limit: int, entry: Entry): nat {
    Max(0, Max(1, limit) - entry.count)
  }

  lemma PassedFirst(limit: int, windowMs: int, hits: Hits, requests: seq<Request>, key: string, from: int)
    requires requests != []
    ensures var (next, ok) := Hit(limit, windowMs, hits, requests[0].key, requests[0].time);
            Passed(limit, windowMs, hits, requests, key, from) ==
            (if requests[0].key == key && from <= requests[0].time < from + windowMs && ok then 1 else 0)
            + Passed(limit, windowMs, next, requests[1..], key, from)
  {
    hide Hit;
    var (next, ok) := Hit(limit, windowMs, hits, requests[0].key, requests[0].time);
    assert PlainAnswers(limit, windowMs, hits, requests)[1..] == PlainAnswers(limit, windowMs, next, requests[1..]);
  }

  /** Once a window has started in the interval, no other can. */
  lemma {:induction false} PassedInWindow(limit: int, windowMs: int, hits: Hits, requests: seq<Request>, key: string, from: int)
    requires Chronological(requests) && key in hits && hits[key].count >= 1
    requires from <= hits[key].windowStart
    ensures Passed(limit, windowMs, hits, requests, key, from) <= Left(limit, hits[key])
    decreases |requests|
  {
    hide Passed;
    if requests == [] {
      assert Passed(limit, windowMs, hits, requests, key, from) == 0 by { NonePassed(limit, windowMs, hits, requests, key, from); }
    } else {
      PassedFirst(limit, windowMs, hits, requests, key, from);
      var next := Hit(limit, windowMs, hits, requests[0].key, requests[0].time).0;
      if requests[0].key == key && requests[0].time - hits[key].windowStart >= windowMs {
        NonePassed(limit, windowMs, next, requests[1..], key, from);
      } else {
        PassedInWindow(limit, windowMs, next, requests[1..], key, from);
      }
    }
  }

  lemma {:induction false} NonePassed(limit: int, windowMs: int, hits: Hits, requests: seq<Request>, key: string, from: int)
    requires forall i :: 0 <= i < |requests| ==> requests[i].time >= from + windowMs
    ensures Passed(limit, windowMs, hits, requests, key, from) == 0
    decreases |requests|
  {
    if requests != [] {
      PassedFirst(limit, windowMs, hits, requests, key, from);
      NonePassed(limit, windowMs, Hit(limit, windowMs, hits, requests[0].key, requests[0].time).0, requests[1..], key, from);
    }
  }

  /** From the start of the interval on: what the open window has left, and one full window. */
  lemma {:induction false} PassedFrom(limit: int, windowMs: int, hits: Hits, requests: seq<Request>, key: string, from: int)
    requires Chronological(requests) && (key in hits ==> hits[key].count >= 1)
    requires forall i :: 0 <= i < |requests| ==> requests[i].time >= from
    ensures Passed(limit, windowMs, hits, requests, key, from) <=
            (if key in hits then Left(limit, hits[key]) else 0) + Max(1, limit)
    decreases |requests|
  {
    hide Passed;
    if requests == [] {
      NonePassed(limit, windowMs, hits, requests, key, from);
    } else {
      PassedFirst(limit, windowMs, hits, requests, key, from);
      var next := Hit(limit, windowMs, hits, requests[0].key, requests[0].time).0;
      if requests[0].key == key && next[key].windowStart == requests[0].time && next[key].count == 1 {
        PassedInWindow(limit, windowMs, next, requests[1..], key, from);
      } else {
        PassedFrom(limit, windowMs, next, requests[1..], key, from);
      }
    }
  }

  lemma {:induction false} PassedAnywhere(limit: int, windowMs: int, hits: Hits, requests: seq<Request>, key: string, from: int)
    requires Chronological(requests) && (key in hits ==> hits[key].count >= 1)
    ensures Passed(limit, windowMs, hits, requests, key, from) <= 2 * Max(1, limit) - 1
    decreases |requests|
  {
    hide Passed;
    if requests == [] || requests[0].time >= from {
      PassedFrom(limit, windowMs, hits, requests, key, from);
    } else {
      PassedFirst(limit, windowMs, hits, requests, key, from);
      PassedAnywhere(limit, windowMs, Hit(limit, windowMs, hits, requests[0].key, requests[0].time).0, requests[1..], key, from);
    }
  }

  /** Any interval one window long lets through fewer than twice the limit of a key's requests. */
  lemma FewerThanTwiceTheLimit(limit: int, windowMs: int, requests: seq<Request>, key: string, from: int)
    requires Chronological(requests)
    ensures Accepted(windowMs, requests, Answers(limit, windowMs, map[], requests), key, from) <= 2 * Max(1, limit) - 1
  {
    PruningUnobservable(limit, windowMs, requests);
    PassedAnywhere(limit, windowMs, map[], requests, key, from);
  }

  // ----- The bound is reached -----

  function Burst(key: string, time: int, n: nat): (r: seq<Request>)
    ensures |r| == n && forall i :: 0 <= i < n ==> r[i] == Request(key, time)
  {
    seq(n, i => Request(key, time))
  }

  /** Requests at one moment of an open window pass up to the limit; the rest of the run goes on from there. */
  lemma {:induction false} BurstPasses(limit: int, windowMs: int, hits: Hits, key: string, time: int, n: nat, rest: seq<Request>, from: int)
    requires key in hits && time - hits[key].windowStart < windowMs && from <= time < from + windowMs
    requires hits[key].count + n <= limit
    ensures Passed(limit, windowMs, hits, Burst(key, time, n) + rest, key, from) ==
            n + Passed(limit, windowMs, hits[key := Entry(hits[key].windowStart, hits[key].count + n)], rest, key, from)
    decreases n
  {
    hide Passed;
    if n == 0 {
      assert Burst(key, time, n) + rest == rest;
      assert hits[key := Entry(hits[key].windowStart, hits[key].count + n)] == hits;
    } else {
      var requests := Burst(key, time, n) + rest;
      PassedFirst(limit, windowMs, hits, requests, key, from);
      assert requests[1..] == Burst(key, time, n - 1) + rest;
      var next := hits[key := Entry(hits[key].windowStart, hits[key].count + 1)];
      BurstPasses(limit, windowMs, next, key, time, n - 1, rest, from);
      assert next[key := Entry(hits[key].windowStart, hits[key].count + n)]
             == hits[key := Entry(hits[key].windowStart, hits[key].count + n)];
    }
  }

  /** A request that opens a window, the rest of the limit at its very end, and the limit in the next window. */
  function Straddle(limit: nat, windowMs: nat, key: string): seq<Request>
    requires limit >= 1 && windowMs >= 2
  {
    [Request(key, 0)] + (Burst(key, windowMs - 1, limit - 1) + ([Request(key, windowMs)] + Burst(key, windowMs, limit - 1)))
  }

  lemma TwiceTheLimitLessOneHappens(limit: nat, windowMs: nat, key: string)
    requires limit >= 1 && windowMs >= 2
    ensures var requests := Straddle(limit, windowMs, key);
            Chronological(requests)
            && Accepted(windowMs, requests, Answers(limit, windowMs, map[], requests), key, windowMs - 1) == 2 * limit - 1
  {
    var requests := Straddle(limit, windowMs, key);
    var from := windowMs - 1;
    PruningUnobservable(limit, windowMs, requests);
    hide Passed, Answers, PlainAnswers, Accepted;
    var last := [Request(key, windowMs)] + Burst(key, windowMs, limit - 1);
    var first: Hits := map[key := Entry(0, 1)];
    PassedFirst(limit, windowMs, map[], requests, key, from);
    assert requests[1..] == Burst(key, windowMs - 1, limit - 1) + last;
    BurstPasses(limit, windowMs, first, key, windowMs - 1, limit - 1, last, from);
    var full: Hits := first[key := Entry(0, limit)];
    PassedFirst(limit, windowMs, full, last, key, from);
    assert last[1..] == Burst(key, windowMs, limit - 1) + [];
    var second: Hits := full[key := Entry(windowMs, 1)];
    BurstPasses(limit, windowMs, second, key, windowMs, limit - 1, [], from);
    NonePassed(limit, windowMs, second[key := Entry(windowMs, limit)], [], key, from);
  }

}
