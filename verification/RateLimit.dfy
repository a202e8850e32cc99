/** The fixed-window counter in front of the authentication endpoints. */
module RateLimit {
  import opened Prelude

  const RATE_WINDOW: int := 60

  datatype Counter = Counter(count: int, expiry: int)

  /** One request: the moments of its add and, when that finds a counter, of its increment. */
  datatype Request = Request(addAt: int, incrAt: int)

  /** When and in which window a request was counted, as which one, and whether it was turned away. */
  datatype Outcome = Outcome(at: int, window: int, rank: int, limited: bool)

  predicate Live(c: Option<Counter>, now: int) { c.Some? && now < c.value.expiry }

  function Counted(c: Option<Counter>, r: Request): Counter {
    if !Live(c, r.addAt) then Counter(1, r.addAt + RATE_WINDOW)
    else if Live(c, r.incrAt) then c.value.(count := c.value.count + 1)
    else Counter(1, r.incrAt + RATE_WINDOW)
  }

  function OutcomeOf(c: Option<Counter>, r: Request, limit: int): Outcome {
    var after := Counted(c, r);
    var added := !Live(c, r.addAt);
    Outcome(if added then r.addAt else r.incrAt, after.expiry - RATE_WINDOW, after.count, !added && after.count > limit)
  }

  class Limiter {
    var cache: map<string, Counter>

    constructor ()
      ensures cache == map[]
    {
      cache := map[];
    }

    function Entry(key: string): Option<Counter>
      reads this
    {
      if key in cache then Some(cache[key]) else None
    }

    /** The cache's add: stores nothing while a live counter is there. */
    method Add(key: string, now: int) returns (stored: bool)
      modifies this
      ensures stored == !Live(old(Entry(key)), now)
      ensures cache == if stored then old(cache)[key := Counter(1, now + RATE_WINDOW)] else old(cache)
    {
      if key in cache && now < cache[key].expiry {
        return false;
      }
      cache := cache[key := Counter(1, now + RATE_WINDOW)];
      return true;
    }

    /** Counts the request; the counter may expire between the two cache calls. */
    method IncrementAndCheck(key: string, limit: int, r: Request) returns (limited: bool)
      requires r.addAt <= r.incrAt
      modifies this
      ensures cache == old(cache)[key := Counted(old(Entry(key)), r)]
      ensures limited == OutcomeOf(old(Entry(key)), r, limit).limited
    {
      var stored := Add(key, r.addAt);
      if stored {
        return false;
      }
      var attempts: int;
      if r.incrAt < cache[key].expiry {
        attempts := cache[key].count + 1;
        cache := cache[key := cache[key].(count := attempts)];
      } else {
        cache := cache[key := Counter(1, r.incrAt + RATE_WINDOW)];
        attempts := 1;
      }
      return attempts > limit;
    }
  }

  // ----- any arrival sequence

  /** Requests are handled one at a time, in order. */
  ghost predicate OneAtATime(requests: seq<Request>) {
    && (forall i | 0 <= i < |requests| :: requests[i].addAt <= requests[i].incrAt)
    && forall i, j | 0 <= i < j < |requests| :: requests[i].incrAt <= requests[j].addAt
  }

  function CounterAfter(requests: seq<Request>): Option<Counter> {
    if requests == [] then None
    else Some(Counted(CounterAfter(requests[..|requests| - 1]), requests[|requests| - 1]))
  }

  function Outcomes(requests: seq<Request>, limit: int): seq<Outcome> {
    if requests == [] then [] else
      var front, r := requests[..|requests| - 1], requests[|requests| - 1];
      Outcomes(front, limit) + [OutcomeOf(CounterAfter(front), r, limit)]
  }

  ghost predicate Windowed(os: seq<Outcome>, limit: int) {
    && (forall i | 0 <= i < |os| ::
         os[i].window <= os[i].at < os[i].window + RATE_WINDOW && os[i].rank >= 1 &&
         (os[i].rank == 1 ==> os[i].at == os[i].window) && (os[i].limited <==> os[i].rank > limit))
    && forall i, j | 0 <= i < j < |os| ::
         (os[i].window == os[j].window && os[i].rank < os[j].rank) || os[i].window + RATE_WINDOW <= os[j].window
  }

  /** The counter agrees with the last outcome. */
  ghost predicate UpToDate(c: Option<Counter>, os: seq<Outcome>) {
    if os == [] then c.None?
    else c == Some(Counter(os[|os| - 1].rank, os[|os| - 1].window + RATE_WINDOW))
  }

  lemma OneMoreOutcome(c: Option<Counter>, os: seq<Outcome>, r: Request, limit: int)
    requires Windowed(os, limit) && UpToDate(c, os) && limit >= 1 && r.addAt <= r.incrAt
    requires os != [] ==> os[|os| - 1].at <= r.addAt
    ensures Windowed(os + [OutcomeOf(c, r, limit)], limit)
    ensures UpToDate(Some(Counted(c, r)), os + [OutcomeOf(c, r, limit)])
  {}

  lemma {:induction false} OutcomesAreWindowed(requests: seq<Request>, limit: int)
    requires OneAtATime(requests) && limit >= 1
    ensures Windowed(Outcomes(requests, limit), limit) && UpToDate(CounterAfter(requests), Outcomes(requests, limit))
    ensures |Outcomes(requests, limit)| == |requests|
    ensures requests != [] ==> Outcomes(requests, limit)[|requests| - 1].at <= requests[|requests| - 1].incrAt
  {
    if requests == [] {
    } else {
      var n := |requests| - 1;
      OutcomesAreWindowed(requests[..n], limit);
      OneMoreOutcome(CounterAfter(requests[..n]), Outcomes(requests[..n], limit), requests[n], limit);
    }
  }

  /** Each outcome opens a window as its first, or is the next one in the window before it. */
  ghost predicate Consecutive(os: seq<Outcome>) {
    && (os != [] ==> os[0].rank == 1)
    && forall i | 0 < i < |os| ::
         os[i].rank == 1 || (os[i].window == os[i - 1].window && os[i].rank == os[i - 1].rank + 1)
  }

  lemma OneMoreConsecutive(c: Option<Counter>, os: seq<Outcome>, r: Request, limit: int)
    requires Consecutive(os) && UpToDate(c, os)
    ensures Consecutive(os + [OutcomeOf(c, r, limit)])
  {}

  lemma {:induction false} OutcomesAreConsecutive(requests: seq<Request>, limit: int)
    requires OneAtATime(requests) && limit >= 1
    ensures Consecutive(Outcomes(requests, limit))
  {
    if requests == [] {
    } else {
      var n := |requests| - 1;
      OutcomesAreConsecutive(requests[..n], limit);
      OutcomesAreWindowed(requests[..n], limit);
      OneMoreConsecutive(CounterAfter(requests[..n]), Outcomes(requests[..n], limit), requests[n], limit);
    }
  }

  function CountedBy(os: seq<Outcome>, i: nat): set<nat>
    requires i < |os|
  {
    set j: nat | j <= i && os[j].window == os[i].window
  }

  lemma {:induction false} RankIsCount(os: seq<Outcome>, limit: int, i: nat)
    requires Windowed(os, limit) && Consecutive(os) && i < |os|
    ensures os[i].rank == |CountedBy(os, i)|
  {
    if os[i].rank == 1 {
      FirstIsAlone(os, limit, i);
    } else {
      RankIsCount(os, limit, i - 1);
      OneMoreCounted(os, i);
    }
  }

  lemma FirstIsAlone(os: seq<Outcome>, limit: int, i: nat)
    requires Windowed(os, limit) && i < |os| && os[i].rank == 1
    ensures CountedBy(os, i) == {i}
  {
    forall j: nat | j < i ensures os[j].window != os[i].window {
      assert os[j].rank >= os[i].rank;
    }
  }

  lemma OneMoreCounted(os: seq<Outcome>, i: nat)
    requires 0 < i < |os| && os[i].window == os[i - 1].window
    ensures |CountedBy(os, i)| == |CountedBy(os, i - 1)| + 1
  {
    assert CountedBy(os, i) == CountedBy(os, i - 1) + {i};
  }

  /**
   * A request is refused exactly when its window has by then counted more requests than the limit,
   * itself and refused ones included.
   */
  lemma RefusedPastTheLimit(requests: seq<Request>, limit: int, i: nat)
    requires OneAtATime(requests) && limit >= 1 && i < |requests|
    ensures var os := Outcomes(requests, limit);
      |os| == |requests| && (os[i].limited <==> |set j: nat | j <= i && os[j].window == os[i].window| > limit)
  {
    OutcomesAreWindowed(requests, limit);
    OutcomesAreConsecutive(requests, limit);
    RankIsCount(Outcomes(requests, limit), limit, i);
  }

  // ----- counting

  /** An injection into the integers from lo through hi. */
  lemma {:induction false} InjectionBound(s: set<nat>, f: nat -> int, lo: int, hi: int)
    requires lo <= hi + 1
    requires forall i | i in s :: lo <= f(i) <= hi
    requires forall i, j | i in s && j in s && i != j :: f(i) != f(j)
    ensures |s| <= hi - lo + 1
    decreases hi - lo
  {
    if lo <= hi {
      if top :| top in s && f(top) == hi {
        InjectionBound(s - {top}, f, lo, hi - 1);
      } else {
        InjectionBound(s, f, lo, hi - 1);
      }
    } else if s != {} {
      var i := AnyMember(s);
      assert false;
    }
  }

  function PassedInWindow(os: seq<Outcome>, window: int): set<nat> {
    set i: nat | i < |os| && os[i].window == window && !os[i].limited
  }

  function PassedWithin(os: seq<Outcome>, from: int, to: int): set<nat> {
    set i: nat | i < |os| && from <= os[i].at < to && !os[i].limited
  }

  lemma RanksBound(os: seq<Outcome>, limit: int, s: set<nat>, least: int)
    requires Windowed(os, limit) && 1 <= least <= limit + 1
    requires forall i | i in s :: i < |os| && !os[i].limited && least <= os[i].rank
    requires forall i, j | i in s && j in s :: os[i].window == os[j].window
    ensures |s| <= limit - least + 1
  {
    var f: nat -> int := (i: nat) => if i < |os| then os[i].rank else 0;
    forall i, j | i in s && j in s && i != j ensures f(i) != f(j) {
      if i < j { assert os[i].rank < os[j].rank; } else { assert os[j].rank < os[i].rank; }
    }
    InjectionBound(s, f, least, limit);
  }

  /** At most `limit` requests pass per window. */
  lemma LimitPerWindow(requests: seq<Request>, limit: int, window: int)
    requires OneAtATime(requests) && limit >= 1
    ensures |PassedInWindow(Outcomes(requests, limit), window)| <= limit
  {
    OutcomesAreWindowed(requests, limit);
    RanksBound(Outcomes(requests, limit), limit, PassedInWindow(Outcomes(requests, limit), window), 1);
  }

  /** In any 60 seconds, wherever they start, fewer than twice the limit pass. */
  lemma LessThanTwiceTheLimit(requests: seq<Request>, limit: int, from: int)
    requires OneAtATime(requests) && limit >= 1
    ensures |PassedWithin(Outcomes(requests, limit), from, from + RATE_WINDOW)| <= 2 * limit - 1
  {
    OutcomesAreWindowed(requests, limit);
    TwoWindowsAtMost(Outcomes(requests, limit), limit, from);
  }

  lemma TwoWindowsAtMost(os: seq<Outcome>, limit: int, from: int)
    requires Windowed(os, limit) && limit >= 1
    ensures |PassedWithin(os, from, from + RATE_WINDOW)| <= 2 * limit - 1
  {
    var all := PassedWithin(os, from, from + RATE_WINDOW);
    var earlier := set i | i in all && os[i].window < from;
    var later := set i | i in all && os[i].window >= from;
    OneWindow(os, limit, earlier, from - RATE_WINDOW + 1);
    OneWindow(os, limit, later, from);
    RanksBound(os, limit, earlier, 2);
    RanksBound(os, limit, later, 1);
    assert all == earlier + later;
  }

  /** Windows that begin within 60 seconds of each other are the same. */
  lemma OneWindow(os: seq<Outcome>, limit: int, s: set<nat>, from: int)
    requires Windowed(os, limit) && forall i | i in s :: i < |os| && from <= os[i].window < from + RATE_WINDOW
    ensures forall i, j | i in s && j in s :: os[i].window == os[j].window
  {}

  // One request at 0, limit - 1 at 59, limit at 60.
  function BurstRequest(limit: int, i: nat): Request {
    if i == 0 then Request(0, 0) else if i < limit then Request(59, 59) else Request(60, 60)
  }

  function Burst(limit: int, n: nat): seq<Request> {
    seq(n, (i: nat) => BurstRequest(limit, i))
  }

  function BurstOutcome(limit: int, i: nat): Outcome {
    if i == 0 then Outcome(0, 0, 1, false)
    else if i < limit then Outcome(59, 0, i + 1, false)
    else Outcome(60, 60, i - limit + 1, false)
  }

  function CounterOf(o: Outcome): Counter { Counter(o.rank, o.window + RATE_WINDOW) }

  lemma BurstStep(limit: int, i: nat, c: Option<Counter>)
    requires limit >= 1 && i < 2 * limit
    requires c == if i == 0 then None else Some(CounterOf(BurstOutcome(limit, i - 1)))
    ensures OutcomeOf(c, BurstRequest(limit, i), limit) == BurstOutcome(limit, i)
    ensures Counted(c, BurstRequest(limit, i)) == CounterOf(BurstOutcome(limit, i))
  {}

  lemma {:induction false} BurstOutcomes(limit: int, n: nat)
    requires limit >= 1 && n <= 2 * limit
    ensures Outcomes(Burst(limit, n), limit) == seq(n, (i: nat) => BurstOutcome(limit, i))
    ensures CounterAfter(Burst(limit, n)) == if n == 0 then None else Some(CounterOf(BurstOutcome(limit, n - 1)))
  {
    if n == 0 {
    } else {
      var front, r := Burst(limit, n - 1), BurstRequest(limit, n - 1);
      BurstOutcomes(limit, n - 1);
      BurstStep(limit, n - 1, CounterAfter(front));
      OutcomesSnoc(front, r, limit);
      assert Burst(limit, n) == front + [r];
    }
  }

  function Range(lo: nat, hi: nat): (s: set<nat>)
    requires lo <= hi
    ensures (forall i :: i in s <==> lo <= i < hi) && |s| == hi - lo
  {
    if lo == hi then {} else Range(lo, hi - 1) + {hi - 1}
  }

  lemma BurstPasses(limit: int, os: seq<Outcome>, to: int)
    requires limit >= 1 && to > 60
    requires |os| == 2 * limit && forall i: nat | i < |os| :: os[i] == BurstOutcome(limit, i)
    ensures PassedWithin(os, 59, to) == Range(1, 2 * limit)
  {
    forall i: nat ensures i in PassedWithin(os, 59, to) <==> i in Range(1, 2 * limit) {
      if i < |os| { assert os[i] == BurstOutcome(limit, i); }
    }
  }

  lemma BurstInOrder(limit: int)
    requires limit >= 1
    ensures OneAtATime(Burst(limit, 2 * limit))
  {}

  /** The bound is reached for every limit: all but the first of the burst pass within 60 seconds, even within two. */
  lemma TwiceTheLimitLessOneIsReached(limit: int)
    requires limit >= 1
    ensures OneAtATime(Burst(limit, 2 * limit))
    ensures |PassedWithin(Outcomes(Burst(limit, 2 * limit), limit), 59, 59 + RATE_WINDOW)| == 2 * limit - 1
    ensures |PassedWithin(Outcomes(Burst(limit, 2 * limit), limit), 59, 61)| == 2 * limit - 1
  {
    var os := Outcomes(Burst(limit, 2 * limit), limit);
    BurstOutcomes(limit, 2 * limit);
    BurstPasses(limit, os, 61);
    BurstPasses(limit, os, 59 + RATE_WINDOW);
    BurstInOrder(limit);
  }

  lemma OutcomesSnoc(front: seq<Request>, r: Request, limit: int)
    ensures CounterAfter(front + [r]) == Some(Counted(CounterAfter(front), r))
    ensures Outcomes(front + [r], limit) == Outcomes(front, limit) + [OutcomeOf(CounterAfter(front), r, limit)]
  {}
}
