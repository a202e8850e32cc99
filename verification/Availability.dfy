/** Searching the posting slots for the first one that no other post holds. */
module Availability {
  import opened Prelude
  import opened PostingSlots

  function FirstFree(candidates: seq<Instant>, taken: set<Instant>): Option<Instant> {
    if candidates == [] then None
    else if candidates[0] !in taken then Some(candidates[0])
    else FirstFree(candidates[1..], taken)
  }

  /** The first candidate after x that is not taken. */
  function FirstFreeAfter(candidates: seq<Instant>, x: Instant, taken: set<Instant>): Option<Instant> {
    FirstFree(candidates, taken + set y | y in candidates && y <= x)
  }

  /** Scans only the first |occupied| + 1 slots. */
  method NextAvailableSlot(cal: Calendar, after: Instant, occupied: set<Instant>) returns (r: Option<Instant>)
    ensures r == FirstFree(Take(Upcoming(cal, after), |occupied| + 1), occupied)
    ensures WellFormed(cal) ==> r == FirstFree(Upcoming(cal, after), occupied)
  {
    var candidates := NextSlotDatetimes(cal, after, |occupied| + 1);
    if WellFormed(cal) { BoundedSearchIsExhaustive(cal, after, occupied); }
    var i := 0;
    assert candidates[0..] == candidates;
    while i < |candidates|
      invariant 0 <= i <= |candidates|
      invariant FirstFree(candidates, occupied) == FirstFree(candidates[i..], occupied)
    {
      if candidates[i] !in occupied {
        return Some(candidates[i]);
      }
      assert candidates[i..][1..] == candidates[i + 1..];
      i := i + 1;
    }
    return None;
  }

  /** FirstFree returns exactly the earliest candidate that is not taken, and None exactly when all are. */
  lemma {:induction false} FirstFreeIsEarliest(candidates: seq<Instant>, taken: set<Instant>)
    requires Ascending(candidates)
    ensures FirstFree(candidates, taken) == None <==> forall y | y in candidates :: y in taken
    ensures forall x :: FirstFree(candidates, taken) == Some(x) <==>
              x in candidates && x !in taken && forall y | y in candidates && y < x :: y in taken
  {
    if candidates == [] {
    } else {
      var rest := candidates[1..];
      FirstFreeIsEarliest(rest, taken);
      assert forall y :: y in candidates <==> y == candidates[0] || y in rest;
      assert forall y | y in rest :: candidates[0] < y;
    }
  }

  lemma FreeCandidateBounds(candidates: seq<Instant>, taken: set<Instant>, x: Instant)
    requires Ascending(candidates) && x in candidates && x !in taken
    ensures FirstFree(candidates, taken).Some? && FirstFree(candidates, taken).value <= x
  {}

  lemma FirstFreeAfterIsNext(candidates: seq<Instant>, x: Instant, taken: set<Instant>)
    requires Ascending(candidates)
    ensures FirstFreeAfter(candidates, x, taken) == None <==> forall y | y in candidates && y > x :: y in taken
    ensures forall z :: FirstFreeAfter(candidates, x, taken) == Some(z) <==>
              z in candidates && z > x && z !in taken && forall y | y in candidates && x < y < z :: y in taken
  {
    FirstFreeIsEarliest(candidates, taken + set y | y in candidates && y <= x);
  }

  lemma FirstFreeAfterIs(candidates: seq<Instant>, x: Instant, taken: set<Instant>, r: Option<Instant>)
    requires Ascending(candidates)
    requires r.Some? ==> r.value in candidates && r.value > x && r.value !in taken
    requires forall y | y in candidates && x < y && (r.Some? ==> y < r.value) :: y in taken
    ensures FirstFreeAfter(candidates, x, taken) == r
  {
    FirstFreeAfterIsNext(candidates, x, taken);
  }

  lemma {:induction false} FirstFreeSkipsTakenPrefix(a: seq<Instant>, b: seq<Instant>, taken: set<Instant>)
    ensures FirstFree(a, taken).Some? ==> FirstFree(a + b, taken) == FirstFree(a, taken)
    ensures FirstFree(a, taken).None? ==> FirstFree(a + b, taken) == FirstFree(b, taken)
  {
    if a == [] {
      assert a + b == b;
    } else {
      assert (a + b)[1..] == a[1..] + b;
      FirstFreeSkipsTakenPrefix(a[1..], b, taken);
    }
  }

  /** Among |occupied| + 1 distinct slots one is free, so the bounded scan misses nothing. */
  lemma BoundedSearchIsExhaustive(cal: Calendar, after: Instant, occupied: set<Instant>)
    requires WellFormed(cal)
    ensures FirstFree(Take(Upcoming(cal, after), |occupied| + 1), occupied) == FirstFree(Upcoming(cal, after), occupied)
  {
    var all, n := Upcoming(cal, after), |occupied| + 1;
    UpcomingAscends(cal, after);
    if |all| > n {
      var head, tail := all[..n], all[n..];
      assert all == head + tail;
      FirstFreeSkipsTakenPrefix(head, tail, occupied);
      FirstFreeIsEarliest(head, occupied);
      if FirstFree(head, occupied) == None {
        DistinctCardinality(head);
        SubsetCardinality((set x | x in head), occupied);
        assert false;
      }
    }
  }

  /** With fewer than eight occupied instants per active slot, a free slot always exists. */
  lemma FreeSlotWhenSparse(cal: Calendar, after: Instant, occupied: set<Instant>)
    requires WellFormed(cal)
    requires |occupied| < 8 * |cal.slots|
    ensures FirstFree(Upcoming(cal, after), occupied).Some?
  {
    var all := Upcoming(cal, after);
    UpcomingAscends(cal, after);
    UpcomingLowerBound(cal, after);
    FirstFreeIsEarliest(all, occupied);
    if FirstFree(all, occupied) == None {
      DistinctCardinality(all);
      SubsetCardinality((set x | x in all), occupied);
      assert false;
    }
  }
}
