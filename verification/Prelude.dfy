/** Small types and set/sequence facts shared by the models. */
module Prelude {

  datatype Option<+T> = None | Some(value: T)

  ghost predicate Ascending(s: seq<int>) {
    forall i, j | 0 <= i < j < |s| :: s[i] < s[j]
  }

  function Max(a: int, b: int): int { if a < b then b else a }

  /** The later of two moments, either of which may be missing. */
  function Later(a: Option<int>, b: Option<int>): Option<int> {
    if b.Some? && (a.None? || b.value > a.value) then b else a
  }

  function Take<T>(s: seq<T>, n: nat): seq<T> {
    if |s| <= n then s else s[..n]
  }

  /** A duplicate-free sequence has as many distinct members as positions. */
  lemma {:induction false} DistinctCardinality<T>(s: seq<T>)
    requires forall i, j | 0 <= i < j < |s| :: s[i] != s[j]
    ensures |set x | x in s| == |s|
  {
    if s == [] {
    } else {
      var front, last := s[..|s| - 1], s[|s| - 1];
      DistinctCardinality(front);
      assert (set x | x in s) == (set x | x in front) + {last};
    }
  }

  lemma AnyMember<T>(s: set<T>) returns (x: T)
    requires s != {}
    ensures x in s
  {
    x :| x in s;
  }

  /** Every non-empty finite set of integers has a least member. */
  lemma {:induction false} LeastExists(s: set<int>)
    requires s != {}
    ensures exists x :: x in s && forall y | y in s :: x <= y
  {
    var x := AnyMember(s);
    if s == {x} {
    } else {
      LeastExists(s - {x});
      var m :| m in s - {x} && forall y | y in s - {x} :: m <= y;
      var least := if x <= m then x else m;
      forall y | y in s ensures least <= y {
        if y != x { assert y in s - {x}; }
      }
    }
  }

  function MinOf(s: set<int>): (m: int)
    requires s != {}
    ensures m in s && forall y | y in s :: m <= y
  {
    LeastExists(s);
    var m :| m in s && forall y | y in s :: m <= y;
    m
  }

  lemma {:induction false} SubsetCardinality<T>(a: set<T>, b: set<T>)
    requires a <= b
    ensures |a| <= |b|
  {
    if a == {} {
    } else {
      var x :| x in a;
      SubsetCardinality(a - {x}, b - {x});
    }
  }

  lemma {:induction false} GreatestExists(s: set<int>)
    requires s != {}
    ensures exists x :: x in s && forall y | y in s :: y <= x
  {
    var x := AnyMember(s);
    if s == {x} {
    } else {
      GreatestExists(s - {x});
      var m :| m in s - {x} && forall y | y in s - {x} :: y <= m;
      var greatest := if x <= m then m else x;
      forall y | y in s ensures y <= greatest {
        if y != x { assert y in s - {x}; }
      }
    }
  }

  function MaxOf(s: set<int>): (m: int)
    requires s != {}
    ensures m in s && forall y | y in s :: y <= m
  {
    GreatestExists(s);
    var m :| m in s && forall y | y in s :: y <= m;
    m
  }
}
