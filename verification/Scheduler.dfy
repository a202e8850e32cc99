/** The queue operations as they run: row updates and loops inside one locked transaction each. */
module Scheduler {
  import opened Prelude
  import opened PostingSlots
  import opened Availability
  import opened ScheduleStore
  import opened QueueOps
  import opened QueueReorder

  /** An operation returns an entry, or no entry, or raises QueueFullError. */
  datatype Reply = Entry(key: EntryKey) | NoEntry | QueueFull

  datatype Holder = Holder(post: int, held: Instant)
  datatype Rung = Rung(idx: nat, post: int)

  ghost predicate Descending(rungs: seq<Rung>) {
    forall i, j | 0 <= i < j < |rungs| :: rungs[i].idx >= rungs[j].idx
  }

  ghost predicate UniquePosts(rungs: seq<Rung>) {
    forall i, j | 0 <= i < j < |rungs| :: rungs[i].post != rungs[j].post
  }

  /** Each candidate's index; of equal candidates the last counts. */
  method IndexOf(candidates: seq<Instant>) returns (index: map<Instant, nat>)
    ensures index.Keys == set x | x in candidates
    ensures forall x | x in index :: index[x] < |candidates| && candidates[index[x]] == x
  {
    index := map[];
    var i := 0;
    while i < |candidates|
      invariant 0 <= i <= |candidates|
      invariant index.Keys == set x | x in candidates[..i]
      invariant forall x | x in index :: index[x] < i && candidates[index[x]] == x
    {
      assert candidates[..i + 1] == candidates[..i] + [candidates[i]];
      index := index[candidates[i] := i];
      i := i + 1;
    }
    assert candidates[..i] == candidates;
  }

  method IndexMovers(movable: seq<Holder>, candidates: seq<Instant>) returns (movers: seq<Rung>)
    requires forall i, j | 0 <= i < j < |movable| :: movable[i].post != movable[j].post
    ensures UniquePosts(movers)
    ensures forall r | r in movers :: r.idx < |candidates| && Holder(r.post, candidates[r.idx]) in movable
    ensures forall m | m in movable && m.held in candidates :: exists r :: r in movers && r.post == m.post
  {
    movers := [];
    var index := IndexOf(candidates);
    var i := 0;
    while i < |movable|
      invariant 0 <= i <= |movable|
      invariant forall r | r in movers :: r.idx < |candidates| && Holder(r.post, candidates[r.idx]) in movable
      invariant UniquePosts(movers) && forall r | r in movers :: exists k :: 0 <= k < i && movable[k].post == r.post
      invariant forall k | 0 <= k < i && movable[k].held in candidates ::
        exists r :: r in movers && r.post == movable[k].post
    {
      if movable[i].held in index {
        var r := Rung(index[movable[i].held], movable[i].post);
        assert Holder(r.post, candidates[r.idx]) == movable[i];
        assert r in movers + [r];
        assert forall q | q in movers :: q in movers + [r];
        movers := movers + [r];
      }
      i := i + 1;
    }
  }

  function Insert(s: seq<Rung>, at: nat, r: Rung): seq<Rung>
    requires at <= |s|
  {
    s[..at] + [r] + s[at..]
  }

  lemma InsertMembers(s: seq<Rung>, at: nat, r: Rung)
    requires at <= |s|
    ensures forall q :: q in Insert(s, at, r) <==> q == r || q in s
  {
    assert s == s[..at] + s[at..];
  }

  lemma InsertKeepsOrder(s: seq<Rung>, at: nat, r: Rung)
    requires Descending(s) && UniquePosts(s) && at <= |s|
    requires forall k | 0 <= k < at :: s[k].idx >= r.idx
    requires at < |s| ==> s[at].idx < r.idx
    requires forall q | q in s :: q.post != r.post
    ensures Descending(Insert(s, at, r)) && UniquePosts(Insert(s, at, r))
  {
    var t := Insert(s, at, r);
    forall i, j | 0 <= i < j < |t| ensures t[i].idx >= t[j].idx && t[i].post != t[j].post {
      var a, b := if i < at then i else i - 1, if j < at then j else j - 1;
      assert i != at ==> t[i] == s[a] && s[a] in s;
      assert j != at ==> t[j] == s[b] && s[b] in s;
      if i == at {
        assert s[at].idx >= s[b].idx;
      } else if j != at {
        assert a < b;
      }
    }
  }

  method SortByIndexDescending(movers: seq<Rung>) returns (sorted: seq<Rung>)
    requires UniquePosts(movers)
    ensures Descending(sorted) && UniquePosts(sorted)
    ensures forall r :: r in sorted <==> r in movers
  {
    sorted := [];
    var i := 0;
    while i < |movers|
      invariant 0 <= i <= |movers|
      invariant Descending(sorted) && UniquePosts(sorted)
      invariant forall r :: r in sorted <==> r in movers[..i]
    {
      var at := 0;
      while at < |sorted| && sorted[at].idx >= movers[i].idx
        invariant 0 <= at <= |sorted|
        invariant forall k | 0 <= k < at :: sorted[k].idx >= movers[i].idx
      {
        at := at + 1;
      }
      forall q | q in sorted ensures q.post != movers[i].post {
        var k :| 0 <= k < i && movers[k] == q;
      }
      InsertKeepsOrder(sorted, at, movers[i]);
      InsertMembers(sorted, at, movers[i]);
      assert movers[..i + 1] == movers[..i] + [movers[i]];
      sorted := Insert(sorted, at, movers[i]);
      i := i + 1;
    }
    assert movers[..i] == movers;
  }

  /** Everything from start up to, not including, j is claimed or avoided. */
  ghost predicate BlockedUpTo(all: seq<Instant>, start: int, j: int, claimed: set<nat>, avoid: set<Instant>) {
    forall k | 0 <= start <= k < j && k < |all| :: k in claimed || all[k] in avoid
  }

  lemma BlockedOneMore(all: seq<Instant>, start: nat, j: nat, claimed: set<nat>, avoid: set<Instant>)
    requires BlockedUpTo(all, start, j, claimed, avoid) && j < |all| && (j in claimed || all[j] in avoid)
    ensures BlockedUpTo(all, start, j + 1, claimed, avoid)
  {}

  /** Looks for the next index that is neither claimed nor held, fetching more candidates when it runs out. */
  method FindRung(cal: Calendar, now: Instant, candidates: seq<Instant>, start: nat, claimed: set<nat>,
                  avoid: set<Instant>, ghost all: seq<Instant>)
    returns (grown: seq<Instant>, j: nat, found: bool)
    requires all == Upcoming(cal, now) && candidates <= all && start <= |all|
    ensures grown <= all && |candidates| <= |grown|
    ensures start <= j <= |all| && BlockedUpTo(all, start, j, claimed, avoid)
    ensures found ==> j < |grown| && j !in claimed && all[j] !in avoid
    ensures !found ==> j == |all|
  {
    grown, j := candidates, start;
    while true
      invariant start <= j <= |all| && grown <= all && |candidates| <= |grown|
      invariant BlockedUpTo(all, start, j, claimed, avoid)
      decreases |all| - j
    {
      if j >= |grown| {
        grown := NextSlotDatetimes(cal, now, j + 2);
        if j >= |grown| {
          return grown, j, false;
        }
      }
      assert grown[j] == all[j];
      if j !in claimed && grown[j] !in avoid {
        return grown, j, true;
      }
      BlockedOneMore(all, start, j, claimed, avoid);
      j := j + 1;
    }
  }

  /** What the ladder loop is handed when the channel starts without a double booking. */
  ghost predicate LadderInput(l: Ladder, rungs: seq<Rung>, avoid: set<Instant>) {
    && Ascending(l.all) && NoDoubleBooking(l.db.children, l.account, l.now)
    && avoid == l.Fixed()
    && Descending(rungs) && UniquePosts(rungs)
    && (forall r | r in rungs :: r.post in l.Movers() && r.idx < |l.all| && l.all[r.idx] == l.Held(r.post))
    && (forall p | p in l.Movers() :: exists r :: r in rungs && r.post == p)
  }

  function PostsOf(rungs: seq<Rung>): set<int> {
    set r | r in rungs :: r.post
  }

  lemma PostsOfNext(rungs: seq<Rung>, i: nat)
    requires UniquePosts(rungs) && i < |rungs|
    ensures PostsOf(rungs[..i + 1]) == PostsOf(rungs[..i]) + {rungs[i].post}
    ensures rungs[i].post !in PostsOf(rungs[..i])
  {
    assert rungs[..i + 1] == rungs[..i] + [rungs[i]];
  }

  /** Where the loop-free form sends each mover. */
  function Targets(l: Ladder): map<int, Option<Instant>> {
    map p | p in l.Movers() :: l.NextRung(p)
  }

  /** The rungs top first, each post once, none of them at an avoided instant. */
  ghost predicate InOrder(all: seq<Instant>, avoid: set<Instant>, rungs: seq<Rung>) {
    && UniquePosts(rungs)
    && (forall i, j | 0 <= i < j < |rungs| :: rungs[i].idx > rungs[j].idx)
    && (forall i | 0 <= i < |rungs| :: rungs[i].idx < |all| && all[rungs[i].idx] !in avoid)
  }

  lemma LadderInputInOrder(l: Ladder, rungs: seq<Rung>, avoid: set<Instant>)
    requires LadderInput(l, rungs, avoid)
    ensures InOrder(l.all, avoid, rungs)
  {
    forall i, j | 0 <= i < j < |rungs| ensures rungs[i].idx > rungs[j].idx {
      var p, q := rungs[i].post, rungs[j].post;
      assert rungs[i] in rungs && rungs[j] in rungs;
      MoversAreFree(l, p);
      MoversAreFree(l, q);
      assert ChildKey(p, l.account) != ChildKey(q, l.account);
    }
    forall i | 0 <= i < |rungs| ensures rungs[i].idx < |l.all| && l.all[rungs[i].idx] !in avoid {
      assert rungs[i] in rungs;
      MoversAreFree(l, rungs[i].post);
    }
  }

  lemma TargetOfRung(l: Ladder, rungs: seq<Rung>, avoid: set<Instant>, i: int)
    requires LadderInput(l, rungs, avoid) && 0 <= i < |rungs|
    ensures rungs[i].idx < |l.all| && rungs[i].post in Targets(l)
    ensures Targets(l)[rungs[i].post] == FirstFreeAfter(l.all, l.all[rungs[i].idx], avoid)
  {
    assert rungs[i] in rungs;
  }

  /** The first i rungs are climbed: their posts are planned, and every claimed index but 0 lies above them. */
  ghost predicate Climbed(targets: map<int, Option<Instant>>, rungs: seq<Rung>, i: int, claimed: set<nat>,
                          plan: map<int, Instant>) {
    && 0 <= i <= |rungs|
    && plan.Keys == PostsOf(rungs[..i])
    && (forall p | p in plan :: p in targets && targets[p] == Some(plan[p]))
    && (forall c | c in claimed :: c == 0 || (i > 0 && c > rungs[i - 1].idx))
  }

  lemma NextFreeIndex(all: seq<Instant>, m: nat, j: nat, avoid: set<Instant>)
    requires Ascending(all) && m < j <= |all|
    requires forall k | m < k < j :: all[k] in avoid
    requires j < |all| ==> all[j] !in avoid
    ensures FirstFreeAfter(all, all[m], avoid) == if j < |all| then Some(all[j]) else None
  {
    forall y | y in all && all[m] < y && (j < |all| ==> y < all[j]) ensures y in avoid {
      var k :| 0 <= k < |all| && all[k] == y;
      assert m < k < j;
    }
    FirstFreeAfterIs(all, all[m], avoid, if j < |all| then Some(all[j]) else None);
  }

  /** The search for a rung never gets past the index the rung above has left, below which nothing is claimed. */
  lemma SearchFinds(all: seq<Instant>, avoid: set<Instant>, rungs: seq<Rung>, i: int, claimed: set<nat>, j: nat)
    requires Ascending(all) && InOrder(all, avoid, rungs) && 0 <= i < |rungs|
    requires forall c | c in claimed :: c == 0 || (i > 0 && c > rungs[i - 1].idx)
    requires rungs[i].idx < j <= |all| && BlockedUpTo(all, rungs[i].idx + 1, j, claimed, avoid)
    requires j < |all| ==> j !in claimed && all[j] !in avoid
    ensures FirstFreeAfter(all, all[rungs[i].idx], avoid) == if j < |all| then Some(all[j]) else None
  {
    if i > 0 {
      var above := rungs[i - 1].idx;
      assert above !in claimed && above > rungs[i].idx;
      assert j <= above;
    }
    forall k | rungs[i].idx < k < j ensures all[k] in avoid {
      assert k !in claimed;
    }
    NextFreeIndex(all, rungs[i].idx, j, avoid);
  }

  lemma ClimbStep(rungs: seq<Rung>, targets: map<int, Option<Instant>>,
                  i: int, claimed: set<nat>, plan: map<int, Instant>, j: nat, t: Instant)
    requires UniquePosts(rungs) && (0 < i < |rungs| ==> rungs[i - 1].idx > rungs[i].idx)
    requires Climbed(targets, rungs, i, claimed, plan) && i < |rungs|
    requires rungs[i].idx < j && rungs[i].post in targets && targets[rungs[i].post] == Some(t)
    ensures Climbed(targets, rungs, i + 1, claimed + {j}, plan[rungs[i].post := t])
  {
    PostsOfNext(rungs, i);
  }

  /** The plan of a half-done ladder holds exactly the movers at or above the last climbed rung. */
  lemma ClimbedMembers(rungs: seq<Rung>, i: int, k: int)
    requires UniquePosts(rungs) && 0 < i <= |rungs| && 0 <= k < |rungs|
    ensures rungs[k].post in PostsOf(rungs[..i]) <==> k < i
  {
    if k < i {
      assert rungs[k] in rungs[..i];
    }
  }

  lemma AboveOrBelow(all: seq<Instant>, avoid: set<Instant>, rungs: seq<Rung>, i: int, k: int)
    requires Ascending(all) && InOrder(all, avoid, rungs)
    requires 0 < i <= |rungs| && 0 <= k < |rungs|
    ensures k < i <==> all[rungs[k].idx] >= all[rungs[i - 1].idx]
  {
    if k < i - 1 {
      assert rungs[k].idx > rungs[i - 1].idx;
    } else if k > i - 1 {
      assert rungs[k].idx < rungs[i - 1].idx;
    }
  }

  lemma ClimbedIsAbove(l: Ladder, rungs: seq<Rung>, avoid: set<Instant>, i: int, plan: map<int, Instant>, p: int)
    requires LadderInput(l, rungs, avoid) && 0 < i <= |rungs| && plan.Keys == PostsOf(rungs[..i])
    requires rungs[i - 1].idx < |l.all| && p in l.Movers()
    ensures p in plan <==> l.Held(p) >= l.all[rungs[i - 1].idx]
  {
    var r :| r in rungs && r.post == p;
    var k :| 0 <= k < |rungs| && rungs[k] == r;
    LadderInputInOrder(l, rungs, avoid);
    ClimbedMembers(rungs, i, k);
    AboveOrBelow(l.all, avoid, rungs, i, k);
  }

  /** A half-done ladder is the upper rungs of the whole one. */
  lemma ClimbedIsUpperRungs(l: Ladder, rungs: seq<Rung>, i: int, claimed: set<nat>, plan: map<int, Instant>,
                            from: Instant)
    requires forall p | p in l.Movers() :: p in plan <==> l.Held(p) >= from
    requires Climbed(Targets(l), rungs, i, claimed, plan)
    ensures l.FitsFrom(from) && plan == l.UpperRungs(from)
  {
    forall p | p in plan ensures p in l.Movers() && l.NextRung(p) == Some(plan[p]) {
      assert p in Targets(l);
    }
  }

  /** So after every turn of the loop all other posts hold distinct instants. */
  lemma ClimbedBooksOnce(l: Ladder, rungs: seq<Rung>, avoid: set<Instant>, i: int, claimed: set<nat>,
                         plan: map<int, Instant>)
    requires LadderInput(l, rungs, avoid)
    requires Climbed(Targets(l), rungs, i, claimed, plan)
    ensures NoDoubleBookingBut(PlaceChildren(l.db.children, l.account, plan),
                               l.account, l.now, ChildKey(l.post, l.account))
  {
    if i == 0 {
      assert plan == map[];
      assert PlaceChildren(l.db.children, l.account, plan) == l.db.children;
    } else {
      LadderInputInOrder(l, rungs, avoid);
      var from := l.all[rungs[i - 1].idx];
      forall p | p in l.Movers() ensures p in plan <==> l.Held(p) >= from {
        ClimbedIsAbove(l, rungs, avoid, i, plan, p);
      }
      ClimbedIsUpperRungs(l, rungs, i, claimed, plan, from);
      UpperRungsBookOnce(l, plan, from);
    }
  }

  lemma UpperRungsBookOnce(l: Ladder, plan: map<int, Instant>, from: Instant)
    requires Ascending(l.all) && NoDoubleBooking(l.db.children, l.account, l.now)
    requires l.FitsFrom(from) && plan == l.UpperRungs(from)
    ensures NoDoubleBookingBut(PlaceChildren(l.db.children, l.account, plan),
                               l.account, l.now, ChildKey(l.post, l.account))
  {
    LadderNeverDoubleBooks(l, from);
  }

  /** The whole ladder climbed is the plan of the loop-free form. */
  lemma ClimbedIsLadder(l: Ladder, rungs: seq<Rung>, claimed: set<nat>, plan: map<int, Instant>)
    requires PostsOf(rungs) == l.Movers() && l.all != []
    requires Climbed(Targets(l), rungs, |rungs|, claimed, plan)
    ensures l.Fits() && plan[l.post := l.all[0]] == l.Plan()
  {
    assert rungs[..|rungs|] == rungs;
    forall p | p in l.Movers() ensures p in plan && l.NextRung(p) == Some(plan[p]) {
      assert p in Targets(l);
    }
    FullPlanIsLadder(l, plan);
  }

  lemma FullPlanIsLadder(l: Ladder, plan: map<int, Instant>)
    requires l.all != [] && plan.Keys == l.Movers() && forall p | p in l.Movers() :: l.NextRung(p) == Some(plan[p])
    ensures l.Fits() && plan[l.post := l.all[0]] == l.Plan()
  {}

  // ----- what the ladder loop leaves behind

  function Claimed(js: seq<nat>): set<nat> {
    {0} + set j | j in js
  }

  /** Rung i went to the first later index that was neither claimed by then nor avoided. */
  ghost predicate Found(all: seq<Instant>, avoid: set<Instant>, rungs: seq<Rung>, js: seq<nat>, i: int)
    requires 0 <= i < |js| <= |rungs|
  {
    && rungs[i].idx < js[i] < |all|
    && BlockedUpTo(all, rungs[i].idx + 1, js[i], Claimed(js[..i]), avoid)
    && js[i] !in Claimed(js[..i]) && all[js[i]] !in avoid
  }

  ghost predicate Traced(all: seq<Instant>, avoid: set<Instant>, rungs: seq<Rung>, js: seq<nat>) {
    |js| <= |rungs| && forall i | 0 <= i < |js| :: Found(all, avoid, rungs, js, i)
  }

  /** The next rung has nowhere to go. */
  ghost predicate Stuck(all: seq<Instant>, avoid: set<Instant>, rungs: seq<Rung>, js: seq<nat>) {
    |js| < |rungs| && rungs[|js|].idx < |all| && BlockedUpTo(all, rungs[|js|].idx + 1, |all|, Claimed(js), avoid)
  }

  predicate InRange(all: seq<Instant>, js: seq<nat>) {
    forall i | 0 <= i < |js| :: js[i] < |all|
  }

  function TracePlan(all: seq<Instant>, rungs: seq<Rung>, js: seq<nat>): map<int, Instant>
    requires |js| <= |rungs| && InRange(all, js)
  {
    if js == [] then map[]
    else
      var i := |js| - 1;
      TracePlan(all, rungs, js[..i])[rungs[i].post := all[js[i]]]
  }

  lemma TraceNext(all: seq<Instant>, avoid: set<Instant>, rungs: seq<Rung>, js: seq<nat>, j: nat)
    requires Traced(all, avoid, rungs, js) && |js| < |rungs|
    requires rungs[|js|].idx < j < |all| && BlockedUpTo(all, rungs[|js|].idx + 1, j, Claimed(js), avoid)
    requires j !in Claimed(js) && all[j] !in avoid
    ensures Traced(all, avoid, rungs, js + [j]) && Claimed(js + [j]) == Claimed(js) + {j}
    ensures InRange(all, js)
    ensures TracePlan(all, rungs, js + [j]) == TracePlan(all, rungs, js)[rungs[|js|].post := all[j]]
  {
    var js' := js + [j];
    forall i | 0 <= i < |js'| ensures Found(all, avoid, rungs, js', i) {
      assert js'[..i] == js[..i];
      if i < |js| { assert Found(all, avoid, rungs, js, i); } else { assert js[..i] == js; }
    }
    TracedInRange(all, avoid, rungs, js);
    assert js'[..|js|] == js;
  }

  lemma TracedInRange(all: seq<Instant>, avoid: set<Instant>, rungs: seq<Rung>, js: seq<nat>)
    requires Traced(all, avoid, rungs, js)
    ensures InRange(all, js)
  {
    forall i | 0 <= i < |js| ensures js[i] < |all| {
      assert Found(all, avoid, rungs, js, i);
    }
  }

  /** Each rung's target is the first free instant after its own. */
  ghost predicate Aims(all: seq<Instant>, avoid: set<Instant>, rungs: seq<Rung>, targets: map<int, Option<Instant>>) {
    && Ascending(all) && InOrder(all, avoid, rungs)
    && forall k | 0 <= k < |rungs| ::
         rungs[k].post in targets && targets[rungs[k].post] == FirstFreeAfter(all, all[rungs[k].idx], avoid)
  }

  lemma LadderAims(l: Ladder, rungs: seq<Rung>, avoid: set<Instant>)
    requires LadderInput(l, rungs, avoid)
    ensures Aims(l.all, avoid, rungs, Targets(l))
  {
    LadderInputInOrder(l, rungs, avoid);
    forall k | 0 <= k < |rungs|
      ensures rungs[k].post in Targets(l) &&
              Targets(l)[rungs[k].post] == FirstFreeAfter(l.all, l.all[rungs[k].idx], avoid)
    {
      TargetOfRung(l, rungs, avoid, k);
    }
  }

  lemma TraceStep(all: seq<Instant>, avoid: set<Instant>, rungs: seq<Rung>, targets: map<int, Option<Instant>>,
                  js: seq<nat>, i: nat, plan: map<int, Instant>)
    requires Aims(all, avoid, rungs, targets) && i < |js| <= |rungs| && Found(all, avoid, rungs, js, i)
    requires Climbed(targets, rungs, i, Claimed(js[..i]), plan)
    ensures Climbed(targets, rungs, i + 1, Claimed(js[..i]) + {js[i]}, plan[rungs[i].post := all[js[i]]])
  {
    SearchFinds(all, avoid, rungs, i, Claimed(js[..i]), js[i]);
    ClimbStep(rungs, targets, i, Claimed(js[..i]), plan, js[i], all[js[i]]);
  }

  /** Every prefix of the loop's writes is a climbed part of the ladder. */
  lemma {:induction false} TraceClimbs(all: seq<Instant>, avoid: set<Instant>, rungs: seq<Rung>,
                                       targets: map<int, Option<Instant>>, js: seq<nat>, i: nat)
    requires Aims(all, avoid, rungs, targets) && Traced(all, avoid, rungs, js) && InRange(all, js) && i <= |js|
    ensures Climbed(targets, rungs, i, Claimed(js[..i]), TracePlan(all, rungs, js[..i]))
    decreases i
  {
    if i == 0 {
      assert js[..i] == [];
    } else {
      TraceClimbs(all, avoid, rungs, targets, js, i - 1);
      TraceExtends(all, avoid, rungs, targets, js, i - 1);
    }
  }

  lemma TraceExtends(all: seq<Instant>, avoid: set<Instant>, rungs: seq<Rung>, targets: map<int, Option<Instant>>,
                     js: seq<nat>, i: nat)
    requires Aims(all, avoid, rungs, targets) && i < |js| <= |rungs| && Found(all, avoid, rungs, js, i) &&
      InRange(all, js)
    requires Climbed(targets, rungs, i, Claimed(js[..i]), TracePlan(all, rungs, js[..i]))
    ensures Climbed(targets, rungs, i + 1, Claimed(js[..i + 1]), TracePlan(all, rungs, js[..i + 1]))
  {
    TracePrefix(all, rungs, js, i);
    TraceStep(all, avoid, rungs, targets, js, i, TracePlan(all, rungs, js[..i]));
  }

  lemma TracePrefix(all: seq<Instant>, rungs: seq<Rung>, js: seq<nat>, i: nat)
    requires i < |js| <= |rungs| && InRange(all, js)
    ensures Claimed(js[..i + 1]) == Claimed(js[..i]) + {js[i]}
    ensures TracePlan(all, rungs, js[..i + 1]) == TracePlan(all, rungs, js[..i])[rungs[i].post := all[js[i]]]
  {
    assert js[..i + 1][..i] == js[..i];
    assert js[..i + 1] == js[..i] + [js[i]];
  }

  lemma TraceClimbsLadder(l: Ladder, rungs: seq<Rung>, avoid: set<Instant>, js: seq<nat>, i: nat)
    requires LadderInput(l, rungs, avoid) && Traced(l.all, avoid, rungs, js) && i <= |js|
    ensures InRange(l.all, js)
    ensures Climbed(Targets(l), rungs, i, Claimed(js[..i]), TracePlan(l.all, rungs, js[..i]))
  {
    LadderAims(l, rungs, avoid);
    TracedInRange(l.all, avoid, rungs, js);
    TraceClimbs(l.all, avoid, rungs, Targets(l), js, i);
  }

  lemma StuckMisses(l: Ladder, rungs: seq<Rung>, avoid: set<Instant>, js: seq<nat>)
    requires LadderInput(l, rungs, avoid) && Stuck(l.all, avoid, rungs, js)
    requires forall c | c in Claimed(js) :: c == 0 || (|js| > 0 && c > rungs[|js| - 1].idx)
    ensures rungs[|js|].post in l.Movers() && l.NextRung(rungs[|js|].post) == None
  {
    LadderInputInOrder(l, rungs, avoid);
    SearchFinds(l.all, avoid, rungs, |js|, Claimed(js), |l.all|);
    TargetOfRung(l, rungs, avoid, |js|);
  }

  /** After any number of the loop's writes, all posts but the prioritized one hold distinct instants. */
  lemma EveryWriteBooksOnce(l: Ladder, rungs: seq<Rung>, avoid: set<Instant>, js: seq<nat>, i: nat)
    requires LadderInput(l, rungs, avoid) && Traced(l.all, avoid, rungs, js) && i <= |js|
    ensures InRange(l.all, js)
    ensures NoDoubleBookingBut(PlaceChildren(l.db.children, l.account, TracePlan(l.all, rungs, js[..i])),
                               l.account, l.now, ChildKey(l.post, l.account))
  {
    TraceClimbsLadder(l, rungs, avoid, js, i);
    ClimbedBooksOnce(l, rungs, avoid, i, Claimed(js[..i]), TracePlan(l.all, rungs, js[..i]));
  }

  /** The loop gets stuck exactly when the ladder does not fit, and otherwise carries out its plan. */
  lemma TraceIsLadder(l: Ladder, rungs: seq<Rung>, avoid: set<Instant>, js: seq<nat>)
    requires LadderInput(l, rungs, avoid) && Traced(l.all, avoid, rungs, js) && l.all != []
    requires |js| < |rungs| ==> Stuck(l.all, avoid, rungs, js)
    ensures InRange(l.all, js)
    ensures |js| < |rungs| <==> !l.Fits()
    ensures |js| == |rungs| ==> TracePlan(l.all, rungs, js)[l.post := l.all[0]] == l.Plan()
  {
    TraceClimbsLadder(l, rungs, avoid, js, |js|);
    assert js[..|js|] == js;
    if |js| < |rungs| {
      StuckMisses(l, rungs, avoid, js);
    } else {
      assert PostsOf(rungs) == l.Movers();
      ClimbedIsLadder(l, rungs, Claimed(js), TracePlan(l.all, rungs, js));
    }
  }

  /** The holders are the movable posts, once each, with the instants they hold. */
  ghost predicate Collected(l: Ladder, movable: seq<Holder>) {
    && (forall i, j | 0 <= i < j < |movable| :: movable[i].post != movable[j].post)
    && (forall m | m in movable :: m.post in l.Movable() && m.held == l.Held(m.post))
    && (forall p | p in l.Movable() :: Holder(p, l.Held(p)) in movable)
  }

  /** The collected holders are exactly the movable posts, so there are as many candidates as the ladder expects. */
  lemma MovableIsComplete(l: Ladder, movable: seq<Holder>)
    requires Collected(l, movable)
    ensures |movable| == |l.Movable()|
    ensures (set m | m in movable :: m.held) == l.HeldBy(l.Movable())
  {
    var posts := seq(|movable|, i requires 0 <= i < |movable| => movable[i].post);
    DistinctCardinality(posts);
    forall p ensures p in posts <==> p in l.Movable() {
      if p in posts {
        var i :| 0 <= i < |posts| && posts[i] == p;
        assert movable[i] in movable;
      }
      if p in l.Movable() {
        var i :| 0 <= i < |movable| && movable[i] == Holder(p, l.Held(p));
        assert posts[i] == p;
      }
    }
    assert (set p | p in posts) == l.Movable();
  }

  lemma MoversBecomeRungs(l: Ladder, movable: seq<Holder>, candidates: seq<Instant>, movers: seq<Rung>,
                          rungs: seq<Rung>)
    requires Ascending(l.all) && NoDoubleBooking(l.db.children, l.account, l.now)
    requires Collected(l, movable)
    requires candidates == Take(l.all, |l.Movable()| + 2)
    requires forall r | r in movers :: r.idx < |candidates| && Holder(r.post, candidates[r.idx]) in movable
    requires forall m | m in movable && m.held in candidates :: exists r :: r in movers && r.post == m.post
    requires Descending(rungs) && UniquePosts(rungs) && forall r :: r in rungs <==> r in movers
    ensures LadderInput(l, rungs, l.Occupied() - set r | r in movers :: candidates[r.idx])
  {
    forall r | r in movers ensures r.post in l.Movers() && l.all[r.idx] == candidates[r.idx] == l.Held(r.post) {
      assert Holder(r.post, candidates[r.idx]) in movable;
    }
    forall p | p in l.Movers() ensures exists r :: r in rungs && r.post == p {
      assert Holder(p, l.Held(p)) in movable;
      var r :| r in movers && r.post == p;
      assert r in rungs;
    }
    assert (set r | r in movers :: candidates[r.idx]) == l.HeldBy(l.Movers()) by {
      forall x | x in l.HeldBy(l.Movers()) ensures x in (set r | r in movers :: candidates[r.idx]) {
        var p :| p in l.Movers() && l.Held(p) == x;
        var r :| r in rungs && r.post == p;
        assert r in movers && candidates[r.idx] == x;
      }
    }
  }

  class QueueScheduler {
    const cfg: Config
    var children: map<ChildKey, PlatformPost>
    var entries: map<EntryKey, QueueEntry>
    var parents: map<int, Option<Instant>>

    constructor (cfg: Config, db: Db)
      ensures this.cfg == cfg && Rows() == db
    {
      this.cfg := cfg;
      children, entries, parents := db.children, db.entries, db.parents;
    }

    function Rows(): Db
      reads this
    {
      Db(children, entries, parents)
    }

    /** A transaction that raises leaves the rows as they were. */
    method Rollback(saved: Db)
      modifies this
      ensures Rows() == saved
    {
      children, entries, parents := saved.children, saved.entries, saved.parents;
    }

    method SyncParent(post: int)
      modifies this`parents
      ensures parents == Sync(old(parents), children, post)
    {
      if post in parents {
        parents := parents[post := Earliest(children, post)];
      }
    }

    method WriteEntryAndChild(account: int, queue: int, post: int, t: Instant)
      modifies this
      ensures Rows() == WriteSlot(old(Rows()), account, queue, post, t)
    {
      var e, k := EntryKey(queue, post), ChildKey(post, account);
      if e in entries {
        entries := entries[e := entries[e].(slotAt := Some(t))];
      }
      if k in children {
        children := children[k := children[k].(scheduledAt := Some(t))];
        SyncParent(post);
      }
    }

    method GetOrCreateEntry(queue: int, post: int)
      modifies this`entries
      ensures entries == EnsureEntry(old(entries), queue, post)
    {
      var e := EntryKey(queue, post);
      if e !in entries {
        entries := entries[e := QueueEntry(NextPosition(entries, queue), None)];
      }
    }

    /** Creates the entry if need be and writes one slot. */
    method PlaceAt(account: int, queue: int, post: int, t: Instant)
      modifies this
      ensures Rows() == Place(old(Rows()), account, queue, post, t)
    {
      GetOrCreateEntry(queue, post);
      ghost var mid := Rows();
      AssignNothing(mid, account, queue);
      WritesAddUp(mid, account, queue, map[], post, t);
      WriteEntryAndChild(account, queue, post, t);
    }

    method AddPostNextAvailable(post: int, queue: int, now: Instant) returns (reply: Reply)
      modifies this
      ensures OthersKept(old(children), children, cfg.accountOf(queue))
      ensures reply.QueueFull? ==> Rows() == old(Rows())
      ensures WellFormed(cfg.calendarOf(cfg.accountOf(queue))) ==>
                match AddDb(cfg, old(Rows()), post, queue, now)
                case Full => reply.QueueFull?
                case Done(db) => Rows() == db && !reply.QueueFull?
      ensures reply.Entry? ==> reply.key == EntryKey(queue, post) && reply.key in entries
      ensures reply.NoEntry? ==> EntryKey(queue, post) !in entries
    {
      var account := cfg.accountOf(queue);
      var own := ChildKey(post, account);
      if own in children && Protected(children[own].status) {
        return if EntryKey(queue, post) in entries then Entry(EntryKey(queue, post)) else NoEntry;
      }
      var free := NextAvailableSlot(cfg.calendarOf(account), now, Occupied(children, account, now, own));
      if free.None? {
        return QueueFull;
      }
      PlaceAt(account, queue, post, free.value);
      return Entry(EntryKey(queue, post));
    }

    method ReslotToNextAvailable(e: EntryKey, now: Instant) returns (reply: Reply)
      modifies this
      ensures OthersKept(old(children), children, cfg.accountOf(e.queue))
      ensures reply.QueueFull? ==> Rows() == old(Rows())
      ensures WellFormed(cfg.calendarOf(cfg.accountOf(e.queue))) ==>
                match AddDb(cfg, old(Rows()), e.post, e.queue, now)
                case Full => reply.QueueFull?
                case Done(db) => Rows() == db && !reply.QueueFull?
    {
      reply := AddPostNextAvailable(e.post, e.queue, now);
    }

    ghost function LadderFor(post: int, queue: int, now: Instant): Ladder
      reads this
    {
      LadderOf(cfg, Rows(), post, queue, now)
    }

    method CollectMovable(post: int, queue: int, now: Instant) returns (movable: seq<Holder>)
      ensures Collected(LadderFor(post, queue, now), movable)
    {
      var account := cfg.accountOf(queue);
      ghost var l := LadderFor(post, queue, now);
      movable := [];
      var todo := set e | e in entries && e.queue == queue && e.post != post;
      ghost var seen: set<int> := {};
      while todo != {}
        invariant forall e | e in todo :: e in entries && e.queue == queue && e.post != post && e.post !in seen
        invariant forall i, j | 0 <= i < j < |movable| :: movable[i].post != movable[j].post
        invariant forall m | m in movable :: m.post in seen && m.post in l.Movable() && m.held == l.Held(m.post)
        invariant forall p | p in l.Movable() :: EntryKey(queue, p) in todo || Holder(p, l.Held(p)) in movable
      {
        var e :| e in todo;
        todo := todo - {e};
        seen := seen + {e.post};
        var k := ChildKey(e.post, account);
        assert e == EntryKey(queue, e.post);
        if k in children && Blocks(children[k], now) {
          movable := movable + [Holder(e.post, children[k].scheduledAt.value)];
        }
      }
    }

    /**
     * Moves the rungs one by one from the top, each to the next index that is neither claimed nor
     * avoided, and stops at the first that finds none.
     */
    method ClimbLadder(cal: Calendar, start: seq<Instant>, rungs: seq<Rung>, avoid: set<Instant>, account: int,
                       queue: int, now: Instant, ghost all: seq<Instant>)
      returns (candidates: seq<Instant>, full: bool, ghost js: seq<nat>)
      requires all == Upcoming(cal, now) && start != [] && start <= all
      requires forall r | r in rungs :: r.idx < |start|
      modifies this
      ensures candidates != [] && candidates <= all
      ensures Traced(all, avoid, rungs, js) && InRange(all, js)
      ensures if full then Stuck(all, avoid, rungs, js) else |js| == |rungs|
      ensures Rows() == Assign(old(Rows()), account, queue, TracePlan(all, rungs, js))
    {
      candidates, full, js := start, false, [];
      ghost var before := Rows();
      AssignNothing(before, account, queue);
      var claimed: set<nat> := {0};
      var i := 0;
      while i < |rungs|
        invariant 0 <= i == |js| <= |rungs|
        invariant |start| <= |candidates| && candidates <= all
        invariant claimed == Claimed(js)
        invariant Traced(all, avoid, rungs, js) && InRange(all, js)
        invariant Rows() == Assign(before, account, queue, TracePlan(all, rungs, js))
      {
        var cur := rungs[i];
        assert cur in rungs;
        var j, found;
        candidates, j, found := FindRung(cal, now, candidates, cur.idx + 1, claimed, avoid, all);
        if !found {
          full := true;
          return;
        }
        TraceNext(all, avoid, rungs, js, j);
        WritesAddUp(before, account, queue, TracePlan(all, rungs, js), cur.post, candidates[j]);
        WriteEntryAndChild(account, queue, cur.post, candidates[j]);
        js := js + [j];
        claimed := claimed + {j};
        i := i + 1;
      }
    }

    /** The first upcoming slot is not one of this queue's, so at most a foreign post stands in the way. */
    method TakeFirstOrNextGap(post: int, queue: int, now: Instant, target: Instant) returns (reply: Reply)
      requires Upcoming(cfg.calendarOf(cfg.accountOf(queue)), now) != []
      requires target == Upcoming(cfg.calendarOf(cfg.accountOf(queue)), now)[0]
      modifies this
      ensures OthersKept(old(children), children, cfg.accountOf(queue))
      ensures reply.QueueFull? || reply == Entry(EntryKey(queue, post))
      ensures WellFormed(cfg.calendarOf(cfg.accountOf(queue))) ==>
                var a := cfg.accountOf(queue);
                match FirstFree(Upcoming(cfg.calendarOf(a), now), Occupied(old(children), a, now, ChildKey(post, a)))
                case None => reply.QueueFull?
                case Some(t) => !reply.QueueFull? && Rows() == Assign(old(Rows()), a, queue, map[post := t])
      ensures reply.QueueFull? ==> Rows() == old(Rows())
    {
      var account := cfg.accountOf(queue);
      var occupied := Occupied(children, account, now, ChildKey(post, account));
      var slot := target;
      if target in occupied {
        var free := NextAvailableSlot(cfg.calendarOf(account), now, occupied);
        if free.None? {
          return QueueFull;
        }
        slot := free.value;
      }
      AssignNothing(Rows(), account, queue);
      WritesAddUp(Rows(), account, queue, map[], post, slot);
      WriteEntryAndChild(account, queue, post, slot);
      return Entry(EntryKey(queue, post));
    }

    method Prioritize(post: int, queue: int, now: Instant) returns (reply: Reply)
      modifies this
      ensures OthersKept(old(children), children, cfg.accountOf(queue))
      ensures reply.QueueFull? ==> Rows() == old(Rows())
      ensures WellFormed(cfg.calendarOf(cfg.accountOf(queue))) &&
              NoDoubleBooking(old(children), cfg.accountOf(queue), now) ==>
                match PrioritizeDb(cfg, old(Rows()), post, queue, now)
                case Full => reply.QueueFull?
                case Done(db) => Rows() == db && reply == Entry(EntryKey(queue, post))
    {
      var account := cfg.accountOf(queue);
      var cal := cfg.calendarOf(account);
      var saved := Rows();
      ghost var l := LadderFor(post, queue, now);
      var movable := CollectMovable(post, queue, now);
      var movableTimes := set m | m in movable :: m.held;
      MovableIsComplete(l, movable);
      var candidates := NextSlotDatetimes(cal, now, |movable| + 2);
      if candidates == [] {
        return QueueFull;
      }
      GetOrCreateEntry(queue, post);
      ghost var ensured := Rows();
      var target := candidates[0];
      if target !in movableTimes {
        reply := TakeFirstOrNextGap(post, queue, now, target);
        if reply.QueueFull? { Rollback(saved); }
        return;
      }
      ghost var plan;
      candidates, plan := LadderUp(account, queue, post, now, movable, candidates, l);
      if candidates == [] {
        Rollback(saved);
        return QueueFull;
      }
      WritesAddUp(ensured, account, queue, plan, post, candidates[0]);
      WriteEntryAndChild(account, queue, post, candidates[0]);
      return Entry(EntryKey(queue, post));
    }

    /** Moves every queue entry within the candidates up the ladder; no candidates are left when it does not fit. */
    method LadderUp(account: int, queue: int, post: int, now: Instant, movable: seq<Holder>, start: seq<Instant>,
                    ghost l: Ladder)
      returns (candidates: seq<Instant>, ghost plan: map<int, Instant>)
      requires Collected(l, movable) && l.account == account && l.post == post && l.now == now
      requires l.db.children == children && l.all == Upcoming(cfg.calendarOf(account), now)
      requires start != [] && start == Take(l.all, |l.Movable()| + 2)
      modifies this
      ensures candidates <= l.all
      ensures candidates != [] ==> Rows() == Assign(old(Rows()), account, queue, plan)
      ensures WellFormed(cfg.calendarOf(account)) && NoDoubleBooking(l.db.children, account, now) ==>
                (candidates == [] <==> !l.Fits()) && (candidates != [] ==> plan[l.post := l.all[0]] == l.Plan())
    {
      var cal := cfg.calendarOf(account);
      var movers := IndexMovers(movable, start);
      var moverTimes := set r | r in movers :: start[r.idx];
      var rungs := SortByIndexDescending(movers);
      var avoid := Occupied(children, account, now, ChildKey(post, account)) - moverTimes;
      if WellFormed(cal) && NoDoubleBooking(children, account, now) {
        UpcomingAscends(cal, now);
        MoversBecomeRungs(l, movable, start, movers, rungs);
      }
      var full: bool;
      ghost var js;
      candidates, full, js := ClimbLadder(cal, start, rungs, avoid, account, queue, now, l.all);
      plan := TracePlan(l.all, rungs, js);
      if WellFormed(cal) && NoDoubleBooking(l.db.children, account, now) {
        TraceIsLadder(l, rungs, avoid, js);
      }
      if full {
        candidates := [];
      }
    }

    method RemoveFromQueue(e: EntryKey)
      modifies this
      ensures Rows() == RemoveDb(cfg, old(Rows()), e)
    {
      var account := cfg.accountOf(e.queue);
      var k := ChildKey(e.post, account);
      if k in children && !Protected(children[k].status) && CanBecomeDraft(children[k].status) {
        children := children[k := children[k].(status := Draft, scheduledAt := None)];
        entries := map f | f in entries && !(f.post == e.post && cfg.accountOf(f.queue) == account) :: entries[f];
        SyncParent(e.post);
      }
      entries := entries - {e};
      SyncParent(e.post);
    }

    method ReorderQueue(queue: int, ids: seq<EntryKey>)
      modifies this
      ensures Rows() == ReorderDb(cfg, old(Rows()), queue, ids)
    {
      var account := cfg.accountOf(queue);
      var before := Rows();
      var ordered: seq<EntryKey> := [];
      var i := 0;
      while i < |ids|
        invariant 0 <= i <= |ids|
        invariant ordered == Named(before, account, queue, ids[..i])
      {
        var e := ids[i];
        assert ids[..i + 1][..i] == ids[..i];
        if e in entries && e.queue == queue && !IsProtected(children, ChildKey(e.post, account)) {
          ordered := ordered + [e];
        }
        i := i + 1;
      }
      assert ids[..i] == ids;
      NamedAreEntries(before, account, queue, ids);
      var posts := Slotted(before, account, ordered);
      SlottedHold(before, account, ordered);
      var slots := Sorted(Times(before, account, posts));
      SortedSorts(Times(before, account, posts));
      DealSlots(account, queue, posts, slots);
      RenumberEntries(before.entries, ordered);
    }

    method DealSlots(account: int, queue: int, posts: seq<int>, slots: seq<Instant>)
      requires |posts| == |slots|
      modifies this
      ensures Rows() == Assign(old(Rows()), account, queue, Deal(posts, slots))
    {
      ghost var before, plan := Rows(), map[];
      AssignNothing(before, account, queue);
      var i := 0;
      while i < |posts|
        invariant 0 <= i <= |posts|
        invariant plan == Deal(posts[..i], slots[..i])
        invariant Rows() == Assign(before, account, queue, plan)
      {
        WritesAddUp(before, account, queue, plan, posts[i], slots[i]);
        DealPrefix(posts, slots, i);
        WriteEntryAndChild(account, queue, posts[i], slots[i]);
        plan := plan[posts[i] := slots[i]];
        i := i + 1;
      }
      assert posts[..i] == posts && slots[..i] == slots;
    }

    method RenumberEntries(before: map<EntryKey, QueueEntry>, ordered: seq<EntryKey>)
      requires forall e | e in ordered :: e in entries && e in before
      modifies this`entries
      ensures entries == Renumber(old(entries), before, ordered)
    {
      ghost var start := entries;
      var i := 0;
      while i < |ordered|
        invariant 0 <= i <= |ordered|
        invariant entries == Renumber(start, before, ordered[..i])
      {
        var e := ordered[i];
        assert ordered[..i + 1][..i] == ordered[..i];
        if before[e].position != i {
          entries := entries[e := entries[e].(position := i)];
        }
        i := i + 1;
      }
      assert ordered[..i] == ordered;
    }
  }
}
