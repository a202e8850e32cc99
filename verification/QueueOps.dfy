/** What each queue operation does to the rows, stated without its loops. */
module QueueOps {
  import opened Prelude
  import opened PostingSlots
  import opened Availability
  import opened ScheduleStore

  /** Full is the QueueFullError: the transaction rolls back and nothing changes. */
  datatype Outcome = Done(db: Db) | Full

  function NextPosition(entries: map<EntryKey, QueueEntry>, queue: int): nat {
    var positions := set e | e in entries && e.queue == queue :: entries[e].position as int;
    if positions == {} then 1 else MaxOf(positions) + 1
  }

  function EnsureEntry(entries: map<EntryKey, QueueEntry>, queue: int, post: int): map<EntryKey, QueueEntry> {
    var e := EntryKey(queue, post);
    if e in entries then entries else entries[e := QueueEntry(NextPosition(entries, queue), None)]
  }

  /** The post's entry and child go to t; nothing else moves. */
  function Place(db: Db, account: int, queue: int, post: int, t: Instant): Db {
    Assign(db.(entries := EnsureEntry(db.entries, queue, post)), account, queue, map[post := t])
  }

  predicate IsProtected(children: map<ChildKey, PlatformPost>, k: ChildKey) {
    k in children && Protected(children[k].status)
  }

  // ----- next available

  function AddDb(cfg: Config, db: Db, post: int, queue: int, now: Instant): Outcome {
    var account := cfg.accountOf(queue);
    var own := ChildKey(post, account);
    if IsProtected(db.children, own) then Done(db)
    else
      match FirstFree(Upcoming(cfg.calendarOf(account), now), Occupied(db.children, account, now, own))
      case None => Full
      case Some(t) => Done(Place(db, account, queue, post, t))
  }

  // ----- prioritize

  predicate HoldsSlot(db: Db, account: int, p: int) {
    ChildKey(p, account) in db.children && db.children[ChildKey(p, account)].scheduledAt.Some?
  }

  function SlotHeld(db: Db, account: int, p: int): Instant
    requires HoldsSlot(db, account, p)
  {
    db.children[ChildKey(p, account)].scheduledAt.value
  }

  /** One call of prioritize: the rows, the post and its queue, and the upcoming slots. */
  datatype Ladder = Ladder(db: Db, account: int, queue: int, post: int, now: Instant, all: seq<Instant>) {

    /** Posts of this queue, other than `post`, that hold a future instant and may be moved. */
    function Movable(): (posts: set<int>)
      ensures forall p | p in posts :: HoldsSlot(db, account, p)
    {
      set e | e in db.entries && e.queue == queue && e.post != post &&
        ChildKey(e.post, account) in db.children && Blocks(db.children[ChildKey(e.post, account)], now) :: e.post
    }

    function Held(p: int): Instant
      requires HoldsSlot(db, account, p)
    {
      SlotHeld(db, account, p)
    }

    function HeldBy(posts: set<int>): set<Instant>
      requires forall p | p in posts :: HoldsSlot(db, account, p)
    {
      set p | p in posts :: Held(p)
    }

    /** The movable posts the ladder really moves: those within the first |movable| + 2 slots. */
    function Movers(): (posts: set<int>)
      ensures posts <= Movable()
    {
      set p | p in Movable() && Held(p) in Take(all, |Movable()| + 2)
    }

    function Occupied(): set<Instant> {
      ScheduleStore.Occupied(db.children, account, now, ChildKey(post, account))
    }

    /** Instants the ladder must step over: held on the channel by a post that stays. */
    function Fixed(): set<Instant> {
      Occupied() - HeldBy(Movers())
    }

    /** A mover's next instant: the first slot after its own that no staying post holds. */
    function NextRung(p: int): Option<Instant>
      requires p in Movers()
    {
      FirstFreeAfter(all, Held(p), Fixed())
    }

    /** Every mover at or above an instant has a next rung. */
    predicate FitsFrom(from: Instant) {
      forall p | p in Movers() && Held(p) >= from :: NextRung(p).Some?
    }

    predicate Fits() {
      forall p | p in Movers() :: NextRung(p).Some?
    }

    function Plan(): map<int, Instant>
      requires all != [] && Fits()
    {
      (map p | p in Movers() :: NextRung(p).value)[post := all[0]]
    }

    /** The first upcoming slot is taken by this queue, so the others must climb. */
    predicate NeedsLadder() {
      all != [] && all[0] in HeldBy(Movable())
    }

    /** The movers at or above a threshold, already moved: what a half-done ladder has written. */
    function UpperRungs(from: Instant): map<int, Instant>
      requires FitsFrom(from)
    {
      map p | p in Movers() && Held(p) >= from :: NextRung(p).value
    }
  }

  function LadderOf(cfg: Config, db: Db, post: int, queue: int, now: Instant): Ladder {
    Ladder(db, cfg.accountOf(queue), queue, post, now, Upcoming(cfg.calendarOf(cfg.accountOf(queue)), now))
  }

  function PrioritizeDb(cfg: Config, db: Db, post: int, queue: int, now: Instant): Outcome {
    var l := LadderOf(cfg, db, post, queue, now);
    if l.all == [] then Full
    else if l.NeedsLadder() then
      if l.Fits() then
        Done(Assign(db.(entries := EnsureEntry(db.entries, queue, post)), l.account, queue, l.Plan()))
      else Full
    else
      match FirstFree(l.all, l.Occupied())
      case None => Full
      case Some(t) => Done(Place(db, l.account, queue, post, t))
  }

  // ----- remove

  function RemoveDb(cfg: Config, db: Db, e: EntryKey): Db {
    var account := cfg.accountOf(e.queue);
    var k := ChildKey(e.post, account);
    var drafted := k in db.children && !Protected(db.children[k].status) && CanBecomeDraft(db.children[k].status);
    var children :=
      if drafted then db.children[k := db.children[k].(status := Draft, scheduledAt := None)] else db.children;
    var entries := map f | f in db.entries && f != e &&
      !(drafted && f.post == e.post && cfg.accountOf(f.queue) == account) :: db.entries[f];
    Db(children, entries, Sync(db.parents, children, e.post))
  }

  // ----- what the ladder guarantees

  lemma MoversAreFree(l: Ladder, p: int)
    requires p in l.Movers()
    ensures l.Held(p) in l.all && l.Held(p) !in l.Fixed()
    ensures ChildKey(p, l.account) in l.db.children && Blocks(l.db.children[ChildKey(p, l.account)], l.now) &&
      p != l.post
  {}

  /** Each mover climbs strictly, and no further than the instant the next mover leaves. */
  lemma LadderKeepsOrder(l: Ladder, p: int, q: int)
    requires Ascending(l.all)
    requires p in l.Movers() && q in l.Movers()
    requires l.Held(p) < l.Held(q)
    ensures var rung := l.NextRung(p);
      rung.Some? && l.Held(p) < rung.value <= l.Held(q)
    ensures var rung, above := l.NextRung(p), l.NextRung(q);
      above.Some? ==> rung.value < above.value
  {
    var fixed := l.Fixed();
    MoversAreFree(l, q);
    FirstFreeAfterIsNext(l.all, l.Held(p), fixed);
    FirstFreeAfterIsNext(l.all, l.Held(q), fixed);
  }

  ghost predicate IsTopMover(l: Ladder, top: int) {
    && top in l.Movers()
    && forall p | p in l.Movers() :: l.Held(p) <= l.Held(top)
  }

  /** Only the highest mover can run off the horizon: exactly when staying posts hold every slot after it. */
  lemma OnlyTheTopMoverCanFail(l: Ladder, top: int)
    requires Ascending(l.all)
    requires IsTopMover(l, top)
    ensures !l.Fits() <==>
            forall x | x in l.all && x > l.Held(top) :: x in l.Fixed()
  {
    var fixed := l.Fixed();
    FirstFreeAfterIsNext(l.all, l.Held(top), fixed);
    assert l.NextRung(top) == FirstFreeAfter(l.all, l.Held(top), fixed);
    if l.NextRung(top).Some? {
      forall p | p in l.Movers()
        ensures l.NextRung(p).Some?
      {
        if l.Held(p) < l.Held(top) {
          LadderKeepsOrder(l, p, top);
        }
      }
    }
  }

  /** A mover goes from slot k to slot k + 1 exactly when no staying post holds slot k + 1. */
  lemma LadderShiftsByOne(l: Ladder, p: int, k: nat)
    requires Ascending(l.all)
    requires p in l.Movers() && k + 1 < |l.all| && l.all[k] == l.Held(p)
    ensures l.NextRung(p) == Some(l.all[k + 1]) <==> l.all[k + 1] !in l.Fixed()
  {
    var next := l.all[k + 1];
    FirstFreeAfterIsNext(l.all, l.Held(p), l.Fixed());
    assert next in l.all;
    forall y | y in l.all && l.Held(p) < y ensures y >= next {
      var i :| 0 <= i < |l.all| && l.all[i] == y;
    }
  }

  /** From the last slot there is no next one. */
  lemma LadderEndsAtTheHorizon(l: Ladder, p: int)
    requires Ascending(l.all)
    requires p in l.Movers() && l.all[|l.all| - 1] == l.Held(p)
    ensures l.NextRung(p) == None
  {
    FirstFreeAfterIsNext(l.all, l.Held(p), l.Fixed());
    forall y | y in l.all ensures y <= l.Held(p) {
      var i :| 0 <= i < |l.all| && l.all[i] == y;
    }
  }

  /** With no staying post on any slot the whole ladder shifts by one. */
  lemma UnhinderedLadderShifts(l: Ladder, p: int, k: nat)
    requires Ascending(l.all)
    requires forall x | x in l.all :: x !in l.Fixed()
    requires p in l.Movers() && k < |l.all| && l.all[k] == l.Held(p)
    ensures l.NextRung(p) == if k + 1 < |l.all| then Some(l.all[k + 1]) else None
  {
    if k + 1 < |l.all| {
      LadderShiftsByOne(l, p, k);
    } else {
      LadderEndsAtTheHorizon(l, p);
    }
  }

  // ----- when prioritize succeeds

  /** A slot is left for prioritize: above the highest mover when it must ladder, anywhere otherwise. */
  ghost predicate HasRoom(l: Ladder) {
    && l.all != []
    && if l.NeedsLadder() then
         forall top | IsTopMover(l, top) :: exists x :: x in l.all && x > l.Held(top) && x !in l.Fixed()
       else exists x :: x in l.all && x !in l.Occupied()
  }

  lemma TopMoverExists(l: Ladder) returns (top: int)
    requires l.NeedsLadder()
    ensures IsTopMover(l, top)
  {
    var first :| first in l.Movable() && l.Held(first) == l.all[0];
    assert first in l.Movers();
    var held := l.HeldBy(l.Movers());
    assert l.Held(first) in held;
    var highest := MaxOf(held);
    assert forall y | y in held :: y <= highest;
    top :| top in l.Movers() && l.Held(top) == highest;
    forall p | p in l.Movers() ensures l.Held(p) <= highest {
      assert l.Held(p) in held;
    }
  }

  lemma LadderFitsWithRoom(l: Ladder)
    requires Ascending(l.all) && l.NeedsLadder()
    ensures l.Fits() <==> HasRoom(l)
  {
    var top := TopMoverExists(l);
    OnlyTheTopMoverCanFail(l, top);
    if l.Fits() {
      forall t | IsTopMover(l, t) ensures exists x :: x in l.all && x > l.Held(t) && x !in l.Fixed() {
        OnlyTheTopMoverCanFail(l, t);
      }
    }
  }

  /** Prioritize raises exactly when no such slot is left. */
  lemma PrioritizeNeedsRoom(cfg: Config, db: Db, post: int, queue: int, now: Instant)
    requires WellFormed(cfg.calendarOf(cfg.accountOf(queue)))
    ensures PrioritizeDb(cfg, db, post, queue, now).Done? <==> HasRoom(LadderOf(cfg, db, post, queue, now))
  {
    var l := LadderOf(cfg, db, post, queue, now);
    UpcomingAscends(cfg.calendarOf(l.account), now);
    if l.NeedsLadder() {
      LadderFitsWithRoom(l);
    } else {
      FirstFreeIsEarliest(l.all, l.Occupied());
    }
  }

  ghost predicate NoDoubleBookingBut(children: map<ChildKey, PlatformPost>, account: int, now: Instant, but: ChildKey) {
    NoDoubleBooking(children - {but}, account, now)
  }

  /** After every intermediate write, working down from the top, all other posts still hold distinct instants. */
  lemma LadderNeverDoubleBooks(l: Ladder, from: Instant)
    requires Ascending(l.all) && l.FitsFrom(from)
    requires NoDoubleBooking(l.db.children, l.account, l.now)
    ensures NoDoubleBookingBut(
              PlaceChildren(l.db.children, l.account, l.UpperRungs(from)), l.account, l.now,
              ChildKey(l.post, l.account))
  {
    var own, plan := ChildKey(l.post, l.account), l.UpperRungs(from);
    var others := l.db.children - {own};
    forall p, k | p in plan && k in others && k.account == l.account && k.post !in plan && Blocks(others[k], l.now)
      ensures others[k].scheduledAt != Some(plan[p])
    {
      RungAvoidsStayers(l, p, k);
      if k.post in l.Movers() {
        assert k == ChildKey(k.post, l.account) && l.Held(k.post) < from;
      }
    }
    RungsDistinct(l);
    assert CleanPlan(others, l.account, l.now, plan);
    CleanPlanKeepsBooking(others, l.account, l.now, plan, l.account);
    assert l.post !in plan;
    assert PlaceChildren(l.db.children, l.account, plan) - {own} == PlaceChildren(others, l.account, plan);
  }

  lemma RungsDistinct(l: Ladder)
    requires Ascending(l.all)
    requires NoDoubleBooking(l.db.children, l.account, l.now)
    ensures forall p, q | p in l.Movers() && q in l.Movers() && p != q ::
      l.NextRung(p) != l.NextRung(q)
  {
    forall p, q | p in l.Movers() && q in l.Movers() && p != q
      ensures l.NextRung(p) != l.NextRung(q)
    {
      MoversAreFree(l, p);
      MoversAreFree(l, q);
      assert ChildKey(p, l.account) != ChildKey(q, l.account);
      if l.Held(p) < l.Held(q) {
        LadderKeepsOrder(l, p, q);
      } else {
        LadderKeepsOrder(l, q, p);
      }
    }
  }

  /** A rung is never the instant of a post that stays, nor of a mover at or below its own instant. */
  lemma RungAvoidsStayers(l: Ladder, p: int, k: ChildKey)
    requires Ascending(l.all)
    requires NoDoubleBooking(l.db.children, l.account, l.now)
    requires p in l.Movers() && l.NextRung(p).Some?
    requires k in l.db.children && k.account == l.account && k.post != l.post && Blocks(l.db.children[k], l.now)
    requires k.post in l.Movers() ==> l.Held(k.post) <= l.Held(p)
    ensures l.db.children[k].scheduledAt != l.NextRung(p)
  {
    var fixed := l.Fixed();
    FirstFreeAfterIsNext(l.all, l.Held(p), fixed);
    assert k == ChildKey(k.post, l.account);
    var t := l.db.children[k].scheduledAt.value;
    if k.post !in l.Movers() {
      StayersAreFixed(l, k);
    }
  }

  lemma StayersAreFixed(l: Ladder, k: ChildKey)
    requires NoDoubleBooking(l.db.children, l.account, l.now)
    requires k in l.db.children && k.account == l.account && k.post != l.post && Blocks(l.db.children[k], l.now)
    requires k.post !in l.Movers()
    ensures l.db.children[k].scheduledAt.value in l.Fixed()
  {}

  // ----- no operation double-books

  lemma PlaceKeepsBooking(db: Db, account: int, queue: int, post: int, now: Instant, t: Instant, other: int)
    requires NoDoubleBooking(db.children, other, now)
    requires t !in Occupied(db.children, account, now, ChildKey(post, account))
    ensures NoDoubleBooking(Place(db, account, queue, post, t).children, other, now)
  {}

  lemma {:induction false} FirstFreeIsFree(candidates: seq<Instant>, taken: set<Instant>)
    ensures FirstFree(candidates, taken).Some? ==> FirstFree(candidates, taken).value !in taken
  {
    if candidates == [] {
    } else {
      FirstFreeIsFree(candidates[1..], taken);
    }
  }

  lemma AddKeepsBooking(cfg: Config, db: Db, post: int, queue: int, now: Instant, other: int)
    requires NoDoubleBooking(db.children, other, now)
    ensures AddDb(cfg, db, post, queue, now).Done? ==>
              NoDoubleBooking(AddDb(cfg, db, post, queue, now).db.children, other, now)
  {
    var account := cfg.accountOf(queue);
    var all := Upcoming(cfg.calendarOf(account), now);
    var occupied := Occupied(db.children, account, now, ChildKey(post, account));
    FirstFreeIsFree(all, occupied);
    if FirstFree(all, occupied).Some? {
      PlaceKeepsBooking(db, account, queue, post, now, FirstFree(all, occupied).value, other);
    }
  }

  lemma RungIsHigher(l: Ladder, p: int)
    requires Ascending(l.all) && l.all != [] && p in l.Movers() && l.NextRung(p).Some?
    ensures p != l.post && l.NextRung(p).value > l.all[0]
  {
    MoversAreFree(l, p);
    FirstFreeAfterIsNext(l.all, l.Held(p), l.Fixed());
  }

  /** The first instant is held by a mover, so no post that stays is on it. */
  lemma FirstInstantIsVacated(l: Ladder, k: ChildKey)
    requires l.NeedsLadder() && NoDoubleBooking(l.db.children, l.account, l.now)
    requires k in l.db.children && k.account == l.account && k.post !in l.Movers() && k.post != l.post
    requires Blocks(l.db.children[k], l.now)
    ensures l.db.children[k].scheduledAt != Some(l.all[0])
  {}

  lemma LadderPlanIsClean(l: Ladder)
    requires Ascending(l.all) && l.NeedsLadder() && l.Fits()
    requires NoDoubleBooking(l.db.children, l.account, l.now)
    ensures CleanPlan(l.db.children, l.account, l.now, l.Plan())
  {
    var plan := l.Plan();
    forall p | p in l.Movers() ensures p != l.post && plan[p] > l.all[0] { RungIsHigher(l, p); }
    RungsDistinct(l);
    forall p, k | p in plan && k in l.db.children && k.account == l.account && k.post !in plan &&
      Blocks(l.db.children[k], l.now)
      ensures l.db.children[k].scheduledAt != Some(plan[p])
    {
      if p == l.post {
        FirstInstantIsVacated(l, k);
      } else {
        RungAvoidsStayers(l, p, k);
      }
    }
  }

  /** Whatever the operated channel looks like, the rows of other channels stay as they are. */
  lemma PrioritizeKeepsOthers(cfg: Config, db: Db, post: int, queue: int, now: Instant)
    ensures PrioritizeDb(cfg, db, post, queue, now).Done? ==>
              OthersKept(db.children, PrioritizeDb(cfg, db, post, queue, now).db.children, cfg.accountOf(queue))
  {}

  /** A channel that starts distinct stays distinct, whichever channel the queue belongs to. */
  lemma PrioritizeKeepsBooking(cfg: Config, db: Db, post: int, queue: int, now: Instant, other: int)
    requires cfg.accountOf(queue) == other ==> WellFormed(cfg.calendarOf(other))
    requires NoDoubleBooking(db.children, other, now)
    ensures PrioritizeDb(cfg, db, post, queue, now).Done? ==>
              NoDoubleBooking(PrioritizeDb(cfg, db, post, queue, now).db.children, other, now)
  {
    var l := LadderOf(cfg, db, post, queue, now);
    if l.account == other {
      OwnChannelKeepsBooking(cfg, db, post, queue, now);
    } else if PrioritizeDb(cfg, db, post, queue, now).Done? {
      PrioritizeKeepsOthers(cfg, db, post, queue, now);
      OtherChannelKeepsBooking(db.children, PrioritizeDb(cfg, db, post, queue, now).db.children, l.account, other, now);
    }
  }

  lemma OwnChannelKeepsBooking(cfg: Config, db: Db, post: int, queue: int, now: Instant)
    requires WellFormed(cfg.calendarOf(cfg.accountOf(queue)))
    requires NoDoubleBooking(db.children, cfg.accountOf(queue), now)
    ensures PrioritizeDb(cfg, db, post, queue, now).Done? ==>
              NoDoubleBooking(PrioritizeDb(cfg, db, post, queue, now).db.children, cfg.accountOf(queue), now)
  {
    var l := LadderOf(cfg, db, post, queue, now);
    UpcomingAscends(cfg.calendarOf(l.account), now);
    if l.NeedsLadder() {
      if l.Fits() {
        LadderPlanIsClean(l);
        CleanPlanKeepsBooking(db.children, l.account, now, l.Plan(), l.account);
      }
    } else {
      FirstFreeIsFree(l.all, l.Occupied());
      if FirstFree(l.all, l.Occupied()).Some? {
        PlaceKeepsBooking(db, l.account, queue, post, now, FirstFree(l.all, l.Occupied()).value, l.account);
      }
    }
  }

  /**
   * Removal frees the post's instant unless its status cannot become a draft: a draft itself, or
   * a post under review, keeps its schedule and goes on blocking it.
   */
  lemma RemovalFreesTheInstant(cfg: Config, db: Db, e: EntryKey, now: Instant)
    requires ChildKey(e.post, cfg.accountOf(e.queue)) in db.children
    ensures var k, after := ChildKey(e.post, cfg.accountOf(e.queue)), RemoveDb(cfg, db, e).children;
      k in after && (Blocks(after[k], now) <==>
        Blocks(db.children[k], now) && db.children[k].status in {Draft, PendingReview, PendingClient})
  {}

  lemma RemoveKeepsBooking(cfg: Config, db: Db, e: EntryKey, now: Instant, other: int)
    requires NoDoubleBooking(db.children, other, now)
    ensures NoDoubleBooking(RemoveDb(cfg, db, e).children, other, now)
  {}
}
