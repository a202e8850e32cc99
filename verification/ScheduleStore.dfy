/** The rows the queue operations read and write, and the one write they all share. */
module ScheduleStore {
  import opened Prelude
  import opened PostingSlots

  datatype Status =
    | Draft | PendingReview | PendingClient | Approved | ChangesRequested | Rejected
    | Scheduled | Publishing | Published | Failed | OnHold

  /** A post has at most one child per account and one entry per queue, so these pairs are the row ids. */
  datatype ChildKey = ChildKey(post: int, account: int)
  datatype EntryKey = EntryKey(queue: int, post: int)

  datatype PlatformPost = PlatformPost(status: Status, scheduledAt: Option<Instant>, publishedAt: Option<Instant>)
  datatype QueueEntry = QueueEntry(position: nat, slotAt: Option<Instant>)

  datatype Db = Db(
    children: map<ChildKey, PlatformPost>,
    entries: map<EntryKey, QueueEntry>,
    parents: map<int, Option<Instant>>)

  /** Which account a queue posts to, and the calendar of each account. */
  datatype Config = Config(accountOf: int -> int, calendarOf: int -> Calendar)

  predicate Protected(s: Status) { s == Published || s == Publishing }

  predicate CanBecomeDraft(s: Status) {
    s in {Approved, ChangesRequested, Rejected, Scheduled, Failed, OnHold}
  }

  /** The row claims its instant: not history, and still to come. */
  predicate Blocks(p: PlatformPost, now: Instant) {
    !Protected(p.status) && p.scheduledAt.Some? && p.scheduledAt.value > now
  }

  function Occupied(
    children: map<ChildKey, PlatformPost>, account: int, now: Instant, exclude: ChildKey): set<Instant>
  {
    set k | k in children && k.account == account && k != exclude && Blocks(children[k], now) ::
      children[k].scheduledAt.value
  }

  /** No two posts of the account claim the same future instant. */
  ghost predicate NoDoubleBooking(children: map<ChildKey, PlatformPost>, account: int, now: Instant) {
    forall a, b | a in children && b in children && a != b && a.account == account && b.account == account &&
      Blocks(children[a], now) && Blocks(children[b], now) ::
      children[a].scheduledAt != children[b].scheduledAt
  }

  function ChildTimes(children: map<ChildKey, PlatformPost>, post: int): set<Instant> {
    set k | k in children && k.post == post && children[k].scheduledAt.Some? :: children[k].scheduledAt.value
  }

  /** The schedule a parent should show: the least of its children's, if any child has one. */
  function Earliest(children: map<ChildKey, PlatformPost>, post: int): Option<Instant> {
    var times := ChildTimes(children, post);
    if times == {} then None else Some(MinOf(times))
  }

  function Sync(parents: map<int, Option<Instant>>, children: map<ChildKey, PlatformPost>, post: int)
    : map<int, Option<Instant>>
  {
    if post in parents then parents[post := Earliest(children, post)] else parents
  }

  /** t is the time of some child of the post and at most that of every one, or no child has a time. */
  ghost predicate IsLeastTime(children: map<ChildKey, PlatformPost>, post: int, t: Option<Instant>) {
    && (t.None? <==> forall k | k in children && k.post == post :: children[k].scheduledAt.None?)
    && (t.Some? ==> exists k :: k in children && k.post == post && children[k].scheduledAt == t)
    && forall k | t.Some? && k in children && k.post == post && children[k].scheduledAt.Some? ::
         t.value <= children[k].scheduledAt.value
  }

  /** Exactly one value is. */
  lemma EarliestIsLeastTime(children: map<ChildKey, PlatformPost>, post: int, t: Option<Instant>)
    ensures IsLeastTime(children, post, t) <==> t == Earliest(children, post)
  {
    var times := ChildTimes(children, post);
    forall k | k in children && k.post == post && children[k].scheduledAt.Some?
      ensures children[k].scheduledAt.value in times
    {}
    if times != {} {
      var k :| k in children && k.post == post && children[k].scheduledAt == Some(MinOf(times));
    }
  }

  ghost predicate ParentsInSync(db: Db) {
    forall p | p in db.parents :: IsLeastTime(db.children, p, db.parents[p])
  }

  lemma InSyncShowsEarliest(db: Db)
    ensures ParentsInSync(db) <==> forall p | p in db.parents :: db.parents[p] == Earliest(db.children, p)
  {
    forall p | p in db.parents
      ensures IsLeastTime(db.children, p, db.parents[p]) <==> db.parents[p] == Earliest(db.children, p)
    {
      EarliestIsLeastTime(db.children, p, db.parents[p]);
    }
  }

  /** The publisher's due time: the child's own, else its parent's. */
  function Effective(db: Db, k: ChildKey): Option<Instant>
    requires k in db.children
  {
    if db.children[k].scheduledAt.Some? then db.children[k].scheduledAt
    else if k.post in db.parents then db.parents[k.post] else None
  }

  // ----- placing posts on instants

  function PlaceChild(k: ChildKey, p: PlatformPost, account: int, plan: map<int, Instant>): PlatformPost {
    if k.account == account && k.post in plan then p.(scheduledAt := Some(plan[k.post])) else p
  }

  function PlaceChildren(children: map<ChildKey, PlatformPost>, account: int, plan: map<int, Instant>)
    : map<ChildKey, PlatformPost>
  {
    map k | k in children :: PlaceChild(k, children[k], account, plan)
  }

  function PlaceEntries(entries: map<EntryKey, QueueEntry>, queue: int, plan: map<int, Instant>)
    : map<EntryKey, QueueEntry>
  {
    map e | e in entries ::
      if e.queue == queue && e.post in plan then entries[e].(slotAt := Some(plan[e.post])) else entries[e]
  }

  function PlacedParents(db: Db, account: int, plan: map<int, Instant>): map<int, Option<Instant>> {
    map p | p in db.parents ::
      if p in plan && ChildKey(p, account) in db.children
      then Earliest(PlaceChildren(db.children, account, plan), p)
      else db.parents[p]
  }

  /**
   * All at once: each post in the plan gets its instant on the queue's account, its entry
   * records it, and its parent is resynced when it has a child there. Nothing else changes.
   */
  function Assign(db: Db, account: int, queue: int, plan: map<int, Instant>): Db {
    Db(PlaceChildren(db.children, account, plan),
       PlaceEntries(db.entries, queue, plan),
       PlacedParents(db, account, plan))
  }

  /** One slot write, as the source performs it. */
  function WriteSlot(db: Db, account: int, queue: int, post: int, t: Instant): Db {
    var e, k := EntryKey(queue, post), ChildKey(post, account);
    var entries := if e in db.entries then db.entries[e := db.entries[e].(slotAt := Some(t))] else db.entries;
    if k in db.children then
      var children := db.children[k := db.children[k].(scheduledAt := Some(t))];
      Db(children, entries, Sync(db.parents, children, post))
    else
      db.(entries := entries)
  }

  lemma EarliestFrame(a: map<ChildKey, PlatformPost>, b: map<ChildKey, PlatformPost>, post: int)
    requires forall k :: (k in a && k.post == post) <==> (k in b && k.post == post)
    requires forall k | k in a && k.post == post :: a[k].scheduledAt == b[k].scheduledAt
    ensures Earliest(a, post) == Earliest(b, post)
  {
    assert ChildTimes(a, post) == ChildTimes(b, post) by {
      forall x | x in ChildTimes(a, post) ensures x in ChildTimes(b, post) {
        var k :| k in a && k.post == post && a[k].scheduledAt == Some(x);
        assert k in b && b[k].scheduledAt == Some(x);
      }
      forall x | x in ChildTimes(b, post) ensures x in ChildTimes(a, post) {
        var k :| k in b && k.post == post && b[k].scheduledAt == Some(x);
        assert k in a && a[k].scheduledAt == Some(x);
      }
    }
  }

  lemma AssignNothing(db: Db, account: int, queue: int)
    ensures Assign(db, account, queue, map[]) == db
  {}

  lemma PlaceOneMoreChild(children: map<ChildKey, PlatformPost>, account: int, plan: map<int, Instant>, post: int,
                          t: Instant)
    ensures var k, before := ChildKey(post, account), PlaceChildren(children, account, plan);
      PlaceChildren(children, account, plan[post := t]) ==
        if k in before then before[k := before[k].(scheduledAt := Some(t))] else before
  {}

  lemma PlaceOneMoreEntry(entries: map<EntryKey, QueueEntry>, queue: int, plan: map<int, Instant>, post: int,
                          t: Instant)
    ensures var e, before := EntryKey(queue, post), PlaceEntries(entries, queue, plan);
      PlaceEntries(entries, queue, plan[post := t]) ==
        if e in before then before[e := before[e].(slotAt := Some(t))] else before
  {}

  lemma PlaceOneMoreParent(db: Db, account: int, plan: map<int, Instant>, post: int, t: Instant)
    ensures var before, plan' := PlacedParents(db, account, plan), plan[post := t];
      PlacedParents(db, account, plan') ==
        if ChildKey(post, account) in db.children then Sync(before, PlaceChildren(db.children, account, plan'), post)
        else before
  {
    var before, plan' := PlacedParents(db, account, plan), plan[post := t];
    var after := PlacedParents(db, account, plan');
    forall p | p in db.parents && p != post ensures after[p] == before[p] {
      EarliestFrame(PlaceChildren(db.children, account, plan), PlaceChildren(db.children, account, plan'), p);
    }
  }

  /** Writing slots one at a time adds up to the simultaneous assignment; a later write wins. */
  lemma WritesAddUp(db: Db, account: int, queue: int, plan: map<int, Instant>, post: int, t: Instant)
    ensures WriteSlot(Assign(db, account, queue, plan), account, queue, post, t) ==
            Assign(db, account, queue, plan[post := t])
  {
    PlaceOneMoreChild(db.children, account, plan, post, t);
    PlaceOneMoreEntry(db.entries, queue, plan, post, t);
    PlaceOneMoreParent(db, account, plan, post, t);
  }

  /** An assignment keeps parents in sync. */
  lemma AssignKeepsSync(db: Db, account: int, queue: int, plan: map<int, Instant>)
    requires ParentsInSync(db)
    ensures ParentsInSync(Assign(db, account, queue, plan))
  {
    var out := Assign(db, account, queue, plan);
    InSyncShowsEarliest(db);
    InSyncShowsEarliest(out);
    forall p | p in out.parents ensures out.parents[p] == Earliest(out.children, p) {
      if !(p in plan && ChildKey(p, account) in db.children) {
        EarliestFrame(db.children, out.children, p);
      }
    }
  }

  /** Every planned future instant is new to the plan and to the posts that stay. */
  ghost predicate CleanPlan(children: map<ChildKey, PlatformPost>, account: int, now: Instant,
                            plan: map<int, Instant>) {
    && (forall p, q | p in plan && q in plan && p != q && plan[p] > now :: plan[p] != plan[q])
    && (forall p, k |
          p in plan && k in children && k.account == account && k.post !in plan && Blocks(children[k], now) ::
         children[k].scheduledAt != Some(plan[p]))
  }

  lemma CleanPlanKeepsBooking(children: map<ChildKey, PlatformPost>, account: int, now: Instant,
                              plan: map<int, Instant>, other: int)
    requires NoDoubleBooking(children, other, now)
    requires CleanPlan(children, account, now, plan)
    ensures NoDoubleBooking(PlaceChildren(children, account, plan), other, now)
  {}

  /** Every row outside the account is as it was. */
  ghost predicate OthersKept(before: map<ChildKey, PlatformPost>, after: map<ChildKey, PlatformPost>, account: int) {
    after.Keys == before.Keys && forall k | k in before && k.account != account :: after[k] == before[k]
  }

  /** So what is booked on another channel stays as it was. */
  lemma OtherChannelKeepsBooking(before: map<ChildKey, PlatformPost>, after: map<ChildKey, PlatformPost>,
                                 account: int, other: int, now: Instant)
    requires OthersKept(before, after, account) && other != account
    ensures NoDoubleBooking(after, other, now) <==> NoDoubleBooking(before, other, now)
  {}

  /** As time passes fewer rows block, so the invariant survives. */
  lemma BookingOverTime(children: map<ChildKey, PlatformPost>, account: int, now: Instant, later: Instant)
    requires NoDoubleBooking(children, account, now) && now <= later
    ensures NoDoubleBooking(children, account, later)
  {}
}
