/** The repair of published posts whose schedule was dragged past their publication. */
module Repair {
  import opened Prelude
  import opened PostingSlots
  import opened ScheduleStore
  import opened Scheduler

  /** What the repair reports back. */
  datatype Summary = Summary(rows: set<ChildKey>, postCount: nat, entryCount: nat, applied: bool)

  /** A published row scheduled after it was published: the signature of the corruption. */
  predicate Corrupt(p: PlatformPost) {
    p.status == Published && p.publishedAt.Some? && p.scheduledAt.Some? && p.scheduledAt.value > p.publishedAt.value
  }

  /** The workspace of a post, and the workspace the repair is limited to, if any. */
  datatype Scope = Scope(workspaceOf: int -> int, only: Option<int>)

  predicate InScope(scope: Scope, post: int) {
    scope.only.None? || scope.workspaceOf(post) == scope.only.value
  }

  function Affected(children: map<ChildKey, PlatformPost>, scope: Scope): (rows: set<ChildKey>)
    ensures forall k | k in rows :: k in children && Corrupt(children[k])
  {
    set k | k in children && Corrupt(children[k]) && InScope(scope, k.post)
  }

  function PostsOf(rows: set<ChildKey>): set<int> {
    set k | k in rows :: k.post
  }

  /** A pending child that has no time of its own and would follow its parent's. */
  predicate FollowsParent(p: PlatformPost) {
    p.status == Scheduled && p.scheduledAt.None?
  }

  /** Such children of the given posts are pinned to the time their parent shows now. */
  function Pin(children: map<ChildKey, PlatformPost>, parents: map<int, Option<Instant>>, posts: set<int>)
    : map<ChildKey, PlatformPost>
  {
    map k | k in children ::
      if FollowsParent(children[k]) && k.post in posts && k.post in parents && parents[k.post].Some?
      then children[k].(scheduledAt := parents[k.post]) else children[k]
  }

  function Snap(children: map<ChildKey, PlatformPost>, rows: set<ChildKey>): map<ChildKey, PlatformPost> {
    map k | k in children :: if k in rows then children[k].(scheduledAt := children[k].publishedAt) else children[k]
  }

  /** The queue entries of the given rows that show a time after the publication. */
  function Stale(
    cfg: Config, entries: map<EntryKey, QueueEntry>, children: map<ChildKey, PlatformPost>, rows: set<ChildKey>)
    : set<EntryKey>
    requires forall k | k in rows :: k in children && children[k].publishedAt.Some?
  {
    set e | e in entries && ChildKey(e.post, cfg.accountOf(e.queue)) in rows && entries[e].slotAt.Some? &&
      entries[e].slotAt.value > children[ChildKey(e.post, cfg.accountOf(e.queue))].publishedAt.value
  }

  function SnapEntries(
    cfg: Config, entries: map<EntryKey, QueueEntry>, children: map<ChildKey, PlatformPost>, rows: set<ChildKey>)
    : map<EntryKey, QueueEntry>
    requires forall k | k in rows :: k in children && children[k].publishedAt.Some?
  {
    map e | e in entries ::
      if e in Stale(cfg, entries, children, rows)
      then entries[e].(slotAt := children[ChildKey(e.post, cfg.accountOf(e.queue))].publishedAt) else entries[e]
  }

  function SyncAll(parents: map<int, Option<Instant>>, children: map<ChildKey, PlatformPost>, posts: set<int>)
    : map<int, Option<Instant>>
  {
    map p | p in parents :: if p in posts then Earliest(children, p) else parents[p]
  }

  function RepairDb(cfg: Config, db: Db, scope: Scope): Db {
    var rows := Affected(db.children, scope);
    var children := Snap(Pin(db.children, db.parents, PostsOf(rows)), rows);
    Db(children, SnapEntries(cfg, db.entries, db.children, rows), SyncAll(db.parents, children, PostsOf(rows)))
  }

  // ----- what it is asked to do, in the fields of the rows

  /** The published rows of the workspaces covered whose time lies after their publication. */
  ghost function Dragged(db: Db, scope: Scope): set<ChildKey> {
    set k | k in db.children && db.children[k].status == Published && db.children[k].scheduledAt.Some? &&
      db.children[k].publishedAt.Some? && db.children[k].publishedAt.value < db.children[k].scheduledAt.value &&
      (scope.only == None || scope.only == Some(scope.workspaceOf(k.post)))
  }

  /** The entries whose time a repair changes. */
  ghost function Restamped(cfg: Config, db: Db, scope: Scope): set<EntryKey> {
    set e | e in db.entries && RepairDb(cfg, db, scope).entries[e] != db.entries[e]
  }

  lemma AffectedAreDragged(cfg: Config, db: Db, scope: Scope)
    ensures Affected(db.children, scope) == Dragged(db, scope)
    ensures Stale(cfg, db.entries, db.children, Affected(db.children, scope)) == Restamped(cfg, db, scope)
  {}

  // ----- as it runs

  method RepairFuturePublished(s: QueueScheduler, scope: Scope, apply: bool) returns (summary: Summary)
    modifies s
    ensures var db := old(s.Rows());
      var rows := Dragged(db, scope);
      summary == Summary(rows, |set k | k in rows :: k.post|, |Restamped(s.cfg, db, scope)|, apply && rows != {})
    ensures s.Rows() == if apply then RepairDb(s.cfg, old(s.Rows()), scope) else old(s.Rows())
  {
    AffectedAreDragged(s.cfg, s.Rows(), scope);
    var affected := Affected(s.children, scope);
    var postIds := CollectPosts(affected);
    var count: nat;
    if apply && affected != {} {
      count := ApplyRepair(s, affected, postIds);
    } else {
      if affected == {} { NothingToRepair(s.cfg, s.Rows(), scope); }
      count := |Stale(s.cfg, s.entries, s.children, affected)|;
    }
    summary := Summary(affected, |postIds|, count, apply && affected != {});
  }

  method CollectPosts(affected: set<ChildKey>) returns (postIds: set<int>)
    ensures postIds == PostsOf(affected)
  {
    postIds := {};
    ghost var rows: set<ChildKey> := {};
    var todo := affected;
    while todo != {}
      invariant todo <= affected && rows == affected - todo && postIds == PostsOf(rows)
    {
      var k :| k in todo;
      todo := todo - {k};
      assert PostsOf(rows + {k}) == PostsOf(rows) + {k.post};
      rows := rows + {k};
      postIds := postIds + {k.post};
    }
    assert rows == affected;
  }

  /** The transaction: pin the pending siblings first, then snap the rows, their entries and the parents. */
  method ApplyRepair(s: QueueScheduler, rows: set<ChildKey>, postIds: set<int>) returns (count: nat)
    requires forall k | k in rows :: k in s.children && s.children[k].publishedAt.Some?
    modifies s
    ensures s.children == Snap(Pin(old(s.children), old(s.parents), postIds), rows)
    ensures s.entries == SnapEntries(s.cfg, old(s.entries), old(s.children), rows)
    ensures s.parents == SyncAll(old(s.parents), s.children, postIds)
    ensures count == |Stale(s.cfg, old(s.entries), old(s.children), rows)|
  {
    var published := s.children;
    PinSiblings(s, postIds);
    s.children := Snap(s.children, rows);
    count := SnapStaleEntries(s, published, rows);
    SyncPosts(s, postIds);
  }

  method PinSiblings(s: QueueScheduler, postIds: set<int>)
    modifies s`children
    ensures s.children == Pin(old(s.children), s.parents, postIds)
  {
    ghost var start := s.children;
    var todo := postIds;
    ghost var done: set<int> := {};
    assert Pin(start, s.parents, {}) == start;
    while todo != {}
      invariant done + todo == postIds && done !! todo
      invariant s.children == Pin(start, s.parents, done)
    {
      ghost var any := AnyMember(todo);
      var post :| post in todo;
      todo := todo - {post};
      PinOneMore(start, s.parents, done, post);
      if post in s.parents && s.parents[post].Some? {
        s.children := map k | k in s.children ::
          if k.post == post && FollowsParent(s.children[k]) then s.children[k].(scheduledAt := s.parents[post])
            else s.children[k];
      }
      done := done + {post};
    }
  }

  lemma PinOneMore(children: map<ChildKey, PlatformPost>, parents: map<int, Option<Instant>>, done: set<int>, post: int)
    requires post !in done
    ensures var mid := Pin(children, parents, done);
      Pin(children, parents, done + {post}) ==
        if post in parents && parents[post].Some? then
          map k | k in mid ::
            if k.post == post && FollowsParent(mid[k]) then mid[k].(scheduledAt := parents[post]) else mid[k]
        else mid
  {}

  method SnapStaleEntries(s: QueueScheduler, published: map<ChildKey, PlatformPost>, rows: set<ChildKey>)
    returns (count: nat)
    requires forall k | k in rows :: k in published && published[k].publishedAt.Some?
    modifies s`entries
    ensures s.entries == SnapEntries(s.cfg, old(s.entries), published, rows)
    ensures count == |Stale(s.cfg, old(s.entries), published, rows)|
  {
    ghost var start := s.entries;
    count := 0;
    var todo := rows;
    ghost var done: set<ChildKey> := {};
    assert Stale(s.cfg, start, published, {}) == {};
    assert SnapEntries(s.cfg, start, published, {}) == start;
    while todo != {}
      invariant done + todo == rows && done !! todo
      invariant s.entries == SnapEntries(s.cfg, start, published, done)
      invariant count == |Stale(s.cfg, start, published, done)|
    {
      var k :| k in todo;
      todo := todo - {k};
      var stale := Stale(s.cfg, s.entries, published, {k});
      SnapOneMore(s.cfg, start, published, done, k);
      s.entries := SnapEntries(s.cfg, s.entries, published, {k});
      count := count + |stale|;
      done := done + {k};
    }
  }

  lemma SnapOneMore(cfg: Config, entries: map<EntryKey, QueueEntry>, published: map<ChildKey, PlatformPost>,
                    done: set<ChildKey>, k: ChildKey)
    requires forall r | r in done + {k} :: r in published && published[r].publishedAt.Some?
    requires k !in done
    ensures var mid := SnapEntries(cfg, entries, published, done);
      && SnapEntries(cfg, mid, published, {k}) == SnapEntries(cfg, entries, published, done + {k})
      && |Stale(cfg, entries, published, done + {k})| ==
         |Stale(cfg, entries, published, done)| + |Stale(cfg, mid, published, {k})|
  {
    StaleCountOneMore(cfg, entries, published, done, k);
    SnapMapOneMore(cfg, entries, published, done, k);
  }

  lemma StaleCountOneMore(cfg: Config, entries: map<EntryKey, QueueEntry>, published: map<ChildKey, PlatformPost>,
                          done: set<ChildKey>, k: ChildKey)
    requires forall r | r in done + {k} :: r in published && published[r].publishedAt.Some?
    requires k !in done
    ensures |Stale(cfg, entries, published, done + {k})| == |Stale(cfg, entries, published, done)| +
              |Stale(cfg, SnapEntries(cfg, entries, published, done), published, {k})|
  {
    StaleOneMore(cfg, entries, published, done, k);
    StaleUnaffected(cfg, entries, published, done, k);
  }

  lemma SnapMapOneMore(cfg: Config, entries: map<EntryKey, QueueEntry>, published: map<ChildKey, PlatformPost>,
                       done: set<ChildKey>, k: ChildKey)
    requires forall r | r in done + {k} :: r in published && published[r].publishedAt.Some?
    requires k !in done
    ensures SnapEntries(cfg, SnapEntries(cfg, entries, published, done), published, {k}) ==
            SnapEntries(cfg, entries, published, done + {k})
  {
    var out := SnapEntries(cfg, SnapEntries(cfg, entries, published, done), published, {k});
    var end := SnapEntries(cfg, entries, published, done + {k});
    forall e | e in entries ensures out[e] == end[e] {
      SnapEntryOneMore(cfg, entries, published, done, k, e);
    }
    assert out.Keys == end.Keys;
  }

  lemma SnapEntryOneMore(cfg: Config, entries: map<EntryKey, QueueEntry>, published: map<ChildKey, PlatformPost>,
                         done: set<ChildKey>, k: ChildKey, e: EntryKey)
    requires forall r | r in done + {k} :: r in published && published[r].publishedAt.Some?
    requires k !in done && e in entries
    ensures SnapEntries(cfg, SnapEntries(cfg, entries, published, done), published, {k})[e] ==
            SnapEntries(cfg, entries, published, done + {k})[e]
  {
    StaleOneMore(cfg, entries, published, done, k);
    StaleUnaffected(cfg, entries, published, done, k);
  }

  lemma StaleUnaffected(cfg: Config, entries: map<EntryKey, QueueEntry>, published: map<ChildKey, PlatformPost>,
                        done: set<ChildKey>, k: ChildKey)
    requires forall r | r in done + {k} :: r in published && published[r].publishedAt.Some?
    requires k !in done
    ensures Stale(cfg, SnapEntries(cfg, entries, published, done), published, {k}) ==
      Stale(cfg, entries, published, {k})
  {}

  lemma StaleOneMore(cfg: Config, entries: map<EntryKey, QueueEntry>, published: map<ChildKey, PlatformPost>,
                     done: set<ChildKey>, k: ChildKey)
    requires forall r | r in done + {k} :: r in published && published[r].publishedAt.Some?
    requires k !in done
    ensures Stale(cfg, entries, published, done + {k}) ==
            Stale(cfg, entries, published, done) + Stale(cfg, entries, published, {k})
    ensures Stale(cfg, entries, published, done) !! Stale(cfg, entries, published, {k})
  {}

  method SyncPosts(s: QueueScheduler, postIds: set<int>)
    modifies s`parents
    ensures s.parents == SyncAll(old(s.parents), s.children, postIds)
  {
    ghost var start := s.parents;
    var todo := postIds;
    ghost var done: set<int> := {};
    assert SyncAll(start, s.children, {}) == start;
    while todo != {}
      invariant done + todo == postIds && done !! todo
      invariant s.parents == SyncAll(start, s.children, done)
    {
      ghost var any := AnyMember(todo);
      var post :| post in todo;
      todo := todo - {post};
      assert SyncAll(start, s.children, done + {post}) == Sync(SyncAll(start, s.children, done), s.children, post);
      s.SyncParent(post);
      done := done + {post};
    }
  }

  lemma NothingToRepair(cfg: Config, db: Db, scope: Scope)
    requires Affected(db.children, scope) == {}
    ensures RepairDb(cfg, db, scope) == db
  {}

  // ----- what it guarantees

  /** A second run finds nothing, so it changes nothing. */
  lemma RepairTwiceFindsNothing(cfg: Config, db: Db, scope: Scope)
    ensures Dragged(RepairDb(cfg, db, scope), scope) == {}
    ensures RepairDb(cfg, RepairDb(cfg, db, scope), scope) == RepairDb(cfg, db, scope)
  {
    var db' := RepairDb(cfg, db, scope);
    forall k | k in db'.children && InScope(scope, k.post) ensures !Corrupt(db'.children[k]) {
      assert k in db.children;
    }
    assert Affected(db'.children, scope) == {};
    NothingToRepair(cfg, db', scope);
  }

  /** The children that change: exactly the corrupt rows, reset to their publication, and pinned siblings. */
  lemma RepairTouches(cfg: Config, db: Db, scope: Scope, k: ChildKey)
    requires k in db.children
    ensures var db', p := RepairDb(cfg, db, scope), db.children[k];
      && db'.children.Keys == db.children.Keys
      && db'.children[k] ==
           if k in Dragged(db, scope) then p.(scheduledAt := p.publishedAt)
           else if p.status == Scheduled && p.scheduledAt.None? && k.post in db.parents &&
             exists d :: d in Dragged(db, scope) && d.post == k.post
           then p.(scheduledAt := db.parents[k.post])
           else p
  {}

  /** The entries that change: exactly those that show a corrupt row a time after its publication. */
  lemma RepairTouchesEntries(cfg: Config, db: Db, scope: Scope, e: EntryKey)
    requires e in db.entries
    ensures var db', k := RepairDb(cfg, db, scope), ChildKey(e.post, cfg.accountOf(e.queue));
      && db'.entries.Keys == db.entries.Keys
      && db'.entries[e] ==
           if k in Dragged(db, scope) && db.entries[e].slotAt.Some? &&
             db.entries[e].slotAt.value > db.children[k].publishedAt.value
           then db.entries[e].(slotAt := db.children[k].publishedAt)
           else db.entries[e]
  {}

  /** Only parents of corrupt rows change, and those to the least of their children's times. */
  lemma RepairTouchesParents(cfg: Config, db: Db, scope: Scope, p: int)
    requires p in db.parents
    ensures var db' := RepairDb(cfg, db, scope);
      && db'.parents.Keys == db.parents.Keys
      && if exists k :: k in Dragged(db, scope) && k.post == p then IsLeastTime(db'.children, p, db'.parents[p])
         else db'.parents[p] == db.parents[p]
  {
    var db' := RepairDb(cfg, db, scope);
    assert Dragged(db, scope) == Affected(db.children, scope);
    EarliestIsLeastTime(db'.children, p, db'.parents[p]);
  }

  /**
   * A pending child keeps its due time exactly unless neither it nor its parent had one while a
   * sibling is repaired: then the resynced parent hands it the repaired sibling's past.
   */
  lemma RepairKeepsDueTimes(cfg: Config, db: Db, scope: Scope, k: ChildKey)
    requires k in db.children && db.children[k].status == Scheduled
    ensures k in RepairDb(cfg, db, scope).children
    ensures Effective(RepairDb(cfg, db, scope), k) == Effective(db, k) <==>
            !((exists d :: d in Dragged(db, scope) && d.post == k.post) && k.post in db.parents &&
              db.parents[k.post].None? && db.children[k].scheduledAt.None?)
  {
    assert Dragged(db, scope) == Affected(db.children, scope);
    var db', rows := RepairDb(cfg, db, scope), Affected(db.children, scope);
    if k.post in PostsOf(rows) && k.post in db.parents && Effective(db, k).None? {
      var r :| r in rows && r.post == k.post;
      assert db'.children[r].scheduledAt.Some?;
      assert db'.children[r].scheduledAt.value in ChildTimes(db'.children, k.post);
    }
  }

  /**
   * When every parent shows the earliest of its children, no pending child's due time changes, so
   * nothing becomes newly due.
   */
  lemma RepairMakesNothingDue(cfg: Config, db: Db, scope: Scope, k: ChildKey, now: Instant)
    requires ParentsInSync(db)
    requires k in db.children && db.children[k].status == Scheduled
    ensures k in RepairDb(cfg, db, scope).children
    ensures Effective(RepairDb(cfg, db, scope), k) == Effective(db, k)
  {
    var rows := Affected(db.children, scope);
    InSyncShowsEarliest(db);
    RepairKeepsDueTimes(cfg, db, scope, k);
    if k.post in PostsOf(rows) && k.post in db.parents {
      var r :| r in rows && r.post == k.post;
      assert db.children[r].scheduledAt.value in ChildTimes(db.children, k.post);
    }
  }

  lemma RepairKeepsSync(cfg: Config, db: Db, scope: Scope)
    requires ParentsInSync(db)
    ensures ParentsInSync(RepairDb(cfg, db, scope))
  {
    var db', rows := RepairDb(cfg, db, scope), Affected(db.children, scope);
    InSyncShowsEarliest(db);
    InSyncShowsEarliest(db');
    forall p | p in db'.parents ensures db'.parents[p] == Earliest(db'.children, p) {
      if p !in PostsOf(rows) {
        forall k | k in db.children && k.post == p ensures db'.children[k] == db.children[k] {
          assert k !in rows;
        }
        EarliestFrame(db.children, db'.children, p);
      }
    }
  }
}
