/** Drag-reorder: the instants a queue's entries hold are dealt out again in the dragged order. */
module QueueReorder {
  import opened Prelude
  import opened PostingSlots
  import opened ScheduleStore
  import opened QueueOps

  ghost predicate Nondecreasing(s: seq<int>) {
    forall i, j | 0 <= i < j < |s| :: s[i] <= s[j]
  }

  function InsertSorted(s: seq<int>, x: int): seq<int> {
    if s == [] || x <= s[0] then [x] + s else [s[0]] + InsertSorted(s[1..], x)
  }

  function Sorted(s: seq<int>): seq<int> {
    if s == [] then [] else InsertSorted(Sorted(s[..|s| - 1]), s[|s| - 1])
  }

  lemma {:induction false} InsertSortedMembers(s: seq<int>, x: int)
    ensures multiset(InsertSorted(s, x)) == multiset(s) + multiset{x}
  {
    if s == [] || x <= s[0] {
    } else {
      var rest := InsertSorted(s[1..], x);
      InsertSortedMembers(s[1..], x);
      assert s == [s[0]] + s[1..];
      assert multiset([s[0]] + rest) == multiset{s[0]} + multiset(rest);
    }
  }

  lemma {:induction false} InsertSortedSorts(s: seq<int>, x: int)
    requires Nondecreasing(s)
    ensures Nondecreasing(InsertSorted(s, x))
    ensures forall i | 0 <= i < |InsertSorted(s, x)| :: InsertSorted(s, x)[i] == x || InsertSorted(s, x)[i] in s
  {
    if s != [] && x > s[0] {
      InsertSortedSorts(s[1..], x);
      assert forall y | y in s[1..] :: s[0] <= y;
    }
  }

  lemma {:induction false} SortedSorts(s: seq<int>)
    ensures Nondecreasing(Sorted(s)) && multiset(Sorted(s)) == multiset(s) && |Sorted(s)| == |s|
  {
    if s == [] {
    } else {
      var front, last := s[..|s| - 1], s[|s| - 1];
      SortedSorts(front);
      InsertSortedSorts(Sorted(front), last);
      InsertSortedMembers(Sorted(front), last);
      assert s == front + [last];
      assert |multiset(Sorted(s))| == |multiset(s)|;
    }
  }

  lemma {:induction false} InsertLast(s: seq<int>, x: int)
    requires forall i | 0 <= i < |s| :: s[i] <= x
    requires Nondecreasing(s)
    ensures InsertSorted(s, x) == s + [x]
  {
    if s == [] {
    } else {
      if x <= s[0] {
        assert forall i | 0 <= i < |s| :: s[i] == x;
        assert [x] + s == s + [x];
      } else {
        InsertLast(s[1..], x);
        assert s == [s[0]] + s[1..];
      }
    }
  }

  lemma {:induction false} SortedFixesSorted(s: seq<int>)
    requires Nondecreasing(s)
    ensures Sorted(s) == s
  {
    if s == [] {
    } else {
      SortedFixesSorted(s[..|s| - 1]);
      InsertLast(s[..|s| - 1], s[|s| - 1]);
      assert s == s[..|s| - 1] + [s[|s| - 1]];
    }
  }

  /** The named ids that are entries of this queue and not protected, in the given order. */
  function Named(db: Db, account: int, queue: int, ids: seq<EntryKey>): seq<EntryKey> {
    if ids == [] then []
    else
      var e := ids[|ids| - 1];
      Named(db, account, queue, ids[..|ids| - 1]) +
      if e in db.entries && e.queue == queue && !IsProtected(db.children, ChildKey(e.post, account)) then [e] else []
  }

  /** The named posts that hold an instant. */
  function Slotted(db: Db, account: int, named: seq<EntryKey>): seq<int> {
    if named == [] then []
    else
      var e := named[|named| - 1];
      Slotted(db, account, named[..|named| - 1]) + if HoldsSlot(db, account, e.post) then [e.post] else []
  }

  function Times(db: Db, account: int, posts: seq<int>): (times: seq<Instant>)
    requires forall i | 0 <= i < |posts| :: HoldsSlot(db, account, posts[i])
    ensures |times| == |posts|
    ensures forall i | 0 <= i < |posts| :: times[i] == SlotHeld(db, account, posts[i])
  {
    if posts == [] then [] else Times(db, account, posts[..|posts| - 1]) + [SlotHeld(db, account, posts[|posts| - 1])]
  }

  lemma {:induction false} SlottedHold(db: Db, account: int, named: seq<EntryKey>)
    ensures forall p | p in Slotted(db, account, named) :: HoldsSlot(db, account, p)
  {
    if named == [] {
    } else {
      SlottedHold(db, account, named[..|named| - 1]);
    }
  }

  /** The k-th post takes the k-th slot; if a post is listed twice the later listing wins. */
  function Deal(posts: seq<int>, slots: seq<Instant>): map<int, Instant>
    requires |posts| == |slots|
  {
    if posts == [] then map[]
    else Deal(posts[..|posts| - 1], slots[..|slots| - 1])[posts[|posts| - 1] := slots[|slots| - 1]]
  }

  /** Positions follow the dragged order; a row already at its index is left alone. */
  function Renumber(entries: map<EntryKey, QueueEntry>, before: map<EntryKey, QueueEntry>, named: seq<EntryKey>)
    : (r: map<EntryKey, QueueEntry>)
    requires forall e | e in named :: e in entries && e in before
    ensures r.Keys == entries.Keys
  {
    if named == [] then entries
    else
      var idx := |named| - 1;
      var r := Renumber(entries, before, named[..idx]);
      if before[named[idx]].position != idx then r[named[idx] := r[named[idx]].(position := idx)] else r
  }

  lemma {:induction false} NamedAreEntries(db: Db, account: int, queue: int, ids: seq<EntryKey>)
    ensures forall e | e in Named(db, account, queue, ids) ::
      e in ids && e in db.entries && e.queue == queue && !IsProtected(db.children, ChildKey(e.post, account))
  {
    if ids == [] {
    } else {
      NamedAreEntries(db, account, queue, ids[..|ids| - 1]);
    }
  }

  function ReorderPlan(db: Db, account: int, queue: int, ids: seq<EntryKey>): map<int, Instant> {
    var posts := Slotted(db, account, Named(db, account, queue, ids));
    SlottedHold(db, account, Named(db, account, queue, ids));
    SortedSorts(Times(db, account, posts));
    Deal(posts, Sorted(Times(db, account, posts)))
  }

  function ReorderDb(cfg: Config, db: Db, queue: int, ids: seq<EntryKey>): Db {
    var account := cfg.accountOf(queue);
    var dealt := Assign(db, account, queue, ReorderPlan(db, account, queue, ids));
    NamedAreEntries(db, account, queue, ids);
    dealt.(entries := Renumber(dealt.entries, db.entries, Named(db, account, queue, ids)))
  }

  // ----- reordering distinct ids

  ghost predicate Unique<T>(s: seq<T>) {
    forall i, j | 0 <= i < j < |s| :: s[i] != s[j]
  }

  lemma {:induction false} NamedUnique(db: Db, account: int, queue: int, ids: seq<EntryKey>)
    requires Unique(ids)
    ensures Unique(Named(db, account, queue, ids))
  {
    if ids == [] {
    } else {
      NamedUnique(db, account, queue, ids[..|ids| - 1]);
      NamedAreEntries(db, account, queue, ids[..|ids| - 1]);
    }
  }

  lemma {:induction false} SlottedUnique(db: Db, account: int, queue: int, named: seq<EntryKey>)
    requires Unique(named) && forall e | e in named :: e.queue == queue
    ensures Unique(Slotted(db, account, named))
    ensures forall p | p in Slotted(db, account, named) :: EntryKey(queue, p) in named
  {
    if named == [] {
    } else {
      var front, e := named[..|named| - 1], named[|named| - 1];
      SlottedUnique(db, account, queue, front);
      assert e == EntryKey(queue, e.post);
    }
  }

  lemma {:induction false} DealInOrder(posts: seq<int>, slots: seq<Instant>)
    requires |posts| == |slots| && Unique(posts)
    ensures Deal(posts, slots).Keys == set p | p in posts
    ensures forall i | 0 <= i < |posts| :: posts[i] in posts && Deal(posts, slots)[posts[i]] == slots[i]
  {
    if posts == [] {
    } else {
      DealInOrder(posts[..|posts| - 1], slots[..|slots| - 1]);
      assert posts == posts[..|posts| - 1] + [posts[|posts| - 1]];
    }
  }

  lemma PlanOfDistinctIds(db: Db, account: int, queue: int, ids: seq<EntryKey>) returns (posts: seq<int>)
    requires Unique(ids)
    ensures posts == Slotted(db, account, Named(db, account, queue, ids)) && Unique(posts)
    ensures forall p | p in posts :: HoldsSlot(db, account, p) && !IsProtected(db.children, ChildKey(p, account))
    ensures var plan, slots := ReorderPlan(db, account, queue, ids), Sorted(Times(db, account, posts));
      && |slots| == |posts| && plan.Keys == (set p | p in posts)
      && forall i | 0 <= i < |posts| :: posts[i] in plan && plan[posts[i]] == slots[i]
  {
    var named := Named(db, account, queue, ids);
    posts := Slotted(db, account, named);
    NamedUnique(db, account, queue, ids);
    NamedAreEntries(db, account, queue, ids);
    SlottedUnique(db, account, queue, named);
    SlottedHold(db, account, named);
    SortedSorts(Times(db, account, posts));
    DealInOrder(posts, Sorted(Times(db, account, posts)));
  }

  /** Renumbering touches named entries only, and only their positions. */
  lemma {:induction false} RenumberFrame(entries: map<EntryKey, QueueEntry>, before: map<EntryKey, QueueEntry>,
                                         named: seq<EntryKey>)
    requires forall e | e in named :: e in entries && e in before
    ensures forall e | e in entries :: Renumber(entries, before, named)[e].slotAt == entries[e].slotAt
    ensures forall e | e in entries && e !in named :: Renumber(entries, before, named)[e] == entries[e]
  {
    if named == [] {
    } else {
      var n := |named| - 1;
      RenumberFrame(entries, before, named[..n]);
      assert named == named[..n] + [named[n]];
    }
  }

  /** Entries named once each get their index in the order as position. */
  lemma {:induction false} RenumberInOrder(entries: map<EntryKey, QueueEntry>, before: map<EntryKey, QueueEntry>,
                                           named: seq<EntryKey>, i: nat)
    requires forall e | e in named :: e in entries && e in before && entries[e].position == before[e].position
    requires Unique(named) && i < |named|
    ensures Renumber(entries, before, named)[named[i]].position == i
  {
    var n := |named| - 1;
    RenumberFrame(entries, before, named[..n]);
    if i == n {
      assert named[n] !in named[..n];
    } else {
      RenumberInOrder(entries, before, named[..n], i);
    }
  }

  /**
   * What a reorder leaves alone, whatever the ids: rows of posts not dealt, entries not named, parents
   * of posts not dealt.
   */
  lemma ReorderFrame(cfg: Config, db: Db, queue: int, ids: seq<EntryKey>)
    ensures var account := cfg.accountOf(queue);
      var named := Named(db, account, queue, ids);
      var posts, db' := Slotted(db, account, named), ReorderDb(cfg, db, queue, ids);
      && db'.children.Keys == db.children.Keys && db'.entries.Keys == db.entries.Keys &&
        db'.parents.Keys == db.parents.Keys
      && (forall k | k in db.children && !(k.account == account && k.post in posts) ::
        db'.children[k] == db.children[k])
      && (forall e | e in db.entries && e !in named :: db'.entries[e] == db.entries[e])
      && (forall p | p in db.parents && p !in posts :: db'.parents[p] == db.parents[p])
  {
    var account := cfg.accountOf(queue);
    var named := Named(db, account, queue, ids);
    var posts, times, slots := ReorderHolding(db, account, queue, ids);
    DealtPosts(posts, slots);
    NamedAreEntries(db, account, queue, ids);
    SlottedAreNamed(db, account, named);
    var dealt := Assign(db, account, queue, ReorderPlan(db, account, queue, ids));
    RenumberFrame(dealt.entries, db.entries, named);
    forall p | p in posts ensures EntryKey(queue, p) in named {
      var f :| f in named && f.post == p;
      assert f == EntryKey(queue, p);
    }
    assert forall e | e in db.entries && e !in named :: dealt.entries[e] == db.entries[e];
  }

  /**
   * The held instants are only permuted: the k-th named, unprotected, slotted post ends on the
   * k-th smallest of them, the named entries are numbered in the order given, and every other
   * child, entry and parent is untouched.
   */
  lemma ReorderPermutes(cfg: Config, db: Db, queue: int, ids: seq<EntryKey>)
    requires Unique(ids)
    ensures var account := cfg.accountOf(queue);
      var posts := Slotted(db, account, Named(db, account, queue, ids));
      var db' := ReorderDb(cfg, db, queue, ids);
      && (forall p | p in posts :: HoldsSlot(db, account, p) && HoldsSlot(db', account, p))
      && Times(db', account, posts) == Sorted(Times(db, account, posts))
      && Nondecreasing(Times(db', account, posts))
      && multiset(Times(db', account, posts)) == multiset(Times(db, account, posts))
      && db'.children.Keys == db.children.Keys
      && forall k | k in db.children && !(k.account == account && k.post in posts) :: db'.children[k] == db.children[k]
    ensures var named := Named(db, cfg.accountOf(queue), queue, ids);
      var posts, db' := Slotted(db, cfg.accountOf(queue), named), ReorderDb(cfg, db, queue, ids);
      && db'.entries.Keys == db.entries.Keys && db'.parents.Keys == db.parents.Keys
      && (forall i | 0 <= i < |named| :: named[i] in db'.entries && db'.entries[named[i]].position == i)
      && (forall e | e in db.entries && e !in named :: db'.entries[e] == db.entries[e])
      && (forall p | p in db.parents && p !in posts :: db'.parents[p] == db.parents[p])
  {
    DealtInOrder(cfg, db, queue, ids);
    NumberedInOrder(cfg, db, queue, ids);
    ReorderFrame(cfg, db, queue, ids);
  }

  lemma NumberedInOrder(cfg: Config, db: Db, queue: int, ids: seq<EntryKey>)
    requires Unique(ids)
    ensures var named := Named(db, cfg.accountOf(queue), queue, ids);
      forall i | 0 <= i < |named| ::
        named[i] in ReorderDb(cfg, db, queue, ids).entries &&
          ReorderDb(cfg, db, queue, ids).entries[named[i]].position == i
  {
    var account := cfg.accountOf(queue);
    var named := Named(db, account, queue, ids);
    NamedUnique(db, account, queue, ids);
    NamedAreEntries(db, account, queue, ids);
    var dealt := Assign(db, account, queue, ReorderPlan(db, account, queue, ids));
    forall i: nat | i < |named| ensures Renumber(dealt.entries, db.entries, named)[named[i]].position == i {
      RenumberInOrder(dealt.entries, db.entries, named, i);
    }
  }

  lemma DealtInOrder(cfg: Config, db: Db, queue: int, ids: seq<EntryKey>)
    requires Unique(ids)
    ensures var account := cfg.accountOf(queue);
      var posts := Slotted(db, account, Named(db, account, queue, ids));
      var db' := ReorderDb(cfg, db, queue, ids);
      && (forall p | p in posts :: HoldsSlot(db, account, p) && HoldsSlot(db', account, p))
      && Times(db', account, posts) == Sorted(Times(db, account, posts))
      && Nondecreasing(Times(db', account, posts))
      && multiset(Times(db', account, posts)) == multiset(Times(db, account, posts))
  {
    var account, db' := cfg.accountOf(queue), ReorderDb(cfg, db, queue, ids);
    var posts := PlanOfDistinctIds(db, account, queue, ids);
    SortedSorts(Times(db, account, posts));
    ReorderChildren(cfg, db, queue, ids);
    TimesWhenPlaced(db, db', account, posts, Sorted(Times(db, account, posts)), ReorderPlan(db, account, queue, ids));
  }

  /** Posts placed by a plan hold what the plan gives them, in their order. */
  lemma TimesWhenPlaced(db: Db, after: Db, account: int, posts: seq<int>, slots: seq<Instant>, plan: map<int, Instant>)
    requires after.children == PlaceChildren(db.children, account, plan) && |slots| == |posts|
    requires forall i | 0 <= i < |posts| ::
      HoldsSlot(db, account, posts[i]) && posts[i] in plan && plan[posts[i]] == slots[i]
    ensures forall i | 0 <= i < |posts| :: HoldsSlot(after, account, posts[i])
    ensures Times(after, account, posts) == slots
  {
    forall i | 0 <= i < |posts|
      ensures HoldsSlot(after, account, posts[i]) && SlotHeld(after, account, posts[i]) == slots[i] {
      assert ChildKey(posts[i], account) in after.children;
    }
  }

  lemma {:induction false} RepeatCounts(s: seq<int>, i: int, j: int)
    requires 0 <= i < j < |s| && s[i] == s[j]
    ensures multiset(s)[s[i]] >= 2
  {
    assert s == s[..j] + s[j..];
    assert s[i] in s[..j] && s[i] in s[j..];
    assert multiset(s) == multiset(s[..j]) + multiset(s[j..]);
  }

  lemma {:induction false} CountsRepeat(s: seq<int>, v: int) returns (i: int, j: int)
    requires multiset(s)[v] >= 2
    ensures 0 <= i < j < |s| && s[i] == s[j] == v
  {
    j :| 0 <= j < |s| && s[j] == v;
    var rest := s[..j] + s[j + 1..];
    assert s == s[..j] + [s[j]] + s[j + 1..];
    assert multiset(rest)[v] >= 1;
    var k :| 0 <= k < |rest| && rest[k] == v;
    i := if k < j then k else k + 1;
    if i > j { i, j := j, i; }
  }

  // ----- reordering any ids

  /** The post is not mentioned again after position i. */
  predicate LastMention(posts: seq<int>, i: int) {
    0 <= i < |posts| && posts[i] !in posts[i + 1..]
  }

  /**
   * In the sorted list of held instants, repeats included, no two posts are last mentioned at
   * positions that carry the same future instant.
   */
  predicate MentionsApart(posts: seq<int>, slots: seq<Instant>, now: Instant)
    requires |posts| == |slots|
  {
    forall i, j | 0 <= i < j < |posts| && LastMention(posts, i) && LastMention(posts, j) ::
      slots[i] != slots[j] || slots[i] <= now
  }

  lemma {:induction false} HasLastMention(posts: seq<int>, p: int) returns (i: int)
    requires p in posts
    ensures LastMention(posts, i) && posts[i] == p
  {
    var n := |posts| - 1;
    if posts[n] == p {
      i := n;
    } else {
      i := HasLastMention(posts[..n], p);
      assert posts[i + 1..] == posts[..n][i + 1..] + [posts[n]];
    }
  }

  /** Each post is dealt the slot at its last mention. */
  lemma {:induction false} DealAtLastMention(posts: seq<int>, slots: seq<Instant>, i: int)
    requires |posts| == |slots| && LastMention(posts, i)
    ensures posts[i] in Deal(posts, slots) && Deal(posts, slots)[posts[i]] == slots[i]
  {
    var n := |posts| - 1;
    if n <= i {
    } else {
      assert posts[i + 1..][n - i - 1] == posts[n];
      assert posts[i + 1..] == posts[..n][i + 1..] + [posts[n]];
      DealAtLastMention(posts[..n], slots[..n], i);
    }
  }

  lemma {:induction false} DealtPosts(posts: seq<int>, slots: seq<Instant>)
    requires |posts| == |slots|
    ensures forall p :: p in Deal(posts, slots) <==> p in posts
  {
    if posts == [] {
    } else {
      var n := |posts| - 1;
      DealtPosts(posts[..n], slots[..n]);
      assert posts == posts[..n] + [posts[n]];
    }
  }

  /** The posts hold `times`, unprotected, and `slots` are the same instants in some order. */
  ghost predicate Holding(children: map<ChildKey, PlatformPost>, account: int, posts: seq<int>, times: seq<Instant>,
                          slots: seq<Instant>) {
    && |posts| == |times| == |slots| && multiset(times) == multiset(slots)
    && forall i | 0 <= i < |posts| ::
         ChildKey(posts[i], account) in children && !Protected(children[ChildKey(posts[i], account)].status) &&
         children[ChildKey(posts[i], account)].scheduledAt == Some(times[i])
  }

  lemma DealStaysClear(children: map<ChildKey, PlatformPost>, account: int, posts: seq<int>, times: seq<Instant>,
                       slots: seq<Instant>, now: Instant, i: int, k: ChildKey)
    requires Holding(children, account, posts, times, slots) && NoDoubleBooking(children, account, now) &&
      0 <= i < |slots|
    requires k in children && k.account == account && k.post !in posts && Blocks(children[k], now)
    ensures children[k].scheduledAt != Some(slots[i])
  {
    assert slots[i] in multiset(slots);
    var a :| 0 <= a < |times| && times[a] == slots[i];
    assert ChildKey(posts[a], account) != k;
  }

  lemma ApartIsClean(children: map<ChildKey, PlatformPost>, account: int, posts: seq<int>, times: seq<Instant>,
                     slots: seq<Instant>, now: Instant)
    requires Holding(children, account, posts, times, slots) && NoDoubleBooking(children, account, now)
    requires MentionsApart(posts, slots, now)
    ensures CleanPlan(children, account, now, Deal(posts, slots))
  {
    var plan := Deal(posts, slots);
    DealtPosts(posts, slots);
    forall p, q | p in plan && q in plan && p != q && plan[p] > now ensures plan[p] != plan[q] {
      var i := HasLastMention(posts, p);
      var j := HasLastMention(posts, q);
      DealAtLastMention(posts, slots, i);
      DealAtLastMention(posts, slots, j);
    }
    forall p, k | p in plan && k in children && k.account == account && k.post !in plan && Blocks(children[k], now)
      ensures children[k].scheduledAt != Some(plan[p])
    {
      var i := HasLastMention(posts, p);
      DealAtLastMention(posts, slots, i);
      DealStaysClear(children, account, posts, times, slots, now, i, k);
    }
  }

  lemma TogetherCollides(children: map<ChildKey, PlatformPost>, account: int, posts: seq<int>, times: seq<Instant>,
                         slots: seq<Instant>, now: Instant, i: int, j: int)
    requires Holding(children, account, posts, times, slots)
    requires 0 <= i < j < |posts| && LastMention(posts, i) && LastMention(posts, j) && slots[i] == slots[j] > now
    ensures !NoDoubleBooking(PlaceChildren(children, account, Deal(posts, slots)), account, now)
  {
    DealAtLastMention(posts, slots, i);
    DealAtLastMention(posts, slots, j);
    assert posts[i + 1..][j - i - 1] == posts[j];
    var after := PlaceChildren(children, account, Deal(posts, slots));
    var a, b := ChildKey(posts[i], account), ChildKey(posts[j], account);
    assert a != b && Blocks(after[a], now) && Blocks(after[b], now);
  }

  /** Dealing sorted instants out keeps them distinct exactly when the posts' last mentions lie apart. */
  lemma DealBooksOnceExactly(children: map<ChildKey, PlatformPost>, account: int, posts: seq<int>, times: seq<Instant>,
                             slots: seq<Instant>, now: Instant)
    requires Holding(children, account, posts, times, slots) && NoDoubleBooking(children, account, now)
    ensures NoDoubleBooking(PlaceChildren(children, account, Deal(posts, slots)), account, now) <==>
      MentionsApart(posts, slots, now)
  {
    if MentionsApart(posts, slots, now) {
      ApartIsClean(children, account, posts, times, slots, now);
      CleanPlanKeepsBooking(children, account, now, Deal(posts, slots), account);
    } else {
      var i, j :| 0 <= i < j < |posts| && LastMention(posts, i) && LastMention(posts, j) && slots[i] == slots[j] > now;
      TogetherCollides(children, account, posts, times, slots, now, i, j);
    }
  }

  lemma ReorderHolding(db: Db, account: int, queue: int, ids: seq<EntryKey>)
    returns (posts: seq<int>, times: seq<Instant>, slots: seq<Instant>)
    ensures posts == Slotted(db, account, Named(db, account, queue, ids))
    ensures (forall p | p in posts :: HoldsSlot(db, account, p)) && times == Times(db, account, posts) &&
      slots == Sorted(times)
    ensures Holding(db.children, account, posts, times, slots) &&
      ReorderPlan(db, account, queue, ids) == Deal(posts, slots)
  {
    posts := Slotted(db, account, Named(db, account, queue, ids));
    NamedHold(db, account, queue, ids);
    times, slots := HoldingOf(db, account, posts);
  }

  lemma HoldingOf(db: Db, account: int, posts: seq<int>) returns (times: seq<Instant>, slots: seq<Instant>)
    requires forall p | p in posts :: HoldsSlot(db, account, p) && !IsProtected(db.children, ChildKey(p, account))
    ensures times == Times(db, account, posts) && slots == Sorted(times)
    ensures Holding(db.children, account, posts, times, slots)
  {
    times := Times(db, account, posts);
    slots := Sorted(times);
    SortedSorts(times);
  }

  /** Whatever the ids, a reorder keeps instants distinct exactly when its posts' last mentions lie apart. */
  lemma ReorderBooksOnceExactly(cfg: Config, db: Db, queue: int, ids: seq<EntryKey>, now: Instant)
    requires NoDoubleBooking(db.children, cfg.accountOf(queue), now)
    ensures var account := cfg.accountOf(queue);
      var posts := Slotted(db, account, Named(db, account, queue, ids));
      && (forall p | p in posts :: HoldsSlot(db, account, p)) && |Sorted(Times(db, account, posts))| == |posts|
      && (NoDoubleBooking(ReorderDb(cfg, db, queue, ids).children, account, now) <==>
           MentionsApart(posts, Sorted(Times(db, account, posts)), now))
  {
    var posts, times, slots := ReorderHolding(db, cfg.accountOf(queue), queue, ids);
    ReorderChildren(cfg, db, queue, ids);
    DealBooksOnceExactly(db.children, cfg.accountOf(queue), posts, times, slots, now);
  }

  /** Posts named once each lie apart, for they held distinct future instants. */
  lemma NamedOnceLieApart(children: map<ChildKey, PlatformPost>, account: int, posts: seq<int>, times: seq<Instant>,
                          slots: seq<Instant>, now: Instant)
    requires Holding(children, account, posts, times, slots) && NoDoubleBooking(children, account, now) && Unique(posts)
    ensures MentionsApart(posts, slots, now)
  {
    forall i, j | 0 <= i < j < |posts| && slots[i] > now ensures slots[i] != slots[j] {
      if slots[i] == slots[j] {
        RepeatCounts(slots, i, j);
        var a, b := CountsRepeat(times, slots[i]);
        var k, l := ChildKey(posts[a], account), ChildKey(posts[b], account);
        assert Blocks(children[k], now);
      }
    }
  }

  /** A channel that starts distinct stays distinct: its own queues need distinct ids, other channels' need nothing. */
  lemma ReorderKeepsBooking(cfg: Config, db: Db, queue: int, ids: seq<EntryKey>, now: Instant, other: int)
    requires cfg.accountOf(queue) == other ==> Unique(ids)
    requires NoDoubleBooking(db.children, other, now)
    ensures NoDoubleBooking(ReorderDb(cfg, db, queue, ids).children, other, now)
  {
    var account := cfg.accountOf(queue);
    ReorderChildren(cfg, db, queue, ids);
    if account == other {
      var distinct := PlanOfDistinctIds(db, account, queue, ids);
      var posts, times, slots := ReorderHolding(db, account, queue, ids);
      NamedOnceLieApart(db.children, account, posts, times, slots, now);
      DealBooksOnceExactly(db.children, account, posts, times, slots, now);
    } else {
      OtherChannelKeepsBooking(db.children, ReorderDb(cfg, db, queue, ids).children, account, other, now);
    }
  }

  lemma NamedHold(db: Db, account: int, queue: int, ids: seq<EntryKey>)
    ensures forall p | p in Slotted(db, account, Named(db, account, queue, ids)) ::
              HoldsSlot(db, account, p) && !IsProtected(db.children, ChildKey(p, account))
  {
    var named := Named(db, account, queue, ids);
    NamedAreEntries(db, account, queue, ids);
    SlottedHold(db, account, named);
    SlottedAreNamed(db, account, named);
  }

  lemma {:induction false} SlottedAreNamed(db: Db, account: int, named: seq<EntryKey>)
    ensures forall p | p in Slotted(db, account, named) :: exists e :: e in named && e.post == p
  {
    if named == [] {
    } else {
      SlottedAreNamed(db, account, named[..|named| - 1]);
    }
  }

  // ----- repeating a reorder, and repeated ids

  lemma {:induction false} SameNames(a: Db, b: Db, account: int, queue: int, ids: seq<EntryKey>)
    requires a.entries.Keys == b.entries.Keys && a.children.Keys == b.children.Keys
    requires forall k | k in a.children :: a.children[k].status == b.children[k].status
    ensures Named(a, account, queue, ids) == Named(b, account, queue, ids)
  {
    if ids == [] {
    } else {
      SameNames(a, b, account, queue, ids[..|ids| - 1]);
    }
  }

  lemma {:induction false} SameSlotted(a: Db, b: Db, account: int, named: seq<EntryKey>)
    requires forall e | e in named :: HoldsSlot(a, account, e.post) == HoldsSlot(b, account, e.post)
    ensures Slotted(a, account, named) == Slotted(b, account, named)
  {
    if named == [] {
    } else {
      SameSlotted(a, b, account, named[..|named| - 1]);
    }
  }

  lemma ReorderShape(cfg: Config, db: Db, queue: int, ids: seq<EntryKey>)
    requires Unique(ids)
    ensures var db', account := ReorderDb(cfg, db, queue, ids), cfg.accountOf(queue);
      && db'.entries.Keys == db.entries.Keys
      && db'.children.Keys == db.children.Keys
      && (forall k | k in db.children :: db'.children[k].status == db.children[k].status)
      && (forall p :: HoldsSlot(db', account, p) == HoldsSlot(db, account, p))
  {
    var account := cfg.accountOf(queue);
    var posts, times, slots := ReorderHolding(db, account, queue, ids);
    DealtPosts(posts, slots);
    ReorderChildren(cfg, db, queue, ids);
    PlacingKeepsHolders(db, ReorderDb(cfg, db, queue, ids), account, Deal(posts, slots));
    ReorderFrame(cfg, db, queue, ids);
  }

  lemma PlacingKeepsHolders(db: Db, after: Db, account: int, plan: map<int, Instant>)
    requires after.children == PlaceChildren(db.children, account, plan)
    requires forall p | p in plan :: HoldsSlot(db, account, p)
    ensures forall k | k in db.children :: k in after.children && after.children[k].status == db.children[k].status
    ensures forall p :: HoldsSlot(after, account, p) == HoldsSlot(db, account, p)
  {}

  lemma TimesOfReordered(cfg: Config, db: Db, queue: int, ids: seq<EntryKey>)
    requires Unique(ids)
    ensures var db' := ReorderDb(cfg, db, queue, ids);
      Slotted(db', cfg.accountOf(queue), Named(db', cfg.accountOf(queue), queue, ids)) ==
      Slotted(db, cfg.accountOf(queue), Named(db, cfg.accountOf(queue), queue, ids))
  {
    var account, db' := cfg.accountOf(queue), ReorderDb(cfg, db, queue, ids);
    ReorderShape(cfg, db, queue, ids);
    SameNames(db, db', account, queue, ids);
    SameSlotted(db, db', account, Named(db, account, queue, ids));
  }

  lemma ReorderPlanRepeats(cfg: Config, db: Db, queue: int, ids: seq<EntryKey>)
    requires Unique(ids)
    ensures ReorderPlan(ReorderDb(cfg, db, queue, ids), cfg.accountOf(queue), queue, ids) ==
            ReorderPlan(db, cfg.accountOf(queue), queue, ids)
  {
    var account := cfg.accountOf(queue);
    var db' := ReorderDb(cfg, db, queue, ids);
    TimesOfReordered(cfg, db, queue, ids);
    ReorderPermutes(cfg, db, queue, ids);
    var posts, times, slots := ReorderHolding(db, account, queue, ids);
    var posts', times', slots' := ReorderHolding(db', account, queue, ids);
    SortedSorts(times);
    SortedFixesSorted(slots);
  }

  lemma PlaceTwice(children: map<ChildKey, PlatformPost>, account: int, plan: map<int, Instant>)
    ensures PlaceChildren(PlaceChildren(children, account, plan), account, plan) ==
      PlaceChildren(children, account, plan)
  {}

  /** Repeating the same reorder moves no post and no parent. */
  lemma ReorderTwiceMovesNothing(cfg: Config, db: Db, queue: int, ids: seq<EntryKey>)
    requires Unique(ids)
    ensures var db' := ReorderDb(cfg, db, queue, ids);
      ReorderDb(cfg, db', queue, ids).children == db'.children && ReorderDb(cfg, db', queue, ids).parents == db'.parents
  {
    var account := cfg.accountOf(queue);
    var plan := ReorderPlan(db, account, queue, ids);
    ReorderPlanRepeats(cfg, db, queue, ids);
    PlaceTwice(db.children, account, plan);
    ParentsPlaceTwice(db, ReorderDb(cfg, db, queue, ids).entries, account, queue, plan);
  }

  lemma ParentsPlaceTwice(db: Db, entries: map<EntryKey, QueueEntry>, account: int, queue: int, plan: map<int, Instant>)
    ensures var db' := Assign(db, account, queue, plan).(entries := entries);
      PlacedParents(db', account, plan) == db'.parents
  {
    PlaceTwice(db.children, account, plan);
  }

  // Posts 1 and 2 of queue 0, holding the instants 1 and 2.
  const PAIR: map<ChildKey, PlatformPost> := map[
    ChildKey(1, 0) := PlatformPost(Scheduled, Some(1), None),
    ChildKey(2, 0) := PlatformPost(Scheduled, Some(2), None)]
  const PAIR_DB: Db := Db(PAIR, map[
    EntryKey(0, 1) := QueueEntry(1, Some(1)),
    EntryKey(0, 2) := QueueEntry(2, Some(2))], map[])

  /** Naming an entry twice can book one instant twice: with 1 at 1 and 2 at 2, the order 2, 1, 2 puts both at 2. */
  lemma RepeatedIdDoubleBooks(cfg: Config)
    requires cfg.accountOf(0) == 0
    ensures NoDoubleBooking(PAIR_DB.children, 0, 0)
    ensures var ids := [EntryKey(0, 2), EntryKey(0, 1), EntryKey(0, 2)];
      !NoDoubleBooking(ReorderDb(cfg, PAIR_DB, 0, ids).children, 0, 0)
  {
    SlottedThree();
    TimesThree();
    SortThree();
    NotApart([2, 1, 2], [1, 2, 2]);
    ReorderBooksOnceExactly(cfg, PAIR_DB, 0, [EntryKey(0, 2), EntryKey(0, 1), EntryKey(0, 2)], 0);
  }

  lemma NotApart(posts: seq<int>, slots: seq<Instant>)
    requires posts == [2, 1, 2] && slots == [1, 2, 2]
    ensures !MentionsApart(posts, slots, 0)
  {
    assert posts[2..] == [2] && posts[3..] == [];
    assert LastMention(posts, 1) && LastMention(posts, 2) && slots[1] == slots[2] > 0;
  }

  lemma TimesThree()
    ensures (forall i | 0 <= i < 3 :: HoldsSlot(PAIR_DB, 0, [2, 1, 2][i])) && Times(PAIR_DB, 0, [2, 1, 2]) == [2, 1, 2]
  {}

  lemma ReorderChildren(cfg: Config, db: Db, queue: int, ids: seq<EntryKey>)
    ensures ReorderDb(cfg, db, queue, ids).children ==
            PlaceChildren(db.children, cfg.accountOf(queue), ReorderPlan(db, cfg.accountOf(queue), queue, ids))
  {}

  lemma NamedSnoc(db: Db, account: int, queue: int, ids: seq<EntryKey>, e: EntryKey)
    requires e in db.entries && e.queue == queue && !IsProtected(db.children, ChildKey(e.post, account))
    ensures Named(db, account, queue, ids + [e]) == Named(db, account, queue, ids) + [e]
  {}

  lemma SlottedSnoc(db: Db, account: int, named: seq<EntryKey>, e: EntryKey)
    requires HoldsSlot(db, account, e.post)
    ensures Slotted(db, account, named + [e]) == Slotted(db, account, named) + [e.post]
  {}

  lemma SortedSnoc(s: seq<int>, x: int)
    ensures Sorted(s + [x]) == InsertSorted(Sorted(s), x)
  {}

  lemma DealSnoc(posts: seq<int>, slots: seq<Instant>, p: int, t: Instant)
    requires |posts| == |slots|
    ensures Deal(posts + [p], slots + [t]) == Deal(posts, slots)[p := t]
  {}

  lemma DealPrefix(posts: seq<int>, slots: seq<Instant>, i: nat)
    requires i < |posts| == |slots|
    ensures Deal(posts[..i + 1], slots[..i + 1]) == Deal(posts[..i], slots[..i])[posts[i] := slots[i]]
  {
    assert posts[..i + 1] == posts[..i] + [posts[i]] && slots[..i + 1] == slots[..i] + [slots[i]];
    DealSnoc(posts[..i], slots[..i], posts[i], slots[i]);
  }

  lemma SortThree()
    ensures Sorted([2, 1, 2]) == [1, 2, 2]
  {
    SortedSnoc([], 2);
    assert [] + [2] == [2] && Sorted([2]) == [2];
    SortedSnoc([2], 1);
    assert [2] + [1] == [2, 1] && Sorted([2, 1]) == [1, 2];
    SortedSnoc([2, 1], 2);
    assert [2, 1] + [2] == [2, 1, 2];
    InsertLast([1, 2], 2);
  }

  lemma SlottedThree()
    ensures Slotted(PAIR_DB, 0, Named(PAIR_DB, 0, 0, [EntryKey(0, 2), EntryKey(0, 1), EntryKey(0, 2)])) == [2, 1, 2]
  {
    var a, b := EntryKey(0, 1), EntryKey(0, 2);
    NamedSnoc(PAIR_DB, 0, 0, [], b);
    NamedSnoc(PAIR_DB, 0, 0, [b], a);
    NamedSnoc(PAIR_DB, 0, 0, [b, a], b);
    SlottedSnoc(PAIR_DB, 0, [], b);
    SlottedSnoc(PAIR_DB, 0, [b], a);
    SlottedSnoc(PAIR_DB, 0, [b, a], b);
    assert [] + [b] == [b] && [b] + [a] == [b, a] && [b, a] + [b] == [b, a, b];
  }
}
