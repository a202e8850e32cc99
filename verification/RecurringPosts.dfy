/** The daily job that clones recurring posts onto their dates. */
module RecurringPosts {
  import opened Prelude
  import opened PostingSlots
  import opened RecurrenceDates

  /** A workspace's clock: its zone and the local time of day of an instant. */
  datatype Clock = Clock(zone: Zone, timeOfDay: Instant -> int)

  /** Where a post comes from: the source of a rule, a clone made by it, or neither. */
  datatype Origin = SourceOf(rule: int) | CloneOf(rule: int) | Elsewhere

  datatype Post = Post(
    workspace: int, caption: string, scheduledAt: Option<Instant>, children: seq<Option<Instant>>, origin: Origin)

  datatype Rule = Rule(
    id: int, frequency: Frequency, interval: nat, endDate: Option<LocalDate>, source: Post, clock: Clock)

  predicate Runnable(rule: Rule) {
    rule.source.scheduledAt.Some? ==> rule.clock.zone.localDate(rule.source.scheduledAt.value) >= 1
  }

  function Earlier(a: Option<Instant>, b: Option<Instant>): Option<Instant> {
    if a.None? then b else if b.None? || a.value <= b.value then a else b
  }

  /** The least of the children's times, if any child has one. */
  function Earliest(children: seq<Option<Instant>>): Option<Instant> {
    if children == [] then None else Earlier(Earliest(children[..|children| - 1]), children[|children| - 1])
  }

  /** The source shows the least of its children's times, or has no children. */
  predicate InSync(source: Post) { source.children == [] || source.scheduledAt == Earliest(source.children) }

  function Today(rule: Rule, now: Instant): LocalDate { rule.clock.zone.localDate(now) }

  function SeriesDates(rule: Rule, now: Instant): seq<LocalDate>
    requires rule.source.scheduledAt.Some?
  {
    var cutoff := Today(rule, now) + LOOKAHEAD_DAYS;
    var end := if rule.endDate.Some? && rule.endDate.value <= cutoff then rule.endDate.value else cutoff;
    Dates(rule.frequency, rule.interval, rule.clock.zone.localDate(rule.source.scheduledAt.value), end)
  }

  /** A post that counts as already generated, when it falls on one of the dates. */
  predicate Resembles(rule: Rule, p: Post) {
    p.origin != SourceOf(rule.id) && p.workspace == rule.source.workspace && p.caption == rule.source.caption &&
      p.scheduledAt.Some?
  }

  function Taken(rule: Rule, posts: seq<Post>, dates: seq<LocalDate>): set<LocalDate> {
    set i | 0 <= i < |posts| && Resembles(rule, posts[i]) &&
      rule.clock.zone.localDate(posts[i].scheduledAt.value) in dates ::
      rule.clock.zone.localDate(posts[i].scheduledAt.value)
  }

  function Keep(dates: seq<LocalDate>, taken: set<LocalDate>, today: LocalDate): seq<LocalDate> {
    if dates == [] then [] else
      var d := dates[|dates| - 1];
      Keep(dates[..|dates| - 1], taken, today) + if d in taken || d <= today then [] else [d]
  }

  /** The dates a run makes clones for. */
  function Due(rule: Rule, posts: seq<Post>, now: Instant): seq<LocalDate>
    requires rule.source.scheduledAt.Some?
  {
    var dates := SeriesDates(rule, now);
    Keep(dates, Taken(rule, posts, dates), Today(rule, now))
  }

  function SlotTime(rule: Rule, d: LocalDate): Instant
    requires rule.source.scheduledAt.Some?
  {
    rule.clock.zone.instant(d, rule.clock.timeOfDay(rule.source.scheduledAt.value))
  }

  /** The children's times, moved along with the post. */
  function Shifted(children: seq<Option<Instant>>, from: Instant, to: Instant): seq<Option<Instant>> {
    seq(|children|, i requires 0 <= i < |children| =>
      if children[i].Some? then Some(to + (children[i].value - from)) else None)
  }

  function Clone(rule: Rule, d: LocalDate): Post
    requires rule.source.scheduledAt.Some?
  {
    var at := SlotTime(rule, d);
    var children := Shifted(rule.source.children, rule.source.scheduledAt.value, at);
    var first := if children == [] then Some(at) else Earliest(children);
    Post(rule.source.workspace, rule.source.caption, first, children, CloneOf(rule.id))
  }

  function Clones(rule: Rule, dates: seq<LocalDate>): seq<Post>
    requires rule.source.scheduledAt.Some?
  {
    seq(|dates|, i requires 0 <= i < |dates| => Clone(rule, dates[i]))
  }

  lemma ClonesSnoc(rule: Rule, dates: seq<LocalDate>, d: LocalDate)
    requires rule.source.scheduledAt.Some?
    ensures Clones(rule, dates + [d]) == Clones(rule, dates) + [Clone(rule, d)]
  {}

  function RunRule(rule: Rule, posts: seq<Post>, now: Instant): seq<Post> {
    if rule.source.scheduledAt.None? then posts else posts + Clones(rule, Due(rule, posts, now))
  }

  function RunRules(rules: seq<Rule>, posts: seq<Post>, now: Instant): seq<Post> {
    if rules == [] then posts else
      var n := |rules| - 1;
      RunRule(rules[n], RunRules(rules[..n], posts, now), now)
  }

  /** Every rule with a scheduled source records the run. */
  function Stamped(rules: seq<Rule>, stamps: map<int, Instant>, now: Instant): map<int, Instant> {
    if rules == [] then stamps else
      var n := |rules| - 1;
      var before := Stamped(rules[..n], stamps, now);
      if rules[n].source.scheduledAt.Some? then before[rules[n].id := now] else before
  }

  class RecurrenceJob {
    var posts: seq<Post>
    var lastGenerated: map<int, Instant>

    constructor (stored: seq<Post>)
      ensures posts == stored && lastGenerated == map[]
    {
      posts, lastGenerated := stored, map[];
    }

    /** One run over the active rules. */
    method GenerateRecurringPosts(rules: seq<Rule>, now: Instant) returns (total: nat)
      requires forall rule | rule in rules :: Runnable(rule)
      modifies this
      ensures posts == RunRules(rules, old(posts), now) && |posts| == |old(posts)| + total
      ensures lastGenerated == Stamped(rules, old(lastGenerated), now)
    {
      total := 0;
      for i := 0 to |rules|
        invariant posts == RunRules(rules[..i], old(posts), now) && |posts| == |old(posts)| + total
        invariant lastGenerated == Stamped(rules[..i], old(lastGenerated), now)
      {
        var rule := rules[i];
        assert rule in rules && rules[..i + 1][..i] == rules[..i] && rules[..i + 1][i] == rule;
        if rule.source.scheduledAt.Some? {
          var made := GenerateRule(rule, now);
          total := total + made;
          lastGenerated := lastGenerated[rule.id := now];
        }
      }
      assert rules[..|rules|] == rules;
    }

    method GenerateRule(rule: Rule, now: Instant) returns (made: nat)
      requires rule.source.scheduledAt.Some? && Runnable(rule)
      modifies `posts
      ensures posts == RunRule(rule, old(posts), now) && |posts| == |old(posts)| + made
    {
      var base := rule.clock.zone.localDate(rule.source.scheduledAt.value);
      var today := Today(rule, now);
      var cutoff := today + LOOKAHEAD_DAYS;
      var end := if rule.endDate.Some? then rule.endDate.value else cutoff;
      if end > cutoff {
        end := cutoff;
      }
      var dates := ComputeRecurrenceDates(base, rule.frequency, rule.interval, end);
      assert dates == SeriesDates(rule, now);
      var existing := Taken(rule, posts, dates);
      made := CloneOnto(rule, dates, existing, today);
      assert Due(rule, old(posts), now) == Keep(dates, existing, today);
    }

    /** One clone for each date that is neither taken nor past. */
    method CloneOnto(rule: Rule, dates: seq<LocalDate>, existing: set<LocalDate>, today: LocalDate)
      returns (made: nat)
      requires rule.source.scheduledAt.Some?
      modifies `posts
      ensures posts == old(posts) + Clones(rule, Keep(dates, existing, today))
      ensures made == |Keep(dates, existing, today)|
    {
      made := 0;
      ghost var kept: seq<LocalDate> := [];
      for i := 0 to |dates|
        invariant kept == Keep(dates[..i], existing, today) && made == |kept|
        invariant posts == old(posts) + Clones(rule, kept)
      {
        var d := dates[i];
        assert dates[..i + 1] == dates[..i] + [d];
        KeepSnoc(dates[..i], d, existing, today);
        if d in existing || d <= today {
        } else {
          ClonesSnoc(rule, kept, d);
          posts := posts + [Clone(rule, d)];
          kept := kept + [d];
          made := made + 1;
        }
      }
      assert dates[..|dates|] == dates;
    }
  }

  // ----- where a clone lands

  lemma {:induction false} EarliestShifts(children: seq<Option<Instant>>, from: Instant, to: Instant)
    ensures Earliest(Shifted(children, from, to)) ==
            if Earliest(children).Some? then Some(to + (Earliest(children).value - from)) else None
  {
    if children == [] {
    } else {
      var n := |children| - 1;
      EarliestShifts(children[..n], from, to);
      assert Shifted(children, from, to)[..n] == Shifted(children[..n], from, to);
    }
  }

  /** t is the time of some child and at most that of every one, or no child has a time. */
  ghost predicate IsLeast(children: seq<Option<Instant>>, t: Option<Instant>) {
    && (t.None? <==> forall c | c in children :: c.None?)
    && (t.Some? ==> t in children && forall c | c in children && c.Some? :: t.value <= c.value)
  }

  lemma {:induction false} EarliestIsLeast(children: seq<Option<Instant>>)
    ensures IsLeast(children, Earliest(children))
    ensures forall t | IsLeast(children, t) :: t == Earliest(children)
  {
    if children == [] {
    } else {
      var front, last := children[..|children| - 1], children[|children| - 1];
      assert children == front + [last] && last in children;
      EarliestIsLeast(front);
      assert forall c | c in front :: c in children;
    }
  }

  /** A clone keeps the series' time of day, on its date, exactly when the source is in sync with its children. */
  lemma ClonesLandInSync(rule: Rule, d: LocalDate)
    requires rule.source.scheduledAt.Some?
    ensures Clone(rule, d).scheduledAt == Some(SlotTime(rule, d)) <==> InSync(rule.source)
    ensures InSync(rule.source) <==>
            rule.source.children == [] || IsLeast(rule.source.children, rule.source.scheduledAt)
  {
    EarliestShifts(rule.source.children, rule.source.scheduledAt.value, SlotTime(rule, d));
    EarliestIsLeast(rule.source.children);
  }

  /**
   * A clone in full: the source's workspace and caption, marked as the rule's, each child as far
   * from the series' time on the date as the source's child is from the source, and the post at
   * the least time of its children, or at the series' time when it has none.
   */
  lemma CloneInFull(rule: Rule, d: LocalDate)
    requires rule.source.scheduledAt.Some?
    ensures var c, source, from := Clone(rule, d), rule.source, rule.source.scheduledAt.value;
      var at := rule.clock.zone.instant(d, rule.clock.timeOfDay(from));
      && c.workspace == source.workspace && c.caption == source.caption && c.origin == CloneOf(rule.id)
      && |c.children| == |source.children|
      && (forall i | 0 <= i < |c.children| :: c.children[i].Some? <==> source.children[i].Some?)
      && (forall i | 0 <= i < |c.children| && c.children[i].Some? ::
           c.children[i].value - at == source.children[i].value - from)
      && if c.children == [] then c.scheduledAt == Some(at) else IsLeast(c.children, c.scheduledAt)
  {
    EarliestIsLeast(Clone(rule, d).children);
  }

  /** Another post of the workspace with the source's caption, scheduled on date d. */
  ghost predicate Stands(rule: Rule, p: Post, d: LocalDate) {
    p.origin != SourceOf(rule.id) && p.workspace == rule.source.workspace && p.caption == rule.source.caption &&
    p.scheduledAt.Some? && rule.clock.zone.localDate(p.scheduledAt.value) == d
  }

  /**
   * The dates a run clones for: terms of the series among its first 180, after today and at most 90
   * days ahead, not past the rule's end date, on which no other post of the workspace with the
   * source's caption is scheduled.
   */
  lemma DueExactly(rule: Rule, posts: seq<Post>, now: Instant, d: LocalDate)
    requires rule.source.scheduledAt.Some?
    ensures var localDate, source := rule.clock.zone.localDate, rule.source;
      d in Due(rule, posts, now) <==>
      && rule.frequency != Unknown
      && (exists k: nat :: 1 <= k <= 180 &&
           d == Term(rule.frequency, rule.interval, localDate(source.scheduledAt.value), k))
      && localDate(now) < d <= localDate(now) + 90 && (rule.endDate.Some? ==> d <= rule.endDate.value)
      && !exists p :: p in posts && Stands(rule, p, d)
  {
    var dates := SeriesDates(rule, now);
    KeepMembers(dates, Taken(rule, posts, dates), Today(rule, now));
    SeriesTerms(rule, now, d);
    if d in dates { TakenOn(rule, posts, dates, d); }
  }

  lemma TakenOn(rule: Rule, posts: seq<Post>, dates: seq<LocalDate>, d: LocalDate)
    requires d in dates
    ensures d in Taken(rule, posts, dates) <==> exists p :: p in posts && Stands(rule, p, d)
  {
    if p :| p in posts && Stands(rule, p, d) {
      var i :| 0 <= i < |posts| && posts[i] == p;
      assert Resembles(rule, posts[i]);
    }
    if d in Taken(rule, posts, dates) {
      var i :| 0 <= i < |posts| && Resembles(rule, posts[i]) &&
        rule.clock.zone.localDate(posts[i].scheduledAt.value) == d;
      assert Stands(rule, posts[i], d);
    }
  }

  lemma SeriesTerms(rule: Rule, now: Instant, d: LocalDate)
    requires rule.source.scheduledAt.Some?
    ensures var base := rule.clock.zone.localDate(rule.source.scheduledAt.value);
      d in SeriesDates(rule, now) <==>
      && rule.frequency != Unknown
      && (exists k: nat :: 1 <= k <= 180 && d == Term(rule.frequency, rule.interval, base, k))
      && d <= rule.clock.zone.localDate(now) + 90 && (rule.endDate.Some? ==> d <= rule.endDate.value)
  {
    var base, dates := rule.clock.zone.localDate(rule.source.scheduledAt.value), SeriesDates(rule, now);
    var cutoff := Today(rule, now) + LOOKAHEAD_DAYS;
    var end := if rule.endDate.Some? && rule.endDate.value <= cutoff then rule.endDate.value else cutoff;
    if d in dates {
      var i :| 0 <= i < |dates| && dates[i] == d;
      DatesAreTheFirstTerms(rule.frequency, rule.interval, base, end, i + 1);
    }
    if rule.frequency != Unknown {
      if k: nat :| 1 <= k <= 180 && d == Term(rule.frequency, rule.interval, base, k) {
        DatesAreTheFirstTerms(rule.frequency, rule.interval, base, end, k);
        if d <= end { assert dates[k - 1] == d; }
      }
    }
  }

  /** Rules run one after the other, each on what the earlier ones left. */
  lemma {:induction false} RulesRunInOrder(first: seq<Rule>, second: seq<Rule>, posts: seq<Post>, now: Instant)
    ensures RunRules(first + second, posts, now) == RunRules(second, RunRules(first, posts, now), now)
  {
    if second == [] {
      assert first + second == first;
    } else {
      var n := |second| - 1;
      assert (first + second)[..|first| + n] == first + second[..n];
      RulesRunInOrder(first, second[..n], posts, now);
    }
  }

  /** Exactly the rules with a scheduled source are stamped with the run's time. */
  lemma {:induction false} StampedExactly(rules: seq<Rule>, stamps: map<int, Instant>, now: Instant, id: int)
    ensures var after := Stamped(rules, stamps, now);
      if exists rule :: rule in rules && rule.id == id && rule.source.scheduledAt.Some?
      then id in after && after[id] == now
      else (id in after <==> id in stamps) && (id in stamps ==> after[id] == stamps[id])
  {
    if rules == [] {
    } else {
      var front, last := rules[..|rules| - 1], rules[|rules| - 1];
      assert rules == front + [last];
      StampedExactly(front, stamps, now, id);
    }
  }

  /** The gaps between a post's platforms carry over to every clone. */
  lemma ClonesKeepOffsets(rule: Rule, d: LocalDate, i: nat, j: nat)
    requires rule.source.scheduledAt.Some? && i < |rule.source.children| && j < |rule.source.children|
    requires rule.source.children[i].Some? && rule.source.children[j].Some?
    ensures var c := Clone(rule, d).children;
      |c| == |rule.source.children| && c[i].Some? && c[j].Some? &&
      c[i].value - c[j].value == rule.source.children[i].value - rule.source.children[j].value
  {}

  // ----- over many runs

  /** The series' wall-clock time exists on every date, so that its instant falls on that date. */
  ghost predicate StaysOnDate(rule: Rule) {
    rule.source.scheduledAt.Some? ==> forall d :: rule.clock.zone.localDate(SlotTime(rule, d)) == d
  }

  predicate ByRule(rule: Rule, p: Post) { p.origin == CloneOf(rule.id) }

  function DateOf(rule: Rule, p: Post): LocalDate
    requires p.scheduledAt.Some?
  {
    rule.clock.zone.localDate(p.scheduledAt.value)
  }

  /** The rule's clones are recognizable, and no two share a local date. */
  ghost predicate OncePerDate(rule: Rule, posts: seq<Post>) {
    && (forall i | 0 <= i < |posts| && ByRule(rule, posts[i]) :: Resembles(rule, posts[i]))
    && forall i, j | 0 <= i < j < |posts| && ByRule(rule, posts[i]) && ByRule(rule, posts[j]) ::
         DateOf(rule, posts[i]) != DateOf(rule, posts[j])
  }

  lemma IsTaken(rule: Rule, posts: seq<Post>, dates: seq<LocalDate>, i: nat)
    requires i < |posts| && Resembles(rule, posts[i]) && DateOf(rule, posts[i]) in dates
    ensures DateOf(rule, posts[i]) in Taken(rule, posts, dates)
  {}

  lemma {:induction false} KeepMembers(dates: seq<LocalDate>, taken: set<LocalDate>, today: LocalDate)
    ensures forall d :: d in Keep(dates, taken, today) <==> d in dates && d !in taken && d > today
  {
    if dates == [] {
    } else {
      KeepMembers(dates[..|dates| - 1], taken, today);
      assert dates == dates[..|dates| - 1] + [dates[|dates| - 1]];
    }
  }

  lemma {:induction false} KeepAscends(dates: seq<LocalDate>, taken: set<LocalDate>, today: LocalDate)
    requires Ascending(dates)
    ensures Ascending(Keep(dates, taken, today))
  {
    if dates == [] {
    } else {
      var n := |dates| - 1;
      KeepAscends(dates[..n], taken, today);
      KeepMembers(dates[..n], taken, today);
      var kept := Keep(dates[..n], taken, today);
      forall i | 0 <= i < |kept| ensures kept[i] < dates[n] {
        assert kept[i] in kept;
        var k :| 0 <= k < n && dates[..n][k] == kept[i];
        assert dates[k] == kept[i];
      }
    }
  }

  lemma RunKeepsOncePerDate(rule: Rule, posts: seq<Post>, now: Instant)
    requires OncePerDate(rule, posts) && rule.interval >= 1 && Runnable(rule) && InSync(rule.source) &&
      StaysOnDate(rule)
    ensures OncePerDate(rule, RunRule(rule, posts, now))
  {
    if rule.source.scheduledAt.Some? {
      var due, after := Due(rule, posts, now), RunRule(rule, posts, now);
      var dates := SeriesDates(rule, now);
      var taken := Taken(rule, posts, dates);
      SeriesAscends(rule, now);
      KeepAscends(dates, taken, Today(rule, now));
      KeepMembers(dates, taken, Today(rule, now));
      forall i | |posts| <= i < |after|
        ensures Resembles(rule, after[i]) && DateOf(rule, after[i]) == due[i - |posts|] {
        ClonesLandInSync(rule, due[i - |posts|]);
      }
      forall i, j | 0 <= i < |posts| <= j < |after| && ByRule(rule, after[i])
        ensures DateOf(rule, after[i]) != DateOf(rule, after[j])
      {
        assert due[j - |posts|] in due;
        assert Resembles(rule, posts[i]);
      }
    }
  }

  lemma SeriesAscends(rule: Rule, now: Instant)
    requires rule.source.scheduledAt.Some? && Runnable(rule) && rule.interval >= 1
    ensures Ascending(SeriesDates(rule, now))
  {
    var cutoff := Today(rule, now) + LOOKAHEAD_DAYS;
    var end := if rule.endDate.Some? && rule.endDate.value <= cutoff then rule.endDate.value else cutoff;
    DatesAscend(rule.frequency, rule.interval, rule.clock.zone.localDate(rule.source.scheduledAt.value), end);
  }

  /** What happens to the posts between and during runs: a run, posts from elsewhere, a deletion. */
  datatype Event = Generate(now: Instant) | Add(post: Post) | Delete(index: nat)

  function Next(rule: Rule, posts: seq<Post>, ev: Event): seq<Post> {
    match ev
    case Generate(now) => RunRule(rule, posts, now)
    case Add(p) => if ByRule(rule, p) then posts else posts + [p]
    case Delete(i) => if i < |posts| then posts[..i] + posts[i + 1..] else posts
  }

  function Run(rule: Rule, posts: seq<Post>, events: seq<Event>): seq<Post> {
    if events == [] then posts else Next(rule, Run(rule, posts, events[..|events| - 1]), events[|events| - 1])
  }

  /**
   * Over any runs at any times, with other posts added and posts deleted in between, an unchanged
   * synced source gets at most one clone per local date.
   */
  lemma {:induction false} AtMostOneClonePerDate(rule: Rule, posts: seq<Post>, events: seq<Event>)
    requires OncePerDate(rule, posts) && rule.interval >= 1 && Runnable(rule) && InSync(rule.source) &&
      StaysOnDate(rule)
    ensures OncePerDate(rule, Run(rule, posts, events))
  {
    if events == [] {
    } else {
      var before, ev := Run(rule, posts, events[..|events| - 1]), events[|events| - 1];
      AtMostOneClonePerDate(rule, posts, events[..|events| - 1]);
      match ev
      case Generate(now) => RunKeepsOncePerDate(rule, before, now);
      case Add(p) =>
      case Delete(i) => DeletionKeepsOncePerDate(rule, before, i);
    }
  }

  /** In any history a run adds one clone for each due date, after the posts already there. */
  lemma RunsAddTheDueClones(rule: Rule, posts: seq<Post>, events: seq<Event>, now: Instant)
    requires rule.source.scheduledAt.Some?
    ensures var before, after := Run(rule, posts, events), Run(rule, posts, events + [Generate(now)]);
      var due := Due(rule, before, now);
      |after| == |before| + |due| && before <= after &&
      forall i | 0 <= i < |due| :: after[|before| + i] == Clone(rule, due[i])
  {
    RunEndsWith(rule, posts, events, Generate(now));
    RunAppends(rule, Run(rule, posts, events), now);
  }

  lemma RunEndsWith(rule: Rule, posts: seq<Post>, events: seq<Event>, ev: Event)
    ensures Run(rule, posts, events + [ev]) == Next(rule, Run(rule, posts, events), ev)
  {
    assert (events + [ev])[..|events|] == events;
  }

  lemma RunAppends(rule: Rule, posts: seq<Post>, now: Instant)
    requires rule.source.scheduledAt.Some?
    ensures var after, due := RunRule(rule, posts, now), Due(rule, posts, now);
      |after| == |posts| + |due| && posts <= after &&
      forall i | 0 <= i < |due| :: after[|posts| + i] == Clone(rule, due[i])
  {}

  lemma DeletionKeepsOncePerDate(rule: Rule, posts: seq<Post>, i: nat)
    requires OncePerDate(rule, posts)
    ensures OncePerDate(rule, Next(rule, posts, Delete(i)))
  {}

  // ----- a second run at the same moment

  /** The local dates on which a run's clones show up. */
  function Landed(rule: Rule, due: seq<LocalDate>): set<LocalDate>
    requires rule.source.scheduledAt.Some?
  {
    set i | 0 <= i < |due| && Clone(rule, due[i]).scheduledAt.Some? :: DateOf(rule, Clone(rule, due[i]))
  }

  lemma KeepSnoc(dates: seq<LocalDate>, d: LocalDate, taken: set<LocalDate>, today: LocalDate)
    ensures Keep(dates + [d], taken, today) ==
            if d in taken || d <= today then Keep(dates, taken, today) else Keep(dates, taken, today) + [d]
  {
    assert (dates + [d])[..|dates|] == dates;
  }

  /** Sieving by one set and then by another is sieving by both. */
  lemma {:induction false} KeepTwice(dates: seq<LocalDate>, first: set<LocalDate>, second: set<LocalDate>,
                                     both: set<LocalDate>, today: LocalDate)
    requires forall d | d in dates :: d in both <==> d in first || d in second
    ensures Keep(dates, both, today) == Keep(Keep(dates, first, today), second, today)
  {
    if dates == [] {
    } else {
      var front, d := dates[..|dates| - 1], dates[|dates| - 1];
      assert dates == front + [d] && d in dates;
      KeepTwice(front, first, second, both, today);
      KeepSnoc(front, d, both, today);
      KeepSnoc(front, d, first, today);
      KeepSnoc(Keep(front, first, today), d, second, today);
    }
  }

  lemma TakenByOldOrNew(rule: Rule, posts: seq<Post>, due: seq<LocalDate>, dates: seq<LocalDate>, d: LocalDate)
    requires rule.source.scheduledAt.Some? && d in Taken(rule, posts + Clones(rule, due), dates)
    ensures d in Taken(rule, posts, dates) || d in Landed(rule, due)
  {
    var after := posts + Clones(rule, due);
    var i :| 0 <= i < |after| && Resembles(rule, after[i]) && DateOf(rule, after[i]) == d && d in dates;
    if i < |posts| {
      assert after[i] == posts[i];
      IsTaken(rule, posts, dates, i);
    } else {
      assert after[i] == Clone(rule, due[i - |posts|]);
    }
  }

  lemma TakenAfterRun(rule: Rule, posts: seq<Post>, now: Instant, d: LocalDate)
    requires rule.source.scheduledAt.Some? && d in SeriesDates(rule, now)
    ensures var dates := SeriesDates(rule, now);
      d in Taken(rule, RunRule(rule, posts, now), dates) <==>
      d in Taken(rule, posts, dates) || d in Landed(rule, Due(rule, posts, now))
  {
    var due, after, dates := Due(rule, posts, now), RunRule(rule, posts, now), SeriesDates(rule, now);
    if d in Taken(rule, after, dates) { TakenByOldOrNew(rule, posts, due, dates, d); }
    if d in Taken(rule, posts, dates) {
      var i :| 0 <= i < |posts| && Resembles(rule, posts[i]) && DateOf(rule, posts[i]) == d;
      assert after[i] == posts[i];
      IsTaken(rule, after, dates, i);
    }
    if d in Landed(rule, due) {
      var i :| 0 <= i < |due| && Clone(rule, due[i]).scheduledAt.Some? && DateOf(rule, Clone(rule, due[i])) == d;
      assert after[|posts| + i] == Clone(rule, due[i]);
      IsTaken(rule, after, dates, |posts| + i);
    }
  }

  /** A second run makes again exactly the clones for dates on which no clone of the first shows up. */
  lemma RerunRepeatsTheMissed(rule: Rule, posts: seq<Post>, now: Instant)
    requires rule.source.scheduledAt.Some?
    ensures var due := Due(rule, posts, now);
      Due(rule, RunRule(rule, posts, now), now) == Keep(due, Landed(rule, due), Today(rule, now))
  {
    var due, dates := Due(rule, posts, now), SeriesDates(rule, now);
    forall d | d in dates
      ensures d in Taken(rule, RunRule(rule, posts, now), dates) <==>
        d in Taken(rule, posts, dates) || d in Landed(rule, due)
    {
      TakenAfterRun(rule, posts, now, d);
    }
    KeepTwice(dates, Taken(rule, posts, dates), Landed(rule, due),
              Taken(rule, RunRule(rule, posts, now), dates), Today(rule, now));
  }

  /** So it makes none exactly when every date of the first run is the local date of one of its clones. */
  lemma RerunMakesNothingExactly(rule: Rule, posts: seq<Post>, now: Instant)
    requires rule.source.scheduledAt.Some?
    ensures Due(rule, RunRule(rule, posts, now), now) == [] <==>
            forall d | d in Due(rule, posts, now) ::
              exists e :: e in Due(rule, posts, now) && Clone(rule, e).scheduledAt.Some? &&
                DateOf(rule, Clone(rule, e)) == d
  {
    var due, today := Due(rule, posts, now), Today(rule, now);
    var again := Keep(due, Landed(rule, due), today);
    RerunRepeatsTheMissed(rule, posts, now);
    KeepMembers(SeriesDates(rule, now), Taken(rule, posts, SeriesDates(rule, now)), today);
    KeepMembers(due, Landed(rule, due), today);
    if again == [] {
      forall d | d in due
        ensures exists e :: e in due && Clone(rule, e).scheduledAt.Some? && DateOf(rule, Clone(rule, e)) == d
      {
        assert d in Landed(rule, due);
        var i :| 0 <= i < |due| && Clone(rule, due[i]).scheduledAt.Some? && DateOf(rule, Clone(rule, due[i])) == d;
        assert due[i] in due;
      }
    } else {
      var d := again[0];
      assert d in again;
      forall e | e in due && Clone(rule, e).scheduledAt.Some? ensures DateOf(rule, Clone(rule, e)) != d {
        IsLanded(rule, due, e);
      }
    }
  }

  lemma IsLanded(rule: Rule, due: seq<LocalDate>, e: LocalDate)
    requires rule.source.scheduledAt.Some? && e in due && Clone(rule, e).scheduledAt.Some?
    ensures DateOf(rule, Clone(rule, e)) in Landed(rule, due)
  {
    var i :| 0 <= i < |due| && due[i] == e;
  }

  /** A synced source's second run at the same moment makes no clone. */
  lemma RerunMakesNothing(rule: Rule, posts: seq<Post>, now: Instant)
    requires rule.source.scheduledAt.Some? && InSync(rule.source) && StaysOnDate(rule)
    ensures Due(rule, RunRule(rule, posts, now), now) == []
  {
    forall d | d in Due(rule, posts, now)
      ensures Clone(rule, d).scheduledAt.Some? && DateOf(rule, Clone(rule, d)) == d
    {
      ClonesLandInSync(rule, d);
    }
    RerunMakesNothingExactly(rule, posts, now);
  }

  // ----- without the hypotheses

  lemma {:induction false} NoTimesNoEarliest(children: seq<Option<Instant>>)
    requires forall i | 0 <= i < |children| :: children[i].None?
    ensures Earliest(children).None?
  {
    if children == [] {
    } else {
      NoTimesNoEarliest(children[..|children| - 1]);
    }
  }

  /**
   * When the source's children have no times of their own, its clones end up unscheduled, are not
   * recognized afterwards, and every further run makes them all again.
   */
  lemma UnscheduledChildrenRepeat(rule: Rule, posts: seq<Post>, now: Instant)
    requires rule.source.scheduledAt.Some? && rule.source.children != []
    requires forall i | 0 <= i < |rule.source.children| :: rule.source.children[i].None?
    ensures Due(rule, RunRule(rule, posts, now), now) == Due(rule, posts, now)
  {
    var due, today := Due(rule, posts, now), Today(rule, now);
    forall d | d in due ensures Clone(rule, d).scheduledAt.None? {
      NoTimesNoEarliest(Clone(rule, d).children);
    }
    RerunRepeatsTheMissed(rule, posts, now);
    KeepMembers(SeriesDates(rule, now), Taken(rule, posts, SeriesDates(rule, now)), today);
    assert Landed(rule, due) == {};
    forall i | 0 <= i < |due| ensures due[i] > today { assert due[i] in due; }
    KeepAll(due, {}, today);
  }

  // Day 10 at midnight, in a zone without daylight saving, with one child.
  const TEN: Instant := 10 * DAY_SECONDS

  function TenthOf(frequency: Frequency, child: Option<Instant>): Rule {
    Rule(1, frequency, 1, None, Post(1, "hello", Some(TEN), [child], SourceOf(1)),
         Clock(FixedZone(0), x => x % DAY_SECONDS))
  }

  /** With nothing generated yet, that source is due on the later days of its series up to day 100. */
  lemma DueFromTen(frequency: Frequency, child: Option<Instant>, days: nat, d: LocalDate)
    requires (frequency == Daily && days == 1) || (frequency == Weekly && days == 7)
    ensures d in Due(TenthOf(frequency, child), [], TEN) <==>
            exists k: nat :: 1 <= k <= 180 && d == 10 + k * days && d <= 100
  {
    var rule := TenthOf(frequency, child);
    assert rule.clock.zone.localDate(TEN) == 10;
    forall k: nat ensures Term(frequency, 1, 10, k) == 10 + k * days { DayTerms(1, 10, k); }
    DueExactly(rule, [], TEN, d);
    if k: nat :| 1 <= k <= 180 && d == 10 + k * days && d <= 100 {
      assert d == Term(frequency, 1, 10, k) && k * days >= days;
    }
    if d in Due(rule, [], TEN) {
      var k: nat :| 1 <= k <= 180 && d == Term(frequency, 1, 10, k);
      assert d == 10 + k * days;
    }
  }

  /** A daily source with an unscheduled child is cloned twice for day 11. */
  lemma UnscheduledChildClonedTwice()
    ensures var rule := TenthOf(Daily, None);
      11 in Due(rule, [], TEN) && 11 in Due(rule, RunRule(rule, [], TEN), TEN)
  {
    DueFromTen(Daily, None, 1, 11);
    assert 11 == 10 + 1 * 1;
    UnscheduledChildrenRepeat(TenthOf(Daily, None), [], TEN);
  }

  lemma LateChildLandsLater(e: LocalDate)
    ensures var rule := TenthOf(Weekly, Some(TEN + DAY_SECONDS));
      Clone(rule, e).scheduledAt == Some((e + 1) * DAY_SECONDS) && DateOf(rule, Clone(rule, e)) == e + 1
  {
    var rule := TenthOf(Weekly, Some(TEN + DAY_SECONDS));
    assert SlotTime(rule, e) == e * DAY_SECONDS;
    EarliestShifts(rule.source.children, TEN, SlotTime(rule, e));
    assert [Some(TEN + DAY_SECONDS)][..0] == [];
    assert Earliest(rule.source.children) == Some(TEN + DAY_SECONDS);
  }

  /** A weekly source whose one child is a day later than it shows is cloned twice for day 17. */
  lemma LateChildClonedTwice()
    ensures var rule := TenthOf(Weekly, Some(TEN + DAY_SECONDS));
      17 in Due(rule, [], TEN) && 17 in Due(rule, RunRule(rule, [], TEN), TEN)
  {
    var child := Some(TEN + DAY_SECONDS);
    var rule := TenthOf(Weekly, child);
    var due := Due(rule, [], TEN);
    DueFromTen(Weekly, child, 7, 17);
    assert 17 == 10 + 1 * 7;
    forall e | e in due ensures DateOf(rule, Clone(rule, e)) != 17 {
      DueFromTen(Weekly, child, 7, e);
      LateChildLandsLater(e);
    }
    NotLandedAgain(rule, [], TEN, 17);
  }

  lemma NotLandedAgain(rule: Rule, posts: seq<Post>, now: Instant, d: LocalDate)
    requires rule.source.scheduledAt.Some? && d in Due(rule, posts, now)
    requires forall e | e in Due(rule, posts, now) && Clone(rule, e).scheduledAt.Some? ::
      DateOf(rule, Clone(rule, e)) != d
    ensures d in Due(rule, RunRule(rule, posts, now), now)
  {
    var due, today := Due(rule, posts, now), Today(rule, now);
    RerunRepeatsTheMissed(rule, posts, now);
    KeepMembers(SeriesDates(rule, now), Taken(rule, posts, SeriesDates(rule, now)), today);
    KeepMembers(due, Landed(rule, due), today);
    assert forall i | 0 <= i < |due| :: due[i] in due;
  }

  /** An interval of zero makes 180 clones for one date in a single run. */
  lemma ZeroIntervalFloods(rule: Rule, posts: seq<Post>, now: Instant)
    requires rule.source.scheduledAt.Some? && Runnable(rule) && rule.interval == 0 && !rule.frequency.Unknown?
    requires var base := rule.clock.zone.localDate(rule.source.scheduledAt.value);
      Today(rule, now) < base <= Today(rule, now) + LOOKAHEAD_DAYS &&
      (rule.endDate.Some? ==> base <= rule.endDate.value) &&
      forall p | p in posts && Resembles(rule, p) :: DateOf(rule, p) != base
    ensures |Due(rule, posts, now)| == 180
    ensures forall d | d in Due(rule, posts, now) :: d == rule.clock.zone.localDate(rule.source.scheduledAt.value)
  {
    var base := rule.clock.zone.localDate(rule.source.scheduledAt.value);
    var dates := SeriesDates(rule, now);
    var cutoff := Today(rule, now) + LOOKAHEAD_DAYS;
    var end := if rule.endDate.Some? && rule.endDate.value <= cutoff then rule.endDate.value else cutoff;
    StandingStill(rule.frequency, base, end);
    forall i | 0 <= i < |dates| ensures dates[i] == base {
      DatesAreTheFirstTerms(rule.frequency, 0, base, end, i + 1);
      TermsInOrder(rule.frequency, 0, base, 0, i + 1);
    }
    KeepAll(dates, Taken(rule, posts, dates), Today(rule, now));
  }

  lemma {:induction false} KeepAll(dates: seq<LocalDate>, taken: set<LocalDate>, today: LocalDate)
    requires forall i | 0 <= i < |dates| :: dates[i] !in taken && dates[i] > today
    ensures Keep(dates, taken, today) == dates
  {
    if dates == [] {
    } else {
      KeepAll(dates[..|dates| - 1], taken, today);
    }
  }
}
