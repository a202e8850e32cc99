/** Requests, edits, cache busts and evictions around one API key, interleaved step by step. */
module ApiKeyRuns {
  import opened Prelude
  import opened ApiKeyStore

  /** A committed state of the key's row (None: no such row), from the moment it was committed. */
  datatype Version = Version(row: Option<KeyRow>, since: int)

  /** A cached copy, named by the version it copies. */
  datatype Entry = Entry(version: nat, readAt: int, storedAt: int)

  /** Where a request stands. */
  datatype Phase =
    | Missed(hash: string, since: int)
    | Holding(hash: string, since: int, version: nat, readAt: int, cached: bool)
    | Accepted(hash: string, version: nat, readAt: int, at: int)
    | Refused

  datatype State = State(
    now: int, history: seq<Version>, members: set<Membership>, cache: Option<Entry>, requests: map<int, Phase>)

  datatype Event =
    | Commit(row: Option<KeyRow>)
    | Bust
    | SetMembers(members: set<Membership>)
    | CacheGet(w: int, hash: string)
    | Read(w: int)
    | CacheSet(w: int)
    | Decide(w: int)
    | Tick(seconds: nat)

  function Init(row: Option<KeyRow>, members: set<Membership>, now: int): State {
    State(now, [Version(row, now)], members, None, map[])
  }

  predicate Live(s: State) { s.cache.Some? && s.now < s.cache.value.storedAt + CACHE_TTL }

  predicate Committed(s: State, v: nat) { v < |s.history| && s.history[v].row.Some? }

  /** One step. An event that does not apply changes nothing. */
  function Next(s: State, ev: Event): State {
    match ev
    case Commit(row) => s.(history := s.history + [Version(row, s.now)])
    case Bust => s.(cache := None)
    case SetMembers(members) => s.(members := members)
    case Tick(d) => s.(now := s.now + d)
    case CacheGet(w, hash) =>
      if w in s.requests then s
      else if Live(s) then
        s.(requests := s.requests[w := Holding(hash, s.now, s.cache.value.version, s.cache.value.readAt, true)])
      else s.(requests := s.requests[w := Missed(hash, s.now)])
    case Read(w) =>
      if w !in s.requests || !s.requests[w].Missed? || s.history == [] then s
      else
        var v := |s.history| - 1;
        var p := s.requests[w];
        s.(requests := s.requests[w :=
          if s.history[v].row.None? then Refused else Holding(p.hash, p.since, v, s.now, false)])
    case CacheSet(w) =>
      if w !in s.requests || !s.requests[w].Holding? || s.requests[w].cached ||
        !Committed(s, s.requests[w].version) then s
      else
        var p := s.requests[w];
        var s' := s.(requests := s.requests[w := p.(cached := true)]);
        if Active(s.history[p.version].row.value, s.now) then
          s'.(cache := Some(Entry(p.version, p.readAt, s.now)))
        else s'
    case Decide(w) =>
      if w !in s.requests || !s.requests[w].Holding? || !s.requests[w].cached ||
        !Committed(s, s.requests[w].version) then s
      else
        var p := s.requests[w];
        var row := s.history[p.version].row.value;
        if !Active(row, s.now) then s.(cache := None, requests := s.requests[w := Refused])
        else if p.hash != row.tokenHash then s.(requests := s.requests[w := Refused])
        else if !IssuerAuthorized(row, s.members) then s.(cache := None, requests := s.requests[w := Refused])
        else s.(requests := s.requests[w := Accepted(p.hash, p.version, p.readAt, s.now)])
  }

  function Run(s: State, events: seq<Event>): State
    decreases |events|
  {
    if events == [] then s else Run(Next(s, events[0]), events[1..])
  }

  /** A request's cache write and verdict come within `slack` seconds of its cache lookup. */
  predicate Timely(s: State, ev: Event, slack: nat) {
    (ev.CacheSet? || ev.Decide?) && ev.w in s.requests && s.requests[ev.w].Holding? ==>
      s.now - s.requests[ev.w].since <= slack
  }

  predicate TimelyRun(s: State, events: seq<Event>, slack: nat)
    decreases |events|
  {
    events == [] || (Timely(s, events[0], slack) && TimelyRun(Next(s, events[0]), events[1..], slack))
  }

  /** Version v was the database's at the moment t. */
  predicate InForce(history: seq<Version>, v: nat, t: int) {
    v < |history| && history[v].row.Some? && history[v].since <= t && (v + 1 < |history| ==> t <= history[v + 1].since)
  }

  predicate FreshEntry(history: seq<Version>, now: int, e: Entry, slack: nat) {
    InForce(history, e.version, e.readAt) && e.readAt <= e.storedAt <= now && e.storedAt - e.readAt <= slack
  }

  /** What a request's phase says about the version it works from. */
  predicate Sound(history: seq<Version>, now: int, p: Phase, slack: nat) {
    match p
    case Missed(_, since) => since <= now
    case Holding(_, since, v, readAt, cached) =>
      InForce(history, v, readAt) && since <= now && readAt <= now && since - CACHE_TTL - slack <= readAt &&
      (!cached ==> since <= readAt)
    case Accepted(hash, v, readAt, at) =>
      && InForce(history, v, readAt) && readAt <= at <= now && at - CACHE_TTL - 2 * slack <= readAt
      && Active(history[v].row.value, at) && hash == history[v].row.value.tokenHash
    case Refused => true
  }

  ghost predicate Safe(s: State, slack: nat) {
    && s.history != [] && s.history[|s.history| - 1].since <= s.now
    && (s.cache.Some? ==> FreshEntry(s.history, s.now, s.cache.value, slack))
    && forall w | w in s.requests :: Sound(s.history, s.now, s.requests[w], slack)
  }

  lemma CommitSafe(s: State, row: Option<KeyRow>, slack: nat)
    requires Safe(s, slack)
    ensures Safe(Next(s, Commit(row)), slack)
  {}

  lemma TickSafe(s: State, d: nat, slack: nat)
    requires Safe(s, slack)
    ensures Safe(Next(s, Tick(d)), slack)
  {}

  lemma ReadSafe(s: State, w: int, slack: nat)
    requires Safe(s, slack)
    ensures Safe(Next(s, Read(w)), slack)
  {}

  lemma CacheSetSafe(s: State, w: int, slack: nat)
    requires Safe(s, slack) && Timely(s, CacheSet(w), slack)
    ensures Safe(Next(s, CacheSet(w)), slack)
  {}

  lemma DecideSafe(s: State, w: int, slack: nat)
    requires Safe(s, slack) && Timely(s, Decide(w), slack)
    ensures Safe(Next(s, Decide(w)), slack)
  {}

  lemma StepSafe(s: State, ev: Event, slack: nat)
    requires Safe(s, slack) && Timely(s, ev, slack)
    ensures Safe(Next(s, ev), slack)
  {
    match ev
    case Commit(row) => CommitSafe(s, row, slack);
    case Tick(d) => TickSafe(s, d, slack);
    case Read(w) => ReadSafe(s, w, slack);
    case CacheSet(w) => CacheSetSafe(s, w, slack);
    case Decide(w) => DecideSafe(s, w, slack);
    case _ =>
  }

  lemma {:induction false} RunSafe(s: State, events: seq<Event>, slack: nat)
    requires Safe(s, slack) && TimelyRun(s, events, slack)
    ensures Safe(Run(s, events), slack)
    decreases |events|
  {
    if events == [] {
    } else {
      StepSafe(s, events[0], slack);
      RunSafe(Next(s, events[0]), events[1..], slack);
    }
  }

  /**
   * Bounded staleness: the row a request was accepted with was the database's at some moment no
   * earlier than the cache lifetime, and twice the slack, before the verdict; at the verdict it was
   * unrevoked and unexpired, and the token's hash was its hash.
   */
  lemma AcceptedRowsAreRecent(row: Option<KeyRow>, members: set<Membership>, now: int, events: seq<Event>,
                              slack: nat, w: int)
    requires var s := Run(Init(row, members, now), events);
      TimelyRun(Init(row, members, now), events, slack) && w in s.requests && s.requests[w].Accepted?
    ensures var s := Run(Init(row, members, now), events);
      var p := s.requests[w];
      && InForce(s.history, p.version, p.readAt) && p.at - 30 - 2 * slack <= p.readAt <= p.at
      && var row := s.history[p.version].row.value;
        row.revokedAt == None && (row.expiresAt.Some? ==> p.at < row.expiresAt.value) && p.hash == row.tokenHash
  {
    RunSafe(Init(row, members, now), events, slack);
    var s := Run(Init(row, members, now), events);
    assert Sound(s.history, s.now, s.requests[w], slack);
  }

  /** A request is accepted only at a moment when the row's issuer is a member of its workspace. */
  lemma AcceptsOnlyMembers(s: State, ev: Event, w: int)
    requires w in Next(s, ev).requests && Next(s, ev).requests[w].Accepted?
    requires !(w in s.requests && s.requests[w].Accepted?)
    ensures ev == Decide(w) && Committed(s, s.requests[w].version)
    ensures var row := s.history[s.requests[w].version].row.value;
      row.issuer.Some? && Membership(row.issuer.value, row.workspace) in s.members
  {}

  // ----- the machine and the undisturbed verification

  function Current(s: State): Option<KeyRow> {
    if s.history == [] then None else s.history[|s.history| - 1].row
  }

  function Cached(s: State): Option<CachedRow> {
    if s.cache.Some? && Committed(s, s.cache.value.version) && Live(s)
    then Some(CachedRow(s.history[s.cache.value.version].row.value, s.cache.value.storedAt)) else None
  }

  /** The four steps of one request in a row. */
  function Alone(s: State, w: int, hash: string): State {
    Next(Next(Next(Next(s, CacheGet(w, hash)), Read(w)), CacheSet(w)), Decide(w))
  }

  /** The state once one request holds a row, or was refused. */
  function LookedUp(s: State, w: int, hash: string): State {
    Next(Next(Next(s, CacheGet(w, hash)), Read(w)), CacheSet(w))
  }

  lemma LookupAlone(s: State, w: int, hash: string)
    requires w !in s.requests && s.history != [] && (s.cache.Some? ==> Committed(s, s.cache.value.version))
    ensures var l, s' := Lookup(Current(s), Cached(s), s.now), LookedUp(s, w, hash);
      && s'.history == s.history && s'.members == s.members && s'.now == s.now && w in s'.requests
      && Cached(s') == l.1
      && if l.0.None? then s'.requests[w] == Refused
         else s'.requests[w].Holding? && s'.requests[w].cached && s'.requests[w].hash == hash &&
              Committed(s, s'.requests[w].version) && s.history[s'.requests[w].version].row == l.0
  {
    var s1 := Next(s, CacheGet(w, hash));
    var s2 := Next(s1, Read(w));
    if Live(s) {
      assert s2 == s1;
      assert LookedUp(s, w, hash) == s1;
    } else {
      assert Cached(s) == None;
      assert s2.requests[w] ==
        if Current(s).None? then Refused else Holding(hash, s.now, |s.history| - 1, s.now, false);
    }
  }

  lemma DecideAlone(s: State, w: int)
    requires w in s.requests && s.requests[w].Holding? && s.requests[w].cached && Committed(s, s.requests[w].version)
    ensures var row, s' := s.history[s.requests[w].version].row.value, Next(s, Decide(w));
      && w in s'.requests && s'.history == s.history
      && (s'.requests[w].Accepted? <==>
           Active(row, s.now) && s.requests[w].hash == row.tokenHash && IssuerAuthorized(row, s.members))
      && (s'.requests[w].Accepted? ==> s'.requests[w].version == s.requests[w].version)
      && Cached(s') ==
           if !Active(row, s.now) || (s.requests[w].hash == row.tokenHash && !IssuerAuthorized(row, s.members))
           then None else Cached(s)
  {}

  /** Undisturbed, the steps compute what one verification computes, cache entry included. */
  lemma AloneIsVerified(s: State, w: int, hash: string)
    requires w !in s.requests && s.history != [] && (s.cache.Some? ==> Committed(s, s.cache.value.version))
    ensures var v := Verified(Current(s), Cached(s), s.members, hash, s.now);
      var s' := Alone(s, w, hash);
      && w in s'.requests && (v.0.Some? <==> s'.requests[w].Accepted?)
      && (v.0.Some? ==> s'.requests[w].version < |s'.history| && s'.history[s'.requests[w].version].row == v.0)
      && Cached(s') == v.1
  {
    LookupAlone(s, w, hash);
    var s3 := LookedUp(s, w, hash);
    if s3.requests[w].Holding? { DecideAlone(s3, w); }
  }

  // ----- when an edit takes effect

  /** Neither the cache nor a request under way holds a version before i. */
  ghost predicate Since(s: State, i: nat) {
    && i < |s.history|
    && (s.cache.Some? ==> i <= s.cache.value.version)
    && forall w | w in s.requests && s.requests[w].Holding? :: i <= s.requests[w].version
  }

  ghost predicate NewAcceptsSince(s: State, s': State, i: nat) {
    forall w | w in s'.requests && s'.requests[w].Accepted? && !(w in s.requests && s.requests[w].Accepted?) ::
      i <= s'.requests[w].version
  }

  lemma {:induction false} SinceStays(s: State, events: seq<Event>, i: nat)
    requires Since(s, i)
    ensures Since(Run(s, events), i) && NewAcceptsSince(s, Run(s, events), i)
    decreases |events|
  {
    if events == [] {
    } else {
      var mid := Next(s, events[0]);
      StepSince(s, events[0], i);
      SinceStays(mid, events[1..], i);
      KeepsAccepted(s, events[0]);
      forall w | w in mid.requests && mid.requests[w].Accepted?
        ensures w in Run(s, events).requests && Run(s, events).requests[w] == mid.requests[w]
      {
        RunKeepsAccepted(mid, events[1..], w);
      }
    }
  }

  lemma StepSince(s: State, ev: Event, i: nat)
    requires Since(s, i)
    ensures Since(Next(s, ev), i) && NewAcceptsSince(s, Next(s, ev), i)
  {}

  lemma KeepsAccepted(s: State, ev: Event)
    ensures forall w | w in s.requests && s.requests[w].Accepted? ::
              w in Next(s, ev).requests && Next(s, ev).requests[w] == s.requests[w]
  {}

  lemma {:induction false} RunKeepsAccepted(s: State, events: seq<Event>, w: int)
    requires w in s.requests && s.requests[w].Accepted?
    ensures w in Run(s, events).requests && Run(s, events).requests[w] == s.requests[w]
    decreases |events|
  {
    if events == [] {
    } else {
      KeepsAccepted(s, events[0]);
      RunKeepsAccepted(Next(s, events[0]), events[1..], w);
    }
  }

  /**
   * Commit, then bust: when no request under way still holds an older row, every later acceptance
   * rests on the committed version or a newer one, so a revocation is immediate.
   */
  lemma BustAfterCommitIsImmediate(s: State, row: Option<KeyRow>, events: seq<Event>)
    requires forall w | w in s.requests :: !s.requests[w].Holding?
    ensures var s' := Next(Next(s, Commit(row)), Bust);
      NewAcceptsSince(s', Run(s', events), |s.history|)
  {
    SinceStays(Next(Next(s, Commit(row)), Bust), events, |s.history|);
  }

  /** Nobody can use such a row: it is gone, revoked, or expired by now. */
  ghost predicate Unusable(row: Option<KeyRow>, now: int) {
    row.Some? ==> row.value.revokedAt.Some? || exists t :: row.value.expiresAt == Some(t) && t <= now
  }

  lemma {:induction false} NoAcceptance(s: State, events: seq<Event>)
    requires s.history != [] && Since(s, |s.history| - 1) && Unusable(s.history[|s.history| - 1].row, s.now)
    requires forall ev | ev in events :: !ev.Commit?
    ensures forall w | w in Run(s, events).requests && Run(s, events).requests[w].Accepted? ::
              w in s.requests && s.requests[w].Accepted?
    decreases |events|
  {
    if events == [] {
    } else {
      var mid := Next(s, events[0]);
      assert events[0] in events;
      StepSince(s, events[0], |s.history| - 1);
      NoAcceptanceNow(s, events[0]);
      NoAcceptance(mid, events[1..]);
    }
  }

  lemma NoAcceptanceNow(s: State, ev: Event)
    requires s.history != [] && Since(s, |s.history| - 1) && Unusable(s.history[|s.history| - 1].row, s.now)
    requires !ev.Commit?
    ensures var s' := Next(s, ev);
      && s'.history == s.history && s'.now >= s.now
      && forall w | w in s'.requests && s'.requests[w].Accepted? :: w in s.requests && s.requests[w].Accepted?
  {}

  /**
   * Committing a row nobody can use, and then busting the cache, ends the key: unless some request
   * still holds an older row, no request is accepted after it, until another row is committed.
   */
  lemma RevocationIsImmediate(s: State, row: Option<KeyRow>, events: seq<Event>)
    requires forall w | w in s.requests :: !s.requests[w].Holding?
    requires Unusable(row, s.now) && forall ev | ev in events :: !ev.Commit?
    ensures var end := Run(Next(Next(s, Commit(row)), Bust), events);
      forall w | w in end.requests && end.requests[w].Accepted? :: w in s.requests && s.requests[w].Accepted?
  {
    NoAcceptance(Next(Next(s, Commit(row)), Bust), events);
  }

  /** One request, undisturbed from lookup to verdict. */
  function Request(w: int, hash: string): seq<Event> { [CacheGet(w, hash), Read(w), CacheSet(w), Decide(w)] }

  lemma RequestRuns(s: State, w: int, hash: string)
    ensures Run(s, Request(w, hash)) == Alone(s, w, hash)
  {
    var s1 := Next(s, CacheGet(w, hash));
    var s2 := Next(s1, Read(w));
    var s3 := Next(s2, CacheSet(w));
    var e := Request(w, hash);
    assert e[1..] == [Read(w), CacheSet(w), Decide(w)];
    assert [Read(w), CacheSet(w), Decide(w)][1..] == [CacheSet(w), Decide(w)];
    assert [CacheSet(w), Decide(w)][1..] == [Decide(w)] && [Decide(w)][1..] == [];
    assert Run(s3, [Decide(w)]) == Next(s3, Decide(w));
    assert Run(s2, [CacheSet(w), Decide(w)]) == Run(s3, [Decide(w)]);
    assert Run(s1, [Read(w), CacheSet(w), Decide(w)]) == Run(s2, [CacheSet(w), Decide(w)]);
    assert Run(s, e) == Run(s1, e[1..]);
  }

  lemma {:induction false} RunAppends(s: State, first: seq<Event>, second: seq<Event>)
    ensures Run(s, first + second) == Run(Run(s, first), second)
    decreases |first|
  {
    if first == [] {
      assert first + second == second;
    } else {
      assert (first + second)[1..] == first[1..] + second;
      RunAppends(Next(s, first[0]), first[1..], second);
    }
  }

  /** The order of an edit: bust inside the transaction, a request meanwhile, then the commit. */
  function EarlyBust(hash: string, edited: KeyRow): seq<Event> {
    [Bust] + Request(1, hash) + [Commit(Some(edited))] + Request(2, hash)
  }

  /**
   * An edit is not in force on the very next request: whatever it changes, a request that slips in
   * between the bust and the commit caches the old row again, and the request after the commit is
   * accepted with that old row.
   */
  lemma EarlyBustServesOldRow(row: KeyRow, edited: KeyRow, members: set<Membership>, now: int)
    requires Active(row, now) && IssuerAuthorized(row, members)
    ensures var s := Run(Init(Some(row), members, now), EarlyBust(row.tokenHash, edited));
      Current(s) == Some(edited) && 2 in s.requests && s.requests[2].Accepted? &&
      s.requests[2].version < |s.history| && s.history[s.requests[2].version].row == Some(row)
  {
    var h := row.tokenHash;
    var s0 := Init(Some(row), members, now);
    EarlyBustSteps(s0, h, edited);
    var s2 := Alone(Next(s0, Bust), 1, h);
    RequestCaches(row, members, now);
    LaterRequestServed(s2, Some(edited), row);
  }

  lemma EarlyBustSteps(s: State, h: string, edited: KeyRow)
    ensures Run(s, EarlyBust(h, edited)) == Alone(Next(Alone(Next(s, Bust), 1, h), Commit(Some(edited))), 2, h)
  {
    RunAppends(s, [Bust] + Request(1, h) + [Commit(Some(edited))], Request(2, h));
    RunAppends(s, [Bust] + Request(1, h), [Commit(Some(edited))]);
    RunAppends(s, [Bust], Request(1, h));
    RunOne(s, Bust);
    RequestRuns(Next(s, Bust), 1, h);
    RunOne(Alone(Next(s, Bust), 1, h), Commit(Some(edited)));
    RequestRuns(Next(Alone(Next(s, Bust), 1, h), Commit(Some(edited))), 2, h);
  }

  lemma RunOne(s: State, ev: Event)
    ensures Run(s, [ev]) == Next(s, ev)
  {
    assert [ev][1..] == [];
  }

  /** The first request finds nothing cached and leaves the row it read in the cache. */
  lemma RequestCaches(row: KeyRow, members: set<Membership>, now: int)
    requires Active(row, now) && IssuerAuthorized(row, members)
    ensures var s := Alone(Next(Init(Some(row), members, now), Bust), 1, row.tokenHash);
      s == State(now, [Version(Some(row), now)], members, Some(Entry(0, now, now)),
                 map[1 := Accepted(row.tokenHash, 0, now, now)])
  {}

  /** A live entry outlasts the commit: the next request is accepted with the row it copies. */
  lemma LaterRequestServed(s: State, edited: Option<KeyRow>, row: KeyRow)
    requires s.history != [] && s.history[0].row == Some(row) && s.cache == Some(Entry(0, s.now, s.now)) &&
      2 !in s.requests
    requires Active(row, s.now) && IssuerAuthorized(row, s.members)
    ensures var after := Alone(Next(s, Commit(edited)), 2, row.tokenHash);
      Current(after) == edited && 2 in after.requests && after.requests[2].Accepted? &&
      after.requests[2].version < |after.history| && after.history[after.requests[2].version].row == Some(row)
  {}
}
