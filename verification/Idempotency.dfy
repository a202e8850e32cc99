/** The idempotency slots of the agent API: one row per (API key, idempotency key). */
module Idempotency {
  import opened Prelude

  datatype Key = Key(apiKey: int, key: string)
  datatype Response = Response(status: nat, body: string)
  datatype Row = Row(fingerprint: string, response: Response, createdAt: int)

  const PENDING: Response := Response(0, "{}")
  const TTL: int := 24 * 60 * 60

  predicate Pending(r: Row) { r.response.status == 0 }

  datatype Disposition = Passthrough | Claimed | Replay(response: Response) | InFlight | Mismatch | Missing

  // ----- the effect of each query on the table

  function Inserted(rows: map<Key, Row>, k: Key, fingerprint: string, now: int): map<Key, Row> {
    if k in rows then rows else rows[k := Row(fingerprint, PENDING, now)]
  }

  /** What a worker whose insert conflicted reads afterwards; the row may be gone by then. */
  function Fetched(rows: map<Key, Row>, k: Key, fingerprint: string): Disposition {
    if k !in rows then Missing
    else if rows[k].fingerprint != fingerprint then Mismatch
    else if Pending(rows[k]) then InFlight
    else Replay(rows[k].response)
  }

  function Finalized(rows: map<Key, Row>, k: Key, response: Response): map<Key, Row> {
    if k in rows then rows[k := rows[k].(response := response)] else rows
  }

  function Released(rows: map<Key, Row>, k: Key): map<Key, Row> {
    if k in rows && Pending(rows[k]) then rows - {k} else rows
  }

  function Expired(rows: map<Key, Row>, now: int): set<Key> {
    set k | k in rows && rows[k].createdAt < now - TTL
  }

  class IdempotencyTable {
    var rows: map<Key, Row>

    constructor ()
      ensures rows == map[]
    {
      rows := map[];
    }

    /** The atomic insert; false is the IntegrityError. */
    method TryInsert(k: Key, fingerprint: string, now: int) returns (ok: bool)
      modifies this
      ensures ok == (k !in old(rows))
      ensures rows == if ok then old(rows)[k := Row(fingerprint, Response(0, "{}"), now)] else old(rows)
    {
      if k in rows {
        return false;
      }
      rows := rows[k := Row(fingerprint, PENDING, now)];
      return true;
    }

    /** An undisturbed claim: insert, and on conflict fetch; then the fetch always finds the row. */
    method Claim(apiKey: int, idempotencyKey: string, fingerprint: string, now: int) returns (d: Disposition)
      modifies this
      ensures var k := Key(apiKey, idempotencyKey);
        if idempotencyKey == "" then d == Passthrough && rows == old(rows)
        else if k !in old(rows) then
          d == Claimed && rows == old(rows)[k := Row(fingerprint, Response(0, "{}"), now)]
        else
          && rows == old(rows)
          && (d == Mismatch <==> old(rows)[k].fingerprint != fingerprint)
          && (d == InFlight <==> old(rows)[k].fingerprint == fingerprint && old(rows)[k].response.status == 0)
          && (d == Replay(old(rows)[k].response) <==>
               old(rows)[k].fingerprint == fingerprint && old(rows)[k].response.status != 0)
    {
      if idempotencyKey == "" {
        return Passthrough;
      }
      var k := Key(apiKey, idempotencyKey);
      var ok := TryInsert(k, fingerprint, now);
      if ok {
        return Claimed;
      }
      var existing := rows[k];
      if existing.fingerprint != fingerprint {
        return Mismatch;
      }
      if existing.response.status == 0 {
        return InFlight;
      }
      return Replay(existing.response);
    }

    method Finalize(apiKey: int, idempotencyKey: string, response: Response)
      modifies this
      ensures rows.Keys == old(rows).Keys
      ensures forall k | k in rows ::
        rows[k] == if idempotencyKey != "" && k == Key(apiKey, idempotencyKey)
          then Row(old(rows)[k].fingerprint, response, old(rows)[k].createdAt) else old(rows)[k]
    {
      if idempotencyKey == "" {
        return;
      }
      var k := Key(apiKey, idempotencyKey);
      if k in rows {
        rows := rows[k := rows[k].(response := response)];
      }
    }

    method Release(apiKey: int, idempotencyKey: string)
      modifies this
      ensures forall k :: k !in rows <==>
        k !in old(rows) ||
        (idempotencyKey != "" && k == Key(apiKey, idempotencyKey) && old(rows)[k].response.status == 0)
      ensures forall k | k in rows :: rows[k] == old(rows)[k]
    {
      if idempotencyKey == "" {
        return;
      }
      var k := Key(apiKey, idempotencyKey);
      if k in rows && rows[k].response.status == 0 {
        rows := rows - {k};
      }
    }

    method SweepStale(now: int) returns (deleted: nat)
      modifies this
      ensures forall k :: k in rows <==> k in old(rows) && old(rows)[k].createdAt >= now - 86400
      ensures forall k | k in rows :: rows[k] == old(rows)[k]
      ensures deleted == |old(rows).Keys - rows.Keys|
    {
      var cutoff := now - TTL;
      var stale := set k | k in rows && rows[k].createdAt < cutoff;
      deleted := |stale|;
      rows := rows - stale;
      assert old(rows).Keys - rows.Keys == stale;
    }
  }

  // ----- many workers, interleaved

  type WorkerId = int

  /** Where one request's handling stands. */
  datatype Phase =
    | Arrived
    | Conflicted
    | Working(since: int)
    | Finished(response: Response, since: int)
    | GaveUp
    | Crashed
    | Told(d: Disposition, source: WorkerId)

  datatype Worker = Worker(k: Key, fingerprint: string, phase: Phase)

  /** The table and the workers, with two history variables: who inserted each row, and finalized rows swept per key. */
  datatype State = State(
    now: int, rows: map<Key, Row>, workers: map<WorkerId, Worker>, owner: map<Key, WorkerId>, swept: map<Key, nat>)

  datatype Event =
    | Arrive(w: WorkerId, k: Key, fingerprint: string)
    | Insert(w: WorkerId)
    | Fetch(w: WorkerId)
    | Finish(w: WorkerId, response: Response)
    | Release(w: WorkerId)
    | Crash(w: WorkerId)
    | Sweep
    | Tick(seconds: nat)

  function Init(now: int): State {
    State(now, map[], map[], map[], map[])
  }

  function SweptOf(s: State, k: Key): nat {
    if k in s.swept then s.swept[k] else 0
  }

  function Enter(s: State, w: WorkerId, p: Phase): State
    requires w in s.workers
  {
    s.(workers := s.workers[w := s.workers[w].(phase := p)])
  }

  /** Worker w has inserted its row. */
  function Claiming(s: State, w: WorkerId): State
    requires w in s.workers
  {
    var k := s.workers[w].k;
    Enter(s.(rows := Inserted(s.rows, k, s.workers[w].fingerprint, s.now), owner := s.owner[k := w]), w, Working(s.now))
  }

  /** The expired rows are gone; finalized ones among them are counted. */
  function SweptAway(s: State): State {
    var gone := Expired(s.rows, s.now);
    s.(rows := s.rows - gone, owner := s.owner - gone,
       swept := map k | k in s.swept.Keys + s.rows.Keys ::
         SweptOf(s, k) + if k in gone && !Pending(s.rows[k]) then 1 else 0)
  }

  /** One atomic step. An event that does not apply changes nothing. */
  function Next(s: State, ev: Event): State {
    match ev
    case Tick(d) => s.(now := s.now + d)
    case Sweep => SweptAway(s)
    case Arrive(w, k, f) =>
      if w in s.workers then s else s.(workers := s.workers[w := Worker(k, f, Arrived)])
    case Insert(w) =>
      if w !in s.workers || !s.workers[w].phase.Arrived? then s
      else
        var k := s.workers[w].k;
        if k in s.rows then Enter(s, w, Conflicted)
        else Claiming(s, w)
    case Fetch(w) =>
      if w !in s.workers || !s.workers[w].phase.Conflicted? then s
      else
        var k := s.workers[w].k;
        Enter(s, w, Told(Fetched(s.rows, k, s.workers[w].fingerprint), if k in s.owner then s.owner[k] else w))
    case Finish(w, response) =>
      if w !in s.workers || !s.workers[w].phase.Working? then s
      else
        var s' := s.(rows := Finalized(s.rows, s.workers[w].k, response));
        Enter(s', w, Finished(response, s.workers[w].phase.since))
    case Release(w) =>
      if w !in s.workers || !(s.workers[w].phase.Working? || s.workers[w].phase.Finished?) then s
      else
        var k := s.workers[w].k;
        var owner := if k in s.rows && Pending(s.rows[k]) then s.owner - {k} else s.owner;
        var s' := s.(rows := Released(s.rows, k), owner := owner);
        if s.workers[w].phase.Working? then Enter(s', w, GaveUp) else s'
    case Crash(w) =>
      if w in s.workers &&
        (s.workers[w].phase.Arrived? || s.workers[w].phase.Conflicted? || s.workers[w].phase.Working?)
      then Enter(s, w, Crashed) else s
  }

  function Run(s: State, events: seq<Event>): State
    decreases |events|
  {
    if events == [] then s else Run(Next(s, events[0]), events[1..])
  }

  /**
   * The hypothesis on the workers: a live claimant is done within the TTL of its claim, its last
   * release included, and every recorded status is a real one, so not zero.
   */
  ghost predicate Timely(s: State, ev: Event) {
    && (forall w | w in s.workers && s.workers[w].phase.Working? :: s.now - s.workers[w].phase.since <= TTL)
    && (ev.Finish? ==> ev.response.status != 0)
    && (ev.Release? && ev.w in s.workers && s.workers[ev.w].phase.Finished? ==>
      s.now - s.workers[ev.w].phase.since <= TTL)
  }

  ghost predicate TimelyRun(s: State, events: seq<Event>)
    decreases |events|
  {
    events == [] || (Timely(s, events[0]) && TimelyRun(Next(s, events[0]), events[1..]))
  }

  /** The row belongs to worker w and says what w has done so far. */
  ghost predicate RowOf(s: State, k: Key, w: WorkerId) {
    && k in s.rows && k in s.owner && s.owner[k] == w && w in s.workers
    && s.workers[w].k == k && s.workers[w].fingerprint == s.rows[k].fingerprint
    && (if Pending(s.rows[k]) then s.workers[w].phase == Working(s.rows[k].createdAt) || s.workers[w].phase.Crashed?
        else s.workers[w].phase == Finished(s.rows[k].response, s.rows[k].createdAt))
  }

  ghost predicate Safe(s: State) {
    && s.owner.Keys == s.rows.Keys
    && (forall k | k in s.rows :: RowOf(s, k, s.owner[k]))
    && (forall w | w in s.workers && s.workers[w].phase.Working? ::
         RowOf(s, s.workers[w].k, w) && s.rows[s.workers[w].k].createdAt == s.workers[w].phase.since)
    && (forall w | w in s.workers && s.workers[w].phase.Finished? ::
         s.workers[w].phase.response.status != 0 &&
         (RowOf(s, s.workers[w].k, w) || s.workers[w].phase.since < s.now - TTL))
    && (forall w | w in s.workers && s.workers[w].phase.Told? && s.workers[w].phase.d.Replay? ::
         Backed(s, s.workers[w], s.workers[w].phase))
  }

  /** A replay repeats the response of a worker that finished the same request under the same key. */
  ghost predicate Backed(s: State, reader: Worker, p: Phase) {
    && p.Told? && p.d.Replay? && p.source in s.workers
    && s.workers[p.source].k == reader.k && s.workers[p.source].fingerprint == reader.fingerprint
    && s.workers[p.source].phase.Finished? && s.workers[p.source].phase.response == p.d.response
  }

  lemma ClaimingSafe(s: State, w: WorkerId)
    requires Safe(s) && w in s.workers && s.workers[w].phase.Arrived? && s.workers[w].k !in s.rows
    ensures Safe(Claiming(s, w))
  {
    var s' := Claiming(s, w);
    forall k | k in s.rows ensures RowOf(s', k, s'.owner[k]) { assert RowOf(s, k, s.owner[k]); }
    assert RowOf(s', s.workers[w].k, w);
    forall v | v in s.workers && v != w && RowOf(s, s.workers[v].k, v) ensures RowOf(s', s.workers[v].k, v) {}
    forall v | v in s.workers && s.workers[v].phase.Told? && s.workers[v].phase.d.Replay?
      ensures Backed(s', s.workers[v], s.workers[v].phase)
    {
      assert Backed(s, s.workers[v], s.workers[v].phase);
    }
  }

  /** A worker that neither holds nor held a claim may move on to any phase without one. */
  lemma EnterSafe(s: State, w: WorkerId, p: Phase)
    requires Safe(s) && w in s.workers && !p.Working? && !p.Finished?
    requires s.workers[w].phase.Arrived? || s.workers[w].phase.Conflicted?
    requires p.Told? && p.d.Replay? ==> Backed(s, s.workers[w], p)
    ensures Safe(Enter(s, w, p))
  {
    var s' := Enter(s, w, p);
    forall k | k in s.rows ensures s.owner[k] != w && RowOf(s', k, s'.owner[k]) { assert RowOf(s, k, s.owner[k]); }
    forall v | v in s.workers && v != w && RowOf(s, s.workers[v].k, v) ensures RowOf(s', s.workers[v].k, v) {}
    forall v | v in s.workers && v != w && s.workers[v].phase.Told? && s.workers[v].phase.d.Replay?
      ensures Backed(s', s.workers[v], s.workers[v].phase)
    {
      assert Backed(s, s.workers[v], s.workers[v].phase);
    }
  }

  lemma InsertSafe(s: State, w: WorkerId)
    requires Safe(s)
    ensures Safe(Next(s, Insert(w)))
  {
    if w in s.workers && s.workers[w].phase.Arrived? {
      if s.workers[w].k in s.rows {
        EnterSafe(s, w, Conflicted);
      } else {
        ClaimingSafe(s, w);
      }
    }
  }

  lemma FetchSafe(s: State, w: WorkerId)
    requires Safe(s)
    ensures Safe(Next(s, Fetch(w)))
  {
    if w in s.workers && s.workers[w].phase.Conflicted? {
      var k := s.workers[w].k;
      if k in s.rows { assert RowOf(s, k, s.owner[k]); }
      EnterSafe(s, w, Told(Fetched(s.rows, k, s.workers[w].fingerprint), if k in s.owner then s.owner[k] else w));
    }
  }

  lemma FinishRows(s: State, w: WorkerId, response: Response)
    requires Safe(s) && response.status != 0
    ensures var s' := Next(s, Finish(w, response));
      forall k | k in s'.rows :: k in s'.owner && RowOf(s', k, s'.owner[k])
  {}

  lemma FinishHolds(s: State, w: WorkerId, response: Response, v: WorkerId)
    requires Safe(s) && response.status != 0 && v in s.workers && s.workers[v].phase.Finished?
    ensures var s' := Next(s, Finish(w, response));
      RowOf(s', s'.workers[v].k, v) || s'.workers[v].phase.since < s'.now - TTL
  {}

  lemma FinishClaims(s: State, w: WorkerId, response: Response, v: WorkerId)
    requires Safe(s) && response.status != 0 && v != w && v in s.workers && s.workers[v].phase.Working?
    ensures var s' := Next(s, Finish(w, response));
      RowOf(s', s.workers[v].k, v) && s'.rows[s.workers[v].k].createdAt == s.workers[v].phase.since
  {}

  lemma FinishReplays(s: State, w: WorkerId, response: Response, v: WorkerId)
    requires Safe(s) && v in s.workers && s.workers[v].phase.Told? && s.workers[v].phase.d.Replay?
    ensures Backed(Next(s, Finish(w, response)), s.workers[v], s.workers[v].phase)
  {}

  lemma FinishSafe(s: State, w: WorkerId, response: Response)
    requires Safe(s) && response.status != 0
    ensures Safe(Next(s, Finish(w, response)))
  {
    var s' := Next(s, Finish(w, response));
    if s' != s {
      assert forall v | v in s.workers && v != w :: s'.workers[v] == s.workers[v];
      FinishRows(s, w, response);
      forall v | v in s.workers && v != w && s.workers[v].phase.Working?
        ensures RowOf(s', s.workers[v].k, v) && s'.rows[s.workers[v].k].createdAt == s.workers[v].phase.since
      {
        FinishClaims(s, w, response, v);
      }
      forall v | v in s.workers && s.workers[v].phase.Finished?
        ensures RowOf(s', s'.workers[v].k, v) || s'.workers[v].phase.since < s'.now - TTL
      {
        FinishHolds(s, w, response, v);
      }
      assert RowOf(s, s.workers[w].k, w);
      assert RowOf(s', s'.workers[w].k, w);
      forall v | v in s.workers && s.workers[v].phase.Told? && s.workers[v].phase.d.Replay?
        ensures Backed(s', s.workers[v], s.workers[v].phase)
      {
        FinishReplays(s, w, response, v);
      }
    }
  }

  /** A finished worker's late release finds its row finalized, so it removes nothing. */
  lemma FinishedReleasesNothing(s: State, w: WorkerId)
    requires Safe(s) && Timely(s, Release(w)) && w in s.workers && s.workers[w].phase.Finished?
    ensures Next(s, Release(w)) == s
  {
    assert RowOf(s, s.workers[w].k, w);
  }

  /** The state without worker w's claim. */
  function WithoutClaim(s: State, w: WorkerId): State
    requires w in s.workers
  {
    var k := s.workers[w].k;
    State(s.now, s.rows - {k}, s.workers[w := s.workers[w].(phase := GaveUp)], s.owner - {k}, s.swept)
  }

  lemma WorkingReleasesItsClaim(s: State, w: WorkerId)
    requires Safe(s) && w in s.workers && s.workers[w].phase.Working?
    ensures Next(s, Release(w)) == WithoutClaim(s, w)
  {
    assert RowOf(s, s.workers[w].k, w);
  }

  lemma WithoutClaimSafe(s: State, w: WorkerId)
    requires Safe(s) && w in s.workers && s.workers[w].phase.Working?
    ensures Safe(WithoutClaim(s, w))
  {
    var s', own := WithoutClaim(s, w), s.workers[w].k;
    assert RowOf(s, own, w);
    forall k | k in s'.rows ensures RowOf(s', k, s'.owner[k]) { assert RowOf(s, k, s.owner[k]); }
    forall v | v in s.workers && v != w && RowOf(s, s.workers[v].k, v) ensures RowOf(s', s.workers[v].k, v) {
      assert s.workers[v].k != own;
    }
    forall v | v in s.workers && s.workers[v].phase.Told? && s.workers[v].phase.d.Replay?
      ensures Backed(s', s.workers[v], s.workers[v].phase)
    {
      assert Backed(s, s.workers[v], s.workers[v].phase);
    }
  }

  lemma ReleaseSafe(s: State, w: WorkerId)
    requires Safe(s) && Timely(s, Release(w))
    ensures Safe(Next(s, Release(w)))
  {
    if w in s.workers && s.workers[w].phase.Working? {
      WorkingReleasesItsClaim(s, w);
      WithoutClaimSafe(s, w);
    } else if w in s.workers && s.workers[w].phase.Finished? {
      FinishedReleasesNothing(s, w);
    }
  }

  lemma CrashSafe(s: State, w: WorkerId)
    requires Safe(s)
    ensures Safe(Next(s, Crash(w)))
  {
    var s' := Next(s, Crash(w));
    forall k | k in s.rows ensures RowOf(s', k, s'.owner[k]) {
      assert RowOf(s, k, s.owner[k]);
    }
    forall v | v in s'.workers && s'.workers[v].phase.Working?
      ensures RowOf(s', s'.workers[v].k, v) && s'.rows[s'.workers[v].k].createdAt == s'.workers[v].phase.since
    {
      assert RowOf(s, s.workers[v].k, v);
    }
  }

  lemma SweptAwaySafe(s: State)
    requires Safe(s) && Timely(s, Sweep)
    ensures Safe(SweptAway(s))
  {
    var s' := SweptAway(s);
    forall k | k in s'.rows ensures RowOf(s', k, s'.owner[k]) { assert RowOf(s, k, s.owner[k]); }
    forall v | v in s.workers && RowOf(s, s.workers[v].k, v)
      ensures RowOf(s', s.workers[v].k, v) || s.rows[s.workers[v].k].createdAt < s.now - TTL
    {}
    forall v | v in s.workers && s.workers[v].phase.Told? && s.workers[v].phase.d.Replay?
      ensures Backed(s', s.workers[v], s.workers[v].phase)
    {
      assert Backed(s, s.workers[v], s.workers[v].phase);
    }
  }

  lemma StepSafe(s: State, ev: Event)
    requires Safe(s) && Timely(s, ev)
    ensures Safe(Next(s, ev))
  {
    match ev
    case Tick(d) =>
      forall k | k in s.rows ensures RowOf(Next(s, ev), k, s.owner[k]) { assert RowOf(s, k, s.owner[k]); }
    case Sweep => SweptAwaySafe(s);
    case Arrive(w, k, f) =>
      forall r | r in s.rows ensures RowOf(Next(s, ev), r, s.owner[r]) { assert RowOf(s, r, s.owner[r]); }
    case Insert(w) => InsertSafe(s, w);
    case Fetch(w) => FetchSafe(s, w);
    case Finish(w, response) => FinishSafe(s, w, response);
    case Release(w) => ReleaseSafe(s, w);
    case Crash(w) => CrashSafe(s, w);
  }

  lemma {:induction false} RunSafe(s: State, events: seq<Event>)
    requires Safe(s) && TimelyRun(s, events)
    ensures Safe(Run(s, events))
    decreases |events|
  {
    if events == [] {
    } else {
      StepSafe(s, events[0]);
      RunSafe(Next(s, events[0]), events[1..]);
    }
  }

  lemma InitSafe(now: int)
    ensures Safe(Init(now))
  {}

  // ----- the machine and an undisturbed claim

  /** With nothing in between, insert and fetch do to the rows and tell the worker what one claim does. */
  lemma UndisturbedStepsAreAClaim(s: State, w: WorkerId)
    requires w in s.workers && s.workers[w].phase.Arrived?
    ensures var s', k, f := Next(Next(s, Insert(w)), Fetch(w)), s.workers[w].k, s.workers[w].fingerprint;
      && w in s'.workers
      && if k !in s.rows then
           s'.rows == s.rows[k := Row(f, Response(0, "{}"), s.now)] && s'.workers[w].phase == Working(s.now)
         else
           && s'.rows == s.rows && s'.workers[w].phase.Told?
           && (s'.workers[w].phase.d == Mismatch <==> s.rows[k].fingerprint != f)
           && (s'.workers[w].phase.d == InFlight <==> s.rows[k].fingerprint == f && s.rows[k].response.status == 0)
           && (s'.workers[w].phase.d == Replay(s.rows[k].response) <==>
                s.rows[k].fingerprint == f && s.rows[k].response.status != 0)
  {}

  /** The other steps treat the rows as the table's methods do. */
  lemma StepsTreatRowsAlike(s: State, w: WorkerId, response: Response)
    ensures var swept := Next(s, Sweep).rows;
      && (forall k :: k in swept <==> k in s.rows && s.rows[k].createdAt >= s.now - 86400)
      && forall k | k in swept :: swept[k] == s.rows[k]
    ensures w in s.workers && s.workers[w].phase.Working? ==>
              var released := Next(s, Release(w)).rows;
              && (forall k :: k !in released <==>
                   k !in s.rows || (k == s.workers[w].k && s.rows[k].response.status == 0))
              && forall k | k in released :: released[k] == s.rows[k]
    ensures w in s.workers && s.workers[w].phase.Working? ==>
              var finished := Next(s, Finish(w, response)).rows;
              && finished.Keys == s.rows.Keys
              && forall k | k in finished ::
                finished[k] == if k == s.workers[w].k
                  then Row(s.rows[k].fingerprint, response, s.rows[k].createdAt) else s.rows[k]
  {}

  /** What a fetch tells, in the fields of the row it finds, whatever happened since the insert. */
  lemma FetchTells(s: State, w: WorkerId)
    requires w in s.workers && s.workers[w].phase.Conflicted?
    ensures var s', k, f := Next(s, Fetch(w)), s.workers[w].k, s.workers[w].fingerprint;
      && w in s'.workers && s'.workers[w].phase.Told?
      && (s'.workers[w].phase.d == Missing <==> k !in s.rows)
      && (s'.workers[w].phase.d == Mismatch <==> k in s.rows && s.rows[k].fingerprint != f)
      && (s'.workers[w].phase.d == InFlight <==>
           k in s.rows && s.rows[k].fingerprint == f && s.rows[k].response.status == 0)
      && (k in s.rows && s.rows[k].fingerprint == f && s.rows[k].response.status != 0 ==>
           s'.workers[w].phase.d == Replay(s.rows[k].response))
  {}

  /** A release between the conflicting insert and the fetch makes the fetch miss: the code raises there. */
  lemma ReleaseBetweenMakesFetchMiss(s: State, v: WorkerId, w: WorkerId)
    requires Safe(s) && v in s.workers && s.workers[v].phase.Working?
    requires w in s.workers && s.workers[w].phase.Arrived? && s.workers[w].k == s.workers[v].k
    ensures var s' := Next(Next(Next(s, Insert(w)), Release(v)), Fetch(w));
      w in s'.workers && s'.workers[w].phase.Told? && s'.workers[w].phase.d == Missing
  {
    assert RowOf(s, s.workers[v].k, v);
  }

  // ----- what every timely run guarantees

  /** At most one worker at a time holds a live claim on a key, and the pending row keeps its fingerprint. */
  lemma OneLiveClaimant(now: int, events: seq<Event>, v: WorkerId, w: WorkerId)
    requires TimelyRun(Init(now), events)
    requires var s := Run(Init(now), events);
      v in s.workers && w in s.workers && s.workers[v].phase.Working? && s.workers[w].phase.Working? &&
        s.workers[v].k == s.workers[w].k
    ensures var s := Run(Init(now), events);
      v == w && s.workers[w].k in s.rows && Pending(s.rows[s.workers[w].k]) &&
      s.rows[s.workers[w].k].fingerprint == s.workers[w].fingerprint
  {
    InitSafe(now);
    RunSafe(Init(now), events);
    var s := Run(Init(now), events);
    assert RowOf(s, s.workers[v].k, v) && RowOf(s, s.workers[w].k, w);
  }

  function Finishers(s: State, k: Key): set<WorkerId> {
    set w | w in s.workers && s.workers[w].k == k && s.workers[w].phase.Finished?
  }

  /** Finalized executions of a key are accounted for one by one: swept rows, plus the one still there. */
  ghost predicate Counted(s: State, k: Key) {
    |Finishers(s, k)| == SweptOf(s, k) + if k in s.rows && !Pending(s.rows[k]) then 1 else 0
  }

  lemma FinishCounted(s: State, w: WorkerId, response: Response, k: Key)
    requires Safe(s) && response.status != 0 && Counted(s, k)
    ensures Counted(Next(s, Finish(w, response)), k)
  {
    var s' := Next(s, Finish(w, response));
    if w in s.workers && s.workers[w].phase.Working? {
      assert RowOf(s, s.workers[w].k, w);
      if s.workers[w].k == k {
        assert Finishers(s', k) == Finishers(s, k) + {w};
      } else {
        assert Finishers(s', k) == Finishers(s, k);
      }
    }
  }

  lemma SweepCounted(s: State, k: Key)
    requires Counted(s, k)
    ensures Counted(Next(s, Sweep), k)
  {}

  lemma ReleaseCounted(s: State, w: WorkerId, k: Key)
    requires Counted(s, k)
    ensures Counted(Next(s, Release(w)), k)
  {
    assert Finishers(Next(s, Release(w)), k) == Finishers(s, k);
  }

  lemma InsertCounted(s: State, w: WorkerId, k: Key)
    requires Counted(s, k)
    ensures Counted(Next(s, Insert(w)), k)
  {
    assert Finishers(Next(s, Insert(w)), k) == Finishers(s, k);
  }

  lemma FetchCounted(s: State, w: WorkerId, k: Key)
    requires Counted(s, k)
    ensures Counted(Next(s, Fetch(w)), k)
  {
    assert Finishers(Next(s, Fetch(w)), k) == Finishers(s, k);
  }

  lemma ArriveCounted(s: State, ev: Event, k: Key)
    requires Counted(s, k) && ev.Arrive?
    ensures Counted(Next(s, ev), k)
  {
    assert Finishers(Next(s, ev), k) == Finishers(s, k);
  }

  lemma CrashCounted(s: State, w: WorkerId, k: Key)
    requires Counted(s, k)
    ensures Counted(Next(s, Crash(w)), k)
  {
    assert Finishers(Next(s, Crash(w)), k) == Finishers(s, k);
  }

  lemma StepCounted(s: State, ev: Event, k: Key)
    requires Safe(s) && Timely(s, ev) && Counted(s, k)
    ensures Counted(Next(s, ev), k)
  {
    match ev
    case Finish(w, response) => FinishCounted(s, w, response, k);
    case Sweep => SweepCounted(s, k);
    case Release(w) => ReleaseCounted(s, w, k);
    case Insert(w) => InsertCounted(s, w, k);
    case Fetch(w) => FetchCounted(s, w, k);
    case Arrive(_, _, _) => ArriveCounted(s, ev, k);
    case Crash(w) => CrashCounted(s, w, k);
    case Tick(d) => assert Finishers(Next(s, ev), k) == Finishers(s, k);
  }

  lemma {:induction false} RunCounted(s: State, events: seq<Event>, k: Key)
    requires Safe(s) && TimelyRun(s, events) && Counted(s, k)
    ensures Counted(Run(s, events), k)
    decreases |events|
  {
    if events == [] {
    } else {
      StepSafe(s, events[0]);
      StepCounted(s, events[0], k);
      RunCounted(Next(s, events[0]), events[1..], k);
    }
  }

  /** At most one execution of a key is finalized between two sweeps of its row. */
  lemma OneFinalizationPerSweep(now: int, events: seq<Event>, k: Key)
    requires TimelyRun(Init(now), events)
    ensures var s := Run(Init(now), events);
      |Finishers(s, k)| == SweptOf(s, k) + if k in s.rows && !Pending(s.rows[k]) then 1 else 0
  {
    InitSafe(now);
    assert Finishers(Init(now), k) == {};
    RunCounted(Init(now), events, k);
  }

  /** No event of the run sweeps the row of k away. */
  ghost predicate RowStays(s: State, events: seq<Event>, k: Key)
    decreases |events|
  {
    k in s.rows && (events == [] || RowStays(Next(s, events[0]), events[1..], k))
  }

  predicate Replayed(s: State, w: WorkerId) {
    w in s.workers && s.workers[w].phase.Told? && s.workers[w].phase.d.Replay?
  }

  lemma StepKeepsRow(s: State, ev: Event, k: Key)
    requires Safe(s) && k in s.rows && !Pending(s.rows[k]) && k in Next(s, ev).rows
    ensures Next(s, ev).rows[k] == s.rows[k] && k in s.owner && k in Next(s, ev).owner &&
      Next(s, ev).owner[k] == s.owner[k]
  {
    if ev.Finish? && ev.w in s.workers && s.workers[ev.w].phase.Working? {
      assert RowOf(s, s.workers[ev.w].k, ev.w);
    }
  }

  lemma StepFreezes(s: State, ev: Event, k: Key)
    requires Safe(s) && k in s.rows && !Pending(s.rows[k]) && k in Next(s, ev).rows
    ensures Next(s, ev).rows[k] == s.rows[k] && k in s.owner && k in Next(s, ev).owner &&
      Next(s, ev).owner[k] == s.owner[k]
    ensures forall w | Replayed(Next(s, ev), w) && !Replayed(s, w) && Next(s, ev).workers[w].k == k ::
              Next(s, ev).workers[w].phase == Told(Replay(s.rows[k].response), s.owner[k]) &&
              Next(s, ev).workers[w].fingerprint == s.rows[k].fingerprint
  {
    StepKeepsRow(s, ev, k);
    if !ev.Fetch? { OnlyFetchTells(s, ev); }
  }

  lemma OnlyFetchTells(s: State, ev: Event)
    requires !ev.Fetch?
    ensures forall w | Replayed(Next(s, ev), w) :: Replayed(s, w)
  {}

  lemma StepKeepsTold(s: State, ev: Event, w: WorkerId)
    requires w in s.workers && s.workers[w].phase.Told?
    ensures w in Next(s, ev).workers && Next(s, ev).workers[w] == s.workers[w]
  {}

  lemma {:induction false} RunKeepsTold(s: State, events: seq<Event>, w: WorkerId)
    requires w in s.workers && s.workers[w].phase.Told?
    ensures w in Run(s, events).workers && Run(s, events).workers[w] == s.workers[w]
    decreases |events|
  {
    if events == [] {
    } else {
      StepKeepsTold(s, events[0], w);
      RunKeepsTold(Next(s, events[0]), events[1..], w);
    }
  }

  /**
   * From the moment a row is finalized until it is swept, every replay of the key returns that
   * row's response, to a caller with that row's fingerprint, and the row itself never changes.
   */
  lemma {:induction false} ReplaysAreIdentical(s: State, events: seq<Event>, k: Key)
    requires Safe(s) && TimelyRun(s, events) && RowStays(s, events, k) && !Pending(s.rows[k])
    ensures var s' := Run(s, events);
      && k in s'.rows && s'.rows[k] == s.rows[k]
      && forall w | Replayed(s', w) && !Replayed(s, w) && s'.workers[w].k == k ::
           s'.workers[w].phase == Told(Replay(s.rows[k].response), s.owner[k]) &&
           s'.workers[w].fingerprint == s.rows[k].fingerprint
    decreases |events|
  {
    if events == [] {
    } else {
      var mid, rest := Next(s, events[0]), events[1..];
      StepSafe(s, events[0]);
      StepFreezes(s, events[0], k);
      ReplaysAreIdentical(mid, rest, k);
      forall w | Replayed(Run(mid, rest), w) && !Replayed(s, w) && Run(mid, rest).workers[w].k == k
        ensures Run(mid, rest).workers[w].phase == Told(Replay(s.rows[k].response), s.owner[k])
        ensures Run(mid, rest).workers[w].fingerprint == s.rows[k].fingerprint
      {
        if Replayed(mid, w) { RunKeepsTold(mid, rest, w); }
      }
    }
  }

  /** What a request on a finalized row may be doing or have been told. */
  ghost predicate Answered(w: Worker, row: Row, owner: WorkerId) {
    || w.phase.Arrived? || w.phase.Conflicted? || w.phase.Crashed?
    || w.phase == Told(if w.fingerprint == row.fingerprint then Replay(row.response) else Mismatch, owner)
  }

  ghost predicate NewOrWaiting(s: State, w: WorkerId) {
    w !in s.workers || s.workers[w].phase.Arrived? || s.workers[w].phase.Conflicted?
  }

  lemma StepAnswers(s: State, ev: Event, k: Key, w: WorkerId)
    requires k in s.rows && k in s.owner && s.rows[k].response.status != 0
    requires NewOrWaiting(s, w) && w in Next(s, ev).workers && Next(s, ev).workers[w].k == k
    ensures Answered(Next(s, ev).workers[w], s.rows[k], s.owner[k])
  {}

  lemma {:induction false} RunKeepsWorker(s: State, events: seq<Event>, w: WorkerId)
    requires w in s.workers && (s.workers[w].phase.Told? || s.workers[w].phase.Crashed?)
    ensures w in Run(s, events).workers && Run(s, events).workers[w] == s.workers[w]
    decreases |events|
  {
    if events == [] {
    } else {
      RunKeepsWorker(Next(s, events[0]), events[1..], w);
    }
  }

  lemma {:induction false} RunAnswers(s: State, events: seq<Event>, k: Key, w: WorkerId)
    requires Safe(s) && TimelyRun(s, events) && RowStays(s, events, k) && s.rows[k].response.status != 0
    requires NewOrWaiting(s, w) && w in Run(s, events).workers && Run(s, events).workers[w].k == k
    ensures k in s.owner && Answered(Run(s, events).workers[w], s.rows[k], s.owner[k])
    decreases |events|
  {
    if events == [] {
    } else {
      var mid, rest := Next(s, events[0]), events[1..];
      StepSafe(s, events[0]);
      StepFreezes(s, events[0], k);
      if NewOrWaiting(mid, w) {
        RunAnswers(mid, rest, k, w);
      } else {
        RunKeepsKey(mid, rest, w);
        StepAnswers(s, events[0], k, w);
        RunKeepsWorker(mid, rest, w);
      }
    }
  }

  lemma StepKeepsKey(s: State, ev: Event, w: WorkerId)
    requires w in s.workers
    ensures w in Next(s, ev).workers && Next(s, ev).workers[w].k == s.workers[w].k
  {}

  lemma {:induction false} RunKeepsKey(s: State, events: seq<Event>, w: WorkerId)
    requires w in s.workers
    ensures w in Run(s, events).workers && Run(s, events).workers[w].k == s.workers[w].k
    decreases |events|
  {
    if events == [] {
    } else {
      StepKeepsKey(s, events[0], w);
      RunKeepsKey(Next(s, events[0]), events[1..], w);
    }
  }

  /**
   * From a finish until the row is swept every request on the key is answered alike: with the
   * claimant's fingerprint it is told exactly the finished response, with another one that the key
   * is taken. None claims the key again, is told to wait, or finds no row.
   */
  lemma FinishAnswersEveryRequest(
    s: State, v: WorkerId, response: Response, events: seq<Event>, w: WorkerId)
    requires Safe(s) && v in s.workers && s.workers[v].phase.Working? && response.status != 0
    requires var s' := Next(s, Finish(v, response));
      TimelyRun(s', events) && RowStays(s', events, s.workers[v].k) && NewOrWaiting(s', w)
    requires var end := Run(Next(s, Finish(v, response)), events);
      w in end.workers && end.workers[w].k == s.workers[v].k && end.workers[w].phase.Told?
    ensures var asked := Run(Next(s, Finish(v, response)), events).workers[w];
      asked.phase ==
        Told(if asked.fingerprint == s.workers[v].fingerprint then Replay(response) else Mismatch, v)
  {
    assert RowOf(s, s.workers[v].k, v);
    FinishSafe(s, v, response);
    RunAnswers(Next(s, Finish(v, response)), events, s.workers[v].k, w);
  }

  /** And each is answered once it has taken its two steps, whatever happens between them. */
  lemma EveryRequestIsTold(s: State, events: seq<Event>, w: WorkerId)
    requires Safe(s) && w in s.workers && s.workers[w].phase.Arrived? && s.workers[w].k in s.rows
    requires var s' := Run(Next(s, Insert(w)), events); w in s'.workers && !s'.workers[w].phase.Crashed?
    ensures Next(Run(Next(s, Insert(w)), events), Fetch(w)).workers[w].phase.Told?
  {
    ConflictedWaits(Next(s, Insert(w)), events, w);
  }

  lemma {:induction false} ConflictedWaits(s: State, events: seq<Event>, w: WorkerId)
    requires w in s.workers && s.workers[w].phase.Conflicted?
    ensures w in Run(s, events).workers
    ensures var p := Run(s, events).workers[w].phase; p.Conflicted? || p.Told? || p.Crashed?
    decreases |events|
  {
    if events == [] {
    } else {
      var mid := Next(s, events[0]);
      if mid.workers[w].phase.Conflicted? {
        ConflictedWaits(mid, events[1..], w);
      } else {
        RunKeepsWorker(mid, events[1..], w);
      }
    }
  }

  /** Every replay was written by the very worker that inserted the row under the replayer's fingerprint. */
  lemma ReplaysAreBacked(now: int, events: seq<Event>, w: WorkerId)
    requires TimelyRun(Init(now), events) && Replayed(Run(Init(now), events), w)
    ensures var s := Run(Init(now), events);
      var src := s.workers[w].phase.source;
      && src in s.workers && s.workers[src].k == s.workers[w].k &&
        s.workers[src].fingerprint == s.workers[w].fingerprint
      && s.workers[src].phase.Finished? && s.workers[src].phase.response == s.workers[w].phase.d.response
  {
    InitSafe(now);
    RunSafe(Init(now), events);
    var s := Run(Init(now), events);
    assert Backed(s, s.workers[w], s.workers[w].phase);
  }

  /** A release removes only a pending row, and in a timely run only the releaser's own. */
  lemma ReleaseRemovesOnlyOwnClaim(s: State, w: WorkerId, k: Key)
    requires Safe(s) && Timely(s, Release(w))
    requires k in s.rows && k !in Next(s, Release(w)).rows
    ensures Pending(s.rows[k]) && s.owner[k] == w && s.workers[w].phase.Working?
  {}

  // ----- without the hypothesis

  /** A sweep leaves a live claim its row exactly when the claim is no older than the TTL. */
  lemma SweepSparesClaimsInTime(s: State, w: WorkerId)
    requires Safe(s) && w in s.workers && s.workers[w].phase.Working?
    ensures s.workers[w].k in Next(s, Sweep).rows <==> s.now - s.workers[w].phase.since <= TTL
  {}

  function LateRun(k: Key): seq<Event> {
    [Arrive(1, k, "a"), Insert(1), Tick(86401), Sweep, Arrive(2, k, "b"), Insert(2), Finish(1, Response(201, "one"))]
  }

  /** The first claimant, still at work, after its row was swept. */
  function Swept(k: Key): State {
    State(86401, map[], map[1 := Worker(k, "a", Working(0))], map[], map[k := 0])
  }

  lemma FirstClaimIsSwept(k: Key)
    ensures var e := LateRun(k); Next(Next(Next(Next(Init(0), e[0]), e[1]), e[2]), e[3]) == Swept(k)
  {
    var e := LateRun(k);
    var claimed := Next(Next(Init(0), e[0]), e[1]);
    assert claimed ==
      State(0, map[k := Row("a", PENDING, 0)], map[1 := Worker(k, "a", Working(0))], map[k := 1], map[]);
    var late := Next(claimed, e[2]);
    assert k in Expired(late.rows, late.now);
    assert Expired(late.rows, late.now) == {k};
  }

  lemma SecondClaimStands(k: Key)
    ensures var e := LateRun(k);
      Next(Next(Swept(k), e[4]), e[5]) ==
      State(86401, map[k := Row("b", PENDING, 86401)],
            map[1 := Worker(k, "a", Working(0)), 2 := Worker(k, "b", Working(86401))], map[k := 2], map[k := 0])
  {}

  /**
   * A claimant that outlives the TTL loses its row to the sweep: a second request, with another
   * body, then claims the key beside it, and the late finish files the first response under the
   * second fingerprint.
   */
  lemma LateClaimantCorruptsTheKey(k: Key)
    ensures var s := Run(Init(0), LateRun(k)[..6]);
      1 in s.workers && 2 in s.workers && s.workers[1].phase.Working? && s.workers[2].phase.Working?
    ensures var s := Run(Init(0), LateRun(k));
      k in s.rows && k in s.owner && s.owner[k] == 2 && s.rows[k].fingerprint == "b" &&
        s.rows[k].response == Response(201, "one")
  {
    RunSix(Init(0), LateRun(k));
    FirstClaimIsSwept(k);
    SecondClaimStands(k);
  }

  lemma RunSix(s: State, e: seq<Event>)
    requires |e| == 7
    ensures Run(s, e[..6]) == Next(Next(Next(Next(Next(Next(s, e[0]), e[1]), e[2]), e[3]), e[4]), e[5])
    ensures Run(s, e) == Next(Run(s, e[..6]), e[6])
  {
    assert e[..0] == [] && e[..7] == e;
    OneMore(s, e, 0);
    OneMore(s, e, 1);
    OneMore(s, e, 2);
    OneMore(s, e, 3);
    OneMore(s, e, 4);
    OneMore(s, e, 5);
    OneMore(s, e, 6);
  }

  lemma OneMore(s: State, e: seq<Event>, i: nat)
    requires i < |e|
    ensures Run(s, e[..i + 1]) == Next(Run(s, e[..i]), e[i])
  {
    RunSnoc(s, e[..i], e[i]);
    assert e[..i] + [e[i]] == e[..i + 1];
  }

  lemma {:induction false} RunSnoc(s: State, events: seq<Event>, ev: Event)
    ensures Run(s, events + [ev]) == Next(Run(s, events), ev)
    decreases |events|
  {
    if events == [] {
      assert ([] + [ev])[1..] == [];
    } else {
      assert (events + [ev])[1..] == events[1..] + [ev];
      RunSnoc(Next(s, events[0]), events[1..], ev);
    }
  }

  // ----- the request fingerprint

  /** The string that is hashed; the canonical body is a function of the decoded content alone. */
  function FingerprintInput(httpMethod: string, path: string, canonicalBody: string): string {
    httpMethod + "\n" + path + "\n" + canonicalBody
  }

  /** Newlines separate the parts, so distinct requests never hash the same string. */
  lemma FingerprintInputIsInjective(m1: string, p1: string, b1: string, m2: string, p2: string, b2: string)
    requires '\n' !in m1 && '\n' !in m2 && '\n' !in p1 && '\n' !in p2
    ensures FingerprintInput(m1, p1, b1) == FingerprintInput(m2, p2, b2) <==> m1 == m2 && p1 == p2 && b1 == b2
  {
    var s1, s2 := FingerprintInput(m1, p1, b1), FingerprintInput(m2, p2, b2);
    if s1 == s2 {
      assert s1 == m1 + "\n" + (p1 + "\n" + b1) && s2 == m2 + "\n" + (p2 + "\n" + b2);
      FirstNewline(m1, p1 + "\n" + b1, m2, p2 + "\n" + b2);
      FirstNewline(p1, b1, p2, b2);
    }
  }

  lemma FirstNewline(a: string, b: string, c: string, d: string)
    requires '\n' !in a && '\n' !in c && a + "\n" + b == c + "\n" + d
    ensures a == c && b == d
  {
    var s := a + "\n" + b;
    assert s[|a|] == '\n' && s[|c|] == '\n';
    assert forall i | 0 <= i < |a| :: s[i] == a[i] && a[i] in a;
    assert forall i | 0 <= i < |c| :: s[i] == c[i] && c[i] in c;
    assert |a| == |c|;
    assert a == s[..|a|] && c == s[..|c|];
    assert b == s[|a| + 1..] && d == s[|c| + 1..];
  }
}
