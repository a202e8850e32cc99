/** Daily credits from cumulative post snapshots. */
module SnapshotDeltas {
  import opened Prelude

  /** A snapshot of one metric of one post; days are ordinals, and value is a lifetime total. */
  datatype PostRow = PostRow(post: int, pubDay: Option<int>, day: int, value: real, captured: Option<int>)

  /** The snapshots of one post so far, oldest first. */
  type History = seq<PostRow>

  function At(out: map<int, real>, d: int): real { if d in out then out[d] else 0.0 }

  /** The query's order: by post, then by date. */
  ghost predicate Ordered(rows: seq<PostRow>) {
    forall i, j | 0 <= i < j < |rows| ::
      rows[i].post < rows[j].post || (rows[i].post == rows[j].post && rows[i].day <= rows[j].day)
  }

  ghost predicate Within(rows: seq<PostRow>, start: int, end: int) {
    forall r | r in rows :: start <= r.day <= end
  }

  // ----- what one row adds

  predicate Spreads(r: PostRow, start: int) { r.pubDay.Some? && start <= r.pubDay.value <= r.day }

  predicate Predates(r: PostRow, start: int) { r.pubDay.Some? && r.pubDay.value <= r.day && r.pubDay.value < start }

  function PerDay(r: PostRow): real
    requires r.pubDay.Some? && r.pubDay.value <= r.day
  {
    r.value / (r.day - r.pubDay.value + 1) as real
  }

  function HigherOf(a: real, b: real): real { if a < b then b else a }

  /** The running maximum of a post. */
  function Highest(h: History): real
    requires h != []
  {
    var n := |h| - 1;
    if n == 0 then h[0].value else HigherOf(Highest(h[..n]), h[n].value)
  }

  /** What the first snapshot of a post adds to day d. */
  function FirstShare(r: PostRow, start: int, d: int): real {
    if Predates(r, start) then 0.0
    else if Spreads(r, start) then if r.pubDay.value <= d <= r.day then PerDay(r) else 0.0
    else if d == r.day then r.value else 0.0
  }

  /** What a later snapshot adds to day d: its rise over the earlier maximum, on its own day. */
  function RiseShare(top: real, r: PostRow, d: int): real {
    if d == r.day && top < r.value then r.value - top else 0.0
  }

  function Days(first: int, last: int): (days: set<int>)
    ensures forall d :: d in days <==> first <= d <= last
    decreases last - first + 1
  {
    if last < first then {} else Days(first, last - 1) + {last}
  }

  // ----- one post, then all posts

  function PostCredit(h: History, start: int, d: int): real
    requires h != []
  {
    var n := |h| - 1;
    if n == 0 then FirstShare(h[0], start, d)
    else PostCredit(h[..n], start, d) + RiseShare(Highest(h[..n]), h[n], d)
  }

  /** The days a post writes to, even when it adds nothing there. */
  function PostWritten(h: History, start: int): set<int>
    requires h != []
  {
    var n := |h| - 1;
    if n == 0 then
      if Predates(h[0], start) then {}
      else if Spreads(h[0], start) then Days(h[0].pubDay.value, h[0].day)
      else {h[0].day}
    else PostWritten(h[..n], start) + if Highest(h[..n]) < h[n].value then {h[n].day} else {}
  }

  predicate Filled(hs: seq<History>) {
    forall i | 0 <= i < |hs| :: hs[i] != []
  }

  function Credit(hs: seq<History>, start: int, d: int): real
    requires Filled(hs)
  {
    if hs == [] then 0.0 else Credit(hs[..|hs| - 1], start, d) + PostCredit(hs[|hs| - 1], start, d)
  }

  function Written(hs: seq<History>, start: int): set<int>
    requires Filled(hs)
  {
    if hs == [] then {} else Written(hs[..|hs| - 1], start) + PostWritten(hs[|hs| - 1], start)
  }

  /** The last row is the first one of its post. */
  predicate Opens(rows: seq<PostRow>)
    requires rows != []
  {
    |rows| == 1 || rows[|rows| - 2].post != rows[|rows| - 1].post
  }

  /** The rows grouped into one history per post, in query order. */
  function Histories(rows: seq<PostRow>): (hs: seq<History>)
    ensures (hs == [] <==> rows == []) && Filled(hs)
  {
    if rows == [] then [] else
      var r, front := rows[|rows| - 1], Histories(rows[..|rows| - 1]);
      if Opens(rows) then front + [[r]] else front[..|front| - 1] + [front[|front| - 1] + [r]]
  }

  function Latest(rows: seq<PostRow>): Option<int> {
    if rows == [] then None else Later(Latest(rows[..|rows| - 1]), rows[|rows| - 1].captured)
  }

  lemma HistoriesGrow(front: seq<PostRow>, r: PostRow)
    ensures var hs := Histories(front);
      Histories(front + [r]) == if Opens(front + [r]) then hs + [[r]] else hs[..|hs| - 1] + [hs[|hs| - 1] + [r]]
  {
    assert (front + [r])[..|front|] == front;
  }

  lemma CreditSnoc(hs: seq<History>, h: History, start: int)
    requires Filled(hs) && h != []
    ensures Filled(hs + [h])
    ensures forall d :: Credit(hs + [h], start, d) == Credit(hs, start, d) + PostCredit(h, start, d)
    ensures Written(hs + [h], start) == Written(hs, start) + PostWritten(h, start)
  {
    assert (hs + [h])[..|hs|] == hs;
  }

  lemma PostSnoc(h: History, r: PostRow, start: int)
    requires h != []
    ensures forall d :: PostCredit(h + [r], start, d) == PostCredit(h, start, d) + RiseShare(Highest(h), r, d)
    ensures PostWritten(h + [r], start) == PostWritten(h, start) + if Highest(h) < r.value then {r.day} else {}
    ensures Highest(h + [r]) == HigherOf(Highest(h), r.value)
  {
    assert (h + [r])[..|h|] == h;
  }

  lemma NewHistory(front: seq<PostRow>, r: PostRow, start: int)
    requires Opens(front + [r])
    ensures var hs, more := Histories(front), Histories(front + [r]);
      && more == hs + [[r]]
      && (forall d :: Credit(more, start, d) == Credit(hs, start, d) + FirstShare(r, start, d))
      && Written(more, start) == Written(hs, start) + PostWritten([r], start)
  {
    HistoriesGrow(front, r);
    CreditSnoc(Histories(front), [r], start);
  }

  lemma GrownHistory(front: seq<PostRow>, r: PostRow, start: int)
    requires !Opens(front + [r])
    ensures var hs, more := Histories(front), Histories(front + [r]);
      var h := hs[|hs| - 1];
      && more == hs[..|hs| - 1] + [h + [r]] && Highest(h + [r]) == HigherOf(Highest(h), r.value)
      && (forall d :: Credit(more, start, d) == Credit(hs, start, d) + RiseShare(Highest(h), r, d))
      && Written(more, start) == Written(hs, start) + if Highest(h) < r.value then {r.day} else {}
  {
    HistoriesGrow(front, r);
    var hs := Histories(front);
    var others, h := hs[..|hs| - 1], hs[|hs| - 1];
    assert hs == others + [h];
    CreditSnoc(others, h, start);
    CreditSnoc(others, h + [r], start);
    PostSnoc(h, r, start);
  }

  // ----- the fold, row by row

  /** The maximum the loop carries: of the current post, so far. */
  function HighWater(rows: seq<PostRow>): real
    requires rows != []
  {
    var n, v := |rows| - 1, rows[|rows| - 1].value;
    if Opens(rows) then v else HigherOf(HighWater(rows[..n]), v)
  }

  /** What the last row adds to day d. */
  function RowShare(rows: seq<PostRow>, start: int, d: int): real
    requires rows != []
  {
    var n := |rows| - 1;
    if Opens(rows) then FirstShare(rows[n], start, d) else RiseShare(HighWater(rows[..n]), rows[n], d)
  }

  function RowCredit(rows: seq<PostRow>, start: int, d: int): real {
    if rows == [] then 0.0 else RowCredit(rows[..|rows| - 1], start, d) + RowShare(rows, start, d)
  }

  function RowWrites(rows: seq<PostRow>, start: int): set<int>
    requires rows != []
  {
    var n := |rows| - 1;
    if Opens(rows) then PostWritten([rows[n]], start)
    else if HighWater(rows[..n]) < rows[n].value then {rows[n].day} else {}
  }

  function RowWritten(rows: seq<PostRow>, start: int): set<int> {
    if rows == [] then {} else RowWritten(rows[..|rows| - 1], start) + RowWrites(rows, start)
  }

  /** The dictionary the fold returns. */
  function Daily(rows: seq<PostRow>, start: int): map<int, real> {
    map d | d in RowWritten(rows, start) :: RowCredit(rows, start, d)
  }

  lemma FoldStep(front: seq<PostRow>, r: PostRow, top: real, start: int)
    requires !Opens(front + [r]) ==> HighWater(front) == top
    ensures HighWater(front + [r]) == if Opens(front + [r]) then r.value else HigherOf(top, r.value)
    ensures forall d :: RowCredit(front + [r], start, d) == RowCredit(front, start, d) +
              if Opens(front + [r]) then FirstShare(r, start, d) else RiseShare(top, r, d)
    ensures RowWritten(front + [r], start) == RowWritten(front, start) +
              if Opens(front + [r]) then PostWritten([r], start) else if top < r.value then {r.day} else {}
  {
    assert (front + [r])[..|front|] == front;
  }

  ghost predicate Agrees(rows: seq<PostRow>, hs: seq<History>, start: int)
    requires Filled(hs) && (hs == [] <==> rows == [])
  {
    && (forall d :: RowCredit(rows, start, d) == Credit(hs, start, d))
    && RowWritten(rows, start) == Written(hs, start)
    && (rows != [] ==> HighWater(rows) == Highest(hs[|hs| - 1]))
  }

  lemma AgreesNew(front: seq<PostRow>, r: PostRow, start: int)
    requires Agrees(front, Histories(front), start) && Opens(front + [r])
    ensures Agrees(front + [r], Histories(front + [r]), start)
  {
    NewHistory(front, r, start);
    FoldStep(front, r, 0.0, start);
    assert Highest([r]) == r.value;
  }

  lemma AgreesGrown(front: seq<PostRow>, r: PostRow, start: int)
    requires Agrees(front, Histories(front), start) && !Opens(front + [r])
    ensures Agrees(front + [r], Histories(front + [r]), start)
  {
    GrownHistory(front, r, start);
    FoldStep(front, r, HighWater(front), start);
  }

  /** The row-by-row fold credits exactly what the posts' histories are credited with. */
  lemma {:induction false} FoldIsPerPost(rows: seq<PostRow>, start: int)
    ensures Agrees(rows, Histories(rows), start)
  {
    if rows == [] {
    } else {
      var front, r := rows[..|rows| - 1], rows[|rows| - 1];
      assert rows == front + [r];
      FoldIsPerPost(front, start);
      if Opens(rows) {
        AgreesNew(front, r, start);
      } else {
        AgreesGrown(front, r, start);
      }
    }
  }

  method PostSummedSeries(rows: seq<PostRow>, start: int, end: int)
    returns (out: map<int, real>, maxCaptured: Option<int>)
    requires Within(rows, start, end)
    ensures out == Daily(rows, start) && maxCaptured == Latest(rows)
  {
    out, maxCaptured := map[], None;
    var currentPost: Option<int> := None;
    var prevValue := 0.0;
    var firstObservation := true;
    for i := 0 to |rows|
      invariant forall d :: At(out, d) == RowCredit(rows[..i], start, d)
      invariant out.Keys == RowWritten(rows[..i], start) && maxCaptured == Latest(rows[..i])
      invariant currentPost == if i == 0 then None else Some(rows[i - 1].post)
      invariant i > 0 ==> !firstObservation && prevValue == HighWater(rows[..i])
    {
      var r := rows[i];
      assert r in rows;
      assert rows[..i + 1][..i] == rows[..i] && rows[..i + 1][i] == r;
      assert Opens(rows[..i + 1]) <==> currentPost != Some(r.post);
      if currentPost != Some(r.post) {
        currentPost := Some(r.post);
        firstObservation := true;
        prevValue := 0.0;
      }
      var v := r.value;
      if r.captured.Some? && (maxCaptured.None? || r.captured.value > maxCaptured.value) {
        maxCaptured := r.captured;
      }
      if firstObservation {
        firstObservation := false;
        out := CreditFirst(out, r, start, end);
        prevValue := v;
      } else {
        var delta := v - prevValue;
        if delta > 0.0 {
          prevValue := v;
          out := out[r.day := At(out, r.day) + delta];
        }
      }
    }
    assert rows[..|rows|] == rows;
    forall d | d in out ensures out[d] == RowCredit(rows, start, d) { assert At(out, d) == out[d]; }
  }

  /** The first observation of a post: on its day, nowhere, or spread from the publication day. */
  method CreditFirst(before: map<int, real>, r: PostRow, start: int, end: int) returns (out: map<int, real>)
    requires start <= r.day <= end
    ensures out.Keys == before.Keys + PostWritten([r], start)
    ensures forall d :: At(out, d) == At(before, d) + FirstShare(r, start, d)
  {
    out := before;
    if r.pubDay.None? || r.pubDay.value > r.day {
      if start <= r.day <= end {
        out := out[r.day := At(out, r.day) + r.value];
      }
    } else if r.pubDay.value < start {
    } else {
      out := Spread(out, r.pubDay.value, r.day, r.value, start, end);
    }
  }

  /** The first total of a post published inside the window, spread evenly from its publication. */
  method Spread(before: map<int, real>, pubDay: int, day: int, v: real, start: int, end: int)
    returns (out: map<int, real>)
    requires start <= pubDay <= day <= end
    ensures out.Keys == before.Keys + Days(pubDay, day)
    ensures forall d :: At(out, d) == At(before, d) + if pubDay <= d <= day then v / (day - pubDay + 1) as real else 0.0
  {
    var nDays := day - pubDay + 1;
    var perDay := v / nDays as real;
    out := before;
    var d := pubDay;
    while d <= day
      invariant pubDay <= d <= day + 1
      invariant out.Keys == before.Keys + Days(pubDay, d - 1)
      invariant forall x :: At(out, x) == At(before, x) + if pubDay <= x < d then perDay else 0.0
    {
      if start <= d <= end {
        out := out[d := At(out, d) + perDay];
      }
      d := d + 1;
    }
  }

  // ----- what the credits of one post add up to

  /** A function of days summed from the start of the window through a day. */
  function PostCreditThrough(h: History, start: int, through: int): real
    requires h != []
    decreases through - start + 1
  {
    if through < start then 0.0 else PostCreditThrough(h, start, through - 1) + PostCredit(h, start, through)
  }

  function Seen(h: History, through: int): History {
    if h == [] then [] else
      var n := |h| - 1;
      Seen(h[..n], through) + if h[n].day <= through then [h[n]] else []
  }

  /** The part of a first snapshot spread over the days from publication through a day. */
  function PartSpread(first: PostRow, through: int): real
    requires first.pubDay.Some? && first.pubDay.value <= first.day
  {
    if through < first.pubDay.value then 0.0 else (through - first.pubDay.value + 1) as real * PerDay(first)
  }

  /**
   * What a post is credited with up to and including a day: its highest total so far, less the
   * first snapshot when the post predates the window; before its first snapshot, the part of that
   * snapshot spread over the days gone by.
   */
  function Gain(h: History, start: int, through: int): real
    requires h != []
  {
    GainOf(Seen(h, through), h[0], start, through)
  }

  function GainOf(seen: History, first: PostRow, start: int, through: int): real {
    if seen != [] then Highest(seen) - if Predates(first, start) then first.value else 0.0
    else if Spreads(first, start) then PartSpread(first, through)
    else 0.0
  }

  lemma OneDayMore(k: int, x: real)
    ensures (k + 1) as real * x == k as real * x + x
  {
    assert (k + 1) as real == k as real + 1.0;
  }

  function FirstThrough(r: PostRow, start: int, through: int): real
    decreases through - start + 1
  {
    if through < start then 0.0 else FirstThrough(r, start, through - 1) + FirstShare(r, start, through)
  }

  lemma PartGrows(r: PostRow, through: int)
    requires r.pubDay.Some? && r.pubDay.value <= through && r.pubDay.value <= r.day
    ensures PartSpread(r, through) == PartSpread(r, through - 1) + PerDay(r)
  {
    var k := through - r.pubDay.value;
    OneDayMore(k, PerDay(r));
    if k > 0 { assert through - 1 - r.pubDay.value + 1 == k; }
  }

  lemma PartIsWhole(r: PostRow)
    requires r.pubDay.Some? && r.pubDay.value <= r.day
    ensures PartSpread(r, r.day) == r.value
  {
    var n := (r.day - r.pubDay.value + 1) as real;
    assert n * (r.value / n) == r.value;
  }

  /** An evenly spread first total arrives one equal part a day, and all of it by the snapshot's day. */
  lemma {:induction false} SpreadThrough(r: PostRow, start: int, through: int)
    requires Spreads(r, start)
    ensures FirstThrough(r, start, through) == if r.day <= through then r.value else PartSpread(r, through)
    decreases through - start + 1
  {
    PartIsWhole(r);
    if through < start {
    } else {
      SpreadThrough(r, start, through - 1);
      if r.pubDay.value <= through { PartGrows(r, through); }
    }
  }

  /** A first row that is not spread counts on its own day, or not at all when the post predates the window. */
  lemma {:induction false} PointThrough(r: PostRow, start: int, through: int)
    requires !Spreads(r, start) && start <= r.day
    ensures FirstThrough(r, start, through) == if r.day <= through && !Predates(r, start) then r.value else 0.0
    decreases through - start + 1
  {
    if through < start {
    } else {
      PointThrough(r, start, through - 1);
    }
  }

  lemma {:induction false} SingleThrough(r: PostRow, start: int, through: int)
    ensures PostCreditThrough([r], start, through) == FirstThrough(r, start, through)
    decreases through - start + 1
  {
    if through < start {
    } else {
      SingleThrough(r, start, through - 1);
    }
  }

  lemma {:induction false} RiseThrough(h: History, r: PostRow, start: int, through: int)
    requires h != [] && start <= r.day
    ensures PostCreditThrough(h + [r], start, through) == PostCreditThrough(h, start, through) +
            if r.day <= through then HigherOf(0.0, r.value - Highest(h)) else 0.0
    decreases through - start + 1
  {
    if through < start {
    } else {
      RiseThrough(h, r, start, through - 1);
      PostSnoc(h, r, start);
    }
  }

  lemma {:induction false} SeenAll(h: History, through: int)
    requires forall r | r in h :: r.day <= through
    ensures Seen(h, through) == h
  {
    if h == [] {
    } else {
      SeenAll(h[..|h| - 1], through);
    }
  }

  lemma SeenGrows(h: History, r: PostRow, through: int)
    ensures Seen(h + [r], through) == Seen(h, through) + if r.day <= through then [r] else []
  {
    assert (h + [r])[..|h|] == h;
  }

  lemma GainGrows(h: History, r: PostRow, start: int, through: int)
    requires h != [] && forall x | x in h :: x.day <= r.day
    ensures Gain(h + [r], start, through) == Gain(h, start, through) +
            if r.day <= through then HigherOf(0.0, r.value - Highest(h)) else 0.0
  {
    SeenGrows(h, r, through);
    var more := h + [r];
    assert more[0] == h[0];
    if r.day <= through {
      SeenAll(h, through);
      PostSnoc(h, r, start);
      assert Seen(more, through) == more;
    } else {
      assert Seen(more, through) == Seen(h, through);
    }
  }

  ghost predicate ByDate(h: History, start: int) {
    && (forall i | 0 <= i < |h| :: start <= h[i].day)
    && forall i, j | 0 <= i < j < |h| :: h[i].day <= h[j].day
  }

  /** The credits of one post dated through any day are exactly its gain by that day. */
  lemma {:induction false} PostCreditsAreItsGain(h: History, start: int, through: int)
    requires h != [] && ByDate(h, start)
    ensures PostCreditThrough(h, start, through) == Gain(h, start, through)
  {
    var n := |h| - 1;
    var front, r := h[..n], h[n];
    assert h == front + [r];
    if n == 0 {
      assert h == [r];
      SingleThrough(r, start, through);
      SeenGrows([], r, through);
      assert [] + [r] == [r] && Highest([r]) == r.value;
      if Spreads(r, start) {
        SpreadThrough(r, start, through);
      } else {
        PointThrough(r, start, through);
      }
    } else {
      PostCreditsAreItsGain(front, start, through);
      RiseThrough(front, r, start, through);
      GainGrows(front, r, start, through);
    }
  }

  // ----- all posts

  /** All credits dated from the start of the window through a day. */
  function CreditThrough(hs: seq<History>, start: int, through: int): real
    requires Filled(hs)
    decreases through - start + 1
  {
    if through < start then 0.0 else CreditThrough(hs, start, through - 1) + Credit(hs, start, through)
  }

  function TotalGain(hs: seq<History>, start: int, through: int): real
    requires Filled(hs)
  {
    if hs == [] then 0.0 else
      var n := |hs| - 1;
      TotalGain(hs[..n], start, through) + Gain(hs[n], start, through)
  }

  lemma {:induction false} CreditsAdd(hs: seq<History>, start: int, through: int)
    requires Filled(hs) && hs != []
    ensures CreditThrough(hs, start, through) ==
            CreditThrough(hs[..|hs| - 1], start, through) + PostCreditThrough(hs[|hs| - 1], start, through)
    decreases through - start + 1
  {
    if through < start {
    } else {
      CreditsAdd(hs, start, through - 1);
    }
  }

  lemma {:induction false} NoRowsNoCredit(start: int, through: int)
    ensures CreditThrough([], start, through) == 0.0
    decreases through - start + 1
  {
    if through < start {
    } else {
      NoRowsNoCredit(start, through - 1);
    }
  }

  lemma {:induction false} HistoriesGain(hs: seq<History>, start: int, through: int)
    requires Filled(hs) && forall i | 0 <= i < |hs| :: ByDate(hs[i], start)
    ensures CreditThrough(hs, start, through) == TotalGain(hs, start, through)
  {
    if hs == [] {
      NoRowsNoCredit(start, through);
    } else {
      HistoriesGain(hs[..|hs| - 1], start, through);
      CreditsAdd(hs, start, through);
      PostCreditsAreItsGain(hs[|hs| - 1], start, through);
    }
  }

  // ----- the histories are the posts, each in date order

  function OfPost(rows: seq<PostRow>, p: int): History {
    if rows == [] then [] else
      var n := |rows| - 1;
      OfPost(rows[..n], p) + if rows[n].post == p then [rows[n]] else []
  }

  lemma OfPostGrows(front: seq<PostRow>, r: PostRow, p: int)
    ensures OfPost(front + [r], p) == OfPost(front, p) + if r.post == p then [r] else []
  {
    assert (front + [r])[..|front|] == front;
  }

  lemma {:induction false} NoneOfPost(rows: seq<PostRow>, p: int)
    requires forall r | r in rows :: r.post != p
    ensures OfPost(rows, p) == []
  {
    if rows == [] {
    } else {
      assert rows[|rows| - 1] in rows;
      NoneOfPost(rows[..|rows| - 1], p);
    }
  }

  function PostOf(hs: seq<History>, i: nat): int
    requires i < |hs| && Filled(hs)
  {
    hs[i][0].post
  }

  ghost predicate OnePerPost(hs: seq<History>, rows: seq<PostRow>) {
    && Filled(hs)
    && (forall i | 0 <= i < |hs| :: hs[i] == OfPost(rows, PostOf(hs, i)))
    && forall i, j | 0 <= i < j < |hs| :: PostOf(hs, i) < PostOf(hs, j)
  }

  lemma NewPost(hs: seq<History>, front: seq<PostRow>, r: PostRow)
    requires OnePerPost(hs, front) && OfPost(front, r.post) == []
    requires forall i | 0 <= i < |hs| :: PostOf(hs, i) < r.post
    ensures OnePerPost(hs + [[r]], front + [r])
  {
    var more := hs + [[r]];
    forall i | 0 <= i < |more| ensures more[i] == OfPost(front + [r], PostOf(more, i)) {
      OfPostGrows(front, r, PostOf(more, i));
      if i < |hs| { assert PostOf(more, i) == PostOf(hs, i); }
    }
    assert forall i | 0 <= i < |hs| :: PostOf(more, i) == PostOf(hs, i);
  }

  lemma SamePost(others: seq<History>, h: History, front: seq<PostRow>, r: PostRow)
    requires OnePerPost(others + [h], front) && h != [] && h[0].post == r.post
    ensures OnePerPost(others + [h + [r]], front + [r])
  {
    var less, more := others + [h], others + [h + [r]];
    forall i | 0 <= i < |more| ensures more[i] != [] {
      assert less[i] != [];
    }
    assert forall i | 0 <= i < |more| :: PostOf(more, i) == PostOf(less, i);
    forall i | 0 <= i < |more| ensures more[i] == OfPost(front + [r], PostOf(more, i)) {
      OfPostGrows(front, r, PostOf(less, i));
      if i < |others| { assert PostOf(less, i) < PostOf(less, |others|); }
    }
  }

  lemma {:induction false} HistoryRows(rows: seq<PostRow>)
    ensures forall i, r | 0 <= i < |Histories(rows)| && r in Histories(rows)[i] :: r in rows
    ensures rows != [] ==> forall r | r in Histories(rows)[|Histories(rows)| - 1] :: r.post == rows[|rows| - 1].post
  {
    if rows == [] {
    } else {
      var n := |rows| - 1;
      HistoryRows(rows[..n]);
      forall i, r | 0 <= i < |Histories(rows)| && r in Histories(rows)[i] ensures r in rows {
        assert r == rows[n] || r in rows[..n];
      }
    }
  }

  lemma RowBefore(front: seq<PostRow>, r: PostRow, x: PostRow)
    requires Ordered(front + [r]) && x in front
    ensures x.post < r.post || (x.post == r.post && x.day <= r.day && !Opens(front + [r]))
  {
    var rows := front + [r];
    var i :| 0 <= i < |front| && front[i] == x;
    assert rows[i] == x && rows[|front| - 1] == front[|front| - 1] && rows[|front|] == r;
  }

  lemma OpensOverAll(front: seq<PostRow>, r: PostRow)
    requires Ordered(front + [r]) && Opens(front + [r])
    ensures OfPost(front, r.post) == []
    ensures forall i | 0 <= i < |Histories(front)| :: PostOf(Histories(front), i) < r.post
  {
    forall x | x in front ensures x.post < r.post { RowBefore(front, r, x); }
    NoneOfPost(front, r.post);
    HistoryRows(front);
    forall i | 0 <= i < |Histories(front)| ensures PostOf(Histories(front), i) < r.post {
      assert Histories(front)[i][0] in Histories(front)[i];
    }
  }

  lemma Continues(front: seq<PostRow>, r: PostRow) returns (others: seq<History>, h: History)
    requires Ordered(front + [r]) && !Opens(front + [r])
    ensures h != [] && h[0].post == r.post && forall x | x in h :: x.day <= r.day
    ensures Histories(front) == others + [h] && Histories(front + [r]) == others + [h + [r]]
  {
    HistoriesGrow(front, r);
    HistoryRows(front);
    var hs := Histories(front);
    others, h := hs[..|hs| - 1], hs[|hs| - 1];
    assert h[0] in h;
    assert (front + [r])[|front| - 1] == front[|front| - 1];
    forall x: PostRow | x in h ensures x.day <= r.day { RowBefore(front, r, x); }
  }

  /** In query order each history holds exactly the rows of one post, and different histories different posts. */
  lemma {:induction false} HistoriesArePosts(rows: seq<PostRow>)
    requires Ordered(rows)
    ensures OnePerPost(Histories(rows), rows)
  {
    if rows == [] {
    } else {
      var front, r := rows[..|rows| - 1], rows[|rows| - 1];
      assert rows == front + [r];
      HistoriesArePosts(front);
      if Opens(rows) {
        HistoriesGrow(front, r);
        OpensOverAll(front, r);
        NewPost(Histories(front), front, r);
      } else {
        var others, h := Continues(front, r);
        SamePost(others, h, front, r);
      }
    }
  }

  ghost predicate AllByDate(hs: seq<History>, start: int) {
    forall i | 0 <= i < |hs| :: ByDate(hs[i], start)
  }

  lemma NewByDate(hs: seq<History>, r: PostRow, start: int)
    requires AllByDate(hs, start) && start <= r.day
    ensures AllByDate(hs + [[r]], start)
  {
    forall i | 0 <= i < |hs| ensures ByDate((hs + [[r]])[i], start) { assert ByDate(hs[i], start); }
  }

  lemma LastByDate(others: seq<History>, h: History, r: PostRow, start: int)
    requires AllByDate(others + [h], start) && start <= r.day && forall x | x in h :: x.day <= r.day
    ensures AllByDate(others + [h + [r]], start)
  {
    var less, more := others + [h], others + [h + [r]];
    assert ByDate(less[|others|], start);
    forall i | 0 <= i < |others| ensures ByDate(more[i], start) { assert ByDate(less[i], start); }
  }

  lemma {:induction false} HistoriesByDate(rows: seq<PostRow>, start: int)
    requires Ordered(rows) && forall r | r in rows :: start <= r.day
    ensures AllByDate(Histories(rows), start)
  {
    if rows == [] {
    } else {
      var front, r := rows[..|rows| - 1], rows[|rows| - 1];
      assert rows == front + [r] && r in rows;
      HistoriesByDate(front, start);
      if Opens(rows) {
        HistoriesGrow(front, r);
        NewByDate(Histories(front), r, start);
      } else {
        var others, h := Continues(front, r);
        LastByDate(others, h, r, start);
      }
    }
  }

  // ----- conservation

  /** The credits dated through any day of the window add up to what each post gained by that day. */
  lemma CreditsAreGains(rows: seq<PostRow>, start: int, through: int)
    requires Ordered(rows) && forall r | r in rows :: start <= r.day
    ensures CreditThrough(Histories(rows), start, through) == TotalGain(Histories(rows), start, through)
  {
    HistoriesByDate(rows, start);
    HistoriesGain(Histories(rows), start, through);
  }

  /** The highest total of a post, less its first snapshot when it predates the window. */
  function Net(h: History, start: int): real
    requires h != []
  {
    Highest(h) - if Predates(h[0], start) then h[0].value else 0.0
  }

  function NetTotal(hs: seq<History>, start: int): real
    requires Filled(hs)
  {
    if hs == [] then 0.0 else
      var n := |hs| - 1;
      NetTotal(hs[..n], start) + Net(hs[n], start)
  }

  lemma {:induction false} GainsAreNet(hs: seq<History>, start: int, end: int)
    requires Filled(hs) && forall i, r | 0 <= i < |hs| && r in hs[i] :: r.day <= end
    ensures TotalGain(hs, start, end) == NetTotal(hs, start)
  {
    if hs == [] {
    } else {
      var n := |hs| - 1;
      GainsAreNet(hs[..n], start, end);
      SeenAll(hs[n], end);
    }
  }

  /** Conservation: the window's credits are the highest totals of the posts, less the anchors. */
  lemma CreditsConserve(rows: seq<PostRow>, start: int, end: int)
    requires Ordered(rows) && Within(rows, start, end)
    ensures CreditThrough(Histories(rows), start, end) == NetTotal(Histories(rows), start)
  {
    CreditsAreGains(rows, start, end);
    HistoryRows(rows);
    GainsAreNet(Histories(rows), start, end);
  }

  lemma {:induction false} PostNothingElsewhere(h: History, start: int, d: int)
    requires h != [] && d !in PostWritten(h, start)
    ensures PostCredit(h, start, d) == 0.0
  {
    if |h| <= 1 {
    } else {
      PostNothingElsewhere(h[..|h| - 1], start, d);
    }
  }

  lemma {:induction false} NothingElsewhere(hs: seq<History>, start: int, d: int)
    requires Filled(hs) && d !in Written(hs, start)
    ensures Credit(hs, start, d) == 0.0
  {
    if hs == [] {
    } else {
      NothingElsewhere(hs[..|hs| - 1], start, d);
      PostNothingElsewhere(hs[|hs| - 1], start, d);
    }
  }

  lemma {:induction false} PostWritesInWindow(h: History, start: int, end: int)
    requires h != [] && forall r | r in h :: start <= r.day <= end
    ensures forall d | d in PostWritten(h, start) :: start <= d <= end
  {
    assert h[|h| - 1] in h;
    if |h| <= 1 {
    } else {
      PostWritesInWindow(h[..|h| - 1], start, end);
    }
  }

  lemma {:induction false} WritesInWindow(hs: seq<History>, start: int, end: int)
    requires Filled(hs) && forall i, r | 0 <= i < |hs| && r in hs[i] :: start <= r.day <= end
    ensures forall d | d in Written(hs, start) :: start <= d <= end
  {
    if hs == [] {
    } else {
      WritesInWindow(hs[..|hs| - 1], start, end);
      PostWritesInWindow(hs[|hs| - 1], start, end);
    }
  }

  /** Every credit lands inside the window. */
  lemma CreditsStayInWindow(rows: seq<PostRow>, start: int, end: int, d: int)
    requires Within(rows, start, end) && (d in Daily(rows, start) || Credit(Histories(rows), start, d) != 0.0)
    ensures start <= d <= end
  {
    FoldIsPerPost(rows, start);
    HistoryRows(rows);
    WritesInWindow(Histories(rows), start, end);
    if d !in Written(Histories(rows), start) { NothingElsewhere(Histories(rows), start, d); }
  }

  // ----- the same in the fields of the snapshots

  /** v is the greatest total of the history. */
  ghost predicate IsGreatest(h: History, v: real) {
    (exists r :: r in h && r.value == v) && forall r | r in h :: r.value <= v
  }

  lemma {:induction false} HighestIsGreatest(h: History)
    requires h != []
    ensures IsGreatest(h, Highest(h))
  {
    var n := |h| - 1;
    assert h == h[..n] + [h[n]];
    if n == 0 {
      assert h[0] in h;
    } else {
      HighestIsGreatest(h[..n]);
      var r :| r in h[..n] && r.value == Highest(h[..n]);
      assert r in h && h[n] in h;
    }
  }

  /** Published before the window and before its first snapshot: that snapshot is only a baseline. */
  ghost predicate OnlyBaseline(first: PostRow, start: int) {
    exists p :: first.pubDay == Some(p) && p < start && p <= first.day
  }

  lemma {:induction false} SeenAre(h: History, through: int)
    ensures forall r :: r in Seen(h, through) <==> r in h && r.day <= through
  {
    if h == [] {
    } else {
      SeenAre(h[..|h| - 1], through);
      assert h == h[..|h| - 1] + [h[|h| - 1]];
    }
  }

  lemma {:induction false} SeenNone(h: History, through: int)
    requires forall i | 0 <= i < |h| :: through < h[i].day
    ensures Seen(h, through) == []
  {
    if h == [] {
    } else {
      SeenNone(h[..|h| - 1], through);
    }
  }

  /**
   * The credits of one post through any day: once it has a snapshot, the greatest total so far,
   * less the first one if that is a baseline; before, for each day since its publication inside
   * the window, an equal part of the first total.
   */
  lemma PostCreditsThrough(h: History, start: int, through: int)
    requires h != [] && ByDate(h, start)
    ensures var credited := PostCreditThrough(h, start, through);
      && (forall v | IsGreatest(Seen(h, through), v) ::
           credited == v - if OnlyBaseline(h[0], start) then h[0].value else 0.0)
      && (forall p | through < h[0].day && h[0].pubDay == Some(p) && start <= p <= through ::
           credited == (through - p + 1) as real * (h[0].value / (h[0].day - p + 1) as real))
      && (through < h[0].day && !(exists p :: h[0].pubDay == Some(p) && start <= p <= through) ==> credited == 0.0)
  {
    PostCreditsAreItsGain(h, start, through);
    SeenAre(h, through);
    var seen := Seen(h, through);
    if seen != [] { HighestIsGreatest(seen); }
    if through < h[0].day {
      SeenNone(h, through);
    } else {
      assert h[0] in h;
    }
  }

  /** What a post nets over the window, in the same terms. */
  lemma NetIsGreatestLessBaseline(h: History, start: int)
    requires h != []
    ensures exists v :: IsGreatest(h, v) && Net(h, start) == v - if OnlyBaseline(h[0], start) then h[0].value else 0.0
  {
    HighestIsGreatest(h);
  }

  /** The i-th snapshot writes to day d: the days of the spread, or its own day when it is the highest so far. */
  ghost predicate Writes(h: History, start: int, i: nat, d: int)
    requires i < |h|
  {
    if i == 0 then
      !OnlyBaseline(h[0], start) &&
      (d == h[0].day || exists p :: h[0].pubDay == Some(p) && start <= p <= d <= h[0].day)
    else d == h[i].day && forall j | 0 <= j < i :: h[j].value < h[i].value
  }

  lemma {:induction false} PostWritesWhere(h: History, start: int, d: int)
    requires h != [] && start <= h[0].day
    ensures d in PostWritten(h, start) <==> exists i: nat :: i < |h| && Writes(h, start, i, d)
  {
    var n := |h| - 1;
    if n == 0 {
      assert Writes(h, start, 0, d) <==> d in PostWritten(h, start);
    } else {
      var front := h[..n];
      PostWritesWhere(front, start, d);
      EarlierWrites(h, start, d);
      LastWrites(h, start, d);
      if i: nat :| i < |front| && Writes(front, start, i, d) {
        assert Writes(h, start, i, d);
      }
    }
  }

  lemma EarlierWrites(h: History, start: int, d: int)
    requires h != []
    ensures forall i: nat | i < |h| - 1 :: Writes(h, start, i, d) <==> Writes(h[..|h| - 1], start, i, d)
  {
    var front := h[..|h| - 1];
    assert forall j | 0 <= j < |front| :: front[j] == h[j];
  }

  lemma LastWrites(h: History, start: int, d: int)
    requires |h| > 1
    ensures Writes(h, start, |h| - 1, d) <==> d == h[|h| - 1].day && Highest(h[..|h| - 1]) < h[|h| - 1].value
  {
    var front, v := h[..|h| - 1], h[|h| - 1].value;
    HighestIsGreatest(front);
    if Highest(front) < v {
      forall j | 0 <= j < |front| ensures h[j].value < v { assert front[j] in front; }
    } else {
      var r :| r in front && r.value == Highest(front);
      var j :| 0 <= j < |front| && front[j] == r;
      assert h[j].value >= v;
    }
  }

  lemma {:induction false} WrittenWhere(hs: seq<History>, start: int, d: int)
    requires Filled(hs)
    ensures d in Written(hs, start) <==> exists i :: 0 <= i < |hs| && d in PostWritten(hs[i], start)
  {
    if hs == [] {
    } else {
      WrittenWhere(hs[..|hs| - 1], start, d);
    }
  }

  /** The days of the result: those that some snapshot of some post writes to. */
  lemma DailyWhere(rows: seq<PostRow>, start: int, end: int, d: int)
    requires Ordered(rows) && Within(rows, start, end)
    ensures d in Daily(rows, start) <==>
            exists k, i: nat :: 0 <= k < |Histories(rows)| && i < |Histories(rows)[k]| &&
              Writes(Histories(rows)[k], start, i, d)
  {
    var hs := Histories(rows);
    FoldIsPerPost(rows, start);
    HistoryRows(rows);
    WrittenWhere(hs, start, d);
    forall k | 0 <= k < |hs|
      ensures d in PostWritten(hs[k], start) <==> exists i: nat :: i < |hs[k]| && Writes(hs[k], start, i, d)
    {
      assert hs[k][0] in hs[k];
      PostWritesWhere(hs[k], start, d);
    }
  }

  /** The newest capture, if any row has one. */
  lemma {:induction false} LatestIsNewest(rows: seq<PostRow>)
    ensures Latest(rows).None? <==> forall r | r in rows :: r.captured.None?
    ensures Latest(rows).Some? ==> exists r :: r in rows && r.captured == Latest(rows)
    ensures forall r | r in rows && r.captured.Some? ::
              Latest(rows).Some? && r.captured.value <= Latest(rows).value
  {
    if rows == [] {
    } else {
      var front, r := rows[..|rows| - 1], rows[|rows| - 1];
      assert rows == front + [r] && r in rows;
      LatestIsNewest(front);
      if Latest(front).Some? {
        var x :| x in front && x.captured == Latest(front);
        assert x in rows;
      }
    }
  }
}
