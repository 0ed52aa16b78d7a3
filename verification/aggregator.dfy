/**
 The reading aggregator: the dashboard's state and the one atomic step that
 ingests a reading (table update, solve, smoothing, bounded histories).
 */
module Aggregator {
  import opened Wrappers
  import opened Field
  import opened Readings
  import opened Trilateration

  /** How many raw fixes the position history keeps. */
  const PositionHistoryLimit: nat := 100
  /** How many distance snapshots the distance history keeps. */
  const DistanceHistoryLimit: nat := 50

  /** A raw (unsmoothed) fix with the time it was computed. */
  datatype HistoryPoint = HistoryPoint(x: real, y: real, timestamp: int)

  /** The distances of anchors "1".."4" at one ingest; `None` where the table has no entry. */
  datatype DistanceSnapshot = DistanceSnapshot(timestamp: int, d1: Option<real>, d2: Option<real>, d3: Option<real>, d4: Option<real>)

  /** Everything the dashboard keeps between readings. */
  datatype State = State(
    readings: Table,
    position: Option<Coordinate>,
    error: real,
    history: seq<HistoryPoint>,
    distanceHistory: seq<DistanceSnapshot>)

  /** The state before any reading: no position yet, and the error seeded at 0. */
  const Initial: State := State(map[], None, 0.0, [], [])

  /** One low-pass step of a position axis: move from `prev` towards `raw` by 0.15 of the gap. */
  function SmoothAxis(prev: real, raw: real): (r: real)
    ensures prev <= raw ==> prev <= r <= raw
    ensures raw <= prev ==> raw <= r <= prev
    ensures raw == prev ==> r == prev
  {
    prev + 0.15 * (raw - prev)
  }

  /** One low-pass step of the error metric: move from `prev` towards `raw` by 0.1 of the gap. */
  function SmoothError(prev: real, raw: real): (r: real)
    ensures prev <= raw ==> prev <= r <= raw
    ensures raw <= prev ==> raw <= r <= prev
    ensures raw == prev ==> r == prev
  {
    prev + 0.1 * (raw - prev)
  }

  /** Each step closes a fixed fraction of the remaining gap, so repeated fixes are approached geometrically. */
  lemma SmoothingShrinksGap(prev: real, raw: real)
    ensures raw - SmoothAxis(prev, raw) == 0.85 * (raw - prev)
    ensures raw - SmoothError(prev, raw) == 0.9 * (raw - prev)
    ensures Abs(raw - SmoothAxis(prev, raw)) <= Abs(raw - prev)
    ensures Abs(raw - SmoothError(prev, raw)) <= Abs(raw - prev)
  {
  }

  /** `s.slice(-n)` for a positive `n`: the last `n` elements, or all of them when there are fewer. */
  function KeepLast<T>(s: seq<T>, n: nat): (r: seq<T>)
    requires n > 0
    ensures |r| == if |s| <= n then |s| else n
    ensures r == s[|s| - |r|..]
  {
    if |s| <= n then s else s[|s| - n..]
  }

  /**
   `[...buffer, x].slice(-n)`: the new element is last, the rest is the
   newest part of the old buffer, and the length never exceeds `n`.
   */
  function PushCapped<T>(buffer: seq<T>, x: T, n: nat): (r: seq<T>)
    requires n > 0
    ensures |r| == (if |buffer| < n then |buffer| + 1 else n)
    ensures r[|r| - 1] == x
    ensures r[..|r| - 1] == buffer[|buffer| - (|r| - 1)..]
  {
    var r := KeepLast(buffer + [x], n);
    assert r == (buffer + [x])[|buffer| + 1 - |r|..];
    r
  }

  /** The distance snapshot of a table at time `now`. */
  function Snapshot(t: Table, now: int): (d: DistanceSnapshot)
    ensures d.timestamp == now
  {
    DistanceSnapshot(now, DistanceOf(t, "1"), DistanceOf(t, "2"), DistanceOf(t, "3"), DistanceOf(t, "4"))
  }

  /** A snapshot records exactly the four distances the solver reads, in anchor order. */
  lemma SnapshotIsSolverInput(t: Table, now: int)
    ensures
      var d := Snapshot(t, now);
      [d.d1, d.d2, d.d3, d.d4] == AnchorDistances(t)
  {
  }

  /** The smoothed position after a fix `raw`: the fix itself the first time, a low-pass step afterwards. */
  function SmoothPosition(prev: Option<Coordinate>, raw: Coordinate): (c: Coordinate)
    ensures prev.None? ==> c == raw
    ensures prev.Some? && InField(prev.value) && InField(raw) ==> InField(c)
    ensures prev == Some(raw) ==> c == raw
  {
    match prev
    case None => raw
    case Some(p) => Coordinate(SmoothAxis(p.x, raw.x), SmoothAxis(p.y, raw.y))
  }

  /** `{ ...prev, [reading.anchorId]: reading }`: the table changes at the reading's key only, and holds the reading there. */
  function Upsert(t: Table, reading: Reading): (t': Table)
    ensures reading.anchorId in t' && t'[reading.anchorId] == reading
    ensures forall k :: k != reading.anchorId ==> (k in t' <==> k in t)
    ensures forall k :: k in t && k != reading.anchorId ==> t'[k] == t[k]
  {
    t[reading.anchorId := reading]
  }

  /**
   One ingest once the solver has answered `fix` for the updated table:
   table update, filter update when there is a fix, and both history appends.
   */
  function Step(s: State, reading: Reading, now: int, fix: Option<Estimate>): (s': State)
    ensures s'.readings == Upsert(s.readings, reading)
    // no fix: the filter and the position history stand
    ensures fix.None? ==> s'.position == s.position && s'.error == s.error && s'.history == s.history
    // the distance history gains the updated table's snapshot, capped at 50
    ensures |s'.distanceHistory|
      == (if |s.distanceHistory| < DistanceHistoryLimit then |s.distanceHistory| + 1 else DistanceHistoryLimit)
    ensures s'.distanceHistory[|s'.distanceHistory| - 1] == Snapshot(s'.readings, now)
    ensures s'.distanceHistory[..|s'.distanceHistory| - 1]
      == s.distanceHistory[|s.distanceHistory| - (|s'.distanceHistory| - 1)..]
  {
    var next := Upsert(s.readings, reading);
    var distanceHistory := PushCapped(s.distanceHistory, Snapshot(next, now), DistanceHistoryLimit);
    match fix
    case None => s.(readings := next, distanceHistory := distanceHistory)
    case Some(raw) =>
      State(
        next,
        Some(SmoothPosition(s.position, raw.Position())),
        SmoothError(s.error, raw.error),
        PushCapped(s.history, HistoryPoint(raw.x, raw.y, now), PositionHistoryLimit),
        distanceHistory)
  }

  /** The position filter, for any state that took one filter step with the fix `raw`, written out per axis. */
  lemma PositionFilterFormula(s: State, raw: Estimate, s': State)
    requires s'.position == Some(SmoothPosition(s.position, raw.Position()))
    ensures s.position.None? ==> s'.position == Some(raw.Position())
    ensures s.position.Some? ==>
      var p := s.position.value;
      s'.position == Some(Coordinate(p.x + 0.15 * (raw.x - p.x), p.y + 0.15 * (raw.y - p.y)))
  {
  }

  /** The error filter, for any state that took one filter step with the fix `raw`. */
  lemma ErrorFilterFormula(s: State, raw: Estimate, s': State)
    requires s'.error == SmoothError(s.error, raw.error)
    ensures s'.error == s.error + 0.1 * (raw.error - s.error)
  {
  }

  /**
   `handleNewReading` as one atomic step, with `Date.now()` as `now` and
   `Math.sqrt` as `sqrt`.
   */
  function Ingest(s: State, reading: Reading, now: int, sqrt: SquareRoot): (s': State)
    // last write wins on the table
    ensures s'.readings == Upsert(s.readings, reading)
    // the distance history always gains the new table's snapshot
    ensures |s'.distanceHistory|
      == (if |s.distanceHistory| < DistanceHistoryLimit then |s.distanceHistory| + 1 else DistanceHistoryLimit)
    ensures s'.distanceHistory[|s'.distanceHistory| - 1] == Snapshot(s'.readings, now)
    ensures s'.distanceHistory[..|s'.distanceHistory| - 1]
      == s.distanceHistory[|s.distanceHistory| - (|s'.distanceHistory| - 1)..]
  {
    Step(s, reading, now, Solve(Upsert(s.readings, reading), sqrt))
  }

  /** The reading subscription callback: normalise the inserted row, stamp it with `now`, ingest it. */
  function IngestPayload(s: State, payload: Payload, now: int, sqrt: SquareRoot): (s': State)
    ensures payload.anchorId in s'.readings
    ensures s'.readings[payload.anchorId] == Reading(payload.anchorId, NormaliseDistance(payload.distanceCm, payload.distance), payload.rssi, now)
  {
    Ingest(s, FromPayload(payload, now), now, sqrt)
  }

  /**
   The table after upserting a batch in order: no anchor leaves it, every
   anchor of the batch is in it, and the batch's last reading wins.
   */
  function UpsertAll(t: Table, batch: seq<Reading>): (t': Table)
    ensures forall k :: k in t ==> k in t'
    ensures forall i :: 0 <= i < |batch| ==> batch[i].anchorId in t'
    ensures batch != [] ==> t'[batch[|batch| - 1].anchorId] == batch[|batch| - 1]
    decreases |batch|
  {
    if batch == [] then t
    else
      assert forall i :: 1 <= i < |batch| ==> batch[i] == batch[1..][i - 1];
      UpsertAll(Upsert(t, batch[0]), batch[1..])
  }

  /**
   Every anchor of a batch ends up holding its last reading in the batch, an
   entry outside the batch keeps its reading, and no key appears that is in
   neither the table nor the batch.
   */
  lemma {:induction false} UpsertAllLastWins(t: Table, batch: seq<Reading>)
    ensures forall i :: (0 <= i < |batch| && (forall j :: i < j < |batch| ==> batch[j].anchorId != batch[i].anchorId)
                         ==> UpsertAll(t, batch)[batch[i].anchorId] == batch[i])
    ensures forall k :: (k in t && (forall i :: 0 <= i < |batch| ==> batch[i].anchorId != k)
                         ==> UpsertAll(t, batch)[k] == t[k])
    ensures forall k :: k in UpsertAll(t, batch) ==> k in t || exists i :: 0 <= i < |batch| && batch[i].anchorId == k
    decreases |batch|
  {
    if batch != [] {
      var t1 := Upsert(t, batch[0]);
      UpsertAllLastWins(t1, batch[1..]);
      assert forall i :: 1 <= i < |batch| ==> batch[i] == batch[1..][i - 1];
      forall k | k in UpsertAll(t, batch)
        ensures k in t || exists i :: 0 <= i < |batch| && batch[i].anchorId == k
      {
        if k !in t1 {
          var i :| 0 <= i < |batch[1..]| && batch[1..][i].anchorId == k;
          assert batch[i + 1].anchorId == k;
        }
      }
    }
  }

  /** A demo tick: every reading of one simulated batch, ingested in order, all at time `now`. */
  function IngestAll(s: State, batch: seq<Reading>, now: int, sqrt: SquareRoot): (s': State)
    ensures s'.readings == UpsertAll(s.readings, batch)
    decreases |batch|
  {
    if batch == [] then s else IngestAll(Ingest(s, batch[0], now, sqrt), batch[1..], now, sqrt)
  }

  /*** Invariants of the aggregator ***/

  /** Every logged fix lies inside the field. */
  ghost predicate HistoryInField(h: seq<HistoryPoint>) {
    forall i :: 0 <= i < |h| ==> InField(Coordinate(h[i].x, h[i].y))
  }

  /**
   What every reachable state satisfies: bounded histories, a non-negative
   error, and a smoothed position and logged fixes inside the field.
   */
  ghost predicate Good(s: State) {
    && |s.history| <= PositionHistoryLimit
    && |s.distanceHistory| <= DistanceHistoryLimit
    && s.error >= 0.0
    && (s.position.Some? ==> InField(s.position.value))
    && HistoryInField(s.history)
  }

  lemma InitialIsGood()
    ensures Good(Initial)
  {
  }

  /** Logging a fix inside the field keeps every logged fix inside the field. */
  lemma PushKeepsHistoryInField(h: seq<HistoryPoint>, x: HistoryPoint)
    requires HistoryInField(h)
    requires InField(Coordinate(x.x, x.y))
    ensures HistoryInField(PushCapped(h, x, PositionHistoryLimit))
  {
    var all := h + [x];
    var h' := PushCapped(h, x, PositionHistoryLimit);
    assert h' == all[|all| - |h'|..];
    forall i | 0 <= i < |h'|
      ensures InField(Coordinate(h'[i].x, h'[i].y))
    {
      var k := |all| - |h'| + i;
      assert h'[i] == all[k];
      if k < |h| {
        assert all[k] == h[k];
      }
    }
  }

  /** One step keeps the invariant, for any fix the solver can return. */
  lemma StepPreservesGood(s: State, reading: Reading, now: int, fix: Option<Estimate>)
    requires Good(s)
    requires fix.Some? ==> InField(fix.value.Position()) && fix.value.error >= 0.0
    ensures Good(Step(s, reading, now, fix))
  {
    if fix.Some? {
      var raw := fix.value;
      PushKeepsHistoryInField(s.history, HistoryPoint(raw.x, raw.y, now));
      assert SmoothError(s.error, raw.error) >= 0.0;
    }
  }

  /** One ingest keeps the invariant. */
  lemma IngestPreservesGood(s: State, reading: Reading, now: int, sqrt: SquareRoot)
    requires Good(s)
    ensures Good(Ingest(s, reading, now, sqrt))
  {
    StepPreservesGood(s, reading, now, Solve(Upsert(s.readings, reading), sqrt));
  }

  /** Any batch of ingests keeps the invariant. */
  lemma {:induction false} IngestAllPreservesGood(s: State, batch: seq<Reading>, now: int, sqrt: SquareRoot)
    requires Good(s)
    ensures Good(IngestAll(s, batch, now, sqrt))
    decreases |batch|
  {
    if batch != [] {
      var s1 := Ingest(s, batch[0], now, sqrt);
      IngestPreservesGood(s, batch[0], now, sqrt);
      IngestAllPreservesGood(s1, batch[1..], now, sqrt);
    }
  }

  /**
   With a fix and a previous position, each axis of the smoothed position
   moves by 0.15 of its gap to the fix.
   */
  lemma FilterStep(s: State, reading: Reading, now: int, sqrt: SquareRoot, raw: Estimate)
    requires s.position.Some?
    requires Solve(Upsert(s.readings, reading), sqrt) == Some(raw)
    ensures
      var s', p := Ingest(s, reading, now, sqrt), s.position.value;
      s'.position == Some(Coordinate(p.x + 0.15 * (raw.x - p.x), p.y + 0.15 * (raw.y - p.y)))
  {
    var s' := Ingest(s, reading, now, sqrt);
    assert s' == Step(s, reading, now, Some(raw));
    PositionFilterFormula(s, raw, s');
  }


  /**
   With a fix, the smoothed error moves by 0.1 of its gap to the fix's error,
   whether or not there was a position before.
   */
  lemma ErrorFilterStep(s: State, reading: Reading, now: int, sqrt: SquareRoot)
    ensures
      var fix, s' := Solve(Upsert(s.readings, reading), sqrt), Ingest(s, reading, now, sqrt);
      fix.Some? ==> s'.error == s.error + 0.1 * (fix.value.error - s.error)
  {
    var fix, s' := Solve(Upsert(s.readings, reading), sqrt), Ingest(s, reading, now, sqrt);
    if fix.Some? {
      assert s' == Step(s, reading, now, fix);
      ErrorFilterFormula(s, fix.value, s');
    }
  }

  /**
   The error is seeded at 0 rather than taken from the first fix, so the first
   fix only brings it to a tenth of that fix's error.
   */
  lemma FirstFixError(s: State, reading: Reading, now: int, sqrt: SquareRoot)
    requires s.position.None?
    requires s.error == 0.0
    ensures
      var fix, s' := Solve(Upsert(s.readings, reading), sqrt), Ingest(s, reading, now, sqrt);
      fix.Some? ==> s'.position == Some(fix.value.Position()) && s'.error == fix.value.error / 10.0
  {
    var fix, s' := Solve(Upsert(s.readings, reading), sqrt), Ingest(s, reading, now, sqrt);
    if fix.Some? {
      assert s' == Step(s, reading, now, fix);
      PositionFilterFormula(s, fix.value, s');
      ErrorFilterFormula(s, fix.value, s');
    }
  }

  /** The smoothed error always lies between the previous smoothed error and the fix's error. */
  lemma ErrorBetweenPreviousAndFix(s: State, reading: Reading, now: int, sqrt: SquareRoot)
    ensures
      var fix, e := Solve(Upsert(s.readings, reading), sqrt), Ingest(s, reading, now, sqrt).error;
      fix.Some? ==> (s.error <= e <= fix.value.error) || (fix.value.error <= e <= s.error)
  {
    var fix, s' := Solve(Upsert(s.readings, reading), sqrt), Ingest(s, reading, now, sqrt);
    if fix.Some? {
      assert s' == Step(s, reading, now, fix);
    }
  }

  /** A fix equal to the smoothed position leaves the position where it is: the filter does not drift. */
  lemma NoDriftAtFixedPoint(s: State, reading: Reading, now: int, sqrt: SquareRoot)
    ensures
      var fix := Solve(Upsert(s.readings, reading), sqrt);
      fix.Some? && s.position == Some(fix.value.Position()) ==> Ingest(s, reading, now, sqrt).position == s.position
  {
    var fix, s' := Solve(Upsert(s.readings, reading), sqrt), Ingest(s, reading, now, sqrt);
    if fix.Some? {
      assert s' == Step(s, reading, now, fix);
    }
  }

  /**
   Ingesting the same reading twice leaves the table as after the first time,
   so the second step solves the same table to the same fix.
   */
  lemma RepeatedReadingSameFix(s: State, reading: Reading, now: int, later: int, sqrt: SquareRoot)
    ensures
      var s1 := Ingest(s, reading, now, sqrt);
      var s2 := Ingest(s1, reading, later, sqrt);
      && s2.readings == s1.readings
      && Solve(s2.readings, sqrt) == Solve(s1.readings, sqrt)
  {
    UpsertAgain(s.readings, reading);
  }

  /** Upserting a reading the table already holds under its id leaves the table as it is. */
  lemma UpsertAgain(t: Table, reading: Reading)
    ensures Upsert(Upsert(t, reading), reading) == Upsert(t, reading)
  {
  }

  /** Without a fix, the smoothed position, the smoothed error and the position history stand. */
  lemma IngestWithoutFix(s: State, reading: Reading, now: int, sqrt: SquareRoot)
    requires Solve(Upsert(s.readings, reading), sqrt).None?
    ensures
      var s' := Ingest(s, reading, now, sqrt);
      s'.position == s.position && s'.error == s.error && s'.history == s.history
  {
    assert Ingest(s, reading, now, sqrt) == Step(s, reading, now, None);
  }

  /**
   With a fix, the first smoothed position is the fix itself, a later one is
   never withdrawn, and the raw fix (not the smoothed one) is logged last in a
   history of at most 100 points whose earlier points are the newest of the
   old history.
   */
  lemma IngestWithFix(s: State, reading: Reading, now: int, sqrt: SquareRoot)
    ensures
      var fix, s' := Solve(Upsert(s.readings, reading), sqrt), Ingest(s, reading, now, sqrt);
      fix.Some? ==>
        var raw := fix.value;
        && s'.position.Some?
        && (s.position.None? ==> s'.position == Some(raw.Position()))
        && |s'.history| == (if |s.history| < PositionHistoryLimit then |s.history| + 1 else PositionHistoryLimit)
        && s'.history[|s'.history| - 1] == HistoryPoint(raw.x, raw.y, now)
        && s'.history[..|s'.history| - 1] == s.history[|s.history| - (|s'.history| - 1)..]
  {
    var fix, s' := Solve(Upsert(s.readings, reading), sqrt), Ingest(s, reading, now, sqrt);
    if fix.Some? {
      assert s' == Step(s, reading, now, fix);
      LoggedFix(s, fix.value, now, s');
    }
  }

  /** `IngestWithFix`, for any state that took one filter step with the fix `raw` logged at `now`. */
  lemma LoggedFix(s: State, raw: Estimate, now: int, s': State)
    requires s'.position == Some(SmoothPosition(s.position, raw.Position()))
    requires s'.history == PushCapped(s.history, HistoryPoint(raw.x, raw.y, now), PositionHistoryLimit)
    ensures
      && s'.position.Some?
      && (s.position.None? ==> s'.position == Some(raw.Position()))
      && |s'.history| == (if |s.history| < PositionHistoryLimit then |s.history| + 1 else PositionHistoryLimit)
      && s'.history[|s'.history| - 1] == HistoryPoint(raw.x, raw.y, now)
      && s'.history[..|s'.history| - 1] == s.history[|s.history| - (|s'.history| - 1)..]
  {
  }
}
