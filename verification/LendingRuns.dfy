/** Many positions' events interleaved through one snapshot log (src/soroban.rs,
    src/db/lending.rs): every event reads its position's most recent row, whichever
    the query returns, and appends the next. */
module LendingRuns {
  import opened Wrappers
  import opened AlertRules
  import opened SnapshotLog
  import opened LendingPositions

  type PositionRow = Row<PositionKey, Position>

  function ValueOf(row: Option<PositionRow>): Option<Position> {
    if row.Some? then Some(row.value.value) else None
  }

  /** The row an event appends after reading `latest`. */
  function RowFor(prices: Prices, latest: Option<PositionRow>, e: Event): PositionRow {
    Row(e.key, e.time, Apply(prices, ValueOf(latest), e))
  }

  /** `log` is one that the processed events may have written. */
  ghost predicate IsRun(prices: Prices, events: seq<Event>, log: seq<PositionRow>) {
    && |log| == |events|
    && forall n :: 0 <= n < |log| ==> Follows(prices, log[..n], events[n], log[n])
  }

  ghost predicate Follows(prices: Prices, log: seq<PositionRow>, e: Event, row: PositionRow) {
    exists latest :: IsLatest(log, e.key, latest) && row == RowFor(prices, latest, e)
  }

  /** One position's own events among the first `n`. */
  function Sub(events: seq<Event>, n: nat, key: PositionKey): seq<Event>
    requires n <= |events|
  {
    if n == 0 then []
    else if events[n - 1].key == key then Sub(events, n - 1, key) + [events[n - 1]]
    else Sub(events, n - 1, key)
  }

  /** What the position's own stream, taken alone, leaves on record. */
  function LastRow(prices: Prices, events: seq<Event>, n: nat, key: PositionKey): Option<PositionRow>
    requires n <= |events|
  {
    var own := Sub(events, n, key);
    if own == [] then None else Some(Row(key, own[|own| - 1].time, Fold(prices, own).value))
  }

  /** At every point of the run, the only row any position's read can return is the
      one its own stream leaves. */
  ghost predicate ReadsBack(prices: Prices, events: seq<Event>, log: seq<PositionRow>) {
    forall n: nat, key, latest :: n <= |events| == |log| && IsLatest(log[..n], key, latest) ==>
      latest == LastRow(prices, events, n, key)
  }

  /** Each position's events carry strictly increasing times. */
  ghost predicate Increasing(events: seq<Event>) {
    forall i, j :: 0 <= i < j < |events| && events[i].key == events[j].key ==> events[i].time < events[j].time
  }

  lemma OwnRow(prices: Prices, events: seq<Event>, n: nat)
    requires n < |events|
    ensures LastRow(prices, events, n + 1, events[n].key)
            == Some(RowFor(prices, LastRow(prices, events, n, events[n].key), events[n]))
    ensures forall key :: key != events[n].key ==>
              LastRow(prices, events, n + 1, key) == LastRow(prices, events, n, key)
  {
    hide Apply;
    var e := events[n];
    var own := Sub(events, n, e.key);
    assert (own + [e])[..|own|] == own;
    assert Fold(prices, own) == ValueOf(LastRow(prices, events, n, e.key));
  }

  lemma StampsKept(prices: Prices, events: seq<Event>, log: seq<PositionRow>)
    requires IsRun(prices, events, log)
    ensures forall i :: 0 <= i < |log| ==> log[i].key == events[i].key && log[i].time == events[i].time
  {
    forall i | 0 <= i < |log|
      ensures log[i].key == events[i].key && log[i].time == events[i].time
    {
      assert Follows(prices, log[..i], events[i], log[i]);
    }
  }

  lemma OlderRows(prices: Prices, events: seq<Event>, log: seq<PositionRow>, n: nat)
    requires IsRun(prices, events, log) && Increasing(events) && n < |log|
    ensures forall r :: r in log[..n] && r.key == log[n].key ==> r.time < log[n].time
    ensures log[n].key == events[n].key
  {
    StampsKept(prices, events, log);
  }

  lemma {:induction false} RunReadsBackAt(
      prices: Prices, events: seq<Event>, log: seq<PositionRow>, n: nat, key: PositionKey, latest: Option<PositionRow>)
    requires IsRun(prices, events, log) && Increasing(events) && n <= |log|
    ensures IsLatest(log[..n], key, latest) <==> latest == LastRow(prices, events, n, key)
    decreases n, 1
  {
    hide LastRow, Follows, RowFor, Increasing;
    if n == 0 {
      NothingYet(prices, events, key);
    } else {
      var front, row := log[..n - 1], log[n - 1];
      assert log[..n] == front + [row];
      OlderRows(prices, events, log, n - 1);
      AppendNewest(front, row, key, latest);
      RunReadsBackAt(prices, events, log, n - 1, key, latest);
      NextRow(prices, events, log, n - 1);
      OwnRow(prices, events, n - 1);
    }
  }

  /** Each new row continues its position's own stream. */
  lemma {:induction false} NextRow(prices: Prices, events: seq<Event>, log: seq<PositionRow>, n: nat)
    requires IsRun(prices, events, log) && Increasing(events) && n < |log|
    ensures log[n] == RowFor(prices, LastRow(prices, events, n, events[n].key), events[n])
    decreases n, 2
  {
    hide LastRow, RowFor, IsLatest, Increasing;
    var e := events[n];
    assert Follows(prices, log[..n], e, log[n]);
    var read :| IsLatest(log[..n], e.key, read) && log[n] == RowFor(prices, read, e);
    RunReadsBackAt(prices, events, log, n, e.key, read);
  }

  lemma NothingYet(prices: Prices, events: seq<Event>, key: PositionKey)
    ensures LastRow(prices, events, 0, key) == None
  {
  }

  /** With increasing times, interleaving is invisible: each position's row, at
      every point, is what its own stream alone would have left. */
  lemma InterleavingIsInvisible(prices: Prices, events: seq<Event>, log: seq<PositionRow>)
    requires IsRun(prices, events, log) && Increasing(events)
    ensures ReadsBack(prices, events, log)
  {
    forall n: nat, key, latest | n <= |events| == |log| && IsLatest(log[..n], key, latest)
      ensures latest == LastRow(prices, events, n, key)
    {
      RunReadsBackAt(prices, events, log, n, key, latest);
    }
  }

  // ---- the condition is exact ----

  /** A position and a time per event: what the log's order of reads depends on. */
  type Stamps = seq<(PositionKey, int)>

  ghost predicate Matches(events: seq<Event>, stamps: Stamps) {
    && |events| == |stamps|
    && forall i :: 0 <= i < |stamps| ==> (events[i].key, events[i].time) == stamps[i]
  }

  ghost predicate IncreasingStamps(stamps: Stamps) {
    forall i, j :: 0 <= i < j < |stamps| && stamps[i].0 == stamps[j].0 ==> stamps[i].1 < stamps[j].1
  }

  /** A run always exists. */
  function SomeRun(prices: Prices, events: seq<Event>): seq<PositionRow> {
    if events == [] then []
    else
      var front, last := SomeRun(prices, events[..|events| - 1]), events[|events| - 1];
      front + [RowFor(prices, PickLatest(front, last.key), last)]
  }

  lemma ExtendRun(prices: Prices, before: seq<Event>, front: seq<PositionRow>, e: Event, latest: Option<PositionRow>)
    requires IsRun(prices, before, front) && IsLatest(front, e.key, latest)
    ensures IsRun(prices, before + [e], front + [RowFor(prices, latest, e)])
  {
    hide RowFor, IsLatest;
    var log := front + [RowFor(prices, latest, e)];
    forall n | 0 <= n < |log|
      ensures Follows(prices, log[..n], (before + [e])[n], log[n])
    {
      if n < |front| {
        assert log[..n] == front[..n] && Follows(prices, front[..n], before[n], front[n]);
      } else {
        assert log[..n] == front;
      }
    }
  }

  lemma {:induction false} SomeRunIsRun(prices: Prices, events: seq<Event>)
    ensures IsRun(prices, events, SomeRun(prices, events))
  {
    hide RowFor, IsLatest;
    if events != [] {
      var before, last := events[..|events| - 1], events[|events| - 1];
      SomeRunIsRun(prices, before);
      ExtendRun(prices, before, SomeRun(prices, before), last, PickLatest(SomeRun(prices, before), last.key));
      assert before + [last] == events;
    }
  }

  /** Borrows of nothing on every stamp, except one of 1 at event `n`. */
  function OneBorrow(stamps: Stamps, n: nat): seq<Event> {
    seq(|stamps|, i requires 0 <= i < |stamps| =>
      Event(stamps[i].0, stamps[i].1, Borrow, "unknown", if i == n then 1.0 else 0.0))
  }

  ghost predicate NoDebt(log: seq<PositionRow>) {
    forall r :: r in log ==> r.value.debt == 0.0
  }

  lemma {:induction false} NoDebtBefore(prices: Prices, events: seq<Event>, log: seq<PositionRow>, n: nat)
    requires IsRun(prices, events, log) && n <= |log|
    requires forall i :: 0 <= i < n ==> events[i].kind == Borrow && events[i].amount == 0.0
    ensures NoDebt(log[..n])
  {
    hide Follows;
    if n > 0 {
      NoDebtBefore(prices, events, log, n - 1);
      assert log[..n] == log[..n - 1] + [log[n - 1]];
      NoDebtStep(prices, log[..n - 1], events[n - 1], log[n - 1]);
    }
  }

  lemma NoDebtStep(prices: Prices, front: seq<PositionRow>, e: Event, row: PositionRow)
    requires NoDebt(front) && Follows(prices, front, e, row) && e.kind == Borrow && e.amount == 0.0
    ensures row.value.debt == 0.0
  {
    hide Apply;
    var latest :| IsLatest(front, e.key, latest) && row == RowFor(prices, latest, e);
    ApplyHeld(prices, DebtSide, ValueOf(latest), e);
  }

  lemma {:induction false} OwnDebtIsNone(prices: Prices, events: seq<Event>, n: nat, key: PositionKey)
    requires n <= |events|
    requires forall i :: 0 <= i < n ==> events[i].kind == Borrow && events[i].amount == 0.0
    ensures DebtSide.Held(ValueOf(LastRow(prices, events, n, key))) == 0.0
  {
    hide Apply, LastRow;
    if n == 0 {
      NothingYet(prices, events, key);
    } else {
      OwnDebtIsNone(prices, events, n - 1, key);
      OwnRow(prices, events, n - 1);
      ApplyHeld(prices, DebtSide, ValueOf(LastRow(prices, events, n - 1, events[n - 1].key)), events[n - 1]);
    }
  }

  /** Two events of one position, the later stamped no later than the earlier, and
      the read can return an earlier row: the later event is lost to it. */
  lemma TieReadsEarlier(prices: Prices, stamps: Stamps, m: nat, n: nat, log: seq<PositionRow>)
    returns (read: Option<PositionRow>)
    requires m < n < |stamps| && stamps[m].0 == stamps[n].0 && stamps[n].1 <= stamps[m].1
    requires IsRun(prices, OneBorrow(stamps, n), log)
    ensures IsLatest(log[..n + 1], stamps[n].0, read) && DebtSide.Held(ValueOf(read)) == 0.0
  {
    hide Apply, Follows;
    var events, key := OneBorrow(stamps, n), stamps[n].0;
    StampsKept(prices, events, log);
    NoDebtBefore(prices, events, log, n);
    var front := log[..n];
    assert log[m] in front && log[m].key == key;
    read := PickLatest(front, key);
    assert log[..n + 1] == front + [log[n]];
  }

  lemma TieLosesAnEvent(prices: Prices, stamps: Stamps, m: nat, n: nat)
    requires m < n < |stamps| && stamps[m].0 == stamps[n].0 && stamps[n].1 <= stamps[m].1
    ensures var events := OneBorrow(stamps, n);
            Matches(events, stamps) && exists log :: IsRun(prices, events, log) && !ReadsBack(prices, events, log)
  {
    hide Apply, LastRow, SomeRun, Follows;
    var events := OneBorrow(stamps, n);
    var log, key := SomeRun(prices, events), stamps[n].0;
    SomeRunIsRun(prices, events);
    var read := TieReadsEarlier(prices, stamps, m, n, log);
    OwnRow(prices, events, n);
    OwnDebtIsNone(prices, events, n, key);
    ApplyHeld(prices, DebtSide, ValueOf(LastRow(prices, events, n, key)), events[n]);
    assert DebtSide.Held(ValueOf(LastRow(prices, events, n + 1, key))) == 1.0;
  }

  /** The read-back is right for all events that may carry these stamps exactly when
      each position's stamps strictly increase. Events of one ledger share their
      closing time, so the condition can fail. */
  lemma ReadBackExact(prices: Prices, stamps: Stamps)
    ensures (forall events, log ::
               Matches(events, stamps) && IsRun(prices, events, log) ==> ReadsBack(prices, events, log))
            <==> IncreasingStamps(stamps)
  {
    hide IsRun, ReadsBack;
    if IncreasingStamps(stamps) {
      forall events, log | Matches(events, stamps) && IsRun(prices, events, log)
        ensures ReadsBack(prices, events, log)
      {
        InterleavingIsInvisible(prices, events, log);
      }
    } else {
      var m, n :| 0 <= m < n < |stamps| && stamps[m].0 == stamps[n].0 && stamps[n].1 <= stamps[m].1;
      TieLosesAnEvent(prices, stamps, m, n);
    }
  }

  // ---- what alerts depend on ----

  /** What the read and the new row hold, in terms of the position's own stream. */
  lemma OwnValues(prices: Prices, events: seq<Event>, log: seq<PositionRow>, n: nat, latest: Option<PositionRow>)
    requires IsRun(prices, events, log) && Increasing(events) && n < |log|
    requires IsLatest(log[..n], events[n].key, latest)
    ensures ValueOf(latest) == Fold(prices, Sub(events, n, events[n].key))
    ensures Some(log[n].value) == Fold(prices, Sub(events, n + 1, events[n].key))
  {
    hide Apply, IsLatest, Fold, Sub;
    var key := events[n].key;
    RunReadsBackAt(prices, events, log, n, key, latest);
    NextRow(prices, events, log, n);
    OwnRow(prices, events, n);
    FoldOfNone(prices);
  }

  /** In such a run, whatever row the read returns, an alert is detected exactly
      where the position's own stream escalates. */
  lemma AlertsMatchOwnStream(prices: Prices, bands: LtvBands, events: seq<Event>, log: seq<PositionRow>, n: nat,
                             latest: Option<PositionRow>)
    requires IsRun(prices, events, log) && Increasing(events) && n < |log|
    requires IsLatest(log[..n], events[n].key, latest)
    ensures var own := Sub(events, n + 1, events[n].key);
            && own != []
            && (Detects(LevelOf(bands, ValueOf(latest)), LevelOf(bands, Some(log[n].value)))
                <==> EscalatesAt(prices, bands, own, |own| - 1))
  {
    hide LevelOf, Detects, Fold, Increasing, IsLatest, ValueOf;
    OwnValues(prices, events, log, n, latest);
    var before, own := Sub(events, n, events[n].key), Sub(events, n + 1, events[n].key);
    assert own[..|own| - 1] == before && own[..|own|] == own;
  }

  lemma FoldOfNone(prices: Prices)
    ensures Fold(prices, []) == None
    ensures forall es: seq<Event> :: es != [] ==> Fold(prices, es).Some?
  {
  }
}
