/** The dashboard's risk summary (src/db/lending.rs): each position's most recent
    row, grouped by risk band. */
module RiskSummary {
  import opened Wrappers
  import opened AlertRules
  import opened SnapshotLog
  import opened LendingPositions
  import opened LendingRuns

  datatype Bucket = Bucket(positions: nat, debt: real)

  const EMPTY := Bucket(0, 0.0)

  /** `rows` answers `DISTINCT ON (key) .. ORDER BY key, time DESC`. */
  ghost predicate IsDistinctLatest(log: seq<PositionRow>, rows: seq<PositionRow>) {
    && OnePerKey(rows)
    && (forall r :: r in rows ==> IsLatest(log, r.key, Some(r)))
    && (forall r :: r in log ==> exists s :: s in rows && s.key == r.key)
  }

  ghost predicate OnePerKey(rows: seq<PositionRow>) {
    forall i, j :: 0 <= i < j < |rows| ==> rows[i].key != rows[j].key
  }

  /** The query's CASE over its three bound cutoffs. */
  function SqlBand(ltv: real, medium: real, high: real, critical: real): RiskLevel {
    if ltv >= critical then Critical else if ltv >= high then High else if ltv >= medium then Medium else Low
  }

  predicate Falls(row: PositionRow, bands: LtvBands, level: RiskLevel) {
    row.value.ltv.Some? && SqlBand(row.value.ltv.value, bands.medium, bands.high, bands.critical) == level
  }

  function FallsIn(bands: LtvBands, level: RiskLevel): PositionRow -> bool {
    (row: PositionRow) => Falls(row, bands, level)
  }

  function LtvKnown(): PositionRow -> bool {
    (row: PositionRow) => row.value.ltv.Some?
  }

  /** COUNT and SUM over the rows a test picks. */
  function Tally(rows: seq<PositionRow>, picked: PositionRow -> bool): Bucket {
    if rows == [] then EMPTY
    else
      var rest, last := Tally(rows[..|rows| - 1], picked), rows[|rows| - 1];
      if picked(last) then Bucket(rest.positions + 1, rest.debt + last.value.debt) else rest
  }

  /** The groups the query returns: those with at least one position. */
  function Summary(rows: seq<PositionRow>, bands: LtvBands): map<RiskLevel, Bucket> {
    map level | level in {Low, Medium, High, Critical} && Tally(rows, FallsIn(bands, level)).positions > 0
      :: Tally(rows, FallsIn(bands, level))
  }

  function At(summary: map<RiskLevel, Bucket>, level: RiskLevel): Bucket {
    if level in summary then summary[level] else EMPTY
  }

  lemma {:induction false} NoPositionsNoDebt(rows: seq<PositionRow>, picked: PositionRow -> bool)
    ensures Tally(rows, picked).positions == 0 ==> Tally(rows, picked) == EMPTY
  {
    if rows != [] {
      NoPositionsNoDebt(rows[..|rows| - 1], picked);
    }
  }

  lemma GroupIsTally(rows: seq<PositionRow>, bands: LtvBands, level: RiskLevel)
    ensures At(Summary(rows, bands), level) == Tally(rows, FallsIn(bands, level))
    ensures level in Summary(rows, bands) <==> Tally(rows, FallsIn(bands, level)).positions != 0
  {
    hide Tally;
    NoPositionsNoDebt(rows, FallsIn(bands, level));
    match level case Low => case Medium => case High => case Critical =>
  }

  /** The four groups taken together. */
  function Sum(s: map<RiskLevel, Bucket>): Bucket {
    Bucket(At(s, Low).positions + At(s, Medium).positions + At(s, High).positions + At(s, Critical).positions,
           At(s, Low).debt + At(s, Medium).debt + At(s, High).debt + At(s, Critical).debt)
  }

  lemma {:induction false} TalliesAddUp(rows: seq<PositionRow>, bands: LtvBands)
    ensures var (low, medium, high, critical) :=
              (Tally(rows, FallsIn(bands, Low)), Tally(rows, FallsIn(bands, Medium)),
               Tally(rows, FallsIn(bands, High)), Tally(rows, FallsIn(bands, Critical)));
            && low.positions + medium.positions + high.positions + critical.positions
               == Tally(rows, LtvKnown()).positions
            && low.debt + medium.debt + high.debt + critical.debt == Tally(rows, LtvKnown()).debt
  {
    if rows != [] {
      TalliesAddUp(rows[..|rows| - 1], bands);
    }
  }

  /** Over any rows, the groups leave none with a known LTV out and count none twice. */
  lemma GroupsAddUp(rows: seq<PositionRow>, bands: LtvBands)
    ensures Sum(Summary(rows, bands)) == Tally(rows, LtvKnown())
  {
    hide Tally, Summary, At;
    GroupIsTally(rows, bands, Low);
    GroupIsTally(rows, bands, Medium);
    GroupIsTally(rows, bands, High);
    GroupIsTally(rows, bands, Critical);
    TalliesAddUp(rows, bands);
  }

  /** The query's CASE and the alerting's band test agree. */
  lemma FallsIsLevel(row: PositionRow, bands: LtvBands, level: RiskLevel)
    ensures Falls(row, bands, level) <==> LevelOf(bands, Some(row.value)) == Some(level)
  {
  }

  // ---- the summary and the positions of a run ----

  /** What a position's own stream, taken alone, leaves of it. */
  ghost function Own(prices: Prices, events: seq<Event>, key: PositionKey): Option<Position> {
    Fold(prices, Sub(events, |events|, key))
  }

  /** The positions that the alerting state machine, run on each position's own
      stream, has at `level`. */
  ghost function StreamsAt(prices: Prices, bands: LtvBands, events: seq<Event>, level: RiskLevel): set<PositionKey> {
    set e | e in events && LevelOf(bands, Own(prices, events, e.key)) == Some(level) :: e.key
  }

  /** The positions whose own stream leaves a known LTV. */
  ghost function StreamsWithLtv(prices: Prices, events: seq<Event>): set<PositionKey> {
    set e | e in events && Own(prices, events, e.key).Some? && Own(prices, events, e.key).value.ltv.Some? :: e.key
  }

  /** The debt that the streams of these positions leave in all. */
  ghost function TotalDebt(prices: Prices, events: seq<Event>, keys: set<PositionKey>): real {
    if keys == {} then 0.0
    else
      var key :| key in keys;
      TotalDebt(prices, events, keys - {key}) + DebtSide.Held(Own(prices, events, key))
  }

  /** The total does not depend on the order of adding up. */
  lemma {:induction false} TotalDebtWith(prices: Prices, events: seq<Event>, keys: set<PositionKey>, key: PositionKey)
    requires key !in keys
    ensures TotalDebt(prices, events, keys + {key})
            == TotalDebt(prices, events, keys) + DebtSide.Held(Own(prices, events, key))
    decreases keys
  {
    hide Own;
    var all := keys + {key};
    var first :| first in all && TotalDebt(prices, events, all)
                                 == TotalDebt(prices, events, all - {first})
                                    + DebtSide.Held(Own(prices, events, first));
    if first == key {
      assert all - {first} == keys;
    } else {
      var fewer := keys - {first};
      assert all - {first} == fewer + {key} && fewer + {first} == keys;
      TotalDebtWith(prices, events, fewer, key);
      TotalDebtWith(prices, events, fewer, first);
    }
  }

  ghost function KeysWhere(rows: seq<PositionRow>, picked: PositionRow -> bool): set<PositionKey> {
    set r | r in rows && picked(r) :: r.key
  }

  lemma KeysOneMore(front: seq<PositionRow>, last: PositionRow, picked: PositionRow -> bool)
    requires OnePerKey(front + [last])
    ensures last.key !in KeysWhere(front, picked)
    ensures KeysWhere(front + [last], picked)
            == if picked(last) then KeysWhere(front, picked) + {last.key} else KeysWhere(front, picked)
  {
    var rows := front + [last];
    assert forall r :: r in rows <==> r in front || r == last;
    forall r | r in front
      ensures r.key != last.key
    {
      var i :| 0 <= i < |front| && front[i] == r;
      assert rows[i] == r && rows[|front|] == last;
    }
  }

  /** The rows hold what the positions' own streams left. */
  ghost predicate HoldOwn(prices: Prices, events: seq<Event>, rows: seq<PositionRow>) {
    forall r :: r in rows ==> Some(r.value) == Own(prices, events, r.key)
  }

  /** Over one row per position, counting rows and adding up their debts is counting
      positions and adding up what their streams owe. */
  lemma {:induction false} TallyOfPositions(prices: Prices, events: seq<Event>, rows: seq<PositionRow>,
                                            picked: PositionRow -> bool)
    requires OnePerKey(rows) && HoldOwn(prices, events, rows)
    ensures var keys := KeysWhere(rows, picked);
            Tally(rows, picked) == Bucket(|keys|, TotalDebt(prices, events, keys))
  {
    hide Own;
    if rows == [] {
      assert KeysWhere(rows, picked) == {};
    } else {
      var front, last := rows[..|rows| - 1], rows[|rows| - 1];
      TallyOfPositions(prices, events, front, picked);
      assert rows == front + [last] && last in rows;
      TallyOfOneMore(prices, events, front, last, picked);
    }
  }

  lemma TallyOfOneMore(prices: Prices, events: seq<Event>, front: seq<PositionRow>, last: PositionRow,
                       picked: PositionRow -> bool)
    requires OnePerKey(front + [last]) && Some(last.value) == Own(prices, events, last.key)
    requires var keys := KeysWhere(front, picked);
             Tally(front, picked) == Bucket(|keys|, TotalDebt(prices, events, keys))
    ensures var keys := KeysWhere(front + [last], picked);
            Tally(front + [last], picked) == Bucket(|keys|, TotalDebt(prices, events, keys))
  {
    hide Own, Tally, TotalDebt, KeysWhere, OnePerKey;
    TallyOneMore(front, last, picked);
    KeysOneMore(front, last, picked);
    if picked(last) {
      TotalDebtWith(prices, events, KeysWhere(front, picked), last.key);
    }
  }

  lemma TallyOneMore(front: seq<PositionRow>, last: PositionRow, picked: PositionRow -> bool)
    ensures var rest := Tally(front, picked);
            Tally(front + [last], picked)
            == if picked(last) then Bucket(rest.positions + 1, rest.debt + last.value.debt) else rest
  {
    assert (front + [last])[..|front|] == front;
  }

  /** After a run, the rows the query picks are one for each position, holding what
      its own stream left. */
  lemma RowsArePositions(prices: Prices, events: seq<Event>, log: seq<PositionRow>, rows: seq<PositionRow>)
    requires IsRun(prices, events, log) && Increasing(events) && IsDistinctLatest(log, rows)
    ensures HoldOwn(prices, events, rows)
    ensures forall r :: r in rows ==> exists e :: e in events && e.key == r.key
    ensures forall e :: e in events ==> exists r :: r in rows && r.key == e.key
  {
    hide Fold, Increasing, Follows;
    StampsKept(prices, events, log);
    assert log[..|log|] == log;
    forall r | r in rows
      ensures Some(r.value) == Own(prices, events, r.key)
    {
      RunReadsBackAt(prices, events, log, |log|, r.key, Some(r));
      FoldOfNone(prices);
    }
    forall r | r in rows
      ensures exists e :: e in events && e.key == r.key
    {
      assert r in log;
      var i :| 0 <= i < |log| && log[i] == r;
      assert events[i] in events;
    }
    forall e | e in events
      ensures exists r :: r in rows && r.key == e.key
    {
      var i :| 0 <= i < |events| && events[i] == e;
      assert log[i] in log;
    }
  }

  /** After any run, and whichever rows the query picks, each group counts exactly
      the positions the alerting state machine has at that level, and adds up
      exactly the debts it has for them. */
  lemma SummaryAgreesWithAlerting(prices: Prices, bands: LtvBands, events: seq<Event>, log: seq<PositionRow>,
                                  rows: seq<PositionRow>, level: RiskLevel)
    requires IsRun(prices, events, log) && Increasing(events) && IsDistinctLatest(log, rows)
    ensures var keys := StreamsAt(prices, bands, events, level);
            && At(Summary(rows, bands), level) == Bucket(|keys|, TotalDebt(prices, events, keys))
            && (level in Summary(rows, bands) <==> keys != {})
  {
    hide Tally, TotalDebt, LevelOf, Own, IsRun, Increasing;
    RowsArePositions(prices, events, log, rows);
    TallyOfPositions(prices, events, rows, FallsIn(bands, level));
    forall r | r in rows
      ensures FallsIn(bands, level)(r) <==> LevelOf(bands, Own(prices, events, r.key)) == Some(level)
    {
      FallsIsLevel(r, bands, level);
    }
    assert KeysWhere(rows, FallsIn(bands, level)) == StreamsAt(prices, bands, events, level);
    GroupIsTally(rows, bands, level);
  }

  /** After any run, the groups together hold every position whose stream leaves a
      known LTV, once, and all that those positions owe. */
  lemma SummaryConserves(prices: Prices, bands: LtvBands, events: seq<Event>, log: seq<PositionRow>,
                         rows: seq<PositionRow>)
    requires IsRun(prices, events, log) && Increasing(events) && IsDistinctLatest(log, rows)
    ensures var keys := StreamsWithLtv(prices, events);
            Sum(Summary(rows, bands)) == Bucket(|keys|, TotalDebt(prices, events, keys))
  {
    hide Tally, TotalDebt, Own, Summary, IsRun, Increasing;
    RowsArePositions(prices, events, log, rows);
    TallyOfPositions(prices, events, rows, LtvKnown());
    assert KeysWhere(rows, LtvKnown()) == StreamsWithLtv(prices, events);
    GroupsAddUp(rows, bands);
  }
}
