/** Drop detection over whole runs (`ingest_pool` and its transaction in `run_once`,
    src/bin/ingest.rs): cycles over many pools share one snapshot table, some of
    them roll back, old rows are dropped meanwhile (migrations/0006_retention_policies.sql),
    and each comparison reads the table. */
module PoolRuns {
  import opened Wrappers
  import opened AlertRules
  import opened SnapshotLog
  import opened Pricing
  import opened DropDetection

  datatype LiquidityPool = LiquidityPool(id: string, totalShares: Option<real>, reserves: seq<PoolReserve>)

  datatype PoolSnapshot = PoolSnapshot(reserveA: real, reserveB: real, totalShares: real)

  datatype Drop = Drop(poolId: string, before: real, now: real, percent: real)

  type SnapshotRow = Row<string, PoolSnapshot>

  function SharesOf(row: Option<SnapshotRow>): Option<real> {
    if row.Some? then Some(row.value.value.totalShares) else None
  }

  /** What a pool's listing gives to store, or why it is skipped. */
  function SnapshotOf(lp: LiquidityPool): Result<PoolSnapshot, string> {
    if |lp.reserves| < 2 then Failure("fewer than 2 reserves")
    else if lp.reserves[0].amount.None? || lp.reserves[1].amount.None? || lp.totalShares.None? then
      Failure("bad amount")
    else Success(PoolSnapshot(lp.reserves[0].amount.value, lp.reserves[1].amount.value, lp.totalShares.value))
  }

  /** How long the retention policy keeps a row: 180 days, in microseconds. */
  const RETENTION := 180 * 86_400 * 1_000_000

  /** A snapshot is made exactly where the listing has two legs with parsed amounts and
      parsed shares, and holds the first leg's amount, the second's and the shares. */
  lemma SnapshotExactly(lp: LiquidityPool, snapshot: PoolSnapshot)
    ensures SnapshotOf(lp) == Success(snapshot) <==>
              && |lp.reserves| > 1 && lp.totalShares == Some(snapshot.totalShares)
              && lp.reserves[0].amount == Some(snapshot.reserveA) && lp.reserves[1].amount == Some(snapshot.reserveB)
  {
  }

  /** One cycle: its single clock reading, up to when rows had been dropped by then,
      what Horizon lists, the rules loaded, and how its transaction ends. */
  datatype Cycle = Cycle(
    now: int, cutoff: int, listings: seq<LiquidityPool>, rules: seq<Rule>, default: real, commit: WriteOutcome)
  {
    function Threshold(poolId: string): real { ResolveLiquidityDropPct(rules, poolId, default) }

    predicate Lands() { !commit.NotWritten? }
  }

  /** The drop found on comparing a listing with the row that was read. */
  function DropOf(c: Cycle, lp: LiquidityPool, latest: Option<SnapshotRow>): Option<Drop> {
    if SnapshotOf(lp).Failure? || latest.None? then None
    else
      var (before, now) := (latest.value.value.totalShares, SnapshotOf(lp).value.totalShares);
      match DropAlert(Some(before), now, c.Threshold(lp.id))
      case Some(percent) => Some(Drop(lp.id, before, now, percent))
      case None => None
  }

  /** The rows these listings store at `now`. */
  function RowsOf(now: int, listings: seq<LiquidityPool>): seq<SnapshotRow> {
    if listings == [] then []
    else
      var rest, last := RowsOf(now, listings[..|listings| - 1]), listings[|listings| - 1];
      match SnapshotOf(last)
      case Success(snapshot) => rest + [Row(last.id, now, snapshot)]
      case Failure(_) => rest
  }

  /** The drops found on reading `answers`, one row for each listing. */
  function DropsOf(c: Cycle, listings: seq<LiquidityPool>, answers: seq<Option<SnapshotRow>>): seq<Drop>
    requires |answers| == |listings|
  {
    if listings == [] then []
    else
      var n := |listings| - 1;
      var rest, drop := DropsOf(c, listings[..n], answers[..n]), DropOf(c, listings[n], answers[n]);
      if drop.Some? then rest + [drop.value] else rest
  }

  /** The rows from `cutoff` on: what dropping the older ones leaves. */
  function Keep(log: seq<SnapshotRow>, cutoff: int): seq<SnapshotRow> {
    if log == [] then []
    else
      var rest, last := Keep(log[..|log| - 1], cutoff), log[|log| - 1];
      if last.time >= cutoff then rest + [last] else rest
  }

  /** What a cycle adds to the table in the end: rolled back, it adds nothing. */
  function Adds(c: Cycle): seq<SnapshotRow> { if c.Lands() then RowsOf(c.now, c.listings) else [] }

  /** The table after these cycles. */
  function Table(cycles: seq<Cycle>): seq<SnapshotRow> {
    if cycles == [] then []
    else
      var last := cycles[|cycles| - 1];
      Keep(Table(cycles[..|cycles| - 1]), last.cutoff) + Adds(last)
  }

  /** Every row these cycles ever added, dropped since or not. */
  function Landed(cycles: seq<Cycle>): seq<SnapshotRow> {
    if cycles == [] then [] else Landed(cycles[..|cycles| - 1]) + Adds(cycles[|cycles| - 1])
  }

  /** A possible answer to the read for listing `k`, which sees the table and the
      rows the transaction has added so far. */
  ghost predicate IsAnswer(log: seq<SnapshotRow>, c: Cycle, k: nat, answer: Option<SnapshotRow>)
    requires k < |c.listings|
  {
    SnapshotOf(c.listings[k]).Success? ==> IsLatest(log + RowsOf(c.now, c.listings[..k]), c.listings[k].id, answer)
  }

  ghost predicate AreAnswers(log: seq<SnapshotRow>, c: Cycle, answers: seq<Option<SnapshotRow>>) {
    |answers| == |c.listings| && forall k: nat :: k < |answers| ==> IsAnswer(log, c, k, answers[k])
  }

  ghost predicate Finds(log: seq<SnapshotRow>, c: Cycle, drops: seq<Drop>) {
    exists answers :: AreAnswers(log, c, answers) && drops == DropsOf(c, c.listings, answers)
  }

  /** `found` lists the drops that these cycles, one after another, may find. */
  ghost predicate IsRun(cycles: seq<Cycle>, found: seq<seq<Drop>>) {
    && |found| == |cycles|
    && forall n: nat :: n < |cycles| ==> Finds(Keep(Table(cycles[..n]), cycles[n].cutoff), cycles[n], found[n])
  }

  class PoolTable {
    var snapshots: seq<SnapshotRow>
    ghost var history: seq<Cycle>
    ghost var found: seq<seq<Drop>>

    ghost predicate Valid()
      reads this
    {
      snapshots == Table(history) && IsRun(history, found)
    }

    constructor ()
      ensures Valid() && history == [] && snapshots == []
    {
      snapshots, history, found := [], [], [];
    }

    /** The retention policy's work. */
    method DropOld(cutoff: int)
      modifies this`snapshots
      ensures snapshots == Keep(old(snapshots), cutoff)
    {
      snapshots := Keep(snapshots, cutoff);
    }

    /** Stores a pool's snapshot and compares it with the latest one on record. */
    method IngestPool(c: Cycle, lp: LiquidityPool)
      returns (r: Result<Option<Drop>, string>, ghost latest: Option<SnapshotRow>)
      modifies this`snapshots
      ensures r.Failure? <==> SnapshotOf(lp).Failure?
      ensures r.Failure? ==> snapshots == old(snapshots)
      ensures r.Success? ==>
                && IsLatest(old(snapshots), lp.id, latest)
                && snapshots == old(snapshots) + [Row(lp.id, c.now, SnapshotOf(lp).value)]
                && r.value == DropOf(c, lp, latest)
      ensures r.Success? && (forall row :: row in old(snapshots) && row.key == lp.id ==> row.time < c.now) ==>
                forall row :: IsLatest(snapshots, lp.id, row) <==> row == Some(Row(lp.id, c.now, SnapshotOf(lp).value))
    {
      hide DropAlert, Newest;
      latest := None;
      var threshold := ResolveLiquidityDropPct(c.rules, lp.id, c.default);
      var snapshot := SnapshotOf(lp);
      if snapshot.Failure? {
        return Failure(snapshot.error), latest;
      }
      var previous := ReadLatest(snapshots, lp.id);
      latest := previous;
      var row := Row(lp.id, c.now, snapshot.value);
      ghost var stored := snapshots;
      snapshots := snapshots + [row];
      if forall r :: r in stored && r.key == lp.id ==> r.time < c.now {
        forall answer
          ensures IsLatest(snapshots, lp.id, answer) <==> answer == Some(row)
        {
          AppendNewest(stored, row, lp.id, answer);
        }
      }
      if previous.None? {
        return Success(None), latest;
      }
      var before, now := previous.value.value.totalShares, snapshot.value.totalShares;
      var drop := DropAlert(Some(before), now, threshold);
      if drop.None? {
        return Success(None), latest;
      }
      return Success(Some(Drop(lp.id, before, now, drop.value))), latest;
    }

    /** One cycle's pool writes: a listing that does not parse is skipped, all rows
        land together or not at all, and the drops found are handed on to be
        recorded only after a commit known to have landed. */
    method RunCycle(c: Cycle) returns (r: Result<seq<Drop>, string>)
      requires Valid()
      modifies this
      ensures Valid() && history == old(history) + [c] && found[..|old(found)|] == old(found)
      ensures match r
              case Success(pending) => c.commit == Written && pending == found[|found| - 1]
              case Failure(_) => c.commit != Written
    {
      hide DropOf, SnapshotOf, IsLatest, IsRun, Table, Keep, RowsOf, DropsOf;
      NothingListed(c);
      DropOld(c.cutoff);
      ghost var before := snapshots;
      var saved := snapshots;
      var pending: seq<Drop> := [];
      ghost var answers: seq<Option<SnapshotRow>> := [];
      for k := 0 to |c.listings|
        invariant snapshots == before + RowsOf(c.now, c.listings[..k])
        invariant |answers| == k && pending == DropsOf(c, c.listings[..k], answers)
        invariant forall i: nat :: i < k ==> IsAnswer(before, c, i, answers[i])
        invariant history == old(history) && found == old(found)
      {
        var drop, latest := IngestPool(c, c.listings[k]);
        ListedOneMore(c, k, answers, latest);
        FailedFindsNothing(c, c.listings[k], latest);
        if drop.Success? && drop.value.Some? {
          pending := pending + [drop.value.value];
        }
        answers := answers + [latest];
      }
      assert c.listings[..|c.listings|] == c.listings;
      assert Finds(before, c, pending);
      RunOneMore(history, found, c, pending);
      history, found := history + [c], found + [pending];
      match c.commit
      case NotWritten =>
        snapshots := saved;
        return Failure("not committed");
      case WrittenSilently => return Failure("commit not acknowledged");
      case Written => return Success(pending);
    }
  }

  lemma ListedOneMore(c: Cycle, k: nat, answers: seq<Option<SnapshotRow>>, latest: Option<SnapshotRow>)
    requires k == |answers| < |c.listings|
    ensures RowsOf(c.now, c.listings[..k + 1])
            == RowsOf(c.now, c.listings[..k])
               + match SnapshotOf(c.listings[k])
                 case Success(snapshot) => [Row(c.listings[k].id, c.now, snapshot)]
                 case Failure(_) => []
    ensures DropsOf(c, c.listings[..k + 1], answers + [latest])
            == DropsOf(c, c.listings[..k], answers)
               + match DropOf(c, c.listings[k], latest) case Some(drop) => [drop] case None => []
  {
    hide SnapshotOf, DropOf;
    assert c.listings[..k + 1][..k] == c.listings[..k] && (answers + [latest])[..k] == answers;
  }

  lemma NothingListed(c: Cycle)
    ensures RowsOf(c.now, []) == [] && DropsOf(c, [], []) == []
  {
  }

  lemma FailedFindsNothing(c: Cycle, lp: LiquidityPool, latest: Option<SnapshotRow>)
    ensures SnapshotOf(lp).Failure? ==> DropOf(c, lp, latest).None?
  {
  }

  lemma RunOneMore(cycles: seq<Cycle>, found: seq<seq<Drop>>, c: Cycle, drops: seq<Drop>)
    requires IsRun(cycles, found) && Finds(Keep(Table(cycles), c.cutoff), c, drops)
    ensures IsRun(cycles + [c], found + [drops])
    ensures Table(cycles + [c]) == Keep(Table(cycles), c.cutoff) + Adds(c)
    ensures Landed(cycles + [c]) == Landed(cycles) + Adds(c)
  {
    hide Finds, Adds, Keep;
    var more := cycles + [c];
    assert more[..|cycles|] == cycles;
    hide Table, Landed;
    forall n: nat | n < |more|
      ensures Finds(Keep(Table(more[..n]), more[n].cutoff), more[n], (found + [drops])[n])
    {
      if n < |cycles| {
        assert more[..n] == cycles[..n] && Finds(Keep(Table(cycles[..n]), cycles[n].cutoff), cycles[n], found[n]);
      }
    }
  }

  // ---- what each comparison is made with ----

  /** The clock moves on from cycle to cycle, and no row is dropped before its time. */
  ghost predicate Clocked(cycles: seq<Cycle>) {
    && (forall i, j :: 0 <= i < j < |cycles| ==> cycles[i].now < cycles[j].now)
    && (forall i :: 0 <= i < |cycles| ==> cycles[i].cutoff <= cycles[i].now - RETENTION)
  }

  /** No cycle lists the pool twice. */
  ghost predicate ListedOnce(cycles: seq<Cycle>, poolId: string) {
    forall c :: c in cycles ==> Once(c.listings, poolId)
  }

  ghost predicate Once(listings: seq<LiquidityPool>, poolId: string) {
    forall i, j :: 0 <= i < j < |listings| ==> !(listings[i].id == listings[j].id == poolId)
  }

  /** Rows stored in the order of their times. */
  ghost predicate Rising(rows: seq<SnapshotRow>) {
    forall i, j :: 0 <= i < j < |rows| ==> rows[i].time < rows[j].time
  }

  /** Listing `k` of the cycle stores this amount for the pool. */
  predicate Stores(c: Cycle, k: nat, poolId: string, shares: real) {
    && k < |c.listings| && c.listings[k].id == poolId
    && SnapshotOf(c.listings[k]).Success? && SnapshotOf(c.listings[k]).value.totalShares == shares
  }

  function RowOf(c: Cycle, k: nat): SnapshotRow
    requires k < |c.listings| && SnapshotOf(c.listings[k]).Success?
  {
    Row(c.listings[k].id, c.now, SnapshotOf(c.listings[k]).value)
  }

  lemma {:induction false} NoOwnRows(now: int, listings: seq<LiquidityPool>, poolId: string)
    requires forall lp :: lp in listings && lp.id == poolId ==> SnapshotOf(lp).Failure?
    ensures Own(RowsOf(now, listings), poolId) == []
  {
    hide SnapshotOf;
    if listings != [] {
      NoOwnRows(now, listings[..|listings| - 1], poolId);
    }
  }

  lemma {:induction false} OneOwnRow(c: Cycle, listings: seq<LiquidityPool>, k: nat)
    requires listings <= c.listings && k < |listings| && SnapshotOf(c.listings[k]).Success?
    requires Once(c.listings, c.listings[k].id)
    ensures Own(RowsOf(c.now, listings), c.listings[k].id) == [RowOf(c, k)]
  {
    hide SnapshotOf;
    var n := |listings| - 1;
    if k < n {
      OneOwnRow(c, listings[..n], k);
    } else {
      NoOwnRows(c.now, listings[..n], c.listings[k].id);
    }
  }

  /** What a cycle adds of a pool: its one well-formed listing's row, if it lands. */
  lemma OwnAdds(c: Cycle, poolId: string)
    requires Once(c.listings, poolId)
    ensures forall k: nat, shares :: c.Lands() && Stores(c, k, poolId, shares) ==> Own(Adds(c), poolId) == [RowOf(c, k)]
    ensures !c.Lands() || (forall k: nat, shares :: !Stores(c, k, poolId, shares)) ==> Own(Adds(c), poolId) == []
  {
    hide SnapshotOf, RowsOf;
    forall k: nat, shares | Stores(c, k, poolId, shares)
      ensures Own(RowsOf(c.now, c.listings), poolId) == [RowOf(c, k)]
    {
      OneOwnRow(c, c.listings, k);
    }
    if forall k: nat, shares :: !Stores(c, k, poolId, shares) {
      forall lp | lp in c.listings && lp.id == poolId
        ensures SnapshotOf(lp).Failure?
      {
        var k :| 0 <= k < |c.listings| && c.listings[k] == lp;
        StoresListed(c, k);
      }
      NoOwnRows(c.now, c.listings, poolId);
    }
  }

  lemma StoresListed(c: Cycle, k: nat)
    requires k < |c.listings|
    ensures SnapshotOf(c.listings[k]).Success? ==>
              Stores(c, k, c.listings[k].id, SnapshotOf(c.listings[k]).value.totalShares)
  {
  }

  lemma {:induction false} RowTimes(now: int, listings: seq<LiquidityPool>)
    ensures forall r :: r in RowsOf(now, listings) ==> r.time == now
  {
    hide SnapshotOf;
    if listings != [] {
      RowTimes(now, listings[..|listings| - 1]);
    }
  }

  lemma PrefixOfCycles(cycles: seq<Cycle>, poolId: string, n: nat)
    requires Clocked(cycles) && ListedOnce(cycles, poolId) && n <= |cycles|
    ensures Clocked(cycles[..n]) && ListedOnce(cycles[..n], poolId)
  {
  }

  /** A pool's landed rows are stored in the order of their times. */
  lemma {:induction false} LandedInOrder(cycles: seq<Cycle>, poolId: string)
    requires Clocked(cycles) && ListedOnce(cycles, poolId)
    ensures Rising(Own(Landed(cycles), poolId))
    ensures forall r :: r in Own(Landed(cycles), poolId) ==> cycles != [] && r.time <= cycles[|cycles| - 1].now
  {
    hide RowsOf, SnapshotOf;
    if cycles != [] {
      var n := |cycles| - 1;
      var c := cycles[n];
      PrefixOfCycles(cycles, poolId, n);
      LandedInOrder(cycles[..n], poolId);
      OwnAppends(Landed(cycles[..n]), Adds(c), poolId);
      assert c in cycles && Once(c.listings, poolId);
      OwnAdds(c, poolId);
      assert n > 0 ==> cycles[n - 1].now < c.now;
    }
  }

  lemma {:induction false} KeptRows(log: seq<SnapshotRow>, cutoff: int)
    ensures forall r :: r in Keep(log, cutoff) <==> r in log && r.time >= cutoff
  {
    if log != [] {
      KeptRows(log[..|log| - 1], cutoff);
      assert log == log[..|log| - 1] + [log[|log| - 1]];
    }
  }

  /** Nothing has been dropped yet from `time` on. */
  ghost predicate Spared(cycles: seq<Cycle>, time: int) {
    forall i :: 0 <= i < |cycles| ==> cycles[i].cutoff <= time
  }

  /** The table holds the landed rows that have not been dropped. */
  lemma {:induction false} TableRows(cycles: seq<Cycle>, r: SnapshotRow)
    requires Clocked(cycles)
    ensures r in Table(cycles) <==> r in Landed(cycles) && Spared(cycles, r.time)
  {
    hide RowsOf, Keep;
    if cycles != [] {
      var n := |cycles| - 1;
      var front, c := cycles[..n], cycles[n];
      TableRows(front, r);
      KeptRows(Table(front), c.cutoff);
      RowTimes(c.now, c.listings);
      assert forall i :: 0 <= i < n ==> front[i] == cycles[i];
      assert Spared(cycles, r.time) <==> Spared(front, r.time) && c.cutoff <= r.time;
      assert r in Adds(c) ==> Spared(front, r.time);
    }
  }

  /** The pool's last landed row before cycle `n`, unless it has been dropped by then. */
  ghost function Previous(cycles: seq<Cycle>, n: nat, poolId: string): Option<SnapshotRow>
    requires n < |cycles|
  {
    var own := Own(Landed(cycles[..n]), poolId);
    if own != [] && Spared(cycles[..n + 1], own[|own| - 1].time) then Some(own[|own| - 1]) else None
  }

  /** What a read for the pool can find in cycle `n`. */
  lemma SeenRows(cycles: seq<Cycle>, n: nat, k: nat, poolId: string, r: SnapshotRow)
    requires Clocked(cycles) && ListedOnce(cycles, poolId) && n < |cycles|
    requires k < |cycles[n].listings| && cycles[n].listings[k].id == poolId
    ensures r in Keep(Table(cycles[..n]), cycles[n].cutoff) + RowsOf(cycles[n].now, cycles[n].listings[..k])
            && r.key == poolId
            <==> r in Own(Landed(cycles[..n]), poolId) && Spared(cycles[..n + 1], r.time)
  {
    hide SnapshotOf, Keep, RowsOf, Table, Landed;
    var c, front := cycles[n], cycles[..n];
    PrefixOfCycles(cycles, poolId, n);
    TableRows(front, r);
    KeptRows(Table(front), c.cutoff);
    OwnRows(Landed(front), poolId);
    assert c in cycles && Once(c.listings, poolId);
    NoOwnRows(c.now, c.listings[..k], poolId);
    OwnRows(RowsOf(c.now, c.listings[..k]), poolId);
    assert Spared(cycles[..n + 1], r.time) <==> Spared(front, r.time) && c.cutoff <= r.time;
  }

  /** Each comparison of a pool, whatever row the query returns, is with its own last
      landed snapshot, unless that has been dropped: other pools, skipped listings
      and cycles rolled back do not come between. */
  lemma ComparesWithPrevious(cycles: seq<Cycle>, n: nat, k: nat, poolId: string, answer: Option<SnapshotRow>)
    requires Clocked(cycles) && ListedOnce(cycles, poolId) && n < |cycles| && k < |cycles[n].listings|
    requires cycles[n].listings[k].id == poolId && SnapshotOf(cycles[n].listings[k]).Success?
    requires IsAnswer(Keep(Table(cycles[..n]), cycles[n].cutoff), cycles[n], k, answer)
    ensures answer == Previous(cycles, n, poolId)
  {
    hide SnapshotOf, Keep, RowsOf, Table, Landed, Own, Clocked, ListedOnce;
    var own := Own(Landed(cycles[..n]), poolId);
    forall r: SnapshotRow
      ensures r in Keep(Table(cycles[..n]), cycles[n].cutoff) + RowsOf(cycles[n].now, cycles[n].listings[..k])
              && r.key == poolId
              <==> r in own && Spared(cycles[..n + 1], r.time)
    {
      SeenRows(cycles, n, k, poolId, r);
    }
    PrefixOfCycles(cycles, poolId, n);
    LandedInOrder(cycles[..n], poolId);
    if own != [] {
      assert own[|own| - 1] in own;
    }
    if answer.Some? {
      var i :| 0 <= i < |own| && own[i] == answer.value;
    }
  }

  lemma {:induction false} InDropsOf(c: Cycle, listings: seq<LiquidityPool>, answers: seq<Option<SnapshotRow>>,
                                     drop: Drop)
    requires |answers| == |listings|
    ensures drop in DropsOf(c, listings, answers)
            <==> exists k :: 0 <= k < |listings| && DropOf(c, listings[k], answers[k]) == Some(drop)
  {
    hide DropOf;
    if listings != [] {
      var n := |listings| - 1;
      InDropsOf(c, listings[..n], answers[..n], drop);
      assert forall k :: 0 <= k < n ==> listings[..n][k] == listings[k] && answers[..n][k] == answers[k];
    }
  }

  /** `drop` is what comparing that earlier snapshot with the one listed now amounts
      to under the rule in force. */
  ghost predicate OwnDrop(before: Option<SnapshotRow>, c: Cycle, drop: Drop) {
    && SharesOf(before) == Some(drop.before)
    && (exists k: nat :: Stores(c, k, drop.poolId, drop.now))
    && exists threshold: real ::
         InForce(c.rules, DropRulesFor(drop.poolId), c.default, threshold)
         && DropAlert(Some(drop.before), drop.now, threshold) == Some(drop.percent)
  }

  /** A run finds exactly the drops since a pool's own last landed snapshot, where
      that is still on record. */
  lemma FoundExactly(cycles: seq<Cycle>, found: seq<seq<Drop>>, n: nat, drop: Drop)
    requires IsRun(cycles, found) && Clocked(cycles) && ListedOnce(cycles, drop.poolId) && n < |cycles|
    ensures drop in found[n] <==> OwnDrop(Previous(cycles, n, drop.poolId), cycles[n], drop)
  {
    hide SnapshotOf, Table, Keep, RowsOf, DropAlert, Newest, DropsOf, SharesOf, Clocked, ListedOnce, IsAnswer, Previous;
    hide InForce, DropRulesFor;
    var c, log, poolId := cycles[n], Keep(Table(cycles[..n]), cycles[n].cutoff), drop.poolId;
    assert Finds(log, c, found[n]);
    var answers :| AreAnswers(log, c, answers) && found[n] == DropsOf(c, c.listings, answers);
    InDropsOf(c, c.listings, answers, drop);
    forall threshold: real
      ensures InForce(c.rules, DropRulesFor(poolId), c.default, threshold) <==> threshold == c.Threshold(poolId)
    {
      ThresholdIs(c, poolId, threshold);
    }
    forall k: nat | k < |c.listings|
      ensures DropOf(c, c.listings[k], answers[k]) == Some(drop)
              <==> && Stores(c, k, poolId, drop.now) && SharesOf(answers[k]) == Some(drop.before)
                   && DropAlert(Some(drop.before), drop.now, c.Threshold(poolId)) == Some(drop.percent)
    {
      DropOfExactly(c, c.listings[k], answers[k], drop);
    }
    forall k: nat, shares | Stores(c, k, poolId, shares)
      ensures answers[k] == Previous(cycles, n, poolId)
    {
      ComparesWithPrevious(cycles, n, k, poolId, answers[k]);
    }
  }

  lemma ThresholdIs(c: Cycle, poolId: string, threshold: real)
    ensures InForce(c.rules, DropRulesFor(poolId), c.default, threshold) <==> threshold == c.Threshold(poolId)
  {
    DropThresholdInForce(c.rules, poolId, c.default, threshold);
  }

  lemma DropOfExactly(c: Cycle, lp: LiquidityPool, answer: Option<SnapshotRow>, drop: Drop)
    ensures DropOf(c, lp, answer) == Some(drop)
            <==> && lp.id == drop.poolId && SnapshotOf(lp).Success? && SnapshotOf(lp).value.totalShares == drop.now
                 && SharesOf(answer) == Some(drop.before)
                 && DropAlert(Some(drop.before), drop.now, c.Threshold(drop.poolId)) == Some(drop.percent)
  {
    hide DropAlert, SnapshotOf, Newest;
  }

  // ---- quiet runs ----

  /** No landed cycle finds a drop of the pool. */
  ghost predicate Quiet(cycles: seq<Cycle>, found: seq<seq<Drop>>, poolId: string)
    requires |found| == |cycles|
  {
    forall n, drop :: 0 <= n < |cycles| && cycles[n].Lands() && drop in found[n] ==> drop.poolId != poolId
  }

  /** In every landed cycle the pool's threshold is this one, or a stricter one. */
  ghost predicate Watched(cycles: seq<Cycle>, poolId: string, threshold: real) {
    forall c, strict :: c in cycles && c.Lands() && InForce(c.rules, DropRulesFor(poolId), c.default, strict) ==>
      strict <= threshold
  }

  /** A run over the shared table in which a pool is listed at most once a cycle. */
  ghost predicate QuietRun(cycles: seq<Cycle>, found: seq<seq<Drop>>, poolId: string, threshold: real) {
    && IsRun(cycles, found) && Clocked(cycles) && ListedOnce(cycles, poolId)
    && Quiet(cycles, found, poolId) && Watched(cycles, poolId, threshold)
  }

  function Amounts(own: seq<SnapshotRow>): seq<real> {
    seq(|own|, i requires 0 <= i < |own| => own[i].value.totalShares)
  }

  function Times(own: seq<SnapshotRow>): seq<int> {
    seq(|own|, i requires 0 <= i < |own| => own[i].time)
  }

  /** No two snapshots in a row lie more than 180 days apart. */
  ghost predicate Attended(times: seq<int>) {
    forall i {:trigger times[i]} :: 0 < i < |times| ==> times[i] - times[i - 1] <= 15_552_000_000_000
  }

  ghost predicate Ascending(times: seq<int>) {
    forall i, j :: 0 <= i < j < |times| ==> times[i] < times[j]
  }

  /** Within that time the last landed row is still on record. */
  lemma StillOnRecord(cycles: seq<Cycle>, n: nat, poolId: string)
    requires Clocked(cycles) && n < |cycles|
    ensures var own := Own(Landed(cycles[..n]), poolId);
            own != [] && cycles[n].now - own[|own| - 1].time <= RETENTION ==>
              Previous(cycles, n, poolId) == Some(own[|own| - 1])
  {
    hide Landed, Own;
    assert forall i :: 0 <= i < n + 1 ==> cycles[i].cutoff <= cycles[n].now - RETENTION;
  }

  /** A landed cycle's own rows, after those landed before. */
  lemma OwnOneMore(cycles: seq<Cycle>, n: nat, poolId: string)
    requires ListedOnce(cycles, poolId) && n < |cycles|
    ensures Own(Landed(cycles[..n + 1]), poolId) == Own(Landed(cycles[..n]), poolId) + Own(Adds(cycles[n]), poolId)
    ensures forall k: nat, shares :: cycles[n].Lands() && Stores(cycles[n], k, poolId, shares) ==>
              Own(Adds(cycles[n]), poolId) == [RowOf(cycles[n], k)]
    ensures !cycles[n].Lands() || (forall k: nat, shares :: !Stores(cycles[n], k, poolId, shares)) ==>
              Own(Adds(cycles[n]), poolId) == []
  {
    hide Own, Adds;
    assert cycles[..n + 1][..n] == cycles[..n] && cycles[n] in cycles && Once(cycles[n].listings, poolId);
    OwnAppends(Landed(cycles[..n]), Adds(cycles[n]), poolId);
    OwnAdds(cycles[n], poolId);
  }

  /** A quiet run leaves an attended pool's landed amounts silent. */
  lemma {:induction false} QuietIsSilent(cycles: seq<Cycle>, found: seq<seq<Drop>>, poolId: string, threshold: real,
                                         n: nat)
    requires QuietRun(cycles, found, poolId, threshold) && n <= |cycles|
    requires Attended(Times(Own(Landed(cycles[..n]), poolId)))
    ensures Silent(Amounts(Own(Landed(cycles[..n]), poolId)), threshold)
  {
    hide Landed, Own, Adds, IsRun, DropAlert, Newest, Clocked, ListedOnce, Previous, Attended, Silent, Quiet, Watched;
    if n == 0 {
      assert cycles[..0] == [];
      NothingLanded(poolId, threshold);
    } else {
      var c, before := cycles[n - 1], Own(Landed(cycles[..n - 1]), poolId);
      var after := Own(Landed(cycles[..n]), poolId);
      OwnOneMore(cycles, n - 1, poolId);
      if k: nat, shares :| c.Lands() && Stores(c, k, poolId, shares) {
        OneMoreOwn(before, RowOf(c, k));
        AttendedFront(Times(before), c.now);
        QuietIsSilent(cycles, found, poolId, threshold, n - 1);
        if before != [] {
          LastOf(before, Times(before), Amounts(before));
          StillOnRecord(cycles, n - 1, poolId);
          KeptOrFound(cycles, found, poolId, threshold, n - 1, k, shares);
        }
        SilentOneMore(Amounts(before), shares, threshold);
      } else {
        assert after == before;
        QuietIsSilent(cycles, found, poolId, threshold, n - 1);
      }
    }
  }

  lemma AttendedFront(times: seq<int>, now: int)
    requires Attended(times + [now])
    ensures Attended(times) && (times != [] ==> now - times[|times| - 1] <= RETENTION)
  {
    assert forall i :: 0 <= i < |times| ==> (times + [now])[i] == times[i];
    assert (times + [now])[|times|] == now;
  }

  lemma SilentOneMore(amounts: seq<real>, now: real, threshold: real)
    requires Silent(amounts, threshold)
    requires amounts != [] ==> DropAlert(Some(amounts[|amounts| - 1]), now, threshold).None?
    ensures Silent(amounts + [now], threshold)
  {
    hide DropAlert;
  }

  /** In a quiet run a stored amount is no drop from the one compared with. */
  lemma KeptOrFound(cycles: seq<Cycle>, found: seq<seq<Drop>>, poolId: string, threshold: real, n: nat, k: nat,
                    shares: real)
    requires QuietRun(cycles, found, poolId, threshold) && n < |cycles|
    requires cycles[n].Lands() && Stores(cycles[n], k, poolId, shares) && Previous(cycles, n, poolId).Some?
    ensures DropAlert(SharesOf(Previous(cycles, n, poolId)), shares, threshold).None?
  {
    hide DropAlert, SnapshotOf, Newest, Previous, IsRun, Clocked, ListedOnce;
    var c, before := cycles[n], SharesOf(Previous(cycles, n, poolId)).value;
    var drop := DropAlert(Some(before), shares, c.Threshold(poolId));
    ThresholdIs(c, poolId, c.Threshold(poolId));
    if drop.Some? {
      FoundExactly(cycles, found, n, Drop(poolId, before, shares, drop.value));
    }
    HigherThresholdIsSilent(Some(before), shares, c.Threshold(poolId), threshold);
  }

  lemma NothingLanded(poolId: string, threshold: real)
    ensures Silent(Amounts(Own(Landed([]), poolId)), threshold)
  {
  }

  /** The last amount is above the geometric floor of the first. */
  predicate AboveFloor(amounts: seq<real>, threshold: real)
    requires amounts != []
  {
    var n := |amounts| - 1;
    amounts[n] >= Floor(amounts[0], threshold, n) > 0.0 && (n >= 1 ==> amounts[n] > Floor(amounts[0], threshold, n))
  }

  /** Over any run of the table in which no landed cycle finds a drop of a pool, and
      the pool is never unlisted for longer than rows are kept, its amounts stay
      above the geometric floor. */
  lemma QuietStaysAbove(cycles: seq<Cycle>, found: seq<seq<Drop>>, poolId: string, threshold: real)
    requires QuietRun(cycles, found, poolId, threshold) && 0.0 < threshold < 100.0
    requires var own := Own(Landed(cycles), poolId);
             own != [] && own[0].value.totalShares > 0.0 && Attended(Times(own))
    ensures AboveFloor(Amounts(Own(Landed(cycles), poolId)), threshold)
  {
    hide QuietRun, Landed, Own, Floor, Silent;
    assert cycles[..|cycles|] == cycles;
    RunLength(cycles, found, poolId, threshold);
    QuietIsSilent(cycles, found, poolId, threshold, |cycles|);
    SilentStaysAbove(Amounts(Own(Landed(cycles), poolId)), threshold);
  }

  lemma RunLength(cycles: seq<Cycle>, found: seq<seq<Drop>>, poolId: string, threshold: real)
    requires QuietRun(cycles, found, poolId, threshold)
    ensures |found| == |cycles|
  {
  }

  // ---- the bound and its condition are exact ----

  /** A landed cycle listing this pool alone, rows being dropped as soon as they may. */
  function CycleFor(poolId: string, time: int, shares: real, threshold: real): Cycle {
    Cycle(time, time - RETENTION,
          [LiquidityPool(poolId, Some(shares), [PoolReserve("native", Some(1.0)), PoolReserve("XLM:", Some(1.0))])],
          [], threshold, Written)
  }

  function CyclesFor(poolId: string, times: seq<int>, amounts: seq<real>, threshold: real): seq<Cycle>
    requires |amounts| == |times|
  {
    seq(|times|, i requires 0 <= i < |times| => CycleFor(poolId, times[i], amounts[i], threshold))
  }

  lemma SomeFind(log: seq<SnapshotRow>, c: Cycle) returns (drops: seq<Drop>)
    ensures Finds(log, c, drops)
  {
    hide SnapshotOf, RowsOf, DropsOf;
    var answers := seq(|c.listings|, k requires 0 <= k < |c.listings| =>
      PickLatest(log + RowsOf(c.now, c.listings[..k]), c.listings[k].id));
    assert AreAnswers(log, c, answers);
    drops := DropsOf(c, c.listings, answers);
  }

  /** Amounts that drop nowhere but across gaps longer than rows are kept. */
  ghost predicate SilentWhileKept(times: seq<int>, amounts: seq<real>, threshold: real)
    requires |amounts| == |times|
  {
    forall i {:trigger amounts[i]} :: 0 < i < |times| && times[i] - times[i - 1] <= RETENTION ==>
      DropAlert(Some(amounts[i - 1]), amounts[i], threshold).None?
  }

  function RowFor(poolId: string, time: int, shares: real): SnapshotRow {
    Row(poolId, time, PoolSnapshot(1.0, 1.0, shares))
  }

  lemma QuietOneMore(cycles: seq<Cycle>, found: seq<seq<Drop>>, poolId: string, threshold: real, time: int,
                     shares: real)
    returns (drops: seq<Drop>)
    requires QuietRun(cycles, found, poolId, threshold) && forall c :: c in cycles ==> c.now < time
    requires var own := Own(Landed(cycles), poolId);
             own != [] && time - own[|own| - 1].time <= RETENTION ==>
               DropAlert(Some(own[|own| - 1].value.totalShares), shares, threshold).None?
    ensures var more := cycles + [CycleFor(poolId, time, shares, threshold)];
            && QuietRun(more, found + [drops], poolId, threshold)
            && Own(Landed(more), poolId) == Own(Landed(cycles), poolId) + [RowFor(poolId, time, shares)]
  {
    hide Table, Landed, Own, Adds, Finds, IsRun, DropAlert, Newest, Previous;
    var c, n := CycleFor(poolId, time, shares, threshold), |cycles|;
    var more := cycles + [c];
    drops := SomeFind(Keep(Table(cycles), c.cutoff), c);
    RunOneMore(cycles, found, c, drops);
    RunLength(cycles, found, poolId, threshold);
    assert more[..n] == cycles && more[..n + 1] == more && more[n] == c;
    assert Stores(c, 0, poolId, shares);
    OwnOneMore(more, n, poolId);
    NoRules(c, poolId);
    PreviousIsRecent(more, n, poolId);
    forall drop | drop in drops
      ensures drop.poolId != poolId
    {
      if drop.poolId == poolId {
        assert (found + [drops])[n] == drops;
        FoundExactly(more, found + [drops], n, drop);
      }
    }
  }

  /** What is still on record is the last landed row, from the cutoff on. */
  lemma PreviousIsRecent(cycles: seq<Cycle>, n: nat, poolId: string)
    requires n < |cycles|
    ensures var own := Own(Landed(cycles[..n]), poolId);
            match Previous(cycles, n, poolId)
            case Some(row) => own != [] && row == own[|own| - 1] && cycles[n].cutoff <= row.time
            case None => true
  {
    hide Landed, Own;
    assert cycles[..n + 1][n] == cycles[n];
  }

  lemma NoRules(c: Cycle, poolId: string)
    requires c.rules == []
    ensures forall threshold :: InForce(c.rules, DropRulesFor(poolId), c.default, threshold) <==> threshold == c.default
  {
  }

  /** Such amounts are what some quiet run leaves of the pool at these times. */
  lemma {:induction false} SomeQuietRun(poolId: string, times: seq<int>, amounts: seq<real>, threshold: real)
    returns (found: seq<seq<Drop>>)
    requires Ascending(times) && |amounts| == |times| && SilentWhileKept(times, amounts, threshold)
    ensures var cycles := CyclesFor(poolId, times, amounts, threshold);
            var own := Own(Landed(cycles), poolId);
            QuietRun(cycles, found, poolId, threshold) && Times(own) == times && Amounts(own) == amounts
  {
    hide QuietRun, Landed, Own, DropAlert, CycleFor, SilentWhileKept;
    var cycles := CyclesFor(poolId, times, amounts, threshold);
    if times == [] {
      found := [];
      assert cycles == [];
      EmptyRun(poolId, threshold);
    } else {
      var n := |times| - 1;
      SilentPrefix(times, amounts, threshold, n);
      found := SomeQuietRun(poolId, times[..n], amounts[..n], threshold);
      var front := CyclesFor(poolId, times[..n], amounts[..n], threshold);
      var own := Own(Landed(front), poolId);
      assert cycles == front + [CycleFor(poolId, times[n], amounts[n], threshold)];
      LastOf(own, times[..n], amounts[..n]);
      EarlierCycles(poolId, times, amounts, threshold, n);
      var drops := QuietOneMore(front, found, poolId, threshold, times[n], amounts[n]);
      OneMoreOwn(own, RowFor(poolId, times[n], amounts[n]));
      assert times[..n] + [times[n]] == times && amounts[..n] + [amounts[n]] == amounts;
      found := found + [drops];
    }
  }

  lemma SilentPrefix(times: seq<int>, amounts: seq<real>, threshold: real, n: nat)
    requires Ascending(times) && |amounts| == |times| == n + 1 && SilentWhileKept(times, amounts, threshold)
    ensures Ascending(times[..n]) && SilentWhileKept(times[..n], amounts[..n], threshold)
    ensures n > 0 && times[n] - times[n - 1] <= RETENTION ==>
              DropAlert(Some(amounts[n - 1]), amounts[n], threshold).None?
  {
    hide DropAlert;
  }

  lemma LastOf(own: seq<SnapshotRow>, times: seq<int>, amounts: seq<real>)
    requires Times(own) == times && Amounts(own) == amounts
    ensures |own| == |times| == |amounts|
    ensures own != [] ==>
              own[|own| - 1].time == times[|own| - 1] && own[|own| - 1].value.totalShares == amounts[|own| - 1]
  {
    if own != [] {
      assert Times(own)[|own| - 1] == own[|own| - 1].time
             && Amounts(own)[|own| - 1] == own[|own| - 1].value.totalShares;
    }
  }

  lemma EarlierCycles(poolId: string, times: seq<int>, amounts: seq<real>, threshold: real, n: nat)
    requires Ascending(times) && |amounts| == |times| == n + 1
    ensures forall c :: c in CyclesFor(poolId, times[..n], amounts[..n], threshold) ==> c.now < times[n]
  {
  }

  lemma OneMoreOwn(own: seq<SnapshotRow>, row: SnapshotRow)
    ensures Times(own + [row]) == Times(own) + [row.time]
    ensures Amounts(own + [row]) == Amounts(own) + [row.value.totalShares]
  {
  }

  lemma EmptyRun(poolId: string, threshold: real)
    ensures QuietRun([], [], poolId, threshold) && Own(Landed([]), poolId) == []
  {
  }

  /** The bound is exact for runs of the table too: what `n` landed snapshots after
      the first can leave of an attended pool, no drop being found, is any amount
      above the floor and none at or below it. */
  lemma QuietReach(poolId: string, start: real, threshold: real, n: nat, end: real)
    requires start > 0.0 && 0.0 < threshold < 100.0 && n >= 1
    ensures (exists cycles, found ::
               && QuietRun(cycles, found, poolId, threshold)
               && var own := Own(Landed(cycles), poolId);
                  Attended(Times(own)) && |own| == n + 1 && Amounts(own)[0] == start && Amounts(own)[n] == end)
            <==> end > Floor(start, threshold, n)
  {
    hide QuietRun, Landed, Own, Floor, Silent, Attended, SilentWhileKept;
    forall cycles, found | QuietRun(cycles, found, poolId, threshold)
                           && var own := Own(Landed(cycles), poolId);
                              && Attended(Times(own)) && |own| == n + 1
                              && Amounts(own)[0] == start && Amounts(own)[n] == end
      ensures end > Floor(start, threshold, n)
    {
      QuietStaysAbove(cycles, found, poolId, threshold);
    }
    if end > Floor(start, threshold, n) {
      SilentReach(start, threshold, n, end);
      var amounts :| |amounts| == n + 1 && amounts[0] == start && amounts[n] == end && Silent(amounts, threshold);
      var times := seq(n + 1, i => i);
      assert Attended(times) by { Ticks(n); }
      assert SilentWhileKept(times, amounts, threshold) by { SilentAnyway(times, amounts, threshold); }
      var found := SomeQuietRun(poolId, times, amounts, threshold);
      assert |Own(Landed(CyclesFor(poolId, times, amounts, threshold)), poolId)| == |amounts|;
    }
  }

  lemma Ticks(n: nat)
    ensures Attended(seq(n + 1, i => i))
  {
  }

  lemma SilentAnyway(times: seq<int>, amounts: seq<real>, threshold: real)
    requires |amounts| == |times| && Silent(amounts, threshold)
    ensures SilentWhileKept(times, amounts, threshold)
  {
    hide DropAlert;
  }

  /** That the pool is never unlisted for longer than rows are kept is what the bound
      needs: for snapshots at given times it holds of every quiet run if and only if
      no two in a row lie further apart. Otherwise even a loss of everything across
      the gap is compared with nothing, and goes unfound. */
  lemma FloorHoldsExactly(poolId: string, times: seq<int>, start: real, threshold: real)
    requires times != [] && Ascending(times) && start > 0.0 && 0.0 < threshold < 100.0
    ensures (forall cycles, found ::
               && QuietRun(cycles, found, poolId, threshold)
               && Times(Own(Landed(cycles), poolId)) == times && Amounts(Own(Landed(cycles), poolId))[0] == start ==>
                 AboveFloor(Amounts(Own(Landed(cycles), poolId)), threshold))
            <==> Attended(times)
  {
    hide QuietRun, Landed, Own, Floor, SilentWhileKept;
    if Attended(times) {
      forall cycles, found | QuietRun(cycles, found, poolId, threshold) && Times(Own(Landed(cycles), poolId)) == times
                             && Amounts(Own(Landed(cycles), poolId))[0] == start
        ensures AboveFloor(Amounts(Own(Landed(cycles), poolId)), threshold)
      {
        assert |Own(Landed(cycles), poolId)| == |times|;
        QuietStaysAbove(cycles, found, poolId, threshold);
      }
    } else {
      var i :| 0 < i < |times| && times[i] - times[i - 1] > RETENTION;
      var amounts := LostAfter(i, |times|, start);
      LossIsSilent(times, i, start, threshold);
      var found := SomeQuietRun(poolId, times, amounts, threshold);
      assert Amounts(Own(Landed(CyclesFor(poolId, times, amounts, threshold)), poolId)) == amounts;
      assert !AboveFloor(amounts, threshold);
    }
  }

  /** Everything is lost at snapshot `i`. */
  function LostAfter(i: nat, count: nat, start: real): seq<real> {
    seq(count, j requires 0 <= j < count => if j < i then start else 0.0)
  }

  lemma LossIsSilent(times: seq<int>, i: nat, start: real, threshold: real)
    requires 0 < i < |times| && times[i] - times[i - 1] > RETENTION && start > 0.0
    ensures SilentWhileKept(times, LostAfter(i, |times|, start), threshold)
  {
    Unchanged(start, threshold);
    Unchanged(0.0, threshold);
    hide DropAlert;
  }

  lemma Unchanged(amount: real, threshold: real)
    ensures DropAlert(Some(amount), amount, threshold).None?
  {
  }
}
