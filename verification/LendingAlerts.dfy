/** The lending ingester's store (`process_event`, src/soroban.rs): the snapshot log
    and the alerts raised along with it, over runs in which reads, inserts and the
    recording of alerts may fail. */
module LendingAlerts {
  import opened Wrappers
  import opened AlertRules
  import opened SnapshotLog
  import opened LendingPositions
  import opened LendingRuns

  datatype Severity = Info | Warning | CriticalSeverity

  function SeverityFor(level: RiskLevel): Severity {
    match level
    case Critical => CriticalSeverity
    case High => Warning
    case _ => Info
  }

  datatype RiskAlert = RiskAlert(key: PositionKey, ltv: real, level: RiskLevel, severity: Severity)

  /** The alert an event raises, given the level before it. */
  function AlertFor(bands: LtvBands, before: Option<RiskLevel>, row: PositionRow): Option<RiskAlert> {
    var now := LevelOf(bands, Some(row.value));
    if Detects(before, now) then
      Some(RiskAlert(row.key, row.value.ltv.value, now.value, SeverityFor(now.value)))
    else None
  }

  /** The alert is this position's, at this level and the LTV `p` has; only a critical
      one is more than a warning. */
  ghost predicate Tells(bands: LtvBands, alert: RiskAlert, key: PositionKey, p: Option<Position>) {
    && alert.key == key && p.Some? && p.value.ltv == Some(alert.ltv) && LevelOf(bands, p) == Some(alert.level)
    && (alert.severity.CriticalSeverity? <==> alert.level.Critical?)
    && (alert.severity.Warning? <==> alert.level.High?)
  }

  /** An alert is raised exactly where one is detected, and tells what was. */
  lemma AlertForExactly(bands: LtvBands, before: Option<RiskLevel>, row: PositionRow)
    ensures AlertFor(bands, before, row).Some? <==> Detects(before, LevelOf(bands, Some(row.value)))
    ensures AlertFor(bands, before, row).Some? ==>
              Tells(bands, AlertFor(bands, before, row).value, row.key, Some(row.value))
  {
  }

  /** One event whose row landed: what was read for it, and whether an alert it
      raised would have been recorded. */
  datatype Entry = Entry(event: Event, read: Option<PositionRow>, recorded: bool)

  function EventsOf(history: seq<Entry>): seq<Event> {
    seq(|history|, n requires 0 <= n < |history| => history[n].event)
  }

  function RowsOf(prices: Prices, history: seq<Entry>): seq<PositionRow> {
    seq(|history|, n requires 0 <= n < |history| => RowFor(prices, history[n].read, history[n].event))
  }

  /** Each event read a latest row of its position. */
  ghost predicate IsHistory(prices: Prices, history: seq<Entry>) {
    forall n: nat :: n < |history| ==> IsLatest(RowsOf(prices, history)[..n], history[n].event.key, history[n].read)
  }

  function AlertAt(prices: Prices, bands: LtvBands, entry: Entry): Option<RiskAlert> {
    AlertFor(bands, LevelOf(bands, ValueOf(entry.read)), RowFor(prices, entry.read, entry.event))
  }

  /** The alerts recorded for the first `n` events. */
  function Raised(prices: Prices, bands: LtvBands, history: seq<Entry>, n: nat): seq<RiskAlert>
    requires n <= |history|
  {
    if n == 0 then []
    else
      var rest, entry := Raised(prices, bands, history, n - 1), history[n - 1];
      var alert := AlertAt(prices, bands, entry);
      if entry.recorded && alert.Some? then rest + [alert.value] else rest
  }

  lemma {:induction false} RaisedBefore(prices: Prices, bands: LtvBands, history: seq<Entry>, entry: Entry, n: nat)
    requires n <= |history|
    ensures Raised(prices, bands, history + [entry], n) == Raised(prices, bands, history, n)
  {
    if n > 0 {
      RaisedBefore(prices, bands, history, entry, n - 1);
    }
  }

  lemma HistoryIsRun(prices: Prices, history: seq<Entry>)
    requires IsHistory(prices, history)
    ensures IsRun(prices, EventsOf(history), RowsOf(prices, history))
  {
    hide Apply, IsLatest;
    var log := RowsOf(prices, history);
    forall n | 0 <= n < |log|
      ensures Follows(prices, log[..n], EventsOf(history)[n], log[n])
    {
      assert IsLatest(log[..n], history[n].event.key, history[n].read);
    }
  }

  /** The next event, reading a latest row. */
  lemma HistoryOneMore(prices: Prices, bands: LtvBands, history: seq<Entry>, entry: Entry)
    requires IsHistory(prices, history) && IsLatest(RowsOf(prices, history), entry.event.key, entry.read)
    ensures IsHistory(prices, history + [entry])
    ensures RowsOf(prices, history + [entry]) == RowsOf(prices, history) + [RowFor(prices, entry.read, entry.event)]
    ensures var alert := AlertAt(prices, bands, entry);
            Raised(prices, bands, history + [entry], |history| + 1)
            == Raised(prices, bands, history, |history|)
               + if entry.recorded && alert.Some? then [alert.value] else []
  {
    hide Apply, IsLatest, AlertAt;
    var more, log := history + [entry], RowsOf(prices, history);
    assert RowsOf(prices, more) == log + [RowFor(prices, entry.read, entry.event)];
    forall n: nat | n < |more|
      ensures IsLatest(RowsOf(prices, more)[..n], more[n].event.key, more[n].read)
    {
      assert RowsOf(prices, more)[..n] == log[..n];
      if n == |history| {
        assert log[..n] == log;
      }
    }
    RaisedBefore(prices, bands, history, entry, |history|);
  }

  /** The lending tables with the settings in force, and the events whose rows landed. */
  class LendingStore {
    const prices: Prices
    const bands: LtvBands
    var log: seq<PositionRow>
    var alerts: seq<RiskAlert>
    ghost var history: seq<Entry>

    ghost predicate Valid()
      reads this
    {
      && IsHistory(prices, history) && log == RowsOf(prices, history)
      && alerts == Raised(prices, bands, history, |history|)
    }

    constructor (prices: Prices, bands: LtvBands)
      ensures Valid() && this.prices == prices && this.bands == bands && log == [] && alerts == [] && history == []
    {
      this.prices := prices;
      this.bands := bands;
      log := [];
      alerts := [];
      history := [];
    }

    /** One decoded event. The read may fail, and nothing changes; the insert may
        fail, or land while looking failed, and then its alert is lost; recording
        the alert may fail, which is only logged. */
    method ProcessEvent(e: Event, readOk: bool, insert: WriteOutcome, alertOk: bool)
      returns (r: Result<bool, string>, ghost latest: Option<PositionRow>)
      requires Valid()
      modifies this
      ensures Valid()
      ensures r == Success(true) || r.Failure?
      ensures r.Success? <==> readOk && insert == Written
      ensures r.Failure? ==> alerts == old(alerts)
      ensures !readOk || insert == NotWritten ==> log == old(log) && history == old(history)
      ensures readOk && insert != NotWritten ==>
                && IsLatest(old(log), e.key, latest)
                && log == old(log) + [RowFor(prices, latest, e)]
                && history == old(history) + [Entry(e, latest, insert == Written && alertOk)]
    {
      hide Apply, IsHistory, RowsOf, Raised, AlertFor;
      latest := None;
      if !readOk {
        return Failure("read failed"), latest;
      }
      var read := ReadLatest(log, e.key);
      latest := read;
      var before := LevelOf(bands, ValueOf(read));
      var row := RowFor(prices, read, e);
      if insert == NotWritten {
        return Failure("insert failed"), latest;
      }
      ghost var entry := Entry(e, read, insert == Written && alertOk);
      HistoryOneMore(prices, bands, history, entry);
      log := log + [row];
      history := history + [entry];
      if insert == WrittenSilently {
        return Failure("insert not acknowledged"), latest;
      }
      var alert := AlertFor(bands, before, row);
      if alert.Some? && alertOk {
        alerts := alerts + [alert.value];
      }
      return Success(true), latest;
    }
  }

  // ---- the alerts of a run ----

  /** One position's own events up to event `n`, which is its latest. */
  function OwnUpTo(events: seq<Event>, n: nat): seq<Event>
    requires n < |events|
  {
    Sub(events, n + 1, events[n].key)
  }

  /** Event `n` makes its position's own stream escalate. */
  ghost predicate Escalates(prices: Prices, bands: LtvBands, events: seq<Event>, n: nat)
    requires n < |events|
  {
    var own := OwnUpTo(events, n);
    own != [] && EscalatesAt(prices, bands, own, |own| - 1)
  }

  lemma AlertIsEscalation(prices: Prices, bands: LtvBands, history: seq<Entry>, n: nat)
    requires IsHistory(prices, history) && Increasing(EventsOf(history)) && n < |history|
    ensures AlertAt(prices, bands, history[n]).Some? <==> Escalates(prices, bands, EventsOf(history), n)
    ensures AlertAt(prices, bands, history[n]).Some? ==>
              Tells(bands, AlertAt(prices, bands, history[n]).value, history[n].event.key,
                    Fold(prices, OwnUpTo(EventsOf(history), n)))
  {
    hide IsHistory, IsRun, Increasing, IsLatest, Apply, LevelOf, Detects, Fold, Sub, AlertFor, Tells;
    var events, log := EventsOf(history), RowsOf(prices, history);
    HistoryIsRun(prices, history);
    HistoryReads(prices, history, n);
    OwnValues(prices, events, log, n, history[n].read);
    AlertsMatchOwnStream(prices, bands, events, log, n, history[n].read);
    AlertForExactly(bands, LevelOf(bands, ValueOf(history[n].read)), log[n]);
  }

  lemma HistoryReads(prices: Prices, history: seq<Entry>, n: nat)
    requires IsHistory(prices, history) && n < |history|
    ensures IsLatest(RowsOf(prices, history)[..n], history[n].event.key, history[n].read)
  {
  }

  /** The alerts on record are those of the events in `at`, in order. */
  ghost predicate Recorded(prices: Prices, bands: LtvBands, history: seq<Entry>, n: nat, at: seq<nat>)
    requires n <= |history|
  {
    var alerts, events := Raised(prices, bands, history, n), EventsOf(history);
    && |at| == |alerts|
    && (forall i, j :: 0 <= i < j < |at| ==> at[i] < at[j])
    && (forall k: nat :: k in at <==> k < n && history[k].recorded && Escalates(prices, bands, events, k))
    && (forall i :: 0 <= i < |at| ==>
          at[i] < n && Tells(bands, alerts[i], events[at[i]].key, Fold(prices, OwnUpTo(events, at[i]))))
  }

  /** Over any run of the store with increasing times there is one alert, and only
      one, for each event at which the position's own stream escalates and whose
      recording went through; it tells that position, its LTV and its new level. */
  lemma {:induction false} AlertsAreEscalations(prices: Prices, bands: LtvBands, history: seq<Entry>, n: nat)
    returns (at: seq<nat>)
    requires IsHistory(prices, history) && Increasing(EventsOf(history)) && n <= |history|
    ensures Recorded(prices, bands, history, n, at)
  {
    hide IsHistory, Increasing, Recorded, AlertAt, Escalates, Tells, OwnUpTo, Fold, Sub, Raised;
    if n == 0 {
      at := [];
      NothingRaised(prices, bands, history);
    } else {
      at := AlertsAreEscalations(prices, bands, history, n - 1);
      AlertIsEscalation(prices, bands, history, n - 1);
      if history[n - 1].recorded && AlertAt(prices, bands, history[n - 1]).Some? {
        RecordedOneMore(prices, bands, history, n - 1, at);
        at := at + [n - 1];
      } else {
        RecordedNoMore(prices, bands, history, n - 1, at);
      }
    }
  }

  lemma NothingRaised(prices: Prices, bands: LtvBands, history: seq<Entry>)
    ensures Recorded(prices, bands, history, 0, [])
  {
  }

  lemma RecordedOneMore(prices: Prices, bands: LtvBands, history: seq<Entry>, n: nat, at: seq<nat>)
    requires n < |history| && Recorded(prices, bands, history, n, at)
    requires history[n].recorded && AlertAt(prices, bands, history[n]).Some?
    requires Escalates(prices, bands, EventsOf(history), n)
    requires Tells(bands, AlertAt(prices, bands, history[n]).value, history[n].event.key,
                   Fold(prices, OwnUpTo(EventsOf(history), n)))
    ensures Recorded(prices, bands, history, n + 1, at + [n])
  {
    hide AlertAt, Escalates, Tells, Fold, OwnUpTo;
    var more := at + [n];
    assert forall k: nat :: k in more <==> k in at || k == n;
    var alerts := Raised(prices, bands, history, n);
    assert Raised(prices, bands, history, n + 1) == alerts + [AlertAt(prices, bands, history[n]).value];
    assert forall i :: 0 <= i < |at| ==> at[i] in at;
  }

  lemma RecordedNoMore(prices: Prices, bands: LtvBands, history: seq<Entry>, n: nat, at: seq<nat>)
    requires n < |history| && Recorded(prices, bands, history, n, at)
    requires !history[n].recorded || AlertAt(prices, bands, history[n]).None?
    requires AlertAt(prices, bands, history[n]).Some? <==> Escalates(prices, bands, EventsOf(history), n)
    ensures Recorded(prices, bands, history, n + 1, at)
  {
    hide AlertAt, Escalates, Tells, Fold, OwnUpTo;
    assert Raised(prices, bands, history, n + 1) == Raised(prices, bands, history, n);
  }

  // ---- alerts do not repeat themselves ----

  lemma {:induction false} OwnGrows(events: seq<Event>, m: nat, n: nat, key: PositionKey)
    requires m <= n <= |events|
    ensures |Sub(events, m, key)| <= |Sub(events, n, key)|
    ensures Sub(events, m, key) == Sub(events, n, key)[..|Sub(events, m, key)|]
  {
    if m < n {
      OwnGrows(events, m, n - 1, key);
    }
  }

  /** Where in the run a position's own event stands. */
  lemma {:induction false} OwnEvent(events: seq<Event>, n: nat, key: PositionKey, q: nat) returns (k: nat)
    requires n <= |events| && q < |Sub(events, n, key)|
    ensures k < n && events[k].key == key && OwnUpTo(events, k) == Sub(events, n, key)[..q + 1]
    ensures |OwnUpTo(events, k)| == q + 1
  {
    if q < |Sub(events, n - 1, key)| {
      k := OwnEvent(events, n - 1, key, q);
    } else {
      k := n - 1;
    }
  }

  /** The position stands lower than `level`, or has no LTV, right after event `k`. */
  ghost predicate StandsLower(prices: Prices, bands: LtvBands, events: seq<Event>, k: nat, level: RiskLevel)
    requires k < |events|
  {
    var now := LevelOf(bands, Fold(prices, OwnUpTo(events, k)));
    now.None? || RiskRank(now.value) < RiskRank(level)
  }

  /** Between two alerts of a position at one level lies an event of its own that
      leaves it lower or without an LTV. */
  lemma AlertsNotRepeated(prices: Prices, bands: LtvBands, history: seq<Entry>, at: seq<nat>, i: nat, j: nat)
    returns (k: nat)
    requires Recorded(prices, bands, history, |history|, at) && i < j < |at|
    requires var alerts := Raised(prices, bands, history, |history|);
             alerts[i].key == alerts[j].key && alerts[i].level == alerts[j].level
    ensures var events, alert := EventsOf(history), Raised(prices, bands, history, |history|)[j];
            at[i] < k < at[j] && events[k].key == alert.key && StandsLower(prices, bands, events, k, alert.level)
  {
    hide Raised, Fold, LevelOf, Escalates, OwnUpTo, StandsLower;
    assert at[i] in at && at[j] in at;
    k := LowerBetween(prices, bands, EventsOf(history), at[i], at[j]);
  }

  lemma LowerBetween(prices: Prices, bands: LtvBands, events: seq<Event>, m: nat, n: nat) returns (k: nat)
    requires m < n < |events| && events[m].key == events[n].key
    requires Escalates(prices, bands, events, m) && Escalates(prices, bands, events, n)
    requires LevelOf(bands, Fold(prices, OwnUpTo(events, m))) == LevelOf(bands, Fold(prices, OwnUpTo(events, n)))
    ensures m < k < n && events[k].key == events[n].key
    ensures forall level :: LevelOf(bands, Fold(prices, OwnUpTo(events, n))) == Some(level) ==>
              StandsLower(prices, bands, events, k, level)
  {
    hide Fold, LevelOf, EscalatesAt;
    var key, own, earlier := events[n].key, OwnUpTo(events, n), OwnUpTo(events, m);
    OwnGrows(events, m + 1, n, key);
    assert own == Sub(events, n, key) + [events[n]];
    assert earlier == own[..|earlier|] && own[..|own|] == own;
    hide Sub;
    EscalatesEarlier(prices, bands, own, |earlier| - 1);
    var q := EscalationNotRepeated(prices, bands, own, |earlier| - 1, |own| - 1);
    k := OwnEvent(events, n, key, q);
    assert OwnUpTo(events, k) == own[..q + 1];
    if k <= m {
      OwnGrows(events, k + 1, m + 1, key);
    }
  }

  lemma EscalatesEarlier(prices: Prices, bands: LtvBands, own: seq<Event>, q: nat)
    requires q < |own|
    ensures EscalatesAt(prices, bands, own[..q + 1], q) <==> EscalatesAt(prices, bands, own, q)
  {
    assert own[..q + 1][..q] == own[..q] && own[..q + 1][..q + 1] == own[..q + 1];
  }
}
