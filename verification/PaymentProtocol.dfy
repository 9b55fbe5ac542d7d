/** Whale-payment ingestion as a protocol that may crash at any step
    (`ingest_payments`, `ingest_whale_payment`, src/bin/ingest.rs): a ledger that
    grows, a database with atomic commits, and a volatile process. */
module PaymentProtocol {
  import opened Wrappers
  import opened AlertRules
  import opened PaymentLedger

  /** What a cycle runs under: the rules it loaded and the configured default. */
  datatype Settings = Settings(rules: seq<Rule>, defaultThreshold: real)

  function PaymentAsset(p: Payment): (string, Option<string>) {
    if p.assetType == Some("native") then ("XLM", None)
    else (if p.assetCode.Some? then p.assetCode.value else "UNKNOWN", p.assetIssuer)
  }

  function ThresholdFor(settings: Settings, p: Payment): real {
    var (code, issuer) := PaymentAsset(p);
    ResolveWhaleThreshold(settings.rules, code, issuer, settings.defaultThreshold)
  }

  function WhaleAmount(opType: string, amount: real, threshold: real): Option<real> {
    if opType != "payment" || amount < threshold then None else Some(amount)
  }

  /** A missing amount is skipped; one that does not parse fails the cycle. */
  function Assess(settings: Settings, p: Payment): Result<Option<real>, string> {
    match p.amount
    case Missing => Success(None)
    case Unparsable => Failure("bad amount")
    case Parsed(amount) => Success(WhaleAmount(p.opType, amount, ThresholdFor(settings, p)))
  }

  /** A payment found to be whale-sized, with its amount. */
  datatype Whale = Whale(payment: Payment, amount: real)

  datatype WhaleRow = WhaleRow(time: int, whale: Whale)

  /** `ON CONFLICT (op_id, time) DO NOTHING`: the time is the writer's clock. */
  predicate Conflicts(rows: seq<WhaleRow>, time: int, id: string) {
    exists i :: 0 <= i < |rows| && rows[i].time == time && rows[i].whale.payment.id == id
  }

  /** Alerts are recorded one by one after the commit; each names its payment. */
  datatype Database = Database(cursor: Option<int>, rows: seq<WhaleRow>, alerts: seq<Whale>)

  datatype Process =
    | Idle
    | Working(settings: Settings, fetched: seq<Payment>, done: nat, txRows: seq<WhaleRow>, pending: seq<Whale>)
    | Alerting(pending: seq<Whale>)

  /** A committed cycle, for the record. */
  datatype Batch = Batch(settings: Settings, payments: seq<Payment>)

  /** `seed` is where the first run put the cursor; `batches` what was committed. */
  datatype State = State(ledger: Ledger, db: Database, process: Process, seed: nat, batches: seq<Batch>)

  const EMPTY := State([], Database(None, [], []), Idle, 0, [])

  datatype Action =
    | Grow(payment: Payment)
    | Seed(newest: nat)
    | Fetch(settings: Settings, count: nat)
    | Examine(time: int)
    | Commit(acknowledged: bool)
    | Record(stored: bool)
    | Crash

  function Strip(rows: seq<WhaleRow>): seq<Whale> {
    seq(|rows|, i requires 0 <= i < |rows| => rows[i].whale)
  }

  /** One step; an action that is not possible in `s` does nothing. */
  function Step(s: State, a: Action): State {
    match a
    case Grow(payment) => GrowStep(s, payment)
    case Seed(newest) => SeedStep(s, newest)
    case Fetch(settings, count) => FetchStep(s, settings, count)
    case Examine(time) => ExamineStep(s, time)
    case Commit(acknowledged) => CommitStep(s, acknowledged)
    case Record(stored) => RecordStep(s, stored)
    case Crash => s.(process := Idle)
  }

  function GrowStep(s: State, payment: Payment): State {
    if |s.ledger| > 0 && payment.token <= s.ledger[|s.ledger| - 1].token then s
    else if exists i :: 0 <= i < |s.ledger| && s.ledger[i].id == payment.id then s
    else s.(ledger := s.ledger + [payment])
  }

  /** First run: the cursor goes to the newest payment the server shows, if any. */
  function SeedStep(s: State, newest: nat): State {
    if !s.process.Idle? || s.db.cursor.Some? || newest == 0 || newest > |s.ledger| then s
    else s.(db := s.db.(cursor := Some(s.ledger[newest - 1].token)), seed := newest)
  }

  /** A successful page walk: the next payments after the stored cursor. */
  function FetchStep(s: State, settings: Settings, count: nat): State {
    if !s.process.Idle? || s.db.cursor.None? then s
    else
      var p := Position(s.ledger, s.db.cursor.value);
      if count == 0 || p + count > |s.ledger| then s
      else s.(process := Working(settings, s.ledger[p..p + count], 0, [], []))
  }

  /** The next fetched payment, inside the transaction. */
  function ExamineStep(s: State, time: int): State {
    match s.process
    case Working(settings, fetched, done, txRows, pending) =>
      if done >= |fetched| then s
      else
        var p := fetched[done];
        (match Assess(settings, p)
         case Failure(_) => s.(process := Idle)
         case Success(None) => s.(process := s.process.(done := done + 1))
         case Success(Some(amount)) =>
           if Conflicts(s.db.rows + txRows, time, p.id) then s.(process := s.process.(done := done + 1))
           else
             var whale := Whale(p, amount);
             s.(process := Working(settings, fetched, done + 1, txRows + [WhaleRow(time, whale)], pending + [whale])))
    case _ => s
  }

  /** Rows and cursor become durable together. The process may not learn of it. */
  function CommitStep(s: State, acknowledged: bool): State {
    match s.process
    case Working(settings, fetched, done, txRows, pending) =>
      if done != |fetched| || fetched == [] then s
      else
        State(
          s.ledger,
          Database(Some(fetched[|fetched| - 1].token), s.db.rows + txRows, s.db.alerts),
          if acknowledged then Alerting(pending) else Idle,
          s.seed,
          s.batches + [Batch(settings, fetched)])
    case _ => s
  }

  /** The next pending alert is stored, or its recording fails and is only logged. */
  function RecordStep(s: State, stored: bool): State {
    match s.process
    case Alerting(pending) =>
      if pending == [] then s.(process := Idle)
      else
        s.(process := Alerting(pending[1..]),
           db := s.db.(alerts := s.db.alerts + if stored then [pending[0]] else []))
    case _ => s
  }

  function Exec(s: State, actions: seq<Action>): State {
    if actions == [] then s else Step(Exec(s, actions[..|actions| - 1]), actions[|actions| - 1])
  }

  // ---- what was committed ----

  /** The payments of all committed cycles, in order. */
  function Processed(batches: seq<Batch>): seq<Payment> {
    if batches == [] then [] else Processed(batches[..|batches| - 1]) + batches[|batches| - 1].payments
  }

  /** The payments of a list that met the threshold in force. */
  function WhalesIn(settings: Settings, payments: seq<Payment>): seq<Whale> {
    if payments == [] then []
    else
      var rest, last := WhalesIn(settings, payments[..|payments| - 1]), payments[|payments| - 1];
      match Assess(settings, last)
      case Success(Some(amount)) => rest + [Whale(last, amount)]
      case _ => rest
  }

  function Whales(batches: seq<Batch>): seq<Whale> {
    if batches == [] then []
    else Whales(batches[..|batches| - 1]) + WhalesIn(batches[|batches| - 1].settings, batches[|batches| - 1].payments)
  }

  predicate AllParse(payments: seq<Payment>) {
    forall i :: 0 <= i < |payments| ==> !payments[i].amount.Unparsable?
  }

  /** `few` is `many` with some elements left out, in the same order. */
  predicate IsSubsequence<T(==)>(few: seq<T>, many: seq<T>) {
    if many == [] then few == []
    else
      || IsSubsequence(few, many[..|many| - 1])
      || (few != [] && few[|few| - 1] == many[|many| - 1] && IsSubsequence(few[..|few| - 1], many[..|many| - 1]))
  }

  // ---- the invariant ----

  /** How far the committed cycles reach into the ledger. */
  function Reach(s: State): nat { s.seed + |Processed(s.batches)| }

  /** The stored cursor stands right after the processed stretch of the ledger. */
  ghost predicate CursorSound(s: State) {
    match s.db.cursor
    case None => s.batches == []
    case Some(cursor) =>
      && 1 <= s.seed && Reach(s) <= |s.ledger|
      && Processed(s.batches) == s.ledger[s.seed..Reach(s)]
      && cursor == s.ledger[Reach(s) - 1].token
  }

  /** The transaction under way covers the next stretch, and has found exactly its
      whales so far. */
  ghost predicate ProcessSound(s: State) {
    match s.process
    case Idle => true
    case Working(settings, fetched, done, txRows, pending) =>
      && s.db.cursor.Some? && done <= |fetched|
      && Reach(s) + |fetched| <= |s.ledger| && fetched == s.ledger[Reach(s)..Reach(s) + |fetched|]
      && Strip(txRows) == pending == WhalesIn(settings, fetched[..done])
      && AllParse(fetched[..done])
    case Alerting(pending) => true
  }

  function PendingAlerts(s: State): seq<Whale> {
    if s.process.Alerting? then s.process.pending else []
  }

  ghost predicate Inv(s: State) {
    && WellFormed(s.ledger)
    && CursorSound(s)
    && ProcessSound(s)
    && Strip(s.db.rows) == Whales(s.batches)
    && AllParse(Processed(s.batches))
    && IsSubsequence(s.db.alerts + PendingAlerts(s), Strip(s.db.rows))
  }

  lemma StripAppends(rows: seq<WhaleRow>, more: seq<WhaleRow>)
    ensures Strip(rows + more) == Strip(rows) + Strip(more)
  {
  }

  lemma {:induction false} SubsequenceAppend<T>(few: seq<T>, many: seq<T>, tail: seq<T>)
    requires IsSubsequence(few, many)
    ensures IsSubsequence(few + tail, many + tail)
  {
    if tail == [] {
      assert few + tail == few && many + tail == many;
    } else {
      var n := |tail| - 1;
      SubsequenceAppend(few, many, tail[..n]);
      assert (few + tail)[..|few + tail| - 1] == few + tail[..n];
      assert (many + tail)[..|many + tail| - 1] == many + tail[..n];
    }
  }

  lemma {:induction false} SubsequenceDropLast<T>(few: seq<T>, many: seq<T>)
    requires few != [] && IsSubsequence(few, many)
    ensures IsSubsequence(few[..|few| - 1], many)
  {
    if many != [] && IsSubsequence(few, many[..|many| - 1]) {
      SubsequenceDropLast(few, many[..|many| - 1]);
    }
  }

  lemma {:induction false} SubsequenceOmit<T>(few: seq<T>, omitted: T, rest: seq<T>, many: seq<T>)
    requires IsSubsequence(few + [omitted] + rest, many)
    ensures IsSubsequence(few + rest, many)
  {
    var all := few + [omitted] + rest;
    if rest == [] {
      SubsequenceDropLast(all, many);
      assert all[..|all| - 1] == few && few + rest == few;
    } else {
      var front := many[..|many| - 1];
      if IsSubsequence(all, front) {
        SubsequenceOmit(few, omitted, rest, front);
      } else {
        var n := |rest| - 1;
        assert all[..|all| - 1] == few + [omitted] + rest[..n] && all[|all| - 1] == rest[n];
        SubsequenceOmit(few, omitted, rest[..n], front);
        assert (few + rest)[..|few + rest| - 1] == few + rest[..n];
      }
    }
  }

  lemma {:induction false} SubsequencePrefix<T>(few: seq<T>, rest: seq<T>, many: seq<T>)
    requires IsSubsequence(few + rest, many)
    ensures IsSubsequence(few, many)
  {
    if rest == [] {
      assert few + rest == few;
    } else {
      SubsequenceDropLast(few + rest, many);
      assert (few + rest)[..|few + rest| - 1] == few + rest[..|rest| - 1];
      SubsequencePrefix(few, rest[..|rest| - 1], many);
    }
  }

  /** Such a list is what is left of `many` at some places, in order. */
  lemma {:induction false} SubsequenceAt<T>(few: seq<T>, many: seq<T>) returns (at: seq<nat>)
    requires IsSubsequence(few, many)
    ensures |at| == |few| && forall i, j :: 0 <= i < j < |at| ==> at[i] < at[j]
    ensures forall i :: 0 <= i < |at| ==> at[i] < |many| && few[i] == many[at[i]]
  {
    if many == [] {
      at := [];
    } else {
      var n := |many| - 1;
      if IsSubsequence(few, many[..n]) {
        at := SubsequenceAt(few, many[..n]);
      } else {
        at := SubsequenceAt(few[..|few| - 1], many[..n]);
        at := at + [n];
      }
    }
  }

  // ---- every step keeps it ----

  lemma {:induction false} WhalesInFrom(settings: Settings, payments: seq<Payment>)
    ensures forall w :: w in WhalesIn(settings, payments) ==> w.payment in payments
  {
    hide Assess;
    if payments != [] {
      WhalesInFrom(settings, payments[..|payments| - 1]);
    }
  }

  /** The rules about a payment's asset: native payments are about XLM without an
      issuer, and a missing code reads "UNKNOWN". */
  ghost function RulesAbout(p: Payment): Rule -> bool {
    match (p.assetType, p.assetCode)
    case (Some("native"), _) => WhaleRulesFor("XLM", None)
    case (_, None) => WhaleRulesFor("UNKNOWN", p.assetIssuer)
    case (_, Some(code)) => WhaleRulesFor(code, p.assetIssuer)
  }

  lemma ThresholdInForce(settings: Settings, p: Payment, threshold: real)
    ensures InForce(settings.rules, RulesAbout(p), settings.defaultThreshold, threshold)
            <==> threshold == ThresholdFor(settings, p)
  {
    hide ResolveWhaleThreshold, InForce, WhaleRulesFor;
    var (code, issuer) := PaymentAsset(p);
    WhaleThresholdInForce(settings.rules, code, issuer, settings.defaultThreshold, threshold);
  }

  /** Whale-sized: a payment operation of at least the threshold in force for its
      asset. */
  ghost predicate IsWhale(settings: Settings, whale: Whale) {
    && whale.payment.opType == "payment" && whale.payment.amount == Parsed(whale.amount)
    && exists threshold: real ::
         InForce(settings.rules, RulesAbout(whale.payment), settings.defaultThreshold, threshold)
         && whale.amount >= threshold
  }

  /** Meeting the threshold, spelled out: the newest enabled rule for exactly the
      payment's asset sets it, or the default does. */
  lemma {:induction false} WhalesMeetThreshold(settings: Settings, payments: seq<Payment>, whale: Whale)
    ensures whale in WhalesIn(settings, payments) <==> whale.payment in payments && IsWhale(settings, whale)
  {
    hide ThresholdFor, InForce, RulesAbout;
    if payments != [] {
      var front, last := payments[..|payments| - 1], payments[|payments| - 1];
      assert payments == front + [last];
      WhalesMeetThreshold(settings, front, whale);
      AssessFindsWhale(settings, last, whale.amount);
      hide Assess, IsWhale;
    }
  }

  lemma AssessFindsWhale(settings: Settings, p: Payment, amount: real)
    ensures Assess(settings, p) == Success(Some(amount)) <==> IsWhale(settings, Whale(p, amount))
  {
    hide ThresholdFor, InForce, RulesAbout;
    forall threshold: real
      ensures InForce(settings.rules, RulesAbout(p), settings.defaultThreshold, threshold)
              <==> threshold == ThresholdFor(settings, p)
    {
      ThresholdInForce(settings, p, threshold);
    }
    assert InForce(settings.rules, RulesAbout(p), settings.defaultThreshold, ThresholdFor(settings, p));
  }

  lemma {:induction false} WhalesFrom(batches: seq<Batch>)
    ensures forall w :: w in Whales(batches) ==> w.payment in Processed(batches)
  {
    hide WhalesIn;
    if batches != [] {
      WhalesFrom(batches[..|batches| - 1]);
      WhalesInFrom(batches[|batches| - 1].settings, batches[|batches| - 1].payments);
    }
  }

  /** The insert never meets a row of the same operation: earlier cycles and the
      transaction so far are about earlier payments. The conflict clause, whose
      key holds the writer's clock, is never what prevents a duplicate. */
  lemma NeverConflicts(s: State, time: int)
    requires Inv(s) && s.process.Working? && s.process.done < |s.process.fetched|
    ensures !Conflicts(s.db.rows + s.process.txRows, time, s.process.fetched[s.process.done].id)
  {
    hide WhalesIn, Whales, Processed, AllParse, IsSubsequence;
    var Working(settings, fetched, done, txRows, pending) := s.process;
    WhalesFrom(s.batches);
    WhalesInFrom(settings, fetched[..done]);
    var here := Reach(s) + done;
    assert fetched[done] == s.ledger[here];
    forall i | 0 <= i < |s.db.rows + txRows|
      ensures (s.db.rows + txRows)[i].whale.payment.id != fetched[done].id
    {
      var payment := (s.db.rows + txRows)[i].whale.payment;
      if i < |s.db.rows| {
        assert Strip(s.db.rows)[i].payment == payment;
        assert payment in s.ledger[s.seed..Reach(s)];
      } else {
        assert Strip(txRows)[i - |s.db.rows|].payment == payment;
        assert payment in fetched[..done];
        var k :| 0 <= k < done && fetched[k] == payment;
        assert s.ledger[Reach(s) + k] == payment;
      }
    }
  }

  lemma GrowKeeps(s: State, payment: Payment)
    requires Inv(s)
    ensures Inv(GrowStep(s, payment))
  {
    hide Whales, Processed, WhalesIn, IsSubsequence, Strip, AllParse;
    var next := GrowStep(s, payment);
    if next != s {
      assert next.ledger == s.ledger + [payment];
      GrowWellFormed(s.ledger, payment);
    }
  }

  /** The ledger takes every payment that keeps it well formed, and no other. */
  lemma GrowExactly(s: State, payment: Payment)
    requires WellFormed(s.ledger)
    ensures GrowStep(s, payment)
            == if WellFormed(s.ledger + [payment]) then s.(ledger := s.ledger + [payment]) else s
  {
    var n, more := |s.ledger|, s.ledger + [payment];
    assert forall i :: 0 <= i < n ==> more[i] == s.ledger[i];
    assert more[n] == payment;
    if GrowStep(s, payment) != s {
      GrowWellFormed(s.ledger, payment);
    }
  }

  lemma GrowWellFormed(ledger: Ledger, payment: Payment)
    requires WellFormed(ledger)
    requires |ledger| > 0 ==> ledger[|ledger| - 1].token < payment.token
    requires forall i :: 0 <= i < |ledger| ==> ledger[i].id != payment.id
    ensures WellFormed(ledger + [payment])
  {
    forall i | 0 <= i < |ledger|
      ensures ledger[i].token < payment.token
    {
      assert i < |ledger| - 1 ==> ledger[i].token < ledger[|ledger| - 1].token;
    }
  }

  lemma SeedKeeps(s: State, newest: nat)
    requires Inv(s)
    ensures Inv(SeedStep(s, newest))
  {
    hide Whales, WhalesIn, IsSubsequence, Strip, AllParse;
  }

  /** Before the commit only the process moves. */
  lemma ProcessMoves(s: State, process: Process)
    requires Inv(s) && !s.process.Alerting? && !process.Alerting? && ProcessSound(s.(process := process))
    ensures Inv(s.(process := process))
  {
    hide Whales, Processed, WhalesIn, IsSubsequence, AllParse, Strip;
  }

  lemma FetchKeeps(s: State, settings: Settings, count: nat)
    requires Inv(s)
    ensures Inv(FetchStep(s, settings, count))
  {
    hide WellFormed, Whales, Processed, WhalesIn, AllParse, Strip, IsSubsequence, Position;
    var next := FetchStep(s, settings, count);
    if next != s {
      PositionOf(s.ledger, Reach(s) - 1);
      NothingFound(settings, next.process.fetched);
      ProcessMoves(s, next.process);
    }
  }

  lemma NothingFound(settings: Settings, fetched: seq<Payment>)
    ensures WhalesIn(settings, fetched[..0]) == [] && AllParse(fetched[..0]) && Strip([]) == []
  {
  }

  lemma FailsIffUnparsable(settings: Settings, p: Payment)
    ensures Assess(settings, p).Failure? <==> p.amount.Unparsable?
  {
  }

  /** One more payment examined without error. */
  lemma WhalesOneMore(settings: Settings, fetched: seq<Payment>, done: nat)
    requires done < |fetched| && Assess(settings, fetched[done]).Success?
    ensures WhalesIn(settings, fetched[..done + 1])
            == WhalesIn(settings, fetched[..done])
               + match Assess(settings, fetched[done]).value
                 case None => []
                 case Some(amount) => [Whale(fetched[done], amount)]
    ensures AllParse(fetched[..done]) ==> AllParse(fetched[..done + 1])
  {
    FailsIffUnparsable(settings, fetched[done]);
    assert AllParse(fetched[..done]) ==> AllParse(fetched[..done + 1]) by { ParsedOneMore(fetched, done); }
    hide Assess, AllParse;
    assert fetched[..done + 1][..done] == fetched[..done];
    assert WhalesIn(settings, fetched[..done]) + [] == WhalesIn(settings, fetched[..done]);
  }

  lemma ParsedOneMore(payments: seq<Payment>, n: nat)
    requires n < |payments| && !payments[n].amount.Unparsable?
    ensures AllParse(payments[..n]) ==> AllParse(payments[..n + 1])
  {
    assert forall i :: 0 <= i < n ==> payments[..n + 1][i] == payments[..n][i];
  }

  lemma ExamineKeeps(s: State, time: int)
    requires Inv(s)
    ensures Inv(ExamineStep(s, time))
  {
    hide Whales, Processed, WhalesIn, IsSubsequence, Conflicts, Assess, AllParse, Strip;
    if s.process.Working? {
      ExamineSound(s, time);
      ProcessMoves(s, ExamineStep(s, time).process);
    }
  }

  lemma ExamineSound(s: State, time: int)
    requires Inv(s) && s.process.Working?
    ensures ProcessSound(ExamineStep(s, time)) && !ExamineStep(s, time).process.Alerting?
    ensures ExamineStep(s, time) == s.(process := ExamineStep(s, time).process)
  {
    hide Whales, Processed, WhalesIn, IsSubsequence, Conflicts, Assess, AllParse, Strip;
    if s.process.Working? && s.process.done < |s.process.fetched| {
      var Working(settings, fetched, done, txRows, pending) := s.process;
      var found := Assess(settings, fetched[done]);
      NeverConflicts(s, time);
      if found.Success? {
        WhalesOneMore(settings, fetched, done);
        if found.value.Some? {
          var row := WhaleRow(time, Whale(fetched[done], found.value.value));
          StripAppends(txRows, [row]);
          StripOne(row);
        }
      }
    }
  }

  lemma StripOne(row: WhaleRow)
    ensures Strip([row]) == [row.whale]
  {
  }

  lemma OneMoreBatch(batches: seq<Batch>, batch: Batch)
    ensures Processed(batches + [batch]) == Processed(batches) + batch.payments
    ensures Whales(batches + [batch]) == Whales(batches) + WhalesIn(batch.settings, batch.payments)
  {
    assert (batches + [batch])[..|batches|] == batches;
  }

  lemma CommitKeeps(s: State, acknowledged: bool)
    requires Inv(s)
    ensures Inv(CommitStep(s, acknowledged))
  {
    hide IsSubsequence, WhalesIn, Whales, Processed, Strip;
    var next := CommitStep(s, acknowledged);
    if next != s && s.process.Working? {
      var Working(settings, fetched, done, txRows, pending) := s.process;
      OneMoreBatch(s.batches, Batch(settings, fetched));
      assert fetched[..done] == fetched;
      assert CursorSound(next) by {
        assert s.ledger[s.seed..Reach(s)] + fetched == s.ledger[s.seed..Reach(s) + |fetched|];
        assert s.ledger[Reach(next) - 1] == fetched[|fetched| - 1];
      }
      StripAppends(s.db.rows, txRows);
      assert s.db.alerts + PendingAlerts(s) == s.db.alerts;
      SubsequenceAppend(s.db.alerts, Strip(s.db.rows), pending);
      SubsequencePrefix(s.db.alerts, pending, Strip(next.db.rows));
      assert s.db.alerts + [] == s.db.alerts;
    }
  }

  lemma RecordKeeps(s: State, stored: bool)
    requires Inv(s)
    ensures Inv(RecordStep(s, stored))
  {
    hide Whales, Processed, WhalesIn, IsSubsequence, Strip, AllParse;
    if s.process.Alerting? && s.process.pending != [] {
      var alerts, pending := s.db.alerts, s.process.pending;
      assert alerts + pending == alerts + [pending[0]] + pending[1..];
      if !stored {
        SubsequenceOmit(alerts, pending[0], pending[1..], Strip(s.db.rows));
        assert alerts + [] == alerts;
      }
    } else if s.process.Alerting? {
      assert s.db.alerts + PendingAlerts(s) == s.db.alerts + [];
    }
  }

  lemma CrashKeeps(s: State)
    requires Inv(s)
    ensures Inv(s.(process := Idle))
  {
    hide Whales, Processed, WhalesIn, IsSubsequence, Strip, AllParse;
    SubsequencePrefix(s.db.alerts, PendingAlerts(s), Strip(s.db.rows));
    assert s.db.alerts + [] == s.db.alerts;
  }

  lemma StepKeeps(s: State, a: Action)
    requires Inv(s)
    ensures Inv(Step(s, a))
  {
    hide Inv, GrowStep, SeedStep, FetchStep, ExamineStep, CommitStep, RecordStep;
    match a
    case Grow(payment) => GrowKeeps(s, payment);
    case Seed(newest) => SeedKeeps(s, newest);
    case Fetch(settings, count) => FetchKeeps(s, settings, count);
    case Examine(time) => ExamineKeeps(s, time);
    case Commit(acknowledged) => CommitKeeps(s, acknowledged);
    case Record(stored) => RecordKeeps(s, stored);
    case Crash => CrashKeeps(s);
  }

  lemma {:induction false} RunKeeps(s: State, actions: seq<Action>)
    requires Inv(s)
    ensures Inv(Exec(s, actions))
  {
    hide Inv, Step;
    if actions != [] {
      RunKeeps(s, actions[..|actions| - 1]);
      StepKeeps(Exec(s, actions[..|actions| - 1]), actions[|actions| - 1]);
    }
  }

  // ---- what holds of every run ----

  /** No two entries are about the same payment. */
  ghost predicate EachOnce(whales: seq<Whale>) {
    forall i, j :: 0 <= i < j < |whales| ==> whales[i].payment.id != whales[j].payment.id
  }

  lemma {:induction false} WhalesInOrder(settings: Settings, payments: seq<Payment>)
    requires WellFormed(payments)
    ensures EachOnce(WhalesIn(settings, payments))
  {
    hide Assess;
    if payments != [] {
      var front, last := payments[..|payments| - 1], payments[|payments| - 1];
      WhalesInOrder(settings, front);
      WhalesInFrom(settings, front);
      var rest := WhalesIn(settings, front);
      forall i | 0 <= i < |rest|
        ensures rest[i].payment.id != last.id
      {
        assert rest[i] in rest;
        var k :| 0 <= k < |front| && front[k] == rest[i].payment;
        assert payments[k] == front[k];
      }
    }
  }

  lemma {:induction false} WhalesOnce(batches: seq<Batch>)
    requires WellFormed(Processed(batches))
    ensures EachOnce(Whales(batches))
  {
    hide WhalesIn;
    if batches != [] {
      var front, last := batches[..|batches| - 1], batches[|batches| - 1];
      var before, more := Processed(front), last.payments;
      hide WellFormed, EachOnce;
      WellFormedParts(before, more);
      WhalesOnce(front);
      WhalesInOrder(last.settings, more);
      WhalesFrom(front);
      WhalesInFrom(last.settings, more);
      JoinOnce(Whales(front), WhalesIn(last.settings, more), before, more);
    } else {
      assert EachOnce([]);
    }
  }

  lemma WellFormedParts(before: seq<Payment>, more: seq<Payment>)
    requires WellFormed(before + more)
    ensures WellFormed(before) && WellFormed(more)
  {
    var all := before + more;
    assert all[..|before|] == before && all[|before|..] == more;
    WellFormedSlice(all, 0, |before|);
    WellFormedSlice(all, |before|, |all|);
  }

  lemma JoinOnce(a: seq<Whale>, b: seq<Whale>, before: seq<Payment>, more: seq<Payment>)
    requires EachOnce(a) && EachOnce(b) && WellFormed(before + more)
    requires forall w :: w in a ==> w.payment in before
    requires forall w :: w in b ==> w.payment in more
    ensures EachOnce(a + b)
  {
    forall i, j | 0 <= i < |a| && 0 <= j < |b|
      ensures a[i].payment.id != b[j].payment.id
    {
      assert a[i] in a && b[j] in b;
      var m :| 0 <= m < |before| && before[m] == a[i].payment;
      var n :| 0 <= n < |more| && more[n] == b[j].payment;
      assert (before + more)[m] == before[m] && (before + more)[|before| + n] == more[n];
    }
  }

  lemma {:induction false} WhalesAre(batches: seq<Batch>, whale: Whale)
    ensures whale in Whales(batches)
            <==> exists i :: && 0 <= i < |batches|
                             && whale.payment in batches[i].payments && IsWhale(batches[i].settings, whale)
  {
    hide IsWhale, WhalesIn;
    if batches != [] {
      var n := |batches| - 1;
      WhalesAre(batches[..n], whale);
      WhalesMeetThreshold(batches[n].settings, batches[n].payments, whale);
      assert forall i :: 0 <= i < n ==> batches[..n][i] == batches[i];
    }
  }

  /** From an empty start, whatever the failures, rollbacks, lost acknowledgements
      and crashes: the committed rows are exactly the payments from the seeded
      cursor to the stored one that met the threshold in force when processed,
      each exactly once and in order; the alerts are some of those rows, in order
      and none twice. */
  lemma ExactlyOnce(actions: seq<Action>)
    ensures var s := Exec(EMPTY, actions);
            && Strip(s.db.rows) == Whales(s.batches) && EachOnce(Strip(s.db.rows))
            && IsSubsequence(s.db.alerts, Strip(s.db.rows))
    ensures var s := Exec(EMPTY, actions);
            forall whale :: whale in Strip(s.db.rows) <==>
              exists i :: && 0 <= i < |s.batches|
                          && whale.payment in s.batches[i].payments && IsWhale(s.batches[i].settings, whale)
    ensures var s := Exec(EMPTY, actions);
            match s.db.cursor
            case None => s.db.rows == []
            case Some(cursor) =>
              1 <= s.seed <= Position(s.ledger, cursor)
              && Processed(s.batches) == s.ledger[s.seed..Position(s.ledger, cursor)]
  {
    hide Exec, WhalesIn, IsSubsequence, Position, IsWhale;
    StartsSound();
    RunKeeps(EMPTY, actions);
    var s := Exec(EMPTY, actions);
    SubsequencePrefix(s.db.alerts, PendingAlerts(s), Strip(s.db.rows));
    if s.db.cursor.Some? {
      PositionOf(s.ledger, Reach(s) - 1);
      WellFormedSlice(s.ledger, s.seed, Reach(s));
    }
    WhalesOnce(s.batches);
    forall whale
      ensures whale in Strip(s.db.rows) <==>
                exists i :: && 0 <= i < |s.batches|
                            && whale.payment in s.batches[i].payments && IsWhale(s.batches[i].settings, whale)
    {
      WhalesAre(s.batches, whale);
    }
  }

  lemma StartsSound()
    ensures Inv(EMPTY)
  {
  }

  /** A payment whose amount does not parse is never passed: in every run that
      starts at or before it, the stored cursor stays before it for good. */
  lemma NeverPassesUnparsable(actions: seq<Action>, i: nat)
    requires var s := Exec(EMPTY, actions);
             s.db.cursor.Some? && s.seed <= i < |s.ledger| && s.ledger[i].amount.Unparsable?
    ensures var s := Exec(EMPTY, actions); Position(s.ledger, s.db.cursor.value) <= i
  {
    hide Exec, Inv;
    StartsSound();
    RunKeeps(EMPTY, actions);
    StandsBeforeUnparsable(Exec(EMPTY, actions), i);
  }

  lemma StandsBeforeUnparsable(s: State, i: nat)
    requires Inv(s) && s.db.cursor.Some? && s.seed <= i < |s.ledger| && s.ledger[i].amount.Unparsable?
    ensures Position(s.ledger, s.db.cursor.value) <= i
  {
    hide Whales, WhalesIn, IsSubsequence, Position, Strip, WellFormed, AllParse, Processed;
    PositionOf(s.ledger, Reach(s) - 1);
    ParsedIn(s.ledger, s.seed, Reach(s), i);
  }

  lemma ParsedIn(ledger: Ledger, from: nat, to: nat, i: nat)
    requires from <= to <= |ledger| && AllParse(ledger[from..to])
    ensures from <= i < to ==> !ledger[i].amount.Unparsable?
  {
    assert from <= i < to ==> ledger[from..to][i - from] == ledger[i];
  }
}
