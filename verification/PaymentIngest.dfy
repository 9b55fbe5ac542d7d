/** One cycle of payment ingestion as the code runs it (`ingest_payments`,
    src/bin/ingest.rs), shown to be a path of the protocol, and how fast cycles
    work off a backlog. */
module PaymentIngest {
  import opened Wrappers
  import opened PaymentLedger
  import opened PaymentProtocol

  const MAX_PAGES_PER_CYCLE := 25
  const PAGE_LIMIT := 200

  /** What a cycle meets outside: replies, clocks and failing statements. */
  datatype Environment = Environment(
    cursorReadOk: bool, tip: Reply, seed: WriteOutcome, replies: nat -> Reply,
    clock: nat -> int, insertOk: nat -> bool, setCursorOk: bool, commit: WriteOutcome, alertStored: nat -> bool)

  ghost predicate WritesSucceed(env: Environment) {
    (forall i :: env.insertOk(i)) && env.setCursorOk && env.commit == Written
  }

  /** Nothing outside fails, and the server sees the whole ledger. */
  ghost predicate Smooth(ledger: Ledger, env: Environment) {
    env.cursorReadOk && Prompt(ledger, env.replies, MAX_PAGES_PER_CYCLE) && WritesSucceed(env)
  }

  const CYCLE_LIMIT := MAX_PAGES_PER_CYCLE * PAGE_LIMIT

  /** The payments a smooth cycle fetches from position `p`. */
  function NextStretch(ledger: Ledger, p: nat): seq<Payment>
    requires p <= |ledger|
  {
    ledger[p..p + Min(|ledger| - p, CYCLE_LIMIT)]
  }

  /** Where a smooth cycle leaves the cursor: the cycle commits as a whole or, if
      any fetched amount does not parse, not at all. */
  function CycleEnd(ledger: Ledger, p: nat): (q: nat)
    requires p <= |ledger|
    ensures q <= |ledger|
  {
    if AllParse(NextStretch(ledger, p)) then p + |NextStretch(ledger, p)| else p
  }

  lemma ExecOneMore(s: State, trace: seq<Action>, a: Action)
    ensures Exec(s, trace + [a]) == Step(Exec(s, trace), a)
  {
    assert (trace + [a])[..|trace + [a]| - 1] == trace;
  }

  /** The payment tables. `seed` and `batches` record what the commits covered. */
  class PaymentStore {
    var cursor: Option<int>
    var rows: seq<WhaleRow>
    var alerts: seq<Whale>
    ghost var seed: nat
    ghost var batches: seq<Batch>

    ghost function Db(): Database
      reads this
    {
      Database(cursor, rows, alerts)
    }

    /** The protocol state with these tables and this process. */
    ghost function Abs(ledger: Ledger, process: Process): State
      reads this
    {
      State(ledger, Db(), process, seed, batches)
    }

    constructor ()
      ensures Abs([], Idle) == EMPTY
    {
      cursor, rows, alerts, seed, batches := None, [], [], 0, [];
    }

    /** First run: seed the cursor at the newest payment, if the server shows one.
        The write may land while looking failed. */
    method SeedCursor(ledger: Ledger, env: Environment) returns (r: Result<(), string>, ghost trace: seq<Action>)
      requires cursor.None?
      modifies this`cursor, this`seed
      ensures Abs(ledger, Idle) == Exec(old(Abs(ledger, Idle)), trace)
      ensures var newest := if env.tip.Reply? then Min(env.tip.visible, |ledger|) else 0;
              && (r.Success? <==> env.tip.Reply? && (newest > 0 ==> env.seed == Written))
              && cursor == if newest > 0 && env.seed != NotWritten then Some(ledger[newest - 1].token) else None
    {
      hide Exec, Step;
      trace := [];
      ghost var before := Abs(ledger, Idle);
      ExecNothing(before);
      if env.tip.Lost? {
        return Failure("horizon request failed"), trace;
      }
      var newest := Min(env.tip.visible, |ledger|);
      if newest == 0 {
        return Success(()), trace;
      }
      if env.seed == NotWritten {
        return Failure("cursor write failed"), trace;
      }
      cursor := Some(ledger[newest - 1].token);
      seed := newest;
      trace := [Seed(newest)];
      SeedEffect(before, newest);
      r := if env.seed == Written then Success(()) else Failure("cursor write not acknowledged");
    }

    /** Records the pending alerts one by one; a failure is only logged. */
    method RecordAlerts(ledger: Ledger, pending: seq<Whale>, env: Environment) returns (ghost trace: seq<Action>)
      modifies this`alerts
      ensures Abs(ledger, Idle) == Exec(old(Abs(ledger, Alerting(pending))), trace)
      ensures alerts == old(alerts) + Stored(pending, env)
    {
      hide Exec, Step;
      ghost var before := Abs(ledger, Alerting(pending));
      trace := [];
      ExecNothing(before);
      assert pending[0..] == pending && pending[..0] == [];
      for i := 0 to |pending|
        invariant Abs(ledger, Alerting(pending[i..])) == Exec(before, trace)
        invariant alerts == old(alerts) + Stored(pending[..i], env)
      {
        ghost var step := Record(env.alertStored(i));
        ExecOneMore(before, trace, step);
        RecordOne(Abs(ledger, Alerting(pending[i..])), env.alertStored(i));
        assert pending[i..][0] == pending[i] && pending[i..][1..] == pending[i + 1..];
        StoredOneMore(pending, i, env);
        if env.alertStored(i) {
          alerts := alerts + [pending[i]];
        }
        trace := trace + [step];
      }
      assert pending[..|pending|] == pending;
      ExecOneMore(before, trace, Record(true));
      RecordOne(Abs(ledger, Alerting(pending[|pending|..])), true);
      trace := trace + [Record(true)];
    }

    /** Works off fetched payments: one transaction for their whales and the cursor,
        then the alerts. The tables advance past all of them or stay as they were. */
    method ProcessPayments(ledger: Ledger, settings: Settings, env: Environment, payments: seq<Payment>)
      returns (r: Result<(), string>, ghost trace: seq<Action>)
      requires Inv(Abs(ledger, Idle)) && cursor.Some? && payments != []
      requires Walked(ledger, env.replies, cursor.value, MAX_PAGES_PER_CYCLE, PAGE_LIMIT, payments)
      modifies this
      ensures Abs(ledger, Idle) == Exec(old(Abs(ledger, Idle)), trace) && seed == old(seed)
      ensures r.Success? ==>
                && Advances(settings, payments, old(Db()), Db())
                && alerts == old(alerts) + Stored(WhalesIn(settings, payments), env)
      ensures r.Failure? ==>
                && alerts == old(alerts)
                && (!env.setCursorOk ==> Db() == old(Db()))
                && (|| Db() == old(Db())
                    || (env.commit == WrittenSilently && Advances(settings, payments, old(Db()), Db())))
      ensures r.Success? <==>
                AllParse(payments) && AllInsert(settings, payments, env) && env.setCursorOk && env.commit == Written
    {
      hide Exec, Step, Inv, Walked, AllParse, AllInsert, Whales;
      ghost var before := Abs(ledger, Idle);
      FetchWalked(before, settings, env, payments);
      ghost var working := Exec(before, [Fetch(settings, |payments|)]);
      var tx, examined := ExamineAll(settings, payments, rows, env, working);
      ExecJoin(before, [Fetch(settings, |payments|)], examined);
      trace := [Fetch(settings, |payments|)] + examined;
      if tx.Failure? {
        return Failure(tx.error), trace;
      }
      var (txRows, pending) := tx.value;
      ghost var ready := Exec(before, trace);
      RunKeeps(before, trace);
      ReadyToCommit(ready, settings, payments, txRows, pending);
      if !env.setCursorOk || env.commit == NotWritten {
        ExecOneMore(before, trace, Crash);
        CrashStep(ready);
        return Failure("not committed"), trace + [Crash];
      }
      ghost var commit := Commit(env.commit == Written);
      ExecOneMore(before, trace, commit);
      trace := trace + [commit];
      CommitEffect(ready, env.commit == Written);
      StripAppends(rows, txRows);
      cursor := Some(payments[|payments| - 1].token);
      rows := rows + txRows;
      batches := batches + [Batch(settings, payments)];
      if env.commit == WrittenSilently {
        return Failure("commit not acknowledged"), trace;
      }
      ghost var recorded := RecordAlerts(ledger, pending, env);
      ExecJoin(before, trace, recorded);
      return Success(()), trace + recorded;
    }

    /** One cycle. Whatever fails on the way, it is a path of the protocol, and the
        tables stay as they were or advance past the walked stretch with exactly its
        whales; a reported success means they advanced, and the alerts that could be
        stored are. */
    method IngestPayments(ledger: Ledger, settings: Settings, env: Environment)
      returns (r: Result<(), string>, ghost trace: seq<Action>, ghost fetched: seq<Payment>)
      requires Inv(Abs(ledger, Idle))
      modifies this
      ensures Inv(Abs(ledger, Idle)) && Abs(ledger, Idle) == Exec(old(Abs(ledger, Idle)), trace)
      ensures r.Success? && old(cursor).Some? ==>
                && Walked(ledger, env.replies, old(cursor).value, MAX_PAGES_PER_CYCLE, PAGE_LIMIT, fetched)
                && Advances(settings, fetched, old(Db()), Db())
                && alerts == old(alerts) + Stored(WhalesIn(settings, fetched), env)
                && (fetched != [] ==> AllInsert(settings, fetched, env) && env.setCursorOk && env.commit == Written)
      ensures !env.cursorReadOk ==> r.Failure? && Db() == old(Db())
      ensures r.Failure? ==> alerts == old(alerts)
      ensures r.Failure? && old(cursor).Some? ==>
                || Db() == old(Db())
                || (&& env.commit == WrittenSilently && env.setCursorOk && fetched != []
                    && Walked(ledger, env.replies, old(cursor).value, MAX_PAGES_PER_CYCLE, PAGE_LIMIT, fetched)
                    && Advances(settings, fetched, old(Db()), Db()))
      ensures old(cursor).Some? ==> cursor.Some? && seed == old(seed)
      ensures old(cursor).None? ==> rows == old(rows) && alerts == old(alerts)
      ensures r.Failure? && old(cursor).None? && env.seed != WrittenSilently ==> cursor.None?
      ensures old(cursor).Some? && Smooth(ledger, env) ==>
                var p := Position(ledger, old(cursor).value);
                && (r.Success? <==> AllParse(NextStretch(ledger, p)))
                && Position(ledger, cursor.value) == CycleEnd(ledger, p)
    {
      hide Exec, Step, Inv, Walked, Position, CycleEnd, AllParse, Smooth, WhalesIn;
      hide Stored, Advances, WritesSucceed, AllInsert;
      trace, fetched := [], [];
      ghost var before := Abs(ledger, Idle);
      ExecNothing(before);
      if Smooth(ledger, env) {
        SmoothMeansNoLoss(ledger, env);
      }
      if !env.cursorReadOk {
        return Failure("cursor read failed"), trace, fetched;
      }
      if cursor.None? {
        r, trace := SeedCursor(ledger, env);
        RunKeeps(before, trace);
        return r, trace, fetched;
      }
      InvWellFormed(before);
      var walked := GetAllPages(ledger, env.replies, cursor.value, MAX_PAGES_PER_CYCLE, PAGE_LIMIT);
      if walked.Failure? {
        return Failure(walked.error), trace, fetched;
      }
      fetched := walked.value;
      SmoothWalk(ledger, env, cursor.value, walked.value);
      if walked.value == [] {
        NothingFetched(settings, env, Db());
        return Success(()), trace, fetched;
      }
      r, trace := ProcessPayments(ledger, settings, env, walked.value);
      InsertsSucceed(settings, fetched, env);
      AdvancedTo(settings, fetched, old(Db()), Db());
      RunKeeps(before, trace);
    }

    /** The service's loop over cycles that may fail anywhere. The cursor never moves
        back; it never passes an amount that does not parse; and while none is left
        ahead, every smooth cycle takes its full share off the backlog, whatever
        happens in between. */
    method IngestCycles(ledger: Ledger, settings: nat -> Settings, envs: nat -> Environment, count: nat)
      requires Inv(Abs(ledger, Idle)) && cursor.Some?
      modifies this
      ensures Inv(Abs(ledger, Idle)) && cursor.Some?
      ensures Covers(ledger, envs, count, Position(ledger, old(cursor.value)), Position(ledger, cursor.value))
    {
      hide Exec, Inv, Position, Smooth, Walked, Advances, Covers;
      ghost var p := Position(ledger, cursor.value);
      SeededBefore(Abs(ledger, Idle));
      NothingCovered(ledger, envs, p);
      for n := 0 to count
        invariant Inv(Abs(ledger, Idle)) && cursor.Some? && seed <= p <= Position(ledger, cursor.value)
        invariant Covers(ledger, envs, n, p, Position(ledger, cursor.value))
      {
        ghost var before := Db();
        InvWellFormed(Abs(ledger, Idle));
        var r, trace, fetched := IngestPayments(ledger, settings(n), envs(n));
        NeverBack(ledger, settings(n), envs(n), before, Db(), fetched);
        StandsBefore(Abs(ledger, Idle), p);
        CoversMore(ledger, envs, n, p, Position(ledger, before.cursor.value), Position(ledger, cursor.value));
      }
    }
  }

  /** How far `n` cycles have come, from `p` to `q`. */
  ghost predicate Covers(ledger: Ledger, envs: nat -> Environment, n: nat, p: nat, q: nat) {
    && p <= q <= |ledger|
    && AllParse(ledger[p..q])
    && (AllParse(ledger[p..]) ==> q >= p + Min(|ledger| - p, SmoothOnes(ledger, envs, n) * CYCLE_LIMIT))
    && ((forall i: nat :: i < n ==> Smooth(ledger, envs(i))) ==> q == AfterCycles(ledger, p, n))
  }

  lemma NothingCovered(ledger: Ledger, envs: nat -> Environment, p: nat)
    requires p <= |ledger|
    ensures Covers(ledger, envs, 0, p, p)
  {
  }

  lemma CoversMore(ledger: Ledger, envs: nat -> Environment, n: nat, p: nat, q: nat, next: nat)
    requires Covers(ledger, envs, n, p, q) && q <= next <= |ledger| && AllParse(ledger[p..next])
    requires Smooth(ledger, envs(n)) ==> next == CycleEnd(ledger, q)
    ensures Covers(ledger, envs, n + 1, p, next)
  {
    hide Smooth;
    if AllParse(ledger[p..]) {
      ParsesAhead(ledger, p, q);
      var smooth := SmoothOnes(ledger, envs, n);
      assert (smooth + 1) * CYCLE_LIMIT == smooth * CYCLE_LIMIT + CYCLE_LIMIT;
    }
  }

  /** How many of the first `n` cycles are smooth. */
  ghost function SmoothOnes(ledger: Ledger, envs: nat -> Environment, n: nat): nat {
    if n == 0 then 0 else SmoothOnes(ledger, envs, n - 1) + if Smooth(ledger, envs(n - 1)) then 1 else 0
  }

  /** The seed is at or before the cursor. */
  lemma SeededBefore(s: State)
    requires Inv(s) && s.db.cursor.Some?
    ensures s.seed <= Position(s.ledger, s.db.cursor.value)
  {
    hide Whales, Processed, Position, IsSubsequence, Strip;
    PositionOf(s.ledger, Reach(s) - 1);
  }

  /** What lies between a point since the seed and the cursor has been parsed. */
  lemma StandsBefore(s: State, p: nat)
    requires Inv(s) && s.db.cursor.Some? && s.seed <= p <= Position(s.ledger, s.db.cursor.value)
    ensures AllParse(s.ledger[p..Position(s.ledger, s.db.cursor.value)])
  {
    hide Inv, Position;
    forall i | p <= i < Position(s.ledger, s.db.cursor.value)
      ensures !s.ledger[i].amount.Unparsable?
    {
      if s.ledger[i].amount.Unparsable? {
        StandsBeforeUnparsable(s, i);
      }
    }
  }

  /** One cycle, successful or not, leaves the cursor where it was or further on. */
  lemma NeverBack(ledger: Ledger, settings: Settings, env: Environment, before: Database, after: Database,
                  fetched: seq<Payment>)
    requires WellFormed(ledger) && before.cursor.Some? && after.cursor.Some?
    requires || after == before
             || (&& Walked(ledger, env.replies, before.cursor.value, MAX_PAGES_PER_CYCLE, PAGE_LIMIT, fetched)
                 && Advances(settings, fetched, before, after))
    ensures Position(ledger, before.cursor.value) <= Position(ledger, after.cursor.value)
  {
    hide Position, WellFormed, WhalesIn, AllParse;
    if after.cursor != before.cursor {
      PositionOf(ledger, Position(ledger, before.cursor.value) + |fetched| - 1);
    }
  }

  lemma ParsesAhead(ledger: Ledger, p: nat, at: nat)
    requires p <= at <= |ledger| && AllParse(ledger[p..])
    ensures AllParse(NextStretch(ledger, at))
  {
    forall i | 0 <= i < |NextStretch(ledger, at)|
      ensures !NextStretch(ledger, at)[i].amount.Unparsable?
    {
      assert NextStretch(ledger, at)[i] == ledger[p..][at - p + i];
    }
  }

  /** The tables move past these payments, gaining exactly their whales. */
  ghost predicate Advances(settings: Settings, payments: seq<Payment>, before: Database, after: Database) {
    && AllParse(payments)
    && Strip(after.rows) == Strip(before.rows) + WhalesIn(settings, payments)
    && after.cursor == if payments == [] then before.cursor else Some(payments[|payments| - 1].token)
  }

  lemma AdvancedTo(settings: Settings, payments: seq<Payment>, before: Database, after: Database)
    requires before.cursor.Some?
    ensures Advances(settings, payments, before, after) ==>
              && AllParse(payments) && after.cursor.Some?
              && (payments != [] ==> after.cursor.value == payments[|payments| - 1].token)
  {
  }

  lemma InsertsSucceed(settings: Settings, payments: seq<Payment>, env: Environment)
    ensures WritesSucceed(env) ==> AllInsert(settings, payments, env) && env.setCursorOk && env.commit == Written
  {
  }

  /** Nothing to do counts as done. */
  lemma NothingFetched(settings: Settings, env: Environment, db: Database)
    ensures Advances(settings, [], db, db) && Stored(WhalesIn(settings, []), env) == [] && AllParse([])
    ensures db.alerts + [] == db.alerts
  {
    assert Strip(db.rows) + [] == Strip(db.rows);
  }

  /** The alerts among `pending` whose recording succeeds. */
  function Stored(pending: seq<Whale>, env: Environment): seq<Whale> {
    if pending == [] then []
    else
      Stored(pending[..|pending| - 1], env)
      + if env.alertStored(|pending| - 1) then [pending[|pending| - 1]] else []
  }

  /** The alerts stored are those at these places of the first `n` pending. */
  ghost predicate StoredFrom(pending: seq<Whale>, env: Environment, n: nat, at: seq<nat>, stored: seq<Whale>) {
    && |at| == |stored| && (forall i, j :: 0 <= i < j < |at| ==> at[i] < at[j])
    && (forall k: nat :: k in at <==> k < n && env.alertStored(k))
    && forall i :: 0 <= i < |at| ==> at[i] < n <= |pending| && stored[i] == pending[at[i]]
  }

  lemma StoredFromMore(pending: seq<Whale>, env: Environment, n: nat, at: seq<nat>, stored: seq<Whale>)
    requires n < |pending| && StoredFrom(pending, env, n, at, stored)
    ensures !env.alertStored(n) ==> StoredFrom(pending, env, n + 1, at, stored)
    ensures env.alertStored(n) ==> StoredFrom(pending, env, n + 1, at + [n], stored + [pending[n]])
  {
    var more := at + [n];
    assert forall k: nat :: k in more <==> k in at || k == n;
  }

  /** Those stored are exactly the pending alerts whose recording succeeds, in order. */
  lemma {:induction false} StoredExactly(pending: seq<Whale>, env: Environment, n: nat) returns (at: seq<nat>)
    requires n <= |pending|
    ensures StoredFrom(pending, env, n, at, Stored(pending[..n], env))
  {
    if n == 0 {
      at := [];
    } else {
      at := StoredExactly(pending, env, n - 1);
      StoredOneMore(pending, n - 1, env);
      hide StoredFrom, Stored;
      StoredFromMore(pending, env, n - 1, at, Stored(pending[..n - 1], env));
      var before := Stored(pending[..n - 1], env);
      assert before + [] == before;
      if env.alertStored(n - 1) {
        at := at + [n - 1];
      }
    }
  }

  lemma StoredOneMore(pending: seq<Whale>, i: nat, env: Environment)
    requires i < |pending|
    ensures Stored(pending[..i + 1], env) == Stored(pending[..i], env) + if env.alertStored(i) then [pending[i]] else []
  {
    assert pending[..i + 1][..i] == pending[..i];
  }

  lemma RecordOne(s: State, stored: bool)
    requires s.process.Alerting?
    ensures Step(s, Record(stored)) == RecordStep(s, stored)
  {
  }

  lemma SeedEffect(s: State, newest: nat)
    ensures Exec(s, [Seed(newest)]) == SeedStep(s, newest)
  {
    assert [Seed(newest)][..0] == [];
  }

  lemma CrashStep(s: State)
    ensures Step(s, Crash) == s.(process := Idle)
  {
  }

  lemma {:induction false} ExecJoin(s: State, first: seq<Action>, rest: seq<Action>)
    ensures Exec(s, first + rest) == Exec(Exec(s, first), rest)
  {
    hide Step;
    if rest == [] {
      assert first + rest == first;
    } else {
      var n := |rest| - 1;
      assert (first + rest)[..|first + rest| - 1] == first + rest[..n];
      ExecJoin(s, first, rest[..n]);
    }
  }

  /** What a smooth walk fetched, and where committing it leaves the cursor. */
  lemma SmoothWalk(ledger: Ledger, env: Environment, cursor: int, payments: seq<Payment>)
    requires WellFormed(ledger) && Walked(ledger, env.replies, cursor, MAX_PAGES_PER_CYCLE, PAGE_LIMIT, payments)
    ensures Smooth(ledger, env) ==>
              var p := Position(ledger, cursor);
              && payments == NextStretch(ledger, p)
              && (AllParse(payments) && payments != [] ==>
                    Position(ledger, payments[|payments| - 1].token) == CycleEnd(ledger, p))
              && (!AllParse(payments) || payments == [] ==> CycleEnd(ledger, p) == p)
  {
    hide Position;
    var p := Position(ledger, cursor);
    if payments != [] {
      PositionOf(ledger, p + |payments| - 1);
    }
  }

  /** When nothing fails, every walk succeeds. */
  lemma SmoothMeansNoLoss(ledger: Ledger, env: Environment)
    requires Smooth(ledger, env)
    ensures env.cursorReadOk && WritesSucceed(env) && env.commit == Written
    ensures forall n: nat :: n < MAX_PAGES_PER_CYCLE ==> !env.replies(n).Lost?
  {
  }

  lemma InvWellFormed(s: State)
    requires Inv(s)
    ensures WellFormed(s.ledger)
  {
  }

  /** A successful walk is a fetch step. */
  lemma FetchWalked(s: State, settings: Settings, env: Environment, payments: seq<Payment>)
    requires s.process.Idle? && s.db.cursor.Some? && payments != []
    requires Walked(s.ledger, env.replies, s.db.cursor.value, MAX_PAGES_PER_CYCLE, PAGE_LIMIT, payments)
    ensures Exec(s, [Fetch(settings, |payments|)]) == s.(process := Working(settings, payments, 0, [], []))
  {
    assert [Fetch(settings, |payments|)][..0] == [];
  }

  lemma ReadyToCommit(s: State, settings: Settings, payments: seq<Payment>, txRows: seq<WhaleRow>, pending: seq<Whale>)
    requires Inv(s) && s.process == Working(settings, payments, |payments|, txRows, pending)
    ensures Strip(txRows) == pending == WhalesIn(settings, payments) && AllParse(payments)
  {
    assert payments[..|payments|] == payments;
  }

  lemma CommitEffect(s: State, acknowledged: bool)
    ensures Step(s, Commit(acknowledged)) == CommitStep(s, acknowledged)
  {
  }

  predicate FindsWhale(settings: Settings, p: Payment) {
    match Assess(settings, p) case Success(Some(_)) => true case _ => false
  }

  /** Every whale's insert succeeds. */
  ghost predicate AllInsert(settings: Settings, payments: seq<Payment>, env: Environment) {
    forall i: nat :: i < |payments| && FindsWhale(settings, payments[i]) ==> env.insertOk(i)
  }

  /** The transaction's loop over the fetched payments. */
  method ExamineAll(settings: Settings, payments: seq<Payment>, rows: seq<WhaleRow>, env: Environment, ghost s: State)
    returns (r: Result<(seq<WhaleRow>, seq<Whale>), string>, ghost trace: seq<Action>)
    requires s.process == Working(settings, payments, 0, [], []) && s.db.rows == rows
    ensures match r
            case Success((txRows, pending)) =>
              Exec(s, trace) == s.(process := Working(settings, payments, |payments|, txRows, pending))
            case Failure(_) => Exec(s, trace) == s.(process := Idle)
    ensures r.Success? <==> AllParse(payments) && AllInsert(settings, payments, env)
  {
    hide Assess, Conflicts, Exec;
    var txRows: seq<WhaleRow>, pending: seq<Whale> := [], [];
    trace := [];
    assert Exec(s, []) == s by { ExecNothing(s); }
    for i := 0 to |payments|
      invariant Exec(s, trace) == s.(process := Working(settings, payments, i, txRows, pending))
      invariant forall k :: 0 <= k < i ==> !payments[k].amount.Unparsable?
      invariant forall k: nat :: k < i && FindsWhale(settings, payments[k]) ==> env.insertOk(k)
    {
      var p := payments[i];
      var found := Assess(settings, p);
      ghost var step := Examine(env.clock(i));
      ExecOneMore(s, trace, step);
      FailsIffUnparsable(settings, p);
      if found.Failure? {
        return Failure(found.error), trace + [step];
      }
      if found.value.Some? {
        if !env.insertOk(i) {
          ExecOneMore(s, trace, Crash);
          return Failure("insert failed"), trace + [Crash];
        }
        var whale := Whale(p, found.value.value);
        if !Conflicts(rows + txRows, env.clock(i), p.id) {
          txRows := txRows + [WhaleRow(env.clock(i), whale)];
          pending := pending + [whale];
        }
      }
      trace := trace + [step];
    }
    return Success((txRows, pending)), trace;
  }

  lemma ExecNothing(s: State)
    ensures Exec(s, []) == s
  {
  }

  // ---- working off a backlog ----

  /** Where `n` smooth cycles on a ledger that no longer grows leave the cursor. */
  function AfterCycles(ledger: Ledger, p: nat, n: nat): (q: nat)
    requires p <= |ledger|
    ensures q <= |ledger|
  {
    if n == 0 then p else CycleEnd(ledger, AfterCycles(ledger, p, n - 1))
  }

  /** While all amounts parse, every cycle takes `min(backlog, 25 full pages)` off. */
  lemma {:induction false} BacklogFalls(ledger: Ledger, p: nat, n: nat)
    requires p <= |ledger| && AllParse(ledger[p..])
    ensures AfterCycles(ledger, p, n) == p + Min(|ledger| - p, n * (25 * 200))
  {
    if n > 0 {
      BacklogFalls(ledger, p, n - 1);
      var q := AfterCycles(ledger, p, n - 1);
      assert n * CYCLE_LIMIT == (n - 1) * CYCLE_LIMIT + CYCLE_LIMIT;
      ParsesAhead(ledger, p, q);
    }
  }

  lemma {:induction false} StuckBefore(ledger: Ledger, p: nat, n: nat, i: nat)
    requires p <= i < |ledger| && ledger[i].amount.Unparsable?
    ensures AfterCycles(ledger, p, n) <= i
  {
    if n > 0 {
      StuckBefore(ledger, p, n - 1, i);
      var q := AfterCycles(ledger, p, n - 1);
      if i < q + |NextStretch(ledger, q)| {
        assert NextStretch(ledger, q)[i - q] == ledger[i];
      }
    }
  }

  /** Smooth cycles ever reach the tip exactly when every amount in the backlog
      parses: one that does not stalls ingestion for good. */
  lemma CatchesUpExactly(ledger: Ledger, p: nat)
    requires p <= |ledger|
    ensures (exists n: nat :: AfterCycles(ledger, p, n) == |ledger|) <==> AllParse(ledger[p..])
  {
    hide AfterCycles;
    if AllParse(ledger[p..]) {
      var n := |ledger| - p;
      BacklogFalls(ledger, p, n);
      assert n * CYCLE_LIMIT >= n;
      assert AfterCycles(ledger, p, n) == |ledger|;
    } else {
      var k :| 0 <= k < |ledger[p..]| && ledger[p..][k].amount.Unparsable?;
      forall n: nat
        ensures AfterCycles(ledger, p, n) != |ledger|
      {
        StuckBefore(ledger, p, n, p + k);
      }
    }
  }
}
